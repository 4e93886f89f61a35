# review_bot homework poller: a Dafny model of its decision logic

The bot polls the Yandex Practicum homework-status API. It checks the shape
of the answer, turns the status of the first homework into a Russian
notification text and hands that text to a Telegram bot. This project models
the decision logic of `homework.py` without the network, Telegram or logging:

- `json.dfy`: decoded JSON values as Python sees them (dict, list, str, int,
  bool, None). Also Python's hashability and `str()` rendering, which
  `parse_status` relies on.
- `errors.dfy`: one `Failure` per place an exception is raised, and
  the Python exception class each one surfaces as.
- `api.dfy`: the status-code branch of `get_api_answer`.
- `response.dfy`: `check_response`.
- `status.dfy`: the `HOMEWORK_VERDICTS` table, `parse_status` with its lookup
  loop, and a decoder that reads the name and status back from a notification.
- `poll.dfy`: one pass of the `while True` loop in `main`. The API and the
  chat library appear as parameters.

What the code does and does not do:

- The timestamp is set once before the loop and never changes. The code does
  not move it to the answer's `current_date`.
- Nothing de-duplicates alerts. No failure is ever sent to the chat.
- Only an exception from sending is caught. An exception from
  `get_api_answer`, `check_response` or `parse_status` escapes `main` and
  ends the process. `Poll.Outcome.Terminates` models this.
- Status codes other than 400, 401, 500 and 204 are not failures, even when
  they are not 200. The body is returned for every such code.
- `homework.py` imports `UnknownError`, `NotAuthenticated`,
  `InternalServerError` and `NoContent` from `exceptions.py`. That file
  defines other names, so the import as written would fail. The model treats
  the four names as distinct exception classes (`Errors.Exception`).

## Model

| member | source | states |
|---|---|---|
| `Json.Hashable` | homework.py:111 | a decoded value can be tested for membership in the verdict dict iff it is None, a bool, an int or a string; a list or a dict cannot |
| `Json.NatToString` | homework.py:120 | the rendering of a natural number is its decimal digits: they denote that number and have no leading zero (Python `str()`) |
| `Json.IntToString` | homework.py:120 | an int renders with a leading minus exactly when it is negative, followed by the digits that denote its magnitude, with no leading zero |
| `Json.Str` | homework.py:120 | the f-string rendering of a name: a string as itself, an int as its decimal text, None as `None`, a bool as `True`/`False` |
| `Errors.ExceptionOf` | homework.py:73-115 | the Python class of each raise: TypeError for the four type checks, KeyError for the four missing or unknown keys, ValueError only for the empty status, and the four imported classes exactly for the four HTTP failures |
| `Api.ClassifyStatusCode` | homework.py:73-85 | exactly the codes 400, 401, 500 and 204 raise, with UnknownError, NotAuthenticated, InternalServerError and NoContent respectively; each iff its code; every other code goes on to the body |
| `Api.GetApiAnswer` | homework.py:73-87 | succeeds iff the code is not one of the four; on success returns the decoded body unchanged; on failure raises exactly the failure that code's branch raises |
| `Response.CheckResponse` | homework.py:90-104 | a non-dict fails with a TypeError; a dict without `homeworks` fails with a KeyError; success iff a dict whose `homeworks` is a list, and then that list is returned as is; every other failure is a TypeError |
| `Response.AcceptsAnyHomeworksList` | homework.py:99-104 | any dict whose `homeworks` holds a list, the empty list included, yields exactly that list, whatever other keys it has |
| `Response.RejectsNonListHomeworks` | homework.py:99-103 | a dict whose `homeworks` holds anything but a list fails with the not-a-list error, whatever other keys it has |
| `Response.RejectsNonDict` | homework.py:92-95 | any body that is not a dict fails with the not-a-dict error |
| `Status.VerdictTable` | homework.py:28-32 | the verdict table's keys are approved, reviewing and rejected, in that order and each once, and each verdict is non-empty |
| `Status.Keys` | homework.py:111-116 | the table's keys in insertion order, one per entry; membership in them is the dict's own membership test |
| `Status.Lookup` | homework.py:116-121 | the search loop returns the verdict of the first entry whose key equals the status, and None only when no key equals it |
| `Status.LookupTotal` | homework.py:116-121 | the lookup loop finds an entry iff the status is a key of the table (the membership test of line 111), and what it finds is that key's verdict, so it never falls through and returns None |
| `Status.ParseStatus` | homework.py:107-121 | the checks decide in a fixed order: not a dict (TypeError), no `status` (KeyError), empty status (ValueError), list or dict status (TypeError), status not a table key (KeyError), and only then a missing `homework_name` (KeyError); with all checks passed the result is the template filled with the rendered name and that status's verdict from the table |
| `Status.Message` | homework.py:120-121 | the notification starts with the fixed prefix, ends with `". ` and the verdict, and holds exactly the name in between |
| `Status.KnownStatusMessage` | homework.py:116-121 | for the k-th table entry, a homework with that status and a name gives `Изменился статус проверки работы "<name>". ` followed by that entry's verdict |
| `Status.ParseStatusMessages` | homework.py:28-32 | the exact notification text for each of approved, reviewing and rejected, with the verdict written out |
| `Status.StatusCheckedBeforeName` | homework.py:109-115 | without a `homework_name`: an empty status reports the empty-status error, an unknown status the unknown-status error, and only a known status the missing-name error |
| `Status.VerdictEndingsDistinct` | homework.py:28-32 | the three verdict texts end in three different pairs of characters |
| `Status.TailsDiffer` | homework.py:28-32 | a text that ends with one verdict's tail cannot end with a different verdict's tail |
| `Status.DecodeMessage` | homework.py:120-121 | whatever the decoder reads back from a text re-encodes to that same text with a verdict the table gives the decoded status |
| `Status.DecodeMessageInverts` | homework.py:120-121 | decoding a notification built from a table entry gives back the name and the status, whatever characters the name holds |
| `Status.ParseStatusDecodes` | homework.py:107-121 | every successful `parse_status` text decodes to the homework's rendered name and its status, so equal texts mean equal status and name |
| `Poll.Decide` | homework.py:132-135 | a raising status code ends the pass with that code's failure; otherwise a failure of `check_response` ends the pass with that same failure; nothing is to be sent iff the code returns the body and the body is a dict with an empty list; with a non-empty list, a first homework that parses gives exactly its text to send, and one that does not ends the pass with the parser's failure |
| `Poll.PollOnce` | homework.py:131-144 | one pass keeps the timestamp unchanged; it ends the process iff fetching, validating or parsing fails, with that failure; it sends at most one text, exactly the parsed text of the first homework when there is one; a raising send loses the text but the pass still ends in sleep |
| `Poll.OnlyFirstHomework` | homework.py:134-135 | with a non-empty list the pass depends on the first homework alone: the rest are neither reported nor checked |
| `Poll.EmptyListSendsNothing` | homework.py:133-134 | an empty `homeworks` list gives a pass that sends nothing and goes on |
| `Poll.FailuresEndTheLoop` | homework.py:132-135 | a raising status code ends the loop with that code's own failure (401 with the not-authenticated one), a malformed body with the validator's failure, and an unparsable first homework with the parser's failure |
| `Poll.Proj1ApprovedParses` | homework.py:107-121 | an approved homework named proj1 parses to the exact approved notification for proj1 |
| `Poll.ApprovedProj1Decides` | homework.py:132-135 | an answer whose list holds one approved homework named proj1 decides to send the exact approved notification for proj1 |
| `Poll.ApprovedHomeworkScenario` | homework.py:129-144 | for an answer with one approved homework named proj1 and a `current_date`, the one text sent is the exact approved notification, and the timestamp stays the same |

## Left out

- Sending the request (`requests.get`) and decoding the body (`.json()`), homework.py:67-72 and 86: these are network I/O. The decoded body is an input. A body that is not JSON, and the path where the request raises, are not modelled. On that path `homework_statuses` is never bound and line 73 would raise.
- JSON numbers with a fractional part: the value type has no floats.
- `Json.Str`: a `homework_name` that is a list or a dict renders as a fixed placeholder, not as Python's `repr`, so the contract says nothing about those two cases. Strings, ints, booleans and null render as Python renders them.
- The Telegram bot and `send_message` (homework.py:58-61, 128): a foreign library. Sending is a step that either returns or raises (`sendRaises`).
- `load_dotenv`, `os.getenv` and `check_tokens` (homework.py:16-20, 50-55): configuration loading with a None check.
- Logging setup and every `logger` call: output only.
- `time.time()`, `time.sleep(RETRY_PERIOD)` and the unending `while True` (homework.py:129-131, 144): wall-clock time and sleeping. A single pass is modelled. Its timestamp is an input, and the timestamp it leaves for the next pass is an output.
- `exceptions.py`: three empty exception classes, none of them used by `homework.py`.
