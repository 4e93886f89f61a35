/** One pass of the `while True` loop in `main`: fetch, validate, report the
    first homework, try to send, and go to sleep with the same timestamp. */
module Poll {
  import opened Json
  import opened Errors
  import opened Api
  import opened Response
  import opened Status

  /** What the API returned to a request: its status code and decoded body. */
  datatype HttpAnswer = HttpAnswer(statusCode: int, body: Value)

  /** How a pass ends: the loop goes to sleep and runs again, or an exception
      escapes `main` and the process stops. */
  datatype Outcome = Sleeps | Terminates(failure: Failure)

  /** The decision of one pass, before sending: the text handed to
      `send_message` (None when the homework list is empty), or the
      exception that escapes the loop. */
  function Decide(answer: HttpAnswer): (r: Result<Option<string>>)
    ensures ClassifyStatusCode(answer.statusCode).Raise? ==>
      r == Err(ClassifyStatusCode(answer.statusCode).failure)
    ensures r == Ok(None) <==>
      ClassifyStatusCode(answer.statusCode).ReturnBody? && CheckResponse(answer.body) == Ok([])
    ensures r.Ok? && r.value.Some? ==>
      && CheckResponse(answer.body).Ok? && CheckResponse(answer.body).value != []
      && ParseStatus(CheckResponse(answer.body).value[0]) == Ok(r.value.value)
    ensures ClassifyStatusCode(answer.statusCode).ReturnBody? && CheckResponse(answer.body).Err? ==>
      r == Err(CheckResponse(answer.body).failure)
    ensures ClassifyStatusCode(answer.statusCode).ReturnBody? && CheckResponse(answer.body).Ok?
            && CheckResponse(answer.body).value != [] ==>
      r == match ParseStatus(CheckResponse(answer.body).value[0])
           case Ok(text) => Ok(Some(text))
           case Err(f) => Err(f)
  {
    match GetApiAnswer(answer.statusCode, answer.body)
    case Err(f) => Err(f)
    case Ok(response) =>
      match CheckResponse(response)
      case Err(f) => Err(f)
      case Ok(homeworks) =>
        if homeworks == [] then Ok(None)
        else
          match ParseStatus(homeworks[0])
          case Err(f) => Err(f)
          case Ok(message) => Ok(Some(message))
  }

  /** One pass. `fetch` stands for the API: the answer it gives to a request
      with `from_date` set to the timestamp. `sendRaises` says whether the
      chat library raises when asked to send. `sent` lists the texts handed to
      the library, `delivered` those it accepted. */
  method PollOnce(timestamp: int, fetch: int -> HttpAnswer, sendRaises: bool)
    returns (nextTimestamp: int, sent: seq<string>, delivered: seq<string>, outcome: Outcome)
    ensures nextTimestamp == timestamp
    ensures outcome.Terminates? <==> Decide(fetch(timestamp)).Err?
    ensures outcome.Terminates? ==> outcome.failure == Decide(fetch(timestamp)).failure
    ensures |sent| <= 1
    ensures sent != [] <==> Decide(fetch(timestamp)).Ok? && Decide(fetch(timestamp)).value.Some?
    ensures sent != [] ==> sent[0] == Decide(fetch(timestamp)).value.value
    ensures delivered == if sendRaises then [] else sent
  {
    nextTimestamp, sent, delivered := timestamp, [], [];
    var answer := fetch(timestamp);
    var response := GetApiAnswer(answer.statusCode, answer.body);
    if response.Err? {
      outcome := Terminates(response.failure);
      return;
    }
    var homeworks := CheckResponse(response.value);
    if homeworks.Err? {
      outcome := Terminates(homeworks.failure);
      return;
    }
    if homeworks.value != [] {
      var message := ParseStatus(homeworks.value[0]);
      if message.Err? {
        outcome := Terminates(message.failure);
        return;
      }
      sent := [message.value];
      if !sendRaises {
        delivered := [message.value];
      }
    }
    outcome := Sleeps;
  }

  /** The answer to a successful request whose body carries the given
      homework list next to the other fields. */
  function Answer(code: int, fields: map<string, Value>, homeworks: seq<Value>): (a: HttpAnswer) {
    HttpAnswer(code, JObject(fields["homeworks" := JArray(homeworks)]))
  }

  /** Only the first homework is reported: the rest of the list is neither
      reported nor checked, so a malformed later entry changes nothing. */
  lemma OnlyFirstHomework(code: int, fields: map<string, Value>, homeworks: seq<Value>)
    requires code !in {400, 401, 500, 204}
    requires homeworks != []
    ensures Decide(Answer(code, fields, homeworks)) == Decide(Answer(code, fields, [homeworks[0]]))
    ensures Decide(Answer(code, fields, homeworks)).Ok? <==> ParseStatus(homeworks[0]).Ok?
    ensures ParseStatus(homeworks[0]).Ok? ==>
      Decide(Answer(code, fields, homeworks)) == Ok(Some(ParseStatus(homeworks[0]).value))
  {
    AcceptsAnyHomeworksList(fields, homeworks);
    AcceptsAnyHomeworksList(fields, [homeworks[0]]);
  }

  /** An empty homework list is a quiet pass: nothing is sent and the loop
      goes on. */
  lemma EmptyListSendsNothing(code: int, fields: map<string, Value>)
    requires code !in {400, 401, 500, 204}
    ensures Decide(Answer(code, fields, [])) == Ok(None)
  {
    AcceptsAnyHomeworksList(fields, []);
  }

  /** A failure in fetching, validating or parsing is not caught: it ends the
      loop, and nothing is sent. Status 401 is such a failure. */
  lemma FailuresEndTheLoop(answer: HttpAnswer)
    ensures answer.statusCode in {400, 401, 500, 204} ==>
      Decide(answer) == Err(ClassifyStatusCode(answer.statusCode).failure)
    ensures answer.statusCode == 401 ==> Decide(answer) == Err(Unauthorized)
    ensures answer.statusCode !in {400, 401, 500, 204} && CheckResponse(answer.body).Err? ==>
      Decide(answer) == Err(CheckResponse(answer.body).failure)
    ensures answer.statusCode !in {400, 401, 500, 204} && CheckResponse(answer.body).Ok?
            && CheckResponse(answer.body).value != [] && ParseStatus(CheckResponse(answer.body).value[0]).Err? ==>
      Decide(answer) == Err(ParseStatus(CheckResponse(answer.body).value[0]).failure)
  {
  }

  /** The homework record of the approved scenario. */
  function Proj1Approved(): (h: Value) {
    JObject(map["homework_name" := JString("proj1"), "status" := JString("approved")])
  }

  /** The text `parse_status` makes of an approved homework named proj1. */
  lemma Proj1ApprovedParses()
    ensures ParseStatus(Proj1Approved())
         == Ok("Изменился статус проверки работы \"" + "proj1" + "\". " + "Работа проверена: ревьюеру всё понравилось. Ура!")
  {
    ParseStatusMessages(JString("proj1"), map[]);
    assert Proj1Approved().fields == map[]["status" := JString("approved")]["homework_name" := JString("proj1")];
  }

  /** An answer whose list holds one approved homework named "proj1" leads
      to the approved notification for proj1, whatever else the body holds. */
  lemma ApprovedProj1Decides(fields: map<string, Value>)
    ensures Decide(Answer(200, fields, [Proj1Approved()]))
         == Ok(Some("Изменился статус проверки работы \"" + "proj1" + "\". " + "Работа проверена: ревьюеру всё понравилось. Ура!"))
  {
    Proj1ApprovedParses();
    OnlyFirstHomework(200, fields, [Proj1Approved()]);
  }

  /** A pass over an answer carrying one approved homework named "proj1":
      exactly one text is sent, and the timestamp stays where it was even
      though the body carries a `current_date`. */
  method ApprovedHomeworkScenario(timestamp: int, sendRaises: bool)
    returns (nextTimestamp: int, sent: seq<string>)
    ensures nextTimestamp == timestamp
    ensures sent == ["Изменился статус проверки работы \"" + "proj1" + "\". " + "Работа проверена: ревьюеру всё понравилось. Ура!"]
  {
    var homework := Proj1Approved();
    var fields := map["current_date" := JInt(1700000000)];
    ApprovedProj1Decides(fields);
    var fetch := (t: int) => Answer(200, fields, [homework]);
    var delivered, outcome;
    nextTimestamp, sent, delivered, outcome := PollOnce(timestamp, fetch, sendRaises);
  }
}
