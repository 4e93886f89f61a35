/** `parse_status` and the verdict table it reads. */
module Status {
  import opened Json
  import opened Errors

  /** HOMEWORK_VERDICTS: a Python dict, so an ordered table of
      (status, verdict) pairs that the lookup walks in insertion order. */
  const HomeworkVerdicts: seq<(string, string)> := [
    ("approved", "Работа проверена: ревьюеру всё понравилось. Ура!"),
    ("reviewing", "Работа взята на проверку ревьюером."),
    ("rejected", "Работа проверена: у ревьюера есть замечания.")
  ]

  /** The keys of a table, in order; `s in Keys(t)` is Python's `s in t`. */
  function Keys(t: seq<(string, string)>): (ks: seq<string>)
    ensures |ks| == |t|
    ensures forall k :: 0 <= k < |t| ==> ks[k] == t[k].0
  {
    if t == [] then [] else [t[0].0] + Keys(t[1..])
  }

  /** The search loop of `parse_status`: walk the table and stop at the first
      key equal to the status; None is falling off the end of the loop. */
  function Lookup(t: seq<(string, string)>, status: string): (r: Option<string>)
    ensures r.Some? ==> exists k :: 0 <= k < |t| && t[k] == (status, r.value)
                                    && forall j :: 0 <= j < k ==> t[j].0 != status
    ensures r.None? ==> forall k :: 0 <= k < |t| ==> t[k].0 != status
  {
    if t == [] then None
    else if t[0].0 == status then Some(t[0].1)
    else Lookup(t[1..], status)
  }

  /** The loop finds an entry exactly for the statuses that pass the
      membership test, and what it finds is that status's verdict in the
      table. So the loop never falls through for a status already checked
      to be a key. */
  lemma {:induction false} LookupTotal(t: seq<(string, string)>, status: string)
    ensures Lookup(t, status).Some? <==> status in Keys(t)
    ensures Lookup(t, status).Some? ==> (status, Lookup(t, status).value) in t
  {
    if t != [] {
      LookupTotal(t[1..], status);
      assert Keys(t) == [t[0].0] + Keys(t[1..]);
    }
  }

  const MessagePrefix := "Изменился статус проверки работы \""
  const MessageInfix := "\". "

  /** The user-facing notification text for a homework name and a verdict. */
  function Message(name: string, verdict: string): (m: string)
    ensures |m| == |MessagePrefix| + |name| + |MessageInfix + verdict|
    ensures m[..|MessagePrefix|] == MessagePrefix
    ensures EndsWith(m, MessageInfix + verdict)
    ensures m[|MessagePrefix|..|m| - |MessageInfix + verdict|] == name
  {
    var m := MessagePrefix + name + MessageInfix + verdict;
    assert m == MessagePrefix + name + (MessageInfix + verdict);
    m
  }

  /** HOMEWORK_VERDICTS has exactly the keys approved, reviewing and
      rejected, in that order and each once, and every verdict is a
      non-empty text. */
  lemma VerdictTable()
    ensures Keys(HomeworkVerdicts) == ["approved", "reviewing", "rejected"]
    ensures forall i, j | 0 <= i < j < |HomeworkVerdicts| :: HomeworkVerdicts[i].0 != HomeworkVerdicts[j].0
    ensures forall p | p in HomeworkVerdicts :: |p.1| >= 2
  {
  }

  /** `parse_status`. The checks run in a fixed order and the first one that
      fails decides the exception: the homework must be subscriptable and
      hold a `status`; the status must not be empty; it must be hashable and
      a key of the table; only then must `homework_name` be present. The
      table's keys are distinct (`VerdictTable`), so a known status has one
      verdict and the text is fixed. */
  function ParseStatus(homework: Value): (r: Result<string>)
    ensures !homework.JObject? ==> r == Err(HomeworkNotSubscriptable)
    ensures homework.JObject? && "status" !in homework.fields ==> r == Err(StatusMissing)
    ensures homework.JObject? && "status" in homework.fields ==>
      var status := homework.fields["status"];
      && (status == JString("") ==> r == Err(StatusEmpty))
      && (status != JString("") && !Hashable(status) ==> r == Err(StatusUnhashable))
      && ((Hashable(status) && status != JString("")
           && !(status.JString? && status.s in Keys(HomeworkVerdicts))) ==> r == Err(StatusUnknown))
      && (status.JString? && status.s in Keys(HomeworkVerdicts) ==>
            if "homework_name" in homework.fields
            then forall verdict | (status.s, verdict) in HomeworkVerdicts ::
                   r == Ok(Message(Str(homework.fields["homework_name"]), verdict))
            else r == Err(NameMissing))
  {
    if !homework.JObject? then Err(HomeworkNotSubscriptable)
    else if "status" !in homework.fields then Err(StatusMissing)
    else
      var status := homework.fields["status"];
      if status == JString("") then Err(StatusEmpty)
      else if !Hashable(status) then Err(StatusUnhashable)
      else if !(status.JString? && status.s in Keys(HomeworkVerdicts)) then Err(StatusUnknown)
      else if "homework_name" !in homework.fields then Err(NameMissing)
      else
        LookupTotal(HomeworkVerdicts, status.s);
        VerdictTable();
        match Lookup(HomeworkVerdicts, status.s)
        case Some(verdict) => Ok(Message(Str(homework.fields["homework_name"]), verdict))
        case None => assert false; Err(StatusUnknown)
  }

  /** For each of the three known statuses with a name present, the exact
      text of the notification. */
  lemma ParseStatusMessages(name: Value, extra: map<string, Value>)
    ensures ParseStatus(JObject(extra["status" := JString("approved")]["homework_name" := name]))
         == Ok("Изменился статус проверки работы \"" + Str(name)
               + "\". " + "Работа проверена: ревьюеру всё понравилось. Ура!")
    ensures ParseStatus(JObject(extra["status" := JString("reviewing")]["homework_name" := name]))
         == Ok("Изменился статус проверки работы \"" + Str(name)
               + "\". " + "Работа взята на проверку ревьюером.")
    ensures ParseStatus(JObject(extra["status" := JString("rejected")]["homework_name" := name]))
         == Ok("Изменился статус проверки работы \"" + Str(name)
               + "\". " + "Работа проверена: у ревьюера есть замечания.")
  {
    KnownStatusMessage(name, extra, 0);
    KnownStatusMessage(name, extra, 1);
    KnownStatusMessage(name, extra, 2);
  }

  lemma KnownStatusMessage(name: Value, extra: map<string, Value>, k: nat)
    requires k < |HomeworkVerdicts|
    ensures ParseStatus(JObject(extra["status" := JString(HomeworkVerdicts[k].0)]["homework_name" := name]))
         == Ok("Изменился статус проверки работы \"" + Str(name) + "\". " + HomeworkVerdicts[k].1)
  {
    var fields := extra["status" := JString(HomeworkVerdicts[k].0)]["homework_name" := name];
    assert fields["status"] == JString(HomeworkVerdicts[k].0);
    assert fields["homework_name"] == name;
    assert Keys(HomeworkVerdicts) == ["approved", "reviewing", "rejected"];
    assert Lookup(HomeworkVerdicts, HomeworkVerdicts[k].0) == Some(HomeworkVerdicts[k].1);
  }

  /** An unknown status is reported before a missing name, and an empty
      status before either. */
  lemma StatusCheckedBeforeName(status: string, extra: map<string, Value>)
    requires "homework_name" !in extra
    ensures status == "" ==> ParseStatus(JObject(extra["status" := JString(status)])) == Err(StatusEmpty)
    ensures status !in {"", "approved", "reviewing", "rejected"} ==>
      ParseStatus(JObject(extra["status" := JString(status)])) == Err(StatusUnknown)
    ensures status in {"approved", "reviewing", "rejected"} ==>
      ParseStatus(JObject(extra["status" := JString(status)])) == Err(NameMissing)
  {
    assert Keys(HomeworkVerdicts) == ["approved", "reviewing", "rejected"];
  }

  /** `m` ends with `tail`. */
  predicate EndsWith(m: string, tail: string) {
    |tail| <= |m| && m[|m| - |tail|..] == tail
  }

  /** The last two characters of a text. */
  function LastTwo(s: string): (pair: (char, char))
    requires |s| >= 2
  {
    (s[|s| - 2], s[|s| - 1])
  }

  /** Reads back the name and the status from a notification text: the
      inverse of the message template. */
  function DecodeMessage(t: seq<(string, string)>, m: string): (r: Option<(string, string)>)
    ensures r.Some? ==> exists v :: (r.value.1, v) in t && Message(r.value.0, v) == m
  {
    if t == [] then None
    else
      var tail := MessageInfix + t[0].1;
      if |MessagePrefix| + |tail| <= |m| && m[..|MessagePrefix|] == MessagePrefix && EndsWith(m, tail)
      then Some((m[|MessagePrefix|..|m| - |tail|], t[0].0))
      else DecodeMessage(t[1..], m)
  }

  lemma EndsWithLastTwo(m: string, tail: string)
    requires |tail| >= 2
    ensures EndsWith(m, tail) ==> LastTwo(m) == LastTwo(tail)
  {
    if EndsWith(m, tail) {
      assert m[|m| - 1] == m[|m| - |tail|..][|tail| - 1];
      assert m[|m| - 2] == m[|m| - |tail|..][|tail| - 2];
    }
  }

  /** The three verdicts end in three different pairs of characters: the
      approved verdict in "а!", the other two in "м." and "я.". */
  lemma VerdictEndingsDistinct(s1: string, v1: string, s2: string, v2: string)
    requires (s1, v1) in HomeworkVerdicts && (s2, v2) in HomeworkVerdicts && s1 != s2
    ensures |v1| >= 2 && |v2| >= 2 && LastTwo(v1) != LastTwo(v2)
  {
    assert LastTwo(HomeworkVerdicts[0].1) == ('а', '!');
    assert LastTwo(HomeworkVerdicts[1].1) == ('м', '.');
    assert LastTwo(HomeworkVerdicts[2].1) == ('я', '.');
  }

  /** A text that ends with one verdict's tail does not end with another's. */
  lemma TailsDiffer(m: string, s1: string, v1: string, s2: string, v2: string)
    requires (s1, v1) in HomeworkVerdicts && (s2, v2) in HomeworkVerdicts && s1 != s2
    requires EndsWith(m, MessageInfix + v1)
    ensures !EndsWith(m, MessageInfix + v2)
  {
    VerdictEndingsDistinct(s1, v1, s2, v2);
    var t1, t2 := MessageInfix + v1, MessageInfix + v2;
    assert LastTwo(t1) == LastTwo(v1) && LastTwo(t2) == LastTwo(v2);
    EndsWithLastTwo(m, t1);
    EndsWithLastTwo(m, t2);
  }

  /** Decoding a message built from an entry of the table gives back that
      entry's status and the name, whatever the name contains. */
  lemma {:induction false} DecodeMessageInverts(t: seq<(string, string)>, name: string, status: string, verdict: string)
    requires forall p | p in t :: p in HomeworkVerdicts
    requires (status, verdict) in t && (status, verdict) in HomeworkVerdicts
    ensures DecodeMessage(t, Message(name, verdict)) == Some((name, status))
  {
    var m := Message(name, verdict);
    var tail := MessageInfix + verdict;
    assert m == MessagePrefix + name + tail;
    assert m[..|MessagePrefix|] == MessagePrefix;
    assert m[|m| - |tail|..] == tail;
    assert m[|MessagePrefix|..|m| - |tail|] == name;
    if t[0] != (status, verdict) {
      assert t[0] in HomeworkVerdicts;
      TailsDiffer(m, status, verdict, t[0].0, t[0].1);
      DecodeMessageInverts(t[1..], name, status, verdict);
    }
  }

  /** A successful `parse_status` can be read back: the text determines the
      status and the rendered name. Two homeworks that produce the same
      notification have the same status and the same rendered name. */
  lemma ParseStatusDecodes(homework: Value)
    requires ParseStatus(homework).Ok?
    ensures homework.JObject? && "status" in homework.fields && "homework_name" in homework.fields
    ensures homework.fields["status"].JString?
    ensures DecodeMessage(HomeworkVerdicts, ParseStatus(homework).value)
         == Some((Str(homework.fields["homework_name"]), homework.fields["status"].s))
  {
    var status := homework.fields["status"].s;
    var name := Str(homework.fields["homework_name"]);
    var verdict :| (status, verdict) in HomeworkVerdicts
                   && ParseStatus(homework) == Ok(Message(name, verdict));
    DecodeMessageInverts(HomeworkVerdicts, name, status, verdict);
  }
}
