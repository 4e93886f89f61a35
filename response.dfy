/** `check_response`: the shape check on the decoded API answer. */
module Response {
  import opened Json
  import opened Errors

  /** The three checks run in order: the body must be a dict, it must have a
      `homeworks` key, and that key must hold a list. The list is returned as
      it is. */
  function CheckResponse(response: Value): (r: Result<seq<Value>>)
    ensures !response.JObject? ==> r == Err(ResponseNotDict)
    ensures response.JObject? && "homeworks" !in response.fields ==> r == Err(HomeworksMissing)
    ensures (response.JObject? && "homeworks" in response.fields
             && !response.fields["homeworks"].JArray?) ==> r == Err(HomeworksNotList)
    ensures r.Ok? <==> response.JObject? && "homeworks" in response.fields
                       && response.fields["homeworks"].JArray?
    ensures r.Ok? ==> response.fields["homeworks"] == JArray(r.value)
    ensures r.Err? ==> ExceptionOf(r.failure) == (if r.failure == HomeworksMissing then KeyError else TypeError)
  {
    if !response.JObject? then Err(ResponseNotDict)
    else if "homeworks" !in response.fields then Err(HomeworksMissing)
    else if !response.fields["homeworks"].JArray? then Err(HomeworksNotList)
    else Ok(response.fields["homeworks"].items)
  }

  /** Any dict whose `homeworks` key holds a list passes, whatever else it
      holds, and gives back that very list; the empty list is a success. */
  lemma AcceptsAnyHomeworksList(fields: map<string, Value>, homeworks: seq<Value>)
    ensures CheckResponse(JObject(fields["homeworks" := JArray(homeworks)])) == Ok(homeworks)
  {
  }

  /** A dict whose `homeworks` key holds anything but a list fails with the
      not-a-list TypeError, whatever else the dict holds. */
  lemma RejectsNonListHomeworks(fields: map<string, Value>, homeworks: Value)
    requires !homeworks.JArray?
    ensures CheckResponse(JObject(fields["homeworks" := homeworks])) == Err(HomeworksNotList)
  {
  }

  /** Anything that is not a dict fails with the not-a-dict TypeError. */
  lemma RejectsNonDict(response: Value)
    requires !response.JObject?
    ensures CheckResponse(response) == Err(ResponseNotDict)
  {
  }
}
