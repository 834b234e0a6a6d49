/**
 * `create_incident` of the stand-alone bot: the same POST as the main bot,
 * with its own replies, and the HTTP-error branch taken before the generic
 * request-failure one. The failure prefix and the reply are defined here a
 * second time on purpose: the stand-alone bot keeps its own copy of
 * `statuspage.py`, and its reply differs from the main bot's.
 */
module BotStatuspage {
  import opened Http

  const FailurePrefix := "Operation failed: "
  const CreatedPrefix := "Incident "
  const CreatedSuffix := " created"

  /** The reply `create_incident` returns, given how the POST ended. */
  function CreateIncidentMessage(o: Outcome<IncidentInfo>): string {
    match o
    case Ok(result) => CreatedPrefix + result.name + CreatedSuffix
    case HttpError(text, _) => FailurePrefix + text
    case Failed(err) => FailurePrefix + err
  }

  /**
   * Every outcome is answered with a non-empty message. It starts with
   * "Operation failed: " iff the request failed, and then carries the raw
   * body of an error response, or the exception's text for any other
   * failure; a success names the incident the response describes.
   */
  lemma CreateIncidentReplies(o: Outcome<IncidentInfo>)
    ensures var m := CreateIncidentMessage(o);
      && |m| > 0
      && (FailurePrefix <= m <==> !o.Ok?)
      && (o.HttpError? ==> m[|FailurePrefix|..] == o.text)
      && (o.Failed? ==> m[|FailurePrefix|..] == o.detail)
      && (o.Ok? ==> && |m| == |CreatedPrefix| + |o.payload.name| + |CreatedSuffix|
                    && m[..|CreatedPrefix|] == CreatedPrefix
                    && m[|CreatedPrefix|..|m| - |CreatedSuffix|] == o.payload.name
                    && m[|m| - |CreatedSuffix|..] == CreatedSuffix)
  {
    var m := CreateIncidentMessage(o);
    if o.Ok? {
      assert m[0] == 'I';
      assert m[..|CreatedPrefix|] == CreatedPrefix;
      assert m[|CreatedPrefix|..|m| - |CreatedSuffix|] == o.payload.name;
    } else {
      assert m[..|FailurePrefix|] == FailurePrefix;
    }
  }
}
