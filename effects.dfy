/** What a Slack event handler did, as seen from outside: the bot's observable behaviour. */
module Effects {
  import opened Outcomes
  import opened Http

  /** What handling one chat event did: requests sent, messages said, the exception it ended in. */
  datatype Effect = Effect(requests: seq<Request>, replies: seq<string>, raised: Option<Exception>)

  /** A handler that sent nothing, said nothing and did not raise. */
  const Nothing := Effect([], [], None)
}
