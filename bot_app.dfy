/** The app-mention handler of the stand-alone bot: `create incident <name> <status> <body>`. */
module BotApp {
  import opened Outcomes
  import opened Text
  import opened Http
  import opened Effects
  import opened BotStatuspage

  datatype CreateArgs = CreateArgs(name: string, status: string, body: string)

  /**
   * What the handler reads from the words of a mention: `IndexError` when
   * there is no third word to compare, `None` when the second and third
   * words are not `create incident`, `IndexError` when a matching mention
   * lacks one of the three arguments, and otherwise the fourth, fifth and
   * sixth words.
   */
  function ParseMention(tokens: seq<string>): Attempt<Option<CreateArgs>> {
    if |tokens| < 3 then Raised(IndexError)
    else if tokens[1] + " " + tokens[2] != "create incident" then Returned(None)
    else if |tokens| < 6 then Raised(IndexError)
    else Returned(Some(CreateArgs(tokens[3], tokens[4], tokens[5])))
  }

  /** `handle_app_mention_events` in `statuspage-bot/app.py`. */
  function HandleMention(pageId: string, text: string, outcome: Outcome<IncidentInfo>): Effect {
    match ParseMention(Split(text))
    case Raised(x) => Effect([], [], Some(x))
    case Returned(None) => Nothing
    case Returned(Some(args)) =>
      Effect([CreateIncidentRequest(pageId, args.name, args.status, args.body)], [CreateIncidentMessage(outcome)], None)
  }

  lemma FirstWordLength(a: string, b: string)
    requires NoSpace(a)
    ensures WordLength(a + " " + b) == |a|
  {
    assert IsSpace(' ');
    WordLengthOfWord(a, " " + b);
    assert a + " " + b == a + (" " + b);
  }

  lemma CreateIsWord()
    ensures NoSpace("create")
  {
    var w := "create";
    assert forall i :: 0 <= i < |w| ==> 'a' <= w[i] <= 'z';
  }

  /** Two concatenations with equally long first parts are equal only part by part. */
  lemma SplitEqual(a: string, c: string, x: string, d: string)
    requires a + c == x + d && |a| == |x|
    ensures a == x && c == d
  {
    assert a == (a + c)[..|a|] && x == (x + d)[..|x|];
    assert c == (a + c)[|a|..] && d == (x + d)[|x|..];
  }

  /** For single words, the key matches iff they are `create` and `incident`. */
  lemma KeyMatch(a: string, b: string)
    requires NoSpace(a) && NoSpace(b)
    ensures a + " " + b == "create incident" <==> a == "create" && b == "incident"
  {
    assert "create incident" == "create" + " " + "incident";
    if a + " " + b == "create" + " " + "incident" {
      FirstWordLength(a, b);
      CreateIsWord();
      FirstWordLength("create", "incident");
      assert a + " " + b == a + (" " + b);
      assert "create" + " " + "incident" == "create" + (" " + "incident");
      SplitEqual(a, " " + b, "create", " " + "incident");
      SplitEqual(" ", b, " ", "incident");
    }
  }

  /**
   * The classification of mentions: fewer than three words raise; words
   * other than `create incident` in second and third place do nothing;
   * a matching mention with fewer than six words raises; any other one sends
   * exactly the create request for the fourth to sixth words and says exactly
   * one reply, whatever follows the sixth word.
   */
  lemma MentionEffect(pageId: string, text: string, outcome: Outcome<IncidentInfo>)
    ensures var tokens, e := Split(text), HandleMention(pageId, text, outcome);
      && (|tokens| < 3 ==> e == Effect([], [], Some(IndexError)))
      && (|tokens| >= 3 && !(tokens[1] == "create" && tokens[2] == "incident") ==> e == Nothing)
      && (|tokens| >= 3 && tokens[1] == "create" && tokens[2] == "incident" && |tokens| < 6 ==>
            e == Effect([], [], Some(IndexError)))
      && (|tokens| >= 6 && tokens[1] == "create" && tokens[2] == "incident" ==>
            && e.requests == [CreateIncidentRequest(pageId, tokens[3], tokens[4], tokens[5])]
            && e.replies == [CreateIncidentMessage(outcome)]
            && e.raised == None)
  {
    var tokens := Split(text);
    if |tokens| >= 3 {
      KeyMatch(tokens[1], tokens[2]);
    }
  }

  /** A mention says a reply iff its second and third words are `create incident` and it has six words. */
  lemma ReplyIff(pageId: string, text: string, outcome: Outcome<IncidentInfo>)
    ensures var tokens := Split(text);
      HandleMention(pageId, text, outcome).replies != [] <==>
        |tokens| >= 6 && tokens[1] == "create" && tokens[2] == "incident"
  {
    MentionEffect(pageId, text, outcome);
  }
}
