/**
 * The Slack side of the bot: the app-mention handler that splits a mention
 * into words and dispatches `get unresolved`, `get incident` and
 * `update incident`, and the `declare_incident` shortcut that opens the
 * incident form with the status drop-down filled in.
 */
module App {
  import opened Outcomes
  import opened Text
  import opened Http
  import opened Effects
  import opened Statuspage

  const IncidentStatuses: seq<string> :=
    ["investigating", "identified", "monitoring", "resolved", "scheduled", "in_progress", "verifying", "completed"]

  // The app-mention handler

  /** `" ".join(message_arr[1:3])`: the second and third words, or fewer when the mention is short. */
  function CommandKey(tokens: seq<string>): (key: string)
    ensures |tokens| <= 1 ==> key == ""
    ensures |tokens| == 2 ==> key == tokens[1]
    ensures |tokens| >= 3 ==> key == tokens[1] + " " + tokens[2]
  {
    var words := Slice(tokens, 1, 3);
    assert |tokens| >= 3 ==> words == [tokens[1], tokens[2]] && words[1..] == [tokens[2]]
                             && Join(words, " ") == tokens[1] + " " + Join([tokens[2]], " ");
    assert |tokens| == 2 ==> words == [tokens[1]];
    Join(words, " ")
  }

  const CommandKeys: set<string> := {"get unresolved", "get incident", "update incident"}

  datatype Command =
    | GetUnresolved
    | GetIncident(id: string)
    | UpdateIncident(id: string, status: string, body: string)

  /**
   * Which entry of the `commands` table the mention selects, with the
   * arguments its lambda reads; `IndexError` when the lambda reads a word
   * past the end, `None` when the key is not in the table.
   */
  function ParseCommand(tokens: seq<string>): (r: Attempt<Option<Command>>)
    ensures CommandKey(tokens) !in CommandKeys <==> r == Returned(None)
    ensures r.Raised? ==> r.exception == IndexError
    ensures r == Raised(IndexError) <==>
      (CommandKey(tokens) == "get incident" && |tokens| < 4) || (CommandKey(tokens) == "update incident" && |tokens| < 5)
  {
    var key := CommandKey(tokens);
    if key == "get unresolved" then Returned(Some(GetUnresolved))
    else if key == "get incident" then
      if |tokens| < 4 then Raised(IndexError) else Returned(Some(GetIncident(tokens[3])))
    else if key == "update incident" then
      if |tokens| < 5 then Raised(IndexError)
      else Returned(Some(UpdateIncident(tokens[3], tokens[4], Join(tokens[5..], " "))))
    else Returned(None)
  }

  /** What the Statuspage API answers to each request a mention could send. */
  datatype Answers = Answers(
    unresolved: Outcome<seq<IncidentInfo>>,
    incident: Outcome<IncidentInfo>,
    updated: Outcome<IncidentInfo>)

  /** Send one request and `say` what the operation returned, unless it raised. */
  function Perform(request: Request, reply: Attempt<string>): (e: Effect)
    ensures e.requests == [request]
    ensures reply.Returned? ==> e.replies == [reply.value] && e.raised == None
    ensures reply.Raised? ==> e.replies == [] && e.raised == Some(reply.exception)
  {
    match reply
    case Returned(m) => Effect([request], [m], None)
    case Raised(x) => Effect([request], [], Some(x))
  }

  /** `handle_app_mention_events` in `lib/app.py`: split the mention into words, then dispatch them. */
  function HandleMention(pageId: string, text: string, answers: Answers): Effect {
    Dispatch(pageId, Split(text), answers)
  }

  /** The handler after `text.split()`: look the key up in the table and run the entry it selects. */
  function Dispatch(pageId: string, tokens: seq<string>, answers: Answers): Effect {
    match ParseCommand(tokens)
    case Raised(x) => Effect([], [], Some(x))
    case Returned(None) => Nothing
    case Returned(Some(GetUnresolved)) =>
      Perform(UnresolvedRequest(pageId), UnresolvedMessage(answers.unresolved))
    case Returned(Some(GetIncident(id))) =>
      Perform(IncidentRequest(pageId, id), IncidentMessage(answers.incident))
    case Returned(Some(UpdateIncident(id, status, body))) =>
      Perform(UpdateIncidentRequest(pageId, id, status, body), Returned(UpdateIncidentMessage(answers.updated)))
  }

  /**
   * A mention whose key is not in the table does nothing at all. One whose
   * key is there but lacks an argument word raises `IndexError` before any
   * request is sent; any other sends exactly one request and says at most
   * one reply, which is missing only when the operation raised.
   */
  lemma MentionReplies(pageId: string, text: string, answers: Answers)
    ensures var e := HandleMention(pageId, text, answers);
      && (CommandKey(Split(text)) !in CommandKeys <==> e == Nothing)
      && (CommandKey(Split(text)) in CommandKeys && e.raised == None ==> |e.requests| == 1 && |e.replies| == 1)
      && (ParseCommand(Split(text)).Raised? ==> e == Effect([], [], Some(IndexError)))
      && (CommandKey(Split(text)) in CommandKeys && ParseCommand(Split(text)).Returned? ==> |e.requests| == 1)
      && |e.replies| <= 1
  {
    var tokens := Split(text);
    assert HandleMention(pageId, text, answers) == Dispatch(pageId, tokens, answers);
    DispatchReplies(pageId, tokens, answers);
  }

  lemma DispatchReplies(pageId: string, tokens: seq<string>, answers: Answers)
    ensures var e := Dispatch(pageId, tokens, answers);
      && (CommandKey(tokens) !in CommandKeys <==> e == Nothing)
      && (CommandKey(tokens) in CommandKeys && e.raised == None ==> |e.requests| == 1 && |e.replies| == 1)
      && (ParseCommand(tokens).Raised? ==> e == Effect([], [], Some(IndexError)))
      && (CommandKey(tokens) in CommandKeys && ParseCommand(tokens).Returned? ==> |e.requests| == 1)
      && |e.replies| <= 1
  {
    match ParseCommand(tokens)
    case Raised(x) =>
    case Returned(None) =>
    case Returned(Some(c)) =>
      assert |Dispatch(pageId, tokens, answers).requests| == 1;
  }

  lemma ReplyIsOperationResult(pageId: string, text: string, answers: Answers)
    requires HandleMention(pageId, text, answers).replies != []
    ensures var e := HandleMention(pageId, text, answers);
      match ParseCommand(Split(text)).value.value
      case GetUnresolved => UnresolvedMessage(answers.unresolved) == Returned(e.replies[0])
      case GetIncident(_) => IncidentMessage(answers.incident) == Returned(e.replies[0])
      case UpdateIncident(_, _, _) => UpdateIncidentMessage(answers.updated) == e.replies[0]
  {
  }

  /** Every key of the table holds a space, so a single word is never one of them. */
  lemma WordIsNoKey(w: string)
    requires NoSpace(w)
    ensures w !in CommandKeys
  {
    assert "get unresolved"[3] == ' ' && "get incident"[3] == ' ' && "update incident"[6] == ' ';
    assert IsSpace(' ');
  }

  /** A mention of fewer than three words selects no command and never raises. */
  lemma ShortMentionIgnored(pageId: string, text: string, answers: Answers)
    requires |Split(text)| < 3
    ensures HandleMention(pageId, text, answers) == Nothing
  {
    var tokens := Split(text);
    if |tokens| == 2 {
      WordIsNoKey(tokens[1]);
    }
  }

  /**
   * `update incident`: the id and status are the fourth and fifth words, and
   * the body is the remaining words joined by single spaces, which are
   * exactly the words the body splits into; no remaining words give an empty
   * body.
   */
  lemma UpdateArguments(tokens: seq<string>)
    requires forall k :: 0 <= k < |tokens| ==> IsWord(tokens[k])
    requires |tokens| >= 5 && tokens[1] == "update" && tokens[2] == "incident"
    ensures ParseCommand(tokens).Returned? && ParseCommand(tokens).value.Some?
    ensures var c := ParseCommand(tokens).value.value;
      && c.UpdateIncident? && c.id == tokens[3] && c.status == tokens[4]
      && Split(c.body) == tokens[5..]
      && (|tokens| == 5 <==> c.body == "")
  {
    SplitJoin(tokens[5..]);
    if |tokens| > 5 {
      JoinFirst(tokens[5..], " ");
    }
  }

  /**
   * How the words are spaced does not matter: a mention with any runs of
   * whitespace around and between its words has the same effect as the words
   * joined by single spaces.
   */
  lemma MentionIgnoresSpacing(pageId: string, lead: string, ws: seq<string>, gaps: seq<string>, trail: string, answers: Answers)
    requires |ws| > 0 && |gaps| == |ws| - 1
    requires forall k :: 0 <= k < |ws| ==> IsWord(ws[k])
    requires forall k :: 0 <= k < |gaps| ==> AllSpace(gaps[k]) && |gaps[k]| > 0
    requires AllSpace(lead) && AllSpace(trail)
    ensures HandleMention(pageId, lead + Interleave(ws, gaps) + trail, answers) == HandleMention(pageId, Join(ws, " "), answers)
  {
    SplitInterleave(lead, ws, gaps, trail);
    SplitJoin(ws);
  }

  /** `get incident` reads only the fourth word: whatever follows it is ignored. */
  lemma GetIncidentIgnoresRest(tokens: seq<string>, rest: seq<string>)
    requires |tokens| >= 4 && CommandKey(tokens) == "get incident"
    ensures ParseCommand(tokens + rest) == ParseCommand(tokens) == Returned(Some(GetIncident(tokens[3])))
  {
    assert (tokens + rest)[1] == tokens[1] && (tokens + rest)[2] == tokens[2] && (tokens + rest)[3] == tokens[3];
  }

  // The declare_incident shortcut

  const AllowedUsers: set<string> := {"U056F2PDN3G"}
  const DeclareKeyString := "statuspage declare incident"

  /**
   * `check_allowed_trigger`: the channel's name starts with "incident", the
   * user is the one allowed user, and the message is exactly the key string.
   */
  function CheckAllowedTrigger(channelName: string, userId: string, message: string): (allowed: bool)
    ensures allowed <==> && |channelName| >= 8 && channelName[..8] == "incident"
                         && userId == "U056F2PDN3G"
                         && message == "statuspage declare incident"
  {
    "incident" <= channelName && userId in AllowedUsers && message == DeclareKeyString
  }

  /**
   * The allowed user's key message is accepted in every channel whose name
   * extends `incident`, and refused in every channel whose name is shorter
   * or differs in its first eight characters; no other user and no other
   * message is ever accepted.
   */
  lemma AllowedChannels(rest: string, channelName: string, userId: string, message: string)
    ensures CheckAllowedTrigger("incident" + rest, "U056F2PDN3G", "statuspage declare incident")
    ensures (|channelName| < 8 || channelName[..8] != "incident") ==> !CheckAllowedTrigger(channelName, userId, message)
    ensures userId != "U056F2PDN3G" || message != "statuspage declare incident" ==>
      !CheckAllowedTrigger(channelName, userId, message)
  {
    assert ("incident" + rest)[..8] == "incident";
  }

  datatype TextObject = TextObject(kind: string, text: string)
  datatype SelectOption = SelectOption(text: TextObject, value: string)
  /** A block's accessory: `action_id` may be absent; `options` is the drop-down's list. */
  datatype Accessory = Accessory(actionId: Option<string>, options: seq<SelectOption>)
  datatype Block = Block(blockId: string, accessory: Option<Accessory>)

  const StatusSelectAction := "static_select_action"

  /** The block holds the status drop-down. */
  predicate IsStatusSelect(b: Block) {
    b.accessory.Some? && b.accessory.value.actionId == Some(StatusSelectAction)
  }

  /** `{"text": {"type": "plain_text", "text": status}, "value": status}`. */
  function StatusOption(status: string): SelectOption {
    SelectOption(TextObject("plain_text", status), status)
  }

  function StatusOptions(): seq<SelectOption> {
    seq(|IncidentStatuses|, k requires 0 <= k < |IncidentStatuses| => StatusOption(IncidentStatuses[k]))
  }

  /** One pass of the loop over `blocks`: a status drop-down gets the options appended. */
  function WithStatusOptions(b: Block): Block {
    if IsStatusSelect(b) then
      b.(accessory := Some(b.accessory.value.(options := b.accessory.value.options + StatusOptions())))
    else b
  }

  /**
   * Filling the form changes only the status drop-downs, and each of them
   * keeps its options as a prefix followed by one option per incident status,
   * in order, whose text and value are the status.
   */
  lemma WithStatusOptionsSpec(b: Block)
    ensures var r := WithStatusOptions(b);
      && r.blockId == b.blockId
      && (IsStatusSelect(r) <==> IsStatusSelect(b))
      && (!IsStatusSelect(b) ==> r == b)
      && (IsStatusSelect(b) ==>
            var before, after := b.accessory.value.options, r.accessory.value.options;
            && r.accessory.value.actionId == b.accessory.value.actionId
            && |after| == |before| + 8
            && after[..|before|] == before
            && forall k :: 0 <= k < 8 ==>
                 after[|before| + k].text == TextObject("plain_text", IncidentStatuses[k])
                 && after[|before| + k].value == IncidentStatuses[k])
  {
  }

  /** The decoded `template/incident-form.json`: its `blocks` are changed in place. */
  class IncidentForm {
    var privateMetadata: Option<string>
    var blocks: seq<Block>

    constructor (privateMetadata: Option<string>, blocks: seq<Block>)
      ensures this.privateMetadata == privateMetadata && this.blocks == blocks
    {
      this.privateMetadata := privateMetadata;
      this.blocks := blocks;
    }

    /** The loop over `form_create_incident['blocks']` that fills in the status drop-downs. */
    method ExtendStatusOptions()
      modifies this
      ensures privateMetadata == old(privateMetadata)
      ensures |blocks| == |old(blocks)|
      ensures forall k :: 0 <= k < |blocks| ==> blocks[k] == WithStatusOptions(old(blocks)[k])
    {
      for i := 0 to |blocks|
        invariant privateMetadata == old(privateMetadata)
        invariant |blocks| == |old(blocks)|
        invariant forall k :: 0 <= k < i ==> blocks[k] == WithStatusOptions(old(blocks)[k])
        invariant forall k :: i <= k < |blocks| ==> blocks[k] == old(blocks)[k]
      {
        var block := blocks[i];
        if block.accessory.Some? && block.accessory.value.actionId == Some(StatusSelectAction) {
          var accessory := block.accessory.value;
          blocks := blocks[i := block.(accessory := Some(accessory.(options := accessory.options + StatusOptions())))];
        }
      }
    }
  }

  /** Which view `client.views_open` is asked to show. */
  datatype View = IncidentFormView | NotAllowedView

  /**
   * `declare_incident`: the channel id goes into `private_metadata` whether
   * or not the user may declare; an allowed user gets the form with the
   * status drop-downs filled in, anyone else the not-allowed view and an
   * untouched form.
   */
  method DeclareIncident(form: IncidentForm, channelId: string, channelName: string, userId: string, message: string)
    returns (view: View)
    modifies form
    ensures form.privateMetadata == Some(channelId)
    ensures CheckAllowedTrigger(channelName, userId, message) ==>
      && view == IncidentFormView
      && |form.blocks| == |old(form.blocks)|
      && forall k :: 0 <= k < |form.blocks| ==> form.blocks[k] == WithStatusOptions(old(form.blocks)[k])
    ensures !CheckAllowedTrigger(channelName, userId, message) ==>
      view == NotAllowedView && form.blocks == old(form.blocks)
  {
    form.privateMetadata := Some(channelId);
    if CheckAllowedTrigger(channelName, userId, message) {
      form.ExtendStatusOptions();
      view := IncidentFormView;
    } else {
      view := NotAllowedView;
    }
  }
}
