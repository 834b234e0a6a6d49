/**
 * The replies of the four Statuspage operations the Slack bot offers: each
 * sends one request, then turns the response into the message the bot says.
 * A failed request becomes "Operation failed: ..." and is never re-raised; a
 * timestamp the conversion rejects is not caught and escapes.
 */
module Statuspage {
  import opened Outcomes
  import opened Text
  import opened Timestamp
  import opened Http

  const FailurePrefix := "Operation failed: "

  /** `f"Operation failed: {err}"` for a request that raised a `RequestException`. */
  function FailureMessage<T>(o: Outcome<T>): (m: string)
    requires !o.Ok?
    ensures |m| >= |FailurePrefix| && m[..|FailurePrefix|] == FailurePrefix
    ensures m[|FailurePrefix|..] == o.detail
  {
    FailurePrefix + o.detail
  }

  // The requests

  function UnresolvedRequest(pageId: string): Request {
    Request(Get, IncidentsUrl(pageId) + "/unresolved", None)
  }

  function IncidentRequest(pageId: string, id: string): Request {
    Request(Get, IncidentsUrl(pageId) + "/" + id, None)
  }

  /** The PATCH `update_incident` sends: the incident's URL and the status-and-body payload. */
  function UpdateIncidentRequest(pageId: string, id: string, status: string, body: string): (r: Request)
    ensures r.verb == Patch && r.url == IncidentsUrl(pageId) + "/" + id
    ensures r.body == Some(UpdatePayload(status, body))
  {
    Request(Patch, IncidentsUrl(pageId) + "/" + id, Some(UpdatePayload(status, body)))
  }

  // create_incident and update_incident

  /** The reply of `create_incident`: the new incident's id, name and status on two lines. */
  function CreateIncidentMessage(o: Outcome<IncidentInfo>): (m: string)
    ensures !o.Ok? ==> m == FailureMessage(o)
    ensures o.Ok? ==> m == Join(["Incident " + o.payload.id + ": " + o.payload.name + " is created. ",
                                 "status: " + o.payload.status], "\n")
  {
    match o
    case Ok(i) => "Incident " + i.id + ": " + i.name + " is created. \nstatus: " + i.status
    case _ => FailureMessage(o)
  }

  /** The reply of `update_incident`: the incident's name and new status on two lines. */
  function UpdateIncidentMessage(o: Outcome<IncidentInfo>): (m: string)
    ensures !o.Ok? ==> m == FailureMessage(o)
    ensures o.Ok? ==> m == Join(["Incident: " + o.payload.name, "\tstatus: " + o.payload.status], "\n")
  {
    match o
    case Ok(i) => "Incident: " + i.name + "\n\tstatus: " + i.status
    case _ => FailureMessage(o)
  }

  /** Read line by line, a successful create reply is the line naming the new incident, then its status line. */
  lemma CreateReplyLines(i: IncidentInfo)
    requires ListableIncident(i)
    ensures SplitOn(CreateIncidentMessage(Ok(i)), '\n') ==
            ["Incident " + i.id + ": " + i.name + " is created. ", "status: " + i.status]
  {
    assert OneLine("Incident ") && OneLine(": ") && OneLine(" is created. ") && OneLine("status: ");
    SplitOnJoin(["Incident " + i.id + ": " + i.name + " is created. ", "status: " + i.status], '\n');
  }

  /** Read line by line, a successful update reply is the incident's name line, then its status line. */
  lemma UpdateReplyLines(i: IncidentInfo)
    requires ListableIncident(i)
    ensures SplitOn(UpdateIncidentMessage(Ok(i)), '\n') == ["Incident: " + i.name, "\tstatus: " + i.status]
  {
    assert OneLine("Incident: ") && OneLine("\tstatus: ");
    SplitOnJoin(["Incident: " + i.name, "\tstatus: " + i.status], '\n');
  }

  // get_unresolved_incidents

  const CountPrefix := "Total unresolved incidents: "
  const ListingHeading := "\t-Incident name- " + "\t-Status- " + "\t-Last updated- " + "\t-Channel ID- "

  /** `convert_utc_to_gmt8(incident['updated_at'])` for each listed incident, in order. */
  function UpdatedConversions(incidents: seq<IncidentInfo>): (cs: seq<Attempt<string>>)
    ensures |cs| == |incidents|
    ensures forall k :: 0 <= k < |cs| ==> cs[k] == ConvertUtcToGmt8(incidents[k].updatedAt)
  {
    seq(|incidents|, k requires 0 <= k < |incidents| => ConvertUtcToGmt8(incidents[k].updatedAt))
  }

  /**
   * The values of a run of conversions made one after the other: the first
   * one that raises ends the run with its exception.
   */
  function Collect(attempts: seq<Attempt<string>>): (r: Attempt<seq<string>>)
    ensures r.Returned? ==> |r.value| == |attempts|
  {
    if attempts == [] then Returned([])
    else
      match Collect(attempts[..|attempts| - 1])
      case Raised(e) => Raised(e)
      case Returned(vs) =>
        match attempts[|attempts| - 1]
        case Raised(e) => Raised(e)
        case Returned(v) => Returned(vs + [v])
  }

  /** When the run returns, its k-th value is what the k-th conversion returned. */
  lemma {:induction false} CollectAt(attempts: seq<Attempt<string>>, k: nat)
    requires Collect(attempts).Returned? && k < |attempts|
    ensures attempts[k] == Returned(Collect(attempts).value[k])
  {
    if k < |attempts| - 1 {
      var init := attempts[..|attempts| - 1];
      assert init[k] == attempts[k];
      CollectAt(init, k);
    }
  }

  /** A run that raises raises the exception of its first conversion that raises. */
  lemma {:induction false} CollectRaised(attempts: seq<Attempt<string>>)
    requires Collect(attempts).Raised?
    ensures exists k :: 0 <= k < |attempts| && attempts[k] == Raised(Collect(attempts).exception)
                        && (forall m :: 0 <= m < k ==> attempts[m].Returned?)
  {
    var init := attempts[..|attempts| - 1];
    if Collect(init).Raised? {
      CollectRaised(init);
      var k :| 0 <= k < |init| && init[k] == Raised(Collect(init).exception)
               && (forall m :: 0 <= m < k ==> init[m].Returned?);
      assert init[k] == attempts[k];
      assert forall m :: 0 <= m < k ==> init[m] == attempts[m];
    } else {
      forall m | 0 <= m < |attempts| - 1
        ensures attempts[m].Returned?
      {
        CollectAt(init, m);
        assert init[m] == attempts[m];
      }
    }
  }

  /** A run in which no conversion raises returns. */
  lemma {:induction false} CollectReturns(attempts: seq<Attempt<string>>)
    requires forall k :: 0 <= k < |attempts| ==> attempts[k].Returned?
    ensures Collect(attempts).Returned?
  {
    if attempts != [] {
      var init := attempts[..|attempts| - 1];
      assert forall k :: 0 <= k < |init| ==> init[k] == attempts[k];
      CollectReturns(init);
    }
  }

  /** Once a prefix of the run raises, the conversions after it change nothing. */
  lemma {:induction false} CollectRaisedPrefix(attempts: seq<Attempt<string>>, n: nat)
    requires n <= |attempts| && Collect(attempts[..n]).Raised?
    ensures Collect(attempts) == Collect(attempts[..n])
    decreases |attempts| - n
  {
    if n == |attempts| {
      assert attempts[..n] == attempts;
    } else {
      var init := attempts[..|attempts| - 1];
      assert init[..n] == attempts[..n];
      CollectRaisedPrefix(init, n);
    }
  }

  lemma CollectSnoc(attempts: seq<Attempt<string>>, i: nat, vs: seq<string>)
    requires i < |attempts| && Collect(attempts[..i]) == Returned(vs)
    ensures Collect(attempts[..i + 1]) == match attempts[i]
                                          case Raised(e) => Raised(e)
                                          case Returned(v) => Returned(vs + [v])
  {
    assert attempts[..i + 1][..i] == attempts[..i];
  }

  /** `\t{name} \t{status} \t{updated} \t{id}`. */
  function ListingRow(i: IncidentInfo, updated: string): string {
    "\t" + i.name + " \t" + i.status + " \t" + updated + " \t" + i.id
  }

  function ListingRows(incidents: seq<IncidentInfo>, updated: seq<string>): (rows: seq<string>)
    requires |updated| == |incidents|
    ensures |rows| == |incidents|
    ensures forall k :: 0 <= k < |rows| ==> rows[k] == ListingRow(incidents[k], updated[k])
  {
    seq(|incidents|, k requires 0 <= k < |incidents| => ListingRow(incidents[k], updated[k]))
  }

  lemma ListingRowsSnoc(incidents: seq<IncidentInfo>, i: nat, updated: seq<string>, c: string)
    requires i < |incidents| && |updated| == i
    ensures ListingRows(incidents[..i + 1], updated + [c]) == ListingRows(incidents[..i], updated) + [ListingRow(incidents[i], c)]
  {
  }

  /** Appending one more row to the listing appends one more line to its text. */
  lemma ListingStep(head: seq<string>, incidents: seq<IncidentInfo>, i: nat, updated: seq<string>, c: string)
    requires |head| > 0 && i < |incidents| && |updated| == i
    ensures Join(head + ListingRows(incidents[..i + 1], updated + [c]), "\n")
            == Join(head + ListingRows(incidents[..i], updated), "\n") + "\n" + ListingRow(incidents[i], c)
  {
    var rows := ListingRows(incidents[..i], updated);
    ListingRowsSnoc(incidents, i, updated, c);
    assert head + (rows + [ListingRow(incidents[i], c)]) == (head + rows) + [ListingRow(incidents[i], c)];
    JoinSnoc(head + rows, ListingRow(incidents[i], c), "\n");
  }

  /** `Total unresolved incidents: N`. */
  function CountLine(n: nat): string {
    CountPrefix + Decimal(n)
  }

  /** The number on the count line reads back as the count. */
  lemma CountLineValue(n: nat)
    ensures |CountLine(n)| > |CountPrefix| && CountLine(n)[..|CountPrefix|] == CountPrefix
    ensures AllDigits(CountLine(n)[|CountPrefix|..]) && ValueOf(CountLine(n)[|CountPrefix|..]) == n
  {
    Affix(CountPrefix, Decimal(n));
  }

  /** The count line, then the column heading and a blank line when there is anything to list. */
  function ListingHead(n: nat): seq<string> {
    if n == 0 then [CountLine(0), ""]
    else [CountLine(n), ListingHeading, ""]
  }

  lemma ListingHeadText(n: nat)
    ensures n == 0 ==> Join(ListingHead(n), "\n") == CountPrefix + Decimal(n) + "\n"
    ensures n > 0 ==> Join(ListingHead(n), "\n") == CountPrefix + Decimal(n) + "\n" + ListingHeading + "\n"
  {
    var count := CountLine(n);
    if n == 0 {
      assert [count, ""][1..] == [""];
      assert Join([count, ""], "\n") == count + "\n" + "";
    } else {
      assert [ListingHeading, ""][1..] == [""];
      assert Join([ListingHeading, ""], "\n") == ListingHeading + "\n" + "";
      assert [count, ListingHeading, ""][1..] == [ListingHeading, ""];
      assert Join([count, ListingHeading, ""], "\n") == count + "\n" + (ListingHeading + "\n");
    }
  }

  /** The lines `head` and then one row per incident, or the exception a timestamp conversion raised. */
  function ListingFrom(head: seq<string>, incidents: seq<IncidentInfo>): Attempt<string> {
    match Collect(UpdatedConversions(incidents))
    case Raised(e) => Raised(e)
    case Returned(updated) => Returned(Join(head + ListingRows(incidents, updated), "\n"))
  }

  /** The listing of a decoded response, or the exception a timestamp conversion raised. */
  function ListingMessage(incidents: seq<IncidentInfo>): Attempt<string> {
    ListingFrom(ListingHead(|incidents|), incidents)
  }

  /** What `get_unresolved_incidents` returns or raises, given how the GET ended. */
  function UnresolvedMessage(o: Outcome<seq<IncidentInfo>>): Attempt<string> {
    match o
    case Ok(incidents) => ListingMessage(incidents)
    case _ => Returned(FailureMessage(o))
  }

  /** `get_unresolved_incidents`: a failed GET is reported, a decoded response is listed. */
  method GetUnresolvedIncidents(o: Outcome<seq<IncidentInfo>>) returns (r: Attempt<string>)
    ensures r == UnresolvedMessage(o)
  {
    if !o.Ok? {
      return Returned(FailureMessage(o));
    }
    r := ListIncidents(o.payload);
  }

  /** The `try` body of `get_unresolved_incidents` after the response is decoded, row by row. */
  method ListIncidents(result: seq<IncidentInfo>) returns (r: Attempt<string>)
    ensures r == ListingMessage(result)
  {
    ghost var attempts := UpdatedConversions(result);
    var message := CountPrefix + Decimal(|result|) + "\n";
    ghost var head := ListingHead(|result|);
    ListingHeadText(|result|);
    if |result| == 0 {
      assert head + ListingRows(result, []) == head;
      return Returned(message);
    }
    message := message + ListingHeading + "\n";
    r := AppendRows(message, head, result);
  }

  /** The `for` loop of `get_unresolved_incidents`: one more row on the message per incident. */
  method AppendRows(message: string, ghost head: seq<string>, result: seq<IncidentInfo>) returns (r: Attempt<string>)
    requires |head| > 0 && message == Join(head, "\n")
    ensures r == ListingFrom(head, result)
  {
    ghost var attempts := UpdatedConversions(result);
    ghost var updated: seq<string> := [];
    var text := message;
    var i := 0;
    assert head + ListingRows(result[..0], updated) == head;
    while i < |result|
      invariant 0 <= i <= |result| && |updated| == i
      invariant Collect(attempts[..i]) == Returned(updated)
      invariant text == Join(head + ListingRows(result[..i], updated), "\n")
    {
      var incident := result[i];
      var converted := ConvertUtcToGmt8(incident.updatedAt);
      CollectSnoc(attempts, i, updated);
      if converted.Raised? {
        CollectRaisedPrefix(attempts, i + 1);
        assert attempts[..|attempts|] == attempts;
        return Raised(converted.exception);
      }
      ListingStep(head, result, i, updated, converted.value);
      text := text + "\n" + ListingRow(incident, converted.value);
      updated := updated + [converted.value];
      i := i + 1;
    }
    assert result[..i] == result && attempts[..i] == attempts;
    return Returned(text);
  }

  predicate OneLine(s: string) {
    '\n' !in s
  }

  /** The response fields a listing row prints contain no line break. */
  predicate ListableIncident(i: IncidentInfo) {
    OneLine(i.name) && OneLine(i.status) && OneLine(i.id)
  }

  /** A listing that returned printed every `updated_at` converted, each on one line. */
  lemma ListedTimes(incidents: seq<IncidentInfo>)
    requires Collect(UpdatedConversions(incidents)).Returned?
    ensures var updated := Collect(UpdatedConversions(incidents)).value;
      forall k :: 0 <= k < |incidents| ==>
        ConvertUtcToGmt8(incidents[k].updatedAt) == Returned(updated[k]) && OneLine(updated[k])
  {
    var attempts := UpdatedConversions(incidents);
    forall k | 0 <= k < |incidents|
      ensures ConvertUtcToGmt8(incidents[k].updatedAt) == Returned(Collect(attempts).value[k])
      ensures OneLine(Collect(attempts).value[k])
    {
      CollectAt(attempts, k);
      ConvertLayout(incidents[k].updatedAt);
    }
  }

  lemma HeadingOneLine()
    ensures OneLine(ListingHeading)
  {
    assert OneLine("\t-Incident name- ");
    assert OneLine("\t-Status- ");
    assert OneLine("\t-Last updated- ");
    assert OneLine("\t-Channel ID- ");
  }

  lemma ListingRowOneLine(i: IncidentInfo, updated: string)
    requires ListableIncident(i) && OneLine(updated)
    ensures OneLine(ListingRow(i, updated))
  {
  }

  lemma ListingLinesOneLine(incidents: seq<IncidentInfo>, updated: seq<string>)
    requires |updated| == |incidents|
    requires forall k :: 0 <= k < |incidents| ==> ListableIncident(incidents[k]) && OneLine(updated[k])
    ensures forall k :: 0 <= k < |ListingHead(|incidents|) + ListingRows(incidents, updated)| ==>
      OneLine((ListingHead(|incidents|) + ListingRows(incidents, updated))[k])
  {
    var head := ListingHead(|incidents|);
    var lines := head + ListingRows(incidents, updated);
    forall k | 0 <= k < |lines|
      ensures OneLine(lines[k])
    {
      if k >= |head| {
        var j := k - |head|;
        assert lines[k] == ListingRow(incidents[j], updated[j]);
        ListingRowOneLine(incidents[j], updated[j]);
      } else {
        HeadingOneLine();
        assert OneLine(CountPrefix) && OneLine(Decimal(|incidents|));
        assert OneLine(CountLine(|incidents|));
      }
    }
  }

  /** Listing lines that hold no line break are recovered by splitting their text on newlines. */
  lemma ListingText(incidents: seq<IncidentInfo>, updated: seq<string>)
    requires |updated| == |incidents|
    requires forall k :: 0 <= k < |incidents| ==> ListableIncident(incidents[k]) && OneLine(updated[k])
    ensures SplitOn(Join(ListingHead(|incidents|) + ListingRows(incidents, updated), "\n"), '\n')
            == ListingHead(|incidents|) + ListingRows(incidents, updated)
  {
    ListingLinesOneLine(incidents, updated);
    SplitOnJoin(ListingHead(|incidents|) + ListingRows(incidents, updated), '\n');
  }

  /**
   * The listing, read back line by line: the count of incidents in the
   * response, then (iff there are any) the heading and a blank line, then one
   * row per incident in response order with its converted `updated_at`.
   */
  lemma UnresolvedLines(incidents: seq<IncidentInfo>)
    requires UnresolvedMessage(Ok(incidents)).Returned?
    requires forall k :: 0 <= k < |incidents| ==> ListableIncident(incidents[k])
    ensures Collect(UpdatedConversions(incidents)).Returned?
    ensures var updated := Collect(UpdatedConversions(incidents)).value;
      && (forall k :: 0 <= k < |incidents| ==> ConvertUtcToGmt8(incidents[k].updatedAt) == Returned(updated[k]))
      && SplitOn(UnresolvedMessage(Ok(incidents)).value, '\n') == ListingHead(|incidents|) + ListingRows(incidents, updated)
  {
    ListedTimes(incidents);
    ListingText(incidents, Collect(UpdatedConversions(incidents)).value);
  }

  // get_incident

  /** `result.get('components', [])`. */
  function ComponentsOf(i: IncidentInfo): seq<ComponentInfo> {
    match i.components
    case None => []
    case Some(cs) => cs
  }

  /** `\t\tcomponent: {name} -> {status}`. */
  function ComponentLine(c: ComponentInfo): string {
    "\t\tcomponent: " + c.name + " -> " + c.status
  }

  function ComponentLines(cs: seq<ComponentInfo>): (lines: seq<string>)
    ensures |lines| == |cs|
    ensures forall k :: 0 <= k < |cs| ==> lines[k] == ComponentLine(cs[k])
  {
    seq(|cs|, k requires 0 <= k < |cs| => ComponentLine(cs[k]))
  }

  function DetailHead(i: IncidentInfo, created: string, updated: string): seq<string> {
    ["Incident: " + i.name, "\tstatus: " + i.status, "\tcreated at: " + created, "\tupdated at: " + updated]
  }

  /**
   * What `get_incident` returns or raises, given how the GET ended;
   * `created_at` is converted before `updated_at`.
   */
  function IncidentMessage(o: Outcome<IncidentInfo>): Attempt<string> {
    match o
    case Ok(i) =>
      (match ConvertUtcToGmt8(i.createdAt)
       case Raised(e) => Raised(e)
       case Returned(created) =>
         match ConvertUtcToGmt8(i.updatedAt)
         case Raised(e) => Raised(e)
         case Returned(updated) =>
           Returned(Join(DetailHead(i, created, updated) + ComponentLines(ComponentsOf(i)), "\n")))
    case _ => Returned(FailureMessage(o))
  }

  lemma ComponentLinesSnoc(cs: seq<ComponentInfo>, k: nat)
    requires k < |cs|
    ensures ComponentLines(cs[..k + 1]) == ComponentLines(cs[..k]) + [ComponentLine(cs[k])]
  {
  }

  /** Appending one more component appends one more line to the detail. */
  lemma DetailStep(head: seq<string>, cs: seq<ComponentInfo>, k: nat)
    requires |head| > 0 && k < |cs|
    ensures Join(head + ComponentLines(cs[..k + 1]), "\n")
            == Join(head + ComponentLines(cs[..k]), "\n") + "\n" + ComponentLine(cs[k])
  {
    var lines := ComponentLines(cs[..k]);
    ComponentLinesSnoc(cs, k);
    assert head + (lines + [ComponentLine(cs[k])]) == (head + lines) + [ComponentLine(cs[k])];
    JoinSnoc(head + lines, ComponentLine(cs[k]), "\n");
  }

  /** `get_incident`, appending one line per component. */
  method GetIncident(o: Outcome<IncidentInfo>) returns (r: Attempt<string>)
    ensures r == IncidentMessage(o)
  {
    if !o.Ok? {
      return Returned(FailureMessage(o));
    }
    var result := o.payload;
    var created := ConvertUtcToGmt8(result.createdAt);
    if created.Raised? {
      return Raised(created.exception);
    }
    var updated := ConvertUtcToGmt8(result.updatedAt);
    if updated.Raised? {
      return Raised(updated.exception);
    }
    var message := "Incident: " + result.name + "\n" + ("\tstatus: " + result.status)
      + "\n" + ("\tcreated at: " + created.value) + "\n" + ("\tupdated at: " + updated.value);
    ghost var head := DetailHead(result, created.value, updated.value);
    JoinFour("Incident: " + result.name, "\tstatus: " + result.status,
             "\tcreated at: " + created.value, "\tupdated at: " + updated.value);
    message := AppendComponents(message, head, ComponentsOf(result));
    return Returned(message);
  }

  /** The `for` loop of `get_incident`: one more line on the message per component. */
  method AppendComponents(message: string, ghost head: seq<string>, components: seq<ComponentInfo>) returns (r: string)
    requires |head| > 0 && message == Join(head, "\n")
    ensures r == Join(head + ComponentLines(components), "\n")
  {
    r := message;
    assert head + ComponentLines(components[..0]) == head;
    for k := 0 to |components|
      invariant r == Join(head + ComponentLines(components[..k]), "\n")
    {
      DetailStep(head, components, k);
      r := r + "\n" + ComponentLine(components[k]);
    }
    assert components[..|components|] == components;
  }

  /** The response fields the detail prints contain no line break. */
  predicate DetailableIncident(i: IncidentInfo) {
    && OneLine(i.name) && OneLine(i.status)
    && forall c :: c in ComponentsOf(i) ==> OneLine(c.name) && OneLine(c.status)
  }

  lemma DetailLinesOneLine(i: IncidentInfo, created: string, updated: string)
    requires DetailableIncident(i) && OneLine(created) && OneLine(updated)
    ensures forall k :: 0 <= k < 4 + |ComponentsOf(i)| ==>
      OneLine((DetailHead(i, created, updated) + ComponentLines(ComponentsOf(i)))[k])
  {
    var cs := ComponentsOf(i);
    var lines := DetailHead(i, created, updated) + ComponentLines(cs);
    forall k | 0 <= k < |lines|
      ensures OneLine(lines[k])
    {
      if k >= 4 {
        assert lines[k] == ComponentLine(cs[k - 4]);
        assert cs[k - 4] in cs;
      }
    }
  }

  /**
   * The detail, read back line by line: name, status, converted `created_at`,
   * converted `updated_at`, then one line per component in response order, and
   * none when the response has no `components`.
   */
  lemma IncidentLines(i: IncidentInfo)
    requires IncidentMessage(Ok(i)).Returned?
    requires DetailableIncident(i)
    ensures ConvertUtcToGmt8(i.createdAt).Returned? && ConvertUtcToGmt8(i.updatedAt).Returned?
    ensures var lines := SplitOn(IncidentMessage(Ok(i)).value, '\n');
      && |lines| == 4 + |ComponentsOf(i)|
      && lines[..4] == DetailHead(i, ConvertUtcToGmt8(i.createdAt).value, ConvertUtcToGmt8(i.updatedAt).value)
      && (i.components.None? ==> |lines| == 4)
      && forall k :: 0 <= k < |ComponentsOf(i)| ==> lines[k + 4] == ComponentLine(ComponentsOf(i)[k])
  {
    var created, updated := ConvertUtcToGmt8(i.createdAt).value, ConvertUtcToGmt8(i.updatedAt).value;
    ConvertLayout(i.createdAt);
    ConvertLayout(i.updatedAt);
    var lines := DetailHead(i, created, updated) + ComponentLines(ComponentsOf(i));
    DetailLinesOneLine(i, created, updated);
    SplitOnJoin(lines, '\n');
    assert lines[..4] == DetailHead(i, created, updated);
  }

  // Failure versus success

  /**
   * Every request failure becomes the returned text "Operation failed: "
   * followed by the exception's text; none of them raises.
   */
  lemma FailuresAreReported(o: Outcome<seq<IncidentInfo>>, p: Outcome<IncidentInfo>)
    requires !o.Ok? && !p.Ok?
    ensures UnresolvedMessage(o) == Returned(FailurePrefix + o.detail)
    ensures IncidentMessage(p) == Returned(FailurePrefix + p.detail)
    ensures CreateIncidentMessage(p) == FailurePrefix + p.detail
    ensures UpdateIncidentMessage(p) == FailurePrefix + p.detail
  {
  }

  /** A reply starts with "Operation failed: " iff the request failed. */
  lemma {:induction false} ReplyShowsFailure(o: Outcome<seq<IncidentInfo>>, p: Outcome<IncidentInfo>)
    ensures FailurePrefix <= CreateIncidentMessage(p) <==> !p.Ok?
    ensures FailurePrefix <= UpdateIncidentMessage(p) <==> !p.Ok?
    ensures IncidentMessage(p).Returned? ==> (FailurePrefix <= IncidentMessage(p).value <==> !p.Ok?)
    ensures UnresolvedMessage(o).Returned? ==> (FailurePrefix <= UnresolvedMessage(o).value <==> !o.Ok?)
  {
    if p.Ok? {
      assert CreateIncidentMessage(p)[0] == 'I';
      assert UpdateIncidentMessage(p)[0] == 'I';
      if IncidentMessage(p).Returned? {
        var m := IncidentMessage(p).value;
        var lines := DetailHead(p.payload, ConvertUtcToGmt8(p.payload.createdAt).value,
                                ConvertUtcToGmt8(p.payload.updatedAt).value) + ComponentLines(ComponentsOf(p.payload));
        JoinFirst(lines, "\n");
        assert m[0] == 'I';
      }
    }
    if o.Ok? && UnresolvedMessage(o).Returned? {
      var m := UnresolvedMessage(o).value;
      var incidents := o.payload;
      var lines := ListingHead(|incidents|) + ListingRows(incidents, Collect(UpdatedConversions(incidents)).value);
      JoinFirst(lines, "\n");
      assert m[0] == 'T';
    }
  }

  lemma JoinFour(a: string, b: string, c: string, d: string)
    ensures Join([a, b, c, d], "\n") == a + "\n" + b + "\n" + c + "\n" + d
  {
    assert [c, d][1..] == [d];
    assert Join([c, d], "\n") == c + "\n" + d;
    assert [b, c, d][1..] == [c, d];
    assert Join([b, c, d], "\n") == b + "\n" + (c + "\n" + d);
    assert [a, b, c, d][1..] == [b, c, d];
    assert Join([a, b, c, d], "\n") == a + "\n" + (b + "\n" + (c + "\n" + d));
  }

  lemma Affix(a: string, b: string)
    ensures (a + b)[..|a|] == a && (a + b)[|a|..] == b
  {
  }

  /** A joined string begins with its first part. */
  lemma JoinFirst(parts: seq<string>, sep: string)
    requires |parts| > 0
    ensures parts[0] <= Join(parts, sep)
  {
  }
}
