/** Automatic continuation of truncated streams: several upstream rounds are
    stitched into one event stream (src/engine/continuation.py). */
module Continuation {
  import opened Options
  import opened Selections

  datatype Usage = Usage(input: Option<int>, output: Option<int>, reasoning: Option<int>, cached: Option<int>,
                         credit: Option<real>, estimated: bool)

  datatype Event =
    | Content(text: string)
    | Reasoning(text: string)
    | ToolCalls(id: int)
    | Report(usage: Option<Usage>)
    | Finish(reason: Option<string>)
    | Error(code: int)
  {
    predicate Passes() { !Report? && !Finish? }
  }

  datatype Message = Prior(repr: string) | Assistant(content: string, reasoning: Option<string>) | User(content: string)

  datatype Json = Messages(items: seq<Message>) | Opaque(repr: string)

  type Body = map<string, Json>

  const LENGTH := "length"
  const CONTINUE_PROMPT := "Output limit reached. Continue exactly where you left off."
  const CAPS: set<string> := {"max_completion_tokens", "max_tokens"}
  const NO_USAGE := Usage(None, None, None, None, None, false)

  function Extend(body: Body, content: string, reasoning: string): Body {
    var extended :=
      if "messages" in body && body["messages"].Messages? then
        body["messages" := Messages(body["messages"].items +
          [Assistant(content, if reasoning == "" then None else Some(reasoning)), User(CONTINUE_PROMPT)])]
      else body;
    extended - CAPS
  }

  function Sum(a: Option<int>, b: Option<int>): Option<int> {
    if a.None? then b else if b.None? then a else Some(a.value + b.value)
  }

  function SumReal(a: Option<real>, b: Option<real>): Option<real> {
    if a.None? then b else if b.None? then a else Some(a.value + b.value)
  }

  function AddUsage(total: Usage, part: Option<Usage>): Usage {
    match part
    case None => total
    case Some(p) => Usage(Sum(total.input, p.input), Sum(total.output, p.output), Sum(total.reasoning, p.reasoning),
                          Sum(total.cached, p.cached), SumReal(total.credit, p.credit), total.estimated || p.estimated)
  }

  predicate Zero(a: Option<int>) { a.None? || a.value == 0 }

  /** No field is non-zero; a reported zero counts as nothing. */
  predicate IsEmpty(u: Usage) {
    Zero(u.input) && Zero(u.output) && Zero(u.reasoning) && Zero(u.cached) && (u.credit.None? || u.credit.value == 0.0)
  }

  // ----------------------------------------------------------- one round

  /** What the events of a round contribute, folded from the left. */
  function Passed(events: seq<Event>): seq<Event> {
    if events == [] then []
    else
      var e := events[|events| - 1];
      Passed(events[..|events| - 1]) + if e.Passes() then [e] else []
  }

  /** The content text, or the reasoning text, of some events. */
  function Spoken(events: seq<Event>, thought: bool): string {
    if events == [] then ""
    else
      var e := events[|events| - 1];
      Spoken(events[..|events| - 1], thought) + if (if thought then e.Reasoning? else e.Content?) then e.text else ""
  }

  function Text(events: seq<Event>): string { Spoken(events, false) }

  function Thought(events: seq<Event>): string { Spoken(events, true) }

  /** The last finish reason; a round without one keeps the previous reason. */
  function ReasonAfter(before: Option<string>, events: seq<Event>): Option<string> {
    if events == [] then before
    else
      var e := events[|events| - 1];
      if e.Finish? then e.reason else ReasonAfter(before, events[..|events| - 1])
  }

  function UsageAfter(before: Usage, events: seq<Event>): Usage {
    if events == [] then before
    else
      var e := events[|events| - 1];
      var total := UsageAfter(before, events[..|events| - 1]);
      if e.Report? then AddUsage(total, e.usage) else total
  }

  function Summary(usage: Usage): seq<Event> {
    if IsEmpty(usage) then [] else [Report(Some(usage))]
  }

  // ------------------------------------------------------------- a session

  /** What the upstream answers to its k-th call, and the request it starts with. */
  datatype Session = Session(upstream: (nat, Body) -> seq<Event>, first: Body)
  {
    function Request(k: nat): Body
      decreases k, 0
    {
      if k == 0 then first else Extend(Request(k - 1), Text(Round(k - 1)), Thought(Round(k - 1)))
    }

    function Round(k: nat): seq<Event>
      decreases k, 1
    {
      upstream(k, Request(k))
    }

    /** After k rounds: all their events, the last finish reason, the usage
        total, and what has been yielded. */
    function Events(k: nat): seq<Event> {
      if k == 0 then [] else Events(k - 1) + Round(k - 1)
    }

    function Reason(k: nat): Option<string> {
      if k == 0 then None else ReasonAfter(Reason(k - 1), Round(k - 1))
    }

    function Total(k: nat): Usage {
      if k == 0 then NO_USAGE else UsageAfter(Total(k - 1), Round(k - 1))
    }

    function Output(k: nat): seq<Event> {
      if k == 0 then [] else Output(k - 1) + Passed(Round(k - 1)) + Summary(Total(k))
    }

    /** More rounds follow after the first k when continuations are left. */
    predicate GoesOn(limit: int, k: nat)
      requires k > 0
    {
      Reason(k) == Some(LENGTH) && k - 1 < limit
    }

    ghost predicate Reaches(limit: int, n: nat) {
      forall k :: 0 < k < n ==> GoesOn(limit, k)
    }

    /** With `limit` continuations left there are exactly n rounds. */
    ghost predicate Lasts(limit: int, n: nat) {
      n > 0 && !GoesOn(limit, n) && Reaches(limit, n)
    }

    /** The bodies of the first n calls. */
    function Requests(n: nat): (bodies: seq<Body>)
      ensures |bodies| == n
    {
      if n == 0 then [] else Requests(n - 1) + [Request(n - 1)]
    }

    /** The state in which round k starts. */
    ghost predicate Before(k: nat, body: Body, source: seq<Event>, usage: Usage, reason: Option<string>, out: seq<Event>) {
      body == Request(k) && source == Round(k) && usage == Total(k) && reason == Reason(k) && out == Output(k)
    }

    lemma RoundEnds(k: nat, body: Body, source: seq<Event>, usage: Usage, reason: Option<string>, out: seq<Event>)
      requires Before(k, body, source, usage, reason, out)
      ensures Total(k + 1) == UsageAfter(usage, source) && Reason(k + 1) == ReasonAfter(reason, source)
      ensures Output(k + 1) == out + Passed(source) + Summary(Total(k + 1))
      ensures Request(k + 1) == Extend(body, Text(source), Thought(source))
    {
    }

    lemma ReachesOn(limit: int, n: nat)
      requires n > 0 && Reaches(limit, n) && GoesOn(limit, n)
      ensures Reaches(limit, n + 1)
    {
    }
  }

  class ContinuationStream {
    const maxContinues: int
    var payload: Body
    var continuesDone: nat

    constructor (payload: Body, maxContinues: int)
      ensures this.payload == payload && this.maxContinues == maxContinues && continuesDone == 0
    {
      this.payload, this.maxContinues, continuesDone := payload, maxContinues, 0;
    }

    /** One round: passes events on and keeps the usage, the finish reason and
        the text that was produced. */
    static method Forward(source: seq<Event>, usage0: Usage, reason0: Option<string>)
      returns (out: seq<Event>, usage: Usage, reason: Option<string>, content: string, reasoning: string)
      ensures out == Passed(source) && content == Text(source) && reasoning == Thought(source)
      ensures usage == UsageAfter(usage0, source) && reason == ReasonAfter(reason0, source)
    {
      out, usage, reason, content, reasoning := [], usage0, reason0, "", "";
      for i := 0 to |source|
        invariant out == Passed(source[..i])
        invariant usage == UsageAfter(usage0, source[..i]) && reason == ReasonAfter(reason0, source[..i])
        invariant content == Text(source[..i]) && reasoning == Thought(source[..i])
      {
        assert source[..i + 1][..i] == source[..i];
        var event := source[i];
        match event {
          case Finish(r) => reason := r; continue;
          case Report(u) => usage := AddUsage(usage, u); continue;
          case Content(text) => content := content + text;
          case Reasoning(text) => reasoning := reasoning + text;
          case _ =>
        }
        out := out + [event];
      }
      assert source[..|source|] == source;
    }

    /** Runs to the end; returns what was yielded and the bodies that were sent. */
    method Run(upstream: (nat, Body) -> seq<Event>) returns (out: seq<Event>, sent: seq<Body>)
      modifies this
      ensures
        var s := Session(upstream, old(payload));
        var n := |sent|;
        && s.Lasts(maxContinues - old(continuesDone), n)
        && out == s.Output(n) + [Finish(s.Reason(n))]
        && sent == s.Requests(n)
        && payload == s.Request(n - 1) && continuesDone == old(continuesDone) + n - 1
    {
      ghost var s := Session(upstream, payload);
      ghost var limit := maxContinues - continuesDone;
      var usage, reason := NO_USAGE, None;
      var source := upstream(0, payload);
      var k := 0;
      sent, out := [payload], [];
      while true
        invariant k == continuesDone - old(continuesDone) && sent == s.Requests(k + 1)
        invariant s.Before(k, payload, source, usage, reason, out)
        invariant s.Reaches(limit, k + 1)
        decreases limit - k
      {
        s.RoundEnds(k, payload, source, usage, reason, out);
        var passed, content, reasoning;
        passed, usage, reason, content, reasoning := Forward(source, usage, reason);
        out := out + passed + Summary(usage);
        if reason != Some(LENGTH) || continuesDone >= maxContinues {
          out := out + [Finish(reason)];
          return;
        }
        s.ReachesOn(limit, k + 1);
        continuesDone, k := continuesDone + 1, k + 1;
        payload := Extend(payload, content, reasoning);
        sent := sent + [payload];
        source := upstream(k, payload);
      }
    }
  }

  // ------------------------------------------------------------------ lemmas

  /** At most one call more than the number of continuations allowed. */
  lemma CallsAreBounded(s: Session, limit: int, n: nat)
    requires s.Lasts(limit, n)
    ensures n == 1 || n <= limit + 1
  {
    if n > 1 {
      assert s.GoesOn(limit, n - 1);
    }
  }

  /** The number of rounds is determined by what the upstream answers. */
  lemma RoundsAreDetermined(s: Session, limit: int, n: nat, m: nat)
    requires s.Lasts(limit, n) && s.Lasts(limit, m)
    ensures n == m
  {
    var afterN, afterM := s.GoesOn(limit, n), s.GoesOn(limit, m);
  }

  lemma {:induction false} PassedConcat(a: seq<Event>, b: seq<Event>)
    ensures Passed(a + b) == Passed(a) + Passed(b)
  {
    if b == [] {
      assert a + b == a;
    } else {
      PassedConcat(a, b[..|b| - 1]);
      assert (a + b)[..|a + b| - 1] == a + b[..|b| - 1];
    }
  }

  lemma {:induction false} SpokenConcat(a: seq<Event>, b: seq<Event>, thought: bool)
    ensures Spoken(a + b, thought) == Spoken(a, thought) + Spoken(b, thought)
  {
    if b == [] {
      assert a + b == a;
    } else {
      SpokenConcat(a, b[..|b| - 1], thought);
      assert (a + b)[..|a + b| - 1] == a + b[..|b| - 1];
    }
  }

  lemma {:induction false} PassedPass(events: seq<Event>)
    ensures forall i :: 0 <= i < |Passed(events)| ==> Passed(events)[i].Passes()
  {
    if events != [] {
      PassedPass(events[..|events| - 1]);
    }
  }

  lemma {:induction false} AllPass(events: seq<Event>)
    requires forall i :: 0 <= i < |events| ==> events[i].Passes()
    ensures Passed(events) == events
  {
    if events != [] {
      AllPass(events[..|events| - 1]);
    }
  }

  lemma {:induction false} PassedSpeaks(events: seq<Event>, thought: bool)
    ensures Spoken(Passed(events), thought) == Spoken(events, thought)
  {
    if events != [] {
      var n := |events| - 1;
      PassedSpeaks(events[..n], thought);
      if events[n].Passes() {
        assert Passed(events)[..|Passed(events)| - 1] == Passed(events[..n]);
      } else {
        assert Passed(events) == Passed(events[..n]);
      }
    }
  }

  lemma SummaryIsSilent(usage: Usage, thought: bool)
    ensures Passed(Summary(usage)) == [] && Spoken(Summary(usage), thought) == ""
  {
    if !IsEmpty(usage) {
      assert Summary(usage)[..0] == [];
    }
  }

  /** Stitching one more round onto what was yielded. */
  lemma StitchPasses(out: seq<Event>, round: seq<Event>, usage: Usage)
    ensures Passed(out + Passed(round) + Summary(usage)) == Passed(out) + Passed(round)
  {
    PassedConcat(out + Passed(round), Summary(usage));
    PassedConcat(out, Passed(round));
    PassedPass(round);
    AllPass(Passed(round));
    SummaryIsSilent(usage, false);
  }

  lemma StitchSpeaks(out: seq<Event>, round: seq<Event>, usage: Usage, thought: bool)
    ensures Spoken(out + Passed(round) + Summary(usage), thought) == Spoken(out, thought) + Spoken(round, thought)
  {
    SpokenConcat(out + Passed(round), Summary(usage), thought);
    SpokenConcat(out, Passed(round), thought);
    PassedSpeaks(round, thought);
    SummaryIsSilent(usage, thought);
  }

  lemma StitchReports(out: seq<Event>, round: seq<Event>, usage: Usage)
    ensures Reports(out + Passed(round) + Summary(usage)) == Reports(out) + Summary(usage)
  {
    ReportsConcat(out + Passed(round), Summary(usage));
    ReportsConcat(out, Passed(round));
    PassedPass(round);
    NoReports(Passed(round));
    if !IsEmpty(usage) {
      assert Summary(usage)[..0] == [];
    }
  }

  /** Everything but usage and finish events reaches the client, in order, from
      all rounds. */
  lemma {:induction false} OutputPassesThrough(s: Session, n: nat)
    ensures Passed(s.Output(n)) == Passed(s.Events(n))
  {
    if n > 0 {
      OutputPassesThrough(s, n - 1);
      StitchPasses(s.Output(n - 1), s.Round(n - 1), s.Total(n));
      PassedConcat(s.Events(n - 1), s.Round(n - 1));
    }
  }

  predicate IsPlain(e: Event) { !e.Report? && !e.Finish? }

  function Same(e: Event): Event { e }

  lemma {:induction false} PlainPositions(events: seq<Event>) returns (at: seq<nat>)
    ensures IsSelection(events, IsPlain, Same, at, Passed(events))
  {
    at := [];
    if events != [] {
      var before, last := events[..|events| - 1], events[|events| - 1];
      assert events == before + [last];
      at := PlainPositions(before);
      SelectionSnoc(before, IsPlain, Same, at, Passed(before), last);
      at := if IsPlain(last) then at + [|before|] else at;
    }
  }

  /** In terms of positions: the k-th event received from upstream that is neither a
      usage nor a finish event is the k-th such event sent to the client. */
  lemma OutputInPositions(s: Session, n: nat) returns (received: seq<nat>, sent: seq<nat>)
    ensures Selects(s.Events(n), IsPlain, received) && Selects(s.Output(n), IsPlain, sent)
    ensures |sent| == |received|
    ensures forall k :: 0 <= k < |sent| ==> s.Output(n)[sent[k]] == s.Events(n)[received[k]]
  {
    received := PlainPositions(s.Events(n));
    sent := PlainPositions(s.Output(n));
    OutputPassesThrough(s, n);
  }

  /** What each kind of event contributes to the text and to the reasoning. */
  lemma SpokenSnoc(events: seq<Event>, e: Event, thought: bool)
    ensures e.Content? ==> Spoken(events + [e], thought) == Spoken(events, thought) + if thought then "" else e.text
    ensures e.Reasoning? ==> Spoken(events + [e], thought) == Spoken(events, thought) + if thought then e.text else ""
    ensures !e.Content? && !e.Reasoning? ==> Spoken(events + [e], thought) == Spoken(events, thought)
  {
    assert (events + [e])[..|events|] == events;
  }

  /** A finish event comes exactly once and last. */
  lemma {:induction false} NoFinishBeforeTheEnd(s: Session, n: nat)
    ensures forall i :: 0 <= i < |s.Output(n)| ==> !s.Output(n)[i].Finish?
  {
    if n > 0 {
      NoFinishBeforeTheEnd(s, n - 1);
      PassedPass(s.Round(n - 1));
    }
  }

  lemma {:induction false} ReasonConcat(before: Option<string>, a: seq<Event>, b: seq<Event>)
    ensures ReasonAfter(before, a + b) == ReasonAfter(ReasonAfter(before, a), b)
  {
    if b == [] {
      assert a + b == a;
    } else {
      ReasonConcat(before, a, b[..|b| - 1]);
      assert (a + b)[..|a + b| - 1] == a + b[..|b| - 1];
    }
  }

  lemma {:induction false} ReasonOfEvents(s: Session, n: nat)
    ensures s.Reason(n) == ReasonAfter(None, s.Events(n))
  {
    if n > 0 {
      ReasonOfEvents(s, n - 1);
      ReasonConcat(None, s.Events(n - 1), s.Round(n - 1));
    }
  }

  ghost predicate NoFinish(events: seq<Event>) { forall i :: 0 <= i < |events| ==> !events[i].Finish? }

  /** The event at i is a finish event, and none comes later. */
  ghost predicate LastFinish(events: seq<Event>, i: int) {
    0 <= i < |events| && events[i].Finish? && forall j :: i < j < |events| ==> !events[j].Finish?
  }

  lemma {:induction false} LastFinishDecides(before: Option<string>, events: seq<Event>, i: nat)
    requires LastFinish(events, i)
    ensures ReasonAfter(before, events) == events[i].reason
  {
    if i < |events| - 1 {
      assert LastFinish(events[..|events| - 1], i);
      LastFinishDecides(before, events[..|events| - 1], i);
    }
  }

  lemma {:induction false} SomeLastFinish(events: seq<Event>) returns (i: nat)
    requires !NoFinish(events)
    ensures LastFinish(events, i)
  {
    var n := |events| - 1;
    if events[n].Finish? {
      i := n;
    } else {
      var k :| 0 <= k < |events| && events[k].Finish?;
      assert events[..n][k].Finish?;
      i := SomeLastFinish(events[..n]);
      assert forall j :: 0 <= j < n ==> events[j] == events[..n][j];
    }
  }

  /** The reason reported last is that of the last finish event of any round, and
      none if there was no finish event. */
  lemma ReasonIsLastSeen(s: Session, n: nat)
    ensures forall i :: LastFinish(s.Events(n), i) ==> s.Reason(n) == s.Events(n)[i].reason
    ensures NoFinish(s.Events(n)) ==> s.Reason(n) == None
  {
    ReasonOfEvents(s, n);
    forall i | LastFinish(s.Events(n), i) ensures s.Reason(n) == s.Events(n)[i].reason {
      LastFinishDecides(None, s.Events(n), i);
    }
    if NoFinish(s.Events(n)) {
      NoFinishKeepsReason(None, s.Events(n));
    }
  }

  /** The last finish event so far reports truncation. */
  ghost predicate Truncated(events: seq<Event>) {
    exists i :: LastFinish(events, i) && events[i].reason == Some("length")
  }

  lemma TruncatedIff(s: Session, n: nat)
    ensures s.Reason(n) == Some("length") <==> Truncated(s.Events(n))
  {
    ReasonIsLastSeen(s, n);
    if !NoFinish(s.Events(n)) {
      var i := SomeLastFinish(s.Events(n));
    }
  }

  /** Exactly which rounds are followed by another: those after which the last finish
      event seen reports truncation, while continuations are left. */
  lemma RoundIsContinuedIff(s: Session, limit: int, n: nat, k: nat)
    requires s.Lasts(limit, n) && k < n
    ensures k + 1 < n <==> Truncated(s.Events(k + 1)) && k < limit
  {
    TruncatedIff(s, k + 1);
    if k + 1 < n {
      assert s.GoesOn(limit, k + 1);
    }
  }

  /** A round that ends for another reason is the last one. */
  lemma UntruncatedRoundIsLast(s: Session, limit: int, n: nat, k: nat, i: nat)
    requires s.Lasts(limit, n) && k < n
    requires LastFinish(s.Round(k), i) && s.Round(k)[i].reason != Some("length")
    ensures k + 1 == n && s.Reason(n) == s.Round(k)[i].reason
  {
    LastFinishDecides(s.Reason(k), s.Round(k), i);
    assert k + 1 < n ==> s.GoesOn(limit, k + 1);
  }

  lemma {:induction false} NoFinishKeepsReason(before: Option<string>, events: seq<Event>)
    requires forall i :: 0 <= i < |events| ==> !events[i].Finish?
    ensures ReasonAfter(before, events) == before
  {
    if events != [] {
      NoFinishKeepsReason(before, events[..|events| - 1]);
    }
  }

  /** The reason is not reset: after a truncated round, a round that reports no
      reason at all counts as truncated too and is continued again. */
  lemma SilentRoundIsContinued(s: Session, limit: int, k: nat)
    requires k > 0 && s.GoesOn(limit, k) && k < limit
    requires forall i :: 0 <= i < |s.Round(k)| ==> !s.Round(k)[i].Finish?
    ensures s.GoesOn(limit, k + 1)
  {
    NoFinishKeepsReason(s.Reason(k), s.Round(k));
  }

  // ------------------------------------------------------------------- usage

  function Parts(events: seq<Event>): seq<Usage> {
    if events == [] then []
    else
      var e := events[|events| - 1];
      Parts(events[..|events| - 1]) + if e.Report? && e.usage.Some? then [e.usage.value] else []
  }

  /** The plain sum of the values present, and whether any is present. */
  function Present(values: seq<Option<real>>): real {
    if values == [] then 0.0
    else
      var v := values[|values| - 1];
      Present(values[..|values| - 1]) + if v.Some? then v.value else 0.0
  }

  function SumOf(values: seq<Option<real>>): Option<real> {
    if exists i :: 0 <= i < |values| && values[i].Some? then Some(Present(values)) else None
  }

  function Column(parts: seq<Usage>, field: Usage -> Option<real>): seq<Option<real>> {
    seq(|parts|, i requires 0 <= i < |parts| => field(parts[i]))
  }

  lemma SumOfAppend(values: seq<Option<real>>, v: Option<real>)
    ensures SumOf(values + [v]) == SumReal(SumOf(values), v)
  {
    var all := values + [v];
    assert all[..|values|] == values;
    if exists i :: 0 <= i < |values| && values[i].Some? {
      var i :| 0 <= i < |values| && values[i].Some?;
      assert all[i].Some?;
    } else {
      NonePresent(values);
      assert all[|values|] == v;
    }
  }

  lemma {:induction false} NonePresent(values: seq<Option<real>>)
    requires forall i :: 0 <= i < |values| ==> values[i].None?
    ensures Present(values) == 0.0
  {
    if values != [] {
      NonePresent(values[..|values| - 1]);
    }
  }

  ghost predicate Additive(field: Usage -> Option<real>) {
    && field(NO_USAGE) == None
    && forall total, part :: field(AddUsage(total, Some(part))) == SumReal(field(total), field(part))
  }

  lemma ColumnAppend(parts: seq<Usage>, part: Usage, field: Usage -> Option<real>)
    ensures Column(parts + [part], field) == Column(parts, field) + [field(part)]
  {
  }

  lemma FieldStep(total: Usage, part: Usage, field: Usage -> Option<real>)
    requires Additive(field)
    ensures field(AddUsage(total, Some(part))) == SumReal(field(total), field(part))
  {
  }

  lemma FieldAppend(total: Usage, parts: seq<Usage>, part: Usage, field: Usage -> Option<real>)
    requires Additive(field) && field(total) == SumOf(Column(parts, field))
    ensures field(AddUsage(total, Some(part))) == SumOf(Column(parts + [part], field))
  {
    ColumnAppend(parts, part, field);
    SumOfAppend(Column(parts, field), field(part));
    FieldStep(total, part, field);
  }

  lemma {:induction false} FieldTotal(events: seq<Event>, field: Usage -> Option<real>)
    requires Additive(field)
    ensures field(UsageAfter(NO_USAGE, events)) == SumOf(Column(Parts(events), field))
  {
    if events != [] {
      var before, e := events[..|events| - 1], events[|events| - 1];
      FieldTotal(before, field);
      if e.Report? && e.usage.Some? {
        FieldAppend(UsageAfter(NO_USAGE, before), Parts(before), e.usage.value, field);
      } else {
        assert Parts(events) == Parts(before);
      }
    }
  }

  lemma {:induction false} UsageConcat(before: Usage, a: seq<Event>, b: seq<Event>)
    ensures UsageAfter(before, a + b) == UsageAfter(UsageAfter(before, a), b)
  {
    if b == [] {
      assert a + b == a;
    } else {
      UsageConcat(before, a, b[..|b| - 1]);
      assert (a + b)[..|a + b| - 1] == a + b[..|b| - 1];
    }
  }

  lemma {:induction false} TotalIsUsageOfAll(s: Session, n: nat)
    ensures s.Total(n) == UsageAfter(NO_USAGE, s.Events(n))
  {
    if n > 0 {
      TotalIsUsageOfAll(s, n - 1);
      UsageConcat(NO_USAGE, s.Events(n - 1), s.Round(n - 1));
    }
  }

  function AsReal(a: Option<int>): Option<real> { if a.None? then None else Some(a.value as real) }

  function Input(u: Usage): Option<real> { AsReal(u.input) }
  function Output(u: Usage): Option<real> { AsReal(u.output) }
  function ThoughtTokens(u: Usage): Option<real> { AsReal(u.reasoning) }
  function Cached(u: Usage): Option<real> { AsReal(u.cached) }
  function Credit(u: Usage): Option<real> { u.credit }

  lemma AddsFieldwise(total: Usage, part: Usage)
    ensures var sum := AddUsage(total, Some(part));
      && Input(sum) == SumReal(Input(total), Input(part)) && Output(sum) == SumReal(Output(total), Output(part))
      && ThoughtTokens(sum) == SumReal(ThoughtTokens(total), ThoughtTokens(part))
      && Cached(sum) == SumReal(Cached(total), Cached(part)) && Credit(sum) == SumReal(Credit(total), Credit(part))
  {
  }

  lemma FieldsAreAdditive()
    ensures Additive(Input) && Additive(Output) && Additive(ThoughtTokens) && Additive(Cached) && Additive(Credit)
  {
    forall total: Usage, part: Usage
      ensures var sum := AddUsage(total, Some(part));
        && Input(sum) == SumReal(Input(total), Input(part)) && Output(sum) == SumReal(Output(total), Output(part))
        && ThoughtTokens(sum) == SumReal(ThoughtTokens(total), ThoughtTokens(part))
        && Cached(sum) == SumReal(Cached(total), Cached(part)) && Credit(sum) == SumReal(Credit(total), Credit(part))
    {
      AddsFieldwise(total, part);
    }
  }

  lemma TotalOfField(s: Session, n: nat, field: Usage -> Option<real>)
    requires Additive(field)
    ensures field(s.Total(n)) == SumOf(Column(Parts(s.Events(n)), field))
  {
    TotalIsUsageOfAll(s, n);
    FieldTotal(s.Events(n), field);
  }

  /** After n rounds every field holds the sum of what the rounds reported for it,
      and is absent when none reported it. */
  lemma UsageIsTheSum(s: Session, n: nat)
    ensures AsReal(s.Total(n).input) == SumOf(Column(Parts(s.Events(n)), Input))
    ensures AsReal(s.Total(n).output) == SumOf(Column(Parts(s.Events(n)), Output))
    ensures AsReal(s.Total(n).reasoning) == SumOf(Column(Parts(s.Events(n)), ThoughtTokens))
    ensures AsReal(s.Total(n).cached) == SumOf(Column(Parts(s.Events(n)), Cached))
    ensures s.Total(n).credit == SumOf(Column(Parts(s.Events(n)), Credit))
  {
    FieldsAreAdditive();
    TotalOfField(s, n, Input);
    TotalOfField(s, n, Output);
    TotalOfField(s, n, ThoughtTokens);
    TotalOfField(s, n, Cached);
    TotalOfField(s, n, Credit);
  }

  /** The total is marked as estimated once any part was. */
  lemma {:induction false} EstimatedIfAnyPartIs(events: seq<Event>)
    ensures UsageAfter(NO_USAGE, events).estimated <==> exists i :: 0 <= i < |Parts(events)| && Parts(events)[i].estimated
  {
    if events != [] {
      var before, e := events[..|events| - 1], events[|events| - 1];
      EstimatedIfAnyPartIs(before);
      if e.Report? && e.usage.Some? {
        assert Parts(events)[|Parts(before)|] == e.usage.value;
        assert forall i :: 0 <= i < |Parts(before)| ==> Parts(events)[i] == Parts(before)[i];
      } else {
        assert Parts(events) == Parts(before);
      }
    }
  }

  function Reports(events: seq<Event>): seq<Event> {
    if events == [] then []
    else
      var e := events[|events| - 1];
      Reports(events[..|events| - 1]) + if e.Report? then [e] else []
  }

  function RunningTotals(s: Session, n: nat): seq<Event> {
    if n == 0 then [] else RunningTotals(s, n - 1) + Summary(s.Total(n))
  }

  lemma {:induction false} ReportsConcat(a: seq<Event>, b: seq<Event>)
    ensures Reports(a + b) == Reports(a) + Reports(b)
  {
    if b == [] {
      assert a + b == a;
    } else {
      ReportsConcat(a, b[..|b| - 1]);
      assert (a + b)[..|a + b| - 1] == a + b[..|b| - 1];
    }
  }

  lemma {:induction false} NoReports(events: seq<Event>)
    requires forall i :: 0 <= i < |events| ==> !events[i].Report?
    ensures Reports(events) == []
  {
    if events != [] {
      NoReports(events[..|events| - 1]);
    }
  }

  /** The usage events the client sees are the running totals, one per finished
      round, wherever the total is not empty. */
  lemma {:induction false} OutputReportsRunningTotals(s: Session, n: nat)
    ensures Reports(s.Output(n)) == RunningTotals(s, n)
  {
    if n > 0 {
      assert s.Output(n) == s.Output(n - 1) + Passed(s.Round(n - 1)) + Summary(s.Total(n));
      OutputReportsRunningTotals(s, n - 1);
      StitchReports(s.Output(n - 1), s.Round(n - 1), s.Total(n));
    }
  }

  predicate NonZero(a: Option<int>) { a.Some? && a.value != 0 }

  /** After a round the client is told the total iff some field of it is not zero. */
  lemma TotalIsReportedIff(s: Session, n: nat)
    requires n > 0
    ensures var u := s.Total(n);
      if NonZero(u.input) || NonZero(u.output) || NonZero(u.reasoning) || NonZero(u.cached) ||
         (u.credit.Some? && u.credit.value != 0.0)
      then s.Output(n) == s.Output(n - 1) + Passed(s.Round(n - 1)) + [Report(Some(u))]
      else s.Output(n) == s.Output(n - 1) + Passed(s.Round(n - 1))
  {
    var before := s.Output(n - 1) + Passed(s.Round(n - 1));
    assert before + [] == before;
  }

  // ---------------------------------------------------------- request bodies

  ghost predicate HasMessages(body: Body) { "messages" in body && body["messages"].Messages? }

  /** The messages appended for the first k rounds. */
  function Turns(s: Session, k: nat): seq<Message> {
    if k == 0 then []
    else
      var round := s.Round(k - 1);
      Turns(s, k - 1) +
      [Assistant(Text(round), if Thought(round) == "" then None else Some(Thought(round))), User(CONTINUE_PROMPT)]
  }

  /** Round k is asked with the original messages plus two per finished round;
      from the second round on there is no output cap; nothing else changes. */
  lemma {:induction false} BodyOfRound(s: Session, k: nat)
    ensures HasMessages(s.first) ==>
      HasMessages(s.Request(k)) && s.Request(k)["messages"].items == s.first["messages"].items + Turns(s, k)
    ensures !HasMessages(s.first) ==> s.Request(k) == if k == 0 then s.first else s.first - CAPS
    ensures k > 0 ==> s.Request(k).Keys == s.first.Keys - CAPS
    ensures k > 0 ==> "max_tokens" !in s.Request(k) && "max_completion_tokens" !in s.Request(k)
    ensures forall key :: key in s.Request(k) && key != "messages" ==> key in s.first && s.Request(k)[key] == s.first[key]
    ensures |Turns(s, k)| == 2 * k
  {
    if k > 0 {
      BodyOfRound(s, k - 1);
    }
  }

  /** The content texts, or the reasoning texts, of appended assistant messages. */
  function Told(messages: seq<Message>, thought: bool): string {
    if messages == [] then ""
    else
      var m := messages[|messages| - 1];
      Told(messages[..|messages| - 1], thought) +
      if !m.Assistant? then "" else if !thought then m.content else if m.reasoning.Some? then m.reasoning.value else ""
  }

  lemma ToldTurn(messages: seq<Message>, content: string, reasoning: Option<string>, thought: bool)
    ensures Told(messages + [Assistant(content, reasoning), User(CONTINUE_PROMPT)], thought) ==
      Told(messages, thought) + if !thought then content else if reasoning.Some? then reasoning.value else ""
  {
    var all := messages + [Assistant(content, reasoning), User(CONTINUE_PROMPT)];
    var most := messages + [Assistant(content, reasoning)];
    assert all[..|all| - 1] == most && most[..|most| - 1] == messages;
  }

  /** Nothing is lost or invented between client and upstream: the text, and the
      reasoning, that the next round is told it has already produced are those the
      client received. */
  lemma {:induction false} UpstreamIsToldWhatTheClientSaw(s: Session, k: nat, thought: bool)
    ensures Told(Turns(s, k), thought) == Spoken(s.Output(k), thought)
  {
    if k > 0 {
      UpstreamIsToldWhatTheClientSaw(s, k - 1, thought);
      var round := s.Round(k - 1);
      var reasoning := if Thought(round) == "" then None else Some(Thought(round));
      StitchSpeaks(s.Output(k - 1), round, s.Total(k), thought);
      ToldTurn(Turns(s, k - 1), Text(round), reasoning, thought);
      assert Turns(s, k) == Turns(s, k - 1) + [Assistant(Text(round), reasoning), User(CONTINUE_PROMPT)];
    }
  }
}
