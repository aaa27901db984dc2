/** In-flight leases per credential: only start times are stored, releases are
    untagged and remove the newest one, and leases older than a time to live
    are reclaimed (src/engine/inflight.py). */
module Inflight {

  const LEASE_TTL: real := 600.0

  /** Start times per credential, in order of acquisition. */
  type Leases = map<string, seq<real>>

  function Of(leases: Leases, credential: string): seq<real> {
    if credential in leases then leases[credential] else []
  }

  /** The list comprehension that keeps the leases younger than the TTL. */
  function Young(starts: seq<real>, ttl: real, now: real): seq<real> {
    if starts == [] then []
    else
      var n := |starts| - 1;
      Young(starts[..n], ttl, now) + if now - starts[n] < ttl then [starts[n]] else []
  }

  /** An empty list is never stored. */
  function Store(leases: Leases, credential: string, starts: seq<real>): Leases {
    if starts == [] then leases - {credential} else leases[credential := starts]
  }

  function Reclaim(leases: Leases, credential: string, ttl: real, now: real): Leases {
    Store(leases, credential, Young(Of(leases, credential), ttl, now))
  }

  function Acquired(leases: Leases, credential: string, ttl: real, now: real): Leases {
    leases[credential := Young(Of(leases, credential), ttl, now) + [now]]
  }

  function Released(leases: Leases, credential: string): Leases {
    var starts := Of(leases, credential);
    if starts == [] then leases else Store(leases, credential, starts[..|starts| - 1])
  }

  function CountAt(leases: Leases, credential: string, ttl: real, now: real): nat {
    |Young(Of(leases, credential), ttl, now)|
  }

  // ------------------------------------------------------------------ runs

  /** Finish names the request that ends by its position among the outstanding
      ones; the tracker does not learn it. A position that names nobody is a
      superfluous release. */
  datatype Op =
    | Acquire(credential: string, at: real)
    | Finish(credential: string, which: nat, at: real)
    | Read(credential: string, at: real)

  function Step(leases: Leases, ttl: real, op: Op): Leases {
    match op
    case Acquire(c, at) => Acquired(leases, c, ttl, at)
    case Finish(c, _, _) => Released(leases, c)
    case Read(c, at) => Reclaim(leases, c, ttl, at)
  }

  function Exec(ttl: real, run: seq<Op>): Leases {
    if run == [] then map[] else Step(Exec(ttl, run[..|run| - 1]), ttl, run[|run| - 1])
  }

  /** Start times of the requests of a credential that really are in flight. */
  function Requests(requests: seq<real>, op: Op, credential: string): seq<real> {
    if op.credential != credential then requests
    else
      match op
      case Acquire(_, at) => requests + [at]
      case Finish(_, i, _) => if i < |requests| then requests[..i] + requests[i + 1..] else requests
      case Read(_, _) => requests
  }

  function Outstanding(run: seq<Op>, credential: string): seq<real> {
    if run == [] then [] else Requests(Outstanding(run[..|run| - 1], credential), run[|run| - 1], credential)
  }

  ghost predicate Clocked(run: seq<Op>) {
    forall i, j :: 0 <= i < j < |run| ==> run[i].at <= run[j].at
  }

  ghost predicate Ascending(s: seq<real>, now: real) {
    && (forall i, j :: 0 <= i < j < |s| ==> s[i] <= s[j])
    && (forall i :: 0 <= i < |s| ==> s[i] <= now)
  }

  /** Aligned at the newest end, every stored start time is at most the
      corresponding real one; in particular there are no more of them. */
  ghost predicate Dominated(stored: seq<real>, actual: seq<real>) {
    && |stored| <= |actual|
    && forall i :: 0 <= i < |stored| ==> stored[i] <= actual[|actual| - |stored| + i]
  }

  ghost predicate Tracks(stored: seq<real>, actual: seq<real>, now: real) {
    Ascending(stored, now) && Ascending(actual, now) && Dominated(stored, actual)
  }

  /** The leases before position `k` have expired, the others have not. */
  ghost predicate SplitsAt(starts: seq<real>, k: int, ttl: real, now: real) {
    && 0 <= k <= |starts|
    && (forall i :: 0 <= i < k ==> ttl <= now - starts[i])
    && (forall i :: k <= i < |starts| ==> now - starts[i] < ttl)
  }

  lemma YoungSnoc(starts: seq<real>, x: real, ttl: real, now: real)
    ensures Young(starts + [x], ttl, now) == Young(starts, ttl, now) + if now - x < ttl then [x] else []
  {
    assert (starts + [x])[..|starts|] == starts;
  }

  lemma SplitSnoc(starts: seq<real>, x: real, k: int, ttl: real, now: real)
    requires SplitsAt(starts, k, ttl, now) && forall i :: 0 <= i < |starts| ==> starts[i] <= x
    ensures now - x < ttl ==> SplitsAt(starts + [x], k, ttl, now)
    ensures now - x >= ttl ==> k == |starts| && SplitsAt(starts + [x], |starts| + 1, ttl, now)
  {
    assert k < |starts| ==> now - starts[k] < ttl && starts[k] <= x;
  }

  lemma YoungStep(starts: seq<real>, x: real, k: nat, ttl: real, now: real) returns (m: nat)
    requires SplitsAt(starts, k, ttl, now) && Young(starts, ttl, now) == starts[k..]
    requires forall i :: 0 <= i < |starts| ==> starts[i] <= x
    ensures SplitsAt(starts + [x], m, ttl, now) && Young(starts + [x], ttl, now) == (starts + [x])[m..]
  {
    YoungSnoc(starts, x, ttl, now);
    assert starts[k..] + [x] == (starts + [x])[k..];
    SplitSnoc(starts, x, k, ttl, now);
    m := if now - x < ttl then k else |starts| + 1;
  }

  lemma AscendingInit(starts: seq<real>, x: real, now: real)
    requires Ascending(starts + [x], now)
    ensures Ascending(starts, now) && forall i :: 0 <= i < |starts| ==> starts[i] <= x
  {
    var all := starts + [x];
    forall i | 0 <= i < |starts| ensures starts[i] <= x && starts[i] <= now {
      assert all[i] <= all[|starts|] && all[i] <= now;
    }
    forall i, j | 0 <= i < j < |starts| ensures starts[i] <= starts[j] {
      assert all[i] <= all[j];
    }
  }

  /** Expired leases of an ascending list form a prefix. */
  lemma {:induction false} YoungIsSuffix(starts: seq<real>, ttl: real, now: real) returns (k: nat)
    requires Ascending(starts, now)
    ensures SplitsAt(starts, k, ttl, now) && Young(starts, ttl, now) == starts[k..]
  {
    if starts == [] {
      k := 0;
    } else {
      var before, x := starts[..|starts| - 1], starts[|starts| - 1];
      assert starts == before + [x];
      AscendingInit(before, x, now);
      k := YoungIsSuffix(before, ttl, now);
      k := YoungStep(before, x, k, ttl, now);
    }
  }

  lemma SuffixTracks(stored: seq<real>, k: nat, actual: seq<real>, now: real)
    requires Tracks(stored, actual, now) && k <= |stored|
    ensures Tracks(stored[k..], actual, now)
  {
    forall i | 0 <= i < |stored| - k ensures stored[k..][i] <= actual[|actual| - (|stored| - k) + i] {
      assert stored[k + i] <= actual[|actual| - |stored| + (k + i)];
    }
  }

  lemma AppendTracks(stored: seq<real>, actual: seq<real>, now: real)
    requires Tracks(stored, actual, now)
    ensures Tracks(stored + [now], actual + [now], now)
  {
  }

  /** Dropping the newest stored lease stays dominated whoever really ended. */
  lemma PopTracks(stored: seq<real>, actual: seq<real>, i: nat, now: real)
    requires Tracks(stored, actual, now) && stored != [] && i < |actual|
    ensures Tracks(stored[..|stored| - 1], actual[..i] + actual[i + 1..], now)
  {
    var a := actual[..i] + actual[i + 1..];
    forall j | 0 <= j < |stored| - 1 ensures stored[j] <= a[|a| - (|stored| - 1) + j] {
      assert stored[j] <= actual[|actual| - |stored| + j];
    }
  }

  /** A superfluous release can only lower the count. */
  lemma SpareTracks(stored: seq<real>, actual: seq<real>, now: real)
    requires Tracks(stored, actual, now) && stored != []
    ensures Tracks(stored[..|stored| - 1], actual, now)
  {
    forall j | 0 <= j < |stored| - 1 ensures stored[j] <= actual[|actual| - (|stored| - 1) + j] {
      assert stored[j] <= actual[|actual| - |stored| + j];
    }
  }

  lemma FinishTracks(stored: seq<real>, actual: seq<real>, i: nat, now: real)
    requires Tracks(stored, actual, now)
    ensures
      var kept := if stored == [] then [] else stored[..|stored| - 1];
      Tracks(kept, if i < |actual| then actual[..i] + actual[i + 1..] else actual, now)
  {
    if stored != [] && i < |actual| {
      PopTracks(stored, actual, i, now);
    } else if stored != [] {
      SpareTracks(stored, actual, now);
    }
  }

  /** What a step does to the list of one credential. */
  function StepList(stored: seq<real>, ttl: real, op: Op): seq<real> {
    match op
    case Acquire(_, at) => Young(stored, ttl, at) + [at]
    case Finish(_, _, _) => if stored == [] then [] else stored[..|stored| - 1]
    case Read(_, at) => Young(stored, ttl, at)
  }

  lemma StepOf(leases: Leases, ttl: real, op: Op, c: string)
    ensures Of(Step(leases, ttl, op), c) ==
      if op.credential == c then StepList(Of(leases, c), ttl, op) else Of(leases, c)
  {
  }

  lemma AgeTracks(stored: seq<real>, actual: seq<real>, before: real, now: real)
    requires Tracks(stored, actual, before) && before <= now
    ensures Tracks(stored, actual, now)
  {
  }

  lemma YoungTracks(stored: seq<real>, ttl: real, actual: seq<real>, now: real)
    requires Tracks(stored, actual, now)
    ensures Tracks(Young(stored, ttl, now), actual, now)
  {
    var k := YoungIsSuffix(stored, ttl, now);
    SuffixTracks(stored, k, actual, now);
  }

  lemma StepTracks(stored: seq<real>, ttl: real, op: Op, actual: seq<real>, before: real)
    requires Tracks(stored, actual, before) && before <= op.at
    ensures Tracks(StepList(stored, ttl, op), Requests(actual, op, op.credential), op.at)
  {
    AgeTracks(stored, actual, before, op.at);
    match op
    case Acquire(_, at) =>
      YoungTracks(stored, ttl, actual, at);
      AppendTracks(Young(stored, ttl, at), actual, at);
    case Read(_, at) => YoungTracks(stored, ttl, actual, at);
    case Finish(_, i, at) => FinishTracks(stored, actual, i, at);
  }

  lemma {:induction false} RunTracks(ttl: real, run: seq<Op>, c: string, now: real)
    requires Clocked(run) && (run != [] ==> run[|run| - 1].at <= now)
    ensures Tracks(Of(Exec(ttl, run), c), Outstanding(run, c), now)
  {
    if run != [] {
      var n := |run| - 1;
      RunTracks(ttl, run[..n], c, run[n].at);
      StepOf(Exec(ttl, run[..n]), ttl, run[n], c);
      if run[n].credential == c {
        StepTracks(Of(Exec(ttl, run[..n]), c), ttl, run[n], Outstanding(run[..n], c), run[n].at);
      }
    }
  }

  lemma SplitsApart(stored: seq<real>, k: nat, actual: seq<real>, m: nat, ttl: real, now: real)
    requires Dominated(stored, actual)
    requires SplitsAt(stored, k, ttl, now) && SplitsAt(actual, m, ttl, now)
    ensures |stored| - k <= |actual| - m
  {
    var i := |actual| - |stored| + k;
    if k < |stored| {
      assert stored[k] <= actual[i];
      assert m <= i;
    }
  }

  lemma DominatedCount(stored: seq<real>, actual: seq<real>, ttl: real, now: real)
    requires Tracks(stored, actual, now)
    ensures |Young(stored, ttl, now)| <= |Young(actual, ttl, now)|
  {
    var k := YoungIsSuffix(stored, ttl, now);
    var m := YoungIsSuffix(actual, ttl, now);
    SplitsApart(stored, k, actual, m, ttl, now);
  }

  /** The tracker never over-counts: after any interleaving, its count is at
      most the number of requests in flight for less than the TTL. */
  lemma NeverOvercounts(ttl: real, run: seq<Op>, c: string, now: real)
    requires Clocked(run) && (run != [] ==> run[|run| - 1].at <= now)
    ensures CountAt(Exec(ttl, run), c, ttl, now) <= |Young(Outstanding(run, c), ttl, now)|
  {
    RunTracks(ttl, run, c, now);
    DominatedCount(Of(Exec(ttl, run), c), Outstanding(run, c), ttl, now);
  }

  // ------------------------------------------------------- when it is exact

  /** Every release of the credential ends a request that is in flight. */
  ghost predicate Matched(run: seq<Op>, c: string) {
    forall n :: 0 <= n < |run| && run[n].Finish? && run[n].credential == c ==> run[n].which < |Outstanding(run[..n], c)|
  }

  ghost predicate ExactAfter(ttl: real, run: seq<Op>, c: string, n: nat)
    requires n <= |run|
  {
    |Of(Exec(ttl, run[..n]), c)| == |Outstanding(run[..n], c)|
  }

  /** After every prefix of the run, as many leases are stored as requests of the
      credential are in flight. */
  ghost predicate AlwaysExact(ttl: real, run: seq<Op>, c: string) {
    forall n: nat :: n <= |run| ==> ExactAfter(ttl, run, c, n)
  }

  predicate Prunes(op: Op, c: string) { op.credential == c && !op.Finish? }

  /** No acquisition and no reading finds a lease of the credential too old. */
  ghost predicate NothingExpires(ttl: real, run: seq<Op>, c: string) {
    forall n :: 0 <= n < |run| && Prunes(run[n], c) ==> KeepsAll(Of(Exec(ttl, run[..n]), c), ttl, run[n].at)
  }

  predicate KeepsAll(starts: seq<real>, ttl: real, now: real) { Young(starts, ttl, now) == starts }

  lemma {:induction false} YoungIsShorter(starts: seq<real>, ttl: real, now: real)
    ensures |Young(starts, ttl, now)| <= |starts|
    ensures |Young(starts, ttl, now)| == |starts| ==> KeepsAll(starts, ttl, now)
  {
    if starts != [] {
      var before, x := starts[..|starts| - 1], starts[|starts| - 1];
      assert starts == before + [x];
      YoungIsShorter(before, ttl, now);
    }
  }

  /** A step keeps an exact list exact iff it drops nothing by age. */
  lemma StepExact(stored: seq<real>, ttl: real, op: Op, actual: seq<real>)
    requires |stored| == |actual| && (op.Finish? ==> op.which < |actual|)
    ensures |StepList(stored, ttl, op)| == |Requests(actual, op, op.credential)| <==>
      op.Finish? || KeepsAll(stored, ttl, op.at)
  {
    YoungIsShorter(stored, ttl, op.at);
  }

  lemma NextExact(ttl: real, run: seq<Op>, c: string, n: nat)
    requires n < |run| && Matched(run, c) && ExactAfter(ttl, run, c, n)
    ensures ExactAfter(ttl, run, c, n + 1) <==>
      (Prunes(run[n], c) ==> KeepsAll(Of(Exec(ttl, run[..n]), c), ttl, run[n].at))
  {
    assert run[..n + 1][..n] == run[..n];
    StepOf(Exec(ttl, run[..n]), ttl, run[n], c);
    if run[n].credential == c {
      StepExact(Of(Exec(ttl, run[..n]), c), ttl, run[n], Outstanding(run[..n], c));
    }
  }

  lemma {:induction false} ExactWhile(ttl: real, run: seq<Op>, c: string, n: nat)
    requires n <= |run| && Matched(run, c) && NothingExpires(ttl, run, c)
    ensures ExactAfter(ttl, run, c, n)
  {
    if n > 0 {
      ExactWhile(ttl, run, c, n - 1);
      NextExact(ttl, run, c, n - 1);
    } else {
      assert run[..0] == [];
    }
  }

  /** In every run with matched releases, whatever the clock does: the count is
      exact throughout iff no lease is ever dropped for its age. */
  lemma ExactWhileNothingExpires(ttl: real, run: seq<Op>, c: string)
    requires Matched(run, c)
    ensures AlwaysExact(ttl, run, c) <==> NothingExpires(ttl, run, c)
  {
    if NothingExpires(ttl, run, c) {
      forall n: nat | n <= |run| ensures ExactAfter(ttl, run, c, n) {
        ExactWhile(ttl, run, c, n);
      }
    }
    if AlwaysExact(ttl, run, c) {
      forall n | 0 <= n < |run| && Prunes(run[n], c)
        ensures KeepsAll(Of(Exec(ttl, run[..n]), c), ttl, run[n].at)
      {
        assert ExactAfter(ttl, run, c, n) && ExactAfter(ttl, run, c, n + 1);
        NextExact(ttl, run, c, n);
      }
    }
  }

  /** When the credential's present busy period began: the last acquisition that
      found no request of it in flight. Nothing the tracker stores is looked at. */
  function BusySince(run: seq<Op>, c: string): real {
    if run == [] then 0.0
    else
      var before, op := run[..|run| - 1], run[|run| - 1];
      if op.Acquire? && op.credential == c && Outstanding(before, c) == [] then op.at else BusySince(before, c)
  }

  predicate BusyFor(run: seq<Op>, c: string, ttl: real, now: real) {
    Outstanding(run, c) != [] && ttl <= now - BusySince(run, c)
  }

  /** No acquisition and no reading of the credential comes when it has been busy
      without a pause for the TTL. */
  ghost predicate PausesInTime(ttl: real, run: seq<Op>, c: string) {
    forall n :: 0 <= n < |run| && Prunes(run[n], c) ==> !BusyFor(run[..n], c, ttl, run[n].at)
  }

  /** Releases pop the newest lease, so the oldest one dates from the beginning of
      the busy period. */
  ghost predicate OldestIsFirst(ttl: real, run: seq<Op>, c: string) {
    var stored := Of(Exec(ttl, run), c);
    |stored| == |Outstanding(run, c)| && (stored != [] ==> stored[0] == BusySince(run, c))
  }

  lemma OldestDecides(starts: seq<real>, ttl: real, now: real)
    requires Ascending(starts, now)
    ensures KeepsAll(starts, ttl, now) <==> starts == [] || now - starts[0] < ttl
  {
    var k := YoungIsSuffix(starts, ttl, now);
    if starts != [] && now - starts[0] < ttl {
      assert k == 0;
    }
  }

  lemma {:induction false} OldestStaysFirst(ttl: real, run: seq<Op>, c: string)
    requires Matched(run, c) && NothingExpires(ttl, run, c)
    ensures OldestIsFirst(ttl, run, c)
  {
    if run != [] {
      var n := |run| - 1;
      var before, op := run[..n], run[n];
      PrefixIsMatched(ttl, run, c, n);
      OldestStaysFirst(ttl, before, c);
      StepOf(Exec(ttl, before), ttl, op, c);
      if op.credential == c {
        assert Prunes(op, c) ==> KeepsAll(Of(Exec(ttl, before), c), ttl, op.at);
      }
    }
  }

  lemma PrefixIsMatched(ttl: real, run: seq<Op>, c: string, n: nat)
    requires n <= |run| && Matched(run, c)
    ensures Matched(run[..n], c)
    ensures NothingExpires(ttl, run, c) ==> NothingExpires(ttl, run[..n], c)
    ensures PausesInTime(ttl, run, c) ==> PausesInTime(ttl, run[..n], c)
    ensures Clocked(run) ==> Clocked(run[..n])
  {
    assert forall m :: 0 <= m < n ==> run[..n][..m] == run[..m];
  }

  /** While the list is exact, the tracker drops something exactly when the
      credential has been busy without a pause for the TTL. */
  lemma DropsExactlyWhenBusy(ttl: real, run: seq<Op>, c: string, now: real)
    requires Clocked(run) && (run != [] ==> run[|run| - 1].at <= now) && OldestIsFirst(ttl, run, c)
    ensures KeepsAll(Of(Exec(ttl, run), c), ttl, now) <==> !BusyFor(run, c, ttl, now)
  {
    RunTracks(ttl, run, c, now);
    OldestDecides(Of(Exec(ttl, run), c), ttl, now);
  }

  lemma StepPauses(ttl: real, run: seq<Op>, c: string, n: nat)
    requires n < |run| && Clocked(run) && Matched(run, c) && NothingExpires(ttl, run[..n], c)
    ensures KeepsAll(Of(Exec(ttl, run[..n]), c), ttl, run[n].at) <==> !BusyFor(run[..n], c, ttl, run[n].at)
  {
    PrefixIsMatched(ttl, run, c, n);
    OldestStaysFirst(ttl, run[..n], c);
    DropsExactlyWhenBusy(ttl, run[..n], c, run[n].at);
  }

  lemma {:induction false} PausesKeepAll(ttl: real, run: seq<Op>, c: string)
    requires Clocked(run) && Matched(run, c)
    ensures PausesInTime(ttl, run, c) <==> NothingExpires(ttl, run, c)
  {
    if run != [] {
      var n := |run| - 1;
      PrefixIsMatched(ttl, run, c, n);
      PausesKeepAll(ttl, run[..n], c);
      assert forall m :: 0 <= m < n ==> run[..n][..m] == run[..m];
      if NothingExpires(ttl, run[..n], c) {
        StepPauses(ttl, run, c, n);
      }
    }
  }

  /** The exact condition, in terms of the requests alone: the count is exact
      throughout a run iff the credential always pauses before it has been busy
      for the TTL and is asked or used again. */
  lemma ExactIffItPauses(ttl: real, run: seq<Op>, c: string)
    requires Clocked(run) && Matched(run, c)
    ensures AlwaysExact(ttl, run, c) <==> PausesInTime(ttl, run, c)
  {
    ExactWhileNothingExpires(ttl, run, c);
    PausesKeepAll(ttl, run, c);
  }

  // ------------------------------------------------- what a reading reports

  /** The start times that would be stored if nothing were ever dropped for its age. */
  function Unpruned(run: seq<Op>, c: string): seq<real> {
    if run == [] then []
    else
      var before, op := Unpruned(run[..|run| - 1], c), run[|run| - 1];
      if op.credential == c then StepUnpruned(before, op) else before
  }

  /** The least number of requests of the credential in flight at any moment after
      `since`. */
  function Quietest(run: seq<Op>, c: string, since: real): nat {
    var present := |Outstanding(run, c)|;
    if run == [] || run[|run| - 1].at <= since then present
    else
      Least(Quietest(run[..|run| - 1], c, since), present)
  }

  /** The first m steps lead to a state that still held at some moment after `since`. */
  ghost predicate HeldAfter(run: seq<Op>, m: nat, since: real) {
    m <= |run| && forall i :: m <= i < |run| ==> since < run[i].at
  }

  lemma {:induction false} QuietestIsLeast(run: seq<Op>, c: string, since: real, m: nat)
    requires Clocked(run) && HeldAfter(run, m, since)
    ensures Quietest(run, c, since) <= |Outstanding(run[..m], c)|
  {
    if m == |run| {
      assert run[..m] == run;
    } else {
      var n := |run| - 1;
      assert since < run[n].at;
      assert HeldAfter(run[..n], m, since);
      QuietestIsLeast(run[..n], c, since, m);
      assert run[..n][..m] == run[..m];
    }
  }

  lemma {:induction false} QuietestIsReached(run: seq<Op>, c: string, since: real) returns (m: nat)
    requires Clocked(run)
    ensures HeldAfter(run, m, since) && |Outstanding(run[..m], c)| == Quietest(run, c, since)
  {
    m := |run|;
    assert run[..m] == run;
    if run != [] && run[|run| - 1].at > since && Quietest(run, c, since) < |Outstanding(run, c)| {
      var n := |run| - 1;
      m := QuietestIsReached(run[..n], c, since);
      assert run[..n][..m] == run[..m];
      forall i | m <= i < |run| ensures since < run[i].at {
        if i < n {
          assert since < run[..n][i].at;
        }
      }
    }
  }

  /** How many start times are at or before `since`. */
  function Aged(starts: seq<real>, since: real): nat {
    if starts == [] then 0 else Aged(starts[..|starts| - 1], since) + if starts[|starts| - 1] <= since then 1 else 0
  }

  lemma {:induction false} AgedOrYoung(starts: seq<real>, ttl: real, now: real)
    ensures |Young(starts, ttl, now)| == |starts| - Aged(starts, now - ttl)
  {
    if starts != [] {
      AgedOrYoung(starts[..|starts| - 1], ttl, now);
    }
  }

  lemma AgedAtMost(starts: seq<real>, since: real)
    ensures Aged(starts, since) <= |starts|
  {
    AgedOrYoung(starts, 0.0, since);
  }

  lemma {:induction false} AllAged(starts: seq<real>, since: real)
    requires forall i :: 0 <= i < |starts| ==> starts[i] <= since
    ensures Aged(starts, since) == |starts|
  {
    if starts != [] {
      AllAged(starts[..|starts| - 1], since);
    }
  }

  lemma AgedPop(starts: seq<real>, now: real, since: real)
    requires Ascending(starts, now) && starts != []
    ensures Aged(starts[..|starts| - 1], since) ==
      if Aged(starts, since) < |starts| then Aged(starts, since) else |starts| - 1
  {
    if starts[|starts| - 1] <= since {
      AllAged(starts, since);
    } else {
      AgedAtMost(starts[..|starts| - 1], since);
    }
  }

  lemma AgedPush(starts: seq<real>, x: real, since: real)
    ensures Aged(starts + [x], since) == Aged(starts, since) + if x <= since then 1 else 0
  {
    assert (starts + [x])[..|starts|] == starts;
  }

  lemma {:induction false} UnprunedAscends(run: seq<Op>, c: string, now: real)
    requires Clocked(run) && (run != [] ==> run[|run| - 1].at <= now)
    ensures Ascending(Unpruned(run, c), now)
  {
    if run != [] {
      UnprunedAscends(run[..|run| - 1], c, run[|run| - 1].at);
    }
  }

  lemma {:induction false} UnprunedCounts(run: seq<Op>, c: string)
    requires Matched(run, c)
    ensures |Unpruned(run, c)| == |Outstanding(run, c)|
  {
    if run != [] {
      var n := |run| - 1;
      MatchedPrefix(run, c, n);
      UnprunedCounts(run[..n], c);
    }
  }

  lemma MatchedPrefix(run: seq<Op>, c: string, n: nat)
    requires n <= |run| && Matched(run, c)
    ensures Matched(run[..n], c) && (Clocked(run) ==> Clocked(run[..n]))
  {
    assert forall m :: 0 <= m < n ==> run[..n][..m] == run[..m];
  }

  /** What a step does to the unpruned list of its credential. */
  function StepUnpruned(starts: seq<real>, op: Op): seq<real> {
    match op
    case Acquire(_, at) => starts + [at]
    case Finish(_, _, _) => if starts == [] then [] else starts[..|starts| - 1]
    case Read(_, _) => starts
  }

  function Least(a: nat, b: nat): nat { if a < b then a else b }

  lemma StepAged(starts: seq<real>, op: Op, since: real)
    requires Ascending(starts, op.at) && since < op.at
    ensures Aged(StepUnpruned(starts, op), since) == Least(Aged(starts, since), |StepUnpruned(starts, op)|)
  {
    AgedAtMost(starts, since);
    match op
    case Acquire(_, at) => AgedPush(starts, at, since);
    case Finish(_, _, at) =>
      if starts != [] {
        AgedPop(starts, at, since);
      }
    case Read(_, _) =>
  }

  lemma AllOld(run: seq<Op>, c: string, since: real)
    requires Clocked(run) && (run != [] ==> run[|run| - 1].at <= since)
    ensures Aged(Unpruned(run, c), since) == |Unpruned(run, c)|
  {
    UnprunedAscends(run, c, since);
    AllAged(Unpruned(run, c), since);
  }

  /** Newest-first releases: what is left from before a moment is what was always
      in flight since. */
  lemma {:induction false} AgedIsQuietest(run: seq<Op>, c: string, since: real)
    requires Clocked(run) && Matched(run, c)
    ensures Aged(Unpruned(run, c), since) == Quietest(run, c, since)
  {
    UnprunedCounts(run, c);
    if run == [] || run[|run| - 1].at <= since {
      AllOld(run, c, since);
    } else {
      var n := |run| - 1;
      MatchedPrefix(run, c, n);
      AgedIsQuietest(run[..n], c, since);
      UnprunedCounts(run[..n], c);
      UnprunedAscends(run[..n], c, run[n].at);
      if run[n].credential == c {
        StepAged(Unpruned(run[..n], c), run[n], since);
      } else {
        AgedAtMost(Unpruned(run[..n], c), since);
      }
    }
  }

  // ------------------------------------------- pruning is not seen by readings

  /** `stored` is what is left of `starts` after expired ones were dropped. */
  ghost predicate OnlyExpired(stored: seq<real>, starts: seq<real>, ttl: real, now: real) {
    && |stored| <= |starts| && stored == starts[|starts| - |stored|..]
    && forall i :: 0 <= i < |starts| - |stored| ==> ttl <= now - starts[i]
  }

  lemma {:induction false} YoungConcat(a: seq<real>, b: seq<real>, ttl: real, now: real)
    ensures Young(a + b, ttl, now) == Young(a, ttl, now) + Young(b, ttl, now)
  {
    if b == [] {
      assert a + b == a;
    } else {
      var n := |b| - 1;
      YoungConcat(a, b[..n], ttl, now);
      assert a + b == (a + b[..n]) + [b[n]];
      YoungSnoc(a + b[..n], b[n], ttl, now);
    }
  }

  lemma {:induction false} NoneYoung(starts: seq<real>, ttl: real, now: real)
    requires forall i :: 0 <= i < |starts| ==> ttl <= now - starts[i]
    ensures Young(starts, ttl, now) == []
  {
    if starts != [] {
      NoneYoung(starts[..|starts| - 1], ttl, now);
    }
  }

  lemma SameYoung(stored: seq<real>, starts: seq<real>, ttl: real, now: real)
    requires OnlyExpired(stored, starts, ttl, now)
    ensures Young(stored, ttl, now) == Young(starts, ttl, now)
  {
    var gone := starts[..|starts| - |stored|];
    assert starts == gone + stored;
    YoungConcat(gone, stored, ttl, now);
    NoneYoung(gone, ttl, now);
  }

  lemma PruneOnlyExpired(stored: seq<real>, starts: seq<real>, ttl: real, now: real)
    requires OnlyExpired(stored, starts, ttl, now) && Ascending(stored, now)
    ensures OnlyExpired(Young(stored, ttl, now), starts, ttl, now)
  {
    var k := YoungIsSuffix(stored, ttl, now);
    var m := |starts| - |stored|;
    assert stored[k..] == starts[m + k..];
    forall i | 0 <= i < m + k ensures ttl <= now - starts[i] {
      if m <= i {
        assert starts[i] == stored[i - m];
      }
    }
  }

  lemma PopOnlyExpired(stored: seq<real>, starts: seq<real>, ttl: real, now: real)
    requires OnlyExpired(stored, starts, ttl, now) && starts != []
    ensures OnlyExpired(if stored == [] then [] else stored[..|stored| - 1], starts[..|starts| - 1], ttl, now)
  {
  }

  lemma PushOnlyExpired(stored: seq<real>, starts: seq<real>, x: real, ttl: real, now: real)
    requires OnlyExpired(stored, starts, ttl, now)
    ensures OnlyExpired(stored + [x], starts + [x], ttl, now)
  {
  }

  lemma StepOnlyExpired(stored: seq<real>, starts: seq<real>, ttl: real, op: Op, before: real)
    requires OnlyExpired(stored, starts, ttl, before) && Ascending(stored, op.at) && before <= op.at
    ensures OnlyExpired(StepList(stored, ttl, op), StepUnpruned(starts, op), ttl, op.at)
  {
    assert OnlyExpired(stored, starts, ttl, op.at);
    match op
    case Acquire(_, at) =>
      PruneOnlyExpired(stored, starts, ttl, at);
      PushOnlyExpired(Young(stored, ttl, at), starts, at, ttl, at);
    case Read(_, at) => PruneOnlyExpired(stored, starts, ttl, at);
    case Finish(_, _, at) =>
      if starts != [] {
        PopOnlyExpired(stored, starts, ttl, at);
      }
  }

  lemma {:induction false} RunOnlyExpired(ttl: real, run: seq<Op>, c: string, now: real)
    requires Clocked(run) && (run != [] ==> run[|run| - 1].at <= now)
    ensures OnlyExpired(Of(Exec(ttl, run), c), Unpruned(run, c), ttl, now)
  {
    if run != [] {
      var n := |run| - 1;
      var op := run[n];
      RunOnlyExpired(ttl, run[..n], c, op.at);
      RunTracks(ttl, run[..n], c, op.at);
      StepOf(Exec(ttl, run[..n]), ttl, op, c);
      if op.credential == c {
        StepOnlyExpired(Of(Exec(ttl, run[..n]), c), Unpruned(run[..n], c), ttl, op, op.at);
      }
    }
  }

  lemma ReadingIsUnpruned(ttl: real, run: seq<Op>, c: string, now: real)
    requires Clocked(run) && (run != [] ==> run[|run| - 1].at <= now)
    ensures CountAt(Exec(ttl, run), c, ttl, now) == |Young(Unpruned(run, c), ttl, now)|
  {
    RunOnlyExpired(ttl, run, c, now);
    SameYoung(Of(Exec(ttl, run), c), Unpruned(run, c), ttl, now);
  }

  lemma UnprunedFormula(ttl: real, run: seq<Op>, c: string, now: real)
    requires Clocked(run) && Matched(run, c)
    ensures |Young(Unpruned(run, c), ttl, now)| == |Outstanding(run, c)| - Quietest(run, c, now - ttl)
  {
    AgedOrYoung(Unpruned(run, c), ttl, now);
    AgedIsQuietest(run, c, now - ttl);
    UnprunedCounts(run, c);
  }

  /** What a reading reports, in terms of the requests alone, in every run with
      matched releases: the requests in flight, less the least number of them that
      were in flight at any moment of the last TTL. */
  lemma ReadingFormula(ttl: real, run: seq<Op>, c: string, now: real)
    requires Clocked(run) && Matched(run, c) && (run != [] ==> run[|run| - 1].at <= now)
    ensures CountAt(Exec(ttl, run), c, ttl, now) == |Outstanding(run, c)| - Quietest(run, c, now - ttl)
  {
    ReadingIsUnpruned(ttl, run, c, now);
    UnprunedFormula(ttl, run, c, now);
  }

  /** At some moment after `since`, exactly v requests were in flight. */
  ghost predicate OnceHeld(run: seq<Op>, c: string, since: real, v: int) {
    exists m: nat :: HeldAfter(run, m, since) && |Outstanding(run[..m], c)| == v
  }

  lemma QuietestIff(run: seq<Op>, c: string, since: real, v: int)
    requires Clocked(run) && v <= Quietest(run, c, since)
    ensures Quietest(run, c, since) == v <==> OnceHeld(run, c, since, v)
  {
    var m := QuietestIsReached(run, c, since);
    if OnceHeld(run, c, since, v) {
      var k: nat :| HeldAfter(run, k, since) && |Outstanding(run[..k], c)| == v;
      QuietestIsLeast(run, c, since, k);
    }
  }

  /** A reading equals the number of requests in flight iff at some moment of the
      last TTL none was. */
  lemma ReadingIsExactIff(ttl: real, run: seq<Op>, c: string, now: real)
    requires Clocked(run) && Matched(run, c) && (run != [] ==> run[|run| - 1].at <= now)
    ensures CountAt(Exec(ttl, run), c, ttl, now) == |Outstanding(run, c)| <==> OnceHeld(run, c, now - ttl, 0)
  {
    ReadingFormula(ttl, run, c, now);
    QuietestIff(run, c, now - ttl, 0);
  }

  /** The number of requests in flight that have been running for the TTL. */
  function LongRunning(ttl: real, run: seq<Op>, c: string, now: real): int {
    |Outstanding(run, c)| - |Young(Outstanding(run, c), ttl, now)|
  }

  /** The exact condition for the reading that is meant: it equals the number of
      requests younger than the TTL iff at some moment of the last TTL no request
      was in flight except those that have been running all along. */
  lemma ReadingIsFairIff(ttl: real, run: seq<Op>, c: string, now: real)
    requires Clocked(run) && Matched(run, c) && (run != [] ==> run[|run| - 1].at <= now)
    ensures CountAt(Exec(ttl, run), c, ttl, now) == |Young(Outstanding(run, c), ttl, now)| <==>
      OnceHeld(run, c, now - ttl, LongRunning(ttl, run, c, now))
  {
    ReadingFormula(ttl, run, c, now);
    NeverOvercounts(ttl, run, c, now);
    QuietestIff(run, c, now - ttl, LongRunning(ttl, run, c, now));
  }

  lemma Snoc(ttl: real, run: seq<Op>, op: Op)
    ensures Of(Exec(ttl, run + [op]), op.credential) == StepList(Of(Exec(ttl, run), op.credential), ttl, op)
    ensures Outstanding(run + [op], op.credential) == Requests(Outstanding(run, op.credential), op, op.credential)
  {
    assert (run + [op])[..|run|] == run;
    StepOf(Exec(ttl, run), ttl, op, op.credential);
  }

  /** Releasing the newest start time can under-count: of two requests the older
      one ends, and the younger one's lease expires as if it were the older. */
  lemma UndercountExample(c: string)
    ensures
      var run := [Acquire(c, 0.0)] + [Acquire(c, 500.0)] + [Finish(c, 0, 550.0)];
      && CountAt(Exec(LEASE_TTL, run), c, LEASE_TTL, 650.0) == 0
      && |Young(Outstanding(run, c), LEASE_TTL, 650.0)| == 1
  {
    var a, b, f := Acquire(c, 0.0), Acquire(c, 500.0), Finish(c, 0, 550.0);
    Snoc(LEASE_TTL, [], a);
    assert [] + [a] == [a];
    Snoc(LEASE_TTL, [a], b);
    assert KeepsAll([0.0], LEASE_TTL, 500.0) by {
      assert [0.0][..0] == [];
    }
    Snoc(LEASE_TTL, [a] + [b], f);
    assert [0.0][..0] == [] && [500.0][..0] == [];
  }

  // --------------------------------------------------------------- objects

  class InflightTracker {
    const ttl: real
    var leases: Leases

    constructor (ttl: real)
      ensures this.ttl == ttl && leases == map[]
    {
      this.ttl, leases := ttl, map[];
    }

    method Live(credential: string, now: real) returns (live: seq<real>)
      modifies this
      ensures leases == Reclaim(old(leases), credential, ttl, now)
      ensures live == Of(leases, credential) == Young(old(Of(leases, credential)), ttl, now)
    {
      var starts := Of(leases, credential);
      live := [];
      for i := 0 to |starts|
        invariant live == Young(starts[..i], ttl, now)
      {
        assert starts[..i + 1][..i] == starts[..i];
        if now - starts[i] < ttl {
          live := live + [starts[i]];
        }
      }
      assert starts[..|starts|] == starts;
      leases := if live == [] then leases - {credential} else leases[credential := live];
    }

    method Count(credential: string, now: real) returns (count: nat)
      modifies this
      ensures leases == Step(old(leases), ttl, Read(credential, now))
      ensures count == CountAt(old(leases), credential, ttl, now)
    {
      var live := Live(credential, now);
      count := |live|;
    }

    method Acquire(credential: string, now: real)
      modifies this
      ensures leases == Acquired(old(leases), credential, ttl, now)
    {
      var live := Live(credential, now);
      leases := leases[credential := live + [now]];
    }

    method Release(credential: string)
      modifies this
      ensures leases == Released(old(leases), credential)
    {
      var starts := Of(leases, credential);
      if starts == [] {
        return;
      }
      starts := starts[..|starts| - 1];
      leases := if starts == [] then leases - {credential} else leases[credential := starts];
    }
  }

  class InflightGuard {
    const tracker: InflightTracker

    constructor (tracker: InflightTracker)
      ensures this.tracker == tracker
    {
      this.tracker := tracker;
    }

    /** `limit` is the current setting; zero or less means unlimited. */
    method Blocked(limit: int, credential: string, now: real) returns (blocked: bool)
      modifies tracker
      ensures limit <= 0 ==> !blocked && tracker.leases == old(tracker.leases)
      ensures limit > 0 ==>
        && tracker.leases == Step(old(tracker.leases), tracker.ttl, Read(credential, now))
        && (blocked <==> limit <= CountAt(old(tracker.leases), credential, tracker.ttl, now))
    {
      if limit <= 0 {
        return false;
      }
      var count := tracker.Count(credential, now);
      blocked := limit <= count;
    }
  }

  /** A credential is only reported full when that many of its requests really
      have been running for less than the TTL. */
  lemma BlockedMeansBusy(ttl: real, run: seq<Op>, c: string, now: real, limit: int)
    requires Clocked(run) && (run != [] ==> run[|run| - 1].at <= now)
    requires limit <= CountAt(Exec(ttl, run), c, ttl, now)
    ensures limit <= |Young(Outstanding(run, c), ttl, now)|
  {
    NeverOvercounts(ttl, run, c, now);
  }
}
