/** When a provider's model table is fetched: a time to live, exponential
    back-off after failures, and stale-while-revalidate (src/api/models.py).
    Refresh passes hold a lock, so they run one after another. */
module ModelRefresh {
  import opened Options

  const TTL: real := 300.0
  const BACKOFF_MAX: real := 7200.0

  type Models = map<string, string>

  /** Clock values are monotonic seconds. */
  datatype Catalogue = Catalogue(cache: map<string, Models>, fetchedAt: map<string, real>, failures: map<string, nat>)
  {
    function Failures(p: string): nat { if p in failures then failures[p] else 0 }

    /** A usable cached table: one with at least one model. */
    predicate HasModels(p: string) { p in cache && cache[p] != map[] }
  }

  /** Undecryptable credential, failed call, or a table. */
  datatype Result = Undecryptable | CallFailed | Loaded(models: Models)

  datatype Answer = Answer(start: real, end: real, result: Result)

  datatype Attempt = Attempt(provider: string, start: real, end: real, result: Result)

  function Pow2(n: nat): nat { if n == 0 then 1 else 2 * Pow2(n - 1) }

  function Min(a: real, b: real): real { if b < a then b else a }

  /** How long after an attempt the next one is due. */
  function Interval(failures: nat): real {
    if failures == 0 then TTL
    else Min(TTL * Pow2(if failures - 1 < 10 then failures - 1 else 10) as real, BACKOFF_MAX)
  }

  predicate NeedsRefresh(c: Catalogue, p: string, now: real) {
    p in c.fetchedAt ==> Interval(c.Failures(p)) <= now - c.fetchedAt[p]
  }

  /** One attempt: a failure keeps the table and lengthens the back-off, a
      success replaces the table and clears the failures. */
  function Refreshed(c: Catalogue, a: Attempt): Catalogue {
    var c' := c.(fetchedAt := c.fetchedAt[a.provider := a.end]);
    match a.result
    case Loaded(models) => c'.(cache := c.cache[a.provider := models], failures := c.failures - {a.provider})
    case _ => c'.(failures := c.failures[a.provider := c.Failures(a.provider) + 1])
  }

  // ------------------------------------------------------------------ runs

  /** One pass under the lock: `now` is read once, after the lock is held. */
  datatype Pass = Pass(now: real, registry: seq<string>, connected: set<string>, answers: map<string, Answer>)
  {
    /** Every registered provider answers at most once, after the pass began. */
    ghost predicate WellFormed() {
      && (forall i, j :: 0 <= i < j < |registry| ==> registry[i] != registry[j])
      && (forall i :: 0 <= i < |registry| ==> registry[i] in answers)
      && (forall p :: p in answers ==> now <= answers[p].start <= answers[p].end)
    }

    function AttemptOn(p: string): Attempt
      requires p in answers
    {
      Attempt(p, answers[p].start, answers[p].end, answers[p].result)
    }

    predicate Due(c: Catalogue, p: string) { p in connected && NeedsRefresh(c, p, now) }
  }

  /** Attempts made for the first k registered providers. */
  function Attempts(c: Catalogue, pass: Pass, k: nat): seq<Attempt>
    requires pass.WellFormed() && k <= |pass.registry|
  {
    if k == 0 then []
    else
      var before, p := Attempts(c, pass, k - 1), pass.registry[k - 1];
      if pass.Due(Apply(c, before), p) then before + [pass.AttemptOn(p)] else before
  }

  function Apply(c: Catalogue, attempts: seq<Attempt>): Catalogue {
    if attempts == [] then c else Refreshed(Apply(c, attempts[..|attempts| - 1]), attempts[|attempts| - 1])
  }

  function Made(c: Catalogue, pass: Pass): seq<Attempt>
    requires pass.WellFormed()
  {
    Attempts(c, pass, |pass.registry|)
  }

  ghost predicate AllWellFormed(run: seq<Pass>) {
    forall i :: 0 <= i < |run| ==> run[i].WellFormed()
  }

  /** All attempts of a run of passes that starts in `c`. */
  function History(c: Catalogue, run: seq<Pass>): seq<Attempt>
    requires AllWellFormed(run)
  {
    if run == [] then []
    else
      var before := History(c, run[..|run| - 1]);
      before + Made(Apply(c, before), run[|run| - 1])
  }

  // ----------------------------------------------- what a history determines

  /** End of the last attempt on a provider. */
  function LastEnd(h: seq<Attempt>, p: string): Option<real> {
    if h == [] then None
    else if h[|h| - 1].provider == p then Some(h[|h| - 1].end)
    else LastEnd(h[..|h| - 1], p)
  }

  /** Consecutive failures of a provider up to now. */
  function Streak(h: seq<Attempt>, p: string): nat {
    if h == [] then 0
    else
      var a := h[|h| - 1];
      if a.provider != p then Streak(h[..|h| - 1], p)
      else if a.result.Loaded? then 0
      else Streak(h[..|h| - 1], p) + 1
  }

  /** The table of the last successful attempt. */
  function LastLoaded(h: seq<Attempt>, p: string): Option<Models> {
    if h == [] then None
    else
      var a := h[|h| - 1];
      if a.provider == p && a.result.Loaded? then Some(a.result.models) else LastLoaded(h[..|h| - 1], p)
  }

  /** The schedule in numbers: five minutes, doubled with every further failure in
      a row, and two hours at most. */
  function Wait(failures: nat): real {
    if failures <= 1 then 300.0 else if 2.0 * Wait(failures - 1) < 7200.0 then 2.0 * Wait(failures - 1) else 7200.0
  }

  /** Every attempt keeps its distance from the previous one on its provider. */
  ghost predicate Spaced(h: seq<Attempt>) {
    forall k :: 0 <= k < |h| ==> KeepsDistance(h[..k], h[k])
  }

  predicate KeepsDistance(before: seq<Attempt>, a: Attempt) {
    match LastEnd(before, a.provider)
    case None => true
    case Some(end) => end + Wait(Streak(before, a.provider)) <= a.start
  }

  lemma {:induction false} Pow2Grows(a: nat, b: nat)
    requires a <= b
    ensures 1 <= Pow2(a) <= Pow2(b)
    decreases b
  {
    if a < b {
      Pow2Grows(a, b - 1);
    } else if a > 0 {
      Pow2Grows(a - 1, a - 1);
    }
  }

  lemma IntervalDoubles(n: nat)
    requires n >= 1
    ensures Interval(n + 1) == if 2.0 * Interval(n) < 7200.0 then 2.0 * Interval(n) else 7200.0
  {
    if n > 10 {
      Pow2Grows(5, 10);
      assert Pow2(5) == 32;
    } else {
      assert Pow2(n) == 2 * Pow2(n - 1);
    }
  }

  /** The interval follows the schedule. */
  lemma {:induction false} IntervalIsWait(n: nat)
    ensures Interval(n) == Wait(n)
  {
    if n > 1 {
      IntervalIsWait(n - 1);
      IntervalDoubles(n - 1);
    }
  }

  /** The last attempt on the provider, -1 without one. */
  ghost predicate IsLast(h: seq<Attempt>, p: string, last: int) {
    && -1 <= last < |h| && (last >= 0 ==> h[last].provider == p)
    && forall m :: last < m < |h| ==> h[m].provider != p
  }

  /** The last successful attempt on the provider, -1 without one. */
  ghost predicate IsLastSuccess(h: seq<Attempt>, p: string, last: int) {
    && -1 <= last < |h| && (last >= 0 ==> h[last].provider == p && h[last].result.Loaded?)
    && forall m :: last < m < |h| && h[m].provider == p ==> !h[m].result.Loaded?
  }

  ghost function AttemptsAfter(h: seq<Attempt>, p: string, position: int): set<int>
    requires -1 <= position
  {
    set m | position < m < |h| && h[m].provider == p
  }

  lemma {:induction false} LastEndMeans(h: seq<Attempt>, p: string, last: int)
    requires IsLast(h, p, last)
    ensures LastEnd(h, p) == if last < 0 then None else Some(h[last].end)
  {
    if h != [] && last < |h| - 1 {
      LastEndMeans(h[..|h| - 1], p, last);
    }
  }

  lemma {:induction false} LastLoadedMeans(h: seq<Attempt>, p: string, success: int)
    requires IsLastSuccess(h, p, success)
    ensures LastLoaded(h, p) == if success < 0 then None else Some(h[success].result.models)
  {
    if h != [] && success < |h| - 1 {
      LastLoadedMeans(h[..|h| - 1], p, success);
    }
  }

  lemma {:induction false} StreakMeans(h: seq<Attempt>, p: string, success: int)
    requires IsLastSuccess(h, p, success)
    ensures Streak(h, p) == |AttemptsAfter(h, p, success)|
  {
    if success == |h| - 1 {
      assert AttemptsAfter(h, p, success) == {};
    } else {
      var n := |h| - 1;
      StreakMeans(h[..n], p, success);
      assert AttemptsAfter(h, p, success) == AttemptsAfter(h[..n], p, success) + if h[n].provider == p then {n} else {};
    }
  }

  /** What the history functions mean, in positions of the history. */
  lemma HistoryMeans(h: seq<Attempt>, p: string, last: int, success: int)
    requires IsLast(h, p, last) && IsLastSuccess(h, p, success)
    ensures LastEnd(h, p) == if last < 0 then None else Some(h[last].end)
    ensures LastLoaded(h, p) == if success < 0 then None else Some(h[success].result.models)
    ensures Streak(h, p) == |AttemptsAfter(h, p, success)|
  {
    LastEndMeans(h, p, last);
    LastLoadedMeans(h, p, success);
    StreakMeans(h, p, success);
  }

  /** The catalogue agrees with the history of attempts since it was `c`. */
  lemma {:induction false} CatalogueFollowsHistory(c: Catalogue, h: seq<Attempt>, p: string)
    requires c.failures == map[]
    ensures Apply(c, h).Failures(p) == Streak(h, p)
    ensures match LastEnd(h, p)
            case None => (p in Apply(c, h).fetchedAt <==> p in c.fetchedAt)
                         && (p in c.fetchedAt ==> Apply(c, h).fetchedAt[p] == c.fetchedAt[p])
            case Some(end) => p in Apply(c, h).fetchedAt && Apply(c, h).fetchedAt[p] == end
    ensures match LastLoaded(h, p)
            case None => (p in Apply(c, h).cache <==> p in c.cache)
                         && (p in c.cache ==> Apply(c, h).cache[p] == c.cache[p])
            case Some(models) => p in Apply(c, h).cache && Apply(c, h).cache[p] == models
  {
    if h != [] {
      CatalogueFollowsHistory(c, h[..|h| - 1], p);
    }
  }

  /** A failed attempt changes no cached table. */
  lemma FailureKeepsTables(c: Catalogue, a: Attempt)
    ensures !a.result.Loaded? ==> Refreshed(c, a).cache == c.cache
    ensures forall p :: p != a.provider ==>
              (p in Refreshed(c, a).cache <==> p in c.cache) && (p in c.cache ==> Refreshed(c, a).cache[p] == c.cache[p])
  {
  }

  lemma {:induction false} ApplyConcat(c: Catalogue, a: seq<Attempt>, b: seq<Attempt>)
    ensures Apply(c, a + b) == Apply(Apply(c, a), b)
  {
    if b == [] {
      assert a + b == a;
    } else {
      ApplyConcat(c, a, b[..|b| - 1]);
      assert (a + b)[..|a + b| - 1] == a + b[..|b| - 1];
    }
  }

  lemma SpacedAppend(h: seq<Attempt>, a: Attempt)
    requires Spaced(h) && KeepsDistance(h, a)
    ensures Spaced(h + [a])
  {
    forall k | 0 <= k < |h + [a]| ensures KeepsDistance((h + [a])[..k], (h + [a])[k]) {
      if k < |h| {
        assert (h + [a])[..k] == h[..k];
      } else {
        assert (h + [a])[..k] == h;
      }
    }
  }

  lemma DueKeepsDistance(c: Catalogue, h: seq<Attempt>, pass: Pass, p: string)
    requires c.failures == map[] && pass.WellFormed() && p in pass.answers
    requires pass.Due(Apply(c, h), p)
    ensures KeepsDistance(h, pass.AttemptOn(p))
  {
    CatalogueFollowsHistory(c, h, p);
    IntervalIsWait(Streak(h, p));
  }

  lemma NextAttemptIsSpaced(c: Catalogue, h: seq<Attempt>, pass: Pass, before: seq<Attempt>, p: string)
    requires c.failures == map[] && pass.WellFormed() && p in pass.answers
    requires Spaced(h + before) && pass.Due(Apply(Apply(c, h), before), p)
    ensures Spaced(h + (before + [pass.AttemptOn(p)]))
  {
    assert h + (before + [pass.AttemptOn(p)]) == (h + before) + [pass.AttemptOn(p)];
    ApplyConcat(c, h, before);
    DueKeepsDistance(c, h + before, pass, p);
    SpacedAppend(h + before, pass.AttemptOn(p));
  }

  lemma {:induction false} PassIsSpaced(c: Catalogue, h: seq<Attempt>, pass: Pass, k: nat)
    requires c.failures == map[] && Spaced(h)
    requires pass.WellFormed() && k <= |pass.registry|
    ensures Spaced(h + Attempts(Apply(c, h), pass, k))
  {
    if k == 0 {
      assert h + [] == h;
    } else {
      var before, p := Attempts(Apply(c, h), pass, k - 1), pass.registry[k - 1];
      PassIsSpaced(c, h, pass, k - 1);
      if pass.Due(Apply(Apply(c, h), before), p) {
        NextAttemptIsSpaced(c, h, pass, before, p);
      }
    }
  }

  /** In every run without a restart, an attempt on a provider starts at least the
      wait for its failures in a row after the previous one on it ended. */
  lemma {:induction false} AttemptsAreSpaced(c: Catalogue, run: seq<Pass>)
    requires c.failures == map[] && AllWellFormed(run)
    ensures Spaced(History(c, run))
  {
    if run != [] {
      var n := |run| - 1;
      AttemptsAreSpaced(c, run[..n]);
      PassIsSpaced(c, History(c, run[..n]), run[n], |run[n].registry|);
    }
  }

  /** In other words: between two attempts on a provider with none between them lies
      the wait for as many failures as there have been since the last success. */
  lemma NeighboursAreSpaced(c: Catalogue, run: seq<Pass>, i: nat, k: nat, success: int)
    requires c.failures == map[] && AllWellFormed(run)
    requires i < k < |History(c, run)| && IsLast(History(c, run)[..k], History(c, run)[k].provider, i)
    requires IsLastSuccess(History(c, run)[..k], History(c, run)[k].provider, success)
    ensures var h := History(c, run);
      h[i].end + Wait(|AttemptsAfter(h[..k], h[k].provider, success)|) <= h[k].start
  {
    var h := History(c, run);
    AttemptsAreSpaced(c, run);
    assert KeepsDistance(h[..k], h[k]);
    HistoryMeans(h[..k], h[k].provider, i, success);
  }

  lemma {:induction false} Untouched(c: Catalogue, attempts: seq<Attempt>, p: string, now: real)
    requires forall i :: 0 <= i < |attempts| ==> attempts[i].provider != p
    ensures NeedsRefresh(Apply(c, attempts), p, now) <==> NeedsRefresh(c, p, now)
    ensures Apply(c, attempts).Failures(p) == c.Failures(p)
  {
    if attempts != [] {
      Untouched(c, attempts[..|attempts| - 1], p, now);
    }
  }

  ghost predicate Tried(attempts: seq<Attempt>, p: string) {
    exists i :: 0 <= i < |attempts| && attempts[i].provider == p
  }

  lemma TriedAppend(attempts: seq<Attempt>, a: Attempt, p: string)
    ensures Tried(attempts + [a], p) <==> Tried(attempts, p) || a.provider == p
  {
    if Tried(attempts, p) {
      var i :| 0 <= i < |attempts| && attempts[i].provider == p;
      assert (attempts + [a])[i].provider == p;
    }
    if a.provider == p {
      assert (attempts + [a])[|attempts|].provider == p;
    }
  }

  /** A pass tries exactly the registered providers that were due when it began. */
  lemma {:induction false} PassTriesWhatIsDue(c: Catalogue, pass: Pass, k: nat, p: string)
    requires pass.WellFormed() && k <= |pass.registry|
    ensures Tried(Attempts(c, pass, k), p) <==> p in pass.registry[..k] && pass.Due(c, p)
  {
    if k > 0 {
      var before, q := Attempts(c, pass, k - 1), pass.registry[k - 1];
      PassTriesWhatIsDue(c, pass, k - 1, p);
      PassTriesWhatIsDue(c, pass, k - 1, q);
      assert pass.registry[..k] == pass.registry[..k - 1] + [q];
      assert q !in pass.registry[..k - 1] && !Tried(before, q);
      Untouched(c, before, q, pass.now);
      if pass.Due(c, q) {
        TriedAppend(before, pass.AttemptOn(q), p);
      }
    }
  }

  /** In numbers: a pass calls a provider it knows and has a credential for when the
      wait after its last attempt is over, and not a moment before. */
  lemma PassWaits(c: Catalogue, h: seq<Attempt>, pass: Pass, p: string)
    requires c.failures == map[] && pass.WellFormed() && p in pass.registry && p in pass.connected
    ensures LastEnd(h, p).Some? ==>
              (Tried(Made(Apply(c, h), pass), p) <==> LastEnd(h, p).value + Wait(Streak(h, p)) <= pass.now)
    ensures LastEnd(h, p).None? ==>
              (Tried(Made(Apply(c, h), pass), p) <==> p !in c.fetchedAt || c.fetchedAt[p] + 300.0 <= pass.now)
  {
    CatalogueFollowsHistory(c, h, p);
    IntervalIsWait(Streak(h, p));
    StreakNeedsAttempts(h, p);
    PassTriesWhatIsDue(Apply(c, h), pass, |pass.registry|, p);
    assert pass.registry[..|pass.registry|] == pass.registry;
  }

  /** Nothing else is called. */
  lemma PassSkips(c: Catalogue, pass: Pass, p: string)
    requires pass.WellFormed() && (p !in pass.registry || p !in pass.connected)
    ensures !Tried(Made(c, pass), p)
  {
    PassTriesWhatIsDue(c, pass, |pass.registry|, p);
    assert pass.registry[..|pass.registry|] == pass.registry;
  }

  lemma {:induction false} StreakNeedsAttempts(h: seq<Attempt>, p: string)
    ensures LastEnd(h, p).None? ==> Streak(h, p) == 0
  {
    if h != [] {
      StreakNeedsAttempts(h[..|h| - 1], p);
    }
  }

  /** The back-off never shrinks with more failures and stays within its bounds. */
  lemma IntervalGrows(n: nat, m: nat)
    requires n <= m
    ensures 300.0 <= Interval(n) <= Interval(m) <= 7200.0
  {
    Pow2Grows(0, 0);
    if n > 0 {
      Pow2Grows(0, if n - 1 < 10 then n - 1 else 10);
      Pow2Grows(if n - 1 < 10 then n - 1 else 10, if m - 1 < 10 then m - 1 else 10);
    } else if m > 0 {
      Pow2Grows(0, if m - 1 < 10 then m - 1 else 10);
    }
  }

  /** However long a provider has been failing, two hours after its last attempt
      any pass that knows it and has a credential for it tries it again. */
  lemma RetryIsAlwaysPermitted(c: Catalogue, pass: Pass, p: string)
    requires pass.WellFormed() && p in pass.registry && p in pass.connected
    requires p in c.fetchedAt ==> 7200.0 <= pass.now - c.fetchedAt[p]
    ensures Tried(Made(c, pass), p)
  {
    IntervalGrows(c.Failures(p), c.Failures(p));
    PassTriesWhatIsDue(c, pass, |pass.registry|, p);
    assert pass.registry[..|pass.registry|] == pass.registry;
  }

  // --------------------------------------------------------- cache recovery

  datatype Snapshot = Snapshot(savedAt: real, models: Models)

  function Max(a: real, b: real): real { if a < b then b else a }

  /** A stored table comes back with its age. */
  function RestoredOne(c: Catalogue, p: string, snapshot: Snapshot, wall: real, monotonic: real): Catalogue {
    c.(cache := c.cache[p := snapshot.models],
       fetchedAt := c.fetchedAt[p := monotonic - Max(0.0, wall - snapshot.savedAt)])
  }

  /** A restored table falls due when its own age reaches the interval, counted
      from when it was saved rather than from the restart. */
  lemma RestoredFreshness(c: Catalogue, p: string, snapshot: Snapshot, wall: real, monotonic: real, elapsed: real)
    requires snapshot.savedAt <= wall && c.Failures(p) == 0
    ensures NeedsRefresh(RestoredOne(c, p, snapshot, wall, monotonic), p, monotonic + elapsed) <==>
            300.0 <= wall + elapsed - snapshot.savedAt
  {
  }

  // --------------------------------------------------------------- objects

  /** What a list request does about stale providers. */
  datatype Revalidation = Fresh | WaitForRefresh | Background(stale: set<string>) | AlreadyRunning

  class ModelService {
    var catalogue: Catalogue
    /** Providers whose background refresh has been announced and not finished. */
    var refreshing: set<string>
    /** Announcements of the background tasks that are still running. */
    var tasks: seq<set<string>>

    /** At most one background refresh is in flight, and the announcement is
        exactly what it announced. */
    ghost predicate Valid() reads this {
      && |tasks| <= 1
      && refreshing == (if tasks == [] then {} else tasks[0])
      && (tasks != [] ==> tasks[0] != {})
    }

    constructor ()
      ensures Valid() && catalogue == Catalogue(map[], map[], map[]) && tasks == []
    {
      catalogue, refreshing, tasks := Catalogue(map[], map[], map[]), {}, [];
    }

    method RefreshProvider(a: Attempt)
      modifies this`catalogue
      ensures catalogue == Refreshed(old(catalogue), a)
    {
      var p := a.provider;
      match a.result {
        case Undecryptable =>
          catalogue := catalogue.(failures := catalogue.failures[p := catalogue.Failures(p) + 1]);
          catalogue := catalogue.(fetchedAt := catalogue.fetchedAt[p := a.end]);
        case CallFailed =>
          var failures := catalogue.Failures(p) + 1;
          catalogue := catalogue.(failures := catalogue.failures[p := failures]);
          catalogue := catalogue.(fetchedAt := catalogue.fetchedAt[p := a.end]);
        case Loaded(models) =>
          catalogue := catalogue.(failures := catalogue.failures - {p});
          catalogue := catalogue.(cache := catalogue.cache[p := models]);
          catalogue := catalogue.(fetchedAt := catalogue.fetchedAt[p := a.end]);
      }
    }

    /** A pass; `made` are the attempts it turned out to make. */
    method RefreshProviders(pass: Pass) returns (made: seq<Attempt>)
      requires pass.WellFormed()
      modifies this`catalogue
      ensures made == Made(old(catalogue), pass) && catalogue == Apply(old(catalogue), made)
    {
      made := [];
      for i := 0 to |pass.registry|
        invariant made == Attempts(old(catalogue), pass, i) && catalogue == Apply(old(catalogue), made)
      {
        var p := pass.registry[i];
        if p !in pass.connected || !NeedsRefresh(catalogue, p, pass.now) {
          continue;
        }
        RefreshProvider(pass.AttemptOn(p));
        assert (made + [pass.AttemptOn(p)])[..|made|] == made;
        made := made + [pass.AttemptOn(p)];
      }
    }

    method ScheduleRefresh(stale: set<string>) returns (scheduled: bool)
      requires Valid() && stale != {}
      modifies this`refreshing, this`tasks
      ensures Valid() && (scheduled <==> old(tasks) == [])
      ensures tasks == if scheduled then [stale] else old(tasks)
    {
      if refreshing != {} {
        return false;
      }
      refreshing := refreshing + stale;
      tasks := tasks + [stale];
      scheduled := true;
    }

    /** A background task ends, normally or not. */
    method BackgroundDone()
      requires Valid() && tasks != []
      modifies this`refreshing, this`tasks
      ensures Valid() && tasks == [] && refreshing == {}
    {
      refreshing := refreshing - tasks[0];
      tasks := tasks[1..];
    }

    /** Stale-while-revalidate: a request only waits when some stale provider has
        no table to serve; otherwise at most a background refresh is started. */
    method Revalidate(connected: set<string>, now: real) returns (r: Revalidation)
      requires Valid()
      modifies this`refreshing, this`tasks
      ensures Valid() && |tasks| <= 1
      ensures r == WaitForRefresh <==>
        exists p :: p in connected && NeedsRefresh(catalogue, p, now) && !catalogue.HasModels(p)
      ensures r == Fresh <==> forall p :: p in connected ==> !NeedsRefresh(catalogue, p, now)
      ensures r.Background? ==>
        old(tasks) == [] && tasks == [r.stale] && r.stale == set p | p in connected && NeedsRefresh(catalogue, p, now)
      ensures !r.Background? ==> tasks == old(tasks)
    {
      var stale := set p | p in connected && NeedsRefresh(catalogue, p, now);
      var missing := set p | p in stale && !catalogue.HasModels(p);
      if missing != {} {
        ghost var p :| p in missing;
        return WaitForRefresh;
      }
      forall p | p in connected && NeedsRefresh(catalogue, p, now) ensures catalogue.HasModels(p) {
        assert p in stale && p !in missing;
      }
      if stale == {} {
        forall p | p in connected ensures !NeedsRefresh(catalogue, p, now) {
          assert p !in stale;
        }
        return Fresh;
      }
      ghost var q :| q in stale;
      var scheduled := ScheduleRefresh(stale);
      r := if scheduled then Background(stale) else AlreadyRunning;
    }

    method Restore(snapshots: map<string, Snapshot>, registered: set<string>, connected: set<string>, wall: real, monotonic: real)
      modifies this`catalogue
      ensures forall p :: p in snapshots && p in registered && p in connected ==>
        && p in catalogue.cache && catalogue.cache[p] == snapshots[p].models
        && p in catalogue.fetchedAt && catalogue.fetchedAt[p] == monotonic - Max(0.0, wall - snapshots[p].savedAt)
      ensures forall p :: !(p in snapshots && p in registered && p in connected) ==>
        && (p in catalogue.cache <==> p in old(catalogue).cache)
        && (p in catalogue.cache ==> catalogue.cache[p] == old(catalogue).cache[p])
        && (p in catalogue.fetchedAt <==> p in old(catalogue).fetchedAt)
        && (p in catalogue.fetchedAt ==> catalogue.fetchedAt[p] == old(catalogue).fetchedAt[p])
      ensures catalogue.failures == old(catalogue).failures
    {
      var wanted := set p | p in snapshots && p in registered && p in connected;
      var todo := wanted;
      while todo != {}
        invariant todo <= wanted && catalogue.failures == old(catalogue).failures
        invariant forall p :: p in wanted - todo ==>
          && p in catalogue.cache && catalogue.cache[p] == snapshots[p].models
          && p in catalogue.fetchedAt && catalogue.fetchedAt[p] == monotonic - Max(0.0, wall - snapshots[p].savedAt)
        invariant forall p :: p !in wanted ==>
          && (p in catalogue.cache <==> p in old(catalogue).cache)
          && (p in catalogue.cache ==> catalogue.cache[p] == old(catalogue).cache[p])
          && (p in catalogue.fetchedAt <==> p in old(catalogue).fetchedAt)
          && (p in catalogue.fetchedAt ==> catalogue.fetchedAt[p] == old(catalogue).fetchedAt[p])
        decreases todo
      {
        var p :| p in todo;
        todo := todo - {p};
        catalogue := RestoredOne(catalogue, p, snapshots[p], wall, monotonic);
      }
    }
  }
}
