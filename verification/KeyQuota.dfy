/** Per-key quota admission: daily totals, a sliding window of admissions and
    an in-flight count (src/key_quota.py). */
module KeyQuota {
  import opened SlidingWindow

  /** A field equal to zero is switched off. The parser only produces
      non-negative fields; a negative one would refuse every request. */
  datatype Quota = Quota(dailyRequests: int, dailyTokens: int, dailyCost: real,
                         rpm: int, tpm: int, maxConcurrency: int)
  {
    predicate IsEmpty() {
      dailyRequests == 0 && dailyTokens == 0 && dailyCost == 0.0 && rpm == 0 && tpm == 0 && maxConcurrency == 0
    }

    predicate HasDaily() {
      dailyRequests != 0 || dailyTokens != 0 || dailyCost != 0.0
    }
  }

  datatype Usage = Usage(requests: int, tokens: int, cost: real)

  /** What the injected aggregate answers: nothing is injected, the query
      raises, or today's totals. */
  datatype UsageSource = Absent | Failing | Reports(usage: Usage)

  /** One call of `admit`, with the clock reading and the start of the day
      that reading falls in. */
  datatype Request = Request(key: string, quota: Quota, estimate: int, now: real,
                             source: UsageSource, dayStart: int)
  {
    /** The larger of the estimate and zero. */
    function Tokens(): (t: nat)
      ensures estimate <= t && (t == estimate || t == 0)
    {
      if estimate < 0 then 0 else estimate
    }
  }

  datatype Reason = DailyRequests | DailyTokens | DailyCost | PerMinuteRequests | PerMinuteTokens | Concurrency

  datatype Verdict = Admitted(counted: bool) | Refused(reason: Reason, retryAfter: int)

  /** Admitted events inside the window, oldest first, and requests in flight. */
  datatype Guard = Guard(events: map<string, seq<Mark>>, inflight: map<string, nat>)
  {
    function Queue(key: string): seq<Mark> {
      if key in events then events[key] else []
    }

    function Inflight(key: string): nat {
      if key in inflight then inflight[key] else 0
    }
  }

  const EMPTY := Guard(map[], map[])
  const DAY: real := 86400.0

  function Max(a: int, b: int): int { if a < b then b else a }

  function Ceil(x: real): int { -(-x).Floor }

  function WindowRetry(queue: seq<Mark>, now: real, width: real): int {
    if queue == [] then 1 else Max(1, Ceil(queue[0].at + width - now))
  }

  function DayRetry(req: Request): int {
    Max(1, (req.dayStart as real + DAY - req.now).Floor)
  }

  function DailyReason(quota: Quota, usage: Usage): set<Reason> {
    (if quota.dailyRequests != 0 && usage.requests >= quota.dailyRequests then {DailyRequests} else {})
    + (if quota.dailyTokens != 0 && usage.tokens >= quota.dailyTokens then {DailyTokens} else {})
    + (if quota.dailyCost != 0.0 && usage.cost >= quota.dailyCost then {DailyCost} else {})
  }

  function FirstDaily(over: set<Reason>): Reason {
    if DailyRequests in over then DailyRequests else if DailyTokens in over then DailyTokens else DailyCost
  }

  /** Drops what has left the window, and the key itself once nothing is left. */
  function Pruned(g: Guard, key: string, cutoff: real): Guard {
    if key !in g.events then g
    else
      var left := Since(g.events[key], cutoff);
      g.(events := if left == [] then g.events - {key} else g.events[key := left])
  }

  /** The window and concurrency tests, on a guard already pruned for the key. */
  function Instant(g: Guard, width: real, req: Request): (Guard, Verdict) {
    var queue, q := g.Queue(req.key), req.quota;
    if q.rpm != 0 && |queue| >= q.rpm then
      (g, Refused(PerMinuteRequests, WindowRetry(queue, req.now, width)))
    else if q.tpm != 0 && Total(queue) + req.Tokens() > q.tpm then
      (g, Refused(PerMinuteTokens, WindowRetry(queue, req.now, width)))
    else if q.maxConcurrency != 0 && g.Inflight(req.key) >= q.maxConcurrency then
      (g, Refused(Concurrency, 1))
    else
      (Guard(g.events[req.key := queue + [Mark(req.now, req.Tokens())]],
             g.inflight[req.key := g.Inflight(req.key) + 1]),
       Admitted(true))
  }

  /** Admission. A failing daily query lets the request through uncounted. */
  function Admission(g: Guard, width: real, req: Request): (Guard, Verdict) {
    if req.quota.IsEmpty() then (g, Admitted(false))
    else if req.quota.HasDaily() && req.source.Failing? then (g, Admitted(false))
    else if req.quota.HasDaily() && req.source.Reports? && DailyReason(req.quota, req.source.usage) != {} then
      (g, Refused(FirstDaily(DailyReason(req.quota, req.source.usage)), DayRetry(req)))
    else Instant(Pruned(g, req.key, req.now - width), width, req)
  }

  /** One slot of the key is returned, and the key is dropped with its last one. */
  function AfterRelease(g: Guard, key: string): (r: Guard)
    ensures r.events == g.events
    ensures forall k :: r.Inflight(k) == if k == key && 0 < g.Inflight(k) then g.Inflight(k) - 1 else g.Inflight(k)
    ensures key in r.inflight <==> 0 < r.Inflight(key)
  {
    if g.Inflight(key) <= 1 then g.(inflight := g.inflight - {key})
    else g.(inflight := g.inflight[key := g.Inflight(key) - 1])
  }

  // ------------------------------------------------------------------ runs

  datatype Op =
    | Ask(req: Request)
    | Return(key: string, at: real)
    | Inspect(key: string, at: real)
  {
    function Now(): real { if Ask? then req.now else at }
  }

  function Step(g: Guard, width: real, op: Op): Guard {
    match op
    case Ask(req) => Admission(g, width, req).0
    case Return(key, _) => AfterRelease(g, key)
    case Inspect(key, at) => Pruned(g, key, at - width)
  }

  function Exec(width: real, run: seq<Op>): Guard {
    if run == [] then EMPTY else Step(Exec(width, run[..|run| - 1]), width, run[|run| - 1])
  }

  /** The mark a step adds to the history of counted admissions of a key. */
  function Counted(g: Guard, width: real, op: Op, key: string): seq<Mark> {
    if op.Ask? && op.req.key == key && Admission(g, width, op.req).1 == Admitted(true)
    then [Mark(op.req.now, op.req.Tokens())]
    else []
  }

  /** Every counted admission of a key in a run, whatever was pruned since. */
  function History(width: real, run: seq<Op>, key: string): seq<Mark> {
    if run == [] then []
    else
      var before := run[..|run| - 1];
      History(width, before, key) + Counted(Exec(width, before), width, run[|run| - 1], key)
  }

  ghost predicate Clocked(run: seq<Op>) {
    forall i, j :: 0 <= i < j < |run| ==> run[i].Now() <= run[j].Now()
  }

  /** What a guard that reads the clock at `now` knows about a key's history. */
  ghost predicate Tracks(g: Guard, width: real, key: string, history: seq<Mark>, now: real) {
    && Tracked(g.Queue(key), history, width, now)
    && (key in g.events ==> g.events[key] != [])
  }

  lemma PrunedQueue(g: Guard, pruned: string, cutoff: real, key: string)
    ensures Pruned(g, pruned, cutoff).Queue(key) == if pruned == key then Since(g.Queue(key), cutoff) else g.Queue(key)
  {
  }

  lemma PruneTracks(g: Guard, width: real, key: string, history: seq<Mark>, before: real, now: real, pruned: string)
    requires Tracks(g, width, key, history, before) && before <= now
    ensures Tracks(Pruned(g, pruned, now - width), width, key, history, now)
    ensures pruned == key ==> var q := Pruned(g, pruned, now - width).Queue(key); q != [] ==> now - width < q[0].at
  {
    PrunedQueue(g, pruned, now - width, key);
    SinceTracked(g.Queue(key), history, width, before, now);
  }

  /** What admission does to the window: a counted admission passed both window
      tests on the pruned queue and appends one mark to it; any other outcome
      leaves the queues as they were or merely pruned. */
  lemma AdmissionEffect(g: Guard, width: real, req: Request)
    ensures
      var pruned, (g', verdict) := Pruned(g, req.key, req.now - width), Admission(g, width, req);
      var queue := pruned.Queue(req.key);
      if verdict == Admitted(true) then
        && (req.quota.rpm != 0 ==> |queue| < req.quota.rpm)
        && (req.quota.tpm != 0 ==> Total(queue) + req.Tokens() <= req.quota.tpm)
        && g'.events == pruned.events[req.key := queue + [Mark(req.now, req.Tokens())]]
      else
        g'.events == g.events || g'.events == pruned.events
  {
  }

  lemma PushTracks(g: Guard, g': Guard, width: real, key: string, history: seq<Mark>, pushed: string, mark: Mark)
    requires Tracks(g, width, key, history, mark.at)
    requires g'.events == g.events[pushed := g.Queue(pushed) + [mark]]
    ensures Tracks(g', width, key, history + if pushed == key then [mark] else [], mark.at)
  {
    if pushed == key {
      PushTracked(g.Queue(key), history, width, mark.at, mark);
    } else {
      assert history + [] == history;
    }
  }

  lemma AskTracks(g: Guard, width: real, req: Request, key: string, history: seq<Mark>, before: real)
    requires Tracks(g, width, key, history, before) && before <= req.now
    ensures Tracks(Admission(g, width, req).0, width, key, history + Counted(g, width, Ask(req), key), req.now)
  {
    var pruned := Pruned(g, req.key, req.now - width);
    PruneTracks(g, width, key, history, before, req.now, req.key);
    AdmissionEffect(g, width, req);
    var (g', verdict) := Admission(g, width, req);
    if verdict == Admitted(true) {
      PushTracks(pruned, g', width, key, history, req.key, Mark(req.now, req.Tokens()));
    } else {
      assert history + Counted(g, width, Ask(req), key) == history;
    }
  }

  lemma StepTracks(g: Guard, width: real, op: Op, key: string, history: seq<Mark>, before: real)
    requires Tracks(g, width, key, history, before) && before <= op.Now()
    ensures Tracks(Step(g, width, op), width, key, history + Counted(g, width, op, key), op.Now())
  {
    match op
    case Ask(req) => AskTracks(g, width, req, key, history, before);
    case _ =>
      PruneTracks(g, width, key, history, before, op.Now(), op.key);
      assert history + Counted(g, width, op, key) == history;
  }

  lemma {:induction false} RunTracks(width: real, run: seq<Op>, key: string, now: real)
    requires Clocked(run)
    requires run != [] ==> run[|run| - 1].Now() <= now
    ensures Tracks(Exec(width, run), width, key, History(width, run, key), now)
  {
    if run != [] {
      var before, op := run[..|run| - 1], run[|run| - 1];
      RunTracks(width, before, key, op.Now());
      StepTracks(Exec(width, before), width, op, key, History(width, before, key), op.Now());
    }
  }

  /** All requests of the key carry an rpm limit of at most `cap`. */
  ghost predicate RpmAtMost(run: seq<Op>, key: string, cap: nat) {
    forall i :: 0 <= i < |run| && run[i].Ask? && run[i].req.key == key ==>
      run[i].req.quota.rpm != 0 && run[i].req.quota.rpm <= cap
  }

  ghost predicate TpmAtMost(run: seq<Op>, key: string, cap: nat) {
    forall i :: 0 <= i < |run| && run[i].Ask? && run[i].req.key == key ==>
      run[i].req.quota.tpm != 0 && run[i].req.quota.tpm <= cap
  }

  /** A request whose limit is at most `cap` keeps the key's request cap. */
  lemma AdmissionKeepsRequestCap(g: Guard, width: real, req: Request, history: seq<Mark>, cap: nat)
    requires Tracks(g, width, req.key, history, req.now)
    requires Capped(Units(history), width, cap)
    requires req.quota.rpm != 0 && req.quota.rpm <= cap && Admission(g, width, req).1 == Admitted(true)
    ensures Capped(Units(history + [Mark(req.now, req.Tokens())]), width, cap)
  {
    var queue := Pruned(g, req.key, req.now - width).Queue(req.key);
    assert |queue| < req.quota.rpm by { AdmissionEffect(g, width, req); }
    assert Count(history, width, req.now) == |queue| by {
      PruneTracks(g, width, req.key, history, req.now, req.now, req.key);
      PrunedCount(queue, history, width, req.now);
    }
    UnitsAppend(history, Mark(req.now, req.Tokens()));
    AppendCapped(Units(history), Mark(req.now, 1), width, cap);
  }

  lemma AdmissionKeepsTokenCap(g: Guard, width: real, req: Request, history: seq<Mark>, cap: nat)
    requires Tracks(g, width, req.key, history, req.now)
    requires Capped(history, width, cap)
    requires req.quota.tpm != 0 && req.quota.tpm <= cap && Admission(g, width, req).1 == Admitted(true)
    ensures Capped(history + [Mark(req.now, req.Tokens())], width, cap)
  {
    var queue := Pruned(g, req.key, req.now - width).Queue(req.key);
    assert Total(queue) + req.Tokens() <= req.quota.tpm by { AdmissionEffect(g, width, req); }
    assert Load(history, width, req.now) == Total(queue) by {
      PruneTracks(g, width, req.key, history, req.now, req.now, req.key);
      PrunedTotal(queue, history, width, req.now);
    }
    AppendCapped(history, Mark(req.now, req.Tokens()), width, cap);
  }

  /** In every run, no window of any position holds more counted admissions of
      a key than its rpm. */
  lemma {:induction false} RequestsPerWindow(width: real, run: seq<Op>, key: string, cap: nat)
    requires Clocked(run) && RpmAtMost(run, key, cap)
    ensures Capped(Units(History(width, run, key)), width, cap)
  {
    if run != [] {
      var before, op := run[..|run| - 1], run[|run| - 1];
      RequestsPerWindow(width, before, key, cap);
      var g, history := Exec(width, before), History(width, before, key);
      if Counted(g, width, op, key) == [] {
        assert history + [] == history;
      } else {
        RunTracks(width, before, key, op.Now());
        AdmissionKeepsRequestCap(g, width, op.req, history, cap);
      }
    }
  }

  /** In every run, the token estimates admitted in any window position add up
      to at most the key's tpm. */
  lemma {:induction false} TokensPerWindow(width: real, run: seq<Op>, key: string, cap: nat)
    requires Clocked(run) && TpmAtMost(run, key, cap)
    ensures Capped(History(width, run, key), width, cap)
  {
    if run != [] {
      var before, op := run[..|run| - 1], run[|run| - 1];
      TokensPerWindow(width, before, key, cap);
      var g, history := Exec(width, before), History(width, before, key);
      if Counted(g, width, op, key) == [] {
        assert history + [] == history;
      } else {
        RunTracks(width, before, key, op.Now());
        AdmissionKeepsTokenCap(g, width, op.req, history, cap);
      }
    }
  }

  predicate DailyAllows(req: Request) {
    !req.quota.HasDaily() || req.source.Absent? ||
    (req.source.Reports? && DailyReason(req.quota, req.source.usage) == {})
  }

  /** The decision taken on the pruned queue is the decision the complete
      history would give: a request passes exactly when every configured limit
      still has room. */
  lemma DecidesOnHistory(g: Guard, width: real, req: Request, history: seq<Mark>)
    requires Tracks(g, width, req.key, history, req.now)
    requires !req.quota.IsEmpty() && DailyAllows(req)
    ensures
      var q := req.quota;
      Admission(g, width, req).1 == Admitted(true) <==>
      && (q.rpm != 0 ==> Count(history, width, req.now) < q.rpm)
      && (q.tpm != 0 ==> Load(history, width, req.now) + req.Tokens() <= q.tpm)
      && (q.maxConcurrency != 0 ==> g.Inflight(req.key) < q.maxConcurrency)
  {
    var pruned := Pruned(g, req.key, req.now - width);
    var queue := pruned.Queue(req.key);
    assert Count(history, width, req.now) == |queue| && Load(history, width, req.now) == Total(queue) by {
      PruneTracks(g, width, req.key, history, req.now, req.now, req.key);
      PrunedCount(queue, history, width, req.now);
      PrunedTotal(queue, history, width, req.now);
    }
    assert Admission(g, width, req) == Instant(pruned, width, req);
  }

  predicate RefusedByWindow(verdict: Verdict) {
    verdict.Refused? && verdict.reason in {PerMinuteRequests, PerMinuteTokens}
  }

  /** The marks that `Since` drops. */
  function Gone(queue: seq<Mark>, cutoff: real): seq<Mark> {
    if queue != [] && queue[0].at <= cutoff then [queue[0]] + Gone(queue[1..], cutoff) else []
  }

  lemma {:induction false} SinceSplits(queue: seq<Mark>, cutoff: real)
    ensures queue == Gone(queue, cutoff) + Since(queue, cutoff)
    ensures forall i :: 0 <= i < |Gone(queue, cutoff)| ==> Gone(queue, cutoff)[i].at <= cutoff
  {
    if queue != [] && queue[0].at <= cutoff {
      SinceSplits(queue[1..], cutoff);
      assert queue == [queue[0]] + queue[1..];
    }
  }

  lemma {:induction false} TotalConcat(a: seq<Mark>, b: seq<Mark>)
    ensures Total(a + b) == Total(a) + Total(b)
  {
    if b == [] {
      assert a + b == a;
    } else {
      TotalConcat(a, b[..|b| - 1]);
      assert (a + b)[..|a + b| - 1] == a + b[..|b| - 1];
    }
  }

  lemma WindowRefusal(g: Guard, width: real, req: Request)
    requires RefusedByWindow(Admission(g, width, req).1)
    ensures var pruned := Pruned(g, req.key, req.now - width);
      && Admission(g, width, req).0 == pruned && !req.quota.IsEmpty()
      && Admission(g, width, req).1.retryAfter == WindowRetry(pruned.Queue(req.key), req.now, width)
  {
  }

  /** After the advertised wait the oldest mark is out of the window. */
  lemma OldestLeaves(queue: seq<Mark>, now: real, width: real)
    requires queue != []
    ensures Gone(queue, now + WindowRetry(queue, now, width) as real - width) != []
  {
    assert queue[0].at + width - now <= Ceil(queue[0].at + width - now) as real;
  }

  lemma QueueAtRetry(g: Guard, width: real, key: string, later: real)
    ensures Pruned(g, key, later - width).Queue(key) == Since(g.Queue(key), later - width)
    ensures g.Queue(key) == Gone(g.Queue(key), later - width) + Pruned(g, key, later - width).Queue(key)
    ensures Total(Pruned(g, key, later - width).Queue(key)) == Total(g.Queue(key)) - Total(Gone(g.Queue(key), later - width))
  {
    PrunedQueue(g, key, later - width, key);
    SinceSplits(g.Queue(key), later - width);
    TotalConcat(Gone(g.Queue(key), later - width), Since(g.Queue(key), later - width));
  }

  lemma AdmittedIff(g: Guard, width: real, req: Request)
    requires !req.quota.IsEmpty() && DailyAllows(req)
    ensures
      var q, queue := req.quota, Pruned(g, req.key, req.now - width).Queue(req.key);
      Admission(g, width, req).1 == Admitted(true) <==>
      && (q.rpm != 0 ==> |queue| < q.rpm)
      && (q.tpm != 0 ==> Total(queue) + req.Tokens() <= q.tpm)
      && (q.maxConcurrency != 0 ==> g.Inflight(req.key) < q.maxConcurrency)
  {
  }

  /** Exactly when a request that a window refused passes after the advertised wait,
      if nothing of the key was admitted meanwhile: when the marks that have left
      by then make room. That is always the oldest one, which is enough for a
      request window that was just full, but need not be for the tokens or for a
      limit that was lowered. */
  lemma RetryPassesExactlyWhen(g: Guard, width: real, req: Request, h: Guard, retried: Request)
    requires RefusedByWindow(Admission(g, width, req).1) && h.events == Admission(g, width, req).0.events
    requires retried.key == req.key && retried.quota == req.quota && retried.estimate == req.estimate
    requires retried.now == req.now + Admission(g, width, req).1.retryAfter as real && DailyAllows(retried)
    ensures
      var q, queue := req.quota, Pruned(g, req.key, req.now - width).Queue(req.key);
      var gone := Gone(queue, retried.now - width);
      && (queue != [] ==> gone != [])
      && (Admission(h, width, retried).1 == Admitted(true) <==>
          && (q.rpm != 0 ==> |queue| - |gone| < q.rpm)
          && (q.tpm != 0 ==> Total(queue) - Total(gone) + req.Tokens() <= q.tpm)
          && (q.maxConcurrency != 0 ==> h.Inflight(req.key) < q.maxConcurrency))
  {
    var queue := Pruned(g, req.key, req.now - width).Queue(req.key);
    WindowRefusal(g, width, req);
    assert h.Queue(req.key) == queue;
    if queue != [] {
      OldestLeaves(queue, req.now, width);
    }
    QueueAtRetry(h, width, req.key, retried.now);
    AdmittedIff(h, width, retried);
  }

  /** The decision table: daily limits, then the window, then the requests in flight;
      a limit of zero is off, and a daily total that cannot be read lets through. */
  ghost predicate Decides(q: Quota, source: UsageSource, tokens: nat, count: nat, load: nat, inflight: nat, verdict: Verdict) {
    var daily := q.dailyRequests != 0 || q.dailyTokens != 0 || q.dailyCost != 0.0;
    var known, used := daily && source.Reports?, if source.Reports? then source.usage else Usage(0, 0, 0.0);
    if !daily && q.rpm == 0 && q.tpm == 0 && q.maxConcurrency == 0 then verdict == Admitted(false)
    else if daily && source.Failing? then verdict == Admitted(false)
    else if known && q.dailyRequests != 0 && q.dailyRequests <= used.requests then verdict.Refused? && verdict.reason == DailyRequests
    else if known && q.dailyTokens != 0 && q.dailyTokens <= used.tokens then verdict.Refused? && verdict.reason == DailyTokens
    else if known && q.dailyCost != 0.0 && q.dailyCost <= used.cost then verdict.Refused? && verdict.reason == DailyCost
    else if q.rpm != 0 && q.rpm <= count then verdict.Refused? && verdict.reason == PerMinuteRequests
    else if q.tpm != 0 && q.tpm < load + tokens then verdict.Refused? && verdict.reason == PerMinuteTokens
    else if q.maxConcurrency != 0 && q.maxConcurrency <= inflight then verdict == Refused(Concurrency, 1)
    else verdict == Admitted(true)
  }

  lemma VerdictOnQueue(g: Guard, width: real, req: Request)
    ensures var queue := Pruned(g, req.key, req.now - width).Queue(req.key);
      Decides(req.quota, req.source, req.Tokens(), |queue|, Total(queue), g.Inflight(req.key), Admission(g, width, req).1)
  {
  }

  /** Every decision is the one the complete history gives, reason included. */
  lemma VerdictOnHistory(g: Guard, width: real, req: Request, history: seq<Mark>)
    requires Tracks(g, width, req.key, history, req.now)
    ensures Decides(req.quota, req.source, req.Tokens(), Count(history, width, req.now), Load(history, width, req.now),
                    g.Inflight(req.key), Admission(g, width, req).1)
  {
    var queue := Pruned(g, req.key, req.now - width).Queue(req.key);
    assert Count(history, width, req.now) == |queue| && Load(history, width, req.now) == Total(queue) by {
      PruneTracks(g, width, req.key, history, req.now, req.now, req.key);
      PrunedCount(queue, history, width, req.now);
      PrunedTotal(queue, history, width, req.now);
    }
    VerdictOnQueue(g, width, req);
  }

  predicate RefusedByDay(verdict: Verdict) {
    verdict.Refused? && verdict.reason in {DailyRequests, DailyTokens, DailyCost}
  }

  /** The advertised waits: to the end of the day in whole seconds, and the fewest
      whole seconds until the oldest mark has left the window; never less than one. */
  lemma AdvertisedWait(g: Guard, width: real, req: Request)
    ensures var verdict := Admission(g, width, req).1;
      RefusedByDay(verdict) ==>
        var midnight := req.dayStart as real + 86400.0;
        && 1 <= verdict.retryAfter && midnight < req.now + verdict.retryAfter as real + 1.0
        && (1 < verdict.retryAfter ==> req.now + verdict.retryAfter as real <= midnight)
    ensures var verdict, queue := Admission(g, width, req).1, Pruned(g, req.key, req.now - width).Queue(req.key);
      RefusedByWindow(verdict) && queue != [] ==>
        && 1 <= verdict.retryAfter && queue[0].at <= req.now + verdict.retryAfter as real - width
        && (1 < verdict.retryAfter ==> req.now + (verdict.retryAfter - 1) as real - width < queue[0].at)
    ensures var verdict, queue := Admission(g, width, req).1, Pruned(g, req.key, req.now - width).Queue(req.key);
      RefusedByWindow(verdict) && queue == [] ==> verdict.retryAfter == 1
  {
    var verdict, queue := Admission(g, width, req).1, Pruned(g, req.key, req.now - width).Queue(req.key);
    if RefusedByWindow(verdict) && queue != [] {
      WindowRefusal(g, width, req);
    }
  }

  /** In every run, a key whose requests all carry a concurrency limit of at
      most `cap` never has more than `cap` requests in flight. */
  lemma {:induction false} InflightWithinLimit(width: real, run: seq<Op>, key: string, cap: nat)
    requires forall i :: 0 <= i < |run| && run[i].Ask? && run[i].req.key == key ==>
               run[i].req.quota.maxConcurrency != 0 && run[i].req.quota.maxConcurrency <= cap
    ensures Exec(width, run).Inflight(key) <= cap
  {
    if run != [] {
      InflightWithinLimit(width, run[..|run| - 1], key, cap);
    }
  }

  // --------------------------------------------------------------- objects

  /** One admission; `Release` is idempotent and only a counted lease owes the
      guard an in-flight slot. */
  class Lease {
    const guard: KeyQuotaGuard
    const key: string
    const counted: bool
    var released: bool

    predicate Owed() reads this { counted && !released }

    constructor (guard: KeyQuotaGuard, key: string, counted: bool)
      ensures this.guard == guard && this.key == key && this.counted == counted && !released
    {
      this.guard, this.key, this.counted, released := guard, key, counted, false;
    }

    method Release()
      requires guard.Valid()
      requires Owed() ==> this in guard.outstanding
      modifies this, guard
      ensures guard.Valid() && released
      ensures guard.outstanding == old(guard.outstanding) - {this}
      ensures guard.Model() == if old(Owed()) then AfterRelease(old(guard.Model()), key) else old(guard.Model())
    {
      if released {
        return;
      }
      var owed := Owed();
      released := true;
      if owed {
        guard.ReleaseSlot(key, this);
      }
    }
  }

  ghost function Held(leases: set<Lease>, key: string): set<Lease> {
    set l | l in leases && l.key == key
  }

  lemma HeldWithout(leases: set<Lease>, lease: Lease, key: string)
    requires lease in leases
    ensures |Held(leases - {lease}, key)| == |Held(leases, key)| - if lease.key == key then 1 else 0
  {
    if lease.key == key {
      assert Held(leases, key) == Held(leases - {lease}, key) + {lease};
    } else {
      assert Held(leases, key) == Held(leases - {lease}, key);
    }
  }

  lemma HeldWith(leases: set<Lease>, lease: Lease, key: string)
    requires lease !in leases
    ensures |Held(leases + {lease}, key)| == |Held(leases, key)| + if lease.key == key then 1 else 0
  {
    assert (leases + {lease}) - {lease} == leases;
    HeldWithout(leases + {lease}, lease, key);
  }

  class KeyQuotaGuard {
    const width: real
    var events: map<string, seq<Mark>>
    var inflight: map<string, nat>
    /** Counted leases that were handed out and not yet released. */
    ghost var outstanding: set<Lease>

    function Model(): Guard reads this { Guard(events, inflight) }

    /** The in-flight count of every key is its number of outstanding leases. */
    ghost predicate Valid() reads this, outstanding {
      && (forall l :: l in outstanding ==> l.guard == this && l.Owed())
      && (forall key :: Model().Inflight(key) == |Held(outstanding, key)|)
    }

    constructor (width: real)
      ensures Valid() && Model() == EMPTY && outstanding == {} && this.width == width
    {
      this.width, events, inflight, outstanding := width, map[], map[], {};
    }

    method Prune(key: string, cutoff: real)
      modifies this`events
      ensures Model() == Pruned(old(Model()), key, cutoff)
    {
      if key !in events {
        return;
      }
      var queue := events[key];
      while queue != [] && queue[0].at <= cutoff
        invariant Since(queue, cutoff) == Since(events[key], cutoff)
      {
        queue := queue[1..];
      }
      events := if queue == [] then events - {key} else events[key := queue];
    }

    method WindowUsage(key: string, now: real) returns (requests: nat, tokens: nat)
      modifies this`events
      ensures Model() == Pruned(old(Model()), key, now - width)
      ensures requests == |Model().Queue(key)| && tokens == Total(Model().Queue(key))
    {
      Prune(key, now - width);
      var queue := Model().Queue(key);
      requests, tokens := |queue|, 0;
      for i := 0 to |queue|
        invariant tokens == Total(queue[..i])
      {
        tokens := tokens + queue[i].cost;
        assert queue[..i + 1][..i] == queue[..i];
      }
      assert queue[..|queue|] == queue;
    }

    /** Books the window event and the in-flight slot of a request that passed. */
    method Register(key: string, mark: Mark) returns (lease: Lease)
      requires Valid()
      modifies this
      ensures Valid()
      ensures Model() == Guard(old(events)[key := old(Model()).Queue(key) + [mark]],
                               old(inflight)[key := old(Model()).Inflight(key) + 1])
      ensures fresh(lease) && lease.guard == this && lease.key == key && lease.counted && !lease.released
      ensures outstanding == old(outstanding) + {lease}
    {
      events := events[key := Model().Queue(key) + [mark]];
      inflight := inflight[key := Model().Inflight(key) + 1];
      lease := new Lease(this, key, true);
      forall k ensures |Held(outstanding + {lease}, k)| == |Held(outstanding, k)| + if key == k then 1 else 0 {
        HeldWith(outstanding, lease, k);
      }
      outstanding := outstanding + {lease};
    }

    method Admit(req: Request) returns (verdict: Verdict, lease: Lease?)
      requires Valid()
      modifies this
      ensures Valid()
      ensures (Model(), verdict) == Admission(old(Model()), width, req)
      ensures verdict.Refused? ==> lease == null && outstanding == old(outstanding)
      ensures verdict.Admitted? ==>
        && lease != null && fresh(lease)
        && lease.guard == this && lease.key == req.key && lease.counted == verdict.counted && !lease.released
        && outstanding == old(outstanding) + if lease.counted then {lease} else {}
    {
      var quota := req.quota;
      if quota.IsEmpty() || (quota.HasDaily() && req.source.Failing?) {
        lease := new Lease(this, req.key, false);
        return Admitted(false), lease;
      }
      if quota.HasDaily() && req.source.Reports? {
        var over := DailyReason(quota, req.source.usage);
        if over != {} {
          return Refused(FirstDaily(over), DayRetry(req)), null;
        }
      }
      var requests, tokens := WindowUsage(req.key, req.now);
      var queue := Model().Queue(req.key);
      if quota.rpm != 0 && requests >= quota.rpm {
        return Refused(PerMinuteRequests, WindowRetry(queue, req.now, width)), null;
      }
      if quota.tpm != 0 && tokens + req.Tokens() > quota.tpm {
        return Refused(PerMinuteTokens, WindowRetry(queue, req.now, width)), null;
      }
      if quota.maxConcurrency != 0 && Model().Inflight(req.key) >= quota.maxConcurrency {
        return Refused(Concurrency, 1), null;
      }
      lease := Register(req.key, Mark(req.now, req.Tokens()));
      verdict := Admitted(true);
    }

    /** The guard's own `release`, called by a lease that has just been marked. */
    method ReleaseSlot(key: string, ghost lease: Lease)
      requires lease.key == key && lease in outstanding && lease.guard == this && lease.counted && lease.released
      requires forall l :: l in outstanding ==> l.guard == this && (l != lease ==> l.Owed())
      requires forall key :: Model().Inflight(key) == |Held(outstanding, key)|
      modifies this
      ensures Valid()
      ensures outstanding == old(outstanding) - {lease}
      ensures Model() == AfterRelease(old(Model()), key)
    {
      forall k ensures |Held(outstanding - {lease}, k)| == |Held(outstanding, k)| - if key == k then 1 else 0 {
        HeldWithout(outstanding, lease, k);
      }
      var count := Model().Inflight(key);
      inflight := if count <= 1 then inflight - {key} else inflight[key := count - 1];
      outstanding := outstanding - {lease};
    }
  }
}
