/** Login throttling: failure windows for everyone, per address and per
    account, in a table whose number of keys is bounded (src/auth/throttle.py).
    Its users are the login (src/api/admin_auth.py:208-217), which checks and
    records without a pause in between, and the change of a password
    (src/api/admin_auth.py:269-275), which checks, waits for the hash and may
    record a failure without checking again. */
module Throttle {
  import opened Sets
  import opened SlidingWindow

  datatype Key = Everyone | Address(ip: string) | Account(user: string)

  datatype Limits = Limits(window: real, maxGlobal: nat, maxPerIp: nat, maxPerUser: nat)
  {
    function Cap(key: Key): nat {
      match key
      case Everyone => maxGlobal
      case Address(_) => maxPerIp
      case Account(_) => maxPerUser
    }

    /** The global window, with some failures above its cap, is too small to fill
        the table on its own. */
    predicate TableSuffices(above: nat) { 2 * (maxGlobal + above) + 1 <= MAX_KEYS }
  }

  const DEFAULT_LIMITS := Limits(60.0, 40, 8, 5)
  const MAX_KEYS := 4096

  type Table = map<Key, seq<Mark>>

  function Queue(t: Table, key: Key): seq<Mark> { if key in t then t[key] else [] }

  /** `_prune`: an emptied queue keeps its key. */
  function Trim(t: Table, key: Key, cutoff: real): Table {
    if key in t then t[key := Since(t[key], cutoff)] else t
  }

  function TrimWindows(t: Table, lim: Limits, ip: string, now: real): Table {
    Trim(Trim(t, Everyone, now - lim.window), Address(ip), now - lim.window)
  }

  function TrimAll(t: Table, lim: Limits, ip: string, user: string, now: real): Table {
    Trim(TrimWindows(t, lim, ip, now), Account(user), now - lim.window)
  }

  /** The keys one failure counts under; an empty user name is not counted. */
  function Touched(ip: string, user: string): set<Key> {
    {Everyone, Address(ip)} + if user == "" then {} else {Account(user)}
  }

  predicate WindowsFull(t: Table, lim: Limits, ip: string) {
    |Queue(t, Everyone)| >= lim.maxGlobal || |Queue(t, Address(ip))| >= lim.maxPerIp
  }

  predicate Blocked(t: Table, lim: Limits, ip: string, user: string) {
    WindowsFull(t, lim, ip) || (user != "" && |Queue(t, Account(user))| >= lim.maxPerUser)
  }

  function Push(t: Table, key: Key, now: real): Table {
    t[key := Queue(t, key) + [Mark(now, 1)]]
  }

  function PushAll(t: Table, ip: string, user: string, now: real): Table {
    var u := Push(Push(t, Everyone, now), Address(ip), now);
    if user == "" then u else Push(u, Account(user), now)
  }

  predicate Live(t: Table, key: Key, cutoff: real) {
    key in t && t[key] != [] && cutoff < t[key][|t[key]| - 1].at
  }

  function DropStale(t: Table, cutoff: real): Table {
    map key | key in t && (key == Everyone || Live(t, key, cutoff)) :: t[key]
  }

  function LastFailure(t: Table, key: Key): real {
    var q := Queue(t, key);
    if q == [] then 0.0 else q[|q| - 1].at
  }

  /** `dropped` are the oldest `count` keys; ties are left open. */
  ghost predicate Oldest(t: Table, dropped: set<Key>, count: nat) {
    && dropped <= t.Keys - {Everyone} && |dropped| == count
    && forall d, k :: d in dropped && k in t && k != Everyone && k !in dropped ==> LastFailure(t, d) <= LastFailure(t, k)
  }

  /** `_evict_over_capacity`: stale keys first, then the least recently failed. */
  ghost predicate Evicted(t: Table, t': Table, cutoff: real) {
    if |t| <= MAX_KEYS then t' == t
    else
      var rest := DropStale(t, cutoff);
      if |rest| <= MAX_KEYS then t' == rest
      else exists dropped :: Oldest(rest, dropped, |rest| - MAX_KEYS) && t' == rest - dropped
  }

  // ------------------------------------------------------------------ runs

  /** Somebody whose password change passed the check and awaits the hash. */
  datatype Client = Client(ip: string, user: string)

  datatype State = State(table: Table, pending: seq<Client>)

  /** Probe: the windows checked before hashing. Fail: a wrong password at login,
      checked and recorded without interruption. Succeed: a right one. Begin: a
      password change is checked. Settle: a pending one has its hash, which is
      wrong and recorded, or right. */
  datatype Op =
    | Probe(ip: string, at: real)
    | Fail(ip: string, user: string, checkedAt: real, recordedAt: real)
    | Succeed(user: string, at: real)
    | Begin(client: Client, at: real)
    | Settle(which: nat, wrong: bool, at: real)
  {
    function Start(): real { if Fail? then checkedAt else at }
    function End(): real { if Fail? then recordedAt else at }
  }

  /** A wrong password at a throttle whose windows were trimmed to `checked`. */
  ghost predicate FailStep(lim: Limits, checked: Table, ip: string, user: string, recordedAt: real, t': Table) {
    if Blocked(checked, lim, ip, user) then t' == checked
    else Evicted(PushAll(checked, ip, user, recordedAt), t', recordedAt - lim.window)
  }

  function Forgotten(t: Table, user: string): Table {
    if user == "" then t else t - {Account(user)}
  }

  function AfterCheck(lim: Limits, checked: Table, pending: seq<Client>, client: Client): State {
    State(checked, if Blocked(checked, lim, client.ip, client.user) then pending else pending + [client])
  }

  function Without(pending: seq<Client>, i: nat): seq<Client>
    requires i < |pending|
  {
    pending[..i] + pending[i + 1..]
  }

  /** The hash of a pending change is there; a wrong one is recorded unchecked. */
  ghost predicate RecordStep(lim: Limits, t: Table, c: Client, wrong: bool, at: real, t': Table) {
    if wrong then Evicted(PushAll(t, c.ip, c.user, at), t', at - lim.window) else t' == t
  }

  ghost predicate SettleStep(lim: Limits, s: State, which: nat, wrong: bool, at: real, s': State) {
    && which < |s.pending| && s'.pending == Without(s.pending, which)
    && RecordStep(lim, s.table, s.pending[which], wrong, at, s'.table)
  }

  ghost predicate Next(lim: Limits, s: State, op: Op, s': State) {
    match op
    case Probe(ip, at) => s' == State(TrimWindows(s.table, lim, ip, at), s.pending)
    case Fail(ip, user, checkedAt, recordedAt) =>
      s'.pending == s.pending &&
      FailStep(lim, TrimAll(s.table, lim, ip, user, checkedAt), ip, user, recordedAt, s'.table)
    case Succeed(user, _) => s' == State(Forgotten(s.table, user), s.pending)
    case Begin(c, at) => s' == AfterCheck(lim, TrimAll(s.table, lim, c.ip, c.user, at), s.pending, c)
    case Settle(which, wrong, at) => SettleStep(lim, s, which, wrong, at, s')
  }

  /** What happened, independently of what the table remembers. */
  datatype Entry = Failed(at: real, ip: string, user: string) | Cleared(user: string)

  function FailEntries(lim: Limits, checked: Table, ip: string, user: string, recordedAt: real): seq<Entry> {
    if Blocked(checked, lim, ip, user) then [] else [Failed(recordedAt, ip, user)]
  }

  function SettleEntries(pending: seq<Client>, which: nat, wrong: bool, at: real): seq<Entry> {
    if wrong && which < |pending| then [Failed(at, pending[which].ip, pending[which].user)] else []
  }

  function Entries(lim: Limits, s: State, op: Op): seq<Entry> {
    match op
    case Fail(ip, user, checkedAt, recordedAt) =>
      FailEntries(lim, TrimAll(s.table, lim, ip, user, checkedAt), ip, user, recordedAt)
    case Succeed(user, _) => if user == "" then [] else [Cleared(user)]
    case Settle(which, wrong, at) => SettleEntries(s.pending, which, wrong, at)
    case _ => []
  }

  function Advance(history: seq<Mark>, e: Entry, key: Key): seq<Mark> {
    match e
    case Failed(at, ip, user) => if key in Touched(ip, user) then history + [Mark(at, 1)] else history
    case Cleared(user) => if key == Account(user) then [] else history
  }

  /** The recorded failures of a key; an account starts anew at each success. */
  function History(log: seq<Entry>, key: Key): seq<Mark> {
    if log == [] then [] else Advance(History(log[..|log| - 1], key), log[|log| - 1], key)
  }

  ghost predicate Behaves(lim: Limits, run: seq<Op>, states: seq<State>) {
    && |states| == |run| + 1 && states[0] == State(map[], [])
    && (forall i :: 0 <= i < |run| ==> Next(lim, states[i], run[i], states[i + 1]))
    && (forall i :: 0 <= i < |run| ==> run[i].Start() <= run[i].End())
    && (forall i :: 0 < i < |run| ==> run[i - 1].End() <= run[i].Start())
  }

  function Log(lim: Limits, run: seq<Op>, states: seq<State>): seq<Entry>
    requires |run| <= |states|
  {
    if run == [] then []
    else
      var n := |run| - 1;
      Log(lim, run[..n], states) + Entries(lim, states[n], run[n])
  }

  // ---------------------------------------------------- pending checks, budgets

  /** The pending password changes whose failure would count under a key. */
  function Waiting(pending: seq<Client>, key: Key): nat {
    if pending == [] then 0
    else
      var c := pending[|pending| - 1];
      Waiting(pending[..|pending| - 1], key) + if key in Touched(c.ip, c.user) then 1 else 0
  }

  lemma WaitingSnoc(pending: seq<Client>, c: Client, key: Key)
    ensures Waiting(pending + [c], key) == Waiting(pending, key) + if key in Touched(c.ip, c.user) then 1 else 0
  {
    assert (pending + [c])[..|pending|] == pending;
  }

  lemma {:induction false} WaitingWithout(pending: seq<Client>, i: nat, key: Key)
    requires i < |pending|
    ensures Waiting(pending, key) ==
            Waiting(Without(pending, i), key) + if key in Touched(pending[i].ip, pending[i].user) then 1 else 0
  {
    var n := |pending| - 1;
    if i == n {
      assert Without(pending, i) == pending[..n];
    } else {
      assert Without(pending, i) == Without(pending[..n], i) + [pending[n]];
      WaitingWithout(pending[..n], i, key);
      WaitingSnoc(Without(pending[..n], i), pending[n], key);
    }
  }

  /** `above` bounds how many password changes are pending on each key. */
  ghost predicate AtMostWaiting(pending: seq<Client>, above: Key -> nat) {
    forall key :: Waiting(pending, key) <= above(key)
  }

  /** Every window is within the budget, and the present one leaves room for the
      failures that may still be recorded without a check. */
  ghost predicate Budgeted(history: seq<Mark>, width: real, budget: nat, waiting: nat, now: real) {
    Capped(Units(history), width, budget) && Count(history, width, now) + waiting <= budget
  }

  lemma AgeBudget(history: seq<Mark>, width: real, budget: nat, waiting: nat, before: real, now: real)
    requires NoneAfter(history, before) && before <= now && Budgeted(history, width, budget, waiting, before)
    ensures Budgeted(history, width, budget, waiting, now)
  {
    LaterWindowHasLess(Units(history), width, before, now);
  }

  lemma MarkBudget(history: seq<Mark>, width: real, budget: nat, waiting: nat, checkedAt: real, now: real)
    requires NoneAfter(history, checkedAt) && checkedAt <= now
    requires Capped(Units(history), width, budget) && Count(history, width, checkedAt) + 1 + waiting <= budget
    ensures Budgeted(history + [Mark(now, 1)], width, budget, waiting, now)
  {
    MarkKeepsCap(history, width, budget, checkedAt, now);
    LaterWindowHasLess(Units(history), width, checkedAt, now);
    CountSnoc(history, Mark(now, 1), width, now);
  }

  lemma CountSnoc(history: seq<Mark>, m: Mark, width: real, t: real)
    ensures Count(history + [m], width, t) == Count(history, width, t) + if t - width < m.at <= t then 1 else 0
  {
    UnitsAppend(history, m);
    var units, u := Units(history), Mark(m.at, 1);
    assert (units + [u])[..|units|] == units;
  }

  // -------------------------------------------------------------- invariant

  /** The global window that ends at `at` is not full. Only then does a check look
      further than the global window. */
  predicate Open(lim: Limits, log: seq<Entry>, at: real) {
    Count(History(log, Everyone), lim.window, at) < lim.maxGlobal
  }

  ghost predicate AllTails(t: Table, log: seq<Entry>, now: real) {
    forall key :: IsTail(Queue(t, key), History(log, key), now)
  }

  ghost predicate GlobalRetained(lim: Limits, t: Table, log: seq<Entry>, now: real) {
    Retains(Queue(t, Everyone), History(log, Everyone), now - lim.window)
  }

  ghost predicate RetainedWhileOpen(lim: Limits, t: Table, log: seq<Entry>, now: real) {
    forall key, at: real :: now <= at && Open(lim, log, at) ==> Retains(Queue(t, key), History(log, key), at - lim.window)
  }

  /** What the table still knows, whatever has been evicted: the global window, and
      of every other key what a check can come to look at. */
  ghost predicate Tracks(lim: Limits, t: Table, log: seq<Entry>, now: real) {
    AllTails(t, log, now) && GlobalRetained(lim, t, log, now) && RetainedWhileOpen(lim, t, log, now)
  }

  ghost predicate WithinCaps(lim: Limits, log: seq<Entry>) {
    forall key :: Capped(Units(History(log, key)), lim.window, lim.Cap(key))
  }

  ghost predicate WithinBudgets(lim: Limits, above: Key -> nat, log: seq<Entry>, pending: seq<Client>, now: real) {
    forall key :: Budgeted(History(log, key), lim.window, lim.Cap(key) + above(key), Waiting(pending, key), now)
  }

  lemma TrimmedQueue(t: Table, lim: Limits, ip: string, user: string, now: real, key: Key)
    ensures Queue(TrimWindows(t, lim, ip, now), key) ==
      if key == Everyone || key == Address(ip) then Since(Queue(t, key), now - lim.window) else Queue(t, key)
    ensures Queue(TrimAll(t, lim, ip, user, now), key) ==
      if key == Everyone || key == Address(ip) || key == Account(user) then Since(Queue(t, key), now - lim.window)
      else Queue(t, key)
  {
  }

  /** The queues of `u` are queues of `t`, some of them without marks that have
      left the window at `now`. */
  ghost predicate Shortens(t: Table, u: Table, cutoff: real) {
    forall key :: Queue(u, key) == Queue(t, key) || Queue(u, key) == Since(Queue(t, key), cutoff)
  }

  lemma TailOf(lim: Limits, t: Table, log: seq<Entry>, now: real, key: Key)
    requires Tracks(lim, t, log, now)
    ensures IsTail(Queue(t, key), History(log, key), now)
  {
  }

  lemma HistoryIsPast(lim: Limits, t: Table, log: seq<Entry>, now: real, key: Key)
    requires Tracks(lim, t, log, now)
    ensures Sorted(History(log, key)) && NoneAfter(History(log, key), now)
  {
    TailOf(lim, t, log, now, key);
  }

  lemma WhileOpen(lim: Limits, t: Table, log: seq<Entry>, now: real, key: Key, at: real)
    requires Tracks(lim, t, log, now) && now <= at && Open(lim, log, at)
    ensures Retains(Queue(t, key), History(log, key), at - lim.window)
  {
  }

  lemma ShorterTail(q: seq<Mark>, u: seq<Mark>, history: seq<Mark>, now: real, cutoff: real)
    requires IsTail(q, history, now) && (u == q || u == Since(q, cutoff))
    ensures IsTail(u, history, now)
  {
    SinceTail(q, history, now, cutoff);
  }

  lemma ShorterRetains(q: seq<Mark>, u: seq<Mark>, history: seq<Mark>, cutoff: real, later: real)
    requires Retains(q, history, later) && cutoff <= later && (u == q || u == Since(q, cutoff))
    ensures Retains(u, history, later)
  {
    SinceKeeps(q, history, cutoff, later);
  }

  lemma ShorterTracks(lim: Limits, t: Table, u: Table, log: seq<Entry>, now: real)
    requires Tracks(lim, t, log, now) && Shortens(t, u, now - lim.window)
    ensures Tracks(lim, u, log, now)
  {
    var cutoff := now - lim.window;
    forall key ensures IsTail(Queue(u, key), History(log, key), now) {
      TailOf(lim, t, log, now, key);
      ShorterTail(Queue(t, key), Queue(u, key), History(log, key), now, cutoff);
    }
    ShorterRetains(Queue(t, Everyone), Queue(u, Everyone), History(log, Everyone), cutoff, cutoff);
    forall key, at: real | now <= at && Open(lim, log, at)
      ensures Retains(Queue(u, key), History(log, key), at - lim.window)
    {
      WhileOpen(lim, t, log, now, key, at);
      ShorterRetains(Queue(t, key), Queue(u, key), History(log, key), cutoff, at - lim.window);
    }
  }

  lemma AgeTracks(lim: Limits, t: Table, log: seq<Entry>, before: real, now: real)
    requires Tracks(lim, t, log, before) && before <= now
    ensures Tracks(lim, t, log, now)
  {
    forall key ensures IsTail(Queue(t, key), History(log, key), now) {
      TailOf(lim, t, log, before, key);
    }
    RetainsLater(Queue(t, Everyone), History(log, Everyone), before - lim.window, now - lim.window);
  }

  lemma TrimAllTracks(lim: Limits, t: Table, log: seq<Entry>, ip: string, user: string, before: real, now: real)
    requires Tracks(lim, t, log, before) && before <= now
    ensures Tracks(lim, TrimWindows(t, lim, ip, now), log, now)
    ensures Tracks(lim, TrimAll(t, lim, ip, user, now), log, now)
  {
    AgeTracks(lim, t, log, before, now);
    forall key
      ensures Queue(TrimWindows(t, lim, ip, now), key) == Queue(t, key) ||
              Queue(TrimWindows(t, lim, ip, now), key) == Since(Queue(t, key), now - lim.window)
      ensures Queue(TrimAll(t, lim, ip, user, now), key) == Queue(t, key) ||
              Queue(TrimAll(t, lim, ip, user, now), key) == Since(Queue(t, key), now - lim.window)
    {
      TrimmedQueue(t, lim, ip, user, now, key);
    }
    ShorterTracks(lim, t, TrimWindows(t, lim, ip, now), log, now);
    ShorterTracks(lim, t, TrimAll(t, lim, ip, user, now), log, now);
  }

  lemma KnowsWindow(lim: Limits, t: Table, log: seq<Entry>, before: real, now: real, key: Key)
    requires Tracks(lim, t, log, before) && before <= now && (key == Everyone || Open(lim, log, now))
    ensures Retains(Queue(t, key), History(log, key), now - lim.window)
  {
    if key == Everyone {
      RetainsLater(Queue(t, key), History(log, key), before - lim.window, now - lim.window);
    } else {
      WhileOpen(lim, t, log, before, key, now);
    }
  }

  /** The queue holds at least what the window that ends at `now` needs. */
  ghost predicate KnownWindow(q: seq<Mark>, history: seq<Mark>, width: real, now: real) {
    Sorted(history) && NoneAfter(history, now) && Retains(q, history, now - width)
  }

  lemma TrackedWindow(lim: Limits, t: Table, log: seq<Entry>, before: real, now: real, key: Key)
    requires Tracks(lim, t, log, before) && before <= now && (key == Everyone || Open(lim, log, now))
    ensures KnownWindow(Queue(t, key), History(log, key), lim.window, now)
  {
    HistoryIsPast(lim, t, log, before, key);
    KnowsWindow(lim, t, log, before, now, key);
  }

  lemma WindowRead(q: seq<Mark>, history: seq<Mark>, width: real, now: real)
    requires KnownWindow(q, history, width, now)
    ensures Count(history, width, now) == |Since(q, now - width)|
  {
    SinceRetains(q, history, now - width, now - width);
    PrunedCount(Since(q, now - width), history, width, now);
  }

  lemma TrimReadsWindow(lim: Limits, t: Table, history: seq<Mark>, ip: string, user: string, now: real, key: Key)
    requires KnownWindow(Queue(t, key), history, lim.window, now) && key in Touched(ip, user)
    ensures Count(history, lim.window, now) == |Queue(TrimAll(t, lim, ip, user, now), key)|
  {
    WindowRead(Queue(t, key), history, lim.window, now);
    TrimmedQueue(t, lim, ip, user, now, key);
  }

  /** After the check, a touched key's queue is its window, if the check gets to
      look at it. */
  lemma CheckReadsTheWindow(lim: Limits, t: Table, log: seq<Entry>, ip: string, user: string, before: real, now: real, key: Key)
    requires Tracks(lim, t, log, before) && before <= now
    requires key in Touched(ip, user) && (key == Everyone || Open(lim, log, now))
    ensures Count(History(log, key), lim.window, now) == |Queue(TrimAll(t, lim, ip, user, now), key)|
  {
    TrackedWindow(lim, t, log, before, now, key);
    TrimReadsWindow(lim, t, History(log, key), ip, user, now, key);
  }

  lemma HistoryAppend(log: seq<Entry>, e: Entry, key: Key)
    ensures History(log + [e], key) == Advance(History(log, key), e, key)
  {
    assert (log + [e])[..|log|] == log;
  }

  lemma PushedQueue(t: Table, ip: string, user: string, now: real, key: Key)
    ensures Queue(PushAll(t, ip, user, now), key) ==
      if key in Touched(ip, user) then Queue(t, key) + [Mark(now, 1)] else Queue(t, key)
  {
  }

  lemma PushedTail(q: seq<Mark>, u: seq<Mark>, history: seq<Mark>, history': seq<Mark>, now: real)
    requires IsTail(q, history, now)
    requires (u == q && history' == history) || (u == q + [Mark(now, 1)] && history' == history + [Mark(now, 1)])
    ensures IsTail(u, history', now)
  {
    TailAppend(q, history, now, Mark(now, 1));
  }

  lemma PushedRetains(q: seq<Mark>, u: seq<Mark>, history: seq<Mark>, history': seq<Mark>, m: Mark, cutoff: real)
    requires Retains(q, history, cutoff)
    requires (u == q && history' == history) || (u == q + [m] && history' == history + [m])
    ensures Retains(u, history', cutoff)
  {
    RetainsAppend(q, history, m, cutoff);
  }

  lemma PushedKey(t: Table, log: seq<Entry>, ip: string, user: string, now: real, key: Key)
    ensures var q, h, u, h' := Queue(t, key), History(log, key), Queue(PushAll(t, ip, user, now), key),
                               History(log + [Failed(now, ip, user)], key);
      (u == q && h' == h) || (u == q + [Mark(now, 1)] && h' == h + [Mark(now, 1)])
  {
    HistoryAppend(log, Failed(now, ip, user), key);
    PushedQueue(t, ip, user, now, key);
  }

  lemma PushedKeyTail(t: Table, log: seq<Entry>, ip: string, user: string, now: real, key: Key)
    requires IsTail(Queue(t, key), History(log, key), now)
    ensures IsTail(Queue(PushAll(t, ip, user, now), key), History(log + [Failed(now, ip, user)], key), now)
  {
    PushedKey(t, log, ip, user, now, key);
    PushedTail(Queue(t, key), Queue(PushAll(t, ip, user, now), key), History(log, key),
               History(log + [Failed(now, ip, user)], key), now);
  }

  lemma PushedKeyRetains(t: Table, log: seq<Entry>, ip: string, user: string, now: real, key: Key, cutoff: real)
    requires Retains(Queue(t, key), History(log, key), cutoff)
    ensures Retains(Queue(PushAll(t, ip, user, now), key), History(log + [Failed(now, ip, user)], key), cutoff)
  {
    PushedKey(t, log, ip, user, now, key);
    PushedRetains(Queue(t, key), Queue(PushAll(t, ip, user, now), key), History(log, key),
                  History(log + [Failed(now, ip, user)], key), Mark(now, 1), cutoff);
  }

  lemma OpenBefore(lim: Limits, log: seq<Entry>, ip: string, user: string, now: real, at: real)
    requires Open(lim, log + [Failed(now, ip, user)], at)
    ensures Open(lim, log, at)
  {
    HistoryAppend(log, Failed(now, ip, user), Everyone);
    CountSnoc(History(log, Everyone), Mark(now, 1), lim.window, at);
  }

  lemma PushTracks(lim: Limits, t: Table, log: seq<Entry>, ip: string, user: string, before: real, now: real)
    requires Tracks(lim, t, log, before) && before <= now
    ensures Tracks(lim, PushAll(t, ip, user, now), log + [Failed(now, ip, user)], now)
  {
    var u, log' := PushAll(t, ip, user, now), log + [Failed(now, ip, user)];
    AgeTracks(lim, t, log, before, now);
    forall key ensures IsTail(Queue(u, key), History(log', key), now) {
      TailOf(lim, t, log, now, key);
      PushedKeyTail(t, log, ip, user, now, key);
    }
    PushedKeyRetains(t, log, ip, user, now, Everyone, now - lim.window);
    forall key, at: real | now <= at && Open(lim, log', at)
      ensures Retains(Queue(u, key), History(log', key), at - lim.window)
    {
      OpenBefore(lim, log, ip, user, now, at);
      WhileOpen(lim, t, log, now, key, at);
      PushedKeyRetains(t, log, ip, user, now, key, at - lim.window);
    }
  }

  lemma UnblockedHasRoom(checked: Table, lim: Limits, ip: string, user: string, key: Key)
    requires !Blocked(checked, lim, ip, user) && key in Touched(ip, user)
    ensures |Queue(checked, key)| < lim.Cap(key)
  {
  }

  lemma MarkKeepsCap(history: seq<Mark>, width: real, cap: nat, checkedAt: real, now: real)
    requires NoneAfter(history, checkedAt) && checkedAt <= now
    requires Capped(Units(history), width, cap) && Count(history, width, checkedAt) < cap
    ensures Capped(Units(history + [Mark(now, 1)]), width, cap)
  {
    LaterWindowHasLess(Units(history), width, checkedAt, now);
    UnitsAppend(history, Mark(now, 1));
    AppendCapped(Units(history), Mark(now, 1), width, cap);
  }

  /** A check that passes has read the true window of every key it touches. */
  lemma UnblockedCount(lim: Limits, t: Table, log: seq<Entry>, ip: string, user: string, before: real, now: real, key: Key)
    requires Tracks(lim, t, log, before) && before <= now && key in Touched(ip, user)
    requires !Blocked(TrimAll(t, lim, ip, user, now), lim, ip, user)
    ensures Count(History(log, key), lim.window, now) < lim.Cap(key)
  {
    var checked := TrimAll(t, lim, ip, user, now);
    CheckReadsTheWindow(lim, t, log, ip, user, before, now, Everyone);
    UnblockedHasRoom(checked, lim, ip, user, Everyone);
    CheckReadsTheWindow(lim, t, log, ip, user, before, now, key);
    UnblockedHasRoom(checked, lim, ip, user, key);
  }

  lemma RecordKeepsCap(lim: Limits, t: Table, log: seq<Entry>, ip: string, user: string, before: real, checked: real,
                       now: real, key: Key)
    requires before <= checked <= now && Tracks(lim, t, log, before)
    requires Capped(Units(History(log, key)), lim.window, lim.Cap(key))
    requires !Blocked(TrimAll(t, lim, ip, user, checked), lim, ip, user)
    ensures Capped(Units(History(log + [Failed(now, ip, user)], key)), lim.window, lim.Cap(key))
  {
    HistoryAppend(log, Failed(now, ip, user), key);
    if key in Touched(ip, user) {
      UnblockedCount(lim, t, log, ip, user, before, checked, key);
      HistoryIsPast(lim, t, log, before, key);
      MarkKeepsCap(History(log, key), lim.window, lim.Cap(key), checked, now);
    }
  }

  /** An unblocked failure leaves every window within its cap. */
  lemma RecordKeepsCaps(lim: Limits, t: Table, log: seq<Entry>, ip: string, user: string, before: real, checked: real, now: real)
    requires before <= checked <= now
    requires Tracks(lim, t, log, before) && WithinCaps(lim, log)
    requires !Blocked(TrimAll(t, lim, ip, user, checked), lim, ip, user)
    ensures WithinCaps(lim, log + [Failed(now, ip, user)])
  {
    forall key ensures Capped(Units(History(log + [Failed(now, ip, user)], key)), lim.window, lim.Cap(key)) {
      RecordKeepsCap(lim, t, log, ip, user, before, checked, now, key);
    }
  }

  // --------------------------------------------------------------- eviction

  function KeysOf(log: seq<Entry>): set<Key> {
    if log == [] then {}
    else
      var e := log[|log| - 1];
      KeysOf(log[..|log| - 1]) + if e.Failed? then Touched(e.ip, e.user) - {Everyone} else {}
  }

  function Recent(log: seq<Entry>, cutoff: real): seq<Entry> {
    if log == [] then []
    else
      var e := log[|log| - 1];
      Recent(log[..|log| - 1], cutoff) + if e.Failed? && cutoff < e.at then [e] else []
  }

  lemma {:induction false} RecentFailures(log: seq<Entry>, width: real, now: real)
    requires NoneAfter(History(log, Everyone), now)
    ensures |Recent(log, now - width)| == Count(History(log, Everyone), width, now)
  {
    if log != [] {
      var before, e := log[..|log| - 1], log[|log| - 1];
      assert log == before + [e];
      HistoryAppend(before, e, Everyone);
      if e.Failed? {
        assert History(log, Everyone)[..|History(before, Everyone)|] == History(before, Everyone);
        assert History(log, Everyone)[|History(before, Everyone)|] == Mark(e.at, 1);
        UnitsAppend(History(before, Everyone), Mark(e.at, 1));
        LoadConcat(Units(History(before, Everyone)), [Mark(e.at, 1)], width, now);
        assert [Mark(e.at, 1)][..0] == [];
      }
      RecentFailures(before, width, now);
    }
  }

  lemma {:induction false} FewKeys(log: seq<Entry>)
    requires forall i :: 0 <= i < |log| ==> log[i].Failed?
    ensures |KeysOf(log)| <= 2 * |log|
  {
    if log != [] {
      var e := log[|log| - 1];
      FewKeys(log[..|log| - 1]);
      var added := Touched(e.ip, e.user) - {Everyone};
      assert added <= {Address(e.ip), Account(e.user)};
      SubsetIsSmaller(added, {Address(e.ip), Account(e.user)});
    }
  }

  /** A key with a failure after the cutoff was touched by a recent failure. */
  lemma {:induction false} LiveKeyIsRecent(log: seq<Entry>, key: Key, i: nat, cutoff: real)
    requires i < |History(log, key)| && cutoff < History(log, key)[i].at
    ensures key == Everyone || key in KeysOf(Recent(log, cutoff))
  {
    if log != [] {
      var before, e := log[..|log| - 1], log[|log| - 1];
      assert log == before + [e];
      HistoryAppend(before, e, key);
      if i < |History(before, key)| {
        LiveKeyIsRecent(before, key, i, cutoff);
      }
      if e.Failed? && cutoff < e.at {
        assert Recent(log, cutoff) == Recent(before, cutoff) + [e];
        assert Recent(log, cutoff)[..|Recent(before, cutoff)|] == Recent(before, cutoff);
      } else {
        assert Recent(log, cutoff) == Recent(before, cutoff);
      }
    }
  }

  lemma {:induction false} RecentAreFailures(log: seq<Entry>, cutoff: real)
    ensures forall j :: 0 <= j < |Recent(log, cutoff)| ==> Recent(log, cutoff)[j].Failed?
  {
    if log != [] {
      RecentAreFailures(log[..|log| - 1], cutoff);
    }
  }

  lemma LiveKeyIsTouched(q: seq<Mark>, log: seq<Entry>, key: Key, now: real, cutoff: real)
    requires IsTail(q, History(log, key), now)
    requires q != [] && cutoff < q[|q| - 1].at
    ensures key in {Everyone} + KeysOf(Recent(log, cutoff))
  {
    NewestIsLast(q, History(log, key), now);
    LiveKeyIsRecent(log, key, |History(log, key)| - 1, cutoff);
  }

  lemma StaleQueue(q: seq<Mark>, u: seq<Mark>, history: seq<Mark>, cutoff: real, later: real)
    requires Sorted(history) && Retains(q, history, later) && cutoff <= later
    requires u == q || (u == [] && (q == [] || q[|q| - 1].at <= cutoff))
    ensures Retains(u, history, later)
  {
    if u != q {
      StaleIsForgettable(q, history, later);
    }
  }

  lemma DroppedQueue(t: Table, key: Key, cutoff: real)
    ensures var q, u := Queue(t, key), Queue(DropStale(t, cutoff), key);
      u == q || (u == [] && (q == [] || q[|q| - 1].at <= cutoff))
    ensures Queue(DropStale(t, cutoff), Everyone) == Queue(t, Everyone)
  {
  }

  lemma EmptyTail(q: seq<Mark>, history: seq<Mark>, now: real)
    requires IsTail(q, history, now)
    ensures IsTail([], history, now)
  {
  }

  lemma DropStaleTracks(lim: Limits, t: Table, log: seq<Entry>, now: real)
    requires Tracks(lim, t, log, now)
    ensures Tracks(lim, DropStale(t, now - lim.window), log, now)
  {
    var cutoff := now - lim.window;
    var u := DropStale(t, cutoff);
    DroppedQueue(t, Everyone, cutoff);
    forall key ensures IsTail(Queue(u, key), History(log, key), now) {
      TailOf(lim, t, log, now, key);
      StaleKeyTail(t, key, History(log, key), now, cutoff);
    }
    forall key, at: real | now <= at && Open(lim, log, at)
      ensures Retains(Queue(u, key), History(log, key), at - lim.window)
    {
      WhileOpen(lim, t, log, now, key, at);
      HistoryIsPast(lim, t, log, now, key);
      StaleKeyRetains(t, key, History(log, key), cutoff, at - lim.window);
    }
  }

  lemma StaleKeyTail(t: Table, key: Key, history: seq<Mark>, now: real, cutoff: real)
    requires IsTail(Queue(t, key), history, now)
    ensures IsTail(Queue(DropStale(t, cutoff), key), history, now)
  {
    EmptyTail(Queue(t, key), history, now);
    DroppedQueue(t, key, cutoff);
  }

  lemma StaleKeyRetains(t: Table, key: Key, history: seq<Mark>, cutoff: real, later: real)
    requires Sorted(history) && Retains(Queue(t, key), history, later) && cutoff <= later
    ensures Retains(Queue(DropStale(t, cutoff), key), history, later)
  {
    DroppedQueue(t, key, cutoff);
    StaleQueue(Queue(t, key), Queue(DropStale(t, cutoff), key), history, cutoff, later);
  }

  ghost predicate GlobalCapped(lim: Limits, above: nat, log: seq<Entry>) {
    Capped(Units(History(log, Everyone)), lim.window, lim.maxGlobal + above)
  }

  lemma RecentWithinCap(lim: Limits, above: nat, log: seq<Entry>, now: real)
    requires NoneAfter(History(log, Everyone), now) && GlobalCapped(lim, above, log)
    ensures |Recent(log, now - lim.window)| <= lim.maxGlobal + above
  {
    RecentFailures(log, lim.window, now);
  }

  lemma FewTouchedKeys(lim: Limits, above: nat, log: seq<Entry>, now: real)
    requires NoneAfter(History(log, Everyone), now) && GlobalCapped(lim, above, log)
    ensures |{Everyone} + KeysOf(Recent(log, now - lim.window))| <= 2 * (lim.maxGlobal + above) + 1
  {
    RecentWithinCap(lim, above, log, now);
    RecentAreFailures(log, now - lim.window);
    FewKeys(Recent(log, now - lim.window));
  }

  predicate Kept(t: Table, key: Key, cutoff: real) { key in t && (key == Everyone || Live(t, key, cutoff)) }

  lemma KeptKeyIsTouched(t: Table, q: seq<Mark>, log: seq<Entry>, key: Key, width: real, now: real)
    requires Kept(t, key, now - width) && q == Queue(t, key) && IsTail(q, History(log, key), now)
    ensures key in {Everyone} + KeysOf(Recent(log, now - width))
  {
    if key != Everyone {
      assert q != [] && now - width < q[|q| - 1].at;
      LiveKeyIsTouched(q, log, key, now, now - width);
    }
  }

  lemma KeptKeysAreTouched(lim: Limits, t: Table, log: seq<Entry>, now: real)
    requires Tracks(lim, t, log, now)
    ensures DropStale(t, now - lim.window).Keys <= {Everyone} + KeysOf(Recent(log, now - lim.window))
  {
    var cutoff := now - lim.window;
    var kept, touched := DropStale(t, cutoff), {Everyone} + KeysOf(Recent(log, cutoff));
    assert forall key :: key in kept ==> Kept(t, key, cutoff);
    forall key | key in kept ensures key in touched {
      KeptKeyIsTouched(t, Queue(t, key), log, key, lim.window, now);
    }
  }

  /** The global window bounds the number of keys that are still live. */
  lemma FewLiveKeys(lim: Limits, above: nat, t: Table, log: seq<Entry>, now: real)
    requires Tracks(lim, t, log, now) && GlobalCapped(lim, above, log)
    ensures |DropStale(t, now - lim.window)| <= 2 * (lim.maxGlobal + above) + 1
  {
    HistoryIsPast(lim, t, log, now, Everyone);
    FewTouchedKeys(lim, above, log, now);
    KeptKeysAreTouched(lim, t, log, now);
    SubsetIsSmaller(DropStale(t, now - lim.window).Keys, {Everyone} + KeysOf(Recent(log, now - lim.window)));
  }

  /** With the shipped limits: 81 keys while no unchecked failure is above the cap,
      and up to 2007 such failures cannot fill the table. */
  lemma ShippedTable(t: Table, log: seq<Entry>, now: real)
    requires Tracks(DEFAULT_LIMITS, t, log, now) && GlobalCapped(DEFAULT_LIMITS, 0, log)
    ensures |DropStale(t, now - 60.0)| <= 81
    ensures DEFAULT_LIMITS.TableSuffices(2007) && !DEFAULT_LIMITS.TableSuffices(2008)
  {
    FewLiveKeys(DEFAULT_LIMITS, 0, t, log, now);
  }

  /** As long as the global window, with the failures above its cap, cannot fill the
      table, eviction never drops a key with a live failure. */
  lemma EvictionIsLossless(lim: Limits, above: nat, t: Table, t': Table, log: seq<Entry>, now: real)
    requires Tracks(lim, t, log, now) && GlobalCapped(lim, above, log) && lim.TableSuffices(above)
    requires Evicted(t, t', now - lim.window)
    ensures forall key :: Live(t, key, now - lim.window) ==> key in t' && t'[key] == t[key]
  {
    FewLiveKeys(lim, above, t, log, now);
  }

  // ----------------------------------------- eviction beyond the live keys

  /** The keys that stay when `dropped` are the oldest surplus, and one dropped key. */
  function StayingWith(rest: Table, dropped: set<Key>, d: Key): set<Key> { rest.Keys - dropped - {Everyone} + {d} }

  lemma ManyStay(rest: Table, dropped: set<Key>, d: Key)
    requires |rest| > MAX_KEYS && Oldest(rest, dropped, |rest| - MAX_KEYS) && d in dropped
    ensures |StayingWith(rest, dropped, d)| >= MAX_KEYS
  {
    assert rest.Keys == (rest.Keys - dropped) + dropped;
    assert |rest.Keys - dropped| == MAX_KEYS;
    assert |rest.Keys - dropped - {Everyone}| >= MAX_KEYS - 1;
  }

  lemma StayingIsTouched(lim: Limits, rest: Table, log: seq<Entry>, now: real, dropped: set<Key>, d: Key, k: Key, cutoff: real)
    requires Tracks(lim, rest, log, now) && Oldest(rest, dropped, |dropped|) && d in dropped
    requires forall key :: key in rest && key != Everyone ==> rest[key] != []
    requires cutoff < LastFailure(rest, d) && k in StayingWith(rest, dropped, d)
    ensures k in KeysOf(Recent(log, cutoff))
  {
    assert LastFailure(rest, d) <= LastFailure(rest, k) by {
      if k != d {
        assert k in rest && k != Everyone && k !in dropped;
      }
    }
    assert k in rest && k != Everyone && rest[k] != [];
    LiveKeyIsTouched(Queue(rest, k), log, k, now, cutoff);
  }

  lemma RecentKeys(log: seq<Entry>, width: real, at: real)
    requires NoneAfter(History(log, Everyone), at)
    ensures |KeysOf(Recent(log, at - width))| <= 2 * Count(History(log, Everyone), width, at)
  {
    RecentAreFailures(log, at - width);
    FewKeys(Recent(log, at - width));
    RecentFailures(log, width, at);
  }

  lemma StayingAreTouched(lim: Limits, rest: Table, log: seq<Entry>, now: real, dropped: set<Key>, d: Key, cutoff: real)
    requires Tracks(lim, rest, log, now) && Oldest(rest, dropped, |dropped|) && d in dropped
    requires forall key :: key in rest && key != Everyone ==> rest[key] != []
    requires cutoff < LastFailure(rest, d)
    ensures StayingWith(rest, dropped, d) <= KeysOf(Recent(log, cutoff))
  {
    forall k | k in StayingWith(rest, dropped, d) ensures k in KeysOf(Recent(log, cutoff)) {
      StayingIsTouched(lim, rest, log, now, dropped, d, k, cutoff);
    }
  }

  /** While the global window is open, too few keys have a failure in it to fill the
      table. */
  lemma FewRecentKeys(lim: Limits, log: seq<Entry>, now: real, at: real)
    requires NoneAfter(History(log, Everyone), now) && now <= at && Open(lim, log, at) && lim.TableSuffices(0)
    ensures |KeysOf(Recent(log, at - lim.window))| < MAX_KEYS
  {
    RecentKeys(log, lim.window, at);
  }

  /** If a dropped key had a failure after the cutoff, so had all keys that stay. */
  lemma CrowdOfKeys(lim: Limits, rest: Table, log: seq<Entry>, now: real, dropped: set<Key>, d: Key, cutoff: real)
    requires Tracks(lim, rest, log, now)
    requires |rest| > MAX_KEYS && Oldest(rest, dropped, |rest| - MAX_KEYS) && d in dropped
    requires forall key :: key in rest && key != Everyone ==> rest[key] != []
    requires cutoff < LastFailure(rest, d)
    ensures MAX_KEYS <= |KeysOf(Recent(log, cutoff))|
  {
    ManyStay(rest, dropped, d);
    StayingAreTouched(lim, rest, log, now, dropped, d, cutoff);
    SubsetIsSmaller(StayingWith(rest, dropped, d), KeysOf(Recent(log, cutoff)));
  }

  /** So whenever a check looks at it, a dropped key has nothing in its window. */
  lemma DroppedIsOld(lim: Limits, rest: Table, log: seq<Entry>, now: real, dropped: set<Key>, d: Key, cutoff: real)
    requires Tracks(lim, rest, log, now) && |KeysOf(Recent(log, cutoff))| < MAX_KEYS
    requires |rest| > MAX_KEYS && Oldest(rest, dropped, |rest| - MAX_KEYS) && d in dropped
    requires forall key :: key in rest && key != Everyone ==> rest[key] != []
    ensures LastFailure(rest, d) <= cutoff
  {
    if cutoff < LastFailure(rest, d) {
      CrowdOfKeys(lim, rest, log, now, dropped, d, cutoff);
    }
  }

  lemma OldIsForgettable(rest: Table, d: Key, history: seq<Mark>, cutoff: real)
    requires d in rest && LastFailure(rest, d) <= cutoff && Sorted(history) && Retains(Queue(rest, d), history, cutoff)
    ensures Retains([], history, cutoff)
  {
    StaleIsForgettable(Queue(rest, d), history, cutoff);
  }

  lemma DropOldestTracks(lim: Limits, rest: Table, log: seq<Entry>, now: real, dropped: set<Key>)
    requires Tracks(lim, rest, log, now) && lim.TableSuffices(0)
    requires |rest| > MAX_KEYS && Oldest(rest, dropped, |rest| - MAX_KEYS)
    requires forall key :: key in rest && key != Everyone ==> rest[key] != []
    ensures Tracks(lim, rest - dropped, log, now)
  {
    var t' := rest - dropped;
    forall key ensures IsTail(Queue(t', key), History(log, key), now) {
      TailOf(lim, rest, log, now, key);
      EmptyTail(Queue(rest, key), History(log, key), now);
    }
    forall key, at: real | now <= at && Open(lim, log, at)
      ensures Retains(Queue(t', key), History(log, key), at - lim.window)
    {
      if key in dropped {
        HistoryIsPast(lim, rest, log, now, Everyone);
        FewRecentKeys(lim, log, now, at);
        DroppedIsOld(lim, rest, log, now, dropped, key, at - lim.window);
        WhileOpen(lim, rest, log, now, key, at);
        HistoryIsPast(lim, rest, log, now, key);
        OldIsForgettable(rest, key, History(log, key), at - lim.window);
      } else {
        assert Queue(t', key) == Queue(rest, key);
        WhileOpen(lim, rest, log, now, key, at);
      }
    }
  }

  /** Eviction of either kind loses nothing that a check can come to look at. */
  lemma EvictionTracks(lim: Limits, t: Table, t': Table, log: seq<Entry>, now: real)
    requires Tracks(lim, t, log, now) && lim.TableSuffices(0) && Evicted(t, t', now - lim.window)
    ensures Tracks(lim, t', log, now)
  {
    var rest := DropStale(t, now - lim.window);
    DropStaleTracks(lim, t, log, now);
    if |t| > MAX_KEYS && |rest| > MAX_KEYS {
      var dropped :| Oldest(rest, dropped, |rest| - MAX_KEYS) && t' == rest - dropped;
      DropOldestTracks(lim, rest, log, now, dropped);
    }
  }

  lemma DroppedSize(rest: Table, dropped: set<Key>)
    requires dropped <= rest.Keys
    ensures |rest - dropped| == |rest| - |dropped|
  {
    assert rest.Keys == (rest - dropped).Keys + dropped;
  }

  lemma EvictionBounds(t: Table, t': Table, cutoff: real)
    requires Evicted(t, t', cutoff)
    ensures |t'| <= MAX_KEYS
  {
    var rest := DropStale(t, cutoff);
    if |t| > MAX_KEYS && |rest| > MAX_KEYS {
      var dropped :| Oldest(rest, dropped, |rest| - MAX_KEYS) && t' == rest - dropped;
      DroppedSize(rest, dropped);
    }
  }

  lemma ClearTracks(lim: Limits, t: Table, log: seq<Entry>, user: string, now: real)
    requires Tracks(lim, t, log, now)
    ensures Tracks(lim, t - {Account(user)}, log + [Cleared(user)], now)
  {
    var u, log' := t - {Account(user)}, log + [Cleared(user)];
    HistoryAppend(log, Cleared(user), Everyone);
    forall key ensures IsTail(Queue(u, key), History(log', key), now) {
      HistoryAppend(log, Cleared(user), key);
      TailOf(lim, t, log, now, key);
    }
    forall key, at: real | now <= at && Open(lim, log', at)
      ensures Retains(Queue(u, key), History(log', key), at - lim.window)
    {
      HistoryAppend(log, Cleared(user), key);
      assert Open(lim, log, at);
      WhileOpen(lim, t, log, now, key, at);
    }
  }

  lemma ClearKeepsBudget(log: seq<Entry>, user: string, key: Key, width: real, budget: nat, waiting: nat, now: real)
    requires Budgeted(History(log, key), width, budget, waiting, now) && waiting <= budget
    ensures Budgeted(History(log + [Cleared(user)], key), width, budget, waiting, now)
  {
    HistoryAppend(log, Cleared(user), key);
    if key == Account(user) {
      assert Units([]) == [];
    }
  }

  lemma ClearKeepsBudgets(lim: Limits, above: Key -> nat, log: seq<Entry>, pending: seq<Client>, user: string, now: real)
    requires WithinBudgets(lim, above, log, pending, now)
    ensures WithinBudgets(lim, above, log + [Cleared(user)], pending, now)
  {
    forall key
      ensures Budgeted(History(log + [Cleared(user)], key), lim.window, lim.Cap(key) + above(key), Waiting(pending, key), now)
    {
      var budget := lim.Cap(key) + above(key);
      assert Budgeted(History(log, key), lim.window, budget, Waiting(pending, key), now);
      ClearKeepsBudget(log, user, key, lim.window, budget, Waiting(pending, key), now);
    }
  }

  lemma TrimKeepsSize(t: Table, lim: Limits, ip: string, user: string, now: real)
    ensures TrimWindows(t, lim, ip, now).Keys == t.Keys == TrimAll(t, lim, ip, user, now).Keys
  {
  }

  lemma AgeBudgets(lim: Limits, above: Key -> nat, t: Table, log: seq<Entry>, pending: seq<Client>, before: real, now: real)
    requires Tracks(lim, t, log, before) && WithinBudgets(lim, above, log, pending, before) && before <= now
    ensures WithinBudgets(lim, above, log, pending, now)
  {
    forall key ensures Budgeted(History(log, key), lim.window, lim.Cap(key) + above(key), Waiting(pending, key), now) {
      HistoryIsPast(lim, t, log, before, key);
      AgeBudget(History(log, key), lim.window, lim.Cap(key) + above(key), Waiting(pending, key), before, now);
    }
  }

  /** One recorded failure, on one key: it may be recorded when what the window
      held at some earlier moment, this failure and the failures that may still
      follow unchecked are within the budget. */
  lemma RecordKeepsBudget(lim: Limits, log: seq<Entry>, ip: string, user: string, key: Key, budget: nat,
                          waiting: nat, waiting': nat, at: real, now: real)
    requires NoneAfter(History(log, key), at) && at <= now
    requires Budgeted(History(log, key), lim.window, budget, waiting, at)
    requires if key in Touched(ip, user) then Count(History(log, key), lim.window, at) + 1 + waiting' <= budget
             else waiting' == waiting
    ensures Budgeted(History(log + [Failed(now, ip, user)], key), lim.window, budget, waiting', now)
  {
    HistoryAppend(log, Failed(now, ip, user), key);
    if key in Touched(ip, user) {
      MarkBudget(History(log, key), lim.window, budget, waiting', at, now);
    } else {
      AgeBudget(History(log, key), lim.window, budget, waiting, at, now);
    }
  }

  /** A failure at login that passed the check. */
  lemma LoginKeepsBudgets(lim: Limits, above: Key -> nat, t: Table, log: seq<Entry>, pending: seq<Client>,
                          ip: string, user: string, at: real, now: real)
    requires Tracks(lim, t, log, at) && WithinBudgets(lim, above, log, pending, at) && at <= now
    requires AtMostWaiting(pending, above) && !Blocked(TrimAll(t, lim, ip, user, at), lim, ip, user)
    ensures WithinBudgets(lim, above, log + [Failed(now, ip, user)], pending, now)
  {
    forall key
      ensures Budgeted(History(log + [Failed(now, ip, user)], key), lim.window, lim.Cap(key) + above(key), Waiting(pending, key), now)
    {
      var budget, waiting := lim.Cap(key) + above(key), Waiting(pending, key);
      assert waiting <= above(key) && Budgeted(History(log, key), lim.window, budget, waiting, at);
      HistoryIsPast(lim, t, log, at, key);
      if key in Touched(ip, user) {
        UnblockedCount(lim, t, log, ip, user, at, at, key);
      }
      RecordKeepsBudget(lim, log, ip, user, key, budget, waiting, waiting, at, now);
    }
  }

  /** A failed password change, recorded without a second check. */
  lemma SettleKeepsBudgets(lim: Limits, above: Key -> nat, t: Table, log: seq<Entry>, pending: seq<Client>,
                           which: nat, now: real)
    requires Tracks(lim, t, log, now) && WithinBudgets(lim, above, log, pending, now) && which < |pending|
    ensures WithinBudgets(lim, above, log + [Failed(now, pending[which].ip, pending[which].user)], Without(pending, which), now)
  {
    var ip, user, rest := pending[which].ip, pending[which].user, Without(pending, which);
    forall key
      ensures Budgeted(History(log + [Failed(now, ip, user)], key), lim.window, lim.Cap(key) + above(key), Waiting(rest, key), now)
    {
      var budget := lim.Cap(key) + above(key);
      HistoryIsPast(lim, t, log, now, key);
      assert Budgeted(History(log, key), lim.window, budget, Waiting(pending, key), now);
      WaitingWithout(pending, which, key);
      RecordKeepsBudget(lim, log, ip, user, key, budget, Waiting(pending, key), Waiting(rest, key), now, now);
    }
  }

  lemma DropKeepsBudgets(lim: Limits, above: Key -> nat, log: seq<Entry>, pending: seq<Client>, which: nat, now: real)
    requires WithinBudgets(lim, above, log, pending, now) && which < |pending|
    ensures WithinBudgets(lim, above, log, Without(pending, which), now)
  {
    forall key
      ensures Budgeted(History(log, key), lim.window, lim.Cap(key) + above(key), Waiting(Without(pending, which), key), now)
    {
      assert Budgeted(History(log, key), lim.window, lim.Cap(key) + above(key), Waiting(pending, key), now);
      WaitingWithout(pending, which, key);
    }
  }

  /** A password change that passed the check now waits. */
  lemma BeginKeepsBudgets(lim: Limits, above: Key -> nat, t: Table, log: seq<Entry>, pending: seq<Client>, c: Client, now: real)
    requires Tracks(lim, t, log, now) && WithinBudgets(lim, above, log, pending, now)
    requires AtMostWaiting(pending + [c], above) && !Blocked(TrimAll(t, lim, c.ip, c.user, now), lim, c.ip, c.user)
    ensures WithinBudgets(lim, above, log, pending + [c], now)
  {
    forall key
      ensures Budgeted(History(log, key), lim.window, lim.Cap(key) + above(key), Waiting(pending + [c], key), now)
    {
      assert Budgeted(History(log, key), lim.window, lim.Cap(key) + above(key), Waiting(pending, key), now);
      assert Waiting(pending + [c], key) <= above(key);
      WaitingSnoc(pending, c, key);
      if key in Touched(c.ip, c.user) {
        UnblockedCount(lim, t, log, c.ip, c.user, now, now, key);
      }
    }
  }

  // ------------------------------------------------------------------ steps

  lemma RecordTracks(lim: Limits, t: Table, t': Table, log: seq<Entry>, ip: string, user: string, at: real, now: real)
    requires at <= now && lim.TableSuffices(0) && Tracks(lim, t, log, at)
    requires Evicted(PushAll(t, ip, user, now), t', now - lim.window)
    ensures Tracks(lim, t', log + [Failed(now, ip, user)], now)
  {
    PushTracks(lim, t, log, ip, user, at, now);
    EvictionTracks(lim, PushAll(t, ip, user, now), t', log + [Failed(now, ip, user)], now);
  }

  lemma FailTracks(lim: Limits, t: Table, checked: Table, t': Table, log: seq<Entry>, ip: string, user: string, at: real, now: real)
    requires Tracks(lim, t, log, at) && lim.TableSuffices(0) && at <= now
    requires checked == TrimAll(t, lim, ip, user, at) && FailStep(lim, checked, ip, user, now, t')
    ensures Tracks(lim, t', log + FailEntries(lim, checked, ip, user, now), now)
  {
    TrimAllTracks(lim, t, log, ip, user, at, at);
    if Blocked(checked, lim, ip, user) {
      assert log + [] == log;
      AgeTracks(lim, checked, log, at, now);
    } else {
      RecordTracks(lim, checked, t', log, ip, user, at, now);
    }
  }

  lemma SettleTracks(lim: Limits, s: State, s': State, log: seq<Entry>, which: nat, wrong: bool, now: real)
    requires Tracks(lim, s.table, log, now) && lim.TableSuffices(0) && SettleStep(lim, s, which, wrong, now, s')
    ensures Tracks(lim, s'.table, log + SettleEntries(s.pending, which, wrong, now), now)
  {
    var c := s.pending[which];
    if wrong {
      assert RecordStep(lim, s.table, c, true, now, s'.table);
      RecordTracks(lim, s.table, s'.table, log, c.ip, c.user, now, now);
    } else {
      assert log + [] == log;
    }
  }

  lemma StepTracks(lim: Limits, s: State, op: Op, s': State, log: seq<Entry>)
    requires Tracks(lim, s.table, log, op.Start()) && lim.TableSuffices(0) && op.Start() <= op.End()
    requires Next(lim, s, op, s')
    ensures Tracks(lim, s'.table, log + Entries(lim, s, op), op.End())
  {
    assert log + [] == log;
    match op
    case Fail(ip, user, at, now) =>
      FailTracks(lim, s.table, TrimAll(s.table, lim, ip, user, at), s'.table, log, ip, user, at, now);
    case Settle(which, wrong, now) => SettleTracks(lim, s, s', log, which, wrong, now);
    case Begin(c, now) => TrimAllTracks(lim, s.table, log, c.ip, c.user, now, now);
    case Probe(ip, now) => TrimAllTracks(lim, s.table, log, ip, "", now, now);
    case Succeed(user, now) =>
      if user != "" {
        ClearTracks(lim, s.table, log, user, now);
      }
  }

  lemma FailKeepsBudgets(lim: Limits, above: Key -> nat, t: Table, checked: Table, log: seq<Entry>, pending: seq<Client>,
                         ip: string, user: string, at: real, now: real)
    requires Tracks(lim, t, log, at) && WithinBudgets(lim, above, log, pending, at) && at <= now
    requires AtMostWaiting(pending, above) && checked == TrimAll(t, lim, ip, user, at)
    ensures WithinBudgets(lim, above, log + FailEntries(lim, checked, ip, user, now), pending, now)
  {
    if Blocked(checked, lim, ip, user) {
      assert log + [] == log;
      AgeBudgets(lim, above, t, log, pending, at, now);
    } else {
      LoginKeepsBudgets(lim, above, t, log, pending, ip, user, at, now);
    }
  }

  lemma SettledBudgets(lim: Limits, above: Key -> nat, t: Table, log: seq<Entry>, pending: seq<Client>,
                       which: nat, wrong: bool, now: real)
    requires Tracks(lim, t, log, now) && WithinBudgets(lim, above, log, pending, now) && which < |pending|
    ensures WithinBudgets(lim, above, log + SettleEntries(pending, which, wrong, now), Without(pending, which), now)
  {
    if wrong {
      SettleKeepsBudgets(lim, above, t, log, pending, which, now);
    } else {
      assert log + [] == log;
      DropKeepsBudgets(lim, above, log, pending, which, now);
    }
  }

  lemma BegunBudgets(lim: Limits, above: Key -> nat, t: Table, s': State, log: seq<Entry>, pending: seq<Client>, c: Client, now: real)
    requires Tracks(lim, t, log, now) && WithinBudgets(lim, above, log, pending, now)
    requires s' == AfterCheck(lim, TrimAll(t, lim, c.ip, c.user, now), pending, c) && AtMostWaiting(s'.pending, above)
    ensures WithinBudgets(lim, above, log, s'.pending, now)
  {
    if !Blocked(TrimAll(t, lim, c.ip, c.user, now), lim, c.ip, c.user) {
      BeginKeepsBudgets(lim, above, t, log, pending, c, now);
    }
  }

  lemma StepKeepsBudgets(lim: Limits, above: Key -> nat, s: State, op: Op, s': State, log: seq<Entry>)
    requires Tracks(lim, s.table, log, op.Start()) && WithinBudgets(lim, above, log, s.pending, op.Start())
    requires op.Start() <= op.End() && Next(lim, s, op, s')
    requires AtMostWaiting(s.pending, above) && AtMostWaiting(s'.pending, above)
    ensures WithinBudgets(lim, above, log + Entries(lim, s, op), s'.pending, op.End())
  {
    assert log + [] == log;
    match op
    case Fail(ip, user, at, now) =>
      FailKeepsBudgets(lim, above, s.table, TrimAll(s.table, lim, ip, user, at), log, s.pending, ip, user, at, now);
    case Settle(which, wrong, now) => SettledBudgets(lim, above, s.table, log, s.pending, which, wrong, now);
    case Begin(c, now) => BegunBudgets(lim, above, s.table, s', log, s.pending, c, now);
    case Probe(ip, now) =>
    case Succeed(user, now) =>
      if user != "" {
        ClearKeepsBudgets(lim, above, log, s.pending, user, now);
      }
  }

  lemma StepKeepsSize(lim: Limits, s: State, op: Op, s': State)
    requires Next(lim, s, op, s') && |s.table| <= MAX_KEYS
    ensures |s'.table| <= MAX_KEYS
  {
    match op
    case Fail(ip, user, at, now) => FailKeepsSize(lim, s.table, TrimAll(s.table, lim, ip, user, at), s'.table, ip, user, at, now);
    case Settle(which, wrong, now) => RecordKeepsSize(lim, s.table, s.pending[which], wrong, now, s'.table);
    case Begin(c, now) => TrimKeepsSize(s.table, lim, c.ip, c.user, now);
    case Probe(ip, now) => TrimKeepsSize(s.table, lim, ip, "", now);
    case Succeed(user, now) => SubsetIsSmaller(Forgotten(s.table, user).Keys, s.table.Keys);
  }

  lemma FailKeepsSize(lim: Limits, t: Table, checked: Table, t': Table, ip: string, user: string, at: real, now: real)
    requires checked == TrimAll(t, lim, ip, user, at) && FailStep(lim, checked, ip, user, now, t') && |t| <= MAX_KEYS
    ensures |t'| <= MAX_KEYS
  {
    TrimKeepsSize(t, lim, ip, user, at);
    if !Blocked(checked, lim, ip, user) {
      EvictionBounds(PushAll(checked, ip, user, now), t', now - lim.window);
    }
  }

  lemma RecordKeepsSize(lim: Limits, t: Table, c: Client, wrong: bool, at: real, t': Table)
    requires RecordStep(lim, t, c, wrong, at, t') && |t| <= MAX_KEYS
    ensures |t'| <= MAX_KEYS
  {
    if wrong {
      EvictionBounds(PushAll(t, c.ip, c.user, at), t', at - lim.window);
    }
  }

  // ------------------------------------------------------------------- runs

  function LastEnd(run: seq<Op>): real { if run == [] then 0.0 else run[|run| - 1].End() }

  ghost predicate NeverMoreWaiting(states: seq<State>, above: Key -> nat) {
    forall i :: 0 <= i < |states| ==> AtMostWaiting(states[i].pending, above)
  }

  /** The log depends on the states in which the steps begin only. */
  lemma {:induction false} LogOfPrefix(lim: Limits, run: seq<Op>, states: seq<State>, more: seq<State>)
    requires |run| <= |states|
    ensures Log(lim, run, states + more) == Log(lim, run, states)
  {
    if run != [] {
      LogOfPrefix(lim, run[..|run| - 1], states, more);
    }
  }

  lemma EmptyTracks(lim: Limits, now: real)
    ensures Tracks(lim, map[], [], now)
  {
    assert forall key :: History([], key) == [] && Queue(map[], key) == [];
  }

  /** The time of the n-th step, or an earlier one. */
  predicate NotBefore(run: seq<Op>, n: nat, now: real)
    requires n <= |run|
  {
    n > 0 ==> run[n - 1].End() <= now
  }

  lemma NextLog(lim: Limits, run: seq<Op>, states: seq<State>, n: nat)
    requires n < |run| < |states|
    ensures Log(lim, run[..n + 1], states) == Log(lim, run[..n], states) + Entries(lim, states[n], run[n])
  {
    assert run[..n + 1][..n] == run[..n];
  }

  lemma NextTracks(lim: Limits, run: seq<Op>, states: seq<State>, n: nat)
    requires Behaves(lim, run, states) && lim.TableSuffices(0) && n < |run|
    requires Tracks(lim, states[n].table, Log(lim, run[..n], states), run[n].Start())
    ensures Tracks(lim, states[n + 1].table, Log(lim, run[..n + 1], states), run[n].End())
  {
    NextLog(lim, run, states, n);
    assert Next(lim, states[n], run[n], states[n + 1]);
    StepTracks(lim, states[n], run[n], states[n + 1], Log(lim, run[..n], states));
  }

  /** In every run, with any number of pending password changes: the table knows
      all that a check can come to look at. */
  lemma {:induction false} RunTracks(lim: Limits, run: seq<Op>, states: seq<State>, n: nat, now: real)
    requires Behaves(lim, run, states) && lim.TableSuffices(0) && n <= |run| && NotBefore(run, n, now)
    ensures Tracks(lim, states[n].table, Log(lim, run[..n], states), now)
  {
    if n == 0 {
      EmptyTracks(lim, now);
    } else {
      RunTracks(lim, run, states, n - 1, run[n - 1].Start());
      NextTracks(lim, run, states, n - 1);
      AgeTracks(lim, states[n].table, Log(lim, run[..n], states), run[n - 1].End(), now);
    }
  }

  lemma EmptyBudgets(lim: Limits, above: Key -> nat, now: real)
    ensures WithinBudgets(lim, above, [], [], now)
  {
    forall key ensures Budgeted(History([], key), lim.window, lim.Cap(key) + above(key), Waiting([], key), now) {
      assert Units(History([], key)) == [];
    }
  }

  lemma NextBudgets(lim: Limits, above: Key -> nat, run: seq<Op>, states: seq<State>, n: nat)
    requires Behaves(lim, run, states) && NeverMoreWaiting(states, above) && n < |run|
    requires Tracks(lim, states[n].table, Log(lim, run[..n], states), run[n].Start())
    requires WithinBudgets(lim, above, Log(lim, run[..n], states), states[n].pending, run[n].Start())
    ensures WithinBudgets(lim, above, Log(lim, run[..n + 1], states), states[n + 1].pending, run[n].End())
  {
    NextLog(lim, run, states, n);
    assert Next(lim, states[n], run[n], states[n + 1]);
    StepKeepsBudgets(lim, above, states[n], run[n], states[n + 1], Log(lim, run[..n], states));
  }

  /** In every run, every window is within its budget, with room for the failures
      that may still be recorded unchecked. */
  lemma {:induction false} RunKeepsBudgets(lim: Limits, above: Key -> nat, run: seq<Op>, states: seq<State>, n: nat, now: real)
    requires Behaves(lim, run, states) && lim.TableSuffices(0) && NeverMoreWaiting(states, above)
    requires n <= |run| && NotBefore(run, n, now)
    ensures WithinBudgets(lim, above, Log(lim, run[..n], states), states[n].pending, now)
  {
    if n == 0 {
      EmptyBudgets(lim, above, now);
    } else {
      var op := run[n - 1];
      RunTracks(lim, run, states, n - 1, op.Start());
      RunKeepsBudgets(lim, above, run, states, n - 1, op.Start());
      NextBudgets(lim, above, run, states, n - 1);
      RunTracks(lim, run, states, n, op.End());
      AgeBudgets(lim, above, states[n].table, Log(lim, run[..n], states), states[n].pending, op.End(), now);
    }
  }

  /** In every run, every window of any position holds at most the capped number of
      recorded failures of everyone, of an address, and of an account since its
      last success, and as many more as password changes were ever pending on it
      at the same time. */
  lemma FailuresPerWindow(lim: Limits, above: Key -> nat, run: seq<Op>, states: seq<State>, key: Key, t: real)
    requires Behaves(lim, run, states) && lim.TableSuffices(0) && NeverMoreWaiting(states, above)
    ensures Count(History(Log(lim, run, states), key), lim.window, t) <= lim.Cap(key) + above(key)
  {
    assert run[..|run|] == run;
    RunKeepsBudgets(lim, above, run, states, |run|, LastEnd(run));
    assert Budgeted(History(Log(lim, run, states), key), lim.window, lim.Cap(key) + above(key),
                    Waiting(states[|run|].pending, key), LastEnd(run));
  }

  lemma {:induction false} NobodyWaits(lim: Limits, run: seq<Op>, states: seq<State>, i: nat)
    requires Behaves(lim, run, states) && i <= |run| && forall j :: 0 <= j < |run| ==> !run[j].Begin?
    ensures states[i].pending == []
  {
    if i > 0 {
      NobodyWaits(lim, run, states, i - 1);
      assert Next(lim, states[i - 1], run[i - 1], states[i]);
    }
  }

  /** The login path alone keeps the caps themselves. */
  lemma LoginFailuresPerWindow(lim: Limits, run: seq<Op>, states: seq<State>, key: Key, t: real)
    requires Behaves(lim, run, states) && lim.TableSuffices(0) && forall j :: 0 <= j < |run| ==> !run[j].Begin?
    ensures Count(History(Log(lim, run, states), key), lim.window, t) <= lim.Cap(key)
  {
    forall i | 0 <= i < |states| ensures AtMostWaiting(states[i].pending, _ => 0) {
      NobodyWaits(lim, run, states, i);
    }
    FailuresPerWindow(lim, _ => 0, run, states, key, t);
  }

  /** With the shipped limits: 40 failures in any minute, 8 of an address, 5 of an
      account since its last success. */
  lemma ShippedLimits(run: seq<Op>, states: seq<State>, ip: string, user: string, t: real)
    requires Behaves(DEFAULT_LIMITS, run, states) && forall j :: 0 <= j < |run| ==> !run[j].Begin?
    ensures var log := Log(DEFAULT_LIMITS, run, states);
      && Count(History(log, Everyone), 60.0, t) <= 40
      && Count(History(log, Address(ip)), 60.0, t) <= 8
      && Count(History(log, Account(user)), 60.0, t) <= 5
  {
    LoginFailuresPerWindow(DEFAULT_LIMITS, run, states, Everyone, t);
    LoginFailuresPerWindow(DEFAULT_LIMITS, run, states, Address(ip), t);
    LoginFailuresPerWindow(DEFAULT_LIMITS, run, states, Account(user), t);
  }

  /** The table never holds more than its maximum of keys between operations,
      whatever the limits and however many password changes are pending. */
  lemma {:induction false} TableStaysBounded(lim: Limits, run: seq<Op>, states: seq<State>, i: nat)
    requires Behaves(lim, run, states) && i <= |run|
    ensures |states[i].table| <= MAX_KEYS
  {
    if i > 0 {
      TableStaysBounded(lim, run, states, i - 1);
      StepKeepsSize(lim, states[i - 1], run[i - 1], states[i]);
    }
  }

  lemma RunKeepsInvariant(lim: Limits, above: Key -> nat, run: seq<Op>, states: seq<State>, now: real)
    requires Behaves(lim, run, states) && lim.TableSuffices(0) && NeverMoreWaiting(states, above)
    requires run != [] ==> run[|run| - 1].End() <= now
    ensures Tracks(lim, states[|run|].table, Log(lim, run, states), now)
    ensures WithinBudgets(lim, above, Log(lim, run, states), states[|run|].pending, now)
    ensures |states[|run|].table| <= MAX_KEYS
  {
    assert run[..|run|] == run;
    RunTracks(lim, run, states, |run|, now);
    RunKeepsBudgets(lim, above, run, states, |run|, now);
    TableStaysBounded(lim, run, states, |run|);
  }

  predicate WindowFull(lim: Limits, log: seq<Entry>, key: Key, now: real) {
    lim.Cap(key) <= Count(History(log, key), lim.window, now)
  }

  lemma FullQueueBlocks(lim: Limits, checked: Table, log: seq<Entry>, ip: string, user: string, now: real)
    requires forall key :: key in Touched(ip, user) ==>
               (WindowFull(lim, log, key, now) <==> lim.Cap(key) <= |Queue(checked, key)|)
    ensures Blocked(checked, lim, ip, user) <==> exists key :: key in Touched(ip, user) && WindowFull(lim, log, key, now)
  {
    assert Everyone in Touched(ip, user) && Address(ip) in Touched(ip, user);
    assert user != "" ==> Account(user) in Touched(ip, user);
  }

  /** The check refuses exactly when a window of the true history is full. */
  lemma RefusesExactlyWhenFull(lim: Limits, t: Table, log: seq<Entry>, ip: string, user: string, before: real, now: real)
    requires Tracks(lim, t, log, before) && before <= now
    ensures Blocked(TrimAll(t, lim, ip, user, now), lim, ip, user) <==>
      exists key :: key in Touched(ip, user) && WindowFull(lim, log, key, now)
  {
    var checked := TrimAll(t, lim, ip, user, now);
    CheckReadsTheWindow(lim, t, log, ip, user, before, now, Everyone);
    if Open(lim, log, now) {
      forall key | key in Touched(ip, user)
        ensures WindowFull(lim, log, key, now) <==> lim.Cap(key) <= |Queue(checked, key)|
      {
        CheckReadsTheWindow(lim, t, log, ip, user, before, now, key);
      }
      FullQueueBlocks(lim, checked, log, ip, user, now);
    } else {
      assert Everyone in Touched(ip, user) && WindowFull(lim, log, Everyone, now);
    }
  }

  /** In every run a check refuses exactly when a window of the true history is full:
      no eviction, of stale keys or of the oldest ones, is ever seen by a check. */
  lemma ChecksDecideOnHistory(lim: Limits, run: seq<Op>, states: seq<State>, ip: string, user: string, now: real)
    requires Behaves(lim, run, states) && lim.TableSuffices(0) && (run != [] ==> run[|run| - 1].End() <= now)
    ensures Blocked(TrimAll(states[|run|].table, lim, ip, user, now), lim, ip, user) <==>
      exists key :: key in Touched(ip, user) && WindowFull(lim, Log(lim, run, states), key, now)
  {
    assert run[..|run|] == run;
    RunTracks(lim, run, states, |run|, now);
    RefusesExactlyWhenFull(lim, states[|run|].table, Log(lim, run, states), ip, user, now, now);
  }

  /** When an unchecked failure leaves all windows within their caps: exactly when
      the check, repeated at that moment, would have let it pass. */
  lemma RecordKeepsCapsIff(lim: Limits, t: Table, log: seq<Entry>, ip: string, user: string, before: real, now: real)
    requires Tracks(lim, t, log, before) && before <= now && WithinCaps(lim, log) && lim.window > 0.0
    ensures WithinCaps(lim, log + [Failed(now, ip, user)]) <==> !Blocked(TrimAll(t, lim, ip, user, now), lim, ip, user)
  {
    if Blocked(TrimAll(t, lim, ip, user, now), lim, ip, user) {
      RefusesExactlyWhenFull(lim, t, log, ip, user, before, now);
      var key :| key in Touched(ip, user) && WindowFull(lim, log, key, now);
      OverfullWindow(lim, log, ip, user, key, now);
    } else {
      RecordKeepsCaps(lim, t, log, ip, user, before, now, now);
    }
  }

  lemma OverfullWindow(lim: Limits, log: seq<Entry>, ip: string, user: string, key: Key, now: real)
    requires key in Touched(ip, user) && WindowFull(lim, log, key, now) && lim.window > 0.0
    ensures !WithinCaps(lim, log + [Failed(now, ip, user)])
  {
    HistoryAppend(log, Failed(now, ip, user), key);
    CountSnoc(History(log, key), Mark(now, 1), lim.window, now);
    assert Load(Units(History(log + [Failed(now, ip, user)], key)), lim.window, now) > lim.Cap(key);
    assert !Capped(Units(History(log + [Failed(now, ip, user)], key)), lim.window, lim.Cap(key));
  }

  // -------------------------------------------- when the caps themselves are kept

  ghost predicate CapsAfter(lim: Limits, run: seq<Op>, states: seq<State>, n: nat)
    requires n <= |run| < |states|
  {
    WithinCaps(lim, Log(lim, run[..n], states))
  }

  /** A failure that this step records unchecked would have passed the check now. */
  predicate PassesLate(lim: Limits, s: State, op: Op) {
    op.Settle? && op.wrong && op.which < |s.pending| ==>
      var c := s.pending[op.which];
      !Blocked(TrimAll(s.table, lim, c.ip, c.user, op.at), lim, c.ip, c.user)
  }

  lemma ClearKeepsCaps(lim: Limits, log: seq<Entry>, user: string)
    requires WithinCaps(lim, log)
    ensures WithinCaps(lim, log + [Cleared(user)])
  {
    forall key ensures Capped(Units(History(log + [Cleared(user)], key)), lim.window, lim.Cap(key)) {
      assert Capped(Units(History(log, key)), lim.window, lim.Cap(key));
      HistoryAppend(log, Cleared(user), key);
      assert Units([]) == [];
    }
  }

  lemma StepKeepsCapsIff(lim: Limits, s: State, op: Op, s': State, log: seq<Entry>)
    requires Tracks(lim, s.table, log, op.Start()) && WithinCaps(lim, log) && lim.window > 0.0
    requires op.Start() <= op.End() && Next(lim, s, op, s')
    ensures WithinCaps(lim, log + Entries(lim, s, op)) <==> PassesLate(lim, s, op)
  {
    assert log + [] == log;
    match op
    case Fail(ip, user, at, now) =>
      if !Blocked(TrimAll(s.table, lim, ip, user, at), lim, ip, user) {
        RecordKeepsCaps(lim, s.table, log, ip, user, at, at, now);
      }
    case Settle(which, wrong, now) =>
      if wrong {
        RecordKeepsCapsIff(lim, s.table, log, s.pending[which].ip, s.pending[which].user, now, now);
      }
    case Begin(c, now) =>
    case Probe(ip, now) =>
    case Succeed(user, now) => ClearKeepsCaps(lim, log, user);
  }

  lemma NextCaps(lim: Limits, run: seq<Op>, states: seq<State>, n: nat)
    requires Behaves(lim, run, states) && lim.TableSuffices(0) && lim.window > 0.0 && n < |run|
    requires CapsAfter(lim, run, states, n)
    ensures CapsAfter(lim, run, states, n + 1) <==> PassesLate(lim, states[n], run[n])
  {
    NextLog(lim, run, states, n);
    RunTracks(lim, run, states, n, run[n].Start());
    assert Next(lim, states[n], run[n], states[n + 1]);
    StepKeepsCapsIff(lim, states[n], run[n], states[n + 1], Log(lim, run[..n], states));
  }

  lemma {:induction false} CapsUpTo(lim: Limits, run: seq<Op>, states: seq<State>, n: nat)
    requires Behaves(lim, run, states) && lim.TableSuffices(0) && lim.window > 0.0 && n <= |run|
    requires forall i :: 0 <= i < |run| ==> PassesLate(lim, states[i], run[i])
    ensures CapsAfter(lim, run, states, n)
  {
    if n == 0 {
      forall key ensures Capped(Units(History([], key)), lim.window, lim.Cap(key)) {
        assert Units(History([], key)) == [];
      }
    } else {
      CapsUpTo(lim, run, states, n - 1);
      NextCaps(lim, run, states, n - 1);
    }
  }

  /** Exactly the runs that keep every window within its cap throughout: those in
      which each failure that is recorded unchecked would still have passed. */
  lemma CapsKeptIff(lim: Limits, run: seq<Op>, states: seq<State>)
    requires Behaves(lim, run, states) && lim.TableSuffices(0) && lim.window > 0.0
    ensures (forall n: nat :: n <= |run| ==> CapsAfter(lim, run, states, n)) <==>
      forall n :: 0 <= n < |run| ==> PassesLate(lim, states[n], run[n])
  {
    if forall n: nat :: n <= |run| ==> CapsAfter(lim, run, states, n) {
      forall n | 0 <= n < |run| ensures PassesLate(lim, states[n], run[n]) {
        assert CapsAfter(lim, run, states, n) && CapsAfter(lim, run, states, n + 1);
        NextCaps(lim, run, states, n);
      }
    }
    if forall n :: 0 <= n < |run| ==> PassesLate(lim, states[n], run[n]) {
      forall n: nat | n <= |run| ensures CapsAfter(lim, run, states, n) {
        CapsUpTo(lim, run, states, n);
      }
    }
  }

  // ----------------------------------------- the caps alone do not hold in general

  function Crowd(c: Client, n: nat): seq<Client> { seq(n, _ => c) }

  lemma BehavesNext(lim: Limits, run: seq<Op>, states: seq<State>, op: Op, s': State)
    requires Behaves(lim, run, states) && Next(lim, states[|run|], op, s') && op.Start() <= op.End()
    requires run != [] ==> run[|run| - 1].End() <= op.Start()
    ensures Behaves(lim, run + [op], states + [s'])
  {
    var run', states' := run + [op], states + [s'];
    forall i | 0 <= i < |run'| ensures Next(lim, states'[i], run'[i], states'[i + 1]) {
      if i < |run| {
        assert Next(lim, states[i], run[i], states[i + 1]);
      }
    }
  }

  lemma LogNext(lim: Limits, run: seq<Op>, states: seq<State>, op: Op, s': State)
    requires |states| == |run| + 1
    ensures Log(lim, run + [op], states + [s']) == Log(lim, run, states) + Entries(lim, states[|run|], op)
  {
    assert (run + [op])[..|run|] == run;
    LogOfPrefix(lim, run, states, [s']);
  }

  /** The last state of a run that stands at time zero, and its failures. */
  ghost predicate Stands(lim: Limits, run: seq<Op>, states: seq<State>, s: State, log: seq<Entry>) {
    && Behaves(lim, run, states) && states[|run|] == s && log == Log(lim, run, states)
    && (run != [] ==> run[|run| - 1].End() == 0.0)
  }

  lemma {:induction false} ManyBegin(lim: Limits, c: Client, n: nat) returns (run: seq<Op>, states: seq<State>)
    requires lim.maxGlobal > 0 && lim.maxPerIp > 0 && lim.maxPerUser > 0
    ensures Stands(lim, run, states, State(map[], Crowd(c, n)), [])
  {
    if n == 0 {
      run, states := [], [State(map[], [])];
    } else {
      run, states := ManyBegin(lim, c, n - 1);
      var op, s' := Begin(c, 0.0), State(map[], Crowd(c, n));
      assert Crowd(c, n) == Crowd(c, n - 1) + [c];
      BehavesNext(lim, run, states, op, s');
      LogNext(lim, run, states, op, s');
      run, states := run + [op], states + [s'];
    }
  }

  /** One of the waiting changes fails; the table is far from full. */
  lemma OneSettles(lim: Limits, c: Client, n: nat, t: Table)
    requires t.Keys <= Touched(c.ip, c.user)
    ensures var t' := PushAll(t, c.ip, c.user, 0.0);
      t'.Keys <= Touched(c.ip, c.user) &&
      Next(lim, State(t, Crowd(c, n + 1)), Settle(0, true, 0.0), State(t', Crowd(c, n)))
  {
    var t' := PushAll(t, c.ip, c.user, 0.0);
    assert Without(Crowd(c, n + 1), 0) == Crowd(c, n);
    assert |t'| <= MAX_KEYS by {
      SubsetIsSmaller(t'.Keys, {Everyone, Address(c.ip), Account(c.user)});
    }
  }

  ghost predicate AllCount(lim: Limits, log: seq<Entry>, c: Client, k: nat) {
    forall key :: key in Touched(c.ip, c.user) ==> Count(History(log, key), lim.window, 0.0) == k
  }

  lemma OneMoreCounts(lim: Limits, log: seq<Entry>, c: Client, k: nat)
    requires lim.window > 0.0 && AllCount(lim, log, c, k)
    ensures AllCount(lim, log + [Failed(0.0, c.ip, c.user)], c, k + 1)
  {
    forall key | key in Touched(c.ip, c.user)
      ensures Count(History(log + [Failed(0.0, c.ip, c.user)], key), lim.window, 0.0) == k + 1
    {
      HistoryAppend(log, Failed(0.0, c.ip, c.user), key);
      CountSnoc(History(log, key), Mark(0.0, 1), lim.window, 0.0);
    }
  }

  lemma {:induction false} ManySettle(lim: Limits, c: Client, n: nat, k: nat)
    returns (run: seq<Op>, states: seq<State>, t: Table, log: seq<Entry>)
    requires lim.window > 0.0 && lim.maxGlobal > 0 && lim.maxPerIp > 0 && lim.maxPerUser > 0
    requires k <= n
    ensures Stands(lim, run, states, State(t, Crowd(c, n - k)), log)
    ensures t.Keys <= Touched(c.ip, c.user) && AllCount(lim, log, c, k)
  {
    if k == 0 {
      run, states := ManyBegin(lim, c, n);
      t, log := map[], [];
      forall key ensures Count(History(log, key), lim.window, 0.0) == 0 {
        assert Units(History(log, key)) == [];
      }
    } else {
      run, states, t, log := ManySettle(lim, c, n, k - 1);
      OneSettles(lim, c, n - k, t);
      OneMoreCounts(lim, log, c, k - 1);
      var op := Settle(0, true, 0.0);
      t := PushAll(t, c.ip, c.user, 0.0);
      BehavesNext(lim, run, states, op, State(t, Crowd(c, n - k)));
      LogNext(lim, run, states, op, State(t, Crowd(c, n - k)));
      log := log + [Failed(0.0, c.ip, c.user)];
      run, states := run + [op], states + [State(t, Crowd(c, n - k))];
    }
  }

  /** Password changes that are checked before any of them fails: any number of
      failures in one window, of everyone, of the address and of the account. */
  lemma PendingChecksOvershoot(lim: Limits, c: Client, n: nat) returns (run: seq<Op>, states: seq<State>)
    requires lim.window > 0.0 && lim.maxGlobal > 0 && lim.maxPerIp > 0 && lim.maxPerUser > 0
    ensures Behaves(lim, run, states)
    ensures forall key :: key in Touched(c.ip, c.user) ==> Count(History(Log(lim, run, states), key), lim.window, 0.0) == n
  {
    var t, log;
    run, states, t, log := ManySettle(lim, c, n, n);
  }

  lemma SomeOtherKey(t: Table)
    requires |t| > 1
    ensures exists k :: k in t && k != Everyone
  {
    if forall k :: k in t ==> k == Everyone {
      SubsetIsSmaller(t.Keys, {Everyone});
    }
  }

  class LoginThrottle {
    const limits: Limits
    var events: Table

    constructor (limits: Limits)
      ensures this.limits == limits && events == map[]
    {
      this.limits, events := limits, map[];
    }

    method Prune(key: Key, now: real)
      modifies this
      ensures events == Trim(old(events), key, now - limits.window)
    {
      if key !in events {
        return;
      }
      var queue := events[key];
      while queue != [] && queue[0].at <= now - limits.window
        invariant Since(queue, now - limits.window) == Since(events[key], now - limits.window)
      {
        queue := queue[1..];
      }
      events := events[key := queue];
    }

    method CheckTransportWindows(ip: string, now: real) returns (throttled: bool)
      modifies this
      ensures events == TrimWindows(old(events), limits, ip, now)
      ensures throttled <==> WindowsFull(events, limits, ip)
    {
      Prune(Everyone, now);
      Prune(Address(ip), now);
      throttled := |Queue(events, Everyone)| >= limits.maxGlobal || |Queue(events, Address(ip))| >= limits.maxPerIp;
    }

    method Check(ip: string, user: string, now: real) returns (throttled: bool)
      modifies this
      ensures events == TrimAll(old(events), limits, ip, user, now)
      ensures throttled <==> Blocked(events, limits, ip, user)
    {
      throttled := CheckTransportWindows(ip, now);
      Prune(Account(user), now);
      throttled := throttled || (user != "" && |Queue(events, Account(user))| >= limits.maxPerUser);
    }

    method OldestKey() returns (key: Key)
      requires exists k :: k in events && k != Everyone
      ensures key in events && key != Everyone
      ensures forall k :: k in events && k != Everyone ==> LastFailure(events, key) <= LastFailure(events, k)
    {
      key :| key in events && key != Everyone;
      var others := events.Keys - {Everyone, key};
      while others != {}
        invariant others <= events.Keys - {Everyone}
        invariant key in events && key != Everyone
        invariant forall k :: k in events && k != Everyone && k !in others ==> LastFailure(events, key) <= LastFailure(events, k)
        decreases others
      {
        var k :| k in others;
        if LastFailure(events, k) < LastFailure(events, key) {
          key := k;
        }
        others := others - {k};
      }
    }

    /** The second phase: deletes the least recently failed keys until the
        table is at its maximum. */
    method DropOldest() returns (ghost dropped: set<Key>)
      requires |events| > MAX_KEYS
      modifies this
      ensures Oldest(old(events), dropped, |old(events)| - MAX_KEYS) && events == old(events) - dropped
    {
      ghost var rest := events;
      dropped := {};
      assert rest - dropped == rest;
      while |events| > MAX_KEYS
        invariant dropped <= rest.Keys - {Everyone} && events == rest - dropped
        invariant |dropped| + |events| == |rest| && |events| >= MAX_KEYS
        invariant forall d, k :: d in dropped && k in events && k != Everyone ==> LastFailure(rest, d) <= LastFailure(rest, k)
      {
        SomeOtherKey(events);
        var key := OldestKey();
        assert forall k :: k in events ==> LastFailure(events, k) == LastFailure(rest, k);
        assert (events - {key}).Keys == events.Keys - {key};
        assert events - {key} == rest - (dropped + {key});
        events, dropped := events - {key}, dropped + {key};
      }
    }

    method EvictOverCapacity(now: real)
      modifies this
      ensures Evicted(old(events), events, now - limits.window)
    {
      if |events| <= MAX_KEYS {
        return;
      }
      events := DropStale(events, now - limits.window);
      if |events| > MAX_KEYS {
        ghost var dropped := DropOldest();
      }
    }

    method RecordFailure(ip: string, user: string, now: real)
      modifies this
      ensures Evicted(PushAll(old(events), ip, user, now), events, now - limits.window)
    {
      events := Push(events, Everyone, now);
      events := Push(events, Address(ip), now);
      if user != "" {
        events := Push(events, Account(user), now);
      }
      EvictOverCapacity(now);
    }

    method RecordSuccess(user: string)
      modifies this
      ensures events == Forgotten(old(events), user)
    {
      if user != "" {
        events := events - {Account(user)};
      }
    }

    /** A wrong password: check, then record, with no suspension in between;
        the step `Fail` of a run. */
    method WrongPassword(ip: string, user: string, checkedAt: real, recordedAt: real) returns (throttled: bool)
      modifies this
      ensures FailStep(limits, TrimAll(old(events), limits, ip, user, checkedAt), ip, user, recordedAt, events)
      ensures throttled <==> Blocked(TrimAll(old(events), limits, ip, user, checkedAt), limits, ip, user)
    {
      throttled := Check(ip, user, checkedAt);
      if !throttled {
        RecordFailure(ip, user, recordedAt);
      }
    }
  }
}
