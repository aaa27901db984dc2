/** Time-stamped marks, the load of a window that ends at a given moment, and
    the two facts every sliding-window limiter rests on: forgetting marks that
    are already out of the window changes no later reading, and a bound that is
    checked whenever a mark is added holds for every window position. */
module SlidingWindow {

  datatype Mark = Mark(at: real, cost: nat)

  ghost predicate Sorted(s: seq<Mark>) {
    forall i, j :: 0 <= i < j < |s| ==> s[i].at <= s[j].at
  }

  ghost predicate NoneAfter(s: seq<Mark>, now: real) {
    forall i :: 0 <= i < |s| ==> s[i].at <= now
  }

  /** Total cost of the marks in the half-open window (t - width, t]. */
  function Load(s: seq<Mark>, width: real, t: real): nat {
    if s == [] then 0
    else
      var last := s[|s| - 1];
      Load(s[..|s| - 1], width, t) + if t - width < last.at <= t then last.cost else 0
  }

  /** The same marks, each counting for one. */
  function Units(s: seq<Mark>): (u: seq<Mark>)
    ensures |u| == |s|
  {
    seq(|s|, i requires 0 <= i < |s| => Mark(s[i].at, 1))
  }

  /** Number of marks in (t - width, t]. */
  function Count(s: seq<Mark>, width: real, t: real): nat {
    Load(Units(s), width, t)
  }

  function Total(s: seq<Mark>): nat {
    if s == [] then 0 else Total(s[..|s| - 1]) + s[|s| - 1].cost
  }

  /** Every window position carries at most `cap`. */
  ghost predicate Capped(s: seq<Mark>, width: real, cap: nat) {
    forall t: real :: Load(s, width, t) <= cap
  }

  /** `popleft` while the oldest mark is at or before the cutoff. */
  function Since(s: seq<Mark>, cutoff: real): (r: seq<Mark>)
    ensures r != [] ==> cutoff < r[0].at
  {
    if s != [] && s[0].at <= cutoff then Since(s[1..], cutoff) else s
  }

  /** `q` is what is left of `s` after dropping marks at or before the cutoff. */
  ghost predicate Retains(q: seq<Mark>, s: seq<Mark>, cutoff: real) {
    && |q| <= |s|
    && q == s[|s| - |q|..]
    && forall i :: 0 <= i < |s| - |q| ==> s[i].at <= cutoff
  }

  lemma {:induction false} SinceRetains(q: seq<Mark>, s: seq<Mark>, before: real, cutoff: real)
    requires Retains(q, s, before) && before <= cutoff
    ensures Retains(Since(q, cutoff), s, cutoff)
  {
    if q != [] && q[0].at <= cutoff {
      assert q[1..] == s[|s| - |q| + 1..];
      assert Retains(q[1..], s, cutoff);
      SinceRetains(q[1..], s, cutoff, cutoff);
    }
  }

  lemma RetainsAppend(q: seq<Mark>, s: seq<Mark>, m: Mark, cutoff: real)
    requires Retains(q, s, cutoff)
    ensures Retains(q + [m], s + [m], cutoff)
  {
  }

  /** What a limiter that last read the clock at `now` knows: its queue is the
      history without marks that are out of every later window. */
  ghost predicate Tracked(q: seq<Mark>, history: seq<Mark>, width: real, now: real) {
    Sorted(history) && NoneAfter(history, now) && Retains(q, history, now - width)
  }

  lemma SinceTracked(q: seq<Mark>, history: seq<Mark>, width: real, before: real, now: real)
    requires Tracked(q, history, width, before) && before <= now
    ensures Tracked(q, history, width, now)
    ensures Tracked(Since(q, now - width), history, width, now)
  {
    SinceRetains(q, history, before - width, now - width);
  }

  lemma PushTracked(q: seq<Mark>, history: seq<Mark>, width: real, before: real, m: Mark)
    requires Tracked(q, history, width, before) && before <= m.at
    ensures Tracked(q + [m], history + [m], width, m.at)
  {
    RetainsAppend(q, history, m, m.at - width);
  }

  /** `q` is the newest part of a history that is past. */
  ghost predicate IsTail(q: seq<Mark>, history: seq<Mark>, now: real) {
    Sorted(history) && NoneAfter(history, now) && |q| <= |history| && q == history[|history| - |q|..]
  }

  lemma TailAppend(q: seq<Mark>, history: seq<Mark>, before: real, m: Mark)
    requires IsTail(q, history, before) && before <= m.at
    ensures IsTail(q + [m], history + [m], m.at)
  {
  }

  lemma {:induction false} SinceTail(q: seq<Mark>, history: seq<Mark>, now: real, cutoff: real)
    requires IsTail(q, history, now)
    ensures IsTail(Since(q, cutoff), history, now)
  {
    if q != [] && q[0].at <= cutoff {
      assert q[1..] == history[|history| - |q| + 1..];
      SinceTail(q[1..], history, now, cutoff);
    }
  }

  lemma NewestIsLast(q: seq<Mark>, history: seq<Mark>, now: real)
    requires IsTail(q, history, now) && q != []
    ensures history != [] && history[|history| - 1] == q[|q| - 1]
  {
  }

  /** Dropping marks at or before an earlier cutoff loses nothing either. */
  lemma {:induction false} SinceKeeps(q: seq<Mark>, s: seq<Mark>, cutoff: real, later: real)
    requires Retains(q, s, later) && cutoff <= later
    ensures Retains(Since(q, cutoff), s, later)
  {
    if q != [] && q[0].at <= cutoff {
      assert q[1..] == s[|s| - |q| + 1..];
      assert Retains(q[1..], s, later);
      SinceKeeps(q[1..], s, cutoff, later);
    }
  }

  lemma RetainsLater(q: seq<Mark>, s: seq<Mark>, cutoff: real, later: real)
    requires Retains(q, s, cutoff) && cutoff <= later
    ensures Retains(q, s, later)
  {
  }

  /** A queue whose newest mark is out of the window may be forgotten. */
  lemma StaleIsForgettable(q: seq<Mark>, history: seq<Mark>, cutoff: real)
    requires Sorted(history) && Retains(q, history, cutoff) && (q == [] || q[|q| - 1].at <= cutoff)
    ensures Retains([], history, cutoff)
  {
    forall i | 0 <= i < |history| ensures history[i].at <= cutoff {
      if |history| - |q| <= i {
        assert history[|history| - 1] == q[|q| - 1];
      }
    }
  }

  lemma {:induction false} OutOfWindow(s: seq<Mark>, width: real, t: real)
    requires NoneAfter(s, t - width)
    ensures Load(s, width, t) == 0
  {
    if s != [] {
      OutOfWindow(s[..|s| - 1], width, t);
    }
  }

  lemma {:induction false} AllInWindow(s: seq<Mark>, width: real, t: real)
    requires forall i :: 0 <= i < |s| ==> t - width < s[i].at <= t
    ensures Load(s, width, t) == Total(s)
  {
    if s != [] {
      AllInWindow(s[..|s| - 1], width, t);
    }
  }

  lemma {:induction false} LoadConcat(a: seq<Mark>, b: seq<Mark>, width: real, t: real)
    ensures Load(a + b, width, t) == Load(a, width, t) + Load(b, width, t)
  {
    if b == [] {
      assert a + b == a;
    } else {
      LoadConcat(a, b[..|b| - 1], width, t);
      assert (a + b)[..|a + b| - 1] == a + b[..|b| - 1];
    }
  }

  /** The retained queue, freshly pruned, adds up to the load of the whole
      history in the window that ends now. */
  lemma {:induction false} PrunedTotal(q: seq<Mark>, s: seq<Mark>, width: real, now: real)
    requires Sorted(s) && NoneAfter(s, now)
    requires Retains(q, s, now - width)
    requires q != [] ==> now - width < q[0].at
    ensures Load(s, width, now) == Total(q)
  {
    var n := |s| - |q|;
    assert s == s[..n] + q;
    LoadConcat(s[..n], q, width, now);
    OutOfWindow(s[..n], width, now);
    forall i | 0 <= i < |q| ensures now - width < q[i].at <= now {
      assert q[0] == s[n] && q[i] == s[n + i];
    }
    AllInWindow(q, width, now);
  }

  lemma {:induction false} TotalOfUnits(s: seq<Mark>)
    ensures Total(Units(s)) == |s|
  {
    if s != [] {
      TotalOfUnits(s[..|s| - 1]);
      assert Units(s)[..|s| - 1] == Units(s[..|s| - 1]);
    }
  }

  /** As PrunedTotal, for the number of marks. */
  lemma PrunedCount(q: seq<Mark>, s: seq<Mark>, width: real, now: real)
    requires Sorted(s) && NoneAfter(s, now)
    requires Retains(q, s, now - width)
    requires q != [] ==> now - width < q[0].at
    ensures Count(s, width, now) == |q|
  {
    assert Units(q) == Units(s)[|s| - |q|..];
    PrunedTotal(Units(q), Units(s), width, now);
    TotalOfUnits(q);
  }

  lemma UnitsAppend(s: seq<Mark>, m: Mark)
    ensures Units(s + [m]) == Units(s) + [Mark(m.at, 1)]
  {
  }

  lemma {:induction false} LaterWindowHasLess(s: seq<Mark>, width: real, now: real, t: real)
    requires NoneAfter(s, now) && now <= t
    ensures Load(s, width, t) <= Load(s, width, now)
  {
    if s != [] {
      LaterWindowHasLess(s[..|s| - 1], width, now, t);
    }
  }

  /** A cap that is re-checked for the window ending at each new mark is a cap
      on every window. */
  lemma AppendCapped(s: seq<Mark>, m: Mark, width: real, cap: nat)
    requires NoneAfter(s, m.at) && Capped(s, width, cap)
    requires Load(s, width, m.at) + m.cost <= cap
    ensures Capped(s + [m], width, cap)
  {
    forall t: real ensures Load(s + [m], width, t) <= cap {
      LoadConcat(s, [m], width, t);
      assert Load([m], width, t) == if t - width < m.at <= t then m.cost else 0 by {
        assert [m][..0] == [];
      }
      if m.at <= t {
        LaterWindowHasLess(s, width, m.at, t);
      } else {
        assert Load(s, width, t) <= cap;
      }
    }
  }
}
