/**
  The dashboard's fixed-window limiter, and what it bounds over any sliding interval.

  A predicate compared with `true` is handled by the verifier as one fact, not as its
  conjuncts.
 */
module RateLimiter {

  /** A request that passed: the number of its window and the clock reading that decided it. */
  datatype Grant = Grant(window: nat, at: nat)

  /** The current window: when it started and how many requests it let through. */
  datatype Window = Window(started: nat, count: nat)

  /** The window starts so far and the requests let through, oldest first. */
  datatype History = History(starts: seq<nat>, grants: seq<Grant>)

  /** Windows start at least one window length apart. */
  ghost predicate Spaced(starts: seq<nat>, length: nat) {
    forall i, j | 0 <= i < j < |starts| :: ApartAt(starts, length, i, j)
  }

  predicate ApartAt(starts: seq<nat>, length: nat, i: nat, j: nat)
    requires i < |starts| && j < |starts|
  {
    starts[i] + length <= starts[j]
  }

  /** A request of a window passed after the previous window ran out and before its own did. */
  ghost predicate Within(g: Grant, starts: seq<nat>, length: nat) {
    && g.window < |starts|
    && (g.at < starts[g.window] + length || g.at <= starts[g.window])
    && (g.window > 0 ==> starts[g.window - 1] + length <= g.at)
  }

  function InWindow(gs: seq<Grant>, w: nat): nat {
    if gs == [] then 0 else InWindow(gs[..|gs| - 1], w) + if gs[|gs| - 1].window == w then 1 else 0
  }

  /** Requests let through in the half-open interval [from, from + length). */
  function InInterval(gs: seq<Grant>, from: nat, length: nat): nat {
    if gs == [] then 0
    else InInterval(gs[..|gs| - 1], from, length) + if from <= gs[|gs| - 1].at < from + length then 1 else 0
  }

  ghost predicate Lawful(h: History, length: nat, max: nat) {
    && Spaced(h.starts, length)
    && (forall g | g in h.grants :: Within(g, h.starts, length))
    && (forall w :: InWindow(h.grants, w) <= max)
  }

  lemma WindowsAppend(gs: seq<Grant>, g: Grant)
    ensures forall w :: InWindow(gs + [g], w) == InWindow(gs, w) + if g.window == w then 1 else 0
  {
    assert (gs + [g])[..|gs|] == gs;
  }

  lemma {:induction false} NoneInWindow(gs: seq<Grant>, w: nat)
    requires forall g | g in gs :: g.window < w
    ensures InWindow(gs, w) == 0
  {
    if gs == [] {
    } else {
      NoneInWindow(gs[..|gs| - 1], w);
    }
  }

  lemma StartsApart(starts: seq<nat>, length: nat)
    requires Spaced(starts, length)
    ensures forall i, j | 0 <= i < j < |starts| :: starts[i] + length <= starts[j]
  {
    forall i, j | 0 <= i < j < |starts| ensures starts[i] + length <= starts[j] {
      assert ApartAt(starts, length, i, j);
    }
  }

  /** Two requests in one interval of a window's length are at most one window apart. */
  lemma AdjacentWindows(h: History, length: nat, max: nat, g: Grant, g': Grant, from: nat)
    requires Lawful(h, length, max) && g in h.grants && g' in h.grants && g.window <= g'.window
    requires from <= g.at < from + length && from <= g'.at < from + length
    ensures g'.window <= g.window + 1
  {
    assert Within(g, h.starts, length) && Within(g', h.starts, length);
    StartsApart(h.starts, length);
  }

  lemma {:induction false} TwoWindowsCover(gs: seq<Grant>, from: nat, length: nat, w: nat)
    requires forall g | g in gs && from <= g.at < from + length :: w <= g.window <= w + 1
    ensures InInterval(gs, from, length) <= InWindow(gs, w) + InWindow(gs, w + 1)
  {
    if gs == [] {
    } else {
      assert gs[|gs| - 1] in gs;
      TwoWindowsCover(gs[..|gs| - 1], from, length, w);
    }
  }

  lemma {:induction false} EmptyInterval(gs: seq<Grant>, from: nat, length: nat)
    requires forall g | g in gs :: !(from <= g.at < from + length)
    ensures InInterval(gs, from, length) == 0
  {
    if gs == [] {
    } else {
      assert gs[|gs| - 1] in gs;
      EmptyInterval(gs[..|gs| - 1], from, length);
    }
  }

  /** The earliest window among the requests of an interval, when there are any. */
  lemma {:induction false} EarliestWindow(gs: seq<Grant>, from: nat, length: nat) returns (g: Grant)
    requires exists x :: x in gs && from <= x.at < from + length
    ensures g in gs && from <= g.at < from + length
    ensures forall x | x in gs && from <= x.at < from + length :: g.window <= x.window
  {
    var rest, last := gs[..|gs| - 1], gs[|gs| - 1];
    if exists x :: x in rest && from <= x.at < from + length {
      g := EarliestWindow(rest, from, length);
      if from <= last.at < from + length && last.window < g.window {
        g := last;
      }
    } else {
      g := last;
    }
  }

  /** The sliding bound: no interval of one window's length lets through more than twice the limit. */
  lemma SlidingBound(h: History, length: nat, max: nat, from: nat)
    requires Lawful(h, length, max)
    ensures InInterval(h.grants, from, length) <= 2 * max
  {
    if exists x :: x in h.grants && from <= x.at < from + length {
      var g := EarliestWindow(h.grants, from, length);
      forall x | x in h.grants && from <= x.at < from + length ensures x.window <= g.window + 1 {
        AdjacentWindows(h, length, max, g, x, from);
      }
      TwoWindowsCover(h.grants, from, length, g.window);
    } else {
      EmptyInterval(h.grants, from, length);
    }
  }

  /** Opening a window once the last one has run out. */
  lemma NextWindow(h: History, length: nat, max: nat, reset: nat)
    requires Lawful(h, length, max) && h.starts != [] && h.starts[|h.starts| - 1] + length <= reset
    ensures Lawful(h.(starts := h.starts + [reset]), length, max) && InWindow(h.grants, |h.starts|) == 0
  {
    var starts := h.starts + [reset];
    var n := |h.starts| - 1;
    forall i, j | 0 <= i < j < |starts| ensures ApartAt(starts, length, i, j) {
      if j <= n {
        assert ApartAt(h.starts, length, i, j);
      } else if i < n {
        assert ApartAt(h.starts, length, i, n);
      }
    }
    forall g | g in h.grants ensures Within(g, starts, length) && g.window < |h.starts| {
      assert Within(g, h.starts, length);
    }
    NoneInWindow(h.grants, |h.starts|);
  }

  /** Letting a request into a window that has room. */
  lemma GrantKeeps(h: History, length: nat, max: nat, g: Grant)
    requires Lawful(h, length, max) && Within(g, h.starts, length) && InWindow(h.grants, g.window) < max
    ensures Lawful(h.(grants := h.grants + [g]), length, max)
    ensures InWindow(h.grants + [g], g.window) == InWindow(h.grants, g.window) + 1
  {
    WindowsAppend(h.grants, g);
  }

  /** The limiter's fields agree with its history. */
  ghost predicate Agrees(h: History, length: nat, max: nat, started: nat, count: nat) {
    (&& max >= 1 && Lawful(h, length, max)
     && h.starts != [] && h.starts[|h.starts| - 1] == started
     && count == InWindow(h.grants, |h.starts| - 1)) == true
  }

  function Opened(h: History, reset: nat): History { h.(starts := h.starts + [reset]) }

  function Passed(h: History, check: nat): History
    requires h.starts != []
  {
    h.(grants := h.grants + [Grant(|h.starts| - 1, check)])
  }

  /** A request that passes, in the current window or in the one it opens. */
  function After(h: History, expired: bool, ok: bool, check: nat, reset: nat): History
    requires h.starts != []
  {
    var h' := if expired then Opened(h, reset) else h;
    if ok then Passed(h', check) else h'
  }

  lemma PassAgrees(h: History, length: nat, max: nat, started: nat, count: nat, check: nat)
    requires Agrees(h, length, max, started, count) && count < max && started <= check < started + length
    requires |h.starts| > 1 ==> h.starts[|h.starts| - 2] + length <= check
    ensures Agrees(Passed(h, check), length, max, started, count + 1)
  {
    GrantKeeps(h, length, max, Grant(|h.starts| - 1, check));
  }

  /** The window before the current one ran out before the current one started. */
  lemma PreviousRanOut(h: History, length: nat, max: nat, started: nat, count: nat)
    requires Agrees(h, length, max, started, count)
    ensures |h.starts| > 1 ==> h.starts[|h.starts| - 2] + length <= started
  {
    assert |h.starts| > 1 ==> ApartAt(h.starts, length, |h.starts| - 2, |h.starts| - 1);
  }

  lemma OpenAgrees(h: History, length: nat, max: nat, started: nat, count: nat, check: nat, reset: nat)
    requires Agrees(h, length, max, started, count) && started + length <= check <= reset
    ensures Agrees(Passed(Opened(h, reset), check), length, max, reset, 1)
  {
    NextWindow(h, length, max, reset);
    GrantKeeps(Opened(h, reset), length, max, Grant(|h.starts|, check));
  }

  class RateLimiter {
    var inner: Window
    const maxPerWindow: nat
    const window: nat
    /** What has happened, and the latest clock reading. */
    ghost var h: History
    ghost var clock: nat

    ghost predicate Valid()
      reads this
    {
      Agrees(h, window, maxPerWindow, inner.started, inner.count) && inner.started <= clock
    }

    constructor (maxPerWindow: nat, window: nat, now: nat)
      ensures Valid() && h == History([now], []) && clock == now && this.window == window
      ensures this.maxPerWindow == if maxPerWindow == 0 then 1 else maxPerWindow
    {
      inner, clock := Window(now, 0), now;
      this.maxPerWindow, this.window := if maxPerWindow == 0 then 1 else maxPerWindow, window;
      h := History([now], []);
    }

    /**
      One request. The clock is read once to check the window, and again when a new
      window starts.
     */
    method Allow(check: nat, reset: nat) returns (ok: bool)
      requires Valid() && clock <= check <= reset
      modifies this
      ensures Valid() && clock == reset && h.starts != []
      ensures inner == if check >= old(inner.started) + window then Window(reset, 1)
                       else if ok then old(inner).(count := old(inner.count) + 1) else old(inner)
      ensures var expired := check >= old(inner.started) + window;
              && h == After(old(h), expired, ok, check, reset)
              && (ok <==> expired || InWindow(old(h.grants), |h.starts| - 1) < maxPerWindow)
    {
      clock := reset;
      if check - inner.started >= window {
        OpenAgrees(h, window, maxPerWindow, inner.started, inner.count, check, reset);
        inner := Window(reset, 0);
        h := Opened(h, reset);
      } else if inner.count < maxPerWindow {
        PreviousRanOut(h, window, maxPerWindow, inner.started, inner.count);
        PassAgrees(h, window, maxPerWindow, inner.started, inner.count, check);
      }
      if inner.count >= maxPerWindow {
        return false;
      }
      inner := inner.(count := inner.count + 1);
      h := Passed(h, check);
      return true;
    }
  }

  // ---- the bound is attained ------------------------------------------------

  lemma {:induction false} AllInInterval(gs: seq<Grant>, from: nat, length: nat)
    requires forall g | g in gs :: from <= g.at < from + length
    ensures InInterval(gs, from, length) == |gs|
  {
    if gs == [] {
    } else {
      assert gs[|gs| - 1] in gs;
      AllInInterval(gs[..|gs| - 1], from, length);
    }
  }

  /** So many requests at one instant of the current window, which has room for them: all pass. */
  method AllowMany(l: RateLimiter, n: nat, t: nat)
    requires l.Valid() && l.clock <= t < l.inner.started + l.window && l.inner.count + n <= l.maxPerWindow
    modifies l
    ensures l.Valid() && l.clock <= t && l.inner.started == old(l.inner.started)
    ensures |l.h.grants| == |old(l.h.grants)| + n
    ensures forall g | g in l.h.grants :: g in old(l.h.grants) || g.at == t
  {
    for i := 0 to n
      invariant l.Valid() && l.clock <= t && l.inner.started == old(l.inner.started)
      invariant l.inner.count == old(l.inner.count) + i && |l.h.grants| == |old(l.h.grants)| + i
      invariant forall g | g in l.h.grants :: g in old(l.h.grants) || g.at == t
    {
      var ok := l.Allow(t, t);
    }
  }

  /**
    A full window's worth of requests just before a window ends, and again just after:
    twice the limit passes within one window's length.
   */
  method BoundIsAttained(max: nat, window: nat) returns (l: RateLimiter)
    requires max >= 1 && window >= 2
    ensures fresh(l) && l.Valid() && l.maxPerWindow == max && l.window == window
    ensures InInterval(l.h.grants, window - 1, window) == 2 * max
  {
    l := new RateLimiter(max, window, 0);
    AllowMany(l, max, window - 1);
    var ok := l.Allow(window, window);
    AllowMany(l, max - 1, window);
    AllInInterval(l.h.grants, window - 1, window);
  }
}
