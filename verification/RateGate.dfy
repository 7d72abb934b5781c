/** The rate limit of background backfills: a fixed one-second window that admits four. */
module RateGate {
  import opened Common

  /** Clock readings are in nanoseconds. */
  const SECOND := 1_000_000_000
  const LIMIT := 4

  /** Start of the current window, absent before the first call, and the grants given in it. */
  datatype Gate = Gate(win: Option<int>, used: nat)

  const START := Gate(None, 0)

  function Admit(g: Gate, now: int): (Gate, bool) {
    var g' := if g.win == None || now - g.win.value >= SECOND then Gate(Some(now), 0) else g;
    if g'.used >= LIMIT then (g', false) else (g'.(used := g'.used + 1), true)
  }

  /** The package variables of the source. */
  class Limiter {
    var win: Option<int>
    var used: nat

    function View(): Gate
      reads this
    {
      Gate(win, used)
    }

    constructor ()
      ensures View() == START
    {
      win, used := None, 0;
    }

    method BackfillGate(now: int) returns (granted: bool)
      modifies this
      ensures (View(), granted) == Admit(old(View()), now)
    {
      if win == None || now - win.value >= SECOND {
        win, used := Some(now), 0;
      }
      if used >= LIMIT {
        return false;
      }
      used := used + 1;
      granted := true;
    }
  }

  // ---------- runs ----------

  /** The gate after the calls at the given times. */
  function After(times: seq<int>): Gate {
    if times == [] then START else Admit(After(times[..|times| - 1]), times[|times| - 1]).0
  }

  predicate LastGranted(times: seq<int>)
    requires times != []
  {
    Admit(After(times[..|times| - 1]), times[|times| - 1]).1
  }

  /** Grants at a time in [lo, hi). */
  function Grants(times: seq<int>, lo: int, hi: int): nat {
    if times == [] then 0
    else
      Grants(times[..|times| - 1], lo, hi)
      + if lo <= times[|times| - 1] < hi && LastGranted(times) then 1 else 0
  }

  /** Those of them given in a window that started before `lo`. */
  function EarlyGrants(times: seq<int>, lo: int, hi: int): nat {
    if times == [] then 0
    else
      EarlyGrants(times[..|times| - 1], lo, hi)
      + if lo <= times[|times| - 1] < hi && LastGranted(times) && After(times).win.GetOr(lo) < lo then 1 else 0
  }

  ghost predicate Clock(times: seq<int>) {
    forall i, j | 0 <= i < j < |times| :: times[i] <= times[j]
  }

  /** A window never grants more than four, and no call comes before its window. */
  lemma {:induction false} WindowBound(times: seq<int>)
    requires Clock(times)
    ensures After(times).used <= LIMIT
    ensures times != [] ==> After(times).win.Some? && After(times).win.value <= times[|times| - 1]
    ensures times == [] ==> After(times) == START
  {
    if times != [] {
      WindowBound(times[..|times| - 1]);
    }
  }

  /** The window of the last call: it started with call `k`, the first one a second or more after the start of
    * the window before; less than a second has passed since; and its first four calls are the granted ones. */
  lemma {:induction false} WindowExactly(times: seq<int>) returns (k: nat)
    requires times != [] && Clock(times)
    ensures k < |times| && After(times).win == Some(times[k]) && times[|times| - 1] < times[k] + 1_000_000_000
    ensures k > 0 ==> After(times[..k]).win.Some? && times[k] >= After(times[..k]).win.value + 1_000_000_000
    ensures LastGranted(times) <==> |times| - k <= 4
    ensures After(times).used == if |times| - k <= 4 then |times| - k else 4
  {
    var n := |times| - 1;
    var init := times[..n];
    if n == 0 {
      k := 0;
    } else {
      k := WindowExactly(init);
      assert init[k] == times[k] && init[..k] == times[..k] && times[..n] == init;
      if times[n] >= times[k] + SECOND {
        k := n;
      }
    }
  }

  /** Two consecutive windows start at least a second apart. */
  lemma WindowsApart(times: seq<int>)
    requires |times| > 1 && Clock(times)
    ensures var w, w' := After(times[..|times| - 1]).win, After(times).win;
            w.Some? && w'.Some? && (w == w' || w'.value >= w.value + SECOND)
  {
    WindowBound(times[..|times| - 1]);
  }

  /** Invariant of a run seen from an interval of one second: early and late grants are bounded
    * separately, because windows start at least a second apart, and the first grant of an early
    * window lies before the interval. */
  lemma {:induction false} EarlyAndLate(times: seq<int>, lo: int)
    requires Clock(times)
    ensures var early, all, g := EarlyGrants(times, lo, lo + SECOND), Grants(times, lo, lo + SECOND), After(times);
            && early <= LIMIT - 1 && 0 <= all - early <= LIMIT
            && (g.win == None ==> all == 0)
            && (g.win.Some? ==> g.used >= 1)
            && (g.win.Some? && g.win.value < lo ==> all == early && early <= g.used - 1)
            && (g.win.Some? && g.win.value <= lo - SECOND ==> early == 0)
            && (g.win.Some? && lo <= g.win.value < lo + SECOND ==> all - early <= g.used)
  {
    if times != [] {
      EarlyAndLate(times[..|times| - 1], lo);
      WindowBound(times[..|times| - 1]);
      WindowBound(times);
    }
  }

  /** At most seven backfills start in any second, where the documentation promises four. */
  lemma SevenPerSecond(times: seq<int>, lo: int)
    requires Clock(times)
    ensures Grants(times, lo, lo + 1_000_000_000) <= 7
  {
    EarlyAndLate(times, lo);
  }

  lemma Append(times: seq<int>, now: int, lo: int)
    ensures After(times + [now]) == Admit(After(times), now).0
    ensures Grants(times + [now], lo, lo + SECOND)
         == Grants(times, lo, lo + SECOND) + if lo <= now < lo + SECOND && Admit(After(times), now).1 then 1 else 0
  {
  }

  // ---------- exactly when four per second hold ----------

  /** Readable from the gate when a second begins: no window is open, or the open one ends by then, or it
    * has nothing left to grant. */
  predicate Settled(g: Gate, lo: int) {
    g.win == None || g.win.value + SECOND <= lo || g.used == LIMIT
  }

  /** What the gate can still grant in its open window. */
  function Left(g: Gate, lo: int): int {
    if Settled(g, lo) then 0 else LIMIT - g.used
  }

  /** Calls from `lo` on. */
  ghost predicate Later(later: seq<int>, lo: int) {
    Clock(later) && forall i | 0 <= i < |later| :: later[i] >= lo
  }

  /** Calls before `lo`. */
  ghost predicate Earlier(before: seq<int>, lo: int) {
    Clock(before) && forall i | 0 <= i < |before| :: before[i] < lo
  }

  /** The gate after further calls, and how many of them were granted in the second that begins at `lo`. */
  function Onward(g: Gate, later: seq<int>, lo: int): (Gate, nat) {
    if later == [] then (g, 0)
    else
      var now := later[|later| - 1];
      var (h, n) := Onward(g, later[..|later| - 1], lo);
      var (h', granted) := Admit(h, now);
      (h', n + if lo <= now < lo + SECOND && granted then 1 else 0)
  }

  /** A run cut at `lo`: the gate carries over, and all grants of the second lie behind the cut. */
  lemma {:induction false} CutAt(before: seq<int>, later: seq<int>, lo: int)
    requires Earlier(before, lo)
    ensures Onward(After(before), later, lo) == (After(before + later), Grants(before + later, lo, lo + SECOND))
  {
    if later == [] {
      assert before + later == before;
      NothingBefore(before, lo);
    } else {
      var init, now := later[..|later| - 1], later[|later| - 1];
      assert before + later == (before + init) + [now];
      CutAt(before, init, lo);
      Append(before + init, now, lo);
    }
  }

  lemma {:induction false} NothingBefore(before: seq<int>, lo: int)
    requires Earlier(before, lo)
    ensures Grants(before, lo, lo + SECOND) == 0
    ensures After(before).used <= LIMIT && (After(before).win.Some? ==> After(before).win.value < lo)
  {
    if before != [] {
      NothingBefore(before[..|before| - 1], lo);
    }
  }

  /** While the old window lasts its remaining grants are used up; the next window gives at most four grants
    * of the second, and no third one starts inside it. */
  lemma {:induction false} OnwardBound(g: Gate, later: seq<int>, lo: int)
    requires g.used <= LIMIT && (g.win.Some? ==> g.win.value < lo) && Later(later, lo)
    ensures var (h, n) := Onward(g, later, lo);
            && h.used <= LIMIT && n <= LIMIT + Left(g, lo)
            && (later != [] ==> h.win.Some? && h.win.value <= later[|later| - 1])
            && (if h.win == g.win then
                  (if Settled(g, lo) then n == 0 && h == g else n == h.used - g.used)
                  && (later != [] ==> later[|later| - 1] < g.win.value + SECOND)
                else h.win.Some? && h.win.value >= lo && (h.win.value < lo + SECOND ==> n <= h.used + Left(g, lo)))
  {
    if later != [] {
      OnwardBound(g, later[..|later| - 1], lo);
    }
  }

  /** The same call time `n` times over. */
  function Burst(now: int, n: nat): seq<int> {
    seq(n, i => now)
  }

  lemma OnwardStep(g: Gate, later: seq<int>, now: int, lo: int)
    ensures var (h, n), (h', granted) := Onward(g, later, lo), Admit(Onward(g, later, lo).0, now);
            Onward(g, later + [now], lo) == (h', n + if lo <= now < lo + SECOND && granted then 1 else 0)
  {
    assert (later + [now])[..|later|] == later;
  }

  lemma BurstSplit(later: seq<int>, now: int, n: nat)
    requires n > 0
    ensures later + Burst(now, n) == (later + [now]) + Burst(now, n - 1)
    ensures later + Burst(now, 0) == later
  {
  }

  /** One more call in an open window with something left. */
  lemma OneGrant(g: Gate, later: seq<int>, now: int, lo: int, h: Gate, k: nat)
    requires Onward(g, later, lo) == (h, k) && lo <= now < lo + SECOND
    requires h.win.Some? && now - h.win.value < SECOND && h.used < LIMIT
    ensures Onward(g, later + [now], lo) == (h.(used := h.used + 1), k + 1)
  {
    OnwardStep(g, later, now, lo);
  }

  /** A burst in an open window takes what it asks for, if that is left. */
  lemma {:induction false} BurstGrants(g: Gate, later: seq<int>, now: int, n: nat, lo: int, h: Gate, k: nat)
    requires Onward(g, later, lo) == (h, k) && lo <= now < lo + SECOND
    requires h.win.Some? && now - h.win.value < SECOND && h.used + n <= LIMIT
    ensures Onward(g, later + Burst(now, n), lo) == (h.(used := h.used + n), k + n)
    decreases n
  {
    if n == 0 {
      BurstSplit(later, now, 1);
    } else {
      BurstSplit(later, now, n);
      OneGrant(g, later, now, lo, h, k);
      BurstGrants(g, later + [now], now, n - 1, lo, h.(used := h.used + 1), k + 1);
    }
  }

  /** A burst at the start of a new window. */
  lemma NewWindow(g: Gate, later: seq<int>, now: int, n: nat, lo: int, h: Gate, k: nat)
    requires Onward(g, later, lo) == (h, k) && lo <= now < lo + SECOND
    requires h.win.Some? && now - h.win.value >= SECOND && 0 < n <= LIMIT
    ensures Onward(g, later + Burst(now, n), lo) == (Gate(Some(now), n), k + n)
  {
    OnwardStep(g, later, now, lo);
    BurstGrants(g, later + [now], now, n - 1, lo, Gate(Some(now), 1), k + 1);
    BurstSplit(later, now, n);
  }

  /** A burst first of all. */
  lemma FirstBurst(g: Gate, now: int, n: nat, lo: int)
    requires lo <= now < lo + SECOND && g.win.Some? && now - g.win.value < SECOND && g.used + n <= LIMIT
    ensures Onward(g, Burst(now, n), lo) == (g.(used := g.used + n), n)
  {
    BurstGrants(g, [], now, n, lo, g, 0);
    assert [] + Burst(now, n) == Burst(now, n);
  }

  lemma TwoBursts(a: int, m: nat, b: int, n: nat, lo: int)
    requires lo <= a <= b
    ensures Later(Burst(a, m) + Burst(b, n), lo)
  {
    var s := Burst(a, m) + Burst(b, n);
    assert forall i | 0 <= i < |s| :: s[i] == if i < m then a else b;
  }

  /** The worst continuation: take what is left at once, then four more as soon as the window ends. */
  lemma WorstGrants(g: Gate, lo: int) returns (later: seq<int>)
    requires !Settled(g, lo) && g.used <= LIMIT && g.win.value < lo
    ensures Later(later, lo) && Onward(g, later, lo).1 == LIMIT + Left(g, lo)
  {
    var left, next := LIMIT - g.used, g.win.value + SECOND;
    later := Burst(lo, left) + Burst(next, LIMIT);
    TwoBursts(lo, left, next, LIMIT, lo);
    FirstBurst(g, lo, left, lo);
    NewWindow(g, Burst(lo, left), next, LIMIT, lo, g.(used := LIMIT), left);
  }

  /** The documented bound holds for a second, whatever calls come, exactly when the gate is settled as it
    * begins; otherwise the worst case is four more than the open window has left. */
  lemma FourExactly(before: seq<int>, lo: int)
    requires Earlier(before, lo)
    ensures (forall later | Later(later, lo) :: Grants(before + later, lo, lo + SECOND) <= 4) <==>
            Settled(After(before), lo)
    ensures forall later | Later(later, lo) ::
              Grants(before + later, lo, lo + SECOND) <= LIMIT + Left(After(before), lo)
    ensures !Settled(After(before), lo) ==>
              exists later | Later(later, lo) ::
                Grants(before + later, lo, lo + SECOND) == LIMIT + Left(After(before), lo)
  {
    var g := After(before);
    NothingBefore(before, lo);
    forall later | Later(later, lo) ensures Grants(before + later, lo, lo + SECOND) <= LIMIT + Left(g, lo) {
      CutAt(before, later, lo);
      OnwardBound(g, later, lo);
    }
    if !Settled(g, lo) {
      var later := WorstGrants(g, lo);
      CutAt(before, later, lo);
    }
  }

  /** A run with seven grants in the second that begins at `lo`. */
  ghost predicate Crowded(times: seq<int>, lo: int) {
    Clock(times) && Grants(times, lo, lo + SECOND) == 7
  }

  /** Seven is attained, as the worst continuation of a window with a single grant. */
  lemma SevenIsAttained()
    ensures exists times, lo :: Crowded(times, lo)
  {
    var g := Gate(Some(0), 1);
    SingleGrant();
    var later := WorstGrants(g, 1);
    CutAt([0], later, 1);
    RunGrows([0], later);
    assert Crowded([0] + later, 1);
  }

  lemma RunGrows(before: seq<int>, later: seq<int>)
    requires Earlier(before, 1) && Later(later, 1)
    ensures Clock(before + later)
  {
  }

  lemma SingleGrant()
    ensures After([0]) == Gate(Some(0), 1)
  {
    Append([], 0, 1);
    assert [] + [0] == [0];
  }

  /** The documented limit does hold for a second that meets one window only: if the last window has
    * not started inside the interval, the interval holds at most four grants. */
  lemma FourPerWindow(times: seq<int>, lo: int)
    requires Clock(times) && After(times).win.Some? && After(times).win.value <= lo
    ensures Grants(times, lo, lo + SECOND) <= LIMIT
  {
    EarlyAndLate(times, lo);
    if After(times).win.value == lo {
      FreshWindow(times, lo);
    }
  }

  /** A window that starts with the interval leaves nothing to earlier windows. */
  lemma {:induction false} FreshWindow(times: seq<int>, lo: int)
    requires Clock(times) && After(times).win == Some(lo)
    ensures EarlyGrants(times, lo, lo + SECOND) == 0
  {
    var init := times[..|times| - 1];
    EarlyAndLate(init, lo);
    WindowBound(init);
    if After(init).win == Some(lo) {
      FreshWindow(init, lo);
    }
  }
}
