/** The front end's render throttle: a state machine over calls, timer firings and flushes. */
module Throttle {
  import opened Common

  /** One invocation of the wrapped function; `index` numbers the call whose argument it shows. */
  datatype Shot<A> = Shot(arg: A, index: int, time: int, flushed: bool)

  /** The closure variables (`timer` holds the armed deadline), and the history: all arguments passed, all
    * invocations, and when the oldest call not yet shown was made. */
  datatype State<A> = State(last: int, timer: Option<int>, pending: Option<A>,
                            passed: seq<A>, shots: seq<Shot<A>>, since: int)

  datatype Event<A> = Call(arg: A, now: int) | Fire(now: int) | Flush(now: int)

  function Initial<A>(): State<A> {
    State(0, None, None, [], [], 0)
  }

  function Invoke<A>(s: State<A>, arg: A, now: int, flushed: bool): State<A>
  {
    s.(last := now, pending := None, shots := s.shots + [Shot(arg, |s.passed| - 1, now, flushed)])
  }

  function Release<A>(s: State<A>, now: int, flushed: bool): State<A>
  {
    var s' := s.(timer := None);
    if s.pending.Some? then Invoke(s', s.pending.value, now, flushed) else s'
  }

  function Step<A>(wait: int, s: State<A>, e: Event<A>): State<A>
  {
    match e
    case Call(arg, now) =>
      var since := if s.pending.None? then now else s.since;
      var s' := s.(pending := Some(arg), passed := s.passed + [arg], since := since);
      var remaining := wait - (now - s.last);
      if remaining <= 0 then Invoke(s'.(timer := None), arg, now, false)
      else if s.timer.None? then s'.(timer := Some(now + remaining))
      else s'
    case Fire(now) => Release(s, now, false)
    case Flush(now) => Release(s, now, true)
  }

  /** A timer fires when it is armed and not before its deadline. */
  predicate Enabled<A>(s: State<A>, e: Event<A>) {
    e.Fire? ==> s.timer.Some? && e.now >= s.timer.value
  }

  // ---------- the object ----------

  class Throttled<A> {
    const wait: int
    var last: int
    var timer: Option<int>
    var pending: Option<A>
    ghost var passed: seq<A>
    ghost var shots: seq<Shot<A>>
    ghost var since: int

    constructor (wait: int)
      ensures this.wait == wait && View() == Initial()
    {
      this.wait := wait;
      last, timer, pending, passed, shots, since := 0, None, None, [], [], 0;
    }

    ghost function View(): State<A>
      reads this
    {
      State(last, timer, pending, passed, shots, since)
    }

    /** Calls the wrapped function: the argument to render is returned to the caller. */
    method InvokeNow(args: A, now: int, ghost flushed: bool) returns (rendered: A)
      modifies this
      ensures View() == Invoke(old(View()), args, now, flushed) && rendered == args
    {
      last := now;
      pending := None;
      shots := shots + [Shot(args, |passed| - 1, now, flushed)];
      rendered := args;
    }

    method Throttle(args: A, now: int) returns (rendered: Option<A>)
      modifies this
      ensures View() == Step(wait, old(View()), Call(args, now))
      ensures rendered == if |shots| > |old(shots)| then Some(args) else None
      ensures rendered == if now >= old(last) + wait then Some(args) else None
      ensures rendered.None? ==> pending == Some(args) && last == old(last) && timer.Some?
    {
      rendered := None;
      if pending == None {
        since := now;
      }
      pending := Some(args);
      passed := passed + [args];
      var remaining := wait - (now - last);
      if remaining <= 0 {
        timer := None;
        var arg := InvokeNow(args, now, false);
        return Some(arg);
      }
      if timer == None {
        timer := Some(now + remaining);
      }
    }

    method OnTimer(now: int) returns (rendered: Option<A>)
      modifies this
      ensures View() == Step(wait, old(View()), Fire(now)) && rendered == old(pending)
    {
      rendered := None;
      timer := None;
      if pending != None {
        var arg := InvokeNow(pending.value, now, false);
        return Some(arg);
      }
    }

    method FlushNow(now: int) returns (rendered: Option<A>)
      modifies this
      ensures View() == Step(wait, old(View()), Flush(now)) && rendered == old(pending)
    {
      rendered := None;
      if timer != None {
        timer := None;
      }
      if pending != None {
        var arg := InvokeNow(pending.value, now, true);
        return Some(arg);
      }
    }
  }

  // ---------- runs ----------

  /** The shots show calls in strictly increasing order, each with that call's argument, and one that no
    * flush caused comes at least `wait` after its predecessor. */
  ghost predicate ShotsOk<A>(wait: int, passed: seq<A>, shots: seq<Shot<A>>) {
    && (forall i | 0 <= i < |shots| :: 0 <= shots[i].index < |passed| && shots[i].arg == passed[shots[i].index])
    && (forall i, j | 0 <= i < j < |shots| :: shots[i].index < shots[j].index && shots[i].time <= shots[j].time)
    && (forall i | 0 < i < |shots| && !shots[i].flushed :: shots[i].time >= shots[i - 1].time + wait)
  }

  /** A timer is armed exactly when an argument is pending, for the end of the window; the pending argument
    * is the last one passed; with nothing pending the last one passed is the last one shown. */
  ghost predicate Windowed<A>(wait: int, s: State<A>, clock: int) {
    && 0 <= s.last <= clock
    && s.timer == (if s.pending.Some? then Some(s.last + wait) else None)
    && (s.pending.Some? ==> s.passed != [] && s.pending.value == s.passed[|s.passed| - 1] && s.last <= s.since <= clock)
    && (if s.shots == [] then s.last == 0 && (s.pending.None? ==> s.passed == [])
        else
          var shot := s.shots[|s.shots| - 1];
          s.last == shot.time && 0 <= shot.index < |s.passed| && (s.pending.None? <==> shot.index == |s.passed| - 1))
  }

  ghost predicate Inv<A>(wait: int, s: State<A>, clock: int) {
    Windowed(wait, s, clock) && ShotsOk(wait, s.passed, s.shots)
  }

  lemma ShotsOkMore<A>(wait: int, passed: seq<A>, shots: seq<Shot<A>>, arg: A)
    requires ShotsOk(wait, passed, shots)
    ensures ShotsOk(wait, passed + [arg], shots)
  {
  }

  lemma ShotsOkShot<A>(wait: int, passed: seq<A>, shots: seq<Shot<A>>, shot: Shot<A>)
    requires ShotsOk(wait, passed, shots)
    requires 0 <= shot.index < |passed| && shot.arg == passed[shot.index]
    requires shots != [] ==>
               var prev := shots[|shots| - 1];
               prev.index < shot.index && prev.time <= shot.time && (shot.flushed || shot.time >= prev.time + wait)
    ensures ShotsOk(wait, passed, shots + [shot])
  {
  }

  lemma WindowedKeeps<A>(wait: int, s: State<A>, e: Event<A>, clock: int)
    requires Windowed(wait, s, clock) && clock <= e.now && Enabled(s, e)
    ensures Windowed(wait, Step(wait, s, e), e.now)
  {
  }

  lemma ShotsKeep<A>(wait: int, s: State<A>, e: Event<A>, clock: int)
    requires Windowed(wait, s, clock) && clock <= e.now && Enabled(s, e)
    requires ShotsOk(wait, s.passed, s.shots)
    ensures ShotsOk(wait, Step(wait, s, e).passed, Step(wait, s, e).shots)
  {
    var s' := Step(wait, s, e);
    if e.Call? {
      ShotsOkMore(wait, s.passed, s.shots, e.arg);
    }
    if s'.shots != s.shots {
      ShotsOkShot(wait, s'.passed, s.shots, s'.shots[|s.shots|]);
    }
  }

  lemma StepKeeps<A>(wait: int, s: State<A>, e: Event<A>, clock: int)
    requires Inv(wait, s, clock) && clock <= e.now && Enabled(s, e)
    ensures Inv(wait, Step(wait, s, e), e.now)
  {
    WindowedKeeps(wait, s, e, clock);
    ShotsKeep(wait, s, e, clock);
  }

  /** The state after events; None if one of them could not happen or the clock ran backwards. */
  function Run<A>(wait: int, events: seq<Event<A>>): Option<(State<A>, int)> {
    if events == [] then Some((Initial(), 0))
    else
      var e := events[|events| - 1];
      match Run(wait, events[..|events| - 1])
      case None => None
      case Some((s, clock)) =>
        if clock <= e.now && Enabled(s, e) then Some((Step(wait, s, e), e.now))
        else None
  }

  lemma {:induction false} RunKeeps<A>(wait: int, events: seq<Event<A>>)
    ensures var r := Run(wait, events); r.Some? ==> Inv(wait, r.value.0, r.value.1)
  {
    if events != [] {
      RunKeeps(wait, events[..|events| - 1]);
      var r := Run(wait, events[..|events| - 1]);
      if r.Some? && Run(wait, events).Some? {
        StepKeeps(wait, r.value.0, events[|events| - 1], r.value.1);
      }
    }
  }

  /** The arguments passed by the calls among the events. */
  function Passed<A>(events: seq<Event<A>>): seq<A> {
    if events == [] then []
    else
      var e := events[|events| - 1];
      Passed(events[..|events| - 1]) + if e.Call? then [e.arg] else []
  }

  lemma {:induction false} PassedIsHistory<A>(wait: int, events: seq<Event<A>>)
    ensures var r := Run(wait, events); r.Some? ==> r.value.0.passed == Passed(events)
  {
    if events != [] {
      PassedIsHistory(wait, events[..|events| - 1]);
    }
  }

  /** A run that ends with a flush has shown the last argument passed, and leaves nothing armed. */
  lemma FlushShowsLast<A>(wait: int, events: seq<Event<A>>)
    requires events != [] && events[|events| - 1].Flush? && Run(wait, events).Some?
    requires Passed(events) != []
    ensures var s := Run(wait, events).value.0;
            s.timer.None? && s.pending.None? && s.shots != []
              && s.shots[|s.shots| - 1].arg == Passed(events)[|Passed(events)| - 1]
  {
    RunKeeps(wait, events);
    PassedIsHistory(wait, events);
    var s := Run(wait, events).value.0;
    assert s.pending.None?;
    if s.shots != [] {
      assert s.shots[|s.shots| - 1].arg == s.passed[s.shots[|s.shots| - 1].index];
    }
  }

  /** Freshness: the deadline of an armed timer is at most `wait` after the oldest call not yet shown. */
  lemma PendingIsRecent<A>(wait: int, events: seq<Event<A>>)
    requires Run(wait, events).Some?
    ensures var s := Run(wait, events).value.0;
            s.pending.Some? ==> s.timer.Some? && s.timer.value <= s.since + wait
  {
    RunKeeps(wait, events);
  }

  /** Two invocations less than `wait` apart: the later one was a flush. */
  lemma {:induction false} CloseShotsAreFlushes<A>(wait: int, events: seq<Event<A>>, i: nat)
    requires Run(wait, events).Some?
    requires 0 < i < |Run(wait, events).value.0.shots|
    ensures var shots := Run(wait, events).value.0.shots;
            shots[i].time < shots[i - 1].time + wait ==> shots[i].flushed
  {
    RunKeeps(wait, events);
  }
}
