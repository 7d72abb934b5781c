/** The server's table of running streams by connection, under every interleaving of its critical sections. */
module ZrpcTracking {
  import opened Common

  type Id = nat

  /** Where a stream's goroutine stands. */
  datatype Phase = New | Tracked | Untracked | Over

  /** A writer: its connection, its goroutine, and whether its context has been cancelled. */
  datatype Writer = Writer(fd: int, phase: Phase, cancelled: bool)

  /** `table` is streamsByFD. `owed` holds writers taken out of it by a canceller that has left the lock but
    * not yet called cancel; `hidden` holds tracked writers whose entry a later stream replaced. */
  datatype State = State(table: map<int, Id>, writers: map<Id, Writer>, owed: set<Id>, hidden: set<Id>)

  const START := State(map[], map[], {}, {})

  /** The critical sections: a stream starts, registers, leaves, cancels itself; a closed connection or a
    * server shutdown removes entries; a canceller calls one cancel it owes. */
  datatype Step =
    | Spawn(w: Id, fd: int)
    | Track(w: Id)
    | Untrack(w: Id)
    | SelfCancel(w: Id)
    | CloseFD(fd: int)
    | CloseAll
    | Deliver(w: Id)

  predicate Enabled(s: State, e: Step) {
    match e
    case Spawn(w, _) => w !in s.writers
    case Track(w) => w in s.writers && s.writers[w].phase == New
    case Untrack(w) => w in s.writers && s.writers[w].phase == Tracked
    case SelfCancel(w) => w in s.writers && s.writers[w].phase == Untracked
    case CloseFD(_) => true
    case CloseAll => true
    case Deliver(w) => w in s.owed && w in s.writers
  }

  /** The writers in a table. */
  function Holders(table: map<int, Id>): set<Id> {
    set fd | fd in table :: table[fd]
  }

  function SetPhase(s: State, w: Id, p: Phase): map<Id, Writer>
    requires w in s.writers
  {
    s.writers[w := s.writers[w].(phase := p)]
  }

  function Cancel(writers: map<Id, Writer>, w: Id): map<Id, Writer>
    requires w in writers
  {
    writers[w := writers[w].(cancelled := true)]
  }

  function Next(s: State, e: Step): State
    requires Enabled(s, e)
  {
    match e
    case Spawn(w, fd) => s.(writers := s.writers[w := Writer(fd, New, false)])
    case Track(w) =>
      var fd := s.writers[w].fd;
      s.(writers := SetPhase(s, w, Tracked), table := s.table[fd := w],
         hidden := if fd in s.table then s.hidden + {s.table[fd]} else s.hidden)
    case Untrack(w) =>
      var fd := s.writers[w].fd;
      var own := fd in s.table && s.table[fd] == w;
      s.(writers := SetPhase(s, w, Untracked), table := if own then s.table - {fd} else s.table,
         hidden := s.hidden - {w})
    case SelfCancel(w) => s.(writers := Cancel(SetPhase(s, w, Over), w))
    case CloseFD(fd) =>
      if fd in s.table then s.(table := s.table - {fd}, owed := s.owed + {s.table[fd]}) else s
    case CloseAll => s.(table := map[], owed := s.owed + Holders(s.table))
    case Deliver(w) => s.(writers := Cancel(s.writers, w), owed := s.owed - {w})
  }

  // ---------- the table as an object ----------

  class Server {
    var streamsByFD: map<int, Id>
    var writers: map<Id, Writer>
    ghost var owed: set<Id>
    ghost var hidden: set<Id>

    ghost function View(): State
      reads this
    {
      State(streamsByFD, writers, owed, hidden)
    }

    constructor ()
      ensures View() == START
    {
      streamsByFD, writers, owed, hidden := map[], map[], {}, {};
    }

    method TrackWriter(w: Id)
      requires Enabled(View(), Track(w))
      modifies this
      ensures View() == Next(old(View()), Track(w))
    {
      var fd := writers[w].fd;
      if fd in streamsByFD {
        hidden := hidden + {streamsByFD[fd]};
      }
      streamsByFD := streamsByFD[fd := w];
      writers := writers[w := writers[w].(phase := Tracked)];
    }

    method UntrackWriter(w: Id)
      requires Enabled(View(), Untrack(w))
      modifies this
      ensures View() == Next(old(View()), Untrack(w))
    {
      var fd := writers[w].fd;
      if fd in streamsByFD && streamsByFD[fd] == w {
        streamsByFD := streamsByFD - {fd};
      }
      writers, hidden := writers[w := writers[w].(phase := Untracked)], hidden - {w};
    }

    method CallCancel(w: Id)
      requires Enabled(View(), Deliver(w))
      modifies this
      ensures View() == Next(old(View()), Deliver(w))
    {
      writers, owed := writers[w := writers[w].(cancelled := true)], owed - {w};
    }

    /** Without interruption: the entry goes and its writer is cancelled. */
    method CancelFD(fd: int)
      requires Inv(View())
      modifies this
      ensures View() == var s := Next(old(View()), CloseFD(fd));
                        if fd in old(streamsByFD) then Next(s, Deliver(old(streamsByFD)[fd])) else s
    {
      if fd in streamsByFD {
        var w := streamsByFD[fd];
        streamsByFD, owed := streamsByFD - {fd}, owed + {w};
        CallCancel(w);
      }
    }

    /** Without interruption: every entry goes and every writer in the table is cancelled, no other. */
    method CancelAllStreams()
      requires Inv(View())
      modifies this
      ensures streamsByFD == map[] && hidden == old(hidden) && writers.Keys == old(writers).Keys
      ensures owed == old(owed)
      ensures forall w <- writers :: writers[w] ==
                if w in Holders(old(streamsByFD)) then old(writers)[w].(cancelled := true) else old(writers)[w]
    {
      var ws := Holders(streamsByFD);
      streamsByFD, owed := map[], owed + ws;
      CancelEach(ws);
    }

    method CancelEach(ws: set<Id>)
      requires ws <= owed && ws <= writers.Keys
      modifies this`writers, this`owed
      ensures owed == old(owed) - ws && writers.Keys == old(writers).Keys
      ensures forall w <- writers ::
                writers[w] == if w in ws then old(writers)[w].(cancelled := true) else old(writers)[w]
    {
      var todo := ws;
      while todo != {}
        invariant todo <= ws && owed == old(owed) - (ws - todo)
        invariant writers.Keys == old(writers).Keys
        invariant forall w <- writers :: writers[w] ==
                    if w in ws && w !in todo then old(writers)[w].(cancelled := true) else old(writers)[w]
        decreases |todo|
      {
        var w :| w in todo;
        writers, owed := writers[w := writers[w].(cancelled := true)], owed - {w};
        todo := todo - {w};
      }
    }
  }

  // ---------- what every interleaving keeps ----------

  /** An entry belongs to a running writer with that connection, which nobody has cancelled. */
  ghost predicate TableOk(s: State) {
    forall fd <- s.table ::
      var w := s.table[fd];
      w in s.writers && s.writers[w] == Writer(fd, Tracked, false) && w !in s.owed && w !in s.hidden
  }

  predicate Listed(s: State, w: Id)
    requires w in s.writers
  {
    s.writers[w].fd in s.table && s.table[s.writers[w].fd] == w
  }

  /** A running writer is in the table, owed a cancel, cancelled, or replaced in the table by a later one;
    * a finished one is cancelled. */
  ghost predicate WriterOk(s: State, w: Id)
    requires w in s.writers
  {
    match s.writers[w].phase
    case New => !s.writers[w].cancelled && w !in s.owed && w !in s.hidden
    case Tracked => Listed(s, w) || w in s.owed || s.writers[w].cancelled || w in s.hidden
    case Untracked => w !in s.hidden
    case Over => s.writers[w].cancelled && w !in s.hidden
  }

  ghost predicate Inv(s: State) {
    && TableOk(s)
    && (forall w <- s.writers :: WriterOk(s, w))
    && s.owed <= s.writers.Keys && s.hidden <= s.writers.Keys && s.owed !! s.hidden
    && (forall w <- s.hidden :: !s.writers[w].cancelled)
  }

  lemma TrackKeeps(s: State, w: Id)
    requires Inv(s) && Enabled(s, Track(w))
    ensures Inv(Next(s, Track(w)))
  {
  }

  lemma UntrackKeeps(s: State, w: Id)
    requires Inv(s) && Enabled(s, Untrack(w))
    ensures Inv(Next(s, Untrack(w)))
  {
  }

  lemma CloseKeeps(s: State, e: Step)
    requires Inv(s) && (e.CloseFD? || e.CloseAll?)
    ensures Inv(Next(s, e))
  {
  }

  lemma StepKeeps(s: State, e: Step)
    requires Inv(s) && Enabled(s, e)
    ensures Inv(Next(s, e))
  {
    match e
    case Track(w) => TrackKeeps(s, w);
    case Untrack(w) => UntrackKeeps(s, w);
    case CloseFD(_) => CloseKeeps(s, e);
    case CloseAll => CloseKeeps(s, e);
    case _ =>
      var s' := Next(s, e);
      forall x <- s'.writers ensures WriterOk(s', x) {
        assert x in s.writers ==> WriterOk(s, x);
      }
  }

  function Run(s: State, steps: seq<Step>): Option<State>
    decreases |steps|
  {
    if steps == [] then Some(s)
    else if !Enabled(s, steps[0]) then None
    else Run(Next(s, steps[0]), steps[1..])
  }

  lemma {:induction false} RunKeeps(s: State, steps: seq<Step>)
    requires Inv(s) && Run(s, steps).Some?
    ensures Inv(Run(s, steps).value) && s.writers.Keys <= Run(s, steps).value.writers.Keys
    decreases |steps|
  {
    if steps != [] {
      StepKeeps(s, steps[0]);
      RunKeeps(Next(s, steps[0]), steps[1..]);
    }
  }

  // ---------- reuse of a connection number ----------

  /** A stream that finishes removes at most its own entry: what a later stream registered under the same
    * connection number stays. */
  lemma FinishKeepsNewer(s: State, w: Id, fd: int)
    requires Inv(s) && Enabled(s, Untrack(w)) && fd in s.table && s.table[fd] != w
    ensures fd in Next(s, Untrack(w)).table && Next(s, Untrack(w)).table[fd] == s.table[fd]
    ensures w !in Holders(Next(s, Untrack(w)).table)
  {
    var s' := Next(s, Untrack(w));
    if w in Holders(s'.table) {
      var f :| f in s'.table && s'.table[f] == w;
      assert false;
    }
  }

  // ---------- cancellation ----------

  /** Owed or already given. */
  predicate Settled(s: State, w: Id) {
    w in s.writers && (w in s.owed || s.writers[w].cancelled)
  }

  lemma {:induction false} SettledStays(s: State, steps: seq<Step>, w: Id)
    requires Settled(s, w) && Run(s, steps).Some?
    ensures Settled(Run(s, steps).value, w)
    decreases |steps|
  {
    if steps != [] {
      SettledStays(Next(s, steps[0]), steps[1..], w);
    }
  }

  lemma {:induction false} RunSplit(s: State, a: seq<Step>, b: seq<Step>)
    ensures Run(s, a + b) == match Run(s, a) case None => None case Some(t) => Run(t, b)
    decreases |a|
  {
    if a == [] {
      assert a + b == b;
    } else {
      assert (a + b)[0] == a[0] && (a + b)[1..] == a[1..] + b;
      if Enabled(s, a[0]) {
        RunSplit(Next(s, a[0]), a[1..], b);
      }
    }
  }

  /** Whatever happens around it: a writer that a closed connection or a shutdown finds in the table has been
    * cancelled once no canceller owes it a call any more. */
  lemma RemovedIsCancelled(before: seq<Step>, e: Step, after: seq<Step>, fd: int)
    requires Run(START, before + [e] + after).Some? && Run(START, before).Some?
    requires fd in Run(START, before).value.table && (e == CloseFD(fd) || e == CloseAll)
    ensures var w, end := Run(START, before).value.table[fd], Run(START, before + [e] + after).value;
            w in end.writers && (w !in end.owed ==> end.writers[w].cancelled)
  {
    var s := Run(START, before).value;
    var w := s.table[fd];
    RunKeeps(START, before);
    RunSplit(START, before + [e], after);
    RunSplit(START, before, [e]);
    var s' := Next(s, e);
    assert Run(s, [e]) == Run(s', []) == Some(s');
    assert w in Holders(s.table);
    SettledStays(s', after, w);
  }

  /** What a closed connection misses: of the unfinished streams on it, exactly those that have not registered
    * yet, and those whose entry a later stream on the same connection has replaced. */
  lemma CloseReachesExactly(s: State, fd: int, w: Id)
    requires Inv(s) && w in s.writers && s.writers[w].fd == fd
    requires s.writers[w].phase == New || s.writers[w].phase == Tracked
    ensures Settled(Next(s, CloseFD(fd)), w) <==> s.writers[w].phase == Tracked && w !in s.hidden
  {
    assert WriterOk(s, w);
  }

  /** No stream registers while its connection has an entry. */
  predicate Orderly(s: State, steps: seq<Step>)
    decreases |steps|
  {
    steps == [] ||
    (Enabled(s, steps[0])
     && (steps[0].Track? ==> s.writers[steps[0].w].fd !in s.table)
     && Orderly(Next(s, steps[0]), steps[1..]))
  }

  /** With one stream per connection at a time, closing a connection reaches every stream that runs on it. */
  lemma {:induction false} OrderlyHidesNothing(s: State, steps: seq<Step>)
    requires s.hidden == {} && Orderly(s, steps)
    ensures Run(s, steps).Some? && Run(s, steps).value.hidden == {}
    decreases |steps|
  {
    if steps != [] {
      OrderlyHidesNothing(Next(s, steps[0]), steps[1..]);
    }
  }

  lemma OrderlyCloseReachesAll(steps: seq<Step>, fd: int, w: Id)
    requires Orderly(START, steps)
    requires Run(START, steps).Some?
    requires w in Run(START, steps).value.writers
    requires Run(START, steps).value.writers[w].fd == fd && Run(START, steps).value.writers[w].phase == Tracked
    ensures Settled(Next(Run(START, steps).value, CloseFD(fd)), w)
  {
    RunKeeps(START, steps);
    OrderlyHidesNothing(START, steps);
    CloseReachesExactly(Run(START, steps).value, fd, w);
  }

  /** Two streams on one connection: closing it cancels the second and misses the first. */
  lemma FirstStreamMissed()
    ensures Run(START, [Spawn(1, 7), Track(1), Spawn(2, 7), Track(2), CloseFD(7), Deliver(2)]) ==
            Some(State(map[], map[1 := Writer(7, Tracked, false), 2 := Writer(7, Tracked, true)], {}, {1}))
  {
    var s1 := Next(START, Spawn(1, 7));
    var s2 := Next(s1, Track(1));
    var s3 := Next(s2, Spawn(2, 7));
    var s4 := Next(s3, Track(2));
    var s5 := Next(s4, CloseFD(7));
    var s6 := Next(s5, Deliver(2));
    assert s6 == State(map[], map[1 := Writer(7, Tracked, false), 2 := Writer(7, Tracked, true)], {}, {1});
    assert Run(s6, []) == Some(s6);
    assert Run(s5, [Deliver(2)]) == Some(s6);
    assert Run(s4, [CloseFD(7), Deliver(2)]) == Some(s6);
    assert Run(s3, [Track(2), CloseFD(7), Deliver(2)]) == Some(s6);
    assert Run(s2, [Spawn(2, 7), Track(2), CloseFD(7), Deliver(2)]) == Some(s6);
    assert Run(s1, [Track(1), Spawn(2, 7), Track(2), CloseFD(7), Deliver(2)]) == Some(s6);
  }
}
