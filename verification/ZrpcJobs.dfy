/** The server's job queue: dispatch, workers, replies and shutdown, under every interleaving. */
module ZrpcJobs {
  import opened Common

  const CAPACITY := 1024
  const CANCELLED := 1
  const DEADLINE_EXCEEDED := 5
  const INTERNAL := 8

  datatype Failure = StatusError(code: int) | DeadlineExceeded | Cancelled | Plain

  /** How a handler run ends: a value, if it can be marshalled, an error, or a recovered panic. */
  datatype Outcome = Value(json: Option<string>) | Failed(f: Failure) | Panicked

  datatype Kind = Unary | Stream | Unregistered

  /** A request: its number, the kind of handler it names, and how a run of that handler ends. */
  datatype Job = Job(rid: nat, kind: Kind, outcome: Outcome)

  datatype Reply = Response(rid: nat, json: string) | ErrorReply(rid: nat, code: int)

  function CodeOf(f: Failure): int {
    match f
    case StatusError(code) => code
    case DeadlineExceeded => DEADLINE_EXCEEDED
    case Cancelled => CANCELLED
    case Plain => INTERNAL
  }

  /** The reply that a job asks for. */
  function Answer(j: Job): Reply {
    if j.kind != Unary then ErrorReply(j.rid, INTERNAL)
    else match j.outcome
      case Panicked => ErrorReply(j.rid, INTERNAL)
      case Failed(f) => ErrorReply(j.rid, CodeOf(f))
      case Value(None) => ErrorReply(j.rid, INTERNAL)
      case Value(Some(json)) => Response(j.rid, json)
  }

  /** Which reply a job asks for: the response of a unary handler whose value can be marshalled, and otherwise an
    * error. Its code is that of the status error, 5 for a passed deadline, 1 for a cancellation, and 8 for any
    * other error, a panic, a value that cannot be marshalled, and a handler of an unknown kind. */
  lemma AnswerExactly(j: Job)
    ensures forall json :: Answer(j) == Response(j.rid, json) <==> j.kind.Unary? && j.outcome == Value(Some(json))
    ensures forall code :: Answer(j) == ErrorReply(j.rid, code) <==>
              || (!j.kind.Unary? && code == 8)
              || (j.kind.Unary? && j.outcome == Failed(StatusError(code)))
              || (j.kind.Unary? && j.outcome == Failed(DeadlineExceeded) && code == 5)
              || (j.kind.Unary? && j.outcome == Failed(Cancelled) && code == 1)
              || (j.kind.Unary? && j.outcome in {Failed(Plain), Panicked, Value(None)} && code == 8)
    ensures Answer(j).rid == j.rid
  {
  }

  // ---------- the steps ----------

  /** A worker waits, runs the job with this number, or has left. */
  datatype Worker = Idle | Busy(index: nat) | Gone

  /** `accepted` lists the jobs that entered the queue, in order, and `started` says how many were taken out.
    * `replies` pairs a job number with what was sent for it; `streams` holds jobs handed to own goroutines. */
  datatype State = State(closed: bool, stopped: bool, queue: seq<Job>, workers: seq<Worker>,
                         accepted: seq<Job>, started: nat, replies: seq<(nat, Reply)>, streams: set<nat>)

  /** A dispatch looks its handle up and reads `closed` before it reaches the queue, so it may have seen an
    * older value of either; `found` says whether the handle was registered. */
  datatype Step =
    | Dispatch(job: Job, found: bool, sawClosed: bool)
    | Take(w: nat)
    | Finish(w: nat)
    | Leave(w: nat)
    | BeginClose
    | Stop

  predicate Enabled(s: State, e: Step) {
    match e
    case Dispatch(_, _, sawClosed) => sawClosed ==> s.closed
    case Take(w) => w < |s.workers| && s.workers[w].Idle? && s.queue != []
    case Finish(w) => w < |s.workers| && s.workers[w].Busy? && s.workers[w].index < |s.accepted|
    case Leave(w) => w < |s.workers| && s.workers[w].Idle? && s.stopped
    case BeginClose => !s.closed
    case Stop => s.closed && !s.stopped
  }

  function Next(s: State, e: Step): State
    requires Enabled(s, e)
  {
    match e
    case Dispatch(job, found, sawClosed) =>
      if !found || sawClosed || |s.queue| >= CAPACITY then s
      else s.(queue := s.queue + [job], accepted := s.accepted + [job])
    case Take(w) =>
      var s' := s.(queue := s.queue[1..], started := s.started + 1);
      if s.queue[0].kind == Stream then s'.(streams := s.streams + {s.started})
      else s'.(workers := s.workers[w := Busy(s.started)])
    case Finish(w) =>
      var i := s.workers[w].index;
      s.(workers := s.workers[w := Idle], replies := s.replies + [(i, Answer(s.accepted[i]))])
    case Leave(w) => s.(workers := s.workers[w := Gone])
    case BeginClose => s.(closed := true)
    case Stop => s.(stopped := true)
  }

  function Start(n: nat): State {
    State(false, false, [], seq(n, i => Idle), [], 0, [], {})
  }

  // ---------- the object ----------

  class Server {
    var closed: bool
    var stopped: bool
    var jobs: seq<Job>
    var workers: seq<Worker>
    var current: seq<Job>
    var replies: seq<(nat, Reply)>
    ghost var accepted: seq<Job>
    var started: nat
    ghost var streams: set<nat>

    ghost function View(): State
      reads this
    {
      State(closed, stopped, jobs, workers, accepted, started, replies, streams)
    }

    /** The job a worker holds is the accepted one with its number. */
    ghost predicate Valid()
      reads this
    {
      && |current| == |workers|
      && started + |jobs| == |accepted| && accepted[started..] == jobs
      && forall w | 0 <= w < |workers| && workers[w].Busy? ::
           workers[w].index < |accepted| && current[w] == accepted[workers[w].index]
    }

    constructor (n: nat, none: Job)
      ensures Valid() && View() == Start(n)
    {
      closed, stopped, jobs, replies := false, false, [], [];
      workers, current := seq(n, i => Idle), seq(n, i => none);
      accepted, started, streams := [], 0, {};
    }

    method DispatchRequest(job: Job, found: bool, sawClosed: bool) returns (taken: bool)
      requires Valid() && Enabled(View(), Dispatch(job, found, sawClosed))
      modifies this
      ensures Valid() && View() == Next(old(View()), Dispatch(job, found, sawClosed))
      ensures taken <==> found && !sawClosed && |old(jobs)| < 1024
      ensures jobs == if taken then old(jobs) + [job] else old(jobs)
    {
      taken := false;
      if !found || sawClosed {
        return;
      }
      if |jobs| < CAPACITY {
        jobs, taken := jobs + [job], true;
        accepted := accepted + [job];
      }
    }

    /** A worker takes the oldest job; a stream leaves at once for its own goroutine. */
    method TakeJob(w: nat)
      requires Valid() && Enabled(View(), Take(w))
      modifies this
      ensures Valid() && View() == Next(old(View()), Take(w))
    {
      var j := jobs[0];
      assert j == accepted[started];
      jobs := jobs[1..];
      if j.kind == Stream {
        streams := streams + {started};
      } else {
        workers, current := workers[w := Busy(started)], current[w := j];
      }
      started := started + 1;
    }

    method SendError(i: nat, rid: nat, code: int)
      modifies this`replies
      ensures replies == old(replies) + [(i, ErrorReply(rid, code))]
    {
      replies := replies + [(i, ErrorReply(rid, code))];
    }

    /** runUnary: an error or a panic, a value that cannot be marshalled, or a response. */
    method RunUnary(i: nat, j: Job)
      requires j.kind == Unary
      modifies this`replies
      ensures replies == old(replies) + [(i, Answer(j))]
    {
      match j.outcome {
        case Panicked => SendError(i, j.rid, CodeOf(Plain));
        case Failed(f) => SendError(i, j.rid, CodeOf(f));
        case Value(json) =>
          if json.None? {
            SendError(i, j.rid, INTERNAL);
          } else {
            replies := replies + [(i, Response(j.rid, json.value))];
          }
      }
    }

    method FinishJob(w: nat)
      requires Valid() && Enabled(View(), Finish(w))
      modifies this
      ensures Valid() && View() == Next(old(View()), Finish(w))
    {
      var i, j := workers[w].index, current[w];
      if j.kind == Unary {
        RunUnary(i, j);
      } else {
        SendError(i, j.rid, INTERNAL);
      }
      workers := workers[w := Idle];
    }
  }

  // ---------- what every interleaving keeps ----------

  ghost predicate Runs(s: State, i: nat) {
    exists w | 0 <= w < |s.workers| :: s.workers[w] == Busy(i)
  }

  ghost predicate Replied(s: State, i: nat) {
    exists k | 0 <= k < |s.replies| :: s.replies[k].0 == i
  }

  /** The queue is bounded and holds what has not been started, in order. */
  ghost predicate QueueOk(s: State) {
    |s.queue| <= CAPACITY && s.started <= |s.accepted| && s.queue == s.accepted[s.started..]
  }

  /** Jobs at work and jobs replied to were started, no two workers share one, no job is replied to twice or
    * while it runs, and a reply says what the job asks for. */
  ghost predicate WorkOk(s: State) {
    && (forall w | 0 <= w < |s.workers| && s.workers[w].Busy? ::
          s.workers[w].index < s.started <= |s.accepted| && s.accepted[s.workers[w].index].kind != Stream)
    && (forall v, w | 0 <= v < w < |s.workers| && s.workers[v].Busy? :: s.workers[v] != s.workers[w])
    && (forall k | 0 <= k < |s.replies| ::
          s.replies[k].0 < s.started <= |s.accepted| && s.replies[k].1 == Answer(s.accepted[s.replies[k].0])
          && !Runs(s, s.replies[k].0) && s.accepted[s.replies[k].0].kind != Stream)
    && (forall k, l | 0 <= k < l < |s.replies| :: s.replies[k].0 != s.replies[l].0)
  }

  /** Every started job is a running stream, at work, or replied to. */
  ghost predicate NothingLost(s: State) {
    forall i: nat | i < s.started <= |s.accepted| ::
      if s.accepted[i].kind == Stream then i in s.streams else Runs(s, i) || Replied(s, i)
  }

  ghost predicate StreamsOk(s: State) {
    forall i <- s.streams :: i < s.started <= |s.accepted| && s.accepted[i].kind == Stream
  }

  /** A worker leaves only after the stop signal. */
  ghost predicate Inv(s: State) {
    && QueueOk(s) && WorkOk(s) && NothingLost(s) && StreamsOk(s)
    && (s.stopped ==> s.closed)
    && (forall w | 0 <= w < |s.workers| && s.workers[w].Gone? :: s.stopped)
  }

  lemma DispatchKeeps(s: State, e: Step)
    requires Inv(s) && Enabled(s, e) && e.Dispatch?
    ensures Inv(Next(s, e))
  {
    var s' := Next(s, e);
    assert forall i | 0 <= i < |s.accepted| :: s'.accepted[i] == s.accepted[i];
    forall i: nat ensures Runs(s', i) == Runs(s, i) && Replied(s', i) == Replied(s, i) {
    }
  }

  lemma TakeEffect(s: State, w: nat, i: nat)
    requires Enabled(s, Take(w))
    ensures var s' := Next(s, Take(w));
            Runs(s', i) == (Runs(s, i) || (s.queue[0].kind != Stream && i == s.started))
              && Replied(s', i) == Replied(s, i)
  {
    var s' := Next(s, Take(w));
    if Runs(s, i) {
      var v :| 0 <= v < |s.workers| && s.workers[v] == Busy(i);
      assert s'.workers[v] == Busy(i);
    }
    if s.queue[0].kind != Stream && i == s.started {
      assert s'.workers[w] == Busy(i);
    }
  }

  lemma TakeWork(s: State, w: nat)
    requires QueueOk(s) && WorkOk(s) && Enabled(s, Take(w))
    ensures WorkOk(Next(s, Take(w)))
  {
    var s' := Next(s, Take(w));
    assert s.queue[0] == s.accepted[s.started];
    forall k | 0 <= k < |s'.replies| ensures !Runs(s', s'.replies[k].0) {
      TakeEffect(s, w, s.replies[k].0);
    }
  }

  lemma TakeKeeps(s: State, w: nat)
    requires Inv(s) && Enabled(s, Take(w))
    ensures Inv(Next(s, Take(w)))
  {
    var s' := Next(s, Take(w));
    TakeWork(s, w);
    assert s.queue[0] == s.accepted[s.started];
    assert NothingLost(s') by {
      forall i: nat | i < s'.started
        ensures if s.accepted[i].kind == Stream then i in s'.streams else Runs(s', i) || Replied(s', i) {
        TakeEffect(s, w, i);
      }
    }
  }

  lemma FinishEffect(s: State, w: nat, i: nat)
    requires WorkOk(s) && Enabled(s, Finish(w))
    ensures var s', done := Next(s, Finish(w)), s.workers[w].index;
            Runs(s', i) == (Runs(s, i) && i != done) && Replied(s', i) == (Replied(s, i) || i == done)
  {
    var s', done := Next(s, Finish(w)), s.workers[w].index;
    assert s'.replies[|s.replies|].0 == done;
    if Runs(s, i) && i != done {
      var v :| 0 <= v < |s.workers| && s.workers[v] == Busy(i);
      assert s'.workers[v] == Busy(i);
    }
    if Replied(s, i) {
      var k :| 0 <= k < |s.replies| && s.replies[k].0 == i;
      assert s'.replies[k].0 == i;
    }
  }

  lemma FinishWork(s: State, w: nat)
    requires WorkOk(s) && Enabled(s, Finish(w))
    ensures WorkOk(Next(s, Finish(w)))
  {
  }

  lemma FinishKeeps(s: State, w: nat)
    requires Inv(s) && Enabled(s, Finish(w))
    ensures Inv(Next(s, Finish(w)))
  {
    var s' := Next(s, Finish(w));
    FinishWork(s, w);
    assert NothingLost(s') by {
      forall i: nat | i < s'.started
        ensures if s.accepted[i].kind == Stream then i in s'.streams else Runs(s', i) || Replied(s', i) {
        FinishEffect(s, w, i);
      }
    }
  }

  lemma LeaveKeeps(s: State, w: nat)
    requires Inv(s) && Enabled(s, Leave(w))
    ensures Inv(Next(s, Leave(w)))
  {
    var s' := Next(s, Leave(w));
    forall i: nat ensures Runs(s', i) == Runs(s, i) && Replied(s', i) == Replied(s, i) {
      if Runs(s, i) {
        var v :| 0 <= v < |s.workers| && s.workers[v] == Busy(i);
        assert s'.workers[v] == Busy(i);
      }
    }
  }

  lemma StepKeeps(s: State, e: Step)
    requires Inv(s) && Enabled(s, e)
    ensures Inv(Next(s, e))
  {
    match e
    case Dispatch(_, _, _) => DispatchKeeps(s, e);
    case Take(w) => TakeKeeps(s, w);
    case Finish(w) => FinishKeeps(s, w);
    case Leave(w) => LeaveKeeps(s, w);
    case _ =>
      var s' := Next(s, e);
      forall i: nat ensures Runs(s', i) == Runs(s, i) && Replied(s', i) == Replied(s, i) {
      }
  }

  function Run(s: State, steps: seq<Step>): Option<State>
    decreases |steps|
  {
    if steps == [] then Some(s)
    else if !Enabled(s, steps[0]) then None
    else Run(Next(s, steps[0]), steps[1..])
  }

  lemma {:induction false} RunKeeps(s: State, steps: seq<Step>)
    requires Inv(s) && Run(s, steps).Some?
    ensures Inv(Run(s, steps).value) && s.accepted <= Run(s, steps).value.accepted
            && s.replies <= Run(s, steps).value.replies
    decreases |steps|
  {
    if steps != [] {
      StepKeeps(s, steps[0]);
      RunKeeps(Next(s, steps[0]), steps[1..]);
    }
  }

  lemma StartInv(n: nat)
    ensures Inv(Start(n))
  {
  }

  /** The three results, for every run: the jobs started are the oldest accepted ones, in order; a job that
    * is not a stream gets at most one reply, the one it asks for; no started job is forgotten. */
  lemma JobsRunOnce(n: nat, steps: seq<Step>)
    requires Run(Start(n), steps).Some?
    ensures var s := Run(Start(n), steps).value;
            && s.started <= |s.accepted| && s.accepted == s.accepted[..s.started] + s.queue && |s.queue| <= 1024
            && (forall k | 0 <= k < |s.replies| ::
                  s.replies[k].0 < s.started && s.replies[k].1 == Answer(s.accepted[s.replies[k].0]))
            && (forall k, l | 0 <= k < l < |s.replies| :: s.replies[k].0 != s.replies[l].0)
            && (forall i: nat | i < s.started && s.accepted[i].kind != Stream :: Runs(s, i) != Replied(s, i))
            && (forall i: nat | i < s.started :: s.accepted[i].kind == Stream <==> i in s.streams)
  {
    StartInv(n);
    RunKeeps(Start(n), steps);
  }

  /** After the workers have left: what was started is done, and the jobs still queued are never run. */
  lemma AfterShutdown(n: nat, steps: seq<Step>, more: seq<Step>)
    requires Run(Start(n), steps).Some?
    requires var s := Run(Start(n), steps).value; forall w | 0 <= w < |s.workers| :: s.workers[w].Gone?
    requires Run(Run(Start(n), steps).value, more).Some?
    ensures var s := Run(Start(n), steps).value;
            s.started <= |s.accepted| && forall i: nat | i < s.started && s.accepted[i].kind != Stream :: Replied(s, i)
    ensures var s, end := Run(Start(n), steps).value, Run(Run(Start(n), steps).value, more).value;
            end.started == s.started && end.replies == s.replies && end.workers == s.workers
  {
    StartInv(n);
    RunKeeps(Start(n), steps);
    Frozen(Run(Start(n), steps).value, more);
  }

  lemma {:induction false} Frozen(s: State, more: seq<Step>)
    requires Run(s, more).Some? && forall w | 0 <= w < |s.workers| :: s.workers[w].Gone?
    ensures var end := Run(s, more).value;
            end.started == s.started && end.replies == s.replies && end.workers == s.workers
    decreases |more|
  {
    if more != [] {
      Frozen(Next(s, more[0]), more[1..]);
    }
  }

  // ---------- handler handles ----------

  /** The global registry: handles are numbers that C stores instead of pointers. */
  class Registry {
    var handles: map<nat, nat>
    var last: nat

    ghost predicate Valid()
      reads this
    {
      forall id <- handles :: 0 < id <= last
    }

    constructor ()
      ensures Valid() && handles == map[] && last == 0
    {
      handles, last := map[], 0;
    }

    /** A handle is never given out twice, even after it was cleared. */
    method Add(srv: nat) returns (id: nat)
      requires Valid()
      modifies this
      ensures Valid() && id == last && last > old(last) && id !in old(handles)
      ensures handles == old(handles)[id := srv]
    {
      last := last + 1;
      id := last;
      handles := handles[id := srv];
    }

    /** Handles that were never given out or were cleared are not found. */
    method Get(id: nat) returns (srv: Option<nat>)
      ensures srv == if id in handles then Some(handles[id]) else None
    {
      srv := if id in handles then Some(handles[id]) else None;
    }

    /** Exactly this server's handles go. */
    method ClearFor(srv: nat)
      requires Valid()
      modifies this`handles
      ensures Valid()
      ensures handles == map id | id in old(handles) && old(handles)[id] != srv :: old(handles)[id]
    {
      var todo := handles.Keys;
      while todo != {}
        invariant todo <= old(handles).Keys
        invariant handles == map id | id in old(handles) && (id in todo || old(handles)[id] != srv) :: old(handles)[id]
        decreases |todo|
      {
        var id :| id in todo;
        if handles[id] == srv {
          handles := handles - {id};
        }
        todo := todo - {id};
      }
    }
  }
}
