/** The client end of one zrpc stream: a bounded event queue between the reader thread and Recv. */
module ZrpcClient {
  import opened Common
  import ZrpcWriter

  const CAPACITY := 128

  type Event = ZrpcWriter.Frame

  /** The queue, its closing and the context; and the history: what was pushed, which of it found room, and
    * what Recv has taken out. */
  datatype State = State(queue: seq<Event>, closed: bool, cancelled: bool,
                         pushed: seq<Event>, kept: seq<bool>, yielded: seq<Event>)

  const START := State([], false, false, [], [], [])

  /** The reader thread pushes and at its end closes; Recv takes from the channel, or leaves when it finds
    * the context cancelled. */
  datatype Step = Push(e: Event) | CloseQueue | Cancel | Take | GiveUp

  /** What one Recv returns. */
  datatype Received = Chunk(payload: string) | Eof | Status(code: int) | ContextError

  predicate Enabled(s: State, e: Step) {
    match e
    case Push(_) => !s.closed
    case CloseQueue => !s.closed
    case Cancel => true
    case Take => s.queue != [] || s.closed
    case GiveUp => s.cancelled
  }

  function Next(s: State, e: Step): State
    requires Enabled(s, e)
  {
    match e
    case Push(ev) =>
      var room := |s.queue| < CAPACITY;
      s.(queue := if room then s.queue + [ev] else s.queue, pushed := s.pushed + [ev], kept := s.kept + [room])
    case CloseQueue => s.(closed := true)
    case Cancel => s.(cancelled := true)
    case Take => if s.queue == [] then s else s.(queue := s.queue[1..], yielded := s.yielded + [s.queue[0]])
    case GiveUp => s
  }

  function Reading(e: Event): Received {
    match e
    case Data(p) => Chunk(p)
    case End => Eof
    case Error(code) => Status(code)
  }

  // ---------- the object ----------

  class Stream {
    var evCh: seq<Event>
    var closed: bool
    var cancelled: bool
    ghost var pushed: seq<Event>
    ghost var kept: seq<bool>
    ghost var yielded: seq<Event>

    ghost function View(): State
      reads this
    {
      State(evCh, closed, cancelled, pushed, kept, yielded)
    }

    constructor ()
      ensures View() == START
    {
      evCh, closed, cancelled, pushed, kept, yielded := [], false, false, [], [], [];
    }

    method PushEvent(ev: Event)
      requires Enabled(View(), Push(ev))
      modifies this
      ensures View() == Next(old(View()), Push(ev))
      ensures evCh == if |old(evCh)| < 128 then old(evCh) + [ev] else old(evCh)
    {
      pushed, kept := pushed + [ev], kept + [|evCh| < CAPACITY];
      if |evCh| < CAPACITY {
        evCh := evCh + [ev];
      }
    }

    /** One Recv; `channel` says which ready branch the select takes. */
    method Recv(channel: bool) returns (r: Received)
      requires Enabled(View(), if channel then Take else GiveUp)
      modifies this
      ensures View() == Next(old(View()), if channel then Take else GiveUp)
      ensures channel && old(evCh) != [] ==>
                match old(evCh)[0]
                case Data(p) => r == Chunk(p)
                case End => r == Eof
                case Error(code) => r == Status(code)
      ensures (!channel ==> r == ContextError) && (channel && old(evCh) == [] ==> r == Eof)
    {
      if !channel {
        return ContextError;
      }
      if |evCh| == 0 {
        return Eof;
      }
      var ev := evCh[0];
      evCh, yielded := evCh[1..], yielded + [ev];
      match ev {
        case Data(p) => r := Chunk(p);
        case End => r := Eof;
        case Error(code) => r := Status(code);
      }
    }
  }

  // ---------- what every interleaving keeps ----------

  /** The pushed events that found room, in order. */
  function Filtered(pushed: seq<Event>, kept: seq<bool>): (r: seq<Event>)
    requires |pushed| == |kept|
    ensures |r| <= |pushed|
  {
    if pushed == [] then []
    else
      var n := |pushed| - 1;
      Filtered(pushed[..n], kept[..n]) + if kept[n] then [pushed[n]] else []
  }

  ghost predicate AllKept(kept: seq<bool>) {
    forall i | 0 <= i < |kept| :: kept[i]
  }

  /** Nothing is lost except what found the queue full: taken and queued events are the kept ones, in order. */
  ghost predicate Inv(s: State) {
    && |s.pushed| == |s.kept| && |s.queue| <= 128
    && s.yielded + s.queue == Filtered(s.pushed, s.kept)
  }

  lemma StepKeeps(s: State, e: Step)
    requires Inv(s) && Enabled(s, e)
    ensures Inv(Next(s, e))
  {
    var s' := Next(s, e);
    if e.Push? {
      assert s'.pushed[..|s.pushed|] == s.pushed && s'.kept[..|s.kept|] == s.kept;
      assert s.yielded + (s.queue + [e.e]) == (s.yielded + s.queue) + [e.e];
      assert (s.yielded + s.queue) + [] == s.yielded + s.queue;
    } else if e.Take? && s.queue != [] {
      assert s'.yielded + s'.queue == s.yielded + s.queue;
    }
  }

  function Run(s: State, steps: seq<Step>): Option<State>
    decreases |steps|
  {
    if steps == [] then Some(s)
    else if !Enabled(s, steps[0]) then None
    else Run(Next(s, steps[0]), steps[1..])
  }

  lemma {:induction false} RunKeeps(s: State, steps: seq<Step>)
    requires Inv(s) && Run(s, steps).Some?
    ensures Inv(Run(s, steps).value)
    decreases |steps|
  {
    if steps != [] {
      StepKeeps(s, steps[0]);
      RunKeeps(Next(s, steps[0]), steps[1..]);
    }
  }

  /** The kept events are all the pushed ones exactly when no push found the queue full. */
  lemma {:induction false} KeptExactly(pushed: seq<Event>, kept: seq<bool>)
    requires |pushed| == |kept|
    ensures Filtered(pushed, kept) == pushed <==> AllKept(kept)
    ensures |Filtered(pushed, kept)| == |pushed| ==> AllKept(kept)
  {
    if pushed != [] {
      var n := |pushed| - 1;
      KeptExactly(pushed[..n], kept[..n]);
      if kept[n] {
        LastKept(kept);
        assert pushed == pushed[..n] + [pushed[n]];
        assert Filtered(pushed, kept)[..|Filtered(pushed, kept)| - 1] == Filtered(pushed[..n], kept[..n]);
      } else {
        assert |Filtered(pushed, kept)| <= n;
      }
    }
  }

  lemma LastKept(kept: seq<bool>)
    requires kept != [] && kept[|kept| - 1]
    ensures AllKept(kept) <==> AllKept(kept[..|kept| - 1])
  {
  }

  /** Once drained and closed, Recv on the channel gives end of file and changes nothing. */
  lemma {:induction false} DrainedStays(s: State, steps: seq<Step>)
    requires s.closed && s.queue == [] && Run(s, steps).Some?
    ensures var end := Run(s, steps).value; end.closed && end.queue == [] && end.yielded == s.yielded
    decreases |steps|
  {
    if steps != [] {
      DrainedStays(Next(s, steps[0]), steps[1..]);
    }
  }

  /** What a reader has received from a stream read to its end: everything pushed, if and only if no push
    * found the queue full. */
  lemma ReadsEverythingExactly(steps: seq<Step>)
    requires Run(START, steps).Some?
    requires var s := Run(START, steps).value; s.closed && s.queue == []
    ensures var s := Run(START, steps).value; s.yielded == s.pushed <==> AllKept(s.kept)
  {
    var s := Run(START, steps).value;
    RunKeeps(START, steps);
    KeptExactly(s.pushed, s.kept);
    assert s.yielded + [] == s.yielded;
  }

  // ---------- the loop that receives until the end ----------

  /** Chunks up to the first event that is none, and how the loop ends. */
  function Loop(events: seq<Event>): (seq<string>, Received) {
    if events == [] then ([], Eof)
    else match events[0]
      case Data(p) => var (rest, end) := Loop(events[1..]); ([p] + rest, end)
      case _ => ([], Reading(events[0]))
  }

  function Payloads(data: seq<Event>): (r: seq<string>)
    requires forall i | 0 <= i < |data| :: data[i].Data?
    ensures |r| == |data|
  {
    seq(|data|, i requires 0 <= i < |data| => data[i].payload)
  }

  lemma {:induction false} LoopOnStream(data: seq<Event>, closing: seq<Event>)
    requires forall i | 0 <= i < |data| :: data[i].Data?
    requires |closing| <= 1 && (closing != [] ==> !closing[0].Data?)
    ensures Loop(data + closing) == (Payloads(data), if closing == [] then Eof else Reading(closing[0]))
  {
    if data == [] {
      assert data + closing == closing;
    } else {
      LoopOnStream(data[1..], closing);
      assert (data + closing)[1..] == data[1..] + closing;
      assert Payloads(data) == [data[0].payload] + Payloads(data[1..]);
    }
  }

  lemma {:induction false} FilteredData(data: seq<Event>, kept: seq<bool>)
    requires |data| == |kept| && forall i | 0 <= i < |data| :: data[i].Data?
    ensures forall i | 0 <= i < |Filtered(data, kept)| :: Filtered(data, kept)[i].Data?
  {
    if data != [] {
      FilteredData(data[..|data| - 1], kept[..|data| - 1]);
    }
  }

  /** A failed stream is recognised exactly when its ERROR found room: if it was dropped, the loop ends as
    * after a success. */
  lemma FailureSeenExactly(data: seq<Event>, code: int, kept: seq<bool>)
    requires |kept| == |data| + 1 && forall i | 0 <= i < |data| :: data[i].Data?
    ensures var end := Loop(Filtered(data + [ZrpcWriter.Error(code)], kept)).1;
            if kept[|data|] then end == Status(code) else end == Eof
  {
    var n := |data|;
    var error := ZrpcWriter.Error(code);
    assert (data + [error])[..n] == data;
    FilteredData(data, kept[..n]);
    LoopOnStream(Filtered(data, kept[..n]), if kept[n] then [error] else []);
  }

  /** A reader that takes nothing while `n` chunks arrive. */
  function Flood(n: nat): seq<Step> {
    seq(n, i => Push(ZrpcWriter.Data("")))
  }

  lemma {:induction false} FillQueue(s: State, n: nat)
    requires Inv(s) && !s.closed && |s.queue| + n == CAPACITY
    ensures Run(s, Flood(n)).Some? && |Run(s, Flood(n)).value.queue| == CAPACITY && !Run(s, Flood(n)).value.closed
    decreases n
  {
    if n > 0 {
      var e := Flood(n)[0];
      assert Flood(n)[1..] == Flood(n - 1);
      StepKeeps(s, e);
      FillQueue(Next(s, e), n - 1);
    }
  }

  /** A run that loses an ERROR: the reader lags a full queue behind when it arrives. */
  lemma ErrorCanBeLost(code: int)
    ensures Run(START, Flood(CAPACITY)).Some?
    ensures var s, e := Run(START, Flood(CAPACITY)).value, Push(ZrpcWriter.Error(code));
            Enabled(s, e) && Next(s, e).queue == s.queue && Next(s, e).kept == s.kept + [false]
  {
    FillQueue(START, CAPACITY);
  }
}
