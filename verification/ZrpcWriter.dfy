/** The server end of one zrpc stream: the writer, the handler run around it, and what reaches the wire. */
module ZrpcWriter {
  import opened Common

  datatype Frame = Data(payload: string) | End | Error(code: int)

  predicate Terminal(f: Frame) {
    !f.Data?
  }

  /** What a writer call returns. */
  datatype Status = Fine | AlreadyDone | NotMarshalled | Broken

  /** The writer: its flag, the frames on the wire, and how many terminals were handed to the transport. */
  datatype Writer = Writer(done: bool, out: seq<Frame>, attempts: nat)

  const NEW := Writer(false, [], 0)

  /** A call of the handler; `ok` is what the transport answers, a payload of None cannot be marshalled. */
  datatype Call = CallSend(payload: Option<string>, ok: bool) | CallEnd(ok: bool) | CallError(code: int, ok: bool)

  /** A frame handed to the transport: a failed send silences the writer, and so does a terminal. */
  function Emit(w: Writer, f: Frame, ok: bool): Writer {
    Writer(w.done || !ok || Terminal(f), if ok then w.out + [f] else w.out, w.attempts + if Terminal(f) then 1 else 0)
  }

  function Do(w: Writer, c: Call): (Writer, Status) {
    if w.done then (w, AlreadyDone)
    else match c
      case CallSend(None, _) => (w, NotMarshalled)
      case CallSend(Some(p), ok) => (Emit(w, Data(p), ok), if ok then Fine else Broken)
      case CallEnd(ok) => (Emit(w, End, ok), if ok then Fine else Broken)
      case CallError(code, ok) => (Emit(w, Error(code), ok), if ok then Fine else Broken)
  }

  /** What one call puts on the wire and reports: a done writer does nothing, a value that cannot be marshalled
    * sends nothing, and otherwise exactly one frame goes out, or none if the transport fails. A failure or a
    * terminal silences the writer. */
  lemma DoExactly(w: Writer, c: Call)
    ensures var (w', st) := Do(w, c);
            && (st == AlreadyDone <==> w.done)
            && (st == NotMarshalled <==> !w.done && c.CallSend? && c.payload.None?)
            && (st == Fine ==> w'.out == w.out + [match c
                                                   case CallSend(p, _) => Data(p.GetOr(""))
                                                   case CallEnd(_) => End
                                                   case CallError(code, _) => Error(code)])
            && (st != Fine ==> w'.out == w.out)
            && (st in {Fine, Broken} ==> (st == Fine <==> c.ok))
            && (w'.done <==> w.done || st == Broken || (st == Fine && !c.CallSend?))
  {
  }

  function DoAll(w: Writer, calls: seq<Call>): Writer {
    if calls == [] then w else Do(DoAll(w, calls[..|calls| - 1]), calls[|calls| - 1]).0
  }

  // ---------- the object ----------

  class StreamWriter {
    var done: bool
    var out: seq<Frame>
    ghost var attempts: nat

    ghost function View(): Writer
      reads this
    {
      Writer(done, out, attempts)
    }

    constructor ()
      ensures View() == NEW
    {
      done, out, attempts := false, [], 0;
    }

    method Send(payload: Option<string>, ok: bool) returns (st: Status)
      modifies this
      ensures (View(), st) == Do(old(View()), CallSend(payload, ok))
    {
      if done {
        return AlreadyDone;
      }
      if payload.None? {
        return NotMarshalled;
      }
      if !ok {
        done := true;
        return Broken;
      }
      out := out + [Data(payload.value)];
      st := Fine;
    }

    method Finish(f: Frame, ok: bool) returns (st: Status)
      requires Terminal(f)
      modifies this
      ensures (View(), st) == Do(old(View()), if f.End? then CallEnd(ok) else CallError(f.code, ok))
    {
      if done {
        return AlreadyDone;
      }
      attempts := attempts + 1;
      if !ok {
        done := true;
        return Broken;
      }
      out := out + [f];
      done := true;
      st := Fine;
    }
  }

  // ---------- the grammar of a stream ----------

  /** DATA* followed by at most one END or ERROR. */
  ghost predicate Grammar(out: seq<Frame>) {
    forall i | 0 <= i < |out| - 1 :: out[i].Data?
  }

  /** A terminal on the wire, or one that was tried, silences the writer; at most one is ever tried. */
  ghost predicate WriterInv(w: Writer) {
    && Grammar(w.out) && w.attempts <= 1
    && (w.attempts == 1 ==> w.done)
    && (w.out != [] && Terminal(w.out[|w.out| - 1]) ==> w.attempts == 1)
  }

  lemma DoKeeps(w: Writer, c: Call)
    requires WriterInv(w)
    ensures WriterInv(Do(w, c).0) && w.out <= Do(w, c).0.out && (w.done ==> Do(w, c).0 == w)
  {
  }

  lemma {:induction false} DoAllKeeps(w: Writer, calls: seq<Call>)
    requires WriterInv(w)
    ensures WriterInv(DoAll(w, calls)) && w.out <= DoAll(w, calls).out && (w.done ==> DoAll(w, calls) == w)
  {
    if calls != [] {
      var before := calls[..|calls| - 1];
      DoAllKeeps(w, before);
      DoKeeps(DoAll(w, before), calls[|calls| - 1]);
    }
  }

  // ---------- runStream ----------

  /** How a handler ends: its error code if it returns an error or panics (which is recovered as an error). */
  datatype Ending = Clean | Failed(code: int)

  /** The handler's calls, then the closing error if it failed and nothing ended the stream. */
  function RunSpec(calls: seq<Call>, ending: Ending, closingOk: bool): Writer {
    var w := DoAll(NEW, calls);
    if ending.Failed? && !w.done then Do(w, CallError(ending.code, closingOk)).0 else w
  }

  method RunStream(calls: seq<Call>, ending: Ending, closingOk: bool) returns (w: StreamWriter)
    ensures fresh(w) && w.View() == RunSpec(calls, ending, closingOk)
    ensures WriterInv(w.View())
  {
    w := new StreamWriter();
    for k := 0 to |calls|
      invariant w.View() == DoAll(NEW, calls[..k])
    {
      assert calls[..k + 1][..k] == calls[..k];
      match calls[k] {
        case CallSend(payload, ok) => var _ := w.Send(payload, ok);
        case CallEnd(ok) => var _ := w.Finish(End, ok);
        case CallError(code, ok) => var _ := w.Finish(Error(code), ok);
      }
    }
    assert calls[..|calls|] == calls;
    DoAllKeeps(NEW, calls);
    if ending.Failed? && !w.done {
      DoKeeps(w.View(), CallError(ending.code, closingOk));
      var _ := w.Finish(Error(ending.code), closingOk);
    }
  }

  /** Frames after a failed send: none. The writer stays as the failure left it. */
  lemma SilentAfterFailure(calls: seq<Call>, k: nat, ending: Ending, closingOk: bool)
    requires k < |calls| && Do(DoAll(NEW, calls[..k]), calls[k]).1 == Broken
    ensures RunSpec(calls, ending, closingOk) == Do(DoAll(NEW, calls[..k]), calls[k]).0
    ensures RunSpec(calls, ending, closingOk).out == DoAll(NEW, calls[..k]).out
  {
    var w := Do(DoAll(NEW, calls[..k]), calls[k]).0;
    assert calls[..k + 1][..k] == calls[..k];
    assert w == DoAll(NEW, calls[..k + 1]);
    DoAllSplit(NEW, calls, k + 1);
    DoAllKeeps(NEW, calls[..k + 1]);
    DoAllKeeps(w, calls[k + 1..]);
  }

  lemma {:induction false} DoAllSplit(w: Writer, calls: seq<Call>, k: nat)
    requires k <= |calls|
    ensures DoAll(w, calls) == DoAll(DoAll(w, calls[..k]), calls[k..])
  {
    if k == |calls| {
      assert calls[..k] == calls;
    } else {
      var before := calls[..|calls| - 1];
      DoAllSplit(w, before, k);
      assert before[..k] == calls[..k] && before[k..] == calls[k..][..|calls[k..]| - 1];
    }
  }

  /** A call that leaves the stream open: a send that is taken, or whose value cannot be marshalled. */
  predicate Open(c: Call) {
    c.CallSend? && (c.payload.None? || c.ok)
  }

  /** Call `k` is the first that does not leave the stream open. */
  predicate Stops(calls: seq<Call>, k: nat) {
    k < |calls| && !Open(calls[k]) && forall j | 0 <= j < k :: Open(calls[j])
  }

  lemma {:induction false} StopDecides(calls: seq<Call>)
    ensures var h := DoAll(NEW, calls);
            && (h.done <==> exists k: nat :: Stops(calls, k))
            && (forall k: nat | Stops(calls, k) :: h.attempts == (if calls[k].CallSend? then 0 else 1))
            && (!h.done ==> h.attempts == 0)
  {
    if calls != [] {
      var n := |calls| - 1;
      var before := calls[..n];
      StopDecides(before);
      forall k: nat | k < n ensures Stops(calls, k) == Stops(before, k) {
        assert forall j | 0 <= j <= k :: before[j] == calls[j];
      }
      if !DoAll(NEW, before).done {
        AllOpen(before);
        assert forall j | 0 <= j < n :: before[j] == calls[j];
        if !Open(calls[n]) {
          assert Stops(calls, n);
        }
      } else {
        var k: nat :| Stops(before, k);
        assert Stops(calls, k) && !Open(before[k]) && before[k] == calls[k];
      }
    }
  }

  /** Without a stopping call every call leaves the stream open. */
  lemma {:induction false} AllOpen(calls: seq<Call>)
    requires forall k: nat :: !Stops(calls, k)
    ensures forall j | 0 <= j < |calls| :: Open(calls[j])
  {
    if calls != [] {
      var n := |calls| - 1;
      forall k: nat ensures !Stops(calls[..n], k) {
        if Stops(calls[..n], k) {
          assert forall j | 0 <= j <= k :: calls[..n][j] == calls[j];
          assert Stops(calls, k);
        }
      }
      AllOpen(calls[..n]);
      assert forall j | 0 <= j < n :: Open(calls[..n][j]) && calls[..n][j] == calls[j];
      assert !Stops(calls, n);
    }
  }

  /** No terminal is ever tried exactly when the first call that does not leave the stream open is a broken
    * send, or there is none and the handler returns without an error. */
  lemma UnterminatedExactly(calls: seq<Call>, ending: Ending, closingOk: bool)
    ensures RunSpec(calls, ending, closingOk).attempts == 0 <==>
            (exists k: nat :: Stops(calls, k) && calls[k].CallSend?)
              || ((forall k: nat :: !Stops(calls, k)) && ending.Clean?)
  {
    StopDecides(calls);
  }

  // ---------- the chat handler ----------

  predicate AllSends(calls: seq<Call>) {
    forall i | 0 <= i < |calls| :: calls[i].CallSend? && calls[i].payload.Some?
  }

  /** ServeChatStreamZRPC: packets, then END unless the business code failed; a failing END is an error too. */
  function ChatCalls(sends: seq<Call>, failed: Option<int>, endOk: bool): seq<Call> {
    if failed.Some? then sends else sends + [CallEnd(endOk)]
  }

  function ChatEnding(sends: seq<Call>, failed: Option<int>, endOk: bool, internal: int): Ending {
    match failed
    case Some(code) => Failed(code)
    case None => if DoAll(NEW, sends).done || !endOk then Failed(internal) else Clean
  }

  /** What the packets put on the wire: payloads up to the first failed send. */
  function Accepted(sends: seq<Call>): seq<Frame>
    requires AllSends(sends)
  {
    if sends == [] || !sends[0].ok then [] else [Data(sends[0].payload.value)] + Accepted(sends[1..])
  }

  predicate AllOk(sends: seq<Call>)
    requires AllSends(sends)
  {
    forall i | 0 <= i < |sends| :: sends[i].ok
  }

  lemma {:induction false} SendsOnly(sends: seq<Call>)
    requires AllSends(sends)
    ensures DoAll(NEW, sends) == Writer(!AllOk(sends), Accepted(sends), 0)
  {
    if sends != [] {
      var n := |sends| - 1;
      SendsOnly(sends[..n]);
      AcceptedSnoc(sends[..n], sends[n]);
      assert sends[..n] + [sends[n]] == sends;
      if sends[n].ok && AllOk(sends[..n]) {
        assert AllOk(sends);
      } else if AllOk(sends[..n]) {
        assert !AllOk(sends);
      } else {
        var i :| 0 <= i < n && !sends[..n][i].ok;
        assert !sends[i].ok;
      }
    }
  }

  lemma {:induction false} AcceptedSnoc(sends: seq<Call>, c: Call)
    requires AllSends(sends) && c.CallSend? && c.payload.Some?
    ensures Accepted(sends + [c])
         == if AllOk(sends) && c.ok then Accepted(sends) + [Data(c.payload.value)] else Accepted(sends)
  {
    if sends != [] {
      assert (sends + [c])[1..] == sends[1..] + [c];
      AcceptedSnoc(sends[1..], c);
      if sends[0].ok {
        assert AllOk(sends[1..]) ==> forall i | 0 <= i < |sends| :: i > 0 ==> sends[i] == sends[1..][i - 1];
        assert AllOk(sends) <==> AllOk(sends[1..]);
      }
    } else {
      assert (sends + [c])[1..] == [];
    }
  }

  /** The terminal that a chat stream ends with, if the transport takes it. */
  function Closing(failed: Option<int>, endOk: bool, closingOk: bool): seq<Frame> {
    match failed
    case None => if endOk then [End] else []
    case Some(code) => if closingOk then [Error(code)] else []
  }

  /** The wire of a chat stream: the packets up to the first failed send, and if none failed exactly one
    * terminal is tried, END on success and ERROR on failure, with nothing after it. */
  lemma ChatStreamWire(sends: seq<Call>, failed: Option<int>, endOk: bool, closingOk: bool, internal: int)
    requires AllSends(sends)
    ensures var w := RunSpec(ChatCalls(sends, failed, endOk), ChatEnding(sends, failed, endOk, internal), closingOk);
            if AllOk(sends) then w.attempts == 1 && w.out == Accepted(sends) + Closing(failed, endOk, closingOk)
            else w.attempts == 0 && w.out == Accepted(sends)
  {
    SendsOnly(sends);
    ChatCallsEnd(sends, failed, endOk);
    WireOf(Writer(!AllOk(sends), Accepted(sends), 0), failed, endOk, closingOk, internal);
  }

  lemma ChatCallsEnd(sends: seq<Call>, failed: Option<int>, endOk: bool)
    ensures DoAll(NEW, ChatCalls(sends, failed, endOk))
         == if failed.Some? then DoAll(NEW, sends) else Do(DoAll(NEW, sends), CallEnd(endOk)).0
  {
    assert (sends + [CallEnd(endOk)])[..|sends|] == sends;
  }

  /** How the end of a chat stream follows from the writer `h` after its packets. */
  lemma WireOf(h: Writer, failed: Option<int>, endOk: bool, closingOk: bool, internal: int)
    requires h.attempts == 0
    ensures var after := if failed.Some? then h else Do(h, CallEnd(endOk)).0;
            var code := if failed.Some? then failed.value else internal;
            var w := if !after.done && (failed.Some? || h.done || !endOk) then Do(after, CallError(code, closingOk)).0
                     else after;
            if !h.done then w.attempts == 1 && w.out == h.out + Closing(failed, endOk, closingOk)
            else w.attempts == 0 && w.out == h.out
  {
    assert h.out + [] == h.out;
  }

  // ---------- callers in several goroutines ----------

  /** A call in the middle: it has seen the stream open, or it has sent and must still mark it done. */
  datatype Pending = Seen(f: Frame) | Unmarked

  datatype Race = Race(w: Writer, calls: map<nat, Pending>)

  /** The three steps of a call by goroutine `t`: read the flag, hand the frame over, set the flag. */
  datatype Micro = Check(t: nat, f: Frame) | Transmit(t: nat, ok: bool) | Mark(t: nat)

  predicate Possible(r: Race, m: Micro) {
    match m
    case Check(t, _) => t !in r.calls
    case Transmit(t, _) => t in r.calls && r.calls[t].Seen?
    case Mark(t) => t in r.calls && r.calls[t].Unmarked?
  }

  function Advance(r: Race, m: Micro): Race
    requires Possible(r, m)
  {
    match m
    case Check(t, f) => if r.w.done then r else r.(calls := r.calls[t := Seen(f)])
    case Transmit(t, ok) =>
      var f := r.calls[t].f;
      var sent := r.w.(out := if ok then r.w.out + [f] else r.w.out,
                       attempts := r.w.attempts + if Terminal(f) then 1 else 0);
      Race(sent, if ok && !Terminal(f) then r.calls - {t} else r.calls[t := Unmarked])
    case Mark(t) => Race(r.w.(done := true), r.calls - {t})
  }

  function Interleave(r: Race, steps: seq<Micro>): Option<Race>
    decreases |steps|
  {
    if steps == [] then Some(r)
    else if !Possible(r, steps[0]) then None
    else Interleave(Advance(r, steps[0]), steps[1..])
  }

  function FrameOf(c: Call): Frame
    requires !(c.CallSend? && c.payload.None?)
  {
    match c
    case CallSend(p, _) => Data(p.value)
    case CallEnd(_) => End
    case CallError(code, _) => Error(code)
  }

  /** Undisturbed, the steps of a call are the whole call. */
  lemma StepsAreCall(w: Writer, t: nat, c: Call)
    requires !(c.CallSend? && c.payload.None?)
    ensures var f := FrameOf(c);
            var steps := if w.done then [Check(t, f)]
                         else if c.CallSend? && c.ok then [Check(t, f), Transmit(t, true)]
                         else [Check(t, f), Transmit(t, c.ok), Mark(t)];
            Interleave(Race(w, map[]), steps) == Some(Race(Do(w, c).0, map[]))
  {
    var f := FrameOf(c);
    var r0 := Race(w, map[]);
    var r1 := Advance(r0, Check(t, f));
    if w.done {
      assert Interleave(r1, []) == Some(r1);
    } else {
      var r2 := Advance(r1, Transmit(t, c.ok));
      if c.CallSend? && c.ok {
        assert r2.calls == map[];
        assert Interleave(r2, []) == Some(r2);
        assert Interleave(r1, [Transmit(t, true)]) == Some(r2);
      } else {
        var r3 := Advance(r2, Mark(t));
        assert r3.calls == map[];
        assert Interleave(r3, []) == Some(r3);
        assert Interleave(r2, [Mark(t)]) == Some(r3);
        assert Interleave(r1, [Transmit(t, c.ok), Mark(t)]) == Some(r3);
      }
    }
  }

  /** What is promised of the wire: DATA* and at most one terminal, tried at most once. */
  ghost predicate Sound(w: Writer) {
    Grammar(w.out) && w.attempts <= 1 && (Closed(w) ==> w.attempts == 1)
  }

  /** A terminal is on the wire. */
  predicate Closed(w: Writer) {
    w.out != [] && Terminal(w.out[|w.out| - 1])
  }

  /** Goroutine `t` has seen the stream open and will hand its frame over, whatever happens meanwhile. */
  predicate Waiting(r: Race, t: nat) {
    t in r.calls && r.calls[t].Seen?
  }

  /** No waiting frame can do harm: a terminal waits alone and before any other terminal was tried, and
    * nothing waits behind a terminal on the wire. */
  ghost predicate Harmless(r: Race) {
    && (forall t, u | Waiting(r, t) && Waiting(r, u) && t != u :: !Terminal(r.calls[t].f))
    && (forall t | Waiting(r, t) :: !Closed(r.w) && (Terminal(r.calls[t].f) ==> r.w.attempts == 0))
  }

  /** Only the calls under way go on; no new one starts. */
  predicate Finishing(steps: seq<Micro>) {
    forall k | 0 <= k < |steps| :: !steps[k].Check?
  }

  lemma AdvanceKeeps(r: Race, m: Micro)
    requires Sound(r.w) && Harmless(r) && Possible(r, m) && !m.Check?
    ensures Sound(Advance(r, m).w) && Harmless(Advance(r, m))
  {
    var r' := Advance(r, m);
    if m.Transmit? {
      assert Waiting(r, m.t);
      assert !Waiting(r', m.t);
      forall u | Waiting(r', u)
        ensures Waiting(r, u) && r'.calls[u] == r.calls[u] && !Closed(r'.w)
                && (Terminal(r.calls[u].f) ==> r'.w.attempts == 0)
      {
        assert u != m.t && Waiting(r, u);
        assert !Terminal(r.calls[m.t].f);
      }
    } else {
      assert forall u | Waiting(r', u) :: Waiting(r, u) && r'.calls[u] == r.calls[u];
    }
  }

  lemma {:induction false} FinishingKeeps(r: Race, steps: seq<Micro>)
    requires Sound(r.w) && Harmless(r) && Finishing(steps) && Interleave(r, steps).Some?
    ensures Sound(Interleave(r, steps).value.w)
    decreases |steps|
  {
    if steps != [] {
      AdvanceKeeps(r, steps[0]);
      FinishingKeeps(Advance(r, steps[0]), steps[1..]);
    }
  }

  /** A schedule of at most two hand-overs that breaks the promise, from any state that is not harmless. */
  lemma HarmfulSchedule(r: Race) returns (steps: seq<Micro>)
    requires Sound(r.w) && !Harmless(r)
    ensures Finishing(steps) && Interleave(r, steps).Some? && !Sound(Interleave(r, steps).value.w)
  {
    if t :| Waiting(r, t) && (Closed(r.w) || (Terminal(r.calls[t].f) && r.w.attempts == 1)) {
      steps := [Transmit(t, true)];
      OneHandOver(r, t);
    } else {
      var t, u :| Waiting(r, t) && Waiting(r, u) && t != u && Terminal(r.calls[t].f);
      steps := [Transmit(t, true), Transmit(u, true)];
      var r1 := Advance(r, steps[0]);
      assert Closed(r1.w) && Waiting(r1, u);
      OneHandOver(r1, u);
      assert steps[1..] == [Transmit(u, true)];
    }
  }

  lemma OneHandOver(r: Race, t: nat)
    requires Waiting(r, t) && (Closed(r.w) || (Terminal(r.calls[t].f) && r.w.attempts == 1))
    ensures var steps := [Transmit(t, true)]; Interleave(r, steps).Some? && !Sound(Interleave(r, steps).value.w)
  {
    var r1 := Advance(r, Transmit(t, true));
    assert Interleave(r1, []) == Some(r1);
    if Closed(r.w) {
      assert !r1.w.out[|r.w.out| - 1].Data?;
    }
  }

  /** However the calls under way finish, the promise is kept: exactly in the harmless states. */
  lemma HarmlessExactly(r: Race)
    requires Sound(r.w)
    ensures Harmless(r) <==>
            forall steps | Finishing(steps) && Interleave(r, steps).Some? :: Sound(Interleave(r, steps).value.w)
  {
    if Harmless(r) {
      forall steps | Finishing(steps) && Interleave(r, steps).Some? ensures Sound(Interleave(r, steps).value.w) {
        FinishingKeeps(r, steps);
      }
    } else {
      var steps := HarmfulSchedule(r);
    }
  }

  /** A new call with this frame may start: the stream is marked done and the call returns at once, or
    * nothing is on the wire or waiting that ends the stream, and a terminal overlaps no waiting frame. */
  ghost predicate Clear(r: Race, f: Frame) {
    r.w.done ||
    (!Closed(r.w) && (forall u | Waiting(r, u) :: !Terminal(r.calls[u].f) && !Terminal(f))
     && (Terminal(f) ==> r.w.attempts == 0))
  }

  lemma CheckExactly(r: Race, t: nat, f: Frame)
    requires Sound(r.w) && Harmless(r) && Possible(r, Check(t, f))
    ensures Harmless(Advance(r, Check(t, f))) <==> Clear(r, f)
  {
    var r' := Advance(r, Check(t, f));
    if !r.w.done {
      assert Waiting(r', t) && r'.calls[t].f == f;
      forall u | u != t ensures Waiting(r', u) == Waiting(r, u) && (Waiting(r, u) ==> r'.calls[u] == r.calls[u]) {
      }
    }
  }

  /** Every call of the run starts in a state that is clear for it. Calls of DATA frames may overlap freely. */
  ghost predicate Disciplined(r: Race, steps: seq<Micro>)
    decreases |steps|
  {
    steps == [] ||
    (Possible(r, steps[0]) && (steps[0].Check? ==> Clear(r, steps[0].f))
      && Disciplined(Advance(r, steps[0]), steps[1..]))
  }

  /** At no point of the run can the calls under way finish in a way that breaks the promise. */
  ghost predicate AlwaysSound(r: Race, steps: seq<Micro>)
    decreases |steps|
  {
    && (forall more | Finishing(more) && Interleave(r, more).Some? :: Sound(Interleave(r, more).value.w))
    && (steps != [] && Possible(r, steps[0]) ==> AlwaysSound(Advance(r, steps[0]), steps[1..]))
  }

  /** Calls from any goroutines keep at most one terminal with nothing behind it exactly when each starts
    * clear: only a terminal must not overlap another call that is about to send. */
  lemma {:induction false} DisciplineExactly(r: Race, steps: seq<Micro>)
    requires Sound(r.w) && Harmless(r) && Interleave(r, steps).Some?
    ensures AlwaysSound(r, steps) <==> Disciplined(r, steps)
    decreases |steps|
  {
    HarmlessExactly(r);
    if steps != [] {
      var m := steps[0];
      var r' := Advance(r, m);
      if m.Check? {
        CheckExactly(r, m.t, m.f);
        assert Sound(r'.w);
        HarmlessExactly(r');
      } else {
        AdvanceKeeps(r, m);
      }
      if Harmless(r') {
        DisciplineExactly(r', steps[1..]);
      } else {
        assert !AlwaysSound(r', steps[1..]);
      }
    }
  }

  /** In particular, sends may overlap as they like. */
  lemma {:induction false} SendsMayOverlap(r: Race, steps: seq<Micro>)
    requires !Closed(r.w) && forall t | Waiting(r, t) :: r.calls[t].f.Data?
    requires (forall k | 0 <= k < |steps| && steps[k].Check? :: steps[k].f.Data?) && Interleave(r, steps).Some?
    ensures Disciplined(r, steps)
    decreases |steps|
  {
    if steps != [] {
      var r' := Advance(r, steps[0]);
      assert forall t | Waiting(r', t) :: Waiting(r, t) || steps[0].Check?;
      SendsMayOverlap(r', steps[1..]);
    }
  }

  /** For whole runs of a stream, from its start. */
  lemma RunsFromStart(steps: seq<Micro>)
    requires Interleave(Race(NEW, map[]), steps).Some?
    ensures AlwaysSound(Race(NEW, map[]), steps) <==> Disciplined(Race(NEW, map[]), steps)
    ensures Disciplined(Race(NEW, map[]), steps) ==> Sound(Interleave(Race(NEW, map[]), steps).value.w)
  {
    var r := Race(NEW, map[]);
    DisciplineExactly(r, steps);
    if Disciplined(r, steps) {
      DisciplinedEndsSound(r, steps);
    }
  }

  lemma {:induction false} DisciplinedEndsSound(r: Race, steps: seq<Micro>)
    requires Sound(r.w) && AlwaysSound(r, steps) && Interleave(r, steps).Some?
    ensures Sound(Interleave(r, steps).value.w)
    decreases |steps|
  {
    if steps != [] {
      var m := steps[0];
      assert Interleave(Advance(r, m), []) == Some(Advance(r, m)) && Finishing([]);
      DisciplinedEndsSound(Advance(r, m), steps[1..]);
    }
  }

  /** Overlapping calls can put two terminals on the wire. */
  lemma TwoTerminals()
    ensures var steps := [Check(0, End), Check(1, Error(8)), Transmit(0, true), Transmit(1, true)];
            var r := Interleave(Race(NEW, map[]), steps);
            r.Some? && r.value.w.out == [End, Error(8)] && !Grammar(r.value.w.out)
  {
    var r0 := Race(NEW, map[]);
    var r1 := Advance(r0, Check(0, End));
    var r2 := Advance(r1, Check(1, Error(8)));
    var r3 := Advance(r2, Transmit(0, true));
    var r4 := Advance(r3, Transmit(1, true));
    assert Interleave(r4, []) == Some(r4);
    assert Interleave(r3, [Transmit(1, true)]) == Some(r4);
    assert Interleave(r2, [Transmit(0, true), Transmit(1, true)]) == Some(r4);
    assert Interleave(r1, [Check(1, Error(8)), Transmit(0, true), Transmit(1, true)]) == Some(r4);
    assert !r4.w.out[0].Data?;
  }
}
