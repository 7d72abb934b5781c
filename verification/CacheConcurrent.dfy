/** Any number of CacheWrite, CacheQuery and backfill runs interleaved one remote command at a time. */
module CacheConcurrent {
  import opened Common
  import opened VectorSelect
  import opened SemCacheModel
  import opened CacheRuns

  /** Where a CacheWrite stands: the command it issues next. */
  datatype WritePc = WEmbed | WSetAnswer | WSetVec | WSetOld | WSetFp | WDone

  /** Where a backfill stands; the number is its attempt. */
  datatype FillPc = FGate | FEmbed(n: nat) | FHget(n: nat) | FHset(n: nat) | FDone

  /** Where a CacheQuery stands, with the candidate and the answer it holds. */
  datatype AskPc =
    | AEmbed | AGetFp | ADecide(cq: string) | AGetAnswer(cq: string) | AHget(cq: string, ans: string)
    | AVectors | AFetch(cq: string) | ADone(result: Option<(string, string)>)

  datatype Thread =
    | Writer(q: string, a: string, wpc: WritePc)
    | Filler(q: string, fpc: FillPc)
    | Asker(q: string, apc: AskPc)

  /** How the environment answers one command. */
  datatype Signal = Signal(ok: bool, vsearch: Option<seq<string>>, batch: bool)

  /** The state of the service. `written` records every answer ever stored. */
  datatype Sys = Sys(store: Store, vecOn: bool, threads: seq<Thread>, written: set<(string, string)>)

  /** What one step of a thread does: the store after it, the thread after it, a backfill it starts. */
  datatype Effect = Effect(store: Store, thread: Thread, spawn: Option<string>)

  function WriterStep(cfg: Config, svc: Service, vecOn: bool, st: Store, t: Thread, sig: Signal): Effect
    requires t.Writer?
  {
    match t.wpc
    case WEmbed =>
      Effect(st, t.(wpc := if cfg.enabled && sig.ok && Admitted(svc.meta(t.q)) then WSetAnswer else WDone), None)
    case WSetAnswer =>
      if sig.ok then Effect(SetAnswer(st, t.q, t.a), t.(wpc := if vecOn then WSetVec else WSetFp), None)
      else Effect(st, t.(wpc := WDone), None)
    case WSetVec =>
      Effect(if sig.ok then SetVector(svc, st, Ns(cfg), t.q) else st,
             t.(wpc := if cfg.dualWrite && Ns(cfg) != OLD_NS then WSetOld else WSetFp), None)
    case WSetOld =>
      Effect(if sig.ok then SetVector(svc, st, OLD_NS, t.q) else st, t.(wpc := WSetFp), None)
    case WSetFp =>
      Effect(if UsesFingerprint(cfg, svc.meta(t.q)) && sig.ok then SetFingerprint(svc, st, t.q) else st,
             t.(wpc := WDone), None)
    case WDone => Effect(st, t, None)
  }

  function Retry(n: nat): FillPc {
    if n == 0 then FEmbed(1) else FDone
  }

  function FillerStep(cfg: Config, svc: Service, vecOn: bool, st: Store, t: Thread, sig: Signal): Effect
    requires t.Filler?
  {
    match t.fpc
    case FGate => Effect(st, t.(fpc := if vecOn && t.q != "" && sig.ok then FEmbed(0) else FDone), None)
    case FEmbed(n) => Effect(st, t.(fpc := if sig.ok then FHget(n) else Retry(n)), None)
    case FHget(n) => Effect(st, t.(fpc := if VecExists(cfg, st, sig.ok, t.q) then FDone else FHset(n)), None)
    case FHset(n) =>
      if sig.ok then Effect(SetVector(svc, st, Ns(cfg), t.q), t.(fpc := FDone), None)
      else Effect(st, t.(fpc := Retry(n)), None)
    case FDone => Effect(st, t, None)
  }

  function AskerStep(cfg: Config, svc: Service, vecOn: bool, st: Store, t: Thread, sig: Signal): Effect
    requires t.Asker?
  {
    var m := svc.meta(t.q);
    match t.apc
    case AEmbed =>
      var next := if !cfg.enabled || !sig.ok || !Admitted(m) then ADone(None)
                  else if UsesFingerprint(cfg, m) then AGetFp else AVectors;
      Effect(st, t.(apc := next), None)
    case AGetFp =>
      var cand := FpCandidate(st, m, sig.ok);
      Effect(st, t.(apc := if cand.Some? then ADecide(cand.value) else AVectors), None)
    case ADecide(cq) =>
      Effect(st, t.(apc := if sig.ok && FpApproves(svc, t.q, cq) then AGetAnswer(cq) else AVectors), None)
    case AGetAnswer(cq) =>
      var ans := FetchIf(st, sig.ok, cq);
      Effect(st, t.(apc := if ans.Some? then AHget(cq, ans.value) else AVectors), None)
    case AHget(cq, ans) =>
      var missing := cfg.asyncBackfill && vecOn && !VecExists(cfg, st, sig.ok, cq);
      Effect(st, t.(apc := ADone(Some((cq, ans)))), if missing then Some(cq) else None)
    case AVectors =>
      var pick := VectorPick(cfg, svc, vecOn, t.q, sig.vsearch, sig.batch);
      Effect(st, t.(apc := if pick.Some? then AFetch(pick.value) else ADone(None)), None)
    case AFetch(cq) =>
      var ans := FetchIf(st, sig.ok, cq);
      Effect(st, t.(apc := ADone(if ans.Some? then Some((cq, ans.value)) else None)), None)
    case ADone(_) => Effect(st, t, None)
  }

  function StepOf(cfg: Config, svc: Service, vecOn: bool, st: Store, t: Thread, sig: Signal): Effect {
    match t
    case Writer(_, _, _) => WriterStep(cfg, svc, vecOn, st, t, sig)
    case Filler(_, _) => FillerStep(cfg, svc, vecOn, st, t, sig)
    case Asker(_, _) => AskerStep(cfg, svc, vecOn, st, t, sig)
  }

  /** A request arrives, some thread executes its next command, or the model check turns vectors off. */
  datatype Event = Ask(q: string) | Put(q: string, a: string) | Step(i: nat, sig: Signal) | VectorsOff

  function Next(cfg: Config, svc: Service, s: Sys, e: Event): Sys {
    match e
    case Ask(q) => s.(threads := s.threads + [Asker(q, AEmbed)])
    case Put(q, a) => s.(threads := s.threads + [Writer(q, a, WEmbed)])
    case VectorsOff => s.(vecOn := false)
    case Step(i, sig) =>
      if i >= |s.threads| then s
      else
        var t := s.threads[i];
        var eff := StepOf(cfg, svc, s.vecOn, s.store, t, sig);
        Sys(eff.store, s.vecOn,
            s.threads[i := eff.thread] + (if eff.spawn.Some? then [Filler(eff.spawn.value, FGate)] else []),
            s.written + (if t.Writer? && t.wpc == WSetAnswer && sig.ok then {(t.q, t.a)} else {}))
  }

  function RunAll(cfg: Config, svc: Service, events: seq<Event>): Sys {
    if events == [] then Sys(EMPTY, true, [], {})
    else Next(cfg, svc, RunAll(cfg, svc, events[..|events| - 1]), events[|events| - 1])
  }

  /** Written questions are tidy; a VSEARCH names keys of the hash engine at its moment. */
  ghost predicate Lawful(cfg: Config, svc: Service, events: seq<Event>) {
    events == [] ||
    var before, e := events[..|events| - 1], events[|events| - 1];
    && Lawful(cfg, svc, before)
    && (e.Put? ==> Tidy(cfg, e.q))
    && (e.Step? ==> HonestSearch(cfg, RunAll(cfg, svc, before).store, e.sig.vsearch))
  }

  // ---------- the invariant ----------

  /** Plain values under question keys were written for these questions. */
  ghost predicate AnswersWritten(st: Store, written: set<(string, string)>) {
    forall k <- st.kv | Hygienic(k) :: (k, st.kv[k]) in written
  }

  predicate HeldAnswer(cfg: Config, svc: Service, written: set<(string, string)>, q: string, cq: string, ans: string) {
    ans != "" && (cq, ans) in written && Justifies(cfg, svc, q, cq)
  }

  /** What a thread knows at its program point. */
  ghost predicate ThreadOk(cfg: Config, svc: Service, keys: set<string>, written: set<(string, string)>, t: Thread) {
    match t
    case Writer(q, a, pc) => Tidy(cfg, q) && (pc in {WSetVec, WSetOld, WSetFp} ==> q in keys)
                             && (pc == WSetOld ==> cfg.dualWrite && Ns(cfg) != OLD_NS)
    case Filler(q, _) => Hygienic(q) && q in keys
    case Asker(q, pc) =>
      match pc
      case ADecide(cq) => Hygienic(cq) && cq in keys
      case AGetAnswer(cq) => Hygienic(cq) && cq in keys && Justifies(cfg, svc, q, cq)
      case AHget(cq, ans) => Hygienic(cq) && cq in keys && HeldAnswer(cfg, svc, written, q, cq, ans)
      case AFetch(cq) => Hygienic(cq) && cq in keys && Justifies(cfg, svc, q, cq)
      case ADone(Some(r)) => HeldAnswer(cfg, svc, written, q, r.0, r.1)
      case _ => true
  }

  ghost predicate SysInv(cfg: Config, svc: Service, s: Sys) {
    && StoreInv(cfg, svc, s.store)
    && AnswersWritten(s.store, s.written)
    && (forall t <- s.threads :: ThreadOk(cfg, svc, s.store.kv.Keys, s.written, t))
  }

  lemma WriterKeeps(cfg: Config, svc: Service, vecOn: bool, st: Store, written: set<(string, string)>, t: Thread,
                    sig: Signal)
    requires t.Writer? && StoreInv(cfg, svc, st) && AnswersWritten(st, written)
             && ThreadOk(cfg, svc, st.kv.Keys, written, t)
    ensures var eff := WriterStep(cfg, svc, vecOn, st, t, sig);
            var w := written + (if t.wpc == WSetAnswer && sig.ok then {(t.q, t.a)} else {});
            && StoreInv(cfg, svc, eff.store) && AnswersWritten(eff.store, w)
            && st.kv.Keys <= eff.store.kv.Keys && ThreadOk(cfg, svc, eff.store.kv.Keys, w, eff.thread)
            && eff.spawn == None
  {
    match t.wpc {
      case WSetAnswer => SetAnswerKeeps(cfg, svc, st, t.q, t.a);
      case WSetVec => SetVectorKeeps(cfg, svc, st, t.q);
      case WSetOld => SetOldVectorKeeps(cfg, svc, st, t.q);
      case WSetFp =>
        assert HasPrefix(FP_PREFIX + svc.meta(t.q).fingerprint, FP_PREFIX);
        if UsesFingerprint(cfg, svc.meta(t.q)) {
          SetFingerprintKeeps(cfg, svc, st, t.q);
        }
      case _ =>
    }
  }

  lemma FillerKeeps(cfg: Config, svc: Service, vecOn: bool, st: Store, written: set<(string, string)>, t: Thread,
                    sig: Signal)
    requires t.Filler? && StoreInv(cfg, svc, st) && ThreadOk(cfg, svc, st.kv.Keys, written, t)
    ensures var eff := FillerStep(cfg, svc, vecOn, st, t, sig);
            StoreInv(cfg, svc, eff.store) && eff.store.kv == st.kv
              && ThreadOk(cfg, svc, st.kv.Keys, written, eff.thread)
            && eff.spawn == None
  {
  }

  lemma AskerKeeps(cfg: Config, svc: Service, vecOn: bool, st: Store, written: set<(string, string)>, t: Thread,
                   sig: Signal)
    requires t.Asker? && StoreInv(cfg, svc, st) && AnswersWritten(st, written)
             && ThreadOk(cfg, svc, st.kv.Keys, written, t)
    requires HonestSearch(cfg, st, sig.vsearch)
    ensures var eff := AskerStep(cfg, svc, vecOn, st, t, sig);
            eff.store == st && ThreadOk(cfg, svc, st.kv.Keys, written, eff.thread)
            && (eff.spawn.Some? ==> Hygienic(eff.spawn.value) && eff.spawn.value in st.kv)
  {
    match t.apc {
      case AGetFp =>
        var key := FP_PREFIX + svc.meta(t.q).fingerprint;
        if key in st.kv {
          assert HasPrefix(key, FP_PREFIX);
          assert FpEntryOk(svc, st, key);
        }
      case AVectors =>
        if VectorPick(cfg, svc, vecOn, t.q, sig.vsearch, sig.batch).Some? {
          PickIsJustified(World(cfg, svc, vecOn), st, t.q, sig.vsearch, sig.batch);
        }
      case _ =>
    }
  }

  lemma StepKeeps(cfg: Config, svc: Service, s: Sys, i: nat, sig: Signal)
    requires SysInv(cfg, svc, s) && HonestSearch(cfg, s.store, sig.vsearch) && i < |s.threads|
    ensures SysInv(cfg, svc, Next(cfg, svc, s, Step(i, sig)))
  {
    var t := s.threads[i];
    var s' := Next(cfg, svc, s, Step(i, sig));
    match t {
      case Writer(_, _, _) => WriterKeeps(cfg, svc, s.vecOn, s.store, s.written, t, sig);
      case Filler(_, _) => FillerKeeps(cfg, svc, s.vecOn, s.store, s.written, t, sig);
      case Asker(_, _) => AskerKeeps(cfg, svc, s.vecOn, s.store, s.written, t, sig);
    }
    assert s.store.kv.Keys <= s'.store.kv.Keys && s.written <= s'.written;
    forall u <- s'.threads ensures ThreadOk(cfg, svc, s'.store.kv.Keys, s'.written, u) {
      if u in s.threads {
        assert ThreadOk(cfg, svc, s.store.kv.Keys, s.written, u);
      }
    }
  }

  /** At every point of every interleaving, with any commands failing: both indexes point to questions
    * that have an answer, vectors and fingerprints are those of their questions, and every thread
    * holds what its program point says. */
  lemma {:induction false} InterleavingsAreSafe(cfg: Config, svc: Service, events: seq<Event>)
    requires Lawful(cfg, svc, events)
    ensures SysInv(cfg, svc, RunAll(cfg, svc, events))
  {
    if events != [] {
      var before, e := events[..|events| - 1], events[|events| - 1];
      InterleavingsAreSafe(cfg, svc, before);
      var s := RunAll(cfg, svc, before);
      if e.Step? && e.i < |s.threads| {
        StepKeeps(cfg, svc, s, e.i, e.sig);
      }
    }
  }

  /** The answer of a concurrent hit was written, whole, for a question that may share with the query. */
  lemma ConcurrentHitProvenance(cfg: Config, svc: Service, events: seq<Event>, i: nat)
    requires Lawful(cfg, svc, events) && i < |RunAll(cfg, svc, events).threads|
    requires var t := RunAll(cfg, svc, events).threads[i]; t.Asker? && t.apc.ADone? && t.apc.result.Some?
    ensures var s := RunAll(cfg, svc, events);
            var (cq, ans) := s.threads[i].apc.result.value;
            ans != "" && (cq, ans) in s.written && Justifies(cfg, svc, s.threads[i].q, cq)
  {
    InterleavingsAreSafe(cfg, svc, events);
    var s := RunAll(cfg, svc, events);
    assert ThreadOk(cfg, svc, s.store.kv.Keys, s.written, s.threads[i]);
  }

  // ---------- the steps of one thread alone are the whole operation ----------

  /** How the commands of one operation are answered, as the operation itself is told. */
  datatype Script = WriteScript(ok: WriteOk) | AskScript(env: QueryEnv) | FillScript(granted: bool, tries: seq<Attempt>)

  function Answer(script: Script, t: Thread): Signal {
    match (script, t)
    case (WriteScript(ok), Writer(_, _, pc)) =>
      Signal(match pc
             case WEmbed => ok.embed
             case WSetAnswer => ok.setAnswer
             case WSetVec => ok.setVec
             case WSetOld => ok.setOld
             case _ => ok.setFp,
             None, false)
    case (AskScript(env), Asker(_, pc)) =>
      Signal(match pc
             case AEmbed => env.embed
             case AGetFp => env.getFp
             case ADecide(_) => env.decision
             case AGetAnswer(_) => env.getFpAnswer
             case AHget(_, _) => env.hget
             case _ => env.getAnswer,
             env.vsearch, env.batch)
    case (FillScript(granted, tries), Filler(_, pc)) =>
      Signal(match pc
             case FGate => granted
             case FEmbed(n) => n < |tries| && tries[n].embed
             case FHget(n) => n < |tries| && tries[n].hget
             case FHset(n) => n < |tries| && tries[n].hset
             case FDone => false,
             None, false)
    case _ => Signal(false, None, false)
  }

  /** One step of a thread that runs alone; a backfill started earlier is remembered. */
  function Advance(cfg: Config, svc: Service, vecOn: bool, from: Effect, script: Script): Effect {
    var eff := StepOf(cfg, svc, vecOn, from.store, from.thread, Answer(script, from.thread));
    eff.(spawn := if eff.spawn.Some? then eff.spawn else from.spawn)
  }

  /** `n` steps of a thread that runs alone. */
  function Alone(cfg: Config, svc: Service, vecOn: bool, from: Effect, script: Script, n: nat): Effect
    decreases n
  {
    if n == 0 then from else Alone(cfg, svc, vecOn, Advance(cfg, svc, vecOn, from, script), script, n - 1)
  }

  lemma WriterAlone(cfg: Config, svc: Service, vecOn: bool, st: Store, q: string, a: string, ok: WriteOk, n: nat)
    requires n >= 5
    ensures Alone(cfg, svc, vecOn, Effect(st, Writer(q, a, WEmbed), None), WriteScript(ok), n)
         == Effect(Write(cfg, svc, vecOn, st, q, a, ok), Writer(q, a, WDone), None)
  {
    var f := WriteScript(ok);
    var st1 := SetAnswer(st, q, a);
    if !(cfg.enabled && ok.embed && Admitted(svc.meta(q))) {
      WriterDoneStays(cfg, svc, vecOn, Effect(st, Writer(q, a, WDone), None), f, n - 1);
    } else {
      var e1 := Effect(st, Writer(q, a, WSetAnswer), None);
      assert Alone(cfg, svc, vecOn, Effect(st, Writer(q, a, WEmbed), None), f, n)
          == Alone(cfg, svc, vecOn, e1, f, n - 1);
      if !ok.setAnswer {
        WriterDoneStays(cfg, svc, vecOn, Effect(st, Writer(q, a, WDone), None), f, n - 2);
      } else {
        WriterTail(cfg, svc, vecOn, st1, q, a, ok, n - 2);
      }
    }
  }

  lemma FpAlone(cfg: Config, svc: Service, vecOn: bool, st: Store, q: string, a: string, ok: WriteOk, n: nat)
    requires n >= 1
    ensures Alone(cfg, svc, vecOn, Effect(st, Writer(q, a, WSetFp), None), WriteScript(ok), n)
         == Effect(WriteFp(cfg, svc, st, q, ok), Writer(q, a, WDone), None)
  {
    WriterDoneStays(cfg, svc, vecOn, Effect(WriteFp(cfg, svc, st, q, ok), Writer(q, a, WDone), None),
                    WriteScript(ok), n - 1);
  }

  /** From the vectors to the end. */
  lemma WriterTail(cfg: Config, svc: Service, vecOn: bool, st: Store, q: string, a: string, ok: WriteOk, n: nat)
    requires n >= 3
    ensures Alone(cfg, svc, vecOn, Effect(st, Writer(q, a, if vecOn then WSetVec else WSetFp), None),
                  WriteScript(ok), n)
         == Effect(WriteFp(cfg, svc, WriteVectors(cfg, svc, vecOn, st, q, ok), q, ok), Writer(q, a, WDone), None)
  {
    var st2 := WriteVectors(cfg, svc, vecOn, st, q, ok);
    if !vecOn {
      FpAlone(cfg, svc, vecOn, st2, q, a, ok, n);
    } else {
      var e := Effect(st, Writer(q, a, WSetVec), None);
      var e1 := Advance(cfg, svc, vecOn, e, WriteScript(ok));
      assert Alone(cfg, svc, vecOn, e, WriteScript(ok), n) == Alone(cfg, svc, vecOn, e1, WriteScript(ok), n - 1);
      if cfg.dualWrite && Ns(cfg) != OLD_NS {
        assert Advance(cfg, svc, vecOn, e1, WriteScript(ok)) == Effect(st2, Writer(q, a, WSetFp), None);
        FpAlone(cfg, svc, vecOn, st2, q, a, ok, n - 2);
      } else {
        FpAlone(cfg, svc, vecOn, st2, q, a, ok, n - 1);
      }
    }
  }

  lemma {:induction false} WriterDoneStays(cfg: Config, svc: Service, vecOn: bool, e: Effect, script: Script, n: nat)
    requires e.thread.Writer? && e.thread.wpc == WDone
    ensures Alone(cfg, svc, vecOn, e, script, n) == e
  {
    if n > 0 {
      WriterDoneStays(cfg, svc, vecOn, e, script, n - 1);
    }
  }

  lemma {:induction false} FillerDoneStays(cfg: Config, svc: Service, vecOn: bool, e: Effect, script: Script, n: nat)
    requires e.thread.Filler? && e.thread.fpc == FDone
    ensures Alone(cfg, svc, vecOn, e, script, n) == e
  {
    if n > 0 {
      FillerDoneStays(cfg, svc, vecOn, e, script, n - 1);
    }
  }

  /** One attempt takes at most three steps; where it fails the next one begins, after the second none. */
  lemma AttemptAlone(cfg: Config, svc: Service, vecOn: bool, st: Store, q: string, script: Script, i: nat, n: nat)
    returns (left: nat)
    requires script.FillScript? && i < |script.tries| && n >= 3
    ensures left >= n - 3
    ensures var (st', done) := Try(cfg, svc, st, q, script.tries[i]);
            Alone(cfg, svc, vecOn, Effect(st, Filler(q, FEmbed(i)), None), script, n) ==
            Alone(cfg, svc, vecOn, Effect(st', Filler(q, if done then FDone else Retry(i)), None), script, left)
  {
    var t := script.tries[i];
    var e0 := Effect(st, Filler(q, FEmbed(i)), None);
    var e1 := Advance(cfg, svc, vecOn, e0, script);
    assert Alone(cfg, svc, vecOn, e0, script, n) == Alone(cfg, svc, vecOn, e1, script, n - 1);
    if !t.embed {
      left := n - 1;
    } else {
      var e2 := Advance(cfg, svc, vecOn, e1, script);
      assert Alone(cfg, svc, vecOn, e1, script, n - 1) == Alone(cfg, svc, vecOn, e2, script, n - 2);
      if VecExists(cfg, st, t.hget, q) {
        left := n - 2;
      } else {
        assert Alone(cfg, svc, vecOn, e2, script, n - 2)
            == Alone(cfg, svc, vecOn, Advance(cfg, svc, vecOn, e2, script), script, n - 3);
        left := n - 3;
      }
    }
  }

  /** Undisturbed, the steps of a backfill give the whole operation. */
  lemma FillerAlone(cfg: Config, svc: Service, vecOn: bool, st: Store, q: string, granted: bool, t0: Attempt,
                    t1: Attempt, n: nat)
    requires n >= 7
    ensures Alone(cfg, svc, vecOn, Effect(st, Filler(q, FGate), None), FillScript(granted, [t0, t1]), n)
         == Effect(Backfill(cfg, svc, vecOn, st, q, granted, t0, t1), Filler(q, FDone), None)
  {
    var f := FillScript(granted, [t0, t1]);
    if !(vecOn && q != "" && granted) {
      FillerDoneStays(cfg, svc, vecOn, Effect(st, Filler(q, FDone), None), f, n - 1);
    } else {
      assert Alone(cfg, svc, vecOn, Effect(st, Filler(q, FGate), None), f, n)
          == Alone(cfg, svc, vecOn, Effect(st, Filler(q, FEmbed(0)), None), f, n - 1);
      var left := AttemptAlone(cfg, svc, vecOn, st, q, f, 0, n - 1);
      var (st0, done) := Try(cfg, svc, st, q, t0);
      if done {
        FillerDoneStays(cfg, svc, vecOn, Effect(st0, Filler(q, FDone), None), f, left);
      } else {
        var last := AttemptAlone(cfg, svc, vecOn, st0, q, f, 1, left);
        var st1 := Try(cfg, svc, st0, q, t1).0;
        FillerDoneStays(cfg, svc, vecOn, Effect(st1, Filler(q, FDone), None), f, last);
      }
    }
  }

  function OutcomeOf(e: Effect): Outcome
    requires e.thread.Asker? && e.thread.apc.ADone?
  {
    match e.thread.apc.result
    case None => MISS
    case Some(r) => Outcome(r.1, true, e.spawn)
  }

  lemma {:induction false} DoneStays(cfg: Config, svc: Service, vecOn: bool, e: Effect, script: Script, n: nat)
    requires e.thread.Asker? && e.thread.apc.ADone?
    ensures Alone(cfg, svc, vecOn, e, script, n) == e
  {
    if n > 0 {
      DoneStays(cfg, svc, vecOn, e, script, n - 1);
    }
  }

  /** A finished CacheQuery with this outcome. */
  predicate Finished(e: Effect, st: Store, o: Outcome) {
    e.store == st && e.thread.Asker? && e.thread.apc.ADone? && OutcomeOf(e) == o
  }

  function FetchResult(cq: string, ans: Option<string>): Option<(string, string)> {
    if ans.Some? then Some((cq, ans.value)) else None
  }

  lemma FetchAlone(cfg: Config, svc: Service, vecOn: bool, st: Store, q: string, env: QueryEnv, cq: string, n: nat)
    requires n >= 1
    ensures Alone(cfg, svc, vecOn, Effect(st, Asker(q, AFetch(cq)), None), AskScript(env), n)
         == Effect(st, Asker(q, ADone(FetchResult(cq, FetchIf(st, env.getAnswer, cq)))), None)
  {
    DoneStays(cfg, svc, vecOn, Effect(st, Asker(q, ADone(FetchResult(cq, FetchIf(st, env.getAnswer, cq)))), None),
              AskScript(env), n - 1);
  }

  lemma VectorsAlone(cfg: Config, svc: Service, vecOn: bool, st: Store, q: string, env: QueryEnv, n: nat)
    requires n >= 2
    ensures Finished(Alone(cfg, svc, vecOn, Effect(st, Asker(q, AVectors), None), AskScript(env), n), st,
                     VectorPath(cfg, svc, vecOn, st, q, env))
  {
    var e := Effect(st, Asker(q, AVectors), None);
    var e1 := Advance(cfg, svc, vecOn, e, AskScript(env));
    assert Alone(cfg, svc, vecOn, e, AskScript(env), n) == Alone(cfg, svc, vecOn, e1, AskScript(env), n - 1);
    if e1.thread.apc.ADone? {
      DoneStays(cfg, svc, vecOn, e1, AskScript(env), n - 1);
    } else {
      FetchAlone(cfg, svc, vecOn, st, q, env, e1.thread.apc.cq, n - 1);
    }
  }

  /** From the fingerprint lookup on: up to four steps, and the vectors where it fails. */
  lemma FingerprintAlone(cfg: Config, svc: Service, vecOn: bool, st: Store, q: string, env: QueryEnv, n: nat)
    requires n >= 5 && UsesFingerprint(cfg, svc.meta(q))
    ensures Finished(Alone(cfg, svc, vecOn, Effect(st, Asker(q, AGetFp), None), AskScript(env), n), st,
                     match FastPath(cfg, svc, vecOn, st, q, env)
                     case Some(o) => o
                     case None => VectorPath(cfg, svc, vecOn, st, q, env))
  {
    var f := AskScript(env);
    var e := Effect(st, Asker(q, AGetFp), None);
    var v := Effect(st, Asker(q, AVectors), None);
    var cand := FpCandidate(st, svc.meta(q), env.getFp);
    if cand == None {
      assert Alone(cfg, svc, vecOn, e, f, n) == Alone(cfg, svc, vecOn, v, f, n - 1);
      VectorsAlone(cfg, svc, vecOn, st, q, env, n - 1);
    } else {
      var e1 := Effect(st, Asker(q, ADecide(cand.value)), None);
      assert Alone(cfg, svc, vecOn, e, f, n) == Alone(cfg, svc, vecOn, e1, f, n - 1);
      CandidateAlone(cfg, svc, vecOn, st, q, env, cand.value, n - 1);
    }
  }

  lemma CandidateAlone(cfg: Config, svc: Service, vecOn: bool, st: Store, q: string, env: QueryEnv, cq: string, n: nat)
    requires n >= 4 && UsesFingerprint(cfg, svc.meta(q)) && FpCandidate(st, svc.meta(q), env.getFp) == Some(cq)
    ensures Finished(Alone(cfg, svc, vecOn, Effect(st, Asker(q, ADecide(cq)), None), AskScript(env), n), st,
                     match FastPath(cfg, svc, vecOn, st, q, env)
                     case Some(o) => o
                     case None => VectorPath(cfg, svc, vecOn, st, q, env))
  {
    var f := AskScript(env);
    var e1 := Effect(st, Asker(q, ADecide(cq)), None);
    var v := Effect(st, Asker(q, AVectors), None);
    if !env.decision || !FpApproves(svc, q, cq) {
      assert Alone(cfg, svc, vecOn, e1, f, n) == Alone(cfg, svc, vecOn, v, f, n - 1);
      VectorsAlone(cfg, svc, vecOn, st, q, env, n - 1);
    } else {
      var e2 := Effect(st, Asker(q, AGetAnswer(cq)), None);
      assert Alone(cfg, svc, vecOn, e1, f, n) == Alone(cfg, svc, vecOn, e2, f, n - 1);
      var ans := FetchIf(st, env.getFpAnswer, cq);
      if ans == None {
        assert Alone(cfg, svc, vecOn, e2, f, n - 1) == Alone(cfg, svc, vecOn, v, f, n - 2);
        VectorsAlone(cfg, svc, vecOn, st, q, env, n - 2);
      } else {
        var e3 := Effect(st, Asker(q, AHget(cq, ans.value)), None);
        assert Alone(cfg, svc, vecOn, e2, f, n - 1) == Alone(cfg, svc, vecOn, e3, f, n - 2);
        HgetAlone(cfg, svc, vecOn, st, q, env, cq, ans.value, n - 2);
      }
    }
  }

  lemma HgetAlone(cfg: Config, svc: Service, vecOn: bool, st: Store, q: string, env: QueryEnv, cq: string,
                  ans: string, n: nat)
    requires n >= 1
    ensures var missing := cfg.asyncBackfill && vecOn && !VecExists(cfg, st, env.hget, cq);
            Finished(Alone(cfg, svc, vecOn, Effect(st, Asker(q, AHget(cq, ans)), None), AskScript(env), n), st,
                     Outcome(ans, true, if missing then Some(cq) else None))
  {
    var missing := cfg.asyncBackfill && vecOn && !VecExists(cfg, st, env.hget, cq);
    DoneStays(cfg, svc, vecOn, Effect(st, Asker(q, ADone(Some((cq, ans)))), if missing then Some(cq) else None),
              AskScript(env), n - 1);
  }

  /** Undisturbed, the steps of a CacheQuery give the outcome of the whole operation. */
  lemma AskerAlone(cfg: Config, svc: Service, vecOn: bool, st: Store, q: string, env: QueryEnv, n: nat)
    requires n >= 6
    ensures Finished(Alone(cfg, svc, vecOn, Effect(st, Asker(q, AEmbed), None), AskScript(env), n), st,
                     Query(cfg, svc, vecOn, st, q, env))
  {
    var f := AskScript(env);
    if !cfg.enabled || !env.embed || !Admitted(svc.meta(q)) {
      DoneStays(cfg, svc, vecOn, Effect(st, Asker(q, ADone(None)), None), f, n - 1);
    } else if UsesFingerprint(cfg, svc.meta(q)) {
      FingerprintAlone(cfg, svc, vecOn, st, q, env, n - 1);
    } else {
      VectorsAlone(cfg, svc, vecOn, st, q, env, n - 1);
    }
  }
}
