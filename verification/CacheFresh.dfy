/** Freshness under interleaving: once a write is complete and nobody overwrites it, whoever asks later gets it. */
module CacheFresh {
  import opened Common
  import opened SemCacheModel
  import opened CacheRuns
  import opened CacheConcurrent

  /** A question, its answer and its fingerprint. */
  datatype Target = Target(cq: string, a: string, fp: string)

  /** The write can be found again through its fingerprint. */
  predicate Findable(cfg: Config, svc: Service, tg: Target) {
    && cfg.enabled && cfg.fpEnabled && tg.cq != "" && tg.a != "" && Hygienic(tg.cq)
    && Admitted(svc.meta(tg.cq)) && svc.meta(tg.cq).eligible && svc.meta(tg.cq).fingerprint == tg.fp != ""
  }

  /** The next command of this thread writes the same question's answer, or the same fingerprint's target. */
  predicate Overwrites(cfg: Config, svc: Service, t: Thread, tg: Target) {
    t.Writer? &&
    ((t.wpc == WSetAnswer && t.q == tg.cq)
     || (t.wpc == WSetFp && UsesFingerprint(cfg, svc.meta(t.q)) && svc.meta(t.q).fingerprint == tg.fp))
  }

  /** Any event except that a thread other than `w` overwrites, or a write of an unhygienic question begins. */
  predicate Quiet(cfg: Config, svc: Service, s: Sys, e: Event, tg: Target, w: nat) {
    && (e.Put? ==> Hygienic(e.q))
    && (e.Step? && e.i < |s.threads| && e.i != w ==> !Overwrites(cfg, svc, s.threads[e.i], tg))
  }

  function RunFrom(cfg: Config, svc: Service, s: Sys, events: seq<Event>): Sys
    decreases |events|
  {
    if events == [] then s else RunFrom(cfg, svc, Next(cfg, svc, s, events[0]), events[1..])
  }

  /** All events are quiet, and the commands of thread `i` succeed. */
  predicate Undisturbed(cfg: Config, svc: Service, s: Sys, events: seq<Event>, tg: Target, w: nat, i: nat)
    decreases |events|
  {
    events == [] ||
    (&& Quiet(cfg, svc, s, events[0], tg, w)
     && (events[0].Step? && events[0].i == i ==> events[0].sig.ok)
     && Undisturbed(cfg, svc, Next(cfg, svc, s, events[0]), events[1..], tg, w, i))
  }

  ghost predicate WritersHygienic(s: Sys) {
    forall i | 0 <= i < |s.threads| && s.threads[i].Writer? :: Hygienic(s.threads[i].q)
  }

  lemma OthersStay(cfg: Config, svc: Service, s: Sys, e: Event, i: nat)
    requires i < |s.threads| && !(e.Step? && e.i == i)
    ensures i < |Next(cfg, svc, s, e).threads| && Next(cfg, svc, s, e).threads[i] == s.threads[i]
  {
  }

  lemma HygieneStays(cfg: Config, svc: Service, s: Sys, e: Event)
    requires WritersHygienic(s) && (e.Put? ==> Hygienic(e.q))
    ensures WritersHygienic(Next(cfg, svc, s, e))
  {
  }

  // ---------- the store ----------

  /** The answer is stored under its question. */
  predicate AnswerStored(st: Store, tg: Target) {
    tg.cq in st.kv && st.kv[tg.cq] == tg.a
  }

  predicate TargetStored(st: Store, tg: Target) {
    AnswerStored(st, tg) && FP_PREFIX + tg.fp in st.kv && st.kv[FP_PREFIX + tg.fp] == tg.cq
  }

  /** A command that does not overwrite leaves the answer and the target where they are. */
  lemma CommandKeeps(cfg: Config, svc: Service, vecOn: bool, st: Store, t: Thread, sig: Signal, tg: Target)
    requires Findable(cfg, svc, tg) && !Overwrites(cfg, svc, t, tg) && (t.Writer? ==> Hygienic(t.q))
    ensures var st' := StepOf(cfg, svc, vecOn, st, t, sig).store;
            (AnswerStored(st, tg) ==> AnswerStored(st', tg)) && (TargetStored(st, tg) ==> TargetStored(st', tg))
  {
    if t.Writer? {
      var own, key := FP_PREFIX + svc.meta(t.q).fingerprint, FP_PREFIX + tg.fp;
      assert HasPrefix(own, FP_PREFIX) && HasPrefix(key, FP_PREFIX);
      assert own[|FP_PREFIX|..] == svc.meta(t.q).fingerprint && key[|FP_PREFIX|..] == tg.fp;
    }
  }

  lemma EventKeeps(cfg: Config, svc: Service, s: Sys, e: Event, tg: Target, w: nat)
    requires Findable(cfg, svc, tg) && WritersHygienic(s) && Quiet(cfg, svc, s, e, tg, w) && !(e.Step? && e.i == w)
    ensures var st' := Next(cfg, svc, s, e).store;
            (AnswerStored(s.store, tg) ==> AnswerStored(st', tg))
              && (TargetStored(s.store, tg) ==> TargetStored(st', tg))
  {
    if e.Step? && e.i < |s.threads| {
      CommandKeeps(cfg, svc, s.vecOn, s.store, s.threads[e.i], e.sig, tg);
    }
  }

  // ---------- the writer ----------

  /** How far thread `w` has come with the write, and what the store shows of it by then. */
  predicate WriterAt(s: Sys, w: nat, tg: Target) {
    && w < |s.threads| && s.threads[w].Writer? && s.threads[w].q == tg.cq && s.threads[w].a == tg.a
    && match s.threads[w].wpc
       case WEmbed => true
       case WSetAnswer => true
       case WDone => TargetStored(s.store, tg)
       case _ => AnswerStored(s.store, tg)
  }

  lemma WriterStage(cfg: Config, svc: Service, s: Sys, e: Event, tg: Target, w: nat)
    requires Findable(cfg, svc, tg) && WritersHygienic(s) && Quiet(cfg, svc, s, e, tg, w) && WriterAt(s, w, tg)
    requires e.Step? && e.i == w ==> e.sig.ok
    ensures WriterAt(Next(cfg, svc, s, e), w, tg)
  {
    if !(e.Step? && e.i == w) {
      OthersStay(cfg, svc, s, e, w);
      EventKeeps(cfg, svc, s, e, tg, w);
    } else {
      assert HasPrefix(FP_PREFIX + tg.fp, FP_PREFIX);
    }
  }

  lemma {:induction false} WriterRuns(cfg: Config, svc: Service, s: Sys, events: seq<Event>, tg: Target, w: nat)
    requires Findable(cfg, svc, tg) && WritersHygienic(s) && WriterAt(s, w, tg)
    requires Undisturbed(cfg, svc, s, events, tg, w, w)
    ensures WriterAt(RunFrom(cfg, svc, s, events), w, tg) && WritersHygienic(RunFrom(cfg, svc, s, events))
    decreases |events|
  {
    if events != [] {
      WriterStage(cfg, svc, s, events[0], tg, w);
      HygieneStays(cfg, svc, s, events[0]);
      WriterRuns(cfg, svc, Next(cfg, svc, s, events[0]), events[1..], tg, w);
    }
  }

  // ---------- the asker ----------

  /** How many commands the asker has behind it on its way to this answer; None if it has strayed. */
  function Progress(t: Thread, q: string, tg: Target): Option<nat> {
    if !t.Asker? || t.q != q then None
    else match t.apc
      case AEmbed => Some(0)
      case AGetFp => Some(1)
      case ADecide(cq) => if cq == tg.cq then Some(2) else None
      case AGetAnswer(cq) => if cq == tg.cq then Some(3) else None
      case AHget(cq, ans) => if cq == tg.cq && ans == tg.a then Some(4) else None
      case ADone(Some(r)) => if r == (tg.cq, tg.a) then Some(5) else None
      case _ => None
  }

  /** A question with the target's fingerprint, which the service approves. */
  predicate Matches(cfg: Config, svc: Service, q: string, tg: Target) {
    && Admitted(svc.meta(q)) && svc.meta(q).eligible && svc.meta(q).fingerprint == tg.fp
    && FpApproves(svc, q, tg.cq)
  }

  predicate OnItsWay(s: Sys, j: nat, q: string, tg: Target, n: nat) {
    j < |s.threads| && Progress(s.threads[j], q, tg).Some? && Progress(s.threads[j], q, tg).value >= n
  }

  lemma AskerCommand(cfg: Config, svc: Service, vecOn: bool, st: Store, t: Thread, sig: Signal, q: string, tg: Target)
    requires Findable(cfg, svc, tg) && Matches(cfg, svc, q, tg) && TargetStored(st, tg) && sig.ok
    requires Progress(t, q, tg).Some?
    ensures var p := Progress(StepOf(cfg, svc, vecOn, st, t, sig).thread, q, tg);
            p.Some? && p.value >= if Progress(t, q, tg).value < 5 then Progress(t, q, tg).value + 1 else 5
  {
  }

  function Own(events: seq<Event>, j: nat): nat {
    if events == [] then 0 else (if events[0].Step? && events[0].i == j then 1 else 0) + Own(events[1..], j)
  }

  lemma {:induction false} AskerRuns(cfg: Config, svc: Service, s: Sys, events: seq<Event>, q: string, tg: Target,
                                     w: nat, j: nat, n: nat)
    requires Findable(cfg, svc, tg) && Matches(cfg, svc, q, tg) && WritersHygienic(s) && TargetStored(s.store, tg)
    requires WriterAt(s, w, tg) && s.threads[w].wpc == WDone && j != w && OnItsWay(s, j, q, tg, n)
    requires Undisturbed(cfg, svc, s, events, tg, w, j)
    ensures var m := n + Own(events, j); OnItsWay(RunFrom(cfg, svc, s, events), j, q, tg, if m < 5 then m else 5)
    decreases |events|
  {
    if events != [] {
      var e, s' := events[0], Next(cfg, svc, s, events[0]);
      HygieneStays(cfg, svc, s, e);
      DoneWriterStays(cfg, svc, s, e, tg, w);
      if e.Step? && e.i == j {
        AskerCommand(cfg, svc, s.vecOn, s.store, s.threads[j], e.sig, q, tg);
        AskerRuns(cfg, svc, s', events[1..], q, tg, w, j, if n < 5 then n + 1 else n);
      } else {
        OthersStay(cfg, svc, s, e, j);
        AskerRuns(cfg, svc, s', events[1..], q, tg, w, j, n);
      }
    }
  }

  lemma DoneWriterStays(cfg: Config, svc: Service, s: Sys, e: Event, tg: Target, w: nat)
    requires Findable(cfg, svc, tg) && WritersHygienic(s) && Quiet(cfg, svc, s, e, tg, w)
    requires WriterAt(s, w, tg) && s.threads[w].wpc == WDone
    ensures var s' := Next(cfg, svc, s, e);
            WriterAt(s', w, tg) && s'.threads[w].wpc == WDone && TargetStored(s'.store, tg)
  {
    if !(e.Step? && e.i == w) {
      OthersStay(cfg, svc, s, e, w);
      EventKeeps(cfg, svc, s, e, tg, w);
    }
  }

  // ---------- the result ----------

  lemma TidyIsHygienic(cfg: Config, svc: Service, s: Sys)
    requires SysInv(cfg, svc, s)
    ensures WritersHygienic(s)
  {
    forall i | 0 <= i < |s.threads| && s.threads[i].Writer? ensures Hygienic(s.threads[i].q) {
      assert s.threads[i] in s.threads;
    }
  }

  /** In any lawful interleaving: a writer whose commands succeed completes its write; then a question with the
    * same fingerprint arrives, and its commands succeed. If meanwhile no other writer overwrites, the asker,
    * after five commands of its own among any others, has returned exactly this answer. */
  lemma LaterAskersAreFresh(cfg: Config, svc: Service, events: seq<Event>, writing: seq<Event>, q: string,
                            asking: seq<Event>, tg: Target, w: nat)
    requires Lawful(cfg, svc, events) && Findable(cfg, svc, tg) && Matches(cfg, svc, q, tg)
    requires w < |RunAll(cfg, svc, events).threads|
             && RunAll(cfg, svc, events).threads[w] == Writer(tg.cq, tg.a, WEmbed)
    requires Undisturbed(cfg, svc, RunAll(cfg, svc, events), writing, tg, w, w)
    requires var s1 := RunFrom(cfg, svc, RunAll(cfg, svc, events), writing);
             && w < |s1.threads| && s1.threads[w] == Writer(tg.cq, tg.a, WDone)
             && var s2 := Next(cfg, svc, s1, Ask(q)); Undisturbed(cfg, svc, s2, asking, tg, w, |s1.threads|)
    requires Own(asking, |RunFrom(cfg, svc, RunAll(cfg, svc, events), writing).threads|) >= 5
    ensures var s1 := RunFrom(cfg, svc, RunAll(cfg, svc, events), writing);
            var end := RunFrom(cfg, svc, Next(cfg, svc, s1, Ask(q)), asking);
            |s1.threads| < |end.threads| && end.threads[|s1.threads|] == Asker(q, ADone(Some((tg.cq, tg.a))))
  {
    var s0 := RunAll(cfg, svc, events);
    InterleavingsAreSafe(cfg, svc, events);
    TidyIsHygienic(cfg, svc, s0);
    WriterRuns(cfg, svc, s0, writing, tg, w);
    var s1 := RunFrom(cfg, svc, s0, writing);
    var s2 := Next(cfg, svc, s1, Ask(q));
    HygieneStays(cfg, svc, s1, Ask(q));
    DoneWriterStays(cfg, svc, s1, Ask(q), tg, w);
    AskerRuns(cfg, svc, s2, asking, q, tg, w, |s1.threads|, 0);
  }
}
