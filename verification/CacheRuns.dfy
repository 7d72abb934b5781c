/** Whole runs of the cache: what a hit means, and that the fingerprint index refines a simple map. */
module CacheRuns {
  import opened Common
  import opened VectorSelect
  import opened SemCacheModel
  import opened Parsing
  import opened Decision
  import VectorCodec

  datatype Op =
    | OpWrite(q: string, a: string, ok: WriteOk)
    | OpQuery(q: string, env: QueryEnv)
    | OpBackfill(q: string, granted: bool, t0: Attempt, t1: Attempt)

  /** The setting of a run: configuration, service and whether vectors are enabled. */
  datatype World = World(cfg: Config, svc: Service, vecOn: bool)

  function Exec(w: World, st: Store, op: Op): Store {
    match op
    case OpWrite(q, a, ok) => Write(w.cfg, w.svc, w.vecOn, st, q, a, ok)
    case OpQuery(_, _) => st
    case OpBackfill(q, granted, t0, t1) => Backfill(w.cfg, w.svc, w.vecOn, st, q, granted, t0, t1)
  }

  function Run(w: World, ops: seq<Op>): Store {
    if ops == [] then EMPTY else Exec(w, Run(w, ops[..|ops| - 1]), ops[|ops| - 1])
  }

  /** Writes of tidy questions; backfills of questions that an earlier hit answered. */
  ghost predicate Legal(w: World, ops: seq<Op>) {
    ops == [] ||
    var before, op := ops[..|ops| - 1], ops[|ops| - 1];
    && Legal(w, before)
    && (op.OpWrite? ==> Tidy(w.cfg, op.q))
    && (op.OpBackfill? ==> Hygienic(op.q) && op.q in Run(w, before).kv)
  }

  /** The answer most recently stored under a question. */
  function LastStored(w: World, ops: seq<Op>, q: string): Option<string> {
    if ops == [] then None
    else
      var op := ops[|ops| - 1];
      if op.OpWrite? && op.q == q && WriteStarts(w.cfg, w.svc, q, op.ok) then Some(op.a)
      else LastStored(w, ops[..|ops| - 1], q)
  }

  /** Operation `i` of a run stores an answer under `q`: a write of an admitted question whose encoding and
    * first command work. */
  predicate StoresAt(w: World, ops: seq<Op>, i: nat, q: string) {
    && i < |ops| && ops[i].OpWrite? && ops[i].q == q
    && w.cfg.enabled && ops[i].ok.embed && ops[i].ok.setAnswer
    && !w.svc.meta(q).bypass && (w.svc.meta(q).subject != "" || w.svc.meta(q).subjectId != "")
  }

  /** The last operation that stores an answer under a question decides. */
  lemma {:induction false} LastStoredExactly(w: World, ops: seq<Op>, q: string, a: string)
    ensures LastStored(w, ops, q) == Some(a) <==>
            exists i: nat ::
              StoresAt(w, ops, i, q) && ops[i].a == a && forall j | i < j < |ops| :: !StoresAt(w, ops, j, q)
  {
    if ops != [] {
      var n := |ops| - 1;
      var before := ops[..n];
      LastStoredExactly(w, before, q, a);
      forall i: nat | i < n ensures StoresAt(w, ops, i, q) == StoresAt(w, before, i, q) && ops[i] == before[i] {
      }
      if StoresAt(w, ops, n, q) {
        assert LastStored(w, ops, q) == Some(ops[n].a);
      }
    }
  }

  lemma {:induction false} RunKeeps(w: World, ops: seq<Op>)
    requires Legal(w, ops)
    ensures StoreInv(w.cfg, w.svc, Run(w, ops))
  {
    if ops != [] {
      var before, op := ops[..|ops| - 1], ops[|ops| - 1];
      RunKeeps(w, before);
      var st := Run(w, before);
      match op
      case OpWrite(q, a, ok) => WriteKeeps(w.cfg, w.svc, w.vecOn, st, q, a, ok);
      case OpQuery(_, _) =>
      case OpBackfill(q, granted, t0, t1) => BackfillKeeps(w.cfg, w.svc, w.vecOn, st, q, granted, t0, t1);
    }
  }

  /** Under a question's own key the store holds the last answer stored for it, and nothing else. */
  lemma {:induction false} AnswersAreLast(w: World, ops: seq<Op>, q: string)
    requires Legal(w, ops) && Hygienic(q)
    ensures Run(w, ops).kv.Keys * {q} == (if LastStored(w, ops, q).Some? then {q} else {})
    ensures q in Run(w, ops).kv ==> LastStored(w, ops, q) == Some(Run(w, ops).kv[q])
  {
    if ops != [] {
      var before, op := ops[..|ops| - 1], ops[|ops| - 1];
      AnswersAreLast(w, before, q);
      var st := Run(w, before);
      match op
      case OpWrite(p, a, ok) =>
        assert HasPrefix(FP_PREFIX + w.svc.meta(p).fingerprint, FP_PREFIX);
      case OpQuery(_, _) =>
      case OpBackfill(p, granted, t0, t1) =>
        RunKeeps(w, before);
        BackfillKeeps(w.cfg, w.svc, w.vecOn, st, p, granted, t0, t1);
    }
  }

  // ---------- provenance of hits ----------

  /** VSEARCH names keys that the hash engine holds. */
  ghost predicate HonestSearch(cfg: Config, st: Store, reply: Option<seq<string>>) {
    reply.Some? ==> forall k <- reply.value | HasPrefix(k, Ns(cfg)) :: k in st.hash
  }

  /** `cq` justifies a hit of `q`: the rules let the two share, softly only if that is allowed. */
  predicate Justifies(cfg: Config, svc: Service, q: string, cq: string) {
    svc.decide(q, cq).shared && (svc.decide(q, cq).soft ==> cfg.softFallback)
  }

  /** What a vector hit rests on: an entry of the reply, approved by the batch decision. */
  lemma VectorHitSource(w: World, st: Store, q: string, env: QueryEnv) returns (cq: string)
    requires StoreInv(w.cfg, w.svc, st) && HonestSearch(w.cfg, st, env.vsearch)
    requires VectorPath(w.cfg, w.svc, w.vecOn, st, q, env).hit
    ensures Hygienic(cq) && Justifies(w.cfg, w.svc, q, cq) && env.batch
    ensures Fetch(st, cq) == Some(VectorPath(w.cfg, w.svc, w.vecOn, st, q, env).answer)
  {
    cq := VectorPick(w.cfg, w.svc, w.vecOn, q, env.vsearch, env.batch).value;
    PickIsJustified(w, st, q, env.vsearch, env.batch);
  }

  /** The question that the vectors single out is stored and approved. */
  lemma PickIsJustified(w: World, st: Store, q: string, reply: Option<seq<string>>, batch: bool)
    requires StoreInv(w.cfg, w.svc, st) && HonestSearch(w.cfg, st, reply)
    requires VectorPick(w.cfg, w.svc, w.vecOn, q, reply, batch).Some?
    ensures var cq := VectorPick(w.cfg, w.svc, w.vecOn, q, reply, batch).value;
            Hygienic(cq) && cq in st.kv && Justifies(w.cfg, w.svc, q, cq) && batch
  {
    var hits := HitsOf(w.svc.parseScore, Ns(w.cfg), TopK(w.cfg), reply);
    var decs := Decisions(w.svc, q, Questions(hits), batch);
    var best := Choose(w.cfg.minMargin, Candidates(w.cfg, w.svc, q, reply, batch)).value;
    var i := ChosenHit(w.svc.parseScore, Ns(w.cfg), TopK(w.cfg), reply, w.cfg.acceptance, w.cfg.softFallback,
                       decs, w.cfg.minMargin, best);
    assert Questions(hits)[i] == best.q;
    assert HasPrefix(Ns(w.cfg) + best.q, Ns(w.cfg));
    SearchedHasAnswer(w, st, best.q);
  }

  lemma SearchedHasAnswer(w: World, st: Store, cq: string)
    requires StoreInv(w.cfg, w.svc, st) && Ns(w.cfg) + cq in st.hash
    ensures Hygienic(cq) && cq in st.kv
  {
  }

  /** Every hit of every run, whatever failed on the way, returns the non-empty answer last stored for
    * some question that the rules let the query share. */
  lemma HitProvenance(w: World, ops: seq<Op>, q: string, env: QueryEnv)
    requires Legal(w, ops) && HonestSearch(w.cfg, Run(w, ops), env.vsearch)
    requires Query(w.cfg, w.svc, w.vecOn, Run(w, ops), q, env).hit
    ensures var ans := Query(w.cfg, w.svc, w.vecOn, Run(w, ops), q, env).answer;
            ans != "" && exists cq :: Justifies(w.cfg, w.svc, q, cq) && LastStored(w, ops, cq) == Some(ans)
  {
    var st := Run(w, ops);
    var m := w.svc.meta(q);
    RunKeeps(w, ops);
    var cq;
    if FastPath(w.cfg, w.svc, w.vecOn, st, q, env).Some? {
      cq := FpCandidate(st, m, env.getFp).value;
      assert FpEntryOk(w.svc, st, FP_PREFIX + m.fingerprint);
    } else {
      cq := VectorHitSource(w, st, q, env);
    }
    AnswersAreLast(w, ops, cq);
    assert Justifies(w.cfg, w.svc, q, cq);
  }

  /** What a hit hands to a background backfill is a question that the backfill may index: its answer is
    * stored, and stays stored in every later store of the run. */
  lemma SpawnedBackfillIsLegal(w: World, ops: seq<Op>, q: string, env: QueryEnv, later: seq<Op>)
    requires Legal(w, ops + later)
    requires Query(w.cfg, w.svc, w.vecOn, Run(w, ops), q, env).backfill.Some?
    ensures var cq := Query(w.cfg, w.svc, w.vecOn, Run(w, ops), q, env).backfill.value;
            Legal(w, ops + later + [OpBackfill(cq, true, Attempt(true, true, true), Attempt(true, true, true))])
  {
    var st := Run(w, ops);
    var m := w.svc.meta(q);
    LegalPrefix(w, ops, later);
    RunKeeps(w, ops);
    var cq := FpCandidate(st, m, env.getFp).value;
    assert FpEntryOk(w.svc, st, FP_PREFIX + m.fingerprint);
    var all := ops + later;
    var op := OpBackfill(cq, true, Attempt(true, true, true), Attempt(true, true, true));
    assert (all + [op])[..|all + [op]| - 1] == all;
    assert cq in Run(w, all).kv;
  }

  lemma {:induction false} LegalPrefix(w: World, ops: seq<Op>, later: seq<Op>)
    requires Legal(w, ops + later)
    ensures Legal(w, ops) && Run(w, ops).kv.Keys <= Run(w, ops + later).kv.Keys
  {
    if later == [] {
      assert ops + later == ops;
    } else {
      var init := later[..|later| - 1];
      assert (ops + later)[..|ops + later| - 1] == ops + init;
      LegalPrefix(w, ops, init);
    }
  }

  /** Refusals: a failed encoding, a bypassed question or one without any subject always misses. */
  lemma MissesWithoutAdmission(w: World, st: Store, q: string, env: QueryEnv)
    requires !w.cfg.enabled || !env.embed || w.svc.meta(q).bypass
          || (w.svc.meta(q).subject == "" && w.svc.meta(q).subjectId == "")
          || ((!env.getFp || !env.decision || !env.getFpAnswer)
            && (!env.batch || !env.getAnswer || env.vsearch == None))
    ensures Query(w.cfg, w.svc, w.vecOn, st, q, env) == MISS
  {
    if FastPath(w.cfg, w.svc, w.vecOn, st, q, env) == None && w.vecOn {
      var hits := HitsOf(w.svc.parseScore, Ns(w.cfg), TopK(w.cfg), env.vsearch);
      var decs := Decisions(w.svc, q, Questions(hits), env.batch);
      var choice := Choose(w.cfg.minMargin, Candidates(w.cfg, w.svc, q, env.vsearch, env.batch));
      if choice.Some? && env.getAnswer {
        var i := ChosenHit(w.svc.parseScore, Ns(w.cfg), TopK(w.cfg), env.vsearch, w.cfg.acceptance, w.cfg.softFallback,
                           decs, w.cfg.minMargin, choice.value);
      }
    }
  }

  // ---------- the fingerprint index refines a map ----------

  /** All commands of the run succeed. */
  predicate Reliable(op: Op) {
    op.OpWrite? ==> op.ok == ALL_OK
  }

  /** The simple map behind the index: fingerprint to the last question and answer written for it. */
  function LastByFingerprint(w: World, ops: seq<Op>, fp: string): Option<(string, string)> {
    if ops == [] then None
    else
      var op := ops[|ops| - 1];
      if op.OpWrite? && Admitted(w.svc.meta(op.q)) && w.svc.meta(op.q).eligible && w.svc.meta(op.q).fingerprint == fp
      then Some((op.q, op.a))
      else LastByFingerprint(w, ops[..|ops| - 1], fp)
  }

  /** Operation `i` of a run is a write of an admitted, eligible question with this fingerprint. */
  predicate IndexesAt(w: World, ops: seq<Op>, i: nat, fp: string) {
    i < |ops| && ops[i].OpWrite? &&
    var m := w.svc.meta(ops[i].q);
    !m.bypass && (m.subject != "" || m.subjectId != "") && m.eligible && m.fingerprint == fp
  }

  /** The map shows the question and the answer of the last such write. */
  lemma {:induction false} LastByFingerprintExactly(w: World, ops: seq<Op>, fp: string, entry: (string, string))
    ensures LastByFingerprint(w, ops, fp) == Some(entry) <==>
            exists i: nat :: IndexesAt(w, ops, i, fp) && (ops[i].q, ops[i].a) == entry
                             && forall j | i < j < |ops| :: !IndexesAt(w, ops, j, fp)
  {
    if ops != [] {
      var n := |ops| - 1;
      var before := ops[..n];
      LastByFingerprintExactly(w, before, fp, entry);
      forall i: nat | i < n ensures IndexesAt(w, ops, i, fp) == IndexesAt(w, before, i, fp) && ops[i] == before[i] {
      }
      if IndexesAt(w, ops, n, fp) {
        assert LastByFingerprint(w, ops, fp) == Some((ops[n].q, ops[n].a));
      }
    }
  }

  predicate FpEnabled(w: World) {
    w.cfg.enabled && w.cfg.fpEnabled
  }

  /** The store shows exactly this entry of the map under the fingerprint. */
  ghost predicate IndexShows(svc: Service, st: Store, fp: string, entry: Option<(string, string)>) {
    var key := FP_PREFIX + fp;
    match entry
    case None => key !in st.kv
    case Some((cq, a)) =>
      && key in st.kv && st.kv[key] == cq
      && cq in st.kv && st.kv[cq] == a
      && Hygienic(cq) && svc.meta(cq).fingerprint == fp && svc.meta(cq).eligible
  }

  lemma {:induction false} IndexFollowsMap(w: World, ops: seq<Op>, fp: string)
    requires FpEnabled(w) && Legal(w, ops) && (forall op <- ops :: Reliable(op)) && fp != ""
    ensures IndexShows(w.svc, Run(w, ops), fp, LastByFingerprint(w, ops, fp))
  {
    if ops != [] {
      var before, op := ops[..|ops| - 1], ops[|ops| - 1];
      IndexFollowsMap(w, before, fp);
      assert op in ops && Reliable(op);
      match op
      case OpWrite(q, a, ok) => WriteMovesIndex(w, Run(w, before), q, a, fp, LastByFingerprint(w, before, fp));
      case OpQuery(_, _) =>
      case OpBackfill(q, granted, t0, t1) =>
        RunKeeps(w, before);
        BackfillKeeps(w.cfg, w.svc, w.vecOn, Run(w, before), q, granted, t0, t1);
    }
  }

  /** One complete write moves the map and the store alike. */
  lemma WriteMovesIndex(w: World, st: Store, q: string, a: string, fp: string, entry: Option<(string, string)>)
    requires FpEnabled(w) && Tidy(w.cfg, q) && fp != ""
    requires IndexShows(w.svc, st, fp, entry)
    ensures var m := w.svc.meta(q);
            IndexShows(w.svc, Write(w.cfg, w.svc, w.vecOn, st, q, a, ALL_OK), fp,
                       if Admitted(m) && m.eligible && m.fingerprint == fp then Some((q, a)) else entry)
  {
    var m := w.svc.meta(q);
    var key, own := FP_PREFIX + fp, FP_PREFIX + m.fingerprint;
    assert HasPrefix(key, FP_PREFIX) && HasPrefix(own, FP_PREFIX);
    assert key[|FP_PREFIX|..] == fp && own[|FP_PREFIX|..] == m.fingerprint;
    if Admitted(m) {
      var st' := Write(w.cfg, w.svc, w.vecOn, st, q, a, ALL_OK);
      if UsesFingerprint(w.cfg, m) {
        assert st'.kv == st.kv[q := a][own := q];
      } else {
        assert st'.kv == st.kv[q := a];
      }
    }
  }

  /** The service approves what has the same fingerprint. */
  ghost predicate FastSound(svc: Service) {
    forall q, c | svc.meta(q).eligible && svc.meta(c).eligible && svc.meta(q).fingerprint == svc.meta(c).fingerprint
                  && svc.meta(q).fingerprint != "" :: FpApproves(svc, q, c)
  }

  predicate LiveEnv(env: QueryEnv) {
    env.embed && env.getFp && env.decision && env.getFpAnswer
  }

  /** CacheQuery on an eligible question returns exactly the last answer written for any question with
    * its fingerprint; without one, or if question or answer were empty, the vectors decide. */
  lemma CacheRefinesMap(w: World, ops: seq<Op>, q: string, env: QueryEnv)
    requires FpEnabled(w) && Legal(w, ops) && (forall op <- ops :: Reliable(op))
    requires FastSound(w.svc) && LiveEnv(env)
    requires Admitted(w.svc.meta(q)) && w.svc.meta(q).eligible && w.svc.meta(q).fingerprint != ""
    ensures var o := Query(w.cfg, w.svc, w.vecOn, Run(w, ops), q, env);
            match LastByFingerprint(w, ops, w.svc.meta(q).fingerprint)
            case Some((cq, a)) =>
              if cq != "" && a != "" then o.hit && o.answer == a
              else o == VectorPath(w.cfg, w.svc, w.vecOn, Run(w, ops), q, env)
            case None => o == VectorPath(w.cfg, w.svc, w.vecOn, Run(w, ops), q, env)
  {
    var fp := w.svc.meta(q).fingerprint;
    IndexFollowsMap(w, ops, fp);
    match LastByFingerprint(w, ops, fp) {
      case None =>
      case Some((cq, _)) => assert FpApproves(w.svc, q, cq);
    }
  }

  // ---------- the real service ----------

  /** The semantic service built from a parser and the rules. */
  function ServiceOf(parse: string -> ParsedQuery, rules: Rules, embed: string -> seq<VectorCodec.float32>,
                     parseScore: string -> Option<real>): Service
  {
    Service(
      t => MetaOf(parse(t), embed(t)),
      (q, c) => Decide(rules, parse(q), parse(c)),
      parseScore)
  }

  function MetaOf(p: ParsedQuery, vec: seq<VectorCodec.float32>): Meta {
    Meta(vec, p.bypassCache, p.subjectText.GetOr(""), p.subjectId.GetOr(""), p.fingerprint.GetOr(""),
      p.fingerprintEligible)
  }

  /** A parsed question may use the cache exactly when it is not to bypass it and has a subject, be it in words
    * only; everything else that the service tells about it are its own slots and the rules' own verdicts. */
  lemma ServiceExactly(parse: string -> ParsedQuery, rules: Rules, embed: string -> seq<VectorCodec.float32>,
                       parseScore: string -> Option<real>, t: string, u: string)
    ensures var svc, p := ServiceOf(parse, rules, embed, parseScore), parse(t);
            var m := svc.meta(t);
            && (Admitted(m) <==> !p.bypassCache && (Truthy(p.subjectText) || Truthy(p.subjectId)))
            && m.vec == embed(t) && m.eligible == p.fingerprintEligible
            && (if Truthy(p.fingerprint) then p.fingerprint == Some(m.fingerprint) else m.fingerprint == "")
            && svc.decide(t, u) == Decide(rules, p, parse(u))
  {
  }

  lemma ServiceIsFastSound(parse: string -> ParsedQuery, rules: Rules, embed: string -> seq<VectorCodec.float32>,
                           parseScore: string -> Option<real>)
    requires SoundParser(parse)
    ensures FastSound(ServiceOf(parse, rules, embed, parseScore))
  {
    var svc := ServiceOf(parse, rules, embed, parseScore);
    forall q, c | svc.meta(q).eligible && svc.meta(c).eligible && svc.meta(q).fingerprint == svc.meta(c).fingerprint
                  && svc.meta(q).fingerprint != ""
      ensures FpApproves(svc, q, c)
    {
      assert EligibleShape(parse(q)) && EligibleShape(parse(c));
      assert parse(q).fingerprint == parse(c).fingerprint;
      assert svc.decide(q, c) == Decide(rules, parse(q), parse(c));
    }
  }

  /** The two results together: with a sound parser and the rules of the source, after any reliable run,
    * asking in any wording that parses to the same eligible slots returns the last answer written. */
  lemma RewordedQuestionHits(parse: string -> ParsedQuery, rules: Rules, embed: string -> seq<VectorCodec.float32>,
                             parseScore: string -> Option<real>, w: World, ops: seq<Op>,
                             q: string, c: string, a: string, env: QueryEnv)
    requires SoundParser(parse) && LiveEnv(env) && w.svc == ServiceOf(parse, rules, embed, parseScore)
    requires FpEnabled(w) && Legal(w, ops) && Tidy(w.cfg, c) && (forall op <- ops :: Reliable(op))
    requires parse(q).fingerprintEligible && parse(c).fingerprintEligible && SameSlots(parse(q), parse(c))
    requires c != "" && a != ""
    ensures var o := Query(w.cfg, w.svc, w.vecOn, Run(w, ops + [OpWrite(c, a, ALL_OK)]), q, env);
            o.hit && o.answer == a
  {
    var last := OpWrite(c, a, ALL_OK);
    var all := ops + [last];
    assert all[..|all| - 1] == ops && all[|all| - 1] == last;
    assert EligibleShape(parse(q)) && EligibleShape(parse(c));
    assert w.svc.meta(q) == MetaOf(parse(q), embed(q)) && w.svc.meta(c) == MetaOf(parse(c), embed(c));
    assert w.svc.meta(q).fingerprint == w.svc.meta(c).fingerprint != "";
    ServiceIsFastSound(parse, rules, embed, parseScore);
    LastIsWrite(w, all, w.svc.meta(q).fingerprint);
    CacheRefinesMap(w, all, q, env);
  }

  lemma LastIsWrite(w: World, ops: seq<Op>, fp: string)
    requires ops != []
    requires ops[|ops| - 1].OpWrite?
    requires var m := w.svc.meta(ops[|ops| - 1].q); Admitted(m) && m.eligible && m.fingerprint == fp
    ensures LastByFingerprint(w, ops, fp) == Some((ops[|ops| - 1].q, ops[|ops| - 1].a))
  {
  }
}
