/** The semantic answer cache as functions on its store: what each operation reads, answers and writes. */
module SemCacheModel {
  import opened Common
  import opened VectorSelect
  import Decision
  import VectorCodec

  const FP_PREFIX := "semfp:v1:"
  const OLD_NS := "semcache:"
  const DEFAULT_NS := "semd:e5s:v1:"
  const DEFAULT_TOP_K := 30

  /** What /embed tells about a text, missing strings read as empty. */
  datatype Meta = Meta(
    vec: seq<VectorCodec.float32>, bypass: bool, subject: string, subjectId: string,
    fingerprint: string, eligible: bool)

  /** The semantic service and the number parser, as functions of their arguments. */
  datatype Service = Service(
    meta: string -> Meta,
    decide: (string, string) -> Decision.Verdict,
    parseScore: string -> Option<real>)

  datatype Config = Config(
    enabled: bool, fpEnabled: bool, asyncBackfill: bool, acceptance: real, minMargin: real,
    softFallback: bool, topK: int, vectorNamespace: string, dualWrite: bool)

  function Ns(cfg: Config): string {
    if cfg.vectorNamespace != "" then cfg.vectorNamespace else DEFAULT_NS
  }

  function TopK(cfg: Config): nat {
    if cfg.topK < 1 then DEFAULT_TOP_K else cfg.topK
  }

  /** The two engines of the store: plain values (answers and fingerprint targets share one key space)
    * and the hash records that VSEARCH scans. */
  datatype Store = Store(kv: map<string, string>, hash: map<string, seq<VectorCodec.byte>>)

  const EMPTY := Store(map[], map[])

  predicate Admitted(m: Meta) {
    !m.bypass && (m.subject != "" || m.subjectId != "")
  }

  predicate UsesFingerprint(cfg: Config, m: Meta) {
    cfg.fpEnabled && m.fingerprint != "" && m.eligible
  }

  // ---------- single store commands ----------

  function SetAnswer(st: Store, q: string, a: string): Store {
    st.(kv := st.kv[q := a])
  }

  function SetVector(svc: Service, st: Store, ns: string, q: string): Store {
    st.(hash := st.hash[ns + q := VectorCodec.Encode(svc.meta(q).vec)])
  }

  function SetFingerprint(svc: Service, st: Store, q: string): Store {
    st.(kv := st.kv[FP_PREFIX + svc.meta(q).fingerprint := q])
  }

  /** A stored, non-empty answer. */
  function Fetch(st: Store, q: string): Option<string> {
    if q in st.kv && st.kv[q] != "" then Some(st.kv[q]) else None
  }

  // ---------- CacheWrite ----------

  /** Which remote commands of one CacheWrite succeed. */
  datatype WriteOk = WriteOk(embed: bool, setAnswer: bool, setVec: bool, setOld: bool, setFp: bool)

  const ALL_OK := WriteOk(true, true, true, true, true)

  predicate WriteStarts(cfg: Config, svc: Service, q: string, ok: WriteOk) {
    cfg.enabled && ok.embed && Admitted(svc.meta(q)) && ok.setAnswer
  }

  function WriteVectors(cfg: Config, svc: Service, vecOn: bool, st: Store, q: string, ok: WriteOk): Store {
    if !vecOn then st
    else
      var st1 := if ok.setVec then SetVector(svc, st, Ns(cfg), q) else st;
      if cfg.dualWrite && Ns(cfg) != OLD_NS && ok.setOld then SetVector(svc, st1, OLD_NS, q) else st1
  }

  function WriteFp(cfg: Config, svc: Service, st: Store, q: string, ok: WriteOk): Store {
    if UsesFingerprint(cfg, svc.meta(q)) && ok.setFp then SetFingerprint(svc, st, q) else st
  }

  function Write(cfg: Config, svc: Service, vecOn: bool, st: Store, q: string, a: string, ok: WriteOk): Store {
    if !WriteStarts(cfg, svc, q, ok) then st
    else WriteFp(cfg, svc, WriteVectors(cfg, svc, vecOn, SetAnswer(st, q, a), q, ok), q, ok)
  }

  /** CacheWrite reports only a failed encoding or a failed answer write. */
  predicate WriteFails(cfg: Config, svc: Service, q: string, ok: WriteOk) {
    cfg.enabled && (!ok.embed || (Admitted(svc.meta(q)) && !ok.setAnswer))
  }

  // ---------- CacheQuery ----------

  /** Which remote commands of one CacheQuery succeed, and what VSEARCH replies. */
  datatype QueryEnv = QueryEnv(
    embed: bool, getFp: bool, decision: bool, getFpAnswer: bool, hget: bool,
    vsearch: Option<seq<string>>, batch: bool, getAnswer: bool)

  /** The answer, whether it is a hit, and the question handed to a background backfill. */
  datatype Outcome = Outcome(answer: string, hit: bool, backfill: Option<string>)

  const MISS := Outcome("", false, None)

  function FpCandidate(st: Store, m: Meta, getFp: bool): Option<string> {
    if getFp then Fetch(st, FP_PREFIX + m.fingerprint) else None
  }

  predicate FpApproves(svc: Service, q: string, cq: string) {
    var v := svc.decide(q, cq);
    v.shared && v.reason == Decision.Fine && !v.soft
  }

  /** HGET of the vector; an error that is not "missing" also counts as absent. */
  predicate VecExists(cfg: Config, st: Store, hget: bool, q: string) {
    hget && Ns(cfg) + q in st.hash
  }

  function FastPath(cfg: Config, svc: Service, vecOn: bool, st: Store, q: string, env: QueryEnv): Option<Outcome> {
    var m := svc.meta(q);
    if !UsesFingerprint(cfg, m) then None
    else match FpCandidate(st, m, env.getFp)
      case None => None
      case Some(cq) =>
        if !env.decision || !FpApproves(svc, q, cq) || !env.getFpAnswer then None
        else match Fetch(st, cq)
          case None => None
          case Some(ans) =>
            var missing := cfg.asyncBackfill && vecOn && !VecExists(cfg, st, env.hget, cq);
            Some(Outcome(ans, true, if missing then Some(cq) else None))
  }

  /** The batch endpoint answers every candidate in order, or fails as a whole. */
  function BatchReply(svc: Service, q: string, candidates: seq<string>, ok: bool): Option<seq<BatchResult>> {
    if !ok then None
    else Some(seq(|candidates|, i requires 0 <= i < |candidates| =>
      BatchResult(candidates[i], svc.decide(q, candidates[i]).shared, svc.decide(q, candidates[i]).soft)))
  }

  function Decisions(svc: Service, q: string, candidates: seq<string>, ok: bool): (r: seq<BatchResult>)
    ensures |r| == |candidates|
  {
    Align(candidates, BatchReply(svc, q, candidates, ok))
  }

  /** The accepted hits of a VSEARCH reply. */
  function Candidates(cfg: Config, svc: Service, q: string, reply: Option<seq<string>>, batch: bool): seq<Hit> {
    var hits := HitsOf(svc.parseScore, Ns(cfg), TopK(cfg), reply);
    Accepted(cfg.acceptance, cfg.softFallback, hits, Decisions(svc, q, Questions(hits), batch))
  }

  /** The question that the vectors single out, if any. */
  function VectorPick(cfg: Config, svc: Service, vecOn: bool, q: string, reply: Option<seq<string>>,
                      batch: bool): Option<string> {
    if !vecOn then None
    else match Choose(cfg.minMargin, Candidates(cfg, svc, q, reply, batch))
      case None => None
      case Some(best) => Some(best.q)
  }

  function FetchIf(st: Store, ok: bool, q: string): Option<string> {
    if ok then Fetch(st, q) else None
  }

  function VectorPath(cfg: Config, svc: Service, vecOn: bool, st: Store, q: string, env: QueryEnv): Outcome {
    match VectorPick(cfg, svc, vecOn, q, env.vsearch, env.batch)
    case None => MISS
    case Some(cq) =>
      match FetchIf(st, env.getAnswer, cq)
      case None => MISS
      case Some(ans) => Outcome(ans, true, None)
  }

  function Query(cfg: Config, svc: Service, vecOn: bool, st: Store, q: string, env: QueryEnv): Outcome {
    if !cfg.enabled || !env.embed || !Admitted(svc.meta(q)) then MISS
    else match FastPath(cfg, svc, vecOn, st, q, env)
      case Some(o) => o
      case None => VectorPath(cfg, svc, vecOn, st, q, env)
  }

  // ---------- backfillVec ----------

  /** Which remote commands of one attempt succeed; `hget` false is an error other than "missing". */
  datatype Attempt = Attempt(embed: bool, hget: bool, hset: bool)

  /** One attempt: the store after it, and whether the loop ends. */
  function Try(cfg: Config, svc: Service, st: Store, q: string, t: Attempt): (Store, bool) {
    if !t.embed then (st, false)
    else if VecExists(cfg, st, t.hget, q) then (st, true)
    else if !t.hset then (st, false)
    else (SetVector(svc, st, Ns(cfg), q), true)
  }

  function Backfill(cfg: Config, svc: Service, vecOn: bool, st: Store, q: string, granted: bool, t0: Attempt,
                    t1: Attempt): Store {
    if !vecOn || q == "" || !granted then st
    else
      var (st0, done) := Try(cfg, svc, st, q, t0);
      if done then st0 else Try(cfg, svc, st0, q, t1).0
  }

  // ---------- what every command keeps ----------

  /** A question whose text cannot be taken for a fingerprint key. */
  predicate Hygienic(q: string) {
    !HasPrefix(q, FP_PREFIX)
  }

  /** The record that a dual write leaves under the old namespace is not read as one of the current. */
  predicate OldKeyApart(cfg: Config, q: string) {
    !cfg.dualWrite || Ns(cfg) == OLD_NS || !HasPrefix(OLD_NS + q, Ns(cfg))
  }

  predicate Tidy(cfg: Config, q: string) {
    Hygienic(q) && OldKeyApart(cfg, q)
  }

  /** A fingerprint entry points to a question with that fingerprint, and the question has an answer. */
  ghost predicate FpEntryOk(svc: Service, st: Store, k: string)
    requires k in st.kv && HasPrefix(k, FP_PREFIX)
  {
    var q := st.kv[k];
    && Hygienic(q) && q in st.kv
    && svc.meta(q).eligible && FP_PREFIX + svc.meta(q).fingerprint == k
  }

  /** A vector in the current namespace is the encoded embedding of its question, which has an answer. */
  ghost predicate VecEntryOk(cfg: Config, svc: Service, st: Store, k: string)
    requires k in st.hash && HasPrefix(k, Ns(cfg))
  {
    var q := k[|Ns(cfg)|..];
    Hygienic(q) && q in st.kv && st.hash[k] == VectorCodec.Encode(svc.meta(q).vec)
  }

  ghost predicate StoreInv(cfg: Config, svc: Service, st: Store) {
    && (forall k <- st.kv | HasPrefix(k, FP_PREFIX) :: FpEntryOk(svc, st, k))
    && (forall k <- st.hash | HasPrefix(k, Ns(cfg)) :: VecEntryOk(cfg, svc, st, k))
  }

  lemma SetAnswerKeeps(cfg: Config, svc: Service, st: Store, q: string, a: string)
    requires StoreInv(cfg, svc, st) && Hygienic(q)
    ensures StoreInv(cfg, svc, SetAnswer(st, q, a))
  {
  }

  lemma SetVectorKeeps(cfg: Config, svc: Service, st: Store, q: string)
    requires StoreInv(cfg, svc, st) && Hygienic(q) && q in st.kv
    ensures StoreInv(cfg, svc, SetVector(svc, st, Ns(cfg), q))
  {
  }

  lemma SetOldVectorKeeps(cfg: Config, svc: Service, st: Store, q: string)
    requires StoreInv(cfg, svc, st) && !HasPrefix(OLD_NS + q, Ns(cfg))
    ensures StoreInv(cfg, svc, SetVector(svc, st, OLD_NS, q))
  {
  }

  lemma SetFingerprintKeeps(cfg: Config, svc: Service, st: Store, q: string)
    requires StoreInv(cfg, svc, st) && Hygienic(q) && q in st.kv && svc.meta(q).eligible
    ensures StoreInv(cfg, svc, SetFingerprint(svc, st, q))
  {
  }

  lemma WriteKeeps(cfg: Config, svc: Service, vecOn: bool, st: Store, q: string, a: string, ok: WriteOk)
    requires StoreInv(cfg, svc, st) && Tidy(cfg, q)
    ensures StoreInv(cfg, svc, Write(cfg, svc, vecOn, st, q, a, ok))
  {
    if WriteStarts(cfg, svc, q, ok) {
      var st1 := SetAnswer(st, q, a);
      SetAnswerKeeps(cfg, svc, st, q, a);
      var st2 := if vecOn && ok.setVec then SetVector(svc, st1, Ns(cfg), q) else st1;
      SetVectorKeeps(cfg, svc, st1, q);
      var st3 := WriteVectors(cfg, svc, vecOn, st1, q, ok);
      if vecOn && cfg.dualWrite && Ns(cfg) != OLD_NS && ok.setOld {
        SetOldVectorKeeps(cfg, svc, st2, q);
      }
      assert StoreInv(cfg, svc, st3) && q in st3.kv;
      if UsesFingerprint(cfg, svc.meta(q)) {
        SetFingerprintKeeps(cfg, svc, st3, q);
      }
    }
  }

  lemma BackfillKeeps(cfg: Config, svc: Service, vecOn: bool, st: Store, q: string, granted: bool, t0: Attempt,
                      t1: Attempt)
    requires StoreInv(cfg, svc, st) && Hygienic(q) && q in st.kv
    ensures StoreInv(cfg, svc, Backfill(cfg, svc, vecOn, st, q, granted, t0, t1))
    ensures Backfill(cfg, svc, vecOn, st, q, granted, t0, t1).kv == st.kv
  {
    SetVectorKeeps(cfg, svc, st, q);
  }

  /** Tidiness is what the code needs of a question, no more: a write keeps both indexes sound, whatever the
    * store holds and whichever commands fail, exactly when the question is tidy. */
  lemma WriteKeepsExactly(cfg: Config, svc: Service, q: string)
    requires cfg.enabled && Admitted(svc.meta(q))
    ensures Tidy(cfg, q) <==>
            forall vecOn, st, a, ok | StoreInv(cfg, svc, st) :: StoreInv(cfg, svc, Write(cfg, svc, vecOn, st, q, a, ok))
  {
    if Tidy(cfg, q) {
      forall vecOn, st, a, ok | StoreInv(cfg, svc, st)
        ensures StoreInv(cfg, svc, Write(cfg, svc, vecOn, st, q, a, ok)) {
        WriteKeeps(cfg, svc, vecOn, st, q, a, ok);
      }
    } else {
      UntidyWrite(cfg, svc, q, "");
      assert !StoreInv(cfg, svc, Write(cfg, svc, true, EMPTY, q, "", ALL_OK));
    }
  }

  /** A complete write of an untidy question to an empty store. */
  lemma UntidyWrite(cfg: Config, svc: Service, q: string, a: string)
    requires cfg.enabled && Admitted(svc.meta(q)) && !Tidy(cfg, q)
    ensures StoreInv(cfg, svc, EMPTY) && !StoreInv(cfg, svc, Write(cfg, svc, true, EMPTY, q, a, ALL_OK))
  {
    var st := Write(cfg, svc, true, EMPTY, q, a, ALL_OK);
    var fpKey := FP_PREFIX + svc.meta(q).fingerprint;
    assert !Hygienic(fpKey);
    assert st.kv.Keys <= {q, fpKey};
    if !Hygienic(q) {
      assert !FpEntryOk(svc, st, q);
    } else {
      UntidyVector(cfg, svc, st, q);
    }
  }

  lemma UntidyVector(cfg: Config, svc: Service, st: Store, q: string)
    requires OLD_NS + q in st.hash && HasPrefix(OLD_NS + q, Ns(cfg)) && Ns(cfg) != OLD_NS
    requires forall k <- st.kv :: k == q || !Hygienic(k)
    ensures !StoreInv(cfg, svc, st)
  {
  }
}
