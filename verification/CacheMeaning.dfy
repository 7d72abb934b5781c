/** What the cache operations do, in terms of their inputs alone: which entry of a reply answers a question,
  * when a query hits, and what a write and a backfill leave in the store. */
module CacheMeaning {
  import opened Common
  import opened VectorSelect
  import opened SemCacheModel
  import Decision
  import VectorCodec

  // ---------- the vector path ----------

  /** The question and the score in the pair at position `j` of a reply. */
  function Named(ns: string, arr: seq<string>, j: nat): string
    requires 2 * j + 1 < |arr| && ns <= arr[2 * j]
  {
    arr[2 * j][|ns|..]
  }

  /** The pair at position `j` can answer `q`: its key has the namespace, its own score reaches the threshold,
    * and the decision on its own question shares, softly only if that is allowed. */
  predicate Good(cfg: Config, svc: Service, q: string, arr: seq<string>, j: nat)
    requires 2 * j + 1 < |arr|
  {
    && Ns(cfg) <= arr[2 * j] && svc.parseScore(arr[2 * j + 1]).Some?
    && svc.parseScore(arr[2 * j + 1]).value >= cfg.acceptance
    && var v := svc.decide(q, Named(Ns(cfg), arr, j)); v.shared && (v.soft ==> cfg.softFallback)
  }

  /** The pair at `j` leads the one at `i`: by the margin, by a higher score, or by the smaller question. */
  predicate Beats(cfg: Config, svc: Service, q: string, arr: seq<string>, j: nat, i: nat)
    requires 2 * j + 1 < |arr| && Good(cfg, svc, q, arr, j)
    requires 2 * i + 1 < |arr| && Good(cfg, svc, q, arr, i)
  {
    var s, s' := svc.parseScore(arr[2 * j + 1]).value, svc.parseScore(arr[2 * i + 1]).value;
    var c, c' := Named(Ns(cfg), arr, j), Named(Ns(cfg), arr, i);
    s - s' >= cfg.minMargin && (s > s' || (s == s' && (c == c' || StringLess(c, c'))))
  }

  /** Of the first `n` pairs, the one at `j` is good and beats every other good one. */
  ghost predicate Wins(cfg: Config, svc: Service, q: string, arr: seq<string>, n: nat, j: nat)
    requires 2 * n <= |arr|
  {
    && j < n && Good(cfg, svc, q, arr, j)
    && forall i: nat | i < n && i != j && Good(cfg, svc, q, arr, i) :: Beats(cfg, svc, q, arr, j, i)
  }

  /** The hits that survive the threshold and their own decision. */
  predicate Keeps(cfg: Config, svc: Service, q: string, h: Hit) {
    var v := svc.decide(q, h.q);
    v.shared && h.score >= cfg.acceptance && (v.soft ==> cfg.softFallback)
  }

  function Kept(cfg: Config, svc: Service, q: string, hits: seq<Hit>): seq<Hit> {
    if hits == [] then []
    else
      var n := |hits| - 1;
      Kept(cfg, svc, q, hits[..n]) + if Keeps(cfg, svc, q, hits[n]) then [hits[n]] else []
  }

  lemma DecisionsInit(svc: Service, q: string, hits: seq<Hit>, batch: bool)
    requires hits != []
    ensures var n := |hits| - 1;
            Decisions(svc, q, Questions(hits), batch)[..n] == Decisions(svc, q, Questions(hits[..n]), batch)
  {
    var n := |hits| - 1;
    assert forall i | 0 <= i < n :: Questions(hits)[i] == Questions(hits[..n])[i];
  }

  /** Every hit is judged by the decision on its own question; a failed batch refuses all. */
  lemma {:induction false} AcceptedIsKept(cfg: Config, svc: Service, q: string, hits: seq<Hit>, batch: bool)
    ensures Accepted(cfg.acceptance, cfg.softFallback, hits, Decisions(svc, q, Questions(hits), batch))
         == if batch then Kept(cfg, svc, q, hits) else []
  {
    if hits != [] {
      AcceptedIsKept(cfg, svc, q, hits[..|hits| - 1], batch);
      DecisionsInit(svc, q, hits, batch);
      assert Questions(hits)[|hits| - 1] == hits[|hits| - 1].q;
    }
  }

  /** Which of the first `n` pairs are good. */
  ghost function GoodFlags(cfg: Config, svc: Service, q: string, arr: seq<string>, n: nat): (flags: seq<bool>)
    requires 2 * n <= |arr|
    ensures |flags| == n
  {
    seq(n, j requires 0 <= j < n => Good(cfg, svc, q, arr, j))
  }

  function HitOf(svc: Service, ns: string, arr: seq<string>, j: nat): Hit
    requires 2 * j + 1 < |arr| && ns <= arr[2 * j] && svc.parseScore(arr[2 * j + 1]).Some?
  {
    Hit(Named(ns, arr, j), svc.parseScore(arr[2 * j + 1]).value)
  }

  /** These hits stand at these good positions. */
  ghost predicate StandAt(cfg: Config, svc: Service, q: string, arr: seq<string>, at: seq<nat>, hits: seq<Hit>) {
    |hits| == |at| && forall i | 0 <= i < |at| ::
      2 * at[i] + 1 < |arr| && Good(cfg, svc, q, arr, at[i]) && hits[i] == HitOf(svc, Ns(cfg), arr, at[i])
  }

  lemma OneKept(cfg: Config, svc: Service, q: string, h: Hit)
    ensures Kept(cfg, svc, q, [h]) == if Keeps(cfg, svc, q, h) then [h] else []
  {
    assert [h][..0] == [];
  }

  /** A usable pair gives the hit with its own question and score. */
  lemma HitOfPair(svc: Service, ns: string, arr: seq<string>, j: nat, h: Hit)
    requires 2 * j + 1 < |arr| && ns + h.q == arr[2 * j] && Some(h.score) == svc.parseScore(arr[2 * j + 1])
    ensures ns <= arr[2 * j] && h == HitOf(svc, ns, arr, j)
  {
    assert arr[2 * j][|ns|..] == h.q;
  }

  lemma {:induction false} KeptAppend(cfg: Config, svc: Service, q: string, a: seq<Hit>, b: seq<Hit>)
    ensures Kept(cfg, svc, q, a + b) == Kept(cfg, svc, q, a) + Kept(cfg, svc, q, b)
  {
    if b == [] {
      assert a + b == a;
    } else {
      assert (a + b)[..|a + b| - 1] == a + b[..|b| - 1];
      KeptAppend(cfg, svc, q, a, b[..|b| - 1]);
    }
  }

  lemma StandMore(cfg: Config, svc: Service, q: string, arr: seq<string>, at: seq<nat>, hits: seq<Hit>, n: nat)
    requires StandAt(cfg, svc, q, arr, at, hits) && 2 * n + 1 < |arr|
    ensures var good := Good(cfg, svc, q, arr, n);
            StandAt(cfg, svc, q, arr, at + (if good then [n] else []),
                    hits + if good then [HitOf(svc, Ns(cfg), arr, n)] else [])
  {
  }

  lemma KeptMore(cfg: Config, svc: Service, q: string, arr: seq<string>, n: nat)
    requires 2 * n + 1 < |arr|
    ensures Kept(cfg, svc, q, Pairs(svc.parseScore, Ns(cfg), arr, n + 1))
         == Kept(cfg, svc, q, Pairs(svc.parseScore, Ns(cfg), arr, n))
          + if Good(cfg, svc, q, arr, n) then [HitOf(svc, Ns(cfg), arr, n)] else []
  {
    var p := PairAt(svc.parseScore, Ns(cfg), arr, n);
    PairExactly(svc.parseScore, Ns(cfg), arr, n);
    if p != [] {
      assert p == [p[0]];
      HitOfPair(svc, Ns(cfg), arr, n, p[0]);
      OneKept(cfg, svc, q, p[0]);
    }
    KeptAppend(cfg, svc, q, Pairs(svc.parseScore, Ns(cfg), arr, n), PairAt(svc.parseScore, Ns(cfg), arr, n));
  }

  lemma GoodMore(cfg: Config, svc: Service, q: string, arr: seq<string>, n: nat)
    requires 2 * n + 1 < |arr|
    ensures Positions(GoodFlags(cfg, svc, q, arr, n + 1))
         == Positions(GoodFlags(cfg, svc, q, arr, n)) + if Good(cfg, svc, q, arr, n) then [n] else []
  {
    assert GoodFlags(cfg, svc, q, arr, n + 1) == GoodFlags(cfg, svc, q, arr, n) + [Good(cfg, svc, q, arr, n)];
    PositionsSnoc(GoodFlags(cfg, svc, q, arr, n), Good(cfg, svc, q, arr, n));
  }

  /** The accepted hits of a reply are, in order, its good pairs. */
  lemma {:induction false} KeptStand(cfg: Config, svc: Service, q: string, arr: seq<string>, n: nat)
    requires 2 * n <= |arr|
    ensures StandAt(cfg, svc, q, arr, Positions(GoodFlags(cfg, svc, q, arr, n)),
                    Kept(cfg, svc, q, Pairs(svc.parseScore, Ns(cfg), arr, n)))
  {
    if n > 0 {
      KeptStand(cfg, svc, q, arr, n - 1);
      KeptMore(cfg, svc, q, arr, n - 1);
      GoodMore(cfg, svc, q, arr, n - 1);
      StandMore(cfg, svc, q, arr, Positions(GoodFlags(cfg, svc, q, arr, n - 1)),
                Kept(cfg, svc, q, Pairs(svc.parseScore, Ns(cfg), arr, n - 1)), n - 1);
    }
  }

  /** Position `k` of a list leads every other position. */
  ghost predicate LeadsAt(minMargin: real, hits: seq<Hit>, k: nat) {
    k < |hits| && forall i | 0 <= i < |hits| && i != k ::
      hits[k].score - hits[i].score >= minMargin && (hits[i] == hits[k] || Ahead(hits[k], hits[i]))
  }

  lemma WithoutOne(hits: seq<Hit>, k: nat)
    requires k < |hits|
    ensures multiset(hits) - multiset{hits[k]} == multiset(hits[..k] + hits[k + 1..])
  {
    assert hits == hits[..k] + [hits[k]] + hits[k + 1..];
  }

  /** Leading the others as a hit is leading them from some position. */
  lemma LeadsByPosition(minMargin: real, hits: seq<Hit>, h: Hit)
    ensures Leads(minMargin, hits, h) <==> exists k: nat :: LeadsAt(minMargin, hits, k) && hits[k] == h
  {
    if Leads(minMargin, hits, h) {
      var k: nat :| k < |hits| && hits[k] == h;
      OthersTrail(minMargin, hits, k);
      assert LeadsAt(minMargin, hits, k);
    }
    if k: nat :| LeadsAt(minMargin, hits, k) && hits[k] == h {
      AllTrail(minMargin, hits, k);
    }
  }

  lemma OthersTrail(minMargin: real, hits: seq<Hit>, k: nat)
    requires k < |hits| && Leads(minMargin, hits, hits[k])
    ensures LeadsAt(minMargin, hits, k)
  {
    WithoutOne(hits, k);
    var others := hits[..k] + hits[k + 1..];
    forall i | 0 <= i < |hits| && i != k
      ensures hits[k].score - hits[i].score >= minMargin && (hits[i] == hits[k] || Ahead(hits[k], hits[i]))
    {
      assert hits[i] == others[if i < k then i else i - 1];
      assert hits[i] in multiset(others) && hits[i] in hits;
    }
  }

  lemma AllTrail(minMargin: real, hits: seq<Hit>, k: nat)
    requires LeadsAt(minMargin, hits, k)
    ensures Leads(minMargin, hits, hits[k])
  {
    WithoutOne(hits, k);
    var others := hits[..k] + hits[k + 1..];
    forall x | x in multiset(hits) - multiset{hits[k]} ensures hits[k].score - x.score >= minMargin {
      assert x in others;
      var i :| 0 <= i < |others| && others[i] == x;
      assert x == hits[if i < k then i else i + 1];
    }
  }

  lemma WinnerLeads(cfg: Config, svc: Service, q: string, arr: seq<string>, n: nat, j: nat, at: seq<nat>,
                    hits: seq<Hit>)
    requires 2 * n <= |arr| && at == Positions(GoodFlags(cfg, svc, q, arr, n)) && StandAt(cfg, svc, q, arr, at, hits)
    requires Wins(cfg, svc, q, arr, n, j)
    ensures exists k: nat :: LeadsAt(cfg.minMargin, hits, k) && hits[k] == HitOf(svc, Ns(cfg), arr, j)
  {
    PositionsExactly(GoodFlags(cfg, svc, q, arr, n));
    assert GoodFlags(cfg, svc, q, arr, n)[j];
    var k: nat :| k < |at| && at[k] == j;
    forall i | 0 <= i < |hits| && i != k
      ensures hits[k].score - hits[i].score >= cfg.minMargin && (hits[i] == hits[k] || Ahead(hits[k], hits[i]))
    {
      assert at[i] != at[k] && Good(cfg, svc, q, arr, at[i]);
      assert Beats(cfg, svc, q, arr, j, at[i]);
    }
    assert LeadsAt(cfg.minMargin, hits, k);
  }

  lemma LeaderWins(cfg: Config, svc: Service, q: string, arr: seq<string>, n: nat, k: nat, at: seq<nat>,
                   hits: seq<Hit>)
    requires 2 * n <= |arr| && at == Positions(GoodFlags(cfg, svc, q, arr, n)) && StandAt(cfg, svc, q, arr, at, hits)
    requires LeadsAt(cfg.minMargin, hits, k)
    ensures Wins(cfg, svc, q, arr, n, at[k])
  {
    PositionsExactly(GoodFlags(cfg, svc, q, arr, n));
    var j := at[k];
    forall i: nat | i < n && i != j && Good(cfg, svc, q, arr, i) ensures Beats(cfg, svc, q, arr, j, i) {
      assert GoodFlags(cfg, svc, q, arr, n)[i];
      var l: nat :| l < |at| && at[l] == i;
      assert hits[l] == hits[k] || Ahead(hits[k], hits[l]);
    }
  }

  /** A hit leads the accepted ones exactly when it stands at a winning position. */
  lemma LeaderStands(cfg: Config, svc: Service, q: string, arr: seq<string>, n: nat, h: Hit)
    requires 2 * n <= |arr|
    ensures Leads(cfg.minMargin, Kept(cfg, svc, q, Pairs(svc.parseScore, Ns(cfg), arr, n)), h) <==>
            exists j: nat :: Wins(cfg, svc, q, arr, n, j) && HitOf(svc, Ns(cfg), arr, j) == h
  {
    var kept := Kept(cfg, svc, q, Pairs(svc.parseScore, Ns(cfg), arr, n));
    var at := Positions(GoodFlags(cfg, svc, q, arr, n));
    KeptStand(cfg, svc, q, arr, n);
    LeadsByPosition(cfg.minMargin, kept, h);
    if k: nat :| LeadsAt(cfg.minMargin, kept, k) && kept[k] == h {
      LeaderWins(cfg, svc, q, arr, n, k, at, kept);
      assert HitOf(svc, Ns(cfg), arr, at[k]) == h;
    }
    if j: nat :| Wins(cfg, svc, q, arr, n, j) && HitOf(svc, Ns(cfg), arr, j) == h {
      WinnerLeads(cfg, svc, q, arr, n, j, at, kept);
    }
  }

  lemma ChoiceOf(cfg: Config, svc: Service, q: string, reply: Option<seq<string>>, batch: bool)
    ensures Choose(cfg.minMargin, Candidates(cfg, svc, q, reply, batch))
         == Choose(cfg.minMargin,
                   if batch then Kept(cfg, svc, q, Pairs(svc.parseScore, Ns(cfg), reply.GetOr([]),
                                                         Looked(TopK(cfg), reply)))
                   else [])
  {
    HitsOfPairs(svc.parseScore, Ns(cfg), TopK(cfg), reply);
    AcceptedIsKept(cfg, svc, q, HitsOf(svc.parseScore, Ns(cfg), TopK(cfg), reply), batch);
  }

  /** The vectors single out a question exactly when it is named by a winning pair of the reply. */
  lemma PickExactly(cfg: Config, svc: Service, vecOn: bool, q: string, reply: Option<seq<string>>, batch: bool,
                    cq: string)
    ensures var arr, n := reply.GetOr([]), Looked(TopK(cfg), reply);
            VectorPick(cfg, svc, vecOn, q, reply, batch) == Some(cq) <==>
            vecOn && batch && exists j: nat :: Wins(cfg, svc, q, arr, n, j) && Named(Ns(cfg), arr, j) == cq
  {
    var arr, n := reply.GetOr([]), Looked(TopK(cfg), reply);
    ChoiceOf(cfg, svc, q, reply, batch);
    if batch {
      var kept := Kept(cfg, svc, q, Pairs(svc.parseScore, Ns(cfg), arr, n));
      forall h ensures Choose(cfg.minMargin, kept) == Some(h) <==>
                       exists j: nat :: Wins(cfg, svc, q, arr, n, j) && HitOf(svc, Ns(cfg), arr, j) == h {
        ChooseExactly(cfg.minMargin, kept, h);
        LeaderStands(cfg, svc, q, arr, n, h);
      }
      if j: nat :| Wins(cfg, svc, q, arr, n, j) && Named(Ns(cfg), arr, j) == cq {
        assert Choose(cfg.minMargin, kept) == Some(HitOf(svc, Ns(cfg), arr, j));
      }
    } else {
      ChooseMisses(cfg.minMargin, []);
    }
  }

  // ---------- the whole query ----------

  /** `ans` is stored under `q` and not empty. */
  predicate Holds(st: Store, q: string, ans: string) {
    q in st.kv && st.kv[q] == ans && ans != ""
  }

  /** The encoding works, and the question may use the cache at all. */
  predicate Admissible(cfg: Config, svc: Service, q: string, embed: bool) {
    cfg.enabled && embed && !svc.meta(q).bypass && !(svc.meta(q).subject == "" && svc.meta(q).subjectId == "")
  }

  /** The fingerprint answers `q` with `cq`: the entry of its fingerprint names `cq`, the rules share the two
    * without reservation, and all commands on the way work. */
  predicate FingerprintAnswers(cfg: Config, svc: Service, st: Store, q: string, env: QueryEnv, cq: string,
                               ans: string)
  {
    var m := svc.meta(q);
    && cfg.fpEnabled && m.fingerprint != "" && m.eligible
    && env.getFp && Holds(st, "semfp:v1:" + m.fingerprint, cq)
    && env.decision && svc.decide(q, cq).shared && svc.decide(q, cq).reason.Fine? && !svc.decide(q, cq).soft
    && env.getFpAnswer && Holds(st, cq, ans)
  }

  /** The vectors answer `q` with `cq`: it is named by a winning pair, and all commands on the way work. */
  ghost predicate VectorsAnswer(cfg: Config, svc: Service, vecOn: bool, st: Store, q: string, env: QueryEnv, cq: string,
                                ans: string)
  {
    && vecOn && env.batch
    && (exists j: nat :: Wins(cfg, svc, q, env.vsearch.GetOr([]), Looked(TopK(cfg), env.vsearch), j)
                         && Named(Ns(cfg), env.vsearch.GetOr([]), j) == cq)
    && env.getAnswer && Holds(st, cq, ans)
  }

  /** A backfill of `cq` is due: it is switched on, and no vector of `cq` was found. */
  predicate BackfillDue(cfg: Config, vecOn: bool, st: Store, env: QueryEnv, cq: string) {
    cfg.asyncBackfill && vecOn && !(env.hget && Ns(cfg) + cq in st.hash)
  }

  /** By which question, if any, the fingerprint answers. */
  lemma FastPathExactly(cfg: Config, svc: Service, vecOn: bool, st: Store, q: string, env: QueryEnv, o: Outcome)
    ensures FastPath(cfg, svc, vecOn, st, q, env) == Some(o) <==>
            exists cq, ans :: FingerprintAnswers(cfg, svc, st, q, env, cq, ans)
              && o == Outcome(ans, true, if BackfillDue(cfg, vecOn, st, env, cq) then Some(cq) else None)
  {
    var m := svc.meta(q);
    var cand := FpCandidate(st, m, env.getFp);
    if FastPath(cfg, svc, vecOn, st, q, env) == Some(o) {
      assert FingerprintAnswers(cfg, svc, st, q, env, cand.value, o.answer);
    }
    if cq, ans :| FingerprintAnswers(cfg, svc, st, q, env, cq, ans)
                  && o == Outcome(ans, true, if BackfillDue(cfg, vecOn, st, env, cq) then Some(cq) else None) {
      assert cand == Some(cq) && Fetch(st, cq) == Some(ans);
    }
  }

  lemma VectorPathExactly(cfg: Config, svc: Service, vecOn: bool, st: Store, q: string, env: QueryEnv, o: Outcome)
    ensures VectorPath(cfg, svc, vecOn, st, q, env) == o && o != MISS <==>
            exists cq, ans :: VectorsAnswer(cfg, svc, vecOn, st, q, env, cq, ans) && o == Outcome(ans, true, None)
  {
    var pick := VectorPick(cfg, svc, vecOn, q, env.vsearch, env.batch);
    if VectorPath(cfg, svc, vecOn, st, q, env) == o && o != MISS {
      PickExactly(cfg, svc, vecOn, q, env.vsearch, env.batch, pick.value);
      assert VectorsAnswer(cfg, svc, vecOn, st, q, env, pick.value, o.answer);
    }
    if cq, ans :| VectorsAnswer(cfg, svc, vecOn, st, q, env, cq, ans) && o == Outcome(ans, true, None) {
      PickExactly(cfg, svc, vecOn, q, env.vsearch, env.batch, cq);
    }
  }

  /** A query hits exactly when it is admissible and the fingerprint answers it, or, where that fails, the
    * vectors do; answer and backfill are those of the question that answers. */
  lemma QueryExactly(cfg: Config, svc: Service, vecOn: bool, st: Store, q: string, env: QueryEnv, o: Outcome)
    ensures o.hit ==>
            (Query(cfg, svc, vecOn, st, q, env) == o <==>
             && Admissible(cfg, svc, q, env.embed)
             && exists cq, ans ::
                  || (FingerprintAnswers(cfg, svc, st, q, env, cq, ans)
                      && o == Outcome(ans, true, if BackfillDue(cfg, vecOn, st, env, cq) then Some(cq) else None))
                  || (VectorsAnswer(cfg, svc, vecOn, st, q, env, cq, ans) && o == Outcome(ans, true, None)
                      && forall c, a :: !FingerprintAnswers(cfg, svc, st, q, env, c, a)))
    ensures !Query(cfg, svc, vecOn, st, q, env).hit ==> Query(cfg, svc, vecOn, st, q, env) == Outcome("", false, None)
  {
    FastPathExactly(cfg, svc, vecOn, st, q, env, o);
    VectorPathExactly(cfg, svc, vecOn, st, q, env, o);
    if c, a :| FingerprintAnswers(cfg, svc, st, q, env, c, a) {
      FastPathExactly(cfg, svc, vecOn, st, q, env,
                      Outcome(a, true, if BackfillDue(cfg, vecOn, st, env, c) then Some(c) else None));
    } else if FastPath(cfg, svc, vecOn, st, q, env).Some? {
      FastPathExactly(cfg, svc, vecOn, st, q, env, FastPath(cfg, svc, vecOn, st, q, env).value);
    }
  }

  // ---------- what a write leaves ----------

  /** The plain values after a write: the answer under the question, and the question under its fingerprint. */
  lemma WrittenValues(cfg: Config, svc: Service, vecOn: bool, st: Store, q: string, a: string, ok: WriteOk)
    ensures var m, kv := svc.meta(q), Write(cfg, svc, vecOn, st, q, a, ok).kv;
            if !(Admissible(cfg, svc, q, ok.embed) && ok.setAnswer) then kv == st.kv
            else if cfg.fpEnabled && m.fingerprint != "" && m.eligible && ok.setFp then
              kv == st.kv[q := a]["semfp:v1:" + m.fingerprint := q]
            else kv == st.kv[q := a]
  {
  }

  /** The vectors after a write: the encoded embedding under the key of the namespace, in the grey release
    * also under that of the old one, and no other change. */
  lemma WrittenVectors(cfg: Config, svc: Service, vecOn: bool, st: Store, q: string, a: string, ok: WriteOk, k: string)
    ensures var hash := Write(cfg, svc, vecOn, st, q, a, ok).hash;
            if Admissible(cfg, svc, q, ok.embed) && ok.setAnswer && vecOn
               && ((ok.setVec && k == Ns(cfg) + q)
                   || (cfg.dualWrite && Ns(cfg) != "semcache:" && ok.setOld && k == "semcache:" + q))
            then k in hash && hash[k] == VectorCodec.Encode(svc.meta(q).vec)
            else (k in hash <==> k in st.hash) && (k in hash ==> hash[k] == st.hash[k])
  {
  }

  /** The namespace and the size of a search when the configuration leaves them open. */
  lemma Defaults(cfg: Config)
    ensures Ns(cfg) == (if cfg.vectorNamespace == "" then "semd:e5s:v1:" else cfg.vectorNamespace) && Ns(cfg) != ""
    ensures TopK(cfg) == if cfg.topK >= 1 then cfg.topK else 30
  {
  }

  // ---------- what a backfill leaves ----------

  /** An attempt that finds the vector ends the backfill; one that finds none writes it, if all goes well. */
  predicate FindsVector(t: Attempt, present: bool) {
    t.embed && t.hget && present
  }

  predicate WritesVector(t: Attempt, present: bool) {
    t.embed && !(t.hget && present) && t.hset
  }

  /** A backfill writes the vector of its question exactly when it is granted and an attempt succeeds before
    * one finds the vector there; nothing else changes. After any attempt without failures the vector is there. */
  lemma BackfillExactly(cfg: Config, svc: Service, vecOn: bool, st: Store, q: string, granted: bool, t0: Attempt,
                        t1: Attempt)
    ensures var key, present := Ns(cfg) + q, Ns(cfg) + q in st.hash;
            Backfill(cfg, svc, vecOn, st, q, granted, t0, t1) ==
            if vecOn && q != "" && granted
               && (WritesVector(t0, present) || (!FindsVector(t0, present) && WritesVector(t1, present)))
            then Store(st.kv, st.hash[key := VectorCodec.Encode(svc.meta(q).vec)]) else st
    ensures vecOn && q != "" && granted
            && (t0 == Attempt(true, true, true) || t1 == Attempt(true, true, true)) ==>
              Ns(cfg) + q in Backfill(cfg, svc, vecOn, st, q, granted, t0, t1).hash
  {
  }
}
