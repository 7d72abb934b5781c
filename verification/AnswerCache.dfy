/** The package state of semcache as an object; its methods issue the store commands in the order of the source. */
module AnswerCacheObject {
  import opened Common
  import opened VectorSelect
  import opened SemCacheModel
  import Decision
  import VectorCodec
  import RateGate

  class AnswerCache {
    const cfg: Config
    const svc: Service
    const limiter: RateGate.Limiter
    var kv: map<string, string>
    var hash: map<string, seq<VectorCodec.byte>>
    var vectorEnabled: bool

    constructor (cfg: Config, svc: Service, limiter: RateGate.Limiter)
      ensures View() == EMPTY && vectorEnabled
      ensures this.cfg == cfg && this.svc == svc && this.limiter == limiter
    {
      this.cfg, this.svc, this.limiter := cfg, svc, limiter;
      kv, hash, vectorEnabled := map[], map[], true;
    }

    function View(): Store
      reads this
    {
      Store(kv, hash)
    }

    method WriteVec(key: string, vec: seq<VectorCodec.float32>, ok: bool)
      modifies this`hash
      ensures hash == if ok then old(hash)[key := VectorCodec.Encode(vec)] else old(hash)
    {
      var bytes := VectorCodec.EncodeVec(vec);
      if ok {
        hash := hash[key := bytes[..]];
      }
    }

    method WriteBothVecs(query: string, m: Meta, ok: WriteOk)
      requires m == svc.meta(query)
      modifies this`hash
      ensures View() == WriteVectors(cfg, svc, vectorEnabled, old(View()), query, ok)
    {
      if vectorEnabled {
        WriteVec(Ns(cfg) + query, m.vec, ok.setVec);
        if cfg.dualWrite {
          if Ns(cfg) != OLD_NS {
            WriteVec(OLD_NS + query, m.vec, ok.setOld);
          }
        }
      }
    }

    /** SET the answer, HSET the vector (twice in the grey release), SET the fingerprint target. Only the
      * first two steps can fail the call; a lost vector or fingerprint is logged and skipped. */
    method CacheWrite(query: string, answer: string, ok: WriteOk) returns (failed: bool)
      modifies this`kv, this`hash
      ensures View() == Write(cfg, svc, vectorEnabled, old(View()), query, answer, ok)
      ensures failed == WriteFails(cfg, svc, query, ok)
      ensures failed <==>
              cfg.enabled && (!ok.embed || (!ok.setAnswer && !svc.meta(query).bypass
                                            && (svc.meta(query).subject != "" || svc.meta(query).subjectId != "")))
    {
      if !cfg.enabled {
        return false;
      }
      if !ok.embed {
        return true;
      }
      var m := svc.meta(query);
      if m.bypass || (m.subject == "" && m.subjectId == "") {
        return false;
      }
      if !ok.setAnswer {
        return true;
      }
      kv := kv[query := answer];
      WriteBothVecs(query, m, ok);
      if cfg.fpEnabled && m.fingerprint != "" && m.eligible {
        if ok.setFp {
          kv := kv[FP_PREFIX + m.fingerprint := query];
        }
      }
      failed := false;
    }

    method FetchAnswer(cachedQ: string, ok: bool) returns (answer: string, found: bool)
      ensures found <==> ok && Fetch(View(), cachedQ).Some?
      ensures found ==> Fetch(View(), cachedQ) == Some(answer)
      ensures !found ==> answer == ""
    {
      if !ok || cachedQ !in kv || kv[cachedQ] == "" {
        return "", false;
      }
      return kv[cachedQ], true;
    }

    method VecExistsCmd(query: string, ok: bool) returns (exists_: bool)
      ensures exists_ == VecExists(cfg, View(), ok, query)
    {
      exists_ := ok && Ns(cfg) + query in hash;
    }

    /** One encoding, the fingerprint path, then VSEARCH, one batch decision, the acceptance loop, the
      * ranking and the margin. `spawned` is the question handed to a background backfill. */
    method CacheQuery(query: string, env: QueryEnv) returns (answer: string, hit: bool, spawned: Option<string>)
      ensures Outcome(answer, hit, spawned) == Query(cfg, svc, vectorEnabled, View(), query, env)
    {
      answer, hit, spawned := "", false, None;
      if !cfg.enabled || !env.embed {
        return;
      }
      var m := svc.meta(query);
      if m.bypass || (m.subject == "" && m.subjectId == "") {
        return;
      }
      if cfg.fpEnabled && m.fingerprint != "" && m.eligible {
        var cq, found := FetchAnswer(FP_PREFIX + m.fingerprint, env.getFp);
        if found && env.decision {
          var v := svc.decide(query, cq);
          if v.shared && v.reason == Decision.Fine && !v.soft {
            var ans, ok := FetchAnswer(cq, env.getFpAnswer);
            if ok {
              var present := VecExistsCmd(cq, env.hget);
              if cfg.asyncBackfill && vectorEnabled && !present {
                spawned := Some(cq);
              }
              answer, hit := ans, true;
              return;
            }
          }
        }
      }
      assert FastPath(cfg, svc, vectorEnabled, View(), query, env) == None;
      if !vectorEnabled {
        return;
      }
      answer, hit := SearchVectors(query, env);
    }

    /** The search, the batch decision and the acceptance loop. */
    method Shortlist(query: string, env: QueryEnv) returns (accepted: seq<Hit>)
      ensures accepted == Candidates(cfg, svc, query, env.vsearch, env.batch)
    {
      ghost var hits := HitsOf(svc.parseScore, Ns(cfg), TopK(cfg), env.vsearch);
      var queries, scores := VSearch(svc.parseScore, Ns(cfg), TopK(cfg), env.vsearch);
      ZipInverts(hits);
      if |queries| == 0 {
        return [];
      }
      var decs := DecisionBatch(queries, BatchReply(svc, query, queries, env.batch));
      accepted := CollectAccepted(cfg.acceptance, cfg.softFallback, queries, scores, decs);
    }

    method SearchVectors(query: string, env: QueryEnv) returns (answer: string, hit: bool)
      requires vectorEnabled
      ensures Outcome(answer, hit, None) == VectorPath(cfg, svc, vectorEnabled, View(), query, env)
    {
      answer, hit := "", false;
      var accepted := Shortlist(query, env);
      var best := PickChoice(cfg.minMargin, accepted);
      if best == None {
        return;
      }
      var ans, ok := FetchAnswer(best.value.q, env.getAnswer);
      if !ok {
        return;
      }
      answer, hit := ans, true;
    }

    /** At most two attempts, each encoding, checking and writing; rate limited before the first. */
    method BackfillVec(cachedQ: string, now: int, tries: seq<Attempt>)
      requires |tries| == 2
      modifies this`hash, limiter
      ensures View() == Backfill(cfg, svc, vectorEnabled, old(View()), cachedQ,
                                 RateGate.Admit(old(limiter.View()), now).1, tries[0], tries[1])
      ensures limiter.View() == if !vectorEnabled || cachedQ == "" then old(limiter.View())
                                else RateGate.Admit(old(limiter.View()), now).0
    {
      if !vectorEnabled || cachedQ == "" {
        return;
      }
      var granted := limiter.BackfillGate(now);
      if !granted {
        return;
      }
      for attempt := 0 to 2
        invariant kv == old(kv) && hash == old(hash)
        invariant limiter.View() == RateGate.Admit(old(limiter.View()), now).0
        invariant forall k | 0 <= k < attempt :: Try(cfg, svc, old(View()), cachedQ, tries[k]) == (old(View()), false)
      {
        var t := tries[attempt];
        if !t.embed {
          if attempt == 0 { continue; }
          return;
        }
        var m := svc.meta(cachedQ);
        var present := VecExistsCmd(cachedQ, t.hget);
        if present {
          return;
        }
        if !t.hset {
          if attempt == 0 { continue; }
          return;
        }
        WriteVec(Ns(cfg) + cachedQ, m.vec, true);
        return;
      }
    }
  }
}
