/** Alias resolution: the start-up validator that keeps generated keys apart, and the one-pass lookup
  * that relies on it. `fold` stands for NFKC folding, lower case and collapsed white space. */
module Ontology {
  import opened Common
  import Runs

  datatype Concept = Concept(id: string, zh: string, en: string, aliases: seq<string>, group: Option<string>)

  const GEN_MIN_LEN := 3
  const MIN_CONCEPTS := 40

  function StripStd(s: string): string {
    if HasPrefix(s, STD) then s[|STD|..] else s
  }

  /** A folded text without blanks, hyphens and underscores. */
  function Glue(s: string): string {
    if s == "" then ""
    else (if s[0] in {' ', '-', '_'} then "" else [s[0]]) + Glue(s[1..])
  }

  function Variants(fold: string -> string, alias: string): set<string> {
    var a := fold(alias);
    var base := StripStd(a);
    var glued := Glue(base);
    {a, base} + if |glued| >= GEN_MIN_LEN then {glued} else {}
  }

  predicate IsLatin(alias: string) {
    exists c <- alias :: Alnum(c)
  }

  ghost predicate Idempotent(fold: string -> string) {
    forall s :: fold(fold(s)) == fold(s)
  }

  // ---------- the validator ----------

  function Tagged(keys: set<string>, cid: string): set<(string, string)> {
    set k <- keys :: (k, cid)
  }

  /** Generated keys of some concepts, each with the concept it comes from. */
  function KeysOf(fold: string -> string, c: Concept): set<(string, string)> {
    set a, k | a in c.aliases && k in Variants(fold, a) :: (k, c.id)
  }

  function AllKeys(fold: string -> string, cs: seq<Concept>): set<(string, string)> {
    set c, p | c in cs && p in KeysOf(fold, c) :: p
  }

  /** No key belongs to two concepts. */
  ghost predicate Functional(keys: set<(string, string)>) {
    forall p, p' | p in keys && p' in keys && p.0 == p'.0 :: p.1 == p'.1
  }

  predicate DangerousAlias(a: string) {
    |a| == 1 && ('a' <= a[0] <= 'z' || 'A' <= a[0] <= 'Z')
  }

  predicate AliasOk(fold: string -> string, a: string) {
    a != "" && !DangerousAlias(a) && "" !in Variants(fold, a)
  }

  predicate ConceptOk(fold: string -> string, c: Concept) {
    c.zh != "" && c.en != "" && c.aliases != [] && forall a <- c.aliases :: AliasOk(fold, a)
  }

  predicate GroupOk(c: Concept) {
    && (c.group.Some? ==> c.group.value in {"electrical", "mechanical", "embedded"})
    && (HasPrefix(c.id, "elec_") ==> c.group == Some("electrical"))
    && (HasPrefix(c.id, "mech_") ==> c.group == Some("mechanical"))
    && (HasPrefix(c.id, "emb_") ==> c.group == Some("embedded"))
  }

  ghost predicate DistinctIds(cs: seq<Concept>) {
    forall i, j | 0 <= i < j < |cs| :: cs[i].id != cs[j].id
  }

  /** What start-up demands of the ontology data. */
  ghost predicate Valid(fold: string -> string, cs: seq<Concept>) {
    && DistinctIds(cs)
    && (forall c <- cs :: ConceptOk(fold, c))
    && Functional(AllKeys(fold, cs))
    && |cs| >= MIN_CONCEPTS
    && (forall c <- cs :: GroupOk(c))
  }

  /** The owner map holds exactly these keys. */
  ghost predicate Owns(owner: map<string, string>, keys: set<(string, string)>) {
    && (forall p <- keys :: p.0 in owner && owner[p.0] == p.1)
    && (forall k <- owner :: (k, owner[k]) in keys)
  }

  /** The innermost loop: enter the keys of one alias. Iteration order of the set is unspecified. */
  method EnterKeys(keys: set<string>, cid: string, owner: map<string, string>, ghost seen: set<(string, string)>)
    returns (ok: bool, owner': map<string, string>)
    requires Owns(owner, seen)
    ensures ok <==> "" !in keys && Functional(seen + Tagged(keys, cid))
    ensures ok ==> Owns(owner', seen + Tagged(keys, cid))
  {
    owner' := owner;
    var rest := keys;
    ghost var added: set<(string, string)> := {};
    while rest != {}
      invariant rest <= keys && added == (set k | k in keys && k !in rest :: (k, cid))
      invariant Owns(owner', seen + added)
      invariant "" in keys ==> "" in rest
      decreases rest
    {
      var key :| key in rest;
      if key == "" {
        return false, owner';
      }
      if key in owner' && owner'[key] != cid {
        assert (key, cid) in Tagged(keys, cid);
        assert (key, owner'[key]) in seen;
        return false, owner';
      }
      owner' := owner'[key := cid];
      rest, added := rest - {key}, added + {(key, cid)};
    }
    assert added == Tagged(keys, cid);
    ok := true;
  }

  /** The keys of the first aliases of a concept. */
  ghost function KeysUpTo(fold: string -> string, c: Concept, n: nat): set<(string, string)>
    requires n <= |c.aliases|
  {
    if n == 0 then {} else KeysUpTo(fold, c, n - 1) + Tagged(Variants(fold, c.aliases[n - 1]), c.id)
  }

  lemma TaggedExactly(keys: set<string>, cid: string, p: (string, string))
    ensures p in Tagged(keys, cid) <==> p.0 in keys && p.1 == cid
  {
  }

  lemma {:induction false} KeysUpToExactly(fold: string -> string, c: Concept, n: nat, p: (string, string))
    requires n <= |c.aliases|
    ensures p in KeysUpTo(fold, c, n) <==> exists i | 0 <= i < n :: KeyOfAlias(fold, c, i, p)
  {
    if n > 0 {
      KeysUpToExactly(fold, c, n - 1, p);
      TaggedExactly(Variants(fold, c.aliases[n - 1]), c.id, p);
      assert KeyOfAlias(fold, c, n - 1, p) <==> p in Tagged(Variants(fold, c.aliases[n - 1]), c.id);
    }
  }

  predicate KeyOfAlias(fold: string -> string, c: Concept, i: nat, p: (string, string))
    requires i < |c.aliases|
  {
    p.0 in Variants(fold, c.aliases[i]) && p.1 == c.id
  }

  /** One concept: its names, and the keys of its aliases against those entered before. */
  method CheckConcept(fold: string -> string, c: Concept, owner: map<string, string>, ghost seen: set<(string, string)>)
    returns (ok: bool, owner': map<string, string>)
    requires Owns(owner, seen) && Functional(seen)
    ensures ok <==> ConceptOk(fold, c) && Functional(seen + KeysOf(fold, c))
    ensures ok ==> Owns(owner', seen + KeysOf(fold, c))
  {
    owner' := owner;
    ok := false;
    if c.zh == "" || c.en == "" || c.aliases == [] {
      return;
    }
    ghost var now := seen;
    for j := 0 to |c.aliases|
      invariant AliasesOk(fold, c, j)
      invariant now == seen + KeysUpTo(fold, c, j)
      invariant Owns(owner', now) && Functional(now)
    {
      var fits;
      fits, owner' := CheckAlias(fold, c.aliases[j], c.id, owner', now);
      KeysGrow(fold, c, j, seen, now);
      if !fits {
        AliasRefused(fold, c, j, seen, now);
        return;
      }
      now := now + Tagged(Variants(fold, c.aliases[j]), c.id);
    }
    AllEntered(fold, c);
    AllAliasesOk(fold, c, |c.aliases|);
    assert c.aliases[..|c.aliases|] == c.aliases;
    ok := true;
  }

  ghost predicate AliasesOk(fold: string -> string, c: Concept, n: nat)
    requires n <= |c.aliases|
  {
    n == 0 || (AliasesOk(fold, c, n - 1) && AliasOk(fold, c.aliases[n - 1]))
  }

  lemma {:induction false} AllAliasesOk(fold: string -> string, c: Concept, n: nat)
    requires n <= |c.aliases| && AliasesOk(fold, c, n)
    ensures forall a <- c.aliases[..n] :: AliasOk(fold, a)
    decreases n
  {
    if n > 0 {
      AllAliasesOk(fold, c, n - 1);
      assert c.aliases[..n] == c.aliases[..n - 1] + [c.aliases[n - 1]];
    }
  }

  /** One alias: it is long enough and not dangerous, and its keys are free or its concept's own. */
  method CheckAlias(fold: string -> string, a: string, cid: string, owner: map<string, string>,
                    ghost seen: set<(string, string)>)
    returns (ok: bool, owner': map<string, string>)
    requires Owns(owner, seen)
    ensures ok <==> AliasOk(fold, a) && Functional(seen + Tagged(Variants(fold, a), cid))
    ensures ok ==> Owns(owner', seen + Tagged(Variants(fold, a), cid))
  {
    if a == "" || DangerousAlias(a) {
      return false, owner;
    }
    ok, owner' := EnterKeys(Variants(fold, a), cid, owner, seen);
  }

  lemma AliasRefused(fold: string -> string, c: Concept, j: nat, seen: set<(string, string)>,
                     now: set<(string, string)>)
    requires j < |c.aliases| && now == seen + KeysUpTo(fold, c, j)
    requires !AliasOk(fold, c.aliases[j]) || !Functional(now + Tagged(Variants(fold, c.aliases[j]), c.id))
    ensures !(ConceptOk(fold, c) && Functional(seen + KeysOf(fold, c)))
  {
    if !AliasOk(fold, c.aliases[j]) {
      BadAlias(fold, c, c.aliases[j]);
    } else {
      KeysGrow(fold, c, j, seen, now);
      FunctionalDown(now + Tagged(Variants(fold, c.aliases[j]), c.id), seen + KeysOf(fold, c));
    }
  }

  lemma BadAlias(fold: string -> string, c: Concept, a: string)
    requires a in c.aliases && !AliasOk(fold, a)
    ensures !ConceptOk(fold, c)
  {
  }

  lemma FunctionalDown(part: set<(string, string)>, whole: set<(string, string)>)
    requires part <= whole && !Functional(part)
    ensures !Functional(whole)
  {
  }

  lemma AllEntered(fold: string -> string, c: Concept)
    ensures KeysUpTo(fold, c, |c.aliases|) == KeysOf(fold, c)
  {
    forall p ensures p in KeysOf(fold, c) <==> p in KeysUpTo(fold, c, |c.aliases|) {
      KeysUpToExactly(fold, c, |c.aliases|, p);
      if p in KeysOf(fold, c) {
        var a, k :| a in c.aliases && k in Variants(fold, a) && p == (k, c.id);
        var i :| 0 <= i < |c.aliases| && c.aliases[i] == a;
        assert KeyOfAlias(fold, c, i, p);
      }
    }
  }

  lemma KeysGrow(fold: string -> string, c: Concept, j: nat, seen: set<(string, string)>, now: set<(string, string)>)
    requires j < |c.aliases| && now == seen + KeysUpTo(fold, c, j)
    ensures now + Tagged(Variants(fold, c.aliases[j]), c.id) == seen + KeysUpTo(fold, c, j + 1)
    ensures now + Tagged(Variants(fold, c.aliases[j]), c.id) <= seen + KeysOf(fold, c)
  {
    forall p | p in KeysUpTo(fold, c, j + 1) ensures p in KeysOf(fold, c) {
      KeysUpToExactly(fold, c, j + 1, p);
    }
  }

  lemma AllKeysGrow(fold: string -> string, cs: seq<Concept>, i: nat)
    requires i < |cs|
    ensures AllKeys(fold, cs[..i + 1]) == AllKeys(fold, cs[..i]) + KeysOf(fold, cs[i])
    ensures AllKeys(fold, cs[..i + 1]) <= AllKeys(fold, cs)
  {
  }

  /** The start-up check accepts exactly the valid ontologies. */
  method Validate(fold: string -> string, cs: seq<Concept>) returns (ok: bool)
    ensures ok <==> Valid(fold, cs)
  {
    var ids: set<string> := {};
    var owner: map<string, string> := map[];
    for i := 0 to |cs|
      invariant ids == set k | 0 <= k < i :: cs[k].id
      invariant DistinctIds(cs[..i])
      invariant forall k | 0 <= k < i :: ConceptOk(fold, cs[k])
      invariant Owns(owner, AllKeys(fold, cs[..i])) && Functional(AllKeys(fold, cs[..i]))
    {
      if cs[i].id in ids {
        return false;
      }
      ids := ids + {cs[i].id};
      AllKeysGrow(fold, cs, i);
      ok, owner := CheckConcept(fold, cs[i], owner, AllKeys(fold, cs[..i]));
      if !ok {
        assert cs[i] in cs;
        return;
      }
    }
    assert cs[..|cs|] == cs;
    ok := |cs| >= MIN_CONCEPTS && forall c <- cs :: GroupOk(c);
  }

  // ---------- the index ----------

  datatype Entry = Entry(key: string, cid: string, latin: bool)

  predicate IsEntry(fold: string -> string, cs: seq<Concept>, e: Entry) {
    exists c <- cs, a <- c.aliases :: IsEntryOf(fold, c, a, e)
  }

  ghost predicate IsIndex(fold: string -> string, cs: seq<Concept>, idx: seq<Entry>) {
    forall e :: e in idx <==> IsEntry(fold, cs, e)
  }

  /** Aliases in order, the generated keys of one alias in any order. */
  method BuildIndex(fold: string -> string, cs: seq<Concept>) returns (idx: seq<Entry>)
    ensures IsIndex(fold, cs, idx)
  {
    idx := [];
    for i := 0 to |cs|
      invariant IsIndex(fold, cs[..i], idx)
    {
      var own := EntriesOf(fold, cs[i]);
      assert cs[..i + 1] == cs[..i] + [cs[i]];
      idx := idx + own;
    }
    assert cs[..|cs|] == cs;
  }

  predicate IsEntryOf(fold: string -> string, c: Concept, a: string, e: Entry) {
    e.key != "" && e.key in Variants(fold, a) && e.cid == c.id && e.latin == IsLatin(a)
  }

  method EntriesOf(fold: string -> string, c: Concept) returns (own: seq<Entry>)
    ensures forall e :: e in own <==> exists a <- c.aliases :: IsEntryOf(fold, c, a, e)
  {
    own := [];
    for j := 0 to |c.aliases|
      invariant forall e :: e in own <==> exists i | 0 <= i < j :: IsEntryOf(fold, c, c.aliases[i], e)
    {
      var a := c.aliases[j];
      ghost var before := own;
      var rest := Variants(fold, a);
      while rest != {}
        invariant rest <= Variants(fold, a)
        invariant forall e :: e in own <==> e in before || (IsEntryOf(fold, c, a, e) && e.key !in rest)
        decreases rest
      {
        var key :| key in rest;
        if key != "" {
          own := own + [Entry(key, c.id, IsLatin(a))];
        }
        rest := rest - {key};
      }
    }
  }

  // ---------- the lookup ----------

  predicate FreeBefore(t: string, i: nat)
    requires i <= |t|
  {
    i == 0 || !Alnum(t[i - 1])
  }

  predicate FreeAfter(t: string, i: nat)
    requires i <= |t|
  {
    i == |t| || !Alnum(t[i])
  }

  /** An occurrence of the key, with free borders if they are needed. */
  predicate HitAt(e: Entry, t: string, i: nat)
    requires i <= |t|
  {
    OccursAt(t, e.key, i) && (e.latin ==> FreeBefore(t, i) && FreeAfter(t, i + |e.key|))
  }

  /** A Latin key must not touch other letters or digits; any other key may occur anywhere. */
  predicate Hits(e: Entry, t: string) {
    exists i: nat | i <= |t| :: HitAt(e, t, i)
  }

  /** The key occurs in the text; if it is Latin, no letter or digit touches it. */
  ghost predicate Occurs(key: string, latin: bool, t: string) {
    exists u, v :: if latin then Runs.Flanked(Alnum, t, u, key, v) else t == u + key + v
  }

  lemma HitsExactly(e: Entry, t: string)
    ensures Hits(e, t) <==> Occurs(e.key, e.latin, t)
  {
    if i: nat :| i <= |t| && HitAt(e, t, i) {
      Runs.AtIsFlanked(if e.latin then Alnum else c => false, t, e.key, i);
      assert t == t[..i] + e.key + t[i + |e.key|..];
    }
    if u, v :| if e.latin then Runs.Flanked(Alnum, t, u, e.key, v) else t == u + e.key + v {
      if e.latin {
        Runs.FlankedAt(Alnum, t, u, e.key, v);
      }
      assert HitAt(e, t, |u|);
    }
  }

  function QueryTexts(fold: string -> string, text: string): seq<string> {
    var t := fold(fold(text));
    var base := StripStd(t);
    if base != t && base != "" then [t, base] else [t]
  }

  /** Length and concept of every hit. */
  function HitSet(idx: seq<Entry>, texts: seq<string>): set<(nat, string)> {
    set e, t | e in idx && t in texts && Hits(e, t) :: (|e.key|, e.cid)
  }

  /** All hits of maximal length belong to `cid`, and there is one. */
  ghost predicate Wins(hits: set<(nat, string)>, cid: string) {
    exists h | h in hits && h.1 == cid ::
      forall h' | h' in hits :: h'.0 <= h.0 && (h'.0 == h.0 ==> h'.1 == cid)
  }

  /** The running result describes the hits seen so far. */
  ghost predicate Best(hits: set<(nat, string)>, best: Option<string>, len: nat) {
    && (forall h <- hits :: h.0 <= len)
    && (hits == {} ==> best == None && len == 0)
    && (hits != {} ==> exists h <- hits :: h.0 == len)
    && (match best
        case Some(cid) => (len, cid) in hits && forall h <- hits :: h.0 == len ==> h.1 == cid
        case None => hits == {} || exists h, h' | h in hits && h' in hits :: h.0 == len == h'.0 && h.1 != h'.1)
  }

  lemma BestDecides(hits: set<(nat, string)>, best: Option<string>, len: nat)
    requires Best(hits, best, len)
    ensures forall cid :: best == Some(cid) <==> Wins(hits, cid)
  {
  }

  /** One entry against one text. */
  method Consider(e: Entry, t: string, best: Option<string>, len: nat, ghost hits: set<(nat, string)>)
    returns (best': Option<string>, len': nat)
    requires Best(hits, best, len) && e.key != "" && (forall h <- hits :: h.0 > 0)
    ensures Best(if Hits(e, t) then hits + {(|e.key|, e.cid)} else hits, best', len')
  {
    best', len' := best, len;
    var hit := Hits(e, t);
    if hit && |e.key| > len {
      best', len' := Some(e.cid), |e.key|;
    } else if hit && |e.key| == len && best != Some(e.cid) {
      best' := None;
      ghost var all := hits + {(|e.key|, e.cid)};
      if best.Some? {
        assert (len, best.value) in all && (len, e.cid) in all;
      } else {
        ghost var h, h' :| h in hits && h' in hits && h.0 == len == h'.0 && h.1 != h'.1;
        assert h in all && h' in all;
      }
    } else if hit && best == None {
      ghost var all := hits + {(|e.key|, e.cid)};
      ghost var h, h' :| h in hits && h' in hits && h.0 == len == h'.0 && h.1 != h'.1;
      assert h in all && h' in all;
    }
  }

  lemma HitSetGrows(idx: seq<Entry>, i: nat, t: string)
    requires i < |idx|
    ensures HitSet(idx[..i + 1], [t])
         == HitSet(idx[..i], [t]) + (if Hits(idx[i], t) then {(|idx[i].key|, idx[i].cid)} else {})
  {
  }

  lemma HitSetOverTexts(idx: seq<Entry>, texts: seq<string>, i: nat)
    requires i < |texts|
    ensures HitSet(idx, texts[..i + 1]) == HitSet(idx, texts[..i]) + HitSet(idx, [texts[i]])
  {
  }

  lemma HitsPositive(idx: seq<Entry>, texts: seq<string>)
    requires forall e <- idx :: e.key != ""
    ensures forall h <- HitSet(idx, texts) :: h.0 > 0
  {
  }

  /** The next entry of the index against one text. */
  method ScanEntry(idx: seq<Entry>, i: nat, t: string, best: Option<string>, len: nat, ghost hits: set<(nat, string)>)
    returns (best': Option<string>, len': nat)
    requires i < |idx| && (forall h <- hits :: h.0 > 0) && forall e <- idx :: e.key != ""
    requires Best(hits + HitSet(idx[..i], [t]), best, len)
    ensures Best(hits + HitSet(idx[..i + 1], [t]), best', len')
  {
    ghost var now := hits + HitSet(idx[..i], [t]);
    HitsPositive(idx[..i], [t]);
    best', len' := Consider(idx[i], t, best, len, now);
    HitSetGrows(idx, i, t);
    assert hits + HitSet(idx[..i + 1], [t]) == if Hits(idx[i], t) then now + {(|idx[i].key|, idx[i].cid)} else now;
  }

  /** One text against the whole index, going on from an earlier result. */
  method Scan(idx: seq<Entry>, t: string, best: Option<string>, len: nat, ghost hits: set<(nat, string)>)
    returns (best': Option<string>, len': nat)
    requires Best(hits, best, len) && (forall h <- hits :: h.0 > 0)
    requires forall e <- idx :: e.key != ""
    ensures Best(hits + HitSet(idx, [t]), best', len')
  {
    best', len' := best, len;
    assert hits + HitSet(idx[..0], [t]) == hits;
    for i := 0 to |idx|
      invariant Best(hits + HitSet(idx[..i], [t]), best', len')
    {
      best', len' := ScanEntry(idx, i, t, best', len', hits);
    }
    assert idx[..|idx|] == idx;
  }

  /** Of the entries that occur in the text, the longest all belong to this concept. */
  ghost predicate Prevails(idx: seq<Entry>, t: string, cid: string) {
    exists e <- idx :: e.cid == cid && Occurs(e.key, e.latin, t) && Longest(idx, t, e)
  }

  ghost predicate Longest(idx: seq<Entry>, t: string, e: Entry) {
    forall e' <- idx | Occurs(e'.key, e'.latin, t) :: |e'.key| <= |e.key| && (|e'.key| == |e.key| ==> e'.cid == e.cid)
  }

  lemma PrevailsExactly(idx: seq<Entry>, t: string, cid: string)
    ensures Wins(HitSet(idx, [t]), cid) <==> Prevails(idx, t, cid)
  {
    var hits := HitSet(idx, [t]);
    assert t in [t];
    forall e ensures Hits(e, t) <==> Occurs(e.key, e.latin, t) {
      HitsExactly(e, t);
    }
    if Wins(hits, cid) {
      var h :| h in hits && h.1 == cid && forall h' | h' in hits :: h'.0 <= h.0 && (h'.0 == h.0 ==> h'.1 == cid);
      var e :| e in idx && Hits(e, t) && h == (|e.key|, e.cid);
      forall e' <- idx | Occurs(e'.key, e'.latin, t)
        ensures |e'.key| <= |e.key| && (|e'.key| == |e.key| ==> e'.cid == e.cid) {
        assert (|e'.key|, e'.cid) in hits;
      }
      assert Longest(idx, t, e);
    }
    if e :| e in idx && e.cid == cid && Occurs(e.key, e.latin, t) && Longest(idx, t, e) {
      PrevailingWins(idx, t, e);
    }
  }

  lemma PrevailingWins(idx: seq<Entry>, t: string, e: Entry)
    requires e in idx && Occurs(e.key, e.latin, t) && Longest(idx, t, e)
    ensures Wins(HitSet(idx, [t]), e.cid)
  {
    var hits := HitSet(idx, [t]);
    HitsExactly(e, t);
    var h := (|e.key|, e.cid);
    assert t in [t] && h in hits;
    forall h' | h' in hits ensures h'.0 <= h.0 && (h'.0 == h.0 ==> h'.1 == e.cid) {
      var e', u :| e' in idx && u in [t] && Hits(e', u) && h' == (|e'.key|, e'.cid);
      HitsExactly(e', t);
    }
  }

  /** The concept to which the longest entries that occur in the folded text belong, if it is one; otherwise
    * none. The order of the index is irrelevant. */
  method LookupSubjectId(fold: string -> string, idx: seq<Entry>, text: string) returns (r: Option<string>)
    requires forall e <- idx :: e.key != ""
    ensures text == "" || fold(fold(text)) == "" ==> r == None
    ensures text != "" && fold(fold(text)) != "" ==>
              forall cid :: r == Some(cid) <==> Wins(HitSet(idx, QueryTexts(fold, text)), cid)
    ensures text != "" && fold(fold(text)) != "" ==>
              forall cid :: r == Some(cid) <==> Prevails(idx, fold(fold(text)), cid)
  {
    BaseAddsNothing(fold, idx, text);
    forall cid ensures Wins(HitSet(idx, [fold(fold(text))]), cid) <==> Prevails(idx, fold(fold(text)), cid) {
      PrevailsExactly(idx, fold(fold(text)), cid);
    }
    if text == "" {
      return None;
    }
    var texts := QueryTexts(fold, text);
    if texts[0] == "" {
      return None;
    }
    r := ScanAll(idx, texts);
  }

  method ScanAll(idx: seq<Entry>, texts: seq<string>) returns (r: Option<string>)
    requires forall e <- idx :: e.key != ""
    ensures forall cid :: r == Some(cid) <==> Wins(HitSet(idx, texts), cid)
  {
    var len: nat := 0;
    r := None;
    for i := 0 to |texts|
      invariant Best(HitSet(idx, texts[..i]), r, len)
    {
      HitsPositive(idx, texts[..i]);
      r, len := Scan(idx, texts[i], r, len, HitSet(idx, texts[..i]));
      HitSetOverTexts(idx, texts, i);
    }
    assert texts[..|texts|] == texts;
    BestDecides(HitSet(idx, texts), r, len);
  }

  // ---------- what validation buys ----------

  /** A hit is at most as long as its text, and a hit of full length is the text itself. */
  lemma LongHitIsWhole(e: Entry, t: string)
    requires Hits(e, t)
    ensures |e.key| <= |t| && (|e.key| == |t| ==> e.key == t)
  {
  }

  lemma WholeHits(e: Entry)
    ensures Hits(e, e.key)
  {
    assert e.key[0..|e.key|] == e.key;
    assert HitAt(e, e.key, 0);
  }

  /** In a validated ontology, a text whose folded form is a generated key resolves to the owner of that
    * key, whatever shorter keys it contains. The lookup folds its text twice. */
  lemma FoldedKeyResolves(fold: string -> string, cs: seq<Concept>, idx: seq<Entry>, text: string, cid: string)
    requires Valid(fold, cs) && IsIndex(fold, cs, idx)
    requires (fold(fold(text)), cid) in AllKeys(fold, cs)
    ensures Wins(HitSet(idx, QueryTexts(fold, text)), cid)
  {
    var t := fold(fold(text));
    var texts := QueryTexts(fold, text);
    var hits := HitSet(idx, texts);
    assert texts[0] == t && t in texts;
    var c :| c in cs && (t, cid) in KeysOf(fold, c);
    var a :| a in c.aliases && t in Variants(fold, a);
    assert ConceptOk(fold, c) && AliasOk(fold, a);
    var own := Entry(t, cid, IsLatin(a));
    assert IsEntryOf(fold, c, a, own);
    WholeHits(own);
    var best := (|t|, cid);
    assert best in hits;
    forall h | h in hits ensures h.0 <= |t| && (h.0 == |t| ==> h.1 == cid) {
      HitIsBounded(fold, cs, idx, texts, t, cid, h);
    }
  }

  lemma HitIsBounded(fold: string -> string, cs: seq<Concept>, idx: seq<Entry>, texts: seq<string>, t: string,
                     cid: string, h: (nat, string))
    requires Functional(AllKeys(fold, cs)) && IsIndex(fold, cs, idx)
    requires (t, cid) in AllKeys(fold, cs) && (forall u <- texts :: u == t || |u| < |t|)
    requires h in HitSet(idx, texts)
    ensures h.0 <= |t| && (h.0 == |t| ==> h.1 == cid)
  {
    var e, u :| e in idx && u in texts && Hits(e, u) && h == (|e.key|, e.cid);
    LongHitIsWhole(e, u);
    EntryIsKey(fold, cs, e);
    if h.0 == |t| {
      assert e.key == t;
      assert (t, e.cid) in AllKeys(fold, cs);
    }
  }

  lemma EntryIsKey(fold: string -> string, cs: seq<Concept>, e: Entry)
    requires IsEntry(fold, cs, e)
    ensures (e.key, e.cid) in AllKeys(fold, cs)
  {
    var c, a :| c in cs && a in c.aliases && IsEntryOf(fold, c, a, e);
    assert (e.key, e.cid) in KeysOf(fold, c);
  }

  lemma VariantIsKey(fold: string -> string, cs: seq<Concept>, c: Concept, a: string, k: string)
    requires c in cs && a in c.aliases && k in Variants(fold, a)
    ensures (k, c.id) in AllKeys(fold, cs)
  {
    assert (k, c.id) in KeysOf(fold, c);
  }

  /** A text whose folded form is the folded alias resolves to the alias's concept. */
  lemma AliasResolves(fold: string -> string, cs: seq<Concept>, idx: seq<Entry>, c: Concept, a: string, text: string)
    requires Valid(fold, cs) && IsIndex(fold, cs, idx)
    requires c in cs && a in c.aliases && fold(fold(text)) == fold(a)
    ensures Wins(HitSet(idx, QueryTexts(fold, text)), c.id)
  {
    VariantIsKey(fold, cs, c, a, fold(a));
    FoldedKeyResolves(fold, cs, idx, text, c.id);
  }

  // ---------- generated keys as texts ----------

  /** The namespace-stripped form that the query side adds brings no hit of its own. */
  lemma BaseAddsNothing(fold: string -> string, idx: seq<Entry>, text: string)
    ensures HitSet(idx, QueryTexts(fold, text)) == HitSet(idx, [fold(fold(text))])
  {
    var t := fold(fold(text));
    var base := StripStd(t);
    var texts := QueryTexts(fold, text);
    forall h | h in HitSet(idx, texts) ensures h in HitSet(idx, [t]) {
      var e, u :| e in idx && u in texts && Hits(e, u) && h == (|e.key|, e.cid);
      if u != t {
        HitBehindPrefix(e, t);
      }
      assert t in [t];
    }
    forall h | h in HitSet(idx, [t]) ensures h in HitSet(idx, texts) {
      var e, u :| e in idx && u in [t] && Hits(e, u) && h == (|e.key|, e.cid);
      assert texts[0] == t;
    }
  }

  lemma HitShifts(e: Entry, prefix: string, base: string, i: nat)
    requires i <= |base| && HitAt(e, base, i) && prefix != "" && !Alnum(prefix[|prefix| - 1])
    ensures HitAt(e, prefix + base, |prefix| + i)
  {
    var t, j := prefix + base, |prefix| + i;
    assert t[j..j + |e.key|] == base[i..i + |e.key|];
    assert i == 0 ==> t[j - 1] == prefix[|prefix| - 1];
  }

  lemma HitBehindPrefix(e: Entry, t: string)
    requires HasPrefix(t, STD) && Hits(e, t[|STD|..])
    ensures Hits(e, t)
  {
    var base := t[|STD|..];
    var i: nat :| i <= |base| && HitAt(e, base, i);
    assert STD[|STD| - 1] == ':' && t == STD + base;
    HitShifts(e, STD, base, i);
    assert HitAt(e, t, |STD| + i);
  }

  /** Some concept has this generated key. */
  ghost predicate Keyed(fold: string -> string, cs: seq<Concept>, t: string) {
    exists cid :: (t, cid) in AllKeys(fold, cs)
  }

  /** Of the generated keys that occur in the text, the longest all belong to this concept. */
  ghost predicate OwnsLongest(fold: string -> string, cs: seq<Concept>, t: string, cid: string) {
    exists e :: IsEntry(fold, cs, e) && Hits(e, t) && e.cid == cid && Outdoes(fold, cs, t, e)
  }

  ghost predicate Outdoes(fold: string -> string, cs: seq<Concept>, t: string, e: Entry) {
    forall e' | IsEntry(fold, cs, e') && Hits(e', t) :: |e'.key| <= |e.key| && (|e'.key| == |e.key| ==> e'.cid == e.cid)
  }

  lemma WinnerOwns(fold: string -> string, cs: seq<Concept>, idx: seq<Entry>, t: string, cid: string)
    requires IsIndex(fold, cs, idx) && Wins(HitSet(idx, [t]), cid)
    ensures OwnsLongest(fold, cs, t, cid)
  {
    var hits := HitSet(idx, [t]);
    var h :| h in hits && h.1 == cid && forall h' | h' in hits :: h'.0 <= h.0 && (h'.0 == h.0 ==> h'.1 == cid);
    var e, u :| e in idx && u in [t] && Hits(e, u) && h == (|e.key|, e.cid);
    assert t in [t];
    forall e' | IsEntry(fold, cs, e') && Hits(e', t)
      ensures |e'.key| <= |e.key| && (|e'.key| == |e.key| ==> e'.cid == e.cid)
    {
      assert e' in idx && (|e'.key|, e'.cid) in hits;
    }
    assert IsEntry(fold, cs, e) && Outdoes(fold, cs, t, e);
  }

  lemma OwnerWins(fold: string -> string, cs: seq<Concept>, idx: seq<Entry>, t: string, e: Entry)
    requires IsIndex(fold, cs, idx) && IsEntry(fold, cs, e) && Hits(e, t) && Outdoes(fold, cs, t, e)
    ensures Wins(HitSet(idx, [t]), e.cid)
  {
    var hits := HitSet(idx, [t]);
    var h := (|e.key|, e.cid);
    assert e in idx && t in [t] && h in hits;
    forall h' | h' in hits ensures h'.0 <= h.0 && (h'.0 == h.0 ==> h'.1 == e.cid) {
      var e', u :| e' in idx && u in [t] && Hits(e', u) && h' == (|e'.key|, e'.cid);
      assert IsEntry(fold, cs, e') && Hits(e', t);
    }
  }

  lemma WinsByEntries(fold: string -> string, cs: seq<Concept>, idx: seq<Entry>, t: string, cid: string)
    requires IsIndex(fold, cs, idx)
    ensures Wins(HitSet(idx, [t]), cid) <==> OwnsLongest(fold, cs, t, cid)
  {
    if Wins(HitSet(idx, [t]), cid) {
      WinnerOwns(fold, cs, idx, t, cid);
    } else if OwnsLongest(fold, cs, t, cid) {
      var e :| IsEntry(fold, cs, e) && Hits(e, t) && e.cid == cid && Outdoes(fold, cs, t, e);
      OwnerWins(fold, cs, idx, t, e);
    }
  }

  /** The data decide whether a folded text resolves to a concept: if the text is a generated key, its owner
    * must be that concept; if not, the longest keys that occur in it must be that concept's. */
  ghost predicate Resolvable(fold: string -> string, cs: seq<Concept>, t: string, cid: string) {
    if Keyed(fold, cs, t) then (t, cid) in AllKeys(fold, cs) else OwnsLongest(fold, cs, t, cid)
  }

  /** Any text, in particular any generated key, resolves to a concept of a validated ontology exactly when
    * its folded form is resolvable to it. */
  lemma TextResolvesExactly(fold: string -> string, cs: seq<Concept>, idx: seq<Entry>, text: string, cid: string)
    requires Valid(fold, cs) && IsIndex(fold, cs, idx)
    ensures Wins(HitSet(idx, QueryTexts(fold, text)), cid) <==> Resolvable(fold, cs, fold(fold(text)), cid)
  {
    var t := fold(fold(text));
    var hits := HitSet(idx, QueryTexts(fold, text));
    if Keyed(fold, cs, t) {
      var d :| (t, d) in AllKeys(fold, cs);
      FoldedKeyResolves(fold, cs, idx, text, d);
      if Wins(hits, cid) {
        WinnerUnique(hits, cid, d);
      }
      if (t, cid) in AllKeys(fold, cs) {
        FoldedKeyResolves(fold, cs, idx, text, cid);
      }
    } else {
      BaseAddsNothing(fold, idx, text);
      WinsByEntries(fold, cs, idx, t, cid);
    }
  }

  /** An alias resolves to its own concept exactly when its twice folded form is resolvable to it, in
    * particular if folding leaves the folded alias alone. */
  lemma AliasResolvesExactly(fold: string -> string, cs: seq<Concept>, idx: seq<Entry>, c: Concept, a: string)
    requires Valid(fold, cs) && IsIndex(fold, cs, idx) && c in cs && a in c.aliases
    ensures Wins(HitSet(idx, QueryTexts(fold, a)), c.id) <==> Resolvable(fold, cs, fold(fold(a)), c.id)
    ensures fold(fold(a)) == fold(a) ==> Wins(HitSet(idx, QueryTexts(fold, a)), c.id)
  {
    TextResolvesExactly(fold, cs, idx, a, c.id);
    VariantIsKey(fold, cs, c, a, fold(a));
  }

  /** A generated key resolves to its own concept exactly when its folded form is resolvable to it; keys that
    * folding leaves alone always do. */
  lemma GeneratedKeyResolvesExactly(fold: string -> string, cs: seq<Concept>, idx: seq<Entry>, c: Concept, a: string,
                                    k: string)
    requires Valid(fold, cs) && IsIndex(fold, cs, idx)
    requires c in cs && a in c.aliases && k in Variants(fold, a)
    ensures Wins(HitSet(idx, QueryTexts(fold, k)), c.id) <==> Resolvable(fold, cs, fold(fold(k)), c.id)
    ensures fold(k) == k ==> Wins(HitSet(idx, QueryTexts(fold, k)), c.id)
  {
    TextResolvesExactly(fold, cs, idx, k, c.id);
    VariantIsKey(fold, cs, c, a, k);
  }

  lemma WinnerUnique(hits: set<(nat, string)>, c: string, d: string)
    requires Wins(hits, c) && Wins(hits, d)
    ensures c == d
  {
  }
}
