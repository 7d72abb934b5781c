/** The ontology in terms of its data alone: what an alias generates, what start-up accepts, and which concept
  * a text resolves to. */
module OntologyMeaning {
  import opened Common
  import opened Ontology
  import Runs

  // ---------- generated keys ----------

  /** Which characters gluing keeps. */
  ghost function Kept(s: string): (flags: seq<bool>)
    ensures |flags| == |s|
  {
    seq(|s|, i requires 0 <= i < |s| => s[i] != ' ' && s[i] != '-' && s[i] != '_')
  }

  lemma {:induction false} GlueAppend(s: string, u: string)
    ensures Glue(s + u) == Glue(s) + Glue(u)
  {
    if s == "" {
      assert s + u == u;
    } else {
      assert (s + u)[1..] == s[1..] + u;
      GlueAppend(s[1..], u);
    }
  }

  /** Gluing keeps, in order, everything but blanks, hyphens and underscores. */
  lemma {:induction false} GlueExactly(s: string)
    ensures var at := Positions(Kept(s));
            |Glue(s)| == |at| && forall i | 0 <= i < |at| :: Glue(s)[i] == s[at[i]]
  {
    if s != "" {
      var n := |s| - 1;
      GlueExactly(s[..n]);
      assert s == s[..n] + [s[n]];
      GlueAppend(s[..n], [s[n]]);
      assert Kept(s)[..n] == Kept(s[..n]);
    }
  }

  /** The generated keys of an alias: its folded form, what follows a namespace prefix of that, and the latter
    * glued if three characters or more remain. */
  lemma VariantsExactly(fold: string -> string, a: string, k: string)
    ensures var full := fold(a);
            var base := if "std::" <= full then full[5..] else full;
            k in Variants(fold, a) <==> k == full || k == base || (k == Glue(base) && |k| >= 3)
  {
  }

  // ---------- start-up ----------

  /** Generated from an alias of this concept. */
  predicate KeyOf(fold: string -> string, c: Concept, k: string) {
    exists a <- c.aliases :: k in Variants(fold, a)
  }

  /** One concept on its own: it has names and aliases, no alias is empty or a single ASCII letter or has an
    * empty key, and its group is a known one and fits its id. */
  predicate Acceptable(fold: string -> string, c: Concept) {
    && |c.zh| > 0 && |c.en| > 0 && |c.aliases| > 0
    && (forall a <- c.aliases :: |a| > 0 && !(|a| == 1 && Alnum(a[0]) && !('0' <= a[0] <= '9')))
    && !KeyOf(fold, c, "")
    && c.group in {None, Some("electrical"), Some("mechanical"), Some("embedded")}
    && ("elec_" <= c.id ==> c.group == Some("electrical"))
    && ("mech_" <= c.id ==> c.group == Some("mechanical"))
    && ("emb_" <= c.id ==> c.group == Some("embedded"))
  }

  lemma AcceptableExactly(fold: string -> string, c: Concept)
    ensures ConceptOk(fold, c) && GroupOk(c) <==> Acceptable(fold, c)
  {
  }

  lemma KeyOfExactly(fold: string -> string, cs: seq<Concept>, k: string, cid: string)
    ensures (k, cid) in AllKeys(fold, cs) <==> exists c <- cs :: c.id == cid && KeyOf(fold, c, k)
  {
    if (k, cid) in AllKeys(fold, cs) {
      var c :| c in cs && (k, cid) in KeysOf(fold, c);
      assert KeyOf(fold, c, k);
    }
    if c :| c in cs && c.id == cid && KeyOf(fold, c, k) {
      assert (k, cid) in KeysOf(fold, c);
    }
  }

  /** No two concepts generate the same key. */
  ghost predicate Apart(fold: string -> string, cs: seq<Concept>) {
    forall c <- cs, c' <- cs, k | KeyOf(fold, c, k) && KeyOf(fold, c', k) :: c.id == c'.id
  }

  lemma ApartExactly(fold: string -> string, cs: seq<Concept>)
    ensures Functional(AllKeys(fold, cs)) <==> Apart(fold, cs)
  {
    forall k, cid ensures (k, cid) in AllKeys(fold, cs) <==> exists c <- cs :: c.id == cid && KeyOf(fold, c, k) {
      KeyOfExactly(fold, cs, k, cid);
    }
    if Apart(fold, cs) {
      forall p, p' | p in AllKeys(fold, cs) && p' in AllKeys(fold, cs) && p.0 == p'.0 ensures p.1 == p'.1 {
        KeyOfExactly(fold, cs, p.0, p.1);
        KeyOfExactly(fold, cs, p'.0, p'.1);
      }
    }
    if Functional(AllKeys(fold, cs)) {
      forall c <- cs, c' <- cs, k | KeyOf(fold, c, k) && KeyOf(fold, c', k) ensures c.id == c'.id {
        assert (k, c.id) in AllKeys(fold, cs) && (k, c'.id) in AllKeys(fold, cs);
      }
    }
  }

  /** Start-up accepts at least forty acceptable concepts with different ids and no generated key in common. */
  lemma ValidExactly(fold: string -> string, cs: seq<Concept>)
    ensures Valid(fold, cs) <==>
            && |cs| >= 40 && (forall c <- cs :: Acceptable(fold, c)) && Apart(fold, cs)
            && forall i, j | 0 <= i < |cs| && 0 <= j < |cs| && i != j :: cs[i].id != cs[j].id
  {
    ApartExactly(fold, cs);
    forall c <- cs ensures ConceptOk(fold, c) && GroupOk(c) <==> Acceptable(fold, c) {
      AcceptableExactly(fold, c);
    }
  }

  // ---------- the lookup ----------

  /** A Latin key of letters and digits hits a text exactly when it is one of the text's words. */
  lemma LatinKeyIsWord(e: Entry, t: string)
    requires e.latin && e.key != "" && forall k | 0 <= k < |e.key| :: Alnum(e.key[k])
    ensures Hits(e, t) <==> e.key in Runs.AllRuns(Alnum, t)
  {
    Runs.RunExactly(Alnum, e.key, t);
    if i: nat :| i <= |t| && HitAt(e, t, i) {
      assert Runs.RunAt(Alnum, e.key, t, i);
    }
    if i: nat :| Runs.RunAt(Alnum, e.key, t, i) {
      assert HitAt(e, t, i);
    }
  }

  /** Key `k` of alias `a` of concept `c` occurs in the text, as a word if the alias has a letter or a digit. */
  ghost predicate Stands(fold: string -> string, cs: seq<Concept>, t: string, c: Concept, a: string, k: string) {
    c in cs && a in c.aliases && k != "" && k in Variants(fold, a) && Occurs(k, exists x <- a :: Alnum(x), t)
  }

  /** In terms of the ontology: a text resolves to a concept exactly when of all keys that stand in its folded
    * form the longest are that concept's. */
  lemma LookupExactly(fold: string -> string, cs: seq<Concept>, idx: seq<Entry>, text: string, cid: string)
    requires IsIndex(fold, cs, idx)
    ensures var t := fold(fold(text));
            Wins(HitSet(idx, QueryTexts(fold, text)), cid) <==>
            exists c, a, k :: Stands(fold, cs, t, c, a, k) && c.id == cid && NoneLonger(fold, cs, t, c, k)
  {
    var t := fold(fold(text));
    BaseAddsNothing(fold, idx, text);
    PrevailsExactly(idx, t, cid);
    if Prevails(idx, t, cid) {
      var e :| e in idx && e.cid == cid && Occurs(e.key, e.latin, t) && Longest(idx, t, e);
      var c, a :| c in cs && a in c.aliases && IsEntryOf(fold, c, a, e);
      forall c', a', k' | Stands(fold, cs, t, c', a', k')
        ensures |k'| <= |e.key| && (|k'| == |e.key| ==> c'.id == c.id) {
        var e' := EntryThatStands(fold, cs, idx, t, c', a', k');
      }
      assert Stands(fold, cs, t, c, a, e.key) && NoneLonger(fold, cs, t, c, e.key);
    }
    if c, a, k :| Stands(fold, cs, t, c, a, k) && c.id == cid && NoneLonger(fold, cs, t, c, k) {
      var e := EntryThatStands(fold, cs, idx, t, c, a, k);
      forall e' <- idx | Occurs(e'.key, e'.latin, t)
        ensures |e'.key| <= |e.key| && (|e'.key| == |e.key| ==> e'.cid == e.cid) {
        var c', a' :| c' in cs && a' in c'.aliases && IsEntryOf(fold, c', a', e');
        assert Stands(fold, cs, t, c', a', e'.key);
      }
      assert Longest(idx, t, e);
    }
  }

  ghost predicate NoneLonger(fold: string -> string, cs: seq<Concept>, t: string, c: Concept, k: string) {
    forall c', a', k' | Stands(fold, cs, t, c', a', k') :: |k'| <= |k| && (|k'| == |k| ==> c'.id == c.id)
  }

  lemma EntryThatStands(fold: string -> string, cs: seq<Concept>, idx: seq<Entry>, t: string, c: Concept, a: string,
                        k: string) returns (e: Entry)
    requires IsIndex(fold, cs, idx) && Stands(fold, cs, t, c, a, k)
    ensures e in idx && e.key == k && e.cid == c.id && Occurs(e.key, e.latin, t)
  {
    e := Entry(k, c.id, IsLatin(a));
    assert IsEntryOf(fold, c, a, e) && IsEntry(fold, cs, e);
  }
}
