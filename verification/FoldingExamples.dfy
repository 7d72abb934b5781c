/** Validated ontologies of forty concepts in which a generated key misses its own concept. */
module SpacedExample {
  import opened Common
  import opened Ontology
  import opened Folding

  /** `n` letters x. */
  function Xs(n: nat): (s: string)
    ensures |s| == n
  {
    seq(n, i => 'x')
  }

  function Filler(n: nat): Concept {
    Concept(Xs(n), "x", "x", [Xs(n)], None)
  }

  /** One concept with a blank behind the namespace of its alias, one with a chosen alias, and fillers. */
  function Sample(rest: string, other: string): (cs: seq<Concept>)
    ensures |cs| == MIN_CONCEPTS
  {
    [Concept("c", "x", "x", [SPACED + rest], None), Concept("d", "x", "x", [other], None)]
    + seq(MIN_CONCEPTS - 2, i requires 0 <= i < MIN_CONCEPTS - 2 => Filler(i + 3))
  }

  /** Two small letters. */
  predicate Pair(s: string) {
    |s| == 2 && 'a' <= s[0] <= 'z' && 'a' <= s[1] <= 'z'
  }

  // ---------- its generated keys ----------

  lemma {:induction false} GlueFixed(s: string)
    requires forall i | 0 <= i < |s| :: s[i] !in {' ', '-', '_'}
    ensures Glue(s) == s
  {
    if s != "" {
      GlueFixed(s[1..]);
      assert s == [s[0]] + s[1..];
    }
  }

  /** A clean word without separators and namespace has one generated key, itself. */
  lemma WordVariants(s: string)
    requires Clean(s) && (forall i | 0 <= i < |s| :: s[i] !in {' ', '-', '_'}) && !HasPrefix(s, STD)
    ensures Variants(Fold, s) == {s}
  {
    CleanIsFixed(s);
    GlueFixed(s);
  }

  lemma FillerVariants(n: nat)
    requires n > 0
    ensures Variants(Fold, Xs(n)) == {Xs(n)}
  {
    assert Xs(n)[0] == 'x' && STD[0] == 's';
    WordVariants(Xs(n));
  }

  lemma SpacedIsClean(rest: string)
    requires Pair(rest)
    ensures Clean(SPACED + rest) && StripStd(SPACED + rest) == [' '] + rest
  {
    var full := SPACED + rest;
    assert full[0] == 's' && full[1] == 't' && full[2] == 'd' && full[3] == ':' && full[4] == ':' && full[5] == ' ';
    assert full[6] == rest[0] && full[7] == rest[1];
    assert full[..|STD|] == SPACED[..|STD|] == STD;
    assert full[|STD|..] == SPACED[|STD|..] + rest;
  }

  lemma SpacedVariants(rest: string)
    requires Pair(rest)
    ensures Variants(Fold, SPACED + rest) == {SPACED + rest, [' '] + rest}
  {
    SpacedIsClean(rest);
    CleanIsFixed(SPACED + rest);
    assert ([' '] + rest)[1..] == rest;
    GlueFixed(rest);
    assert Glue([' '] + rest) == rest;
  }

  lemma SingleAlias(fold: string -> string, c: Concept, a: string, p: (string, string))
    requires c.aliases == [a] && p in KeysOf(fold, c)
    ensures p == (p.0, c.id) && p.0 in Variants(fold, a)
  {
  }

  lemma OwnConcept(fold: string -> string, cs: seq<Concept>, p: (string, string)) returns (i: nat)
    requires p in AllKeys(fold, cs)
    ensures i < |cs| && p in KeysOf(fold, cs[i])
  {
    var c :| c in cs && p in KeysOf(fold, c);
    i :| 0 <= i < |cs| && cs[i] == c;
  }

  predicate SampleKey(rest: string, other: string, p: (string, string)) {
    || p == (SPACED + rest, "c") || p == ([' '] + rest, "c") || p == (other, "d")
    || (|p.0| >= 3 && p == (Xs(|p.0|), Xs(|p.0|)))
  }

  lemma FillerKey(n: nat, p: (string, string))
    requires n >= 3 && p in KeysOf(Fold, Filler(n))
    ensures |p.0| == n && p == (Xs(n), Xs(n))
  {
    SingleAlias(Fold, Filler(n), Xs(n), p);
    FillerVariants(n);
  }

  lemma SampleKeys(rest: string, other: string, p: (string, string))
    requires Pair(rest) && Pair(other) && p in AllKeys(Fold, Sample(rest, other))
    ensures SampleKey(rest, other, p)
  {
    var i := OwnConcept(Fold, Sample(rest, other), p);
    if i >= 2 {
      FillerKey(i + 1, p);
    } else if i == 1 {
      SingleAlias(Fold, Sample(rest, other)[1], other, p);
      WordVariants(other);
    } else {
      SingleAlias(Fold, Sample(rest, other)[0], SPACED + rest, p);
      SpacedVariants(rest);
    }
  }

  // ---------- start-up accepts it ----------

  lemma SampleFunctional(rest: string, other: string)
    requires Pair(rest) && Pair(other)
    ensures Functional(AllKeys(Fold, Sample(rest, other)))
  {
    var keys := AllKeys(Fold, Sample(rest, other));
    assert (SPACED + rest)[0] == 's' && ([' '] + rest)[0] == ' ';
    forall p, p' | p in keys && p' in keys && p.0 == p'.0 ensures p.1 == p'.1 {
      SampleKeys(rest, other, p);
      SampleKeys(rest, other, p');
    }
  }

  lemma SingleOk(fold: string -> string, c: Concept, a: string)
    requires c.zh != "" && c.en != "" && c.aliases == [a] && AliasOk(fold, a)
    ensures ConceptOk(fold, c)
  {
  }

  lemma FillerGroup(n: nat)
    requires n >= 3
    ensures GroupOk(Filler(n))
  {
    assert Xs(n)[0] == 'x';
    assert "elec_"[0] == 'e' && "mech_"[0] == 'm' && "emb_"[0] == 'e';
  }

  lemma FillerOk(n: nat)
    requires n >= 3
    ensures ConceptOk(Fold, Filler(n)) && GroupOk(Filler(n))
  {
    FillerVariants(n);
    SingleOk(Fold, Filler(n), Xs(n));
    FillerGroup(n);
  }

  lemma SpacedOk(c: Concept, rest: string)
    requires Pair(rest) && c.zh != "" && c.en != "" && c.aliases == [SPACED + rest]
    ensures ConceptOk(Fold, c)
  {
    SpacedVariants(rest);
    SingleOk(Fold, c, SPACED + rest);
  }

  lemma WordOk(c: Concept, other: string)
    requires Pair(other) && c.zh != "" && c.en != "" && c.aliases == [other]
    ensures ConceptOk(Fold, c)
  {
    WordVariants(other);
    SingleOk(Fold, c, other);
  }

  lemma SampleConceptOk(rest: string, other: string, i: nat)
    requires Pair(rest) && Pair(other) && i < MIN_CONCEPTS
    ensures ConceptOk(Fold, Sample(rest, other)[i]) && GroupOk(Sample(rest, other)[i])
  {
    var c := Sample(rest, other)[i];
    if i == 0 {
      SpacedOk(c, rest);
    } else if i == 1 {
      WordOk(c, other);
    } else {
      FillerOk(i + 1);
    }
  }

  lemma SampleIds(rest: string, other: string)
    ensures DistinctIds(Sample(rest, other))
  {
    var cs := Sample(rest, other);
    assert "c"[0] != "d"[0];
    assert |cs[0].id| == |cs[1].id| == 1;
    assert forall j | 2 <= j < |cs| :: |cs[j].id| == j + 1;
  }

  lemma SampleValid(rest: string, other: string)
    requires Pair(rest) && Pair(other)
    ensures Valid(Fold, Sample(rest, other))
  {
    var cs := Sample(rest, other);
    SampleFunctional(rest, other);
    SampleIds(rest, other);
    forall c | c in cs ensures ConceptOk(Fold, c) && GroupOk(c) {
      var i :| 0 <= i < |cs| && cs[i] == c;
      SampleConceptOk(rest, other, i);
    }
  }

  // ---------- where the key goes ----------

  /** To the concept with that alias if there is one, and otherwise nowhere. */
  lemma SpacedGoes(rest: string, other: string, cid: string)
    requires Pair(rest) && Pair(other)
    ensures Resolvable(Fold, Sample(rest, other), rest, cid) <==> other == rest && cid == "d"
  {
    var cs := Sample(rest, other);
    WordVariants(other);
    if other == rest {
      VariantIsKey(Fold, cs, cs[1], other, other);
      if (rest, cid) in AllKeys(Fold, cs) {
        SampleKeys(rest, other, (rest, cid));
      }
    } else {
      forall d ensures (rest, d) !in AllKeys(Fold, cs) {
        if (rest, d) in AllKeys(Fold, cs) {
          SampleKeys(rest, other, (rest, d));
        }
      }
      forall e | IsEntry(Fold, cs, e) ensures !Hits(e, rest) {
        EntryIsKey(Fold, cs, e);
        SampleKeys(rest, other, (e.key, e.cid));
        if Hits(e, rest) {
          LongHitIsWhole(e, rest);
        }
      }
    }
  }

  /** Start-up accepts the sample; the lookup then gives a generated key of concept "c" to concept "d" if that
    * has the bare rest as an alias, and to nobody if not. */
  method LookUpSpacedKey(rest: string, other: string) returns (accepted: bool, r: Option<string>)
    requires Pair(rest) && Pair(other)
    ensures Sample(rest, other)[0].id == "c" && [' '] + rest in Variants(Fold, Sample(rest, other)[0].aliases[0])
    ensures accepted && r == if other == rest then Some("d") else None
  {
    var cs := Sample(rest, other);
    SpacedVariants(rest);
    accepted := Validate(Fold, cs);
    SampleValid(rest, other);
    var idx := BuildIndex(Fold, cs);
    forall e | e in idx ensures e.key != "" {
      assert IsEntry(Fold, cs, e);
    }
    r := LookupSubjectId(Fold, idx, [' '] + rest);
    FoldIsIdempotent();
    LeadingBlank(rest);
    CleanIsFixed(rest);
    forall cid ensures r == Some(cid) <==> other == rest && cid == "d" {
      TextResolvesExactly(Fold, cs, idx, [' '] + rest, cid);
      SpacedGoes(rest, other, cid);
    }
  }
}

/** Folding is not idempotent: normalisation comes before lower case, and lower case can make a pair of
  * characters that normalisation would have composed. Here on one such pair, j with a caron above. */
module MarkedExample {
  import opened Common
  import opened Ontology
  import opened Folding
  import opened SpacedExample

  /** Combining caron, and the small j with a caron; no capital one exists. */
  const CARON: char := '\U{30C}'
  const J_CARON: char := '\U{1F0}'

  /** Normalisation on texts of ASCII characters and carons that follow a j. */
  function Compose(s: string): string {
    if s == "" then ""
    else if |s| > 1 && s[0] == 'j' && s[1] == CARON then [J_CARON] + Compose(s[2..])
    else [s[0]] + Compose(s[1..])
  }

  function MarkFold(s: string): string {
    Fold(Compose(s))
  }

  lemma {:induction false} ComposeFixed(s: string)
    requires forall i | 0 <= i < |s| - 1 :: s[i] != 'j' || s[i + 1] != CARON
    ensures Compose(s) == s
  {
    if s != "" {
      assert forall i | 0 <= i < |s[1..]| :: s[1..][i] == s[i + 1];
      ComposeFixed(s[1..]);
      assert s == [s[0]] + s[1..];
    }
  }

  /** A capital J with a caron, and a letter. */
  function Marked(c: char): string {
    ['J', CARON, c]
  }

  lemma MarkedFolds(c: char)
    requires 'a' <= c <= 'z'
    ensures MarkFold(Marked(c)) == ['j', CARON, c] && MarkFold(['j', CARON, c]) == [J_CARON, c]
  {
    var m := Marked(c);
    ComposeFixed(m);
    var low := ['j', CARON, c];
    assert Lower(m) == low;
    CleanIsFixed(low);
    assert Lower(low) == low;
    assert low[2..] == [c];
    ComposeFixed([c]);
    assert Compose(low) == [J_CARON, c];
    CleanIsFixed([J_CARON, c]);
  }

  lemma MarkedVariants(c: char)
    requires 'a' <= c <= 'z'
    ensures Variants(MarkFold, Marked(c)) == {['j', CARON, c]}
  {
    MarkedFolds(c);
    assert STD[0] == 's';
    GlueFixed(['j', CARON, c]);
  }

  lemma FillerFolds(n: nat)
    requires n > 0
    ensures Variants(MarkFold, Xs(n)) == {Xs(n)}
  {
    ComposeFixed(Xs(n));
    CleanIsFixed(Xs(n));
    assert Xs(n)[0] == 'x' && STD[0] == 's';
    GlueFixed(Xs(n));
  }

  /** One concept with the marked alias, and fillers. */
  function Sample(c: char): (cs: seq<Concept>)
    ensures |cs| == MIN_CONCEPTS
  {
    [Concept("c", "x", "x", [Marked(c)], None)]
    + seq(MIN_CONCEPTS - 1, i requires 0 <= i < MIN_CONCEPTS - 1 => Filler(i + 3))
  }

  lemma MarkedKey(x: Concept, c: char, p: (string, string))
    requires 'a' <= c <= 'z' && x.aliases == [Marked(c)] && p in KeysOf(MarkFold, x)
    ensures p == (['j', CARON, c], x.id)
  {
    SingleAlias(MarkFold, x, Marked(c), p);
    MarkedVariants(c);
  }

  lemma MarkFillerKey(n: nat, p: (string, string))
    requires n >= 3 && p in KeysOf(MarkFold, Filler(n))
    ensures |p.0| == n && p == (Xs(n), Xs(n))
  {
    SingleAlias(MarkFold, Filler(n), Xs(n), p);
    FillerFolds(n);
  }

  lemma SampleKeys(c: char, p: (string, string))
    requires 'a' <= c <= 'z' && p in AllKeys(MarkFold, Sample(c))
    ensures |p.0| >= 3 && (p == (['j', CARON, c], "c") || p == (Xs(|p.0|), Xs(|p.0|)))
  {
    var i := OwnConcept(MarkFold, Sample(c), p);
    if i == 0 {
      MarkedKey(Sample(c)[0], c, p);
    } else {
      MarkFillerKey(i + 2, p);
    }
  }

  lemma MarkedOk(x: Concept, c: char)
    requires 'a' <= c <= 'z' && x.zh != "" && x.en != "" && x.aliases == [Marked(c)]
    ensures ConceptOk(MarkFold, x)
  {
    MarkedVariants(c);
    SingleOk(MarkFold, x, Marked(c));
  }

  lemma MarkFillerOk(n: nat)
    requires n >= 3
    ensures ConceptOk(MarkFold, Filler(n)) && GroupOk(Filler(n))
  {
    FillerFolds(n);
    SingleOk(MarkFold, Filler(n), Xs(n));
    FillerGroup(n);
  }

  lemma SampleConceptOk(c: char, i: nat)
    requires 'a' <= c <= 'z' && i < MIN_CONCEPTS
    ensures ConceptOk(MarkFold, Sample(c)[i]) && GroupOk(Sample(c)[i])
  {
    if i == 0 {
      MarkedOk(Sample(c)[0], c);
    } else {
      MarkFillerOk(i + 2);
    }
  }

  lemma SampleValid(c: char)
    requires 'a' <= c <= 'z'
    ensures Valid(MarkFold, Sample(c))
  {
    var cs := Sample(c);
    var keys := AllKeys(MarkFold, cs);
    forall p, p' | p in keys && p' in keys && p.0 == p'.0 ensures p.1 == p'.1 {
      SampleKeys(c, p);
      SampleKeys(c, p');
      assert ['j', CARON, c][0] == 'j';
    }
    forall x | x in cs ensures ConceptOk(MarkFold, x) && GroupOk(x) {
      var i :| 0 <= i < |cs| && cs[i] == x;
      SampleConceptOk(c, i);
    }
    assert |cs[0].id| == 1 && forall j | 1 <= j < |cs| :: |cs[j].id| == j + 2;
  }

  /** Start-up accepts the sample, and the lookup does not find the alias of its first concept. */
  method LookUpMarkedAlias(c: char) returns (accepted: bool, r: Option<string>)
    requires 'a' <= c <= 'z'
    ensures Marked(c) in Sample(c)[0].aliases
    ensures accepted && r == None
  {
    var cs := Sample(c);
    accepted := Validate(MarkFold, cs);
    SampleValid(c);
    var idx := BuildIndex(MarkFold, cs);
    forall e | e in idx ensures e.key != "" {
      assert IsEntry(MarkFold, cs, e);
    }
    r := LookupSubjectId(MarkFold, idx, Marked(c));
    MarkedFolds(c);
    forall cid ensures r != Some(cid) {
      TextResolvesExactly(MarkFold, cs, idx, Marked(c), cid);
      NothingFits(c, cid);
    }
  }

  lemma NothingFits(c: char, cid: string)
    requires 'a' <= c <= 'z'
    ensures !Resolvable(MarkFold, Sample(c), [J_CARON, c], cid)
  {
    var cs, t := Sample(c), [J_CARON, c];
    forall d ensures (t, d) !in AllKeys(MarkFold, cs) {
      if (t, d) in AllKeys(MarkFold, cs) {
        SampleKeys(c, (t, d));
      }
    }
    forall e | IsEntry(MarkFold, cs, e) ensures !Hits(e, t) {
      EntryIsKey(MarkFold, cs, e);
      SampleKeys(c, (e.key, e.cid));
      if Hits(e, t) {
        LongHitIsWhole(e, t);
      }
    }
  }
}
