/** The folding of the ontology on ASCII texts, where compatibility normalisation changes nothing: lower case,
  * runs of white space collapsed to one blank, ends stripped. Other characters are left alone. */
module Folding {
  import opened Common
  import opened Ontology
  import Runs

  predicate Upper(c: char) {
    'A' <= c <= 'Z'
  }

  predicate Space(c: char) {
    c == ' ' || 9 <= c as int <= 13 || 28 <= c as int <= 31
  }

  function Lower(s: string): (r: string)
    ensures |r| == |s| && forall i | 0 <= i < |s| :: !Upper(r[i])
  {
    seq(|s|, i requires 0 <= i < |s| => if Upper(s[i]) then (s[i] as int + 32) as char else s[i])
  }

  /** Every run of white space becomes one blank. */
  function Collapse(s: string): string {
    if s == "" then ""
    else if !Space(s[0]) then [s[0]] + Collapse(s[1..])
    else if |s| > 1 && Space(s[1]) then Collapse(s[1..])
    else [' '] + Collapse(s[1..])
  }

  function Fold(s: string): string {
    Trim(Collapse(Lower(s)))
  }

  /** No upper case, no white space but single blanks. */
  ghost predicate Squeezed(s: string) {
    && (forall i | 0 <= i < |s| :: !Upper(s[i]) && (Space(s[i]) ==> s[i] == ' '))
    && (forall i | 0 <= i < |s| - 1 :: s[i] != ' ' || s[i + 1] != ' ')
  }

  /** Squeezed, and no blank at either end. */
  ghost predicate Clean(s: string) {
    Squeezed(s) && (s != "" ==> s[0] != ' ' && s[|s| - 1] != ' ')
  }

  lemma {:induction false} CollapseSqueezes(s: string)
    requires forall i | 0 <= i < |s| :: !Upper(s[i])
    ensures Squeezed(Collapse(s))
    ensures s != "" ==> Collapse(s) != "" && Collapse(s)[0] == (if Space(s[0]) then ' ' else s[0])
  {
    if s != "" {
      CollapseSqueezes(s[1..]);
    }
  }

  lemma {:induction false} CollapseFixes(s: string)
    requires Squeezed(s)
    ensures Collapse(s) == s
  {
    if s != "" {
      assert forall i | 0 <= i < |s[1..]| :: s[1..][i] == s[i + 1];
      CollapseFixes(s[1..]);
      assert s == [s[0]] + s[1..];
    }
  }

  lemma {:induction false} TrimCleans(s: string)
    requires Squeezed(s)
    ensures Clean(Trim(s))
    decreases |s|
  {
    if s != "" && Blank(s[0]) {
      assert forall i | 0 <= i < |s[1..]| :: s[1..][i] == s[i + 1];
      TrimCleans(s[1..]);
    } else if s != "" && Blank(s[|s| - 1]) {
      TrimCleans(s[..|s| - 1]);
    }
  }

  lemma FoldIsClean(s: string)
    ensures Clean(Fold(s))
  {
    CollapseSqueezes(Lower(s));
    TrimCleans(Collapse(Lower(s)));
  }

  lemma CleanIsFixed(s: string)
    requires Clean(s)
    ensures Fold(s) == s
  {
    assert Lower(s) == s;
    CollapseFixes(s);
    if s != "" {
      assert !Space(s[0]) && !Space(s[|s| - 1]);
    }
  }

  // ---------- folding keeps the words ----------

  predicate Solid(c: char) {
    !Space(c)
  }

  lemma {:induction false} CollapseScans(st: (seq<string>, string), s: string)
    ensures Runs.ScanOn(Solid, st, Collapse(s)) == Runs.ScanOn(Solid, st, s)
    decreases |s|
  {
    if s != "" {
      if !Space(s[0]) {
        ConsScans(st, s[0], Collapse(s[1..]));
        CollapseScans(Runs.Step(Solid, st, s[0]), s[1..]);
      } else if |s| > 1 && Space(s[1]) {
        CollapseScans(st, s[1..]);
        assert Runs.Step(Solid, Runs.Step(Solid, st, s[0]), s[1]) == Runs.Step(Solid, st, s[1]);
        assert Runs.ScanOn(Solid, st, s[1..]) == Runs.ScanOn(Solid, Runs.Step(Solid, st, s[1]), s[1..][1..]);
      } else {
        ConsScans(st, ' ', Collapse(s[1..]));
        CollapseScans(Runs.Step(Solid, st, s[0]), s[1..]);
      }
    }
  }

  lemma ConsScans(st: (seq<string>, string), c: char, rest: string)
    ensures Runs.ScanOn(Solid, st, [c] + rest) == Runs.ScanOn(Solid, Runs.Step(Solid, st, c), rest)
  {
    assert ([c] + rest)[1..] == rest;
  }

  lemma {:induction false} TrimRuns(s: string)
    ensures Runs.AllRuns(Solid, Trim(s)) == Runs.AllRuns(Solid, s)
    decreases |s|
  {
    if s != "" {
      if Blank(s[0]) {
        TrimRuns(s[1..]);
        Runs.ScanFromFront(Solid, s);
        Runs.ScanFromFront(Solid, s[1..]);
      } else if Blank(s[|s| - 1]) {
        TrimRuns(s[..|s| - 1]);
      }
    }
  }

  /** Words, each followed by a blank. */
  function Tabbed(words: seq<string>): string {
    if words == [] then "" else Tabbed(words[..|words| - 1]) + words[|words| - 1] + [' ']
  }

  /** Words with one blank between. */
  function Spread(words: seq<string>): string {
    if words == [] then "" else Tabbed(words[..|words| - 1]) + words[|words| - 1]
  }

  lemma {:induction false} TabbedRuns(s: string)
    requires Squeezed(s) && (s != "" ==> s[0] != ' ')
    ensures var (runs, current) := Runs.Scan(Solid, s);
            s == Tabbed(runs) + current && (current == "" <==> s == "" || s[|s| - 1] == ' ')
  {
    if s != "" {
      var init, c := s[..|s| - 1], s[|s| - 1];
      TabbedRuns(init);
      var (runs, current) := Runs.Scan(Solid, init);
      assert s == init + [c];
      if c == ' ' {
        assert init != "" && init[|init| - 1] != ' ';
        assert (runs + [current])[..|runs|] == runs;
      } else {
        assert Tabbed(runs) + (current + [c]) == Tabbed(runs) + current + [c];
      }
    }
  }

  /** A text folds to its words, in lower case, with one blank between. */
  lemma FoldIsWords(s: string)
    ensures Fold(s) == Spread(Runs.AllRuns(Solid, Lower(s)))
    ensures |Lower(s)| == |s| && forall i | 0 <= i < |s| ::
              if 'A' <= s[i] <= 'Z' then Lower(s)[i] as int - 'a' as int == s[i] as int - 'A' as int
              else Lower(s)[i] == s[i]
  {
    var low := Lower(s);
    FoldIsClean(s);
    CollapseScans(([], ""), low);
    Runs.ScanFromFront(Solid, low);
    Runs.ScanFromFront(Solid, Collapse(low));
    TrimRuns(Collapse(low));
    var r := Fold(s);
    TabbedRuns(r);
    var (runs, current) := Runs.Scan(Solid, r);
    if r != "" {
      assert (runs + [current])[..|runs|] == runs;
    } else {
      assert Runs.AllRuns(Solid, r) == [];
    }
  }

  lemma FoldIsIdempotent()
    ensures Idempotent(Fold)
  {
    forall s ensures Fold(Fold(s)) == Fold(s) {
      FoldIsClean(s);
      CleanIsFixed(Fold(s));
    }
  }

  /** A leading blank is what folding removes. */
  lemma LeadingBlank(rest: string)
    requires Clean(rest) && rest != ""
    ensures Fold([' '] + rest) == rest
  {
    var s := [' '] + rest;
    assert Squeezed(s) by {
      assert forall i | 0 < i < |s| :: s[i] == rest[i - 1];
    }
    assert Lower(s) == s;
    CollapseFixes(s);
    assert s[0] == ' ' && s[1..] == rest;
    assert !Blank(rest[0]) && !Blank(rest[|rest| - 1]);
    assert Trim(s) == Trim(rest) == rest;
  }

  /** No upper case and no white space but blanks. */
  ghost predicate Plain(s: string) {
    forall i | 0 <= i < |s| :: !Upper(s[i]) && (Space(s[i]) ==> s[i] == ' ')
  }

  lemma {:induction false} GlueChars(s: string)
    requires Plain(s)
    ensures Plain(Glue(s)) && ' ' !in Glue(s)
  {
    if s != "" {
      assert forall i | 0 <= i < |s[1..]| :: s[1..][i] == s[i + 1];
      GlueChars(s[1..]);
    }
  }

  lemma GlueIsClean(s: string)
    requires Squeezed(s)
    ensures Clean(Glue(s))
  {
    GlueChars(s);
    var g := Glue(s);
    assert forall i | 0 <= i < |g| :: g[i] in g;
  }

  // ---------- generated keys ----------

  const SPACED := "std:: "

  /** A generated key either is left alone by folding, or is what follows the namespace of an alias with a
    * blank after it; folding then removes that blank. */
  lemma KeyShape(a: string, k: string)
    requires k in Variants(Fold, a) && k != ""
    ensures Fold(k) == k || (HasPrefix(Fold(a), SPACED) && k == Fold(a)[|STD|..] && Fold(k) == Fold(a)[|SPACED|..])
  {
    var full := Fold(a);
    var base := StripStd(full);
    FoldIsClean(a);
    if k == full {
      CleanIsFixed(full);
    } else if k == base {
      var n := |full| - |base|;
      assert forall i | 0 <= i < |base| :: base[i] == full[i + n];
      if base[0] == ' ' {
        SpacedBase(full);
      } else {
        CleanIsFixed(base);
      }
    } else {
      assert forall i | 0 <= i < |base| :: base[i] == full[i + |full| - |base|];
      GlueIsClean(base);
      CleanIsFixed(k);
    }
  }

  lemma SpacedBase(full: string)
    requires Clean(full) && HasPrefix(full, STD) && |full| > |STD| && full[|STD|] == ' '
    ensures HasPrefix(full, SPACED) && |full| > |SPACED| && Fold(full[|STD|..]) == full[|SPACED|..]
  {
    assert full[..|SPACED|] == full[..|STD|] + [full[|STD|]];
    assert SPACED == STD + [' '];
    assert |full| > |SPACED|;
    var rest := full[|SPACED|..];
    assert forall i | 0 <= i < |rest| :: rest[i] == full[i + |SPACED|];
    assert full[|STD|..] == [' '] + rest;
    LeadingBlank(rest);
  }

  /** The aliases whose keys need looking at. */
  predicate Spaced(a: string) {
    HasPrefix(Fold(a), SPACED)
  }

  /** What start-up could check: every alias with a blank behind its namespace has a rest that the data
    * resolve to the alias's own concept. */
  ghost predicate SpacedResolve(cs: seq<Concept>) {
    forall c <- cs, a <- c.aliases | Spaced(a) :: Resolvable(Fold, cs, Fold(a)[|SPACED|..], c.id)
  }

  /** Generated key `k` of alias `a` resolves to the alias's concept. */
  ghost predicate KeyResolves(idx: seq<Entry>, c: Concept, k: string) {
    Wins(HitSet(idx, QueryTexts(Fold, k)), c.id)
  }

  /** All generated keys of a validated ontology resolve to their own concepts exactly when this holds; in
    * particular if no alias has a blank behind its namespace. */
  lemma AllKeysResolveExactly(cs: seq<Concept>, idx: seq<Entry>)
    requires Valid(Fold, cs) && IsIndex(Fold, cs, idx)
    ensures (forall c <- cs, a <- c.aliases, k <- Variants(Fold, a) :: KeyResolves(idx, c, k)) <==> SpacedResolve(cs)
    ensures (forall c <- cs, a <- c.aliases :: !Spaced(a)) ==> SpacedResolve(cs)
  {
    FoldIsIdempotent();
    if SpacedResolve(cs) {
      forall c <- cs, a <- c.aliases, k <- Variants(Fold, a) ensures KeyResolves(idx, c, k) {
        assert ConceptOk(Fold, c) && AliasOk(Fold, a);
        KeyShape(a, k);
        GeneratedKeyResolvesExactly(Fold, cs, idx, c, a, k);
      }
    }
    if forall c <- cs, a <- c.aliases, k <- Variants(Fold, a) :: KeyResolves(idx, c, k) {
      forall c <- cs, a <- c.aliases | Spaced(a) ensures Resolvable(Fold, cs, Fold(a)[|SPACED|..], c.id) {
        SpacedKey(a);
        var k := Fold(a)[|STD|..];
        assert KeyResolves(idx, c, k);
        GeneratedKeyResolvesExactly(Fold, cs, idx, c, a, k);
      }
    }
  }

  /** The key behind the namespace is generated, and folds to the rest. */
  lemma SpacedKey(a: string)
    requires Spaced(a)
    ensures Fold(a)[|STD|..] in Variants(Fold, a) && Fold(Fold(a)[|STD|..]) == Fold(a)[|SPACED|..]
  {
    var full := Fold(a);
    FoldIsClean(a);
    assert full[..|STD|] == SPACED[..|STD|] == STD;
    assert full[|STD|] == SPACED[|STD|] == ' ';
    SpacedBase(full);
  }
}
