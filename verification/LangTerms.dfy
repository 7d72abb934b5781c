/** Terms of one programming language: finding them in a text with their namespace and type arguments. */
module LangTerms {
  import opened Common
  import opened Parsing
  import Runs

  datatype Status = Mapped | Ambiguous | Unmapped

  /** A record of the term table; `keepArgs` asks for the type arguments behind the term. */
  datatype Record = Record(status: Status, entityId: string, kind: string, family: Option<string>,
                           ns: Option<string>, keepArgs: bool)

  /** The table in its order. */
  type Table = seq<(string, Record)>

  const MAX_ARGS := 64

  predicate WordChar(c: char) {
    Alnum(c) || c == '_'
  }

  predicate Ascii(c: char) {
    c as int < 128
  }

  // ---------- term patterns ----------

  /** Identifiers are bounded by word characters, ASCII phrases by letters and digits. Any other term is used
    * as a regular expression as it stands. */
  datatype Pattern = Identifier | Phrase | Raw | Unusable

  /** The regular-expression library: the span of the first match of a pattern in a text. */
  type Search = (string, string) -> Option<(nat, nat)>

  ghost predicate SpansOk(search: Search) {
    forall term, text | search(term, text).Some? :: search(term, text).value.0 <= search(term, text).value.1 <= |text|
  }

  predicate IsIdentifier(term: string) {
    (forall c <- term :: WordChar(c)) && exists c <- term :: Alnum(c)
  }

  function PatternOf(term: string): Pattern {
    if IsIdentifier(term) then Identifier
    else if (forall c <- term :: Ascii(c)) && exists c <- term :: Blank(c) || c == '-' then Phrase
    else if |term| > 1 then Raw
    else Unusable
  }

  /** The character may not touch a match of the pattern. */
  predicate Clings(p: Pattern, c: char) {
    match p
    case Identifier => WordChar(c)
    case Phrase => Alnum(c)
    case _ => false
  }

  predicate MatchAt(p: Pattern, term: string, text: string, i: nat) {
    && OccursAt(text, term, i)
    && (i == 0 || !Clings(p, text[i - 1]))
    && (i + |term| == |text| || !Clings(p, text[i + |term|]))
  }

  /** Leftmost match at or after `i`. */
  function FirstFrom(p: Pattern, term: string, text: string, i: nat): (r: Option<nat>)
    ensures r.Some? ==> i <= r.value && MatchAt(p, term, text, r.value)
    ensures r.Some? ==> forall k | i <= k < r.value :: !MatchAt(p, term, text, k)
    ensures r.None? ==> forall k | i <= k <= |text| :: !MatchAt(p, term, text, k)
    decreases |text| - i
  {
    if i > |text| then None
    else if MatchAt(p, term, text, i) then Some(i)
    else if i == |text| then None
    else FirstFrom(p, term, text, i + 1)
  }

  // ---------- what surrounds a match ----------

  /** A white-listed prefix right before the match: the namespace and where the whole token starts. */
  function DetectNamespace(text: string, start: nat): (Option<string>, nat)
    requires start <= |text|
  {
    if start >= |STD| && text[start - |STD|..start] == STD then (Some("std"), start - |STD|) else (None, start)
  }

  function Find(s: string, c: char): (r: Option<nat>)
    ensures r.Some? ==> r.value < |s| && s[r.value] == c && c !in s[..r.value]
    ensures r.None? ==> c !in s
  {
    if s == "" then None
    else if s[0] == c then Some(0)
    else
      match Find(s[1..], c)
      case None => None
      case Some(k) => assert s[..k + 1] == [s[0]] + s[1..][..k]; Some(k + 1)
  }

  /** Text pieces between commas. */
  function SplitComma(s: string): seq<string> {
    match Find(s, ',')
    case None => [s]
    case Some(k) => [s[..k]] + SplitComma(s[k + 1..])
  }

  /** Trimmed pieces, empty ones left out. */
  function Cleaned(parts: seq<string>): seq<string> {
    if parts == [] then []
    else (if Trim(parts[0]) == "" then [] else [Trim(parts[0])]) + Cleaned(parts[1..])
  }

  /** What stands between the angle brackets that open right at `pos`. */
  function Bracketed(text: string, pos: nat): Option<string>
    requires pos <= |text|
  {
    var rest := text[pos..];
    if rest == "" || rest[0] != '<' then None
    else match Find(rest, '>')
      case None => None
      case Some(close) => if close == 0 then None else Some(rest[1..close])
  }

  /** A single level of brackets with a short body that opens no other. */
  function ParseTypeArgs(text: string, pos: nat): seq<string>
    requires pos <= |text|
  {
    match Bracketed(text, pos)
    case None => []
    case Some(body) => if |body| > MAX_ARGS || '<' in body then [] else Cleaned(SplitComma(body))
  }

  /** The arguments written between angle brackets. */
  function Join(args: seq<string>): string {
    if args == [] then ""
    else if |args| == 1 then args[0]
    else args[0] + [','] + Join(args[1..])
  }

  predicate PlainArg(a: string) {
    a != "" && Trim(a) == a && ',' !in a && '<' !in a && '>' !in a
  }

  lemma SplitStep(first: string, rest: string)
    requires ',' !in first
    ensures SplitComma(first + [','] + rest) == [first] + SplitComma(rest)
  {
    var all := first + [','] + rest;
    FindAfter(first, ',', rest);
    assert all[..|first|] == first && all[|first| + 1..] == rest;
  }

  lemma {:induction false} SplitJoin(args: seq<string>)
    requires args != [] && forall i | 0 <= i < |args| :: ',' !in args[i]
    ensures SplitComma(Join(args)) == args
  {
    if |args| == 1 {
      assert Find(args[0], ',') == None;
      assert args == [args[0]];
    } else {
      SplitJoin(args[1..]);
      SplitStep(args[0], Join(args[1..]));
      assert args == [args[0]] + args[1..];
    }
  }

  lemma {:induction false} JoinPlain(args: seq<string>)
    requires forall i | 0 <= i < |args| :: PlainArg(args[i])
    ensures '<' !in Join(args) && '>' !in Join(args)
  {
    if args != [] {
      assert PlainArg(args[0]);
      JoinPlain(args[1..]);
    }
  }

  lemma {:induction false} FindAfter(a: string, c: char, b: string)
    requires c !in a
    ensures Find(a + [c] + b, c) == Some(|a|)
  {
    if a == "" {
      assert a + [c] + b == [c] + b;
    } else {
      FindAfter(a[1..], c, b);
      assert (a + [c] + b)[1..] == a[1..] + [c] + b;
    }
  }

  lemma {:induction false} CleanedPlain(args: seq<string>)
    requires forall i | 0 <= i < |args| :: PlainArg(args[i])
    ensures Cleaned(args) == args
  {
    if args != [] {
      assert PlainArg(args[0]);
      CleanedPlain(args[1..]);
    }
  }

  lemma BodyIsRead(text: string, pos: nat, body: string, after: string)
    requires pos <= |text| && text[pos..] == ['<'] + body + ['>'] + after && '>' !in body
    ensures Bracketed(text, pos) == Some(body)
  {
    FindAfter(['<'] + body, '>', after);
    assert text[pos..][1..|body| + 1] == body;
  }

  /** Round trip: plain arguments written after a term are read back, exactly when they are short enough. */
  lemma TypeArgsRoundTrip(text: string, pos: nat, args: seq<string>, after: string)
    requires args != [] && forall i | 0 <= i < |args| :: PlainArg(args[i])
    requires pos <= |text| && text[pos..] == ['<'] + Join(args) + ['>'] + after
    ensures ParseTypeArgs(text, pos) == args <==> |Join(args)| <= 64
  {
    SplitJoin(args);
    JoinPlain(args);
    CleanedPlain(args);
    BodyIsRead(text, pos, Join(args), after);
  }

  /** Splitting at commas loses nothing and leaves no comma. */
  lemma {:induction false} SplitExactly(s: string)
    ensures SplitComma(s) != [] && Join(SplitComma(s)) == s
    ensures forall i | 0 <= i < |SplitComma(s)| :: ',' !in SplitComma(s)[i]
    decreases |s|
  {
    match Find(s, ',')
    case None =>
    case Some(k) =>
      SplitExactly(s[k + 1..]);
      assert s == s[..k] + [','] + s[k + 1..];
  }

  /** Which pieces are not blank. */
  ghost function Filled(parts: seq<string>): (flags: seq<bool>)
    ensures |flags| == |parts|
  {
    seq(|parts|, i requires 0 <= i < |parts| => Trim(parts[i]) != "")
  }

  lemma {:induction false} CleanedAppend(a: seq<string>, b: seq<string>)
    ensures Cleaned(a + b) == Cleaned(a) + Cleaned(b)
  {
    if a == [] {
      assert a + b == b;
    } else {
      assert (a + b)[1..] == a[1..] + b;
      CleanedAppend(a[1..], b);
    }
  }

  lemma {:induction false} CleanedExactly(parts: seq<string>)
    ensures var at := Positions(Filled(parts));
            |Cleaned(parts)| == |at| && forall i | 0 <= i < |at| :: Cleaned(parts)[i] == Trim(parts[at[i]])
  {
    if parts != [] {
      var n := |parts| - 1;
      CleanedExactly(parts[..n]);
      assert parts == parts[..n] + [parts[n]];
      CleanedAppend(parts[..n], [parts[n]]);
      assert Filled(parts)[..n] == Filled(parts[..n]);
    }
  }

  /** What is read behind a term: nothing unless brackets open right there and close again, with at most 64
    * characters and no other opening bracket between; then the pieces between commas, trimmed, without the
    * blank ones. */
  lemma ArgsExactly(text: string, pos: nat, body: string, after: string)
    requires pos <= |text|
    ensures !(['<'] <= text[pos..]) || '>' !in text[pos..] ==> ParseTypeArgs(text, pos) == []
    ensures text[pos..] == ['<'] + body + ['>'] + after && '>' !in body ==>
              var args := ParseTypeArgs(text, pos);
              if |body| > 64 || '<' in body then args == []
              else exists parts :: Pieces(parts, body, args)
  {
    if text[pos..] == ['<'] + body + ['>'] + after && '>' !in body {
      BodyIsRead(text, pos, body, after);
      SplitExactly(body);
      CleanedExactly(SplitComma(body));
      assert |body| <= 64 && '<' !in body ==> Pieces(SplitComma(body), body, ParseTypeArgs(text, pos));
    }
  }

  /** The pieces of a body between its commas, and what is left of them. */
  ghost predicate Pieces(parts: seq<string>, body: string, args: seq<string>) {
    && parts != [] && Join(parts) == body && (forall i | 0 <= i < |parts| :: ',' !in parts[i])
    && var at := Positions(Filled(parts));
       |args| == |at| && forall i | 0 <= i < |at| :: args[i] == Trim(parts[at[i]])
  }

  /** Nested brackets give no arguments at all. */
  lemma NestedArgsIgnored(text: string, pos: nat, inner: nat)
    requires pos < inner < |text| && text[inner] == '<'
    requires forall k | pos <= k < inner :: text[k] != '>'
    ensures ParseTypeArgs(text, pos) == []
  {
    var rest := text[pos..];
    assert rest[inner - pos] == '<';
    if Bracketed(text, pos).Some? {
      var close := Find(rest, '>').value;
      assert rest[close] == text[pos + close];
      assert rest[1..close][inner - pos - 1] == '<';
    }
  }

  // ---------- the lookup ----------

  /** Where a term is found first. */
  function Span(search: Search, term: string, text: string): Option<(nat, nat)> {
    match PatternOf(term)
    case Unusable => None
    case Raw => search(term, text)
    case p =>
      match FirstFrom(p, term, text, 0)
      case None => None
      case Some(s) => Some((s, s + |term|))
  }

  lemma SpanInText(search: Search, term: string, text: string)
    requires SpansOk(search) && Span(search, term, text).Some?
    ensures var (s, e) := Span(search, term, text).value;
            s <= e <= |text| && (PatternOf(term) != Raw ==> text[s..e] == term)
  {
  }

  /** An empty surface, which only a raw term can have, is replaced by the entity's id. */
  function MatchOf(rec: Record, text: string, s: nat, e: nat): TermMatch
    requires s <= e <= |text|
  {
    var (ns, start) := DetectNamespace(text, s);
    TermMatch(rec.entityId, rec.kind, rec.family, if ns.Some? then ns else rec.ns,
              if rec.keepArgs then ParseTypeArgs(text, e) else [],
              if text[start..e] == "" then rec.entityId else text[start..e])
  }

  /** What one row of the table finds. */
  function RowMatch(search: Search, row: (string, Record), text: string): Option<TermMatch>
    requires SpansOk(search)
  {
    if row.1.status != Mapped then None
    else match Span(search, row.0, text)
      case None => None
      case Some((s, e)) => SpanInText(search, row.0, text); Some(MatchOf(row.1, text, s, e))
  }

  ghost function Rows(search: Search, table: Table, text: string): (r: seq<Option<TermMatch>>)
    requires SpansOk(search)
    ensures |r| == |table|
  {
    seq(|table|, k requires 0 <= k < |table| => RowMatch(search, table[k], text))
  }

  /** The values present, in order. */
  function Somes<T>(options: seq<Option<T>>): seq<T> {
    if options == [] then []
    else
      var n := |options| - 1;
      Somes(options[..n]) + match options[n] case None => [] case Some(x) => [x]
  }

  ghost function Found(search: Search, table: Table, text: string): seq<TermMatch>
    requires SpansOk(search)
  {
    Somes(Rows(search, table, text))
  }

  method LookupLangEntity(search: Search, table: Table, text: string) returns (results: seq<TermMatch>)
    requires SpansOk(search)
    ensures results == Found(search, table, text)
  {
    results := [];
    ghost var rows := Rows(search, table, text);
    for k := 0 to |table|
      invariant results == Somes(rows[..k])
    {
      assert rows[..k + 1][..k] == rows[..k];
      var term, rec := table[k].0, table[k].1;
      if rec.status != Mapped {
        continue;
      }
      var m := Span(search, term, text);
      if m.None? {
        continue;
      }
      SpanInText(search, term, text);
      results := results + [MatchOf(rec, text, m.value.0, m.value.1)];
    }
    assert rows[..|table|] == rows;
  }

  lemma {:induction false} SomesExactly<T>(options: seq<Option<T>>, x: T)
    ensures x in Somes(options) <==> Some(x) in options
  {
    if options != [] {
      var n := |options| - 1;
      SomesExactly(options[..n], x);
      assert options == options[..n] + [options[n]];
    }
  }

  /** Which rows of the table find something. */
  ghost function Hitting(search: Search, table: Table, text: string): (flags: seq<bool>)
    requires SpansOk(search)
    ensures |flags| == |table|
  {
    seq(|table|, k requires 0 <= k < |table| => RowMatch(search, table[k], text).Some?)
  }

  /** The values present, by their positions. */
  lemma {:induction false} SomesInOrder<T>(options: seq<Option<T>>)
    ensures var at := Positions(seq(|options|, k requires 0 <= k < |options| => options[k].Some?));
            |Somes(options)| == |at| && forall i | 0 <= i < |at| :: Some(Somes(options)[i]) == options[at[i]]
  {
    if options != [] {
      var n := |options| - 1;
      var flags := seq(|options|, k requires 0 <= k < |options| => options[k].Some?);
      SomesInOrder(options[..n]);
      assert flags[..n] == seq(n, k requires 0 <= k < n => options[..n][k].Some?);
    }
  }

  /** The results are the matches of the rows that find something, in table order. */
  lemma FoundInOrder(search: Search, table: Table, text: string)
    requires SpansOk(search)
    ensures var at := Positions(Hitting(search, table, text));
            |Found(search, table, text)| == |at| && forall i | 0 <= i < |at| ::
              Some(Found(search, table, text)[i]) == RowMatch(search, table[at[i]], text)
  {
    var rows := Rows(search, table, text);
    SomesInOrder(rows);
    assert Hitting(search, table, text) == seq(|rows|, k requires 0 <= k < |rows| => rows[k].Some?);
  }

  lemma TokenExactly(text: string, s: nat, e: nat)
    requires s <= e <= |text|
    ensures var (ns, start) := DetectNamespace(text, s);
            start <= s && if |STD| <= s && text[s - |STD|..s] == STD
                          then ns == Some("std") && text[start..e] == STD + text[s..e] && text[start..e] != ""
                          else ns == None && start == s && (text[start..e] == "" <==> s == e)
  {
    var start := DetectNamespace(text, s).1;
    assert text[start..e] == text[start..s] + text[s..e];
  }

  /** A match takes entity, kind and family from the table, reads type arguments only if the record asks for
    * them, and carries the namespace that stands right before it, or else the recorded one. */
  lemma MatchExactly(rec: Record, text: string, s: nat, e: nat)
    requires s <= e <= |text|
    ensures var m := MatchOf(rec, text, s, e);
            && m.entityId == rec.entityId && m.kind == rec.kind && m.family == rec.family
            && m.typeArgs == (if rec.keepArgs then ParseTypeArgs(text, e) else [])
            && if |STD| <= s && text[s - |STD|..s] == STD then m.ns == Some("std") && m.surface == STD + text[s..e]
               else m.ns == rec.ns && m.surface == if s == e then rec.entityId else text[s..e]
  {
    TokenExactly(text, s, e);
  }

  /** The surface of a hit is the text found, with its namespace prefix if the text has one; for identifiers
    * and phrases the text found is the term itself, and if nothing at all was found the surface is the
    * entity's id. */
  lemma SurfaceIsToken(search: Search, row: (string, Record), text: string)
    requires SpansOk(search) && RowMatch(search, row, text).Some?
    ensures var (s, e) := Span(search, row.0, text).value;
            var m := RowMatch(search, row, text).value;
            && s <= e <= |text| && (PatternOf(row.0) != Raw ==> text[s..e] == row.0)
            && m.surface == if |STD| <= s && text[s - |STD|..s] == STD then STD + text[s..e]
                            else if text[s..e] == "" then row.1.entityId else text[s..e]
  {
    SpanInText(search, row.0, text);
    var (s, e) := Span(search, row.0, text).value;
    MatchExactly(row.1, text, s, e);
  }

  // ---------- where a term is found ----------

  /** What may not touch an identifier, or a phrase. */
  function Clinging(pat: Pattern): char -> bool {
    if pat.Identifier? then WordChar else Alnum
  }

  /** A term is found exactly when the text is something, the term, and something else, and neither neighbour
    * clings to it: letters, digits and underscores to an identifier, letters and digits to a phrase. */
  lemma FoundExactly(pat: Pattern, term: string, text: string)
    requires pat.Identifier? || pat.Phrase?
    ensures FirstFrom(pat, term, text, 0).Some? <==> exists u, v :: Runs.Flanked(Clinging(pat), text, u, term, v)
  {
    if FirstFrom(pat, term, text, 0).Some? {
      Runs.AtIsFlanked(Clinging(pat), text, term, FirstFrom(pat, term, text, 0).value);
    }
    if u, v :| Runs.Flanked(Clinging(pat), text, u, term, v) {
      Runs.FlankedAt(Clinging(pat), text, u, term, v);
      assert MatchAt(pat, term, text, |u|);
    }
  }

  /** The words of a text: runs of letters, digits and underscores. */
  function AllWords(text: string): seq<string> {
    Runs.AllRuns(WordChar, text)
  }

  /** An identifier is found in a text exactly when it is one of the text's words. */
  lemma IdentifierIsWord(w: string, text: string)
    requires IsIdentifier(w)
    ensures FirstFrom(Identifier, w, text, 0).Some? <==> w in AllWords(text)
  {
    var c :| c in w && Alnum(c);
    Runs.RunExactly(WordChar, w, text);
    if FirstFrom(Identifier, w, text, 0).Some? {
      assert Runs.RunAt(WordChar, w, text, FirstFrom(Identifier, w, text, 0).value);
    }
    if i: nat :| Runs.RunAt(WordChar, w, text, i) {
      assert MatchAt(Identifier, w, text, i);
    }
  }

  /** How a term is searched for. An identifier is a word of letters, digits and underscores with a letter or a
    * digit; it is found where it stands as a word. Any other ASCII term with a blank or a hyphen is found where
    * no letter or digit touches it. For what remains the library is asked, and for a single character nobody. */
  lemma SpanExactly(search: Search, term: string, text: string)
    ensures if (forall c <- term :: Alnum(c) || c == '_') && exists c <- term :: Alnum(c) then
              Span(search, term, text).Some? <==> term in Runs.AllRuns(WordChar, text)
            else if (forall c <- term :: c as int < 128) && exists c <- term :: Blank(c) || c == '-' then
              Span(search, term, text).Some? <==> exists u, v :: Runs.Flanked(Alnum, text, u, term, v)
            else Span(search, term, text) == if |term| > 1 then search(term, text) else None
  {
    if IsIdentifier(term) {
      IdentifierIsWord(term, text);
    } else if PatternOf(term).Phrase? {
      FoundExactly(Phrase, term, text);
      assert Clinging(Phrase) == Alnum;
      if u, v :| Runs.Flanked(Clinging(Phrase), text, u, term, v) {
        assert Runs.Flanked(Alnum, text, u, term, v);
      }
    }
  }

  /** A row is named by a text if its term is mapped and, for an identifier, one of the words of the text,
    * for any other term, found by its pattern. */
  predicate Named(search: Search, row: (string, Record), text: string) {
    row.1.status == Mapped && if IsIdentifier(row.0) then row.0 in AllWords(text) else Span(search, row.0, text).Some?
  }

  lemma RowNamed(search: Search, row: (string, Record), text: string)
    requires SpansOk(search)
    ensures RowMatch(search, row, text).Some? <==> Named(search, row, text)
    ensures RowMatch(search, row, text).Some? ==> RowMatch(search, row, text).value.entityId == row.1.entityId
  {
    if IsIdentifier(row.0) {
      IdentifierIsWord(row.0, text);
    }
  }

  /** Every hit comes from a named row, and every named row gives one. */
  lemma HitOfRow(search: Search, table: Table, text: string, row: (string, Record))
    requires SpansOk(search) && row in table && Named(search, row, text)
    ensures exists m :: m in Found(search, table, text) && m.entityId == row.1.entityId
  {
    RowNamed(search, row, text);
    var k :| 0 <= k < |table| && table[k] == row;
    var m := Rows(search, table, text)[k].value;
    SomesExactly(Rows(search, table, text), m);
    assert m in Found(search, table, text) && m.entityId == row.1.entityId;
  }

  lemma RowOfHit(search: Search, table: Table, text: string, m: TermMatch) returns (row: (string, Record))
    requires SpansOk(search) && m in Found(search, table, text)
    ensures row in table && Named(search, row, text) && row.1.entityId == m.entityId
  {
    var rows := Rows(search, table, text);
    SomesExactly(rows, m);
    var k :| 0 <= k < |rows| && rows[k] == Some(m);
    row := table[k];
    RowNamed(search, row, text);
  }

  /** The terms a text names decide its library subject: none if there is no such term, several exactly when
    * two of them stand for different entities. */
  lemma SubjectOfTerms(search: Search, table: Table, text: string)
    requires SpansOk(search)
    ensures Resolve(Found(search, table, text)).NoEntity? <==> forall row <- table :: !Named(search, row, text)
    ensures Resolve(Found(search, table, text)).Several? <==>
            exists r <- table, r' <- table ::
              Named(search, r, text) && Named(search, r', text) && r.1.entityId != r'.1.entityId
  {
    var found := Found(search, table, text);
    if found != [] {
      var row := RowOfHit(search, table, text, found[0]);
    }
    if Resolve(found).Several? {
      var m :| m in found && m.entityId != found[0].entityId;
      var r := RowOfHit(search, table, text, m);
      var r' := RowOfHit(search, table, text, found[0]);
      assert r.1.entityId != r'.1.entityId;
    }
    if row :| row in table && Named(search, row, text) {
      HitOfRow(search, table, text, row);
    }
    if r, r' :| r in table && r' in table && Named(search, r, text) && Named(search, r', text)
                && r.1.entityId != r'.1.entityId {
      HitOfRow(search, table, text, r);
      HitOfRow(search, table, text, r');
    }
  }
}
