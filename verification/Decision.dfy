/** Parsed questions: the record that parse.py produces and the fingerprint built from it. */
module Parsing {
  import opened Common

  /** The question kinds of the rule tables. `CodeModification` and `Execution` occur only in a rule set. */
  datatype Intent =
    | Definition | Comparison | Reason | Troubleshooting | Implementation | Operation
    | StateUpdate | HistoryQuery | CodeModification | Execution | Unknown

  datatype OutputType = Code | Explanation

  datatype ParsedQuery = ParsedQuery(
    rawText: string,
    normalizedText: string,
    subjectText: Option<string>,
    subjectId: Option<string>,
    intent: Intent,
    language: Option<string>,
    operation: Option<string>,
    outputType: Option<OutputType>,
    residualWords: set<string>,
    contextDependent: bool,
    stateful: bool,
    bypassCache: bool,
    fingerprint: Option<string>,
    fingerprintEligible: bool,
    parserVersion: string,
    ontologyVersion: string,
    langTermsVersion: Option<string>,
    subjectKind: Option<string>,
    implementationFamily: Option<string>,
    ns: Option<string>,
    typeArgs: seq<string>,
    matchedSurface: Option<string>,
    multiSubject: bool
  )

  function OutputTypeFor(intent: Intent): Option<OutputType> {
    match intent
    case Implementation | Troubleshooting => Some(Code)
    case Definition | Comparison | Reason => Some(Explanation)
    case _ => None
  }

  /** What the fingerprint hashes. The residual is serialised as a sorted list, so as a set. */
  datatype Payload = Payload(
    parserVersion: string,
    ontologyVersion: string,
    langTermsVersion: Option<string>,
    subjectId: Option<string>,
    intent: Intent,
    language: Option<string>,
    operation: Option<string>,
    outputType: Option<OutputType>,
    residual: set<string>
  )

  function PayloadOf(q: ParsedQuery): Payload {
    Payload(q.parserVersion, q.ontologyVersion, q.langTermsVersion, q.subjectId, q.intent,
            q.language, q.operation, q.outputType, q.residualWords)
  }

  /** One hit of the per-language entity table. */
  datatype TermMatch = TermMatch(
    entityId: string, kind: string, family: Option<string>, ns: Option<string>,
    typeArgs: seq<string>, surface: string)

  /** The text analysers parse.py relies on (regex tables, tokeniser, ontology, hash), as functions.
    * `residualOf` reads the raw text, the subject id, the subject kind and the matched surface only. */
  datatype Lexicon = Lexicon(
    normalize: string -> string,
    intentOf: string -> Intent,
    languageOf: string -> Option<string>,
    isContextDependent: string -> bool,
    isStateful: string -> bool,
    subjectPair: string -> (Option<string>, Option<string>),
    langEntities: (string, string) -> seq<TermMatch>,
    operationOf: (string, Option<string>) -> Option<string>,
    residualOf: (string, Option<string>, Option<string>, Option<string>) -> set<string>,
    sha: Payload -> string,
    parserVersion: string,
    ontologyVersion: string,
    langTermsVersion: string
  )

  /** The digest tells any two payloads apart and is never empty. */
  ghost predicate Collisionless(lex: Lexicon) {
    && (forall p :: lex.sha(p) != "")
    && (forall p, p' :: lex.sha(p) == lex.sha(p') ==> p == p')
  }

  function ResidualWords(lex: Lexicon, q: ParsedQuery): set<string> {
    lex.residualOf(q.rawText, q.subjectId, q.subjectKind, q.matchedSurface)
  }

  predicate FingerprintEligible(lex: Lexicon, q: ParsedQuery) {
    && Truthy(q.subjectId)
    && !q.multiSubject
    && q.subjectKind == None
    && q.typeArgs == []
    && (q.ns == None || q.ns == Some("std"))
    && q.intent != Unknown
    && !q.bypassCache
    && !q.contextDependent
    && !q.stateful
    && ResidualWords(lex, q) == {}
  }

  function BuildFingerprint(lex: Lexicon, q: ParsedQuery): Option<string> {
    if FingerprintEligible(lex, q) then Some(lex.sha(PayloadOf(q))) else None
  }

  function ConceptFamily(conceptId: string): string {
    if conceptId == "array" then "dynamic_array" else conceptId
  }

  datatype Resolution = NoEntity | Several | Single(ent: TermMatch)

  /** What the per-language table says about a span: nothing, one entity (its first hit), or several. */
  function Resolve(matches: seq<TermMatch>): Resolution {
    if matches == [] then NoEntity
    else if forall m <- matches :: m.entityId == matches[0].entityId then Single(matches[0])
    else Several
  }

  /** The dictionary loop of the source: the first hit of every entity id, then its size decides. */
  method ResolveLangEntity(matches: seq<TermMatch>) returns (r: Resolution)
    ensures r == Resolve(matches)
  {
    if |matches| == 0 {
      return NoEntity;
    }
    var uniq: map<string, TermMatch> := map[];
    for i := 0 to |matches|
      invariant uniq.Keys == set k | 0 <= k < i :: matches[k].entityId
      invariant i > 0 ==> matches[0].entityId in uniq && uniq[matches[0].entityId] == matches[0]
    {
      if matches[i].entityId !in uniq {
        uniq := uniq[matches[i].entityId := matches[i]];
      }
    }
    var first := matches[0].entityId;
    if |uniq| > 1 {
      if forall m <- matches :: m.entityId == first {
        SingletonKeys(uniq.Keys, first);
        assert false;
      }
      r := Several;
    } else {
      assert uniq.Keys - {first} == {} by {
        if uniq.Keys - {first} != {} {
          var other :| other in uniq.Keys - {first};
          assert {first, other} <= uniq.Keys;
          CardinalityMonotone({first, other}, uniq.Keys);
        }
      }
      forall m | m in matches ensures m.entityId == first {
        var k :| 0 <= k < |matches| && matches[k] == m;
        assert m.entityId in uniq.Keys;
      }
      r := Single(uniq[first]);
    }
  }

  lemma SingletonKeys(keys: set<string>, k: string)
    requires forall x <- keys :: x == k
    ensures |keys| <= 1
  {
    assert keys <= {k};
    CardinalityMonotone(keys, {k});
  }

  lemma {:induction false} CardinalityMonotone<T>(a: set<T>, b: set<T>)
    requires a <= b
    ensures |a| <= |b|
  {
    assert b == a + (b - a);
  }

  /** Slots of the subject dispatch in parse: a concept of the ontology first, otherwise, when the
    * language is known, the single entity of that language's table. */
  datatype SubjectMeta = SubjectMeta(
    text: Option<string>, id: Option<string>, kind: Option<string>, family: Option<string>,
    ns: Option<string>, typeArgs: seq<string>, surface: Option<string>, multi: bool)

  function SpanFor(clause: Option<string>, normalized: string): string {
    if clause.Some? && Trim(clause.value) != "" then clause.value else Trim(normalized)
  }

  function SubjectOf(lex: Lexicon, normalized: string, language: Option<string>): SubjectMeta {
    var (clause, conceptId) := lex.subjectPair(normalized);
    var family := if Truthy(conceptId) then Some(ConceptFamily(conceptId.value)) else None;
    var concept := SubjectMeta(clause, conceptId, None, family, None, [], clause, false);
    if conceptId != None || !Truthy(language) then concept
    else match Resolve(lex.langEntities(language.value, SpanFor(clause, normalized)))
      case NoEntity => concept
      case Several => SubjectMeta(clause, None, None, None, None, [], None, true)
      case Single(e) => SubjectMeta(Some(e.surface), Some(e.entityId), Some(e.kind), e.family, e.ns,
                                    e.typeArgs, Some(e.surface), false)
  }

  function Parse(lex: Lexicon, text: string): ParsedQuery {
    var normalized := lex.normalize(text);
    var intent := lex.intentOf(normalized);
    var language := lex.languageOf(normalized);
    var context := lex.isContextDependent(text);
    var stateful := lex.isStateful(text);
    var s := SubjectOf(lex, normalized, language);
    var base := ParsedQuery(
      text, normalized, s.text, s.id, intent, language, lex.operationOf(normalized, s.id),
      OutputTypeFor(intent), {}, context, stateful, context || stateful, None, false,
      lex.parserVersion, lex.ontologyVersion, Some(lex.langTermsVersion),
      s.kind, s.family, s.ns, s.typeArgs, s.surface, s.multi);
    var full := base.(residualWords := ResidualWords(lex, base),
                      fingerprintEligible := FingerprintEligible(lex, base));
    full.(fingerprint := BuildFingerprint(lex, full))
  }

  /** The eligibility flag was computed before the residual and the digest were filled in; it still
    * describes the finished record, and a fingerprint is present exactly when it holds. An eligible
    * question names an ontology concept, never a library entity or several subjects. */
  lemma EligibilityIsStable(lex: Lexicon, text: string)
    ensures var p := Parse(lex, text);
            && p.fingerprintEligible == FingerprintEligible(lex, p) == p.fingerprint.Some?
            && p.fingerprint == BuildFingerprint(lex, p)
            && (p.fingerprintEligible ==>
                  && p.subjectId == lex.subjectPair(lex.normalize(text)).1
                  && p.implementationFamily == Some(ConceptFamily(p.subjectId.value))
                  && p.residualWords == {}
                  && !p.bypassCache)
            && (p.multiSubject ==> p.subjectId == None && p.fingerprint == None)
  {
    var normalized := lex.normalize(text);
    var language := lex.languageOf(normalized);
    var p := Parse(lex, text);
    var s := SubjectOf(lex, normalized, language);
    assert p.subjectKind == s.kind && p.subjectId == s.id;
  }

  /** Two eligible questions have the same fingerprint exactly when subject, intent, language and
    * operation agree; wording, aliases and output type add nothing. */
  lemma FingerprintDeterminesSlots(lex: Lexicon, t: string, u: string)
    requires Collisionless(lex)
    requires Parse(lex, t).fingerprintEligible && Parse(lex, u).fingerprintEligible
    ensures var p, q := Parse(lex, t), Parse(lex, u);
            p.fingerprint == q.fingerprint <==>
            (p.subjectId == q.subjectId && p.intent == q.intent && p.language == q.language
              && p.operation == q.operation)
  {
    var p, q := Parse(lex, t), Parse(lex, u);
    EligibilityIsStable(lex, t);
    EligibilityIsStable(lex, u);
    assert p.outputType == OutputTypeFor(p.intent) && q.outputType == OutputTypeFor(q.intent);
    assert p.fingerprint == Some(lex.sha(PayloadOf(p))) && q.fingerprint == Some(lex.sha(PayloadOf(q)));
  }
}

/** The rule decision of decision.py: may two parsed questions share one cached answer? */
module Decision {
  import opened Common
  import opened Parsing

  datatype Verdict = Verdict(shared: bool, reason: Why, soft: bool, source: Source)
  datatype Source = Hard | Family
  datatype Why =
    | Fine | LanguageConflict | OperationConflict | IntentConflict | ConstraintConflict
    | SubjectConflict | UnknownSubject | UnknownIntent | SemanticSoftMatch

  /** A class of hard constraints and the phrases that declare it. */
  datatype KeywordClass = KeywordClass(name: string, phrases: seq<string>)

  /** The two environment switches and the table of critical phrases. */
  datatype Rules = Rules(softFallback: bool, familyCompat: bool, critical: seq<KeywordClass>)

  const LANGUAGE_SENSITIVE := {Implementation, Troubleshooting, CodeModification, Execution}

  function CriticalText(q: ParsedQuery): string {
    if q.normalizedText != "" then q.normalizedText else q.rawText
  }

  predicate Declares(text: string, c: KeywordClass) {
    exists p <- c.phrases :: Contains(text, p)
  }

  /** The classes with a phrase in the question. */
  function CriticalConstraints(table: seq<KeywordClass>, q: ParsedQuery): set<string> {
    if CriticalText(q) == "" then {}
    else set c | c in table && Declares(CriticalText(q), c) :: c.name
  }

  /** The two nested loops of the source, the inner one left at the first phrase found. */
  method CollectConstraints(table: seq<KeywordClass>, q: ParsedQuery) returns (cats: set<string>)
    ensures cats == CriticalConstraints(table, q)
  {
    cats := {};
    var n := CriticalText(q);
    if n == "" {
      return;
    }
    for i := 0 to |table|
      invariant cats == set k | 0 <= k < i && Declares(n, table[k]) :: table[k].name
    {
      var found := false;
      var j := 0;
      while j < |table[i].phrases| && !found
        invariant 0 <= j <= |table[i].phrases|
        invariant found ==> Declares(n, table[i])
        invariant !found ==> forall k | 0 <= k < j :: !Contains(n, table[i].phrases[k])
        decreases |table[i].phrases| - j, !found
      {
        if Contains(n, table[i].phrases[j]) {
          found := true;
        } else {
          j := j + 1;
        }
      }
      if found {
        cats := cats + {table[i].name};
      }
    }
  }

  predicate FamilyCompat(q: ParsedQuery, c: ParsedQuery) {
    && !q.multiSubject && !c.multiSubject
    && Truthy(q.implementationFamily) && Truthy(c.implementationFamily)
    && q.implementationFamily == c.implementationFamily
    && q.typeArgs == [] && c.typeArgs == []
    && q.subjectId != c.subjectId
    && q.intent in {Implementation, Definition}
    && c.intent in {Implementation, Definition}
    && q.language == c.language
  }

  function SubjectClash(q: ParsedQuery, c: ParsedQuery): Option<Why> {
    if Truthy(q.subjectId) && Truthy(c.subjectId) then
      if q.subjectId != c.subjectId then Some(SubjectConflict) else None
    else if !Truthy(q.subjectText) || !Truthy(c.subjectText) then Some(UnknownSubject)
    else if q.subjectText != c.subjectText then Some(UnknownSubject)
    else None
  }

  predicate Sensitive(q: ParsedQuery) {
    q.intent in LANGUAGE_SENSITIVE || q.outputType == Some(Code)
  }

  predicate LanguageSensitive(q: ParsedQuery, c: ParsedQuery) {
    q.intent in LANGUAGE_SENSITIVE || c.intent in LANGUAGE_SENSITIVE
    || q.outputType == Some(Code) || c.outputType == Some(Code)
  }

  predicate SoftPath(rules: Rules, q: ParsedQuery, c: ParsedQuery) {
    && Truthy(q.subjectId) == Truthy(c.subjectId)
    && q.intent != Unknown && c.intent != Unknown
    && q.intent == c.intent
    && (LanguageSensitive(q, c) ==> q.language == c.language)
    && q.operation == c.operation
    && CriticalConstraints(rules.critical, q) == CriticalConstraints(rules.critical, c)
  }

  function Decide(rules: Rules, q: ParsedQuery, c: ParsedQuery): Verdict {
    if rules.familyCompat && FamilyCompat(q, c) then Verdict(true, Fine, false, Family)
    else match SubjectClash(q, c)
      case Some(why) =>
        if why == UnknownSubject && rules.softFallback && SoftPath(rules, q, c)
        then Verdict(true, SemanticSoftMatch, true, Hard)
        else Verdict(false, why, false, Hard)
      case None =>
        if LanguageSensitive(q, c) && q.language != c.language then Verdict(false, LanguageConflict, false, Hard)
        else if q.operation != c.operation then Verdict(false, OperationConflict, false, Hard)
        else if q.operation == None && (q.intent == Unknown || c.intent == Unknown) then
          Verdict(false, UnknownIntent, false, Hard)
        else if q.operation == None && q.intent != c.intent then Verdict(false, IntentConflict, false, Hard)
        else if q.residualWords != c.residualWords then Verdict(false, ConstraintConflict, false, Hard)
        else Verdict(true, Fine, false, Hard)
  }

  predicate Shares(rules: Rules, q: ParsedQuery, c: ParsedQuery) {
    Decide(rules, q, c).shared
  }

  /** The fingerprint path never contradicts the rules: two eligible questions with the same digest
    * always get the verdict that CacheQuery accepts, under any setting of the switches. */
  lemma FastPathSound(lex: Lexicon, rules: Rules, t: string, u: string)
    requires Collisionless(lex)
    requires Parse(lex, t).fingerprint.Some?
    requires Parse(lex, t).fingerprint == Parse(lex, u).fingerprint
    ensures Decide(rules, Parse(lex, t), Parse(lex, u)) == Verdict(true, Fine, false, Hard)
  {
    var p, q := Parse(lex, t), Parse(lex, u);
    EligibilityIsStable(lex, t);
    EligibilityIsStable(lex, u);
    assert lex.sha(PayloadOf(p)) == lex.sha(PayloadOf(q));
    assert PayloadOf(p) == PayloadOf(q);
  }

  predicate SameSlots(p: ParsedQuery, q: ParsedQuery) {
    p.subjectId == q.subjectId && p.intent == q.intent && p.language == q.language && p.operation == q.operation
  }

  /** What users of a parser may rely on: a fingerprint comes with eligibility, names the four slots, and
    * is sound for the rules. */
  ghost predicate SoundParser(parse: string -> ParsedQuery) {
    && (forall t :: EligibleShape(parse(t)))
    && (forall t, u | parse(t).fingerprintEligible && parse(u).fingerprintEligible ::
          parse(t).fingerprint == parse(u).fingerprint <==> SameSlots(parse(t), parse(u)))
    && (forall t, u, rules | parse(t).fingerprint.Some? && parse(t).fingerprint == parse(u).fingerprint ::
          Decide(rules, parse(t), parse(u)) == Verdict(true, Fine, false, Hard))
  }

  predicate EligibleShape(p: ParsedQuery) {
    && p.fingerprintEligible == p.fingerprint.Some?
    && p.fingerprint != Some("")
    && (p.fingerprintEligible ==> Truthy(p.subjectId) && !p.bypassCache)
  }

  lemma ParserIsSound(lex: Lexicon)
    requires Collisionless(lex)
    ensures SoundParser(t => Parse(lex, t))
  {
    forall t ensures EligibleShape(Parse(lex, t)) {
      EligibilityIsStable(lex, t);
    }
    forall t, u | Parse(lex, t).fingerprintEligible && Parse(lex, u).fingerprintEligible
      ensures Parse(lex, t).fingerprint == Parse(lex, u).fingerprint <==> SameSlots(Parse(lex, t), Parse(lex, u))
    {
      FingerprintDeterminesSlots(lex, t, u);
    }
    forall t, u, rules | Parse(lex, t).fingerprint.Some? && Parse(lex, t).fingerprint == Parse(lex, u).fingerprint
      ensures Decide(rules, Parse(lex, t), Parse(lex, u)) == Verdict(true, Fine, false, Hard)
    {
      FastPathSound(lex, rules, t, u);
    }
  }

  /** How much the fingerprint misses: eligible questions share an answer without having the same
    * fingerprint exactly when the family switch is on and pairs them, or subject and operation agree and the
    * rest differs harmlessly: another language where none of the two is language sensitive, or another
    * intent under a common operation. */
  lemma FingerprintGap(lex: Lexicon, rules: Rules, t: string, u: string)
    requires Collisionless(lex)
    requires Parse(lex, t).fingerprintEligible && Parse(lex, u).fingerprintEligible
    ensures var p, q := Parse(lex, t), Parse(lex, u);
            Shares(rules, p, q) && p.fingerprint != q.fingerprint <==>
            || (rules.familyCompat && FamilyCompat(p, q))
            || (&& p.subjectId == q.subjectId && p.operation == q.operation
                && (p.language != q.language || p.intent != q.intent)
                && (p.language != q.language ==> !Sensitive(p) && !Sensitive(q))
                && (p.intent != q.intent ==> p.operation.Some?))
  {
    EligibilityIsStable(lex, t);
    EligibilityIsStable(lex, u);
    FingerprintDeterminesSlots(lex, t, u);
  }

  /** The whole verdict, not only its first component, does not depend on the order of the questions. */
  lemma DecideSymmetric(rules: Rules, q: ParsedQuery, c: ParsedQuery)
    ensures Decide(rules, q, c) == Decide(rules, c, q)
  {
    assert FamilyCompat(q, c) == FamilyCompat(c, q);
    assert SubjectClash(q, c) == SubjectClash(c, q);
    assert SoftPath(rules, q, c) == SoftPath(rules, c, q);
  }

  /** A question shares with itself exactly when it names a subject and an intent or an operation, or, with
    * the soft switch on, when its intent is known. */
  lemma ReflexiveExactly(rules: Rules, q: ParsedQuery)
    ensures Shares(rules, q, q) <==>
            || ((Truthy(q.subjectId) || Truthy(q.subjectText)) && (q.operation.Some? || q.intent != Unknown))
            || (rules.softFallback && !Truthy(q.subjectId) && !Truthy(q.subjectText) && q.intent != Unknown)
  {
  }

  /** The rules at their default: both switches off. */
  predicate Strict(rules: Rules) {
    !rules.softFallback && !rules.familyCompat
  }

  /** Where two shared pairs meet in `b`, the ends share too except in two situations: their subjects clash,
    * which takes a question without a subject id, or `b` is not language sensitive, exactly one of the ends
    * is, and the ends differ in language. */
  lemma TransitiveExactly(rules: Rules, a: ParsedQuery, b: ParsedQuery, c: ParsedQuery)
    requires Strict(rules) && Shares(rules, a, b) && Shares(rules, b, c)
    ensures Shares(rules, a, c) <==>
            SubjectClash(a, c) == None && !(!Sensitive(b) && Sensitive(a) != Sensitive(c) && a.language != c.language)
    ensures SubjectClash(a, c) != None ==> !(Truthy(a.subjectId) && Truthy(b.subjectId) && Truthy(c.subjectId))
  {
  }

  /** The class of questions on which sharing is an equivalence: a subject id, a known intent, no
    * operation, and the output type that parse derives from the intent. */
  predicate Plain(q: ParsedQuery) {
    Truthy(q.subjectId) && q.intent != Unknown && q.operation == None && q.outputType == OutputTypeFor(q.intent)
  }

  lemma SharingIsEquivalence(rules: Rules, a: ParsedQuery, b: ParsedQuery, c: ParsedQuery)
    requires Strict(rules) && Plain(a) && Plain(b) && Plain(c)
    ensures Shares(rules, a, a)
    ensures Shares(rules, a, b) <==> Shares(rules, b, a)
    ensures Shares(rules, a, b) && Shares(rules, b, c) ==> Shares(rules, a, c)
  {
    DecideSymmetric(rules, a, b);
  }

  /** Analysers that tell three questions "a", "b" and "c" apart: one library concept with one operation;
    * "c" asks for an implementation, "a" names another language. */
  function OperationLexicon(lex: Lexicon): Lexicon {
    lex.(normalize := t => t,
         intentOf := t => if t == "c" then Implementation else Definition,
         languageOf := t => if t == "a" then Some("python") else Some("golang"),
         subjectPair := t => (Some("list"), Some("list")),
         operationOf := (t, id) => Some("insert"),
         residualOf := (t, id, kind, surface) => {})
  }

  /** With a common operation the relation is not transitive: three questions as parse delivers them. */
  lemma OperationBreaksTransitivity(rules: Rules, lex: Lexicon)
    requires Strict(rules)
    ensures var w := OperationLexicon(lex);
            var a, b, c := Parse(w, "a"), Parse(w, "b"), Parse(w, "c");
            Shares(rules, a, b) && Shares(rules, b, c) && !Shares(rules, a, c)
  {
    assert "a" != "b" && "b" != "c" && "a" != "c" by {
      assert "a"[0] != "b"[0] && "b"[0] != "c"[0] && "a"[0] != "c"[0];
    }
    assert Some("golang") != Some("python") by {
      assert "golang"[0] != "python"[0];
    }
  }

  /** Analysers for which "a" and "c" name two concepts and "b" none, in the same words. */
  function TextLexicon(lex: Lexicon): Lexicon {
    lex.(normalize := t => t,
         intentOf := t => Definition,
         languageOf := t => None,
         subjectPair := t => (Some("tree"), if t == "b" then None else Some(t)),
         operationOf := (t, id) => None,
         residualOf := (t, id, kind, surface) => {})
  }

  /** Without an operation, a question that names its subject only in words can join two concepts. */
  lemma SubjectTextBreaksTransitivity(rules: Rules, lex: Lexicon)
    requires Strict(rules)
    ensures var w := TextLexicon(lex);
            var a, b, c := Parse(w, "a"), Parse(w, "b"), Parse(w, "c");
            && a.operation == None && a.intent == b.intent == c.intent == Definition
            && Shares(rules, a, b) && Shares(rules, b, c) && !Shares(rules, a, c)
  {
    assert "a" != "b" && "b" != "c" && "a" != "c" by {
      assert "a"[0] != "b"[0] && "b"[0] != "c"[0] && "a"[0] != "c"[0];
    }
  }

  /** Raising a switch only adds shared pairs, and says which: the family switch adds pairs of distinct
    * subjects of one family, the soft switch pairs refused for want of a subject. */
  lemma SwitchesOnlyAdd(low: Rules, high: Rules, q: ParsedQuery, c: ParsedQuery)
    requires low.critical == high.critical
    requires low.softFallback ==> high.softFallback
    requires low.familyCompat ==> high.familyCompat
    ensures Shares(low, q, c) ==> Shares(high, q, c)
    ensures Shares(high, q, c) && !Shares(low, q, c) ==>
            || (high.familyCompat && !low.familyCompat && FamilyCompat(q, c))
            || (high.softFallback && !low.softFallback && SubjectClash(q, c) == Some(UnknownSubject)
              && SoftPath(high, q, c))
  {
  }

  /** A soft verdict needs the soft switch, and never crosses a declared hard constraint. */
  lemma SoftNeedsSwitch(rules: Rules, q: ParsedQuery, c: ParsedQuery)
    ensures Decide(rules, q, c).soft <==> Decide(rules, q, c).reason == SemanticSoftMatch
    ensures Decide(rules, q, c).soft ==>
            && rules.softFallback && Decide(rules, q, c).shared
            && CriticalConstraints(rules.critical, q) == CriticalConstraints(rules.critical, c)
            && !(Truthy(q.subjectId) && Truthy(c.subjectId))
  {
  }
}
