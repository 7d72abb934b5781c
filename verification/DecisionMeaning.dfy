/** The verdict of the rules in terms of the slots of the two questions alone, and the slots in terms of what
  * the analysers say about a text. */
module DecisionMeaning {
  import opened Common
  import opened Parsing
  import opened Decision

  // ---------- the tests on two questions ----------

  /** Present and not empty. */
  predicate Has(slot: Option<string>) {
    slot.Some? && slot.value != ""
  }

  /** Both name a concept. */
  predicate BothNamed(q: ParsedQuery, c: ParsedQuery) {
    Has(q.subjectId) && Has(c.subjectId)
  }

  /** The same concept, or the same words where a concept is missing. */
  predicate SameSubject(q: ParsedQuery, c: ParsedQuery) {
    if BothNamed(q, c) then q.subjectId == c.subjectId else Has(q.subjectText) && q.subjectText == c.subjectText
  }

  /** The same language, unless none of the two asks for code or is of a kind that depends on the language. */
  predicate LanguagesAgree(q: ParsedQuery, c: ParsedQuery) {
    || q.language == c.language
    || (&& !(q.intent.Implementation? || q.intent.Troubleshooting? || q.intent.CodeModification? || q.intent.Execution?)
        && !(c.intent.Implementation? || c.intent.Troubleshooting? || c.intent.CodeModification? || c.intent.Execution?)
        && q.outputType != Some(Code) && c.outputType != Some(Code))
  }

  /** The same known question kind. */
  predicate SameIntent(q: ParsedQuery, c: ParsedQuery) {
    q.intent == c.intent && !q.intent.Unknown?
  }

  /** Two different implementations of one family that the family switch pairs. */
  predicate Relatives(q: ParsedQuery, c: ParsedQuery) {
    && q.subjectId != c.subjectId
    && Has(q.implementationFamily) && q.implementationFamily == c.implementationFamily
    && q.language == c.language
    && (q.intent.Implementation? || q.intent.Definition?) && (c.intent.Implementation? || c.intent.Definition?)
    && |q.typeArgs| == |c.typeArgs| == 0 && !q.multiSubject && !c.multiSubject
  }

  /** The question's text, or its raw text if normalisation left nothing, contains a phrase of a class with
    * this name. */
  ghost predicate Mentions(rules: Rules, q: ParsedQuery, name: string) {
    var text := if q.normalizedText == "" then q.rawText else q.normalizedText;
    text != "" && exists k <- rules.critical, p <- k.phrases :: k.name == name && exists u, v :: text == u + p + v
  }

  lemma MentionsExactly(rules: Rules, q: ParsedQuery, name: string)
    ensures Mentions(rules, q, name) <==> name in CriticalConstraints(rules.critical, q)
  {
    var text := CriticalText(q);
    if Mentions(rules, q, name) {
      var k, p :| k in rules.critical && p in k.phrases && k.name == name && exists u, v :: text == u + p + v;
      ContainsExactly(text, p);
      assert Declares(text, k);
    }
    if name in CriticalConstraints(rules.critical, q) {
      var k :| k in rules.critical && Declares(text, k) && k.name == name;
      var p :| p in k.phrases && Contains(text, p);
      ContainsExactly(text, p);
    }
  }

  /** The two declare the same classes of hard constraints. */
  ghost predicate SameConstraints(rules: Rules, q: ParsedQuery, c: ParsedQuery) {
    forall name :: Mentions(rules, q, name) <==> Mentions(rules, c, name)
  }

  lemma SameConstraintsExactly(rules: Rules, q: ParsedQuery, c: ParsedQuery)
    ensures SameConstraints(rules, q, c)
       <==> CriticalConstraints(rules.critical, q) == CriticalConstraints(rules.critical, c)
  {
    forall name ensures (Mentions(rules, q, name) <==> name in CriticalConstraints(rules.critical, q))
                     && (Mentions(rules, c, name) <==> name in CriticalConstraints(rules.critical, c)) {
      MentionsExactly(rules, q, name);
      MentionsExactly(rules, c, name);
    }
  }

  // ---------- the verdict ----------

  /** By family: exactly the relatives, under the family switch, whatever else holds. */
  lemma FamilyExactly(rules: Rules, q: ParsedQuery, c: ParsedQuery)
    ensures Decide(rules, q, c).source == Family <==> rules.familyCompat && Relatives(q, c)
    ensures Decide(rules, q, c).source == Family ==> Decide(rules, q, c) == Verdict(true, Fine, false, Family)
  {
  }

  /** A hard share: the same subject, languages that agree, the same operation, the same known intent unless
    * they have an operation in common, and the same residual words. */
  lemma HardExactly(rules: Rules, q: ParsedQuery, c: ParsedQuery)
    ensures Decide(rules, q, c) == Verdict(true, Fine, false, Hard) <==>
            && !(rules.familyCompat && Relatives(q, c))
            && SameSubject(q, c) && LanguagesAgree(q, c) && q.operation == c.operation
            && (q.operation.Some? || SameIntent(q, c)) && q.residualWords == c.residualWords
  {
  }

  lemma SoftBySets(rules: Rules, q: ParsedQuery, c: ParsedQuery)
    ensures Decide(rules, q, c) == Verdict(true, SemanticSoftMatch, true, Hard) <==>
            && rules.softFallback && !(rules.familyCompat && Relatives(q, c))
            && !Has(q.subjectId) && !Has(c.subjectId) && !SameSubject(q, c)
            && SameIntent(q, c) && LanguagesAgree(q, c) && q.operation == c.operation
            && CriticalConstraints(rules.critical, q) == CriticalConstraints(rules.critical, c)
  {
  }

  /** A soft share: only under its switch, between questions that name no concept and whose words differ or
    * are missing, with the same known intent, operation and hard constraints, and languages that agree. */
  lemma SoftExactly(rules: Rules, q: ParsedQuery, c: ParsedQuery)
    ensures Decide(rules, q, c) == Verdict(true, SemanticSoftMatch, true, Hard) <==>
            && rules.softFallback && !(rules.familyCompat && Relatives(q, c))
            && !Has(q.subjectId) && !Has(c.subjectId) && !SameSubject(q, c)
            && SameIntent(q, c) && LanguagesAgree(q, c) && q.operation == c.operation && SameConstraints(rules, q, c)
  {
    SameConstraintsExactly(rules, q, c);
    SoftBySets(rules, q, c);
  }

  /** There is no other way to share. */
  lemma SharesExactly(rules: Rules, q: ParsedQuery, c: ParsedQuery)
    ensures Shares(rules, q, c) <==>
            || Decide(rules, q, c) == Verdict(true, Fine, false, Family)
            || Decide(rules, q, c) == Verdict(true, Fine, false, Hard)
            || Decide(rules, q, c) == Verdict(true, SemanticSoftMatch, true, Hard)
  {
  }

  /** A refusal names the first test that fails: subject, language, operation, intent, residual words. */
  lemma RefusalExactly(rules: Rules, q: ParsedQuery, c: ParsedQuery)
    requires !Shares(rules, q, c)
    ensures var v := Decide(rules, q, c);
            && !v.soft && v.source == Hard
            && (v.reason == SubjectConflict <==> BothNamed(q, c) && q.subjectId != c.subjectId)
            && (v.reason == UnknownSubject <==> !BothNamed(q, c) && !SameSubject(q, c))
            && (v.reason == LanguageConflict <==> SameSubject(q, c) && !LanguagesAgree(q, c))
            && (v.reason == OperationConflict <==>
                  SameSubject(q, c) && LanguagesAgree(q, c) && q.operation != c.operation)
            && (v.reason == UnknownIntent <==>
                  SameSubject(q, c) && LanguagesAgree(q, c) && q.operation == c.operation == None
                  && (q.intent.Unknown? || c.intent.Unknown?))
            && (v.reason == IntentConflict <==>
                  SameSubject(q, c) && LanguagesAgree(q, c) && q.operation == c.operation == None
                  && !q.intent.Unknown? && !c.intent.Unknown? && q.intent != c.intent)
            && (v.reason == ConstraintConflict <==>
                  SameSubject(q, c) && LanguagesAgree(q, c) && q.operation == c.operation
                  && (q.operation.Some? || SameIntent(q, c)) && q.residualWords != c.residualWords)
  {
  }

  // ---------- the slots of a parsed question ----------

  /** The hits of the language table for the words of the question: its subject clause, or all of it where the
    * clause is missing or blank. */
  function TableHits(lex: Lexicon, text: string): seq<TermMatch> {
    var words := lex.normalize(text);
    var clause := lex.subjectPair(words).0;
    match lex.languageOf(words)
    case None => []
    case Some(language) =>
      if language == "" then []
      else lex.langEntities(language, if clause.Some? && Trim(clause.value) != "" then clause.value else Trim(words))
  }

  /** No concept of the ontology was found, but the language table knows something. */
  predicate AsksTable(lex: Lexicon, text: string) {
    lex.subjectPair(lex.normalize(text)).1.None? && TableHits(lex, text) != []
  }

  ghost predicate OneEntity(hits: seq<TermMatch>) {
    forall i, j | 0 <= i < |hits| && 0 <= j < |hits| :: hits[i].entityId == hits[j].entityId
  }

  /** The subject is the concept of the ontology; without one it is the only entity that the language table
    * finds, as its first hit describes it; several entities make the subject ambiguous. */
  lemma SubjectSlots(lex: Lexicon, text: string)
    ensures var p, hits := Parse(lex, text), TableHits(lex, text);
            var (clause, conceptId) := lex.subjectPair(lex.normalize(text));
            if AsksTable(lex, text) && OneEntity(hits) then
              && p.subjectId == Some(hits[0].entityId) && p.subjectText == p.matchedSurface == Some(hits[0].surface)
              && p.subjectKind == Some(hits[0].kind) && p.implementationFamily == hits[0].family
              && p.ns == hits[0].ns && p.typeArgs == hits[0].typeArgs && !p.multiSubject
            else
              && p.subjectId == conceptId && p.subjectText == clause
              && p.subjectKind == None && p.ns == None && p.typeArgs == []
              && (p.multiSubject <==> AsksTable(lex, text))
              && p.matchedSurface == (if AsksTable(lex, text) then None else clause)
              && p.implementationFamily == (if Has(conceptId) then Some(ConceptFamily(conceptId.value)) else None)
  {
    var words := lex.normalize(text);
    var hits := TableHits(lex, text);
    if AsksTable(lex, text) {
      assert Truthy(lex.languageOf(words));
      assert OneEntity(hits) <==> forall m <- hits :: m.entityId == hits[0].entityId;
    }
  }

  /** The other slots. */
  lemma OtherSlots(lex: Lexicon, text: string)
    ensures var p, words := Parse(lex, text), lex.normalize(text);
            && p.rawText == text && p.normalizedText == words
            && p.intent == lex.intentOf(words) && p.language == lex.languageOf(words)
            && p.operation == lex.operationOf(words, p.subjectId)
            && (p.outputType == Some(Code) <==> p.intent.Implementation? || p.intent.Troubleshooting?)
            && (p.outputType == Some(Explanation) <==>
                  p.intent.Definition? || p.intent.Comparison? || p.intent.Reason?)
            && (p.bypassCache <==> lex.isContextDependent(text) || lex.isStateful(text))
            && p.contextDependent == lex.isContextDependent(text) && p.stateful == lex.isStateful(text)
            && p.residualWords == lex.residualOf(text, p.subjectId, p.subjectKind, p.matchedSurface)
  {
  }

  /** A fingerprint is given exactly to questions that name a concept of the ontology and a known intent, depend
    * on nothing said before, change nothing, and leave no word unexplained. */
  lemma EligibleExactly(lex: Lexicon, text: string)
    ensures var p, words := Parse(lex, text), lex.normalize(text);
            var (clause, conceptId) := lex.subjectPair(words);
            p.fingerprintEligible <==>
            && Has(conceptId) && !lex.intentOf(words).Unknown?
            && !lex.isContextDependent(text) && !lex.isStateful(text)
            && |lex.residualOf(text, conceptId, None, clause)| == 0
  {
    EligibilityIsStable(lex, text);
    SubjectSlots(lex, text);
    OtherSlots(lex, text);
  }

  /** Two concepts belong to one family only if they are the same, or the ontology's array and what the term
    * tables call a dynamic array. */
  lemma FamiliesExactly(a: string, b: string)
    ensures ConceptFamily(a) == ConceptFamily(b) <==> a == b || {a, b} == {"array", "dynamic_array"}
  {
  }
}
