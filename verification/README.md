# A verified model of the chat service: answer cache, streaming path and stream protocol

The project models, in Dafny, the parts of the system where an answer can be shared, lost, repeated or mixed up:

- **Questions and decisions** (`Decision.dfy`, modules `Parsing` and `Decision`; `DecisionMeaning.dfy`): the parsed question, its fingerprint, and the rules that say whether two questions may share one cached answer.
- **Ontology** (`Ontology.dfy`, `OntologyMeaning.dfy`, `Runs.dfy`, `Folding.dfy`, `FoldingExamples.dfy`, `LangTerms.dfy`): the start-up validator that keeps alias keys apart, the one-pass longest-hit lookup that relies on it, the folding of ASCII texts, inputs on which the lookup fails, and the term tables of single programming languages.
- **Semantic cache** (`SemCache.dfy`, `CacheMeaning.dfy`, `AnswerCache.dfy`, `CacheRuns.dfy`, `CacheConcurrent.dfy`, `CacheFresh.dfy`, `VectorSelect.dfy`, `VectorCodec.dfy`, `RateGate.dfy`): `CacheWrite`, `CacheQuery` and the background backfill as methods of an object, as functions on the store, as whole runs, and as threads interleaved one store command at a time.
- **Prompt and context** (`Context.dfy`, `Prompt.dfy`): saved messages that may expire, the walk to their ancestors, the greedy token budget, the request.
- **Streaming** (`ChatStream.dfy`, `BackendFrames.dfy`, `FrameMeaning.dfy`, `Ndjson.dfy`, `Throttle.dfy`): upstream passes with one retry, chunked replay, the accumulated frames of the web back end, the incremental reader and the render throttle of the front end.
- **zrpc** (`ZrpcWriter.dfy`, `ZrpcTracking.dfy`, `ZrpcJobs.dfy`, `ZrpcClient.dfy`): the stream writer, the table of running streams, the job queue and the client's event queue, each under every interleaving of its critical sections.
- **Replay** (`Replay.dfy`): the whole path of an answer put together.

Remote calls, the embedding model, the text analysers, the tokenizer, JSON and the clock are parameters: functions of their arguments where the source calls them on a value, flags or replies where they can fail. SHA-256 is a function that tells any two payloads apart. White space that is trimmed is blank, tab, carriage return and newline. Where a component is an object that changes its fields, the model has a class whose methods equate the new state with a specification function of the old one; the theorems are about those functions and about runs of them. Each specification function is in turn pinned by a theorem about its inputs alone (the modules whose names end in `Meaning`, and the theorems whose names end in `Exactly`), so that a wrong function that its method follows is refuted.

`dafny verify dfyconfig.toml` checks everything.

## Where the code differs from what is written about it

- `semcache.go:398-401` promises at most four backfills per second. The limit is per window. Four hold for a second, whatever calls come, exactly when at its beginning no window is open, the open one has run out by then, or it has nothing left to grant (`RateGate.FourExactly`); otherwise the worst case is four more than the open window has left, at most seven (`RateGate.SevenPerSecond`, `RateGate.SevenIsAttained`).
- A question that starts with the fingerprint prefix, or (while dual writing) whose record under the old namespace reads as one of the current namespace, breaks the indexes; this is exactly the condition `SemCacheModel.Tidy` (`SemCacheModel.WriteKeepsExactly`).
- Sharing is an equivalence on questions with a subject id, a known intent and no operation (`Decision.SharingIsEquivalence`). Elsewhere it fails to be transitive in exactly two ways (`Decision.TransitiveExactly`): a question that names its subject only in words joins two concepts (`Decision.SubjectTextBreaksTransitivity`), or a common operation joins questions of different language (`Decision.OperationBreaksTransitivity`).
- `validator.py:1-2` promises that generated keys do not collide across concepts. They do not at start-up, but a key with a blank behind its stripped namespace is folded before it is looked up, and may then belong to another concept or to none (`SpacedExample.LookUpSpacedKey`). A text resolves to a concept exactly when its folded form is that concept's key, or is no key and the longest keys in it are that concept's (`Ontology.TextResolvesExactly`); all generated keys resolve to their own concepts exactly when this holds for what follows `std::` and a blank in every alias that has them (`Folding.AllKeysResolveExactly`).
- The lookup folds a text twice, the index folds an alias once, and folding (NFKC, then lower case) is not idempotent: "J" and a combining caron become "j" and the caron, and only the second folding joins them. An alias with such a pair is accepted at start-up and does not resolve (`MarkedExample.LookUpMarkedAlias`); an alias resolves exactly when its twice folded form does, in particular if the second folding changes nothing (`Ontology.AliasResolvesExactly`).
- `ndjson.ts:10` promises that no frame is lost. The back end's closing frame has no newline after it, so the reader never delivers it; for a cache hit this is the only frame with the saved token count (`BackendFrames.LinesOfWire`, `BackendFrames.SavingsNeverShown`).
- `ndjson.ts:16` promises a fresh start when the request is sent again. The code notices that only if the new text is shorter than the old one; otherwise its half line is right again exactly when the part behind the old length holds a newline, or the half lines agree (`Ndjson.ReplacedExactly`).
- `server.go:298` keeps truncated answers out of the cache; the request without streaming (`server.go:127-128`) caches them (`ChatStream.BothEndpoints`).
- A turn answered from the cache saves no context, so the next question starts without any (`Context.ForgottenExactly`).
- `stream.go:36-37` says that writer calls are safe from any goroutine and that a terminal makes later ones a no-op. That holds exactly when every call starts clear: a terminal overlaps no call that is about to send (`ZrpcWriter.RunsFromStart`, `ZrpcWriter.DisciplineExactly`); sends may overlap freely (`ZrpcWriter.SendsMayOverlap`), and two overlapping terminals both reach the wire (`ZrpcWriter.TwoTerminals`).
- `stream.go:134-135` says that a closed connection cancels its stream; a stream whose table entry was replaced by a later one on the same connection, or which has not registered yet, is missed (`ZrpcTracking.CloseReachesExactly`, `ZrpcTracking.FirstStreamMissed`).
- An ERROR event that finds the client's queue full is dropped, and the reader then sees a normal end (`ZrpcClient.FailureSeenExactly`, `ZrpcClient.ErrorCanBeLost`).

## Model

| member | source | states |
|---|---|---|
| Parsing.ResolveLangEntity | semantic/parse.py:137-165 | the dictionary loop finds nothing, the first hit when all hits name one entity, or several |
| Parsing.EligibilityIsStable | semantic/parse.py:804-832 | the eligibility computed before residual and digest are filled in still describes the finished record; a fingerprint is present exactly when it holds; an eligible question names an ontology concept |
| Parsing.FingerprintDeterminesSlots | semantic/parse.py:601-640 | two eligible questions have the same fingerprint iff subject, intent, language and operation agree |
| DecisionMeaning.SubjectSlots | semantic/parse.py:756-799 | the subject is the concept of the ontology; without one the only entity that the language table finds for the subject clause, or for the whole question, with all slots of its first hit; several entities make it ambiguous |
| DecisionMeaning.OtherSlots | semantic/parse.py:727-832 | every other slot of a parsed question in terms of what the analysers say |
| DecisionMeaning.EligibleExactly | semantic/parse.py:804-832 | a fingerprint is given iff the question names a concept and a known intent, is neither context dependent nor stateful, and no word is left over |
| DecisionMeaning.FamiliesExactly | semantic/parse.py:756-770 | two concepts belong to one family iff they are the same or array and dynamic array |
| DecisionMeaning.MentionsExactly | semantic/parse.py:660-676 | a class of constraints is declared iff one of its phrases is a block of the text, raw if normalisation left nothing |
| Decision.CollectConstraints | semantic/parse.py:660-676 | the nested loops with early exit collect exactly the classes with a phrase in the question |
| DecisionMeaning.HardExactly | semantic/decision.py:118-152 | for all questions under all switches, a hard share iff no family pair, same id or same words, same language if it matters, same operation, same known intent or a common operation, and equal residual words |
| DecisionMeaning.SoftExactly | semantic/decision.py:86-140 | a soft share iff the switch is on, neither names a concept, their words differ or are missing, and intent, operation, constraints and, if it matters, language agree |
| DecisionMeaning.FamilyExactly | semantic/decision.py:50-131 | a family share iff the switch is on and the two are different subjects of one family with equal language, no type arguments, one subject each, and intents to define or implement |
| DecisionMeaning.SharesExactly | semantic/decision.py:118-152 | there is no other way to share |
| DecisionMeaning.RefusalExactly | semantic/decision.py:67-151 | a refusal names the first test that fails, each reason with its exact condition on the slots |
| Decision.FastPathSound | semantic/decision.py:118-152 | equal fingerprints always get the verdict that the cache accepts, whatever the two switches are set to |
| Decision.ParserIsSound | semantic/parse.py:736-832 | parse delivers what the cache relies on: eligibility, fingerprint slots, soundness for the rules |
| Decision.FingerprintGap | semantic/decision.py:118-152 | for any rules, exactly which eligible pairs share without having the same fingerprint |
| Decision.DecideSymmetric | semantic/decision.py:50-152 | the whole verdict is symmetric in the two questions |
| Decision.ReflexiveExactly | semantic/decision.py:118-152 | for any rules, exactly which questions share with themselves |
| Decision.TransitiveExactly | semantic/decision.py:67-152 | with both switches off, where two shared pairs meet the ends share iff their subjects do not clash and the one language situation does not arise; a clash takes a question without subject id |
| Decision.SharingIsEquivalence | semantic/decision.py:118-152 | with both switches off, sharing is an equivalence on questions with subject id, known intent and no operation |
| Decision.OperationBreaksTransitivity | semantic/decision.py:118-152 | with a common operation it is not transitive: three questions as parse delivers them |
| Decision.SubjectTextBreaksTransitivity | semantic/decision.py:67-78 | without an operation it is not transitive either if one question names its subject only in words: three questions as parse delivers them |
| Decision.SwitchesOnlyAdd | semantic/decision.py:34-115 | raising a switch never turns a share into a refusal, and says which pairs each switch adds |
| Decision.SoftNeedsSwitch | semantic/decision.py:86-152 | a soft share needs the switch, equal hard constraints and a missing subject id |
| Ontology.Validate | semantic/ontology/validator.py:31-52 | start-up accepts exactly the ontologies with distinct ids, sound concepts and no key owned twice |
| Ontology.CheckConcept | semantic/ontology/validator.py:34-50 | one concept passes iff it is well formed and its keys are free or its own; the owner map then holds exactly all keys so far |
| Ontology.EnterKeys | semantic/ontology/validator.py:44-50 | the innermost loop fails exactly on an empty key or a key of another concept, in any set order |
| Ontology.BuildIndex | semantic/ontology/loader.py:43-52 | the index holds exactly the generated keys of all aliases |
| OntologyMeaning.VariantsExactly | semantic/ontology/loader.py:20-32 | the generated keys are the folded alias, the rest behind a namespace, and that glued if three characters or more are left |
| OntologyMeaning.GlueExactly | semantic/ontology/loader.py:28-29 | gluing keeps, in order, every character but blanks, hyphens and underscores |
| OntologyMeaning.ValidExactly | semantic/ontology/validator.py:16-52 | start-up accepts at least forty concepts with different ids, each acceptable in itself, no two of which generate the same key |
| Ontology.Consider | semantic/ontology/loader.py:73-83 | one entry against one text keeps the running result right for the hits so far |
| Ontology.HitsExactly | semantic/ontology/loader.py:40-41 | an entry hits a text iff the text is something, its key and something else, and for a Latin entry neither neighbour is a letter or digit |
| OntologyMeaning.LatinKeyIsWord | semantic/ontology/loader.py:40-41 | a Latin key of letters and digits hits a text iff it is one of its maximal runs of letters and digits |
| Ontology.LookupSubjectId | semantic/ontology/loader.py:64-84 | the loop returns the concept to which all longest entries that occur in the folded text belong, Latin ones as words, if it is one; else None, whatever the order of the index |
| OntologyMeaning.LookupExactly | semantic/ontology/loader.py:34-84 | in terms of concepts and aliases: a text resolves to a concept iff of all generated keys that stand in its folded form, as words if their alias has a letter or digit, the longest are that concept's |
| Ontology.FoldedKeyResolves | semantic/ontology/loader.py:56-84 | a text whose twice folded form is a generated key resolves to that key's owner, whatever shorter keys it contains |
| Ontology.AliasResolves | semantic/ontology/loader.py:20-84 | in a validated ontology a text whose twice folded form is a folded alias resolves to that alias's concept |
| Ontology.AliasResolvesExactly | semantic/ontology/loader.py:20-84 | an alias resolves to its own concept iff its twice folded form is resolvable to it; always if the second folding changes nothing |
| Ontology.TextResolvesExactly | semantic/ontology/loader.py:56-84 | in a validated ontology any text resolves to a concept iff its twice folded form is a key of that concept, or is no key and the longest keys in it are that concept's |
| Ontology.GeneratedKeyResolvesExactly | semantic/ontology/loader.py:20-84 | the same for every generated key and its own concept; keys that folding leaves alone always resolve |
| Ontology.BaseAddsNothing | semantic/ontology/loader.py:56-62 | the namespace-stripped form of the query brings no hit that the full form does not |
| Folding.FoldIsIdempotent | semantic/ontology/loader.py:11-12 | folding an ASCII text twice changes nothing more |
| Folding.FoldIsWords | semantic/ontology/loader.py:11-12 | an ASCII text folds to its words in lower case with one blank between |
| Folding.KeyShape | semantic/ontology/loader.py:20-32 | a generated key is left alone by folding unless it has a blank behind the stripped namespace |
| Folding.AllKeysResolveExactly | semantic/ontology/loader.py:20-84 | all generated keys resolve to their own concepts iff the rest behind every spaced namespace does; in particular if no alias has one |
| SpacedExample.LookUpSpacedKey | semantic/ontology/loader.py:14-84 | ontologies of forty concepts that start-up accepts and in which a generated key goes to another concept, or to none |
| MarkedExample.LookUpMarkedAlias | semantic/ontology/loader.py:11-84 | for every small letter, an ontology that start-up accepts and in which an alias, folded twice, is found nowhere |
| LangTerms.LookupLangEntity | semantic/ontology/loader.py:189-222 | the table loop returns the hits of the mapped terms that are found, in table order |
| LangTerms.FoundInOrder | semantic/ontology/loader.py:189-222 | the results are the matches of exactly the rows that find something, in table order |
| LangTerms.MatchExactly | semantic/ontology/loader.py:139-222 | a match carries entity, kind and family of its row, type arguments iff the row asks for them, the namespace right before it or else the recorded one, and the whole token |
| LangTerms.FirstFrom | semantic/ontology/loader.py:127-136 | the leftmost match with free borders, or none anywhere |
| LangTerms.SpanExactly | semantic/ontology/loader.py:127-136 | an identifier is found as a word, another ASCII term with blank or hyphen where no letter or digit touches it, any other term of two characters or more by the library |
| LangTerms.FoundExactly | semantic/ontology/loader.py:127-136 | a term is found iff the text is something, the term and something else, and nothing that clings to it touches it |
| LangTerms.SurfaceIsToken | semantic/ontology/loader.py:139-222 | the surface of a hit is the text found, for identifiers and phrases the term, with the namespace prefix iff the text has it right before; if nothing was found and no prefix stands there, the entity id |
| LangTerms.TypeArgsRoundTrip | semantic/ontology/loader.py:148-159 | plain type arguments written after a term are read back iff they are short enough |
| LangTerms.ArgsExactly | semantic/ontology/loader.py:148-159 | what is read behind a term, for every text: nothing without brackets right there, with more than 64 characters or an inner bracket; otherwise the trimmed pieces between commas without blank ones |
| LangTerms.SplitExactly | semantic/ontology/loader.py:159 | splitting at commas loses nothing and leaves no comma |
| LangTerms.NestedArgsIgnored | semantic/ontology/loader.py:148-159 | an inner opening bracket gives no arguments |
| LangTerms.IdentifierIsWord | semantic/ontology/loader.py:127-136 | an identifier is found iff it is one of the words of the text |
| LangTerms.SubjectOfTerms | semantic/parse.py:137-165 | the terms a text names, identifiers being words of it, decide whether it has no, one or several library subjects |
| VectorCodec.EncodeVec | ai-chat-service/chat-server/semcache/semcache.go:312-319 | the buffer loop writes dimension and components little-endian, component by component |
| VectorCodec.EncodedBytes | ai-chat-service/chat-server/semcache/semcache.go:311-319 | byte by byte: the length, lowest byte first, then the components in order, lowest byte first |
| VectorCodec.CodecRoundTrip | ai-chat-service/chat-server/semcache/semcache.go:311-319 | decoding gives the vector back iff its length fits in 32 bits |
| VectorSelect.VSearch | ai-chat-service/chat-server/semcache/semcache.go:356-388 | questions and scores are, in order and aligned, those of the first topK pairs whose key has the namespace and whose own score parses, with exactly that score |
| VectorSelect.PairsExactly | ai-chat-service/chat-server/semcache/semcache.go:373-386 | the hits are one for each usable pair in order: the question of its own key, the value of its own score |
| VectorSelect.HitsComeFromReply | ai-chat-service/chat-server/semcache/semcache.go:371-386 | every hit is a pair of the reply with the namespace stripped |
| VectorSelect.DecisionBatch | ai-chat-service/chat-server/semcache/semcache.go:272-304 | one verdict for each candidate: short replies are padded with refusals, long ones cut, failures refuse all |
| VectorSelect.CollectAccepted | ai-chat-service/chat-server/semcache/semcache.go:520-544 | the loop keeps the hits that are shared, reach the threshold and are soft only if allowed |
| VectorSelect.AcceptedExactly | ai-chat-service/chat-server/semcache/semcache.go:524-543 | a hit is accepted iff at some position it stands with a shared verdict, reaches the threshold, and is soft only if allowed |
| VectorSelect.SortHits | ai-chat-service/chat-server/semcache/semcache.go:551-557 | the sorted hits are in ranking order, none lost or added |
| VectorSelect.StringLessExactly | ai-chat-service/chat-server/semcache/semcache.go:552-557 | the order of questions: a proper prefix first, otherwise the first difference decides |
| VectorSelect.PickBest | ai-chat-service/chat-server/semcache/semcache.go:548-562 | a picked hit is accepted, ahead of every other and leads every other position by the margin; nothing is picked only if nothing was accepted or the best is contested |
| VectorSelect.ChooseExactly | ai-chat-service/chat-server/semcache/semcache.go:548-562 | a hit is the choice iff it leads |
| VectorSelect.ChooseIsBest | ai-chat-service/chat-server/semcache/semcache.go:552-562 | the choice is the first of all accepted under score, then question, and leads every other by the margin |
| VectorSelect.ChooseMisses | ai-chat-service/chat-server/semcache/semcache.go:548-562 | no choice iff nothing is accepted or two accepted hits contest the lead |
| VectorSelect.ChoiceIgnoresOrder | ai-chat-service/chat-server/semcache/semcache.go:552-557 | the choice does not depend on the order of the accepted hits |
| VectorSelect.ChosenHit | ai-chat-service/chat-server/semcache/semcache.go:513-562 | the chosen question is a hit of the reply, approved at its own position |
| CacheMeaning.PickExactly | ai-chat-service/chat-server/semcache/semcache.go:511-562 | the vectors single out a question iff some pair of the reply names it, reaches the threshold with its own score, is shared by its own decision, and beats every other such pair by the margin and in the ranking |
| CacheMeaning.QueryExactly | ai-chat-service/chat-server/semcache/semcache.go:467-570 | a query hits iff it is admissible and the entry of its fingerprint answers it, or, where that fails, a winning pair of the reply does; answer and backfill are those of that question |
| CacheMeaning.WrittenValues | ai-chat-service/chat-server/semcache/semcache.go:578-613 | the plain values after a write, for every pattern of failing commands |
| CacheMeaning.WrittenVectors | ai-chat-service/chat-server/semcache/semcache.go:597-606 | under which keys a write leaves the encoded embedding, and that it changes no other |
| CacheMeaning.BackfillExactly | ai-chat-service/chat-server/semcache/semcache.go:420-455 | a backfill writes the vector iff it is granted and an attempt succeeds before one finds the vector; after an attempt without failures it is there |
| CacheMeaning.Defaults | ai-chat-service/chat-server/semcache/semcache.go:346-353 | a search size below one is thirty; an unset namespace is the versioned one (lines 121-126) |
| RateGate.Limiter.BackfillGate | ai-chat-service/chat-server/semcache/semcache.go:402-415 | the window is moved and the counter advanced as specified |
| RateGate.WindowBound | ai-chat-service/chat-server/semcache/semcache.go:402-415 | a window never grants more than four |
| RateGate.WindowExactly | ai-chat-service/chat-server/semcache/semcache.go:402-415 | the window of a call starts with the first call a second or more after the start of the one before, and its first four calls are the granted ones |
| RateGate.WindowsApart | ai-chat-service/chat-server/semcache/semcache.go:406-409 | windows start at least a second apart |
| RateGate.SevenPerSecond | ai-chat-service/chat-server/semcache/semcache.go:392-415 | any half-open second holds at most seven grants |
| RateGate.SevenIsAttained | ai-chat-service/chat-server/semcache/semcache.go:392-415 | a run with seven grants in one second |
| RateGate.FourExactly | ai-chat-service/chat-server/semcache/semcache.go:398-415 | whatever calls come, a second holds at most four grants iff the gate is settled as it begins; otherwise the worst case is four more than the open window has left, and is attained |
| RateGate.FourPerWindow | ai-chat-service/chat-server/semcache/semcache.go:398-415 | a finished run whose last window starts no later than the second begins holds at most four grants in it |
| SemCacheModel.WriteKeeps | ai-chat-service/chat-server/semcache/semcache.go:578-613 | whichever commands fail, a write of a tidy question keeps both indexes sound |
| SemCacheModel.BackfillKeeps | ai-chat-service/chat-server/semcache/semcache.go:420-455 | a backfill keeps both indexes sound and changes no answer |
| SemCacheModel.WriteKeepsExactly | ai-chat-service/chat-server/semcache/semcache.go:578-613 | a write keeps the indexes of every store sound, whichever commands fail, iff the question is tidy |
| AnswerCacheObject.AnswerCache.CacheWrite | ai-chat-service/chat-server/semcache/semcache.go:578-613 | the store afterwards and the reported error, for every pattern of failing commands |
| AnswerCacheObject.AnswerCache.CacheQuery | ai-chat-service/chat-server/semcache/semcache.go:467-570 | answer, hit flag and started backfill, for every pattern of failing commands |
| AnswerCacheObject.AnswerCache.SearchVectors | ai-chat-service/chat-server/semcache/semcache.go:511-569 | the vector path returns what the specification picks |
| AnswerCacheObject.AnswerCache.FetchAnswer | ai-chat-service/chat-server/semcache/semcache.go:323-333 | found iff the command works and a non-empty answer is stored |
| AnswerCacheObject.AnswerCache.BackfillVec | ai-chat-service/chat-server/semcache/semcache.go:420-455 | at most two attempts after the rate limit; the store and the limiter afterwards |
| CacheRuns.RunKeeps | ai-chat-service/chat-server/semcache/semcache.go:420-613 | every run keeps: fingerprint entries point to answered questions with that fingerprint, vectors encode answered questions |
| CacheRuns.AnswersAreLast | ai-chat-service/chat-server/semcache/semcache.go:594-596 | under a question's key the store holds the last answer stored for it |
| CacheRuns.LastStoredExactly | ai-chat-service/chat-server/semcache/semcache.go:578-596 | the last stored answer is that of the last write of the question that reached the store |
| CacheRuns.PickIsJustified | ai-chat-service/chat-server/semcache/semcache.go:511-563 | the question the vectors pick is stored and shared by the rules |
| CacheRuns.HitProvenance | ai-chat-service/chat-server/semcache/semcache.go:467-570 | every hit returns the non-empty last answer of a question the rules let the query share, softly only if allowed |
| CacheRuns.MissesWithoutAdmission | ai-chat-service/chat-server/semcache/semcache.go:467-517 | a failed encoding, a bypass, a missing subject or failing commands on both paths give a miss |
| CacheRuns.SpawnedBackfillIsLegal | ai-chat-service/chat-server/semcache/semcache.go:491-496 | a question handed to a backfill is answered, now and in every later store |
| CacheRuns.IndexFollowsMap | ai-chat-service/chat-server/semcache/semcache.go:607-611 | after every reliable run the fingerprint index shows exactly the last write of each fingerprint |
| CacheRuns.LastByFingerprintExactly | ai-chat-service/chat-server/semcache/semcache.go:607-611 | the simple map shows the last write of an admitted, eligible question with the fingerprint |
| CacheRuns.CacheRefinesMap | ai-chat-service/chat-server/semcache/semcache.go:485-506 | a query on an eligible question returns the last answer written for its fingerprint, else the vectors decide |
| CacheRuns.ServiceExactly | semantic/parse.py:736-832 | the service tells of a question its own slots: it may use the cache iff it is not to bypass it and has a subject |
| CacheRuns.ServiceIsFastSound | semantic/decision.py:118-152 | the service built from parser and rules approves what has the same fingerprint |
| CacheRuns.RewordedQuestionHits | ai-chat-service/chat-server/semcache/semcache.go:485-506 | after a write, any wording that parses to the same eligible slots hits with that answer |
| CacheConcurrent.StepKeeps | ai-chat-service/chat-server/semcache/semcache.go:420-613 | one store command of any thread keeps the invariant of store and threads |
| CacheConcurrent.InterleavingsAreSafe | ai-chat-service/chat-server/semcache/semcache.go:420-613 | at every point of every interleaving the indexes are sound |
| CacheConcurrent.ConcurrentHitProvenance | ai-chat-service/chat-server/semcache/semcache.go:467-570 | a hit under any interleaving returns an answer that was written for a question the rules let it share |
| CacheConcurrent.WriterAlone | ai-chat-service/chat-server/semcache/semcache.go:578-613 | undisturbed, the steps of a write give the whole operation |
| CacheConcurrent.FillerAlone | ai-chat-service/chat-server/semcache/semcache.go:420-455 | undisturbed, the steps of a backfill give the whole operation |
| CacheConcurrent.AskerAlone | ai-chat-service/chat-server/semcache/semcache.go:467-570 | undisturbed, the steps of a query give the outcome of the whole operation |
| CacheFresh.WriterRuns | ai-chat-service/chat-server/semcache/semcache.go:578-613 | amid any other threads that do not overwrite it, each stage of a write whose commands succeed stays visible in the store |
| CacheFresh.AskerRuns | ai-chat-service/chat-server/semcache/semcache.go:467-570 | amid the same threads, each command of an asker with the same fingerprint brings it one step nearer to the written answer |
| CacheFresh.LaterAskersAreFresh | ai-chat-service/chat-server/semcache/semcache.go:467-613 | in every interleaving where nobody overwrites a completed write, an asker with the same fingerprint that starts later and whose commands work returns exactly that answer |
| Context.StoreWithinHistory | ai-chat-service/chat-server/server/app.go:293-300 | with fresh ids, what any moment's store holds is what was saved, despite expiries |
| Context.StoreExactly | ai-chat-service/chat-server/server/app.go:293-300 | a store holds under an id the message saved last, unless it has expired since |
| Context.ChainIsLinked | ai-chat-service/chat-server/server/app.go:275-292 | the chain is the one list of its length linked by parent ids without gaps |
| Context.GetContext | ai-chat-service/chat-server/server/app.go:275-292 | the list is a newest-first piece of the ancestor chain, at most ContextLen long, ended by the first missing message; a failed read empties it |
| Context.ContextOf | ai-chat-service/chat-server/server/app.go:275-292 | for every history with fresh ids and any expiries between the reads: gapless ancestors, and the whole chain if nothing expired |
| Context.ChainIsRecall | ai-chat-service/chat-server/server/server.go:254-281 | the next question sees exactly the turns since the last one that was not saved completely |
| Context.RecallAt | ai-chat-service/chat-server/server/server.go:254-281 | the recalled messages are answer and question of the last turns in turn, linked by their ids |
| Context.RecallEnds | ai-chat-service/chat-server/server/server.go:254-281 | they go back over all turns or to one that was not saved completely |
| Context.ForgottenExactly | ai-chat-service/chat-server/server/server.go:176-187 | a question has no context iff the turn before it was not saved completely, for instance answered from the cache |
| Prompt.GreedyIsLongest | ai-chat-service/chat-server/server/app.go:192-200 | the kept messages are the longest affordable prefix: a prefix fits iff it is no longer |
| Prompt.CostExactly | ai-chat-service/chat-server/server/app.go:192-200 | a context costs its tokens and two more for each message |
| Prompt.RefusedExactly | ai-chat-service/chat-server/server/app.go:166-191 | refused iff a count fails or system message, question and two tokens do not fit beside the reserved ones |
| Prompt.ReverseInPlace | ai-chat-service/chat-server/server/app.go:201-203 | the two-index loop reverses the array in place |
| Prompt.CollectContext | ai-chat-service/chat-server/server/app.go:192-200 | the context loop keeps a greedy prefix and counts its tokens within the budget |
| Prompt.RebuildMessages | ai-chat-service/chat-server/server/app.go:166-208 | refused iff a count fails or the question is too long; otherwise the question is last, the kept message number i of the newest-first list stands i + 2 places from the end, the system message is first iff it counts tokens, and the tokens are within the budget |
| Prompt.BuildChatCompletionRequest | ai-chat-service/chat-server/server/app.go:134-165 | the request holds a gapless piece of the ancestor chain, oldest first before the question, and leaves at least MinResponseTokens |
| Prompt.NextQuestion | ai-chat-service/chat-server/server/app.go:134-208 | in a stored conversation the request repeats the newest turns back to the last incompletely saved one, as far as limit and budget allow: each question right before its answer, older turns before newer |
| ChatStream.ResponseList | ai-chat-service/chat-server/server/app.go:259-273 | the chunks concatenate to the message; all are 100 characters long but the last, none is empty |
| ChatStream.ChunksUnique | ai-chat-service/chat-server/server/app.go:259-273 | two such lists of one message have the same chunks |
| ChatStream.StreamLLMContent | ai-chat-service/chat-server/server/server.go:311-374 | a pass fails iff the status is not 200, reading fails or its packets do not fit the transport; it has then sent a first part of them, and otherwise all of them and returns what the lines before the end mark give |
| ChatStream.ForwardDelta | ai-chat-service/chat-server/server/server.go:352-368 | one delta sends its text unless that is empty, keeps the first id and the last finish reason, and fails iff the packet does not fit |
| ChatStream.PassText | ai-chat-service/chat-server/server/server.go:324-369 | the packets of a pass concatenate to the answer it returns |
| ChatStream.PassExactly | ai-chat-service/chat-server/server/server.go:324-369 | over the lines of a pass: one packet for each delta with text, in order and under the first id seen by then; the content is these texts together; id of the first delta that has one, finish reason of the last |
| ChatStream.StoppedAt | ai-chat-service/chat-server/server/server.go:327-335 | the lines before the end mark are those up to the first one, or all |
| ChatStream.RunPasses | ai-chat-service/chat-server/server/server.go:198-212 | fails iff the first pass fails, or is empty and the second fails; whatever happens, only a first part of the deciding pass is sent, and all of it on success |
| ChatStream.AnswerFromModel | ai-chat-service/chat-server/server/server.go:198-305 | fails iff a pass fails, the closing packet does not fit or tokens cannot be counted; sends the deciding pass and its notice, or a first part of them; hands a whole answer to the cache iff it succeeds and the record is kept |
| ChatStream.Replay | ai-chat-service/chat-server/server/server.go:149-187 | the text arrives whole iff the transport has room for opening packet, chunks and stop packet, otherwise a first part of it; only the last packet says stop |
| ChatStream.ChatCompletionStream | ai-chat-service/chat-server/server/server.go:137-306 | exactly when the request fails; what is sent is always a first part of the full text, and all of it on success with a working transport; a model answer is cached iff it is recorded, has text and its last finish reason is not length, and is then the text sent; a truncated one ends with its notice |
| ChatStream.RetryOnlyAfterSilence | ai-chat-service/chat-server/server/server.go:198-212 | a second pass decides only if the first sent nothing |
| ChatStream.CacheableExactly | ai-chat-service/chat-server/server/server.go:213-238 | an answer may be cached iff no notice was added to it |
| ChatStream.NoticeExactly | ai-chat-service/chat-server/server/server.go:198-238 | over the deciding lines: without text the notice for an empty answer, after a last finish reason of length the notice for a truncated one, and none of the two may be cached; any other answer may, as it is |
| ChatStream.ChatCompletion | ai-chat-service/chat-server/server/server.go:40-135 | the request without streaming: refusals, the notice, the cached answer, or the model's answer, which is cached unless empty |
| ChatStream.BothEndpoints | ai-chat-service/chat-server/server/server.go:127-132 | when the model answers, the two endpoints hand the same to the cache iff the answer is empty or not cut off by length; the stream fails exactly when its passes, its transport or the token count do |
| BackendFrames.ChatProcess.Receive | ai-chat-backend/pkg/controllers/chat.go:174-230 | one packet advances message, chunk count and body as specified |
| BackendFrames.ChatProcess.Run | ai-chat-backend/pkg/controllers/chat.go:128-231 | the whole loop writes exactly the specified body, for a normal end and for a failure |
| BackendFrames.MessageText | ai-chat-backend/pkg/controllers/chat.go:182-189 | the message carries all deltas received so far |
| BackendFrames.FramesGrow | ai-chat-backend/pkg/controllers/chat.go:182-189 | every frame repeats the text of all earlier ones |
| FrameMeaning.FrameExactly | ai-chat-backend/pkg/controllers/chat.go:174-230 | frame i tells of the first i + 1 packets: last identifier and source named, all deltas together, last delta and detail, the tokens counted at the last fifteenth packet of a model answer |
| FrameMeaning.ClosingExactly | ai-chat-backend/pkg/controllers/chat.go:133-162 | the closing frame adds the tokens of the whole answer, saved for an answer of the cache and used for any other, and is what follows the last newline |
| BackendFrames.LinesOfWire | ai-chat-backend/pkg/controllers/chat.go:149-230 | the complete lines are the packets' frames, all after a normal end, all but the last after a failure; the closing frame is none |
| BackendFrames.EmptyStreamShowsNothing | ai-chat-backend/pkg/controllers/chat.go:149-161 | without packets the only complete line is empty |
| BackendFrames.NothingSavedByModel | ai-chat-backend/pkg/controllers/chat.go:140-145 | a model answer is never counted as saved |
| BackendFrames.SavingsNeverShown | ai-chat-backend/pkg/controllers/chat.go:133-162 | the saved tokens of a cache hit are counted but reach no line a reader parses |
| Ndjson.SplitAppend | ai-chat-web/src/utils/functions/ndjson.ts:21-31 | whole-text parsing can be done in pieces with the carried tail |
| Ndjson.LastLineByIndex | ai-chat-web/src/utils/functions/ndjson.ts:24-31 | the two searches, negative start clamped to 0, find the last complete line and the rest |
| Ndjson.OfferExactly | ai-chat-web/src/utils/functions/ndjson.ts:33-37 | a line is skipped iff it is blank, and offered without the white space around it |
| Ndjson.Reader.OnProgress | ai-chat-web/src/utils/functions/ndjson.ts:11-43 | for any text: what is read is the carried half line and the part behind the old length, or the whole text if it has become shorter; the parser gets its last complete line unless that is blank, and the rest is carried |
| Ndjson.Reader.OnGrowth | ai-chat-web/src/utils/functions/ndjson.ts:11-43 | for a response that grows or restarts shorter: the state depends on the text alone; the parser gets the last complete line of the whole text iff the event completed one that is not blank |
| Ndjson.ReplacedExactly | ai-chat-web/src/utils/functions/ndjson.ts:16-33 | a replaced text that is not shorter leaves the right half line iff the part behind the old length holds a newline or the half lines agree |
| Ndjson.ReadAll | ai-chat-web/src/utils/functions/ndjson.ts:11-43 | for every way of cutting a growing response, what reaches the parser are the specified lines |
| Ndjson.HandedForward | ai-chat-web/src/utils/functions/ndjson.ts:24-31 | handed lines move strictly forward |
| Ndjson.HandedExactly | ai-chat-web/src/utils/functions/ndjson.ts:24-37 | a line is handed over iff some event completes it last and it is not blank |
| Ndjson.LastHanded | ai-chat-web/src/utils/functions/ndjson.ts:24-37 | once the response has ended the last handed line is its last complete line |
| Throttle.Throttled.Throttle | ai-chat-web/src/utils/functions/throttle.ts:29-46 | a call renders at once iff the window is over, and otherwise arms a timer for its end |
| Throttle.Throttled.OnTimer | ai-chat-web/src/utils/functions/throttle.ts:40-44 | a firing renders the pending argument |
| Throttle.Throttled.FlushNow | ai-chat-web/src/utils/functions/throttle.ts:49-53 | a flush renders the pending argument and disarms |
| Throttle.RunKeeps | ai-chat-web/src/utils/functions/throttle.ts:15-56 | in every run: a timer is armed iff an argument is pending, shown arguments are passed ones in strict order, unflushed ones `wait` apart, and with nothing pending the last passed was shown last |
| Throttle.FlushShowsLast | ai-chat-web/src/utils/functions/throttle.ts:49-53 | after a final flush the last passed argument has been shown and nothing is armed |
| Throttle.PendingIsRecent | ai-chat-web/src/utils/functions/throttle.ts:31-45 | the deadline of an armed timer is at most `wait` after the oldest call not yet shown |
| Throttle.CloseShotsAreFlushes | ai-chat-web/src/utils/functions/throttle.ts:23-53 | an invocation less than `wait` after its predecessor was a flush |
| ZrpcWriter.StreamWriter.Send | zrpc-go/stream.go:64-85 | a send emits one DATA frame, or fails and silences the writer, or does nothing when done |
| ZrpcWriter.StreamWriter.Finish | zrpc-go/stream.go:88-116 | a terminal is tried at most once and silences the writer |
| ZrpcWriter.DoExactly | zrpc-go/stream.go:64-116 | what each call puts on the wire and reports: at most one frame, the right one, and when it silences the writer |
| ZrpcWriter.RunStream | zrpc-go/stream.go:163-187 | handler calls, recovery and closing ERROR give the specified frames, which follow DATA* [END or ERROR] |
| ZrpcWriter.DoAllKeeps | zrpc-go/stream.go:64-116 | any sequence of calls keeps the grammar and at most one terminal attempt; a done writer never changes |
| ZrpcWriter.SilentAfterFailure | zrpc-go/stream.go:78-85 | after a failed send nothing reaches the wire |
| ZrpcWriter.UnterminatedExactly | zrpc-go/stream.go:173-187 | no terminal is tried iff the first call that does not leave the stream open is a broken send, or there is none and the handler returns cleanly |
| ZrpcWriter.ChatStreamWire | ai-chat-service/chat-server/server/zrpc.go:40-54 | a chat stream is its packets up to the first failed send, and otherwise exactly one terminal, END on success and ERROR on failure |
| ZrpcWriter.HarmlessExactly | zrpc-go/stream.go:45-116 | however the calls under way finish, the wire stays DATA* with at most one terminal iff a terminal waits alone and nothing waits behind one |
| ZrpcWriter.StepsAreCall | zrpc-go/stream.go:51-116 | undisturbed, the interleaved steps of a call are the whole call |
| ZrpcWriter.CheckExactly | zrpc-go/stream.go:51-67 | a new call leaves the state harmless iff it starts clear |
| ZrpcWriter.DisciplineExactly | zrpc-go/stream.go:36-116 | a run of calls from any goroutines is safe at every point iff each call starts clear |
| ZrpcWriter.RunsFromStart | zrpc-go/stream.go:36-116 | the same for whole runs of a stream |
| ZrpcWriter.SendsMayOverlap | zrpc-go/stream.go:64-85 | sends alone may overlap as they like |
| ZrpcWriter.TwoTerminals | zrpc-go/stream.go:36-63 | two overlapping calls put two terminals on the wire |
| ZrpcTracking.Server.TrackWriter | zrpc-go/stream.go:120-124 | registers the writer, hiding an earlier one on the connection |
| ZrpcTracking.Server.UntrackWriter | zrpc-go/stream.go:126-132 | removes the entry only if it is the writer's own |
| ZrpcTracking.Server.CancelFD | zrpc-go/stream.go:136-144 | undisturbed, removes the entry and cancels its writer |
| ZrpcTracking.Server.CancelAllStreams | zrpc-go/stream.go:146-159 | undisturbed, empties the table and cancels exactly the writers in it |
| ZrpcTracking.RunKeeps | zrpc-go/stream.go:120-187 | every interleaving keeps: an entry belongs to a running, uncancelled writer of that connection; a running writer is listed, owed a cancel, cancelled or hidden; a finished one is cancelled |
| ZrpcTracking.FinishKeepsNewer | zrpc-go/stream.go:126-132 | a finishing stream leaves a later stream's entry alone |
| ZrpcTracking.RemovedIsCancelled | zrpc-go/stream.go:136-159 | a writer that a close or shutdown finds in the table is cancelled once no canceller owes it a call |
| ZrpcTracking.CloseReachesExactly | zrpc-go/stream.go:134-144 | of the unfinished streams of a connection, a close misses exactly the unregistered and the replaced ones |
| ZrpcTracking.OrderlyCloseReachesAll | zrpc-go/stream.go:120-144 | with one stream per connection at a time a close reaches every registered stream |
| ZrpcTracking.FirstStreamMissed | zrpc-go/stream.go:120-144 | two streams on one connection: a close leaves the first uncancelled |
| ZrpcJobs.Server.DispatchRequest | zrpc-go/server.go:263-282 | a request is queued iff its handler is still registered, the server was not seen closed and the queue has room |
| ZrpcJobs.Server.TakeJob | zrpc-go/server.go:174-196 | a worker takes the oldest job; a stream leaves for its own goroutine |
| ZrpcJobs.Server.RunUnary | zrpc-go/server.go:198-227 | one reply: the response, or an error with the code of its cause |
| ZrpcJobs.AnswerExactly | zrpc-go/server.go:186-258 | the response iff a unary handler returns a value that can be marshalled; otherwise an error with the code of the status error, 5, 1 or 8 for its cause |
| ZrpcJobs.Server.FinishJob | zrpc-go/server.go:186-227 | a finished job adds exactly its reply and frees the worker |
| ZrpcJobs.RunKeeps | zrpc-go/server.go:174-302 | every interleaving keeps the queue bounded and in order, workers on distinct jobs, replies unique and right, no started job lost |
| ZrpcJobs.JobsRunOnce | zrpc-go/server.go:174-227 | jobs start in the order accepted; each unary job started is either at work or has exactly one reply |
| ZrpcJobs.AfterShutdown | zrpc-go/server.go:287-304 | once the workers have left, every started job is answered and no queued one ever runs |
| ZrpcJobs.Registry.Add | zrpc-go/server.go:53-59 | a handle is never given out twice |
| ZrpcJobs.Registry.Get | zrpc-go/server.go:61-65 | a handler is found iff its handle was given out and not cleared |
| ZrpcJobs.Registry.ClearFor | zrpc-go/server.go:67-75 | exactly one server's handles are removed |
| ZrpcClient.Stream.PushEvent | zrpc-go/stream.go:402-408 | an event is queued iff there is room for it |
| ZrpcClient.Stream.Recv | zrpc-go/stream.go:247-272 | Recv yields the oldest event, end of file when drained and closed, or the context's error |
| ZrpcClient.RunKeeps | zrpc-go/stream.go:247-408 | taken and queued events are the pushed ones that found room, in order, at most 128 queued |
| ZrpcClient.DrainedStays | zrpc-go/stream.go:249-252 | once drained and closed nothing more is yielded |
| ZrpcClient.ReadsEverythingExactly | zrpc-go/stream.go:317-332 | a stream read to its end yielded all pushed events iff no push found the queue full |
| ZrpcClient.FailureSeenExactly | zrpc-go/stream.go:327-331 | a reader sees a failure iff the ERROR event found room |
| ZrpcClient.ErrorCanBeLost | zrpc-go/stream.go:327-331 | a run in which the ERROR is dropped |
| Replay.LastParsedFrame | ai-chat-web/src/utils/functions/ndjson.ts:11-43 | however the body is cut, the last parsed frame carries the text of all packets |
| Replay.RenderedFrames | ai-chat-web/src/utils/functions/ndjson.ts:11-43 | however the body is cut and ends, what reaches the page are frames of received packets, at the positions of the lines handed over |
| Replay.DeliveredTextsGrow | ai-chat-backend/pkg/controllers/chat.go:128-231 | over the back end's accumulated frames, for every cutting, after a normal end and after a failure, each text that reaches the page extends every earlier one |
| Replay.ScreenShowsAnswer | ai-chat-web/src/views/chat/index.vue:126-165 | after the final flush the screen shows the whole answer, whatever timers fired |
| Replay.WireKeepsPackets | ai-chat-backend/pkg/controllers/chat.go:131-172 | handler, writer, event queue and receive loop deliver exactly the packets sent and end as the handler did |
| Replay.SameTextSameScreen | ai-chat-web/src/views/chat/index.vue:126-165 | two streams with the same text end on the same screen, however they are cut, counted and rendered |
| Replay.Ask | ai-chat-service/chat-server/server/server.go:175-305 | the cache is asked first; an answer is written iff the query misses, the model answers whole and it is recorded, and it is then the text sent |
| Replay.AskTwice | ai-chat-service/chat-server/server/server.go:175-304 | the first answer is written exactly under that condition; then a question with the same slots is a hit, what is sent is a first part of the same text, and all of it, ending on the same screen, if the transport has room for the replay |

## Left out

- The once-only consistency probe of the embedding service (`semcache.go:80-119`): the model starts with vectors enabled and lets an event turn them off at any time.
- Floating point: cosine scores are reals without NaN, and a float32 is its four bytes.
- Key clashes other than `Tidy`: context messages and answers share one key space in the store; the model keeps them apart.
- Cost and expiry of answers: the cache sets no time to live, and removal of keys by the store is not modelled.
- The regular expressions, the segmentation and the residual-word loops of `parse.py`, and the diagnostic `reason` and `source` fields: functions of the lexicon, which every theorem holds for.
- The regular-expression library: for terms that are neither identifiers nor phrases its first match is a parameter; loading and checking the term table (`loader.py:102-124`).
- Prompt.GreedyIsLongest: needs token counts that are not negative; the loop itself is modelled for all integers.
- Unicode folding: the lookup theorems hold for every folding function; only that of ASCII texts, and of one combining pair, is defined.
- Ndjson.Reader.OnGrowth: a replaced response at least as long as the previous one is left to OnProgress and ReplacedExactly.
- CacheFresh.LaterAskersAreFresh: threads other than the two may fail or interleave freely, but may not write the same question or fingerprint in the meantime.
- ChatStream.ChatCompletion: an upstream answer without choices, on which the source's background save would fail, is not modelled.
- Context.GetContext: a negative ContextLen is not modelled; the source fails on it when it allocates the list.
- BackendFrames.ChatProcess.Run: a failed write to the browser ends the loop early; the body is then a prefix, which is not modelled.
- ZrpcWriter.DoAllKeeps: calls from one goroutine, as the chat handler makes them; for several goroutines see DisciplineExactly.
- ZrpcClient.Stream.Recv: unknown event kinds and chunks that cannot be unmarshalled are not modelled.
- ZrpcTracking.RunKeeps: deadlines, which also cancel a context, are not modelled.
- HTTP, Redis and MySQL clients, configuration, logging, metrics, authentication and rate-limit middleware, the C side of zrpc, converters between message types, stores and views: plumbing without further state of interest.
- The long-reply continuation and the login retry of the front end (`index.vue:147-176`): a second request with its own reader.
- Time stamps, model names and roles in packets: constant.
