# Proofs about the research commander

The research commander runs a language model as a sandboxed commander and builder, and archives
what they produce. This project models the host side in Dafny and proves what its protocols,
compilers and checks promise.

* **Canonical JSON and write-once files** (`Text`, `Json`, `Canonical`, `JsonText`, `JsonLayout`, `JsonTokens`,
  `JsonGrammar`, `JsonRoundTrip`, `Store`): twelve-digit rounding, sorted keys, compact printing, a full parser
  with its grammar, and exclusive creation.
* **The structured-output schema compiler** (`SchemaMeaning`, `SchemaCompiler`, `SchemaRefinement`,
  `SchemaSoundness`, `SchemaDemands`, `SchemaExact`, `SchemaSuccess`, `SchemaNormalForm`, `SchemaCycles`,
  `SchemaWalk`, `SchemaLimits`, `SchemaExample`): a semantics of JSON Schema Draft 2020-12, the
  source-to-source walk, its refinement theorem, exactly what a compiled schema accepts and when there is
  one, its normal form, when it terminates, and the inputs on which it fails. `depth` is the number of references the
  walk may follow before the recursion limit of the host language ends it.
* **Sealing** (`Sealing`, `SealedSchema`): nested contract hashes, timestamps, finalisation, and the
  bridge from the schema the model sees to the schema the archive demands.
* **Patches and scopes** (`Lines`, `PatchPrinter`, `PatchText`, `PatchPolicy`, `PatchNames`, `PatchSoundness`,
  `PatchAcceptance`, `PatchBreaks`, `PatchTheorems`, `PatchGrammar`, `PatchHeaders`, `PatchLegacy`, `Globs`,
  `Scope`): the diff printer and its whole text, both diff parsers, the grammar of the second, exactly when they agree with the trees, and exactly when the prefix heuristic on globs
  is sound.
* **Protocols** (`OneShot`, `OneShotLoss`, `EpochLog`, `EpochStaging`, `DecisionCache`,
  `DecisionReach`, `Publication`, `TreeChain`): state machines over files with any number of hosts, crashes between any two steps and
  failing writes.
* **Access control lists** (`Sddl`, `AclRevocation`, `AclCheck`, `AclRerun`): reading lists from text, the
  test that guards the closing event, revocation as a transformation of the tree, and revocation over
  any number of interrupted attempts.
* **Checks** (`ActionPlan`, `ObjectStream`, `Exposure`): loops proved against their specifications.

## Assumptions

Each of these is a parameter or a `requires` of the theorems that need it.

* The hash is injective on the texts it is applied to (`Sealing.InjectiveHash`,
  `DecisionCache.Injective`, the absence of collisions in `Publication`). The identity of a decision
  is a 96-bit prefix of a hash; the model takes it as injective too.
* A rendered timestamp reads back as its instant and is not the placeholder (`Sealing.Sound`).
* The line alignment of changed files adds no carriage return; for the first parser it emits lines
  with the prefixes of a unified diff. New files need no such assumption.
* Inheritance marks every entry as inherited and passes on only trustees of the parent directory
  (`AclRevocation.PassesOn`); a reset clears explicit entries and protection, and setting a list
  reaches every unprotected path below. A snapshot lists directories before their contents. A save
  that completes leaves one pair of lines per path, which the host can read exactly when no two of the
  names agree up to case (`AclRerun.Setting.Sound`).
* Which characters a bracketed class of a glob matches is an arbitrary relation (`Globs.Classes`).
* A float operation returns the exact value times one plus at most a 2^-53 relative error (IEEE
  754-2019, section 4.3).

## Findings

* The first patch parser does not report a changed file whose section follows a file without a
  final line end (`PatchLegacy.LegacyMissesAChange`), one whose name holds a line end such as
  U+2028 (`PatchLegacy.LegacyMissesABrokenName`), or one whose path holds the separator ` b/` of the
  header (`PatchLegacy.LegacyMissesASeparator`). The second parser refuses these patches.
* One crash loses an invocation for good: while the start marker, the completion marker or the output
  is being written, or between the completion marker and the publication (`OneShotLoss.LosingRuns`).
* A write that fails after its bytes were readable unlinks its file. For the published output that
  breaks its agreement with the marker (`OneShot.LateFailureRun`), for a revocation event the single
  active epoch (`EpochLog.FailedRevocationRun`). For a staged event that a revoker has read it leaves an
  epoch revoked but not staged (`EpochLog.LateStagedRun`): every later listing fails, and an epoch staged
  meanwhile is never revoked (`EpochLog.ActiveForGood`). Plans, and staged events nobody could read yet,
  may fail (`EpochLog.ChainExactly`).
* A decision result whose sync fails after its bytes were readable is unlinked although another call may
  have answered from it: the decision was used, and no later call of its key ever gets an answer
  (`DecisionReach.LostAnswer`).
* A crash after an epoch's directory is made and before it is staged blocks staging for good
  (`EpochLog.AbandonedRuns`).
* A verification snapshot that was cut off while it was saved blocks every later revocation of that
  epoch (`AclRerun.CutSaveBlocks`).
* Two files of the tree whose names agree after case folding, as with a sharp s and a double s, make
  the closing snapshot unreadable, and the epoch is never closed (`AclRerun.FoldedNamesBlock`).
* The grant that revocation removes from the three ancestors is removed even if it was there before
  staging (`AclRevocation.AncestorRestoredExactly`).
* The hash checks around a decision do not see a tree that is swapped for the copy of the sources and
  swapped back: another tree runs (`TreeChain.UndoneSwap`).
* The object scan accepts a stream that is cut after its last header line (`ObjectStream.TruncationExactly`).
* Allowed patterns with text after the first star, and forbidden patterns that begin with a star,
  defeat the scope heuristic (`Scope.ScopeWithinSound`, `Scope.ScopesOverlapSound`). A proposed scope
  with a question mark or a class is accepted next to a forbidden directory and reaches into it
  (`Scope.DisguisedScope`, `Scope.AnyScopesOverlapSound`).
* The schema walk takes property maps for schema nodes: property names that are also dropped keywords
  vanish (`SchemaLimits.ReservedNameEscapes`, `SchemaRefinement.WalkedMapKeeps`).

## Model

| member | source | states |
|---|---|---|
| `Canonical.RoundsToNearest` | src/research_commander/canonical.py:20-23 | Twelve-digit rounding picks a nearest decimal of at most twelve significant digits, ties to even. |
| `Canonical.Round12Nearest` | src/research_commander/canonical.py:16-24 | Sign and scale of a rounded float: it is the original value where that has at most twelve digits, and otherwise a twelve-digit number at the original power of ten plus the digits cut, within half a unit of its last digit, ties to even, with no zero left at the end. |
| `Canonical.Round12Zero` | src/research_commander/canonical.py:20-23 | A zero stays the zero of its sign. |
| `Text.LessExactly` | src/research_commander/canonical.py:18-19 | The order keys are sorted in: the first differing code point decides, and a proper prefix comes first. |
| `Canonical.Round12Idempotent` | src/research_commander/canonical.py:20-23 | Rounding a rounded float changes nothing. |
| `Canonical.CanonicalIsCanonical` | src/research_commander/canonical.py:14-24 | Canonicalisation always yields sorted keys and rounded floats at every depth. |
| `Canonical.CanonicalIdempotent` | src/research_commander/canonical.py:14-24 | Canonicalising twice equals canonicalising once. |
| `Canonical.CanonicalEquality` | src/research_commander/canonical.py:14-24 | Two documents have one canonical value if and only if they are the same document up to key order and twelve-digit rounding. |
| `JsonLayout.EscapedExactly` | src/research_commander/canonical.py:27-35 | Every character stands for itself but the quote, the backslash and the control characters, which are written with their short escape or four lower-case hexadecimal digits. |
| `JsonLayout.Layout` | src/research_commander/canonical.py:27-35 | Every value is written without a blank outside its strings: words, arrays as their items and objects as their quoted keys and values, with one comma between any two. |
| `JsonLayout.IntLayout` | src/research_commander/canonical.py:27-35 | An integer is its sign and its digits without a leading zero. |
| `JsonLayout.FloatLayout` | src/research_commander/canonical.py:27-35 | A float of at most seventeen digits is written in fixed notation if and only if its value lies from 10^-4 up to below 10^16, otherwise in scientific notation with a sign and two digits of exponent at least; neither has a superfluous zero. |
| `JsonGrammar.LoadsExactly` | src/research_commander/io.py:15-22 | A text loads as a value if and only if, blanks around it aside, it spells that value by the grammar of JSON (RFC 8259) with `NaN` and the infinities: every escape and surrogate pair, every form of number, blanks anywhere between tokens. |
| `JsonGrammar.PairsKept` | src/research_commander/io.py:15-22 | Of members that repeat a key each key stays once, where it was first named, with the value it was given last. |
| `JsonRoundTrip.ValueBack` | src/research_commander/canonical.py:27-35 | The parser undoes the compact printer on every printable value, whatever delimiter follows it. |
| `JsonRoundTrip.StoreLoad` | src/research_commander/io.py:15-40 | Parsing the stored text of a document gives its canonical value. |
| `JsonRoundTrip.StoreLoadRehash` | src/research_commander/io.py:15-40 | Writing, loading and printing again gives the same text, so the hash is unchanged. |
| `JsonRoundTrip.CanonicalTextEquality` | src/research_commander/canonical.py:27-43 | Canonical texts are equal if and only if the documents are the same up to key order and rounding: the hash input is injective up to that. |
| `Store.Directory.WriteJsonExclusive` | src/research_commander/io.py:25-40 | A file is created at most once with the canonical text and a newline; a taken path, a non-finite number or a failing write leaves every file as it was. |
| `Store.Directory.LoadJsonObject` | src/research_commander/io.py:15-22 | A missing file or one without an object is refused; a file this host wrote for a finite object loads as that object's canonical form, the same document. |
| `Store.WrittenIsLoaded` | src/research_commander/io.py:15-40 | What is loaded from a written file is the canonical form of what was written, is the same document, and has the same hash input. |
| `SchemaWalk.ExpandNode` | src/research_commander/schema_store.py:165-230 | The recursive walk (list comprehension, sentinels, reference inlining, narrowed maps) returns the value of the expansion function, errors included. |
| `SchemaWalk.ExpandGeneric` | src/research_commander/schema_store.py:219-249 | The member loop, the type inference and the closing of objects return the value of the expansion function, the first error included. |
| `SchemaSoundness.CompilationNarrows` | src/research_commander/schema_store.py:165-249 | Main refinement: whatever the compiled schema of any covered node accepts, the authoritative node accepts once the host values replace the placeholders. |
| `SchemaExact.CompiledExactly` | src/research_commander/schema_store.py:165-249 | The other direction: the compiled schema of any covered node accepts a document if and only if the authoritative node asks for it, under a reference semantics of what is asked: placeholders where the host fills in, exactly the described names on closed objects, and every other keyword as it stands. |
| `SchemaSuccess.CompilesExactly` | src/research_commander/schema_store.py:165-249 | The walk over a covered node returns a schema if and only if every reference resolves within the depth, no unsupported keyword occurs, every object node describes properties and every subschema is one too; written as a recursion of its own. |
| `SchemaSuccess.LocalInlined` | src/research_commander/schema_store.py:194-203 | A local reference is replaced by what the definitions of its own file say under that name, read in that file, and refused where they say nothing. |
| `SchemaSuccess.FileInlined` | src/research_commander/schema_store.py:204-209 | Any other reference is replaced by the whole schema file of that name, read in itself. |
| `SchemaExact.TypeInferred` | src/research_commander/schema_store.py:235-242 | A node without a type gets exactly the one that its constant, or else its non-empty uniform enumeration, implies, and no other change; otherwise it stays as it is. |
| `SchemaDemands.CapacityAccepts` | src/research_commander/schema_store.py:132-138 | What the walk makes of a schema at a path ending in `estimated_capacity` accepts exactly the objects with one number named `usd` and nothing else. |
| `SchemaDemands.TurnoverAccepts` | src/research_commander/schema_store.py:139-145 | At `estimated_turnover`: exactly the objects with one number named `one_way_daily`. |
| `SchemaDemands.EffectAccepts` | src/research_commander/schema_store.py:121-131 | At `minimum_economic_effect`: exactly the objects with a metric and a comparison as text and a threshold as number. |
| `SchemaDemands.CostsAccept` | src/research_commander/schema_store.py:98-116 | At `estimated_cost_sensitivity`: exactly the objects with one number for each of the three cost stresses. |
| `SchemaSoundness.ClosedNarrows` | src/research_commander/schema_store.py:241-248 | Closing an object leaves nothing to the authoritative `additionalProperties`. |
| `SchemaSoundness.RequiredNarrows` | src/research_commander/schema_store.py:241-248 | Requiring every described property implies the authoritative `required`. |
| `SchemaWalk.StructuredOutputNarrows` | src/research_commander/schema_store.py:252-269 | The schema handed to the model accepts only documents the authoritative schema accepts after filling, given array uniqueness. |
| `SchemaSuccess.StructuredOutputExactly` | src/research_commander/schema_store.py:252-269 | A schema is handed out if and only if the name is approved, the walk succeeds and the root is a typed object without `anyOf`; it accepts a document if and only if the authoritative file asks for it. |
| `SchemaExample.DecisionSupported` | schemas/research-decision-v2.schema.json:1-525 | The premise of the refinement holds of a cut of the decision schema with both placeholders, the optional proposal behind a reference and an open map, for all host values and every reading of the other keywords. |
| `SchemaWalk.StructuredOutputStrict` | src/research_commander/schema_store.py:252-269 | The schema handed to the model is strict everywhere, has a closed object root without `anyOf`, and is a fixed point of the compiler. |
| `SchemaNormalForm.CompiledStrict` | src/research_commander/schema_store.py:165-249 | No compiled node holds `$ref`, `$defs`, `$id`, `$schema`, `uniqueItems` or an unsupported keyword; constants are typed; every object node is closed with `required` equal to its property names. |
| `SchemaNormalForm.CompilingTwice` | src/research_commander/schema_store.py:165-249 | Compiling a compiled schema, against any definitions, returns it unchanged. |
| `SchemaCycles.RecursionExactly` | src/research_commander/schema_store.py:190-213 | The walk runs into the recursion limit at every depth if and only if it reaches a cycle of references, and the number of definitions times path contexts is a depth that decides it. |
| `SchemaCycles.CycleStops` | src/research_commander/schema_store.py:190-213 | A reachable cycle of references ends every walk at the recursion limit, however deep the stack. |
| `SchemaCycles.ExpansionTerminates` | src/research_commander/schema_store.py:190-213 | With the definitions of the files at hand ranked acyclically the walk ends within the rank; the recursion limit is never met. |
| `SchemaCycles.RankedExample` | src/research_commander/schema_store.py:190-213 | A concrete file whose definitions are ranked. |
| `SchemaCycles.SelfReference` | src/research_commander/schema_store.py:190-213 | Concrete failure: a definition that refers to itself meets the limit at every depth. |
| `SchemaRefinement.WalkedMapKeeps` | src/research_commander/schema_store.py:226-249 | A map of schemas that is walked like a node keeps exactly its undropped names, in order and each with its own expansion, if and only if a property named `const` has one named `type` beside it. |
| `SchemaSoundness.PlaceholderExactly` | src/research_commander/schema_store.py:183-188 | A planted placeholder ends accepted if and only if the host fills the field acceptably, or fills in nothing and the authoritative schema accepts the placeholder itself. |
| `SchemaSoundness.OneOfExactly` | src/research_commander/schema_store.py:170-178 | Where a compiled `oneOf` accepts by one branch, the authoritative one accepts the filled document if and only if no other authoritative branch does; `ToldApartOnce` gives the check on the schema. |
| `SchemaSoundness.ToldApartOnce` | src/research_commander/schema_store.py:170-178 | No document is accepted by two branches that require one property with a different constant in each; the main refinement therefore covers `oneOf` with such branches. |
| `SchemaLimits.RequiredExactly` | src/research_commander/schema_store.py:241-248 | On a closed node the authoritative `required` holds of an accepted object if and only if every listed name is a described property. |
| `SchemaLimits.ReservedNameEscapes` | src/research_commander/schema_store.py:226-235 | Concrete failure: a property named like a dropped keyword vanishes, and the compiled schema accepts what the authoritative one refuses. |
| `SchemaLimits.NestedPlaceholderStays` | src/research_commander/schema_store.py:183-188 | Concrete failure: a placeholder planted below the top level is never replaced and the filled document is refused. |
| `SchemaLimits.OneOfWidens` | src/research_commander/schema_store.py:212-217 | Concrete failure: narrowing the branches of `oneOf` lets a document through that the authoritative schema refuses. |
| `Sealing.FinalizeCommanderOutput` | src/research_commander/binding.py:679-712 | What is returned verifies: the proposal carries the hash of the text of its other fields, the other checks accept, the receipt is before expiry and `created_at` within the window. A sealed document is returned unchanged or refused; an unsealed one gets the instant of receipt, keeps every other field and is refused exactly when a placeholder is missing, a field cannot be hashed, the other checks refuse it or the receipt is outside the window. |
| `Sealing.ReturnedBearsHashes` | src/research_commander/binding.py:679-712 | Whatever finalisation returns bears two right hashes: `output_hash` that of the canonical text of its other fields with rendered timestamps, and an object proposal `proposal_hash` that of the canonical text of its own other fields. |
| `Sealing.SealedHolds` | src/research_commander/binding.py:691-712 | Sealing computes nested proposal and output hashes that its own verification accepts, stamps the given instant and changes no other field. |
| `Sealing.FinalizeSealsOnce` | src/research_commander/binding.py:679-712 | Finalisation succeeds exactly when the fields hash, the other checks accept and the receipt lies in the window; finalising the result again before expiry returns it unchanged. |
| `Sealing.HashBindsDecision` | src/research_commander/binding.py:105-115 | Two verified decisions with one output hash agree on every other field up to key order and rounding, for an injective hash; on timestamps their renderings are equal, and so are the instants where renderings read back. |
| `Sealing.HashBindsProposal` | src/research_commander/binding.py:523-527 | Two returned decisions whose proposals bear one `proposal_hash` have proposals that agree on every other field up to key order and rounding, for an injective hash. |
| `SealedSchema.SealingFills` | src/research_commander/binding.py:691-712 | Sealing a decision with placeholders equals filling in the host values of the schema refinement. |
| `SealedSchema.SealedDecisionConforms` | src/research_commander/schema_store.py:252-269 | End to end: a decision the compiled schema accepts is, once sealed, accepted by the authoritative schema. |
| `ActionPlan.CheckActionPlan` | src/research_commander/binding.py:252-310 | The accumulator loop accepts if and only if the actions are well formed, distinct, ordered by descending score then name, and the funded count and budgets fit all limits. |
| `ActionPlan.RankingUnique` | src/research_commander/binding.py:282-287 | A given collection of actions has only one accepted ranking. |
| `ActionPlan.CollectPermitted` | src/research_commander/binding.py:328-342 | The loop collects exactly the names of the funded actions. |
| `ActionPlan.SomethingIsPermitted` | src/research_commander/binding.py:288-310 | An accepted plan funds at least one action, so the permitted set is never empty, and it never exceeds the action limit. |
| `PatchPrinter.DeterministicPatch` | src/research_commander/candidate.py:57-92 | The loop over all paths of both trees prints exactly the sections of the paths whose line lists differ, in order, and replaces two-character line ends in the result; `PatchText.PatchPrinted` says what is in a section. |
| `PatchText.PatchPrinted` | src/research_commander/candidate.py:60-95 | The whole text: one section for each differing path in ascending order; that of a new file has its header, `/dev/null` against the path, a hunk line whose count is the number of lines that follow (none is written for one), and every line of the file behind a plus sign. |
| `Lines.ReadTextEnd` | src/research_commander/candidate.py:73-77 | Each of the three line ends, newline, lone return and pair, is read as one newline wherever it stands. |
| `Lines.UnixPair` | src/research_commander/candidate.py:95 | The replacement turns every two-character line end into a line feed wherever it stands. |
| `Lines.BreaksExactly` | src/research_commander/candidate.py:73-77 | Between two letters exactly nine characters besides the carriage return end a line: newline, vertical tab, form feed, the three separators, next line, and the line and paragraph separators. |
| `PatchPolicy.SectionStarts` | src/research_commander/patch_policy.py:255-263 | The comprehension finds exactly the lines that begin a section. |
| `PatchPolicy.ReadChangedPathsV2` | src/research_commander/patch_policy.py:239-320 | The section loop returns the value of the parser specification on every text, with every refusal. |
| `PatchPolicy.ReadSections` | src/research_commander/patch_policy.py:265-320 | The loop over the section starts accepts exactly what cutting the lines section by section accepts. |
| `PatchGrammar.AcceptedExactly` | src/research_commander/patch_policy.py:239-320 | On every text, printed or not: accepted if and only if there is no NUL and no binary marker and the lines are, after empty ones, sections of new files, each a header that names one path twice, metadata lines, the two file lines, a hunk line and a body, no path twice; the result is the sorted paths. The searches for forbidden metadata and symbolic links decide nothing besides. |
| `PatchGrammar.SectionExactly` | src/research_commander/patch_policy.py:265-319 | A section is taken for that of a new file on a path if and only if it is written like one, part by part. |
| `PatchGrammar.MetadataExactly` | src/research_commander/patch_policy.py:136-139 | A metadata line is a file mode of six octal digits that is not that of a symbolic link, or an index line from zeros to hexadecimal digits with an optional mode. |
| `PatchGrammar.HunkExactly` | src/research_commander/patch_policy.py:133-135 | A hunk line is a range of the new file alone, a number without leading zero, an optional count and an optional heading. |
| `PatchNames.NamesPathExactly` | src/research_commander/patch_policy.py:223-236 | A text names a path if and only if the path is what stays of it with one kind of separator and without the spaces around it, and has no empty part, no part of dots, no drive and no NUL. |
| `PatchAcceptance.HeaderPathsBack` | src/research_commander/patch_policy.py:126-128 | A printed header gives its path back exactly when the path is non-empty and free of blanks. |
| `PatchBreaks.BrokenHeaderRefused` | src/research_commander/patch_policy.py:239-320 | Whatever stands before and behind it, a printed header whose path holds a line end of any kind makes the second parser refuse. |
| `PatchBreaks.AcceptedLegal` | src/research_commander/patch_policy.py:265-320 | Every non-empty line of an accepted text is a readable header, metadata, an added line, a hunk line or an old-file line, and an old-file line stands right below a header or metadata. |
| `PatchTheorems.PrintedPatchAcceptance` | src/research_commander/patch_policy.py:239-320 | Printed patch against parser for all pairs of trees, both directions: accepted if and only if the trees differ, every differing path is new and safe (free of blanks and line ends), every file but the last ends in a line end and the text is free of NUL and binary markers; the result is then the sorted list of differing paths. |
| `PatchTheorems.AcceptedPatchRebuildsCandidate` | src/research_commander/candidate.py:64-92 | For all pairs of trees, replaying the added lines of an accepted patch over the base gives every line list of the candidate; no base path is touched. |
| `PatchLegacy.ReadChangedPathsV1` | src/research_commander/patch_policy.py:157-168 | The line loop returns the set of all header paths, or refuses. |
| `PatchNames.LegacyNameExactly` | src/research_commander/patch_policy.py:142-150 | A text names a path for the first parser if and only if it is relative, has no climbing part and no NUL, and has a part that is neither empty nor a dot; the path has just those parts. |
| `PatchHeaders.HeaderTaken` | src/research_commander/patch_policy.py:124-162 | The greedy groups take a printed header for its path twice, or, where the path holds the separator, for a longer path and for one without a separator. |
| `PatchLegacy.LegacyReports` | src/research_commander/patch_policy.py:157-168 | The first parser never reports a path with a line end; without such paths, and without the separator ` b/` in one, it reports the differing ones whose section does not follow an unended line. It reports exactly the differing paths if and only if none has a line end, none holds the separator and every section but the last is closed. |
| `PatchLegacy.LegacyMissesAChange` | src/research_commander/patch_policy.py:157-168 | Concrete failure: with an unended first file the second changed path is not reported. |
| `PatchLegacy.LegacyMissesABrokenName` | src/research_commander/patch_policy.py:157-168 | Concrete failure: a changed file with U+2028 in its name is not reported although every section is closed. |
| `PatchLegacy.LegacyMissesASeparator` | src/research_commander/patch_policy.py:124 | Failure for every path that holds the separator ` b/`: if it alone differs, the patch is refused or other paths are reported in its place. |
| `Scope.ScopeWithinSound` | src/research_commander/binding.py:76-81 | Against a star-only allowed pattern with a leading literal the prefix test implies language inclusion for every proposed glob, question marks and classes included, if and only if the pattern is that literal followed only by stars. |
| `Scope.ScopeWithinComplete` | src/research_commander/binding.py:76-81 | The test refuses no scope it should take: a glob without classes that is included in the allowed pattern is within it, and every pattern is within itself. |
| `Scope.ScopeWithinExactly` | src/research_commander/binding.py:76-81 | Against such a pattern, for globs without classes, the prefix test is language inclusion, both directions. |
| `Globs.StarSplits` | src/research_commander/binding.py:77 | A star stands for any text, separators included: the pattern behind it matches what is left of the path somewhere. |
| `Globs.OneMatches` | src/research_commander/binding.py:77 | A question mark stands for one character, any other that opens nothing for itself. |
| `Globs.ClassMatches` | src/research_commander/binding.py:77 | A bracketed class takes one character as its text says, closing bracket in first place and exclamation mark included, and the pattern goes on behind it. |
| `Globs.OpenBracketMatches` | src/research_commander/binding.py:77 | An opening bracket that nothing closes is an ordinary character. |
| `Scope.StarScopeWithinSound` | src/research_commander/binding.py:76-81 | Among star-only patterns the same holds, and allowed patterns without a leading literal are right too. |
| `Scope.ScopesOverlapSound` | src/research_commander/binding.py:84-85 | The overlap test keeps every literally anchored star-only scope disjoint from a star-only forbidden pattern if and only if that pattern has a leading literal or is only stars. |
| `Scope.AnyScopesOverlapSound` | src/research_commander/binding.py:84-85 | The overlap test keeps every glob disjoint from a star-only forbidden pattern if and only if that pattern has no star or nothing but stars. |
| `Scope.DisguisedScope` | src/research_commander/binding.py:586-609 | Concrete failure: a scope with a question mark in the place of a separator is accepted and matches a path of the forbidden directory. |
| `Scope.ScopeBridge` | src/research_commander/binding.py:586-609 | A path matching an accepted proposal scope matches an allowed pattern and, where each pair is star-only and anchored or the forbidden pattern is closed, no forbidden one. |
| `Scope.ValidateCandidatePatchV2` | src/research_commander/patch_policy.py:323-370 | The validator loop accepts exactly the readable patches all of whose paths pass the four pattern checks, in full glob syntax, and that hold an implementation and a test; its path lists are exact. |
| `Scope.AcceptedChangesStayInScope` | src/research_commander/patch_policy.py:340-349 | From any two trees to the request: if the proposal scopes and the printed patch are accepted, every changed path is new, inside the allowed scope and outside the forbidden one, under the pattern conditions of the bridge. |
| `OneShot.LaunchedOnce` | src/research_commander/sandbox.py:2309-2345 | In every interleaving of executors, adopters, crashes and failing writes the child is launched at most once, at most one completion marker is finished, and a host holds an output of its own only after the launch. |
| `OneShot.StepOnce` | src/research_commander/sandbox.py:2309-2430 | Every step keeps the ownership invariant of the three exclusively created files. |
| `OneShot.StepHandover` | src/research_commander/sandbox.py:2528-2609 | Every step keeps the hand-over invariant between executor and adopters while adopters wait and no publication fails late. |
| `OneShot.AgreementExactly` | src/research_commander/sandbox.py:2511-2609 | Published output and completion marker agree in every run if and only if the output is fixed, or adopters wait for the executor to be gone and no publication fails once readable; late failures of the markers do not matter. |
| `OneShot.ImpatientRun` | src/research_commander/sandbox.py:2550-2591 | Concrete run: an adopter beside a live executor publishes one output while the marker seals another. |
| `OneShot.LateFailureRun` | src/research_commander/io.py:33-40 | Concrete run: a publication whose sync fails after the bytes were readable lets marker and output disagree. |
| `OneShotLoss.StrandedForever` | src/research_commander/cli.py:202-215 | An invocation that cannot be published by the condition below is never published, whatever the hosts do. |
| `OneShotLoss.PublishableExactly` | src/research_commander/sandbox.py:2300-2609 | Some continuation publishes the output if and only if the published file is readable or has a live writer, or is absent and a live host carries an output past the marker, or the marker is absent or can still fail and a live host can reach it. |
| `OneShotLoss.LosingRuns` | src/research_commander/sandbox.py:2339-2430 | Four runs from the start, each with one crash, after which nothing can be published: a torn start marker, a torn completion marker, a finished marker without publication, a torn publication. |
| `EpochLog.StepOrderly` | src/research_commander/sandbox.py:1342-1476 | While no revocation's write fails every step, failing plans and stagings early and late included, keeps the epochs numbered 1 to n, all before n revoked, what is revoked once readable, and no two hosts on one epoch. |
| `EpochLog.LogIsChain` | src/research_commander/sandbox.py:1145-1162 | While no revocation's write fails, and no staged event's once it can be read, every reachable log has epochs exactly 1 to n, all before n planned, staged and revoked, and only n can be active. |
| `EpochLog.ChainExactly` | src/research_commander/sandbox.py:1145-1162 | The log is a chain in every run if and only if neither a staged event can fail once it can be read nor a revocation can fail; failing plans, and staged events that fail before, are harmless. |
| `EpochLog.OneActiveExactly` | src/research_commander/sandbox.py:1479-1489 | Two epochs are never active at once if and only if no write of a revocation event can fail after the file was created, whatever else may fail. |
| `EpochLog.FailedRevocationRun` | src/research_commander/sandbox.py:1342-1358 | Concrete run: a stager reads a revocation whose write then fails, and two epochs become active. |
| `EpochLog.LateStagedRun` | src/research_commander/sandbox.py:1505-1516 | Concrete run: a staged event is read and revoked before its sync fails and unlinks it; the log is malformed for good while the next epoch is active. |
| `EpochLog.MalformedFreezesLog` | src/research_commander/sandbox.py:1479-1489 | A revoked epoch without its staged event, past which no host is, freezes plans, stagings and revocations for ever. |
| `EpochLog.ActiveForGood` | src/research_commander/sandbox.py:1479-1489 | From that run on the second epoch stays active whatever the hosts do, a waiting revoker included. |
| `EpochLog.AbandonedPlanBlocks` | src/research_commander/sandbox.py:1350-1367 | A reserved epoch without a plan, or a last epoch whose staged event was never readable, with no host left on it keeps plans and stagings unchanged for ever. |
| `EpochLog.AbandonedRuns` | src/research_commander/sandbox.py:1366-1401 | Two runs from the start reach such logs: a crash right after the directory is made, and one right after the plan is created. |
| `EpochStaging.StageableExactly` | src/research_commander/sandbox.py:1342-1476 | From an orderly log some run stages a further epoch if and only if a live host is building, or the next directory is free, a live stager can still reach it, and the last epoch is revoked or is staged, readable or being written, with a live host that can revoke it. |
| `EpochLog.OverflowFreezesLog` | src/research_commander/sandbox.py:1145-1153 | From the ten-thousandth epoch on the listing fails for good, and an active epoch stays active. |
| `Sddl.CanonicalDaclEqual` | src/research_commander/sandbox.py:1219-1229 | Canonical forms are equal if and only if the entries agree as multisets and the protection flags agree; order and inheritance flags do not matter. |
| `Sddl.NewAclEntriesAreInheritedOnly` | src/research_commander/sandbox.py:1192-1216 | The test passes if and only if every baseline path has its baseline list and every other path only inherited entries of baseline trustees. |
| `Sddl.NewPathIsInherited` | src/research_commander/sandbox.py:1208-1215 | The inner loop accepts exactly the entry lists of inherited entries whose trustee the baseline knows. |
| `Sddl.CollectTrustees` | src/research_commander/sandbox.py:1196-1201 | The collecting loop gathers exactly the trustees of the baseline. |
| `Sddl.ReadSnapshot` | src/research_commander/sandbox.py:1165-1189 | A snapshot is read if and only if it is a non-empty list of pairs of safe, distinct paths and lists, and then each path has its own list. |
| `Sddl.SafeEntryExactly` | src/research_commander/sandbox.py:1177-1183 | An entry is safe if and only if its path is relative, names no drive, holds no two dots alone between separators of either kind, and its list begins as a discretionary one. |
| `AclRevocation.RevocationIsNetZero` | src/research_commander/sandbox.py:1532-1586 | From any tree state, reset and restore give every surviving baseline path its baseline list and every other path only inherited entries of baseline trustees. |
| `AclRevocation.NewPathsInherit` | src/research_commander/sandbox.py:1532-1586 | A path the baseline does not hold ends unprotected with exactly what the final list of its parent passes on. |
| `AclRevocation.AncestorRestoredExactly` | src/research_commander/sandbox.py:1559-1574 | Grant and removal restore an ancestor if and only if it held no explicit sandbox grant before; afterwards it holds none. |
| `AclRevocation.RemovesGrantsOnly` | src/research_commander/sandbox.py:1559-1574 | The removal takes away every explicit grant of the principal and nothing else: all other entries stay, in order. |
| `AclCheck.RevokedTreePasses` | src/research_commander/sandbox.py:1587-1624 | The saved text of a revoked tree passes the test that lets the closing event be written, whatever inheritance flags are reported. |
| `AclCheck.TestExactly` | src/research_commander/sandbox.py:1192-1229 | On any two saved trees the test passes if and only if every baseline path still there has its baseline protection and entries in some order, and every other path only entries marked inherited whose trustee, case aside, some baseline list names. |
| `AclRerun.RerunExactly` | src/research_commander/sandbox.py:1588-1624 | After any interruptions, torn commands and torn saves included, letting the revocation run gives the undisturbed result if and only if the verification file that was left is absent or readable as a snapshot, in a tree whose names can be saved. |
| `AclRerun.ClosesExactly` | src/research_commander/sandbox.py:1532-1624 | An attempt that is let run restores lists and ancestors, and closes the epoch if and only if it may replace the verification file it finds and no two paths of the tree have one case-folded name. |
| `AclRerun.ClosedIsClean` | src/research_commander/sandbox.py:1606-1624 | Over any interrupted attempts the epoch is recorded as revoked only when every baseline path has its list, every other path only inherited entries of baseline trustees, no ancestor an explicit sandbox grant, and the saved lines, read back, pass the test against the sealed baseline. |
| `AclRerun.BlockedForever` | src/research_commander/sandbox.py:1588-1598 | An unreadable verification file stops every later attempt and is never removed. |
| `AclRerun.CutSaveBlocks` | src/research_commander/sandbox.py:1599-1605 | Concrete failure: a save cut off before its first line or between a path and its list leaves an epoch that is never closed. |
| `AclRerun.FoldedNamesBlock` | src/research_commander/sandbox.py:1165-1189 | Failure: two paths of the tree with one case-folded name leave an epoch that no attempt ever closes. |
| `DecisionCache.StepFits` | src/research_commander/candidate_execution.py:517-618 | Every step of every call keeps the invariant that an identity has one directory owner, one launch and one document. |
| `DecisionCache.OneDecisionPerKey` | src/research_commander/candidate_execution.py:517-618 | At most one process per identity, exactly one where a call returned, and two returned calls have the same document if and only if they have the same request, security contract and lane. |
| `DecisionCache.LaterCallAnswers` | src/research_commander/candidate_execution.py:531-539 | After a call of a key returned, the next step of a starting call of that key launches nothing and returns the same document, or raises if and only if a write of that result failed after its bytes were readable. |
| `DecisionCache.ReadableAnswers` | src/research_commander/candidate_execution.py:531-539 | Wherever a result is readable, the next step of a starting call of its key returns it and launches nothing. |
| `DecisionCache.SpoiledForever` | src/research_commander/candidate_execution.py:537-549 | A key whose first attempt ended without a readable result never succeeds again. |
| `DecisionReach.CanReturnExactly` | src/research_commander/candidate_execution.py:531-618 | In every reachable state a starting call can be answered by some continuation if and only if the first attempt at its key is not over without a readable result. |
| `DecisionReach.LostAnswer` | src/research_commander/io.py:33-40 | Concrete run: one call answers from a result whose sync then fails; the file is unlinked and the next call raises. |
| `Publication.OutputDirectory.PublishOutcome` | src/research_commander/artifact_bundle.py:240-305 | Both publishing loops leave exactly the specified files and status, wherever the writer stops. |
| `Publication.CompletedHolds` | src/research_commander/artifact_bundle.py:240-305 | An attempt that completes leaves every artifact under its own name, and a failed outcome no bundle and no validation request. |
| `Publication.WrittenInOrder` | src/research_commander/artifact_bundle.py:245-252 | Wherever the writer stops, what it added stands behind the whole of what comes before it, the bundle behind the request and the test manifest last. |
| `Publication.PublishedBytesStay` | src/research_commander/artifact_bundle.py:256-262 | Over any sequence of attempts no published file changes. |
| `Publication.NothingExecutableFailed` | src/research_commander/artifact_bundle.py:274-283 | Over any sequence of attempts of either outcome no bundle or validation request stands beside a failed test manifest, for a collision-free hash. |
| `Publication.RetryCompletesTheSame` | src/research_commander/artifact_bundle.py:240-305 | An attempt completes if and only if what is there agrees with it and nothing executable forbids it; a retry after a stop between files completes in the same cases with the same directory. |
| `Publication.TornFileBlocks` | src/research_commander/artifact_bundle.py:256-262 | A torn file makes every later attempt at that outcome conflict. |
| `TreeChain.RunChained` | src/research_commander/candidate_testing.py:407-441 | Over every run of calls that are not disturbed between check and load, marker, test manifests, bundle and decisions are about one tree. |
| `TreeChain.DecisionsBoundExactly` | src/research_commander/candidate_execution.py:491-564 | Per run: a returned decision is bound to the tree of marker, test manifest and bundle if and only if nobody altered the tree between the marker check and the load of the call that wrote the bundle; that tree also ran if and only if, besides, the call that recorded its test manifest and the call that returned the decision each executed the sources they had hashed before. |
| `TreeChain.SteadyRun` | src/research_commander/candidate_testing.py:407-441 | Where nobody alters the tree the first test decides: its manifest is the only one, and the bundle stands if and only if the first test passed and the candidate was finalised behind it. |
| `TreeChain.SteadyDecides` | src/research_commander/candidate_execution.py:491-564 | In such runs every request from then on is answered by that tree, and none before. |
| `TreeChain.SwappedTree` | src/research_commander/sandbox.py:1650-1669 | Concrete run: alterations inside two calls give a decision on a tree the marker never saw. |
| `TreeChain.UndoneSwap` | src/research_commander/candidate_execution.py:543-590 | Concrete run: an alteration around the copy of the sources, undone before the last hash, runs another tree although every hash agrees. |
| `ObjectStream.ScanStream` | src/research_commander/public_scan.py:369-388 | The offset loop returns the specified objects and error flag on arbitrary bytes, negative sizes and offsets included. |
| `ObjectStream.HeaderBack` | src/research_commander/public_scan.py:371-383 | A header at an offset is read as written, whatever bytes follow. |
| `ObjectStream.ScanRecoversStream` | src/research_commander/public_scan.py:369-388 | On any stream of records in the requested order every content is recovered exactly, newlines and fake headers included, without an error. |
| `ObjectStream.TruncationExactly` | src/research_commander/public_scan.py:369-388 | For every cut of a stream the scan reports no error if and only if the cut comes after the last header line; it then returns all contents with the last one shortened, and they are complete if and only if the cut comes after the last content. |
| `ObjectStream.OddHeaderStops` | src/research_commander/public_scan.py:370-383 | After any records, a line that does not announce the expected object in three words with a readable size stops the scan with an error and the objects so far; one that does is taken. |
| `ObjectStream.SliceFromEnd` | src/research_commander/public_scan.py:374-384 | Slice bounds from the front and from the end cut out the same bytes. |
| `ObjectStream.SliceClamped` | src/research_commander/public_scan.py:374-384 | Bounds beyond either end are that end, and a bound before its start cuts nothing. |
| `Exposure.CheckExposure` | src/research_commander/candidate_execution.py:225-264 | The check accepts if and only if the symbols agree in order, every weight is capped and the rounded sum meets both limits. |
| `Exposure.GrossBound` | src/research_commander/candidate_execution.py:241-260 | The accumulated float sum falls short of the exact sum by at most one rounding unit per target. |
| `Exposure.GrossCeiling` | src/research_commander/candidate_execution.py:241-260 | It exceeds the exact sum by at most one rounding unit per target. |
| `Exposure.InsideAccepted` | src/research_commander/candidate_execution.py:225-264 | A response with the requested symbols in order, every weight capped and the exact sum inside both limits by those units is accepted. |
| `Exposure.AcceptedTargets` | src/research_commander/candidate_execution.py:225-259 | An accepted response lists the requested symbols in order, each weight within its cap up to one rounding. |
| `Exposure.AcceptedExposure` | src/research_commander/candidate_execution.py:261-264 | For fewer than 2^53 targets the exact sum of an accepted response is at most the gross limit with its rounding, and at most what the cash limit leaves with the rounding of both sides, each divided by one minus a unit per target: bounds in the number of targets and the limits alone. |

## Left out

- Process launching, timeouts, job objects, the Windows sandbox itself and its command lines: the
  child is a step that may fail.
- SHA-256: an injective function. `hash_tree`, `hash_file` and the challenger manifest are not modelled
  beyond the binding of the manifest to its test manifest in `Publication`.
- Alignment of changed files by `difflib`: an arbitrary function; the sections of new files are exact.
- Scope.ScopeWithinSound: covers allowed patterns without question marks and brackets, as the other members of
  `Scope` do for allowed and forbidden patterns; proposed scopes are arbitrary globs.
- PatchLegacy.LegacyReports: takes the differing paths without line ends to be in the normal form of the first
  parser, as the host lists them where a backslash is no part of a name.
- `select_candidate_patch_policy_version`, the path checks of the first policy and the secondary
  actions, universe and evidence checks of a proposal: one-line consequences of their bodies.
- SchemaSoundness.CompilationNarrows: is stated for schemas whose `oneOf` branches are told apart by a constant
  property, and without `patternProperties`, `prefixItems`, `contains`, `propertyNames` and the `unevaluated`
  and dynamic keywords, with property names that are not dropped or unsupported keywords and `required`
  within the described properties; `SchemaLimits` and the exact conditions above show why. Keyword
  assertions without subschemas are one uninterpreted relation on shape and value.
- Escapes in reference names (`~0`, `~1`, percent signs), and references that are neither local nor a schema file.
- Lone surrogate escapes and the shortest digits of subnormal floats: a finite float is the decimal
  number its shortest text denotes.
- Which characters count as word characters at a word boundary: a parameter of the second parser.
- The three host functions of the invocation protocol as methods on a file system: `OneShot` and
  `EpochLog` model them as steps between reads and writes, since what matters is their interleaving.
- AclRerun.ClosesExactly: takes no path of the tree to have the case-folded name of another path of the baseline.
- AclRerun.RerunExactly: a tree command that is cut off leaves arbitrary lists on the same paths; files created or
  deleted between attempts, and the plan and staged events checked before, are not modelled.
- AclRevocation.RevocationIsNetZero: idealises Windows inheritance to the assumption above, and leaves out
  reparse points, owners and the temporary grants to the host principal; it starts from an arbitrary
  tree, so those need no step of their own.
- Collision of a resumed candidate test run with an orphaned runtime directory, and the order of
  precedence among failing test statuses.
- Secret patterns, commit metadata and path redaction of the public scan: pattern lists.
- Scores that are not finite numbers in an action plan, and underflow or overflow in the exposure sum.
- Wall clocks: every instant is a parameter. Where the documentation speaks of a primary action
  identifier, the code compares the action kind; the model follows the code.
