# Reverb: verified core

A Dafny model of the parts of Reverb that must agree with a slower, simpler
computation: incremental extraction, reuse, replay, budgets, identities, joins
and scanners. Its loops over mutable variables are methods with invariants, its
objects with mutable state are classes, and each is proved against a function
or a relation whose own properties are the results below.

| files | what they model |
|---|---|
| `EventParsing`, `EventReadings`, `PayloadSchemas`, `SchemaReadings` | reading event manifests and literal calls, and payload schemas under an item budget |
| `EventExtraction`, `EventEmissions` | the extraction of event contracts, and what each binding gives |
| `EventPersistence`, `EventPartitions`, `EventRuns` | the field checks on stored documents, the partition engine that updates them from a change list, and chains of its updates |
| `Invalidation` | the planner of invalidated partitions |
| `MigrationSchema`, `MigrationReplay`, `MigrationCatalog`, `StrictDdl`, `StringKeys` | the migration replay on three flat string-keyed maps, the nested schema it stands for, a total catalog that remembers who wrote each entry, and a database that accepts no absent object and no occupied name |
| `Artifacts`, `IndexGenerations`, `IndexReuse` | classification of tree entries, indexing with a previous generation and a content cache, and what reuse spares |
| `Changes`, `Overlays` | pull-request overlays and their materialised view |
| `ReExports`, `TypeScriptState`, `TypeScriptFacts` | resolution of re-exports, and the persisted state of a TypeScript package, as a whole and field by field |
| `ExecutionBudget`, `BudgetedReads`, `SourceBudget`, `Sums` | budget ledgers, and reads that reserve before and settle after an awaited call |
| `CanonicalJson`, `KeyOrder`, `PercentEncoding`, `ContractKeys` | canonical JSON over object graphs, and contract keys |
| `EvidenceJoin` | the join of changed contracts with definitions and references, and the findings |
| `AnalysisScope`, `AnalysisCoverage`, `CoverageRecords`, `AnalysisResults` | scope, coverage, and the final record with and without reasoning |
| `JsonPointers`, `Scanners`, `ScannerGrammar`, `SourceRanges` | OpenAPI references, SQL scanners and the texts they take apart, offsets and ranges |
| `Utf16`, `BoundedTexts`, `TextOrder` | strings as UTF-16 code units, trimming and length checks, the order of texts |
| `Outcomes`, `Sorting`, `KeyedLists` | shared notions |

An awaited call is split into a start step and a finish step, and results are
stated over all interleavings of such steps. A thrown error or a failed port
result is the value `Throws`, a refusal or `None`.

## What the model assumes

- SHA-256 is injective wherever an identity depends on it; the digest is a
  parameter. `localeCompare` is a total order given as a parameter. Unicode
  normalisation is a parameter: it leaves printable ASCII without blanks alone,
  makes no text out of blanks and removes no NUL.
- Strings are sequences of Unicode scalar values; lengths and the order of texts
  are those of their UTF-16 code units. Lone surrogates occur in identities only.
- Regular expressions, the YAML reader, the TypeScript parsers and the tables of
  path patterns are uninterpreted functions. The regions and accounts that the
  event patterns capture hold no NUL.
- Base and head of an update are parsed under the same configuration and
  context. A tree has one artifact or entry per path, and an entry's listed size
  is a function of its object.
- Names that are glued with NUL hold no NUL themselves; where this matters it is
  a precondition, and `MigrationReplay.NulInNamesConfusesTables` shows why.
- The clock is an elapsed time in milliseconds given with each step.
- Legacy findings reach the final record sorted by fingerprint
  (`packages/domain/src/finding.ts:205-207`), which is the condition of
  `AnalysisResults.RemovalFailsExactly`.

## Where the code does less than it is meant to

- Reuse ignores the parse state of a previous artifact, so a failure is carried
  along although the file could now be read, and the failed-file counter misses
  it: `IndexGenerations.ReuseIsExact`, `IndexGenerations.FailuresOutliveTheirCause`.
- An excluded file larger than the limit is never taken over from the previous
  generation, although nothing about it changed: `IndexReuse.UnchangedIsReusable`.
- Overlays of rename chains and swaps describe the right view, but the view
  refuses them as duplicates: `Overlays.EmittedPathsDiffer`,
  `Overlays.SwapsAreRefused`.
- A literal topic that is blank or holds a NUL is stored when no broker namespace
  is known for it, and so is a context namespace of more than 512 units whose
  normal form is shorter; the partition is refused when it is read back, from
  then on for every update: `EventPartitions.TreeIsReadBack`,
  `EventPartitions.BlankTopicIsRefused`.
- An event update reports a head whose documents all failed, or that has none,
  as partial: `EventPartitions.UpdateCoverageAgrees`,
  `EventPartitions.FailedHeadIsPartial`.
- An event update that misses a file reports it once and drops its documents; the
  next update may report complete coverage without them:
  `EventRuns.LastReport`, `EventRuns.MissedFilesAreForgotten`.
- Creating, adding or renaming onto an existing name is not reported as a
  limitation, and a table created again keeps its old columns:
  `StrictDdl.StrictAcceptsExactly`, `StrictDdl.RecreatedTablesKeepColumns`.
- A complete reasoning run with an exhausted budget makes the final record
  unacceptable instead of partial: `AnalysisResults.ReasonedEndsExactly`,
  `AnalysisResults.ExhaustedRunIsRefused`.
- Long table names leave a table without any column key:
  `ContractKeys.ColumnKeysFailExactly`, `ContractKeys.ThreeLongNames`.
- The run-level reader accepts negative byte bounds, which lend their size to
  concurrent reads: `SourceBudget.PassesExactly`,
  `SourceBudget.NegativeBoundsLendBytes`.

## Model

| member | source | states |
|---|---|---|
| `EventExtraction.EmitInTurn` | packages/adapter-events/src/adapter.ts:351-484 | One document emitted binding by binding equals the emission of the whole document, throwing exactly when a binding's identity is refused. |
| `EventExtraction.ResolveInTurn` | packages/adapter-events/src/adapter.ts:485-495 | The one-pass elimination keeps a definition exactly when it is the first for its key and every definition of that key has the same shape hash; the ambiguous keys are exactly those with two shapes. |
| `EventExtraction.ResolveIsExact` | packages/adapter-events/src/adapter.ts:485-495 | The same for the specification function, at every prefix of the list. |
| `EventExtraction.Materialize` | packages/adapter-events/src/adapter.ts:351-524 | The extraction loop over documents in path order computes the extraction function, errors included. |
| `EventExtraction.ExtractIgnoresOrder` | packages/adapter-events/src/adapter.ts:351-524 | The extraction is the same for every order in which documents with distinct paths arrive. |
| `EventExtraction.ExtractThrows` | packages/adapter-events/src/adapter.ts:351-524 | An extraction throws exactly when one of its documents does. |
| `EventEmissions.BindingIs` | packages/adapter-events/src/adapter.ts:362-484 | What one binding gives, field by field: a producer with a literal destination and namespace one definition, a consumer one reference, an incomplete binding a limitation, a warning and, for consumers, an unresolved reference with its pattern and reason; a payload schema its definition, reference or limitation; it throws exactly when an identity or a hash is refused. |
| `EventEmissions.DocumentIs` | packages/adapter-events/src/adapter.ts:351-484 | A parsed document gives what its bindings give, in their order; an incomplete or failed one its limitation and diagnostic. |
| `EventEmissions.DocumentByBindings` | packages/adapter-events/src/adapter.ts:362-484 | A definition, reference, limitation or diagnostic is among those of a document if and only if one of its bindings gives it. |
| `EventEmissions.ExtractIs` | packages/adapter-events/src/adapter.ts:351-524 | The extraction of documents in path order: its definitions are the first ones of the undisputed keys, its references and diagnostics all of them, coverage counts documents and lists every limitation and given-up key, and there is one stamp per document; it throws exactly for a refused document. |
| `EventEmissions.ExtractedByBindings` | packages/adapter-events/src/adapter.ts:351-524 | In terms of the bindings alone: a key has a definition if and only if some binding defines it and no two definitions of it disagree, and the references are exactly those that bindings give. |
| `EventEmissions.ExtractedInOrder` | packages/adapter-sdk/src/validation-v2.ts:290-330 | Definitions and references come by kind, key and path, limitations by code and scope. |
| `EventExtraction.CoverageIsAccepted` | packages/adapter-sdk/src/validation-v2.ts:142-185 | The coverage of every extraction passes the coverage validator, whatever the documents. |
| `EventPartitions.Decode` | packages/adapter-events/src/adapter.ts:1036-1045 | The decoding loop over persisted partitions computes the decoded documents or fails. |
| `EventPartitions.DecodedExactly` | packages/adapter-events/src/adapter.ts:780-798 | Persisted partitions are accepted exactly when every view has the key, the only path, no dependencies and the hash of its own accepted payload, and no key repeats; the result holds exactly their keys, each with its payload. |
| `EventPartitions.RemoveChanged` | packages/adapter-events/src/adapter.ts:1058-1068 | Walking the change list removes exactly the keys of changed and left paths and tombstones those that existed. |
| `EventPartitions.RemovedIs` | packages/adapter-events/src/adapter.ts:1058-1068 | A path is removed exactly when a change names it or moves away from it. |
| `EventPartitions.LastSuppliedWins` | packages/adapter-events/src/adapter.ts:1070-1080 | A key is supplied exactly when some artifact parses for it, and its document is that of the last one that does. |
| `EventPartitions.UpdateReports` | packages/adapter-events/src/adapter.ts:1081-1104 | Counts and limitations of an update are those of the extraction of what is left, followed by one limitation and one error for each missing file; it is complete exactly when that extraction and the plan are and nothing is missing. |
| `EventPartitions.SupplyArtifacts` | packages/adapter-events/src/adapter.ts:1070-1080 | Supplied artifacts put documents back, last one per path winning, clear their tombstones and each get a replacement partition; it throws exactly when a supplied document does. |
| `EventPartitions.UpdatePartitions` | packages/adapter-events/src/adapter.ts:1033-1105 | The whole update: corrupt base state gives the failure report, otherwise replacements, tombstones, coverage and diagnostics are those of the logical documents; the error cases, a payload without a hash included, are exact. |
| `EventPartitions.MaterializePartitions` | packages/adapter-events/src/adapter.ts:1107-1114 | Materialising persisted partitions extracts their payloads, and throws exactly on a corrupt or repeated partition or on a document whose identity is refused. |
| `EventPartitions.AppliedIsLogical` | packages/adapter-events/src/adapter.ts:1057-1084 | Base minus tombstones plus replacements is the map of logical documents, for any changes and artifacts. |
| `EventPartitions.LogicalIsHead` | packages/adapter-events/src/adapter.ts:1033-1084 | For an exact diff the logical documents are exactly the head tree's documents under their keys. |
| `EventPartitions.IncrementalIsScratch` | packages/adapter-events/src/adapter.ts:1033-1114 | Incremental equals from scratch: the applied partitions are the head's partitions, and materialising them in any order is extracting the head artifacts in any order; swapped renames included. |
| `EventRuns.StepIsHead` | packages/adapter-events/src/adapter.ts:1033-1081 | For an exact update with any expected artifacts missing, the logical documents are those of the head without the lost paths. |
| `EventRuns.LostIs` | packages/adapter-events/src/adapter.ts:1059-1081 | A path is lost if and only if some update missed it and none has removed or supplied it since. |
| `EventRuns.ExactDiffsLoseNothing` | packages/adapter-events/src/adapter.ts:1059-1081 | An update in which every touched file of the head is supplied loses nothing that the head holds. |
| `EventRuns.RunIsReadBack` | packages/adapter-events/src/adapter.ts:780-798 | No update of a stored chain is refused for its base if and only if no tree on the way holds a document that fails the stored field checks, lost paths aside. |
| `EventRuns.RunIsHead` | packages/adapter-events/src/adapter.ts:1033-1114 | After any chain of exact updates the stored partitions are those of the last tree without the lost paths, materialising them is extracting that tree without them, and they are those of the whole tree if and only if no lost path has a document there. |
| `EventRuns.LastReport` | packages/adapter-events/src/adapter.ts:1082-1104 | The last update reports the extraction of what is left, its own missing files and its plan, and nothing of earlier losses; when it says complete is exact. |
| `EventRuns.MissedFilesAreForgotten` | packages/adapter-events/src/adapter.ts:1081-1104 | A file missed by one update is gone from the store, and the next update reports complete coverage although the head holds it. |
| `EventPartitions.UpdateCoverageAgrees` | packages/adapter-events/src/adapter.ts:1080-1104 | The coverage an update reports equals the head extraction's coverage if and only if some document of the head parses and is not failed; diagnostics always agree. |
| `EventPartitions.FailedHeadIsPartial` | packages/adapter-events/src/adapter.ts:1083-1097 | A head whose only document is over the byte limit: its extraction is failed, its update partial. |
| `EventPartitions.BuiltViewsDecode` | packages/adapter-events/src/adapter.ts:563-579 | Partitions built from a tree and persisted decode to the same map of documents, in any order, if and only if every document of the tree passes the field checks; otherwise nothing is read back. |
| `EventPartitions.TreeIsReadBack` | packages/adapter-events/src/adapter.ts:664-798 | For documents that were parsed, extracted and hashed, that is so if and only if every literal binding is safe: without a namespace its destination is not blank and holds no NUL, with one the namespace is within the stored length. |
| `EventPartitions.BlankTopicIsRefused` | packages/adapter-events/src/adapter.ts:589-596 | Subscribing to a blank topic without a namespace is parsed and extracted, and its partition is never read back. |
| `EventParsing.Parse` | packages/adapter-events/src/adapter.ts:222-300 | A parsed document carries the path, hash and classification of its artifact. |
| `EventParsing.LiteralBindings` | packages/adapter-events/src/adapter.ts:120-220 | The loop over pattern matches keeps the bindings of bounded destinations, with the account's namespace before the context's, in order of provider, destination and role. |
| `EventReadings.BindingReads` | packages/adapter-events/src/parser.ts:107-158 | A manifest binding is read exactly when its vocabularies, bounded texts, payload schema and the choice between destination and expression are in order; every field is what the manifest says, the destination kind by provider and role when it says nothing. |
| `EventReadings.ManifestReads` | packages/adapter-events/src/parser.ts:160-180 | A text is a manifest exactly when it is an object of that schema; it is refused exactly when it declares itself one and cannot be read, or is one of another version or with an unreadable or too long list; its bindings are those of the items in order. |
| `EventReadings.LocatedIs` | packages/adapter-events/src/adapter.ts:254-265 | A manifest binding is placed at the first occurrence of its destination or expression, whose expression is kept as a digest, and nothing else of it changes. |
| `EventReadings.IndexIsFirst` | packages/adapter-events/src/adapter.ts:256-256 | The offset is that of the first occurrence, and there is none exactly when the token does not occur. |
| `EventReadings.RangeStarts` | packages/adapter-events/src/adapter.ts:101-106 | A range starts on the line and column that count the newlines and the code units before it. |
| `EventReadings.LiteralsAre` | packages/adapter-events/src/adapter.ts:120-220 | The literal bindings are exactly those of the matches with a destination of 1 to 512 units: their own provider, kind and role, the account's namespace or else the context's, and the range after the text before them. |
| `EventReadings.LiteralsInOrder` | packages/adapter-events/src/adapter.ts:207-219 | Literal bindings come by provider, destination and role. |
| `EventReadings.DocumentReads` | packages/adapter-events/src/adapter.ts:222-300 | What document an artifact becomes: failed when it mentions events and is too large or a refused manifest, parsed from a manifest or from literal calls, incomplete when it only mentions events, and none otherwise, each by if and only if. |
| `EventPersistence.ManifestBindingIsAccepted` | packages/adapter-events/src/adapter.ts:735-776 | Every binding read from a manifest passes the stored field checks, if and only if the numbers of its payload schema are finite. |
| `EventPersistence.LiteralIsAccepted` | packages/adapter-events/src/adapter.ts:120-148 | A literal binding whose identity was accepted passes the stored field checks if and only if it is safe. |
| `EventPersistence.ParsedIsAccepted` | packages/adapter-events/src/adapter.ts:664-778 | A parsed document that is extracted and hashed passes the stored field checks if and only if its artifact's provenance does and its literal bindings are safe. |
| `EventPersistence.AcceptedExactly` | packages/adapter-events/src/adapter.ts:664-778 | The stored field checks: path and digest of the provenance, the five classifications, the two strata, and for each binding its vocabularies, one of destination and expression, bounded texts, a clean schema of at most 100000 items and a range that does not run backwards. |
| `PayloadSchemas.CheckIs` | packages/adapter-events/src/adapter.ts:631-650 | The budgeted check accepts a stored payload schema if and only if it is clean and counts for no more items than the budget, and leaves the difference. |
| `PayloadSchemas.NormalizedIsAccepted` | packages/adapter-events/src/parser.ts:72-95 | A schema that was normalised under a budget is accepted back under that budget if and only if its numbers are finite, and leaves no less of it. |
| `SchemaReadings.NormalizeIs` | packages/adapter-events/src/parser.ts:72-95 | A schema is normalised under a budget exactly when its texts fit and its properties are records, and one unit for each visited value is within the budget; it comes out as its budget-free meaning and the cost is paid. |
| `SchemaReadings.DeclaredAre` | packages/adapter-events/src/parser.ts:83-90 | Of the declared properties the last one of each normal name is kept, with the meaning of its value. |
| `BoundedTexts.BoundedText` | packages/adapter-events/src/parser.ts:35-42 | A text that is kept is not blank, is bounded and holds no NUL. |
| `EventPartitions.MissingIs` | packages/adapter-events/src/adapter.ts:1059-1081 | A path is reported missing exactly when a change that is not a deletion names it and no supplied artifact has it. |
| `EventPartitions.SwappedRenamesAreExact` | packages/adapter-events/src/adapter.ts:1060-1068 | Two files that trade places form an exact diff, so the law above covers them. |
| `Invalidation.OwnerTable` | packages/adapter-sdk/src/incremental.ts:49-56 | The owner table holds a path exactly when some partition owns it, with all its owners. |
| `Invalidation.Invalidated` | packages/adapter-sdk/src/incremental.ts:71-82 | The fixpoint loop terminates with the least set that contains the direct keys and is closed under dependents; every key in it is reached by a dependency chain. |
| `Invalidation.PlanInvalidation` | packages/adapter-sdk/src/incremental.ts:44-97 | The plan lists changed, direct, dependent, invalidated and unmatched keys sorted and without repeats, dependents disjoint from direct, complete if and only if every changed path is owned; refused exactly for empty or repeated keys and repeated paths or dependencies. |
| `Invalidation.PlanIs` | packages/adapter-sdk/src/incremental.ts:44-97 | In terms of the change list: changed paths are both ends of every change, direct keys those of their owners, unmatched paths those without one, and a key is invalidated if and only if a chain of dependencies leads to it from a direct one. |
| `Invalidation.PlanIgnoresOrder` | packages/adapter-sdk/src/incremental.ts:44-97 | The plan is the same for every order of partitions and changes. |
| `MigrationReplay.PrefixScanIsExact` | packages/adapter-database/src/adapter.ts:297-307 | The startsWith scan over glued keys selects exactly the columns of one table, for names without NUL. |
| `MigrationReplay.ColumnKeysDiffer` | packages/adapter-database/src/adapter.ts:301-307 | Column keys determine namespace, schema, table and column. |
| `MigrationReplay.NulInNamesConfusesTables` | packages/adapter-database/src/adapter.ts:297-300 | With NUL in names two different tables share a key, so the condition above is needed. |
| `MigrationReplay.Replay.Apply` | packages/adapter-database/src/adapter.ts:322-483 | Each of the twelve operations on the three flat maps keeps them faithful to the nested schema, performs exactly the nested step, and records a missing base exactly when the object was absent. |
| `MigrationReplay.Replay.DropTable` | packages/adapter-database/src/adapter.ts:344-356 | Dropping deletes the table and, by prefix scan, all its columns and no others. |
| `MigrationReplay.Replay.RenameTable` | packages/adapter-database/src/adapter.ts:357-383 | Renaming moves the table and every one of its columns under the new keys and leaves the rest. |
| `MigrationReplay.Replay.StoredKeys` | packages/adapter-database/src/adapter.ts:297-342 | Every stored key spells its own value's names, no column lacks its table, and enum values are sorted, in every reachable state. |
| `MigrationReplay.ReplayDocument` | packages/adapter-database/src/adapter.ts:322-343 | A document's operations, in offset order, take the flat state through the same steps as the nested schema. |
| `MigrationReplay.ApplyOperations` | packages/adapter-database/src/adapter.ts:322-483 | Whole replays: the flat maps stand for the nested schema and the limitations agree, for every list of documents; they hold exactly the catalog of the log, locations included; strict DDL accepts the whole log if and only if nothing was recorded as missing and nothing landed on an occupied name, and then the flat maps mean the database it ends with. |
| `MigrationCatalog.StepIsPerformed` | packages/adapter-database/src/adapter.ts:344-479 | Every operation, landing on an occupied name or not, against a total catalog that remembers who wrote each entry: adding and renaming columns overwrite, renaming a table joins its columns to the target's, the moved ones winning, creating a table lays its columns over the old ones, the last of repeated names winning, enums are replaced, and an operation without its base is reported and changes nothing; what is written cites the operation's path, range and content hash. |
| `MigrationCatalog.ReplayIsPerformed` | packages/adapter-database/src/adapter.ts:322-483 | Whole replays leave the catalog of the whole log and report exactly its operations without a base, in order. |
| `MigrationCatalog.LastWriterIsCited` | packages/adapter-database/src/adapter.ts:313-320 | Every table, column and enum that a log leaves behind cites the path, range and content hash of the last operation that wrote it. |
| `MigrationReplay.FlatHoldsCatalog` | packages/adapter-database/src/adapter.ts:301-321 | The flat maps hold exactly the entries of the catalog: each value under its own names, with its contents and its location. |
| `MigrationReplay.FlatAndNestedAgree` | packages/adapter-database/src/adapter.ts:322-483 | The flat maps and the nested schema determine one another. |
| `MigrationSchema.OtherTablesUntouched` | packages/adapter-database/src/adapter.ts:344-479 | An operation leaves every table it does not name exactly as it was. |
| `MigrationReplay.FlatMeansShape` | packages/adapter-database/src/adapter.ts:301-321 | Faithful flat maps mean the location-free shape of the nested schema. |
| `MigrationReplay.MeaningIsUnique` | packages/adapter-database/src/adapter.ts:301-321 | Flat maps mean at most one database. |
| `StrictDdl.StepMatches` | packages/adapter-database/src/adapter.ts:327-479 | One operation: strict DDL, which refuses absent objects and occupied names, accepts it if and only if the replay records nothing missing and it lands nowhere, and then both have the same effect on shapes. |
| `StrictDdl.StrictAcceptsExactly` | packages/adapter-database/src/adapter.ts:322-483 | A whole log: strict DDL accepts it if and only if the replay has no limitation and no operation lands on an occupied name, and then both end in the same shape. |
| `StrictDdl.RecreatedTablesKeepColumns` | packages/adapter-database/src/adapter.ts:334-343 | Creating a table over an existing one is not reported and keeps the old columns. |
| `MigrationSchema.OffsetOrderIsStable` | packages/adapter-database/src/adapter.ts:332-334 | Operations are replayed by offset, and those at the same offset in the order of their statements. |
| `MigrationSchema.RenameToUnusedName` | packages/adapter-database/src/adapter.ts:357-383 | Renaming to an unused name moves one entry and changes nothing else, up to source locations. |
| `MigrationSchema.RenameRoundTrip` | packages/adapter-database/src/adapter.ts:357-383 | Renaming to an unused name and back restores tables and columns up to source locations. |
| `Scanners.DoubledMark` | packages/adapter-database/src/parser.ts:152-158 | Skipping a doubled quote mark leaves the scanner where toggling twice would. |
| `Scanners.SplitTopLevel` | packages/adapter-database/src/parser.ts:175-199 | The parts are cut exactly at the commas a plain toggle scanner sees outside quotes and parentheses, and joining them with commas restores the input. |
| `Scanners.OpenPieceHasNoComma` | packages/adapter-database/src/parser.ts:175-199 | No part contains a top-level comma. |
| `Scanners.Statements` | packages/adapter-database/src/parser.ts:144-173 | The recorded ranges are trimmed, ordered and disjoint, cover every non-blank character, and end at unquoted semicolons, which occur nowhere else in them. |
| `Scanners.Trim` | packages/adapter-database/src/parser.ts:147-151 | A cut is trimmed to at most one range that covers all its non-blank characters. |
| `ScannerGrammar.SplitTellsItems` | packages/adapter-database/src/parser.ts:175-199 | A list written from plain characters, quoted texts and groups in parentheses is split into exactly its items, whatever commas the quoted texts and groups hold. |
| `ScannerGrammar.SemicolonsEndStatements` | packages/adapter-database/src/parser.ts:144-173 | The semicolon after a statement written in that way is the first unquoted one, and the next statement starts outside quotes. |
| `SourceRanges.ApproximateRange` | packages/adapter-database/src/adapter.ts:279-295 | The located range is the pair of positions of its ends, and always passes the range validator. |
| `SourceRanges.PositionInverts` | packages/adapter-database/src/adapter.ts:279-295 | The offset can be recovered from line and column. |
| `SourceRanges.PositionsIncrease` | packages/adapter-database/src/adapter.ts:279-295 | Later offsets have later positions, by columns within a line. |
| `SourceRanges.PositionCountsLines` | packages/adapter-database/src/adapter.ts:250-295 | Line and column count the newlines before the offset and the characters since the last of them. |
| `Artifacts.HonestReadGivesFresh` | packages/application/src/index-generation.ts:331-400 | With an honest reader, reading and classifying an entry gives the classification of its true contents, or the failed artifact exactly for blobs of unlisted size over the limit. |
| `Artifacts.OnlyUnreadBlobsFail` | packages/application/src/artifacts.ts:152-297 | A fresh classification is failed if and only if the blob could not be read within the limit. |
| `Artifacts.ClassificationTable` | packages/application/src/artifacts.ts:129-295 | Classification and parse state by if and only if, from kind, listed and read size, exclusion, zero bytes, decoding and language: source and parsed exactly for a known language. |
| `Artifacts.IdentityTable` | packages/application/src/artifacts.ts:129-295 | Object, size, parser and configuration of the result. |
| `Artifacts.DescriptionTable` | packages/application/src/artifacts.ts:129-295 | Content hash, line count and language, each present exactly when the text was examined, and what they are. |
| `IndexGenerations.IndexEntries` | packages/application/src/index-generation.ts:268-417 | The loop over entries with previous artifacts, cache and source: artifacts, cache and counters are those of the entry-by-entry specification, the scope mismatch and being superseded at any entry included. |
| `IndexGenerations.ReuseIsExact` | packages/application/src/index-generation.ts:114-130 | A previous artifact that passes the reuse test equals the fresh classification if and only if it is not a failure that could now be read; limits may have changed in between. |
| `IndexGenerations.CachingKeepsCoherence` | packages/application/src/index-generation.ts:304-417 | Storing a fresh result keeps every cached value equal to the fresh classification its key names. |
| `IndexGenerations.KeysNameEntries` | packages/application/src/index-generation.ts:102-112 | Equal cache keys come from equal entries, limits, configurations, workspaces and bundles. |
| `IndexGenerations.RunsDeliver` | packages/application/src/index-generation.ts:268-417 | From any coherent cache and any history, every artifact is the fresh classification of its entry unless it is a resurrected failure; the cache stays coherent and the artifacts may serve as history again. |
| `IndexGenerations.StoppedRunsKeepCoherence` | packages/application/src/index-generation.ts:268-280 | A run that is superseded at any entry leaves a coherent cache behind. |
| `IndexGenerations.ReuseKeepsTheResult` | packages/application/src/index-generation.ts:483-489 | The list behind the result hash equals that of a first run from empty caches if and only if no old failure was resurrected. |
| `IndexGenerations.FailuresAreCounted` | packages/application/src/index-generation.ts:404-482 | The failed-file counter plus the reused failures is the number of failed artifacts, and parsed, skipped and failed artifacts add up to the entries. |
| `IndexGenerations.FailuresOutliveTheirCause` | packages/application/src/index-generation.ts:282-296 | A concrete history in which raising the limit leaves a readable file failed, because the reuse test ignores the parse state. |
| `IndexReuse.TakenOverExactly` | packages/application/src/index-generation.ts:114-130 | An entry is taken over from the previous generation exactly when the last artifact of its path and object was made by this parser under these settings, is as long as listed and of its kind, and is classed as too large exactly when it now is. |
| `IndexReuse.ReusedAsItIs` | packages/application/src/index-generation.ts:282-303 | Such an entry keeps its result and names the generation it comes from. |
| `IndexReuse.CachedAsItIs` | packages/application/src/index-generation.ts:304-330 | Otherwise an entry that the cache knows is served from it. |
| `IndexReuse.ReadAsItIs` | packages/application/src/index-generation.ts:331-417 | Any other entry is read, names no origin, and is remembered exactly when it did not fail. |
| `IndexReuse.CountersAreExact` | packages/application/src/index-generation.ts:268-417 | Reused, parsed, skipped and recognised files are counted exactly. |
| `IndexReuse.UnchangedIsReusable` | packages/application/src/index-generation.ts:114-130 | The result of an unchanged entry passes the reuse test if and only if the entry is not an excluded file larger than the limit. |
| `IndexReuse.RememberedRunsReadNothing` | packages/application/src/index-generation.ts:268-417 | A run whose entries are all remembered gives their results and reads nothing, save for excluded files larger than the limit. |
| `IndexReuse.SecondRunsReadNothing` | packages/application/src/index-generation.ts:268-417 | So a second run over the same tree reads nothing. |
| `KeyedLists.LastWins` | packages/application/src/index-generation.ts:239-257 | The value under a key is the last list element that carries it. |
| `Overlays.EmitOverlay` | packages/application/src/create-overlay.ts:201-309 | The change loop emits the specified tombstones and replacements, counts missing head paths, is partial exactly when something was incomplete, and stops on a blob of another entry or when superseded. |
| `Overlays.EmissionIs` | packages/application/src/create-overlay.ts:201-309 | The emission fails exactly when some file of the head fails to be classified; else its entries are exactly what the changes give, the missing count is the number of changed files that the head lacks, and it is partial exactly when the comparison is, one is missing or one is not parsed. |
| `Overlays.OverlayIsHead` | packages/application/src/create-overlay.ts:201-309 | For an exact diff and an honest reader, base minus tombstones plus replacements has exactly the head tree's paths; changed paths carry the fresh classification of their head entry, and all paths do if and only if the untouched base artifacts do. |
| `Overlays.MaterializeOverlay` | packages/domain/src/overlay.ts:31-75 | The view succeeds if and only if base paths are distinct, overlay paths are distinct and replacements carry their own path; then it is base minus tombstones plus replacements, each base artifact naming the generation it comes from. |
| `Overlays.MaterializedIsOverlaid` | packages/domain/src/overlay.ts:31-75 | Forgetting provenance, the materialised view is base minus tombstones plus replacements. |
| `Overlays.EmittedPathsDiffer` | packages/application/src/create-overlay.ts:201-309 | The emitted paths are distinct, so can be materialised, if and only if no two changes share a path and no rename starts where another change lands or starts. |
| `Overlays.SwapsAreRefused` | packages/application/src/create-overlay.ts:217-227 | Swapping two files by renames is an exact diff whose overlay entries are refused as duplicates. |
| `ReExports.Walk` | packages/adapter-typescript/src/adapter.ts:383-441 | The recursive walk over re-exports terminates on every graph, cyclic ones included, and computes the specified symbols and count. |
| `ReExports.VisitIsSound` | packages/adapter-typescript/src/adapter.ts:383-441 | Every returned symbol is exported through a chain of re-exports: a star hands on the target's symbols but the default one, a named re-export those of the imported name under the exported one with its own origin. |
| `ReExports.VisitIsComplete` | packages/adapter-typescript/src/adapter.ts:383-441 | With nothing unresolved, every exported symbol is returned. |
| `ReExports.CleanWalk` | packages/adapter-typescript/src/adapter.ts:383-441 | With nothing unresolved, every walk from the entry point is free of repeats and ends in a module whose exports all resolve. |
| `ReExports.AcyclicIsClean` | packages/adapter-typescript/src/adapter.ts:383-441 | An acyclic, locally resolved graph leaves nothing unresolved. |
| `ReExports.UnresolvedExactly` | packages/adapter-typescript/src/adapter.ts:383-441 | Nothing is unresolved if and only if the reachable graph is acyclic and locally resolved; then the symbols are exactly the export relation. |
| `ReExports.VisitIsInOrder` | packages/adapter-typescript/src/adapter.ts:383-440 | The symbols come in order: a module's own first, then those of its re-exports in turn. |
| `TypeScriptState.Maps.AddArtifact` | packages/adapter-typescript/src/adapter.ts:195-240 | Adding an artifact replaces everything the five maps hold for its path by what its parsers give, failures included, and touches no other path. |
| `TypeScriptFacts.CellTable` | packages/adapter-typescript/src/adapter.ts:195-240 | What an artifact leaves in each of the five maps, field by field and by if and only if: descriptor, package, configuration, and either facts or the one reason why there are none; irrelevant paths change nothing. |
| `TypeScriptState.Maps.ForgetChanges` | packages/adapter-typescript/src/adapter.ts:1290-1306 | Walking the changes removes exactly the relevant changed and left paths and collects the paths expected in the head. |
| `TypeScriptState.EncodeState` | packages/adapter-typescript/src/adapter.ts:902-931 | The payload lists each map's values once, in path order. |
| `TypeScriptState.EncodingIsDetermined` | packages/adapter-typescript/src/adapter.ts:902-931 | The encoding depends only on the contents of the maps. |
| `TypeScriptFacts.WrittenModules` | packages/adapter-typescript/src/adapter.ts:902-931 | One record is written for each module and package, with its facts, and with its unresolved count exactly when that is positive. |
| `TypeScriptState.DecodeState` | packages/adapter-typescript/src/adapter.ts:937-1061 | Decoding refuses other versions, long package roots, repeated paths and facts without an artifact, and otherwise rebuilds the maps; the first version has no compiler configurations. |
| `TypeScriptFacts.DecodeIs` | packages/adapter-typescript/src/adapter.ts:937-1061 | A payload is accepted exactly when its version is known, its root short enough, no path is listed twice and no facts lack their artifact; the state then holds exactly what is listed. |
| `TypeScriptState.PrepareState` | packages/adapter-typescript/src/adapter.ts:242-246 | A request is refused for its package root, or gives the state of its artifacts, which satisfies the invariant. |
| `TypeScriptState.DecodingInvertsEncoding` | packages/adapter-typescript/src/adapter.ts:902-1061 | For every state that satisfies the invariant, decoding an encoding gives the state back, up to source bytes and an absent count of unresolved exports. |
| `TypeScriptState.RunsAreReadBack` | packages/adapter-typescript/src/adapter.ts:1274-1318 | Every payload of every run, a start and any list of updates of the state read back, satisfies the invariant and is read back as the state it was written for. |
| `TypeScriptState.EncodingErases` | packages/adapter-typescript/src/adapter.ts:902-931 | What decoding forgets was never written down. |
| `TypeScriptState.ArtifactsKeep` | packages/adapter-typescript/src/adapter.ts:195-246 | Adding artifacts keeps facts filed under their own paths beside a descriptor, with no parse errors among the modules. |
| `TypeScriptState.UpdateKeeps` | packages/adapter-typescript/src/adapter.ts:1290-1318 | So does a whole update: forgetting, adding and noting missing paths. |
| `TypeScriptState.UpdateState` | packages/adapter-typescript/src/adapter.ts:1274-1318 | Decode, forget, add and note missing, as one update. |
| `TypeScriptState.UpdateIsHead` | packages/adapter-typescript/src/adapter.ts:1274-1324 | From the persisted base, one update reaches the state of the head at every path, except that each expected path that was not supplied holds only a failure; its payloads are the head's if and only if none is missing. |
| `TypeScriptState.RunIsHead` | packages/adapter-typescript/src/adapter.ts:1274-1324 | From the persisted base, any chain of exact updates reaches the state of its last tree at every path but the lost ones, which hold only a failure; the last payload is one of that tree if and only if nothing is lost. |
| `TypeScriptState.LostIs` | packages/adapter-typescript/src/adapter.ts:1301-1318 | A path is lost if and only if some update missed it and none has touched or supplied it since. |
| `ExecutionBudget.FirstOverIsExact` | packages/application/src/execution-budget-v2.ts:126-138 | A reservation is refused exactly when some dimension would pass its limit, and the reported dimension is one of those. |
| `ExecutionBudget.ReserveTable` | packages/application/src/execution-budget-v2.ts:126-138 | Unsafe amounts are an error, a late call is refused for its lateness, then the first entry that does not fit is the reason and noted as exhausted; otherwise each entry's amount is counted and nothing else. |
| `ExecutionBudget.ReleaseTable` | packages/application/src/execution-budget-v2.ts:140-148 | A release succeeds exactly when no entry takes back more than is used, and then takes back each amount and nothing else. |
| `ExecutionBudget.ReserveKeepsLimits` | packages/application/src/execution-budget-v2.ts:126-138 | Reserving keeps every dimension within its limit; a refusal or an error changes no usage and a refusal is recorded. |
| `ExecutionBudget.ReleaseKeepsLimits` | packages/application/src/execution-budget-v2.ts:140-148 | Releasing never underflows: it takes back what is in use or fails and changes nothing. |
| `ExecutionBudget.ReleaseUndoesReserve` | packages/application/src/execution-budget-v2.ts:126-148 | Releasing what was just reserved restores the ledger. |
| `ExecutionBudget.Budget.ReserveEntries` | packages/application/src/execution-budget-v2.ts:126-138 | The mutable ledger performs exactly the specified reservation. |
| `ExecutionBudget.Budget.ReleaseEntries` | packages/application/src/execution-budget-v2.ts:140-148 | The mutable ledger performs exactly the specified release. |
| `ExecutionBudget.Budget.Complete` | packages/application/src/execution-budget-v2.ts:150-170 | Completion adds latency to the exhausted dimensions exactly when time ran over, and reports them. |
| `BudgetedReads.Reader.Begin` | packages/application/src/index-execution-v2.ts:88-108 | A blob read up to its provider call, on the shared ledger. |
| `BudgetedReads.Reader.End` | packages/application/src/index-execution-v2.ts:109-129 | A blob read from its provider's answer on: failures, exceptions, oversize answers and deliveries. |
| `BudgetedReads.StartTable` | packages/application/src/index-execution-v2.ts:88-108 | A read starts exactly when its bound is good, time suffices, a provider request is left, and its bound is 0 or bytes are left; it reserves the smaller of bound and remainder and counts one request, and changes nothing else. |
| `BudgetedReads.FinishTable` | packages/application/src/index-execution-v2.ts:109-129 | What becomes of the reservation and the answer: failures and exceptions return it, oversize answers are never delivered, deliveries keep what was received. |
| `BudgetedReads.ReadsStayWithinBounds` | packages/application/src/index-execution-v2.ts:88-129 | On every interleaving each awaited read has reserved, and each delivered read has received, no more than its own caller's bound. |
| `BudgetedReads.ForcedReserveIsRefused` | packages/application/src/index-execution-v2.ts:114-124 | The reservation made for an oversize answer always fails and changes no usage. |
| `BudgetedReads.NextConserves` | packages/application/src/index-execution-v2.ts:88-129 | Every step keeps used source bytes equal to delivered, awaited and retained bytes. |
| `BudgetedReads.RunsStayWithinBudget` | packages/application/src/index-execution-v2.ts:88-205 | On every interleaving no dimension passes its limit, source bytes are conserved, and a run is reported complete if and only if its result is complete, nothing was refused and time sufficed. |
| `SourceBudget.BudgetedReader.ReserveMetadata` | packages/application/src/source-budget.ts:85-93 | A metadata call is counted once in total and once for its operation, or refused at the limit. |
| `SourceBudget.BudgetedReader.BeginRead` | packages/application/src/source-budget.ts:124-142 | A blob read up to its provider call. |
| `SourceBudget.BudgetedReader.EndRead` | packages/application/src/source-budget.ts:143-155 | A blob read from its provider's answer on; the reservation is always returned. |
| `SourceBudget.MetadataTable` | packages/application/src/source-budget.ts:85-93 | A metadata call is granted exactly below the limit, and then counts once in total and once for its operation; otherwise one exhaustion is noted. |
| `SourceBudget.BeginTable` | packages/application/src/source-budget.ts:124-142 | A read begins exactly while reads and bytes are left, for the smaller of its bound and the rest, which it reserves. |
| `SourceBudget.EndTable` | packages/application/src/source-budget.ts:143-155 | An answer returns the reservation, its bytes are counted even when they are too many, and are handed over exactly when they are not. |
| `SourceBudget.NextIsCounted` | packages/application/src/source-budget.ts:85-156 | Every step keeps the counters equal to the provider's calls and within limits, and reserved bytes equal to the awaited ones. |
| `SourceBudget.NextIsBounded` | packages/application/src/source-budget.ts:124-156 | Every step keeps delivered and awaited bytes within the byte limit plus the sizes of the negative bounds admitted so far. |
| `SourceBudget.RunsKeepLimits` | packages/application/src/source-budget.ts:55-156 | On every interleaving calls and reads keep their limits, and delivered plus awaited bytes pass theirs by no more than the negative bounds admitted so far. |
| `SourceBudget.PassesExactly` | packages/application/src/source-budget.ts:124-156 | Given the bounds callers may use, some schedule delivers more than the byte limit if and only if a bound is negative and, beside it, as many of the others as the read limit leaves can ask for more than the byte limit. |
| `SourceBudget.NegativeBoundsLendBytes` | packages/application/src/source-budget.ts:134-142 | The bound is met: one negative bound, which is not refused, lets one concurrent read deliver the byte limit and its size. |
| `CanonicalJson.Normalizer.Normalize` | packages/domain/src/canonical.ts:13-53 | The recursion over a shared ancestor set terminates on every graph, computes the specified result, and restores the set on success. |
| `CanonicalJson.CanonicalizeJson` | packages/domain/src/canonical.ts:55-57 | Normalisation from an empty ancestor set. |
| `CanonicalJson.NormIsCanonicalUnfolding` | packages/domain/src/canonical.ts:13-57 | The result is the canonical form of the value's finite unfolding, its keys in the order in which the result lists them, and there is a result exactly when there is such an unfolding; shared nodes are accepted. |
| `KeyOrder.KeysAreTotallyOrdered` | packages/domain/src/canonical.ts:39-50 | The listing order, array indices as numbers before other keys as texts, is a total order on keys. |
| `CanonicalJson.RefusedExactly` | packages/domain/src/canonical.ts:13-57 | A value is refused if and only if a cycle or an unrepresentable value can be reached from it. |
| `CanonicalJson.CanonIsIdempotent` | packages/domain/src/canonical.ts:13-57 | Canonical forms are their own canonical form. |
| `CanonicalJson.CanonEqualExactly` | packages/domain/src/canonical.ts:13-57 | Two trees have the same canonical form if and only if they differ at most in key order and the sign of zero. |
| `CanonicalJson.ResultsEqualExactly` | packages/domain/src/canonical.ts:13-57 | Two values on any two heaps have equal results if and only if their unfoldings are equivalent in that sense. |
| `PercentEncoding.EncodingIsDecodable` | packages/adapter-sdk/src/identity.ts:5-11 | The percent-encoded UTF-8 of well-formed text can be decoded, and holds only unreserved characters and percent signs. |
| `PercentEncoding.AsciiIsEncoded` | packages/adapter-sdk/src/identity.ts:5-11 | Which ASCII characters are kept, and the two upper-case hexadecimal digits of the others. |
| `Utf16.ScalarsInverted` | packages/adapter-sdk/src/identity.ts:10-10 | Text that is well-formed UTF-16 is recovered from its scalar values. |
| `PercentEncoding.OctetsInverted` | packages/adapter-sdk/src/identity.ts:10-10 | Scalar values are recovered from their UTF-8 octets. |
| `PercentEncoding.PercentInverted` | packages/adapter-sdk/src/identity.ts:10-10 | Octets are recovered from their percent-encoding. |
| `ContractKeys.KeyIsDecodable` | packages/adapter-sdk/src/identity.ts:13-21 | A contract key determines its normalised scheme and its list of normalised segments. |
| `ContractKeys.KeysAreInjective` | packages/adapter-sdk/src/identity.ts:13-21 | Keys are equal if and only if normalised schemes and normalised segment lists are. |
| `ContractKeys.KeyExistsExactly` | packages/adapter-sdk/src/identity.ts:13-21 | There is a key exactly when the normal forms of the lower-cased scheme and of every segment have 1 to 512 units, no NUL and no surrogate without its partner. |
| `ContractKeys.ColumnKeyTellsAll` | packages/adapter-database/src/identity.ts:3-23 | Equal column keys have equal namespaces, schemas, tables and columns. |
| `ContractKeys.ColumnKeysFailExactly` | packages/adapter-database/src/identity.ts:15-23 | Given an accepted table key and column name, the column key is refused if and only if the table key is longer than one segment may be. |
| `ContractKeys.LongNamesHaveNoColumns` | packages/adapter-database/src/identity.ts:3-23 | A table whose three names together pass 492 units has a key but no column keys. |
| `ContractKeys.ThreeLongNames` | packages/adapter-database/src/identity.ts:3-23 | Three names of 170 letters each are such a table. |
| `EvidenceJoin.JoinReferences` | packages/domain/src/evidence-v2.ts:232-297 | The inner loop stores an edge for every reference that agrees with the change in workspace, family, kind, key and selected generation and commit, and fails exactly when such a reference is unreadable, of another identity protocol or not under its derived id. |
| `EvidenceJoin.Join` | packages/domain/src/evidence-v2.ts:171-301 | The join succeeds exactly on acceptable inputs and lists the stored edges by id. |
| `EvidenceJoin.JoinIsExact` | packages/domain/src/evidence-v2.ts:171-301 | A successful join has exactly one edge for every matching contract key, consumer and stable reference, all ids distinct and in order; every edge spells out the workspace, family, kind, key, repositories, generations and hash of its definition and reference, inside the capability. |
| `EvidenceJoin.DefinitionIsPreferred` | packages/domain/src/evidence-v2.ts:206-212 | The joined definition is one of the changed contract, from the head whenever the head has one, else from the base. |
| `EvidenceJoin.FindingsAreExact` | packages/domain/src/evidence-v2.ts:303-368 | Every joined edge gives exactly one finding about the last change of its own contract, with the action of its compatibility class, abstained if and only if coverage is incomplete or compatibility unknown, under distinct fingerprints of the spelled-out identity, in order; with one producer the change is that producer's. |
| `AnalysisScope.Prepare` | packages/domain/src/analysis-scope.ts:92-149 | Candidates and gaps of the considered repositories, in order; refused exactly when the producer is not a selected member. |
| `AnalysisScope.Authorize` | packages/application/src/analysis-scope.ts:54-88 | Authorised repositories and gaps of the candidates, in order. |
| `AnalysisScope.ResolveScope` | packages/application/src/analysis-scope.ts:33-103 | The whole resolution, refused for a registry of another workspace or version. |
| `AnalysisScope.FinalizeFailsOnlyWithoutProducer` | packages/domain/src/analysis-scope.ts:151-213 | Of the final checks only the one on the producer can fail on what the loops hand over. |
| `AnalysisScope.ScopeIsPartition` | packages/domain/src/analysis-scope.ts:92-213 | There is a scope if and only if the producer may be read; every considered repository is then either authorised once or has one gap with its first obstacle, and the capability is exactly the authorised ones. |
| `AnalysisScope.ScopeIs` | packages/domain/src/analysis-scope.ts:92-213 | In terms of the registry: which repositories are in question, by allowlist or selection; the reason of each gap, by last membership, consent and the port's answer; and of each authorised repository its part, whether it was asked for, its revision and its place. |
| `AnalysisCoverage.FamilyIsStable` | packages/domain/src/coverage-v2.ts:121-226 | What the family validator returns, it accepts unchanged. |
| `AnalysisCoverage.RepositoryIsStable` | packages/domain/src/coverage-v2.ts:228-295 | What the repository validator returns, it accepts unchanged. |
| `CoverageRecords.FamilyAcceptedExactly` | packages/domain/src/coverage-v2.ts:121-226 | A family record is accepted exactly when its state is known, its counts are safe and add up, its adapters and limitations are well formed and differ pairwise in any order, and completeness and absence agree with them; it comes out sorted, otherwise unchanged, with its own hash. |
| `CoverageRecords.RepositoryAcceptedExactly` | packages/domain/src/coverage-v2.ts:228-295 | A repository record is accepted exactly when it tells its selection in full or why there is none, and its families differ pairwise and are canonical. |
| `CoverageRecords.AnalysisAcceptedExactly` | packages/domain/src/coverage-v2.ts:297-382 | An analysis record is accepted exactly when there is one canonical record for each authorised repository, the producer's among them; it is complete exactly when there is no gap, every selection is current and every family complete. |
| `AnalysisCoverage.Compose` | packages/application/src/analysis-coverage-v2.ts:110-184 | The composition loop over authorised repositories, with the refusal of reads outside the capability. |
| `AnalysisCoverage.EntryIsAccepted` | packages/application/src/analysis-coverage-v2.ts:86-182 | Whatever the source answers, a record is pushed for a well-formed selection if and only if the source is asked only inside the capability; the record passes the repository validator and has one record per enabled family. |
| `CoverageRecords.EntryIs` | packages/application/src/analysis-coverage-v2.ts:86-182 | The record of a selection is the source's answer exactly when that is usable, and otherwise tells the selection and, for every family, why it was not analysed. |
| `AnalysisCoverage.CompositionSucceeds` | packages/application/src/analysis-coverage-v2.ts:110-184 | With a well-formed selection for every authorised repository, composition succeeds, whatever the source answers, if and only if every repository it is asked about lies in the capability; it is complete if and only if there are no gaps and every repository is current and served a full record. |
| `AnalysisCoverage.ResolvedScopeIsReadable` | packages/application/src/analysis-coverage-v2.ts:151-151 | The capability of a resolved scope names exactly the authorised repositories, so no read of theirs is refused. |
| `AnalysisResults.PlainEndsExactly` | packages/application/src/analyze-pr-v2.ts:229-289 | Without reasoning an analysis is refused only for its deterministic parts. |
| `AnalysisResults.FinalizedExactly` | packages/domain/src/analysis-v2.ts:26-118 | A final record is accepted exactly when its parts are, its legacy findings are the base's in order, its state agrees with the evidence, its lanes differ and its hypotheses are accepted; it comes out sorted with its own hash. |
| `AnalysisResults.EndsAs` | packages/application/src/analyze-pr-v2.ts:229-289 | An analysis ends superseded exactly when its first half was, and partial exactly when that was partial, something is missing, its budget ran out or the reasoning run did not complete; its record holds both halves. |
| `AnalysisResults.RemovedIs` | packages/domain/src/analysis-v2.ts:120-137 | Without reasoning a result keeps the other reports, has no hypothesis, and is complete exactly when the evidence leaves nothing open. |
| `AnalysisResults.ReasonedEndsExactly` | packages/application/src/analyze-pr-v2.ts:271-289 | With an accepted outcome it is refused in addition exactly when a run that calls itself complete has an exhausted budget and nothing else is partial. |
| `AnalysisResults.ExhaustedRunIsRefused` | packages/application/src/analyze-pr-v2.ts:271-289 | An analysis without findings, with a run that found nothing, calls itself complete and has an exhausted budget, is such a case. |
| `AnalysisResults.RemovalFailsExactly` | packages/domain/src/analysis-v2.ts:120-137 | Removing reasoning succeeds if and only if the legacy findings are listed by fingerprint. |
| `AnalysisResults.ReasoningDoesNotInterfere` | packages/domain/src/analysis-v2.ts:26-137 | Removing reasoning from a result gives the result of the same analysis without reasoning. |
| `AnalysisResults.RemovalIsIdempotent` | packages/domain/src/analysis-v2.ts:120-137 | Removing reasoning twice is removing it once. |
| `JsonPointers.DecodingInvertsEscaping` | packages/adapter-openapi/src/parser.ts:13-15 | Decoding a segment inverts escaping it, for every string. |
| `JsonPointers.ResolveLocalReference` | packages/adapter-openapi/src/parser.ts:17-29 | The walk along decoded segments computes the specified node. |
| `JsonPointers.GetIs` | packages/adapter-openapi/src/parser.ts:17-29 | A segment leads to the value of the first field of its name, in records only. |
| `JsonPointers.ResolvedIsInside` | packages/adapter-openapi/src/parser.ts:17-29 | Only nodes of the document are returned. |
| `JsonPointers.PointersResolve` | packages/adapter-openapi/src/parser.ts:17-29 | The pointer built from any keys resolves to exactly what the keys lead to. |
| `JsonPointers.InspectReferences` | packages/adapter-openapi/src/parser.ts:31-61 | The worklist throws exactly when the document holds more objects and arrays than twenty times the limit; otherwise remote and unresolved references are exactly classified. |
| `JsonPointers.RefsAreMentions` | packages/adapter-openapi/src/parser.ts:31-61 | The classified set is the set of reference strings of all nodes. |
| `JsonPointers.ResolvePathItem` | packages/adapter-openapi/src/adapter.ts:274-286 | Following references terminates, and returns an object if and only if the chain ends in it; on loops and dead ends nothing is returned. |
| `Sorting.SortIgnoresOrder` | packages/adapter-events/src/adapter.ts:351-360 | Sorting does not depend on the order of its input when ties are identical. |
| `Sorting.KeepOfSort` | packages/domain/src/analysis-v2.ts:48-60 | Selecting from a sorted list is sorting the selection. |
| `StringKeys.GluedPrefix` | packages/adapter-database/src/adapter.ts:297-311 | Gluing with NUL is unambiguous, even when only a prefix is compared. |

## Left out

- Git, databases, the forge, the command line, telemetry, sandboxed tools, the file system: input and output behind ports.
- Regex extraction bodies, `parseStatement`, `maskComments`, the YAML and TypeScript parsers: uninterpreted functions.
- The config, http, infrastructure and protobuf adapters: they repeat the update engine modelled for events. The OpenAPI adapter's `uniqueDefinitions` and `planInvalidation` repeat the elimination and the closure modelled in `EventExtraction` and `Invalidation`.
- `aggregateSymbols`: grouping of resolved symbols by name and space; the results on re-exports speak of the list before grouping. Entry point selection and specifier resolution are a given function from module and specifier to target.
- EventParsing.Parse: the texts that patterns match and the trees that YAML gives are uninterpreted; keys that name prototype members are not modelled.
- EventPersistence.ParsedIsAccepted: fields are typed, so the checks for unknown fields and wrong types of fields are not modelled; the check on repository paths is a parameter.
- EventPartitions.UpdatePartitions: replacements and tombstones are a map and a set, so the order in which they are listed is not modelled; neither are hashes of whole results, nor the bound on the length of an emitted key beyond its refusal.
- MigrationReplay.Replay.Apply: the insertion order of JavaScript maps, which nothing modelled here depends on, is not kept.
- IndexGenerations.IndexEntries: failures of the cache and of the store, diagnostics, and parsers other than the built-in classifier; the path and language tables are abstract.
- Overlays.MaterializeOverlay: the result is a map by path; sorting its values by path, which are distinct, is not modelled. Diagnostics and coverage of an overlay are not modelled beyond the partial flag and the missing count.
- CanonicalJson.NormIsCanonicalUnfolding: numbers are reals beside the non-finite values and negative zero; holes in arrays, getters and proxies are not modelled, and neither is the text that `JSON.stringify` prints.
- TypeScriptState.DecodeState: the checks on single fields of a payload, whose values have the right types here.
- EvidenceJoin.FindingsAreExact: coverage dependencies, remedies and occurrence ids are not carried along.
- JsonPointers.InspectReferences: documents are trees, since the parser refuses aliases, so the set of visited objects never matters; the results are sets rather than sorted lists. Percent-decoding of fragments, which section 6 of RFC 6901 asks for, is not done by the code.
- BudgetedReads.RunsStayWithinBudget: amounts are integers up to the safe limit, so rounding of doubles does not arise; storage query counting is one kind of other use.
- `AdapterSnapshot` hashing, manifests, admission, delivery wording, labelling and id generation: constants or single checks.
- `payloadCompatibility`, `databaseCompatibility` and `changedCompatibility`: heuristics over a few keywords with no law to state.
