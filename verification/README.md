# Engineering kernel: a verified model

The kernel indexes a repository's markdown documents, classifies them by a taxonomy, links
them, and answers searches and context requests from the index. Most of what it derives is
meant to agree with something simpler: an incremental sync with a full index, a proposal's
numbers with what indexing will do, full-text rows with chunk rows, a printed taxonomy with
the parsed one, a bounded SQL traversal with walks in a graph, a verified quote with its
source. This project models those parts and proves the agreements, for all inputs, runs and
reachable stores; where one fails, it gives the input and the exact condition.

`dafny verify dfyconfig.toml` checks everything.

## What is modelled

- **Patterns and taxonomy** (`Glob`, `Taxonomy`, `TaxonomyFile`, `Yaml`). The meaning of a glob is
  given without the matcher, as a cutting of the path into one piece per token; the recursive
  matcher decides it. Taxonomy parsing, lookup, rule merging, and the printer of
  `.engineering.yaml` with what YAML makes of the lines it writes.
- **The proposer** (`Proposal`, `Proposing`, `Measuring`, `ProposalTheorems`,
  `ProposalScope`). What a proposal should be is a recursive definition over directories;
  the walk, the grouping, the merge and the measurement are loops proved against it.
- **Store and indexer** (`Identity`, `Storage`, `Effects`, `Sqlite`, `Extraction`,
  `Pipeline`, `Reachable`, `Indexing`, `Runs`, `Workspaces`, `Collecting`, `Changes`,
  `IndexLinks`, `IndexTheorems`, `WorkspaceTheorems`). Tables are maps from primary key to row; a statement that breaks a key or
  foreign key fails; a transaction commits whole or rolls back, and the engine may fail at any
  statement. `Store` is a class over one database handle, the result counters are a class, and
  the runs are loops over both. On top: the invariants of every history, what a full run, a
  sync and a second run leave, the links of every file, what becomes of each repository of a
  workspace, the files a walk reads, and git's two texts with their parsers.
- **Graph** (`Traversal`), **ranking and search** (`Ranking`, `Searching`), **retrieval**
  (`Retrieval`), **evidence** (`Words`, `Memory`) and **chunking** (`Chunking`).
- `Text`, `Sorting` and `Wrappers` hold the library operations the rest is written with.

## What does not hold, exactly

- An `Other` line resolves to `unknown` and still counts as claiming a document, so a
  proposal's count is too good by the unknown documents that an `Other` line of the
  repository's own file decides and no proposed line outranks
  (`ProposalTheorems.MeasuredImpactIsReal`, `ProposalTheorems.OtherLineMiscounts`).
- A sync and a full index read different files: git is asked about `*.md` and `*.markdown`
  wherever they are, the walk skips some directories and takes any letter case. A sync agrees
  with a full index exactly when no listed file is refused by a stage while an earlier version
  is stored, no listed file outside the walk can be indexed, and the index was right already
  about the paths git does not list (`IndexTheorems.SyncMirrorsExactly`,
  `IndexTheorems.IncrementalFromGit`). A tracked `vendor/a.md` breaks the second part
  (`IndexTheorems.HiddenEditIsIndexed`), an uncommitted edit that was indexed and then undone
  the third (`IndexTheorems.UndoneEditIsMissed`).
- A full index removes nothing, and neither does the full collection a sync falls back to: a
  file that is gone stays indexed (`IndexTheorems.IndexMirrorsExactly`,
  `IndexTheorems.FallbackMirrorsExactly`).
- A copy line of git marks the source instead of the new file, and a file renamed in the index
  and then deleted is called present (`Changes.CopyMarksSource`,
  `Changes.RenamedThenDeletedIsPresent`); the agreement with a full index excludes both.
- A fault between writing a document and writing its chunks is not repaired by a later run
  over the same bytes and type (`IndexTheorems.FaultBetweenWritesSticks`).
- Deleting a document takes away the edges that lead to it, and no later run restores them as
  long as the referring file stays as it is (`IndexLinks.UnchangedStaysUnlinked`).
- Evidence verifies again from its own qualified name exactly when its repository's name has
  no colon (`Memory.OnlyColonsHinder`).
- Patterns are printed unquoted. A file reads back exactly when every pattern is a plain scalar
  that may stand as a key and means its own text (`TaxonomyFile.PrintedFileReadsBack`):
  `-drafts/**` does, `*/**` is taken for an alias, and the tag of `!x y/**` is dropped
  (`TaxonomyFile.DashIsSafe`, `TaxonomyFile.LeadingWildcard`, `TaxonomyFile.TagIsDropped`).
- Different tags can share an identifier when a key holds a bar, and a document with two such
  tags cannot be written (`Pipeline.WriteFits`, `Pipeline.BarInKeyCollides`).
- RFC-0005 limits the base-name rule to patterns without `**` (`rfcs/0005-rule-scoping.md:114`);
  the code only looks for a separator (`internal/domain/scope.go:87`). The model follows the
  code (`Glob.DoubleStarFallsBack`).

## Conventions

- A string is a sequence of characters. Go counts bytes: the two agree on ASCII text, and on
  other text a length or an index here counts characters and letter case is left alone.
- Two runs that are compared use the same taxonomy, parser, chunker and ignored files.
- SHA-256 over the `|`-joined parts is an injective hexadecimal text of the preimage.
- Scores and vectors are reals; the square root is a parameter that is a root of every
  number that is not negative.
- Parser and normaliser, the reference resolver, the YAML decoder, the full-text engine's
  choice of rows and the embedding provider are parameters about which nothing is assumed
  unless a contract says so.
- An engine failure is a parameter: the statement it strikes, if any. A clean run is one that
  no engine failure strikes and in which every reference is resolved; parser, normaliser and
  chunker may refuse files in it.
- Repository-relative paths and repository ids are non-empty and trimmed, as the domain
  constructors leave them.

## Model

| member | source | states |
|---|---|---|
| Glob.GlobMatch | internal/domain/scope.go:100-155 | answers true if and only if the path can be cut into one piece per pattern token, each piece of the kind its wildcard allows; terminates on every pattern |
| Glob.MatchAnyDirs | internal/domain/scope.go:110-123 | the `**/` branch takes nothing or any text ending in a separator, and no other prefix |
| Glob.MatchAnyText | internal/domain/scope.go:124-129 | a `**` branch takes any prefix at all |
| Glob.MatchAnySegment | internal/domain/scope.go:133-143 | a `*` branch takes exactly the prefixes without a separator |
| Glob.FirstPiece | internal/domain/scope.go:100-155 | a pattern describes a path if and only if its first token accepts some prefix and the remaining tokens describe the rest |
| Glob.SelfDescribed | internal/domain/scope.go:100-155 | every string matches itself when read as a pattern |
| Glob.PlainPrefix | internal/domain/scope.go:149-153 | a wildcard-free prefix of a pattern matches itself and nothing else |
| Glob.QuestionMark | internal/domain/scope.go:144-148 | `?` takes one character that is no separator |
| Glob.OneStar | internal/domain/scope.go:133-143 | `*` takes characters up to a separator at most |
| Glob.TwoStars | internal/domain/scope.go:124-129 | `**` takes any characters |
| Glob.TwoStarsSlash | internal/domain/scope.go:110-123 | `**/` takes no directory, or everything up to some separator |
| Glob.DirectoryPattern | internal/domain/scope.go:100-155 | `dir/**` matches exactly the paths below `dir` |
| Glob.MatchPath | internal/domain/scope.go:80-93 | whole path, or base name when the pattern names no directory |
| Glob.DirectoryMatches | internal/domain/scope.go:80-93 | for a directory line the base-name rule adds nothing |
| Glob.DoubleStarFallsBack | internal/domain/scope.go:80-93 | the exact meaning of `word**`, showing that the base name is tried although the pattern holds `**` |
| Glob.ShorthandMeansExtension | internal/domain/scope.go:69-74 | a bare word in `applies_to` matches exactly the files with that extension |
| Glob.ParseScope | internal/domain/scope.go:20-30 | the non-blank comma-separated entries, trimmed and expanded, in order |
| Glob.ListFormIsCommaForm | internal/domain/scope.go:20-30 | a list joined by `, ` parses as its items would one by one |
| Glob.ScopeMatches | internal/domain/scope.go:50-62 | a scope governs if and only if it is empty or some path matches some pattern |
| Taxonomy.CanonicalNameFor | internal/domain/taxonomy.go:53-63 | answers a word exactly for the types that have one, and it is that word |
| Taxonomy.CanonicalNamesRoundTrip | internal/domain/taxonomy.go:40-63 | every word written for a type is read back as that type |
| Taxonomy.ParseTaxonomy | internal/domain/taxonomy.go:98-134 | for any iteration order of the map: fails if and only if a line is unreadable, else holds every declared line, strictly ordered longest pattern first and then by name |
| Taxonomy.DeclaredRulesUnique | internal/domain/taxonomy.go:110-132 | the parsed order does not depend on the order of the map |
| Taxonomy.MoreSpecificIsTotalOrder | internal/domain/taxonomy.go:113-118 | longest-first-then-name is a strict total order on patterns |
| Taxonomy.MappingFor | internal/domain/taxonomy.go:190-197 | the first matching line of the parsed order |
| Taxonomy.FirstMatchIsMostSpecific | internal/domain/taxonomy.go:110-132 | the deciding line is the matching one that outranks every other match, and there is none if and only if no line matches |
| Taxonomy.LongestMatchDecides | internal/domain/taxonomy.go:110-132 | the deciding line has the longest pattern of all that match, and among those the first by name |
| Taxonomy.TypeFor | internal/domain/taxonomy.go:169-180 | the type of the deciding line, including `unknown` for a line that says Other |
| Taxonomy.MergeIsJoin | internal/domain/taxonomy.go:190-197 | over a merged file the decision is the more specific of the two files' decisions |
| Taxonomy.ApplyTaxonomy | internal/indexer/taxonomy.go:41-48 | only a document the parser left unknown is reclassified, by the deciding line |
| Taxonomy.MergeRulePatterns | internal/cli/setup_rules.go:134-150 | every existing line as written, a rule line for each pattern not declared before, once, sorted by pattern |
| Taxonomy.RuleMergeIdempotent | internal/cli/setup_rules.go:134-150 | merging the same patterns again adds nothing and changes no line |
| TaxonomyFile.RenderTaxonomy | internal/cli/setup_rules.go:154-170 | the printed file: header, key and one padded line per mapping |
| TaxonomyFile.PrintedFileReadsBack | internal/taxonomy/propose.go:153-174 | under any header of comments and for distinct patterns with known words, reading the printed file gives back exactly the mappings if and only if every pattern is a plain scalar that may stand as a key and means its own text |
| Yaml.SafeKeyRead | internal/domain/taxonomy.go:98-105 | such a key, printed before a colon and blanks, is read as itself with the word after it (YAML 1.2.2, sections 7.3.3 and 7.4.2) |
| Yaml.KeyShape | internal/domain/taxonomy.go:98-105 | whatever one entry is, quoted, tagged or plain, the key read from it is such a scalar or shorter than what stands before its last colon |
| TaxonomyFile.KeyOfPiece | internal/taxonomy/propose.go:170-173 | a line that a printed entry falls into gives back the pattern if that is safe, and otherwise a safe key or one shorter than the pattern |
| TaxonomyFile.LeadingWildcard | internal/taxonomy/propose.go:170-173 | a file with a pattern such as `*/**` never reads back: it is taken for an alias |
| TaxonomyFile.TagIsDropped | internal/taxonomy/propose.go:170-173 | a directory name that starts with `!x ` is read without it |
| TaxonomyFile.RuleMergeDecides | internal/cli/setup_rules.go:134-150 | under the merged file, once parsed, a path is decided by the more specific of what decided it before and the added rule lines |
| TaxonomyFile.PrintedLinesDeclared | internal/cli/setup_rules.go:154-170 | what is read back is what taxonomy parsing then declares |
| TaxonomyFile.HeadersAreComments | internal/taxonomy/propose.go:153-160 | both headers the kernel prints are comments to the reader |
| Proposal.Ancestors | internal/taxonomy/propose.go:483-491 | all directories above a path, nearest first |
| Proposal.FrontMatterMajority | internal/taxonomy/propose.go:399-436 | the type at least two thirds of the typed documents share, if there is one, and how many are typed |
| Proposal.MajorityUnique | internal/taxonomy/propose.go:399-436 | two types cannot both hold the two-thirds majority, so the map order does not matter |
| Proposal.IdentifyDirectory | internal/taxonomy/propose.go:365-390 | a directory holds a type when its name or a majority of its documents says so and neither says another, with the evidence for it; it is unclear exactly when they disagree or neither speaks; what it holds has a word |
| Proposal.IdentifiesOnce | internal/taxonomy/propose.go:365-390 | that meaning determines the answer and the evidence |
| Proposal.ClaimedTypes | internal/taxonomy/propose.go:365-390 | a claimed type always has a word and is never unknown |
| Proposal.ClaimMeaning | internal/taxonomy/propose.go:264-298 | a directory is proposed for a type exactly when an unknown document lies below it, it is identified as holding the type, and the nearest claiming directory above claims another |
| Proposal.NamesAgreeWithWords | internal/taxonomy/propose.go:365-390 | a directory called by a word of the vocabulary holds what the word stands for, if its name says anything |
| Proposal.PatternInjective | internal/taxonomy/propose.go:300-301 | different directories get different patterns |
| Proposing.GroupByDirectory | internal/taxonomy/propose.go:441-478 | one observation per directory that holds a document at any depth, shallow directories first, counting exactly the documents beneath and directly in it |
| Proposing.CoveredByAncestor | internal/taxonomy/propose.go:493-500 | the claim of the nearest claiming ancestor |
| Proposing.Walk | internal/taxonomy/propose.go:264-298 | the walk claims and skips exactly the directories that the recursive definition of claims says, whatever was remembered on the way |
| Measuring.Merged | internal/taxonomy/propose.go:179-198 | the existing lines and, for each proposed pattern not already declared, its line; sorted by pattern |
| Measuring.CountImpact | internal/taxonomy/propose.go:327-337 | the paths the file claims and the number it leaves |
| Measuring.FindOverridden | internal/taxonomy/propose.go:341-349 | exactly the typed documents whose type the file contradicts, sorted |
| Measuring.GiveCredit | internal/taxonomy/propose.go:353-361 | each proposed line is credited with the documents it decides and no others |
| Measuring.Measure | internal/taxonomy/propose.go:313-362 | the measured numbers for any decoder of the file, and no effect when it does not parse |
| Measuring.Propose | internal/taxonomy/propose.go:227-305 | every field of the proposal as a property of documents and existing file, independent of the walk |
| Measuring.ProposeUpdate | internal/cli/taxonomy_auto.go:32-59 | a proposal on top of the repository's own file, refused exactly when that file has an unreadable line |
| ProposalTheorems.SafeLinesReadBack | internal/taxonomy/propose.go:153-174 | merged lines with known words survive printing and reading if and only if every pattern is such a plain scalar |
| ProposalTheorems.ReadingIsMerged | internal/taxonomy/propose.go:179-198 | the file read back declares exactly the merged lines, reordered longest first |
| ProposalTheorems.ProposalDecides | internal/taxonomy/propose.go:179-198 | under the proposed file, read back, a path is decided by the more specific of what decided it before and the proposed lines |
| ProposalTheorems.MeasuredImpactIsReal | internal/taxonomy/propose.go:313-362 | indexing under the written file leaves unknown what the proposal counted and the unknown documents that an Other line of the repository's own file decides and no proposed line outranks; the count is exact if and only if there are none |
| ProposalTheorems.CreditAccountsForBaseline | internal/taxonomy/propose.go:353-361 | the credits account for the whole gain but for the documents so held back by a line that no directory claims as well; exactly, if and only if there are none |
| ProposalTheorems.ExactWithoutOther | internal/taxonomy/propose.go:313-362 | without an Other line the count is the real one and the credits account for the whole gain |
| ProposalTheorems.OtherLineMiscounts | internal/taxonomy/propose.go:332-335 | a repository with one Other line and one document below it: the proposal counts none left, indexing leaves one |
| ProposalScope.UnderIsPrefix | internal/taxonomy/propose.go:483-491 | a directory is above a clean relative path if and only if it is a prefix up to a separator |
| ProposalScope.DeepestClaimDecides | internal/taxonomy/propose.go:262-300 | without an existing file each document gets the line of its deepest claiming directory, and none if no directory above it claims |
| ProposalScope.CoveredLosesNothing | internal/taxonomy/propose.go:279-286 | a directory passed over as already covered would have declared the type its documents get anyway |
| ProposalScope.EveryDirectoryReported | internal/taxonomy/propose.go:262-301 | a directory with something to gain is reported exactly once, as mapping or as skipped |
| ProposalScope.ProposalOrderIndependent | internal/taxonomy/propose.go:227-305 | permuting the documents changes no field of the proposal |
| Identity.HashParts | internal/domain/id.go:25-34 | the parts fed to the hash one by one are the digest of the parts joined by `|` |
| Identity.DigestInjective | internal/domain/id.go:25-34 | the modelled digest loses nothing |
| Identity.PairInjective | internal/domain/id.go:25-34 | a two-part preimage determines both parts when one side of the bar is free of bars |
| Identity.TripleInjective | internal/domain/id.go:25-34 | a bar-free three-part preimage determines its parts |
| Identity.ChunkIDInjective | internal/domain/chunk.go:23-38 | chunk ids of bar-free documents differ by document and by index |
| Identity.DocumentIDInjective | internal/domain/id.go:25-34 | document ids of bar-free repository ids differ by repository and by path |
| Storage.PlanKeepsInv | internal/storage/sqlite/chunks.go:14-44 | every operation that runs to its end keeps the store invariant: FTS rows are the chunk rows, chunks and tags have their document, documents their repository, paths are unique |
| Storage.RowSays | internal/storage/sqlite/chunks.go:14-44 | a full-text row holds the words of its own chunk |
| Storage.StepKeepsInv | internal/storage/sqlite/documents.go:162-196 | so does one that fails anywhere: in a transaction by rolling back, outside one at every statement boundary |
| Storage.EveryHistoryKeepsInv | internal/storage/sqlite/schema.go:7-79 | the invariant holds after every sequence of puts and deletes, failed or not, from an empty store |
| Effects.PutDocumentRuns | internal/storage/sqlite/documents.go:41-79 | the transaction succeeds if and only if repository, path and row keys permit, and replaces row, tags and outgoing edges |
| Effects.PutChunksRuns | internal/storage/sqlite/chunks.go:14-44 | succeeds if and only if no chunk id is taken by another document, and replaces the document's chunk rows |
| Effects.DeleteDocumentRuns | internal/storage/sqlite/delete.go:11-34 | always succeeds and removes row, chunks, FTS rows, tags and edges in both directions |
| Sqlite.Store.Transact | internal/storage/sqlite/documents.go:41-79 | all statements or none, for a failure at any statement |
| Sqlite.Store.PutDocument | internal/storage/sqlite/documents.go:41-79 | the whole new state, or the old one |
| Sqlite.Store.PutChunks | internal/storage/sqlite/chunks.go:14-44 | the whole new state, or the old one |
| Sqlite.Store.DeleteDocument | internal/storage/sqlite/delete.go:11-34 | the whole new state, or the old one |
| Sqlite.Store.PutTags | internal/storage/sqlite/documents.go:191-196 | outside a transaction: some prefix of its statements ran |
| Sqlite.Store.PutRelationship | internal/storage/sqlite/documents.go:254-264 | an edge with a stored id is left alone, a new one is added |
| Sqlite.Store.PutRepository | internal/storage/sqlite/repositories.go:25-41 | inserts or replaces the registration and nothing else |
| Sqlite.Store.PutIndexState | internal/storage/sqlite/indexstate.go:35-49 | fails exactly for an unregistered repository |
| Sqlite.Store.DeleteRepository | internal/storage/sqlite/repositories.go:92-100 | without a fault succeeds if and only if no document refers to the repository |
| Sqlite.Store.FindRepositoryByPath | internal/storage/sqlite/repositories.go:57-67 | finds a registration of that path if and only if there is one |
| Sqlite.Store.FindDocumentByPath | internal/storage/sqlite/documents.go:98-111 | finds a row of that repository and path if and only if there is one |
| Sqlite.Store.ListDocuments | internal/storage/sqlite/documents.go:114-138 | exactly the repository's documents, strictly by path |
| Sqlite.Store.ListDocumentsByType | internal/storage/sqlite/documents.go:300-324 | exactly the documents of a type, each once, by path |
| Sqlite.Store.ListRelationships | internal/storage/sqlite/documents.go:268-292 | exactly the edges touching a document in either direction, strictly by id |
| Sqlite.Store.ListTags | internal/storage/sqlite/documents.go:199-215 | exactly the document's tags, each once, by key |
| Sqlite.Store.ListRepositories | internal/storage/sqlite/repositories.go:70-86 | exactly the registrations, each once, by name |
| Sqlite.Store.SearchChunks | internal/storage/sqlite/search.go:60-80 | every FTS hit hydrates: no row it needs is missing, and the match says what the row says |
| Extraction.Extract | internal/graph/extract.go:31-91 | for any resolver: fails exactly when resolving a declared field does, else exactly the edges the fields declare, none to the document itself, ids pairwise distinct |
| Extraction.DeclaresMeaning | internal/graph/extract.go:63-91 | `supersedes` links with any value, every other field when it holds a path, but for the two that speak for the other document |
| Extraction.Add | internal/graph/extract.go:35-61 | one reference adds at most one proper edge, and an edge seen before adds none |
| Extraction.SameIdSameEdge | internal/domain/relationship.go:40-66 | edges of one document with the same id are the same edge |
| Extraction.ExtractedEdgesFit | internal/storage/sqlite/documents.go:175-188 | replacing a document's edges by extracted ones breaks no primary key where every stored edge carries its own id |
| Reachable.EveryHistoryIsCanonical | internal/storage/sqlite/documents.go:41-79 | every store reached from the empty one by the kernel's calls, in any order and failing anywhere, is sound and every row carries the id its contents determine |
| Reachable.ReachableEdgesFit | internal/storage/sqlite/documents.go:175-188 | so in every such store replacing a document's edges by extracted ones breaks no primary key |
| Reachable.IndexWritesAreCanonical | internal/indexer/indexer.go:191-198 | the two writes of an indexed file are calls of that kind |
| Reachable.PlainCallsAreCanonical | internal/storage/sqlite/delete.go:11-34 | so are registrations, states and deletions |
| Pipeline.WriteFits | internal/indexer/indexer.go:185-198 | what one file becomes can be written exactly when no two of its tags share an identifier: no other row of the store is ever in the way |
| Pipeline.TagIdsCoincide | internal/domain/tag.go:19-34 | two tags of a document share an identifier if and only if key and value, joined by a bar, agree |
| Pipeline.BarFreeTagsFit | internal/normalizer/normalizer.go:90-102 | when no key holds a bar, removing repeated pairs is exactly what makes the identifiers distinct |
| Pipeline.BarInKeyCollides | internal/normalizer/normalizer.go:90-102 | (`a|b`, `c`) and (`a`, `b|c`) are different tags with one identifier |
| Pipeline.WrittenEntries | internal/indexer/indexer.go:191-198 | after the write the path holds exactly the image of the file |
| Pipeline.WrittenKeepsCanon | internal/indexer/indexer.go:191-198 | rows keep the ids their contents determine |
| Indexing.Write | internal/indexer/indexer.go:191-198 | the two writes in order, and what each failure leaves |
| Indexing.IndexParsed | internal/indexer/indexer.go:160-205 | skip when unchanged, else extract the declared links, chunk and write; one outcome, and no other document, chunk, tag or edge changes |
| Indexing.IndexOne | internal/indexer/indexer.go:136-205 | whatever happens to a file it is counted once, no other document changes, and when the engine does not fail it is one step of the indexing relation, links included |
| Indexing.Links | internal/indexer/indexer.go:173-180 | exactly the edges some field declares and the resolver finds a target for; an error exactly when a reference cannot be resolved; none without a resolver |
| IndexLinks.StepLinks | internal/indexer/indexer.go:173-198 | a file that is added or updated has exactly its declared edges afterwards, and no other document has others |
| IndexLinks.LinkFailure | internal/indexer/indexer.go:173-178 | a file fails for its links exactly when it is not up to date and a reference cannot be resolved, and then nothing changes |
| IndexLinks.RunLinks | internal/indexer/indexer.go:71-76 | after a run each file it stored has exactly the edges its front matter declares, resolved on the tables it found; the others keep theirs |
| IndexLinks.FullIndexLinks | internal/indexer/indexer.go:55-82 | a full index into a store without the repository links every file that it can store |
| IndexLinks.RunTags | internal/storage/sqlite/documents.go:162-173 | after a run each file it stored has exactly the tags it was parsed into |
| IndexLinks.DeletedLinks | internal/storage/sqlite/delete.go:11-34 | deleting a document takes away the edges at it, at either end, and no others |
| IndexLinks.UnchangedStaysUnlinked | internal/indexer/indexer.go:168-171 | an edge to a deleted document is not restored as long as the referrer stays unchanged |
| Runs.IndexAll | internal/indexer/indexer.go:71-76 | the loop is a trace of such steps, and the tally is that of its outcomes |
| Runs.Index | internal/indexer/indexer.go:55-82 | the tables are those of one step per file, in order, and then of `finish`; counts balance (scanned = added + updated + unchanged + errors, errors = failures), the recorded count is the stored one, and every document's chunks stay those of its content |
| Runs.Sync | internal/indexer/indexer.go:89-130 | the same for a sync, with the deletions that were made and counted before `finish` |
| Runs.Finish | internal/indexer/indexer.go:219-275 | leaves exactly the marked registration and the state with the stored number of documents, clean if no file failed; on failure no state, and the registration at most |
| Runs.StepKeepsCurrent | internal/indexer/indexer.go:136-205 | whatever becomes of a file, if every stored document's chunks were its content cut by the chunker they still are |
| Runs.RunKeepsCurrent | internal/indexer/indexer.go:71-76 | so at every point of a run that no engine failure strikes, whatever the rules and the store before |
| Runs.SyncKeepsCurrent | internal/indexer/indexer.go:107-124 | and after the deletions of a sync |
| Workspaces.WorkspaceDetach | internal/cli/cli.go:533-572 | sound at every interruption, other repositories untouched, rows only taken away, the registration at the path last; when it succeeds nothing of the repository is left |
| Workspaces.IndexWorkspace | internal/cli/cli.go:166-205 | every attached repository, or the one an empty workspace registers, gets one full run over its files and `finish`, each on what the one before left; the answer counts those that did not end |
| Workspaces.SyncWorkspace | internal/cli/cli.go:245-282 | likewise one sync each, or a full run for a repository never indexed |
| Workspaces.WorkspaceRepositories | internal/cli/cli.go:212-231 | all registrations by name, or, in an empty workspace, the new one for its own directory |
| Workspaces.SyncRepository | internal/indexer/indexer.go:89-130 | a sync of what changed, or a full index when the repository was never indexed or the collector cannot say; nothing when it cannot be read |
| WorkspaceTheorems.PassSame | internal/cli/cli.go:184-201 | the pass over one repository changes no entry, row, registration or state of another |
| WorkspaceTheorems.IndexedWorkspaceMirrors | internal/cli/cli.go:166-205 | in the end every repository that nothing fails under mirrors its files exactly under the conditions of its own full index, whatever became of the others |
| WorkspaceTheorems.NewRepositoryMirrors | internal/cli/cli.go:166-205 | without condition when nothing of it was held before |
| WorkspaceTheorems.SyncedWorkspaceMirrors | internal/cli/cli.go:245-282 | in the end of a sync exactly under the conditions of its own sync |
| WorkspaceTheorems.CountsStand | internal/indexer/indexer.go:246-275 | every repository whose run ended has in the end the number of its rows recorded |
| WorkspaceTheorems.WhoFails | internal/cli/cli.go:184-204 | a repository fails when its files or its taxonomy cannot be read, and otherwise only at its last two writes |
| WorkspaceTheorems.NoneFails | internal/cli/cli.go:184-204 | none fails when all can be read and no fault strikes those writes |
| Workspaces.Session | internal/cli/cli.go:125-572 | any commands in any order, failing anywhere, from a new store: each does what it does to the store the ones before left, and every store on the way is sound and canonical |
| Runs.CountsConserve | internal/indexer/indexer.go:136-205 | every outcome raises exactly one counter |
| Runs.ListedCount | internal/indexer/indexer.go:246-247 | a listing without repeats counts the rows |
| IndexTheorems.FullIndexMirrors | internal/indexer/indexer.go:55-82 | into a store that holds nothing of the repository a full index leaves, for every path, exactly the image of its file |
| IndexTheorems.IndexMirrorsExactly | internal/indexer/indexer.go:55-82 | over any store a full index ends mirroring the files if and only if none is refused while an earlier version is stored and no stored file is gone, since it removes nothing |
| IndexTheorems.FallbackMirrorsExactly | internal/collector/filesystem/incremental.go:44-57 | the same of a sync when git cannot say what changed |
| IndexTheorems.SyncEntry | internal/indexer/indexer.go:89-130 | what a sync leaves at each path, given any snapshot the index mirrored before |
| IndexTheorems.SyncMirrorsExactly | internal/indexer/indexer.go:89-130 | over any store a sync ends mirroring what a full index walks if and only if no listed file is refused while an earlier version is stored, no listed file outside the walk can be indexed, and the index was right about every path git does not list |
| IndexTheorems.SyncFromBase | internal/indexer/indexer.go:89-130 | when git describes the way from the mirrored tree, the last condition is that files walked but never asked about have not changed |
| IndexTheorems.IncrementalEqualsFull | internal/indexer/indexer.go:84-130 | incremental and full index hold the same document and chunks at every path if and only if those conditions hold |
| IndexTheorems.IncrementalFromGit | internal/collector/filesystem/incremental.go:44-134 | the same from git's two texts: printed changes, parsed, overlaid, read and synced |
| IndexTheorems.HiddenEditIsIndexed | internal/collector/filesystem/incremental.go:50-50 | a committed edit of a file git lists and the walk skips, such as a tracked `vendor/a.md`, is indexed by a sync and never by a full index |
| IndexTheorems.UndoneEditIsMissed | internal/indexer/indexer.go:229-240 | an uncommitted edit indexed and then undone is not seen by the next sync: the index is right if and only if the edit made no difference to it |
| IndexTheorems.AfterFirstRun | internal/indexer/indexer.go:160-183 | after a run every success is stored as it would be stored now |
| IndexTheorems.SecondRunChangesNothing | internal/indexer/indexer.go:160-183 | a second run reports every success as unchanged, every refusal as refused, and leaves all tables as they are |
| IndexTheorems.DocumentsGrowByAdded | internal/indexer/indexer.go:200-204 | the repository's documents grow by the number reported added |
| IndexTheorems.FaultBetweenWritesSticks | internal/indexer/indexer.go:191-198 | after a fault between the two writes the next run says unchanged and keeps the old chunks; right if and only if they were the new ones |
| Collecting.Collect | internal/collector/filesystem/collector.go:46-95 | every file the walk reads, once, with its bytes, by path |
| Collecting.VendoredIsHidden | internal/collector/filesystem/collector.go:32-39 | markdown in a skipped directory is listed by git and not walked |
| Collecting.UpperCaseIsUnseen | internal/collector/filesystem/collector.go:104-107 | markdown with an upper-case extension is walked and not listed by git |
| Changes.ParseNameStatus | internal/collector/filesystem/incremental.go:88-109 | the loop is the fold of the line meaning over all lines |
| Changes.ParsePorcelain | internal/collector/filesystem/incremental.go:115-134 | likewise for the porcelain lines |
| Changes.NameStatusParsed | internal/collector/filesystem/incremental.go:88-109 | parsing what git prints for a list of changes overlays exactly those changes |
| Changes.PorcelainParsed | internal/collector/filesystem/incremental.go:115-134 | likewise for the working-tree changes |
| Changes.CopyMarksSource | internal/collector/filesystem/incremental.go:97-107 | a copy line marks its source and says nothing of the copy |
| Changes.RenamedThenDeletedIsPresent | internal/collector/filesystem/incremental.go:119-131 | the code `RD` calls the new path present, though it is gone |
| Changes.OverlayIsLast | internal/collector/filesystem/incremental.go:88-134 | the overlay says of a path what the last change mentioning it says |
| Changes.OverlayIsTruthful | internal/collector/filesystem/incremental.go:44-63 | base-to-head overlaid by head-to-worktree is true of base-to-worktree |
| Changes.CollectChanged | internal/collector/filesystem/incremental.go:35-83 | reads each present file once and lists the deleted ones; fails exactly when a file git calls present is missing; collects everything and deletes nothing when git cannot compare |
| Changes.CollectedIsTruthful | internal/collector/filesystem/incremental.go:35-83 | from the two texts to statuses true of the working tree, naming only mentioned paths |
| Traversal.WalkTable | internal/storage/sqlite/traverse.go:15-26 | the recursive query ends on every graph, cycles included, with exactly the rows (document, hops) that a walk of that many edges justifies |
| Traversal.TraverseRelationships | internal/storage/sqlite/traverse.go:11-41 | each document other than the root exactly once, if and only if an undirected walk of at most `depth` edges reaches it; a negative depth is 0 |
| Traversal.WithinSymmetric | internal/storage/sqlite/traverse.go:11-41 | being within reach does not depend on the direction |
| Traversal.WithinTriangle | internal/storage/sqlite/traverse.go:11-41 | balls compose |
| Traversal.WithinMonotone | internal/storage/sqlite/traverse.go:11-41 | the ball grows with depth and with the table |
| Traversal.DeepEnough | internal/storage/sqlite/traverse.go:11-41 | a depth of the number of documents on edges reaches the whole connected component |
| Traversal.Neighbors | internal/graph/graph.go:31-37 | exactly the stored edges at a document |
| Traversal.Traverse | internal/graph/graph.go:42-74 | exactly the stored edges with both ends in the ball, each once |
| Traversal.SubgraphGrows | internal/graph/graph.go:42-74 | a deeper traversal keeps every edge of a shallower one |
| Ranking.Normalize | internal/search/rank.go:102-126 | min-max scaling of every value |
| Ranking.NormalKeepsOrder | internal/search/rank.go:102-126 | scaling lands in [0, 1], keeps the order both ways, and maps best to 1 and, unless all tie, worst to 0 |
| Ranking.NormalIsLinear | internal/search/rank.go:102-125 | unless all tie, the scaled value is the share of the range that lies below the value |
| Ranking.GraphBoosts | internal/search/rank.go:139-179 | each match's share of the busiest match's connections; zero without a graph or with fewer than two matches |
| Ranking.CountConnections | internal/search/rank.go:145-171 | connections are the edges whose other end is in the pool, none where the lookup failed |
| Ranking.BoostsOrderConnections | internal/search/rank.go:172-178 | boosts lie in [0, 1], order matches by their connections, and reach 1 once there is any |
| Ranking.BoostIsShare | internal/search/rank.go:172-178 | a boost is the share of the most connections any match has |
| Ranking.OtherEndIsOther | internal/search/rank.go:158-165 | the ends of an edge at a document are the document and the other end |
| Ranking.CauchySchwarz | internal/search/rank.go:222-227 | the accumulated dot product squared is at most the product of the accumulated magnitudes |
| Ranking.CosineSimilarity | internal/search/rank.go:218-232 | the quotient, or 0 where no angle is defined |
| Ranking.CosineBounded | internal/search/rank.go:218-232 | similarity lies in [-1, 1] and times the two lengths is the dot product |
| Ranking.CosineOfMultiple | internal/search/rank.go:218-232 | a vector and each of its positive multiples have similarity 1 |
| Ranking.EmbeddingBoosts | internal/search/rank.go:186-216 | fails if and only if the provider does or answers with another number of vectors; else clamped similarities |
| Ranking.SimilarityBounded | internal/search/rank.go:206-215 | a clamped similarity lies in [0, 1] |
| Ranking.Rank | internal/search/rank.go:62-89 | every match keeps its place and gets the weighted blend of three signals in [0, 1] |
| Ranking.BlendBounded | internal/search/rank.go:80-87 | a blend lies between 0 and the sum of the weights, with the defaults in [0, 1] |
| Ranking.BlendWeighs | internal/search/rank.go:80-87 | each signal counts by its own weight |
| Ranking.KeywordDominates | internal/search/rank.go:13-25 | by default a best keyword match scores above a worst one whatever the other signals say |
| Searching.CollapseToDocuments | internal/search/search.go:186-198 | exactly the first occurrence of each document, in order |
| Searching.TopOf | internal/search/search.go:140-160 | sort, collapse and truncate give the top documents of the pool |
| Searching.TopMeaning | internal/search/search.go:142-160 | each document has its maximum score over the pool, scores do not increase, and nothing left out beats anything returned |
| Searching.PicksDistinct | internal/search/search.go:142-160 | no document twice |
| Searching.TopCount | internal/search/search.go:157-160 | as many results as the limit, or one for each document of the pool |
| Searching.TopUnique | internal/search/search.go:140-160 | these properties determine the result, ties in pool order |
| Searching.RelatedDocuments | internal/search/search.go:205-250 | all stored documents linked by an edge, in the order of their first edges by id, if there are any; else up to five sharing a telling tag, fewer only if there are no more |
| Searching.FindDocumentsByTag | internal/storage/sqlite/documents.go:218-251 | exactly the other documents of the repository with that tag, each once |
| Searching.Search | internal/search/search.go:116-177 | for any rows the full-text engine picks: the top documents of the ranked pool, fails only when embedding does |
| Searching.ScoresShown | internal/search/search.go:162-176 | with default weights every score shown lies in [0, 1] |
| Sorting.SortStable | internal/search/search.go:140-140 | a permutation sorted by the order in which elements that tie keep their places |
| Retrieval.GovernsChange | internal/retriever/retriever.go:227-232 | without paths every rule governs, with paths those whose scope matches |
| Retrieval.GroupHits | internal/retriever/retriever.go:90-101 | the hits under each label in search order, rules that do not govern dropped |
| Retrieval.ScopedRules | internal/retriever/retriever.go:160-200 | the first ten governing rules: higher scores first, equal scores by path, and a rule left out scores no higher than any shown; nothing without paths or storage |
| Retrieval.EntryIsLastHit | internal/retriever/retriever.go:173-188 | a rule the search hit is shown with the score of its last hit |
| Retrieval.EntryWithoutHit | internal/retriever/retriever.go:173-188 | any other with no score |
| Retrieval.ScopeIsDeclared | internal/retriever/retriever.go:227-232 | a rule governs what its `applies_to` field says, and everything without one |
| Retrieval.SnippetIsShort | internal/retriever/retriever.go:205-212 | a short text whole, a longer one by its first 200 characters at most |
| Retrieval.LabelsSeparate | internal/retriever/retriever.go:22-32 | every Knowledge Type but unknown has a section of its own |
| Retrieval.Emit | internal/retriever/retriever.go:119-135 | each label of the order once, at its first occurrence |
| Retrieval.Retrieve | internal/retriever/retriever.go:84-141 | the sections in order with exactly their hits, and the Rules section |
| Retrieval.EveryDefaultOnce | internal/retriever/retriever.go:114-135 | every default label is the label of exactly one emitted section for any priority |
| Retrieval.HitInOneSection | internal/retriever/retriever.go:90-138 | every hit that is not a rule is in exactly one section, the Rules section included, as often as the search gave it |
| Retrieval.RulesHoldRules | internal/retriever/retriever.go:103-107 | only rules are in the Rules section, whoever filled it |
| Retrieval.RulesAreFirstTen | internal/retriever/retriever.go:103-107 | the Rules section is exactly the first ten governing rules, also when the nil result falls back to the filtered hits |
| Retrieval.NoRuleNoHit | internal/retriever/retriever.go:93-107 | when no stored rule governs, no rule hit survived the filter |
| Searching.SearchedAreStored | internal/search/search.go:162-176 | every result is a document the store holds |
| Memory.CleanIdempotent | pkg/memory/evidence.go:161-163 | cleaning twice is cleaning once |
| Memory.CleanKept | pkg/memory/evidence.go:161-163 | an excerpt is left as it is, letter case and all, if and only if it has no marker and no needless blank |
| Memory.CleanDrops | pkg/memory/evidence.go:161-163 | cleaning drops markers and makes every run of blanks one space |
| Memory.NormalizeIdempotent | pkg/memory/evidence.go:168-173 | normalising twice is normalising once |
| Memory.CaseIgnored | pkg/memory/evidence.go:168-173 | letter case makes no difference |
| Memory.MarkersIgnored | pkg/memory/evidence.go:168-173 | a highlight marker anywhere makes no difference |
| Memory.BlanksIgnored | pkg/memory/evidence.go:168-173 | how many blanks there are, and which, makes no difference |
| Memory.BlanksSeparate | pkg/memory/evidence.go:168-173 | blanks only separate the words compared |
| Memory.EllipsisIsBlank | pkg/memory/evidence.go:168-173 | an ellipsis is a blank, unless it lengthens a run of dots before it |
| Memory.NormalFormIsKept | pkg/memory/evidence.go:168-173 | and nothing else is dropped: a text is compared as it stands if and only if it is in lower case, tidy, and free of markers and ellipses |
| Memory.NormalizeCleaned | pkg/memory/evidence.go:161-173 | cleaning takes away nothing that matching looks at |
| Memory.SplitRoundTrip | pkg/memory/evidence.go:42-47 | a qualified name splits back if and only if the repository has no colon and there is a path; a bare one if it does not read as qualified |
| Memory.Lookup | pkg/memory/evidence.go:106-125 | the first named entry of each repository, in order |
| Memory.FoundShows | pkg/memory/evidence.go:106-125 | every repository that shows a named entry is represented |
| Memory.VerifyEvidence | pkg/memory/evidence.go:64-87 | the evidence a quote amounts to, or none |
| Memory.QuoteVerifies | pkg/memory/evidence.go:141-155 | a quote whose words stand one after the other among those of the one source named is evidence of high confidence |
| Memory.PlainQuoteVerifies | pkg/memory/evidence.go:141-155 | in particular one in other letter case and spacing |
| Memory.LongQuoteVerifies | pkg/memory/evidence.go:141-155 | a quote that says all the snippet says and more is evidence of medium confidence |
| Memory.VerifiedReverifies | pkg/memory/evidence.go:64-87 | evidence verifies again from its own qualified name and excerpt, with the same confidence, if its repository has no colon |
| Memory.OnlyColonsHinder | pkg/memory/evidence.go:131-137 | evidence verifies again from its own qualified name and excerpt if and only if its repository has no colon |
| Memory.EvidenceIsSupported | pkg/memory/evidence.go:64-87 | evidence names a shown file whose snippet backs the excerpt, and under a bare path no other repository shows that path; confidence is never low |
| Chunking.HeadingMeaning | internal/chunker/chunker.go:185-199 | a heading is one to six `#`, a blank and text, and the text is what follows, trimmed |
| Chunking.ChunkByHeading | internal/chunker/chunker.go:70-105 | the whole sections of the text (see PiecesAreRuns), numbered from 0; fails exactly for a blank document id and some piece |
| Chunking.ChunkByParagraph | internal/chunker/chunker.go:110-151 | likewise the whole paragraphs |
| Chunking.ChunkByFixedSize | internal/chunker/chunker.go:155-181 | the trimmed windows that are not blank, numbered from 0 |
| Chunking.ChunkDocument | internal/chunker/chunker.go:52-63 | the strategy asked for, heading by default, an error for any other |
| Chunking.ChunkingConserves | internal/chunker/chunker.go:70-151 | the visible characters of all chunks in order are those of the lines that are not headings |
| Chunking.PiecesAreRuns | internal/chunker/chunker.go:70-151 | the chunks are exactly the stretches of lines between two headings (between paragraphs: or blank lines) or ends of the document that show something, each whole, trimmed, under its nearest preceding heading, in order |
| Chunking.ParagraphsSubdivide | internal/chunker/chunker.go:107-151 | each heading chunk is a nonempty run of consecutive paragraph chunks under its heading showing the same text, and none is left over |
| Chunking.WindowsConserve | internal/chunker/chunker.go:155-181 | windows conserve the visible text, and none is blank or larger than the size |
| Chunking.WindowsAt | internal/chunker/chunker.go:155-181 | window `i` is the `size` characters from `i * size` on |

## Left out

- Running git, walking directories, reading files, `go install`, the CLI's prompts and
  output, configuration, doctor, review and setup orchestration: processes, I/O and
  presentation. Git's and the file system's answers are inputs.
- SQL text, FTS5 matching, bm25 and snippets: the engine picks any rows with any scores.
- goldmark parsing, the YAML grammar beyond one-line entries of a block mapping, SHA-256 itself, random ids,
  clocks and cancellation.
- `UserQuery` and `keywords` quoting, context building and conversion to the public types,
  simple constructors and validators: they would add only easy members.
- `filepath.ToSlash` and `path.Clean`: paths are taken clean and with forward slashes.
- TaxonomyFile.PrintedFileReadsBack: the reader takes entries that stand on one line at one
  indentation; it refuses scalars and collections over several lines, explicit keys, flow
  collections, other sections and lines at another indentation, and takes every tag for a string.
- ProposalScope.DeepestClaimDecides: for wildcard-free directories over clean relative paths,
  since a directory whose name holds a wildcard is printed as a pattern and matches more.
- IndexTheorems.IncrementalEqualsFull: compares documents and chunks, not relationships, which
  depend on what was stored when a file was indexed (`IndexLinks.RunLinks`).
- IndexLinks.FullIndexLinks: the resolver is a parameter that may look at the tables, as they are
  when the file is reached; the default one is not modelled.
- Collecting.Collect: directory entries, links and git's ignore rules are given as the files of
  the tree and the set of ignored paths.
- IndexTheorems.IncrementalFromGit: git's lists are taken as true of the files it is asked
  about; copy lines, renamed-then-deleted and merge-conflict codes
  and quoted paths are excluded; the parsers do not handle them. The repository is registered at
  the root of its worktree: below it git prints paths from the root, which the code reads relative
  to the registered directory (`internal/collector/filesystem/incremental.go:50`, `:73`).
- Extraction.Extract: a path-shaped reference resolves without an existence check, so an edge
  may end at a document that is not stored; nothing more is claimed of its target.
- Sqlite.Store.PutTags: runs outside a transaction, so only a prefix is promised; like
  `DeleteRepository`, each of whose prefixes keeps the invariant.
- Runs.Index: timestamps of the index state are not modelled; nor are errors of plain lookups.
- Searching.RelatedDocuments: errors of the store's lookups are not modelled; the order of
  documents sharing a tag is left open, as SQL leaves it.
- Searching.Search: repository and type filters act inside the full-text engine and are part
  of its choice of rows.
- Ranking.CosineSimilarity: over the reals; rounding of 32- and 64-bit floats is not modelled.
- Retrieval.Retrieve: starts from what the search answered; a failing search is passed on.
- Chunking.ChunkByFixedSize: windows are cut between characters, not between the bytes of one.
