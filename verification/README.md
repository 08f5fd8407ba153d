# Swamp: a verified model of its build, client and lease logic

This project models the algorithms of the Swamp repository whose mistakes would go unnoticed:
the codemod that rewrites imports of a barrel, the search that explains why a package is in the
lock file, the attestation builder that decides whether a run executed the committed workflow,
the selection of commands a change can affect, the WebSocket client, the pacing of run
checkpoints, the scanners and log normalisers of the integration suite, the guard against
unscoped writes, the env-file renderer, and the writer lease of the v3 datastore.

`dafny verify dfyconfig.toml` checks everything. There is one module per file:

| file | models |
|---|---|
| `ModulePaths.dfy`, `Unbarrel.dfy`, `UnbarrelReader.dfy`, `UnbarrelLoader.dfy`, `Splice.dfy`, `UnbarrelFile.dfy` | `scripts/unbarrel.ts` |
| `DependencyChain.dfy` | `scripts/audit_deps.ts` |
| `Provenance.dfy`, `ProvenanceFindings.dfy`, `StrictProvenance.dfy`, `TreeManifest.dfy`, `AttestationGate.dfy`, `Attestation.dfy` | `scripts/build_attestation.ts` |
| `AffectedCommands.dfy` | `scripts/affected_commands.ts` |
| `ClientStream.dfy` (modules `ClientStream` and `ClientObjects`) | `packages/client/client.ts` |
| `CheckpointPacing.dfy` | `scripts/bench_v3_workflow_checkpoint.ts` |
| `ArgumentScanner.dfy` | `integration/arch_fitness_helpers.ts` |
| `MarkRuns.dfy`, `SyncOrder.dfy`, `StagedMarks.dfy`, `StagedRuns.dfy` | `integration/usecase_sync_fixtures.ts` |
| `LegacyUnits.dfy` | `src/infrastructure/persistence/legacy_unit_of_work.ts` |
| `WriteGuard.dfy` | `integration/unscoped_write_guard.ts` |
| `EnvFile.dfy` | `scripts/setup_verify_env.ts` |
| `WriterLease.dfy` | `src/domain/datastore_v3/writer_lease.ts`, `src/infrastructure/datastore_v3/sqlite_commit_store.ts` |
| `Text.dfy`, `Sorting.dfy`, `Options.dfy` | the runtime's `trim`, `split`, `join` and stable `sort`, and absent values |

## How it is modelled

- Loops and fields that the source updates are methods and classes; what they compute is tied to a
  function or a relation, and the promises are lemmas about that function or relation. Protocols
  (the client, the units of work, the lease) are state machines, and their theorems hold for every run: every sequence
  of steps, in any order. The client's methods are proved to be exactly those steps: the machine's
  state is read off the objects' own fields.
- Where a contract is an equation with a function (`Scan`, `Render`, `Merged`, `Substitute`), that
  function has a partner: a printer it undoes, a reader that undoes it, or a declarative reading.
- Characters are code points; the runtime compares strings by UTF-16 units. The two orders differ
  only outside the Basic Multilingual Plane, and no theorem depends on which total order is used.
- A barrel that exports a name twice is refused by the parser, so `Unbarrel.ParseBarrel` does not say
  which of two exports would win.
- Taken as parameters: the parser's syntax tree (with spans that nest), the CEL evaluator and its
  expression scanner, SHA-256, what git and the file system answer to the attestation builder, and
  the judgement of clocks and process liveness in the lease.

## Where the code does less than it seems to

- `specifierTo` (`scripts/unbarrel.ts:155-160`) does not prefix a relative path that starts with a
  dot, so a module under `.gen/` is named `.gen/b.ts`, which a loader does not take as relative, and
  it escapes nothing a loader reads as part of a URL. `ModulePaths.RelativeSpellingIff` and `LoadableIff`
  say exactly when a loader takes what is written for the module meant; `UnbarrelLoader.DotEntryDoesNotLoad`
  is an input where it does not.
- `renderStatement` (`scripts/unbarrel.ts:298-311`) and the import-type branch
  (`scripts/unbarrel.ts:409-413`) copy a name written as a string without its quotes, and put a module
  path that holds a quote, a backslash or a line break between quotes as it is.
  `UnbarrelReader.ReplacementReadsBack` and `UnbarrelFile.RewrittenSaysTheSame` show that what is written
  reads back exactly when every name is an identifier and no path needs an escape, and that it then says
  the same to a loader exactly when each module's specifier is loadable in the sense above;
  `StringNameExample`, `QuotedPathExample` and `StringTypeExample` are inputs where it does not.
- The comment at `scripts/audit_deps.ts:196` says that versions may carry a suffix naming a peer package,
  as `4.10.0_@azure+core-rest-pipeline@1.22.2`; the key is cut at its last `@`, which stands in that
  suffix. `DependencyChain.NameIsFoundIff` says exactly when the package's name is found, and
  `PeerSuffixIsName` what is taken for it otherwise. A suffix that names a peer always holds `@`, so the
  code that cuts the version at `_` (`scripts/audit_deps.ts:198`) never takes such a suffix off. Where it
  does cut, at a key like `a@1_p` that no peer suffix gives, the search starts from a key that is not the
  lock's: `DependencyChain.Audit` states exactly when the package's own key is explained, and
  `SuffixExample` shows it on that key.
- `checkWorkflowProvenance` (`scripts/build_attestation.ts:708-717`) asks `key in c`, which is also
  true of names every object inherits, and recognises the root by an empty path, which a chain of
  empty keys keeps. `Provenance.ExtraKeyExamples` gives both inputs. A YAML timestamp is parsed to a
  `Date`, an object without keys, of which nothing is compared: `Provenance.TimestampExamples` accepts
  any timestamp, or an empty mapping, for another. `Provenance.CheckIffConforms` is the exact condition,
  and `Provenance.CheckIsDocumented` shows that only such keys and timestamps make a difference.
- The strict check (`scripts/build_attestation.ts:732-789`) is meant to be the wildcard check with exact
  shells. It is not stricter where a shell's expression holds a quoted `}}`, at which the wildcard ends
  the expression: `StrictProvenance.QuotedCloserExample` passes the strict check only.
  `StrictRefinesWildcardIff` says exactly when it refines the wildcard check, and `CutsFitIff` when it
  does so whatever the expressions evaluate to, in terms of how the two scanners cut the shell.
- The scanner of `constructorCalls` (`integration/arch_fitness_helpers.ts:196-212`) does not know
  quotes, unlike `callArguments`. `ArgumentScanner.ScannersAgreeIff` says that the two agree on a list
  exactly when a quote-blind scan goes over each argument without a cut and comes back to depth 0, and
  `QuotesTellThemApart` which single quoted characters prevent that.
- `assertUnitsStagedTheirMarks` (`integration/usecase_sync_fixtures.ts:800-840`) takes a declared mark
  out where it first occurs, which may be a use case's own mark of the same text, and then reports that
  use case as out of order. `StagedRuns.CheckPassesIff` says when the check passes on every run of the
  units of work, and `FirstIsTakenOut` is a run it refuses although every mark is accounted for.
- `renderEnvFile` (`scripts/setup_verify_env.ts:89-116`) is not idempotent for a value with a newline
  or a key that is not an identifier; `EnvFile.IdempotentIff` says it is in every other case.
- The comment at `packages/client/client.ts:105` says that a close rejects all pending requests. A stream
  whose pull is waiting is told the end instead, as after a completed run, and never learns of the close;
  one that is busy loses what it has buffered. `ClientStream.FailureTells` and `RejectedAtMostOnce` state
  what its consumer is told, in every run, by the close, an error frame and an error event;
  `ClosedWhileWaiting` and `ClosedWhileBusy` are runs of both kinds.
- A `payload` frame for a stream (`packages/client/client.ts:328-332`) removes it without finishing its
  queue, so that a waiting pull is never answered. `ClientStream.UnansweredForGood`, `WaitsPastEnding` and
  `WaitsAfterEnding` show that only this can have that effect; `ResponseForgetsStream` is the run.

## Model

| member | source | states |
|---|---|---|
| `ModulePaths.SpecifierRoundTrip` | scripts/unbarrel.ts:147-160 | `resolveSpecifier` undoes `specifierTo` for every importing file and every normalised module path |
| `ModulePaths.ModuleRoundTrip` | scripts/unbarrel.ts:147-160 | what is written as a specifier names the module that was meant, a file or a bare package |
| `ModulePaths.RelativeSpellingIff` | scripts/unbarrel.ts:155-160 | the specifier starts with `./` or `../` exactly when the module is not an entry with a leading dot beside the importer (nor the directory above) |
| `ModulePaths.DotEntryExample` | scripts/unbarrel.ts:155-160 | a concrete pair of files on which the specifier is not relative |
| `ModulePaths.LoadableIff` | scripts/unbarrel.ts:155-160 | a loader takes the specifier written for a module for that module exactly when the module is a package, or no such entry with a path that needs no escape in a URL |
| `Unbarrel.ParseBarrel` | scripts/unbarrel.ts:167-200 | the barrel is refused exactly when a statement is not a named re-export; otherwise the map holds every exported name, each as some item of the barrel binds it when read as an export statement of its own, type-only by the item or by its statement, and every origin can be named again |
| `Unbarrel.AddItems` | scripts/unbarrel.ts:183-197 | one statement adds exactly its names, each as its item binds it, and keeps the others; a whole-module item refuses |
| `Unbarrel.GroupMeansStatement` | scripts/unbarrel.ts:303-310 | moving the type mark from the names to the statement changes no name's type-only reading |
| `Unbarrel.AddNameBinds` | scripts/unbarrel.ts:363-370 | putting a name into its target's group adds exactly its binding to what all statements bind |
| `Unbarrel.AddNameTargets` | scripts/unbarrel.ts:364-370 | a target never gets two groups |
| `Unbarrel.OutcomeMeans` | scripts/unbarrel.ts:335-380 | a statement is left whole exactly when it is a side effect, takes the whole barrel, holds a comment or takes an unknown name, with the first reason that applies; otherwise the replacement binds the same names to the same module, name and type-only reading, one statement per target |
| `Unbarrel.GroupsBind` | scripts/unbarrel.ts:351-371 | after any number of specifiers the groups bind exactly what those specifiers bind by way of the barrel |
| `Unbarrel.RewriteStatement` | scripts/unbarrel.ts:335-380 | the loop over specifiers computes the outcome the lemmas above are about |
| `Unbarrel.NameIsWritten` | scripts/unbarrel.ts:298-311 | the statement written for one name, letter by letter: the name alone when bound as itself, with `as` otherwise, `type` behind the keyword for a type |
| `UnbarrelReader.StringReadsBackIff` | scripts/unbarrel.ts:310 | text put between quotes as it is reads back exactly when it holds no quote, backslash or line break |
| `UnbarrelReader.StatementReadsBackIff` | scripts/unbarrel.ts:298-311 | the text of one statement, for any names and any path, reads back as the statement meant exactly when all its names are identifiers and its path needs no escape |
| `UnbarrelReader.GroupsReadBackIff` | scripts/unbarrel.ts:373-379 | the joined text of any groups reads back as their statements exactly when each group's does |
| `UnbarrelReader.ReplacementReadsBack` | scripts/unbarrel.ts:335-380 | for every statement that is rewritten, the text reads back as the statements meant exactly when every name it takes and binds is an identifier and no defining module's specifier needs an escape, and then binds, by the codemod's own resolver, exactly what the statement bound by way of the barrel |
| `UnbarrelReader.StringNameExample` | scripts/unbarrel.ts:298-311 | a name the barrel takes from a string name is written so that it does not read back |
| `UnbarrelReader.QuotedPathExample` | scripts/unbarrel.ts:298-311 | so is a module whose path holds a quote |
| `UnbarrelLoader.ReplacementLoadsIff` | scripts/unbarrel.ts:335-380 | a replacement that reads back binds, as a loader reads it, exactly what the statement bound by way of the barrel exactly when the loader takes every specifier written for the module meant |
| `UnbarrelLoader.LoadedAsItself` | scripts/unbarrel.ts:147-160 | a loader never takes the specifier of one module for another file |
| `UnbarrelLoader.DotEntryDoesNotLoad` | scripts/unbarrel.ts:155-160 | a barrel entry under `.gen/` whose replacement reads back and does not load |
| `Splice.CollectApart` | scripts/unbarrel.ts:106-117 | the edits collected from every tree of nested spans are non-empty, inside the tree's span and pairwise disjoint |
| `Splice.SubstituteVerbatim` | scripts/unbarrel.ts:432-435 | text in which no edit starts is kept verbatim |
| `Splice.ApplyEdits` | scripts/unbarrel.ts:432-435 | splicing disjoint edits from the greatest start down equals substituting all of them at once at their original offsets |
| `Splice.TreeEdits` | scripts/unbarrel.ts:382-436 | whatever a tree contributes can be spliced |
| `UnbarrelFile.RewrittenOrReported` | scripts/unbarrel.ts:382-430 | every reference to the barrel is either rewritten or reported, never both, and each kind of reference is reported for its own reason |
| `UnbarrelFile.Visit` | scripts/unbarrel.ts:106-117 | the walk pushes exactly the tree's edits and reports, in order, and counts every reference once |
| `UnbarrelFile.VisitReference` | scripts/unbarrel.ts:382-430 | one node's edits, report and count |
| `UnbarrelFile.AstIsTree` | scripts/unbarrel.ts:106-117 | the edits of every syntax tree with nested spans meet the splicer's condition, whatever the barrel |
| `UnbarrelFile.RewriteFile` | scripts/unbarrel.ts:317-437 | for every file, the new text is the old one with the edits of all rewritten references substituted at once, and rewritten and reported references add up to all references |
| `UnbarrelFile.EditsAreOfNodes` | scripts/unbarrel.ts:382-430 | the file's edits are exactly those of its nodes |
| `UnbarrelFile.ReportsAreOfNodes` | scripts/unbarrel.ts:382-430 | the file's reports are exactly those of its nodes, each at the node's place |
| `UnbarrelFile.ReferencesAreCounted` | scripts/unbarrel.ts:382-430 | every node that refers to the barrel is counted once, and no other |
| `UnbarrelFile.ImportTypeReadsBackIff` | scripts/unbarrel.ts:409-413 | the two texts of an import type read back exactly when the name is an identifier and the specifier needs no escape |
| `UnbarrelFile.RewrittenSaysTheSame` | scripts/unbarrel.ts:335-415 | the edits of every rewritten import, export or import type of a file read as what was meant exactly when its names are identifiers and its specifiers need no escape, and then say to a loader what it said by way of the barrel exactly when each specifier is loadable |
| `UnbarrelFile.StringTypeExample` | scripts/unbarrel.ts:409-413 | an import type at any place of a file, of a name taken from a string name, is written as `a-b`, which does not read back |
| `DependencyChain.BuildNameToKeyMap` | scripts/audit_deps.ts:104-117 | a name maps to exactly the lock keys of that package name |
| `DependencyChain.BuildReverseDeps` | scripts/audit_deps.ts:119-137 | a key's parents are exactly the entries with a dependency that maps to the key |
| `DependencyChain.TransposeIsExact` | scripts/audit_deps.ts:104-137 | the two passes together are the exact transpose of the lock's dependency lists |
| `DependencyChain.TraceDependencyChain` | scripts/audit_deps.ts:139-171 | the search ends with a shortest walk up to a direct dependency other than the target, or with the target alone exactly when there is none |
| `DependencyChain.FirstIsNearest` | scripts/audit_deps.ts:149-168 | at every moment the front of the queue is as near as any key not visited |
| `DependencyChain.Explain` | scripts/audit_deps.ts:431-450 | in terms of the lock: a shortest chain from a direct dependency down to the key, each entry listing the next, or the key alone exactly when there is none |
| `DependencyChain.NameIsFoundIff` | scripts/audit_deps.ts:190-195 | a lock key's package name is found exactly when its version holds no `@` |
| `DependencyChain.PeerSuffixIsName` | scripts/audit_deps.ts:194-200 | a suffix naming a peer with its version always ends up in the package's name, and the version is the peer's |
| `DependencyChain.TargetKeyIff` | scripts/audit_deps.ts:197-200 | the key searched for has the package's name, and is the package's own exactly when its version holds no `_` |
| `DependencyChain.Audit` | scripts/audit_deps.ts:447-450 | a direct package is its own chain; any other gets an explanation of the key searched for, which is one of its own key exactly when the version holds no `_` |
| `DependencyChain.SuffixExample` | scripts/audit_deps.ts:197-200 | a key with a suffix, of no peer, that the lock explains and the audit does not |
| `Provenance.FirstExpressionIff` | scripts/build_attestation.ts:633 | an expression begins at the first opener with a closer behind it and ends with the first such closer |
| `Provenance.TemplateIffOpened` | scripts/build_attestation.ts:670 | a string is a template exactly when an opener in it is closed |
| `Provenance.MatchesIffInstance` | scripts/build_attestation.ts:671-682 | the anchored pattern accepts exactly the texts obtained by giving each expression some text |
| `Provenance.CheckIffConforms` | scripts/build_attestation.ts:665-729 | no finding is reported exactly when the evaluated value conforms: templates have instances, lists match pointwise, committed keys are there, other keys are empty defaults, root metadata or inherited names, a timestamp is any object with such keys, and other leaves are equal |
| `ProvenanceFindings.FindingsIff` | scripts/build_attestation.ts:665-729 | the findings are exactly the faults at the places where the two definitions part, each with its reason and under the dotted path of its place |
| `Provenance.EmptyDefaultIff` | scripts/build_attestation.ts:791-798 | what passes as an extra field: null, false, zero, whatever is empty, and a timestamp |
| `Provenance.InstanceIsAccepted` | scripts/build_attestation.ts:665-729 | every value made from the committed definition is accepted: each occurrence of an expression with its own text (any value where nothing but expressions and blanks stands), each mapping with its own empty defaults added |
| `Provenance.CheckIsDocumented` | scripts/build_attestation.ts:660-729 | everything that passes by the documentation passes, and where no key is empty or inherited and no value is a timestamp nothing else does |
| `Provenance.ExtraKeyExamples` | scripts/build_attestation.ts:714-722 | two evaluated definitions with an extra non-empty key that pass |
| `Provenance.TimestampExamples` | scripts/build_attestation.ts:694-724 | a timestamp passes for any other and for an empty mapping, under every key, and an extra one passes as an empty default |
| `StrictProvenance.OutsideIsKept` | scripts/build_attestation.ts:749-769 | whatever stands outside the shells is the same in the clone |
| `StrictProvenance.ThrowingHasNoMatch` | scripts/build_attestation.ts:765-767 | when a shell cannot be evaluated, no run executed the committed definition |
| `StrictProvenance.VerificationIff` | scripts/build_attestation.ts:732-789 | for every scanner and evaluator, the strict check passes exactly when the inputs are valid, the loops over jobs and steps do not throw and the run executed the committed definition: every shell is the committed one with its expressions evaluated, and everything outside shells conforms |
| `StrictProvenance.WalkIff` | scripts/build_attestation.ts:751-754 | the loops over jobs and steps throw exactly at a null definition, job or step, and at jobs or steps that are neither a text nor a list |
| `StrictProvenance.ExpectedIff` | scripts/build_attestation.ts:753-764 | an evaluated shell is the text the scanner keeps with each expression's text in its place, a shell that is one expression is that expression's value, and there is none exactly when an expression other than the run's id throws |
| `StrictProvenance.RunIdIsKept` | scripts/build_attestation.ts:759-761 | a shell whose expressions are all `run.id` is expected unchanged, whatever the evaluator |
| `StrictProvenance.ShellsAreAtThePath` | scripts/build_attestation.ts:751-754 | what is compared as a shell is exactly what stands at `jobs[].steps[].task.inputs.run` or below it |
| `StrictProvenance.StrictRefinesWildcardIff` | scripts/build_attestation.ts:771-775 | what passes the strict check passes the wildcard check exactly when each committed shell, evaluated, is an instance of itself as a template |
| `StrictProvenance.CutsFitIff` | scripts/build_attestation.ts:753-775 | for a shell that lacks some character: its evaluated text is an instance of it under every evaluator exactly when the wildcard's literals stand in order in the text the scanner keeps, each within one part (or it has no expressions, or the wildcard accepts everything) |
| `StrictProvenance.SameTokensFit` | scripts/build_attestation.ts:753-764 | a shell that both scanners cut alike is such a shell |
| `StrictProvenance.StrictRefinesWildcard` | scripts/build_attestation.ts:771-775 | where the cuts of every shell fit, what passes the strict check passes the wildcard check, whatever the expressions evaluate to |
| `StrictProvenance.QuotedCloserExample` | scripts/build_attestation.ts:753-775 | a workflow and a run that pass the strict check and fail the wildcard check |
| `TreeManifest.LinesReadBack` | scripts/build_attestation.ts:115-120 | the manifest text reads back as the files it was written from |
| `TreeManifest.ManifestIff` | scripts/build_attestation.ts:106-121 | two listings get the same manifest exactly when they hold the same paths with the same checksums, in whatever order they were listed |
| `TreeManifest.FirstUnsafe` | scripts/build_attestation.ts:109-114 | the path refused is the first in the listing that holds a newline or a backslash, if one does |
| `TreeManifest.RefusedIff` | scripts/build_attestation.ts:109-114 | there is no manifest exactly when a path holds a newline or a backslash |
| `TreeManifest.ManifestIsInOrder` | scripts/build_attestation.ts:115-120 | the manifest lists the files by path, in the order of strings, each once |
| `TreeManifest.NewlineWouldConfuse` | scripts/build_attestation.ts:109-114 | without the refusal two different trees share a manifest |
| `AttestationGate.MatchRunsToWorkflows` | scripts/build_attestation.ts:554-601 | the runs match exactly when their names are a permutation of the three workflow names; each workflow's source is its one run, and each refusal says what is wrong |
| `AttestationGate.SourcesAreTheRuns` | scripts/build_attestation.ts:554-601 | the matched sources are exactly the runs given |
| `AttestationGate.CheckCommitBinding` | scripts/build_attestation.ts:607-631 | exactly the runs that record another commit, or none, are reported |
| `AttestationGate.CollectSteps` | scripts/build_attestation.ts:409-441 | the loops collect the data the lemma below is about |
| `AttestationGate.DataAreTheSteps` | scripts/build_attestation.ts:409-441 | the collected data are the steps of the jobs that count, one for one and in the order of the runs, jobs and steps, each with its job's and its own name and status, a verdict exactly for a review that succeeded, and a skip kind exactly for a skipped step with a recorded reason |
| `AttestationGate.KindsAddUp` | scripts/build_attestation.ts:449-454 | the skip kinds partition the skipped steps |
| `AttestationGate.AllDataGood` | scripts/build_attestation.ts:411-447 | all collected steps are good exactly when no step of a job that counts is unvouched for |
| `AttestationGate.BuildGate` | scripts/build_attestation.ts:443-533 | the document lists those steps; succeeded, skipped and failed partition them, the skips are counted by kind, and `allPassed` holds exactly when every workflow contributed and every counted step succeeded or was skipped |
| `Attestation.CheckExecutions` | scripts/build_attestation.ts:1098-1144 | the loop refuses exactly when some run has no committed definition or no snapshot, or did not execute the definition, and says so of the first such run |
| `Attestation.CheckCheckout` | scripts/build_attestation.ts:807-830 | no error exactly when git answers, the commit is checked out and no line of the status is non-blank; otherwise the errors say which of these fail, and how many files are modified |
| `Attestation.Attest` | scripts/build_attestation.ts:1001-1194 | for whatever runs, revision and branch are named, a document exists exactly when the revision is a commit, checked out and unmodified, its affected commands are known, every run is there, there is one run of each workflow, each examined the commit and executed its committed definition, and the schema accepts the document; a refusal says what came first in this order; the document lists the steps that count, and is green exactly when every one of them in every run succeeded or was skipped |
| `AffectedCommands.Closure` | scripts/affected_commands.ts:82-98 | the worklist returns exactly the root and the files reachable over files that fail `stopAt` |
| `AffectedCommands.FollowImports` | scripts/affected_commands.ts:90-95 | one round of the worklist keeps that every seen file is reachable and followed, or pending |
| `AffectedCommands.SelectChanged` | scripts/affected_commands.ts:253-263 | a changed file of the graph selects the commands whose closure holds it; another one forces all commands if its rule says so |
| `AffectedCommands.SelectDeleted` | scripts/affected_commands.ts:265-269 | deleted modules are skipped, other deleted files are classified |
| `AffectedCommands.ClassifyMeans` | scripts/affected_commands.ts:158-181 | each file outside the graph gets its rule in terms of its path alone: by name, by directory, by ending or by a part of the path, in the order of the rules |
| `AffectedCommands.ComputeAffectedCommands` | scripts/affected_commands.ts:230-293 | the commands reported are exactly those with a forcing file or a reachable changed graph file, each once, in order; the scope is all, some or none of them, and the start-up files and the forcing files with their rules are listed in order, the first fifty of them |
| `AffectedCommands.MoreChangesKeepCommands` | scripts/affected_commands.ts:253-273 | adding changed or deleted files never removes a command |
| `AffectedCommands.MoreImportsKeepCommands` | scripts/affected_commands.ts:241-257 | adding imports between files of the graph never removes a command |
| `ClientStream.Isolated` | packages/client/client.ts:268-333 | a request's whole history depends on its own steps only, in every interleaving |
| `ClientStream.OwnTells` | packages/client/client.ts:268-402 | after any steps a request's state is exactly what its first ending and the events before it say: pending, settled, handled, delivered and buffered |
| `ClientStream.EveryRequestTells` | packages/client/client.ts:102-333 | the same in every run of the whole client |
| `ClientStream.StreamYieldsPrefix` | packages/client/client.ts:173-236 | the events a stream yields are a prefix, in order, of the event frames up to its first ending, and all of them once a consumer that did not leave is told the end after a result or a `done` frame |
| `ClientStream.EveryPullIsServed` | packages/client/client.ts:353-399 | in every run, until its stream fails or its consumer leaves, the i-th pull is given the i-th event, at once when that was offered before and otherwise as soon as it is; a pull without an event waits, and is told the end when the stream is finished |
| `ClientStream.NextPull` | packages/client/client.ts:385-399 | one more pull is given the next event if one is left, told the end if the stream was finished, and else waits |
| `ClientStream.SettledAtMostOnce` | packages/client/client.ts:268-333 | in every run each request is settled at most once, never while pending |
| `ClientStream.RemovedIsLeftAlone` | packages/client/client.ts:276-277 | no frame or close touches a request that was removed, and a departure only finishes its generator |
| `ClientStream.NothingPendingAfterClose` | packages/client/client.ts:102-110 | nothing is pending after the socket closed |
| `ClientStream.DrainsToTheEnd` | packages/client/client.ts:385-395 | a finished queue gives its whole buffer, in order, and then the end for ever |
| `ClientStream.FailedStaysFailed` | packages/client/client.ts:385-386 | after a stream failed, whatever follows only adds its answers to further pulls |
| `ClientStream.RejectedAtMostOnce` | packages/client/client.ts:385-386 | of the pulls after a failure the first is rejected, unless the generator had finished or its consumer left before, and all others are told the end |
| `ClientStream.FailureTells` | packages/client/client.ts:373-386 | for every pending stream of every run and whatever follows: a close or an error frame adds the end to its answers exactly when a pull is waiting and nothing otherwise, then come the answers above, and all events offered are delivered exactly when none was buffered (and, for an error event, a pull was waiting) |
| `ClientStream.ClosedWhileWaiting` | packages/client/client.ts:102-110 | a run in which a waiting stream is told the end by the close |
| `ClientStream.ClosedWhileBusy` | packages/client/client.ts:102-110 | a run in which the second of two events is lost, the next pull rejected and the one after told the end |
| `ClientStream.LeavingTells` | packages/client/client.ts:195-202 | once the consumer left, nothing settles the request or reaches its handler and queue, and every pull is told the end |
| `ClientStream.WaitingIsNotOver` | packages/client/client.ts:195-202 | in every run no pull waits on a finished generator |
| `ClientStream.WaitsPastEnding` | packages/client/client.ts:328-332 | a pull that waits when its stream ends stays unanswered exactly when a response ended it |
| `ClientStream.WaitsAfterEnding` | packages/client/client.ts:385-399 | in every run, a pull after the ending stays unanswered exactly when a response was the ending, nothing is buffered and the consumer had not left |
| `ClientStream.UnansweredForGood` | packages/client/client.ts:328-332 | in every run, a pull that waits once its stream has ended is never answered, whatever can follow, and a response was the ending |
| `ClientStream.ResponseForgetsStream` | packages/client/client.ts:328-332 | a concrete stream whose pull nothing that can follow answers |
| `ClientObjects.AsyncIterableQueue.PushEvent` | packages/client/client.ts:353-362 | the new queue state and delivery are those of the machine's push |
| `ClientObjects.AsyncIterableQueue.Done` | packages/client/client.ts:364-371 | likewise for finishing |
| `ClientObjects.AsyncIterableQueue.Error` | packages/client/client.ts:373-381 | likewise for failing |
| `ClientObjects.AsyncIterableQueue.PullNext` | packages/client/client.ts:385-399 | likewise for a pull |
| `ClientObjects.SwampClient.OpenRequest` | packages/client/client.ts:176-198 | registering a request, and for a stream the first pull, is the machine's open, with new objects only |
| `ClientObjects.PendingRequest.CallReject` | packages/client/client.ts:179-193 | a `reject` call is recorded and fails a stream's queue, as the machine's reject |
| `ClientObjects.PendingRequest.CallHandler` | packages/client/client.ts:182-191 | a handler call is recorded, pushes the event and finishes a stream's queue at a terminal one, as the machine's handler |
| `ClientObjects.PendingRequest.CallNext` | packages/client/client.ts:197-202 | a pull through the generator, which answers by itself once it has finished |
| `ClientObjects.SwampClient.HandleMessage` | packages/client/client.ts:268-333 | handling a frame is exactly the machine's receive: on the pending map, the calls recorded by every request's functions and every queue |
| `ClientObjects.SwampClient.OnClose` | packages/client/client.ts:102-110 | closing is exactly the machine's close, in whatever order requests are rejected, and empties the map |
| `ClientObjects.SwampClient.PullFrom` | packages/client/client.ts:197-198 | a pull through the generator is the machine's next, whether or not the generator has finished |
| `ClientObjects.SwampClient.LeaveStream` | packages/client/client.ts:199-201 | leaving the generator while no pull waits is the machine's departure: it finishes and removes the request |
| `CheckpointPacing.SaveKeeps` | scripts/bench_v3_workflow_checkpoint.ts:136-151 | every save keeps spacing, coverage and the clock's invariant |
| `CheckpointPacing.UnforcedAreSpaced` | scripts/bench_v3_workflow_checkpoint.ts:146-151 | each checkpoint not forced starts at least one interval after the one before it |
| `CheckpointPacing.EveryChangeIsCovered` | scripts/bench_v3_workflow_checkpoint.ts:130-152 | in a run that ends with an at-once save no trailing checkpoint is left, and the first checkpoint after each save starts within one interval of it |
| `CheckpointPacing.ForcedAreAtOnce` | scripts/bench_v3_workflow_checkpoint.ts:146-148 | there is exactly one forced checkpoint per at-once save |
| `CheckpointPacing.ForcedStartAtOnce` | scripts/bench_v3_workflow_checkpoint.ts:146-148 | the forced checkpoints start exactly when the at-once saves are made, in order |
| `CheckpointPacing.EveryChangeIsPrompt` | scripts/bench_v3_workflow_checkpoint.ts:130-152 | the first checkpoint after each save starts as soon as an interval has passed since the checkpoint before it, or earlier exactly when an at-once save forces it |
| `CheckpointPacing.EveryCheckpointHasChanges` | scripts/bench_v3_workflow_checkpoint.ts:130-152 | no checkpoint is made without a save since the one before it |
| `CheckpointPacing.CheckpointsAreBounded` | scripts/bench_v3_workflow_checkpoint.ts:123-152 | at most one checkpoint per at-once save, one per interval that passed, and one more |
| `CheckpointPacing.RunPacer.SaveRecord` | scripts/bench_v3_workflow_checkpoint.ts:130-152 | the method's new state is the specified step |
| `CheckpointPacing.SimulatePacedRun` | scripts/bench_v3_workflow_checkpoint.ts:153-204 | the simulated run saves at the start, when each step starts and when it ends, and at once at the end, at these times; it counts exactly the checkpoints of these saves, and the bound holds for every number and length of steps and each mode |
| `ArgumentScanner.CallArguments` | integration/arch_fitness_helpers.ts:238-264 | the index loop computes the scan, whose inverse is the printer below |
| `ArgumentScanner.ConstructorArguments` | integration/arch_fitness_helpers.ts:196-212 | the quote-blind loop computes its scan |
| `ArgumentScanner.CallArgumentsUndoesPrinting` | integration/arch_fitness_helpers.ts:238-264 | wherever a printed list of balanced, quote-closed, trimmed arguments stands in a source, scanning returns exactly that list |
| `ArgumentScanner.TrailingCommaAddsNone` | integration/arch_fitness_helpers.ts:250-262 | a comma behind the last argument adds none |
| `ArgumentScanner.UnclosedLosesTheLast` | integration/arch_fitness_helpers.ts:238-264 | of a list that is never closed, what stands behind the last comma is left out |
| `ArgumentScanner.NonEmptyConcat` | integration/arch_fitness_helpers.ts:255 | only empty arguments are left out, and the others keep their order |
| `ArgumentScanner.EveryKindHolds` | integration/arch_fitness_helpers.ts:243-257 | inside each kind of quote and bracket, and behind a backslash, commas and closers do not separate |
| `ArgumentScanner.ScannersAgreeIff` | integration/arch_fitness_helpers.ts:196-212 | for every printed list, anywhere in a source, the quote-blind scanner returns the arguments, as the other does, exactly when a quote-blind scan goes over each argument without a cut and ends at depth 0 |
| `ArgumentScanner.ScannersAgree` | integration/arch_fitness_helpers.ts:196-212 | on quote-free arguments both scanners return the list |
| `ArgumentScanner.QuotesTellThemApart` | integration/arch_fitness_helpers.ts:200-210 | one quoted character makes them differ exactly when it is a comma or a bracket |
| `MarkRuns.SortPathMarkRuns` | integration/usecase_sync_fixtures.ts:892-904 | in place, the log becomes its normal form: nothing but path marks within a maximal run moves, and each run is sorted |
| `MarkRuns.NormalFormIsCanonical` | integration/usecase_sync_fixtures.ts:892-904 | two logs get the same normal form exactly when they differ only by reordering within runs |
| `MarkRuns.NormalFormIsIdempotent` | integration/usecase_sync_fixtures.ts:892-904 | normalising again changes nothing |
| `MarkRuns.ReorderedPermutes` | integration/usecase_sync_fixtures.ts:892-904 | the normal form is a permutation of the log |
| `MarkRuns.Splice` | integration/usecase_sync_fixtures.ts:901 | the splice replaces exactly the run |
| `SyncOrder.MergeReleases` | integration/usecase_sync_fixtures.ts:259-277 | the merged order is the kept ops with one release entry exactly where a release lies |
| `SyncOrder.KeptIff` | integration/usecase_sync_fixtures.ts:259-277 | the kept operations are instance A's, but for its marks, in order |
| `SyncOrder.MergedKeepsOps` | integration/usecase_sync_fixtures.ts:263-276 | without release entries the order is exactly instance A's ops other than marks, and no two release entries are adjacent |
| `SyncOrder.ReleaseStandsBetween` | integration/usecase_sync_fixtures.ts:266-275 | right before a kept op stands a release entry exactly when a release position lies behind the kept op before it and not behind this one |
| `SyncOrder.ReleaseStandsAtEnd` | integration/usecase_sync_fixtures.ts:266-275 | behind the last kept op stands a release entry exactly when a release lies there |
| `LegacyUnits.Run` | src/infrastructure/persistence/legacy_unit_of_work.ts:82-124 | in every run of the units a parent was there before its child and has the same hook |
| `LegacyUnits.AdoptIff` | src/infrastructure/persistence/legacy_unit_of_work.ts:150-153 | a change is recorded by exactly the open units around the one it is staged on, itself included |
| `LegacyUnits.ParentIff` | src/infrastructure/persistence/legacy_unit_of_work.ts:82-104 | a new unit is opened under the nearest open unit around the candidate, when that has the same hook |
| `LegacyUnits.NearestOpenIff` | src/infrastructure/persistence/legacy_unit_of_work.ts:93-104 | the nearest open unit is open, and all between have ended |
| `LegacyUnits.StageSends` | src/infrastructure/persistence/legacy_unit_of_work.ts:163-180 | staging sends the change to the unit's hook as long as it or a unit around it is open or it forwards late changes, and sends nothing else |
| `LegacyUnits.EndedIff` | src/infrastructure/persistence/legacy_unit_of_work.ts:139-145 | the units that have ended are exactly those ended by some step after they were opened |
| `StagedMarks.OutermostUseCaseUnits` | integration/usecase_sync_fixtures.ts:777-798 | the units returned are exactly the bound use cases with no use case around them, in order |
| `StagedMarks.Nested` | integration/usecase_sync_fixtures.ts:785-794 | the walk up the parents finds a use case exactly when some proper ancestor is one |
| `StagedMarks.CountedExactlyOnce` | integration/usecase_sync_fixtures.ts:773-798 | what is staged on a unit rolls up into exactly one unit that counts, the outermost use case around it, when there is one and the unit has a hook, and into none otherwise |
| `StagedMarks.PlaceInOrder` | integration/usecase_sync_fixtures.ts:828-839 | the greedy search places all marks exactly when they are a subsequence, and otherwise stops at the first that cannot be placed |
| `StagedMarks.MarksConcat` | integration/usecase_sync_fixtures.ts:807 | the marks are the operations that start so, in order |
| `StagedMarks.TakeOut` | integration/usecase_sync_fixtures.ts:808-817 | the declared marks are taken out exactly when they were observed as often as declared, and otherwise the first that is missing is reported |
| `StagedMarks.AssertUnitsStagedTheirMarks` | integration/usecase_sync_fixtures.ts:800-840 | given the units with what they staged, the check passes exactly when the observed marks are those staged by the units that count and the declared ones, each as often, and each unit's marks stand in its order; a refusal names the first declared mark that is missing, or the first mark of the first unit that is out of order |
| `StagedRuns.StagedIsCounted` | integration/usecase_sync_fixtures.ts:773-798 | in every run, the units that count staged exactly the changes made under a use case whose outermost one was still open, each as often |
| `StagedRuns.StagedInOrder` | src/infrastructure/persistence/legacy_unit_of_work.ts:163-180 | in every run, each unit that counts staged its changes in the order in which they were sent |
| `StagedRuns.CheckPassesIff` | integration/usecase_sync_fixtures.ts:800-840 | for every run, the check passes only when the changes that reached a hook past the use cases are the declared ones, each as often, and does pass then when marks ran in parallel or no declared mark is also a use case's own |
| `StagedRuns.FirstIsTakenOut` | integration/usecase_sync_fixtures.ts:808-838 | a run the check refuses because it takes out a use case's own mark |
| `WriteGuard.UnscopedWriteGuard.WithUnscopedWriteGuard` | integration/unscoped_write_guard.ts:68-98 | nested, the body just runs; outermost, the outcome is the guard's, and the flag is as before |
| `WriteGuard.UnscopedWriteGuard.Execute` | integration/unscoped_write_guard.ts:68-98 | for every program, the flag is restored, and the list grows by exactly the writes that count |
| `WriteGuard.UnscopedWriteGuard.ReportWrite` | integration/unscoped_write_guard.ts:74-84 | the reporter lists and refuses exactly unpinned production writes |
| `WriteGuard.CountsIff` | integration/unscoped_write_guard.ts:45-55 | only production code that is not pinned counts: a caller under `src/` that is no test, by its file and function |
| `WriteGuard.ReportLaws` | integration/unscoped_write_guard.ts:74-84 | a write that counts fails where it is made, and what follows is not run |
| `WriteGuard.ProgramLaws` | integration/unscoped_write_guard.ts:68-98 | programs compose as the runtime's do: a failure goes no further, a handler runs only on a failure, and its own failure wins |
| `WriteGuard.DescriptionsRead` | integration/unscoped_write_guard.ts:57-60 | how a write is named, with and without its caller and its function |
| `WriteGuard.ListedInOrder` | integration/unscoped_write_guard.ts:74-79 | the descriptions listed are those of the writes that count, in order |
| `WriteGuard.GuardSays` | integration/unscoped_write_guard.ts:86-97 | a guard that found writes fails with all of them and the body's own error as its cause; otherwise it ends as the body does |
| `WriteGuard.GuardFailsIff` | integration/unscoped_write_guard.ts:86-97 | the outermost guard fails exactly when the body fails or a write that counts was made, caught or not |
| `WriteGuard.SwallowingHidesNothing` | integration/unscoped_write_guard.ts:20-24 | no handler hides a write that counts |
| `WriteGuard.NestedGuardsAreTransparent` | integration/unscoped_write_guard.ts:64-71 | removing all nested guards changes neither outcome nor writes |
| `WriteGuard.GuardIsInvisible` | integration/unscoped_write_guard.ts:68-98 | a program without writes that count ends alike with and without a guard |
| `WriteGuard.MessageListsAll` | integration/unscoped_write_guard.ts:100-103 | the message is the header and then the lines of every description, in order, and has one line per write exactly when no description holds a newline |
| `EnvFile.RenderEnvFile` | scripts/setup_verify_env.ts:89-116 | the loops compute the rendering the lemmas below are about |
| `EnvFile.KeyOfIff` | scripts/setup_verify_env.ts:97 | a line assigns a key exactly when it is an identifier with blanks around it and an equals sign |
| `EnvFile.AppendedAreMissing` | scripts/setup_verify_env.ts:110-113 | the lines appended are those of the updates that no line applies, in their order |
| `EnvFile.QuoteDecodes` | scripts/setup_verify_env.ts:122-124 | a shell decodes the quoted text back to the value, whatever it holds |
| `EnvFile.KeepsTheRest` | scripts/setup_verify_env.ts:85-109 | every line that assigns no managed key is kept verbatim at its place, but for trailing blank lines |
| `EnvFile.AssignsManaged` | scripts/setup_verify_env.ts:96-113 | each managed key is assigned, and every line assigning it assigns the quoted value |
| `EnvFile.LinesSetManaged` | scripts/setup_verify_env.ts:89-124 | in the lines of the file written, every line that assigns a managed key decodes to its value, and there is one |
| `EnvFile.IdempotentIff` | scripts/setup_verify_env.ts:89-116 | rendering again changes nothing exactly when all keys are identifiers and no value holds a newline, whatever the file held |
| `WriterLease.UnsupersededIsAlone` | src/domain/datastore_v3/writer_lease.ts:531-550 | an attempt whose listing shows no higher fence is the only one that ever took that fence |
| `WriterLease.PruneKeeps` | src/domain/datastore_v3/writer_lease.ts:429-446 | pruning never lets a fence be taken anew without a higher one being there |
| `WriterLease.StepKeeps` | src/domain/datastore_v3/writer_lease.ts:397-550 | every step of every process keeps the fencing invariant |
| `WriterLease.SingleWriter` | src/domain/datastore_v3/writer_lease.ts:20-24 | in every run, after a fenced commit no unfenced and no lower-fenced one lands, and commits of one fence are by one writer |
| `WriterLease.Grows` | src/infrastructure/datastore_v3/sqlite_commit_store.ts:1001-1048 | the store's fence never moves back and the log only grows |
| `WriterLease.SupersededWriterIsRefused` | src/infrastructure/datastore_v3/sqlite_commit_store.ts:1036-1048 | once a higher fence was raised, a stale writer lands nothing more, however late it notices |
| `WriterLease.RecordedIff` | src/domain/datastore_v3/writer_lease.ts:429-446 | in every run the records are exactly those written and not pruned since, each by the attempt that wrote it |
| `WriterLease.ReleasedIff` | src/domain/datastore_v3/writer_lease.ts:510-528 | in every run a fence is marked as released exactly when it was released and not pruned since |
| `WriterLease.RenewMeans` | src/domain/datastore_v3/writer_lease.ts:531-550 | in every run, a look at the listing makes an attempt lost exactly when a higher fence is there or its own is released, and a holder otherwise |
| `WriterLease.NotHeldWhileReleased` | src/domain/datastore_v3/writer_lease.ts:540-548 | no attempt becomes a holder while its fence is released |
| `WriterLease.ReleasedIsLost` | src/domain/datastore_v3/writer_lease.ts:531-550 | however a fence was released, until it is pruned an attempt at it that looks at the listing is lost, and from then on holds and raises nothing more |
| `WriterLease.RaisesIff` | src/infrastructure/datastore_v3/sqlite_commit_store.ts:1001-1030 | in every run, a holder raises the store's fence exactly when no higher one was raised |
| `WriterLease.LandsIff` | src/infrastructure/datastore_v3/sqlite_commit_store.ts:1036-1048 | in every run, a writer that raised a fence lands a commit exactly when no higher one was raised, and an unfenced commit lands exactly when none was |
| `WriterLease.TakeoverExample` | src/domain/datastore_v3/writer_lease.ts:378-427 | a concrete run in which a second writer takes over and the first one's late commit is refused |

## Left out

- The Babel parser, `findModuleReferences` and the walk over files of `scripts/unbarrel.ts`: the syntax tree is given, with each node's reference to the barrel already recognised; reports carry an offset instead of a line.
- `fetchVulnDetails` and the rest of the audit's network access and printing.
- SHA-256, YAML parsing and the CEL evaluator: parameters of the attestation model; `NaN` and the bytes of a `!!binary` scalar are not model values.
- StrictProvenance.VerificationIff: when both a walk over the jobs would throw and an earlier shell cannot be evaluated, which of the two refusals comes first is not modelled.
- Attestation.Attest: configuration hashes and the document's timing, review and environment fields are not modelled, and what the schema accepts is a parameter.
- DependencyChain.TraceDependencyChain: gives a shortest chain; which of several depends on the order of the lock's tables, which the model's maps of parents keep and its contracts do not mention.
- LegacyUnits.Run: the units are values of a state machine, not objects; awaiting marks, flushing and which hook is bound are not modelled.
- `buildImportGraph`, `gatherAffectedCommands` and git access of `scripts/affected_commands.ts`: the import graph is given.
- User handlers that call back into the client, calls that queue behind a waiting pull (each is the step it becomes in its turn), `send` failures and reconnecting: outside the client's state machine.
- What a checkpoint writes, and the journal appends of the pacing benchmark, which start no checkpoint.
- The marker search of `constructorCalls`, `countedKeys` and the other helpers of `integration/arch_fitness_helpers.ts`: regular expressions and easy claims.
- `observe`, path normalisation and the assertion texts of `integration/usecase_sync_fixtures.ts`.
- Concurrent bodies under the write guard: a program has one thread of control.
- Secret selection and file access of `scripts/setup_verify_env.ts`.
- Heartbeats, time-to-live and liveness verdicts of the writer lease: they choose which fence is tried and when, and the theorems hold for every such choice; a listing is taken as one atomic step, and time to acquire is not bounded.
- The rest of `src/` (command line, serve engine, scheduler, read model), the other benchmarks and the SBOM and release scripts.
