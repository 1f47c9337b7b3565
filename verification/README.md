# Verified models of Turborepo algorithms and protocols

This project models eleven self-contained pieces of the repository in Dafny and proves what they
promise: the import tracer of `turbo-trace`, the two-phase shared HTTP client, the heading plugin of
the documentation site, the worker pool, single-flight caches and result bookkeeping of the lockfile
harness, the event stream of the workspace view, the analytics worker, the device login poll, the
cache configuration parser and the artifact body.

`dafny verify dfyconfig.toml` checks everything.

| file | what it holds |
|---|---|
| `Wrappers.dfy` | options, results, and facts about sequences |
| `ImportGraph.dfy`, `DepthBound.dfy` | the tracer's worklist over an import graph, and its depth bound |
| `ImportFinder.dfy`, `Tracer.dfy` | the imports of a parsed file; resolver inference, forward and reverse trace |
| `SharedHttpClient.dfy` | the client's slots and flag under every interleaving |
| `HeadingSlugs.dfy`, `HeadingRewriter.dfy` | unique slugs; the tree transformation |
| `WorkerPool.dfy`, `SingleFlight.dfy`, `FixtureGroups.dfy` | the lockfile harness |
| `Reconnect.dfy` | the restart loop of the workspace stream, and event merging |
| `Analytics.dfy` | batching and timers |
| `DevicePoll.dfy` | polling in the device authorization grant (section 3.5 of RFC 8628) |
| `CacheConfig.dfy` | the `local:rw,remote:r` syntax and its error spans |
| `ArtifactBody.dfy` | the two representations of an artifact |

Code that changes state is a class or a method with a loop. Its contract ties the new state to a
specification function, and the lemmas prove what the source promises about that function. Protocols
are step systems whose steps run from one await or atomic operation to the next; a run is any sequence
of steps, so a statement about runs covers every interleaving.

What lies outside is a parameter. Files, their parse results and module resolution are one fixed
`World`. Replies, build outcomes and command outcomes are arbitrary inputs. Clocks are integers.

## What turned out not to hold

* A depth-bounded trace is not always the whole ball of that radius. A visited file is never visited
  again, so one first reached along a detour loses its imports. `BallExactlyWhenDetourFree` gives the
  exact condition on roots and bound. Under the same condition, and no other, tracing fewer imports
  reports fewer files (`BoundedTraceIsMonotoneExactlyWhenDetourFree`), and raising the bound by one
  loses no file (`RaisingKeepsFilesExactlyWhenDetourFree`).
* Tracing `Types` is documented as tracing only `import type` (`crates/turbo-trace/src/tracer.rs:97`), but
  `require` declarations are found under every trace type. The documentation is right exactly for files
  without such declarations (`TypesFindsOnlyTypesExactlyWithoutRequire`).
* The error span for bad actions of the local cache always has five bytes. It fits exactly the values
  of that length (`SpanCoversOffendingText`); in `local:rr` it does not (`LocalSpanMissesRepeatedRead`).
* The poll interval may shrink if it begins above a minute (`NeverShrinksExactlyUpToMaximum`), and with
  an interval of zero there is no bound on the number of polls (`ZeroIntervalNeverEnds`).
* With a concurrency below one no worker starts, so the pool resolves with all results missing
  (`EverySchedule`).
* A case of the lockfile harness has exactly one result unless reporting its exception throws as well
  (`RunCase`). A case can succeed and carry an error, exactly if printing that it passed throws
  (`SucceedsWithErrorExactlyWhenLastPrintThrows`).
* Failures are classified by label, which agrees with the flags of the cases exactly if cases with the
  same label have the same flag (`LabelsClassifyExactlyWhenUnambiguous`). Different fixture names without
  an arrow ensure this (`ArrowFreeNamesAreUnambiguous`); an arrow may break it (`ArrowInNameIsAmbiguous`).
* An artifact converted from a spool that is still in memory is whole exactly if the spool was rewound
  before (`SpoolIsWholeExactlyWhenRewound`); both callers do so.
* A cloned file handle is called independent (`crates/turborepo-cache/src/artifact_body.rs:142`), but
  clones share one offset. A consumer sees the beginning of every artifact exactly if the offset is where
  it left off whenever it is given bytes (`SeesPrefixExactlyInStep`), which fails for one of two consumers
  that read in turns (`AlternatingConsumersInterfere`).
* Identifiers of headings are not always unique: a plain heading may repeat the one generated for an
  earlier heading (`PlainHeadingRepeatsGeneratedId`). They are unique exactly if no plain heading finds
  its identifier in the table (`IdsAreUniqueExactlyWhenPlainOnesAreNew`), and only the later one of two
  equal identifiers can be plain (`GeneratedIdsAreUnique`).
* A native HTTP client may be built again after the first is set (`NativeMayBeBuiltAgain`), exactly if
  some activation has found the slot empty and is not finished, or a build is in progress
  (`NativeIsBuiltAgainExactlyWhenAhead`); but never while another build is live.

## Model

| member | source | states |
|---|---|---|
| ImportGraph.TraceVisitsOnce | crates/turbo-trace/src/tracer.rs:333-344 | no file is visited twice, with or without a bound |
| ImportGraph.WorkKeeps | crates/turbo-trace/src/tracer.rs:461-475 | a run loses no visited file and visits every queued file within the bound |
| ImportGraph.TraceStaysInBall | crates/turbo-trace/src/tracer.rs:461-466 | every reported file has an import path from a root no longer than the bound |
| ImportGraph.UnboundedTraceIsReachability | crates/turbo-trace/src/tracer.rs:456-481 | without a bound exactly the files reachable from the roots are reported |
| ImportGraph.TraceIsMonotone | crates/turbo-trace/src/tracer.rs:456-481 | without a bound, fewer imports and fewer roots never report an additional file |
| ImportGraph.TraceIgnoresOrder | crates/turbo-trace/src/tracer.rs:461-475 | the reported set is the same for any order of imports and of roots |
| ImportGraph.GenerousBoundIsUnbounded | crates/turbo-trace/src/tracer.rs:461-466 | a bound of at least the number of reachable files minus one visits the same files in the same order as no bound |
| DepthBound.DetourFreeReportsBall | crates/turbo-trace/src/tracer.rs:461-466 | for detour-free inputs exactly the files within the bound are reported |
| DepthBound.BallExactlyWhenDetourFree | crates/turbo-trace/src/tracer.rs:456-481 | the bounded trace is the whole ball for every graph if and only if there are no roots, the bound is zero, or it is one and all roots are equal |
| DepthBound.RaisingKeepsFilesExactlyWhenDetourFree | crates/turbo-trace/src/tracer.rs:337-339 | raising the bound by one loses no file of any graph if and only if the inputs are detour-free |
| DepthBound.BoundedTraceIsMonotoneExactlyWhenDetourFree | crates/turbo-trace/src/tracer.rs:456-481 | under a bound, fewer imports report fewer files for all graphs if and only if the inputs are detour-free |
| ImportFinder.FindImports | crates/turbo-trace/src/import_finder.rs:34-70 | the pushed results are the wanted requests of each module in order, then the require declarations |
| ImportFinder.FindRequireCalls | crates/turbo-trace/src/import_finder.rs:74-149 | appends to the accumulator what the walk over the statements yields, in order |
| ImportFinder.ModuleImportsAreFound | crates/turbo-trace/src/import_finder.rs:41-67 | an import is found if and only if the module record requests it and the trace type wants its kind, with the specifier, spans and kind of the request |
| ImportFinder.AllRequestsInOrder | crates/turbo-trace/src/import_finder.rs:41-67 | tracing all imports finds every request once, module by module and in order |
| ImportFinder.DeclaratorsInOrder | crates/turbo-trace/src/import_finder.rs:77-102 | the declarators of a declaration are handled one by one and in order |
| ImportFinder.ChildrenAreWalked | crates/turbo-trace/src/import_finder.rs:105-145 | entering a statement finds what its directly nested statements yield, in order |
| ImportFinder.RequiresAreNestedDeclarations | crates/turbo-trace/src/import_finder.rs:72-149 | a result is found if and only if it is a require declarator of a variable declaration nested through blocks, branches, loops, cases, try clauses or labels |
| ImportFinder.TraceTypesPartitionImports | crates/turbo-trace/src/import_finder.rs:41-67 | type and value imports together are all imports, each once, except that require declarations are in both |
| ImportFinder.AllFindsMost | crates/turbo-trace/src/import_finder.rs:50-54 | whatever any trace type finds, `All` finds |
| ImportFinder.TypesFindsOnlyTypesExactlyWithoutRequire | crates/turbo-trace/src/import_finder.rs:50-69 | tracing types finds only type imports if and only if no statement holds a require declaration, however deeply nested |
| Tracer.InferenceIsNearest | crates/turbo-trace/src/tracer.rs:370-402 | the inferred resolver uses the closest ancestor with a tsconfig and, separately, the closest one with node_modules; without either the base resolver is used |
| Tracer.TraceResolverIsNearest | crates/turbo-trace/src/tracer.rs:370-453 | in a trace a file is resolved with the closest tsconfig, or else the given one, and with the closest node_modules alone |
| Tracer.AssetsAreStyleSheetsAndJson | crates/turbo-trace/src/tracer.rs:346-348 | the files that are not scanned are those called x.css or x.json with a non-empty x |
| Tracer.ResolverInferenceCache.Infer | crates/turbo-trace/src/tracer.rs:155-187 | the memo answers as direct inference does, adds at most the file's directory, and keeps agreeing |
| Tracer.GetImportsFromFile | crates/turbo-trace/src/tracer.rs:228-323 | the followed paths and appended problems are those of the imports in order; unreadable and unparsable files yield one problem and nothing else |
| Tracer.ImportsAreAccountedFor | crates/turbo-trace/src/tracer.rs:250-320 | each import is followed, reported once, or a builtin |
| Tracer.ScanFollowsExactly | crates/turbo-trace/src/tracer.rs:250-305 | a file is followed if and only if an import resolves to it, or is unresolved, does not begin with a dot and has it as its package of type declarations, or has neither answer and resolves to it without extension |
| Tracer.ScanReportsExactly | crates/turbo-trace/src/tracer.rs:235-320 | a problem is reported if and only if the file cannot be read or parsed, or an import has no parent directory, resolves to no path, or is unresolved with every retry it is allowed failing; builtins are not reported |
| Tracer.OneImportMeans | crates/turbo-trace/src/tracer.rs:250-320 | one import is followed to at most one file or reported as at most one problem, and neither exactly for builtins |
| Tracer.ImportsAreHandledInOrder | crates/turbo-trace/src/tracer.rs:249-320 | the files and problems of a list of imports are those of its parts, in order |
| Tracer.RelativeImportsIgnoreTypePackages | crates/turbo-trace/src/tracer.rs:276-289 | answers for names beginning with @types/ do not change the scan of a file whose imports are all relative |
| Tracer.TracedFileMeans | crates/turbo-trace/src/tracer.rs:344-365 | an entry has its syntax tree exactly if asked for and the file is a parsable source; assets, unreadable and unparsable files have no imports and the stated problems |
| Tracer.Tracer.TraceFile | crates/turbo-trace/src/tracer.rs:325-366 | a seen file changes nothing; another is recorded with its entry and problems, and its imports are queued one level deeper |
| Tracer.Tracer.Trace | crates/turbo-trace/src/tracer.rs:456-481 | terminates; reports the files of the worklist run with their syntax trees, and each file's problems once in visiting order, although resolvers come from the memo |
| Tracer.UnboundedResultIsReachability | crates/turbo-trace/src/tracer.rs:456-481 | a file is in the unbounded result if and only if an import path from a root reaches it; style sheets, JSON, unreadable and unparsable files have no imports |
| Tracer.NarrowTraceReportsLess | crates/turbo-trace/src/tracer.rs:93-101 | tracing types or values reports no file that tracing all imports does not |
| Tracer.Tracer.SpawnTasks | crates/turbo-trace/src/tracer.rs:534-541 | every globbed file gets one task with the resolver of its directory |
| Tracer.Tracer.RunTask | crates/turbo-trace/src/tracer.rs:541-579 | a task reports its file if and only if one of its direct imports is a source, and always its problems |
| Tracer.Tracer.ReverseTrace | crates/turbo-trace/src/tracer.rs:494-611 | for every completion order the result is the globbed files that import a source directly, and each file's problems once |
| Tracer.ReverseTraceIsDepthOneTrace | crates/turbo-trace/src/tracer.rs:536-605 | a source file imports another target in the reverse trace if and only if the target is in its depth-one trace |
| SharedHttpClient.SharedSystem.Activate | crates/turborepo-api-client/src/shared_http_client.rs:40-91 | performs the next atomic operation of an activation |
| SharedHttpClient.SharedSystem.BuildFastInBackground | crates/turborepo-api-client/src/shared_http_client.rs:55-67 | performs the next atomic operation of the fast build |
| SharedHttpClient.SharedSystem.BuildNativeInBackground | crates/turborepo-api-client/src/shared_http_client.rs:73-90 | performs the next atomic operation of the native build with its fallback |
| SharedHttpClient.SharedSystem.GetOrInit | crates/turborepo-api-client/src/shared_http_client.rs:93-118 | performs the next atomic operation of a getter |
| SharedHttpClient.LateGettersReturnSlotClient | crates/turborepo-api-client/src/shared_http_client.rs:94-110 | once a slot is set, a getter that starts later and returns has returned the client of a slot without building, and the native one if that was set |
| SharedHttpClient.GetterAlone | crates/turborepo-api-client/src/shared_http_client.rs:93-118 | a getter that runs alone returns the native client, or else the fast one, or else the one it builds, which becomes the fast one |
| SharedHttpClient.GetterAloneReturnsAtOnce | crates/turborepo-api-client/src/shared_http_client.rs:94-102 | with a slot set it returns within two operations and changes nothing |
| SharedHttpClient.ActivationAlone | crates/turborepo-api-client/src/shared_http_client.rs:40-91 | an activation that runs alone without a native client takes the flag and starts both builds |
| SharedHttpClient.FastBuildAlone | crates/turborepo-api-client/src/shared_http_client.rs:55-67 | the fast build alone fills the fast slot with what it built unless that is set |
| SharedHttpClient.NativeBuildAlone | crates/turborepo-api-client/src/shared_http_client.rs:73-90 | the native build alone fills the native slot, or on failure the fast slot with the fallback, and clears the flag |
| SharedHttpClient.LateTasksBuildNoFastClient | crates/turborepo-api-client/src/shared_http_client.rs:57-82 | once the fast client is set, tasks spawned later do not build one |
| SharedHttpClient.WarmingMeansOneLiveActivation | crates/turborepo-api-client/src/shared_http_client.rs:45-51 | in every run the flag is set exactly while one activation is between its winning exchange and its store, so at most one native build is live |
| SharedHttpClient.SlotsAreWriteOnce | crates/turborepo-api-client/src/shared_http_client.rs:16-23 | a set slot never changes in any run |
| SharedHttpClient.ClearingWithoutClientMeansBothFailed | crates/turborepo-api-client/src/shared_http_client.rs:75-89 | if neither slot is set when the flag is about to be cleared, that task has earlier in the run tried the native build and later the fallback build, and both failed |
| SharedHttpClient.LateActivationSpawnsNothing | crates/turborepo-api-client/src/shared_http_client.rs:41-43 | an activation that starts after the native client is set spawns nothing |
| SharedHttpClient.LateGettersFindNative | crates/turborepo-api-client/src/shared_http_client.rs:94-97 | a getter that starts after the native client is set returns it |
| SharedHttpClient.NativeClientStays | crates/turborepo-api-client/src/shared_http_client.rs:93-97 | once a getter has returned the native client, every later one returns the same |
| SharedHttpClient.ReturnedClientsAreBacked | crates/turborepo-api-client/src/shared_http_client.rs:99-117 | a returned client leaves a slot set for good, and only a getter's own failed build fails it |
| SharedHttpClient.NativeMayBeBuiltAgain | crates/turborepo-api-client/src/shared_http_client.rs:41-51 | a reachable state has the native client set and a native build in progress |
| SharedHttpClient.NativeIsBuiltAgainExactlyWhenAhead | crates/turborepo-api-client/src/shared_http_client.rs:41-51 | once the native client is set, some continuation has a native build in progress if and only if an activation is past its first look at the slot and not finished, or a build is in progress |
| SharedHttpClient.RunSchedule | crates/turborepo-api-client/src/shared_http_client.rs:40-118 | a program that calls the operations in any order goes through a run, and ends with at most one live build and with returned clients that are those of the slots |
| HeadingSlugs.DecimalIsInjective | apps/docs/lib/rehype-strip-heading-jsx.ts:98 | different numbers print differently |
| HeadingSlugs.DecimalReadsBack | apps/docs/lib/rehype-strip-heading-jsx.ts:98 | numbers are written with decimal digits that read as the number, without leading zeros |
| HeadingSlugs.SlugTable.UniqueSlug | apps/docs/lib/rehype-strip-heading-jsx.ts:93-102 | terminates on every table; the result is new; for a taken slug the counter becomes the number in the result, the result is stored with zero, and nothing else changes |
| HeadingSlugs.SlugIsFirstFree | apps/docs/lib/rehype-strip-heading-jsx.ts:94-101 | the result is the base slug if free, and otherwise its least free numbered variant above the stored counter, to which the counter moves |
| HeadingSlugs.RepeatedSlugsAreNumbered | apps/docs/lib/rehype-strip-heading-jsx.ts:93-102 | n headings with one slug get slug, slug-1, ..., slug-(n-1) if none of these was taken |
| HeadingSlugs.GiveRepeatedly | apps/docs/lib/rehype-strip-heading-jsx.ts:93-102 | so do n calls on a table |
| HeadingRewriter.RewriteHeading | apps/docs/lib/rehype-strip-heading-jsx.ts:104-135 | the loops over the children compute the rewritten heading and update the table |
| HeadingRewriter.VisitHeadings | apps/docs/lib/rehype-strip-heading-jsx.ts:76-87 | visits the outermost headings in document order with one table |
| HeadingRewriter.StripHeadingJsx | apps/docs/lib/rehype-strip-heading-jsx.ts:89-137 | the plugin visits each tree with an empty table |
| HeadingRewriter.TransformIsIdempotent | apps/docs/lib/rehype-strip-heading-jsx.ts:104-135 | a second pass changes no tree |
| HeadingRewriter.RewrittenHeading | apps/docs/lib/rehype-strip-heading-jsx.ts:112-134 | a heading with an identifier and a JSX child keeps its text outside JSX; its children interleave the kept nodes and the removed JSX elements, which the badges describe in order; only the identifier and data-heading-badges change |
| HeadingRewriter.BadgesDescribeRemoved | apps/docs/lib/rehype-strip-heading-jsx.ts:113-122 | each badge has the name of its element and its trimmed text, if there is any |
| HeadingRewriter.TextsAreLeaves | apps/docs/lib/rehype-strip-heading-jsx.ts:28-54 | flattening joins all leaves in order, and without JSX those that no JSX element contains |
| HeadingRewriter.UnidentifiedHeadingStays | apps/docs/lib/rehype-strip-heading-jsx.ts:105 | a heading without or with an empty identifier is passed over |
| HeadingRewriter.PlainHeadingIsRecorded | apps/docs/lib/rehype-strip-heading-jsx.ts:107-110 | a heading with an identifier and no JSX child stays, and is recorded with a counter of zero |
| HeadingRewriter.VisitChangesOnlyHeadings | apps/docs/lib/rehype-strip-heading-jsx.ts:104-110 | nothing changes outside headings that have an identifier and a JSX child |
| HeadingRewriter.VisitRewritesHeadings | apps/docs/lib/rehype-strip-heading-jsx.ts:76-87 | the headings of the result are the original ones, rewritten in document order |
| HeadingRewriter.GeneratedIdsAreUnique | apps/docs/lib/rehype-strip-heading-jsx.ts:107-134 | a generated identifier differs from that of every earlier heading that has one |
| HeadingRewriter.IdsAreUniqueExactlyWhenPlainOnesAreNew | apps/docs/lib/rehype-strip-heading-jsx.ts:107-134 | headings with an identifier end with pairwise different ones if and only if no plain heading finds its own in the table when it records it |
| HeadingRewriter.PlainHeadingRepeatsGeneratedId | apps/docs/lib/rehype-strip-heading-jsx.ts:107-109 | a plain heading whose identifier is the slug of an earlier heading with a badge ends with the same identifier |
| WorkerPool.StepKeepsInv | lockfile-tests/check-lockfiles.ts:283-288 | every step keeps that each claimed index is awaited by exactly one worker, has its result, or has failed, that the function was called once for each, and that the pool has an error exactly if a call failed |
| WorkerPool.FewInFlight | lockfile-tests/check-lockfiles.ts:290-293 | the calls in flight are no more than the workers |
| WorkerPool.StepMakesProgress | lockfile-tests/check-lockfiles.ts:283-288 | every step leaves less to do, so all runs end |
| WorkerPool.EverySchedule | lockfile-tests/check-lockfiles.ts:275-296 | for every schedule: one call per claimed index, in flight no more than the concurrency and no more than the items, bounded length; and when no worker can go on, all results are in if and only if no call rejects and there was a worker or nothing to do, and the pool rejects if and only if there was a worker and some item has a rejecting call |
| WorkerPool.ConcurrencyIsReached | lockfile-tests/check-lockfiles.ts:290-293 | some schedule has as many calls in flight as the smaller of concurrency and items |
| WorkerPool.FirstRejectionStays | lockfile-tests/check-lockfiles.ts:294 | the first rejection is the error of the pool |
| WorkerPool.RunWithConcurrency | lockfile-tests/check-lockfiles.ts:275-296 | under any scheduler each result is the function of the item at its index, or the pool rejects with the error of some item; without workers no result is there |
| SingleFlight.LocalRunner.GetPmEnv | lockfile-tests/runners/local.ts:174-193 | returns the cached value, the promise in flight, or starts the work; leaves validations alone |
| SingleFlight.LocalRunner.PmEnvCreated | lockfile-tests/runners/local.ts:186-190 | caches the value and forgets the promise |
| SingleFlight.LocalRunner.ValidateFixture | lockfile-tests/runners/local.ts:245-266 | returns the cached outcome, the promise in flight, or starts the validation; leaves environments alone |
| SingleFlight.LocalRunner.FixtureValidated | lockfile-tests/runners/local.ts:259-263 | caches the outcome and forgets the promise |
| SingleFlight.WorkStartsOnce | lockfile-tests/runners/local.ts:170-193 | in every run the work for a key is started exactly once if the key was called, even after failures |
| SingleFlight.CalledKeyIsInOneMap | lockfile-tests/runners/local.ts:186-191 | a called key is in exactly one of the two maps |
| SingleFlight.CallersShareOutcome | lockfile-tests/runners/local.ts:241-266 | all callers of a key observe the same outcome at any time |
| SingleFlight.OutcomesAreFinal | lockfile-tests/runners/local.ts:259-265 | an outcome, once there, never changes |
| SingleFlight.FailureIsShared | lockfile-tests/runners/local.ts:183-191 | after a failure every later call receives the failed promise |
| SingleFlight.SuccessIsShared | lockfile-tests/runners/local.ts:186-193 | once the work for a key succeeds, every caller of the key, earlier or later, observes that value in every continuation |
| SingleFlight.FailureReachesEveryCaller | lockfile-tests/runners/local.ts:183-191 | once it fails, every caller observes the failure in every continuation |
| SingleFlight.CallIsLogged | lockfile-tests/runners/local.ts:178-192 | a call receives its handle, and starts the work exactly if it is the first for its key |
| FixtureGroups.BuildTestCases | lockfile-tests/check-lockfiles.ts:196-235 | cases follow fixtures and targets in order, and the expected labels are those of the cases marked so |
| FixtureGroups.BuiltCasesAreTargets | lockfile-tests/check-lockfiles.ts:203-232 | a case is built if and only if it tests a prune target of a fixture that the workspace argument admits, with the label of both and the flag of the listed failures |
| FixtureGroups.AllTargetsInOrder | lockfile-tests/check-lockfiles.ts:204-232 | without a workspace argument each target becomes one case, in order |
| FixtureGroups.GroupByFixture | lockfile-tests/check-lockfiles.ts:333-345 | groups come in order of first appearance and hold the cases of their path in order |
| FixtureGroups.FlattenRestoresExactlyContiguous | lockfile-tests/check-lockfiles.ts:334-355 | flattening the groups restores the case order if and only if cases of one path are next to each other |
| FixtureGroups.BuiltCasesAreContiguous | lockfile-tests/check-lockfiles.ts:203-232 | fixtures in different directories yield such cases |
| FixtureGroups.TryCase | lockfile-tests/runners/local.ts:458-515 | the calls of the try block are made until one throws, continues or the last returns; the flags are those of the stages passed and a failed stage pushes the result |
| FixtureGroups.RunCase | lockfile-tests/runners/local.ts:445-531 | wherever a call throws, exactly one result with the flags reached and the error is pushed, unless reporting the exception throws too, which pushes nothing and leaves the loop |
| FixtureGroups.ExceptionsAreRecorded | lockfile-tests/runners/local.ts:458-518 | for each call that may throw: the stages passed before are marked, the message is the error, and the exception leaves the loop exactly if its report throws |
| FixtureGroups.StagesAreRecorded | lockfile-tests/runners/local.ts:472-515 | without an exception the record is that of a failed prune, a failed validation, or a pass; an empty validation message counts as none |
| FixtureGroups.SucceedsWithErrorExactlyWhenLastPrintThrows | lockfile-tests/runners/local.ts:513-517 | a result is successful and has an error if and only if only printing that the case passed throws |
| FixtureGroups.RunFixtureGroup | lockfile-tests/runners/local.ts:391-541 | a group that does not reject has one result per case, in order; it rejects exactly if validation or the common set-up throws, or an exception of a case cannot be reported, and with the first such error |
| FixtureGroups.RunAll | lockfile-tests/check-lockfiles.ts:302-355 | the harness rejects if and only if there is a worker and some case breaks its group; otherwise the results are, index for index, those of the test cases, including the validation error of their fixture |
| FixtureGroups.Classify | lockfile-tests/check-lockfiles.ts:363-371 | passed, expected and unexpected failures are told apart by success and label, and add up to the total |
| FixtureGroups.LabelsClassifyExactlyWhenUnambiguous | lockfile-tests/check-lockfiles.ts:212-217 | membership of the label agrees with the flag of every case if and only if cases with equal labels have equal flags |
| FixtureGroups.ArrowFreeNamesAreUnambiguous | lockfile-tests/check-lockfiles.ts:212-217 | different fixture names without an arrow give unambiguous labels |
| FixtureGroups.ArrowInNameIsAmbiguous | lockfile-tests/check-lockfiles.ts:212-217 | two fixtures, one with an arrow in its name, have cases with equal labels and different flags |
| Reconnect.MergeIsPrefixExactlyWithoutGap | apps/factory/app/workspace-client.tsx:1009-1023 | merging a prefix of the log with a window of it gives a prefix if and only if the window leaves no gap or is empty |
| Reconnect.MergeExtendsPrefix | apps/factory/app/workspace-client.tsx:1018-1023 | without a gap the merged list is the longer prefix |
| Reconnect.MergeHasBoth | apps/factory/app/workspace-client.tsx:1009-1023 | merging any two lists keeps the first and has exactly the identifiers of both, none twice if the first has none twice |
| Reconnect.WorkspaceStream.Reconnect | apps/factory/app/workspace-client.tsx:222-227 | a request aborts the current stream and starts the loop unless it is active |
| Reconnect.WorkspaceStream.ResumeLoop | apps/factory/app/workspace-client.tsx:228-254 | after the awaited stream the loop ends when disposed, and otherwise opens one stream and ends |
| Reconnect.WorkspaceStream.Deliver | apps/factory/app/workspace-client.tsx:243-248 | a delivery advances the index and appends the event unless it is known |
| Reconnect.WorkspaceStream.Dispose | apps/factory/app/workspace-client.tsx:263-268 | disposal aborts the current stream |
| Reconnect.ApplyKeepsInv | apps/factory/app/workspace-client.tsx:222-268 | every step keeps the invariant on streams, requests and events |
| Reconnect.EventsArePrefixOfLog | apps/factory/app/workspace-client.tsx:239-248 | in every run at most one stream is open, and the event list is a duplicate-free prefix of the server's log |
| Reconnect.PendingRequestIsServed | apps/factory/app/workspace-client.tsx:222-233 | a pending request in a live view means an active loop that waits only for an aborted stream, after which a stream opens where the list ends |
| Reconnect.RequestOpensStream | apps/factory/app/workspace-client.tsx:222-241 | in every live state of a run a request only aborts the open stream and makes a restart pending; nothing opens before that stream has ended, and then exactly one stream opens where the event list ends |
| Reconnect.DeliveryAddsNextEvent | apps/factory/app/workspace-client.tsx:243-248 | each delivery of an open stream adds the next event of the log |
| Reconnect.DeliveriesCatchUp | apps/factory/app/workspace-client.tsx:243-248 | enough deliveries bring the event list up to the log |
| Reconnect.DisposalAborts | apps/factory/app/workspace-client.tsx:263-265 | disposal aborts the open stream and nothing else |
| Reconnect.DisposalIsFinal | apps/factory/app/workspace-client.tsx:230-263 | no stream opens after disposal |
| Analytics.AddSessionId | crates/turborepo-analytics/src/lib.rs:164-168 | rewrites the session of every event in place and nothing else |
| Analytics.Worker.FlushEvents | crates/turborepo-analytics/src/lib.rs:138-143 | hands over the buffer as one batch, and nothing when it is empty |
| Analytics.Worker.Poll | crates/turborepo-analytics/src/lib.rs:106-134 | takes the first enabled branch of the select |
| Analytics.EventsAreConserved | crates/turborepo-analytics/src/lib.rs:104-149 | in every run batches, buffer and queue are the events sent, in order; batches have one to ten events; the short timer is armed exactly while the buffer is non-empty; after the end everything was handed over |
| Analytics.DeliveredEventsAreThoseSent | crates/turborepo-analytics/src/lib.rs:138-168 | each event handed over has the payload with which it was sent, in order, and the session of the worker |
| Analytics.EventsComeFirst | crates/turborepo-analytics/src/lib.rs:109-123 | while events are queued each turn takes the first and restarts the timer, and hands over the buffer exactly when it becomes full |
| Analytics.ExitWaitsForQueue | crates/turborepo-analytics/src/lib.rs:109-133 | the loop ends exactly on an empty queue when no sender is left, or on an exit request before the timer is due, and hands over the rest |
| Analytics.ShutdownDeliversEverything | crates/turborepo-analytics/src/lib.rs:109-135 | after the last sender or the handle is dropped, a worker that is scheduled often enough stops with everything handed over |
| Analytics.EventsAreSentPromptly | crates/turborepo-analytics/src/lib.rs:118-128 | without scheduling delay each event is handed over within nine timeouts of its receipt: those in batches were, those still buffered are no older than that, nothing remains after the end, and time passes only while the queue is empty |
| Analytics.NineTimeoutsAreAttained | crates/turborepo-analytics/src/lib.rs:118-128 | a punctual run attains that bound |
| DevicePoll.PollForToken | crates/turborepo-auth/src/device_flow.rs:259-336 | the requests and the outcome are those of the specification for every reply sequence |
| DevicePoll.HandleReply | crates/turborepo-auth/src/device_flow.rs:288-334 | timeouts and the two retry codes continue with the next interval; every other reply returns its outcome |
| DevicePoll.IntervalsFollowReplies | crates/turborepo-auth/src/device_flow.rs:288-318 | the first interval is the given one, and each next is twice the last after a timeout, five seconds longer after slow_down, both at most a minute, and the same after authorization_pending |
| DevicePoll.IntervalsGrow | crates/turborepo-auth/src/device_flow.rs:291-317 | from at most a minute, intervals never shrink, stay within a minute, and have grown by five seconds per slow_down up to it |
| DevicePoll.NeverShrinksExactlyUpToMaximum | crates/turborepo-auth/src/device_flow.rs:266-317 | intervals never shrink for all replies if and only if the first is at most a minute |
| DevicePoll.RequestsAreSpaced | crates/turborepo-auth/src/device_flow.rs:268-286 | each request is sent before expiry plus its interval and oversleep, and exactly its interval and oversleep after the previous reply |
| DevicePoll.PollingEnds | crates/turborepo-auth/src/device_flow.rs:268-335 | with a positive interval the requests number at most the remaining time divided by it, rounded up, so the loop ends |
| DevicePoll.ZeroIntervalNeverEnds | crates/turborepo-auth/src/device_flow.rs:266-273 | with an interval of zero instant pending replies keep the loop going |
| DevicePoll.OnlyRetriesContinue | crates/turborepo-auth/src/device_flow.rs:301-334 | all replies but the last are retries, and the outcome is that of the last reply or expiry |
| DevicePoll.PollEndsAsReplied | crates/turborepo-auth/src/device_flow.rs:268-334 | the outcome is that of the last reply, kind by kind; after a retry the loop goes on unless the code has expired by then |
| CacheConfig.ActionsFromStr | crates/turborepo-cache/src/config.rs:157-200 | the loop over characters computes the specified result or error |
| CacheConfig.ParseActionsMeans | crates/turborepo-cache/src/config.rs:157-200 | accepted values are exactly the lists of r and w without repetition, and set exactly those flags |
| CacheConfig.FromStr | crates/turborepo-cache/src/config.rs:80-155 | the loop over segments computes the specified result or error |
| CacheConfig.ParseAcceptsEntries | crates/turborepo-cache/src/config.rs:80-155 | a text is accepted if and only if it is empty or a comma list of local and remote entries with different keys and valid values, and each cache gets its entry's actions |
| CacheConfig.JoinSplit | crates/turborepo-cache/src/config.rs:102 | joining the segments restores the text |
| CacheConfig.ParseInvertsPrint | crates/turborepo-cache/src/config.rs:80-155 | parsing the canonical text of any configuration gives that configuration |
| CacheConfig.ErrorsExplainFirstWrongSegment | crates/turborepo-cache/src/config.rs:80-155 | a non-empty text is rejected with an error if and only if that error explains the first segment that is not an entry or repeats a key: kind, offending key or first bad character, whole text, and byte offset of the segment or value |
| CacheConfig.SpanCoversOffendingText | crates/turborepo-cache/src/config.rs:103-147 | the span covers exactly the offending text, except that for local actions it does so if and only if the value has five bytes |
| CacheConfig.ByteLenIsUtf8Length | crates/turborepo-cache/src/config.rs:108-151 | offsets and lengths count the bytes of the UTF-8 encoding |
| CacheConfig.Utf8Decodes | crates/turborepo-cache/src/config.rs:108-151 | that encoding stands for its character (section 3 of RFC 3629) |
| CacheConfig.LocalSpanMissesRepeatedRead | crates/turborepo-cache/src/config.rs:122-125 | the text `local:rr` is rejected with a span that does not cover `rr` |
| ArtifactBody.FromSpool | crates/turborepo-cache/src/artifact_body.rs:72-83 | a rolled spool becomes a rewound file; another is read from its position |
| ArtifactBody.SpoolIsWholeExactlyWhenRewound | crates/turborepo-cache/src/artifact_body.rs:70-83 | the body is the whole spool if and only if it rolled over, was rewound, or is empty |
| ArtifactBody.Len | crates/turborepo-cache/src/artifact_body.rs:85-92 | the length of the artifact, or zero for a file without readable metadata |
| ArtifactBody.NewReader | crates/turborepo-cache/src/artifact_body.rs:107-124 | a reader has the whole artifact before it, wherever the shared offset was |
| ArtifactBody.Reader.Read | crates/turborepo-cache/src/artifact_body.rs:112-123 | a read takes a prefix of what is left, and nothing only at the end, buffered or not |
| ArtifactBody.CopyTo | crates/turborepo-cache/src/artifact_body.rs:126-131 | writes the whole artifact after any history of reads |
| ArtifactBody.Stream | crates/turborepo-cache/src/artifact_body.rs:133-156 | both representations stream the whole artifact in non-empty chunks of bounded size |
| ArtifactBody.ChunkedByteStream | crates/turborepo-cache/src/artifact_body.rs:159-175 | the unfold yields the slices of the buffer in order |
| ArtifactBody.ChunksAreFull | crates/turborepo-cache/src/artifact_body.rs:166-174 | no chunk is empty and all but the last are full |
| ArtifactBody.ChunksAreTheArtifact | crates/turborepo-cache/src/artifact_body.rs:162-175 | the chunks concatenate to the buffer and their lengths add up to its length |
| ArtifactBody.UseFile | crates/turborepo-cache/src/artifact_body.rs:112-146 | whatever the reads of a shared file return, a consumer sees what the log of seeks and reads says |
| ArtifactBody.SeesPrefixExactlyInStep | crates/turborepo-cache/src/artifact_body.rs:142-146 | a consumer sees the beginning of every artifact of a length if and only if, whenever it is given bytes, the shared offset equals what it has taken |
| ArtifactBody.UndisturbedConsumerSeesStart | crates/turborepo-cache/src/artifact_body.rs:107-118 | after any use by others, a consumer that rewinds and reads alone sees the artifact from its start, whatever others do later |
| ArtifactBody.AlternatingConsumersInterfere | crates/turborepo-cache/src/artifact_body.rs:142-146 | of two consumers that read in turns, with any request sizes that leave bytes unread, at least one does not see the beginning of every artifact |

## Left out

- Tracer.Tracer.Trace: the file system is a snapshot for the duration of a trace, and resolver options other than tsconfig, extension aliases and module directories are not modelled; the libraries for parsing, resolving and globbing are uninterpreted.
- Tracer.Tracer.ReverseTrace: panicking tasks and the conversion to real paths on Windows.
- ImportFinder.FindRequireCalls: spans are carried along but not tied to source positions, which come from the parser.
- SharedHttpClient.WarmingMeansOneLiveActivation: steps are sequentially consistent, and blocking tasks neither panic nor are cancelled.
- HeadingRewriter.VisitHeadings: the tree is rebuilt as a value, so nodes shared between several parents and property order are not captured; slugify, trim and stringify are uninterpreted.
- HeadingSlugs.SlugTable.UniqueSlug: counters are unbounded integers, while large JavaScript numbers print in another notation.
- WorkerPool.RunWithConcurrency: a concurrency that is not a number; the moment at which the pool rejects while other workers go on.
- SingleFlight.LocalRunner.GetPmEnv: the work itself (corepack, bun, validation commands) is reduced to its outcome.
- FixtureGroups.RunFixtureGroup: durations and captured output, which no other part of the harness depends on; the calls of the common set-up are one outcome, since any exception there leaves the function.
- FixtureGroups.RunAll: equal test cases have equal outcomes; argument parsing and fixture discovery.
- Reconnect.WorkspaceStream.Deliver: a session is taken to deliver the log from the index it was opened at, and the server to give every event its own identifier; failures of the transport only end a stream.
- Analytics.Worker.Poll: what becomes of a batch after it is handed over, the cooperative scheduling budget of the runtime, and closing with a timeout.
- DevicePoll.PollForToken: intervals near the maximum of 64 bits, whose doubling would overflow; the description of other errors and the shortening of long bodies in messages; HTTP itself.
- CacheConfig.FromStr: the wording of messages.
- ArtifactBody.Stream: read errors, building and signing archives.
- Retry, duration and size parsing, agent detection and boundaries metadata; redaction, origin and login checks are security concerns; generated bindings, rendering and configuration have no algorithm.
