# A verified model of gqlforge's concurrent, graph and sequence cores

gqlforge turns an annotated GraphQL configuration into a running service. This project models the parts
of it whose correctness is hardest to see from the code, and proves in Dafny 4.11 what they are for.
`dafny verify dfyconfig.toml` checks everything.

Code that updates state in place is a class or a loop here too; each method is proved against a
specification function, and the theorems are about those functions. Concurrency is a transition
system: a state, a type of events, `Enabled` and `Next`, and theorems over every run from the initial
state.

## What is modelled

**Sharing one execution (`Dedupe.dfy`, `DedupeProtocol.dfy`, `DedupeProgress.dfy`, `DedupeRuntime.dfy`).**
Concurrent callers of a key share one execution. The locked lookup, the locked completion and the abort of
a caller are one step each, because nothing is awaited inside them. A panic of the operation is an abort.
The log of a channel also records a value that no receiver was there to take. A capacity of zero is accepted
until a channel has to be created, which panics; `Step` asks for a capacity only then. Results: one execution per key; no waiter is
stranded or lags; retries are bounded by aborted executions; callers agree; with `persist` the operation
completes at most once; once aborts stop, every call returns. `Runtime.Poll` is the retry loop, and each
poll is a run of the protocol.

**Batching (`DataLoader.dfy`, `DataLoaderProtocol.dfy`, `DataLoaderTransparency.dfy`).** Keys of many
callers are batched by size or by delayed fetches, some of which find nothing left. Every request is in
exactly one place, a batch has a bounded size, every request is answered once and finally, and answers are
those of the loader's function whatever was batched, cached, fed, evicted, cleared or switched. The channel
whose loss the source declares unreachable (data_loader.rs, lines 230-231) is indeed never lost. A load reads
the loader-wide cache switch a second time after the lock is released; the model lets that second reading
be arbitrary.

**Persistent sequences (`ChunkPlan.dfy`, `ChunkHeap.dfy`, `Chunk.dfy`, `ChunkPrograms.dfy`).** A heap of
shared vectors with reference counts, boxes and owned handles. An append that happens in place is visible
through the one handle that holds the vector and through nothing else. `ChunkPrograms` evaluates any nesting
of the operations, clones included, and shows that forcing an intermediate result anywhere changes no
element. `is_null` can tell the difference: it does not recognise a chunk that is only lazily empty, such as
the concatenation of two empty vectors that `NonNullWithoutElements` builds.

**Schema closures (`Reachability.dfy`, `Acyclicity.dfy`, `ResolverCheck.dfy`, `SchemaConfig.dfy`,
`Connections.dfy`, `Interfaces.dfy`, `UsedTypes.dfy`, `Compress.dfy`).** Five traversals of cyclic type
graphs, each with a termination measure and each equal to declarative reachability, which is spelled out as paths
over the configuration alone (`ConnectedMeaning`, `LeavesMeaning`, `UsedMeaning`, `KeptMeaning`,
`DefectiveMeaning`). Two of them do not end on every input. `find_connections` enters union members without a visited check; some bound on its depth suffices
exactly when no union on a cycle of unions can be entered (section 3.8 of the GraphQL specification, October
2021, allows no union in a union at all). `interfaces_types_map` stores a name only when it is done with it;
some bound suffices exactly when no interface reaches a cycle of `implements` clauses (section 3.7). Both
statements are proved for the single call and for the whole operation, and the operations ask for nothing more;
`SelfUnionNeverEnds` and `SelfImplementingNeverEnds` are inputs on which no bound suffices. The resolver check
reports a field exactly if, when its turn comes, something hopeless can be reached from it past the types visited
by then; from an empty visited set that makes the verdict exact, although visited types answer success. `ToSchema` gives the causes in order; a missing query root is among them twice. A union hides a type of the
same name, and then removing unused types can break a reference of that type: `HidingBreaksReference` is an
example, and `ShakingIsSafeExactly` says for which configurations it happens, `TypeReferenceSurvives` for which
references.

**Redis (`StreamProtocol.dfy`, `StreamReader.dfy`, `ChannelProtocol.dfy`, `ChannelRegistry.dfy`).** The
`XREAD` loop delivers a contiguous run of the log, one item per entry, across timeouts, lost replies and
reconnects. A reply may be shorter than what the log holds, so that a slow or stale answer is covered. The
channel registry does not leak. A subscriber that has registered but has no receiver yet can lose its channel
to another subscriber's guard; it then listens to a sender that is no longer in the map and hears nothing.
`HandoverStrandsListener` is such a run, `RegisteredLosesPlaceInRun` says exactly which runs do it, and
`HearsAllOrNothing` that being in the map when listening starts decides everything after it. A stream accounts
for every message that is sent to it, and `LosesExactlyWhenBehind` says when one is lost: a read that comes
while more messages wait than a broadcast channel keeps.

**Accumulating validation (`Validation.dfy`, `TryFold.dfy`).** Left-chained and right-nested folds report
different error lists; each is characterised exactly, and they agree on success. `NestingIsHarmlessExactly` says
for which two steps the nesting of a third makes no difference, `PrefixesAgreeExactly` the same for lists: once
something has failed, the state that is kept must be the initial one. Transforming distributes over
sequences exactly where reading and writing form a lawful focus; a failing read is reported once on one side
and twice on the other. `Valid::from_iter` can read failures without causes as a success;
`CollectionIsRightExactly` says when it tells success from failure: when all items succeed, or some failure
carries a cause.

**Line breaking (`LineBreaking.dfy`).** Description lines restore the text, split no word and are the only
possible ones; reading a printed description back and taking the indentation off gives the description
without its newlines. The rest of the text is cut into graphemes anew for every line, as in the code; what that
needs of the segmentation is stated as `Segments`.

`Options.dfy`, `Sequences.dfy` and `Cardinality.dfy` hold an option type and general lemmas.

## Model

| member | source | states |
|---|---|---|
| Dedupe.Dedupe.constructor | src/core/data_loader/dedupe.rs:50-52 | a fresh map without entries, for every capacity |
| Dedupe.Dedupe.Step | src/core/data_loader/dedupe.rs:90-116 | the locked lookup returns a stored result, joins a channel whose sender is alive, or takes the key over with a new channel, exactly as the specification step says; only the last needs a capacity |
| Dedupe.Dedupe.Complete | src/core/data_loader/dedupe.rs:75-82 | storing or removing the entry, sending and releasing the sender is one step on the shared state |
| Dedupe.Dedupe.DropSender | src/core/data_loader/dedupe.rs:73-74 | an aborted owner takes its sender along and leaves the entry behind |
| DedupeProtocol.NextKeepsValid | src/core/data_loader/dedupe.rs:54-116 | arrivals, lookups, completions, receptions and aborts all keep the global invariant that ties channels, owners, entries and callers together |
| DedupeProtocol.OneExecutionPerKey | src/core/data_loader/dedupe.rs:73-84 | in every reachable state two callers that execute for one key are the same caller, and the entry of the key is pending on its live channel, so completion clobbers nobody |
| DedupeProtocol.NoWaiterStranded | src/core/data_loader/dedupe.rs:62-72 | an awaited channel has an executing owner, or carries the value its owner returned, or is closed because its owner was aborted; it never lags |
| DedupeProtocol.RetriesBounded | src/core/data_loader/dedupe.rs:59-72 | a caller goes round the loop at most once per aborted execution of its key |
| DedupeProtocol.Agreement | src/core/data_loader/dedupe.rs:73-86 | every returned value was produced by a finished execution for the key; callers on one channel agree, and with persist all callers of a key do |
| DedupeProtocol.ReadyForever | src/core/data_loader/dedupe.rs:26-29 | a stored result is never replaced and its operation never completes again, over any run |
| DedupeProtocol.PersistCompletesOnce | src/core/data_loader/dedupe.rs:76-77 | with persist an operation completes at most once per key in any run |
| DedupeProgress.ActorLosesWeight | src/core/data_loader/dedupe.rs:59-86 | each step of a caller brings that caller strictly closer to returning |
| DedupeProgress.QuietRunsAreShort | src/core/data_loader/dedupe.rs:59-86 | without arrivals and aborts a run is no longer than the total weight of its first state |
| DedupeProgress.SomeoneCanMove | src/core/data_loader/dedupe.rs:59-86 | no deadlock: while a call is in flight some internal step is enabled |
| DedupeProgress.EveryCallReturns | src/core/data_loader/dedupe.rs:54-88 | after any past, internal steps are bounded in number and when none is left every call has returned or was aborted |
| DedupeRuntime.Runtime.Enter | src/core/data_loader/dedupe.rs:60-73 | one turn of the loop up to its await is the protocol's lookup event |
| DedupeRuntime.Runtime.Finish | src/core/data_loader/dedupe.rs:74-83 | completion on the real map is the protocol's completion event |
| DedupeRuntime.Runtime.Receive | src/core/data_loader/dedupe.rs:62-71 | a received value ends the call and a closed channel sends it round again |
| DedupeRuntime.Runtime.Abort | src/core/data_loader/dedupe.rs:62-74 | dropping a call at an await is the protocol's abort event |
| DedupeRuntime.Runtime.Poll | src/core/data_loader/dedupe.rs:59-87 | polling a call terminates and is a run of the protocol in which only that call moves; it yields the call's value or leaves it waiting for its operation or its channel |
| DataLoader.Requests.Take | src/core/data_loader/data_loader.rs:350-355 | hands out exactly the queued keys and callers and empties both |
| DataLoader.Requests.Partition | src/core/data_loader/data_loader.rs:155-169 | splits the requested keys: to load are exactly those that are not cached, or all when the cache is off, and the others come with their cached values |
| DataLoader.Requests.LoadMany | src/core/data_loader/data_loader.rs:148-195 | answers at once, with the cached values, exactly when every key is cached and the cache is on; otherwise only the uncached keys are queued, and a full batch is dispatched, a delayed fetch started, or the call waits |
| DataLoader.CallExactly | src/core/data_loader/data_loader.rs:148-195 | the same over the requested keys, the cache and the switches alone, for every state and threshold |
| DataLoader.Requests.Deliver | src/core/data_loader/data_loader.rs:381-402 | fills the cache unless it is off, and gives every caller of the batch its cached values joined with the loaded values of its keys |
| DataLoader.Requests.DeliverError | src/core/data_loader/data_loader.rs:403-407 | a failed load sends the error to every caller of the batch |
| DataLoader.Requests.FeedMany | src/core/data_loader/data_loader.rs:242-258 | fed pairs enter the cache, the last of a key winning, and nothing else changes |
| DataLoader.LastPairCounts | src/core/data_loader/data_loader.rs:253-257 | every fed pair gets into the cache, and of several pairs with one key the last counts |
| DataLoader.Requests.Clear | src/core/data_loader/data_loader.rs:280-292 | empties the cache and leaves the queue alone |
| DataLoader.Requests.EnableCache | src/core/data_loader/data_loader.rs:100-111 | switches the cache without touching queue or contents |
| DataLoaderProtocol.SendAllAnswersAll | src/core/data_loader/data_loader.rs:393-407 | sending responses one by one amounts to the protocol's step that answers a whole batch |
| DataLoaderProtocol.CallMeaning | src/core/data_loader/data_loader.rs:148-232 | a call as a step of the system: which keys it asks for, what it is answered, what is queued, in flight and timed behind it |
| DataLoaderProtocol.FireMeaning | src/core/data_loader/data_loader.rs:209-224 | a timer takes all that is queued and loads it, unless nothing is |
| DataLoaderProtocol.LoadMeaning | src/core/data_loader/data_loader.rs:381-392 | a load that succeeds adds all it returned to the cache unless a switch was off; one that fails adds nothing |
| DataLoaderProtocol.NextConserves | src/core/data_loader/data_loader.rs:148-231 | no call, timer, load, feed, eviction, clear or toggle loses or duplicates a request |
| DataLoaderProtocol.NextKeepsValid | src/core/data_loader/data_loader.rs:148-409 | every event keeps the invariant of queue, batches, timers and answers |
| DataLoaderProtocol.RequestsConserved | src/core/data_loader/data_loader.rs:177-231 | in every reachable state each request is in exactly one of queue, one batch in flight, or answers; the queued keys are the union of the callers' keys; a waiting caller has a delayed fetch ahead; a timer without keys drops nobody |
| DataLoaderProtocol.BatchesBounded | src/core/data_loader/data_loader.rs:183-194 | for a threshold of at least one a batch has fewer keys than the threshold plus the last caller's own; for zero every caller is its own batch |
| DataLoaderProtocol.AnswersAreFinal | src/core/data_loader/data_loader.rs:210-224 | stale timers and later loads never change an answer |
| DataLoaderProtocol.EveryRequestAnswered | src/core/data_loader/data_loader.rs:197-231 | timers and loads run out, and when none is left every request made so far has its answer |
| DataLoaderTransparency.LoadedIsRestriction | src/core/data_loader/data_loader.rs:394-401 | cached and loaded values of one caller together are the loader's function on that caller's keys |
| DataLoaderTransparency.CallKeepsTransparent | src/core/data_loader/data_loader.rs:154-181 | a call that is answered from the cache or queued keeps all answers true to the loader's function |
| DataLoaderTransparency.AnswersAreTransparent | src/core/data_loader/data_loader.rs:148-401 | if loads and fed values agree with one partial function, every successful answer in every run is that function on exactly the requested keys |
| ChunkPlan.AsVecMut | gqlforge-chunk/src/chunk.rs:329-353 | reading the result of a closure appends exactly its meaning to the buffer |
| ChunkPlan.MeaningByCases | gqlforge-chunk/src/chunk.rs:334-351 | the elements of what a closure returns: both parts of a concatenation in order, all collected items, and for a nested closure the flat-map, part by part |
| ChunkPlan.ExpandAll | gqlforge-chunk/src/chunk.rs:343-346 | running the closure over all elements appends the flat-map |
| ChunkHeap.DenoteFramed | gqlforge-chunk/src/chunk.rs:65-76 | new parts, a freed box and a vector that nobody relevant holds do not change what a node means |
| ChunkHeap.PutKeeps | gqlforge-chunk/src/chunk.rs:64-76 | a new handle keeps all counts exact and every other chunk unchanged |
| ChunkHeap.TakeKeeps | gqlforge-chunk/src/chunk.rs:181-187 | giving up a handle keeps counts exact and every other chunk unchanged |
| ChunkHeap.SoleHolder | gqlforge-chunk/src/chunk.rs:190 | a strong count of one means that no other handle and no box holds the vector |
| ChunkHeap.PushKeeps | gqlforge-chunk/src/chunk.rs:190-193 | the push in place extends the one chunk that holds the vector and leaves the meaning of every other chunk alone |
| ChunkHeap.FreeKeeps | gqlforge-chunk/src/chunk.rs:64-76 | freeing a box that nothing refers to changes no chunk |
| ChunkHeap.FreeVecKeeps | gqlforge-chunk/src/chunk.rs:64-76 | freeing a vector without references changes no chunk |
| Chunk.Chunks.FreeBox | gqlforge-chunk/src/chunk.rs:64-76 | dropping the last reference to an inner chunk disturbs no chunk that is still owned |
| Chunk.Chunks.Default | gqlforge-chunk/src/chunk.rs:82-84 | a new chunk without elements, all others undisturbed |
| Chunk.Chunks.New | gqlforge-chunk/src/chunk.rs:100-102 | a new chunk of one element, all others undisturbed |
| Chunk.Chunks.Clone | gqlforge-chunk/src/chunk.rs:64-65 | a second chunk with the same elements that shares its parts |
| Chunk.Chunks.ReleaseBoxes | gqlforge-chunk/src/chunk.rs:64-76 | whatever has lost its last reference is freed, level by level, until every box is referenced; no chunk changes |
| Chunk.Chunks.ReleaseVectors | gqlforge-chunk/src/chunk.rs:64-76 | every vector whose count has reached zero is freed; no chunk changes |
| Chunk.Chunks.Drop | gqlforge-chunk/src/chunk.rs:64-76 | one chunk is gone, all boxes and vectors that nothing else refers to are gone, and all other chunks keep their elements |
| Chunk.Chunks.FromIter | gqlforge-chunk/src/chunk.rs:367-371 | a collected chunk with the given elements |
| Chunk.Chunks.IsNull | gqlforge-chunk/src/chunk.rs:116-122 | true exactly for chunks that are empty and not lazily so |
| Chunk.Chunks.NonNullWithoutElements | gqlforge-chunk/src/chunk.rs:116-122 | two empty vectors, concatenated, have no elements and are not null |
| Chunk.Chunks.Push | gqlforge-chunk/src/chunk.rs:189-193 | the branch that mutates: the left chunk grows by the right one's element and no third chunk notices |
| Chunk.Chunks.Join | gqlforge-chunk/src/chunk.rs:194-199 | the general branch: both chunks are consumed and their elements appear in order |
| Chunk.Chunks.Pair | gqlforge-chunk/src/chunk.rs:186-188 | two single elements become a vector of both |
| Chunk.Chunks.Absorb | gqlforge-chunk/src/chunk.rs:183-185 | next to an empty chunk the other one is the result |
| Chunk.Chunks.Concat | gqlforge-chunk/src/chunk.rs:181-201 | consumes both chunks, yields the concatenation of their elements, and every other live chunk keeps its elements |
| Chunk.Chunks.Append | gqlforge-chunk/src/chunk.rs:137-139 | the element comes last and every other chunk is undisturbed |
| Chunk.Chunks.Prepend | gqlforge-chunk/src/chunk.rs:154-160 | the element comes first in the null case and in the other, all others undisturbed |
| Chunk.Chunks.TransformFlatten | gqlforge-chunk/src/chunk.rs:295-297 | denotes the flat-map of the elements |
| Chunk.Chunks.Transform | gqlforge-chunk/src/chunk.rs:229-231 | denotes the element-wise image, although it is built from a flat-map |
| Chunk.Chunks.AsVecMutNode | gqlforge-chunk/src/chunk.rs:329-353 | appends exactly the meaning of a node to the buffer, whatever the sharing below it |
| Chunk.Chunks.AsVecMut | gqlforge-chunk/src/chunk.rs:329-353 | the buffer keeps what it had and gains exactly the chunk's elements |
| Chunk.Chunks.AsVec | gqlforge-chunk/src/chunk.rs:311-318 | the elements of the chunk, and no state changes |
| Chunk.Chunks.Materialize | gqlforge-chunk/src/chunk.rs:260-265 | a collected chunk with the same elements |
| Chunk.TransformMeaning | gqlforge-chunk/src/chunk.rs:229-231 | the flat-map of single-element closures is the map |
| Chunk.TransformComposes | gqlforge-chunk/src/chunk.rs:229-231 | two transformations in a row are one by the composed function |
| Chunk.TransformDistributes | gqlforge-chunk/src/chunk.rs:229-297 | both transformations distribute over concatenation |
| Chunk.TransformFlattenAssociative | gqlforge-chunk/src/chunk.rs:295-297 | flattening in two passes equals nesting the second pass inside the first closure |
| Chunk.TransformFlattenUnits | gqlforge-chunk/src/chunk.rs:295-297 | wrapping each element changes nothing, and a single element gives just its closure's elements |
| ChunkPrograms.Build | gqlforge-chunk/src/chunk.rs:82-371 | any nesting of the operations yields one new chunk with the program's value on plain sequences and disturbs no other chunk |
| ChunkPrograms.FlatMappedByCases | gqlforge-chunk/src/chunk.rs:295-297 | in a program, the closure of a concatenation runs over the left part and then the right part, and yields for a single element what that element's closure result means |
| ChunkPrograms.ReadBoth | gqlforge-chunk/src/chunk.rs:260-318 | building a program and its form without any materialize on one heap and reading both gives the same elements |
| ChunkPrograms.BuildPlan | gqlforge-chunk/src/chunk.rs:82-371 | what a closure returns can be built with the operations of chunks themselves: one new chunk with the elements that it means |
| ChunkPrograms.ReadPlan | gqlforge-chunk/src/chunk.rs:311-353 | reading the result of a closure directly and reading the chunk built from it give the same elements in the same order |
| Validation.FailAt | src/core/blueprint/schema.rs:18 | one cause with one name in its path |
| Validation.FromIter | gqlforge-valid/src/valid.rs:126-148 | every item is run in order and each call gets the state that the one before it left behind; the result has all values in order, or all causes in order, and the final state is that after all items |
| Validation.OutcomesAreThreaded | gqlforge-valid/src/valid.rs:133-141 | the specification of that loop: the outcome at each index is that of the item there, from the state of the call before |
| Validation.CollectedInTurn | gqlforge-valid/src/valid.rs:133-147 | values and causes of a list are those of its parts, in order |
| Validation.ZipAccumulates | gqlforge-valid/src/valid.rs:33-44 | no cause is lost, those of the first come first, and success needs both |
| Validation.AndAccumulates | gqlforge-valid/src/valid.rs:29-31 | the same with the value of the second |
| Validation.CollectionIsRightExactly | gqlforge-valid/src/valid.rs:143-147 | the collection tells success from failure exactly when all items succeed or some failure carries a cause |
| Validation.HonestCollection | gqlforge-valid/src/valid.rs:143-147 | if all failures carry causes, the collection succeeds exactly when every item does and keeps positions |
| Validation.DishonestFailureIsLost | gqlforge-valid/src/valid.rs:143-147 | an input outside that condition: a failure without causes is read as a success that drops a value |
| Validation.AndAssociative | gqlforge-valid/src/valid.rs:29-44 | accumulation is associative, keeps every cause in order, and succeeds exactly when all do |
| TryFolding.AndRuns | src/core/try_fold.rs:38-45 | the second step always runs: from the new state after a success, from the old state after a failure, with both error lists joined |
| TryFolding.ChainMeaning | src/core/try_fold.rs:38-45 | a left chain threads the state and, after the first failure, runs every later step from the initial state; errors come in step order |
| TryFolding.FromIterMeaning | src/core/try_fold.rs:130-141 | a collected fold lets failing steps leave the state unchanged; errors come in step order |
| TryFolding.SameUntilFirstFailure | src/core/try_fold.rs:38-141 | up to the first failure both nestings run every step from the same state, and they fail together |
| TryFolding.NestingsAgree | src/core/try_fold.rs:38-141 | both nestings succeed together and with the same value |
| TryFolding.NestingIsHarmlessExactly | src/core/try_fold.rs:38-45 | the nesting of two steps and any third makes no difference exactly when the second has not failed after the first moved the state on, and has not moved it on after the first failed |
| TryFolding.ListsAgreeExactly | src/core/try_fold.rs:38-141 | with any last step both nestings of a list report the same exactly when nothing has failed, or they report the same so far and the kept state is the initial one |
| TryFolding.PrefixesAgreeExactly | src/core/try_fold.rs:38-141 | all prefixes of a list, with any next step, report the same in both nestings exactly when every prefix with a failure in it has kept the initial state |
| TryFolding.NestingsDifferOnErrors | src/core/try_fold.rs:221-245 | the three steps of the repository's own examples, outside that condition, report 600 in one nesting and 1200 in the other |
| TryFolding.EmptyIsUnit | src/core/try_fold.rs:111-113 | the empty fold is a unit on both sides |
| TryFolding.FocusedRun | src/core/try_fold.rs:89-99 | a transformed step reads a part, runs on it and writes back; the first of the three that fails ends it with its own causes |
| TryFolding.TransformRun | src/core/try_fold.rs:68-77 | the case in which reading and writing cannot fail |
| TryFolding.FocusDistributesExactly | src/core/try_fold.rs:89-99 | where failures carry causes, transforming distributes over all sequences of two such steps exactly when reading and writing succeed, what is written is read back, and the last write wins |
| TryFolding.FailingReadCountsTwice | src/core/try_fold.rs:89-99 | a failing read is reported once for the transformed sequence and twice for the sequence of transformed steps |
| TryFolding.TransformDistributes | src/core/try_fold.rs:68-77 | with a lawful focus that cannot fail, transforming a sequence of two steps is the sequence of the transformed steps, errors included |
| ResolverCheck.OpenedUnfolds | src/core/blueprint/schema.rs:34-42 | a type visits itself and what its fields visit one after the other, which together is all that can be reached past the types visited before |
| ResolverCheck.TypeFailsExactly | src/core/blueprint/schema.rs:28-45 | the check of a type fails exactly when a hopeless field can be reached past the types visited before |
| ResolverCheck.CausesAreDefects | src/core/blueprint/schema.rs:40-44 | every reported cause names a field that really is defective |
| ResolverCheck.HopelessIsReported | src/core/blueprint/schema.rs:40-62 | a field without resolver and with an undeclared type is always reported |
| ResolverCheck.FieldTurn | src/core/blueprint/schema.rs:34-44 | the turn of one more field: it visits what it opens and reports its own cause behind those of the fields before it |
| ResolverCheck.ValidateTypeHasResolvers | src/core/blueprint/schema.rs:28-45 | terminates on cyclic schemas, visits exactly what can be reached past the visited types, and reports, in order, exactly the fields that fail when their turn comes |
| ResolverCheck.ValidateFieldHasResolver | src/core/blueprint/schema.rs:47-67 | fails, with one cause under the field's name, exactly when the field has no resolver and its type is undeclared or reaches something hopeless past the visited types |
| ResolverCheck.DefectiveMeansHopeless | src/core/blueprint/schema.rs:20-21 | from an empty visited set that is plain reachability of an unresolvable field |
| ResolverCheck.DefectiveMeaning | src/core/blueprint/schema.rs:28-67 | defective, in the terms of the schema alone |
| ResolverCheck.ValidateRootType | src/core/blueprint/schema.rs:20-21 | from an empty visited set the check fails exactly when a chain of fields without resolvers leads from the root to a field that no resolver backs and whose type nobody declares; its causes are the exact list |
| ResolverCheck.ValidateQuery | src/core/blueprint/schema.rs:11-24 | a missing root is one cause, an undeclared one is reported under its name, and a declared one is sound or has its defects reported |
| ResolverCheck.ValidateOptionalRoot | src/core/blueprint/schema.rs:69-101 | a missing root passes, an undeclared one is reported under its name, a declared one is sound or has its defects reported |
| ResolverCheck.ToSchema | src/core/blueprint/schema.rs:103-121 | succeeds exactly when all roots are sound, the query root is named and the directive is valid; the causes are those of query, mutation, subscription, a missing query root again, and the directive, in this order |
| ResolverCheck.CausesInTurn | src/core/blueprint/schema.rs:103-121 | the causes part by part: for each root nothing, one cause under its name, or its defects; a missing query root first and again before the directive |
| Connections.EndsExactly | src/core/config/config.rs:491-509 | some bound on the depth of the recursion suffices exactly when no union on a cycle of unions can be entered |
| Connections.CycleNeverEnds | src/core/config/config.rs:492-497 | a call for a union on a cycle of unions returns for no bound and no set of known types |
| Connections.SelfUnionNeverEnds | src/core/config/config.rs:492-497 | for a union that is a member of itself no bound suffices |
| Connections.VisitExplores | src/core/config/config.rs:491-509 | whatever bound suffices, the search adds reachable declared names only, and all successors of whatever it adds |
| Connections.Walk | src/core/config/config.rs:491-509 | the recursion over members and fields computes what the bounded search says |
| Connections.FindConnections | src/core/config/config.rs:491-509 | for every input on which the search ends: it adds reachable declared names only, and all successors of whatever it adds |
| Connections.ExploredFromClosed | src/core/config/config.rs:491-509 | from a closed set one search adds exactly the declared names reachable through union members and non-scalar fields, and the result is closed |
| Connections.AllEndExactly | src/core/config/config.rs:524-561 | searching from several names in turn ends exactly when the search from each of them does, whatever the order |
| SchemaConfig.RootsMeaning | src/core/config/config.rs:545-561 | the roots are the query, mutation and subscription types, each if it is named |
| Connections.ConnectedMeaning | src/core/config/config.rs:491-509 | connected, over the configuration alone: a path of declared union members and non-scalar field types |
| Connections.InputTypes | src/core/config/config.rs:524-532 | a name is an input type exactly when a path of members and fields leads to it from the type of some argument that is no scalar, whatever the order of the arguments |
| Connections.OutputTypes | src/core/config/config.rs:545-561 | a name is an output type exactly when such a path leads to it from the query, mutation or subscription root |
| Interfaces.EndsExactly | src/core/config/config.rs:565-596 | from an empty memo table some bound on the depth suffices exactly when no cycle can be reached from the names |
| Interfaces.AllEndExactly | src/core/config/config.rs:609-618 | the loop over all interfaces with one memo table ends exactly when no interface reaches a cycle, whatever the order |
| Interfaces.SelfImplementingNeverEnds | src/core/config/config.rs:564-621 | for a type that implements itself no bound suffices |
| Interfaces.TypesBelow | src/core/config/config.rs:572-593 | a name contributes itself or its final set, from the memo table or newly computed, and the table stays final |
| Interfaces.MergeInterfaceTypes | src/core/config/config.rs:565-596 | on every input on which the bounded visit ends: the memo table gets exactly the names of that visit and only ever holds final values, and the result merges the final sets of the members |
| Interfaces.MapAll | src/core/config/config.rs:609-618 | the loop over all interfaces, with one memo table, gives each its final set |
| Interfaces.ImplementersMeaning | src/core/config/config.rs:598-607 | the graph has an entry exactly for the names that some type lists, and below each all types that list it, in whatever place |
| Interfaces.BuildImplementers | src/core/config/config.rs:598-607 | inverts the implements lists: an entry for every implemented name and no other, holding every type that lists it in whatever place |
| Interfaces.InterfacesTypesMap | src/core/config/config.rs:564-621 | maps every implemented name to exactly the types that nothing implements and that have a chain of implements clauses up to it |
| Interfaces.LeavesMeaning | src/core/config/config.rs:564-621 | the same for the specification: over the configuration alone, a chain of implements clauses from a type that nothing implements |
| UsedTypes.UsedNamesLeast | src/core/config/config.rs:654-690 | the used names are the least set with the declared roots that is closed under fields, arguments, members and implements |
| UsedTypes.ReferencesMeaning | src/core/config/config.rs:672-686 | what a name refers to: the members of a union, otherwise the argument types and types of all fields and the interfaces |
| UsedTypes.UsedMeaning | src/core/config/config.rs:656-690 | used, over the configuration alone |
| UsedTypes.GetAllUsedTypeNames | src/core/config/config.rs:656-690 | the work list terminates and finds exactly the names that a path leads to from a declared root, each name on it mentioned by the one before it as a field type, an argument type, a union member or an interface |
| UsedTypes.PushTypeReferences | src/core/config/config.rs:679-685 | pushes argument types and type of every field and then the interfaces, none left out |
| UsedTypes.UnusedTypes | src/core/config/config.rs:643-652 | exactly the declared types and unions that are not used |
| UsedTypes.RemoveTypes | src/core/config/config.rs:633-640 | removes exactly the given names from types and unions, whatever the order |
| UsedTypes.TreeShake | src/core/config/transformer/tree_shake.rs:14-21 | the configuration without its unused types |
| UsedTypes.ShakenKeepsUsed | src/core/config/config.rs:633-652 | exactly the used names stay, with their definitions |
| UsedTypes.ShakenKeepsReferences | src/core/config/config.rs:633-652 | what a kept name refers to and was declared is still declared |
| UsedTypes.ShakenKeepsTypeReferences | src/core/config/config.rs:672-686 | a kept type keeps its references when no union has its name |
| UsedTypes.TypeReferenceSurvives | src/core/config/config.rs:633-690 | a declared reference of a kept type survives exactly when no union has the type's name or the target is used |
| UsedTypes.ShakingIsSafeExactly | src/core/config/config.rs:633-690 | no kept type loses a reference exactly when no used union hides a type that refers to something declared and unused |
| UsedTypes.HidingBreaksReference | src/core/config/config.rs:672-677 | a union that shares its name with a type makes a field of the kept type dangle |
| UsedTypes.SameUsedNames | src/core/config/config.rs:643-690 | removing unused types changes nothing about what is used |
| UsedTypes.ShakenIsStable | src/core/config/config.rs:643-652 | after one removal nothing is unused, and a second removal changes nothing |
| Compress.CollectDependencies | src/core/blueprint/compress.rs:52-82 | exactly the field types, the argument types and interfaces of an object, the objects that list an interface, the enum values, the union members and a scalar itself |
| Compress.DependenciesMeaning | src/core/blueprint/compress.rs:52-82 | the same for the specification: a name is a dependency exactly when the definition needs it, case by case |
| Compress.BuildDependencyGraph | src/core/blueprint/compress.rs:45-87 | one entry per defined name, the last definition of a name winning |
| Compress.IdentifyReferencedTypes | src/core/blueprint/compress.rs:90-108 | the search terminates on cycles and finds exactly what the roots reach |
| Compress.NeededIsReachable | src/core/blueprint/compress.rs:7-26 | reachable is what a chain of definitions leads to, each last of its name and needing the next, from the three default roots or the declared query and mutation |
| Compress.FilterDefinitions | src/core/blueprint/compress.rs:34-39 | keeps the definitions with the given names, in their old order |
| Compress.FilterInOrder | src/core/blueprint/compress.rs:34-39 | keeping goes definition by definition, so order and repetitions stay |
| Compress.CompressBlueprint | src/core/blueprint/compress.rs:7-43 | keeps, in order, the definitions whose names are reached or always kept, and the rest of the blueprint |
| Compress.CompressedKeeps | src/core/blueprint/compress.rs:34-42 | a definition survives exactly when its name is always kept or reachable from the coded roots |
| Compress.KeptMeaning | src/core/blueprint/compress.rs:7-43 | a definition survives exactly when such a chain leads to its name or it has one of the fixed introspection names; over the blueprint alone |
| Compress.CompressedIsClosed | src/core/blueprint/compress.rs:34-87 | whatever the last definition of a reachable name depends on and the blueprint defines is kept too |
| Compress.CompressedIsClosedWhenDistinct | src/core/blueprint/compress.rs:34-87 | with distinct names, the reachable definitions are closed under dependencies |
| Compress.SameReachableNames | src/core/blueprint/compress.rs:45-108 | compressing does not change what the roots reach |
| Compress.CompressIdempotent | src/core/blueprint/compress.rs:7-43 | compressing twice is compressing once, also with repeated names |
| StreamProtocol.PositionSplits | src/cli/redis/listener.rs:440-449 | in an increasing log the entries before a position are exactly those that are not after the id |
| StreamProtocol.AppendKeepsPlace | src/cli/redis/listener.rs:434-449 | an append while the reader waits, reads or sleeps leaves everything delivered and promised as it was |
| StreamProtocol.YieldKeepsPlace | src/cli/redis/listener.rs:453-461 | moving the last id with each item keeps the delivered items a contiguous run |
| StreamProtocol.NextKeepsValid | src/cli/redis/listener.rs:428-505 | every event keeps position, delivered items and back-off consistent |
| StreamProtocol.EmitsContiguousRun | src/cli/redis/listener.rs:414-506 | in every run the subscriber gets one item for each of the first n entries after the start id, in log order, then at most one failure, and wanted entries are exactly those after the start id |
| StreamProtocol.ReconnectsArePaced | src/cli/redis/listener.rs:501-504 | the delay doubles per failure up to the ceiling, starts over on a connection, and stays within a quarter of the doubled value it is drawn from |
| StreamProtocol.EndsExactly | src/cli/redis/listener.rs:55-60 | over any run the stream has ended exactly when some request failed on neither I/O, nor a timeout, nor a dropped connection, nor a refusal |
| StreamProtocol.FailuresAreCounted | src/cli/redis/listener.rs:428-504 | the failures that set the delay are the attempts that failed since the last connection, counted from the events alone |
| StreamProtocol.BackoffValues | src/cli/redis/listener.rs:501-504 | the back-off is 1000 ms times two to the number of failures, and 30000 ms from the fifth on |
| StreamProtocol.ProgressDrops | src/cli/redis/listener.rs:428-505 | each step forward, that is waking up, connecting, getting entries, handing one out, leaves fewer of them to take |
| StreamProtocol.Advance | src/cli/redis/listener.rs:428-505 | a reader that has not ended and misses something can take a step forward |
| StreamProtocol.CatchesUp | src/cli/redis/listener.rs:428-505 | after any past that has not ended the stream, every run of steps forward is bounded, and when none is left the subscriber has an item for every entry after the start id |
| StreamReader.Reader.Deliver | src/cli/redis/listener.rs:453-461 | hands out a reply entry by entry, and the last id is that of the last entry |
| StreamReader.Reader.Sleep | src/cli/redis/listener.rs:501-504 | the delay is the jittered back-off, which then doubles up to the ceiling |
| StreamReader.Reader.ReadOnce | src/cli/redis/listener.rs:439-493 | one request delivers its reply; on an I/O error, a timeout, a drop or a refusal it breaks the connection and hands out nothing; on any other error it ends with exactly one failure item |
| StreamReader.Reader.ReadAll | src/cli/redis/listener.rs:434-494 | the inner loop is a run of the protocol and leaves at the first error |
| StreamReader.Reader.ReadStream | src/cli/redis/listener.rs:428-505 | the two nested loops are a run of the protocol with the state their specification computes from what the environment does |
| StreamReader.AcceptingInTurn | src/cli/redis/listener.rs:434-449 | what others append while the reader waits: one entry after the other, each if its id is greater than the last |
| StreamReader.ReadsInTurn | src/cli/redis/listener.rs:434-494 | the inner loop request by request: each on an open connection, none on a closed one |
| StreamReader.AttemptMeaning | src/cli/redis/listener.rs:428-505 | an attempt that fails delivers nothing; one that connects resets the back-off and delivers what is behind the last id |
| StreamReader.AttemptsInTurn | src/cli/redis/listener.rs:428-505 | the outer loop attempt by attempt, with a wait in between |
| StreamReader.ReceivedItems | src/cli/redis/listener.rs:400-509 | whatever the environment does, the received items are a contiguous run after the start id with at most one failure behind it |
| ChannelProtocol.NextKeepsValid | src/cli/redis/listener.rs:239-397 | registering, listening, dropping receivers and guards, and messages all keep counts exact and every channel guarded |
| ChannelProtocol.DropGuardKeepsGuarded | src/cli/redis/listener.rs:311-321 | a channel that survives the drop of a guard still has a guard for the very sender in the map |
| ChannelProtocol.NoLeak | src/cli/redis/listener.rs:305-348 | in every reachable state each channel in the map has a live guard, and without guards the map is empty |
| ChannelProtocol.ListenerStaysAttached | src/cli/redis/listener.rs:297-304 | no step of others takes the channel away from a listening subscriber whose sender is in the map |
| ChannelProtocol.DetachedForever | src/cli/redis/listener.rs:239-247 | a subscriber whose sender left the map never gets back in |
| ChannelProtocol.ListenStartsEmpty | src/cli/redis/listener.rs:374 | a new receiver starts with no message, and listening changes nothing about the map |
| ChannelProtocol.NotifyMeaning | src/cli/redis/listener.rs:205-228 | a message is sent once, by the sender in the map and no other; without one it reaches nobody |
| ChannelProtocol.HearsAllOrNothing | src/cli/redis/listener.rs:205-228 | over any run an attached listener is sent every message of its channel, once and in order, and a detached one none |
| ChannelProtocol.MessagesOfBoth | src/cli/redis/listener.rs:205-228 | the messages of a channel in a run are those of its parts, in order |
| ChannelProtocol.ReadAccounts | src/cli/redis/listener.rs:380-392 | each item of a stream is the next message or the exact number of messages that were missed |
| ChannelProtocol.LosesExactlyWhenBehind | src/cli/redis/listener.rs:380-392 | a stream yields a lag error exactly when some read comes while more than 256 messages wait; without one its items are all messages sent to it so far as it has read |
| ChannelProtocol.OverForever | src/cli/redis/listener.rs:385 | the stream of an attached listener is never over, and one that is over yields nothing ever after |
| ChannelProtocol.RegisteredLosesPlace | src/cli/redis/listener.rs:361-374 | a registered subscriber loses its channel in a step exactly when the step drops a guard of the channel while nobody listens |
| ChannelProtocol.RegisteredLosesPlaceInRun | src/cli/redis/listener.rs:361-374 | over any run in which it stays registered, it has lost its channel at the end exactly when some step of the run dropped a guard of the channel while nobody listened |
| ChannelProtocol.HandoverStrandsListener | src/cli/redis/listener.rs:302-304 | a run that ends with a live receiver whose channel is not in the map |
| ChannelRegistry.Registry.RegisterSubscriber | src/cli/redis/listener.rs:239-256 | finds the channel or enters it with a new sender, and adds one guarded subscriber to that sender; everything else stays |
| ChannelRegistry.Registry.Receiver | src/cli/redis/listener.rs:374 | the receiver starts behind the last message and is counted |
| ChannelRegistry.Registry.NextItem | src/cli/redis/listener.rs:380-392 | the next message, or the number of missed messages after which reading goes on with the oldest one kept |
| ChannelRegistry.Registry.ReleaseReceiver | src/cli/redis/listener.rs:290-295 | the receiver stops being counted while its guard lives on |
| ChannelRegistry.Registry.ReleaseGuard | src/cli/redis/listener.rs:311-321 | removes the channel exactly when the sender in the map has no receivers |
| ChannelRegistry.Registry.CloseStream | src/cli/redis/listener.rs:290-295 | receiver first, guard second: the channel goes exactly when nobody else listens |
| ChannelRegistry.Registry.FinishSubscribe | src/cli/redis/listener.rs:363-397 | behind its awaits, whatever others did meanwhile, a subscription listens, and to the sender in the map exactly if it still holds that one; or it fails and leaves the channel in the map only if somebody else listens |
| ChannelRegistry.Registry.SendNotification | src/cli/redis/listener.rs:205-228 | the message goes to the channel's sender alone, and an untracked channel changes nothing |
| LineBreaking.LineIsUnique | src/core/document.rs:40-58 | the rule for the end of a line leaves exactly one possibility |
| LineBreaking.LineShape | src/core/document.rs:40-63 | lines are not empty, as grapheme ranges and as strings, and a line before the end exceeds the limit and ends in white space |
| LineBreaking.MeasureLine | src/core/document.rs:35-58 | the longest prefix of the graphemes that fits, extended through the next white space or to the end |
| LineBreaking.LineBreaker.Next | src/core/document.rs:30-64 | cutting the rest of the string anew, a line is a non-empty line of the graphemes of the whole string; there is none exactly at the end |
| LineBreaking.LinesRestoreText | src/core/document.rs:60-63 | the lines concatenate to the text |
| LineBreaking.NoWordIsSplit | src/core/document.rs:52-58 | every line but the last is longer than the limit and is cut right behind white space |
| LineBreaking.BreakingIsUnique | src/core/document.rs:30-64 | there is only one way to break a text |
| LineBreaking.ReadBackPrinted | src/core/document.rs:76-80 | splitting printed lines at newlines and taking the indentation off gives the lines |
| LineBreaking.OnlyNewlinesGo | src/core/document.rs:74 | taking newlines out goes part by part and takes out nothing else |
| LineBreaking.OtherCharactersStay | src/core/document.rs:74 | every other character stays as often as before, and a text without newlines stays as it is |
| LineBreaking.PrintedInTurn | src/core/document.rs:76-80 | lines are printed one below the other, each behind the indentation and in front of a newline |
| LineBreaking.PrintLines | src/core/document.rs:75-79 | prints the opening quotes and then exactly the lines of the only way to break the text |
| LineBreaking.GetFormattedDocs | src/core/document.rs:67-84 | no description prints nothing; otherwise reading the output back gives quotes around lines that join to the description without newlines |

## Left out

- Chunk.Chunks.TransformFlatten: closures are pure functions that capture no shared vectors, and carry a rank
  that bounds how deeply closures nest in their results; a closure of unbounded nesting is not covered.
- StreamProtocol.EmitsContiguousRun: the special start id `$` is not a concrete id and is not covered.
- StreamReader.ReceivedItems: whether the item made from an entry is a value or a conversion error is a
  function of the entry and is not computed.
- LineBreaking.LineBreaker.Next: how graphemes are found is not part of this model; that cutting may start again
  between any two graphemes is assumed of the segmentation. Positions are counted in characters, not bytes.
- Compress.CompressBlueprint: says nothing in favour of a subscription root with a custom name, because the
  code does not treat it as a root.
- ChannelRegistry.Registry.FinishSubscribe: the wait for a connection before anything is registered
  (listener.rs, lines 357-359) is not modelled; when it times out, nothing happens to the registry.
- `load_one`, `feed_one` and `get_cached_values`: one-line views of what is modelled.
- Descriptions of causes in validation errors, and the printing of error paths.
- Sockets, TLS, the executor, HTTP, Redis itself and the asynchronous `UNSUBSCRIBE`.
- A loader that panics; a caller of the data loader that goes away (its answer is sent into the void).
- Concrete caches: LRU and TTL eviction is the removal of arbitrary entries.
- The PostgreSQL listener, which rests on when its driver polls the connection.
- `merge_right` on JSON and YAML values, which is not associative in general.
- SDL printing beyond descriptions, configuration readers, macros, telemetry, CORS, authentication and scalars.
