# z3rno-core: a verified model

A Dafny model of the algorithms of z3rno-core, a memory store for agents, and
proofs of what they promise.  SQL tables are sequences, sets and maps; a
transaction is one step that commits or leaves the tables alone; ids are values of
a total order; digests and hashes are kept abstract.  What the source changes in
place is a class whose methods change its fields, and each such method is proved
against a function of the old state; runs with several processes are state
machines over the steps between two awaits or statements.

| file | what it models |
|---|---|
| `Basics.dfy`, `Graph.dfy`, `RecursiveCte.dfy`, `OrderLimit.dfy` | the relationship graph, walks and distances; recursive queries; `ORDER BY ... LIMIT` with ties left open |
| `Cascade.dfy`, `HopWalk.dfy`, `Components.dfy` | cascade forget, the CODE strategy's hop walk, connected-component clustering |
| `Merkle.dfy` | the root of a forget certificate |
| `Json.dfy`, `AuditChain.dfy`, `AuditEncoding.dfy`, `AuditLog.dfy`, `AuditFlush.dfy`, `AuditBatching.dfy`, `AuditProtocol.dfy`, `AuditRuns.dfy`, `AuditLine.dfy`, `AuditRefinement.dfy`, `AuditFork.dfy` | canonical JSON, the hash chain, the drainer, batch sizes, producers and drainers at the same time, and a run that forks the chain |
| `CodeTree.dfy`, `Extractor.dfy`, `Declarations.dfy`, `CallAttribution.dfy`, `RustNesting.dfy` | syntax trees, the extractor's two traversals, what it records of a tree, which function gets a call, and where that goes wrong |
| `Chunks.dfy`, `Packing.dfy`, `ParagraphChunker.dfy`, `TokenChunker.dfy` | the two chunkers |
| `Scheduler.dfy`, `SchedulerProtocol.dfy` | fair rotation of tenants, and dispatchers that overlap |
| `RealMath.dfy`, `Weights.dfy`, `Reweight.dfy` | feedback, decay and pruning, in one cycle and over many |
| `Batcher.dfy`, `BatcherProtocol.dfy` | the coalescing recall counter |
| `MemoVersions.dfy` | the version timeline of memos |
| `FactIndex.dfy`, `FactMerge.dfy`, `FactPairs.dfy`, `DistillMerge.dfy` | merging what the chunks of a document gave |
| `Forge.dfy`, `ForgeRuns.dfy` | the Forge under crashes and re-runs |
| `Text.dfy` | strings with separators |

`dafny verify dfyconfig.toml` checks the whole project.

## Where the code and what is said about it differ

The model follows the code in each case.

- The certificate module says it follows Bitcoin and RFC 9162 for an odd trailing
  node.  It duplicates the node, which is not the split of section 2.1.1 of RFC
  9162; lists that repeat leaves can therefore share a root
  (`Merkle.RepeatedLeafCollides`, `Merkle.RootIffSamePadding`).
- The comment on hop scores gives 0.66 for one hop; that is the score for two hops
  allowed, with one allowed it is 0.5 (`HopWalk.OneHopScore`).
- The stack loop of the extractor is meant to leave nested functions to the outer
  walk.  Its list of kinds to skip lacks Rust's `function_item`
  (`RustNesting.NestedCallTwice`; `CallAttribution.AttributionExactIff` says exactly
  when the promise holds).
- The audit chain is drained by id but linked by created_at, so it can fork
  (`AuditFork.FallingTimesFork`; `AuditLine.VerifiesIffLookupsFit` says exactly
  when it does not), and the batch size can show in the chain
  (`AuditBatching.BatchSizeCanShow`; `AuditFlush.BatchSizeDoesNotShowIff` and
  `AuditBatching.BatchSizeDoesNotShowIffNewest` say exactly when it does not).
- The request context of an audit row is stored but not hashed
  (`AuditChain.ContextIsNotCovered`).
- The batcher promises to equal one update per recall; it counts a memory listed
  twice in one call twice (`BatcherProtocol.ListedTwiceIsAhead`,
  `BatcherProtocol.AgreesWithInlineIff`), and closing it during a flush can strand
  bumps (`BatcherProtocol.BumpDuringFlushIsStranded`, `BatcherProtocol.StrandedIff`).
- `merge` promises that the more confident copy wins; within its own facts the last
  copy wins (`FactMerge.LastCopyWins`, `FactMerge.MergeKeepsBestIff`, and for a
  given pair `FactPairs.PairKeepsBestIff`), and a single chunk is not merged at all
  (`DistillMerge.SingleKeepsBothCopies`, `DistillMerge.SingleKeepsBestIff`).
- A re-run of a job is promised to do nothing for a memory it has been over; a
  memory whose extraction came back empty leaves no provenance and is worked on
  again (`ForgeRuns.EmptyExtractionIsRepeated`; `ForgeRuns.SkippedIff` and
  `ForgeRuns.RepeatIsNoOpIff` say exactly when a re-run does nothing).

## Model

| member | source | states |
|---|---|---|
| `RecursiveCte.Union` | src/z3rno_core/refine/summarize.py:99-117 | A `WITH RECURSIVE ... UNION` over a step that stays in a finite universe ends, and its rows are exactly those derivable from the base |
| `Graph.BallIsWithin` | src/z3rno_core/engine/forget.py:372-396 | The level-by-level ball of radius n holds exactly the memories some walk of length at most n reaches from the seeds |
| `Graph.SphereIsDistance` | src/z3rno_core/engine/forget.py:390-393 | A memory enters at level n exactly when its shortest distance from the seeds is n |
| `Graph.ReachesIffWithin` | src/z3rno_core/engine/forget.py:372-396 | A walk in the tenant's graph is a walk along rows of the tenant, in either direction |
| `Graph.OrgAdjacentIffLinks` | src/z3rno_core/refine/summarize.py:99-117 | Two memories are adjacent in the tenant's graph exactly when a row of the tenant links them |
| `Graph.CodeAdjacentIffLinks` | src/z3rno_core/retrieval/strategies/code.py:111-123 | Two memories are adjacent in the code graph exactly when a row with codegraph metadata links them |
| `Cascade.FindRelated` | src/z3rno_core/engine/forget.py:355-396 | The cascade returns exactly the non-seed memories at undirected distance at most `depth` from the named ones (none for a depth of zero or less), however early the frontier runs dry |
| `Cascade.FrontierIsDistance` | src/z3rno_core/engine/forget.py:390-393 | Frontier i is the set of memories at distance exactly i |
| `Cascade.CaseLosesNothing` | src/z3rno_core/engine/forget.py:380-392 | An edge with both ends in the frontier yields only its target, yet the next frontier is the one the full neighbourhood gives |
| `Cascade.CollectTargets` | src/z3rno_core/engine/forget.py:102-119 | The targets are the named memories and, when cascading, exactly those within reach; the cascade counts the ones not named |
| `Cascade.Store.HardDelete` | src/z3rno_core/engine/forget.py:309-352 | Exactly the tenant's targets go and their number is returned; every other memory, another tenant's targets included, is there unchanged, and no relationship points at a removed memory |
| `Cascade.Store.SoftDelete` | src/z3rno_core/engine/forget.py:290-306 | Every target of the tenant is marked deleted, the ones that were not yet are counted, and every other row, of whatever tenant, stays as it was |
| `Cascade.MarkedTwice` | src/z3rno_core/engine/forget.py:290-306 | Soft-deleting the same targets again changes and counts nothing |
| `Cascade.Store.Forget` | src/z3rno_core/engine/forget.py:102-131 | Fails exactly when nothing is named; else a hard forget removes exactly the tenant's targets, and a soft one marks exactly them and leaves the relationships alone; no row of another tenant is touched |
| `HopWalk.Walk` | src/z3rno_core/retrieval/strategies/code.py:106-125 | The rows of the recursive query are exactly the (memory, h) pairs with a codegraph walk of length h, at most `hops`, from a seed |
| `HopWalk.MinHopIsDistance` | src/z3rno_core/retrieval/strategies/code.py:126-132 | `MIN(hop)` of a reached memory is its shortest distance from the seeds |
| `HopWalk.AgreesWithBreadthFirst` | src/z3rno_core/retrieval/strategies/code.py:106-132 | The hop walk reaches the memories a breadth-first search of the same depth reaches, each at the level where that search first meets it |
| `HopWalk.HopScore` | src/z3rno_core/retrieval/strategies/code.py:148-150 | For a hop within the bound the score lies in [1/(hops+1), 1] and is the unclamped 1 - hop/(hops+1) |
| `HopWalk.OneHopScore` | src/z3rno_core/retrieval/strategies/code.py:148-150 | One hop away scores hops/(hops+1): 1/2 with one hop allowed, 2/3 with two |
| `HopWalk.HopScoreStrictlyFalls` | src/z3rno_core/retrieval/strategies/code.py:148-150 | A memory that is farther away scores strictly less |
| `HopWalk.Join` | src/z3rno_core/retrieval/strategies/code.py:126-134 | The join yields exactly the undeleted memories within `hops` of a seed, each once and with its distance |
| `HopWalk.Retrieve` | src/z3rno_core/retrieval/strategies/code.py:62-173 | The hits are undeleted memories within reach, at their true distance, ordered by distance and importance, as many as asked for, none left out ranking strictly before one returned; each has the score 1 - hop/(hops+1) and the relevance 0.70 of that plus 0.30 of the importance; fewer than one hop counts as one |
| `Components.Walk` | src/z3rno_core/refine/summarize.py:99-117 | The min-label walk reaches a fixpoint and returns exactly its derivable (memo, root) pairs |
| `Components.MinRootIsComponentLeast` | src/z3rno_core/refine/summarize.py:118-121 | `MIN(root_id)` of a reached memo is the least id of its undirected connected component, whichever seeds reached it |
| `Components.ReachedIsConnected` | src/z3rno_core/refine/summarize.py:99-117 | The memos reached are exactly those connected to a seed |
| `Components.SameRootIffConnected` | src/z3rno_core/refine/summarize.py:118-129 | Two reached memos share a root exactly when they are connected |
| `Components.GroupByRoot` | src/z3rno_core/refine/summarize.py:127-129 | The groups partition the reached memos by their minimal root |
| `Components.GroupsAreComponents` | src/z3rno_core/refine/summarize.py:127-129 | Each group is the whole connected component of a seed, and each seed's component is a group |
| `Components.Cluster` | src/z3rno_core/refine/summarize.py:127-134 | The connected components of the seeds with at least two members, largest first, at most max_clusters, no larger one left out |
| `Components.ComponentsDisjoint` | src/z3rno_core/refine/summarize.py:127-129 | Two different components of seeds have no memo in common |
| `Merkle.LeafText` | src/z3rno_core/forget_proof/certificate.py:56-62 | The text that is digested for a leaf, with a hash given and with a dash for one that is missing |
| `Merkle.LeafBinding` | src/z3rno_core/forget_proof/certificate.py:56-62 | Two leaves have equal digests exactly when their ids agree and each hash that is given in one of them, that is neither empty nor a dash, is the same in both |
| `Merkle.BuildMerkleRoot` | src/z3rno_core/forget_proof/certificate.py:111-129 | The level-by-level loop returns the root of the sorted leaf digests, and refuses the empty list |
| `Merkle.RootHoldsLeavesInOrder` | src/z3rno_core/forget_proof/certificate.py:119-129 | Read from left to right the tree has the sorted leaves in their order, and what follows repeats them |
| `Merkle.SortSorts` | src/z3rno_core/forget_proof/certificate.py:121 | The sorted digests are a sorted permutation of the digests |
| `Merkle.RootBindsLevel` | src/z3rno_core/forget_proof/certificate.py:122-129 | Two levels of pairwise distinct digests, of any lengths, with the same root are the same level |
| `Merkle.RootIsPerfect` | src/z3rno_core/forget_proof/certificate.py:119-129 | The tree is full: all its leaves are at the same depth, the number of rounds |
| `Merkle.RootIffSameLeaves` | src/z3rno_core/forget_proof/certificate.py:111-129 | For pairwise distinct leaves the roots agree exactly when the two lists have the same digests |
| `Merkle.RootOrderIndependent` | src/z3rno_core/forget_proof/certificate.py:114-121 | The root does not depend on the order of the leaves |
| `Merkle.RootIffSamePadding` | src/z3rno_core/forget_proof/certificate.py:124-127 | With repetitions allowed, the roots of two levels agree exactly when the levels agree once padded by duplicating trailing subtrees |
| `Merkle.RepeatedLeafCollides` | src/z3rno_core/forget_proof/certificate.py:126 | [a, b, c] and [a, b, c, c] have the same root |
| `Merkle.ForgetRootBinds` | src/z3rno_core/engine/forget.py:118-127 | Two certificates, in whatever order their memories are listed, have the same root exactly when they are about the same memories and every hash one of them has for a memory, of its content or its audit entry, the other has too |
| `AuditChain.PreimageInjective` | src/z3rno_core/engine/audit.py:55-60 | The text hashed for a row determines whether it has a predecessor, which one, and the row data |
| `Json.EncodeInjective` | src/z3rno_core/engine/audit.py:58 | Compact JSON with ASCII escapes: two values with the same text are the same value, through strings with surrogate pairs, nested lists and objects |
| `AuditChain.RowHashIs` | src/z3rno_core/engine/audit.py:55-60 | A first row is hashed alone, any other after the hash of the row before it |
| `AuditEncoding.CanonicalIs` | src/z3rno_core/engine/audit.py:235-249 | What is hashed of a row is the compact JSON of the eight fields of row_data, under their names, with sorted keys and null for a missing id or type |
| `Json.EncodeIs` | src/z3rno_core/engine/audit.py:58 | Compact JSON: members and items joined by commas, keys and values by colons, no spaces |
| `Json.ShortEscapes` | src/z3rno_core/engine/audit.py:58 | Printable ASCII is written as it is, and the seven characters that have one by a backslash and a letter |
| `Json.UnitEscapes` | src/z3rno_core/engine/audit.py:58 | Any other character is written as the four hexadecimal digits of its UTF-16 unit, or of both units of its surrogate pair |
| `AuditChain.RowHashBinds` | src/z3rno_core/engine/audit.py:45-60 | Two row hashes agree exactly when the links and the row data do, or else the very texts hashed for the two rows collide |
| `AuditChain.ChainBinds` | src/z3rno_core/engine/audit.py:235-249 | Two verifying chains, of any lengths, with the same final hash have the same length and the same hashed data at every position, or else some row of one and the row as far from the end of the other were hashed from colliding texts |
| `AuditChain.ContextIsNotCovered` | src/z3rno_core/engine/audit.py:235-248 | Changing the request context of a row (api key, address, agent, request id) leaves a chain verifying, since it is not hashed |
| `AuditEncoding.CanonicalInjective` | src/z3rno_core/engine/audit.py:235-248 | The canonical JSON text determines all eight fields of the row data, arbitrary nested details included |
| `AuditEncoding.JsonSchemeIsValid` | src/z3rno_core/engine/audit.py:55-60 | With a hash of fixed width and instants rendered apart, hashed texts of rows are kept apart by the format itself: no row text is a digest followed by another row text |
| `AuditLog.LatestIsMaximal` | src/z3rno_core/engine/audit.py:63-81 | The row found is in the log and no row is newer by (created_at, id) |
| `AuditLog.LatestWhenLast` | src/z3rno_core/engine/audit.py:72-74 | The lookup finds the last row appended exactly when no row has a later created_at |
| `AuditLog.ChainRowsAt` | src/z3rno_core/engine/audit.py:217-297 | Every drained row carries its entry's data, the next id, and the hash of the row before it |
| `AuditLog.AuditStore.Chain` | src/z3rno_core/engine/audit.py:214-297 | The chaining loop appends the chained batch and returns the ids it drained |
| `AuditLog.AuditStore.Drain` | src/z3rno_core/engine/audit.py:170-303 | With the lock free a drain moves the oldest `batch_size` entries from the queue to the log; otherwise nothing changes and it returns 0 |
| `AuditLog.WithoutBatch` | src/z3rno_core/engine/audit.py:299-302 | Deleting the drained ids leaves exactly the rest of the queue |
| `AuditLog.AuditStore.Flush` | src/z3rno_core/engine/audit.py:306-325 | The flush is `max_iterations` drains and returns how many rows they moved |
| `AuditBatching.LookupFindsOwnRow` | src/z3rno_core/engine/audit.py:214 | When created_at never falls, the lookup of the next drain finds the last row of this one |
| `AuditFlush.FlushCounts` | src/z3rno_core/engine/audit.py:306-325 | Whatever the created_at are, a flush moves min(pending, batch_size * max_iterations) entries to the log and leaves the rows already there alone |
| `AuditFlush.PassAfterBatch` | src/z3rno_core/engine/audit.py:214-303 | The log after a batch is the start of one pass over more entries, and when the next lookup finds the row that pass links to, one pass over the rest completes it |
| `AuditFlush.BatchSizeDoesNotShowIff` | src/z3rno_core/engine/audit.py:306-325 | For every queue, batch size and limit: a flush appends what one pass over the same entries appends exactly when the lookup after each batch but the last finds a row with the hash that one pass links to there |
| `AuditBatching.BatchSizeDoesNotShowIffNewest` | src/z3rno_core/engine/audit.py:72-74 | In terms of created_at: over a well-kept log the batch size does not show exactly when each batch but the last ends with the newest entry so far, or the newer row found instead collides with it |
| `AuditBatching.BatchSizeDoesNotShow` | src/z3rno_core/engine/audit.py:306-325 | With created_at in step with the ids, any batch size appends the rows of one fold over the queue, min(pending, batch_size * max_iterations) of them |
| `AuditBatching.BatchSizeCanShow` | src/z3rno_core/engine/audit.py:72-74 | When created_at falls between the first two of three entries, draining two at a time and draining three at a time give the same log exactly when the texts hashed for the first two rows collide |
| `AuditRuns.RunKeeps` | src/z3rno_core/engine/audit.py:84-303 | Every interleaving of enqueues and lock-guarded drains, committed or rolled back, keeps the invariant |
| `AuditRuns.RollbackUndoes` | src/z3rno_core/engine/audit.py:170-303 | A transaction that is rolled back, whatever the drainer did in it, leaves both tables as they were |
| `AuditRuns.EveryEntryOnce` | src/z3rno_core/engine/audit.py:299-302 | Each committed entry is in exactly one of the queue and the log, and at most once in the log |
| `AuditRuns.LinksPointBack` | src/z3rno_core/engine/audit.py:63-81 | Only the tenant's first row has no predecessor; every other row links to the hash of an earlier row |
| `AuditLine.InStepVerifies` | src/z3rno_core/engine/audit.py:214-249 | When every lookup happened in step the links form one line |
| `AuditLine.OutOfStepForks` | src/z3rno_core/engine/audit.py:72-74 | In a log that verifies, a lookup made while some row had a later created_at than the last found a row whose text collides with the last row's |
| `AuditLine.VerifiesIffLookupsFit` | src/z3rno_core/engine/audit.py:63-81 | Over every run, the log verifies as one line exactly when each lookup found the last row, or a row whose hashed text collides with that of the last row |
| `AuditLine.VerifiesIffInStep` | src/z3rno_core/engine/audit.py:63-81 | A log none of whose own rows collide verifies exactly when every lookup was in step |
| `AuditFork.FallingTimesFork` | src/z3rno_core/engine/audit.py:170-303 | A run that forks: two entries whose created_at falls are drained, then a third one; rows two and three both link to the first, and the log verifies exactly when the texts of the first two rows collide |
| `AuditLine.OrderedAppendsVerify` | src/z3rno_core/engine/audit.py:63-81 | Rows appended in non-decreasing created_at form one line |
| `AuditRefinement.RunsAreWellKept` | src/z3rno_core/engine/audit.py:84-303 | The tables of every reachable state meet what the theorem on batch sizes asks of a log |
| `AuditRefinement.DrainedIsARun` | src/z3rno_core/engine/audit.py:170-303 | The undisturbed drain is one run of the protocol's steps |
| `CodeTree.PlainCallee` | src/z3rno_core/codegraph/extractor.py:422-437 | A call whose callee, the child in the field "function" or else the first one, is a plain name is a call of that name |
| `CodeTree.DottedCallee` | src/z3rno_core/codegraph/extractor.py:438-442 | A call of x.y.z is a call of the last identifier among the parts |
| `CodeTree.NamelessCallee` | src/z3rno_core/codegraph/extractor.py:433-442 | A call without children, with another kind of callee, or with a dotted one that has no identifier has no callee name |
| `Extractor.CallTypes` | src/z3rno_core/codegraph/extractor.py:95-146 | The call node types of each language; such a node gives one edge to its callee, if that has a name, and no other node gives one |
| `Extractor.Walker.CollectCalls` | src/z3rno_core/codegraph/extractor.py:385-417 | The explicit-stack loop terminates and emits, in its order, one edge for each recognised call it pops |
| `Extractor.Walker.EmitMemo` | src/z3rno_core/codegraph/extractor.py:217-221 | A key is emitted once, the first memo with it stays |
| `Extractor.Walker.Walk` | src/z3rno_core/codegraph/extractor.py:241-319 | The recursive walk adds the edges and the memos of the children in order |
| `Extractor.Extract` | src/z3rno_core/codegraph/extractor.py:206-322 | The extraction of a module from its root |
| `Extractor.EmittedKeys` | src/z3rno_core/codegraph/extractor.py:213-221 | Memo keys are pairwise distinct, every key offered is there, and earlier memos keep their place |
| `Extractor.ExtractionIsClosed` | src/z3rno_core/codegraph/extractor.py:206-322 | Every edge starts at an emitted memo, and every edge with a target key ends at one |
| `Declarations.NodeTypes` | src/z3rno_core/codegraph/extractor.py:95-146 | The class, function and import node types of each language, the keys and edges they start, and their dotted names, with <anonymous> for a missing one |
| `Declarations.OtherTypes` | src/z3rno_core/codegraph/extractor.py:95-146 | Every other node type is looked through |
| `Declarations.WalkRecordsTheTree` | src/z3rno_core/codegraph/extractor.py:241-319 | The walk records an edge other than a call exactly when some path that enters no import leads to a declaration, base or import that says so: names are dotted along the path, and the owner is the innermost declaration on it |
| `Declarations.ExtractionIsTheTree` | src/z3rno_core/codegraph/extractor.py:206-322 | So for the whole extraction; and every memo is the module or stands for a definition or import among the edges, named like it |
| `CallAttribution.CollectIsShallow` | src/z3rno_core/codegraph/extractor.py:394-417 | Whatever its order, the stack loop attributes to its function each call site of its region exactly once |
| `CallAttribution.WalkEmits` | src/z3rno_core/codegraph/extractor.py:241-319 | The CALLS edges of the walk are the per-function regions of all functions not under an import |
| `CallAttribution.AttributionExactIff` | src/z3rno_core/codegraph/extractor.py:241-417 | The multiset of CALLS edges equals the one-pass rule "one edge per recognised call site from its innermost function, none under an import" exactly when every nested function whose kind the stack loop does not skip contains no reachable call |
| `CallAttribution.PythonAndTypeScriptExact` | src/z3rno_core/codegraph/extractor.py:95-120 | For the Python and TypeScript tables the rule holds on every tree |
| `RustNesting.NestedCallTwice` | src/z3rno_core/codegraph/extractor.py:410-416 | For a Rust function nested in another one, a call in the inner one gives one edge by the rule and two edges, one from each function, from the extractor |
| `ParagraphChunker.SplitParagraphs` | src/z3rno_core/chunking/semantic_chunker.py:100-110 | The spans are ordered, non-blank, and cover every non-blank character; what lies between them is blank |
| `Packing.FullSplitIsOptimal` | src/z3rno_core/chunking/semantic_chunker.py:61-96 | A split each of whose runs could not take the next span has no more runs than any admissible split |
| `Packing.RunsWithinBudget` | src/z3rno_core/chunking/semantic_chunker.py:63-94 | Every run is a single paragraph or has extent at most the budget |
| `ParagraphChunker.Packer.Add` | src/z3rno_core/chunking/semantic_chunker.py:61-94 | One paragraph advances the packing by one greedy step, and the buffered text stays the slice of the text it stands for |
| `ParagraphChunker.ChunkByParagraphs` | src/z3rno_core/chunking/semantic_chunker.py:19-97 | Chunk j has index j, the offsets of run j, the text between them and max(1, length // 4) tokens; the runs are ordered and disjoint, every non-blank character is in exactly one, no run is blank, none of several paragraphs exceeds the budget, and no admissible split has fewer; a non-positive budget is refused |
| `TokenChunker.ChunkByTokens` | src/z3rno_core/chunking/token_chunker.py:45-82 | Chunk j decodes tokens[j*step .. min(j*step+size, n)] and has that many tokens, is placed after the decoded prefix, there are 1 of them if n <= size and 1 + ceil((n-size)/step) otherwise, and the argument errors and empty inputs are the source's |
| `TokenChunker.LaterWindowsAreLonger` | src/z3rno_core/chunking/token_chunker.py:60-80 | Every chunk after the first is longer than the overlap |
| `TokenChunker.WindowsRebuildTokens` | src/z3rno_core/chunking/token_chunker.py:60-80 | The first window and every later one without its overlap rebuild the token list |
| `TokenChunker.OffsetsExact` | src/z3rno_core/chunking/token_chunker.py:65-68 | When decoding distributes over concatenation the offsets are exact: the decoded text between them is the chunk's text |
| `Scheduler.TenantTable.Pick` | src/z3rno_core/refine/scheduler.py:32-61 | At most `limit` opted-in tenants not locked by another dispatcher, in the order of their last run, never-run ones first; one is left out only if there are `limit` of them and none ran later; none for a limit of zero or less |
| `Scheduler.TenantTable.Mark` | src/z3rno_core/refine/scheduler.py:64-77 | Stamps that tenant only, and changes nothing else of it |
| `Scheduler.ConcurrentPicksAreOne` | src/z3rno_core/refine/scheduler.py:50-60 | Two dispatchers at once, the second skipping the rows of the first, together pick what one dispatcher with both limits could pick |
| `SchedulerProtocol.NeverPickedTwice` | src/z3rno_core/refine/scheduler.py:11-14 | However dispatchers overlap, a tenant is picked again only once the transaction that picked it has ended |
| `SchedulerProtocol.WaitingIsBounded` | src/z3rno_core/refine/scheduler.py:32-77 | With any number of dispatchers overlapping, rolling back, and tenants joining and opting in and out: a tenant that waits sees fewer than N/k picks more than are rolled back, N being the tenants opted in at some time meanwhile |
| `SchedulerProtocol.TurnsAlternate` | src/z3rno_core/refine/scheduler.py:32-77 | In such a run no tenant whose turn was not rolled back gets a second one before every other tenant, opted in and free by then, has been picked |
| `SchedulerProtocol.RollbackUndoes` | src/z3rno_core/refine/scheduler.py:42-60 | A pick that is rolled back leaves no trace |
| `SchedulerProtocol.CommitStamps` | src/z3rno_core/refine/scheduler.py:64-77 | A commit stamps what the dispatcher holds, frees it, and changes nothing else |
| `SchedulerProtocol.SetEnabledSets` | src/z3rno_core/refine/scheduler.py:54 | Opting in or out, or joining, changes who can be picked and no stamp |
| `SchedulerProtocol.TickIsATrace` | src/z3rno_core/refine/scheduler.py:42-77 | The tick of a dispatcher alone is a run of two of these steps |
| `Scheduler.TenantTable.Tick` | src/z3rno_core/refine/scheduler.py:42-77 | A pick followed by the stamps of everything picked |
| `Scheduler.PassedOverMovesUp` | src/z3rno_core/refine/scheduler.py:52-77 | A tenant passed over has `limit` of those ahead of it move behind it |
| `Scheduler.BoundedWaiting` | src/z3rno_core/refine/scheduler.py:32-77 | With N tenants opted in and k picked a tick, each is picked in any n consecutive ticks with n k >= N, however ties are broken |
| `Scheduler.NobodyTwiceBeforeAll` | src/z3rno_core/refine/scheduler.py:32-77 | No tenant gets a second turn before every other opted-in tenant has had one |
| `Weights.ClampNeverActs` | src/z3rno_core/refine/reweight.py:46-56 | For weights, means and decays in range the new weight is in range and its distance to (mean + 1) / 2 is the decay's share of the old one |
| `Weights.ClampsAtTheEnds` | src/z3rno_core/refine/reweight.py:46-56 | In and out of range the new weight is decay * old + (1 - decay) * (mean + 1) / 2, cut off at 0 and 1 |
| `Weights.MeanInRange` | src/z3rno_core/refine/reweight.py:67-77 | The average of signals in {-1, 0, 1} lies in [-1, 1] |
| `Weights.MeanCounts` | src/z3rno_core/refine/reweight.py:67-77 | The average of signals is the number of positive ones less that of negative ones, out of all |
| `Weights.SignalsCount` | src/z3rno_core/refine/reweight.py:67-77 | An edge has each signal as often as rows of the tenant give it |
| `Weights.RefHasSignals` | src/z3rno_core/refine/reweight.py:67-77 | The grouped query returns exactly the edges that have feedback |
| `Reweight.EdgeTable.RunReweight` | src/z3rno_core/refine/reweight.py:59-113 | The groups, one for each text, are applied in the order they come; when each edge has one spelling the result is that of all edges at once; the counts are the groups that hit a row and the feedback rows read |
| `Reweight.EdgeAfterGroup` | src/z3rno_core/refine/reweight.py:81-108 | One group moves the edge of the tenant that its text names towards ((up - down) / n + 1) / 2, with n, up and down counted in its own feedback rows, and no other row |
| `Reweight.EdgeAfterReweight` | src/z3rno_core/refine/reweight.py:59-113 | All groups together do so for every edge of the tenant that feedback names, and leave every other row |
| `Reweight.OrderDoesNotShow` | src/z3rno_core/refine/reweight.py:67-108 | When each edge is named in one way, any order of the groups gives every edge of the tenant with feedback its new weight and leaves every other row |
| `Reweight.SpellingsCommuteIff` | src/z3rno_core/refine/reweight.py:81-106 | Two texts of one UUID are two groups: their order does not show exactly when their means agree or the decay is 1 |
| `Reweight.EdgeTable.RunPrune` | src/z3rno_core/refine/prune.py:33-48 | Exactly the tenant's edges below the threshold go, and their number is returned |
| `Reweight.EdgeTable.RunCycle` | src/z3rno_core/refine/prune.py:33-48 | Reweight, then prune |
| `Weights.NeverClamped` | src/z3rno_core/refine/reweight.py:46-56 | Over any number of updates no weight is ever clamped |
| `Weights.ClosedForm` | src/z3rno_core/refine/reweight.py:46-56 | After n updates w_n - t = decay^n (w_0 - t), where t is (mean + 1) / 2 |
| `Weights.EdgeAfterCycles` | src/z3rno_core/refine/prune.py:33-48 | After n cycles an edge is there exactly when no cycle took it below the threshold, with the weight of n updates |
| `Weights.NeverPruned` | src/z3rno_core/refine/prune.py:33-48 | An edge whose weight and (mean + 1) / 2 are at or above the threshold survives every cycle |
| `Weights.PrunedInTime` | src/z3rno_core/refine/prune.py:33-48 | With decay below one, an edge whose target t = (mean + 1) / 2 is below the threshold is gone after any n cycles with n (1 - decay) (threshold - t) >= 1 |
| `Weights.SurvivesIff` | src/z3rno_core/refine/prune.py:33-48 | An edge survives every cycle exactly when its first new weight is at or above the threshold and, unless the decay is one, so is (mean + 1) / 2 |
| `Weights.OtherTenants` | src/z3rno_core/refine/prune.py:33-48 | Edges of other tenants are never touched |
| `RealMath.PowBound` | src/z3rno_core/refine/reweight.py:46-56 | decay^n (1 + n (1 - decay)) <= 1, the bound behind the number of cycles |
| `Batcher.BumpedCounts` | src/z3rno_core/engine/recall_batch.py:96-97 | A key gains as many as the call lists it |
| `Batcher.RecallCountBatcher.Bump` | src/z3rno_core/engine/recall_batch.py:86-106 | Ignored once closed, otherwise adds to each entry of the tenant as many as the list has of it |
| `Batcher.RecallCountBatcher.GroupByOrg` | src/z3rno_core/engine/recall_batch.py:153-155 | The grouping holds every entry of the snapshot under its tenant and nothing else |
| `Batcher.RecallCountBatcher.FlushOnce` | src/z3rno_core/engine/recall_batch.py:141-189 | In whatever order the tenants come, every existing memory gains its delta unless its tenant's update raised; the buffer is empty afterwards either way |
| `BatcherProtocol.RunConserves` | src/z3rno_core/engine/recall_batch.py:86-189 | Over every interleaving of bumps, swaps, per-tenant commits and failures, overlapping flushes, closing and cancelling, stored + pending + in flight + lost equals the initial count plus the accepted bumps |
| `BatcherProtocol.NothingDropped` | src/z3rno_core/engine/recall_batch.py:182-189 | Nothing is lost in a run without a failure or a cancellation |
| `BatcherProtocol.DrainedStoresAll` | src/z3rno_core/engine/recall_batch.py:141-189 | Drained without failures, the table has every accepted bump |
| `BatcherProtocol.InlineCounts` | src/z3rno_core/engine/recall.py:337-351 | The inline updates count calls; they agree with the list entries exactly when no call lists the memory twice |
| `BatcherProtocol.AgreesWithInlineIff` | src/z3rno_core/engine/recall_batch.py:86-97 | A drained batcher without failures agrees with the inline updates on a memory exactly when no accepted call lists it twice, and is never behind |
| `BatcherProtocol.ListedTwiceIsAhead` | src/z3rno_core/engine/recall_batch.py:96-97 | A run from a fresh batcher: one call lists a memory twice, the drained batcher has added two and the inline update one |
| `BatcherProtocol.RunServes` | src/z3rno_core/engine/recall_batch.py:100-103 | In every run, while the batcher is open the drain loop has not ended, and has not been started only if the buffer is empty |
| `BatcherProtocol.LoopDelivers` | src/z3rno_core/engine/recall_batch.py:127-139 | From every such open state the drain loop has steps of its own, none failing, that empty the buffer and store all that was buffered or on board |
| `BatcherProtocol.StrandedIff` | src/z3rno_core/engine/recall_batch.py:113-139 | Once the loop has ended, bumps accepted before closing are left behind exactly when there are some, no flush_pending follows, and the loop was not waiting when the batcher closed or was cancelled before it woke |
| `BatcherProtocol.CancelLosesTheFlight` | src/z3rno_core/engine/recall_batch.py:118-124 | Cancelling the loop in the middle of a flush loses what is left of its snapshot and nothing else |
| `BatcherProtocol.BumpDuringFlushIsStranded` | src/z3rno_core/engine/recall_batch.py:113-121 | From a fresh batcher: a bump that lands during a flush stays behind when the batcher is closed before the flush ends, without any failure |
| `BatcherProtocol.FlushOnceIsARun` | src/z3rno_core/engine/recall_batch.py:141-189 | The uninterrupted flush is one run of the protocol's steps |
| `MemoVersions.VersionTable.Record` | src/z3rno_core/temporal/memo_versioning.py:49-112 | The new row gets the memo's next number, its key is free, the open row of that memo and no other is closed, and the table again holds the timelines of the log |
| `MemoVersions.RecordedHolds` | src/z3rno_core/temporal/memo_versioning.py:79-109 | One write leaves every memo with versions 1..n, exactly the last open, each valid_to the next valid_from |
| `MemoVersions.VersionTable.GetMemoAt` | src/z3rno_core/temporal/memo_versioning.py:115-163 | Returns the row of the memo's last write not after the given time, or the last write for no time, whatever the clock did |
| `MemoVersions.AnswerIsReplay` | src/z3rno_core/temporal/memo_versioning.py:115-163 | That answer is the state an append-only log replayed up to the time gives, for every memo |
| `MemoVersions.OnlyTheAnswerMatches` | src/z3rno_core/temporal/memo_versioning.py:143-146 | With a clock that never goes back it is the only row whose window contains the time |
| `MemoVersions.ClockGoingBackOverlaps` | src/z3rno_core/temporal/memo_versioning.py:143-148 | A clock that goes back can leave two matching rows, which is what the ordering by version decides |
| `MemoVersions.NeverTwoIff` | src/z3rno_core/temporal/memo_versioning.py:143-146 | No two versions ever match the same time exactly when no write, after the one that closes a version, is made before that version ends |
| `MemoVersions.ReturnedIff` | src/z3rno_core/temporal/memo_versioning.py:143-148 | Some time returns a version exactly when every later write is at a later time; zero-width versions are never returned |
| `MemoVersions.VersionTable.ListVersions` | src/z3rno_core/temporal/memo_versioning.py:166-193 | The newest min(limit, n) versions, newest first |
| `FactIndex.SameKeyIff` | src/z3rno_core/distill/schemas.py:117-141 | Two facts are copies exactly when they are of one kind and agree, up to case, on the name and type of an entity or on the three parts of a relationship or triplet |
| `FactIndex.MergeFacts` | src/z3rno_core/distill/schemas.py:117-144 | The two loops build the deduplicated own facts and absorb the other's |
| `FactIndex.BestKeepsBest` | src/z3rno_core/distill/schemas.py:120-124 | Absorbing keeps, per key, the leftmost most confident copy, keys in order of first appearance |
| `FactIndex.BestIsOnly` | src/z3rno_core/distill/schemas.py:120-124 | No other list keeps, per key, the leftmost most confident copy in that order |
| `FactMerge.DedupKeepsLast` | src/z3rno_core/distill/schemas.py:117-119 | The dict comprehension keeps the last copy of each key at the place of its first |
| `FactMerge.MergeKeepsBestIff` | src/z3rno_core/distill/schemas.py:109-144 | A merge keeps the best copies of both lists, whatever the second one is, exactly when the last copies of the first are its best |
| `FactPairs.PairKeepsBestIff` | src/z3rno_core/distill/schemas.py:109-135 | For a given pair of lists: the merge keeps the best copies of both exactly when, for each key whose last own copy is not its best, the second list has a copy more confident than that best, or its best copy is that very one |
| `FactMerge.LastCopyWins` | src/z3rno_core/distill/schemas.py:117-119 | On [better, worse] of one key the merge keeps the worse copy |
| `FactMerge.AssociativeIff` | src/z3rno_core/distill/schemas.py:109-144 | Merging associates around a list, whatever comes before and after, exactly when that list's last copies are its best |
| `FactMerge.IdempotentIff` | src/z3rno_core/distill/schemas.py:109-144 | Merging a list with itself gives it back exactly when its keys are distinct |
| `FactMerge.AbsorbBest` | src/z3rno_core/distill/schemas.py:120-124 | Reducing a list to its best copies first changes nothing for what absorbs it |
| `DistillMerge.MergeResults` | src/z3rno_core/distill/schemas.py:109-154 | `merge` on all three kinds of facts; the summary and the model are the own ones unless empty, the provenance is the own one |
| `DistillMerge.ExtractFromChunks` | src/z3rno_core/distill/extract.py:181-212 | The fold over the chunks in order, with the document's provenance; no chunks give the empty result |
| `DistillMerge.FirstGiven` | src/z3rno_core/distill/schemas.py:148-153 | Of several results the first summary and the first model name that are not empty are kept |
| `DistillMerge.FoldKeepsBestIff` | src/z3rno_core/distill/extract.py:198-200 | Folding two or more results keeps the best copies of all facts and the first summary, whatever follows, exactly when the first result's last copies are its best |
| `DistillMerge.SingleKeepsBestIff` | src/z3rno_core/distill/extract.py:198-200 | A single chunk is returned unmerged, so it keeps the best copies exactly when its keys are distinct |
| `DistillMerge.SingleKeepsBothCopies` | src/z3rno_core/distill/extract.py:198-200 | A single chunk that holds an entity twice comes back with both copies |
| `DistillMerge.BracketingKeepsBest` | src/z3rno_core/distill/schemas.py:109-154 | However results with distinct keys are paired up, the merge keeps the best copies of all of them |
| `DistillMerge.BracketingsAgree` | src/z3rno_core/distill/schemas.py:109-154 | Two bracketings of the same results agree on facts, summary, model and provenance |
| `Forge.WrittenIs` | src/z3rno_core/forge/pipeline.py:346-362 | A pass writes the entities in order and then the summary: the extracted one, the rolled one if that is empty, none if summaries are off or it is blank |
| `Forge.Pipeline.WriteDistillResult` | src/z3rno_core/distill/graph_writer.py:96-231 | One memo and one provenance row per entity and for the summary, in order; a crash after k of them leaves exactly the first k in the transaction |
| `Forge.Pipeline.ProcessMemory` | src/z3rno_core/forge/pipeline.py:298-391 | A pass commits everything it writes or nothing; it is skipped exactly when the job has a provenance row for the memory, or the memory is missing, blank or without chunks, and changes the tables only if it is processed |
| `Forge.Pipeline.Run` | src/z3rno_core/forge/pipeline.py:236-256 | The run passes over the memories in order until one raises, and keeps what was committed before; it counts the passes that were processed, those that were skipped and the memos written; a completed one leaves each memory distilled unless there was nothing to write for it |
| `Forge.RunStopsAtFirst` | src/z3rno_core/forge/pipeline.py:236-256 | The tables after a run are those after the passes before the first exception, one after the other |
| `ForgeRuns.HistoryKeeps` | src/z3rno_core/forge/pipeline.py:236-256 | Over any sequence of runs, each stopped anywhere, the memos of a job and source come from one transaction and are as many as the provenance rows |
| `ForgeRuns.FirstCommitStands` | src/z3rno_core/forge/pipeline.py:309-318 | A job and source have exactly the memos of the first pass that committed any: all of them and no others |
| `ForgeRuns.HistoryHoldsFirstCommit` | src/z3rno_core/forge/pipeline.py:236-256 | The same for every history of runs |
| `ForgeRuns.RepeatIsNoOpIff` | src/z3rno_core/distill/graph_writer.py:675-691 | Another pass over a memory can write nothing, whatever it extracts, exactly when the job already has memos for it |
| `ForgeRuns.SkippedIff` | src/z3rno_core/forge/pipeline.py:309-335 | After any passes, a pass is skipped exactly when an earlier pass of the job committed memos for the memory, or there is no text to work on |
| `ForgeRuns.SkippedAfterHistoryIff` | src/z3rno_core/forge/pipeline.py:309-335 | The same after any history of runs |
| `ForgeRuns.EmptyExtractionIsRepeated` | src/z3rno_core/forge/pipeline.py:309-318 | A re-run that is not a no-op: the first run extracts nothing and completes, the second processes the memory again and writes |

## Left out

Assumptions and simplifications of what is modelled:

- SHA-256: Merkle digests are a free datatype, so collision-freedom is built in; for the audit chain any 32-character hash is allowed, and the results name the rows whose own hashed texts would have to collide.
- Signing, key loading and the canonical payload of a certificate: no signatures are modelled.
- AuditEncoding.CanonicalInjective: distinct instants are taken to have distinct renderings of plain characters, and a number is its text; members of an object are given in the order they are written.
- AuditRuns.RunKeeps: one tenant's rows only; two tenants whose advisory-lock keys coincide only wait for each other.
- Row-level security is modelled as the tenant test it adds to each statement.
- Cascade.Store.Forget: the audit entries, the certificate and the graph mirror of a forget are separate statements, not part of the method.
- Components.Cluster: the seeds are given; what the walk reaches beyond them is not filtered by dataset or deletion, as in the source.  The summary cache and the model calls around the clusters are left out.
- HopWalk.Retrieve: the seeds of the lexical query are given, and scores are not rounded.
- Extractor.Extract: syntax trees, names, base names, import names and the field that holds a callee are attributes of the nodes, since they come from tree-sitter.
- CallAttribution.AttributionExactIff: a tree has no function kinds of another language's grammar, as a parser for one language gives.
- ParagraphChunker.ChunkByParagraphs: the matches of the separator expression are given as ordered, disjoint, blank spans.
- TokenChunker.ChunkByTokens: the tokenizer is a pair of functions; only the offsets need it to distribute over concatenation.
- SchedulerProtocol.WaitingIsBounded: stamps are the times of the picks, as now() in a transaction is its start, and these increase; a stamp given by the caller is left out, and a pick sees the tables of one instant.
- Weights.ClosedForm: reals instead of floats, and no rounding.
- Weights.EdgeAfterCycles: the results over many cycles are about feedback that names each edge in one way (Reweight.OneSpelling).
- Batcher.RecallCountBatcher.Bump: the queue cap and the wake event, which only make a flush come sooner; memory ids are canonical, so a key has one spelling.
- BatcherProtocol.LoopDelivers: that the loop is scheduled at all, and in time, is up to the event loop.
- BatcherProtocol.RunConserves: an exception after the server has committed is a commit here, since only the log line differs; the timestamps written with a count are left out.
- MemoVersions.VersionTable.Record: one tenant's rows and one writer at a time; a concurrent writer of the same memo fails on the primary key and rolls back.
- DistillMerge.ExtractFromChunks: what each chunk gives is an input; the concurrent model calls are not modelled.
- Forge.Pipeline.ProcessMemory: a statement that fails raises; the graph mirror, relationship edges, ontology grounding and audit entries of a pass are left out, as is the row of the job.
- ForgeRuns.HistoryKeeps: runs come one after the other; two workers on the same job at the same time are not modelled.

Parts of the repository that are not modelled:

- The versioning trigger on `memories` and what rests on it (`update_memory`, `transition_memory`, temporal queries): the trigger's second row clashes with the primary key shown beside it.
- Calls to language models, embeddings, rerankers, vision and audio, loaders, storage and HTTP.
- Apache AGE, migrations, configuration, job status rows, the budget check, `decay_importance` and the other refine stages.
