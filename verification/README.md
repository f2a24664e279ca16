# Hamilton, modelled and proved

Hamilton builds a graph of nodes from Python functions and executes it. This project models, in Dafny 4.11,
how it builds, slices, validates and executes such a graph, how its cache decides what not to execute, and
how its asynchronous driver executes it concurrently, and proves what these parts promise of each other.
`dafny verify dfyconfig.toml` checks everything.

One definition holds the parts together: `Dataflow.Eval`, plain evaluation of a node. An override is its
value, an input is what was supplied or absent, and a function node is its function on the values of its
dependencies in order, where an absent input is left out if its parameter has a default and an error
otherwise. Slicing, the memoised walk with pruning, validation, the cache over all histories and every
schedule of the asynchronous driver are each proved against it.

## Parts

- `Prelude`, `Sorting`: dicts as insertion-ordered pairs, canonical sorting.
- `Dataflow`: the graph as a value and plain evaluation.
- `Traversal`, `Slicing`: the depth-first search with its shared visited set as loops, paths, duality, the
  upstream slice and what depends on it.
- `Execution`: `execute_subdag` as a class whose methods fill, call and prune.
- `Validation`: `validate_inputs`, and exactly when it finds nothing.
- `CacheKeys`, `Fingerprints`, `FingerprintHeap`, `FingerprintNormal`: encodings under the cache; the heap
  version hashes objects that may lie on cycles, and the normal form says exactly which of them it tells apart.
- `CacheProtocol`, `CacheSoundness`, `CacheHistory`, `CacheBehaviors`, `CacheWarm`, `CacheStale`, `CacheFingerprints`,
  `CacheExact`: the caching adapter as a state machine over one pair of stores and any number of runs, what every
  history keeps, what each behavior promises, what a second run costs, and exactly which values can be cached.
- `CacheAdapter`: the adapter as a class with the fields and loops of the source, each method tied to the
  state machine's function of the same step.
- `Types`, `GraphSpec`, `GraphConstruction`: type matching, graph construction as a function on values, and the
  same as a class that changes `Node` objects in place.
- `NodeInputs`: `reassign_inputs`.
- `AsyncExecution`, `AsyncRuns`: the asynchronous driver as a transition system in which any ready task may step,
  and the creation of its tasks by the same walk as in `Execution`.

## What is assumed

- The digest is collision-free, and its text is letters of URL-safe base64 closed by the padding of a digest of 16
  bytes (`Fingerprints.Hasher`); the number of letters is left open, since no digest of fixed length is free of
  collisions. Compressing the encoded dependencies has an inverse (`CacheKeys.Platform`). Uuids do not repeat and
  hold no comma, and no fingerprint looks like a token made of one (`CacheProtocol.WorldValid`).
  `CacheExact.SomeWorldIsValid` shows that all this can be met together.
- A stripped node name and a code version determine what a callable may return. What it may return is a
  relation, so functions may be nondeterministic; determinism is assumed where it is needed, of DEFAULT nodes
  in `CacheAgreesWithEvaluation`.
- In a run, node names hold no comma, code versions no `-`, default parameter values belong to dependencies, and
  runtime inputs name only external nodes and no config key (`CacheSoundness.Exec.Valid`, `Enabled`).
  `CacheHistory.InputShadowsNode` shows what happens where inputs name function nodes.
- Graphs are acyclic where they are evaluated (`Dag.rank`). Traversal does not assume it.
- Caching behaviors are a parameter of a run. They are what `resolve_behaviors` would return.

## Found on the way

- A metadata store that keeps the first entry for a key, as the SQLite one does, never repairs an entry whose
  unhashable result was lost: the node runs in every later run until the entry is deleted
  (`CacheStale.StaleStaysStale`). `CacheWarm.SecondRunRepeats` says for any two like runs exactly when the second
  repeats the first.
- Containers of objects without fingerprint, or of objects nested below `MAX_DEPTH`, do get a fingerprint, which
  only tells how many there are (`FingerprintNormal.NestedUnhashablesCollide`). Exactly the values that hold such
  an object are not told apart (`Fingerprints.FingerprintDetermines`), and where two such values meet, and only
  there, the cache hands out one result for another (`CacheExact.CacheRightIffToldApart`).
- The kind of a container and the type behind a repr leave no trace in a fingerprint
  (`FingerprintNormal.SequenceLikeSet`, `FingerprintNormal.BuiltinLikeText`).
- Tightening an input's type can invalidate a consumer checked earlier. `GraphSpec.WellTypedIffComposes` says
  exactly when it cannot, `GraphSpec.BareGenericsEscape` names three declarations for which it does.
- When an input is to be tightened the graph adapter is asked the question it has just answered, in the same
  order of arguments, so its answer never matters (`GraphSpec.TightenOnlyByType`).
- `reassign_inputs` sends bound values through the inverted renaming too; exactly when that is harmless is
  `NodeInputs.FaithfulIffReadsBack`.
- Validation reports an input that is overridden but not supplied although evaluation would not miss it
  (`Validation.OverriddenInputIsRejected`), and one that only overridden nodes require, as can happen without runtime
  inputs (`Validation.DefaultCallAsksForMore`); these are the only such cases (`Validation.ValidationExact`).
- The asynchronous driver never validates. A missing required input raises while tasks are being created, and
  those already created run on with nobody to collect them (`AsyncRuns.CreateTasks`). A requested name that is no
  node, or an input nobody supplied, raises a KeyError there and not in the default executor
  (`AsyncRuns.AgainstTheDefault`).
- A node reassigned to other input names keeps its default values under the old ones. The cache then looks up a
  behavior for a name that need not be a node (`CacheHistory.DefaultsDecideThePreHook`) or passes the default on in
  place of the argument (`NodeInputs.StrayDefaultWins`).

## Model

| member | source | states |
|---|---|---|
| `CacheHistory.CacheAgreesWithEvaluation` | hamilton/caching/adapter.py:1149-1401 | After any history of runs, restarts, failures and lost entries, a value below which nothing is IGNORE is the one plain evaluation gives, taking the values RECOMPUTE and DISABLE nodes produced in that run as given; what these are is the subject of `CacheBehaviors.UncachedIsCalled`. |
| `CacheHistory.EveryValueIsSound` | hamilton/caching/adapter.py:1250-1401 | After any history every value any run got, IGNORE nodes included, is one its node's own code can return on that run's arguments, up to arguments that were declared IGNORE. |
| `CacheHistory.StoresStayRight` | hamilton/caching/adapter.py:1323-1475 | However runs were interrupted and whatever was lost, each metadata entry maps its key to a version of a value that key computes, each stored result is what its version denotes, and a version denotes one value. |
| `CacheHistory.HooksNeverFail` | hamilton/caching/adapter.py:1149-1475 | In every reachable state a hook finds every behavior, code version and data version it looks up, the do hook's lookup for the stored metadata included; the assertion in the post hook never fires. |
| `CacheHistory.DefaultsDecideThePreHook` | hamilton/caching/adapter.py:1187-1194 | The pre hook of a node to be cached finds a behavior for each of its arguments if and only if each of its parameters with a default value is named like a node; a node reassigned to other input names keeps default values under the old ones and so need not meet this. |
| `CacheHistory.InputShadowsNode` | hamilton/caching/adapter.py:1047-1063 | Why inputs must name external nodes: a runtime input under a function node's name is handed out in place of that node's result. |
| `CacheHistory.HistoryOk` | hamilton/caching/adapter.py:1101-1475 | The invariant holds after every legal history. |
| `CacheSoundness.StepOk` | hamilton/caching/adapter.py:1101-1475 | Each event (start of a run, the three node hooks, a lost result, a lost metadata entry, a restart) keeps the invariant over both stores and all runs. |
| `CacheSoundness.StartOk` | hamilton/caching/adapter.py:1101-1147 | Starting a run with versioned inputs and overrides keeps the invariant. |
| `CacheSoundness.PrepareOk` | hamilton/caching/adapter.py:1149-1248 | The pre hook keeps the invariant; its key names the node's code and the versions of exactly its arguments. |
| `CacheSoundness.ArgumentsMatch` | hamilton/caching/adapter.py:1187-1248 | The dependency versions the pre hook collects have the arguments' names, denote their values, and say IGNORE only where the node was declared so. |
| `CacheSoundness.RetrievedIsSound` | hamilton/caching/adapter.py:1316-1358 | A result fetched through a key is one this node's code can return on this run's arguments, whichever run or node stored it. |
| `CacheSoundness.DoOk` | hamilton/caching/adapter.py:1283-1401 | Executing, retrieving, a failing call and the branch that deletes both entries and computes again all keep the invariant. |
| `CacheSoundness.PostOk` | hamilton/caching/adapter.py:1403-1475 | Storing the result under its version keeps the invariant. |
| `CacheSoundness.SmallerStores` | hamilton/caching/adapter.py:1359-1363 | Entries may vanish from either store. |
| `CacheProtocol.DenotesUnique` | hamilton/caching/adapter.py:795-819 | A version, whether a fingerprint or a made-up token, stands for at most one value. |
| `CacheProtocol.DrawToken` | hamilton/caching/adapter.py:806-819 | A token made from a new uuid was never used and collides with no fingerprint. |
| `CacheProtocol.VersionDataDenotes` | hamilton/caching/adapter.py:795-819 | The version given to a value denotes it, and versions given earlier keep what they denoted. |
| `CacheWarm.SecondRunRepeats` | hamilton/caching/adapter.py:1187-1467 | With all nodes DEFAULT and everything given hashable, whatever the stores and functions: the second of two like runs calls nothing and gets the first run's data versions, in whatever order its hooks come, if and only if it executes no node whose entry is for another version than the first run recorded; it then leaves the stores as they are and repeats the first run's values. |
| `CacheWarm.SecondRunCallsNothing` | hamilton/caching/adapter.py:1187-1467 | Where moreover the metadata store overwrites, the functions are deterministic or no fingerprint entry lacks its result, a second run that goes through its whole slice calls no function if and only if no key of the slice was stale before the first run, that is, held an entry the metadata store keeps for a made-up version whose result is gone; if none was, any part of a second run calls nothing. |
| `CacheWarm.SecondRunCallsOnlyStale` | hamilton/caching/adapter.py:1187-1467 | Under the same conditions, hook by hook and in whatever order they come: the second of two like runs calls a function if and only if it executes a node whose key was stale before the first. |
| `CacheWarm.WarmRunRepeats` | hamilton/caching/adapter.py:1316-1358 | From a state whose stores account for every result of an earlier run, a sequence of hooks of the new run repeats it without a call if and only if it executes no node whose entry is for another version. |
| `CacheWarm.WarmRunCallsOnlyStale` | hamilton/caching/adapter.py:1316-1358 | And where only stale entries are for another version, it calls a function if and only if it executes a node whose key is stale. |
| `CacheWarm.WarmStep` | hamilton/caching/adapter.py:1149-1475 | One hook of a warm run keeps it warm and changes neither store. |
| `CacheWarm.ColdRun` | hamilton/caching/adapter.py:1250-1475 | A run that completes node by node leaves each result in the stores under the key the next run will ask for, unless the metadata store keeps another version there; where results are restored that is so only for stale keys. |
| `CacheWarm.ColdMiss` | hamilton/caching/adapter.py:1325-1399 | A miss stores the new entry and result, unless the metadata store keeps an entry for another version; where the new version was stored before, the stored value is the new one. |
| `CacheWarm.UnversionedIsHashable` | hamilton/caching/adapter.py:1188-1238 | An argument without a recorded version is a given value or a default that can be hashed again to the same version. |
| `CacheStale.StaleStaysStale` | hamilton/caching/stores/sqlite.py:136-173 | With a metadata store whose set keeps the first entry, a stale key stays stale over every continuation of a history, whatever runs it holds, until the entry is deleted, and every DEFAULT node executed under that key calls its function. |
| `CacheStale.LossMakesStale` | hamilton/caching/stores/sqlite.py:136-173 | Losing the result of a made-up version and restarting makes its key stale. |
| `CacheStale.RepairedIffSameVersion` | hamilton/caching/adapter.py:1366-1467 | A node that is executed again because its result is gone puts it back under its entry if and only if the version computed now is the one on record. |
| `CacheBehaviors.OnlyDefaultIsServed` | hamilton/caching/adapter.py:1268-1363 | Exactly who is served from the stores: a DEFAULT node whose result is stored under the version on record, unless retrieving it fails; it gets that result. RECOMPUTE, DISABLE and IGNORE nodes are always called and hand on what the call returned or raised. |
| `CacheBehaviors.UncachedIsCalled` | hamilton/caching/adapter.py:1268-1312 | After any history a node that is not DEFAULT holds what its last call in this run returned, however full the stores are, and no value if that call raised. |
| `CacheBehaviors.RaisedRecordsNothing` | hamilton/caching/adapter.py:1359-1399 | A call that raises leaves the adapter as it was, but for the two entries deleted where a stored result could not be retrieved. |
| `CacheBehaviors.UnretrievableIsReplaced` | hamilton/caching/adapter.py:1359-1467 | A stored result that could not be retrieved is gone, so the post hook puts the new one in its place. |
| `CacheBehaviors.FailureIsNotStored` | hamilton/caching/adapter.py:1420-1429 | Told that the node failed, the post hook does nothing. |
| `CacheBehaviors.DisabledLeavesNoTrace` | hamilton/caching/adapter.py:1190-1312 | The hooks of a DISABLE node leave records and stores as they are. |
| `CacheBehaviors.StartedWith` | hamilton/caching/adapter.py:1101-1147 | A run starts with a version for every input and every override, an override's where a name is both, and for no other name; an input's code version is made of its name, every other is the one resolved; no key, no other run and no store is touched. |
| `CacheBehaviors.ArgumentsVersioned` | hamilton/caching/adapter.py:1187-1238 | What goes into a key for each argument: the word for ignored, a token never used for a DISABLE dependency, the version this run has on record, and only without one the fingerprint, or a new token where there is none. |
| `CacheBehaviors.PreHookKey` | hamilton/caching/adapter.py:1190-1248 | DEFAULT and RECOMPUTE nodes get a key made of name, code version and these versions, IGNORE and DISABLE nodes none; nothing else changes. |
| `CacheBehaviors.IgnoredLeaveTheKey` | hamilton/caching/adapter.py:1188-1194 | Arguments that differ only in values of IGNORE dependencies leave the reader's key, and everything else, alike. |
| `CacheBehaviors.MadeUpForcesCall` | hamilton/caching/adapter.py:1195-1238 | After any history, a DEFAULT node that depends on a DISABLE node, or is handed a value without fingerprint and version, is prepared under a key that no entry ever had, and so is called. |
| `CacheBehaviors.CallIsVersioned` | hamilton/caching/adapter.py:1295-1312 | Whatever is called and returns gets a version for what it returned in this run, unless caching is disabled for it. |
| `CacheBehaviors.CallIsRecorded` | hamilton/caching/adapter.py:1366-1399 | The entry under the node's key is for that version exactly if the metadata store takes it: it overwrites, or holds none, or has just lost the one it held. |
| `CacheBehaviors.CalledIsServed` | hamilton/caching/adapter.py:1268-1467 | After any history, what a DEFAULT or RECOMPUTE node was called for is what its key serves once its hooks are through, if the metadata store takes the entry. |
| `CacheBehaviors.ServedUnderKey` | hamilton/caching/adapter.py:1316-1358 | And a DEFAULT node of any run under that key gets it without a call. |
| `CacheAdapter.HamiltonCacheAdapter.VersionData` | hamilton/caching/adapter.py:795-819 | A fresh uuid is drawn exactly for unhashable values; the result is the specification's version. |
| `CacheAdapter.HamiltonCacheAdapter.ResolveCodeVersions` | hamilton/caching/adapter.py:1010-1045 | The code versions of the function nodes of the slice, or of every node, inputs included, when nothing in particular is requested, the slice being that of the same inputs, config and overrides; every final name is checked against nodes, config and inputs. |
| `CacheAdapter.HamiltonCacheAdapter.PreGraphExecute` | hamilton/caching/adapter.py:1101-1147 | Sets up the run's records and versions its inputs and overrides, or fails as the slice query does. |
| `CacheAdapter.HamiltonCacheAdapter.SetUpRun` | hamilton/caching/adapter.py:1101-1147 | The four records of the run, and nothing of any other run, are as the specification says. |
| `CacheAdapter.HamiltonCacheAdapter.ProcessInputs` | hamilton/caching/adapter.py:1140-1142 | Every input gets a data version, in order; its code version is dropped. |
| `CacheAdapter.HamiltonCacheAdapter.ProcessOverrides` | hamilton/caching/adapter.py:1144-1147 | Every override gets a data version, in order; code versions stay. |
| `CacheAdapter.HamiltonCacheAdapter.ProcessInput` | hamilton/caching/adapter.py:1047-1063 | One input's version replaces whatever was there, and its code version goes. |
| `CacheAdapter.HamiltonCacheAdapter.ProcessOverride` | hamilton/caching/adapter.py:1065-1082 | One override's version replaces whatever was there. |
| `CacheAdapter.HamiltonCacheAdapter.PreNodeExecute` | hamilton/caching/adapter.py:1149-1248 | The key of the node in memory after the hook, per behavior, and no other change. |
| `CacheAdapter.HamiltonCacheAdapter.DependencyVersions` | hamilton/caching/adapter.py:1187-1238 | Versions of all arguments in order, from memory, hashed on the fly or IGNORE; memory is not written. |
| `CacheAdapter.HamiltonCacheAdapter.GetCacheKey` | hamilton/caching/adapter.py:556-596 | The key in memory, if the pre hook set one. |
| `CacheAdapter.HamiltonCacheAdapter.GetDataVersion` | hamilton/caching/adapter.py:632-736 | The version in memory, else the stored one under the key, if any. |
| `CacheAdapter.HamiltonCacheAdapter.SetMemoryMetadata` | hamilton/caching/adapter.py:738-768 | One data version of one run changes. |
| `CacheAdapter.HamiltonCacheAdapter.RecordFresh` | hamilton/caching/adapter.py:1373-1399 | The new value's version goes to memory and, as the store's set allows, under the key. |
| `CacheAdapter.HamiltonCacheAdapter.DoNodeExecute` | hamilton/caching/adapter.py:1250-1401 | Result, whether the function was called, both stores and memory after each of the branches equal the specification's. |
| `CacheAdapter.HamiltonCacheAdapter.Compute` | hamilton/caching/adapter.py:1366-1401 | A call that raises records nothing; one that returns is versioned and recorded. |
| `CacheAdapter.HamiltonCacheAdapter.DeleteEntries` | hamilton/caching/adapter.py:1359-1363 | Both entries go and nothing else. |
| `CacheAdapter.HamiltonCacheAdapter.PostNodeExecute` | hamilton/caching/adapter.py:1403-1475 | The result is stored if its version is absent from the result store, and nothing else changes. |
| `CacheKeys.RoundTrip` | hamilton/caching/cache_key.py:31-70 | Decoding a key gives back the sanitised name, code version and dependency mapping if and only if the code version has no '-' and no dependency name or version has a ','. |
| `CacheKeys.FullRoundTrip` | hamilton/caching/cache_key.py:31-70 | It gives back the very name, code version and dependencies if and only if moreover the name is made of letters, digits and underscores. |
| `CacheKeys.DecodeFails` | hamilton/caching/cache_key.py:23-58 | A text with two dashes fails to decode if and only if what follows them does not decompress or holds an even number of commas. |
| `CacheKeys.KeyText` | hamilton/caching/cache_key.py:24-70 | How keys read without dependencies, with one and with two: the word for none, or names and versions joined by commas in the order of the names. |
| `CacheKeys.KeyIdentity` | hamilton/caching/cache_key.py:60-70 | For such parts two keys are equal if and only if sanitised names, code versions and dependency mappings are, whatever the insertion order. |
| `CacheKeys.DecodeStrDict` | hamilton/caching/cache_key.py:36-41 | The index loop pairs up the pieces between commas, or fails on an odd number of them. |
| `CacheKeys.SortedItems` | hamilton/caching/cache_key.py:31-33 | The encoded items are the mapping's items, sorted: insertion order is forgotten, nothing is lost. |
| `CacheKeys.StringifyDecodes` | hamilton/caching/cache_key.py:31-41 | Comma-free mappings are read back from their encoding, and are never mistaken for no dependencies. |
| `CacheKeys.CommaCollision` | hamilton/caching/cache_key.py:31-41 | A comma in a name or version makes two different mappings encode alike. |
| `CacheKeys.SafeNameChars` | hamilton/caching/cache_key.py:60-70 | Sanitised names hold no '-', which is what the decoder splits at. |
| `CacheKeys.SafeNameIsName` | hamilton/caching/cache_key.py:68 | A node name is its own sanitised name if and only if it is made of letters, digits and underscores. |
| `CacheKeys.SafeNameConcat` | hamilton/caching/cache_key.py:68 | Names are sanitised piece by piece. |
| `CacheKeys.SafeNameOne` | hamilton/caching/cache_key.py:68 | Of a single character all is kept if it is a letter, a digit or an underscore, and nothing otherwise. |
| `CacheKeys.SomePlatformIsValid` | hamilton/caching/cache_key.py:31-70 | Character classes and a compression as assumed exist. |
| `Sorting.SortCorrect` | hamilton/caching/cache_key.py:31-33 | Sorting gives a sorted permutation. |
| `Sorting.SortCanonical` | hamilton/caching/cache_key.py:31-33 | Sorting any two orders of the same items gives the same list. |
| `Sorting.StringLeqExactly` | hamilton/caching/cache_key.py:32 | Strings are ordered by their first difference; without one the shorter is first. |
| `Fingerprints.FingerprintExact` | hamilton/caching/fingerprinting.py:70-180 | On values nested from None, str, int, float, bool, bytes, sequences and objects without fingerprint, two fingerprints are equal if and only if the values are the same up to which objects without fingerprint they hold; Python sequences of different type but like contents count as the same. |
| `Fingerprints.FingerprintDetermines` | hamilton/caching/fingerprinting.py:70-180 | A fingerprint belongs to one value if and only if that value holds no object without fingerprint. |
| `Fingerprints.FingerprintInjective` | hamilton/caching/fingerprinting.py:70-180 | So equal fingerprints come from equal values where one of the two holds no such object. |
| `Fingerprints.SomeHasherIsValid` | hamilton/caching/fingerprinting.py:70-85 | A digest as assumed, free of collisions and of the form base64 gives, exists. |
| `Fingerprints.TaggedInjective` | hamilton/caching/fingerprinting.py:140-170 | The tagged text of a primitive determines it, its type included. |
| `Fingerprints.TaggedTexts` | hamilton/caching/fingerprinting.py:140-170 | The texts that are digested: type name, colon, value. |
| `Fingerprints.ConcatInjective` | hamilton/caching/fingerprinting.py:173-180 | A concatenation of element hashes splits in one way. |
| `Fingerprints.CollectVersionIdentity` | hamilton/caching/adapter.py:1212-1215 | The version of a collected dependency depends on the items' versions as a multiset, and on nothing less. |
| `FingerprintHeap.TerminatesIffCyclesMeetDefaultCase` | hamilton/caching/fingerprinting.py:88-119 | Hashing terminates on every object of a heap, at every depth, if and only if every cycle of the object graph passes through a default-case object; the default case alone looks at the depth. |
| `FingerprintHeap.TerminatesIffNoContainerCycle` | hamilton/caching/fingerprinting.py:88-119 | For one object and one depth: hashing it terminates if and only if the recursion gets to no cycle of containers alone before default-case objects are cut off. |
| `FingerprintHeap.TerminatesIffRanked` | hamilton/caching/fingerprinting.py:88-119 | Equivalently, if and only if the containers can be ranked so that each ranks above the containers in it. |
| `FingerprintHeap.CyclesAndRanks` | hamilton/caching/fingerprinting.py:88-119 | Containers can be ranked if and only if every cycle passes through a default-case object. |
| `FingerprintHeap.MoreFuel` | hamilton/caching/fingerprinting.py:88-119 | A hash that ends does not depend on how much longer it might have run. |
| `FingerprintHeap.EnoughFuel` | hamilton/caching/fingerprinting.py:88-119 | On a ranked heap the bounded recursion ends with the unbounded result. |
| `FingerprintHeap.RepresentedHash` | hamilton/caching/fingerprinting.py:88-180 | The hash of an object that stands for a tree is the tree's fingerprint, where foreign objects and default-case objects beyond the maximal depth are leaves without fingerprint. |
| `FingerprintHeap.DepthIrrelevant` | hamilton/caching/fingerprinting.py:173-246 | Where a tree holds no such leaf, neither the depth passed in nor the maximal depth changes the result. |
| `FingerprintHeap.DefaultCaseHash` | hamilton/caching/fingerprinting.py:88-115 | An object with a non-empty dict has the fingerprint of that dict one level deeper, one hashed by its repr that of this text, both up to the maximal depth and the word for unhashable beyond it; an object with neither has that word at any depth. |
| `FingerprintHeap.BuiltInHash` | hamilton/caching/fingerprinting.py:118-246 | None, primitives and containers are hashed at any depth: by type and text, or from the fingerprints of their parts one level deeper, in order for a sequence, sorted for a set, by sorted key for a mapping. |
| `FingerprintHeap.UnhashableExactly` | hamilton/caching/fingerprinting.py:88-115 | The word for unhashable comes out if and only if the object is given up on, directly or as its dict. |
| `FingerprintHeap.MappingText` | hamilton/caching/fingerprinting.py:196-203 | Two entries are digested key before value, the smaller key first, whatever their order. |
| `FingerprintNormal.HashExact` | hamilton/caching/fingerprinting.py:88-246 | Any two objects, of whatever heaps and reached at whatever depths, sets, mappings, instances and cut-off objects included, have the same fingerprint if and only if they have the same normal form among trees. |
| `FingerprintNormal.HashIsNormal` | hamilton/caching/fingerprinting.py:88-246 | The hash of an object is its normal form's fingerprint. |
| `FingerprintNormal.HeapExact` | hamilton/caching/fingerprinting.py:88-180 | Two objects that stand for trees have the same fingerprint if and only if the trees differ in no more than what was given up on; a tree in which nothing was given up on is determined by it. |
| `FingerprintHeap.SetOrderIrrelevant` | hamilton/caching/fingerprinting.py:236-246 | The iteration order of a set does not change its fingerprint. |
| `FingerprintHeap.MappingOrderIrrelevant` | hamilton/caching/fingerprinting.py:182-233 | Nor does the insertion order of a mapping whose keys have distinct fingerprints. |
| `FingerprintHeap.HashUnorderedMapping` | hamilton/caching/fingerprinting.py:182-203 | The loop computes the fingerprint of the dict made of the entries' fingerprints in order. |
| `Prelude.DictOfMaps` | hamilton/caching/fingerprinting.py:196-198 | A dict filled entry by entry has distinct keys and stands for the mapping in which the last entry of a key counts. |
| `Prelude.LastWins` | hamilton/caching/fingerprinting.py:196-198 | In that mapping a key maps to the value of its last occurrence. |
| `FingerprintHeap.MappingHashExact` | hamilton/caching/fingerprinting.py:182-203 | Two mapping fingerprints are equal if and only if they give each key fingerprint the same last value fingerprint: neither order nor a value written over counts. |
| `FingerprintNormal.MappingsExact` | hamilton/caching/fingerprinting.py:182-233 | So two mappings of any heaps hash alike if and only if those maps of entry fingerprints are equal, which is exactly when insertion order does not matter. |
| `FingerprintNormal.NestedUnhashablesCollide` | hamilton/caching/fingerprinting.py:88-119 | Sequences of foreign objects, or of default-case objects beyond the maximal depth, get a fingerprint, the same for all of one length. |
| `FingerprintNormal.SequenceLikeSet` | hamilton/caching/fingerprinting.py:173-246 | The kind of container does not count: a sequence hashes like the set of its elements if and only if it lists them in the order of their fingerprints. |
| `FingerprintNormal.BuiltinLikeText` | hamilton/caching/fingerprinting.py:125-134 | An object hashed by its repr hashes like that text, and like no other primitive. |
| `CacheFingerprints.FingerprintsFitTheCache` | hamilton/caching/fingerprinting.py:70-180 | These fingerprints meet what the cache assumes of versions if and only if no two values in play differ only in objects without fingerprint they hold. |
| `CacheFingerprints.CacheableExactly` | hamilton/caching/fingerprinting.py:70-180 | A value is versioned safely, whatever else is around, if and only if it is an object without fingerprint itself or holds none. |
| `CacheFingerprints.CacheablesToldApart` | hamilton/caching/fingerprinting.py:70-180 | The values with that property meet the condition together. |
| `CacheFingerprints.NotAllToldApart` | hamilton/caching/fingerprinting.py:88-119 | All values together do not: two lists of one object each. |
| `CacheExact.CacheRightIffToldApart` | hamilton/caching/adapter.py:795-819 | The cache over these fingerprints agrees with plain evaluation in every world and after every legal history of deterministic DEFAULT nodes if and only if no two values in play differ only in objects without fingerprint they hold. |
| `CacheExact.SecondRunIsMisled` | hamilton/caching/adapter.py:1283-1467 | For any two different values with one fingerprint there is a legal history, of a function that returns its input run on the one and then on the other, in which the second run gets the first run's result. |
| `CacheExact.SomeWorldIsValid` | hamilton/caching/adapter.py:795-819 | Fingerprints, uuids and a platform as assumed exist together. |
| `CacheFingerprints.FingerprintedCacheAgrees` | hamilton/caching/adapter.py:795-819 | Where that condition holds the cache agrees with plain evaluation after any history, with nothing assumed of the digest but injectivity. |
| `GraphSpec.RequestIsMet` | hamilton/graph.py:79-133 | Exactly which requests are refused, and the type of the node asked for afterwards: kept where it fits by hamilton's check or the adapter's, the parameter's where an input that does not fit may be tightened to it. |
| `GraphSpec.AnyIsMet` | hamilton/htypes.py:156-157 | A node of type Any meets every request, and a parameter of type Any any node but a type variable's. |
| `GraphSpec.FinishedGraph` | hamilton/graph.py:59-161 | A finished graph: each node depends on exactly its parameters in order, forward and backward edges agree in number, every name resolves, and only inputs were added. |
| `GraphSpec.LinkEdges` | hamilton/graph.py:131-133 | Linking adds one edge a request on both ends, in order, after those there were. |
| `GraphSpec.LinkKeepsEdges` | hamilton/graph.py:122-133 | b occurs among a's dependencies as often as a among b's readers, kept by every step. |
| `GraphSpec.LinkGrows` | hamilton/graph.py:85-130 | Existing nodes keep place and kind; a new node is an input somebody asked for; only inputs change type, to one a consumer declared. |
| `GraphSpec.LoopsAreLink` | hamilton/graph.py:158-161 | The two nested loops make all requests in order and stop at the first that cannot be met. |
| `GraphSpec.FinishedIsWellTyped` | hamilton/graph.py:79-133 | Every parameter fits the final type of its node, inputs tightened afterwards included, and the type of an added input is declared by one consumer and fits them all. |
| `GraphSpec.WellTypedIffComposes` | hamilton/graph.py:90-117 | Over a set of types every finished graph is well typed if and only if tightening composes on them: what fits an input's type fits the type it may be tightened to. |
| `GraphSpec.PlainMatchingComposes` | hamilton/htypes.py:146-166 | On well-behaved types hamilton's own check composes. |
| `GraphSpec.BareGenericsEscape` | hamilton/graph.py:90-117 | With a class that is also the origin of a generic it does not: three consumers are accepted together though one does not fit the final type. |
| `GraphSpec.TightenOnlyByType` | hamilton/graph.py:90-97 | The adapter's second answer never decides: where it would allow tightening the first check has passed. |
| `GraphSpec.RebuildIsIdentity` | hamilton/graph.py:154-161 | Rebuilding a well-typed finished graph with its edges reset gives the same graph. |
| `GraphSpec.RelinkingDoublesEdges` | hamilton/graph.py:154-161 | Without the reset every edge is there twice. |
| `GraphSpec.WithNodesKeeps` | hamilton/graph.py:783-796 | After adding nodes old and new ones alike depend on their parameters, once each and in order; the old ones come first, then the new ones, then added inputs. |
| `GraphSpec.FinishedIsLinked` | hamilton/graph.py:131-133 | So the dataflow graph read off a finished graph has back edges inverse to its edges, as traversal and validation rely on. |
| `GraphConstruction.FunctionGraph.AddDependency` | hamilton/graph.py:59-133 | On node objects: the branch taken, the retyping or the new input, and both edge lists are as specified; false exactly where the source raises. |
| `GraphConstruction.FunctionGraph.SetType` | hamilton/node.py:194-197 | One node's type changes, an input's. |
| `GraphConstruction.FunctionGraph.Insert` | hamilton/graph.py:122-130 | A new input goes to the end of the dict, without edges. |
| `GraphConstruction.FunctionGraph.AddEdge` | hamilton/graph.py:131-133 | Both ends record the edge; edges lead to nodes of this dict. |
| `GraphConstruction.FunctionGraph.LinkNode` | hamilton/graph.py:159-160 | The inner loop. |
| `GraphConstruction.FunctionGraph.UpdateDependencies` | hamilton/graph.py:136-161 | In place: true exactly where all requests can be met, and then the graph is the specified one. |
| `GraphConstruction.FunctionGraph.CopyWithoutRefs` | hamilton/node.py:326-364 | Fresh nodes in the same order with the same types and no edges. |
| `GraphConstruction.FunctionGraph.WithNodes` | hamilton/graph.py:783-796 | None exactly for shared names or incompatible types; the result is built of fresh nodes whose edges stay among them, and the graph it is called on is untouched. |
| `Types.MatchTransitive` | hamilton/htypes.py:62-166 | types_match is transitive on plain classes, flat unions and full generics, no class below a generic's. |
| `Types.SimpleMatch` | hamilton/htypes.py:62-115 | On such types matching comes down to six cases. |
| `Types.AnyMatches` | hamilton/htypes.py:146-166 | A node of type Any feeds every parameter; a parameter of type Any takes every node that is no type variable. |
| `Types.TypeVariableMatches` | hamilton/htypes.py:158-160 | A type variable matches itself alone, but for a node of type Any. |
| `Types.StreamChecksAsItems` | hamilton/htypes.py:98-100 | A stream is a subclass of a type if and only if its items are, whatever the type. |
| `Types.CollectorChecksAsItems` | hamilton/htypes.py:101-103 | Any type is a subclass of a collector if and only if it is one of what is collected. |
| `Types.StreamMatches` | hamilton/htypes.py:98-103 | A stream feeds a parameter that is the same stream or takes its items, and a collector takes a stream of what its items take. |
| `Types.GenericMatches` | hamilton/htypes.py:104-115 | Classes and generics match by class and, where both give any, by arguments: a class, a bare generic or one with the placeholder matches every generic of its class in both directions. |
| `Types.UnionTakes` | hamilton/htypes.py:82-85 | A union takes itself and what one of its members takes. |
| `Types.BareGenericsAreNotTransitive` | hamilton/htypes.py:96-115 | With a bare generic it is not transitive. |
| `NodeInputs.ReassignPreservesMeaning` | hamilton/node.py:366-399 | A node with renamed and bound inputs, called on renamed arguments, calls the original on the original arguments and the bound values; its inputs are the kept ones renamed, in order. |
| `NodeInputs.KeptExactly` | hamilton/node.py:394-396 | Exactly the inputs not bound to a value are kept, in their order. |
| `NodeInputs.FaithfulIffReadsBack` | hamilton/node.py:384-399 | That holds for all arguments and bound values if and only if the inverted map reads every renamed name back and leaves bound names alone. |
| `NodeInputs.InjectiveReadsBack` | hamilton/node.py:384-387 | An injective renaming of kept inputs whose targets avoid the other kept inputs and the bound names is read back. |
| `NodeInputs.TargetsMustAvoidBoundNames` | hamilton/node.py:384-387 | A target that is a bound name hands the bound value to the renamed input. |
| `NodeInputs.ReassignmentsCompose` | hamilton/node.py:366-399 | Reassigning twice is the original node on twice renamed arguments and both sets of bound values. |
| `NodeInputs.TwiceIsOnce` | hamilton/node.py:366-399 | It is the node reassigned once, by the composed renaming and with both sets of values bound, inputs and results alike, if no input ends up under a bound name. |
| `NodeInputs.ComposedReadsBack` | hamilton/node.py:384-399 | The composed renaming is read back if and only if no input ends up under a bound name. |
| `NodeInputs.StrayDefaultWins` | hamilton/node.py:326-399 | A default value the reassigned node keeps under an old name, passed along as the cache does, takes the place of the argument given under the new name: the callable gets what it should if and only if that argument equals the default. |
| `Traversal.DirectionalDfsTraverse` | hamilton/graph.py:1077-1124 | On any finite graph, cyclic or not, the nodes found are exactly those reachable from the known starts and the user nodes exactly the external ones among them; an unknown start is reported in order, and the traversal goes through exactly if there is none. |
| `Traversal.DfsFrom` | hamilton/graph.py:1097-1109 | One start adds exactly what it reaches, though the visited set is shared with earlier starts. |
| `Traversal.InRequestOrder` | hamilton/graph.py:1111-1123 | Known and missing starts are listed in request order. |
| `Traversal.OneRequest` | hamilton/graph.py:1111-1123 | A start is known exactly if the graph holds it, missing exactly if neither graph nor config nor runtime inputs do. |
| `Traversal.Duality` | hamilton/graph.py:1003-1056 | Downstream and upstream reachability are dual where forward and backward edges are inverse. |
| `Traversal.OnPathIffBothWays` | hamilton/driver.py:1238-1242 | A node lies on a path from u to d exactly if u reaches it and it reaches d. |
| `Traversal.GetNodesBetween` | hamilton/driver.py:1227-1242 | The intersection of the two traversals is exactly the set of nodes on paths. |
| `Slicing.SlicePreservesMeaning` | hamilton/graph.py:1034-1056 | Requested values, and the slice itself, depend only on the nodes of the slice: any other node may be redefined, added or removed, and anything behind an override redefined; only a dependency the slice skips must stay an input. |
| `Slicing.ClosedPreservesMeaning` | hamilton/graph.py:1034-1056 | The same for any set closed under what its nodes need. |
| `Slicing.SliceClosed` | hamilton/graph.py:1034-1056 | The slice holds the requests and everything its nodes need. |
| `Slicing.SliceLeast` | hamilton/graph.py:1034-1056 | And it is the least such set. |
| `Slicing.SliceHoldsItsInputs` | hamilton/graph.py:1040-1053 | And every input that counts is in it: with equal overrides and equal values for the inputs in the slice, each request evaluates alike; whatever input of a node in it was supplied is in it. |
| `Slicing.ClosedInputsDecide` | hamilton/graph.py:1040-1053 | The same for any set closed under what its nodes need. |
| `Slicing.SliceIsStable` | hamilton/graph.py:1034-1056 | The slice of a graph that agrees on it is the same. |
| `Execution.ExecuteDefault` | hamilton/driver.py:152-172 | The default executor returns plain evaluation's values or its first error, calls each function at most once, and on success exactly the functions of the slice. |
| `Execution.SubdagRun.Execute` | hamilton/execution/graph_functions.py:168-270 | The memoised walk over all targets, with the memo's invariants. |
| `Execution.FirstErrorIsFirst` | hamilton/execution/graph_functions.py:264-270 | The error of a run is that of the first request which has one; an input nobody supplied is none. |
| `Execution.SubdagRun.ExecuteTargets` | hamilton/execution/graph_functions.py:264-270 | The loop over the targets returns the first error in their order; a missed input leaves the memo good. |
| `Execution.SubdagRun.DfsTraverse` | hamilton/execution/graph_functions.py:197-262 | One node is computed, or the error of plain evaluation is raised. |
| `Execution.SubdagRun.CallNode` | hamilton/execution/graph_functions.py:225-243 | The callable runs on exactly the gathered arguments, once. |
| `Execution.SubdagRun.Arguments` | hamilton/execution/graph_functions.py:205-208 | What the node depends on is computed first, in order; the first error stops it. |
| `Execution.SubdagRun.Kwargs` | hamilton/execution/graph_functions.py:220-223 | The keyword arguments are those of plain evaluation. |
| `Execution.SubdagRun.Prune` | hamilton/execution/graph_functions.py:251-262 | Exactly what is pruned: values of dependencies that were not requested and whose readers are all held and not requested; none such is left, and every value still needed is kept. |
| `Execution.SubdagRun.IsSpent` | hamilton/execution/graph_functions.py:253-259 | The loop over the readers: true exactly if all are held and none is requested, nor the value itself. |
| `Execution.StillComputed` | hamilton/execution/graph_functions.py:251-262 | A dependency computed for a node still to be evaluated has not been pruned. |
| `Execution.GoodDrop` | hamilton/execution/graph_functions.py:251-262 | A value all of whose readers are computed may be dropped. |
| `Execution.AllSliceCalled` | hamilton/execution/graph_functions.py:168-270 | On success every function node of the slice was called. |
| `Validation.ValidatedNeverStuck` | hamilton/driver.py:498-529 | If validation finds nothing missing, evaluating any node of the slice never meets a missing required input. |
| `Validation.ValidationExact` | hamilton/driver.py:498-529 | For functions that do not raise, and whether or not runtime inputs are given at all, validation finds nothing missing if and only if evaluating the requests never meets a missing input and it asks for no more than that: no input that nobody supplied is required in the slice while it is overridden or required by overridden nodes only. |
| `Validation.DefaultCallAsksForMore` | hamilton/driver.py:535-712 | With the default of no runtime inputs an absent optional input stays in the slice, and an overridden function that would require it makes validation report it, though it is neither overridden nor requested and nothing gets stuck. |
| `Validation.ValidateInputs` | hamilton/driver.py:472-529 | The findings are exactly the missing required and the wrongly typed user nodes; clashing config and inputs are refused. |
| `Validation.NodeIsRequiredByAnything` | hamilton/execution/graph_functions.py:404-421 | True exactly if some node of the set has the name as a required parameter, though only back edges are looked at. |
| `Validation.OverriddenInputIsRejected` | hamilton/driver.py:498-529 | An overridden input that nobody supplied is reported although its readers get the override. |
| `Validation.CheckRequest` | hamilton/driver.py:636-639 | From the request, with runtime inputs or without, to the findings: it is refused if and only if a name is no node and no runtime input, or a config key; otherwise config and inputs clash or the traversal's nodes are the slice, nothing is reported as not provided if and only if nothing is missing for it, and then no node of the slice can get stuck. |
| `AsyncExecution.AllSchedulesAgree` | hamilton/async_driver.py:78-169 | Every schedule that completes gives every task the outcome of plain evaluation of the hooked graph, and runs the same hooks and calls for it, once each. |
| `AsyncExecution.EveryScheduleEnds` | hamilton/async_driver.py:78-169 | Every schedule ends within five steps a task, and has completed exactly if no step is possible. |
| `AsyncExecution.SomeTaskIsReady` | hamilton/async_driver.py:33-51 | While a task is unfinished some task can move. |
| `AsyncExecution.HookDiscipline` | hamilton/async_driver.py:103-165 | At every moment of every schedule what happened to a node is a prefix of its life, and all of it once it has settled. |
| `AsyncExecution.LifeSpelledOut` | hamilton/async_driver.py:103-165 | With either hook registered or not: nothing if an input failed, the pre hook alone if it raises, otherwise pre hook, call, end of call and post hook in this order, once each, the post hook told whether the function returned. |
| `AsyncExecution.RaisingHookFails` | hamilton/async_driver.py:112-165 | On every schedule a node one of whose hooks raises fails, whatever its function does. |
| `AsyncExecution.MeaningOfTask` | hamilton/async_driver.py:103-165 | A task has its function's value exactly if its inputs arrive, neither hook raises and the function returns. |
| `AsyncExecution.AsyncMatchesSequential` | hamilton/async_driver.py:325-340 | For any requested names the run raises a KeyError if and only if one is not in the memo, and otherwise hands back the values of sequential evaluation or raises, the latter exactly if some request has none. |
| `AsyncExecution.TaskResult` | hamilton/async_driver.py:325-340 | A finished task holds its node's value, a failed one stands for a node without. |
| `AsyncExecution.StepKeepsInv` | hamilton/async_driver.py:103-165 | Each step of a task keeps the invariant. |
| `AsyncRuns.CreateTasks` | hamilton/async_driver.py:306-322 | This driver does not validate: creating the tasks goes through if and only if everything they await is a task, a raw value or an absent optional input; otherwise it raises for a missing input, and the tasks created until then await only what is there. |
| `AsyncRuns.LeftBehindTasksFinish` | hamilton/async_driver.py:103-169 | Such tasks finish on every schedule with what plain evaluation gives their nodes, collected or not. |
| `AsyncRuns.AsyncRun` | hamilton/async_driver.py:288-340 | Any request whose tasks could be created, run on any schedule, stops; it raises a KeyError if and only if a requested name is no node or an input nobody supplied; otherwise it gives plain evaluation's values or raises, the latter exactly if a call fails. |
| `AsyncRuns.AgainstTheDefault` | hamilton/driver.py:166-171 | The two drivers hand back the same results, and differ exactly on a requested name not in the memo: there the default executor hands back the runtime input of that name or None. |
| `AsyncRuns.ValidatedJobIsValid` | hamilton/async_driver.py:306-326 | What validation would pass is created without error. |

## Left out

- Task-based execution, grouping, and the EXPAND and INSIDE roles of cached nodes: data versions keyed by task are
  not modelled; of COLLECT the versioning of the collected items is.
- Data loaders (the result of a tuple is kept, its metadata dropped), data savers (a constant version) and
  `@cache(format=...)`: tags that change the returned value, the version or where it is stored; case splits only.
- `resolve_behaviors` and the decorators it reads: behaviors are given.
- Stores: SQLite tables, files, pickling and expiry. Both stores are maps whose entries may vanish; of the SQLite
  store the first-entry-wins rule is kept. The in-memory store's KeyError on deleting an absent key is not modelled.
- Branches for a version equal to the bare word for unhashable: no version is ever that word, because a suffix is
  added when it is made.
- Logging, events, `view_run`, error texts and their order, run ids other than their being new.
- Fingerprints of bytes-like views, of subclasses of `str` and `int` and of pandas, numpy and polars values: library
  calls. Strings stand for their UTF-8 bytes, a float or a repr for its text.
- MD5, base64 and zlib: parameters with the assumptions above.
- `create_function_graph` up to the call of `update_dependencies`: Python reflection, decorators, and config keys
  that become inputs without edges.
- Namespaces, tags, documentation, originating functions, `Node.__eq__`: they take no part in edges or values.
- Annotated types, tuples as such, `Parallelizable` and `Collect` without argument and user-defined bare generics:
  library inspection; unions are sets of types.
- Remote execution, result builders, materializers, display.
- The event loop itself, cancellation, and which of several errors is raised first: an error is some task's own
  fault, and which one depends on the schedule.
- NodeInputs.ReassignInputs: the default parameter values, which the copy keeps under the old names, are looked at in
  `NodeInputs.StrayDefaultWins` only; the wrapper for coroutine functions is not modelled.
- Execution.SubdagRun.DfsTraverse: one hook lifecycle around a call is one call; the cache's hooks are modelled
  separately.
- CacheWarm.SecondRunCallsNothing: the first run's hooks come node by node; those of the second in any order.
- CacheHistory.HooksNeverFail: runs of nodes whose default values are not named like dependencies are not covered;
  `CacheHistory.DefaultsDecideThePreHook` says exactly when their pre hook fails.
- CacheHistory.CacheAgreesWithEvaluation: says nothing of values below an IGNORE node, whose value is hidden from
  the keys on purpose; `CacheHistory.EveryValueIsSound` says what holds of them.
