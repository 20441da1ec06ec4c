# Queue discovery and reconciliation, modelled in Dafny

This project models the engine in `src/bull.js` of bull-board-docker. The engine finds out which Bull/BullMQ queues exist by scanning the keys of a Redis store. It then keeps bull-board's queue list in step with them:

- **Key scan.** A cursor-paged `scan`: it starts at cursor `"0"`, appends every batch, and stops when the store hands back `"0"` again.
- **Name extraction.** Each key is rewritten with `^PREFIX:(.+):[^:]+$` → `$1`. The results go into a `Set`, which keeps insertion order.
- **getBullQueues.** The distinct names, sorted, one handle each. It throws `"No queue found."` when there are none.
- **bullMain.** The bootstrap. It retries getBullQueues through `backOff` and calls `setQueues` on success.
- **refresh.** The incremental reconciliation. It computes `addKeys` and `removeKeys`, then calls `addQueue` and pushes a handle for each new name, and calls `removeQueue` and filters out the handle of each vanished name.
- **The lock.** Both entry points share the `isRefreshing` flag. A call that finds it set returns at once. Otherwise the call sets the flag and clears it after its try/catch, whether or not an error was caught.

Files:

- `outcomes.dfy`: `Option`, `Result` and the three errors.
- `keys.dfy`: the scan and the extraction.
- `names.dfy`: `Set` deduplication, sort, and the `filter`/`includes` differences.
- `registry.dfy`: handles and the registry list operations (`map(getName)`, `find`, `filter`).
- `bull.dfy`: getBullQueues, the retry loop, and the `Engine` class. The class holds the module-level `isRefreshing` and `queueList`, a log of presentation-layer calls, and a count of `scan` calls.

The store is a sequence of replies, one per `scan` call, in call order. A reply is a next cursor with a batch of keys, or `Down` for a rejected call. `Completes(store)` says the iteration reaches cursor `"0"` or a failure. The source's do-while loop does not terminate without that.

A handle is an object whose only state is its `name`. So "the same handle" means the same reference.

The registry is `Option<seq<Handle>>`, and `None` is JavaScript's `undefined`.

Three behaviours of the code are easy to misread; the model follows the code:

- A key that does not match the extraction pattern is kept unchanged as a name; it is not dropped. For example, `bull::id` yields the name `bull::id`. As a result, getBullQueues reports "No queue found." exactly when the scan returned no key at all.
- The scan result keeps duplicate keys. Deduplication happens only in the `Set` of names.
- bullMain does not install the registry. See Findings.

## Model

| member | source | states |
|---|---|---|
| `Keys.FirstStop` | src/bull.js:27-31 | the do-while loop stops at the first reply whose cursor is "0" or that failed; no earlier reply stops it |
| `Keys.Scan` | src/bull.js:25-31 | the outcome of the do-while scan loop, as a function of the store. It has no `ensures` of its own: `FirstStop` fixes where the loop stops, and `ScanKeys` is proved to compute exactly `Scan` |
| `Keys.Extract` | src/bull.js:32-35 | `key.replace(regex, '$1')` on one key. It has no `ensures` of its own: `ExtractMatched`, `ExtractChanged` and `ExtractUnmatched` state both directions of the match |
| `Keys.ExtractAll` | src/bull.js:32-35 | `keys.map(...)`: one candidate name per key, in key order. It has no `ensures` of its own; `SortedNames` and `BootstrapNames` state what the names built from it are |
| `Keys.ScanKeys` | src/bull.js:25-31 | returns every batch up to the reply with cursor "0", concatenated in reply order with duplicates kept, or StoreUnavailable if a call failed. The first call uses cursor "0", each later call uses the cursor the previous reply returned, and none of those later cursors is "0" |
| `Keys.ExtractMatched` | src/bull.js:32-35 | a key `PREFIX:m:s`, with `m` non-empty and free of line terminators and `s` non-empty and colon-free, becomes `m`; the greedy match lets `m` contain colons |
| `Keys.ExtractChanged` | src/bull.js:32-35 | whenever extraction changes a key, the result is the capture group of a match of the pattern |
| `Keys.ExtractUnmatched` | src/bull.js:32-35 | a key that matches the pattern in no way is returned unchanged |
| `Keys.ExtractExamples` | src/bull.js:96-99 | `bull:orders:id` becomes `orders`, `bull:mail:eu:id` becomes `mail:eu`, `bull::id` stays `bull::id` |
| `Names.Dedup` | src/bull.js:32 | `Array.from(new Set(s))` holds each element of `s` exactly once and nothing else |
| `Names.DedupPrefix` | src/bull.js:96 | Set insertion order: deduplicating a prefix of the keys yields a prefix of the result |
| `Names.DedupDistinct` | src/bull.js:96 | a list without duplicates passes through the Set unchanged |
| `Names.BelowTotal` | src/bull.js:36 | any two strings are comparable in the sort order |
| `Names.BelowAntisymmetric` | src/bull.js:36 | two strings each sorting no later than the other are equal |
| `Names.BelowTransitive` | src/bull.js:36 | the sort order is transitive |
| `Names.BelowReflexive` | src/bull.js:36 | every string sorts no later than itself |
| `Names.Sort` | src/bull.js:36 | `sort()` returns an ascending permutation of its input |
| `Names.SortDistinct` | src/bull.js:36 | sorting a duplicate-free list leaves it duplicate-free |
| `Names.SortedUnique` | src/bull.js:36 | two ascending arrangements of the same names are equal, so the bootstrap order is fully determined |
| `Names.SameHead` | src/bull.js:36 | two ascending arrangements of the same names start with the same name |
| `Names.SortedNames` | src/bull.js:32-36 | the sorted distinct names are duplicate-free and ascending, hold exactly the extracted names, and are empty exactly when there were no keys |
| `Names.Missing` | src/bull.js:101-102 | `s.filter(x => !other.includes(x))` holds exactly the elements of `s` absent from `other`, and stays duplicate-free |
| `Names.MissingAppend` | src/bull.js:101-102 | the filter keeps order: it distributes over concatenation |
| `Names.ReconciledNames` | src/bull.js:100-118 | the kept names followed by `addKeys` are duplicate-free and are exactly the freshly scanned names |
| `Names.SameNamesNoDiff` | src/bull.js:100-102 | when the registry and the scan hold the same names, `addKeys` and `removeKeys` are both empty |
| `Registry.Handle.constructor` | src/bull.js:104-110 | a new queue adapter answers `getName()` with the name it was built for |
| `Registry.NamesOf` | src/bull.js:100 | `queueList.map(q => q.getName())` has one name per handle, position by position |
| `Registry.Find` | src/bull.js:115 | `find` returns the first handle of the list that carries the requested name: no earlier handle carries it |
| `Registry.FindUnique` | src/bull.js:115 | when names are distinct, `find` returns the one handle of that name |
| `Registry.FindAppend` | src/bull.js:112-115 | handles pushed after the old ones never change which handle `find` returns for a name already present |
| `Registry.Drop` | src/bull.js:117 | the registry after `filter(queue => queue.getName() !== key)` for each removed key. It has no `ensures` of its own: `DropMembers`, `NamesOfDrop` and `DropStep` state what survives |
| `Registry.DropMembers` | src/bull.js:117 | a handle survives the `filter` calls exactly when its name was not removed |
| `Registry.NamesOfDrop` | src/bull.js:117 | the names left after filtering are the old names minus the removed ones, in order |
| `Registry.DropStep` | src/bull.js:114-118 | one more loop round filters out exactly one more name |
| `Registry.Reconciled` | src/bull.js:100-118 | the registry a successful refresh leaves: the kept old handles in their order, then the added ones. It has no `ensures` of its own: `ReconciledRegistry` and `ReconcileIdempotent` state its properties, and `Engine.Refresh` is proved to produce it |
| `Registry.ReconciledRegistry` | src/bull.js:100-118 | after refresh, the registry holds each scanned name exactly once. An old handle survives exactly when its name was scanned again, and no added handle is an old one |
| `Registry.ReconcileIdempotent` | src/bull.js:100-118 | reconciling a registry with the names it already holds adds nothing, removes nothing and leaves every handle in place |
| `Bull.BootstrapNames` | src/bull.js:32-48 | getBullQueues' names are non-empty, duplicate-free, ascending and exactly the extracted names. "No queue found." happens if and only if the scan returned no key |
| `Bull.Attempt` | src/bull.js:24-49 | the outcome of one getBullQueues call on a store, by names. It has no `ensures` of its own: `BootstrapNames` states its success and failure cases, and `GetBullQueues` is proved to return handles with exactly these names |
| `Bull.Retry` | src/bull.js:60-71 | what `backOff` resolves to: the outcome of the last attempt made. It has no `ensures` of its own: `Used` says which attempt that is, and `BackOff` is proved to resolve to it |
| `Bull.AddEvents` | src/bull.js:103-113 | the addQueue calls of the add loop, one per added handle, in order. It has no `ensures` of its own; `Engine.AddQueues` is proved to make exactly these calls |
| `Bull.RemoveEvents` | src/bull.js:114-118 | the removeQueue calls of the removal loop: for each removed name, in order, the handle `find` gives for it. It has no `ensures` of its own; `Engine.RemoveQueues` is proved to make exactly these calls, and `RemoveEventsAppend` shows the add loop does not change them |
| `Bull.SurvivorSilent` | src/bull.js:103-118 | a queue whose name is present both before and after refresh gets neither an addQueue nor a removeQueue call |
| `Bull.FirstSuccess` | src/bull.js:60-71 | from attempt `i` on, the retry loop ends one past the first success, or at the end of the budget when nothing succeeds |
| `Bull.Used` | src/bull.js:60-71 | the retry loop makes at least one attempt and stops at the first success; every earlier attempt failed, and only exhausting the budget ends it on a failure |
| `Bull.RemoveStep` | src/bull.js:114-118 | in each removal round, the name still has its original handle in the filtered list, and `find` returns that handle |
| `Bull.RemoveRound` | src/bull.js:117 | each removal round's `filter` removes exactly one more name from the registry |
| `Bull.RemoveEventsAppend` | src/bull.js:112-118 | handles pushed by the add loop do not change the removeQueue calls of the removal loop |
| `Bull.GetBullQueues` | src/bull.js:24-49 | returns one fresh handle per name of `BootstrapNames`, in sorted order, or the scan's or "No queue found." error |
| `Bull.BackOff` | src/bull.js:60-71 | resolves to the first successful attempt's handles or to the last attempt's error, after exactly `Used` attempts and their scan calls |
| `Bull.Engine.constructor` | src/bull.js:51-52 | at module load the flag is false and the registry undefined |
| `Bull.Engine.BullMain` | src/bull.js:53-78 | with the flag set, nothing changes and no scan is made. Otherwise the flag ends false; on success exactly one setQueues call is made with the sorted handles; on failure no call is made; the registry is never written |
| `Bull.Engine.BullMainCorrected` | src/bull.js:53-78 | as BullMain, except that on success the registry becomes the bootstrap list |
| `Bull.Engine.Refresh` | src/bull.js:82-124 | with the flag set, nothing changes and no scan is made. Otherwise the flag ends false and the scan calls are counted. A failed scan or an undefined registry ends the run before any change. In the remaining case the registry becomes the kept handles followed by one fresh handle per `addKeys` name, and the log gains one addQueue per added handle and then one removeQueue per `removeKeys` name |
| `Bull.Engine.Reconcile` | src/bull.js:100-118 | the two differences and both loops: new registry `Reconciled(reg, uniq, added)`, added handles named `addKeys`, log extended by the add then remove calls |
| `Bull.Engine.AddQueues` | src/bull.js:103-113 | each `addKeys` name gets a fresh handle, appended in order, with one addQueue each |
| `Bull.Engine.RemoveQueues` | src/bull.js:114-118 | each `removeKeys` name yields one removeQueue of its handle and is filtered out |
| `Bull.RefreshAfterBullMain` | src/bull.js:60 | as written, a successful bootstrap followed by a refresh of the same store ends in RegistryUndefined. The log of presentation-layer calls holds exactly one call, a setQueues with the bootstrap names |
| `Bull.RefreshAfterBullMainCorrected` | src/bull.js:60-72 | with the corrected bootstrap, the same refresh completes and issues no notification: the log still holds only the bootstrap's setQueues with the bootstrap names |
| `Bull.RefreshTwice` | src/bull.js:82-124 | a second refresh against an unchanged store completes with zero notifications and leaves the registry as it was |

## Findings

| source | as written | input that shows it | evidently intended | confidence | as-written member | corrected member |
|---|---|---|---|---|---|---|
| src/bull.js:60 | `const queueList = await backOff(...)` declares a block-local constant. It shadows the module-level `let queueList` (src/bull.js:52), so bootstrap never writes the registry, and every later refresh throws at `queueList.map` (src/bull.js:100) before adding or removing anything | a store whose scan returns the single key `bull:jobs:id`, bootstrap, then refresh | `queueList = await backOff(...)`, assigning the module registry so that refresh can reconcile it | high; not executed | `Bull.RefreshAfterBullMain` | `Bull.RefreshAfterBullMainCorrected` |

`Bull.Engine.BullMain` models the code as written. `Bull.Engine.BullMainCorrected` is the corrected bootstrap. The reconciliation properties of `Bull.Engine.Refresh` (the `Some` registry case) are reachable only through the corrected bootstrap.

## Left out

- The retry schedule of the `exponential-backoff` library: starting delay, maximum delay, multiplier, jitter and timing. The attempts are a sequence of stores, one per attempt, and the attempt budget is the length of that sequence. The library always makes at least one attempt, hence the requirement `|attempts| > 0`.
- The Redis client and its connection: `scan` is the sequence of replies. The `MATCH` filtering of keys happens in the store and is not modelled; the replies carry whatever keys the store returns. A store whose iteration never ends is excluded by `Completes`.
- Queue construction (`bullmq.Queue`, `BullMQAdapter`, `BullAdapter`) and the `BULL_VERSION` choice between them. A handle is an object carrying only its name, and handle construction cannot fail in the model.
- bull-board itself, the Express adapter, the router and `refreshRouter`'s redirect. The calls to `setQueues`, `addQueue` and `removeQueue` are recorded in `notifications` only.
- Regular-expression details: the prefix is taken to contain no regular-expression metacharacters, and the match is stated on characters.
- Sort order details: JavaScript compares UTF-16 code units, while the model compares Dafny characters (Unicode scalar values) lexicographically. The two orders differ only between characters outside the Basic Multilingual Plane and those in U+E000 to U+FFFF.
- Asynchronous interleaving: each call runs to completion. An engine whose `isRefreshing` is already true stands for another call suspended mid-run.
- Errors that `removeQueue(undefined)` could raise when the registry holds two handles of one name. The `Valid` invariant shows the registry never does.
- `console.log` and `console.error` output, configuration loading, and the `bullMain()` call at module load (src/bull.js:80). The model exposes that call as a method.
