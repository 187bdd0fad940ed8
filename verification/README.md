# tuddofs in Dafny

A model of the parts of tuddofs that carry its guarantees, with proofs of what those parts promise.

tuddofs keeps file trees as commits in PostgreSQL. A *ref* names a tip commit; a *heads cache* holds the tip's files;
branches are forked from mount refs, changed by optimistic writers, merged back by a three-way merge and finally
collected. A *sync engine* mirrors a branch onto a target machine, where an agent runs commands, and captures what they
change. Files travel in pax archives, are named by SHA-256 digests of canonical byte strings, and appear in shell
command lines and scan output.

Content is identified with its digest: a `Sha` is a number, a commit row is its content, and the facts that make this
fair, the injectivity of both preimages, are proved in `Hashing`.

## Files

| file | models |
|---|---|
| `Coherence`, `Ordering` | `src/validation.ts`: which two files no tree may hold together |
| `Trees`, `Kernel` | what write, delete, capture and restore make of a tree, as pure plans and as the code's loops |
| `CommitGraph`, `GcSweep` | the commit graph and the batched child-first commit sweep |
| `Merge` | the three-way merge |
| `Stale` | when a plan made over one tree, or a cache row left in place, still fits another |
| `Store`, `StoreInvariants` | the commit protocol as steps that interleave, and what all of them keep |
| `Serializability`, `Caches` | exactly when a run is a serial run of its published requests, when every cache is its tip's tree, and when every tree is coherent |
| `MergeOrder` | merge steps of a mount's branches, in any order |
| `RestoreSource` | a restore between finding its source commit and reading it |
| `Provenance` | what merges and publications leave in a ref's history, and the engine's records next to the store's own runs |
| `Retry`, `Races` | the compare-and-swap loop over tables other transactions change; where the guarantees end |
| `Lineage` | `heldInLineage` and `createdByNewestWrite` over `history` and `diff` |
| `GcLease` | the shared and exclusive tenant lock between storage-backed writers and the object sweep |
| `Slot` | the one-in-flight capture slot, as events and as a class |
| `Mirror`, `Engine` | the sync engine's head, disk, index and pending writes, as a transition function and as a class |
| `MirrorLaws`, `MirrorRuns`, `StragglerGuard`, `ExecOutput` | convergence of reconcile, both bounds of the straggler guard, and when an exec's output survives |
| `MirrorHistory` | the engine's record of a path's past is the commit graph's |
| `Batching` | grouping of files into bounded calls |
| `Bytes`, `Sequences` | numerals, `indexOf`, `split` and `join` |
| `TarFields`, `TarHeader`, `TarArchive`, `TarParser`, `TarLaws` | the pax writer and parser, and their laws |
| `TarForeign`, `Utf8` | exactly which archives the parser accepts, whoever wrote them, and what it makes of them |
| `Hashing` | tree and commit preimages, object keys |
| `Shell`, `Scan` | shell quoting, mirror directory names, path validation and scan records |
| `Prelude` | `Option` and `Result` |

Imperative code stays imperative. Loops are methods proved against functions; the tables, the engine and the slot are
classes whose methods state their whole new state. Protocols are state machines: `Enabled` says when a step may happen,
`Apply` or `Next` what it does, and laws are proved over runs of any length.

## What was found

Statements the code or its comments suggest that are not true as they stand, each with its exact condition:

- An archive round trip loses a leading byte order mark of a path. `TarLaws.RoundTrip` holds if and only if no path
  starts with one.
- A compare-and-swap tests the tip alone. A branch settled between a writer's `loadRef` and its swap still moves
  (`Races.SettledBranchCanMove`); a branch seen open is there and open throughout if and only if no step settled it
  (`Races.OpenUntilSettled`). Being there and open at the end is not enough, since a name can be forked again.
- A branch that is collected and forked again between those two points lets a stale writer through
  (`Races.RecreatedRefCanDrift`). The collector deletes a branch's heads rows and the branch in two statements, and a row a
  writer inserts in between outlives the branch, to be found by a later fork of its name
  (`Races.LeftoverRowsCanDrift`). The heads caches stay the tips' trees if and only if the rows each publication leaves
  alone are those its writer loaded, which is always so for a capture and a restore, and the rows each fork finds under its
  name are rows of the tree it starts from (`Stale.StaleCacheStands`, `Caches.CachesDriftExactly`). Trees stay coherent if
  and only if what each publication keeps of its writer's heads is coherent (`Caches.TreesStayCoherentExactly`); right
  caches see to that, and rows of two lives of a name may not (`Races.LeftoverRowsCanBreakCoherence`). A new tree is the
  request applied to the replaced tip's tree if and only if what the request keeps of the loaded heads is what it keeps of
  that tip (`Stale.StalePlanStands`). All three hold of any run in which no ref is made under a name that a writer in
  flight has loaded or that has heads rows left (`Caches.FreshRunsStand`); none are left if no ref is written to during
  its collection (`Caches.QuietRunsStayFresh`).
- A restore finds its source commit in one statement and reads its tree in the next. Swept in between, the commit is read
  as having no files, and an empty tree is published (`RestoreSource.RestoreCanLoseItsSource`). A restore's tree is the
  named commit's if and only if the commit was still there to be read, or empty (`StoreInvariants.ReadIsIntact`); it is
  there if it is below a ref that lives on, or younger than every sweep's cutoff (`RestoreSource.KeptSourceIsIntact`).
- A collector whose database session is lost keeps deleting objects without its lock. Committed rows keep their objects
  if and only if each such deletion hits no key a row names and each later commit still finds its objects
  (`GcLease.RowsStayBacked`); rows and lock holders do if and only if each hits neither a named nor a held key
  (`GcLease.RunsStaySound`). `GcLease.LostSessionUndercutsWriter` and `GcLease.LostSessionUndercutsRow` are the two ways
  it goes wrong.
- A write that landed without being confirmed, followed by one that was lost, is captured as a change and reverts the
  durable write (`StragglerGuard.LandedThenLostIsReverted`). `MirrorRuns.ReconcileKeepsHead` gives the exact condition
  under which a reconcile keeps the branch's version of a path, `MirrorRuns.ReconcileKeepsDisk` the target's.
- A capture fixes its restage list when it has scanned and writes the list later, and a command does not wait for it. A
  file on the list is put back to the branch's bytes over what the command left there, and the command's bytes are in no
  commit (`ExecOutput.OvertakenOutputIsLost`). What an exec left at a path outlives the next reconcile if and only if no
  capture it overtook goes on to write a restage list with the path on it, or the bytes are the branch's
  (`ExecOutput.ExecOutputSurvives`, `ExecOutput.ExecOutputIsWhole`).
- A command the host ran itself is not preceded by restaging either, so what it left at a path whose mirror write had
  failed is written over. `ExecOutput.HostOutputSurvives` says exactly when it outlives the next reconcile.
- The chunkers' comment says a full-sized file keeps a chunk of its own. A file larger than the bound does; one of
  exactly the bound joins a call if and only if that call is open and holds empty files only (`Batching.FullFileShares`).

## Model

| member | source | states |
|---|---|---|
| `Coherence.FindPathCollision` | src/validation.ts:99-113 | An existing file collides with a path exactly when one is returned; it is the ancestor nearest the root if there is one, else the least file below the path. |
| `Coherence.FindMaskedPaths` | src/validation.ts:124-135 | The result lists exactly the existing files that cannot stand beside the path, in both directions. |
| `Coherence.FindTreeCoherenceCollisions` | src/validation.ts:141-160 | Every prefix pair of the set and nothing else, in ascending order; empty if and only if the set is coherent. |
| `Trees.CaptureKeepsCoherence` | src/kernel.ts:2078-2108 | A capture of a coherent batch over a coherent tree is coherent, whatever it writes and deletes. |
| `Trees.PlanKeepsCoherence` | src/kernel.ts:1870-1883 | No operation turns a coherent tree into an incoherent one. |
| `Trees.RestoreUndoes` | src/kernel.ts:2208-2220 | No operation commits the tree it found, and restoring the commit it replaced gives back that tree, modes included. |
| `Trees.DeleteUndoesCreation` | src/kernel.ts:2342-2347 | Deleting, under its digest, a file just created gives back the tree there was before. |
| `Kernel.PlanWrite` | src/kernel.ts:1870-1905 | A write is refused for its precondition exactly when the path does not hold what `ifSha` says, then as invalid exactly when some file collides with it, and for nothing else; it changes nothing exactly when the path already holds the digest; accepted, the path holds the digest with the mode it had or 0644, and every other path is as it was. |
| `Kernel.PlanDelete` | src/kernel.ts:2342-2347 | A delete goes through if and only if the path is present and holds what `ifSha` says; then the path is gone, in every case every other entry is as before, and the two refusals tell an absent path from a mismatch. |
| `Kernel.PlanRestore` | src/kernel.ts:2208-2220 | The tree afterwards, published or found in place, is the source commit's, modes included; nothing is published exactly when it is already there; refused exactly when there is no source. |
| `Kernel.DropMasked` | src/kernel.ts:2080 | After the masking loop exactly the files no written path collides with are left. |
| `Kernel.SetWritten` | src/kernel.ts:2081-2102 | Every written path holds its last digest and the mode the head had; every other kept file is untouched. |
| `Kernel.PlanCapture` | src/kernel.ts:2027-2112 | A capture is refused exactly when two of its writes collide, and the final collision check never fires; else each written path holds its last content with the mode the head had, and of the other paths those are gone that it deletes or that a write collides with. |
| `Kernel.CaptureByPath` | src/kernel.ts:2078-2102 | The same of the capture rule itself, path by path. |
| `Kernel.NothingCollidesWithAWrite` | src/kernel.ts:2103-2108 | Self-collision rejection and masking together remove every collision, whatever the head held. |
| `CommitGraph.ReachesSame` | src/kernel.ts:940-968 | Ancestry of a commit depends only on its ancestors, so stores that agree on those agree on it. |
| `CommitGraph.AncestorsAreStored` | src/kernel.ts:942-950 | In a store without missing parents every ancestor of a stored commit is stored. |
| `GcSweep.Depth` | src/kernel.ts:977-995 | Every doomed commit has a longest chain of doomed descendants, so `max(depth)` is defined. |
| `GcSweep.ChildIsShallower` | src/kernel.ts:977-995 | A doomed child sorts strictly before its doomed parent. |
| `GcSweep.ChildrenOfDoomedAreDoomed` | src/kernel.ts:967-976 | Everything built on a doomed commit is doomed, given that bases are ancestors of tips. |
| `GcSweep.BatchKeepsClosed` | src/kernel.ts:990-1001 | No batch of any size leaves a surviving commit with a missing parent. |
| `GcSweep.BatchKeepsRest` | src/kernel.ts:937-1005 | A batch changes neither what is protected nor what else is doomed. |
| `GcSweep.SelectBatch` | src/kernel.ts:990-996 | For any limit there is a first batch in the statement's order, and it has the size the limit asks for. |
| `GcSweep.BoundariesAreClosed` | src/kernel.ts:990-1010 | Every store any sequence of batches passes through is closed and keeps what the roots protect, whatever the limit. |
| `GcSweep.SweepCommits` | src/kernel.ts:937-1010 | The loop ends; every store it commits on the way is the one before it less a first batch, is closed and keeps all the roots protect; the survivors are exactly the ancestors-or-self of a ref tip or of a commit inside the grace period, and the count is right. |
| `Merge.MergePath` | src/session.ts:2061-2077 | One path ends as ours if ours changed it and otherwise as theirs; it clashes exactly when both changed it differently; no other path moves. |
| `Merge.ChosenSettles` | src/session.ts:2061-2077 | A path clashes exactly when nothing is left that both sides' changes allow; otherwise the rule chooses the one thing that is. |
| `Merge.MergePaths` | src/session.ts:2059-2078 | The loop settles every path of the three trees independently of order. |
| `Merge.CollidingPaths` | src/session.ts:2083-2087 | Both ends of every prefix collision and no other path; none exactly when the merged tree is coherent. |
| `Merge.MergeTrees` | src/session.ts:2053-2102 | A merge goes through if and only if no path clashes and the result is coherent, and then it is the per-path tree; otherwise the conflicts are exactly the offending paths, each with the digest it has in the base, in the branch and in the mount. Merged, each path is as the one side left it that changed it, as both did, or as it was. |
| `Merge.MergeIsSymmetric` | src/session.ts:2059-2078 | Exchanging ours and theirs changes neither the result, nor whether there is one, nor the paths in conflict. |
| `Merge.CollisionsJoinTwoAdditions` | src/session.ts:2083-2098 | In a conflict-free merge of coherent trees every collision is between a file added by one side only and a file added by the other only. |
| `Merge.MergeAllFrom` | src/session.ts:2050-2150 | Merging branches one after another succeeds exactly when they agree path by path and the tree of all their changes is coherent, and leaves that tree. |
| `Merge.MergeOrderIsIrrelevant` | src/session.ts:2050-2150 | Branches of one tip merge in every order or in none and leave the same map of path to digest and mode. |
| `MergeOrder.JoinOrderIsIrrelevant` | src/session.ts:2050-2150 | On the named trees: whether all branches of a mount's tip can be joined, and the trees and states that leaves, is the same in every order. |
| `MergeOrder.MergeRunsCommute` | src/session.ts:1980-2150 | If a run of merge steps merges all those branches, a run in any other order exists, and any two leave the same trees, bases and states under every name. |
| `Stale.StalePlanStands` | src/kernel.ts:1870-1934 | A plan over the heads a writer loaded is the plan over another tree if and only if the two trees agree in what the request keeps and the request's `ifSha` holds there too; a restore keeps nothing. |
| `Stale.StaleCacheStands` | src/kernel.ts:1933-1934 | The rows a publication leaves in the cache are its new tree if and only if it rewrites all of them or the untouched ones are those its writer loaded. |
| `StoreInvariants.BasesAreReached` | src/kernel.ts:1674-1677 | A branch's base is always an ancestor of its tip, as the sweep needs. |
| `StoreInvariants.SweepKeepsRefs` | src/kernel.ts:937-1005 | A swept commit is below no ref, whatever writers are in flight. |
| `StoreInvariants.SweepKeepsRooted` | src/kernel.ts:937-1005 | A sweep batch in the middle of a run changes no ref and no ref's tree, and leaves no commit without its parent. |
| `StoreInvariants.PublisherCanAdvance` | src/kernel.ts:1886-1934 | A writer whose swap passes adds one commit on the tip it replaces, newer than it, with its base still below. |
| `StoreInvariants.StepKeepsRooted` | src/kernel.ts:1845-1977 | Every step, under any names, keeps the graph closed, every tip and base stored and connected, and every row's content its id's for good. |
| `StoreInvariants.StepKeepsLinks` | src/kernel.ts:2208-2220 | A restoring writer's source is a commit there was; what it has read of it is that commit's tree or, had the commit gone by then, no files; and whatever is collected meanwhile leaves it so. A branch in a collector's hands stays settled until it goes. |
| `StoreInvariants.ReadIsIntact` | src/kernel.ts:2208-2213 | Reading the source's tree yields the tree of the commit the request names if and only if the commit is still stored at that statement or its tree is empty. |
| `StoreInvariants.StepKeepsIntact` | src/kernel.ts:2213-2250 | No later step changes that. |
| `Serializability.PublishRefines` | src/kernel.ts:1845-1977 | A publication performs its request on the tree it replaces if and only if what the request keeps of the loaded heads is what it keeps of that tree and, for a restore, the source had not gone. |
| `Serializability.ForkRefines` | src/kernel.ts:1629-1695 | A fork, of a new or a used name, starts at the mount's tree with that tree as base and changes no other ref. |
| `Serializability.MergeRefines` | src/session.ts:2103-2150 | As far as named trees go, a merge moves the mount to the merged tree and settles the branch in one step. |
| `Provenance.MergeJoinsLineages` | src/session.ts:2124-2133 | A merge moves the mount exactly when its tree changes, and then what is below the mount's new tip is the new commit, all that was below the mount and all that was below the branch, and nothing else. |
| `Provenance.MergedStaysStored` | src/session.ts:2124-2133 | After such a merge every commit of the branch's history stays stored, and below the mount, for as long as the mount lives, though the branch be collected. |
| `Provenance.MergeJoinsWhatWasHeld` | src/session.ts:2124-2133 | The mount's history then holds a digest at a path exactly if the mount's or the branch's did. |
| `Provenance.StepSigns` | src/kernel.ts:599-664 | Every row a step adds carries the author and time of that step, and an operation that fits its number of parents. |
| `Provenance.RunsSign` | src/kernel.ts:599-664 | So in every run writes, deletes, captures and restores have one parent, merges two and imports none, and there are no others; this is what the search for a creating write goes by. |
| `Provenance.PublishIsNext` | src/kernel.ts:1906-1934 | A publication is the next commit of its ref, signed with the name of its own kind of request, its author and its time, and loses nothing below the ref. |
| `Provenance.PublishBirths` | src/sync/engine.ts:727-753 | After a publication a path it changed counts as created by its newest write exactly if the request is a write and the replaced tip lacked the path; every other path counts as before; and the history holds what the new tree holds and what it held before. |
| `Provenance.PublishedStaysStored` | src/kernel.ts:937-968 | No sweep whose cutoff lies before a publication's time takes its commit, whatever becomes of the ref. |
| `Provenance.PublishPerforms` | src/kernel.ts:1886-1934 | A write or capture that stands does to its ref's graph what the engine's model of the kernel says, under its own operation. |
| `Provenance.TurnKeepsAgreement` | src/sync/engine.ts:811-1037 | A step of the store elsewhere, an event of the engine that commits nothing, or an event together with the publication of what it asks for, keeps the engine's records those of its ref's history. |
| `Provenance.PlayKeepsAgreement` | src/sync/engine.ts:719-753 | So over any run of store and engine together, with other writers, merges and sweeps in between. |
| `Serializability.SweepRefines` | src/kernel.ts:937-1005 | A sweep batch changes nothing the store means. |
| `Serializability.EveryStepRefines` | src/kernel.ts:1845-1977 | Each of the thirteen kinds of step performs exactly the action it is labelled with; a publication exactly when it stands on the tip it replaces. |
| `Serializability.RunsKeepRooted` | src/kernel.ts:1845-1977 | In every run no commit is missing a parent, no tip or base is missing, and no inserted row's content changes. |
| `Serializability.RunsAreSerial` | src/kernel.ts:1845-1977 | Any interleaving of writers, forks, merges and collection, names made again included, is at every point a serial run of its published requests if and only if every publication stands on the tip it replaces. |
| `Serializability.PublishReplacesItsParent` | src/kernel.ts:1886-1934 | A new tip's only parent is the tip it replaced; a restore's tree is that of the commit it names if and only if that was there to be read, or empty; for any request the tree is the request applied to the parent's tree, with any `ifSha` matching, if and only if the publication stands. |
| `Caches.LoadedHeadsAreTheTip` | src/kernel.ts:678-705 | Digests from the cache and modes from the tip's tree together are the tip's tree. |
| `Caches.StepCaches` | src/kernel.ts:911-935 | Every step, the collector's two deletions apart and with anything in between, keeps every cache its tip's tree; a publication if and only if the rows it leaves alone are those its writer loaded, a fork if and only if the rows it finds under its names are rows of the tree it starts from. |
| `Caches.StepTrees` | src/kernel.ts:1870-1883 | Every step keeps every tree ever committed coherent, caches right or wrong; a publication if and only if what it keeps of its writer's heads is coherent. |
| `Caches.EveryStepKeepsCaches` | src/kernel.ts:1924-1934 | A sound store stays sound, caches, trees and rows left behind, through a step if and only if the caches do. |
| `Caches.CachesDriftExactly` | src/kernel.ts:911-935 | In every run, names made again and collections disturbed included, all caches are right at every point if and only if every publication and every fork meets its condition. |
| `Caches.TreesStayCoherentExactly` | src/kernel.ts:1870-1883 | In every run all trees are coherent at every point if and only if every publication keeps coherent heads. |
| `Caches.RightCachesMakeCoherentTrees` | src/kernel.ts:678-705 | Where the caches are right throughout, so are the trees. |
| `Caches.FreshStepsStand` | src/kernel.ts:1845-1977 | A step that creates no ref under a name a writer in flight has loaded or heads rows are left of keeps the whole invariant and performs its action, a restore if and only if its source had not gone. |
| `Caches.FreshRunsStand` | src/kernel.ts:1845-1977 | Caches never drift over runs of such steps, and those are serial if and only if no restore lost its source. |
| `Caches.StepLeavesNothing` | src/kernel.ts:911-935 | A collector takes every heads row with its ref if the ref is not written to between its two deletions. |
| `Caches.LockedRowsStay` | src/kernel.ts:911-935 | Between its two deletions no publication changes a row the collector has deleted. |
| `Caches.QuietRunsStayFresh` | src/kernel.ts:911-935 | So names are fresh in every run in which no ref is written to during its collection and none is made that a writer in flight has loaded. |
| `Caches.RunsFromEmptyAreSound` | src/kernel.ts:678-705 | From an empty store no commit is ever missing a parent; caches are right, trees coherent and runs serial throughout, each exactly when its condition holds of every step; right caches make coherent trees; and quiet runs meet all but a restore's. |
| `Retry.StepsAreRelied` | src/kernel.ts:1845-1977 | Every step of the protocol is a change a writer relies on; every one that does not create its ref again, with no cache adrift, is one it keeps its heads through. |
| `Retry.PlanRequest` | src/kernel.ts:2103-2108 | All four operations follow their plans, and the internal-error exit is unreachable. |
| `Retry.InsertCommit` | src/kernel.ts:599-664 | Equal commits share a row; a new row is numbered after every parent. |
| `Retry.Tables.Run` | src/kernel.ts:1845-1977 | With arbitrary transactions between its statements a request is published at most once, on the tip it replaced. Any other answer publishes nothing and is what the plan over the tables of the last attempt says: no such ref, settled, refused or no change; a conflict means every attempt planned a change and found the ref moved. |
| `Retry.Tables.Try` | src/kernel.ts:1850-1940 | One turn either answers as its own loaded tables demand or found the ref moved and left everything alone. |
| `Retry.RefusalsAreTheTips` | src/kernel.ts:1870-1885 | A refusal is what the request would get on the tip of the moment the heads were loaded, or on no files if the ref had gone with its rows; so is a no-op other than a restore's. |
| `Retry.Tables.LoadSource` | src/kernel.ts:2208-2213 | Two statements with anything in between: nothing if the commit is not there at the first, else what is left of its tree at the second. |
| `Retry.Tables.Publish` | src/kernel.ts:1886-1934 | The swap, the cache update and the commit leave the ref, its parent link, its tree, its operation, author and time agreeing with the request, a restore with the tree of the commit it names exactly when that was there to be read or empty, and the cache and the plan exactly when the loaded heads allow. |
| `Races.TipOnlyGrows` | src/kernel.ts:1924-1928 | Until a ref is collected its tip's row number never falls. |
| `Races.TipNeverRecurs` | src/kernel.ts:1924-1928 | A tip a ref has left never becomes its tip again, so an unchanged tip means an unmoved ref. |
| `Races.OpenUntilSettled` | src/kernel.ts:1863 | A branch seen open is there and open throughout any run, up to its end, if and only if no settling or merging step of it came in between. |
| `Races.SettledBranchCanMove` | src/kernel.ts:1924-1928 | A run in which a branch abandoned after `loadRef` still advances. |
| `Races.RecreatedRefCanDrift` | src/kernel.ts:1924-1933 | A run from the empty store in which a branch collected whole and forked again ends with a cache that is not its tip's tree: a publication's condition does fail. |
| `Races.LeftoverRowsCanDrift` | src/kernel.ts:911-935 | A run from the empty store in which a publication that stands in every respect comes between a collector's two deletions; with no writer in flight, a fork of the name then has a cache that is not its tip's tree. |
| `Races.LeftoverRowsCanBreakCoherence` | src/kernel.ts:911-935 | That run goes on to commit a tree that holds a file and a file inside it. |
| `RestoreSource.RunKeepsBelow` | src/kernel.ts:937-968 | What is below a ref stays stored, and below it, for as long as the ref lives. |
| `RestoreSource.KeptSourceIsIntact` | src/kernel.ts:2208-2213 | A restore whose source is below a ref that lives on, or younger than every cutoff, reads its source's own tree, whatever runs between its two statements. |
| `RestoreSource.RestoreCanLoseItsSource` | src/kernel.ts:2208-2250 | A run from the empty store in which a restore of a commit with a file, swept after it was found, commits no files. |
| `Lineage.HolderWasIntroduced` | src/sync/engine.ts:719-726 | Below every commit holding a digest lies one whose first-parent delta mentions it. |
| `Lineage.CreatedByNewestWrite` | src/sync/engine.ts:748-753 | The answer is yes exactly when the newest commit of the lineage that touches the path is a write whose parent lacks it. |
| `Lineage.HeldInLineage` | src/sync/engine.ts:727-740 | The search over first-parent deltas of the history rows finds a digest if and only if some commit reachable through any parents holds it at that path. |
| `GcLease.StepBacksRows` | src/kernel.ts:1214-1276 | One step, a lost session and what follows it included, leaves every committed row its object if and only if a deletion without the lock hits no named key and new rows find their objects. |
| `GcLease.StepKeepsInv` | src/kernel.ts:1214-1276 | One step keeps the objects of rows and of the shared lock's holders if and only if a deletion without the lock hits no key a row names and none a holder has stored or confirmed. |
| `GcLease.RowsStayBacked` | src/kernel.ts:1214-1276 | In every interleaving, lost sessions included, no committed blob row loses its object if and only if every step meets that first condition. |
| `GcLease.RunsStaySound` | src/kernel.ts:1214-1276 | In every interleaving rows and holders keep their objects throughout if and only if every step meets the second. |
| `GcLease.RunsFromEmptyStayBacked` | src/kernel.ts:1214-1276 | From the empty store, as long as no collector loses its session, no committed row ever loses its object. |
| `GcLease.DoomedStaysUnnamed` | src/kernel.ts:1240-1260 | An object the sweep may delete is named by no row and relied on by no writer until the lock is released or lost. |
| `GcLease.FullSweepLeavesTheNamed` | src/kernel.ts:1214-1262 | A collection that lists every object and is not disturbed leaves all rows but the unused ones it deleted, and exactly the objects those rows name; orphaned quarantine objects go with the rest. |
| `GcLease.SweepCanFinish` | src/kernel.ts:1236-1262 | Such a sweep can always be carried through. |
| `GcLease.LostSessionUndercutsWriter` | src/kernel.ts:1218-1276 | A run in which a lost session lets the sweep delete an object no row names yet, and a writer that had confirmed it commits it afterwards. |
| `GcLease.LostSessionUndercutsRow` | src/kernel.ts:1218-1276 | A run in which the row is committed first and the deletion then takes its object. |
| `Slot.NextKeepsInv` | src/sync/slot.ts:39-112 | Every event keeps the slot's accounting of bodies, triggers and promises. |
| `Slot.SlotIsSafe` | src/sync/slot.ts:39-112 | At most one body runs; a free slot has nothing pending and no trigger uncaptured; any unresolved promise is the current one with its body running. |
| `Slot.SettleIsComplete` | src/sync/slot.ts:65-71 | When `settle` returns every trigger so far has had a capture that started after it and has ended. |
| `Slot.WaitersWake` | src/sync/slot.ts:49-71 | No waiter is stranded: the running body's end resolves its promise or starts the capture owed to later triggers. |
| `Slot.TriggersCoalesce` | src/sync/slot.ts:39-46 | Any number of triggers during one body yields exactly one follow-up capture that covers them all. |
| `Slot.FailureReleasesLikeSuccess` | src/sync/slot.ts:77-88 | Over any run, whichever captures fail, the same events can happen and the same slot is left, but for the failure count. |
| `Slot.FailuresAreCounted` | src/sync/slot.ts:34-36 | The counter is the number of failed captures since the last success, over any run. |
| `Slot.FreshSlotIsSafe` | src/sync/slot.ts:25-37 | From a new slot, after any events: at most one body, nothing owed once free, and an exact failure count. |
| `Slot.CaptureSlot.TriggerCapture` | src/sync/slot.ts:39-46 | The method makes the trigger transition and keeps the fields tied to the observed history. |
| `Slot.CaptureSlot.CaptureEnded` | src/sync/slot.ts:73-89 | The end of a capture either starts the one owed capture or frees the slot. |
| `Slot.CaptureSlot.ExclusiveBegins` | src/sync/slot.ts:49-55 | Exclusive work takes a free slot under a new promise. |
| `Slot.CaptureSlot.ExclusiveEnded` | src/sync/slot.ts:56-62 | Its end frees the slot, starts a drain if triggers came in, and resolves its promise. |
| `MirrorLaws.CaptureIsTheKernels` | src/sync/engine.ts:940-950 | The head the engine's model moves to is the digests of the tree the kernel's capture builds. |
| `MirrorLaws.NextKeepsInv` | src/sync/engine.ts:811-1037 | Every engine event keeps the index equal to the branch's digests and both sides coherent. |
| `MirrorLaws.CommittedEntry` | src/sync/engine.ts:950-956 | After a capture each path's index entry is the captured digest, the old entry if its file did not change, or gone with its file. |
| `MirrorLaws.CapturedCopies` | src/sync/engine.ts:811-970 | What head, disk and index hold for a path after any capture, by the list the path was on. |
| `MirrorLaws.CapturedPath` | src/sync/engine.ts:848-905 | After an authoritative capture head and disk agree on every path: on the disk's content unless the path was restaged, then on the branch's. |
| `MirrorLaws.CaptureIsItsParts` | src/sync/engine.ts:811-970 | Scan, restaging and commit with nothing in between are the whole capture. |
| `MirrorLaws.ReconcileConverges` | src/sync/engine.ts:1030-1037 | After a successful reconcile disk, branch head and index hold exactly the same files with nothing outstanding, whatever they held before. |
| `MirrorRuns.RunKeepsInv` | src/sync/engine.ts:811-1037 | The index stays a cache of the branch through every interleaving of writes, mirror outcomes, commands and their output, the scans, restagings and commits of captures, reconciles, and what fails part way with files torn or unrecorded. |
| `MirrorRuns.RunThenReconcile` | src/sync/engine.ts:1030-1037 | Any run ending in a reconcile ends with the three copies equal. |
| `MirrorRuns.ReconcileKeepsHead` | src/sync/engine.ts:848-892 | A reconcile keeps the branch's version of a path if and only if the path was dirty, did not diverge, or its divergence is excused by the epoch guard or by the resume guard; otherwise it takes the disk's. |
| `MirrorRuns.ReconcileKeepsDisk` | src/sync/engine.ts:848-892 | A reconcile leaves what the target holds at a path if and only if it is the branch's version or the path is neither dirty nor excused by a guard. |
| `MirrorRuns.ExecOwns` | src/sync/engine.ts:633-663 | After an exec nothing is left that could be put back over its output if and only if no capture in flight has a file to restage. |
| `MirrorRuns.ExecOutputIsKept` | src/sync/engine.ts:640-663 | Then, with no later write, any captures leave the disk alone, and a reconcile succeeds with head and disk both exactly what the exec left. |
| `ExecOutput.CommitsDecides` | src/sync/engine.ts:913-956 | A capture's commit ends the danger to a diverged dirty path if and only if it notices the path: it commits the file, its absence, or a file in its place. |
| `ExecOutput.ScanLists` | src/sync/engine.ts:848-895 | Which list a scan puts a diverged path on that no guard covers: changed if it listed the file, deleted if it listed everything else, never restaged. |
| `ExecOutput.RestagesDecides` | src/sync/engine.ts:910 | A restage list puts the branch's bytes at the paths on it, whatever is there by then, and leaves every other path alone. |
| `ExecOutput.StepDecides` | src/sync/engine.ts:811-1014 | How each event changes what the target holds at a path no guard covers, whether it is listed, and whether it is about to be written over: other files' events not at all. |
| `ExecOutput.OutputSurvives` | src/sync/engine.ts:811-1037 | Over any run, with any capture in flight at its start: when what the target holds at such a path outlives the run and the reconcile after it. |
| `ExecOutput.RunningOutputSurvives` | src/sync/engine.ts:1016-1023 | The same of a file a command writes or removes while it is still running. |
| `ExecOutput.HostOutputSurvives` | src/sync/engine.ts:1025-1028 | What a command of the host's left at a path with no write in flight outlives the next reconcile if and only if it is the branch's version, or no capture it overtook writes the path from its restage list and the path was not dirty or was noticed by a commit in between. |
| `ExecOutput.HostExecExcuses` | src/sync/engine.ts:657-663 | After such a command a divergence is excused only for an unconfirmed write still in flight, with the path absent or at its last confirmed digest. |
| `ExecOutput.ExecOutputSurvives` | src/sync/engine.ts:1016-1023 | What an exec left at a path outlives the next reconcile, whatever happens to other files meanwhile, if and only if no capture it overtook goes on to write a restage list with the path on it, or the bytes are the branch's. |
| `ExecOutput.ExecOutputIsWhole` | src/sync/engine.ts:1016-1037 | All an exec left is what the next reconcile commits, if and only if no such list differs from it anywhere. |
| `ExecOutput.OvertakenOutputIsLost` | src/sync/engine.ts:848-910 | A run, for any path and digests: a scan between a write and its landing, then an exec, then the restage list; the exec's bytes are gone from the target and were never committed. |
| `StragglerGuard.ScanHolds` | src/sync/engine.ts:848-895 | No scan puts a path whose mirror writes were lost in the current epoch on the list to commit or to delete. |
| `StragglerGuard.CommitsHolds` | src/sync/engine.ts:913-956 | A commit of lists without the path leaves it as it is, whatever came in between. |
| `StragglerGuard.CaptureHolds` | src/sync/engine.ts:848-892 | So no whole capture commits or deletes it. |
| `StragglerGuard.LostWritesWin` | src/sync/engine.ts:657-666 | From a confirmed or absent path, any run with no exec in which none of its mirror writes lands or is torn ends, once reconciled, with head and disk at its last write, whatever happens to files that do not stand in its way. |
| `StragglerGuard.LandedThenLostIsReverted` | src/sync/engine.ts:990-999 | A run of two writes, the first landed and the second lost, after which reconcile puts the branch back to the first. |
| `MirrorHistory.OthersChangeNothing` | src/sync/engine.ts:679-726 | Commits and collection on other refs change neither answer about this one. |
| `MirrorHistory.NextBorn` | src/sync/engine.ts:748-753 | A commit on top of the tip makes a path born if it is a write that created it, unborn if it otherwise changed it, and leaves every other path as it was. |
| `MirrorHistory.EventIsRecorded` | src/sync/engine.ts:811-1037 | After each event of the engine its lineage and births are again those of the graph it committed to. |
| `MirrorHistory.HistoryIsTheEngines` | src/sync/engine.ts:719-753 | Over any run, next to any activity on other refs, the digests and creations the engine goes by are exactly those of the ref's history. |
| `MirrorHistory.WarmReconcile` | src/sync/engine.ts:693-753 | A mount taken over from an earlier process keeps the branch's version of a path exactly where the target holds something the branch's history held there, or lacks a file whose newest change created it; elsewhere the target's version is committed. |
| `MirrorHistory.Ask` | src/sync/engine.ts:727-753 | `heldInLineage` and `createdByNewestWrite`, put to that history, answer as the engine's model does. |
| `Engine.SyncEngine.Hydrate` | src/sync/engine.ts:463-575 | A cold mount starts with disk, index and branch equal. |
| `Engine.SyncEngine.Write` | src/sync/engine.ts:977-1014 | A write makes the write transition: the entry is guarded against the last confirmed digest, not the last written one. |
| `Engine.SyncEngine.Mirrored` | src/sync/engine.ts:999-1011 | A mirror write's outcome changes only the disk, or only the dirty mark, and its own in-flight record. |
| `Engine.SyncEngine.NoteExec` | src/sync/engine.ts:657-663 | The loop re-stamps exactly the unconfirmed entries with a write still in flight, so every other guard expires. |
| `Engine.SyncEngine.MaterializeRequests` | src/sync/engine.ts:428-461 | The requested files are on disk with the branch's bytes and clean in the index; nothing else changes. |
| `Engine.SyncEngine.RestageDirty` | src/sync/engine.ts:668-676 | Exactly the dirty files are written again. |
| `Engine.SyncEngine.ClassifyOne` | src/sync/engine.ts:848-881 | A scanned file is confirmed, restaged or captured as the verdict function says, and only a confirmation touches its entry. |
| `Engine.SyncEngine.ClassifySeen` | src/sync/engine.ts:848-881 | The loop's confirmations and two lists are those of the whole scan, whatever order it visits files in. |
| `Engine.SyncEngine.ClassifyMissing` | src/sync/engine.ts:882-895 | The files an authoritative scan did not list are split into lost writes and deletions. |
| `Engine.SyncEngine.Commit` | src/sync/engine.ts:949-956 | The index follows the paths the commit reports, and forgets the deleted ones. |
| `Engine.SyncEngine.Scan` | src/sync/engine.ts:811-895 | A capture up to its first write confirms what it saw and fixes the three lists. |
| `Engine.SyncEngine.WriteRestageList` | src/sync/engine.ts:910 | The restage list is written with the branch's bytes of that moment, and is then empty. |
| `Engine.SyncEngine.CommitLists` | src/sync/engine.ts:911-968 | The changed files are fetched as they then are and committed with the deletions; with both lists empty nothing is committed. |
| `Engine.SyncEngine.Capture` | src/sync/engine.ts:811-970 | The three together, uninterrupted, make the capture transition and keep the invariant. |
| `Engine.SyncEngine.Exec` | src/sync/engine.ts:1016-1023 | An exec restages dirty files first and closes every guard before its output appears. |
| `Engine.SyncEngine.Reconcile` | src/sync/engine.ts:1030-1037 | The method ends with head, disk and index equal. |
| `Batching.WriteFilesBatched` | src/sync/engine.ts:354-380 | The calls concatenate to the input in order, and each file joins the call before it exactly when it may. |
| `Batching.WriteEach` | src/sync/engine.ts:356-362 | Without the batch verb each file is its own call, in order. |
| `Batching.MaterializeRequests` | src/sync/engine.ts:428-461 | Two nested chunkers issue the calls one would, and record exactly the files sent, in order. |
| `Batching.ChunkIsBounded` | src/sync/engine.ts:372-378 | A call carries at most the bound or is a single file larger than it. |
| `Batching.ContentIsBounded` | src/sync/engine.ts:372-378 | A call for more than one file sends at most 32 MiB of content, and brings back as little from a target whose claimed sizes are right. |
| `Batching.FullFileEndsItsCall` | src/sync/engine.ts:376-377 | A file of the bound or more ends its call and shares it with nothing but empty files, and with those only if it is exactly the bound. |
| `Batching.FullFileShares` | src/sync/engine.ts:372-378 | A file of exactly the bound joins the last call if and only if that call holds empty files only; otherwise it opens its own. |
| `Batching.CallsAreBounded` | src/sync/engine.ts:354-380 | The number of calls is at most twice the bytes over the bound, plus one. |
| `Batching.GreedyIsUnique` | src/sync/engine.ts:372-378 | The rule determines the grouping: no two groupings of the same files satisfy it. |
| `Batching.ChunkIsOneCall` | src/sync/engine.ts:442-447 | A chunk formed by the outer loop is sent by the inner one as exactly one call. |
| `Batching.ReadChunk` | src/sync/engine.ts:406-417 | An answer is used only if it holds every file the call asked for; otherwise the error names one that is missing. |
| `Batching.ReadFilesBatched` | src/sync/engine.ts:393-425 | Requests are grouped by claimed size under the same rule, and either every call was answered in full or the result is an error. |
| `Batching.FetchedIsComplete` | src/sync/engine.ts:388-425 | What a completed reading holds is exactly the requested paths, so no answer can shrink a capture. |
| `Bytes.DigitsReadBack` | src/sync/tar.ts:245-249 | A numeral reads back as its number and has no leading zero. |
| `Bytes.DigitCount` | src/sync/tar.ts:245-249 | A number fits a field of k digits exactly when it is below the base to the k. |
| `Sequences.SplitOfJoin` | src/sync/tar.ts:157-164 | Splitting undoes joining when no piece holds the separator. |
| `Sequences.JoinOfSplit` | src/sync/paths.ts:288-306 | Joining undoes splitting, always. |
| `TarFields.ReadNumber` | src/sync/tar.ts:294-311 | The running base-256 loop and the octal form yield the field's value or refuse it at the first overflow. |
| `TarFields.OctalReadsBack` | src/sync/tar.ts:294-311 | A zero-padded octal field with its terminator reads back as its value. |
| `TarFields.RecordLength` | src/sync/tar.ts:205-214 | Every text has a length that counts itself, between two more and four more than twice its size, and this is the least. |
| `TarFields.PaxPathRecord` | src/sync/tar.ts:205-214 | The loop ends for every path at that least length. |
| `TarFields.ParsePaxRecords` | src/sync/tar.ts:313-343 | The loop reads all records, a later key over an earlier one, or refuses the payload at the first bad record. |
| `TarFields.PaxRecordReadsBack` | src/sync/tar.ts:205-214 | A path's record reads back as the one key `path` with the same bytes, newlines and equals signs included. |
| `TarFields.ArchivePathBySegments` | src/sync/tar.ts:157-164 | A path passes exactly when it has no NUL and every stretch between slashes and ends is a name other than the two dot names. |
| `Utf8.WellFormedIsUtf8` | src/sync/tar.ts:373-379 | The decoder accepts exactly the sequences of encoded Unicode scalar values, as RFC 3629 has them. |
| `TarHeader.CreateHeader` | src/sync/tar.ts:216-237 | The buffer written in place is the ustar header of the standard, refused exactly for an oversized member or name. |
| `TarHeader.VerifyChecksum` | src/sync/tar.ts:276-283 | The summing loop accepts exactly the headers whose stored sum is that of their blanked bytes. |
| `TarHeader.HeaderReadsBack` | src/sync/tar.ts:216-237 | A written header passes checksum, magic and version checks, states its size and type, and is never a zero block. |
| `TarArchive.WriteMember` | src/sync/tar.ts:46-64 | A member is refused for the first reason that applies to it, else written as an extended and a plain header, each with padded payload. |
| `TarArchive.WritePaxTar` | src/sync/tar.ts:42-68 | An archive is written if and only if every member is writable; otherwise the error is the first unwritable member's. |
| `TarParser.ReadPayload` | src/sync/tar.ts:262-268 | A payload slice and the offset after its padding lie inside the archive. |
| `TarParser.ReadBlock` | src/sync/tar.ts:91-151 | Every turn moves forward by whole blocks inside the archive, so the parser ends on every input. |
| `TarParser.ParsePaxTar` | src/sync/tar.ts:78-155 | The loop computes the parse of the archive, for any caller's path checks; what that parse is the next rows say. |
| `TarForeign.ParseIsExact` | src/sync/tar.ts:78-155 | An archive, whatever tool wrote it, is accepted exactly when it is made of well-formed extended headers and safely, distinctly named regular files and ends in two zero blocks and nothing else; the result is each file's path and bytes, in order. |
| `TarForeign.PlainFileParses` | src/sync/tar.ts:359-366 | A file with no path attribute is named by its header: the name of at most 100 bytes, below the prefix of at most 155 if there is one. |
| `TarForeign.PathAttributesOverride` | src/sync/tar.ts:127-144 | A path attribute goes before the header's name, a local one before a global one and for the next file only. |
| `TarForeign.ItemIsATurn` | src/sync/tar.ts:91-151 | An item in its place takes the loop to the next one with its attributes or its member added; a file not safely and distinctly named is refused. |
| `TarForeign.TurnIsAnItem` | src/sync/tar.ts:91-151 | And whatever takes the loop further is such an item. |
| `TarForeign.NumberIsStated` | src/sync/tar.ts:294-311 | A field is read as a number exactly when it states that number, in octal digits with only NULs and spaces after them or in base 256, and a double holds it exactly. |
| `TarForeign.HeaderIsChecked` | src/sync/tar.ts:276-292 | A header passes exactly when its checksum field states the sum of its other bytes and eight spaces, and it bears the ustar magic and version. |
| `TarForeign.PayloadIsRecords` | src/sync/tar.ts:313-343 | An extended header's payload is accepted exactly when it is a list of records, each with a non-empty ASCII key and a length that counts the record itself. |
| `TarForeign.WrittenHeader` | src/sync/tar.ts:216-237 | A header the project writes states mode 0644, no owner and no time, its size and its checksum, where the standard has those fields, and nothing else. |
| `TarLaws.SlicesAreDisjoint` | src/sync/tar.ts:146-150 | Member payloads are disjoint slices of the archive, in order and in bounds, on every input. |
| `TarLaws.SlicesAreTheMembers` | src/sync/tar.ts:146-150 | An accepted archive yields one member for each slice, holding exactly the slice's bytes. |
| `TarLaws.TruncationIsCaught` | src/sync/tar.ts:97-114 | If a prefix is accepted, the whole archive is accepted with the same members or refused for data after its terminator. |
| `TarLaws.NoPartialMap` | src/sync/tar.ts:70-77 | An archive and a prefix of it that are both accepted yield the same members. |
| `TarLaws.ParseMembers` | src/sync/tar.ts:91-151 | From any member on, a written archive parses to its remaining members up to the decoder's dropped marks, for any path checks. |
| `TarLaws.RoundTrip` | src/sync/tar.ts:42-155 | Parsing what was written gives exactly what was written if and only if no path begins with a byte order mark. |
| `TarLaws.WrittenPrefixesAreRejected` | src/sync/tar.ts:70-77 | Every proper prefix of a written archive is rejected, for any path checks. |
| `Hashing.TreePreimage` | src/hashing.ts:51-67 | The bytes are the entries' own, each once, ascending by path; it is refused exactly when some path is invalid, and the error names one. |
| `Hashing.TreeTextIsPinned` | src/hashing.ts:51-67 | Split at its NULs, a tree's text is the entries' paths, modes and digests in order, each digest ended by a newline. |
| `Hashing.DecimalReadsBack` | src/hashing.ts:59 | The mode field reads back, in base ten, as the mode, and has no leading zero. |
| `Ordering.LessAtFirstDifference` | src/hashing.ts:64 | One path sorts before another exactly when it has the lesser byte where they first differ, or ends there. |
| `Hashing.EntryIsAPrefixCode` | src/hashing.ts:58-61 | One entry can be read off the front of any text that starts with one, so newlines in paths are harmless. |
| `Hashing.TreePreimageNamesTheTree` | src/hashing.ts:51-67 | Two trees of distinct paths have the same preimage if and only if they hold the same entries, in whatever order they were given. |
| `Hashing.CommitPreimage` | src/hashing.ts:79-96 | The string grown in the loop is the commit's pieces joined by NUL; a bad timestamp is refused. |
| `Hashing.CommitTextIsPinned` | src/hashing.ts:79-96 | Split at its NULs, a commit's text is the tree, the parents in order, author, agent kind, thread, run, time and operation, each line with its tag. |
| `Hashing.CommitPreimageNamesTheCommit` | src/hashing.ts:79-96 | Two commits with NUL-free fields have the same preimage if and only if they are the same, null counting as empty, newlines anywhere. |
| `Hashing.NulSlidesBetweenFields` | src/hashing.ts:92 | With a NUL in a field two different commits share a preimage. |
| `Hashing.CasKeysAreDistinct` | src/hashing.ts:44-46 | No two pairs of tenant and digest share an object key, whatever the tenants' names. |
| `Hashing.CasKeyParts` | src/hashing.ts:44-46 | A key names the store's own directory, then the tenant, then the digest. |
| `Shell.QuotedIsOneWord` | src/sync/paths.ts:101-103 | Whatever the value and the delimiter after it, the shell reads the quoted text as one word, the value. |
| `Shell.LineReadsBack` | src/sync/paths.ts:192-200 | A command line of quoted values reads back as exactly those values: none ends the command, splits or expands. |
| `Shell.NestedReadsBack` | src/sync/paths.ts:101-103 | Quoting nested to any depth is undone by as many shells. |
| `Scan.ValidPathsAreKernelPaths` | src/validation.ts:52-80 | The chain of syntax checks accepts exactly slash-led paths of non-empty, non-dot names within the byte limit. |
| `Scan.ParseScanRecords` | src/sync/paths.ts:308-322 | Every record reads or the whole output is refused; none is dropped. |
| `Scan.ScanReadsBack` | src/sync/paths.ts:308-322 | A printed scan of any number of files reads back as exactly their mounts, paths and digests, in order. |
| `Scan.RecordIsPlaced` | src/sync/paths.ts:288-322 | A record is accepted exactly when it is a digest, two blanks, a known directory and, below it, a valid path of names none of which is empty or a dot name. |
| `Scan.AcceptedRecordsAreInside` | src/sync/paths.ts:288-306 | Whatever a target prints, an accepted record names a file strictly inside a known mount, with no empty or dot segment. |
| `Scan.MountKeyReadsBack` | src/sync/paths.ts:82-95 | A mount key survives its directory name. |
| `Scan.DirNameReadsBack` | src/sync/paths.ts:91-95 | An accepted directory name survives its mount key if and only if it holds no colon. |

## Left out

- SQL text, schemas and connection pools: a statement, or a transaction holding an explicit lock, is one step, and what a transaction has written shows when it commits. Deadlocks end in a withdrawal or an abort.
- Grants, virtual mounts, session caching, event hooks and error text: a refused operation publishes nothing.
- SHA-256, Unicode normalisation and UTF-8 lengths: content stands for its digest; the last two are function parameters.
- Order of strings: `Ordering.Less` compares characters; JavaScript's order of UTF-16 units and the order of UTF-8 bytes are each this order on their own units.
- Commit attribution: agent kind, thread and run are folded into the author in `CommitGraph`; `Hashing` has them all.
- The commit hash stored beside a row, and the stale one a no-change reply carries.
- Sweeps of tree and blob rows: only the commit sweep and the object sweep are modelled.
- Tag refs and session pins: only branches and mounts are refs here.
- Object ages and the grace window, which only shrink what the object sweep may delete.
- Stream hashing, quarantine contents and presigned requests: an upload is an object appearing under its key.
- Mirror and Engine: one writable mount, one file system; the loop over mounts, read-only mounts, direct uploads and scan stamps are not modelled.
- Mirror.Next: a scan and the sorting of what it saw are one event, as are fetching and committing, and a commit and the index update after its reply.
- Engine.SyncEngine.Exec: settling, restaging and starting are one event; a write that slips in between is the host-exec event with that write in flight. Failures part way, and what a command writes later, are events of `Mirror` and not methods of the class.
- MirrorHistory.HistoryIsTheEngines: the branch moves only by the engine's own writes and captures; merges and other sessions move other refs. The same goes for `Provenance.PlayKeepsAgreement`.
- The operation name a caller of the kernel may pass for a write or a delete in place of the usual one; no session does.
- Paths with line terminators at hydration and reconcile, which `glob` does not list.
- Targets without the batch read verb, which are asked for one file at a time.
- Tar prefix normalisation and the messages and offsets of its errors: the caller's checks are one predicate on paths.
- String sorting in `treePreimage` is by insertion; the result does not depend on the method.
- Shell words: variables, globbing, comments and double quotes end the model's reading, since quoted values never reach them unquoted.
- parseSizeRecords, resolveUnderRoot and the command builders around the quoted values.
- Retry budgets, timeouts, memory limits and clocks.
