# Models of the QEMU core in Dafny

This project models the parts of the xemu/QEMU tree whose correctness does not show in any single
function: the exclusive-section protocol between CPU threads, the block graph with its permissions,
transactions and references, the life cycle of jobs and job transactions, the image transformations of
`qemu-img`, and the QMP action transactions. `dafny verify dfyconfig.toml` checks everything.

| files | what they model |
|---|---|
| `CpuExclusive` | `start_exclusive`, `end_exclusive`, `cpu_exec_start` and `cpu_exec_end` as a state machine over any number of threads |
| `Digraph`, `Lists` | reachability and acyclicity; linked lists as sequences |
| `BlockGraph`, `BlockTraversal`, `BlockPerms`, `BlockRefresh` | nodes and `BdrvChild` edges, the graph walks, and what a consistent permission assignment is |
| `BlockUndo`, `BlockState`, `BlockEdits`, `BlockRelinks`, `BlockInherits`, `BlockLayer` | transactional edits: the undo log, the invariant of every step, and the operations, updated in place by the class `BlockLayer` |
| `AioContexts` | moving a connected part of the graph to another AioContext |
| `BlockReopen` | the reopen queue and the driver calls of a reopen; its edits of the graph are `BlockLayer.ReopenLinks` |
| `JobStates`, `JobSystem`, `JobPause` | status table, job transactions, and pause accounting under interleaving |
| `ImageBuffers`, `ImageRebase`, `ImageCompare`, `ImageConvert`, `ConvertParallel`, `ConvertCopy` | safe rebase, compare, sparse writes, the coroutines of convert, and what each of their steps does to the images |
| `QmpTransaction` | lists of snapshot and backup actions with commit, abort and clean, on top of the job layer |

Conventions. What a driver, a device or the scheduler decides is a parameter (a function value such as
`Drivers` or `Env`) or a nondeterministic step, so every statement holds for all their answers. An
assertion in the C code is a precondition or an `assert` here, and is therefore proved wherever it can be
reached. Permission masks are sets of bits. Operations that work step by step are class methods; the
concurrent protocols are state machines, and their theorems are about every state of every run.

## Where the code does not do what one might expect

Each of these is stated by lemmas, with a concrete case and the exact condition.

- A job transaction whose prepare phase fails is not atomic: the job that triggered the finalisation is
  not cancelled and commits, unless its own prepare failed (`JobSystem.CommitsIff`,
  `JobSystem.PrepareFailureSplits`).
- The abort of a job transaction never returns if another member has not been started
  (`JobSystem.JobSystem.TxnAbort`, `JobSystem.WaitCanEndIff`, `JobSystem.CancelOfTwoCreatedStalls`).
- So a grouped QMP transaction never returns if an action fails after at least two backups before it
  have succeeded; in every other case it returns with its drained sections balanced
  (`QmpTransaction.Transactions.Transaction`, `QmpTransaction.TwoBackupsHang`).
- Cancelling an unstarted job softly would take it from CREATED to WAITING, which the status table
  forbids (`JobSystem.CancelUnstartedAllowed`, `JobSystem.SoftCancelOfCreatedTrips`).
- `block_job_error_action` may drop the job mutex between counting a pause and setting `user_paused`. A
  user pause in that window is counted twice and undone once (`JobPause.CountIsExactIff`,
  `JobPause.OverlapHappens`).
- An I/O error between the reset of `iostatus` and the end of a resume or cancel leaves a failed job that is not
  paused, on which `qmp_cont` trips an assertion (`JobPause.IostatusIff`, `JobPause.StaleEndHappens`).
- `bdrv_reopen_multiple` takes a positive return value of a driver for success
  (`BlockReopen.ResolvedIff`, `BlockReopen.PositiveCodeIsCommitted`).
- The assertion of the safe rebase loop holds for every image if and only if the cluster size is a
  multiple of `write_align`, which with compression is the cluster size while space may be allocated in
  subclusters (`ImageRebase.ExtendedIsUnallocated`, `ImageRebase.AssertionCanFail`).
- The comment above `is_allocated_sectors` says that it returns true if and only if the first sector has
  a non-zero byte. The code also returns true exactly if the first sectors are zeroes and the first data
  after them is in the same alignment unit (`ImageConvert.IsAllocatedSectors`,
  `ImageConvert.ZeroReportedAsData`).

## Model

| member | source | states |
|---|---|---|
| `CpuExclusive.StepKeepsInv` | xemu-source/cpu-common.c:183-322 | every step of every thread, including each single read of `running` in the scan and spurious wakeups, keeps the protocol invariant, and says who owns the section afterwards |
| `CpuExclusive.RunKeepsInv` | xemu-source/cpu-common.c:183-322 | the invariant holds in every state of every run, for any number of CPUs |
| `CpuExclusive.MutualExclusion` | xemu-source/cpu-common.c:192-247 | while a thread is between the wait loop of start_exclusive and the reset in end_exclusive, no CPU executes, no other thread is in or entering a section, and nobody is counted |
| `CpuExclusive.WaiterAccounting` | xemu-source/cpu-common.c:205-228 | outside the scan and the decrement, pending_cpus is 0 with nobody counted or 1 plus the number of counted CPUs, and it is 0 exactly if nobody owns a section |
| `CpuExclusive.DecrementStaysPositive` | xemu-source/cpu-common.c:312-318 | the decrement in cpu_exec_end never makes pending_cpus 0 |
| `CpuExclusive.NoLostWakeup` | xemu-source/cpu-common.c:183-247 | with the mutex free, an exclusive waiter sleeps only while pending_cpus > 1 and a resume waiter only while it is not 0 |
| `CpuExclusive.SleepersAreAwaited` | xemu-source/cpu-common.c:183-322 | whenever a thread is asleep some thread can proceed, and with the mutex free it is the owner of the section or a CPU the owner waits for |
| `CpuExclusive.SectionIsReached` | xemu-source/cpu-common.c:183-322 | a run in which a thread counts an executing CPU, sleeps, is woken up by it, and enters its section |
| `CpuExclusive.EntryAssertions` | xemu-source/cpu-common.c:192-203 | the assertion at the head of start_exclusive holds, and the nesting count is positive exactly inside a section |
| `BlockGraph.RetargetWf` | xemu-source/block.c:2929-2990 | re-pointing an edge keeps parent lists, child lists and the backing and file pointers in agreement with the edges, and moves exactly one parent |
| `BlockGraph.NodeFollowsDetach` | xemu-source/block.c:1481-1497 | what detaching does to one node: lists and pointers agree with the edges afterwards |
| `BlockGraph.NodeFollowsAttach` | xemu-source/block.c:1439-1479 | what attaching does to one node whose slot is free: lists and pointers agree with the edges afterwards |
| `BlockGraph.SameEdgesSameGraph` | xemu-source/block.c:2413-2447 | graphs with equal edges agree on every backing and file pointer, and on every list up to order |
| `BlockTraversal.RecurseHasChild` | xemu-source/block.c:4308-4324 | returns true if and only if the child can be reached; ends because the graph is acyclic |
| `BlockTraversal.ShouldUpdateChild` | xemu-source/block.c:5204-5281 | returns true if and only if the edge is not stay-at-node and does not leave a node in the subtree of `to` |
| `BlockTraversal.TopologicalDfs` | xemu-source/block.c:2289-2312 | the list stays duplicate-free, closed under children and sorted parents first, gains exactly nodes below bs, and keeps the old list as its tail |
| `BlockTraversal.CollectSubtrees` | xemu-source/block.c:2609-2621 | the refresh list of several start nodes is sorted and consists of exactly their subtrees |
| `BlockPerms.CumPermIsJoin` | xemu-source/block.c:2623-2639 | a bit is in the cumulative permission if and only if some parent needs it |
| `BlockPerms.CumSharedIsMeet` | xemu-source/block.c:2623-2639 | a bit is in the cumulative shared mask if and only if every parent shares it |
| `BlockRefresh.PassedOnSettles` | xemu-source/block.c:2498-2568 | a node whose parents agree and whose out-edges got the values computed from its cumulative masks is settled, because none of its own edges leads back to it |
| `BlockRefresh.PassedNext` | xemu-source/block.c:2577-2599 | updating the next node of a sorted list leaves the earlier ones settled |
| `BlockRefresh.NoChoice` | xemu-source/block.c:2498-2599 | any consistent assignment has the masks that the pass has computed so far |
| `BlockRefresh.StuckIsUnsolvable` | xemu-source/block.c:2577-2599 | where the pass gives up, no consistent assignment of masks exists |
| `BlockRefresh.SolutionIsUnique` | xemu-source/block.c:2577-2599 | there is at most one consistent assignment below a set of nodes |
| `BlockRefresh.SatisfiableIff` | xemu-source/block.c:2609-2621 | whether one exists depends on the edges alone, not on the order of the lists |
| `BlockLayer.BlockLayer.GetCumulativePerm` | xemu-source/block.c:2623-2639 | computes the union of the parents' permissions and the intersection of what they share |
| `BlockLayer.BlockLayer.ParentPermsConflict` | xemu-source/block.c:2234-2258 | reports a conflict if and only if two distinct parents do not tolerate each other |
| `BlockLayer.BlockLayer.ChildSetPerm` | xemu-source/block.c:2335-2351 | installs the masks and logs the old ones; what an abort leads back to does not change |
| `BlockLayer.BlockLayer.NodeRefreshPerm` | xemu-source/block.c:2498-2568 | succeeds if and only if the node can live with its cumulative masks, and is then settled; only masks of its own out-edges change |
| `BlockLayer.BlockLayer.PassOn` | xemu-source/block.c:2553-2567 | afterwards every out-edge holds what the driver computes from the given cumulative masks |
| `BlockLayer.BlockLayer.DoRefreshPerms` | xemu-source/block.c:2577-2599 | succeeds if and only if a consistent assignment exists, and then installs it: at every listed node distinct parents are compatible, no unwritable node has write permission, and out-edges equal what the final cumulative masks give |
| `BlockLayer.BlockLayer.ListRefreshPerms` | xemu-source/block.c:2609-2621 | the same for the subtrees of any list of nodes, for any acyclic graph |
| `BlockLayer.BlockLayer.Unref` | xemu-source/block.c:7121-7131 | drops one reference and deletes the node with the last one; the count was positive |
| `BlockLayer.BlockLayer.ReplaceChildTran` | xemu-source/block.c:2468-2489 | re-points the edge, logs the old target, moves its reference to the log and takes one on the new target; the invariant and the abort outcome are kept |
| `BlockLayer.BlockLayer.AttachChildCommon` | xemu-source/block.c:3070-3162 | adds exactly one edge with a reference, or changes nothing when the AioContexts do not fit |
| `BlockLayer.BlockLayer.RemoveChild` | xemu-source/block.c:5301-5313 | empties the edge and dooms it to be freed on commit |
| `BlockLayer.BlockLayer.SetInheritsFrom` | xemu-source/block.c:3327-3343 | sets the pointer and logs the old one |
| `BlockLayer.BlockLayer.UnsetInheritsFrom` | xemu-source/block.c:3350-3374 | clears inherits_from at exactly those nodes for which some edge at or below the child is the last link to the root |
| `BlockInherits.OrphanedSplit` | xemu-source/block.c:3350-3374 | which nodes lose their last link below an edge, in terms of the edge itself and of the children of its target |
| `BlockUndo.LogReplace` | xemu-source/block.c:2468-2489 | logging the old target makes the log undo a replacement, and the log holds one more reference |
| `BlockUndo.LogAttach` | xemu-source/block.c:3016-3050 | logging the new edge makes the log undo an attachment |
| `BlockUndo.RemovedStaysEmpty` | xemu-source/block.c:5283-5313 | in every undoable log, a removed edge is still allocated and still empty when the commit frees it |
| `BlockState.UndoReplaceKeepsValid` | xemu-source/block.c:2421-2447 | undoing a replacement keeps lists, pointers and reference counts right |
| `BlockState.UndoAttachKeepsValid` | xemu-source/block.c:3016-3050 | undoing an attachment keeps lists, pointers and reference counts right |
| `BlockState.CommitKeeps` | xemu-source/block.c:2413-2419 | a commit callback keeps every reference accounted for: what the log held becomes a scheduled unref |
| `BlockState.DeletedIsUnreferenced` | xemu-source/block.c:7112-7154 | a deleted node has count 0: no edge points to it, no transaction holds it, no unref is pending, nobody owns it |
| `BlockState.TargetIsAlive` | xemu-source/block.c:7112-7154 | a node that an edge points to has a positive count and has not been deleted |
| `BlockLayer.BlockLayer.TranAbort` | xemu-source/util/transactions.c:60-79 | LIFO abort restores every edge (target, masks, existence) and every inherits_from pointer to what they were when the transaction began |
| `BlockLayer.BlockLayer.TranCommit` | xemu-source/util/transactions.c:81-100 | commit frees exactly the removed edges and schedules exactly the references that the log held |
| `BlockLayer.BlockLayer.RefreshAndFinalize` | xemu-source/block.c:2609-2621 | the common end of every operation: succeeds if and only if a consistent assignment exists; on success the graph is acyclic, free of conflicts and settled below the given nodes; on failure the edges and inherits_from are those before the transaction |
| `BlockLayer.BlockLayer.ChildTrySetPerm` | xemu-source/block.c:2697-2729 | success means that the masks are installed and everything below is settled, or that only a loosening was asked for and nothing changed; failure means nothing changed and it was a tightening; succeeds if and only if it is a loosening or a consistent assignment exists |
| `BlockLayer.BlockLayer.AttachChildNoperm` | xemu-source/block.c:3173-3200 | attaches if and only if the AioContexts fit and the new edge closes no cycle; the new edge has the masks the driver computes |
| `BlockLayer.BlockLayer.AttachChild` | xemu-source/block.c:3248-3279 | succeeds if and only if the contexts fit, no cycle is closed and a consistent assignment exists; failure is invisible; success adds one edge and settles everything below the parent; the reference of the caller is used up |
| `BlockLayer.BlockLayer.RootAttachChild` | xemu-source/block.c:3209-3238 | the same, with its exact condition, for an edge of a BlockBackend or job, which holds exactly the requested masks |
| `BlockLayer.BlockLayer.RootUnrefChild` | xemu-source/block.c:3282-3307 | the edge goes in any case; the loosened permissions are installed if and only if a consistent assignment for the remaining edges exists, and otherwise nothing else changes |
| `BlockLayer.BlockLayer.ReplaceNodeNoperm` | xemu-source/block.c:5322-5354 | succeeds if and only if every parent is movable and not frozen, or skippable; then exactly the movable parents point to `to`; the graph stays acyclic in any case |
| `BlockLayer.BlockLayer.ReplaceNode` | xemu-source/block.c:5369-5430 | succeeds if and only if the parents may be moved and a consistent assignment exists afterwards; failure is invisible; after success the parents left on `from` are exactly the stay-at-node edges and those in the subtree of `to` |
| `BlockLayer.BlockLayer.ReplaceAndDetach` | xemu-source/block.c:5369-5424 | with detach_subchain, the link to `to` in the chain of `from`, which must not be frozen, is removed as well; exact condition of success |
| `BlockLayer.BlockLayer.Append` | xemu-source/block.c:5464-5506 | exact condition of success; failure is invisible; success puts the new node on top and moves the movable parents to it |
| `BlockLayer.BlockLayer.SetFileOrBackingNoperm` | xemu-source/block.c:3442-3527 | succeeds if and only if the stated checks pass and the new link closes no cycle; the slot then holds the new link, and inherits_from is updated; any actions may already be in the open transaction |
| `BlockLayer.BlockLayer.SetBackingHdDrained` | xemu-source/block.c:3536-3558 | succeeds if and only if the checks pass, no cycle is closed and a consistent assignment exists; failure is invisible, including inherits_from; success replaces the backing link and settles everything below |
| `BlockLayer.BlockLayer.RelinkNext` | xemu-source/block.c:4699-4810 | one reopened node replaces its backing or file link in the common transaction, unless it leads to the new child already; cycles and implicit filters are refused; exactly when the request is accepted; what an abort leads back to does not change |
| `BlockLayer.BlockLayer.ReopenLinks` | xemu-source/block.c:4553-4650 | the links of the queued nodes are replaced in one transaction with one permission update of all queued nodes and the old children: succeeds if and only if every request is accepted in its turn and the resulting edges allow a consistent assignment; on failure at any point the edges and inherits_from are as before; on success every link leads to its new child, no other edge has changed but for masks, and everything below is settled |
| `BlockRelinks.RelinkStep` | xemu-source/block.c:3442-3527 | a replaced link leads to its new child, and leaves the links replaced earlier and all other edges alone |
| `BlockLayer.BlockLayer.UnrefBottomHalf` | xemu-source/block.c:7133-7154 | a pending unref deletes the node only if no edge points to it |
| `BlockLayer.BlockLayer.UnrefAndDelete` | xemu-source/block.c:7121-7154 | with the last reference the node is deleted: then no edge leads to it or from it, and the references that its links held are accounted for |
| `BlockLayer.BlockLayer.CloseNode` | xemu-source/block.c:5124-5147 | gives up exactly the links to the children, keeping every count right; the assertions that no backing or file link is left hold |
| `BlockLayer.BlockLayer.UnrefChild` | xemu-source/block.c:3377-3386 | one link goes, with its reference and the inherits_from pointers that rested on it |
| `BlockRelinks.PlaceUntouched` | xemu-source/block.c:4699-4810 | requests for different links do not change what each other finds |
| `BlockLayer.BlockLayer.NewNode` | xemu-source/block.c:411-440 | a new node with one reference keeps the invariant |
| `BlockEdits.RepointKeepsSubtree` | xemu-source/block.c:5322-5354 | re-pointing to `to` an edge from outside its subtree does not change that subtree |
| `BlockEdits.RepointAcyclic` | xemu-source/block.c:5204-5281 | and it closes no cycle |
| `BlockEdits.PutAcyclic` | xemu-source/block.c:3173-3200 | an edge whose target does not reach its owner closes no cycle |
| `Digraph.NewArcAcyclic` | xemu-source/block.c:3184-3188 | a new arc x to y keeps a graph acyclic if and only if y does not reach x |
| `BlockEdits.EditSucceeds` | xemu-source/block.c:2577-2621 | an edit, its permission update and its commit together leave the whole graph acyclic, without conflicting parents at any node, and without dangling edges |
| `BlockEdits.LeftOnFrom` | xemu-source/block.c:5322-5354 | which parents a replacement leaves behind |
| `AioContexts.AioLayer.ChangeContext` | xemu-source/block.c:7596-7637 | the recursion visits every edge at most once, collects each thing it passes only after all its edges are visited, and stays among connected things |
| `AioContexts.AioLayer.JobChange` | xemu-source/blockjob.c:147-171 | a job moves together with all its nodes |
| `AioContexts.AioLayer.TryChange` | xemu-source/block.c:7646-7683 | from a connected component with one context: everything connected gets the new context and nothing else, or nothing changes; it fails exactly if somebody connected refuses; every drained section is ended |
| `AioContexts.CollectedIsComponent` | xemu-source/block.c:7596-7637 | when the recursion ends, the collected nodes and jobs are exactly the connected component |
| `BlockReopen.QueueChild` | xemu-source/block.c:4350-4505 | the queue holds each node once, keeps its order, and gains exactly the nodes reached through children that inherit from their parent |
| `BlockReopen.Reopening.ReopenMultiple` | xemu-source/block.c:4553-4650 | which driver calls are made for any failure point; all queued nodes get their new flags or none does |
| `BlockReopen.Reopening.PrepareEntry` | xemu-source/block.c:4832-5054 | a failure after the driver has prepared calls the driver's abort at once |
| `BlockReopen.ResolvedIff` | xemu-source/block.c:4553-4650 | a node whose driver prepared gets exactly one commit or abort, and other nodes none, if and only if its driver did not return a positive value; never more than one |
| `BlockReopen.PositiveCodeIsCommitted` | xemu-source/block.c:4573-4581 | a driver that fails with a positive code is committed without having prepared |
| `JobStates.CompletedIsAbsorbing` | xemu-source/job.c:59-72 | in every history that respects the status table, completed statuses are absorbing |
| `JobStates.NullIsFinal` | xemu-source/job.c:59-72 | nothing follows NULL, which is reached from CREATED or CONCLUDED only |
| `JobStates.AbortingIsNotUndone` | xemu-source/job.c:59-72 | an aborting job only concludes |
| `JobStates.UnrefKeeps` | xemu-source/job.c:457-479 | a job is freed only in NULL and outside of any transaction |
| `JobStates.FinalsAt` | xemu-source/job.c:840-877 | each member of a finished transaction is committed or aborted once and then cleaned up, in list order |
| `JobSystem.JobSystem.Transition` | xemu-source/job.c:208-221 | a status change that the table allows is recorded; the assertion is a precondition that every caller meets |
| `JobSystem.JobSystem.FinalizeSingle` | xemu-source/job.c:840-877 | commits exactly if the job has neither failed nor been force-cancelled, removes it from its transaction, and ends it |
| `JobSystem.JobSystem.AwaitCompletion` | xemu-source/job.c:1236-1264 | waiting for one member of an aborting transaction ends if and only if it has been started or has completed, and keeps all members on their way to abort, whichever of them complete meanwhile |
| `JobSystem.JobSystem.TxnAbort` | xemu-source/job.c:923-963 | returns if and only if every other member has been started or has completed; then every member still in the transaction ends, all through abort, except that the triggering job commits if it has neither failed nor been force-cancelled; otherwise it waits for a cancelled member that nothing can complete; other transactions are untouched |
| `JobSystem.JobSystem.PrepareAll` | xemu-source/job.c:966-981 | calls prepare in order up to the first failure |
| `JobSystem.JobSystem.DoFinalize` | xemu-source/job.c:990-1002 | two phases: no commit unless all prepare callbacks before it returned 0; if all did, all members commit |
| `JobSystem.CommitsIff` | xemu-source/job.c:923-1002 | a member commits if and only if every prepare succeeded, or it is the trigger and another member failed to prepare; otherwise it aborts |
| `JobSystem.PrepareFailureSplits` | xemu-source/job.c:990-1002 | so a transaction is not atomic: a concrete pair of jobs of which one commits and one aborts |
| `JobSystem.TwoPendingIsValid` | xemu-source/job.c:1031-1055 | that pair of jobs is a valid state of the job layer |
| `JobSystem.JobSystem.TxnSuccess` | xemu-source/job.c:1031-1055 | waits while another member runs, else makes all members pending, and finalises them unless one wants to be finalised by hand |
| `JobSystem.JobSystem.JobCompleted` | xemu-source/job.c:1058-1069 | a member that failed or was force-cancelled takes the whole transaction through abort, and nobody commits; exactly when the call returns |
| `JobSystem.JobSystem.NewTxn` | xemu-source/job.c:114-120 | a new transaction has no members |
| `JobSystem.JobSystem.Create` | xemu-source/job.c:385-450 | a new job joins its transaction in CREATED |
| `JobSystem.JobSystem.Start` | xemu-source/job.c:1115-1129 | keeps the invariant; the job runs |
| `JobSystem.JobSystem.PausePoint` | xemu-source/job.c:603-636 | pausing goes to STANDBY from READY and to PAUSED otherwise |
| `JobSystem.JobSystem.WakeUp` | xemu-source/job.c:619-636 | waking up restores the status from before the pause |
| `JobSystem.JobSystem.BecomeReady` | xemu-source/job.c:1023-1028 | keeps the invariant; the job is READY |
| `JobSystem.JobSystem.RunReturns` | xemu-source/job.c:1096-1113 | keeps the invariant; the result is recorded until job_exit |
| `JobSystem.JobSystem.Exit` | xemu-source/job.c:1075-1090 | job_exit trips no assertion and has the outcome of job_completed_locked, whether or not other members have been started |
| `JobSystem.JobSystem.CancelJob` | xemu-source/job.c:1131-1157 | cancelling trips no assertion: an unstarted or finished job takes its transaction through abort, a running one is only marked, a concluded one is dismissed, a soft cancel of a finished one is ignored; exactly when the call returns |
| `JobSystem.JobSystem.UserCancel` | xemu-source/job.c:1159-1165 | accepted exactly in the statuses of the verb table |
| `JobSystem.JobSystem.CancelSync` | xemu-source/job.c:1187-1264 | a forced cancel that is waited for returns if and only if every other member has been started or has completed, and then the whole transaction has been aborted; the reference taken for the wait is given back |
| `JobSystem.JobSystem.FinalizeJob` | xemu-source/job.c:1004-1011 | accepted exactly in PENDING, and then two-phase |
| `JobSystem.JobSystem.DismissJob` | xemu-source/job.c:768-779 | accepted exactly in CONCLUDED; the job becomes NULL |
| `JobSystem.JobSystem.EarlyFail` | xemu-source/job.c:781-786 | a created job can be dropped |
| `JobSystem.JobSystem.Ref` | xemu-source/job.c:452-455 | one more outside reference |
| `JobSystem.JobSystem.Unref` | xemu-source/job.c:457-479 | the assertions on a job that is freed hold |
| `JobSystem.CancelUnstartedAllowed` | xemu-source/job.c:1131-1141 | cancelling an unstarted job is allowed by the status table if and only if the driver lets the cancel count as forced |
| `JobSystem.WaitCanEndIff` | xemu-source/job.c:1236-1264 | waiting for a job can end if and only if it has been started or has completed; the abort of a transaction hangs on any other member |
| `JobSystem.CancelOfTwoCreatedStalls` | xemu-source/job.c:923-963 | two created jobs in one transaction: cancelling either waits for the other, and that wait cannot end |
| `JobSystem.TwoCreatedIsValid` | xemu-source/job.c:385-450 | those two jobs are a valid state of the job layer |
| `JobSystem.SoftCancelOfCreatedTrips` | xemu-source/job.c:1131-1141 | a created job whose driver answers false would go to WAITING, which is not allowed |
| `JobStates.UnstartedIsFreed` | xemu-source/job.c:755-766 | an unstarted job whose transaction has been aborted is freed, unless somebody holds a reference |
| `JobPause.RunKeepsInv` | xemu-source/job.c:684-752 | in every run pause_count is one for an unstarted job, one if paused by the user, one per drained section, one per error action in its window, and one per overlap of two pauses |
| `JobPause.CountIsExactIff` | xemu-source/blockjob.c:609-622 | outside of an error action's window the count is exact if and only if no error action ended on a job that somebody else had paused meanwhile; it is never too low |
| `JobPause.AssertionsHold` | xemu-source/job.c:698-708 | no run trips the assertions of job_resume_locked, job_cancel_async_locked, or of block_job_iostatus_reset_locked when called by user_resume; the count is never negative |
| `JobPause.IostatusIff` | xemu-source/monitor/qmp-cmds.c:93-98 | the assertion of block_job_iostatus_reset_locked for a caller at any moment holds if and only if no resume or cancel ended on a job that had failed since its iostatus was reset |
| `JobPause.OverlapHappens` | xemu-source/blockjob.c:609-622 | a run in which a user pause and an error action overlap and one pause is never undone |
| `JobPause.StaleEndHappens` | xemu-source/job.c:734-752 | for a resume and for a cancel: a run in which an I/O error falls between the reset of iostatus and the end |
| `ImageBuffers.CompareBuffers` | xemu-source/qemu-img.c:1284-1309 | pnum is the longest prefix of whole chunks that all differ or all agree; an agreeing prefix is equal |
| `ImageBuffers.FindNonzero` | xemu-source/qemu-img.c:1153-1167 | -1 if and only if the buffer is zero; otherwise the first sector with a non-zero byte |
| `ImageRebase.Rebase` | xemu-source/qemu-img.c:3854-3972 | the overlay reads the same over the old backing file whatever fails and whenever; on completion it reads over the new backing file as it did over the old one; it fails only after an I/O error |
| `ImageRebase.CopyRegion` | xemu-source/qemu-img.c:3917-3969 | one region is settled without changing what is visible |
| `ImageRebase.CopyChunks` | xemu-source/qemu-img.c:3949-3965 | chunks that differ are copied from the old backing file, or zeroed beyond its end |
| `ImageRebase.WriteIs` | xemu-source/qemu-img.c:3953-3960 | a write allocates whole clusters, fills them up from the backing file and changes the visible content only in its range |
| `ImageRebase.ExtendedIsUnallocated` | xemu-source/qemu-img.c:3910-3915 | if clusters are a multiple of write_align, the extended region is unallocated, as the assertion demands |
| `ImageRebase.AssertionCanFail` | xemu-source/qemu-img.c:3910-3915 | for every other cluster size some image trips the assertion |
| `ImageCompare.Compare` | xemu-source/qemu-img.c:1511-1631 | without an I/O error 0 if and only if the zero-extended contents are equal, else 1; in strict mode 0 if and only if contents and sizes are equal and so is the block status at every offset where the loop looks at it |
| `ImageCompare.CompareChunk` | xemu-source/qemu-img.c:1517-1585 | one step over the common part decides equality of its range |
| `ImageCompare.CompareTail` | xemu-source/qemu-img.c:1604-1625 | the tail of the longer image must be zero |
| `ImageCompare.CheckEmptySectors` | xemu-source/qemu-img.c:1328-1349 | 0 for a zero range, 1 otherwise, 4 for a read error |
| `ImageConvert.IsAllocatedSectors` | xemu-source/qemu-img.c:1179-1230 | length in 1..n; a zero result means a zero prefix; a split ends on an alignment boundary; data is reported if and only if the first sector has data or the first data follows in its alignment unit |
| `ImageConvert.ZeroReportedAsData` | xemu-source/qemu-img.c:1169-1181 | a sector of zeroes before a sector of data is reported as data |
| `ImageConvert.IsAllocatedSectorsMin` | xemu-source/qemu-img.c:1237-1274 | the same, and data ends only before a long enough run of zeroes or trailing ones |
| `ImageConvert.CoWrite` | xemu-source/qemu-img.c:1877-1939 | the target then equals the source range, for every min_sparse, compressed and truthful has_zero_init, also when an earlier attempt has copied some of it; nothing else changes; on failure each byte is the old one or the source's |
| `ImageConvert.SelectPart` | xemu-source/qemu-img.c:1704-1714 | finds the source image that holds the sector; the assertion holds |
| `ImageConvert.IterationSectors` | xemu-source/qemu-img.c:1716-1821 | the next request is not empty, stays inside the image, has a status that fits all of it (ZERO only where the source reads as zeroes, BACKING_FILE only where it reads as the target's backing file, which is zero beyond its end), and consists of whole clusters when compressing |
| `ImageConvert.CopyRequest` | xemu-source/qemu-img.c:2029-2071 | reading and writing one request of any status makes the target, seen over its backing file, read as the source in that range |
| `ConvertParallel.StepKeepsInv` | xemu-source/qemu-img.c:1972-2093 | every step of every coroutine keeps the invariant |
| `ConvertParallel.ClaimsAreDisjoint` | xemu-source/qemu-img.c:1996-2023 | no sector is claimed twice |
| `ConvertParallel.SuccessCoversImage` | xemu-source/qemu-img.c:1972-2093 | on success every sector has been written |
| `ConvertParallel.SuccessCopiesImage` | xemu-source/qemu-img.c:1972-2093 | on success the target reads as the source, for every schedule of the coroutines and however much failed copy_range requests had copied |
| `ConvertCopy.Claim` | xemu-source/qemu-img.c:1999-2022 | what convert_iteration_sectors returns is a claim step of the coroutine, with a status that fits the whole claim |
| `ConvertCopy.Write` | xemu-source/qemu-img.c:2029-2071 | reading and writing a claim is a write step of the coroutine, and a successful one unless a request fails |
| `ConvertParallel.WritesInOrder` | xemu-source/qemu-img.c:2047-2071 | with wr_in_order, when any data of a request reaches the target everything before it has been written: for requests that succeed, fail or are retried, and also after another coroutine has failed |
| `ConvertParallel.WritesIncrease` | xemu-source/qemu-img.c:2047-2071 | so in every run the requests that touch the target do so in increasing sector order |
| `ConvertParallel.SleeperIsWokenAndCopySucceeds` | xemu-source/qemu-img.c:1972-2093 | a run for every image of two sectors in which a coroutine sleeps, is woken by the other, and the copy succeeds |
| `ConvertParallel.SleepersWillBeWoken` | xemu-source/qemu-img.c:2047-2088 | a coroutine asleep on sector x has an unfinished predecessor claim that ends at x, in every state, also after errors |
| `ConvertParallel.SomebodyIsAwake` | xemu-source/qemu-img.c:2047-2088 | so whenever a coroutine sleeps, one with an earlier claim is awake |
| `QmpTransaction.Transactions.PerformAll` | xemu-source/blockdev.c:2197-2205 | stops at the first failing action; exactly the effects of the registered entries exist, including their jobs in the job layer |
| `QmpTransaction.Transactions.CreateBackup` | xemu-source/blockdev.c:1732-1734 | the job joins the transaction of the group, or one of its own |
| `QmpTransaction.Transactions.CommitAll` | xemu-source/blockdev.c:1740-1746 | starts exactly the created backup jobs; the commit of the abort action is unreachable |
| `QmpTransaction.Transactions.AbortBackup` | xemu-source/blockdev.c:1748-1755 | cancelling a created job returns if and only if it is alone in its group, and then frees exactly that job |
| `QmpTransaction.Transactions.AbortAll` | xemu-source/blockdev.c:1528-1564 | ends if and only if it is not a group with two created jobs, and then has removed every overlay, internal snapshot and job |
| `QmpTransaction.Transactions.CleanAll` | xemu-source/blockdev.c:1757-1766 | ends each drained section that was begun, once |
| `QmpTransaction.Transactions.Transaction` | xemu-source/blockdev.c:2160-2220 | for every action list and failing position: returns if and only if it is not a group of backups in which the first failure comes after two successes; when it returns, drained sections balance, exactly the backup jobs run if every action succeeded, and otherwise jobs, snapshots and overlays are as before; when it does not, no job has been started and every section stays open |
| `QmpTransaction.MembersLive` | xemu-source/job.c:923-963 | in the job layer, the wait for the other members of a backup job of a group can end if and only if it is the only one |
| `QmpTransaction.TwoBackupsHang` | xemu-source/blockdev.c:2160-2220 | two backups that succeed and one that fails: as a group the call never returns, individually it does |

## Left out

- Weak memory: the memory barriers of the exclusive-section protocol are taken to make its steps sequentially consistent; fairness and liveness are not modelled.
- Work items queued on CPUs, CPU creation and removal during the protocol: the set of CPUs is fixed in a run.
- The polling of drained sections. A node whose last reference goes while a transaction is aborted is marked as deleted and keeps its out-edges; otherwise `BlockLayer.BlockLayer.UnrefAndDelete` closes it.
- BlockLayer.BlockLayer.CloseNode: requires that the driver has unfrozen the children, as the source demands of it; that the node has no driver afterwards is not modelled.
- BlockLayer.BlockLayer.AttachChildCommon: the AioContext moves inside it are one boolean, whether the contexts fit; they are modelled by themselves in `AioContexts`.
- AioContexts.AioLayer.TryChange: a call that passes an ignored child, and the contexts that BlockBackends keep, are not modelled.
- bdrv_refresh_limits, drain counters inside graph edits, and bdrv_replace_child_bs, whose caller must rule out cycles.
- bdrv_inherits_from_recursive is a boolean parameter of the set-backing operations, because a cycle of inherits_from pointers is not excluded there; which slot a new child fills is a parameter, too.
- BlockReopen.Reopening.ReopenMultiple: that the links are replaced and the permissions updated are booleans there; `BlockLayer.BlockLayer.ReopenLinks` models these steps on the graph.
- BlockLayer.BlockLayer.RootUnrefChild: the return of the detached node to the main AioContext is not modelled.
- Options, flags parsing and the order of precedence in the reopen queue; drain balance when a node is queued for reopen twice.
- JobSystem.JobSystem.AwaitCompletion: only members of the same transaction act while the job layer waits; callbacks do not call back into the job layer.
- JobSystem.JobSystem.CancelJob: requires that a forced cancel stays forced and that an unstarted job is not cancelled softly, because the second trips the transition assertion (`JobSystem.CancelUnstartedAllowed`).
- JobSystem.JobSystem.Exit: the extra reference that job_exit holds is not modelled, because nothing uses the job after the last step.
- Progress, events, notifiers, speed limits and the sleep timer of jobs; a wake-up that depends on the timer is nondeterministic in `JobPause`.
- ImageRebase.Rebase: the capacity of the I/O buffers is not modelled, only their content; blk_pwrite_zeroes is a write of zeroes that allocates.
- ImageConvert.CopyRequest: reading returns the content of the source; salvage mode, which replaces unreadable sectors by zeroes, is only modelled for the block status.
- How a copy_range request copies: that it copies its range or fails after some of it is a step of `ConvertParallel`.
- QmpTransaction.Transactions.Transaction: dirty-bitmap actions have no modelled effect, and the names of earlier jobs differ from those of the new ones.
- Option parsing, file names, error messages, tracing, block drivers, BlockBackend, dirty bitmaps, and every other file of the repository.
