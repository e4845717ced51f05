/** Job statuses and verbs, the tables that govern them, and the bookkeeping that every step of the
    job layer keeps. */
module JobStates {

  import opened Lists

  datatype Status =
    | Undefined | Created | Running | Paused | Ready | Standby | Waiting | Pending | Aborting | Concluded | Null

  datatype Verb = Cancel | Pause | Resume | SetSpeed | Complete | Finalize | Dismiss | Change

  /** JobSTT */
  predicate Allowed(s0: Status, s1: Status) {
    match s0
    case Undefined => s1 == Created
    case Created => s1 == Running || s1 == Aborting || s1 == Null
    case Running => s1 == Paused || s1 == Ready || s1 == Waiting || s1 == Aborting
    case Paused => s1 == Running
    case Ready => s1 == Standby || s1 == Waiting || s1 == Aborting
    case Standby => s1 == Ready
    case Waiting => s1 == Pending || s1 == Aborting
    case Pending => s1 == Aborting || s1 == Concluded
    case Aborting => s1 == Aborting || s1 == Concluded
    case Concluded => s1 == Null
    case Null => false
  }

  /** JobVerbTable */
  predicate Accepts(v: Verb, s: Status) {
    match v
    case Cancel => !s.Undefined? && !s.Aborting? && !s.Concluded? && !s.Null?
    case Complete => s.Ready? || s.Standby?
    case Finalize => s.Pending?
    case Dismiss => s.Concluded?
    case Pause => s.Created? || s.Running? || s.Paused? || s.Ready? || s.Standby?
    case Resume => s.Created? || s.Running? || s.Paused? || s.Ready? || s.Standby?
    case SetSpeed => s.Created? || s.Running? || s.Paused? || s.Ready? || s.Standby?
    case Change => s.Created? || s.Running? || s.Paused? || s.Ready? || s.Standby?
  }

  /** job_is_completed_locked */
  predicate Completed(s: Status) {
    s.Waiting? || s.Pending? || s.Aborting? || s.Concluded? || s.Null?
  }

  /** All statuses that a job has had, oldest first. */
  predicate RespectsTable(h: seq<Status>) {
    h != [] && h[0] == Undefined && forall i :: 0 <= i < |h| - 1 ==> Allowed(h[i], h[i + 1])
  }

  /** A completed job never leaves the completed statuses. */
  lemma {:induction false} CompletedIsAbsorbing(h: seq<Status>, i: nat, k: nat)
    requires RespectsTable(h) && i <= k < |h| && Completed(h[i])
    ensures Completed(h[k])
  {
    if i < k {
      CompletedIsAbsorbing(h, i, k - 1);
      assert Allowed(h[k - 1], h[k - 1 + 1]);
    }
  }

  /** Nothing comes after NULL, and it is reached from CREATED or CONCLUDED only. */
  lemma NullIsFinal(h: seq<Status>, i: nat)
    requires RespectsTable(h) && i < |h| && h[i] == Null
    ensures i == |h| - 1 && i > 0 && (h[i - 1] == Created || h[i - 1] == Concluded)
  {
    assert i < |h| - 1 ==> Allowed(h[i], h[i + 1]);
    assert Allowed(h[i - 1], h[i - 1 + 1]);
  }

  /** A job that commits its result (PENDING to CONCLUDED) was WAITING before, never ABORTING. */
  lemma {:induction false} AbortingIsNotUndone(h: seq<Status>, i: nat, k: nat)
    requires RespectsTable(h) && i <= k < |h| && h[i] == Aborting
    ensures h[k] == Aborting || h[k] == Concluded || h[k] == Null
  {
    if i < k {
      AbortingIsNotUndone(h, i, k - 1);
      assert Allowed(h[k - 1], h[k - 1 + 1]);
    }
  }

  // ------------------------------------------------------------------------------------------
  // Jobs and transactions

  type JobId = int
  type TxnId = int

  const NO_TXN: TxnId := -1
  const ECANCELED: int := 125

  datatype Job = Job(
    status: Status, ret: int, cancelled: bool, force: bool, started: bool, deferred: bool,
    autoFinalize: bool, autoDismiss: bool, refcnt: int, txn: TxnId)

  datatype Txn = Txn(aborting: bool, members: seq<JobId>)

  /** What holds of a job at every moment. */
  predicate JobOk(b: Job) {
    && (b.force ==> b.cancelled) && (b.deferred ==> b.started) && !b.status.Undefined?
    && (b.status.Created? ==> !b.started && b.ret == 0)
    && (b.status.Running? || b.status.Paused? || b.status.Ready? || b.status.Standby? ==>
          b.started && (if b.deferred then b.status.Running? || b.status.Ready? else b.ret == 0))
    && (b.status.Waiting? || b.status.Pending? ==> b.deferred && b.ret == 0)
    && (b.status.Aborting? ==> b.ret != 0 && (b.started ==> b.deferred))
    && (b.txn == NO_TXN <==> b.status.Concluded? || b.status.Null?)
  }

  /** What holds in addition while no operation is in progress on the job's transaction. */
  predicate AtRest(b: Job) {
    !b.status.Aborting? && (b.status.Waiting? || b.status.Pending? ==> !b.force)
  }

  /** A call of a job driver. */
  datatype Call = PrepareCall(j: JobId, ret: int) | CommitCall(j: JobId) | AbortCall(j: JobId) | CleanCall(j: JobId)

  /** All jobs and transactions at one moment.  `trace` lists the driver callbacks made so far; two
      more parts exist for the sake of the proofs only: `refs`, the references held outside of the
      job layer, and `history`, the statuses that each job ever created has had. */
  datatype Jobs = Jobs(
    jobs: map<JobId, Job>, txns: map<TxnId, Txn>, trace: seq<Call>,
    refs: multiset<JobId>, history: map<JobId, seq<Status>>)

  /** The members of each transaction are the jobs that name it. */
  ghost predicate ListsOk(jobs: map<JobId, Job>, txns: map<TxnId, Txn>) {
    && NO_TXN !in txns
    && (forall t {:trigger txns[t]} :: t in txns ==> NoDup(txns[t].members))
    && (forall t, j {:trigger j in txns[t].members} ::
          t in txns ==> (j in txns[t].members <==> j in jobs && jobs[j].txn == t))
    && (forall j {:trigger jobs[j]} :: j in jobs && jobs[j].txn != NO_TXN ==> jobs[j].txn in txns)
  }

  /** One reference until the job is NULL, and one for each outside holder; none means freed. */
  predicate CountOk(b: Job, held: int) {
    b.refcnt == (if b.status.Null? then 0 else 1) + held && b.refcnt > 0
  }

  predicate HistoryOk(s: Status, h: seq<Status>) {
    RespectsTable(h) && h[|h| - 1] == s
  }

  /** The invariant of every step. */
  ghost predicate Consistent(s: Jobs) {
    && ListsOk(s.jobs, s.txns)
    && (forall j {:trigger s.jobs[j]} :: j in s.jobs ==>
          && JobOk(s.jobs[j]) && CountOk(s.jobs[j], s.refs[j])
          && j in s.history && HistoryOk(s.jobs[j].status, s.history[j]))
    && (forall j {:trigger s.history[j]} :: j in s.history && j !in s.jobs ==> HistoryOk(Null, s.history[j]))
  }

  /** Nothing is in progress, except possibly on transaction t. */
  ghost predicate RestExcept(s: Jobs, t: TxnId) {
    && (forall j {:trigger s.jobs[j]} :: j in s.jobs && s.jobs[j].txn != t ==> AtRest(s.jobs[j]))
    && (forall u {:trigger s.txns[u]} :: u in s.txns && u != t ==> TxnAtRest(s, u))
  }

  /** A transaction that was aborted has no members left, and its members become pending together. */
  ghost predicate TxnAtRest(s: Jobs, t: TxnId)
    requires t in s.txns
  {
    var ms := s.txns[t].members;
    && (s.txns[t].aborting ==> ms == [])
    && forall a, b ::
         a in ms && b in ms && a in s.jobs && b in s.jobs && s.jobs[a].status.Pending? ==> s.jobs[b].status.Pending?
  }

  /** Some job of t gets a new record that keeps its place and its references. */
  lemma UpdateKeeps(s: Jobs, j: JobId, b: Job)
    requires Consistent(s) && j in s.jobs && JobOk(b)
    requires b.txn == s.jobs[j].txn && b.refcnt == s.jobs[j].refcnt && b.status == s.jobs[j].status
    ensures Consistent(s.(jobs := s.jobs[j := b]))
  {
    var s' := s.(jobs := s.jobs[j := b]);
    forall t, i | t in s'.txns ensures i in s'.txns[t].members <==> i in s'.jobs && s'.jobs[i].txn == t {
      assert i in s.txns[t].members <==> i in s.jobs && s.jobs[i].txn == t;
    }
  }

  lemma MoveKeeps(s: Jobs, j: JobId, s1: Status, ret: int, deferred: bool)
    requires Consistent(s) && j in s.jobs && Allowed(s.jobs[j].status, s1) && !s1.Concluded? && !s1.Null?
    requires JobOk(s.jobs[j].(status := s1, ret := ret, deferred := deferred))
    ensures Consistent(s.(jobs := s.jobs[j := s.jobs[j].(status := s1, ret := ret, deferred := deferred)],
        history := s.history[j := s.history[j] + [s1]]))
  {
    var s' := s.(jobs := s.jobs[j := s.jobs[j].(status := s1, ret := ret, deferred := deferred)],
        history := s.history[j := s.history[j] + [s1]]);
    HistoryGrows(s.jobs[j].status, s.history[j], s1);
    forall t, i | t in s'.txns ensures i in s'.txns[t].members <==> i in s'.jobs && s'.jobs[i].txn == t {
      assert i in s.txns[t].members <==> i in s.jobs && s.jobs[i].txn == t;
    }
  }

  lemma HistoryGrows(s0: Status, h: seq<Status>, s1: Status)
    requires HistoryOk(s0, h) && Allowed(s0, s1)
    ensures HistoryOk(s1, h + [s1])
  {
    var h' := h + [s1];
    forall i | 0 <= i < |h'| - 1 ensures Allowed(h'[i], h'[i + 1]) {
      if i < |h| - 1 { assert Allowed(h[i], h[i + 1]); }
    }
  }

  // ------------------------------------------------------------------------------------------
  // The end of a job

  function LeftBy(txns: map<TxnId, Txn>, t: TxnId, j: JobId): map<TxnId, Txn> {
    if t in txns then txns[t := txns[t].(members := Without(txns[t].members, j))] else txns
  }

  /** job_txn_del_job_locked and the step to CONCLUDED */
  ghost function ConcludedState(s: Jobs, j: JobId): Jobs
    requires j in s.jobs && j in s.history
  {
    s.(jobs := s.jobs[j := s.jobs[j].(status := Concluded, txn := NO_TXN)], txns := LeftBy(s.txns, s.jobs[j].txn, j),
       history := s.history[j := s.history[j] + [Concluded]])
  }

  lemma LeaveKeepsLists(jobs: map<JobId, Job>, txns: map<TxnId, Txn>, jobs': map<JobId, Job>, j: JobId)
    requires ListsOk(jobs, txns) && j in jobs
    requires forall i :: i != j ==> (i in jobs' <==> i in jobs) && (i in jobs ==> jobs'[i] == jobs[i])
    requires j in jobs' ==> jobs'[j].txn == NO_TXN
    ensures ListsOk(jobs', LeftBy(txns, jobs[j].txn, j))
  {
    var t := jobs[j].txn;
    var txns' := LeftBy(txns, t, j);
    if t in txns { WithoutOk(txns[t].members, j); }
    forall u, i | u in txns' ensures i in txns'[u].members <==> i in jobs' && jobs'[i].txn == u {
      assert i in txns[u].members <==> i in jobs && jobs[i].txn == u;
    }
  }

  lemma ConcludeKeeps(s: Jobs, j: JobId)
    requires Consistent(s) && j in s.jobs && Allowed(s.jobs[j].status, Concluded)
    ensures Consistent(ConcludedState(s, j))
  {
    var s' := ConcludedState(s, j);
    HistoryGrows(s.jobs[j].status, s.history[j], Concluded);
    LeaveKeepsLists(s.jobs, s.txns, s'.jobs, j);
  }

  /** job_do_dismiss_locked: the last reference frees the job. */
  ghost function DismissedState(s: Jobs, j: JobId): Jobs
    requires j in s.jobs && j in s.history
  {
    var b := s.jobs[j].(status := Null, txn := NO_TXN, refcnt := s.jobs[j].refcnt - 1);
    s.(jobs := if b.refcnt == 0 then s.jobs - {j} else s.jobs[j := b], txns := LeftBy(s.txns, s.jobs[j].txn, j),
       history := s.history[j := s.history[j] + [Null]])
  }

  lemma DismissKeeps(s: Jobs, j: JobId)
    requires Consistent(s) && j in s.jobs && Allowed(s.jobs[j].status, Null)
    ensures Consistent(DismissedState(s, j))
  {
    var s' := DismissedState(s, j);
    HistoryGrows(s.jobs[j].status, s.history[j], Null);
    LeaveKeepsLists(s.jobs, s.txns, s'.jobs, j);
  }

  /** job_ref_locked by an outside holder */
  lemma RefKeeps(s: Jobs, j: JobId)
    requires Consistent(s) && j in s.jobs
    ensures Consistent(Referenced(s, j))
  {
    var s' := Referenced(s, j);
    forall t, i | t in s'.txns ensures i in s'.txns[t].members <==> i in s'.jobs && s'.jobs[i].txn == t {
      assert i in s.txns[t].members <==> i in s.jobs && s.jobs[i].txn == t;
    }
  }

  /** job_unref_locked by an outside holder.  A job without references is NULL and in no
      transaction, as the assertions there demand. */
  ghost function UnrefState(s: Jobs, j: JobId): Jobs
    requires j in s.jobs
  {
    var b := s.jobs[j].(refcnt := s.jobs[j].refcnt - 1);
    s.(jobs := if b.refcnt == 0 then s.jobs - {j} else s.jobs[j := b], refs := s.refs - multiset{j})
  }

  lemma UnrefKeeps(s: Jobs, j: JobId)
    requires Consistent(s) && j in s.jobs && s.refs[j] > 0
    ensures Consistent(UnrefState(s, j))
    ensures s.jobs[j].refcnt == 1 ==> s.jobs[j].status == Null && s.jobs[j].txn == NO_TXN
  {
    var s' := UnrefState(s, j);
    forall t, i | t in s'.txns ensures i in s'.txns[t].members <==> i in s'.jobs && s'.jobs[i].txn == t {
      assert i in s.txns[t].members <==> i in s.jobs && s.jobs[i].txn == t;
    }
  }

  // ------------------------------------------------------------------------------------------
  // Work on one transaction leaves the others alone

  /** The job has ended: it is NULL, or waits to be dismissed by hand, which an unstarted job never
      does. */
  predicate HasEnded(b: Job) {
    b.status.Null? || (b.status.Concluded? && b.started && !b.autoDismiss)
  }

  /** What does not change in the life of a job that has been created and not started anew. */
  predicate SameJob(b: Job, b': Job) {
    b'.started == b.started && b'.autoDismiss == b.autoDismiss
  }

  /** A job of t stays in t or ends. */
  predicate StaysOrEnds(b: Job, b': Job, t: TxnId) {
    SameJob(b, b') && (b'.txn == t || HasEnded(b'))
  }

  ghost predicate OnlyTxn(s: Jobs, s': Jobs, t: TxnId) {
    && (forall j {:trigger s'.jobs[j]} ::
          j in s'.jobs ==>
            && j in s.jobs
            && if s.jobs[j].txn == t then StaysOrEnds(s.jobs[j], s'.jobs[j], t) else s'.jobs[j] == s.jobs[j])
    && (forall j {:trigger s.jobs[j]} :: j in s.jobs && s.jobs[j].txn != t ==> j in s'.jobs && s'.jobs[j] == s.jobs[j])
    && s'.txns.Keys == s.txns.Keys
    && (forall u {:trigger s'.txns[u]} :: u in s.txns && u != t ==> s'.txns[u] == s.txns[u])
  }

  lemma OnlyTxnTrans(s: Jobs, s1: Jobs, s2: Jobs, t: TxnId)
    requires OnlyTxn(s, s1, t) && OnlyTxn(s1, s2, t)
    ensures OnlyTxn(s, s2, t)
  {
  }

  lemma RestKept(s: Jobs, s': Jobs, t: TxnId)
    requires Consistent(s) && Consistent(s') && RestExcept(s, t) && OnlyTxn(s, s', t)
    ensures RestExcept(s', t)
  {
    forall u | u in s'.txns && u != t ensures TxnAtRest(s', u) {
      assert TxnAtRest(s, u);
      forall a | a in s'.txns[u].members ensures a in s.jobs && a in s'.jobs && s'.jobs[a] == s.jobs[a] {
        assert a in s.txns[u].members;
      }
    }
    forall j | j in s'.jobs && s'.jobs[j].txn != t ensures AtRest(s'.jobs[j]) {
      assert j in s.jobs;
    }
  }

  /** Only the record of j may differ. */
  ghost predicate OnlyJob(jobs: map<JobId, Job>, jobs': map<JobId, Job>, j: JobId) {
    forall i {:trigger jobs'[i]} {:trigger jobs[i]} {:trigger i in jobs'} ::
      i != j ==> (i in jobs' <==> i in jobs) && (i in jobs ==> jobs'[i] == jobs[i])
  }

  /** Job j has left its transaction; it is freed unless somebody still holds a reference, or unless
      it waits to be dismissed. */
  ghost predicate Ended(s: Jobs, s': Jobs, j: JobId) {
    && j in s.jobs && OnlyJob(s.jobs, s'.jobs, j) && s'.txns == LeftBy(s.txns, s.jobs[j].txn, j) && s'.refs == s.refs
    && (j in s'.jobs ==> SameJob(s.jobs[j], s'.jobs[j]) && HasEnded(s'.jobs[j]))
    && (s.refs[j] > 0 ==> j in s'.jobs)
  }

  lemma EndedOnlyTxn(s: Jobs, s': Jobs, j: JobId)
    requires Ended(s, s', j)
    ensures OnlyTxn(s, s', s.jobs[j].txn)
  {
  }

  function FinalCalls(j: JobId, commit: bool): seq<Call> {
    [if commit then CommitCall(j) else AbortCall(j), CleanCall(j)]
  }

  /** job_update_rc_locked's return code */
  function Rc(b: Job): int {
    if b.ret == 0 && b.force then -ECANCELED else b.ret
  }

  // ------------------------------------------------------------------------------------------
  // Aborting a transaction

  /** The driver calls that end all of ms. */
  function Finals(ms: seq<JobId>, committed: set<JobId>): seq<Call> {
    if ms == [] then [] else FinalCalls(ms[0], ms[0] in committed) + Finals(ms[1..], committed)
  }

  /** Each member is committed or aborted, once, and then cleaned up. */
  lemma {:induction false} FinalsAt(ms: seq<JobId>, committed: set<JobId>, i: nat)
    requires i < |ms|
    ensures |Finals(ms, committed)| == 2 * |ms|
    ensures Finals(ms, committed)[2 * i] == if ms[i] in committed then CommitCall(ms[i]) else AbortCall(ms[i])
    ensures Finals(ms, committed)[2 * i + 1] == CleanCall(ms[i])
  {
    var rest := Finals(ms[1..], committed);
    if |ms| == 1 {
      assert ms[1..] == [];
    } else {
      FinalsAt(ms[1..], committed, if i > 0 then i - 1 else 0);
      if i > 0 { assert Finals(ms, committed)[2 * i] == rest[2 * (i - 1)]; }
    }
  }

  lemma {:induction false} FinalsAppend(ms: seq<JobId>, m: JobId, committed: set<JobId>)
    ensures Finals(ms + [m], committed) == Finals(ms, committed) + FinalCalls(m, m in committed)
  {
    if ms == [] {
      assert ([m])[1..] == [];
      assert ms + [m] == [m];
    } else {
      assert (ms + [m])[1..] == ms[1..] + [m];
      FinalsAppend(ms[1..], m, committed);
    }
  }

  lemma FinalsStep(ms: seq<JobId>, k: nat, committed: set<JobId>)
    requires k < |ms|
    ensures Finals(ms[..k + 1], committed) == Finals(ms[..k], committed) + FinalCalls(ms[k], ms[k] in committed)
    ensures ms[k..] != [] && ms[k..][0] == ms[k] && ms[k..][1..] == ms[k + 1..]
  {
    FinalsAppend(ms[..k], ms[k], committed);
    assert ms[..k] + [ms[k]] == ms[..k + 1];
  }

  /** Waiting for the job can end: it has completed, or is at least running, so that it can. */
  predicate CanFinish(b: Job) {
    b.started || Completed(b.status)
  }

  /** Members of a transaction that is being aborted.  The members in `stuck` were never started, so
      that waiting for one of them does not end. */
  ghost predicate AbortPhase(s: Jobs, t: TxnId, trig: JobId, ms: seq<JobId>, commits: bool, stuck: set<JobId>) {
    && Consistent(s) && RestExcept(s, t) && t in s.txns && s.txns[t] == Txn(true, ms)
    && forall m {:trigger m in ms} :: m in ms ==> m in s.jobs && AbortMember(s.jobs[m], m == trig, commits, m in stuck)
  }

  predicate AbortMember(b: Job, isTrig: bool, commits: bool, isStuck: bool) {
    && (b.force || (isTrig && (b.status.Aborting? || b.status.Pending?)))
    && (Rc(b) == 0 <==> isTrig && commits)
    && (CanFinish(b) <==> !isStuck)
  }

  /** The members of ms that a wait would not see complete. */
  ghost function StuckOf(s: Jobs, ms: seq<JobId>): set<JobId> {
    set m | m in ms && m in s.jobs && !CanFinish(s.jobs[m])
  }

  /** job_cancel_async_locked, apart from its effect on pausing; `eff` is the driver's answer. */
  function CancelledJob(b: Job, eff: bool): Job {
    if eff || !b.deferred then b.(cancelled := true, force := b.force || eff) else b
  }

  /** A member of t, and nothing else, has a new record, and stays doomed. */
  lemma MemberMoves(
      s: Jobs, s': Jobs, t: TxnId, trig: JobId, ms: seq<JobId>, commits: bool, stuck: set<JobId>, m: JobId)
    requires AbortPhase(s, t, trig, ms, commits, stuck) && m in ms && Consistent(s') && m in s'.jobs
    requires s'.txns == s.txns && s'.jobs == s.jobs[m := s'.jobs[m]] && s'.jobs[m].txn == t
    requires SameJob(s.jobs[m], s'.jobs[m])
    requires AbortMember(s'.jobs[m], m == trig, commits, m in stuck)
    ensures AbortPhase(s', t, trig, ms, commits, stuck) && OnlyTxn(s, s', t)
  {
    assert m in s.txns[t].members;
    RestKept(s, s', t);
  }

  lemma MemberEnds(s: Jobs, s': Jobs, t: TxnId, trig: JobId, ms: seq<JobId>, commits: bool, stuck: set<JobId>)
    requires ms != [] && AbortPhase(s, t, trig, ms, commits, stuck) && Consistent(s') && Ended(s, s', ms[0])
    ensures AbortPhase(s', t, trig, ms[1..], commits, stuck) && OnlyTxn(s, s', t)
  {
    assert ms[0] in ms && ms[0] in s.txns[t].members;
    EndedOnlyTxn(s, s', ms[0]);
    RestKept(s, s', t);
    assert NoDup(s.txns[t].members);
    forall m | m in ms[1..] ensures m in s'.jobs && AbortMember(s'.jobs[m], m == trig, commits, m in stuck) {
      assert m in ms && m != ms[0];
    }
  }

  lemma RestWhenEmpty(s: Jobs, t: TxnId)
    requires Consistent(s) && RestExcept(s, t) && t in s.txns && s.txns[t].members == []
    ensures RestExcept(s, NO_TXN)
  {
    forall j | j in s.jobs && s.jobs[j].txn != NO_TXN ensures AtRest(s.jobs[j]) {
      assert j !in s.txns[t].members;
    }
  }

  /** When job_completed_txn_abort_locked may be called for trig: nobody is aborting the transaction
      yet; and trig has failed, is force-cancelled, or is pending. */
  ghost predicate AbortReady(s: Jobs, trig: JobId) {
    && Consistent(s) && trig in s.jobs && s.jobs[trig].txn in s.txns && RestExcept(s, s.jobs[trig].txn)
    && !s.txns[s.jobs[trig].txn].aborting
    && CanFinish(s.jobs[trig]) && (s.jobs[trig].force || s.jobs[trig].status.Aborting? || s.jobs[trig].status.Pending?)
  }

  /** txn->aborting is set, and trig is referenced for the time of the abort. */
  ghost function AbortBegun(s: Jobs, trig: JobId): Jobs
    requires trig in s.jobs && s.jobs[trig].txn in s.txns
  {
    var t := s.jobs[trig].txn;
    s.(txns := s.txns[t := s.txns[t].(aborting := true)],
       jobs := s.jobs[trig := s.jobs[trig].(refcnt := s.jobs[trig].refcnt + 1)],
       refs := s.refs + multiset{trig})
  }

  lemma AbortBegins(s: Jobs, trig: JobId)
    requires AbortReady(s, trig)
    ensures var s', t := AbortBegun(s, trig), s.jobs[trig].txn; Consistent(s') && RestExcept(s', t) && OnlyTxn(s, s', t)
  {
    var s', t := AbortBegun(s, trig), s.jobs[trig].txn;
    forall u, i | u in s'.txns ensures i in s'.txns[u].members <==> i in s'.jobs && s'.jobs[i].txn == u {
      assert i in s.txns[u].members <==> i in s.jobs && s.jobs[i].txn == u;
    }
    RestKept(s, s', t);
  }

  /** The loop that cancels the other members has dealt with `done`. */
  ghost predicate Cancelling(s: Jobs, s': Jobs, t: TxnId, trig: JobId, done: set<JobId>) {
    && Consistent(s') && RestExcept(s', t) && OnlyTxn(s, s', t) && s' == s.(jobs := s'.jobs)
    && s'.jobs.Keys == s.jobs.Keys
    && forall m {:trigger s'.jobs[m]} :: m in s.jobs ==>
         s'.jobs[m] == if m in done && m != trig then CancelledJob(s.jobs[m], true) else s.jobs[m]
  }

  lemma CancelNext(s: Jobs, s': Jobs, t: TxnId, trig: JobId, done: set<JobId>, m: JobId)
    requires t in s.txns && m in s.txns[t].members && m != trig && Consistent(s) && Cancelling(s, s', t, trig, done)
    requires m !in done
    ensures m in s'.jobs
    ensures Cancelling(s, s'.(jobs := s'.jobs[m := CancelledJob(s'.jobs[m], true)]), t, trig, done + {m})
  {
    var b := CancelledJob(s'.jobs[m], true);
    assert m in s'.txns[t].members;
    UpdateKeeps(s', m, b);
    CancelledOnly(s', t, m, b);
    OnlyTxnTrans(s, s', s'.(jobs := s'.jobs[m := b]), t);
  }

  lemma CancelledOnly(s: Jobs, t: TxnId, m: JobId, b: Job)
    requires Consistent(s) && Consistent(s.(jobs := s.jobs[m := b])) && RestExcept(s, t)
    requires m in s.jobs && s.jobs[m].txn == t && b.txn == t && SameJob(s.jobs[m], b)
    ensures OnlyTxn(s, s.(jobs := s.jobs[m := b]), t) && RestExcept(s.(jobs := s.jobs[m := b]), t)
  {
    RestKept(s, s.(jobs := s.jobs[m := b]), t);
  }

  lemma CancelDone(s: Jobs, s': Jobs, t: TxnId, trig: JobId, ms: seq<JobId>)
    requires t in s.txns && s.txns[t] == Txn(true, ms) && Consistent(s) && Cancelling(s, s', t, trig, Members(ms))
    requires trig in s.jobs
    requires s.jobs[trig].force || s.jobs[trig].status.Aborting? || s.jobs[trig].status.Pending?
    ensures AbortPhase(s', t, trig, ms, Rc(s.jobs[trig]) == 0, StuckOf(s, ms))
  {
    forall m | m in ms
      ensures m in s'.jobs && AbortMember(s'.jobs[m], m == trig, Rc(s.jobs[trig]) == 0, m in StuckOf(s, ms))
    {
      assert m in s.txns[t].members;
    }
  }

  /** Dropping the reference that kept trig alive while its transaction came to an end. */
  lemma TempRefEnds(s0: Jobs, s: Jobs, t: TxnId, trig: JobId)
    requires Consistent(s0) && trig in s0.jobs && s0.jobs[trig].txn == t && t in s0.txns && t in s.txns
    requires Consistent(s) && RestExcept(s, t) && OnlyTxn(s0, s, t) && s.txns[t].members == [] && trig in s.jobs
    requires s.refs[trig] > 0
    ensures var s' := UnrefState(s, trig); Consistent(s') && RestExcept(s', NO_TXN) && OnlyTxn(s0, s', t)
  {
    var s' := UnrefState(s, trig);
    UnrefKeeps(s, trig);
    assert trig !in s.txns[t].members;
    assert OnlyTxn(s0, s', t);
    RestWhenEmpty(s, t);
    forall u | u in s'.txns ensures TxnAtRest(s', u) {
      assert u != NO_TXN && TxnAtRest(s, u);
      forall a | a in s'.txns[u].members
        ensures a in s.jobs && a in s'.jobs && s'.jobs[a].status == s.jobs[a].status
      {
        assert a in s.txns[u].members;
      }
    }
  }

  // ------------------------------------------------------------------------------------------
  // Completing a transaction

  /** All members are pending, and nothing has failed. */
  ghost predicate PendingPhase(s: Jobs, t: TxnId, ms: seq<JobId>) {
    && Consistent(s) && RestExcept(s, t) && t in s.txns && s.txns[t] == Txn(false, ms)
    && forall m {:trigger m in ms} :: m in ms ==> m in s.jobs && s.jobs[m].status.Pending? && !s.jobs[m].force
  }

  lemma PendingEnds(s: Jobs, s': Jobs, t: TxnId, ms: seq<JobId>)
    requires ms != [] && PendingPhase(s, t, ms) && Consistent(s') && Ended(s, s', ms[0])
    ensures PendingPhase(s', t, ms[1..]) && OnlyTxn(s, s', t)
  {
    assert ms[0] in ms && ms[0] in s.txns[t].members;
    EndedOnlyTxn(s, s', ms[0]);
    RestKept(s, s', t);
    assert NoDup(s.txns[t].members);
    forall m | m in ms[1..] ensures m in s'.jobs && s'.jobs[m].status.Pending? && !s'.jobs[m].force {
      assert m in ms && m != ms[0];
    }
  }

  lemma PendingSame(s: Jobs, s': Jobs, t: TxnId, ms: seq<JobId>)
    requires PendingPhase(s, t, ms) && Consistent(s') && s'.jobs == s.jobs && s'.txns == s.txns
    ensures PendingPhase(s', t, ms) && OnlyTxn(s, s', t)
  {
    RestKept(s, s', t);
  }

  /** The prepare callbacks of ms, in order. */
  function Prepares(ms: seq<JobId>, hasPrepare: JobId -> bool, prepareRet: JobId -> int): seq<Call> {
    if ms == [] then []
    else
      var m := ms[|ms| - 1];
      Prepares(ms[..|ms| - 1], hasPrepare, prepareRet) + if hasPrepare(m) then [PrepareCall(m, prepareRet(m))] else []
  }

  /** Member m is referenced for the time of a walk over its transaction. */
  ghost function Referenced(s: Jobs, j: JobId): Jobs
    requires j in s.jobs
  {
    s.(jobs := s.jobs[j := s.jobs[j].(refcnt := s.jobs[j].refcnt + 1)], refs := s.refs + multiset{j})
  }

  lemma TempRefBegins(s: Jobs, t: TxnId, ms: seq<JobId>, j: JobId)
    requires PendingPhase(s, t, ms) && j in ms
    ensures PendingPhase(Referenced(s, j), t, ms) && OnlyTxn(s, Referenced(s, j), t)
  {
    assert j in s.txns[t].members;
    RefKeeps(s, j);
    RestKept(s, Referenced(s, j), t);
  }

  /** A prepare callback has failed for ms[f]. */
  lemma PrepareFailed(s: Jobs, s': Jobs, t: TxnId, ms: seq<JobId>, f: nat, trig: JobId)
    requires PendingPhase(s, t, ms) && f < |ms| && trig in ms && Consistent(s') && s'.txns == s.txns
    requires s'.refs == s.refs
    requires ms[f] in s.jobs && ms[f] in s'.jobs && s'.jobs == s.jobs[ms[f] := s'.jobs[ms[f]]]
    requires s'.jobs[ms[f]].status.Aborting? && s'.jobs[ms[f]].txn == t
    requires SameJob(s.jobs[ms[f]], s'.jobs[ms[f]])
    ensures AbortReady(s', trig) && OthersCanFinish(s', trig) && s'.jobs[trig].txn == t && OnlyTxn(s, s', t)
    ensures Rc(s'.jobs[trig]) == 0 <==> trig != ms[f]
  {
    assert ms[f] in ms && ms[f] in s.txns[t].members && trig in s.txns[t].members;
    RestKept(s, s', t);
    assert forall m | m in s'.txns[t].members && m in s'.jobs :: m in ms;
  }

  /** All members have completed without an error and wait for each other, or are pending. */
  ghost predicate WaitingPhase(s: Jobs, t: TxnId, ms: seq<JobId>, k: nat)
    requires k <= |ms|
  {
    && Consistent(s) && RestExcept(s, t) && t in s.txns && s.txns[t] == Txn(false, ms)
    && (forall m {:trigger m in ms} :: m in ms ==> m in s.jobs && !s.jobs[m].force)
    && (forall i :: 0 <= i < k ==> ms[i] in s.jobs && s.jobs[ms[i]].status.Pending?)
    && (forall i :: k <= i < |ms| ==> ms[i] in s.jobs && s.jobs[ms[i]].status.Waiting?)
  }

  lemma BecomesPending(s: Jobs, s': Jobs, t: TxnId, ms: seq<JobId>, k: nat)
    requires k < |ms| && WaitingPhase(s, t, ms, k) && Consistent(s') && s'.txns == s.txns
    requires s'.jobs == s.jobs[ms[k] := s.jobs[ms[k]].(status := Pending)]
    ensures WaitingPhase(s', t, ms, k + 1) && OnlyTxn(s, s', t)
  {
    var m := ms[k];
    assert m in ms && m in s.txns[t].members;
    RestKept(s, s', t);
    assert NoDup(s.txns[t].members);
    forall i | 0 <= i < |ms| && i != k ensures ms[i] in s'.jobs && s'.jobs[ms[i]] == s.jobs[ms[i]] {
      assert ms[i] != ms[k] && ms[i] in ms;
    }
  }

  lemma AllPending(s: Jobs, t: TxnId, ms: seq<JobId>)
    requires WaitingPhase(s, t, ms, |ms|)
    ensures PendingPhase(s, t, ms) && RestExcept(s, NO_TXN)
  {
    forall m | m in ms ensures m in s.jobs && s.jobs[m].status.Pending? {
      var i :| 0 <= i < |ms| && ms[i] == m;
    }
    assert TxnAtRest(s, t);
    forall j | j in s.jobs && s.jobs[j].txn != NO_TXN ensures AtRest(s.jobs[j]) {
      if s.jobs[j].txn == t { assert j in s.txns[t].members; }
    }
  }

  /** One job's record changes, which stays at rest and neither becomes nor stops being pending. */
  lemma StepAtRest(s: Jobs, s': Jobs, j: JobId)
    requires Consistent(s) && RestExcept(s, NO_TXN) && Consistent(s') && j in s.jobs && j in s'.jobs
    requires s'.txns == s.txns && s'.jobs == s.jobs[j := s'.jobs[j]] && s'.jobs[j].txn == s.jobs[j].txn
    requires
      s'.jobs[j].txn != NO_TXN ==> AtRest(s'.jobs[j]) && (s'.jobs[j].status.Pending? <==> s.jobs[j].status.Pending?)
    ensures RestExcept(s', NO_TXN)
  {
    forall u | u in s'.txns && u != NO_TXN ensures TxnAtRest(s', u) {
      assert TxnAtRest(s, u);
      forall a | a in s'.txns[u].members
        ensures a in s.jobs && a in s'.jobs && (s'.jobs[a].status.Pending? <==> s.jobs[a].status.Pending?)
      {
        assert a in s.txns[u].members;
      }
    }
  }

  /** One job leaves its transaction and ends. */
  lemma EndAtRest(s: Jobs, s': Jobs, j: JobId)
    requires Consistent(s) && RestExcept(s, NO_TXN) && Consistent(s') && Ended(s, s', j)
    ensures RestExcept(s', NO_TXN)
  {
    var t := s.jobs[j].txn;
    if t in s.txns { WithoutOk(s.txns[t].members, j); }
    forall u | u in s'.txns && u != NO_TXN ensures TxnAtRest(s', u) {
      assert TxnAtRest(s, u);
      if s.txns[u].members == [] { assert s'.txns[u].members == []; }
      forall a | a in s'.txns[u].members
        ensures a in s.txns[u].members && a in s.jobs && a in s'.jobs && s'.jobs[a] == s.jobs[a]
      {
        assert a in s'.jobs && s'.jobs[a].txn == u;
      }
    }
    forall i | i in s'.jobs && s'.jobs[i].txn != NO_TXN ensures AtRest(s'.jobs[i]) {
      assert i != j;
    }
  }

  /** A member that has not completed keeps the others from becoming pending. */
  lemma NonePending(s: Jobs, j: JobId, m: JobId)
    requires Consistent(s) && RestExcept(s, NO_TXN) && j in s.jobs && s.jobs[j].txn in s.txns
    requires !s.jobs[j].status.Pending?
    requires m in s.txns[s.jobs[j].txn].members
    ensures m in s.jobs && !s.jobs[m].status.Pending? && !s.jobs[m].status.Aborting?
    ensures s.jobs[m].status.Waiting? ==> !s.jobs[m].force
    ensures !s.txns[s.jobs[j].txn].aborting
  {
    var t := s.jobs[j].txn;
    assert TxnAtRest(s, t) && j in s.txns[t].members;
  }

  /** A new job in transaction t. */
  ghost function WithJob(s: Jobs, j: JobId, b: Job): Jobs
    requires b.txn in s.txns
  {
    s.(jobs := s.jobs[j := b], txns := s.txns[b.txn := s.txns[b.txn].(members := [j] + s.txns[b.txn].members)],
       history := s.history[j := [Undefined, Created]])
  }

  lemma CreateConsistent(s: Jobs, j: JobId, b: Job)
    requires Consistent(s) && j !in s.history && j !in s.jobs && s.refs[j] == 0 && b.txn in s.txns
    requires b.status.Created? && b.refcnt == 1 && b.ret == 0 && !b.force && !b.started && !b.deferred
    ensures Consistent(WithJob(s, j, b))
  {
    var s' := WithJob(s, j, b);
    forall u, i | u in s'.txns ensures i in s'.txns[u].members <==> i in s'.jobs && s'.jobs[i].txn == u {
      assert i in s.txns[u].members <==> i in s.jobs && s.jobs[i].txn == u;
    }
    assert j !in s.txns[b.txn].members;
    assert HistoryOk(Created, [Undefined, Created]);
  }

  lemma CreateKeeps(s: Jobs, j: JobId, b: Job)
    requires Consistent(s) && RestExcept(s, NO_TXN) && j !in s.history && j !in s.jobs && s.refs[j] == 0
    requires b.txn in s.txns && !s.txns[b.txn].aborting
    requires b.status.Created? && b.refcnt == 1 && b.ret == 0 && !b.force && !b.started && !b.deferred
    requires forall m {:trigger m in s.txns[b.txn].members} ::
      m in s.txns[b.txn].members && m in s.jobs ==> !s.jobs[m].status.Pending?
    ensures Consistent(WithJob(s, j, b)) && RestExcept(WithJob(s, j, b), NO_TXN)
  {
    var s' := WithJob(s, j, b);
    CreateConsistent(s, j, b);
    forall u | u in s'.txns && u != NO_TXN ensures TxnAtRest(s', u) {
      assert TxnAtRest(s, u);
      forall a | a in s.txns[u].members ensures a in s.jobs && a != j {}
    }
  }

  /** Every other member of j's transaction has been started, or has completed. */
  ghost predicate OthersCanFinish(s: Jobs, j: JobId)
    requires j in s.jobs
  {
    s.jobs[j].txn in s.txns ==>
      forall m {:trigger m in s.txns[s.jobs[j].txn].members} ::
        m in s.txns[s.jobs[j].txn].members && m != j && m in s.jobs ==> CanFinish(s.jobs[m])
  }

  /** From rest, a job that fails or is force-cancelled may abort its transaction. */
  lemma AbortReadyFromRest(s: Jobs, s': Jobs, j: JobId)
    requires Consistent(s) && RestExcept(s, NO_TXN) && j in s.jobs && s.jobs[j].txn != NO_TXN
    requires Consistent(s') && j in s'.jobs && s'.txns == s.txns && s'.jobs == s.jobs[j := s'.jobs[j]]
    requires s'.jobs[j].txn == s.jobs[j].txn
    requires SameJob(s.jobs[j], s'.jobs[j])
    requires CanFinish(s'.jobs[j]) && (s'.jobs[j].force || s'.jobs[j].status.Aborting?)
    ensures AbortReady(s', j) && (OthersCanFinish(s', j) <==> OthersCanFinish(s, j)) && OnlyTxn(s, s', s.jobs[j].txn)
  {
    var t := s.jobs[j].txn;
    assert TxnAtRest(s, t) && j in s.txns[t].members;
    assert RestExcept(s, t);
    RestKept(s, s', t);
  }

  /** An unstarted job whose transaction has come to its end is freed, unless somebody refers to it. */
  lemma UnstartedIsFreed(s: Jobs, s': Jobs, j: JobId)
    requires Consistent(s') && j in s.jobs && !s.jobs[j].started && OnlyTxn(s, s', s.jobs[j].txn) && s'.refs[j] == 0
    requires s.jobs[j].txn in s'.txns && s'.txns[s.jobs[j].txn].members == []
    ensures j !in s'.jobs
  {
    assert j !in s'.txns[s.jobs[j].txn].members;
    assert j in s'.jobs ==> CountOk(s'.jobs[j], s'.refs[j]);
  }

  /** The abort of a transaction ends exactly if no member is stuck. */
  lemma StuckIff(s: Jobs, trig: JobId)
    requires AbortReady(s, trig)
    ensures OthersCanFinish(s, trig) <==> StuckOf(s, s.txns[s.jobs[trig].txn].members) == {}
  {
    var ms := s.txns[s.jobs[trig].txn].members;
    if OthersCanFinish(s, trig) {
      assert forall m :: m in ms && m in s.jobs ==> CanFinish(s.jobs[m]);
    } else {
      var m :| m in s.txns[s.jobs[trig].txn].members && m != trig && m in s.jobs && !CanFinish(s.jobs[m]);
      assert m in StuckOf(s, ms);
    }
  }
}
