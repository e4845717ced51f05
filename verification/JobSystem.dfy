/** The life cycle of jobs and their transactions (job.c), updated in place.  Every assertion of the
    source is a precondition or an assert here. */
module JobSystem {

  import opened Lists
  import opened JobStates

  class JobSystem {
    var s: Jobs

    ghost predicate Valid()
      reads this
    {
      Consistent(s) && RestExcept(s, NO_TXN)
    }

    /** job_state_transition_locked, except to CONCLUDED and NULL */
    method Transition(j: JobId, s1: Status)
      requires Consistent(s) && j in s.jobs && Allowed(s.jobs[j].status, s1) && !s1.Concluded? && !s1.Null?
      requires JobOk(s.jobs[j].(status := s1))
      modifies this
      ensures Consistent(s) && j in old(s).history
      ensures s ==
          old(s).(jobs := old(s).jobs[j := old(s).jobs[j].(status := s1)],
            history := old(s).history[j := old(s).history[j] + [s1]])
    {
      MoveKeeps(s, j, s1, s.jobs[j].ret, s.jobs[j].deferred);
      s := s.(jobs := s.jobs[j := s.jobs[j].(status := s1)], history := s.history[j := s.history[j] + [s1]]);
    }

    /** job_update_rc_locked after the job has got the return code ret */
    method UpdateRc(j: JobId, ret: int)
      requires Consistent(s) && j in s.jobs && (s.jobs[j].started ==> s.jobs[j].deferred)
      requires Rc(s.jobs[j].(ret := ret)) != 0 ==> Allowed(s.jobs[j].status, Aborting)
      requires Rc(s.jobs[j].(ret := ret)) == 0 ==> s.jobs[j].ret == 0
      modifies this
      ensures Consistent(s) && s == old(s).(jobs := s.jobs, history := s.history)
      ensures Rc(old(s).jobs[j].(ret := ret)) == 0 ==> s == old(s)
      ensures var rc := Rc(old(s).jobs[j].(ret := ret));
        s.jobs == if rc != 0 then old(s).jobs[j := old(s).jobs[j].(ret := rc, status := Aborting)] else old(s).jobs
    {
      var rc := Rc(s.jobs[j].(ret := ret));
      if rc != 0 {
        MoveKeeps(s, j, Aborting, rc, s.jobs[j].deferred);
        s := s.(jobs := s.jobs[j := s.jobs[j].(ret := rc, status := Aborting)],
            history := s.history[j := s.history[j] + [Aborting]]);
      }
    }

    /** job_do_dismiss_locked */
    method DoDismiss(j: JobId)
      requires Consistent(s) && j in s.jobs && Allowed(s.jobs[j].status, Null)
      modifies this
      ensures Consistent(s) && j in old(s).history && s == DismissedState(old(s), j)
    {
      DismissKeeps(s, j);
      var b := s.jobs[j].(status := Null, txn := NO_TXN, refcnt := s.jobs[j].refcnt - 1);
      s := s.(txns := LeftBy(s.txns, s.jobs[j].txn, j), history := s.history[j := s.history[j] + [Null]],
              jobs := if b.refcnt == 0 then s.jobs - {j} else s.jobs[j := b]);
    }

    /** job_txn_del_job_locked and job_conclude_locked */
    method Conclude(j: JobId)
      requires Consistent(s) && j in s.jobs && Allowed(s.jobs[j].status, Concluded)
      modifies this
      ensures Consistent(s) && Ended(old(s), s, j) && s.trace == old(s).trace
    {
      ConcludeKeeps(s, j);
      var b := s.jobs[j];
      s := s.(txns := LeftBy(s.txns, b.txn, j), jobs := s.jobs[j := b.(status := Concluded, txn := NO_TXN)],
              history := s.history[j := s.history[j] + [Concluded]]);
      if b.autoDismiss || !b.started {
        DoDismiss(j);
      }
    }

    /** job_finalize_single_locked: commits a job that succeeded and aborts one that did not. */
    method FinalizeSingle(j: JobId)
      requires Consistent(s) && j in s.jobs && s.jobs[j].txn != NO_TXN && Completed(s.jobs[j].status)
      requires s.jobs[j].status.Waiting? ==> s.jobs[j].force
      modifies this
      ensures Consistent(s) && Ended(old(s), s, j)
      ensures s.trace == old(s).trace + FinalCalls(j, Rc(old(s).jobs[j]) == 0)
    {
      UpdateRc(j, s.jobs[j].ret);
      ghost var s1 := s;
      TraceKeeps(s, FinalCalls(j, s.jobs[j].ret == 0));
      s := s.(trace := s.trace + FinalCalls(j, s.jobs[j].ret == 0));
      Conclude(j);
      EndedAfter(old(s), s1, s, j);
    }

    // ----------------------------------------------------------------------------------------
    // Aborting a transaction

    /** A force-cancelled member of an aborting transaction wakes up, returns from run with ret, and
        its job_exit finds that the transaction is being aborted already. */
    method ExitAborting(j: JobId, ret: int)
      requires Consistent(s) && j in s.jobs && !Completed(s.jobs[j].status) && s.jobs[j].started && s.jobs[j].force
      modifies this
      ensures Consistent(s) && j in s.jobs && s == old(s).(jobs := old(s).jobs[j := s.jobs[j]], history := s.history)
      ensures s.jobs[j].status == Aborting && s.jobs[j].force && s.jobs[j].txn == old(s).jobs[j].txn
      ensures SameJob(old(s).jobs[j], s.jobs[j])
    {
      Return(j, ret);
      UpdateRc(j, s.jobs[j].ret);
    }

    /** The coroutine of a started job leaves its pause point, if it is at one, and returns from run. */
    method Return(j: JobId, ret: int)
      requires Consistent(s) && j in s.jobs && !Completed(s.jobs[j].status) && s.jobs[j].started
      modifies this
      ensures Consistent(s) && j in s.jobs
      ensures s == old(s).(jobs := old(s).jobs[j := s.jobs[j]], history := s.history)
      ensures s.jobs[j].deferred && (s.jobs[j].status.Running? || s.jobs[j].status.Ready?)
      ensures s.jobs[j] == old(s).jobs[j].(status := s.jobs[j].status, deferred := true, ret := s.jobs[j].ret)
    {
      if s.jobs[j].status.Paused? {
        Transition(j, Running);
      } else if s.jobs[j].status.Standby? {
        Transition(j, Ready);
      }
      if !s.jobs[j].deferred {
        UpdateKeeps(s, j, s.jobs[j].(deferred := true, ret := ret));
        s := s.(jobs := s.jobs[j := s.jobs[j].(deferred := true, ret := ret)]);
      }
    }

    /** job_finish_sync_locked: while waiting for m, other members may complete as well.  The wait
        does not end if m was never started. */
    method AwaitCompletion(
        m: JobId, env: Env, ghost t: TxnId, ghost trig: JobId, ghost ms: seq<JobId>, ghost commits: bool,
        ghost stuck: set<JobId>)
      returns (ended: bool)
      requires AbortPhase(s, t, trig, ms, commits, stuck) && m in ms
      modifies this
      ensures AbortPhase(s, t, trig, ms, commits, stuck) && OnlyTxn(old(s), s, t) && m in s.jobs
      ensures ended <==> m !in stuck
      ensures ended <==> Completed(s.jobs[m].status)
      ensures s == old(s).(jobs := s.jobs, history := s.history) && s.jobs.Keys == old(s).jobs.Keys
    {
      var others := env.alsoExit(m);
      assert m in s.txns[t].members;
      var txn := s.jobs[m].txn;
      for i := 0 to |others|
        invariant AbortPhase(s, t, trig, ms, commits, stuck) && OnlyTxn(old(s), s, t)
        invariant s == old(s).(jobs := s.jobs, history := s.history) && s.jobs.Keys == old(s).jobs.Keys
      {
        var other := others[i];
        if other in s.jobs && s.jobs[other].txn == txn && s.jobs[other].started && !Completed(s.jobs[other].status) {
          ExitMember(other, env, t, trig, ms, commits, stuck, old(s));
        }
      }
      ended := CanFinish(s.jobs[m]);
      if ended && !Completed(s.jobs[m].status) {
        ExitMember(m, env, t, trig, ms, commits, stuck, old(s));
      }
    }

    method ExitMember(
        m: JobId, env: Env, ghost t: TxnId, ghost trig: JobId, ghost ms: seq<JobId>, ghost commits: bool,
        ghost stuck: set<JobId>, ghost s0: Jobs)
      requires AbortPhase(s, t, trig, ms, commits, stuck) && OnlyTxn(s0, s, t) && m in s.jobs && s.jobs[m].txn == t
      requires s.jobs[m].started && !Completed(s.jobs[m].status)
      modifies this
      ensures AbortPhase(s, t, trig, ms, commits, stuck) && OnlyTxn(s0, s, t) && m in s.jobs
      ensures Completed(s.jobs[m].status)
      ensures s == old(s).(jobs := s.jobs, history := s.history) && s.jobs.Keys == old(s).jobs.Keys
    {
      assert m in s.txns[t].members;
      ExitAborting(m, env.runRet(m));
      MemberMoves(old(s), s, t, trig, ms, commits, stuck, m);
      OnlyTxnTrans(s0, old(s), s, t);
    }

    /** One turn of the second loop in job_completed_txn_abort_locked. */
    method AbortNext(
        t: TxnId, env: Env, ghost trig: JobId, ghost ms: seq<JobId>, ghost k: nat, ghost commits: bool,
        ghost stuck: set<JobId>, ghost s0: Jobs) returns (ended: bool)
      requires k < |ms| && AbortedUpTo(s0, s, t, trig, ms, k, commits, stuck)
      modifies this
      ensures OnlyTxn(s0, s, t) && (ended <==> ms[k] !in stuck)
      ensures if ended then AbortedUpTo(s0, s, t, trig, ms, k + 1, commits, stuck) else Stalled(s, t)
    {
      var other := s.txns[t].members[0];
      ghost var rest := ms[k..];
      assert other == ms[k] && other in rest && other in s.txns[t].members;
      ended := true;
      if !Completed(s.jobs[other].status) {
        ended := AwaitCompletion(other, env, t, trig, rest, commits, stuck);
      }
      ghost var s1 := s;
      OnlyTxnTrans(s0, old(s), s1, t);
      if ended {
        FinalizeSingle(other);
        NextEnded(s0, s1, s, t, trig, ms, k, commits, stuck);
      } else {
        StallsAt(s, t, trig, rest, commits, stuck);
      }
    }

    method AbortMembers(
        t: TxnId, env: Env, ghost trig: JobId, ghost ms: seq<JobId>, ghost commits: bool, ghost stuck: set<JobId>)
      returns (ended: bool)
      requires AbortedUpTo(s, s, t, trig, ms, 0, commits, stuck)
      modifies this
      ensures OnlyTxn(old(s), s, t) && (ended <==> stuck == {})
      ensures if ended then AbortedUpTo(old(s), s, t, trig, ms, |ms|, commits, stuck) else Stalled(s, t)
    {
      ghost var k := 0;
      while s.txns[t].members != []
        invariant k <= |ms| && AbortedUpTo(old(s), s, t, trig, ms, k, commits, stuck)
        decreases |ms| - k
      {
        ended := AbortNext(t, env, trig, ms, k, commits, stuck, old(s));
        if !ended {
          return;
        }
        k := k + 1;
      }
      ended := true;
      assert forall m :: m !in stuck;
    }

    /** The first loop of job_completed_txn_abort_locked: all other members are force-cancelled, which
        their drivers may not refuse. */
    method CancelOthers(t: TxnId, trig: JobId)
      requires Consistent(s) && RestExcept(s, t) && t in s.txns
      modifies this
      ensures Cancelling(old(s), s, t, trig, Members(old(s).txns[t].members))
    {
      var ms := s.txns[t].members;
      ghost var done: set<JobId> := {};
      for k := 0 to |ms|
        invariant Cancelling(old(s), s, t, trig, done) && done == Members(ms[..k])
      {
        TakeOne(ms, k);
        if ms[k] != trig {
          CancelNext(old(s), s, t, trig, done, ms[k]);
          s := s.(jobs := s.jobs[ms[k] := CancelledJob(s.jobs[ms[k]], true)]);
        }
        done := done + {ms[k]};
      }
      assert ms[..|ms|] == ms;
    }

    method BeginAbort(trig: JobId)
      requires AbortReady(s, trig)
      modifies this
      ensures s == AbortBegun(old(s), trig)
    {
      var t := s.jobs[trig].txn;
      s := s.(txns := s.txns[t := s.txns[t].(aborting := true)],
              jobs := s.jobs[trig := s.jobs[trig].(refcnt := s.jobs[trig].refcnt + 1)],
              refs := s.refs + multiset{trig});
    }

    /** The part of job_completed_txn_abort_locked before it waits for anybody */
    method CancelAll(trig: JobId)
      requires AbortReady(s, trig)
      modifies this
      ensures OnlyTxn(old(s), s, old(s).jobs[trig].txn) && s.refs == old(s).refs + multiset{trig}
      ensures s.trace == old(s).trace
      ensures var t := old(s).jobs[trig].txn; var ms := old(s).txns[t].members;
        AbortedUpTo(s, s, t, trig, ms, 0, Rc(old(s).jobs[trig]) == 0, StuckOf(old(s), ms))
    {
      var t := s.jobs[trig].txn;
      ghost var ms := s.txns[t].members;
      AbortBegins(s, trig);
      BeginAbort(trig);
      ghost var s1 := s;
      CancelOthers(t, trig);
      CancelDone(s1, s, t, trig, ms);
      OnlyTxnTrans(old(s), s1, s, t);
      assert StuckOf(s1, ms) == StuckOf(old(s), ms);
      AbortedNone(s, t, trig, ms, Rc(old(s).jobs[trig]) == 0, StuckOf(s1, ms));
    }

    /** job_unref_locked of the reference that kept trig alive while its transaction ended */
    method DropTempRef(trig: JobId, ghost t: TxnId, ghost s0: Jobs)
      requires Consistent(s0) && trig in s0.jobs && s0.jobs[trig].txn == t && t in s0.txns && t in s.txns
      requires Consistent(s) && RestExcept(s, t) && OnlyTxn(s0, s, t) && s.txns[t].members == [] && trig in s.jobs
      requires s.refs == s0.refs + multiset{trig}
      modifies this
      ensures Valid() && OnlyTxn(s0, s, t) && s.refs == s0.refs && s.txns == old(s).txns && s.trace == old(s).trace
      ensures s.refs[trig] > 0 ==> trig in s.jobs
    {
      TempRefEnds(s0, s, t, trig);
      var b := s.jobs[trig].(refcnt := s.jobs[trig].refcnt - 1);
      s := s.(jobs := if b.refcnt == 0 then s.jobs - {trig} else s.jobs[trig := b], refs := s.refs - multiset{trig});
    }

    /** job_completed_txn_abort_locked: every member ends, all through abort, except that trig commits
        if nothing is wrong with itself.  It returns unless another member was never started. */
    method TxnAbort(trig: JobId, env: Env) returns (ended: bool)
      requires AbortReady(s, trig)
      modifies this
      ensures OnlyTxn(old(s), s, old(s).jobs[trig].txn) && (ended <==> OthersCanFinish(old(s), trig))
      ensures ended ==> Valid() && s.refs == old(s).refs && (s.refs[trig] > 0 ==> trig in s.jobs)
      ensures ended ==> var t := old(s).jobs[trig].txn;
        && s.txns[t] == Txn(true, [])
        && s.trace == old(s).trace + Finals(old(s).txns[t].members, if Rc(old(s).jobs[trig]) == 0 then {trig} else {})
      ensures !ended ==> Stalled(s, old(s).jobs[trig].txn)
    {
      var t := s.jobs[trig].txn;
      ghost var ms := s.txns[t].members;
      ghost var stuck := StuckOf(s, ms);
      StuckIff(s, trig);
      CancelAll(trig);
      ghost var s1 := s;
      ended := AbortMembers(t, env, trig, ms, Rc(old(s).jobs[trig]) == 0, stuck);
      OnlyTxnTrans(old(s), s1, s, t);
      if ended {
        assert ms[..|ms|] == ms && ms[|ms|..] == [];
        DropTempRef(trig, t, old(s));
      }
    }

    // ----------------------------------------------------------------------------------------
    // Completing a transaction

    /** job_prepare_locked */
    method PrepareJob(m: JobId, env: Env) returns (rc: int)
      requires Consistent(s) && m in s.jobs && s.jobs[m].status.Pending? && !s.jobs[m].force
      modifies this
      ensures Consistent(s) && rc == (if env.hasPrepare(m) then env.prepareRet(m) else 0)
      ensures s.trace == old(s).trace + if env.hasPrepare(m) then [PrepareCall(m, rc)] else []
      ensures s == old(s).(jobs := s.jobs, history := s.history, trace := s.trace)
      ensures s.jobs ==
        if rc == 0 then old(s).jobs else old(s).jobs[m := old(s).jobs[m].(ret := rc, status := Aborting)]
    {
      if !env.hasPrepare(m) {
        return 0;
      }
      rc := env.prepareRet(m);
      s := s.(trace := s.trace + [PrepareCall(m, rc)]);
      UpdateRc(m, rc);
    }

    /** job_txn_apply_locked(job, job_prepare_locked): stops at the first failure, ms[f]. */
    method PrepareAll(t: TxnId, env: Env, ghost ms: seq<JobId>) returns (rc: int, ghost f: nat)
      requires PendingPhase(s, t, ms)
      modifies this
      ensures Consistent(s) && s == old(s).(jobs := s.jobs, history := s.history, trace := s.trace)
      ensures rc == 0 ==>
        && f == |ms| && s.jobs == old(s).jobs && s.trace == old(s).trace + Prepares(ms, env.hasPrepare, env.prepareRet)
      ensures rc != 0 ==> f < |ms| && PrepareStops(old(s), s, env, ms, f, rc)
      ensures forall i :: 0 <= i < f ==> env.hasPrepare(ms[i]) ==> env.prepareRet(ms[i]) == 0
    {
      var list := s.txns[t].members;
      f := 0;
      for k := 0 to |list|
        invariant f == k && Preparing(old(s), s, env, ms, k)
      {
        assert list[k] in ms;
        rc := PrepareNext(list[k], env, ms, k, old(s));
        if rc != 0 {
          return;
        }
        f := f + 1;
      }
      rc := 0;
      assert ms[..|ms|] == ms;
    }

    method PrepareNext(m: JobId, env: Env, ghost ms: seq<JobId>, ghost k: nat, ghost s0: Jobs) returns (rc: int)
      requires k < |ms| && m == ms[k] && Preparing(s0, s, env, ms, k)
      requires m in s.jobs && s.jobs[m].status.Pending? && !s.jobs[m].force
      modifies this
      ensures Consistent(s) && s == s0.(jobs := s.jobs, history := s.history, trace := s.trace)
      ensures if rc == 0 then Preparing(s0, s, env, ms, k + 1) else PrepareStops(s0, s, env, ms, k, rc)
    {
      assert ms[..k + 1][..k] == ms[..k] && ms[..k + 1][k] == m;
      rc := PrepareJob(m, env);
    }

    method FinalizeNext(m: JobId, ghost t: TxnId, ghost ms: seq<JobId>, ghost k: nat, ghost trig: JobId, ghost s0: Jobs)
      requires k < |ms| && m == ms[k] && CommittedUpTo(s0, s, t, trig, ms, k)
      modifies this
      ensures CommittedUpTo(s0, s, t, trig, ms, k + 1)
    {
      assert m in ms[k..] && m in s.txns[t].members;
      FinalizeSingle(m);
      NextCommitted(s0, old(s), s, t, trig, ms, k);
    }

    /** job_txn_apply_locked(job, job_finalize_single_locked) */
    method FinalizeAll(t: TxnId, ghost ms: seq<JobId>, ghost trig: JobId)
      requires CommittedUpTo(s, s, t, trig, ms, 0)
      modifies this
      ensures CommittedUpTo(old(s), s, t, trig, ms, |ms|)
    {
      var list := s.txns[t].members;
      assert list == ms[0..] == ms;
      for k := 0 to |list|
        invariant CommittedUpTo(old(s), s, t, trig, ms, k)
      {
        FinalizeNext(list[k], t, ms, k, trig, old(s));
      }
    }

    /** job_do_finalize_locked: two phases.  If every prepare succeeds, all members commit; if one
        fails, all members but `trig` abort. */
    method DoFinalize(trig: JobId, env: Env) returns (ghost f: nat)
      requires trig in s.jobs && s.jobs[trig].txn in s.txns
      requires PendingPhase(s, s.jobs[trig].txn, s.txns[s.jobs[trig].txn].members)
      modifies this
      ensures Valid() && OnlyTxn(old(s), s, old(s).jobs[trig].txn) && s.refs == old(s).refs
      ensures Finalized(old(s), s, trig, env, f)
    {
      var t := s.jobs[trig].txn;
      ghost var ms := s.txns[t].members;
      assert trig in ms;
      var rc;
      rc, f := PrepareAll(t, env, ms);
      if rc != 0 {
        assert ms[f] in old(s).txns[t].members;
        PrepareFailed(old(s), s, t, ms, f, trig);
        ghost var s1 := s;
        var ended := TxnAbort(trig, env);
        assert ended;
        OnlyTxnTrans(old(s), s1, s, t);
      } else {
        PendingSame(old(s), s, t, ms);
        ghost var s1 := s;
        CommitAll(trig, t, ms);
        OnlyTxnTrans(old(s), s1, s, t);
      }
    }

    method CommitAll(trig: JobId, t: TxnId, ghost ms: seq<JobId>)
      requires PendingPhase(s, t, ms) && trig in ms && trig in s.jobs
      modifies this
      ensures Valid() && OnlyTxn(old(s), s, t) && s.refs == old(s).refs && s.txns[t] == Txn(false, [])
      ensures s.trace == old(s).trace + Finals(ms, Members(ms))
    {
      assert trig in s.txns[t].members;
      TempRefBegins(s, t, ms, trig);
      s :=
        s.(jobs := s.jobs[trig := s.jobs[trig].(refcnt := s.jobs[trig].refcnt + 1)], refs := s.refs + multiset{trig});
      ghost var s1 := s;
      CommittedNone(s, t, trig, ms);
      FinalizeAll(t, ms, trig);
      OnlyTxnTrans(old(s), s1, s, t);
      assert ms[..|ms|] == ms && ms[|ms|..] == [];
      DropTempRef(trig, t, old(s));
    }

    /** job_transition_to_pending_locked */
    method MakePendingNext(m: JobId, ghost t: TxnId, ghost ms: seq<JobId>, ghost k: nat, ghost s0: Jobs)
      requires k < |ms| && m == ms[k] && WaitingPhase(s, t, ms, k) && OnlyTxn(s0, s, t) && StatusOnly(s0, s)
      modifies this
      ensures WaitingPhase(s, t, ms, k + 1) && OnlyTxn(s0, s, t) && StatusOnly(s0, s)
      ensures s == old(s).(jobs := s.jobs, history := s.history)
    {
      assert m in ms && m in s.txns[t].members;
      Transition(m, Pending);
      BecomesPending(old(s), s, t, ms, k);
      OnlyTxnTrans(s0, old(s), s, t);
    }

    /** job_txn_apply_locked(job, job_transition_to_pending_locked) */
    method MakePending(t: TxnId, ghost ms: seq<JobId>)
      requires WaitingPhase(s, t, ms, 0)
      modifies this
      ensures PendingPhase(s, t, ms) && RestExcept(s, NO_TXN) && OnlyTxn(old(s), s, t)
      ensures s == old(s).(jobs := s.jobs, history := s.history) && StatusOnly(old(s), s)
    {
      var list := s.txns[t].members;
      for k := 0 to |list|
        invariant WaitingPhase(s, t, ms, k) && OnlyTxn(old(s), s, t)
        invariant s == old(s).(jobs := s.jobs, history := s.history) && StatusOnly(old(s), s)
      {
        MakePendingNext(list[k], t, ms, k, old(s));
      }
      AllPending(s, t, ms);
    }

    /** The loop of job_completed_txn_success_locked.  j waits; whoever else has completed did so
        without an error. */
    method AllCompleted(j: JobId) returns (all: bool)
      requires Valid() && j in s.jobs && s.jobs[j].status.Waiting?
      ensures all ==> WaitingPhase(s, s.jobs[j].txn, s.txns[s.jobs[j].txn].members, 0)
      ensures !all ==> exists m :: m in s.txns[s.jobs[j].txn].members && m in s.jobs && !Completed(s.jobs[m].status)
    {
      var t := s.jobs[j].txn;
      var ms := s.txns[t].members;
      for k := 0 to |ms|
        invariant forall i :: 0 <= i < k ==> ms[i] in s.jobs && s.jobs[ms[i]].status.Waiting? && !s.jobs[ms[i]].force
      {
        assert ms[k] in ms;
        NonePending(s, j, ms[k]);
        if !Completed(s.jobs[ms[k]].status) {
          return false;
        }
        assert s.jobs[ms[k]].ret == 0;
      }
      NonePending(s, j, j);
      return true;
    }

    /** job_txn_apply_locked(job, job_needs_finalize_locked) */
    method NeedsFinalize(t: TxnId) returns (needs: bool)
      requires Consistent(s) && t in s.txns
      ensures needs <==> ManualFinalize(s, t)
    {
      var ms := s.txns[t].members;
      for k := 0 to |ms|
        invariant forall i :: 0 <= i < k ==> ms[i] in s.jobs ==> s.jobs[ms[i]].autoFinalize
      {
        var m := ms[k];
        assert m in s.txns[t].members;
        if !s.jobs[m].autoFinalize {
          return true;
        }
      }
      return false;
    }

    /** job_completed_txn_success_locked up to the point where all members have completed. */
    method WaitForOthers(j: JobId) returns (all: bool)
      requires Valid() && j in s.jobs && s.jobs[j].deferred && !Completed(s.jobs[j].status) && s.jobs[j].ret == 0
      requires !s.jobs[j].force
      modifies this
      ensures Valid() && OnlyTxn(old(s), s, old(s).jobs[j].txn) && s == old(s).(jobs := s.jobs, history := s.history)
      ensures s.jobs == old(s).jobs[j := old(s).jobs[j].(status := Waiting)]
      ensures old(s).jobs[j].txn in old(s).txns && (all <==> !OthersRun(old(s), j))
      ensures all ==> WaitingPhase(s, s.jobs[j].txn, s.txns[s.jobs[j].txn].members, 0)
    {
      Transition(j, Waiting);
      StepAtRest(old(s), s, j);
      all := AllCompleted(j);
      if all {
        OthersDone(old(s), s, j);
      }
    }

    /** job_completed_txn_success_locked */
    method TxnSuccess(j: JobId, env: Env) returns (ghost f: nat)
      requires Valid() && j in s.jobs && s.jobs[j].deferred && !Completed(s.jobs[j].status) && s.jobs[j].ret == 0
      requires !s.jobs[j].force
      modifies this
      ensures Valid() && s.refs == old(s).refs && OnlyTxn(old(s), s, old(s).jobs[j].txn)
      ensures old(s).jobs[j].txn in old(s).txns && Succeeded(old(s), s, j, env, f)
    {
      f := 0;
      var all := WaitForOthers(j);
      if all {
        ghost var s1 := s;
        f := TxnPending(j, env);
        OnlyTxnTrans(old(s), s1, s, s1.jobs[j].txn);
        ManualAfterWaiting(old(s), s1, j);
        FinalizedSame(old(s), s1, s, j, env, f);
      }
    }

    /** The part of job_completed_txn_success_locked that is reached when all members wait. */
    method TxnPending(j: JobId, env: Env) returns (ghost f: nat)
      requires j in s.jobs && s.jobs[j].txn in s.txns
      requires WaitingPhase(s, s.jobs[j].txn, s.txns[s.jobs[j].txn].members, 0)
      modifies this
      ensures Valid() && s.refs == old(s).refs && OnlyTxn(old(s), s, old(s).jobs[j].txn)
      ensures var t := old(s).jobs[j].txn;
        if ManualFinalize(old(s), t)
        then s.txns == old(s).txns && s.trace == old(s).trace && PendingPhase(s, t, old(s).txns[t].members)
        else Finalized(old(s), s, j, env, f)
    {
      f := 0;
      var t := s.jobs[j].txn;
      ghost var ms := s.txns[t].members;
      assert j in ms;
      MakePending(t, ms);
      ghost var s2 := s;
      assert j in s.txns[t].members;
      ManualSame(old(s), s, t);
      var needs := NeedsFinalize(t);
      if !needs {
        f := DoFinalize(j, env);
        OnlyTxnTrans(old(s), s2, s, t);
        FinalizedSame(old(s), s2, s, j, env, f);
      }
    }

    /** job_completed_locked: a job that failed or was force-cancelled takes its whole transaction
        down, and nobody commits. */
    method JobCompleted(j: JobId, env: Env) returns (ended: bool, ghost f: nat)
      requires Valid() && j in s.jobs && !Completed(s.jobs[j].status)
      requires s.jobs[j].deferred || (s.jobs[j].status.Created? && s.jobs[j].force)
      modifies this
      ensures OnlyTxn(old(s), s, old(s).jobs[j].txn)
      ensures ended <==> Rc(old(s).jobs[j]) == 0 || OthersCanFinish(old(s), j)
      ensures ended ==> Valid() && s.refs == old(s).refs && (Rc(old(s).jobs[j]) != 0 && s.refs[j] > 0 ==> j in s.jobs)
      ensures !ended ==> Stalled(s, old(s).jobs[j].txn)
      ensures ended && Rc(old(s).jobs[j]) != 0 ==> AllAborted(old(s), s, j)
      ensures Rc(old(s).jobs[j]) == 0 ==> old(s).jobs[j].txn in old(s).txns && Succeeded(old(s), s, j, env, f)
    {
      f := 0;
      UpdateRc(j, s.jobs[j].ret);
      if s.jobs[j].ret != 0 {
        ghost var s1 := s;
        AbortReadyFromRest(old(s), s, j);
        ended := TxnAbort(j, env);
        OnlyTxnTrans(old(s), s1, s, s1.jobs[j].txn);
      } else {
        f := TxnSuccess(j, env);
        ended := true;
      }
    }

    // ----------------------------------------------------------------------------------------
    // Operations.  Each of them can be called whenever no other is in progress.

    constructor ()
      ensures Valid()
      ensures s.jobs == map[] && s.txns == map[] && s.trace == [] && s.refs == multiset{} && s.history == map[]
    {
      s := Jobs(map[], map[], [], multiset{}, map[]);
    }

    /** job_txn_new */
    method NewTxn(t: TxnId)
      requires Valid() && t !in s.txns && t != NO_TXN
      modifies this
      ensures Valid() && s == old(s).(txns := old(s).txns[t := Txn(false, [])])
    {
      NewTxnKeeps(s, t);
      s := s.(txns := s.txns[t := Txn(false, [])]);
    }

    /** job_create in transaction t.  Members are added before the transaction comes to its end. */
    method Create(j: JobId, t: TxnId, autoFinalize: bool, autoDismiss: bool)
      requires Valid() && j !in s.history && j !in s.jobs && s.refs[j] == 0 && t in s.txns && !s.txns[t].aborting
      requires forall m {:trigger m in s.txns[t].members} ::
        m in s.txns[t].members && m in s.jobs ==> !s.jobs[m].status.Pending?
      modifies this
      ensures Valid()
      ensures s == WithJob(old(s), j, Job(Created, 0, false, false, false, false, autoFinalize, autoDismiss, 1, t))
    {
      var b := Job(Created, 0, false, false, false, false, autoFinalize, autoDismiss, 1, t);
      CreateKeeps(s, j, b);
      s := s.(jobs := s.jobs[j := b], txns := s.txns[t := s.txns[t].(members := [j] + s.txns[t].members)],
              history := s.history[j := [Undefined, Created]]);
    }

    /** job_start */
    method Start(j: JobId)
      requires Valid() && j in s.jobs && s.jobs[j].status.Created?
      modifies this
      ensures Valid() && j in s.jobs
      ensures s ==
          old(s).(jobs := old(s).jobs[j := old(s).jobs[j].(started := true, status := Running)], history := s.history)
    {
      StartKeeps(s, j);
      s := s.(jobs := s.jobs[j := s.jobs[j].(started := true, status := Running)],
          history := s.history[j := s.history[j] + [Running]]);
      StepAtRest(old(s), s, j);
    }

    /** job_pause_point_locked, up to the point where the coroutine yields */
    method PausePoint(j: JobId)
      requires Valid() && j in s.jobs && (s.jobs[j].status.Running? || s.jobs[j].status.Ready?) && !s.jobs[j].deferred
      requires !s.jobs[j].force
      modifies this
      ensures Valid() && Moved(old(s), s, j, if old(s).jobs[j].status.Ready? then Standby else Paused)
    {
      Transition(j, if s.jobs[j].status.Ready? then Standby else Paused);
      StepAtRest(old(s), s, j);
    }

    /** The coroutine is woken up in job_pause_point_locked and takes back its old status. */
    method WakeUp(j: JobId)
      requires Valid() && j in s.jobs && (s.jobs[j].status.Paused? || s.jobs[j].status.Standby?)
      modifies this
      ensures Valid() && Moved(old(s), s, j, if old(s).jobs[j].status.Standby? then Ready else Running)
    {
      Transition(j, if s.jobs[j].status.Standby? then Ready else Running);
      StepAtRest(old(s), s, j);
    }

    /** job_transition_to_ready */
    method BecomeReady(j: JobId)
      requires Valid() && j in s.jobs && s.jobs[j].status.Running? && !s.jobs[j].deferred
      modifies this
      ensures Valid() && Moved(old(s), s, j, Ready)
    {
      Transition(j, Ready);
      StepAtRest(old(s), s, j);
    }

    /** The end of job_co_entry: run has returned, and job_exit is scheduled. */
    method RunReturns(j: JobId, ret: int)
      requires Valid() && j in s.jobs && (s.jobs[j].status.Running? || s.jobs[j].status.Ready?) && !s.jobs[j].deferred
      modifies this
      ensures Valid() && s == old(s).(jobs := old(s).jobs[j := old(s).jobs[j].(ret := ret, deferred := true)])
    {
      UpdateKeeps(s, j, s.jobs[j].(ret := ret, deferred := true));
      s := s.(jobs := s.jobs[j := s.jobs[j].(ret := ret, deferred := true)]);
      StepAtRest(old(s), s, j);
    }

    /** job_exit */
    method Exit(j: JobId, env: Env) returns (ended: bool, ghost f: nat)
      requires Valid() && j in s.jobs && s.jobs[j].deferred && !Completed(s.jobs[j].status)
      modifies this
      ensures OnlyTxn(old(s), s, old(s).jobs[j].txn)
      ensures ended <==> Rc(old(s).jobs[j]) == 0 || OthersCanFinish(old(s), j)
      ensures ended ==> Valid() && s.refs == old(s).refs && (Rc(old(s).jobs[j]) != 0 && s.refs[j] > 0 ==> j in s.jobs)
      ensures !ended ==> Stalled(s, old(s).jobs[j].txn)
      ensures ended && Rc(old(s).jobs[j]) != 0 ==> AllAborted(old(s), s, j)
      ensures Rc(old(s).jobs[j]) == 0 ==> old(s).jobs[j].txn in old(s).txns && Succeeded(old(s), s, j, env, f)
    {
      ended, f := JobCompleted(j, env);
    }

    /** job_cancel_locked; `eff` is what the driver's cancel callback makes of `force`.  It may turn a
        forced cancel into nothing less, and has no say over a job that was never started. */
    method CancelJob(j: JobId, force: bool, eff: bool, env: Env) returns (ended: bool)
      requires Valid() && j in s.jobs && !s.jobs[j].status.Null?
      requires force ==> eff
      requires eff || s.jobs[j].started
      modifies this
      ensures ended <==> CancelAborts(old(s).jobs[j], eff) ==> OthersCanFinish(old(s), j)
      ensures ended ==> Valid() && s.refs == old(s).refs && (s.refs[j] > 0 ==> j in s.jobs)
      ensures !ended ==> Stalled(s, old(s).jobs[j].txn)
      ensures ended && CancelAborts(old(s).jobs[j], eff) ==> AllAborted(old(s), s, j)
      ensures !CancelAborts(old(s).jobs[j], eff) && !old(s).jobs[j].status.Concluded?
        ==> s == old(s).(jobs := old(s).jobs[j := CancelledJob(old(s).jobs[j], eff)])
      ensures old(s).jobs[j].status.Concluded? ==> Ended(old(s), s, j) && (j in s.jobs ==> s.jobs[j].status.Null?)
      ensures !old(s).jobs[j].status.Concluded? ==> OnlyTxn(old(s), s, old(s).jobs[j].txn)
    {
      if s.jobs[j].status.Concluded? {
        DismissIt(j);
        return true;
      }
      UpdateKeeps(s, j, CancelledJob(s.jobs[j], eff));
      s := s.(jobs := s.jobs[j := CancelledJob(s.jobs[j], eff)]);
      ended := AfterCancel(j, env, old(s), eff);
    }

    method AfterCancel(j: JobId, env: Env, ghost s0: Jobs, ghost eff: bool) returns (ended: bool)
      requires Consistent(s0) && RestExcept(s0, NO_TXN) && j in s0.jobs && s0.jobs[j].txn != NO_TXN
      requires eff || s0.jobs[j].started
      requires Consistent(s) && s == s0.(jobs := s0.jobs[j := CancelledJob(s0.jobs[j], eff)])
      modifies this
      ensures ended <==> CancelAborts(s0.jobs[j], eff) ==> OthersCanFinish(s0, j)
      ensures ended ==> Valid() && s.refs == s0.refs && (s.refs[j] > 0 ==> j in s.jobs)
      ensures !ended ==> Stalled(s, s0.jobs[j].txn)
      ensures ended && CancelAborts(s0.jobs[j], eff) ==> AllAborted(s0, s, j)
      ensures !CancelAborts(s0.jobs[j], eff) ==> s == old(s)
      ensures OnlyTxn(s0, s, s0.jobs[j].txn)
    {
      CancelledIsSame(s0, s, j, eff);
      ended := true;
      if !s.jobs[j].started {
        ghost var f;
        StepAtRest(s0, s, j);
        ended, f := JobCompleted(j, env);
      } else if s.jobs[j].deferred && s.jobs[j].force {
        AbortReadyFromRest(s0, s, j);
        ended := TxnAbort(j, env);
      } else {
        StepAtRest(s0, s, j);
      }
      OnlyTxnTrans(s0, old(s), s, s0.jobs[j].txn);
    }

    method DismissIt(j: JobId)
      requires Valid() && j in s.jobs && s.jobs[j].status.Concluded?
      modifies this
      ensures Valid() && Ended(old(s), s, j) && s.trace == old(s).trace
      ensures j in s.jobs ==> s.jobs[j].status.Null?
    {
      DoDismiss(j);
      EndAtRest(old(s), s, j);
    }

    /** job_user_cancel_locked */
    method UserCancel(j: JobId, force: bool, eff: bool, env: Env) returns (ok: bool, ended: bool)
      requires Valid() && j in s.jobs
      requires force ==> eff
      requires eff || s.jobs[j].started
      modifies this
      ensures (ok <==> Accepts(Cancel, old(s).jobs[j].status)) && (!ok ==> s == old(s))
      ensures ended <==> ok && CancelAborts(old(s).jobs[j], eff) ==> OthersCanFinish(old(s), j)
      ensures ended ==> Valid()
      ensures !ended ==> Stalled(s, old(s).jobs[j].txn)
      ensures ok && ended && CancelAborts(old(s).jobs[j], eff) ==> AllAborted(old(s), s, j)
    {
      if !Accepts(Cancel, s.jobs[j].status) {
        return false, true;
      }
      ended := CancelJob(j, force, eff, env);
      ok := true;
    }

    /** job_cancel_sync_locked with force: the job is referenced, cancelled and waited for. */
    method CancelSync(j: JobId, env: Env) returns (ended: bool)
      requires Valid() && j in s.jobs && !s.jobs[j].status.Null?
      modifies this
      ensures ended <==> old(s).jobs[j].status.Concluded? || OthersCanFinish(old(s), j)
      ensures OnlyTxn(old(s), s, old(s).jobs[j].txn)
      ensures ended ==> Valid() && s.refs == old(s).refs
      ensures !ended ==> Stalled(s, old(s).jobs[j].txn)
      ensures ended && !old(s).jobs[j].status.Concluded? ==> AllAborted(old(s), s, j)
      ensures
        old(s).jobs[j].status.Concluded? ==> OnlyJob(old(s).jobs, s.jobs, j) && (j in s.jobs ==> s.jobs[j].status.Null?)
    {
      Ref(j);
      RefOnly(old(s), j);
      ended := CancelReferenced(j, env);
      OnlyTxnTrans(old(s), Referenced(old(s), j), s, old(s).jobs[j].txn);
      if ended {
        UnrefOnly(old(s), s, j);
        Unref(j);
      }
    }

    /** The cancel and the wait of job_cancel_sync_locked */
    method CancelReferenced(j: JobId, env: Env) returns (ended: bool)
      requires Valid() && j in s.jobs && !s.jobs[j].status.Null? && s.refs[j] > 0
      modifies this
      ensures ended <==> old(s).jobs[j].status.Concluded? || OthersCanFinish(old(s), j)
      ensures OnlyTxn(old(s), s, old(s).jobs[j].txn)
      ensures ended ==> Valid() && s.refs == old(s).refs && j in s.jobs
      ensures !ended ==> Stalled(s, old(s).jobs[j].txn)
      ensures ended && !old(s).jobs[j].status.Concluded? ==> AllAborted(old(s), s, j)
      ensures old(s).jobs[j].status.Concluded? ==> OnlyJob(old(s).jobs, s.jobs, j) && s.jobs[j].status.Null?
    {
      var concluded := s.jobs[j].status.Concluded?;
      ended := CancelJob(j, true, true, env);
      if concluded {
        EndedOnlyTxn(old(s), s, j);
      } else if ended {
        EndedIsCompleted(old(s), s, j);
        if !Completed(s.jobs[j].status) {
          ended := FinishCancelled(j, env, old(s));
        }
      }
    }

    /** A job that was force-cancelled while it runs is waited for: it wakes up and exits. */
    method FinishCancelled(j: JobId, env: Env, ghost s0: Jobs) returns (ended: bool)
      requires Consistent(s0) && RestExcept(s0, NO_TXN) && j in s0.jobs && s0.jobs[j].txn != NO_TXN && s0.refs[j] > 0
      requires Valid() && s == s0.(jobs := s0.jobs[j := CancelledJob(s0.jobs[j], true)]) && s.jobs[j].started
      requires !Completed(s.jobs[j].status)
      modifies this
      ensures OnlyTxn(s0, s, s0.jobs[j].txn) && (ended <==> OthersCanFinish(s0, j))
      ensures ended ==> Valid() && s.refs == s0.refs && j in s.jobs && AllAborted(s0, s, j)
      ensures !ended ==> Stalled(s, s0.jobs[j].txn)
    {
      assert OnlyTxn(s0, s, s0.jobs[j].txn);
      ExitAborting(j, env.runRet(j));
      ghost var s1 := s;
      AbortReadyFromRest(s0, s, j);
      ended := TxnAbort(j, env);
      OnlyTxnTrans(s0, s1, s, s0.jobs[j].txn);
    }

    /** job_finalize_locked */
    method FinalizeJob(j: JobId, env: Env) returns (ok: bool, ghost f: nat)
      requires Valid() && j in s.jobs
      modifies this
      ensures Valid() && (ok <==> old(s).jobs[j].status.Pending?) && (!ok ==> s == old(s))
      ensures ok ==> Finalized(old(s), s, j, env, f) && OnlyTxn(old(s), s, old(s).jobs[j].txn) && s.refs == old(s).refs
    {
      f := 0;
      if !Accepts(Finalize, s.jobs[j].status) {
        return false, f;
      }
      PendingFromRest(s, j);
      f := DoFinalize(j, env);
      ok := true;
    }

    /** job_dismiss_locked */
    method DismissJob(j: JobId) returns (ok: bool)
      requires Valid() && j in s.jobs
      modifies this
      ensures Valid() && (ok <==> old(s).jobs[j].status.Concluded?) && (!ok ==> s == old(s))
      ensures ok ==> Ended(old(s), s, j) && (j in s.jobs ==> s.jobs[j].status.Null?)
    {
      if !Accepts(Dismiss, s.jobs[j].status) {
        return false;
      }
      DismissIt(j);
      ok := true;
    }

    /** job_early_fail */
    method EarlyFail(j: JobId)
      requires Valid() && j in s.jobs && s.jobs[j].status.Created?
      modifies this
      ensures Valid() && Ended(old(s), s, j) && s.trace == old(s).trace
      ensures j in s.jobs ==> s.jobs[j].status.Null?
    {
      DoDismiss(j);
      EndAtRest(old(s), s, j);
    }

    /** job_ref_locked */
    method Ref(j: JobId)
      requires Valid() && j in s.jobs
      modifies this
      ensures Valid() && s == Referenced(old(s), j)
    {
      RefKeeps(s, j);
      s := s.(jobs := s.jobs[j := s.jobs[j].(refcnt := s.jobs[j].refcnt + 1)], refs := s.refs + multiset{j});
      StepAtRest(old(s), s, j);
    }

    /** job_unref_locked: a job is freed only when it is NULL and in no transaction. */
    method Unref(j: JobId)
      requires Valid() && j in s.jobs && s.refs[j] > 0
      modifies this
      ensures Valid() && s == UnrefState(old(s), j)
      ensures j !in s.jobs ==> old(s).jobs[j].status.Null? && old(s).jobs[j].txn == NO_TXN
    {
      UnrefKeeps(s, j);
      UnrefAtRest(s, j);
      var b := s.jobs[j].(refcnt := s.jobs[j].refcnt - 1);
      s := s.(jobs := if b.refcnt == 0 then s.jobs - {j} else s.jobs[j := b], refs := s.refs - multiset{j});
    }
  }

  /** What the environment does while the job layer waits or calls out: the value that a driver's run
      returns, which other members exit while one is waited for, which drivers have a prepare
      callback, and what it returns. */
  datatype Env = Env(
    runRet: JobId -> int, alsoExit: JobId -> seq<JobId>, hasPrepare: JobId -> bool, prepareRet: JobId -> int)

  /** How a finalised transaction ends; f is the number of members whose prepare callback succeeded
      before one failed, or the number of all members. */
  ghost predicate Finalized(s: Jobs, s': Jobs, trig: JobId, env: Env, f: nat)
    requires trig in s.jobs && s.jobs[trig].txn in s.txns
  {
    var t := s.jobs[trig].txn;
    var ms := s.txns[t].members;
    && f <= |ms| && t in s'.txns && s'.txns[t].members == []
    && (forall i :: 0 <= i < f ==> env.hasPrepare(ms[i]) ==> env.prepareRet(ms[i]) == 0)
    && (f == |ms| ==> s'.trace == s.trace + Prepares(ms, env.hasPrepare, env.prepareRet) + Finals(ms, Members(ms)))
    && (f < |ms| ==>
          && env.hasPrepare(ms[f]) && env.prepareRet(ms[f]) != 0
          && var committed := if ms[f] == trig then {} else {trig};
             s'.trace == s.trace + Prepares(ms[..f + 1], env.hasPrepare, env.prepareRet) + Finals(ms, committed))
  }

  /** What came before the finalisation, other than driver calls, does not matter. */
  lemma FinalizedSame(s: Jobs, s1: Jobs, s': Jobs, trig: JobId, env: Env, f: nat)
    requires trig in s.jobs && s.jobs[trig].txn in s.txns && trig in s1.jobs && s1.jobs[trig].txn == s.jobs[trig].txn
    requires s1.txns == s.txns && s1.trace == s.trace
    ensures Finalized(s1, s', trig, env, f) <==> Finalized(s, s', trig, env, f)
  {
  }

  /** The first k members of ms have been prepared without an error. */
  ghost predicate Preparing(s0: Jobs, s: Jobs, env: Env, ms: seq<JobId>, k: nat)
    requires k <= |ms|
  {
    && Consistent(s) && s == s0.(history := s.history, trace := s.trace)
    && s.trace == s0.trace + Prepares(ms[..k], env.hasPrepare, env.prepareRet)
    && forall i :: 0 <= i < k ==> env.hasPrepare(ms[i]) ==> env.prepareRet(ms[i]) == 0
  }

  /** The prepare callback of ms[f] has failed. */
  ghost predicate PrepareStops(s0: Jobs, s: Jobs, env: Env, ms: seq<JobId>, f: nat, rc: int)
    requires f < |ms|
  {
    && env.hasPrepare(ms[f]) && env.prepareRet(ms[f]) == rc && ms[f] in s0.jobs
    && s.jobs == s0.jobs[ms[f] := s0.jobs[ms[f]].(ret := rc, status := Aborting)]
    && s.trace == s0.trace + Prepares(ms[..f + 1], env.hasPrepare, env.prepareRet)
  }

  /** The members ms[..k] have committed and ended, and ms[k..] are left. */
  ghost predicate CommittedUpTo(s0: Jobs, s: Jobs, t: TxnId, trig: JobId, ms: seq<JobId>, k: nat)
    requires k <= |ms|
  {
    && PendingPhase(s, t, ms[k..]) && OnlyTxn(s0, s, t) && s.refs == s0.refs && trig in s.jobs && s.refs[trig] > 0
    && s.trace == s0.trace + Finals(ms[..k], Members(ms))
  }

  lemma CommittedNone(s: Jobs, t: TxnId, trig: JobId, ms: seq<JobId>)
    requires PendingPhase(s, t, ms) && trig in s.jobs && s.refs[trig] > 0
    ensures CommittedUpTo(s, s, t, trig, ms, 0)
  {
    assert ms[0..] == ms && ms[..0] == [];
    assert OnlyTxn(s, s, t);
  }

  lemma NextCommitted(s0: Jobs, s: Jobs, s': Jobs, t: TxnId, trig: JobId, ms: seq<JobId>, k: nat)
    requires k < |ms| && CommittedUpTo(s0, s, t, trig, ms, k)
    requires Consistent(s') && Ended(s, s', ms[k]) && s'.trace == s.trace + FinalCalls(ms[k], Rc(s.jobs[ms[k]]) == 0)
    ensures CommittedUpTo(s0, s', t, trig, ms, k + 1)
  {
    assert ms[k] in ms[k..] && ms[k] in s.txns[t].members && ms[k] in Members(ms);
    assert ms[k..][0] == ms[k] && ms[k..][1..] == ms[k + 1..];
    PendingEnds(s, s', t, ms[k..]);
    NextFrame(s0, s, s', t, trig, ms[k]);
    NextTrace(s0.trace, s.trace, s'.trace, ms, k, Members(ms));
  }

  /** Only the status of job j has changed, which its history records. */
  ghost predicate Moved(s: Jobs, s': Jobs, j: JobId, s1: Status) {
    && j in s.jobs && j in s.history
    && s' == s.(jobs := s.jobs[j := s.jobs[j].(status := s1)], history := s.history[j := s.history[j] + [s1]])
  }

  ghost predicate ManualFinalize(s: Jobs, t: TxnId)
    requires t in s.txns
  {
    exists m :: m in s.txns[t].members && m in s.jobs && !s.jobs[m].autoFinalize
  }

  /** Some other member of j's transaction has not completed yet. */
  ghost predicate OthersRun(s: Jobs, j: JobId)
    requires j in s.jobs && s.jobs[j].txn in s.txns
  {
    exists m :: m in s.txns[s.jobs[j].txn].members && m != j && m in s.jobs && !Completed(s.jobs[m].status)
  }

  /** j waits for another member. */
  ghost predicate Waits(s: Jobs, s': Jobs, j: JobId)
    requires j in s.jobs
  {
    s'.txns == s.txns && s'.trace == s.trace && s'.jobs == s.jobs[j := s.jobs[j].(status := Waiting)]
  }

  /** What becomes of a transaction in which j has succeeded: it goes on while other members run; then
      all members are pending until one of them is finalised by hand; otherwise it is finalised. */
  ghost predicate Succeeded(s: Jobs, s': Jobs, j: JobId, env: Env, f: nat)
    requires j in s.jobs && s.jobs[j].txn in s.txns
  {
    var t := s.jobs[j].txn;
    if OthersRun(s, j) then Waits(s, s', j)
    else if ManualFinalize(s, t) then s'.txns == s.txns && s'.trace == s.trace && PendingPhase(s', t, s.txns[t].members)
    else Finalized(s, s', j, env, f)
  }

  lemma CancelledIsSame(s: Jobs, s': Jobs, j: JobId, eff: bool)
    requires j in s.jobs && s' == s.(jobs := s.jobs[j := CancelledJob(s.jobs[j], eff)])
    ensures OnlyTxn(s, s', s.jobs[j].txn) && (OthersCanFinish(s', j) <==> OthersCanFinish(s, j))
  {
  }

  lemma TraceKeeps(s: Jobs, calls: seq<Call>)
    requires Consistent(s)
    ensures Consistent(s.(trace := s.trace + calls))
  {
  }

  /** j's record changes before it ends. */
  lemma EndedAfter(s0: Jobs, s1: Jobs, s': Jobs, j: JobId)
    requires j in s0.jobs && j in s1.jobs && s1.jobs == s0.jobs[j := s1.jobs[j]] && SameJob(s0.jobs[j], s1.jobs[j])
    requires s1.jobs[j].txn == s0.jobs[j].txn && s1.txns == s0.txns && s1.refs == s0.refs && Ended(s1, s', j)
    ensures Ended(s0, s', j)
  {
  }

  lemma OthersDone(s: Jobs, s': Jobs, j: JobId)
    requires j in s.jobs && s.jobs[j].txn in s.txns && s'.jobs == s.jobs[j := s.jobs[j].(status := Waiting)]
    requires WaitingPhase(s', s.jobs[j].txn, s.txns[s.jobs[j].txn].members, 0)
    ensures !OthersRun(s, j)
  {
    var ms := s.txns[s.jobs[j].txn].members;
    forall m | m in ms && m != j && m in s.jobs ensures Completed(s.jobs[m].status) {
      var i :| 0 <= i < |ms| && ms[i] == m;
      assert s'.jobs[ms[i]].status.Waiting?;
    }
  }

  ghost predicate StatusOnly(s: Jobs, s': Jobs) {
    && s'.jobs.Keys == s.jobs.Keys
    && forall j {:trigger s'.jobs[j]} :: j in s.jobs ==> s'.jobs[j] == s.jobs[j].(status := s'.jobs[j].status)
  }

  lemma ManualAfterWaiting(s: Jobs, s': Jobs, j: JobId)
    requires j in s.jobs && s.jobs[j].txn in s.txns && s'.txns == s.txns
    requires s'.jobs == s.jobs[j := s.jobs[j].(status := Waiting)]
    ensures ManualFinalize(s', s.jobs[j].txn) <==> ManualFinalize(s, s.jobs[j].txn)
  {
    assert StatusOnly(s, s');
    ManualSame(s, s', s.jobs[j].txn);
  }

  lemma ManualSame(s: Jobs, s': Jobs, t: TxnId)
    requires t in s.txns && s'.txns == s.txns && StatusOnly(s, s')
    ensures ManualFinalize(s', t) <==> ManualFinalize(s, t)
  {
    if m :| m in s.txns[t].members && m in s.jobs && !s.jobs[m].autoFinalize { assert !s'.jobs[m].autoFinalize; }
    if m :| m in s'.txns[t].members && m in s'.jobs && !s'.jobs[m].autoFinalize { assert !s.jobs[m].autoFinalize; }
  }

  /** Every member of j's transaction has ended through abort. */
  ghost predicate AllAborted(s: Jobs, s': Jobs, j: JobId)
    requires j in s.jobs
  {
    var t := s.jobs[j].txn;
    t in s.txns && t in s'.txns && s'.txns[t] == Txn(true, []) && s'.trace == s.trace + Finals(s.txns[t].members, {})
  }

  lemma NewTxnKeeps(s: Jobs, t: TxnId)
    requires Consistent(s) && RestExcept(s, NO_TXN) && t !in s.txns && t != NO_TXN
    ensures var s' := s.(txns := s.txns[t := Txn(false, [])]); Consistent(s') && RestExcept(s', NO_TXN)
  {
    var s' := s.(txns := s.txns[t := Txn(false, [])]);
    forall u, i | u in s'.txns ensures i in s'.txns[u].members <==> i in s'.jobs && s'.jobs[i].txn == u {
      if u == t {
        assert i in s.jobs ==> JobOk(s.jobs[i]);
      } else {
        assert i in s.txns[u].members <==> i in s.jobs && s.jobs[i].txn == u;
      }
    }
    forall u | u in s'.txns && u != NO_TXN ensures TxnAtRest(s', u) {
      if u != t { assert TxnAtRest(s, u); }
    }
  }

  lemma StartKeeps(s: Jobs, j: JobId)
    requires Consistent(s) && j in s.jobs && s.jobs[j].status.Created?
    ensures Consistent(s.(jobs := s.jobs[j := s.jobs[j].(started := true, status := Running)],
        history := s.history[j := s.history[j] + [Running]]))
  {
    var s' := s.(jobs := s.jobs[j := s.jobs[j].(started := true, status := Running)],
        history := s.history[j := s.history[j] + [Running]]);
    HistoryGrows(Created, s.history[j], Running);
    forall t, i | t in s'.txns ensures i in s'.txns[t].members <==> i in s'.jobs && s'.jobs[i].txn == t {
      assert i in s.txns[t].members <==> i in s.jobs && s.jobs[i].txn == t;
    }
  }

  lemma PendingFromRest(s: Jobs, j: JobId)
    requires Consistent(s) && RestExcept(s, NO_TXN) && j in s.jobs && s.jobs[j].status.Pending?
    ensures s.jobs[j].txn in s.txns && PendingPhase(s, s.jobs[j].txn, s.txns[s.jobs[j].txn].members)
  {
    var t := s.jobs[j].txn;
    assert TxnAtRest(s, t) && j in s.txns[t].members;
    forall m | m in s.txns[t].members ensures m in s.jobs && s.jobs[m].status.Pending? && !s.jobs[m].force {}
  }

  lemma UnrefAtRest(s: Jobs, j: JobId)
    requires Consistent(s) && RestExcept(s, NO_TXN) && j in s.jobs && s.refs[j] > 0
    ensures RestExcept(UnrefState(s, j), NO_TXN)
  {
    var s' := UnrefState(s, j);
    UnrefKeeps(s, j);
    forall u | u in s'.txns && u != NO_TXN ensures TxnAtRest(s', u) {
      assert TxnAtRest(s, u);
      forall a | a in s'.txns[u].members
        ensures a in s.jobs && a in s'.jobs && s'.jobs[a].status == s.jobs[a].status
      {
        assert a in s.txns[u].members;
      }
    }
  }

  /** A cancel completes j's transaction at once, through abort. */
  predicate CancelAborts(b: Job, eff: bool) {
    !b.status.Concluded? && (!b.started || (b.deferred && (eff || b.force)))
  }

  /** A reference to j changes nothing else. */
  lemma RefOnly(s: Jobs, j: JobId)
    requires j in s.jobs
    ensures OnlyTxn(s, Referenced(s, j), s.jobs[j].txn) && OnlyJob(s.jobs, Referenced(s, j).jobs, j)
    ensures OthersCanFinish(Referenced(s, j), j) <==> OthersCanFinish(s, j)
  {
  }

  lemma UnrefOnly(s0: Jobs, s: Jobs, j: JobId)
    requires j in s0.jobs && j in s.jobs && OnlyTxn(s0, s, s0.jobs[j].txn)
    ensures OnlyTxn(s0, UnrefState(s, j), s0.jobs[j].txn) && OnlyJob(s.jobs, UnrefState(s, j).jobs, j)
  {
  }

  /** No member of an aborted transaction is left running. */
  lemma EndedIsCompleted(s: Jobs, s': Jobs, j: JobId)
    requires Consistent(s') && j in s.jobs && j in s'.jobs && OnlyTxn(s, s', s.jobs[j].txn)
    ensures AllAborted(s, s', j) ==> Completed(s'.jobs[j].status)
  {
    if AllAborted(s, s', j) { assert j !in s'.txns[s.jobs[j].txn].members; }
  }

  // ------------------------------------------------------------------------------------------
  // Where the conditions on callers come from

  /** Cancelling a job that was never started completes it at once.  The status table allows that
      exactly when the driver lets the cancel count as forced. */
  lemma CancelUnstartedAllowed(b: Job, eff: bool)
    requires JobOk(b) && b.status.Created? && !b.force
    ensures Allowed(Created, if Rc(CancelledJob(b, eff)) != 0 then Aborting else Waiting) <==> eff
  {
  }

  /** What a job may do on its own while another thread waits for it: only its coroutine acts. */
  predicate OwnStep(b: Job, b': Job) {
    && b.started
    && ((!b.deferred && (b.status.Running? || b.status.Ready?) && b' == b.(deferred := true, ret := b'.ret))
        || (&& b.deferred && !Completed(b.status)
            && b' == b.(status := if Rc(b) != 0 then Aborting else Waiting, ret := Rc(b)))
        || (b.status.Running? && !b.deferred && !b.force && (b' == b.(status := Paused) || b' == b.(status := Ready)))
        || (b.status.Ready? && !b.deferred && !b.force && b' == b.(status := Standby))
        || (b.status.Paused? && b' == b.(status := Running))
        || (b.status.Standby? && b' == b.(status := Ready)))
  }

  predicate OwnRun(r: seq<Job>) {
    r != [] && forall i :: 0 <= i < |r| - 1 ==> OwnStep(r[i], r[i + 1])
  }

  /** Some behaviour of the job lets job_finish_sync_locked return. */
  ghost predicate WaitCanEnd(b: Job) {
    exists r: seq<Job> :: OwnRun(r) && r[0] == b && Completed(r[|r| - 1].status)
  }

  /** The abort of transaction t waits for its first member, which it has cancelled, and which nothing
      can bring to completion. */
  ghost predicate Stalled(s: Jobs, t: TxnId) {
    && Consistent(s) && RestExcept(s, t) && t in s.txns && s.txns[t].aborting && s.txns[t].members != []
    && var m := s.txns[t].members[0]; m in s.jobs && s.jobs[m].force && !WaitCanEnd(s.jobs[m])
  }

  /** The members ms[..k] of an aborting transaction have ended, and ms[k..] are left. */
  ghost predicate AbortedUpTo(
    s0: Jobs, s: Jobs, t: TxnId, trig: JobId, ms: seq<JobId>, k: nat, commits: bool, stuck: set<JobId>)
    requires k <= |ms|
  {
    && AbortPhase(s, t, trig, ms[k..], commits, stuck) && OnlyTxn(s0, s, t)
    && s.refs == s0.refs && trig in s.jobs && s.refs[trig] > 0
    && s.trace == s0.trace + Finals(ms[..k], if commits then {trig} else {})
    && (forall m :: m in stuck ==> m in ms[k..])
  }

  lemma AbortedNone(s: Jobs, t: TxnId, trig: JobId, ms: seq<JobId>, commits: bool, stuck: set<JobId>)
    requires AbortPhase(s, t, trig, ms, commits, stuck) && trig in s.jobs && s.refs[trig] > 0
    requires forall m :: m in stuck ==> m in ms
    ensures AbortedUpTo(s, s, t, trig, ms, 0, commits, stuck)
  {
    assert ms[0..] == ms && ms[..0] == [];
    assert OnlyTxn(s, s, t);
  }

  /** One more member ends: state s1, in which it has completed, becomes s'. */
  lemma NextEnded(
    s0: Jobs, s1: Jobs, s': Jobs, t: TxnId, trig: JobId, ms: seq<JobId>, k: nat, commits: bool, stuck: set<JobId>)
    requires k < |ms| && AbortedUpTo(s0, s1, t, trig, ms, k, commits, stuck) && ms[k] !in stuck
    requires Consistent(s') && Ended(s1, s', ms[k])
    requires s'.trace == s1.trace + FinalCalls(ms[k], Rc(s1.jobs[ms[k]]) == 0)
    ensures AbortedUpTo(s0, s', t, trig, ms, k + 1, commits, stuck)
  {
    NextLeft(ms, k, stuck);
    MemberEnds(s1, s', t, trig, ms[k..], commits, stuck);
    NextFrame(s0, s1, s', t, trig, ms[k]);
    assert AbortMember(s1.jobs[ms[k]], ms[k] == trig, commits, false);
    NextTrace(s0.trace, s1.trace, s'.trace, ms, k, if commits then {trig} else {});
  }

  lemma NextTrace(t0: seq<Call>, t1: seq<Call>, t': seq<Call>, ms: seq<JobId>, k: nat, committed: set<JobId>)
    requires k < |ms| && t1 == t0 + Finals(ms[..k], committed) && t' == t1 + FinalCalls(ms[k], ms[k] in committed)
    ensures t' == t0 + Finals(ms[..k + 1], committed)
  {
    FinalsStep(ms, k, committed);
  }

  lemma NextFrame(s0: Jobs, s1: Jobs, s': Jobs, t: TxnId, trig: JobId, m: JobId)
    requires OnlyTxn(s0, s1, t) && OnlyTxn(s1, s', t) && Ended(s1, s', m)
    requires s1.refs == s0.refs && trig in s1.jobs && s1.refs[trig] > 0
    ensures OnlyTxn(s0, s', t) && s'.refs == s0.refs && trig in s'.jobs && s'.refs[trig] > 0
  {
    OnlyTxnTrans(s0, s1, s', t);
  }

  lemma NextLeft(ms: seq<JobId>, k: nat, stuck: set<JobId>)
    requires k < |ms| && (forall m :: m in stuck ==> m in ms[k..]) && ms[k] !in stuck
    ensures ms[k..] != [] && ms[k..][0] == ms[k] && ms[k] in ms[k..] && ms[k..][1..] == ms[k + 1..]
    ensures forall m :: m in stuck ==> m in ms[k + 1..]
  {
    assert ms[k..] == [ms[k]] + ms[k + 1..];
  }

  lemma StallsAt(s: Jobs, t: TxnId, trig: JobId, ms: seq<JobId>, commits: bool, stuck: set<JobId>)
    requires ms != [] && AbortPhase(s, t, trig, ms, commits, stuck) && ms[0] in stuck
    ensures Stalled(s, t)
  {
    assert ms[0] in ms;
    WaitCanEndIff(s.jobs[ms[0]]);
  }

  lemma StartedCanEnd(b: Job)
    requires JobOk(b) && b.started && !Completed(b.status)
    ensures WaitCanEnd(b)
  {
    var b1 := if b.status.Paused? then b.(status := Running) else if b.status.Standby? then b.(status := Ready) else b;
    var b2 := b1.(deferred := true);
    var b3 := b2.(status := if Rc(b2) != 0 then Aborting else Waiting, ret := Rc(b2));
    assert OwnStep(b2, b3);
    var r2 := [b2, b3];
    var r1 := if b2 == b1 then r2 else [b1] + r2;
    assert OwnRun(r1) && r1[0] == b1 && r1[|r1| - 1] == b3;
    var r := if b1 == b then r1 else [b] + r1;
    assert OwnRun(r) && r[0] == b && Completed(r[|r| - 1].status);
  }

  /** Waiting for a job can end exactly if it has been started or has completed already; the abort of
      a transaction hangs on any other member. */
  lemma WaitCanEndIff(b: Job)
    requires JobOk(b)
    ensures WaitCanEnd(b) <==> CanFinish(b)
  {
    if Completed(b.status) {
      assert OwnRun([b]);
    } else if b.started {
      StartedCanEnd(b);
    } else {
      forall r: seq<Job> | OwnRun(r) && r[0] == b ensures !Completed(r[|r| - 1].status) {
        assert |r| > 1 ==> OwnStep(r[0], r[0 + 1]);
      }
    }
  }

  // ------------------------------------------------------------------------------------------
  // Which members commit

  lemma FinalsInTrace(trace: seq<Call>, prepares: seq<Call>, ms: seq<JobId>, committed: set<JobId>, i: nat)
    requires i < |ms|
    ensures var calls := (trace + prepares + Finals(ms, committed))[|trace|..];
      (if ms[i] in committed then CommitCall(ms[i]) else AbortCall(ms[i])) in calls
  {
    FinalsAt(ms, committed, i);
    var all := (trace + prepares + Finals(ms, committed))[|trace|..];
    assert all == prepares + Finals(ms, committed);
    assert all[|prepares| + 2 * i] == Finals(ms, committed)[2 * i];
  }

  lemma {:induction false} NoOtherFinal(ms: seq<JobId>, committed: set<JobId>, m: JobId)
    requires NoDup(ms)
    ensures m !in committed ==> CommitCall(m) !in Finals(ms, committed)
    ensures m in committed ==> AbortCall(m) !in Finals(ms, committed)
  {
    if ms != [] {
      NoOtherFinal(ms[1..], committed, m);
    }
  }

  lemma {:induction false} PreparesOnly(ms: seq<JobId>, hasPrepare: JobId -> bool, prepareRet: JobId -> int, c: Call)
    requires c in Prepares(ms, hasPrepare, prepareRet)
    ensures c.PrepareCall?
  {
    var m := ms[|ms| - 1];
    if c in Prepares(ms[..|ms| - 1], hasPrepare, prepareRet) {
      PreparesOnly(ms[..|ms| - 1], hasPrepare, prepareRet, c);
    }
  }

  /** In a list of prepare calls followed by final calls, who commits and who aborts is decided. */
  lemma CallsDecided(
      trace: seq<Call>, ps: seq<JobId>, hasPrepare: JobId -> bool, prepareRet: JobId -> int, ms: seq<JobId>,
      committed: set<JobId>, m: JobId)
    requires NoDup(ms) && m in ms
    ensures var calls := (trace + Prepares(ps, hasPrepare, prepareRet) + Finals(ms, committed))[|trace|..];
      (CommitCall(m) in calls <==> m in committed) && (AbortCall(m) in calls <==> m !in committed)
  {
    var prepares := Prepares(ps, hasPrepare, prepareRet);
    var i :| 0 <= i < |ms| && ms[i] == m;
    FinalsInTrace(trace, prepares, ms, committed, i);
    NoOtherFinal(ms, committed, m);
    assert (trace + prepares + Finals(ms, committed))[|trace|..] == prepares + Finals(ms, committed);
    if CommitCall(m) in prepares { PreparesOnly(ps, hasPrepare, prepareRet, CommitCall(m)); }
    if AbortCall(m) in prepares { PreparesOnly(ps, hasPrepare, prepareRet, AbortCall(m)); }
  }

  /** Member m commits exactly if every prepare callback succeeded, or if m itself triggered the
      finalisation and it is another member whose prepare failed; otherwise it aborts. */
  lemma CommitsIff(s: Jobs, s': Jobs, trig: JobId, env: Env, f: nat, m: JobId)
    requires Consistent(s) && trig in s.jobs && s.jobs[trig].txn in s.txns && Finalized(s, s', trig, env, f)
    requires m in s.txns[s.jobs[trig].txn].members
    ensures var ms, calls := s.txns[s.jobs[trig].txn].members, s'.trace[|s.trace|..];
      && (CommitCall(m) in calls <==> f == |ms| || (m == trig && ms[f] != trig))
      && (AbortCall(m) in calls <==> CommitCall(m) !in calls)
  {
    var ms := s.txns[s.jobs[trig].txn].members;
    assert NoDup(s.txns[s.jobs[trig].txn].members);
    var committed := if f == |ms| then Members(ms) else if ms[f] == trig then {} else {trig};
    CallsDecided(s.trace, if f == |ms| then ms else ms[..f + 1], env.hasPrepare, env.prepareRet, ms, committed, m);
  }

  const PENDING_JOB := Job(Pending, 0, false, false, true, true, false, true, 1, 0)
  const TWO_PENDING := Jobs(
    map[1 := PENDING_JOB, 2 := PENDING_JOB], map[0 := Txn(false, [2, 1])], [], multiset{},
    map[1 := [Undefined, Created, Running, Waiting, Pending], 2 := [Undefined, Created, Running, Waiting, Pending]])

  /** A transaction is not always atomic: two pending jobs, of which the second is finalised and the
      first fails to prepare. */
  lemma PrepareFailureSplits(s': Jobs, env: Env, f: nat)
    requires env.hasPrepare(1) && env.prepareRet(1) != 0 && !env.hasPrepare(2)
    requires Finalized(TWO_PENDING, s', 2, env, f)
    ensures AbortCall(1) in s'.trace && CommitCall(2) in s'.trace
  {
    var ms := TWO_PENDING.txns[0].members;
    assert ms == [2, 1] && f == 1;
    FinalsInTrace([], Prepares(ms[..2], env.hasPrepare, env.prepareRet), ms, {2}, 0);
    FinalsInTrace([], Prepares(ms[..2], env.hasPrepare, env.prepareRet), ms, {2}, 1);
  }

  lemma TwoPendingIsValid()
    ensures Consistent(TWO_PENDING) && RestExcept(TWO_PENDING, NO_TXN)
  {
    var s := TWO_PENDING;
    assert HistoryOk(Pending, s.history[1]) && HistoryOk(Pending, s.history[2]);
  }

  const CREATED_JOB := Job(Created, 0, false, false, false, false, true, true, 1, 0)
  const TWO_CREATED := Jobs(
    map[1 := CREATED_JOB, 2 := CREATED_JOB], map[0 := Txn(false, [2, 1])], [], multiset{},
    map[1 := [Undefined, Created], 2 := [Undefined, Created]])

  lemma TwoCreatedIsValid()
    ensures Consistent(TWO_CREATED) && RestExcept(TWO_CREATED, NO_TXN)
  {
    var s := TWO_CREATED;
    assert HistoryOk(Created, s.history[1]) && HistoryOk(Created, s.history[2]);
  }

  /** An abort does not always end: two jobs of one transaction that have both been created and not
      started.  Cancelling either makes the job layer wait for the other, which nothing completes. */
  lemma CancelOfTwoCreatedStalls(j: JobId)
    requires j in TWO_CREATED.jobs
    ensures !OthersCanFinish(TWO_CREATED, j) && !WaitCanEnd(CancelledJob(CREATED_JOB, true))
  {
    assert 3 - j in TWO_CREATED.txns[0].members && 3 - j in TWO_CREATED.jobs;
    WaitCanEndIff(CancelledJob(CREATED_JOB, true));
  }

  /** A driver whose cancel callback answers false for a job that was never started trips the
      transition assertion. */
  lemma SoftCancelOfCreatedTrips()
    ensures JobOk(CREATED_JOB) && Rc(CancelledJob(CREATED_JOB, false)) == 0 && !Allowed(CREATED_JOB.status, Waiting)
  {
    CancelUnstartedAllowed(CREATED_JOB, false);
  }
}
