/** qmp_transaction (blockdev.c): a list of snapshot, backup and other actions that take effect
    together or not at all. */
module QmpTransaction {

  import opened JobStates
  import JobSystem

  type Node = int

  datatype Kind = ExternalSnapshot | InternalSnapshot | DriveBackup | BlockdevBackup | AbortKind | BitmapKind

  /** How far an action gets: it fails before it opens its drained section, or after that, or it
      succeeds. */
  datatype Outcome = FailsEarly | FailsLate | Succeeds

  datatype Action = Action(kind: Kind, node: Node, outcome: Outcome, autoFinalize: bool, autoDismiss: bool)

  /** The state that an action registers with the transaction. */
  datatype Entry = Entry(id: int, kind: Kind, node: Node, drained: bool, done: bool)

  /** Open drained sections; internal snapshots and overlays, each named by the position of the action
      that made it; and the registered entries, newest last. */
  datatype State = State(drains: multiset<Node>, snapshots: set<int>, overlays: set<int>, log: seq<Entry>)

  predicate IsBackup(k: Kind) {
    k.DriveBackup? || k.BlockdevBackup?
  }

  predicate Drains(k: Kind) {
    k.ExternalSnapshot? || k.InternalSnapshot? || IsBackup(k)
  }

  /** The abort action never succeeds. */
  predicate Fails(a: Action) {
    a.kind.AbortKind? || !a.outcome.Succeeds?
  }

  function Drained(log: seq<Entry>): multiset<Node> {
    if log == [] then multiset{}
    else Drained(log[..|log| - 1]) + if log[|log| - 1].drained then multiset{log[|log| - 1].node} else multiset{}
  }

  lemma DrainedOne(log: seq<Entry>, e: Entry)
    ensures Drained(log + [e]) == Drained(log) + if e.drained then multiset{e.node} else multiset{}
  {
    assert (log + [e])[..|log + [e]| - 1] == log;
  }

  /** The entry that action number i registers. */
  function EntryOf(a: Action, i: int): Entry {
    Entry(i, a.kind, a.node, Drains(a.kind) && !a.outcome.FailsEarly?, !Fails(a))
  }

  function EntriesOf(actions: seq<Action>): seq<Entry> {
    if actions == [] then [] else EntriesOf(actions[..|actions| - 1]) + [EntryOf(actions[|actions| - 1], |actions| - 1)]
  }

  lemma {:induction false} EntriesAt(actions: seq<Action>, i: nat)
    requires i < |actions|
    ensures |EntriesOf(actions)| == |actions| && EntriesOf(actions)[i] == EntryOf(actions[i], i)
  {
    var front := actions[..|actions| - 1];
    if i < |front| {
      EntriesAt(front, i);
    } else if front != [] {
      EntriesAt(front, 0);
    }
  }

  lemma EntriesLength(actions: seq<Action>)
    ensures |EntriesOf(actions)| == |actions|
  {
    if actions != [] { EntriesAt(actions, 0); }
  }

  /** The positions of successful actions of the given sort. */
  ghost function Done(log: seq<Entry>, which: Kind -> bool): set<int> {
    set k | 0 <= k < |log| && log[k].done && which(log[k].kind) :: log[k].id
  }

  lemma DoneOne(log: seq<Entry>, e: Entry, which: Kind -> bool)
    ensures Done(log + [e], which) == Done(log, which) + if e.done && which(e.kind) then {e.id} else {}
  {
    var log' := log + [e];
    forall x | x in Done(log, which) ensures x in Done(log', which) {
      var k :| 0 <= k < |log| && log[k].done && which(log[k].kind) && log[k].id == x;
      assert log'[k] == log[k];
    }
    if e.done && which(e.kind) { assert log'[|log|] == e; }
  }

  const BACKUPS := (k: Kind) => IsBackup(k)
  const INTERNAL := (k: Kind) => k.InternalSnapshot?
  const EXTERNAL := (k: Kind) => k.ExternalSnapshot?

  /** Each entry is named by its position. */
  predicate Numbered(log: seq<Entry>) {
    forall k :: 0 <= k < |log| ==> log[k].id == k
  }

  /** Exactly the effects of the registered entries exist on top of a state s0 without any. */
  ghost predicate Staged(s0: State, s: State) {
    && s.drains == s0.drains + Drained(s.log)
    && s.snapshots == s0.snapshots + Done(s.log, INTERNAL)
    && s.overlays == s0.overlays + Done(s.log, EXTERNAL)
  }

  /** A state before a transaction: the names of its actions are not in use. */
  predicate Fresh(s: State) {
    s.log == [] && (forall j :: j in s.snapshots ==> j < 0) && (forall j :: j in s.overlays ==> j < 0)
  }

  /** What action number i does to the state as far as it gets. */
  function Performed(s: State, a: Action, i: int): State {
    var e := EntryOf(a, i);
    State(
      if e.drained then s.drains + multiset{a.node} else s.drains,
      if e.done && a.kind.InternalSnapshot? then s.snapshots + {i} else s.snapshots,
      if e.done && a.kind.ExternalSnapshot? then s.overlays + {i} else s.overlays,
      s.log + [e])
  }

  lemma PerformKeeps(s0: State, s: State, a: Action, i: int)
    requires Staged(s0, s)
    ensures Staged(s0, Performed(s, a, i))
  {
    DoneOne(s.log, EntryOf(a, i), INTERNAL);
    DoneOne(s.log, EntryOf(a, i), EXTERNAL);
    DrainedOne(s.log, EntryOf(a, i));
  }

  // ------------------------------------------------------------------------------------------
  // The jobs of a transaction

  /** A grouped transaction has one job transaction for all its backups; otherwise each job gets its
      own. */
  function TxnOf(i: int, grouped: bool): TxnId {
    if grouped then 0 else i
  }

  /** The job layer before a transaction: nothing there has the name of an action. */
  ghost predicate FreshJobs(js: Jobs) {
    && Consistent(js) && (forall j {:trigger js.refs[j]} :: j >= 0 ==> js.refs[j] == 0)
    && (forall j {:trigger j in js.history} :: j in js.history ==> j < 0)
    && (forall t {:trigger t in js.txns} :: t in js.txns ==> t < 0)
  }

  predicate IsCreated(b: Job, t: TxnId) {
    b.status.Created? && !b.started && b.txn == t
  }

  predicate IsRunning(b: Job) {
    b.status.Running? && b.started
  }

  /** The jobs `live` have been created on top of js0 by the first n actions, `running` have been
      started too, and there is nothing else. */
  ghost predicate JobsStaged(js0: Jobs, js: Jobs, live: set<int>, running: set<int>, n: int, grouped: bool) {
    && Consistent(js) && RestExcept(js, NO_TXN) && js.refs == js0.refs
    && (forall j {:trigger js0.jobs[j]} :: j in js0.jobs ==> j in js.jobs && js.jobs[j] == js0.jobs[j])
    && (forall j {:trigger js.jobs[j]} :: j in js.jobs ==> j in js0.jobs || j in live || j in running)
    && (forall j {:trigger j in live} ::
          j in live ==> 0 <= j < n && j in js.jobs && IsCreated(js.jobs[j], TxnOf(j, grouped)))
    && (forall j {:trigger j in running} :: j in running ==> 0 <= j < n && j in js.jobs && IsRunning(js.jobs[j]))
  }

  /** The names of the actions from number n on are free. */
  ghost predicate NamesFree(js: Jobs, n: int, grouped: bool) {
    && (forall j {:trigger j in js.history} :: j in js.history ==> j < n)
    && (forall t {:trigger t in js.txns} :: t in js.txns ==> t < n || (grouped && t == 0))
    && (grouped ==> 0 in js.txns && !js.txns[0].aborting)
  }

  lemma FreshIsStaged(s: State, js: Jobs, actions: seq<Action>)
    requires Fresh(s) && FreshJobs(js) && RestExcept(js, NO_TXN)
    ensures Performing(s, s, js, js, actions, 0, false)
    ensures 0 !in js.txns
  {
    assert Done([], INTERNAL) == {} && Done([], EXTERNAL) == {} && Done([], BACKUPS) == {};
  }

  /** The empty transaction of a group has been made. */
  lemma GroupStaged(s: State, js0: Jobs, js: Jobs, actions: seq<Action>)
    requires Performing(s, s, js0, js0, actions, 0, false) && js == js0.(txns := js0.txns[0 := Txn(false, [])])
    requires Consistent(js) && RestExcept(js, NO_TXN)
    ensures Performing(s, s, js0, js, actions, 0, true)
  {
  }

  lemma NothingStaged(js0: Jobs, js: Jobs, n: int, grouped: bool)
    requires JobsStaged(js0, js, {}, {}, n, grouped)
    ensures js.jobs == js0.jobs
  {
    forall j | j in js.jobs ensures j in js0.jobs { assert js.jobs[j] == js.jobs[j]; }
    forall j | j in js0.jobs ensures j in js.jobs && js.jobs[j] == js0.jobs[j] { assert js0.jobs[j] == js0.jobs[j]; }
    assert js.jobs.Keys == js0.jobs.Keys;
  }

  /** A job of the time before is in no transaction of the actions. */
  lemma OldElsewhere(js0: Jobs, j: int)
    requires FreshJobs(js0) && j in js0.jobs
    ensures j < 0 && js0.jobs[j].txn < 0
  {
    assert j in js0.history;
  }

  lemma CreateStaged(js0: Jobs, js: Jobs, live: set<int>, n: int, grouped: bool, b: Job)
    requires FreshJobs(js0) && n >= 0 && JobsStaged(js0, js, live, {}, n, grouped) && NamesFree(js, n + 1, grouped)
    requires IsCreated(b, TxnOf(n, grouped)) && b.txn in js.txns
    requires Consistent(WithJob(js, n, b)) && RestExcept(WithJob(js, n, b), NO_TXN)
    ensures JobsStaged(js0, WithJob(js, n, b), live + {n}, {}, n + 1, grouped)
    ensures NamesFree(WithJob(js, n, b), n + 1, grouped)
  {
    var js' := WithJob(js, n, b);
    forall j | j in js0.jobs ensures j in js'.jobs && js'.jobs[j] == js0.jobs[j] { OldElsewhere(js0, j); }
  }

  /** The members of a live job's transaction are the live jobs that share it, so that a wait for the
      others can end exactly if there are none. */
  lemma MembersLive(js0: Jobs, js: Jobs, live: set<int>, n: int, grouped: bool, j: int)
    requires FreshJobs(js0) && JobsStaged(js0, js, live, {}, n, grouped) && j in live
    ensures OthersCanFinish(js, j) <==> !(grouped && TwoIn(live))
  {
    var t := js.jobs[j].txn;
    forall m | m in js.txns[t].members ensures m in live && TxnOf(m, grouped) == t {
      assert m in js.jobs && js.jobs[m].txn == t;
      if m in js0.jobs { OldElsewhere(js0, m); }
    }
    if grouped && TwoIn(live) {
      var m :| m in live && m != j;
      assert m in js.txns[t].members;
    }
  }

  predicate TwoIn(live: set<int>) {
    exists i, j :: i in live && j in live && i != j
  }

  /** A live job has been cancelled, and freed with it. */
  lemma CancelStaged(js0: Jobs, js: Jobs, js': Jobs, live: set<int>, n: int, grouped: bool, j: int)
    requires FreshJobs(js0) && JobsStaged(js0, js, live, {}, n, grouped) && j in live && !(grouped && TwoIn(live))
    requires Consistent(js') && RestExcept(js', NO_TXN) && OnlyTxn(js, js', js.jobs[j].txn) && js'.refs == js.refs
    requires js.jobs[j].txn in js'.txns && js'.txns[js.jobs[j].txn].members == []
    ensures JobsStaged(js0, js', live - {j}, {}, n, grouped)
  {
    UnstartedIsFreed(js, js', j);
    forall i | i in js0.jobs ensures i in js'.jobs && js'.jobs[i] == js0.jobs[i] { OldElsewhere(js0, i); }
  }

  lemma StartStaged(js0: Jobs, js: Jobs, js': Jobs, live: set<int>, running: set<int>, n: int, grouped: bool, j: int)
    requires FreshJobs(js0) && JobsStaged(js0, js, live, running, n, grouped) && j in live
    requires Consistent(js') && RestExcept(js', NO_TXN) && js'.refs == js.refs
    requires j in js'.jobs && js'.jobs == js.jobs[j := js'.jobs[j]] && IsRunning(js'.jobs[j])
    ensures JobsStaged(js0, js', live - {j}, running + {j}, n, grouped)
  {
    forall i | i in js0.jobs ensures i in js'.jobs && js'.jobs[i] == js0.jobs[i] { OldElsewhere(js0, i); }
  }

  /** No job has been started. */
  ghost predicate NoneStarted(js0: Jobs, js: Jobs) {
    forall j {:trigger js.jobs[j]} :: j in js.jobs && j !in js0.jobs ==> !js.jobs[j].started
  }

  lemma StalledUnstarted(js0: Jobs, js: Jobs, js': Jobs, live: set<int>, n: int, grouped: bool, t: TxnId)
    requires JobsStaged(js0, js, live, {}, n, grouped) && OnlyTxn(js, js', t)
    ensures NoneStarted(js0, js')
  {
  }

  /** The first n actions have been performed. */
  ghost predicate Performing(s0: State, s: State, js0: Jobs, js: Jobs, actions: seq<Action>, n: nat, grouped: bool)
    requires n <= |actions|
  {
    && Staged(s0, s) && s.log == EntriesOf(actions[..n]) && |s.log| == n && Numbered(s.log)
    && JobsStaged(js0, js, Done(s.log, BACKUPS), {}, n, grouped) && NamesFree(js, n, grouped)
  }

  /** The jobs of the entries from number i on have been started. */
  ghost predicate Starting(log: seq<Entry>, js0: Jobs, js: Jobs, i: nat, grouped: bool)
    requires i <= |log|
  {
    JobsStaged(js0, js, Done(log[..i], BACKUPS), Done(log[i..], BACKUPS), |log|, grouped)
  }

  /** The entries of s1 from number i on have been undone. */
  ghost predicate Undoing(s1: State, s: State, js0: Jobs, js: Jobs, i: nat, grouped: bool)
    requires i <= |s1.log|
  {
    var live, all := Done(s1.log[..i], BACKUPS), Done(s1.log, BACKUPS);
    && s ==
         s1.(snapshots := s1.snapshots - Done(s1.log[i..], INTERNAL),
           overlays := s1.overlays - Done(s1.log[i..], EXTERNAL))
    && JobsStaged(js0, js, live, {}, |s1.log|, grouped) && live <= all && (grouped && TwoIn(all) ==> live == all)
  }

  /** The rollback of a group waits for a job that nothing will complete. */
  ghost predicate StuckIn(s: State, js0: Jobs, js: Jobs, grouped: bool) {
    grouped && TwoIn(Done(s.log, BACKUPS)) && JobSystem.Stalled(js, 0) && NoneStarted(js0, js)
  }

  lemma UndoneNone(s1: State, js0: Jobs, js: Jobs, grouped: bool)
    requires JobsStaged(js0, js, Done(s1.log, BACKUPS), {}, |s1.log|, grouped)
    ensures Undoing(s1, s1, js0, js, |s1.log|, grouped)
  {
    assert s1.log[..|s1.log|] == s1.log && s1.log[|s1.log|..] == [];
    assert Done([], INTERNAL) == {} && Done([], EXTERNAL) == {};
  }

  lemma UndoneAll(s0: State, s1: State, s: State, js0: Jobs, js: Jobs, grouped: bool)
    requires Staged(s0, s1) && Fresh(s0) && Numbered(s1.log) && Undoing(s1, s, js0, js, 0, grouped)
    ensures s.snapshots == s0.snapshots && s.overlays == s0.overlays && JobsStaged(js0, js, {}, {}, |s1.log|, grouped)
    ensures !(grouped && TwoIn(Done(s1.log, BACKUPS)))
  {
    assert s1.log[0..] == s1.log && s1.log[..0] == [] && Done([], BACKUPS) == {};
  }

  class Transactions {
    var s: State
    const js: JobSystem.JobSystem

    constructor (js: JobSystem.JobSystem)
      ensures this.js == js && s == State(multiset{}, {}, {}, [])
    {
      this.js := js;
      s := State(multiset{}, {}, {}, []);
    }

    /** transaction_action: registers first, then acts as far as it gets. */
    method Perform(actions: seq<Action>, i: nat, grouped: bool, ghost s0: State, ghost js0: Jobs) returns (ok: bool)
      requires i < |actions| && FreshJobs(js0) && Performing(s0, s, js0, js.s, actions, i, grouped)
      modifies this, js
      ensures ok == !Fails(actions[i]) && Performing(s0, s, js0, js.s, actions, i + 1, grouped)
    {
      var a := actions[i];
      ok := !Fails(a);
      PerformKeeps(s0, s, a, i);
      DoneOne(s.log, EntryOf(a, i), BACKUPS);
      assert actions[..i + 1][..i] == actions[..i];
      s := Performed(s, a, i);
      if ok && IsBackup(a.kind) {
        CreateBackup(a, i, grouped, Done(old(s).log, BACKUPS), js0);
      }
    }

    /** do_backup_common creates the job, in a transaction of its own unless there is one. */
    method CreateBackup(a: Action, i: int, grouped: bool, ghost live: set<int>, ghost js0: Jobs)
      requires FreshJobs(js0) && i >= 0 && JobsStaged(js0, js.s, live, {}, i, grouped) && NamesFree(js.s, i, grouped)
      modifies js
      ensures JobsStaged(js0, js.s, live + {i}, {}, i + 1, grouped) && NamesFree(js.s, i + 1, grouped)
    {
      if !grouped {
        js.NewTxn(i);
      }
      var t := TxnOf(i, grouped);
      CanCreate(js0, js.s, live, i, grouped);
      ghost var js1 := js.s;
      js.Create(i, t, a.autoFinalize, a.autoDismiss);
      CreateStaged(js0, js1, live, i, grouped, js.s.jobs[i]);
    }

    /** The loop over the actions; it stops at the first that fails. */
    method PerformAll(actions: seq<Action>, grouped: bool, ghost s0: State, ghost js0: Jobs) returns (ok: bool, n: nat)
      requires FreshJobs(js0) && Performing(s0, s, js0, js.s, actions, 0, grouped)
      modifies this, js
      ensures n <= |actions| && Performing(s0, s, js0, js.s, actions, n, grouped)
      ensures if ok then n == |actions| else n > 0 && Fails(actions[n - 1])
      ensures forall k :: 0 <= k < (if ok then n else n - 1) ==> !Fails(actions[k])
    {
      n := 0;
      while n < |actions|
        invariant n <= |actions| && Performing(s0, s, js0, js.s, actions, n, grouped)
        invariant forall k :: 0 <= k < n ==> !Fails(actions[k])
      {
        ok := Perform(actions, n, grouped, s0, js0);
        n := n + 1;
        if !ok {
          return;
        }
      }
      ok := true;
    }

    /** The .commit callbacks, newest first.  Backup jobs are started; an abort action cannot be among
        the entries, nor a backup without a job. */
    method CommitAll(ghost grouped: bool, ghost js0: Jobs)
      requires FreshJobs(js0) && JobsStaged(js0, js.s, Done(s.log, BACKUPS), {}, |s.log|, grouped) && Numbered(s.log)
      requires forall k :: 0 <= k < |s.log| ==> s.log[k].done && !s.log[k].kind.AbortKind?
      modifies js
      ensures JobsStaged(js0, js.s, {}, Done(s.log, BACKUPS), |s.log|, grouped)
    {
      var i: nat := |s.log|;
      assert s.log[..i] == s.log && Done(s.log[i..], BACKUPS) == {};
      while i > 0
        invariant i <= |s.log| && Starting(s.log, js0, js.s, i, grouped)
      {
        i := i - 1;
        CommitEntry(i, grouped, js0);
      }
      assert s.log[0..] == s.log && Done(s.log[..0], BACKUPS) == {};
    }

    method CommitEntry(i: nat, ghost grouped: bool, ghost js0: Jobs)
      requires i < |s.log| && FreshJobs(js0) && Numbered(s.log) && Starting(s.log, js0, js.s, i + 1, grouped)
      requires s.log[i].done && !s.log[i].kind.AbortKind?
      modifies js
      ensures Starting(s.log, js0, js.s, i, grouped)
    {
      var e := s.log[i];
      DoneFrom(s.log, i, BACKUPS);
      DoneUpTo(s.log, i, BACKUPS);
      assert !e.kind.AbortKind?;
      if IsBackup(e.kind) {
        ghost var live := Done(s.log[..i + 1], BACKUPS);
        assert s.log[..i + 1][i] == e && e.id in live;
        js.Start(e.id);
        StartStaged(js0, old(js.s), js.s, live, Done(s.log[i + 1..], BACKUPS), |s.log|, grouped, e.id);
      }
    }

    /** The .abort callbacks, newest first, undo what the entries have done.  A backup job is cancelled
        and waited for, which may not end. */
    method AbortAll(env: JobSystem.Env, ghost grouped: bool, ghost s0: State, ghost js0: Jobs) returns (ended: bool)
      requires Staged(s0, s) && Fresh(s0) && Numbered(s.log)
      requires FreshJobs(js0) && JobsStaged(js0, js.s, Done(s.log, BACKUPS), {}, |s.log|, grouped)
      modifies this, js
      ensures ended <==> !(grouped && TwoIn(Done(s.log, BACKUPS)))
      ensures s.drains == old(s).drains && s.log == old(s).log
      ensures ended ==>
        && s.snapshots == s0.snapshots && s.overlays == s0.overlays && JobsStaged(js0, js.s, {}, {}, |s.log|, grouped)
      ensures !ended ==> JobSystem.Stalled(js.s, 0) && NoneStarted(js0, js.s)
    {
      UndoneNone(s, js0, js.s, grouped);
      ended := AbortEntries(env, grouped, old(s), js0);
      if ended {
        UndoneAll(s0, old(s), s, js0, js.s, grouped);
      }
    }

    method AbortEntries(env: JobSystem.Env, ghost grouped: bool, ghost s1: State, ghost js0: Jobs) returns (ended: bool)
      requires Numbered(s1.log) && FreshJobs(js0) && Undoing(s1, s, js0, js.s, |s1.log|, grouped)
      modifies this, js
      ensures s.drains == s1.drains && s.log == s1.log
      ensures if ended then Undoing(s1, s, js0, js.s, 0, grouped) else StuckIn(s, js0, js.s, grouped)
    {
      var i: nat := |s.log|;
      while i > 0
        invariant i <= |s1.log| && Undoing(s1, s, js0, js.s, i, grouped)
      {
        i := i - 1;
        ended := AbortEntry(i, env, grouped, s1, js0);
        if !ended {
          return;
        }
      }
      ended := true;
    }

    method AbortEntry(i: nat, env: JobSystem.Env, ghost grouped: bool, ghost s1: State, ghost js0: Jobs)
      returns (ended: bool)
      requires i < |s1.log| && Numbered(s1.log) && FreshJobs(js0) && Undoing(s1, s, js0, js.s, i + 1, grouped)
      modifies this, js
      ensures s.drains == s1.drains && s.log == s1.log
      ensures if ended then Undoing(s1, s, js0, js.s, i, grouped) else StuckIn(s, js0, js.s, grouped)
    {
      var e := s.log[i];
      DoneUpTo(s.log, i, BACKUPS);
      DoneFrom(s.log, i, INTERNAL);
      DoneFrom(s.log, i, EXTERNAL);
      ended := true;
      if e.done && IsBackup(e.kind) {
        ended := AbortBackup(e.id, env, Done(s.log[..i + 1], BACKUPS), |s1.log|, grouped, js0);
      } else if e.done && e.kind.InternalSnapshot? {
        s := s.(snapshots := s.snapshots - {e.id});
      } else if e.done && e.kind.ExternalSnapshot? {
        s := s.(overlays := s.overlays - {e.id});
      }
    }

    /** drive_backup_abort and blockdev_backup_abort: job_cancel_sync */
    method AbortBackup(
        j: int, env: JobSystem.Env, ghost live: set<int>, ghost n: int, ghost grouped: bool, ghost js0: Jobs)
      returns (ended: bool)
      requires FreshJobs(js0) && JobsStaged(js0, js.s, live, {}, n, grouped) && j in live
      modifies js
      ensures ended <==> !(grouped && TwoIn(live))
      ensures if ended then JobsStaged(js0, js.s, live - {j}, {}, n, grouped)
        else JobSystem.Stalled(js.s, 0) && NoneStarted(js0, js.s)
    {
      MembersLive(js0, js.s, live, n, grouped, j);
      ended := js.CancelSync(j, env);
      if ended {
        CancelStaged(js0, old(js.s), js.s, live, n, grouped, j);
      } else {
        StalledUnstarted(js0, old(js.s), js.s, live, n, grouped, old(js.s).jobs[j].txn);
      }
    }

    /** The .clean callbacks end the drained sections. */
    method CleanAll(ghost drains0: multiset<Node>)
      requires s.drains == drains0 + Drained(s.log)
      modifies this
      ensures s == old(s).(drains := drains0, log := [])
    {
      while s.log != []
        invariant s.drains == drains0 + Drained(s.log) && s == old(s).(drains := s.drains, log := s.log)
        decreases |s.log|
      {
        var e := s.log[|s.log| - 1];
        s := s.(drains := if e.drained then s.drains - multiset{e.node} else s.drains, log := s.log[..|s.log| - 1]);
      }
    }

    /** qmp_transaction.  `grouped` is a completion mode other than individual, which only backup
        actions support.  The call returns exactly if the rollback, if there is one, ends. */
    method Transaction(actions: seq<Action>, grouped: bool, env: JobSystem.Env) returns (ok: bool, ended: bool, n: nat)
      requires Fresh(s) && js.Valid() && FreshJobs(js.s)
      modifies this, js
      ensures ended <==> !(grouped && OnlyBackups(actions) && AbortHangs(actions))
      ensures ok <==> (forall k :: 0 <= k < |actions| ==> !Fails(actions[k])) && (grouped ==> OnlyBackups(actions))
      ensures ended ==> js.Valid() && s.log == [] && s.drains == old(s).drains
      ensures ok ==>
        && s.snapshots == old(s).snapshots + Positions(actions, INTERNAL)
        && s.overlays == old(s).overlays + Positions(actions, EXTERNAL)
        && JobsStaged(old(js.s), js.s, {}, Backups(actions), |actions|, grouped)
      ensures !ok && ended ==> s == old(s) && js.s.jobs == old(js.s).jobs && js.s.refs == old(js.s).refs
      ensures !ended ==>
        && JobSystem.Stalled(js.s, 0) && NoneStarted(old(js.s), js.s)
        && n <= |actions| && s.log == EntriesOf(actions[..n]) && s.drains == old(s).drains + Drained(s.log)
    {
      FreshIsStaged(s, js.s, actions);
      if grouped {
        var allowed := CheckKinds(actions);
        if !allowed {
          return false, true, 0;
        }
        js.NewTxn(0);
        GroupStaged(s, old(js.s), js.s, actions);
      }
      ok, n := PerformAll(actions, grouped, old(s), old(js.s));
      if ok {
        Commit(actions, grouped, old(s), old(js.s));
        ended := true;
      } else {
        HangsIff(actions, n, grouped);
        ended := RollBack(actions, n, grouped, env, old(s), old(js.s));
      }
    }

    /** tran_commit */
    method Commit(ghost actions: seq<Action>, ghost grouped: bool, ghost s0: State, ghost js0: Jobs)
      requires Fresh(s0) && FreshJobs(js0) && Performing(s0, s, js0, js.s, actions, |actions|, grouped)
      requires forall k :: 0 <= k < |actions| ==> !Fails(actions[k])
      modifies this, js
      ensures s ==
          State(s0.drains, s0.snapshots + Positions(actions, INTERNAL), s0.overlays + Positions(actions, EXTERNAL), [])
      ensures JobsStaged(js0, js.s, {}, Backups(actions), |actions|, grouped)
    {
      assert actions[..|actions|] == actions;
      DoneIsPositions(actions, BACKUPS);
      DoneIsPositions(actions, INTERNAL);
      DoneIsPositions(actions, EXTERNAL);
      EntriesAreActions(actions);
      CommitAll(grouped, js0);
      CleanAll(s0.drains);
    }

    /** tran_abort */
    method RollBack(
        ghost actions: seq<Action>, ghost n: nat, ghost grouped: bool, env: JobSystem.Env, ghost s0: State,
        ghost js0: Jobs)
      returns (ended: bool)
      requires n <= |actions| && Fresh(s0) && FreshJobs(js0) && Performing(s0, s, js0, js.s, actions, n, grouped)
      modifies this, js
      ensures ended <==> !(grouped && TwoIn(Backups(actions[..n])))
      ensures ended ==> s == s0 && js.Valid() && js.s.jobs == js0.jobs && js.s.refs == js0.refs
      ensures !ended ==>
        && JobSystem.Stalled(js.s, 0) && NoneStarted(js0, js.s)
        && s.log == EntriesOf(actions[..n]) && s.drains == s0.drains + Drained(s.log)
    {
      DoneIsPositions(actions[..n], BACKUPS);
      ended := AbortAll(env, grouped, s0, js0);
      if ended {
        NothingStaged(js0, js.s, n, grouped);
        CleanAll(s0.drains);
      }
    }

    method CheckKinds(actions: seq<Action>) returns (allowed: bool)
      ensures allowed <==> OnlyBackups(actions)
    {
      for k := 0 to |actions|
        invariant forall i :: 0 <= i < k ==> IsBackup(actions[i].kind)
      {
        if !IsBackup(actions[k].kind) {
          return false;
        }
      }
      return true;
    }
  }

  predicate OnlyBackups(actions: seq<Action>) {
    forall k :: 0 <= k < |actions| ==> IsBackup(actions[k].kind)
  }

  /** The positions of the successful actions of a sort. */
  ghost function Positions(actions: seq<Action>, which: Kind -> bool): set<int> {
    set k | 0 <= k < |actions| && !Fails(actions[k]) && which(actions[k].kind)
  }

  ghost function Backups(actions: seq<Action>): set<int> {
    Positions(actions, BACKUPS)
  }

  lemma DoneFrom(log: seq<Entry>, i: nat, which: Kind -> bool)
    requires i < |log|
    ensures Done(log[i..], which)
      == Done(log[i + 1..], which) + if log[i].done && which(log[i].kind) then {log[i].id} else {}
    ensures Done(log[i..], which) <= Done(log, which)
  {
    var a, b := log[i..], log[i + 1..];
    assert a == [log[i]] + b;
    forall x | x in Done(b, which) ensures x in Done(a, which) {
      var k :| 0 <= k < |b| && b[k].done && which(b[k].kind) && b[k].id == x;
      assert a[k + 1] == b[k];
    }
    forall x | x in Done(a, which)
      ensures x in Done(b, which) || (log[i].done && which(log[i].kind) && x == log[i].id)
    {
      var k :| 0 <= k < |a| && a[k].done && which(a[k].kind) && a[k].id == x;
      if k > 0 { assert b[k - 1] == a[k]; }
    }
    if log[i].done && which(log[i].kind) { assert a[0] == log[i]; }
    forall x | x in Done(a, which) ensures x in Done(log, which) {
      var k :| 0 <= k < |a| && a[k].done && which(a[k].kind) && a[k].id == x;
      assert log[i + k] == a[k];
    }
  }

  lemma DoneIsPositions(actions: seq<Action>, which: Kind -> bool)
    ensures Done(EntriesOf(actions), which) == Positions(actions, which)
  {
    var log := EntriesOf(actions);
    EntriesLength(actions);
    forall k | 0 <= k < |actions| ensures log[k] == EntryOf(actions[k], k) { EntriesAt(actions, k); }
    forall x | x in Positions(actions, which) ensures x in Done(log, which) { assert log[x].id == x; }
  }

  lemma EntriesAreActions(actions: seq<Action>)
    ensures |EntriesOf(actions)| == |actions|
    ensures forall k ::
      0 <= k < |actions| ==>
        && EntriesOf(actions)[k].id == k && EntriesOf(actions)[k].kind == actions[k].kind
        && EntriesOf(actions)[k].done == !Fails(actions[k])
  {
    EntriesLength(actions);
    forall k | 0 <= k < |actions| ensures EntriesOf(actions)[k] == EntryOf(actions[k], k) { EntriesAt(actions, k); }
  }

  // ------------------------------------------------------------------------------------------
  // Grouped transactions

  /** Some action fails, and at least two before it succeed. */
  ghost predicate AbortHangs(actions: seq<Action>) {
    exists k :: 2 <= k < |actions| && Fails(actions[k]) && forall l :: 0 <= l < k ==> !Fails(actions[l])
  }

  lemma HangsIff(actions: seq<Action>, n: nat, grouped: bool)
    requires 0 < n <= |actions| && Fails(actions[n - 1]) && forall k :: 0 <= k < n - 1 ==> !Fails(actions[k])
    requires grouped ==> OnlyBackups(actions)
    ensures grouped && TwoIn(Backups(actions[..n])) <==> grouped && OnlyBackups(actions) && AbortHangs(actions)
  {
    if grouped {
      var live := Backups(actions[..n]);
      assert forall k :: k in live <==> 0 <= k < n - 1;
      if n > 2 {
        assert 0 in live && 1 in live;
        assert 2 <= n - 1 < |actions| && Fails(actions[n - 1]);
      }
    }
  }

  lemma CanCreate(js0: Jobs, js: Jobs, live: set<int>, n: int, grouped: bool)
    requires FreshJobs(js0) && n >= 0 && JobsStaged(js0, js, live, {}, n, grouped)
    ensures n !in js.jobs && js.refs[n] == 0
    ensures forall m {:trigger js.jobs[m]} ::
      m in js.jobs && js.jobs[m].txn == TxnOf(n, grouped) ==> !js.jobs[m].status.Pending?
  {
    if n in js.jobs { OldElsewhere(js0, n); }
    forall m | m in js.jobs && js.jobs[m].txn == TxnOf(n, grouped) ensures !js.jobs[m].status.Pending? {
      if m in js0.jobs { OldElsewhere(js0, m); }
    }
  }

  lemma {:induction false} DoneUpTo(log: seq<Entry>, i: nat, which: Kind -> bool)
    requires i < |log| && Numbered(log)
    ensures Done(log[..i], which)
      == Done(log[..i + 1], which) - if log[i].done && which(log[i].kind) then {log[i].id} else {}
  {
    assert log[..i + 1] == log[..i] + [log[i]];
    DoneOne(log[..i], log[i], which);
  }

  const BACKUP := Action(DriveBackup, 0, Succeeds, true, true)

  /** Two backups that succeed and one that fails: a grouped transaction with these actions never
      returns, whereas without the grouping they are rolled back. */
  method TwoBackupsHang(grouped: bool, env: JobSystem.Env) returns (ok: bool, ended: bool)
    ensures !ok && (ended <==> !grouped)
  {
    var js := new JobSystem.JobSystem();
    var t := new Transactions(js);
    var actions := [BACKUP, BACKUP, BACKUP.(outcome := FailsLate)];
    assert 2 < |actions| && Fails(actions[2]) && !Fails(actions[0]) && !Fails(actions[1]);
    var n;
    ok, ended, n := t.Transaction(actions, grouped, env);
  }
}
