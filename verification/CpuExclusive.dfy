/** The exclusive-section protocol of cpu-common.c.

    Every CPU has one thread.  A thread is a program counter, and one step performs at most one
    access to a variable that another thread may touch without holding `qemu_cpu_list_lock`
    (`running` and `pending_cpus`), so every interleaving of the C statements is a run here.  The
    `smp_mb()` pairs of the source are what makes steps sequentially consistent. */
module CpuExclusive {

  /** No thread: the mutex is free, or nobody owns the exclusive section. */
  const NONE := -1

  datatype Pc =
    | Idle                                    // outside cpu_exec and outside any exclusive section
      // cpu_exec_start
    | StartRead                               // running is set; about to read pending_cpus
    | StartLock | StartCheck | StartClear     // lock, look at has_waiter, clear running
    | StartTest | StartAsleep | StartRelock   // exclusive_idle()
    | StartSet | StartUnlock
    | Executing                               // cpu_exec_start has returned
      // cpu_exec_end
    | EndRead | EndLock | EndCheck | EndDec | EndTest | EndUnlock
      // start_exclusive
    | ExLock
    | ExIdleTest | ExIdleAsleep | ExIdleRelock // exclusive_idle()
    | ExMark                                   // about to set pending_cpus to 1
    | ExScan(next: nat, found: nat)            // CPU_FOREACH: about to read cpus[next].running
    | ExPublish(found: nat)                    // about to set pending_cpus to found + 1
    | ExTest | ExAsleep | ExRelock             // wait for pending_cpus to drop to 1
    | ExUnlock | ExCount
    | Exclusive                                // start_exclusive has returned
      // end_exclusive
    | FinLock | FinReset | FinBroadcast | FinUnlock

  datatype Cpu = Cpu(pc: Pc, running: bool, hasWaiter: bool, depth: nat)

  datatype State = State(cpus: seq<Cpu>, pending: int, lock: int)

  // ------------------------------------------------------------------------------------------
  // Steps

  predicate Init(s: State) {
    && s.pending == 0
    && s.lock == NONE
    && forall i :: 0 <= i < |s.cpus| ==> s.cpus[i] == Cpu(Idle, false, false, 0)
  }

  /** What a step does to `qemu_cpu_list_lock`.  A qemu_cond_wait drops it and takes it again. */
  datatype LockOp = Keep | Take | Drop

  /** Thread i moves its own record to s'.cpus[i]; taking the mutex needs it to be free. */
  predicate Moves(s: State, i: nat, op: LockOp, s': State)
    requires i < |s.cpus|
  {
    && |s'.cpus| == |s.cpus| && s'.cpus == s.cpus[i := s'.cpus[i]]
    && match op
       case Keep => s'.lock == s.lock
       case Take => s.lock == NONE && s'.lock == i
       case Drop => s'.lock == NONE
  }

  function WokenByResume(c: Cpu): Cpu {
    if c.pc.StartAsleep? then c.(pc := StartRelock)
    else if c.pc.ExIdleAsleep? then c.(pc := ExIdleRelock)
    else c
  }

  /** qemu_cond_broadcast(&exclusive_resume) */
  function BroadcastResume(s: State): State {
    s.(cpus := seq(|s.cpus|, k requires 0 <= k < |s.cpus| => WokenByResume(s.cpus[k])))
  }

  /** qemu_cond_signal(&exclusive_cond): wakes one sleeper if there is one. */
  ghost predicate SignalExclusive(s: State, s': State) {
    if forall j :: 0 <= j < |s.cpus| ==> !s.cpus[j].pc.ExAsleep?
    then s' == s
    else exists j :: && 0 <= j < |s.cpus| && s.cpus[j].pc.ExAsleep?
                     && s' == s.(cpus := s.cpus[j := s.cpus[j].(pc := ExRelock)])
  }

  /** cpu_exec_start, as moves of the thread's own record */
  predicate ExecStartMove(c: Cpu, pending: int, op: LockOp, c': Cpu) {
    || (c.pc.Idle? && op == Keep && c' == c.(running := true, pc := StartRead))
    || (c.pc.StartRead? && op == Keep && c' == c.(pc := if pending != 0 then StartLock else Executing))
    || (c.pc.StartLock? && op == Take && c' == c.(pc := StartCheck))
    || (c.pc.StartCheck? && op == Keep && c' == c.(pc := if c.hasWaiter then StartUnlock else StartClear))
    || (c.pc.StartUnlock? && op == Drop && c' == c.(pc := Executing))
  }

  /** cpu_exec_start when the CPU was not counted: it lets the exclusive section run first. */
  predicate ExecYieldMove(c: Cpu, pending: int, op: LockOp, c': Cpu) {
    || (c.pc.StartClear? && op == Keep && c' == c.(running := false, pc := StartTest))
    || (c.pc.StartTest? && pending != 0 && op == Drop && c' == c.(pc := StartAsleep))
    || (c.pc.StartTest? && pending == 0 && op == Keep && c' == c.(pc := StartSet))
    || (c.pc.StartAsleep? && op == Keep && c' == c.(pc := StartRelock))        // spurious wakeup
    || (c.pc.StartRelock? && op == Take && c' == c.(pc := StartTest))
    || (c.pc.StartSet? && op == Keep && c' == c.(running := true, pc := StartUnlock))
  }

  /** cpu_exec_end, except for the three steps that touch shared data under the lock */
  predicate ExecEndMove(c: Cpu, pending: int, op: LockOp, c': Cpu) {
    || (c.pc.Executing? && op == Keep && c' == c.(running := false, pc := EndRead))
    || (c.pc.EndRead? && op == Keep && c' == c.(pc := if pending != 0 then EndLock else Idle))
    || (c.pc.EndLock? && op == Take && c' == c.(pc := EndCheck))
    || (c.pc.EndCheck? && !c.hasWaiter && op == Keep && c' == c.(pc := EndUnlock))
    || (c.pc.EndUnlock? && op == Drop && c' == c.(pc := Idle))
  }

  /** start_exclusive up to the point where nobody else owns a section */
  predicate EnterMove(c: Cpu, pending: int, op: LockOp, c': Cpu) {
    || (c.pc.Idle? && op == Keep && c' == c.(pc := ExLock))
    || (c.pc.ExLock? && op == Take && c' == c.(pc := ExIdleTest))
    || (c.pc.ExIdleTest? && pending != 0 && op == Drop && c' == c.(pc := ExIdleAsleep))
    || (c.pc.ExIdleTest? && pending == 0 && op == Keep && c' == c.(pc := ExMark))
    || (c.pc.ExIdleAsleep? && op == Keep && c' == c.(pc := ExIdleRelock))      // spurious wakeup
    || (c.pc.ExIdleRelock? && op == Take && c' == c.(pc := ExIdleTest))
  }

  /** start_exclusive after publishing the count; inside a section it only counts. */
  predicate AwaitMove(c: Cpu, pending: int, op: LockOp, c': Cpu) {
    || (c.pc.ExTest? && pending > 1 && op == Drop && c' == c.(pc := ExAsleep))
    || (c.pc.ExTest? && pending <= 1 && op == Keep && c' == c.(pc := ExUnlock))
    || (c.pc.ExAsleep? && op == Keep && c' == c.(pc := ExRelock))              // spurious wakeup
    || (c.pc.ExRelock? && op == Take && c' == c.(pc := ExTest))
    || (c.pc.ExUnlock? && op == Drop && c' == c.(pc := ExCount))
    || (c.pc.ExCount? && op == Keep && c' == c.(depth := 1, pc := Exclusive))
    || (c.pc.Exclusive? && op == Keep && c' == c.(depth := c.depth + 1))
  }

  /** end_exclusive, except for resetting pending_cpus and the broadcast */
  predicate LeaveMove(c: Cpu, op: LockOp, c': Cpu) {
    || (c.pc.Exclusive? && c.depth > 1 && op == Keep && c' == c.(depth := c.depth - 1))
    || (c.pc.Exclusive? && c.depth == 1 && op == Keep && c' == c.(depth := 0, pc := FinLock))
    || (c.pc.FinLock? && op == Take && c' == c.(pc := FinReset))
    || (c.pc.FinUnlock? && op == Drop && c' == c.(pc := Idle))
  }

  predicate LocalMove(c: Cpu, pending: int, op: LockOp, c': Cpu) {
    || ExecStartMove(c, pending, op, c') || ExecYieldMove(c, pending, op, c') || ExecEndMove(c, pending, op, c')
    || EnterMove(c, pending, op, c') || AwaitMove(c, pending, op, c') || LeaveMove(c, op, c')
  }

  /** Steps of the mutex holder that change `pending_cpus` or its own has_waiter. */
  predicate HolderMove(c: Cpu, n: nat, pending: int, c': Cpu, pending': int) {
    || (c.pc.EndCheck? && c.hasWaiter && c' == c.(hasWaiter := false, pc := EndDec) && pending' == pending)
    || (c.pc.EndDec? && c' == c.(pc := EndTest) && pending' == pending - 1)
    || (c.pc.ExMark? && c' == c.(pc := ExScan(0, 0)) && pending' == 1)
    || (c.pc.ExScan? && c.pc.next >= n && c' == c.(pc := ExPublish(c.pc.found)) && pending' == pending)
    || (c.pc.ExPublish? && c' == c.(pc := ExTest) && pending' == c.pc.found + 1)
    || (c.pc.FinReset? && c' == c.(pc := FinBroadcast) && pending' == 0)
  }

  /** CPU_FOREACH in start_exclusive: one read of `running`; a running CPU gets has_waiter. */
  predicate ScanStep(s: State, i: nat, s': State)
    requires i < |s.cpus|
  {
    var pc := s.cpus[i].pc;
    && pc.ExScan? && pc.next < |s.cpus|
    && var k := pc.next;
       if s.cpus[k].running
       then
         var cpus := s.cpus[k := s.cpus[k].(hasWaiter := true)];
         s' == s.(cpus := cpus[i := s.cpus[i].(pc := ExScan(k + 1, pc.found + 1))])
       else s' == s.(cpus := s.cpus[i := s.cpus[i].(pc := ExScan(k + 1, pc.found))])
  }

  /** The tail of cpu_exec_end: signal when pending_cpus has dropped to 1. */
  ghost predicate SignalStep(s: State, i: nat, s': State)
    requires i < |s.cpus|
  {
    && s.cpus[i].pc.EndTest?
    && var m := s.(cpus := s.cpus[i := s.cpus[i].(pc := EndUnlock)]);
       if s.pending == 1 then SignalExclusive(m, s') else s' == m
  }

  predicate BroadcastStep(s: State, i: nat, s': State)
    requires i < |s.cpus|
  {
    s.cpus[i].pc.FinBroadcast? && s' == BroadcastResume(s.(cpus := s.cpus[i := s.cpus[i].(pc := FinUnlock)]))
  }

  predicate LocalStep(s: State, i: nat, op: LockOp, s': State)
    requires i < |s.cpus|
  {
    Moves(s, i, op, s') && s'.pending == s.pending && LocalMove(s.cpus[i], s.pending, op, s'.cpus[i])
  }

  predicate HolderStep(s: State, i: nat, s': State)
    requires i < |s.cpus|
  {
    Moves(s, i, Keep, s') && HolderMove(s.cpus[i], |s.cpus|, s.pending, s'.cpus[i], s'.pending)
  }

  /** One step of thread i. */
  ghost predicate Step(s: State, i: nat, s': State)
    requires i < |s.cpus|
  {
    || LocalStep(s, i, Keep, s') || LocalStep(s, i, Take, s') || LocalStep(s, i, Drop, s')
    || HolderStep(s, i, s') || ScanStep(s, i, s') || SignalStep(s, i, s') || BroadcastStep(s, i, s')
  }

  ghost predicate Next(s: State, s': State) {
    exists i :: 0 <= i < |s.cpus| && Step(s, i, s')
  }

  /** A run of the protocol over any number of CPUs, in any interleaving. */
  ghost predicate Run(run: seq<State>) {
    && |run| > 0
    && Init(run[0])
    && forall k :: 0 <= k < |run| - 1 ==> Next(run[k], run[k + 1])
  }

  // ------------------------------------------------------------------------------------------
  // The inductive invariant

  predicate Locked(pc: Pc) {
    || pc.StartCheck? || pc.StartClear? || pc.StartTest? || pc.StartSet? || pc.StartUnlock?
    || pc.EndCheck? || pc.EndDec? || pc.EndTest? || pc.EndUnlock?
    || pc.ExIdleTest? || pc.ExMark? || pc.ExScan? || pc.ExPublish? || pc.ExTest? || pc.ExUnlock?
    || pc.FinReset? || pc.FinBroadcast? || pc.FinUnlock?
  }

  predicate RunningPc(pc: Pc) {
    pc.StartRead? || pc.StartLock? || pc.StartCheck? || pc.StartClear? || pc.StartUnlock? || pc.Executing?
  }

  predicate MayHaveWaiter(pc: Pc) {
    || pc.StartRead? || pc.StartLock? || pc.StartCheck? || pc.StartUnlock? || pc.Executing?
    || pc.EndRead? || pc.EndLock? || pc.EndCheck?
  }

  /** From setting pending_cpus to 1 until end_exclusive resets it. */
  predicate Owns(pc: Pc) {
    pc.ExScan? || pc.ExPublish? || pc.ExTest? || pc.ExAsleep? || pc.ExRelock? || InSection(pc)
  }

  /** From leaving the wait loop of start_exclusive until the reset in end_exclusive. */
  predicate InSection(pc: Pc) {
    pc.ExUnlock? || pc.ExCount? || pc.Exclusive? || pc.FinLock? || pc.FinReset?
  }

  /** cpu_exec_start has decided to run and cpu_exec_end has not begun. */
  predicate Runs(pc: Pc) {
    pc.StartUnlock? || pc.Executing?
  }

  predicate AsleepForResume(pc: Pc) {
    pc.StartAsleep? || pc.ExIdleAsleep?
  }

  function Waiters(s: State): set<nat> {
    set i: nat | i < |s.cpus| && s.cpus[i].hasWaiter
  }

  predicate HolderAt(s: State, pc: Pc) {
    0 <= s.lock < |s.cpus| && s.cpus[s.lock].pc == pc
  }

  /** What holds of each CPU by itself. */
  predicate CpuInv(c: Cpu) {
    && c.running == RunningPc(c.pc)
    && (c.hasWaiter ==> MayHaveWaiter(c.pc))
    && (c.depth > 0 <==> c.pc.Exclusive?)
  }

  /** What a thread may rely on about pending_cpus. */
  predicate PendingInv(c: Cpu, pending: int) {
    && (c.pc.StartSet? || c.pc.ExMark? ==> pending == 0)
    && (c.pc.StartUnlock? ==> c.hasWaiter || pending == 0)
  }

  /** A sleeper still has something to wait for, or its wakeup is about to be sent. */
  predicate SleepInv(s: State, c: Cpu) {
    && (c.pc.ExAsleep? ==> s.pending > 1 || HolderAt(s, EndTest))
    && (AsleepForResume(c.pc) ==> s.pending != 0 || HolderAt(s, FinBroadcast))
  }

  predicate SharedInv(s: State, i: nat)
    requires i < |s.cpus|
  {
    (Locked(s.cpus[i].pc) <==> s.lock == i) && PendingInv(s.cpus[i], s.pending) && SleepInv(s, s.cpus[i])
  }

  /** A CPU the scan has passed runs only if it is counted. */
  predicate Quiet(c: Cpu) {
    c.hasWaiter || !Runs(c.pc)
  }

  ghost predicate AllQuiet(s: State, n: nat)
    requires n <= |s.cpus|
  {
    forall i :: 0 <= i < n ==> Quiet(s.cpus[i])
  }

  ghost predicate OwnerInv(s: State, o: nat)
    requires o < |s.cpus|
  {
    var pc := s.cpus[o].pc;
    if pc.ExScan? then
      && s.pending == 1 && pc.next <= |s.cpus| && AllQuiet(s, pc.next) && pc.found == |Waiters(s)|
      && forall i :: pc.next <= i < |s.cpus| ==> !s.cpus[i].hasWaiter
    else if pc.ExPublish? then
      s.pending == 1 && pc.found == |Waiters(s)| && AllQuiet(s, |s.cpus|)
    else
      && AllQuiet(s, |s.cpus|)
      && s.pending == 1 + |Waiters(s)| + (if HolderAt(s, EndDec) then 1 else 0)
      && (InSection(pc) ==> s.pending == 1)
  }

  /** The invariant, given which thread (if any) owns the exclusive section. */
  ghost predicate InvAt(s: State, owner: int) {
    && NONE <= s.lock < |s.cpus| && NONE <= owner < |s.cpus|
    && (forall i :: 0 <= i < |s.cpus| ==> CpuInv(s.cpus[i]))
    && (forall i :: 0 <= i < |s.cpus| ==> SharedInv(s, i))
    && (forall i :: 0 <= i < |s.cpus| ==> (Owns(s.cpus[i].pc) <==> owner == i))
    && (if owner == NONE then s.pending == 0 && Waiters(s) == {} && !HolderAt(s, EndDec)
        else OwnerInv(s, owner))
  }

  ghost predicate Inv(s: State) {
    exists owner :: InvAt(s, owner)
  }

  // ------------------------------------------------------------------------------------------
  // Every step keeps it

  function NextOwner(s: State, i: nat, owner: int): int
    requires i < |s.cpus|
  {
    if s.cpus[i].pc.ExMark? then i
    else if s.cpus[i].pc.FinReset? then NONE
    else owner
  }

  lemma InitInv(s: State)
    requires Init(s)
    ensures InvAt(s, NONE)
  {
    assert Waiters(s) == {};
  }

  predicate Special(pc: Pc) {
    pc.EndDec? || pc.EndTest? || pc.FinBroadcast?
  }

  /** What every local move guarantees about the mover's record. */
  predicate GoodMove(c: Cpu, pending: int, op: LockOp, c': Cpu) {
    && CpuInv(c') && PendingInv(c', pending)
    && c'.hasWaiter == c.hasWaiter && !Special(c.pc) && !Special(c'.pc)
    && (op == Keep ==> Locked(c'.pc) == Locked(c.pc))
    && (op == Take ==> Locked(c'.pc) && !Locked(c.pc))
    && (op == Drop ==> !Locked(c'.pc) && Locked(c.pc))
    && Owns(c'.pc) == Owns(c.pc)
    && (Quiet(c') || Runs(c.pc) || pending == 0)
    && (c'.pc.ExAsleep? ==> pending > 1)
    && (AsleepForResume(c'.pc) ==> pending != 0)
    && !c'.pc.ExScan? && !c'.pc.ExPublish? && !c.pc.ExScan? && !c.pc.ExPublish?
    && (InSection(c'.pc) ==> InSection(c.pc) || (c.pc.ExTest? && pending <= 1))
  }

  lemma ExecStartMoveIsGood(c: Cpu, pending: int, op: LockOp, c': Cpu)
    requires CpuInv(c) && PendingInv(c, pending) && ExecStartMove(c, pending, op, c')
    requires c.hasWaiter ==> pending != 0
    ensures GoodMove(c, pending, op, c')
  {
  }

  lemma ExecYieldMoveIsGood(c: Cpu, pending: int, op: LockOp, c': Cpu)
    requires CpuInv(c) && PendingInv(c, pending) && ExecYieldMove(c, pending, op, c')
    ensures GoodMove(c, pending, op, c')
  {
  }

  lemma ExecEndMoveIsGood(c: Cpu, pending: int, op: LockOp, c': Cpu)
    requires CpuInv(c) && PendingInv(c, pending) && ExecEndMove(c, pending, op, c')
    requires c.hasWaiter ==> pending != 0
    ensures GoodMove(c, pending, op, c')
  {
  }

  lemma EnterMoveIsGood(c: Cpu, pending: int, op: LockOp, c': Cpu)
    requires CpuInv(c) && PendingInv(c, pending) && EnterMove(c, pending, op, c')
    ensures GoodMove(c, pending, op, c')
  {
  }

  lemma AwaitMoveIsGood(c: Cpu, pending: int, op: LockOp, c': Cpu)
    requires CpuInv(c) && PendingInv(c, pending) && AwaitMove(c, pending, op, c')
    ensures GoodMove(c, pending, op, c')
  {
  }

  lemma LeaveMoveIsGood(c: Cpu, pending: int, op: LockOp, c': Cpu)
    requires CpuInv(c) && PendingInv(c, pending) && LeaveMove(c, op, c')
    ensures GoodMove(c, pending, op, c')
  {
  }

  lemma LocalStepKeepsOthers(s: State, i: nat, op: LockOp, s': State)
    requires i < |s.cpus| && Moves(s, i, op, s') && s'.pending == s.pending && NONE <= s.lock < |s.cpus|
    requires GoodMove(s.cpus[i], s.pending, op, s'.cpus[i])
    requires forall j :: 0 <= j < |s.cpus| ==> CpuInv(s.cpus[j])
    requires forall j :: 0 <= j < |s.cpus| ==> SharedInv(s, j)
    ensures forall j :: 0 <= j < |s'.cpus| ==> CpuInv(s'.cpus[j])
    ensures forall j :: 0 <= j < |s'.cpus| ==> SharedInv(s', j)
    ensures HolderAt(s', EndDec) == HolderAt(s, EndDec)
  {
    assert SharedInv(s, i);
    assert forall pc | Special(pc) :: HolderAt(s', pc) == HolderAt(s, pc);
    forall j | 0 <= j < |s'.cpus| ensures CpuInv(s'.cpus[j]) && SharedInv(s', j) {
      assert CpuInv(s.cpus[j]) && SharedInv(s, j);
    }
  }

  lemma LocalMoveIsGood(c: Cpu, pending: int, op: LockOp, c': Cpu)
    requires CpuInv(c) && PendingInv(c, pending) && LocalMove(c, pending, op, c')
    requires c.hasWaiter ==> pending != 0
    ensures GoodMove(c, pending, op, c')
  {
    if ExecStartMove(c, pending, op, c') {
      ExecStartMoveIsGood(c, pending, op, c');
    } else if ExecYieldMove(c, pending, op, c') {
      ExecYieldMoveIsGood(c, pending, op, c');
    } else if ExecEndMove(c, pending, op, c') {
      ExecEndMoveIsGood(c, pending, op, c');
    } else if EnterMove(c, pending, op, c') {
      EnterMoveIsGood(c, pending, op, c');
    } else if AwaitMove(c, pending, op, c') {
      AwaitMoveIsGood(c, pending, op, c');
    } else {
      LeaveMoveIsGood(c, pending, op, c');
    }
  }

  lemma LocalStepKeepsInv(s: State, i: nat, op: LockOp, s': State, owner: int)
    requires InvAt(s, owner) && i < |s.cpus| && LocalStep(s, i, op, s')
    ensures InvAt(s', owner) && NextOwner(s, i, owner) == owner
  {
    assert CpuInv(s.cpus[i]) && SharedInv(s, i);
    assert s.cpus[i].hasWaiter ==> i in Waiters(s);
    LocalMoveIsGood(s.cpus[i], s.pending, op, s'.cpus[i]);
    LocalStepKeepsOthers(s, i, op, s');
    GoodStepKeepsOwner(s, i, op, s', owner);
  }

  lemma GoodStepKeepsOwner(s: State, i: nat, op: LockOp, s': State, owner: int)
    requires InvAt(s, owner) && i < |s.cpus| && Moves(s, i, op, s') && s'.pending == s.pending
    requires GoodMove(s.cpus[i], s.pending, op, s'.cpus[i])
    requires HolderAt(s', EndDec) == HolderAt(s, EndDec)
    ensures forall j :: 0 <= j < |s'.cpus| ==> (Owns(s'.cpus[j].pc) <==> owner == j)
    ensures if owner == NONE then Waiters(s') == {} else OwnerInv(s', owner)
  {
    assert Waiters(s') == Waiters(s);
    if owner >= 0 {
      assert AllQuiet(s, |s.cpus|) ==> AllQuiet(s', |s'.cpus|);
    }
  }

  /** A step of the mutex holder that does not take away what a sleeper waits for. */
  lemma HolderStepKeepsOthers(s: State, i: nat, s': State)
    requires i < |s.cpus| && Moves(s, i, Keep, s') && s.lock == i
    requires CpuInv(s'.cpus[i]) && PendingInv(s'.cpus[i], s'.pending) && Locked(s'.cpus[i].pc)
    requires forall j :: 0 <= j < |s.cpus| ==> CpuInv(s.cpus[j])
    requires forall j :: 0 <= j < |s.cpus| ==> SharedInv(s, j)
    requires || (forall j :: 0 <= j < |s.cpus| ==> !s.cpus[j].pc.ExAsleep?)
             || (s.pending > 1 || s.cpus[i].pc.EndTest? ==> s'.pending > 1 || s'.cpus[i].pc.EndTest?)
    requires s.pending != 0 || s.cpus[i].pc.FinBroadcast? ==> s'.pending != 0 || s'.cpus[i].pc.FinBroadcast?
    ensures forall j :: 0 <= j < |s'.cpus| ==> CpuInv(s'.cpus[j])
    ensures forall j :: 0 <= j < |s'.cpus| ==> SharedInv(s', j)
  {
    forall j | 0 <= j < |s'.cpus| ensures CpuInv(s'.cpus[j]) && SharedInv(s', j) {
      assert CpuInv(s.cpus[j]) && SharedInv(s, j);
    }
  }

  lemma ClearWaiterKeepsInv(s: State, i: nat, s': State, owner: int)
    requires InvAt(s, owner) && i < |s.cpus| && s.cpus[i].pc.EndCheck? && HolderStep(s, i, s')
    ensures InvAt(s', owner)
  {
    assert CpuInv(s.cpus[i]) && SharedInv(s, i);
    HolderStepKeepsOthers(s, i, s');
    assert Waiters(s') == Waiters(s) - {i} && i in Waiters(s);
    assert SharedInv(s, owner);
  }

  lemma DecrementKeepsInv(s: State, i: nat, s': State, owner: int)
    requires InvAt(s, owner) && i < |s.cpus| && s.cpus[i].pc.EndDec? && HolderStep(s, i, s')
    ensures s.pending >= 2 && InvAt(s', owner)
  {
    assert CpuInv(s.cpus[i]) && SharedInv(s, i) && HolderAt(s, EndDec);
    assert owner >= 0 && SharedInv(s, owner);
    HolderStepKeepsOthers(s, i, s');
    assert Waiters(s') == Waiters(s);
  }

  lemma MarkKeepsInv(s: State, i: nat, s': State, owner: int)
    requires InvAt(s, owner) && i < |s.cpus| && s.cpus[i].pc.ExMark? && HolderStep(s, i, s')
    ensures InvAt(s', i)
  {
    assert CpuInv(s.cpus[i]) && SharedInv(s, i);
    assert owner == NONE;
    HolderStepKeepsOthers(s, i, s');
    assert Waiters(s') == Waiters(s);
    forall j | 0 <= j < |s'.cpus| ensures !s'.cpus[j].hasWaiter {
      assert s'.cpus[j].hasWaiter ==> j in Waiters(s');
    }
  }

  lemma PublishKeepsInv(s: State, i: nat, s': State, owner: int)
    requires InvAt(s, owner) && i < |s.cpus| && (s.cpus[i].pc.ExScan? || s.cpus[i].pc.ExPublish?)
    requires HolderStep(s, i, s')
    ensures InvAt(s', owner)
  {
    assert CpuInv(s.cpus[i]) && SharedInv(s, i);
    HolderStepKeepsOthers(s, i, s');
    assert Waiters(s') == Waiters(s);
  }

  lemma ResetKeepsInv(s: State, i: nat, s': State, owner: int)
    requires InvAt(s, owner) && i < |s.cpus| && s.cpus[i].pc.FinReset? && HolderStep(s, i, s')
    ensures InvAt(s', NONE)
  {
    assert CpuInv(s.cpus[i]) && SharedInv(s, i);
    HolderStepKeepsOthers(s, i, s');
    assert Waiters(s') == Waiters(s);
  }

  lemma HolderStepKeepsInv(s: State, i: nat, s': State, owner: int)
    requires InvAt(s, owner) && i < |s.cpus| && HolderStep(s, i, s')
    ensures InvAt(s', NextOwner(s, i, owner))
  {
    if s.cpus[i].pc.EndCheck? {
      ClearWaiterKeepsInv(s, i, s', owner);
    } else if s.cpus[i].pc.EndDec? {
      DecrementKeepsInv(s, i, s', owner);
    } else if s.cpus[i].pc.ExMark? {
      MarkKeepsInv(s, i, s', owner);
    } else if s.cpus[i].pc.FinReset? {
      ResetKeepsInv(s, i, s', owner);
    } else {
      PublishKeepsInv(s, i, s', owner);
    }
  }

  lemma ScanHitKeepsOthers(s: State, i: nat, k: nat)
    requires i < |s.cpus| && k < |s.cpus| && s.cpus[k].running && s.lock == i
    requires forall j :: 0 <= j < |s.cpus| ==> CpuInv(s.cpus[j])
    requires forall j :: 0 <= j < |s.cpus| ==> SharedInv(s, j)
    requires s.cpus[i].pc.ExScan?
    ensures var m := s.(cpus := s.cpus[k := s.cpus[k].(hasWaiter := true)]);
      && (forall j :: 0 <= j < |m.cpus| ==> CpuInv(m.cpus[j]))
      && (forall j :: 0 <= j < |m.cpus| ==> SharedInv(m, j))
  {
    var m := s.(cpus := s.cpus[k := s.cpus[k].(hasWaiter := true)]);
    forall j | 0 <= j < |m.cpus| ensures CpuInv(m.cpus[j]) && SharedInv(m, j) {
      assert CpuInv(s.cpus[j]) && SharedInv(s, j) && SharedInv(s, k) && SharedInv(s, i);
    }
  }

  lemma ScanHitKeepsInv(s: State, i: nat, s': State)
    requires InvAt(s, i) && i < |s.cpus| && ScanStep(s, i, s') && s.cpus[s.cpus[i].pc.next].running
    ensures InvAt(s', i)
  {
    var k := s.cpus[i].pc.next;
    assert CpuInv(s.cpus[i]) && SharedInv(s, i) && CpuInv(s.cpus[k]) && SharedInv(s, k);
    ScanHitKeepsOthers(s, i, k);
    HolderStepKeepsOthers(s.(cpus := s.cpus[k := s.cpus[k].(hasWaiter := true)]), i, s');
    assert k != i && k !in Waiters(s) && Waiters(s') == Waiters(s) + {k};
  }

  lemma ScanMissKeepsInv(s: State, i: nat, s': State)
    requires InvAt(s, i) && i < |s.cpus| && ScanStep(s, i, s') && !s.cpus[s.cpus[i].pc.next].running
    ensures InvAt(s', i)
  {
    var k := s.cpus[i].pc.next;
    assert CpuInv(s.cpus[i]) && SharedInv(s, i) && CpuInv(s.cpus[k]) && SharedInv(s, k);
    HolderStepKeepsOthers(s, i, s');
    assert Waiters(s') == Waiters(s);
  }

  lemma ScanKeepsInv(s: State, i: nat, s': State, owner: int)
    requires InvAt(s, owner) && i < |s.cpus| && ScanStep(s, i, s')
    ensures InvAt(s', owner)
  {
    assert owner == i;
    if s.cpus[s.cpus[i].pc.next].running {
      ScanHitKeepsInv(s, i, s');
    } else {
      ScanMissKeepsInv(s, i, s');
    }
  }

  /** Wakeups change no count and nobody's role. */
  lemma WakeupKeepsOwner(s: State, s': State, owner: int)
    requires InvAt(s, owner) && |s'.cpus| == |s.cpus| && s'.pending == s.pending
    requires !HolderAt(s, EndDec) && !HolderAt(s', EndDec)
    requires forall j :: 0 <= j < |s.cpus| ==> s'.cpus[j].hasWaiter == s.cpus[j].hasWaiter
    requires forall j :: 0 <= j < |s.cpus| ==> Runs(s'.cpus[j].pc) == Runs(s.cpus[j].pc)
    requires forall j :: 0 <= j < |s.cpus| ==> Owns(s'.cpus[j].pc) == Owns(s.cpus[j].pc)
    requires
      owner >= 0 ==>
        s'.cpus[owner].pc == s.cpus[owner].pc || (s.cpus[owner].pc.ExAsleep? && s'.cpus[owner].pc.ExRelock?)
    ensures forall j :: 0 <= j < |s'.cpus| ==> (Owns(s'.cpus[j].pc) <==> owner == j)
    ensures if owner == NONE then Waiters(s') == {} else OwnerInv(s', owner)
  {
    assert Waiters(s') == Waiters(s);
  }

  lemma WakeKeepsOthers(s: State, o: nat)
    requires 0 <= o < |s.cpus| && s.cpus[o].pc.ExAsleep? && NONE <= s.lock < |s.cpus|
    requires forall j :: 0 <= j < |s.cpus| ==> CpuInv(s.cpus[j])
    requires forall j :: 0 <= j < |s.cpus| ==> SharedInv(s, j)
    ensures var w := s.(cpus := s.cpus[o := s.cpus[o].(pc := ExRelock)]);
      && (forall j :: 0 <= j < |w.cpus| ==> CpuInv(w.cpus[j]))
      && (forall j :: 0 <= j < |w.cpus| ==> SharedInv(w, j))
  {
    var w := s.(cpus := s.cpus[o := s.cpus[o].(pc := ExRelock)]);
    forall j | 0 <= j < |w.cpus| ensures CpuInv(w.cpus[j]) && SharedInv(w, j) {
      assert CpuInv(s.cpus[j]) && SharedInv(s, j) && SharedInv(s, o);
    }
  }

  lemma SignalWakesKeepsInv(s: State, i: nat, s': State, owner: nat)
    requires InvAt(s, owner) && i < |s.cpus| && SignalStep(s, i, s') && s.pending == 1 && s.cpus[owner].pc.ExAsleep?
    ensures InvAt(s', owner)
  {
    assert CpuInv(s.cpus[i]) && SharedInv(s, i);
    var m := s.(cpus := s.cpus[i := s.cpus[i].(pc := EndUnlock)]);
    assert m.cpus[owner].pc.ExAsleep?;
    var w := s.(cpus := s.cpus[owner := s.cpus[owner].(pc := ExRelock)]);
    assert s' == w.(cpus := w.cpus[i := s'.cpus[i]]);
    WakeKeepsOthers(s, owner);
    HolderStepKeepsOthers(w, i, s');
    WakeupKeepsOwner(s, s', owner);
  }

  lemma SignalKeepsInv(s: State, i: nat, s': State, owner: int)
    requires InvAt(s, owner) && i < |s.cpus| && SignalStep(s, i, s')
    ensures InvAt(s', owner)
  {
    if s.pending == 1 && owner >= 0 && s.cpus[owner].pc.ExAsleep? {
      SignalWakesKeepsInv(s, i, s', owner);
    } else {
      assert CpuInv(s.cpus[i]) && SharedInv(s, i);
      if owner >= 0 { assert SharedInv(s, owner); }
      assert s' == s.(cpus := s.cpus[i := s.cpus[i].(pc := EndUnlock)]);
      HolderStepKeepsOthers(s, i, s');
      WakeupKeepsOwner(s, s', owner);
    }
  }

  lemma WokenIsGood(c: Cpu)
    requires CpuInv(c)
    ensures var c' := WokenByResume(c);
      && CpuInv(c') && c'.hasWaiter == c.hasWaiter && !AsleepForResume(c'.pc)
      && Locked(c'.pc) == Locked(c.pc) && Runs(c'.pc) == Runs(c.pc) && Owns(c'.pc) == Owns(c.pc)
      && (c'.pc == c.pc || (!Locked(c.pc) && !Owns(c.pc) && !c'.pc.ExAsleep?))
  {
  }

  lemma BroadcastKeepsInv(s: State, i: nat, s': State, owner: int)
    requires InvAt(s, owner) && i < |s.cpus| && BroadcastStep(s, i, s')
    ensures InvAt(s', owner)
  {
    assert CpuInv(s.cpus[i]) && SharedInv(s, i);
    var m := s.(cpus := s.cpus[i := s.cpus[i].(pc := FinUnlock)]);
    forall j | 0 <= j < |s'.cpus| ensures CpuInv(s'.cpus[j]) && SharedInv(s', j) {
      assert CpuInv(s.cpus[j]) && SharedInv(s, j) && CpuInv(m.cpus[j]);
      WokenIsGood(m.cpus[j]);
    }
    forall j | 0 <= j < |s'.cpus|
      ensures s'.cpus[j].hasWaiter == s.cpus[j].hasWaiter && Runs(s'.cpus[j].pc) == Runs(s.cpus[j].pc)
      ensures Owns(s'.cpus[j].pc) == Owns(s.cpus[j].pc) && (owner == j ==> s'.cpus[j].pc == s.cpus[j].pc)
    {
      assert CpuInv(s.cpus[j]) && CpuInv(m.cpus[j]);
      WokenIsGood(m.cpus[j]);
    }
    WakeupKeepsOwner(s, s', owner);
  }

  lemma StepKeepsInv(s: State, i: nat, s': State, owner: int)
    requires InvAt(s, owner) && i < |s.cpus| && Step(s, i, s')
    ensures InvAt(s', NextOwner(s, i, owner))
  {
    if LocalStep(s, i, Keep, s') {
      LocalStepKeepsInv(s, i, Keep, s', owner);
    } else if LocalStep(s, i, Take, s') {
      LocalStepKeepsInv(s, i, Take, s', owner);
    } else if LocalStep(s, i, Drop, s') {
      LocalStepKeepsInv(s, i, Drop, s', owner);
    } else if HolderStep(s, i, s') {
      HolderStepKeepsInv(s, i, s', owner);
    } else if ScanStep(s, i, s') {
      ScanKeepsInv(s, i, s', owner);
    } else if SignalStep(s, i, s') {
      SignalKeepsInv(s, i, s', owner);
    } else {
      BroadcastKeepsInv(s, i, s', owner);
    }
  }

  lemma {:induction false} RunKeepsInv(run: seq<State>, k: nat)
    requires Run(run) && k < |run|
    ensures Inv(run[k])
  {
    if k == 0 {
      InitInv(run[0]);
    } else {
      RunKeepsInv(run, k - 1);
      var owner :| InvAt(run[k - 1], owner);
      assert Next(run[k - 1], run[k - 1 + 1]);
      var i :| 0 <= i < |run[k - 1].cpus| && Step(run[k - 1], i, run[k]);
      StepKeepsInv(run[k - 1], i, run[k], owner);
    }
  }

  // ------------------------------------------------------------------------------------------
  // What it buys

  /** While a thread is inside an exclusive section no CPU executes, and no other thread is inside
      one or about to be. */
  lemma MutualExclusion(run: seq<State>, k: nat, i: nat)
    requires Run(run) && k < |run| && i < |run[k].cpus| && InSection(run[k].cpus[i].pc)
    ensures forall j :: 0 <= j < |run[k].cpus| ==> !Runs(run[k].cpus[j].pc)
    ensures forall j :: 0 <= j < |run[k].cpus| && j != i ==> !Owns(run[k].cpus[j].pc)
    ensures run[k].pending == 1 && Waiters(run[k]) == {}
  {
    RunKeepsInv(run, k);
    var s := run[k];
    var owner :| InvAt(s, owner);
    assert owner == i && Waiters(s) == {};
    forall j | 0 <= j < |s.cpus| ensures !Runs(s.cpus[j].pc) {
      assert Quiet(s.cpus[j]);
      assert s.cpus[j].hasWaiter ==> j in Waiters(s);
    }
  }

  /** Outside the scan and the decrement, pending_cpus is 0 with nobody counted, or one more than
      the number of counted CPUs. */
  lemma WaiterAccounting(run: seq<State>, k: nat)
    requires Run(run) && k < |run|
    requires forall i :: 0 <= i < |run[k].cpus| ==>
      var pc := run[k].cpus[i].pc; !pc.ExScan? && !pc.ExPublish? && !pc.EndDec?
    ensures (run[k].pending == 0 && Waiters(run[k]) == {}) || run[k].pending == 1 + |Waiters(run[k])|
    ensures run[k].pending == 0 <==> forall i :: 0 <= i < |run[k].cpus| ==> !Owns(run[k].cpus[i].pc)
  {
    RunKeepsInv(run, k);
    var owner :| InvAt(run[k], owner);
    if owner >= 0 { assert Owns(run[k].cpus[owner].pc); }
  }

  /** The decrement in cpu_exec_end never brings pending_cpus to 0. */
  lemma DecrementStaysPositive(run: seq<State>, k: nat, i: nat)
    requires Run(run) && k < |run| && i < |run[k].cpus| && run[k].cpus[i].pc.EndDec?
    ensures run[k].pending - 1 >= 1
  {
    RunKeepsInv(run, k);
    var owner :| InvAt(run[k], owner);
    assert SharedInv(run[k], i) && HolderAt(run[k], EndDec);
    assert SharedInv(run[k], owner);
  }

  /** No wakeup is lost: with the mutex free, whoever is asleep still has to wait. */
  lemma NoLostWakeup(run: seq<State>, k: nat, i: nat)
    requires Run(run) && k < |run| && i < |run[k].cpus| && run[k].lock == NONE
    ensures run[k].cpus[i].pc.ExAsleep? ==> run[k].pending > 1
    ensures AsleepForResume(run[k].cpus[i].pc) ==> run[k].pending != 0
  {
    RunKeepsInv(run, k);
    var owner :| InvAt(run[k], owner);
    assert SharedInv(run[k], i);
  }

  predicate Asleep(pc: Pc) {
    pc.ExAsleep? || AsleepForResume(pc)
  }

  predicate WantsLock(pc: Pc) {
    pc.StartLock? || pc.StartRelock? || pc.EndLock? || pc.ExLock? || pc.ExIdleRelock? || pc.ExRelock? || pc.FinLock?
  }

  /** Thread j is inside the protocol and can take its next step now, without a spurious wakeup. */
  predicate CanProceed(s: State, j: nat)
    requires j < |s.cpus|
  {
    var pc := s.cpus[j].pc;
    !pc.Idle? && !Asleep(pc) && (WantsLock(pc) ==> s.lock == NONE)
  }

  /** The protocol never gets stuck: if a thread is asleep, some thread can proceed, and with the
      mutex free it is the owner of the section or a CPU that the owner waits for. */
  lemma SleepersAreAwaited(run: seq<State>, k: nat, i: nat)
    requires Run(run) && k < |run| && i < |run[k].cpus| && Asleep(run[k].cpus[i].pc)
    ensures exists j :: && 0 <= j < |run[k].cpus| && CanProceed(run[k], j)
                        && (run[k].lock == NONE ==> Owns(run[k].cpus[j].pc) || run[k].cpus[j].hasWaiter)
  {
    RunKeepsInv(run, k);
    var s := run[k];
    var owner :| InvAt(s, owner);
    if s.lock != NONE {
      assert SharedInv(s, s.lock) && CanProceed(s, s.lock);
    } else {
      assert SharedInv(s, i);
      assert owner >= 0 && SharedInv(s, owner);
      if s.cpus[owner].pc.ExAsleep? {
        assert |Waiters(s)| > 0;
        var j :| j in Waiters(s);
        assert CpuInv(s.cpus[j]) && CanProceed(s, j);
      } else {
        assert CanProceed(s, owner);
      }
    }
  }

  /** The assertion at the head of start_exclusive, and the nesting count. */
  lemma EntryAssertions(run: seq<State>, k: nat, i: nat)
    requires Run(run) && k < |run| && i < |run[k].cpus|
    ensures run[k].cpus[i].pc.Idle? || run[k].cpus[i].pc.Exclusive? ==> !run[k].cpus[i].running
    ensures run[k].cpus[i].depth > 0 <==> run[k].cpus[i].pc.Exclusive?
  {
    RunKeepsInv(run, k);
    var owner :| InvAt(run[k], owner);
    assert CpuInv(run[k].cpus[i]);
  }

  // ------------------------------------------------------------------------------------------
  // A run that goes through all of it: CPU 1 executes, CPU 0 counts it, sleeps, is woken up by
  // CPU 1's cpu_exec_end, and enters its section.

  function Last(run: seq<State>): State
    requires run != []
  {
    run[|run| - 1]
  }

  lemma Extend(run: seq<State>, i: nat, s': State) returns (run': seq<State>)
    requires Run(run) && i < |Last(run).cpus| && Step(Last(run), i, s')
    ensures Run(run') && Last(run') == s'
  {
    run' := run + [s'];
    forall k | 0 <= k < |run'| - 1 ensures Next(run'[k], run'[k + 1]) {
      if k < |run| - 1 { assert Next(run[k], run[k + 1]); }
    }
  }

  lemma LocalExtend(run: seq<State>, i: nat, op: LockOp, c: Cpu) returns (run': seq<State>)
    requires Run(run) && i < |Last(run).cpus| && LocalMove(Last(run).cpus[i], Last(run).pending, op, c)
    requires op == Take ==> Last(run).lock == NONE
    ensures var s := Last(run);
      && Run(run')
      && Last(run') == State(s.cpus[i := c], s.pending, if op == Take then i else if op == Drop then NONE else s.lock)
  {
    var s := Last(run);
    var s' := State(s.cpus[i := c], s.pending, if op == Take then i else if op == Drop then NONE else s.lock);
    assert LocalStep(s, i, op, s');
    run' := Extend(run, i, s');
  }

  lemma HolderExtend(run: seq<State>, i: nat, c: Cpu, pending: int) returns (run': seq<State>)
    requires Run(run) && i < |Last(run).cpus|
    requires HolderMove(Last(run).cpus[i], |Last(run).cpus|, Last(run).pending, c, pending)
    ensures var s := Last(run); Run(run') && Last(run') == State(s.cpus[i := c], pending, s.lock)
  {
    var s := Last(run);
    var s' := State(s.cpus[i := c], pending, s.lock);
    assert HolderStep(s, i, s');
    run' := Extend(run, i, s');
  }

  lemma BusyRun() returns (run: seq<State>)
    ensures Run(run) && Last(run) == State([Cpu(ExMark, false, false, 0), Cpu(Executing, true, false, 0)], 0, 0)
  {
    var idle := Cpu(Idle, false, false, 0);
    run := [State([idle, idle], 0, NONE)];
    run := LocalExtend(run, 1, Keep, idle.(running := true, pc := StartRead));
    run := LocalExtend(run, 1, Keep, Cpu(Executing, true, false, 0));
    run := LocalExtend(run, 0, Keep, idle.(pc := ExLock));
    run := LocalExtend(run, 0, Take, idle.(pc := ExIdleTest));
    run := LocalExtend(run, 0, Keep, idle.(pc := ExMark));
  }

  lemma CountingRun() returns (run: seq<State>)
    ensures Run(run) && Last(run) == State([Cpu(ExAsleep, false, false, 0), Cpu(Executing, true, true, 0)], 2, NONE)
  {
    var idle := Cpu(Idle, false, false, 0);
    run := BusyRun();
    run := HolderExtend(run, 0, idle.(pc := ExScan(0, 0)), 1);
    var s1 := State([idle.(pc := ExScan(1, 0)), Cpu(Executing, true, false, 0)], 1, 0);
    assert ScanStep(Last(run), 0, s1);
    run := Extend(run, 0, s1);
    var s2 := State([idle.(pc := ExScan(2, 1)), Cpu(Executing, true, true, 0)], 1, 0);
    assert ScanStep(s1, 0, s2);
    run := Extend(run, 0, s2);
    run := HolderExtend(run, 0, idle.(pc := ExPublish(1)), 1);
    run := HolderExtend(run, 0, idle.(pc := ExTest), 2);
    run := LocalExtend(run, 0, Drop, idle.(pc := ExAsleep));
  }

  lemma SignallingRun() returns (run: seq<State>)
    ensures Run(run) && Last(run) == State([Cpu(ExRelock, false, false, 0), Cpu(EndUnlock, false, false, 0)], 1, 1)
  {
    run := CountingRun();
    run := LocalExtend(run, 1, Keep, Cpu(EndRead, false, true, 0));
    run := LocalExtend(run, 1, Keep, Cpu(EndLock, false, true, 0));
    run := LocalExtend(run, 1, Take, Cpu(EndCheck, false, true, 0));
    run := HolderExtend(run, 1, Cpu(EndDec, false, false, 0), 2);
    run := HolderExtend(run, 1, Cpu(EndTest, false, false, 0), 1);
    var s := Last(run);
    var m := s.(cpus := s.cpus[1 := s.cpus[1].(pc := EndUnlock)]);
    var s' := State([Cpu(ExRelock, false, false, 0), Cpu(EndUnlock, false, false, 0)], 1, 1);
    assert m.cpus[0].pc.ExAsleep? && s' == m.(cpus := m.cpus[0 := m.cpus[0].(pc := ExRelock)]);
    assert SignalStep(s, 1, s');
    run := Extend(run, 1, s');
  }

  /** The protocol does let a thread into its section, past a CPU that was executing. */
  lemma SectionIsReached() returns (run: seq<State>)
    ensures Run(run) && |Last(run).cpus| == 2 && Last(run).cpus[0].pc.Exclusive? && Last(run).cpus[1].pc.Idle?
  {
    var c := Cpu(ExRelock, false, false, 0);
    run := SignallingRun();
    run := LocalExtend(run, 1, Drop, Cpu(Idle, false, false, 0));
    run := LocalExtend(run, 0, Take, c.(pc := ExTest));
    run := LocalExtend(run, 0, Keep, c.(pc := ExUnlock));
    run := LocalExtend(run, 0, Drop, c.(pc := ExCount));
    run := LocalExtend(run, 0, Keep, c.(pc := Exclusive, depth := 1));
  }
}
