/** Pause accounting of one block job (job.c, blockjob.c) under every interleaving of the main thread
    with the job's I/O.  Operations that drop the job mutex are split where they drop it. */
module JobPause {

  /** Where the main thread is inside job_user_resume_locked or job_cancel_async_locked: not at all,
      before the driver's user_resume callback resets iostatus, or after it. */
  datatype MainPc = NoResume | BeforeReset | AfterReset

  /** `drains` counts drained sections of the job's nodes that have begun and not ended; `errors` the
      error actions that have paused the job and dropped the mutex to wake it up, so that user_paused
      is not set yet. */
  datatype State = State(
    started: bool, deferred: bool, busy: bool, paused: bool,
    pauseCount: int, userPaused: bool, ioFailed: bool,
    drains: nat, errors: nat, main: MainPc)

  predicate Init(s: State) {
    s == State(false, false, false, true, 1, false, false, 0, 0, NoResume)
  }

  /** job_enter_cond_locked wakes the coroutine, and drops the mutex for it. */
  predicate Wakes(s: State) {
    s.started && !s.deferred && !s.busy
  }

  function Entered(s: State): State {
    if Wakes(s) then s.(busy := true) else s
  }

  /** job_pause_locked */
  function PauseLocked(s: State): State {
    var s1 := s.(pauseCount := s.pauseCount + 1);
    if s1.paused then s1 else Entered(s1)
  }

  /** job_resume_locked asserts pause_count > 0; the wake-up also depends on the sleep timer. */
  predicate ResumeLocked(s: State, s': State) {
    && s.pauseCount > 0
    && var s1 := s.(pauseCount := s.pauseCount - 1);
       s' == s1 || (s1.pauseCount == 0 && s' == Entered(s1))
  }

  // ------------------------------------------------------------------------------------------
  // Steps

  predicate StartStep(s: State, s': State) {
    s.main.NoResume? && !s.started && s.paused
    && s' == s.(started := true, pauseCount := s.pauseCount - 1, busy := true, paused := false)
  }

  predicate UserPauseStep(s: State, s': State) {
    s.main.NoResume? && !s.userPaused && s' == PauseLocked(s.(userPaused := true))
  }

  predicate DrainBeginStep(s: State, s': State) {
    s.main.NoResume? && s' == PauseLocked(s).(drains := s.drains + 1)
  }

  predicate DrainEndStep(s: State, s': State) {
    s.main.NoResume? && s.drains > 0 && ResumeLocked(s.(drains := s.drains - 1), s')
  }

  /** job_user_resume_locked or job_cancel_async_locked finds user_paused set and drops the mutex. */
  predicate ResumeBeginStep(s: State, s': State) {
    s.main.NoResume? && s.userPaused && s.pauseCount > 0 && s' == s.(main := BeforeReset)
  }

  /** block_job_iostatus_reset asserts that a failed job is paused by the user. */
  predicate ResetStep(s: State, s': State) {
    && s.main.BeforeReset? && (s.ioFailed ==> s.userPaused && s.pauseCount > 0)
    && s' == s.(ioFailed := false, main := AfterReset)
  }

  /** The mutex is taken again; job_cancel_async_locked only decrements. */
  predicate ResumeEndStep(s: State, s': State) {
    s.main.AfterReset? && ResumeLocked(s.(userPaused := false, main := NoResume), s')
  }

  predicate CancelEndStep(s: State, s': State) {
    && s.main.AfterReset? && s.pauseCount > 0
    && s' == s.(userPaused := false, main := NoResume, pauseCount := s.pauseCount - 1)
  }

  /** block_job_error_action with action STOP that does not have to drop the mutex. */
  predicate ErrorStep(s: State, s': State) {
    && s.started
    && if s.userPaused then s' == s.(ioFailed := true)
       else (s.paused || !Wakes(s)) && s' == PauseLocked(s).(userPaused := true, ioFailed := true)
  }

  /** The same when the job is idle: waking it up drops the mutex before user_paused is set. */
  predicate ErrorBeginStep(s: State, s': State) {
    !s.userPaused && !s.paused && Wakes(s) && s' == PauseLocked(s).(errors := s.errors + 1)
  }

  predicate ErrorEndStep(s: State, s': State) {
    s.errors > 0 && s' == s.(errors := s.errors - 1, userPaused := true, ioFailed := true)
  }

  /** qmp_cont resets iostatus of every block job. */
  predicate ContStep(s: State, s': State) {
    s.main.NoResume? && ContAssertion(s) && s' == s.(ioFailed := false)
  }

  /** The assertion of block_job_iostatus_reset_locked. */
  predicate ContAssertion(s: State) {
    s.ioFailed ==> s.userPaused && s.pauseCount > 0
  }

  /** The coroutine goes idle, pauses, continues after a pause, or returns. */
  predicate CoroutineStep(s: State, s': State) {
    && s.started && !s.deferred
    && (|| (s.busy && !s.paused && s' == s.(busy := false))
        || (s.busy && !s.paused && s.pauseCount > 0 && s' == s.(busy := false, paused := true))
        || (s.busy && s.paused && s' == s.(paused := false))
        || (s.busy && !s.paused && s' == s.(deferred := true)))
  }

  predicate MainStep(s: State, s': State) {
    || StartStep(s, s') || UserPauseStep(s, s') || DrainBeginStep(s, s') || DrainEndStep(s, s')
    || ResumeBeginStep(s, s') || ResetStep(s, s') || ResumeEndStep(s, s') || CancelEndStep(s, s') || ContStep(s, s')
  }

  predicate JobStep(s: State, s': State) {
    ErrorStep(s, s') || ErrorBeginStep(s, s') || ErrorEndStep(s, s') || CoroutineStep(s, s')
  }

  predicate Next(s: State, s': State) {
    MainStep(s, s') || JobStep(s, s')
  }

  predicate Run(r: seq<State>) {
    r != [] && Init(r[0]) && forall i :: 0 <= i < |r| - 1 ==> Next(r[i], r[i + 1])
  }

  // ------------------------------------------------------------------------------------------
  // The count

  function Bit(b: bool): int {
    if b then 1 else 0
  }

  /** One for a job that is not started, one if it is paused by the user, one per drained section. */
  function Expected(s: State): int {
    Bit(!s.started) + Bit(s.userPaused) + s.drains
  }

  /** An error action sets user_paused although somebody else has set it since it paused the job. */
  predicate Overlap(s: State, s': State) {
    s.userPaused && ErrorEndStep(s, s')
  }

  function Overlaps(r: seq<State>): nat {
    if |r| < 2 then 0 else Overlaps(r[..|r| - 1]) + if Overlap(r[|r| - 2], r[|r| - 1]) then 1 else 0
  }

  ghost predicate Inv(s: State, overlaps: nat) {
    && s.pauseCount == Expected(s) + s.errors + overlaps
    && (!s.main.NoResume? ==> s.userPaused)
    && (!s.started ==> s.paused && !s.busy && !s.deferred && s.errors == 0)
  }

  lemma PauseKeepsInv(s: State, s': State, n: nat)
    requires Inv(s, n) && (StartStep(s, s') || UserPauseStep(s, s') || DrainBeginStep(s, s') || DrainEndStep(s, s'))
    ensures Inv(s', n) && !Overlap(s, s')
  {
  }

  lemma ResumeKeepsInv(s: State, s': State, n: nat)
    requires Inv(s, n)
    requires
      || ResumeBeginStep(s, s') || ResetStep(s, s') || ResumeEndStep(s, s') || CancelEndStep(s, s') || ContStep(s, s')
    ensures Inv(s', n) && !Overlap(s, s')
  {
  }

  lemma JobStepKeepsInv(s: State, s': State, n: nat)
    requires Inv(s, n) && JobStep(s, s')
    ensures Inv(s', n + if Overlap(s, s') then 1 else 0)
  {
  }

  lemma StepKeepsInv(s: State, s': State, n: nat)
    requires Inv(s, n) && Next(s, s')
    ensures Inv(s', n + if Overlap(s, s') then 1 else 0)
  {
    if JobStep(s, s') {
      JobStepKeepsInv(s, s', n);
    } else if StartStep(s, s') || UserPauseStep(s, s') || DrainBeginStep(s, s') || DrainEndStep(s, s') {
      PauseKeepsInv(s, s', n);
    } else {
      ResumeKeepsInv(s, s', n);
    }
  }

  lemma {:induction false} RunKeepsInv(r: seq<State>)
    requires Run(r)
    ensures Inv(r[|r| - 1], Overlaps(r))
  {
    if |r| > 1 {
      var r' := r[..|r| - 1];
      forall i | 0 <= i < |r'| - 1 ensures Next(r'[i], r'[i + 1]) { assert Next(r[i], r[i + 1]); }
      RunKeepsInv(r');
      assert Next(r[|r| - 2], r[|r| - 2 + 1]);
      StepKeepsInv(r[|r| - 2], r[|r| - 1], Overlaps(r'));
    }
  }

  /** In every run the count is never too low, and it is exact, outside of an error action's window,
      if and only if no two pauses overlapped. */
  lemma CountIsExactIff(r: seq<State>)
    requires Run(r)
    ensures var s := r[|r| - 1];
      s.pauseCount >= Expected(s) && (s.errors == 0 ==> (s.pauseCount == Expected(s) <==> Overlaps(r) == 0))
  {
    RunKeepsInv(r);
  }

  /** No run trips the assertions of job_resume_locked, of job_cancel_async_locked and, when it is
      called by the driver's user_resume callback, of block_job_iostatus_reset_locked; and starting
      never makes the count negative. */
  lemma AssertionsHold(r: seq<State>)
    requires Run(r)
    ensures var s := r[|r| - 1];
      && (s.drains > 0 ==> s.pauseCount > 0)
      && (s.main.BeforeReset? ==> ContAssertion(s))
      && (s.main.AfterReset? ==> s.pauseCount > 0)
      && (!s.started ==> s.pauseCount > 0)
      && s.pauseCount >= 0
  {
    RunKeepsInv(r);
  }

  // ------------------------------------------------------------------------------------------
  // iostatus

  /** A resume or cancel ends although the job has failed again since iostatus was reset. */
  predicate StaleEnd(s: State, s': State) {
    s.main.AfterReset? && s.ioFailed && s'.main.NoResume?
  }

  lemma PauseKeepsIo(s: State, s': State, n: nat)
    requires Inv(s, n) && (StartStep(s, s') || UserPauseStep(s, s') || DrainBeginStep(s, s') || DrainEndStep(s, s'))
    ensures !StaleEnd(s, s') && (ContAssertion(s) ==> ContAssertion(s'))
  {
    PauseKeepsInv(s, s', n);
  }

  lemma ResumeAffectsIo(s: State, s': State, n: nat)
    requires Inv(s, n)
    requires
      || ResumeBeginStep(s, s') || ResetStep(s, s') || ResumeEndStep(s, s') || CancelEndStep(s, s') || ContStep(s, s')
    ensures StaleEnd(s, s') ==> !ContAssertion(s')
    ensures ContAssertion(s) && !StaleEnd(s, s') ==> ContAssertion(s')
  {
  }

  lemma JobStepKeepsIo(s: State, s': State, n: nat)
    requires Inv(s, n) && JobStep(s, s')
    ensures !StaleEnd(s, s') && (ContAssertion(s) ==> ContAssertion(s'))
  {
    JobStepKeepsInv(s, s', n);
  }

  lemma StepAffectsIo(s: State, s': State, n: nat)
    requires Inv(s, n) && Next(s, s')
    ensures StaleEnd(s, s') ==> !ContAssertion(s')
    ensures ContAssertion(s) && !StaleEnd(s, s') ==> ContAssertion(s')
  {
    if JobStep(s, s') {
      JobStepKeepsIo(s, s', n);
    } else if StartStep(s, s') || UserPauseStep(s, s') || DrainBeginStep(s, s') || DrainEndStep(s, s') {
      PauseKeepsIo(s, s', n);
    } else {
      ResumeAffectsIo(s, s', n);
    }
  }

  lemma RunAffectsIo(r: seq<State>, i: nat)
    requires Run(r) && i < |r| - 1
    ensures StaleEnd(r[i], r[i + 1]) ==> !ContAssertion(r[i + 1])
    ensures ContAssertion(r[i]) && !StaleEnd(r[i], r[i + 1]) ==> ContAssertion(r[i + 1])
  {
    var p := r[..i + 1];
    forall k | 0 <= k < |p| - 1 ensures Next(p[k], p[k + 1]) { assert Next(r[k], r[k + 1]); }
    RunKeepsInv(p);
    assert p[|p| - 1] == r[i] && Next(r[i], r[i + 1]);
    StepAffectsIo(r[i], r[i + 1], Overlaps(p));
  }

  /** The assertion of block_job_iostatus_reset_locked, for a caller at any moment of the run, holds
      if and only if no resume or cancel ended on a job that had failed behind its back. */
  lemma IostatusIff(r: seq<State>)
    requires Run(r)
    ensures
      (forall i :: 0 <= i < |r| ==> ContAssertion(r[i])) <==>
        (forall i :: 0 <= i < |r| - 1 ==> !StaleEnd(r[i], r[i + 1]))
  {
    forall i | 0 <= i < |r| - 1
      ensures StaleEnd(r[i], r[i + 1]) ==> !ContAssertion(r[i + 1])
      ensures ContAssertion(r[i]) && !StaleEnd(r[i], r[i + 1]) ==> ContAssertion(r[i + 1])
    {
      RunAffectsIo(r, i);
    }
    if forall i :: 0 <= i < |r| - 1 ==> !StaleEnd(r[i], r[i + 1]) {
      for k := 1 to |r|
        invariant forall i :: 0 <= i < k ==> ContAssertion(r[i])
      {
        assert ContAssertion(r[k - 1]) && !StaleEnd(r[k - 1], r[k - 1 + 1]);
      }
    } else {
      var i :| 0 <= i < |r| - 1 && StaleEnd(r[i], r[i + 1]);
      assert !ContAssertion(r[i + 1]);
    }
  }

  // ------------------------------------------------------------------------------------------
  // Both exceptions can happen

  lemma Longer(r: seq<State>, s: State) returns (r': seq<State>)
    requires Run(r) && Next(r[|r| - 1], s)
    ensures Run(r') && |r'| == |r| + 1 && r'[|r'| - 1] == s && r'[|r'| - 2] == r[|r| - 1]
  {
    r' := r + [s];
    forall i | 0 <= i < |r'| - 1 ensures Next(r'[i], r'[i + 1]) {
      if i < |r| - 1 { assert Next(r[i], r[i + 1]); }
    }
  }

  lemma StartedRun() returns (r: seq<State>, s: State)
    ensures Run(r) && r[|r| - 1] == s && s.started && s.busy && !s.deferred && !s.paused && !s.userPaused && !s.ioFailed
    ensures s.pauseCount == 0 && s.drains == 0 && s.errors == 0 && s.main.NoResume?
  {
    var s0 := State(false, false, false, true, 1, false, false, 0, 0, NoResume);
    s := s0.(started := true, pauseCount := 0, busy := true, paused := false);
    assert StartStep(s0, s);
    r := Longer([s0], s);
  }

  /** The user pauses the job while an error action is waking it up: one pause too many, which no
      resume will ever undo. */
  lemma OverlapHappens() returns (r: seq<State>)
    ensures Run(r) && r[|r| - 1].errors == 0 && r[|r| - 1].pauseCount == Expected(r[|r| - 1]) + 1
  {
    var s;
    r, s := StartedRun();
    var idle := s.(busy := false);
    assert CoroutineStep(s, idle);
    r := Longer(r, idle);
    var failing := PauseLocked(idle).(errors := 1);
    assert ErrorBeginStep(idle, failing);
    r := Longer(r, failing);
    var pausedToo := PauseLocked(failing.(userPaused := true));
    assert UserPauseStep(failing, pausedToo);
    r := Longer(r, pausedToo);
    var end := pausedToo.(errors := 0, userPaused := true, ioFailed := true);
    assert ErrorEndStep(pausedToo, end);
    r := Longer(r, end);
  }

  lemma PausedRun() returns (r: seq<State>, s: State)
    ensures Run(r) && r[|r| - 1] == s && s.started && s.userPaused && s.pauseCount == 1 && s.main.NoResume?
  {
    var s0;
    r, s0 := StartedRun();
    s := PauseLocked(s0.(userPaused := true));
    assert UserPauseStep(s0, s);
    r := Longer(r, s);
  }

  lemma ResettingRun() returns (r: seq<State>, s: State)
    ensures Run(r) && r[|r| - 1] == s && s.started && s.userPaused && s.pauseCount == 1 && s.main.AfterReset?
  {
    var p;
    r, p := PausedRun();
    var before := p.(main := BeforeReset);
    assert ResumeBeginStep(p, before);
    r := Longer(r, before);
    s := before.(ioFailed := false, main := AfterReset);
    assert ResetStep(before, s);
    r := Longer(r, s);
  }

  /** An I/O error arrives between the reset of iostatus and the end of a resume, or of a cancel. */
  lemma StaleEndHappens(cancel: bool) returns (r: seq<State>)
    ensures Run(r) && |r| > 1 && !ContAssertion(r[|r| - 1])
    ensures if cancel then CancelEndStep(r[|r| - 2], r[|r| - 1]) else ResumeEndStep(r[|r| - 2], r[|r| - 1])
  {
    var s;
    r, s := ResettingRun();
    var failed := s.(ioFailed := true);
    assert ErrorStep(s, failed);
    r := Longer(r, failed);
    var end := failed.(userPaused := false, main := NoResume, pauseCount := failed.pauseCount - 1);
    assert CancelEndStep(failed, end) && ResumeEndStep(failed, end);
    r := Longer(r, end);
  }
}
