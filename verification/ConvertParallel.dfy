/** The coroutines of `qemu-img convert` (convert_co_do_copy) as a state machine over all
    interleavings: they claim ranges of sectors, read, wait for their turn, write, and wake up the
    next one. */
module ConvertParallel {

  import opened ImageBuffers

  /** Top: at the head of the loop.  Claiming: holds the lock and asks for the next range.
      Reading: has claimed a range.  Checking: at the condition of the waiting loop.  Asleep: has
      yielded there.  Writing: a write is in flight.  Finishing: about to pass the turn on. */
  datatype Pc = Top | Claiming | Reading | Checking | Asleep | Writing | Finishing | Exited

  datatype Co = Co(pc: Pc, claim: int)

  datatype Ret = InProgress | Failed | Succeeded

  /** Claim c is the range of sectors from bounds[c] to bounds[c + 1]; the last bound is sector_num.
      `finished` are the claims whose coroutine has passed on, `written` those that reached the
      target.  `source`, `target` and `first` are bytes: what the source reads as, what the target
      reads as now, and what it read as in the beginning. */
  datatype State = State(
    total: int, inOrder: bool, bounds: seq<int>, wrOffs: int, ret: Ret, lock: int,
    cos: seq<Co>, finished: set<int>, written: set<int>, source: seq<Byte>, target: seq<Byte>, first: seq<Byte>)

  const FREE := -1

  predicate Active(c: Co) {
    c.pc.Reading? || c.pc.Checking? || c.pc.Asleep? || c.pc.Writing? || c.pc.Finishing?
  }

  predicate Init(s: State) {
    && s.total >= 0 && s.bounds == [0] && s.wrOffs == 0 && s.ret.InProgress? && s.lock == FREE
    && s.finished == {} && s.written == {} && |s.source| == |s.first| == s.total * SECTOR && s.target == s.first
    && forall i :: 0 <= i < |s.cos| ==> s.cos[i] == Co(Top, -1)
  }

  function SectorNum(s: State): int
    requires s.bounds != []
  {
    s.bounds[|s.bounds| - 1]
  }

  // ------------------------------------------------------------------------------------------
  // Steps of coroutine i

  function Moved(s: State, i: int, pc: Pc): State
    requires 0 <= i < |s.cos|
  {
    s.(cos := s.cos[i := s.cos[i].(pc := pc)])
  }

  /** The coroutine leaves; the last one to leave decides that the copy has succeeded. */
  predicate Leave(s: State, s': State, i: int)
    requires 0 <= i < |s.cos|
  {
    var s1 := Moved(s, i, Exited);
    var last := forall k :: 0 <= k < |s.cos| && k != i ==> s.cos[k].pc.Exited?;
    s' == if s.ret.InProgress? && last then s1.(ret := Succeeded) else s1
  }

  predicate LockStep(s: State, s': State, i: int)
    requires 0 <= i < |s.cos|
  {
    && s.cos[i].pc.Top? && s.lock == FREE && s.bounds != []
    && if !s.ret.InProgress? || SectorNum(s) >= s.total then Leave(s, s', i)
       else s' == Moved(s, i, Claiming).(lock := i)
  }

  /** convert_iteration_sectors fails, or returns a length that stays inside the image. */
  predicate ClaimStep(s: State, s': State, i: int)
    requires 0 <= i < |s.cos|
  {
    && s.cos[i].pc.Claiming? && s.bounds != []
    && (|| Leave(s.(ret := Failed, lock := FREE), s', i)
        || (&& s'.bounds != [] && SectorNum(s) < SectorNum(s') <= s.total
            && s' ==
                 s.(bounds := s.bounds + [SectorNum(s')], lock := FREE,
                   cos := s.cos[i := Co(Reading, |s.bounds| - 1)])))
  }

  predicate ReadStep(s: State, s': State, i: int)
    requires 0 <= i < |s.cos|
  {
    s.cos[i].pc.Reading? && (s' == Moved(s, i, Checking) || s' == Moved(s, i, Checking).(ret := Failed))
  }

  predicate HasClaim(s: State, i: int) {
    0 <= i < |s.cos| && 0 <= s.cos[i].claim < |s.bounds| - 1
  }

  function Start(s: State, i: int): int
    requires HasClaim(s, i)
  {
    s.bounds[s.cos[i].claim]
  }

  function End(s: State, i: int): int
    requires HasClaim(s, i)
  {
    s.bounds[s.cos[i].claim + 1]
  }

  predicate CheckStep(s: State, s': State, i: int)
    requires 0 <= i < |s.cos|
  {
    && s.cos[i].pc.Checking? && HasClaim(s, i)
    && s' == Moved(s, i,
         if s.inOrder && s.wrOffs != Start(s, i) && s.ret.InProgress? then Asleep
         else if s.ret.InProgress? then Writing else Finishing)
  }

  /** Some of the source's data may have arrived in sectors a up to b, and nothing else has changed. */
  ghost predicate PartlyArrived(source: seq<Byte>, t: seq<Byte>, t': seq<Byte>, a: int, b: int) {
    && |source| == |t| == |t'|
    && forall x :: 0 <= x < |t| ==> t'[x] == t[x] || (a * SECTOR <= x < b * SECTOR && t'[x] == source[x])
  }

  /** All of it has. */
  ghost predicate SameInside(t: seq<Byte>, t': seq<Byte>, a: int, b: int) {
    forall x :: a * SECTOR <= x < b * SECTOR && 0 <= x < |t| && x < |t'| ==> t'[x] == t[x]
  }

  /** The write succeeds or fails, or the copy_range request fails and is retried with a buffer.  A
      request that fails may have copied some of its range. */
  ghost predicate WriteStep(s: State, s': State, i: int)
    requires 0 <= i < |s.cos|
  {
    && s.cos[i].pc.Writing? && HasClaim(s, i) && PartlyArrived(s.source, s.target, s'.target, Start(s, i), End(s, i))
    && (|| (s' == Arrived(s, i).(target := s'.target) && SameInside(s.source, s'.target, Start(s, i), End(s, i)))
        || s' == Moved(s, i, Finishing).(ret := Failed, target := s'.target)
        || s' == Moved(s, i, Reading).(target := s'.target))
  }

  function Arrived(s: State, i: int): State
    requires 0 <= i < |s.cos|
  {
    Moved(s, i, Finishing).(written := s.written + {s.cos[i].claim})
  }

  /** The first coroutine that sleeps until it is the turn of sector x. */
  predicate WakesAt(s: State, k: int, x: int) {
    HasClaim(s, k) && s.cos[k].pc.Asleep? && Start(s, k) == x
  }

  predicate FirstAt(s: State, k: int, x: int) {
    WakesAt(s, k, x) && forall j :: 0 <= j < k ==> !WakesAt(s, j, x)
  }

  predicate NobodyAt(s: State, x: int) {
    forall j :: 0 <= j < |s.cos| ==> !WakesAt(s, j, x)
  }

  predicate FinishStep(s: State, s': State, i: int, k: int)
    requires 0 <= i < |s.cos|
  {
    && s.cos[i].pc.Finishing? && HasClaim(s, i)
    && var s1 := Moved(s, i, Top).(finished := s.finished + {s.cos[i].claim});
       if !s.inOrder then s' == s1
       else if 0 <= k < |s.cos| && FirstAt(s, k, End(s, i)) then s' == Moved(s1, k, Checking).(wrOffs := End(s, i))
       else NobodyAt(s, End(s, i)) && s' == s1.(wrOffs := End(s, i))
  }

  ghost predicate Step(s: State, s': State, i: int)
    requires 0 <= i < |s.cos|
  {
    || LockStep(s, s', i) || ClaimStep(s, s', i) || ReadStep(s, s', i) || CheckStep(s, s', i) || WriteStep(s, s', i)
    || exists k :: FinishStep(s, s', i, k)
  }

  ghost predicate Next(s: State, s': State) {
    exists i :: 0 <= i < |s.cos| && Step(s, s', i)
  }

  ghost predicate Run(r: seq<State>) {
    r != [] && Init(r[0]) && forall i :: 0 <= i < |r| - 1 ==> Next(r[i], r[i + 1])
  }

  // ------------------------------------------------------------------------------------------
  // The invariant

  /** The claims follow each other without a gap, from 0 up to sector_num. */
  predicate BoundsOk(s: State) {
    && s.bounds != [] && s.bounds[0] == 0 && SectorNum(s) <= s.total
    && forall c, d :: 0 <= c < d < |s.bounds| ==> s.bounds[c] < s.bounds[d]
  }

  /** Every active coroutine has a claim of its own that is not finished. */
  ghost predicate OwnClaim(s: State, i: int) {
    0 <= i < |s.cos| && Active(s.cos[i]) ==> HasClaim(s, i) && s.cos[i].claim !in s.finished
  }

  ghost predicate DistinctClaims(s: State, i: int, j: int) {
    0 <= i < |s.cos| && 0 <= j < |s.cos| && i != j && Active(s.cos[i]) && Active(s.cos[j]) ==>
      s.cos[i].claim != s.cos[j].claim
  }

  /** Every claim is finished or in the hands of a coroutine. */
  ghost predicate Attended(s: State, c: int) {
    c in s.finished || exists i :: 0 <= i < |s.cos| && Active(s.cos[i]) && s.cos[i].claim == c
  }

  ghost predicate LockOk(s: State, i: int) {
    0 <= i < |s.cos| ==> (s.cos[i].pc.Claiming? <==> s.lock == i)
  }

  /** In order, and while nothing has failed: claim c is finished if and only if it lies before
      wr_offs; and whoever writes does so at wr_offs. */
  ghost predicate TurnOk(s: State) {
    s.inOrder && s.ret.InProgress? ==>
      && (forall c :: 0 <= c < |s.bounds| - 1 ==> (c in s.finished <==> s.bounds[c] < s.wrOffs))
      && (s.wrOffs in s.bounds)
      && (forall i :: HasClaim(s, i) && (s.cos[i].pc.Writing? || s.cos[i].pc.Finishing?) ==> Start(s, i) == s.wrOffs)
  }

  /** A sleeper's predecessor is not finished. */
  ghost predicate SleeperOk(s: State, i: int) {
    HasClaim(s, i) && s.cos[i].pc.Asleep? ==> s.inOrder && s.cos[i].claim > 0 && s.cos[i].claim - 1 !in s.finished
  }

  ghost predicate WrittenOk(s: State) {
    && (forall c :: c in s.written || c in s.finished ==> 0 <= c < |s.bounds| - 1)
    && (forall i :: HasClaim(s, i) && Active(s.cos[i]) && !s.cos[i].pc.Finishing? ==> s.cos[i].claim !in s.written)
    && (!s.ret.Failed? ==> forall c :: c in s.finished ==> c in s.written)
    && (!s.ret.Failed? ==> forall i :: HasClaim(s, i) && s.cos[i].pc.Finishing? ==> s.cos[i].claim in s.written)
    && (s.ret.Succeeded? ==>
          && s.bounds != [] && SectorNum(s) >= s.total
          && forall i :: 0 <= i < |s.cos| ==> s.cos[i].pc.Exited?)
  }

  /** What holds of each coroutine. */
  ghost predicate CosOk(s: State) {
    && (forall i {:trigger OwnClaim(s, i)} :: OwnClaim(s, i))
    && (forall i, j {:trigger DistinctClaims(s, i, j)} :: DistinctClaims(s, i, j))
    && (forall i {:trigger LockOk(s, i)} :: LockOk(s, i))
    && (forall i {:trigger SleeperOk(s, i)} :: SleeperOk(s, i))
  }

  ghost predicate AllAttended(s: State) {
    forall c {:trigger Attended(s, c)} :: 0 <= c < |s.bounds| - 1 ==> Attended(s, c)
  }

  ghost predicate Inv(s: State) {
    BoundsOk(s) && TurnOk(s) && WrittenOk(s) && CosOk(s) && AllAttended(s)
  }

  lemma InitInv(s: State)
    requires Init(s)
    ensures Inv(s)
  {
  }

  lemma AttendedStays(s: State, s': State, i: int, c: int)
    requires Attended(s, c) && 0 <= i < |s.cos| == |s'.cos| && s.finished <= s'.finished
    requires forall k ::
      0 <= k < |s.cos| && k != i && Active(s.cos[k]) ==> Active(s'.cos[k]) && s'.cos[k].claim == s.cos[k].claim
    requires
      Active(s.cos[i]) && s.cos[i].claim !in s'.finished ==> Active(s'.cos[i]) && s'.cos[i].claim == s.cos[i].claim
    ensures Attended(s', c)
  {
    if c !in s'.finished {
      var k :| 0 <= k < |s.cos| && Active(s.cos[k]) && s.cos[k].claim == c;
      assert Active(s'.cos[k]) && s'.cos[k].claim == c;
    }
  }

  lemma LeaveKeepsCos(s: State, s': State, i: int)
    requires CosOk(s) && AllAttended(s) && 0 <= i < |s.cos| && !Active(s.cos[i]) && s.lock in {FREE, i}
    requires s'.cos == s.cos[i := s.cos[i].(pc := Exited)] && s'.lock == FREE && s'.bounds == s.bounds
    requires s'.finished == s.finished && s'.inOrder == s.inOrder
    ensures CosOk(s') && AllAttended(s')
  {
    forall k ensures OwnClaim(s', k) && LockOk(s', k) && SleeperOk(s', k) {
      assert OwnClaim(s, k) && LockOk(s, k) && SleeperOk(s, k);
    }
    forall k, j ensures DistinctClaims(s', k, j) { assert DistinctClaims(s, k, j); }
    forall c | 0 <= c < |s'.bounds| - 1 ensures Attended(s', c) { AttendedStays(s, s', i, c); }
  }

  /** A coroutine without a claim changes its pc: turns and contents are not concerned. */
  lemma OutsiderKeepsTurn(s: State, s': State, i: int)
    requires TurnOk(s) && WrittenOk(s) && BoundsOk(s) && 0 <= i < |s.cos| && !s.ret.Succeeded?
    requires |s'.cos| == |s.cos| && s'.cos == s.cos[i := s'.cos[i]] && !Active(s'.cos[i]) && s'.ret == s.ret
    requires s'.bounds == s.bounds && s'.finished == s.finished && s'.written == s.written && s'.total == s.total
    requires s'.inOrder == s.inOrder && s'.wrOffs == s.wrOffs
    ensures BoundsOk(s') && TurnOk(s') && WrittenOk(s')
  {
    forall j | HasClaim(s', j) && Active(s'.cos[j]) ensures HasClaim(s, j) && s'.cos[j] == s.cos[j] {}
  }

  /** The last one to leave, without an error, has nothing left to do. */
  lemma SucceededKeepsInv(s: State)
    requires Inv(s) && s.ret.InProgress? && SectorNum(s) >= s.total
    requires forall k :: 0 <= k < |s.cos| ==> s.cos[k].pc.Exited?
    ensures Inv(s.(ret := Succeeded))
  {
    var s' := s.(ret := Succeeded);
    forall k ensures OwnClaim(s', k) && LockOk(s', k) && SleeperOk(s', k) {
      assert OwnClaim(s, k) && LockOk(s, k) && SleeperOk(s, k);
    }
    forall k, j ensures DistinctClaims(s', k, j) { assert DistinctClaims(s, k, j); }
    forall c | 0 <= c < |s'.bounds| - 1 ensures Attended(s', c) { assert Attended(s, c); }
  }

  lemma LeaveKeepsInv(s: State, s': State, i: int)
    requires Inv(s) && 0 <= i < |s.cos| && !Active(s.cos[i]) && s.lock in {FREE, i} && !s.ret.Succeeded?
    requires s.ret.InProgress? ==> SectorNum(s) >= s.total
    requires Leave(s.(lock := FREE), s', i)
    ensures Inv(s')
  {
    var s1 := Moved(s.(lock := FREE), i, Exited);
    LeaveKeepsCos(s, s1, i);
    OutsiderKeepsTurn(s, s1, i);
    if s' != s1 { SucceededKeepsInv(s1); }
  }

  lemma LockKeepsInv(s: State, s': State, i: int)
    requires Inv(s) && 0 <= i < |s.cos| && LockStep(s, s', i)
    ensures Inv(s')
  {
    if !s.ret.InProgress? || SectorNum(s) >= s.total {
      assert s.(lock := FREE) == s;
      LeaveKeepsInv(s, s', i);
    } else {
      OutsiderKeepsTurn(s, s', i);
      forall k ensures OwnClaim(s', k) && LockOk(s', k) && SleeperOk(s', k) {
        assert OwnClaim(s, k) && LockOk(s, k) && SleeperOk(s, k);
      }
      forall k, j ensures DistinctClaims(s', k, j) { assert DistinctClaims(s, k, j); }
      forall c | 0 <= c < |s'.bounds| - 1 ensures Attended(s', c) { AttendedStays(s, s', i, c); }
    }
  }

  /** An error is never forgotten, and makes the ordering rules void. */
  lemma FailKeepsInv(s: State)
    requires Inv(s) && !s.ret.Succeeded?
    ensures Inv(s.(ret := Failed))
  {
    var s' := s.(ret := Failed);
    forall k ensures OwnClaim(s', k) && LockOk(s', k) && SleeperOk(s', k) {
      assert OwnClaim(s, k) && LockOk(s, k) && SleeperOk(s, k);
    }
    forall k, j ensures DistinctClaims(s', k, j) { assert DistinctClaims(s, k, j); }
    forall c | 0 <= c < |s'.bounds| - 1 ensures Attended(s', c) {
      assert Attended(s, c);
      if c !in s.finished {
        var k :| 0 <= k < |s.cos| && Active(s.cos[k]) && s.cos[k].claim == c;
        assert Active(s'.cos[k]) && s'.cos[k].claim == c;
      }
    }
  }

  lemma NewClaimCos(s: State, s': State, i: int)
    requires CosOk(s) && AllAttended(s) && s.bounds != [] && 0 <= i < |s.cos| && s.cos[i].pc.Claiming?
    requires |s'.bounds| == |s.bounds| + 1
    requires s'.cos == s.cos[i := Co(Reading, |s.bounds| - 1)] && s'.lock == FREE && s'.finished == s.finished
    requires |s.bounds| - 1 !in s.finished && s'.inOrder == s.inOrder
    ensures CosOk(s') && AllAttended(s')
  {
    assert LockOk(s, i);
    forall k ensures OwnClaim(s', k) && LockOk(s', k) && SleeperOk(s', k) {
      assert OwnClaim(s, k) && LockOk(s, k) && SleeperOk(s, k);
      assert 0 <= k < |s.cos| && k != i && Active(s.cos[k]) ==> HasClaim(s, k) && s'.cos[k] == s.cos[k];
    }
    forall k, j ensures DistinctClaims(s', k, j) { assert DistinctClaims(s, k, j) && OwnClaim(s, k) && OwnClaim(s, j); }
    forall c | 0 <= c < |s'.bounds| - 1 ensures Attended(s', c) {
      if c < |s.bounds| - 1 { AttendedStays(s, s', i, c); } else { assert Active(s'.cos[i]) && s'.cos[i].claim == c; }
    }
  }

  lemma NewClaimTurn(s: State, s': State, i: int)
    requires Inv(s) && 0 <= i < |s.cos| && s.cos[i].pc.Claiming? && s'.bounds != []
    requires SectorNum(s) < SectorNum(s') <= s.total
    requires s' ==
      s.(bounds := s.bounds + [SectorNum(s')], lock := FREE, cos := s.cos[i := Co(Reading, |s.bounds| - 1)])
    ensures BoundsOk(s') && TurnOk(s') && WrittenOk(s')
  {
    var n := |s.bounds| - 1;
    assert forall c :: 0 <= c <= n ==> s'.bounds[c] == s.bounds[c];
    if s.inOrder && s.ret.InProgress? {
      var m :| 0 <= m < |s.bounds| && s.bounds[m] == s.wrOffs;
      assert s'.bounds[m] == s'.wrOffs && s'.bounds[n] >= s'.wrOffs;
      forall k | HasClaim(s', k) && (s'.cos[k].pc.Writing? || s'.cos[k].pc.Finishing?)
        ensures Start(s', k) == s'.wrOffs
      {
        assert OwnClaim(s, k) && k != i;
        assert Start(s, k) == s.wrOffs;
      }
    }
    forall k | HasClaim(s', k) && s'.cos[k].pc.Finishing? ensures HasClaim(s, k) { assert OwnClaim(s, k); }
  }

  lemma ClaimKeepsInv(s: State, s': State, i: int)
    requires Inv(s) && 0 <= i < |s.cos| && ClaimStep(s, s', i)
    ensures Inv(s')
  {
    assert LockOk(s, i);
    if Leave(s.(ret := Failed, lock := FREE), s', i) {
      FailKeepsInv(s);
      LeaveKeepsInv(s.(ret := Failed), s', i);
    } else {
      NewClaimTurn(s, s', i);
      NewClaimCos(s, s', i);
    }
  }

  lemma ReadKeepsInv(s: State, s': State, i: int)
    requires Inv(s) && 0 <= i < |s.cos| && ReadStep(s, s', i)
    ensures Inv(s')
  {
    forall k ensures OwnClaim(s', k) && LockOk(s', k) && SleeperOk(s', k) {
      assert OwnClaim(s, k) && LockOk(s, k) && SleeperOk(s, k);
    }
    forall k, j ensures DistinctClaims(s', k, j) { assert DistinctClaims(s, k, j); }
    forall c | 0 <= c < |s'.bounds| - 1 ensures Attended(s', c) { AttendedStays(s, s', i, c); }
  }

  /** Whoever may not write yet has a predecessor that is not finished. */
  lemma NotMyTurn(s: State, i: int)
    requires Inv(s) && HasClaim(s, i) && Active(s.cos[i]) && s.inOrder && s.ret.InProgress? && s.wrOffs != Start(s, i)
    ensures s.cos[i].claim > 0 && s.cos[i].claim - 1 !in s.finished
  {
    assert OwnClaim(s, i);
    var m :| 0 <= m < |s.bounds| && s.bounds[m] == s.wrOffs;
    var c := s.cos[i].claim;
    assert s.bounds[c] > s.bounds[m];
    assert c > m;
    assert s.bounds[c - 1] >= s.bounds[m];
  }

  lemma CheckKeepsInv(s: State, s': State, i: int)
    requires Inv(s) && 0 <= i < |s.cos| && CheckStep(s, s', i)
    ensures Inv(s')
  {
    forall k ensures OwnClaim(s', k) && LockOk(s', k) { assert OwnClaim(s, k) && LockOk(s, k); }
    forall k ensures SleeperOk(s', k) {
      assert SleeperOk(s, k) && OwnClaim(s, i);
      if k == i && s'.cos[i].pc.Asleep? { NotMyTurn(s, i); }
    }
    forall k, j ensures DistinctClaims(s', k, j) { assert DistinctClaims(s, k, j); }
    forall c | 0 <= c < |s'.bounds| - 1 ensures Attended(s', c) { AttendedStays(s, s', i, c); }
  }

  /** Coroutine i, which writes, moves on; its claim may have arrived. */
  lemma WriterMovesCos(s: State, s': State, i: int)
    requires CosOk(s) && AllAttended(s) && 0 <= i < |s.cos| && s.cos[i].pc.Writing? && |s'.cos| == |s.cos|
    requires s'.cos[i].pc in {Finishing, Reading}
    requires s'.cos == s.cos[i := s.cos[i].(pc := s'.cos[i].pc)] && s'.lock == s.lock && s'.bounds == s.bounds
    requires s'.finished == s.finished && s'.inOrder == s.inOrder
    ensures CosOk(s') && AllAttended(s')
  {
    forall k ensures OwnClaim(s', k) && LockOk(s', k) && SleeperOk(s', k) {
      assert OwnClaim(s, k) && LockOk(s, k) && SleeperOk(s, k);
    }
    forall k, j ensures DistinctClaims(s', k, j) { assert DistinctClaims(s, k, j); }
    forall c | 0 <= c < |s'.bounds| - 1 ensures Attended(s', c) { AttendedStays(s, s', i, c); }
  }

  lemma ArrivedKeepsInv(s: State, s': State, i: int)
    requires Inv(s) && 0 <= i < |s.cos| && s.cos[i].pc.Writing? && s' == Arrived(s, i).(target := s'.target)
    ensures Inv(s')
  {
    assert OwnClaim(s, i);
    WriterMovesCos(s, s', i);
    forall k | HasClaim(s', k) && Active(s'.cos[k]) && !s'.cos[k].pc.Finishing? ensures s'.cos[k].claim !in s'.written {
      assert DistinctClaims(s, i, k) && HasClaim(s, k);
    }
  }

  lemma RetryKeepsInv(s: State, s': State, i: int, pc: Pc)
    requires Inv(s) && 0 <= i < |s.cos| && s.cos[i].pc.Writing? && s' == Moved(s, i, pc).(target := s'.target)
    requires pc.Reading?
    ensures Inv(s')
  {
    WriterMovesCos(s, s', i);
  }

  lemma WriteFailsKeepsInv(s: State, s': State, i: int)
    requires Inv(s) && 0 <= i < |s.cos| && s.cos[i].pc.Writing?
    requires s' == Moved(s, i, Finishing).(ret := Failed, target := s'.target)
    ensures Inv(s')
  {
    WriterMovesCos(s, s', i);
  }

  lemma WriteKeepsInv(s: State, s': State, i: int)
    requires Inv(s) && 0 <= i < |s.cos| && WriteStep(s, s', i)
    ensures Inv(s')
  {
    if s' == Arrived(s, i).(target := s'.target) {
      ArrivedKeepsInv(s, s', i);
    } else if s' == Moved(s, i, Reading).(target := s'.target) {
      RetryKeepsInv(s, s', i, Reading);
    } else {
      WriteFailsKeepsInv(s, s', i);
    }
  }

  // ------------------------------------------------------------------------------------------
  // Passing the turn on

  lemma DistinctBounds(s: State, c: int, d: int)
    requires BoundsOk(s) && 0 <= c < |s.bounds| && 0 <= d < |s.bounds| && c != d
    ensures s.bounds[c] != s.bounds[d]
  {
  }

  lemma SameBound(s: State, c: int, d: int)
    requires BoundsOk(s) && 0 <= c < |s.bounds| && 0 <= d < |s.bounds| && s.bounds[c] == s.bounds[d]
    ensures c == d
  {
    if c != d { DistinctBounds(s, c, d); }
  }

  /** A coroutine that sleeps on the end of i's claim is the only one, and it is woken up. */
  lemma SuccessorIsWoken(s: State, s': State, i: int, k: int, j: int)
    requires Inv(s) && 0 <= i < |s.cos| && FinishStep(s, s', i, k) && s.inOrder && WakesAt(s, j, End(s, i))
    ensures j == k && s'.cos[j].pc.Checking?
  {
    assert !NobodyAt(s, End(s, i));
    SameBound(s, s.cos[j].claim, s.cos[i].claim + 1);
    SameBound(s, s.cos[k].claim, s.cos[i].claim + 1);
    assert DistinctClaims(s, k, j);
  }

  lemma FinishKeepsCos(s: State, s': State, i: int, k: int)
    requires Inv(s) && 0 <= i < |s.cos| && FinishStep(s, s', i, k)
    ensures CosOk(s') && AllAttended(s')
  {
    assert OwnClaim(s, i) && SleeperOk(s, i);
    forall j ensures OwnClaim(s', j) && LockOk(s', j) {
      assert OwnClaim(s, j) && LockOk(s, j) && DistinctClaims(s, i, j);
    }
    forall j ensures SleeperOk(s', j) {
      assert SleeperOk(s, j) && OwnClaim(s, j) && DistinctClaims(s, i, j);
      if s.inOrder && WakesAt(s, j, End(s, i)) { SuccessorIsWoken(s, s', i, k, j); }
    }
    forall j, l ensures DistinctClaims(s', j, l) { assert DistinctClaims(s, j, l); }
    forall c | 0 <= c < |s'.bounds| - 1 ensures Attended(s', c) { AttendedStays(s, s', i, c); }
  }

  /** While nothing has failed, nobody but i can be writing when i has finished. */
  lemma NobodyWrites(s: State, s': State, i: int, k: int)
    requires Inv(s) && 0 <= i < |s.cos| && FinishStep(s, s', i, k) && s.inOrder && s.ret.InProgress?
    ensures forall j :: HasClaim(s', j) ==> !s'.cos[j].pc.Writing? && !s'.cos[j].pc.Finishing?
  {
    assert OwnClaim(s, i) && Start(s, i) == s.wrOffs;
    forall j | HasClaim(s', j) ensures !s'.cos[j].pc.Writing? && !s'.cos[j].pc.Finishing? {
      if j != i && Active(s.cos[j]) {
        assert DistinctClaims(s, i, j) && HasClaim(s, j);
        DistinctBounds(s, s.cos[i].claim, s.cos[j].claim);
      }
    }
  }

  lemma FinishKeepsTurn(s: State, s': State, i: int, k: int)
    requires Inv(s) && 0 <= i < |s.cos| && FinishStep(s, s', i, k)
    ensures TurnOk(s')
  {
    assert OwnClaim(s, i);
    var c := s.cos[i].claim;
    if s.inOrder && s.ret.InProgress? {
      NobodyWrites(s, s', i, k);
      assert s'.wrOffs == s.bounds[c + 1] && Start(s, i) == s.wrOffs;
      forall d | 0 <= d < |s'.bounds| - 1 ensures d in s'.finished <==> s'.bounds[d] < s'.wrOffs {
        assert d in s.finished <==> s.bounds[d] < s.wrOffs;
        if d < c { assert s.bounds[d] < s.bounds[c] < s.bounds[c + 1]; }
        if d > c + 1 { assert s.bounds[c + 1] < s.bounds[d]; }
      }
    }
  }

  lemma FinishKeepsWritten(s: State, s': State, i: int, k: int)
    requires Inv(s) && 0 <= i < |s.cos| && FinishStep(s, s', i, k)
    ensures BoundsOk(s') && WrittenOk(s')
  {
    assert OwnClaim(s, i);
    forall j | HasClaim(s', j) && s'.cos[j].pc.Finishing? ensures HasClaim(s, j) && s.cos[j] == s'.cos[j] {}
  }

  lemma StepKeepsInv(s: State, s': State)
    requires Inv(s) && Next(s, s')
    ensures Inv(s')
  {
    var i :| 0 <= i < |s.cos| && Step(s, s', i);
    if LockStep(s, s', i) {
      LockKeepsInv(s, s', i);
    } else if ClaimStep(s, s', i) {
      ClaimKeepsInv(s, s', i);
    } else if ReadStep(s, s', i) {
      ReadKeepsInv(s, s', i);
    } else if CheckStep(s, s', i) {
      CheckKeepsInv(s, s', i);
    } else if WriteStep(s, s', i) {
      WriteKeepsInv(s, s', i);
    } else {
      var k :| FinishStep(s, s', i, k);
      FinishKeepsTurn(s, s', i, k);
      FinishKeepsWritten(s, s', i, k);
      FinishKeepsCos(s, s', i, k);
    }
  }

  lemma {:induction false} RunKeepsInv(r: seq<State>)
    requires Run(r)
    ensures Inv(r[|r| - 1])
  {
    if |r| == 1 {
      InitInv(r[0]);
    } else {
      var r' := r[..|r| - 1];
      forall i | 0 <= i < |r'| - 1 ensures Next(r'[i], r'[i + 1]) { assert Next(r[i], r[i + 1]); }
      RunKeepsInv(r');
      assert Next(r[|r| - 2], r[|r| - 2 + 1]);
      StepKeepsInv(r[|r| - 2], r[|r| - 1]);
    }
  }

  // ------------------------------------------------------------------------------------------
  // What it means

  /** Sector x belongs to claim c. */
  predicate Covers(s: State, c: int, x: int) {
    0 <= c < |s.bounds| - 1 && s.bounds[c] <= x < s.bounds[c + 1]
  }

  lemma LaterClaimIsElsewhere(s: State, c: int, d: int, x: int)
    requires BoundsOk(s) && Covers(s, c, x) && c < d < |s.bounds| - 1
    ensures !Covers(s, d, x)
  {
    assert c + 1 == d || s.bounds[c + 1] < s.bounds[d];
  }

  /** No sector is claimed twice. */
  lemma ClaimsAreDisjoint(r: seq<State>, c: int, d: int, x: int)
    requires Run(r) && Covers(r[|r| - 1], c, x) && Covers(r[|r| - 1], d, x)
    ensures c == d
  {
    RunKeepsInv(r);
    var s := r[|r| - 1];
    if c < d {
      LaterClaimIsElsewhere(s, c, d, x);
    } else if d < c {
      LaterClaimIsElsewhere(s, d, c, x);
    }
  }

  lemma {:induction false} ClaimOf(s: State, x: int, n: nat) returns (c: int)
    requires BoundsOk(s) && n < |s.bounds| && 0 <= x < s.bounds[n]
    ensures Covers(s, c, x)
    decreases n
  {
    if x >= s.bounds[n - 1] {
      c := n - 1;
    } else {
      c := ClaimOf(s, x, n - 1);
    }
  }

  /** On success every sector of the image has been written. */
  lemma SuccessCoversImage(r: seq<State>, x: int) returns (c: int)
    requires Run(r) && r[|r| - 1].ret.Succeeded? && 0 <= x < r[|r| - 1].total
    ensures Covers(r[|r| - 1], c, x) && c in r[|r| - 1].written
  {
    RunKeepsInv(r);
    var s := r[|r| - 1];
    c := ClaimOf(s, x, |s.bounds| - 1);
    assert Attended(s, c);
  }

  /** Byte x belongs to claim c. */
  ghost predicate Holds(s: State, c: int, x: int) {
    0 <= c < |s.bounds| - 1 && s.bounds[c] * SECTOR <= x < s.bounds[c + 1] * SECTOR
  }

  lemma HoldsCovers(s: State, c: int, x: int)
    requires 0 <= x
    ensures Holds(s, c, x) <==> Covers(s, c, x / SECTOR)
  {
  }

  /** The sectors of every claim that reached the target hold the data of the source; all others hold
      that or what they held in the beginning. */
  ghost predicate CopyOk(s: State) {
    && |s.source| == |s.target| == |s.first| == s.total * SECTOR
    && (forall x :: 0 <= x < |s.target| ==> s.target[x] == s.first[x] || s.target[x] == s.source[x])
    && (forall c, x :: c in s.written && Holds(s, c, x) && 0 <= x < |s.target| ==> s.target[x] == s.source[x])
  }

  /** Other claims are not disturbed by a write. */
  lemma WriteKeepsCopy(s: State, s': State, i: int)
    requires Inv(s) && CopyOk(s) && 0 <= i < |s.cos| && WriteStep(s, s', i)
    ensures CopyOk(s')
  {
    assert OwnClaim(s, i);
    var d := s.cos[i].claim;
    forall c, x | c in s'.written && Holds(s', c, x) && 0 <= x < |s'.target| ensures s'.target[x] == s'.source[x] {
      if c != d { assert c in s.written && Holds(s, c, x); }
    }
  }

  /** No other step touches the contents or counts a claim as written. */
  lemma OtherStepsKeepContent(s: State, s': State, i: int)
    requires BoundsOk(s) && 0 <= i < |s.cos| && Step(s, s', i) && !WriteStep(s, s', i)
    ensures s'.target == s.target && s'.source == s.source && s'.first == s.first && s'.written == s.written
    ensures s'.total == s.total && s.bounds <= s'.bounds
  {
  }

  lemma StepKeepsCopy(s: State, s': State)
    requires Inv(s) && CopyOk(s) && Next(s, s')
    ensures CopyOk(s')
  {
    var i :| 0 <= i < |s.cos| && Step(s, s', i);
    if WriteStep(s, s', i) {
      WriteKeepsCopy(s, s', i);
    } else {
      OtherStepsKeepContent(s, s', i);
      forall c, x | c in s'.written && Holds(s', c, x) && 0 <= x < |s'.target| ensures s'.target[x] == s'.source[x] {
        assert Holds(s, c, x);
      }
    }
  }

  lemma {:induction false} RunKeepsCopy(r: seq<State>)
    requires Run(r)
    ensures CopyOk(r[|r| - 1])
  {
    if |r| > 1 {
      var r' := r[..|r| - 1];
      forall i | 0 <= i < |r'| - 1 ensures Next(r'[i], r'[i + 1]) { assert Next(r[i], r[i + 1]); }
      RunKeepsCopy(r');
      RunKeepsInv(r');
      assert Next(r[|r| - 2], r[|r| - 2 + 1]);
      StepKeepsCopy(r[|r| - 2], r[|r| - 1]);
    }
  }

  /** So on success the target is the source, however the coroutines were scheduled and whatever
      failed copy_range requests had left behind. */
  lemma SuccessCopiesImage(r: seq<State>)
    requires Run(r) && r[|r| - 1].ret.Succeeded?
    ensures r[|r| - 1].target == r[|r| - 1].source
  {
    RunKeepsCopy(r);
    var s := r[|r| - 1];
    forall x | 0 <= x < |s.target| ensures s.target[x] == s.source[x] {
      var c := SuccessCoversImage(r, x / SECTOR);
      HoldsCovers(s, c, x);
    }
  }

  // ------------------------------------------------------------------------------------------
  // The order of writes

  /** With wr_in_order, whoever has a request in flight comes after claims that have all been written,
      also when another coroutine has failed meanwhile. */
  ghost predicate WriterOk(s: State, i: int) {
    s.inOrder && HasClaim(s, i) && s.cos[i].pc.Writing? ==> forall d :: 0 <= d < s.cos[i].claim ==> d in s.written
  }

  ghost predicate WritersOk(s: State) {
    forall i {:trigger WriterOk(s, i)} :: WriterOk(s, i)
  }

  /** Nothing that was written or claimed is forgotten. */
  ghost predicate Grown(s: State, s': State) {
    s'.inOrder == s.inOrder && |s'.cos| == |s.cos| && s.bounds <= s'.bounds && s.written <= s'.written
  }

  lemma StepGrows(s: State, s': State, i: int)
    requires 0 <= i < |s.cos| && s.bounds != [] && Step(s, s', i)
    ensures Grown(s, s')
    ensures forall j :: 0 <= j < |s.cos| && s'.cos[j].pc.Writing? ==>
      s'.cos[j] == s.cos[j] || (j == i && CheckStep(s, s', i))
  {
  }

  /** A coroutine begins to write only when it is its turn. */
  lemma MyTurn(s: State, s': State, i: int)
    requires Inv(s) && 0 <= i < |s.cos| && CheckStep(s, s', i) && s'.cos[i].pc.Writing? && s.inOrder
    ensures forall d :: 0 <= d < s.cos[i].claim ==> d in s.written
  {
    forall d | 0 <= d < s.cos[i].claim ensures d in s.written {
      assert s.bounds[d] < s.bounds[s.cos[i].claim] == s.wrOffs;
    }
  }

  lemma StepKeepsWriters(s: State, s': State)
    requires Inv(s) && WritersOk(s) && Next(s, s')
    ensures WritersOk(s') && Grown(s, s')
  {
    var i :| 0 <= i < |s.cos| && Step(s, s', i);
    StepGrows(s, s', i);
    forall j ensures WriterOk(s', j) {
      assert WriterOk(s, j) && OwnClaim(s, j);
      if HasClaim(s', j) && s'.cos[j].pc.Writing? && s'.cos[j] != s.cos[j] && s.inOrder { MyTurn(s, s', i); }
    }
  }

  lemma {:induction false} RunKeepsWriters(r: seq<State>)
    requires Run(r)
    ensures WritersOk(r[|r| - 1])
  {
    if |r| > 1 {
      var r' := r[..|r| - 1];
      forall i | 0 <= i < |r'| - 1 ensures Next(r'[i], r'[i + 1]) { assert Next(r[i], r[i + 1]); }
      RunKeepsWriters(r');
      RunKeepsInv(r');
      assert Next(r[|r| - 2], r[|r| - 2 + 1]);
      StepKeepsWriters(r[|r| - 2], r[|r| - 1]);
    }
  }

  /** With wr_in_order, when any data of a claim reaches the target, all sectors before it have been
      written: whether the request succeeds, fails, or is retried, and whatever has failed before. */
  lemma WritesInOrder(r: seq<State>, s': State, i: int, d: int)
    requires Run(r) && r[|r| - 1].inOrder && 0 <= i < |r[|r| - 1].cos| && WriteStep(r[|r| - 1], s', i)
    requires 0 <= d < r[|r| - 1].cos[i].claim
    ensures d in r[|r| - 1].written
  {
    RunKeepsWriters(r);
    assert WriterOk(r[|r| - 1], i);
  }

  lemma {:induction false} RunGrows(r: seq<State>, k: nat, l: nat)
    requires Run(r) && k <= l < |r|
    ensures Grown(r[k], r[l]) && Inv(r[l]) && WritersOk(r[l])
    decreases l - k
  {
    PrefixIsRun(r, l);
    RunKeepsInv(r[..l + 1]);
    RunKeepsWriters(r[..l + 1]);
    if k < l {
      RunGrows(r, k, l - 1);
      assert Next(r[l - 1], r[l - 1 + 1]);
      StepKeepsWriters(r[l - 1], r[l]);
    }
  }

  lemma PrefixIsRun(r: seq<State>, l: nat)
    requires Run(r) && l < |r|
    ensures Run(r[..l + 1])
  {
    var p := r[..l + 1];
    forall i | 0 <= i < |p| - 1 ensures Next(p[i], p[i + 1]) { assert Next(r[i], r[i + 1]); }
  }

  /** So over a whole run the requests that reach the target do so in increasing sector order. */
  lemma WritesIncrease(r: seq<State>, k: nat, l: nat, i: int, j: int)
    requires Run(r) && r[0].inOrder && k < l < |r| - 1
    requires 0 <= i < |r[k].cos| && WriteStep(r[k], r[k + 1], i)
    requires 0 <= j < |r[l].cos| && WriteStep(r[l], r[l + 1], j)
    ensures r[k].cos[i].claim <= r[l].cos[j].claim && Start(r[k], i) <= Start(r[l], j)
  {
    RunGrows(r, 0, k);
    RunGrows(r, k, l);
    LaterWriterIsBehind(r[k], r[l], i, j);
  }

  lemma LaterWriterIsBehind(s: State, s': State, i: int, j: int)
    requires WritersOk(s) && Inv(s') && Grown(s, s') && s.inOrder
    requires HasClaim(s, i) && s.cos[i].pc.Writing? && HasClaim(s', j) && s'.cos[j].pc.Writing?
    ensures s.cos[i].claim <= s'.cos[j].claim && Start(s, i) <= Start(s', j)
  {
    var c, d := s.cos[i].claim, s'.cos[j].claim;
    assert WriterOk(s, i);
    assert d !in s'.written;
    assert s'.bounds[c] == s.bounds[c];
  }

  /** A coroutine that sleeps until sector x has an active predecessor whose claim ends at x, in every
      state of every run, whatever has failed. */
  lemma SleepersWillBeWoken(r: seq<State>, k: int) returns (j: int)
    requires Run(r) && 0 <= k < |r[|r| - 1].cos| && r[|r| - 1].cos[k].pc.Asleep?
    ensures var s := r[|r| - 1]; HasClaim(s, k) && HasClaim(s, j) && Active(s.cos[j]) && End(s, j) == Start(s, k)
  {
    RunKeepsInv(r);
    var s := r[|r| - 1];
    assert OwnClaim(s, k) && SleeperOk(s, k);
    assert Attended(s, s.cos[k].claim - 1);
    j :| 0 <= j < |s.cos| && Active(s.cos[j]) && s.cos[j].claim == s.cos[k].claim - 1;
  }

  /** So the copy never stalls: whenever a coroutine sleeps, another one with an earlier claim is awake. */
  lemma {:induction false} SomebodyIsAwake(r: seq<State>, k: int) returns (j: int)
    requires Run(r) && 0 <= k < |r[|r| - 1].cos| && r[|r| - 1].cos[k].pc.Asleep?
    ensures var s := r[|r| - 1];
      0 <= j < |s.cos| && Active(s.cos[j]) && !s.cos[j].pc.Asleep? && s.cos[j].claim < s.cos[k].claim
    decreases r[|r| - 1].cos[k].claim
  {
    RunKeepsInv(r);
    assert OwnClaim(r[|r| - 1], k) && SleeperOk(r[|r| - 1], k);
    j := SleepersWillBeWoken(r, k);
    var s := r[|r| - 1];
    SameBound(s, s.cos[j].claim + 1, s.cos[k].claim);
    if s.cos[j].pc.Asleep? {
      j := SomebodyIsAwake(r, j);
    }
  }

  // ------------------------------------------------------------------------------------------
  // A run in which a coroutine sleeps and is woken up

  lemma Longer(r: seq<State>, s': State, i: int) returns (r': seq<State>)
    requires Run(r) && 0 <= i < |r[|r| - 1].cos| && Step(r[|r| - 1], s', i)
    ensures Run(r') && r <= r' && |r'| == |r| + 1 && r'[|r'| - 1] == s'
  {
    r' := r + [s'];
    assert Next(r[|r| - 1], s');
    forall k | 0 <= k < |r'| - 1 ensures Next(r'[k], r'[k + 1]) {
      if k < |r| - 1 { assert Next(r[k], r[k + 1]); }
    }
  }

  /** Two coroutines that copy two sectors in order and hold the claims made so far. */
  predicate Pair(s: State, bounds: seq<int>, pc0: Pc, pc1: Pc) {
    && s.total == 2 && s.inOrder && s.bounds == bounds && s.lock == FREE && |s.cos| == 2
    && s.cos[0].pc == pc0 && s.cos[1].pc == pc1
    && (|bounds| > 1 ==> s.cos[0].claim == 0) && (|bounds| > 2 ==> s.cos[1].claim == 1)
  }

  /** Coroutine i takes the next sector. */
  lemma ClaimOne(r: seq<State>, i: int) returns (r': seq<State>)
    requires Run(r) && 0 <= i < |r[|r| - 1].cos| && r[|r| - 1].cos[i].pc.Top? && r[|r| - 1].lock == FREE
    requires r[|r| - 1].bounds != [] && SectorNum(r[|r| - 1]) < r[|r| - 1].total && r[|r| - 1].ret.InProgress?
    ensures Run(r') && r <= r'
    ensures var s := r[|r| - 1];
      r'[|r'| - 1] == s.(bounds := s.bounds + [SectorNum(s) + 1], cos := s.cos[i := Co(Reading, |s.bounds| - 1)])
  {
    var s := r[|r| - 1];
    var s1 := Moved(s, i, Claiming).(lock := i);
    assert LockStep(s, s1, i);
    r' := Longer(r, s1, i);
    var s2 := s.(bounds := s.bounds + [SectorNum(s) + 1], cos := s.cos[i := Co(Reading, |s.bounds| - 1)]);
    assert s1.cos[i := Co(Reading, |s.bounds| - 1)] == s2.cos;
    assert ClaimStep(s1, s2, i);
    r' := Longer(r', s2, i);
  }

  /** Coroutine 1 reads first, and must wait for coroutine 0. */
  lemma SleeperRun(source: seq<Byte>, first: seq<Byte>) returns (r: seq<State>)
    requires |source| == |first| == 2 * SECTOR
    ensures Run(r) && r[0].source == source && r[0].first == first && r[0].inOrder
    ensures var s := r[|r| - 1]; Pair(s, [0, 1, 2], Reading, Asleep) && s.wrOffs == 0 && s.ret.InProgress?
  {
    var s := State(2, true, [0], 0, InProgress, FREE, [Co(Top, -1), Co(Top, -1)], {}, {}, source, first, first);
    r := ClaimOne([s], 0);
    r := ClaimOne(r, 1);
    s := r[|r| - 1];
    assert s.bounds == [0, 1, 2];
    var s1 := Moved(s, 1, Checking);
    assert ReadStep(s, s1, 1);
    r := Longer(r, s1, 1);
    var s2 := Moved(s1, 1, Asleep);
    assert CheckStep(s1, s2, 1);
    r := Longer(r, s2, 1);
  }

  /** Coroutine i, whose turn it is, writes its claim. */
  lemma WriteOne(r: seq<State>, i: int) returns (r': seq<State>)
    requires Run(r) && HasClaim(r[|r| - 1], i) && r[|r| - 1].cos[i].pc.Checking? && r[|r| - 1].ret.InProgress?
    requires r[|r| - 1].wrOffs == Start(r[|r| - 1], i)
    ensures Run(r') && r <= r'
    ensures var s, s' := r[|r| - 1], r'[|r'| - 1]; s' == Arrived(s, i).(target := s'.target)
  {
    var s := r[|r| - 1];
    RunKeepsCopy(r);
    var s1 := Moved(s, i, Writing);
    assert CheckStep(s, s1, i);
    r' := Longer(r, s1, i);
    var a, b := Start(s, i) * SECTOR, End(s, i) * SECTOR;
    var target :=
      seq<Byte>(|s.target|, x requires 0 <= x < |s.target| => if a <= x < b then s.source[x] else s.target[x]);
    var s2 := Arrived(s, i).(target := target);
    assert s2.cos == s1.cos[i := s1.cos[i].(pc := Finishing)];
    assert WriteStep(s1, s2, i);
    r' := Longer(r', s2, i);
  }

  /** Coroutine 0 writes, and passes the turn on to the sleeper. */
  lemma WakingRun(source: seq<Byte>, first: seq<Byte>) returns (r: seq<State>, k: nat)
    requires |source| == |first| == 2 * SECTOR
    ensures Run(r) && r[0].source == source && r[0].first == first && r[0].inOrder
    ensures k < |r| && Pair(r[k], [0, 1, 2], Reading, Asleep)
    ensures var s := r[|r| - 1]; Pair(s, [0, 1, 2], Top, Checking) && s.wrOffs == 1 && s.ret.InProgress?
  {
    r := SleeperRun(source, first);
    k := |r| - 1;
    var s := r[k];
    var s1 := Moved(s, 0, Checking);
    assert ReadStep(s, s1, 0);
    r := Longer(r, s1, 0);
    r := WriteOne(r, 0);
    var s2 := r[|r| - 1];
    var s3 := Moved(Moved(s2, 0, Top), 1, Checking).(finished := s2.finished + {0}, wrOffs := 1);
    assert FirstAt(s2, 1, End(s2, 0));
    assert FinishStep(s2, s3, 0, 1);
    r := Longer(r, s3, 0);
  }

  /** The last two steps: coroutine 0 leaves, and coroutine 1 after it. */
  lemma BothLeave(r: seq<State>) returns (r': seq<State>)
    requires Run(r) && Pair(r[|r| - 1], [0, 1, 2], Top, Top) && r[|r| - 1].ret.InProgress?
    ensures Run(r') && r <= r' && r'[|r'| - 1].ret.Succeeded?
  {
    var s := r[|r| - 1];
    var s1 := Moved(s, 0, Exited);
    assert s.cos[1].pc.Top?;
    assert LockStep(s, s1, 0);
    r' := Longer(r, s1, 0);
    var s2 := Moved(s1, 1, Exited).(ret := Succeeded);
    assert LockStep(s1, s2, 1);
    r' := Longer(r', s2, 1);
  }

  /** The copy of any image of two sectors by two coroutines can succeed after one of them has slept
      and has been woken up by the other. */
  lemma SleeperIsWokenAndCopySucceeds(source: seq<Byte>, first: seq<Byte>) returns (r: seq<State>, k: nat)
    requires |source| == |first| == 2 * SECTOR
    ensures Run(r) && r[0].source == source && r[0].target == first && r[0].inOrder
    ensures k < |r| && |r[k].cos| == 2 && r[k].cos[1].pc.Asleep?
    ensures r[|r| - 1].ret.Succeeded? && r[|r| - 1].target == source
  {
    r, k := WakingRun(source, first);
    r := WriteOne(r, 1);
    var s := r[|r| - 1];
    var s1 := Moved(s, 1, Top).(finished := s.finished + {1}, wrOffs := 2);
    assert NobodyAt(s, 2);
    assert FinishStep(s, s1, 1, -1);
    r := Longer(r, s1, 1);
    r := BothLeave(r);
    SuccessCopiesImage(r);
    SourceIsKept(r, |r| - 1);
  }

  lemma {:induction false} SourceIsKept(r: seq<State>, k: nat)
    requires Run(r) && k < |r|
    ensures r[k].source == r[0].source
  {
    if k > 0 {
      SourceIsKept(r, k - 1);
      assert Next(r[k - 1], r[k - 1 + 1]);
      StepKeepsSource(r[k - 1], r[k]);
    }
  }

  lemma StepKeepsSource(s: State, s': State)
    requires Next(s, s')
    ensures s'.source == s.source
  {
    var i :| 0 <= i < |s.cos| && Step(s, s', i);
  }
}
