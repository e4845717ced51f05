/** The steps of the coroutines are what the code does: a claim is what convert_iteration_sectors
    returns, and a write that does not fail brings the source's data to its range. */
module ConvertCopy {

  import opened ImageBuffers
  import opened ImageConvert
  import Par = ConvertParallel

  /** A coroutine claims the next range.  `status` and `next` are what convert_iteration_sectors
      remembers from one call to the next. */
  method Claim(s: Par.State, i: nat, p: Plan, o: Options, ghost c: Content, status: BlockStatus, next: nat)
    returns (s': Par.State, claimed: bool, status': BlockStatus, next': nat)
    requires i < |s.cos| && s.cos[i].pc.Claiming? && s.bounds != []
    requires 0 <= Par.SectorNum(s) < s.total == Sum(p.parts)
    requires Reliable(p, c) && Honest(p, c, status, Par.SectorNum(s), next)
    ensures Par.ClaimStep(s, s', i) && s'.bounds != []
    ensures claimed ==> s'.cos[i].pc.Reading? && Par.SectorNum(s) < Par.SectorNum(s')
    ensures claimed ==> Honest(p, c, status', Par.SectorNum(s), Par.SectorNum(s'))
    ensures claimed ==> Honest(p, c, status', Par.SectorNum(s'), next')
    ensures !claimed ==> s'.ret.Failed? && !p.salvage
  {
    var from: nat := Par.SectorNum(s);
    var n;
    claimed, n, status', next' := IterationSectors(p, from, status, next, c);
    if !claimed {
      s' := Par.Moved(s.(ret := Par.Failed, lock := Par.FREE), i, Par.Exited);
      return;
    }
    if o.minSparse == 0 && status'.Zero? {
      n := Min(n, p.bufSectors);
    }
    s' := s.(bounds := s.bounds + [from + n], lock := Par.FREE, cos := s.cos[i := Par.Co(Par.Reading, |s.bounds| - 1)]);
  }

  /** A coroutine writes its range.  The step succeeds, with the range reading as the source does, or one
      of the requests has failed. */
  method Write(s: Par.State, i: nat, p: Plan, o: Options, c: Content, status: BlockStatus, fails: nat -> bool)
    returns (s': Par.State)
    requires i < |s.cos| && s.cos[i].pc.Writing? && Par.HasClaim(s, i) && Par.BoundsOk(s) && Par.CopyOk(s)
    requires c.source == s.source && Untouched(p, o, c, s.first) && Honest(p, c, status, Par.Start(s, i), Par.End(s, i))
    ensures Par.WriteStep(s, s', i)
    ensures s'.written == s.written + {s.cos[i].claim} || (s'.ret.Failed? && exists k :: fails(k))
  {
    var from: nat, to: nat := Par.Start(s, i), Par.End(s, i);
    var ok, target := CopyRequest(p, o, c, s.first, s.target, from, to - from, status, fails);
    Arrives(s, from, to, target, ok);
    if ok {
      s' := Par.Arrived(s, i).(target := target);
    } else {
      s' := Par.Moved(s, i, Par.Finishing).(ret := Par.Failed, target := target);
    }
  }

  /** A request that copied its range, or some of it, makes a write step. */
  lemma Arrives(s: Par.State, from: nat, to: nat, target: seq<Byte>, ok: bool)
    requires |s.source| == |s.target| && from <= to && to * SECTOR <= |s.target|
    requires var data := s.source[from * SECTOR..to * SECTOR];
      if ok then target == Splice(s.target, from * SECTOR, data) else Mixed(s.target, target, from * SECTOR, data)
    ensures Par.PartlyArrived(s.source, s.target, target, from, to)
    ensures ok ==> Par.SameInside(s.source, target, from, to)
  {
    var a, b := from * SECTOR, to * SECTOR;
    if ok {
      assert target[a..b] == s.source[a..b] && target[..a] == s.target[..a] && target[b..] == s.target[b..];
      forall x | 0 <= x < |target| ensures target[x] == if a <= x < b then s.source[x] else s.target[x] {
        if a <= x < b {
          assert target[a..b][x - a] == s.source[a..b][x - a];
        } else if x < a {
          assert target[..a][x] == s.target[..a][x];
        } else {
          assert target[b..][x - b] == s.target[b..][x - b];
        }
      }
    }
  }
}
