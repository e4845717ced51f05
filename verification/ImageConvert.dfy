/** The write side of `qemu-img convert`: zero detection, and why sparse writes still copy the data. */
module ImageConvert {

  import opened ImageBuffers

  /** Sector k of a buffer holds only zeroes. */
  predicate ZeroSector(buf: seq<Byte>, k: nat)
    requires (k + 1) * SECTOR <= |buf|
  {
    AllZero(buf[k * SECTOR..(k + 1) * SECTOR])
  }

  ghost predicate ZeroSectors(buf: seq<Byte>, a: nat, b: nat)
    requires b * SECTOR <= |buf|
  {
    forall k :: a <= k < b ==> ZeroSector(buf, k)
  }

  /** The number of leading sectors of buf, n at most, that are like the first one. */
  method LeadingRun(buf: seq<Byte>, n: nat) returns (i: nat)
    requires n > 0 && n * SECTOR <= |buf|
    ensures 0 < i <= n && (forall k :: 0 <= k < i ==> ZeroSector(buf, k) == ZeroSector(buf, 0))
    ensures i < n ==> ZeroSector(buf, i) != ZeroSector(buf, 0)
  {
    i := 1;
    while i < n && ZeroSector(buf, i) == ZeroSector(buf, 0)
      invariant 0 < i <= n && forall k :: 0 <= k < i ==> ZeroSector(buf, k) == ZeroSector(buf, 0)
    {
      i := i + 1;
    }
  }

  /** The first of the n sectors has data in it; or the first one that has, number k, comes so soon that
      all sectors before it are in the same alignment unit. */
  ghost predicate DataSoon(buf: seq<Byte>, n: nat, sectorNum: nat, alignment: nat)
    requires 0 < n && n * SECTOR <= |buf| && alignment > 0
  {
    || !ZeroSector(buf, 0)
    || exists k :: 0 < k < n && !ZeroSector(buf, k) && ZeroSectors(buf, 0, k) && k <= (sectorNum + k) % alignment
  }

  /** is_allocated_sectors; `alignment` is a power of two, so that masking with alignment - 1 is the
      remainder.  A result of false means that the whole prefix is zero; a split ends on an alignment
      boundary; and the prefix is reported as data exactly if the first sector is data, or else if data
      follows in the same alignment unit. */
  method IsAllocatedSectors(buf: seq<Byte>, n: int, sectorNum: nat, alignment: nat) returns (data: bool, pnum: nat)
    requires alignment > 0 && n * SECTOR <= |buf|
    ensures n <= 0 ==> !data && pnum == 0
    ensures n > 0 ==>
      && 0 < pnum <= n && (pnum < n ==> (sectorNum + pnum) % alignment == 0)
      && (!data ==> ZeroSectors(buf, 0, pnum)) && (data <==> DataSoon(buf, n, sectorNum, alignment))
  {
    if n <= 0 {
      return false, 0;
    }
    var isZero := ZeroSector(buf, 0);
    var i := LeadingRun(buf, n);
    if i == n {
      return !isZero, i;
    }
    ghost var run := i;
    var tail := (sectorNum + i) % alignment;
    SplitAligned(sectorNum + i, alignment);
    if tail != 0 {
      if isZero && i <= tail {
        isZero := false;
      }
      if !isZero {
        i := i + alignment - tail;
        i := Min(i, n);
      } else {
        i := i - tail;
      }
    }
    assert ZeroSector(buf, run) != ZeroSector(buf, 0);
    return !isZero, i;
  }

  /** A sector of zeroes followed by one of data. */
  const ZERO_THEN_DATA: seq<Byte> := seq<Byte>(2 * SECTOR, i => if i < SECTOR then 0 else 1)

  /** The result can be data although the first sector is zero. */
  lemma ZeroReportedAsData()
    ensures ZeroSector(ZERO_THEN_DATA, 0) && DataSoon(ZERO_THEN_DATA, 2, 0, 8)
  {
    var buf := ZERO_THEN_DATA;
    assert buf[1 * SECTOR..2 * SECTOR][0] == 1;
    assert 0 < 1 < 2 && !ZeroSector(buf, 1) && 1 <= (0 + 1) % 8;
  }

  /** Rounding up or down by the remainder. */
  lemma SplitAligned(x: nat, alignment: nat)
    requires alignment > 0
    ensures var tail := x % alignment; (x - tail) % alignment == 0 && (x + alignment - tail) % alignment == 0
  {
    var k, tail := x / alignment, x % alignment;
    assert x == k * alignment + tail;
    MulDiv(k, 0, alignment);
    assert x + alignment - tail == (k + 1) * alignment;
    MulDiv(k + 1, 0, alignment);
  }

  lemma ShiftSectors(buf: seq<Byte>, from: nat, n: nat)
    requires (from + n) * SECTOR <= |buf|
    ensures forall k :: 0 <= k < n ==> ZeroSector(buf[from * SECTOR..], k) == ZeroSector(buf, from + k)
  {
    forall k | 0 <= k < n ensures ZeroSector(buf[from * SECTOR..], k) == ZeroSector(buf, from + k) {
      assert buf[from * SECTOR..][k * SECTOR..(k + 1) * SECTOR] == buf[(from + k) * SECTOR..(from + k + 1) * SECTOR];
    }
  }

  lemma ShiftedZero(buf: seq<Byte>, from: nat, len: nat, n: nat)
    requires from + len <= n && n * SECTOR <= |buf| && ZeroSectors(buf[from * SECTOR..], 0, len)
    ensures ZeroSectors(buf, from, from + len)
  {
    ShiftSectors(buf, from, len);
    forall k | from <= k < from + len ensures ZeroSector(buf, k) {
      assert ZeroSector(buf[from * SECTOR..], k - from) == ZeroSector(buf, from + (k - from));
    }
  }

  /** is_allocated_sectors_min: short runs of zeroes after data count as data. */
  method IsAllocatedSectorsMin(buf: seq<Byte>, n: int, min: nat, sectorNum: nat, alignment: nat)
    returns (data: bool, pnum: nat)
    requires alignment > 0 && n * SECTOR <= |buf|
    ensures n <= 0 ==> !data && pnum == 0
    ensures n > 0 ==> 0 < pnum <= n && (!data ==> ZeroSectors(buf, 0, pnum))
    ensures
      data && pnum < n ==> exists z :: pnum < z <= n && ZeroSectors(buf, pnum, z) && (z == n || z - pnum >= Min(min, n))
  {
    var least := if n < min then n else min;
    data, pnum := IsAllocatedSectors(buf, n, sectorNum, alignment);
    if !data {
      return;
    }
    var used, checked := pnum, pnum;
    while checked < n
      invariant 0 < used <= checked <= n && ZeroSectors(buf, used, checked)
    {
      var more, len := IsAllocatedSectors(buf[checked * SECTOR..], n - checked, sectorNum + checked, alignment);
      if !more { ShiftedZero(buf, checked, len, n); }
      checked := checked + len;
      if more {
        used := checked;
      } else if len >= least {
        break;
      }
    }
    data, pnum := true, used;
    ghost var z := checked;
    assert pnum < n ==> pnum < z <= n && ZeroSectors(buf, pnum, z) && (z == n || z - pnum >= Min(min, n));
  }

  // ------------------------------------------------------------------------------------------
  // convert_co_write

  datatype BlockStatus = Data | Zero | BackingFile

  datatype Options = Options(
    minSparse: nat, compressed: bool, hasZeroInit: bool, targetHasBacking: bool, alignment: nat)

  /** The target with buf written at a. */
  function Splice(t: seq<Byte>, a: nat, buf: seq<Byte>): (t': seq<Byte>)
    requires a + |buf| <= |t|
    ensures |t'| == |t| && t'[a..a + |buf|] == buf && t'[..a] == t[..a] && t'[a + |buf|..] == t[a + |buf|..]
  {
    t[..a] + buf + t[a + |buf|..]
  }

  function Zeroes(n: nat): (z: seq<Byte>)
    ensures |z| == n && AllZero(z)
  {
    seq<Byte>(n, i => 0)
  }

  lemma ZeroSectorsAreZero(buf: seq<Byte>, n: nat)
    requires n * SECTOR <= |buf| && ZeroSectors(buf, 0, n)
    ensures buf[..n * SECTOR] == Zeroes(n * SECTOR)
  {
    forall i | 0 <= i < n * SECTOR ensures buf[i] == 0 {
      var k := i / SECTOR;
      assert ZeroSector(buf, k);
      assert buf[k * SECTOR..(k + 1) * SECTOR][i - k * SECTOR] == 0;
    }
  }

  lemma AllZeroIs(buf: seq<Byte>)
    requires AllZero(buf)
    ensures buf == Zeroes(|buf|)
  {
  }

  /** How many of the nb sectors in buf the next write covers, and whether they must be written as
      data. */
  method NextWrite(buf: seq<Byte>, nb: nat, status: BlockStatus, sectorNum: nat, o: Options)
    returns (data: bool, n: nat)
    requires nb > 0 && |buf| == nb * SECTOR && o.alignment > 0 && !status.BackingFile?
    requires status.Zero? ==> AllZero(buf)
    ensures 0 < n <= nb && (!data ==> buf[..n * SECTOR] == Zeroes(n * SECTOR))
  {
    n := nb;
    if status.Zero? {
      AllZeroIs(buf);
      assert buf[..n * SECTOR] == buf;
      return false, n;
    }
    if o.minSparse == 0 {
      return true, n;
    }
    if o.compressed {
      data := !AllZero(buf);
      if !data { AllZeroIs(buf); assert buf[..n * SECTOR] == buf; }
    } else {
      data, n := IsAllocatedSectorsMin(buf, nb, o.minSparse, sectorNum, o.alignment);
      if !data { ZeroSectorsAreZero(buf, n); }
    }
  }

  /** One turn of the loop in convert_co_write, for the sectors from `done` on. */
  method WriteNext(
    ghost target: seq<Byte>, t: seq<Byte>, sectorNum: nat, buf: seq<Byte>, done: nat, status: BlockStatus, o: Options,
    fails: bool)
    returns (ok: bool, t': seq<Byte>, n: nat)
    requires |buf| % SECTOR == 0 && done * SECTOR < |buf| && o.alignment > 0 && !status.BackingFile?
    requires Written(target, t, sectorNum * SECTOR, buf, done * SECTOR)
    requires status.Zero? ==> AllZero(buf)
    requires o.hasZeroInit ==> ZeroOrSame(target, sectorNum * SECTOR, buf)
    ensures 0 < n && (done + n) * SECTOR <= |buf|
    ensures if ok then Written(target, t', sectorNum * SECTOR, buf, (done + n) * SECTOR) else fails && t' == t
  {
    var rest := buf[done * SECTOR..];
    var data;
    data, n := NextWrite(rest, |rest| / SECTOR, status, sectorNum + done, o);
    ok, t' := true, t;
    if data || !o.hasZeroInit {
      if fails {
        return false, t, n;
      }
      var piece := if data then rest[..n * SECTOR] else Zeroes(n * SECTOR);
      WrittenMore(target, t, sectorNum * SECTOR, buf, done * SECTOR, piece);
      t' := Splice(t, (sectorNum + done) * SECTOR, piece);
    } else {
      SkippedZeroes(target, t, sectorNum * SECTOR, buf, done * SECTOR, n * SECTOR);
    }
  }

  /** convert_co_write: afterwards the target holds the source data in the whole range, however the
      options make it skip or group writes; nothing else is touched.  If the target is known to read as
      zeroes, an earlier attempt may already have brought some of the data there.  `fails` tells which
      writes fail. */
  method CoWrite(target: seq<Byte>, sectorNum: nat, buf: seq<Byte>, status: BlockStatus, o: Options, fails: nat -> bool)
    returns (ok: bool, target': seq<Byte>)
    requires |buf| % SECTOR == 0 && sectorNum * SECTOR + |buf| <= |target| && o.alignment > 0
    requires status.Zero? ==> AllZero(buf)
    requires status.BackingFile? ==> o.targetHasBacking
    requires o.hasZeroInit ==> !o.targetHasBacking && ZeroOrSame(target, sectorNum * SECTOR, buf)
    ensures ok ==> target' == if status.BackingFile? then target else Splice(target, sectorNum * SECTOR, buf)
    ensures !ok ==> Mixed(target, target', sectorNum * SECTOR, buf) && exists k :: fails(k)
  {
    target' := target;
    if status.BackingFile? {
      return true, target;
    }
    var done, io := 0, 0;
    while done * SECTOR < |buf|
      invariant done * SECTOR <= |buf| && Written(target, target', sectorNum * SECTOR, buf, done * SECTOR)
      decreases |buf| - done * SECTOR
    {
      var n;
      ok, target', n := WriteNext(target, target', sectorNum, buf, done, status, o, fails(io));
      if !ok {
        WrittenIsMixed(target, target', sectorNum * SECTOR, buf, done * SECTOR);
        return;
      }
      io := io + 1;
      done := done + n;
    }
    ok := true;
    WrittenAll(target, target', sectorNum * SECTOR, buf);
  }

  /** The first d bytes of buf have arrived, and nothing else has changed. */
  ghost predicate Written(target: seq<Byte>, target': seq<Byte>, a: nat, buf: seq<Byte>, d: nat) {
    && d <= |buf| && a + |buf| <= |target| == |target'|
    && forall i :: 0 <= i < |target| ==> target'[i] == if a <= i < a + d then buf[i - a] else target[i]
  }

  /** Some of buf may have arrived at a, and nothing else has changed. */
  ghost predicate Mixed(target: seq<Byte>, target': seq<Byte>, a: nat, buf: seq<Byte>) {
    && |target'| == |target|
    && forall i :: 0 <= i < |target| ==> target'[i] == target[i] || (a <= i < a + |buf| && target'[i] == buf[i - a])
  }

  /** The place of buf in the target holds zeroes, or the data of buf already. */
  ghost predicate ZeroOrSame(target: seq<Byte>, a: nat, buf: seq<Byte>)
    requires a + |buf| <= |target|
  {
    forall i :: a <= i < a + |buf| ==> target[i] == 0 || target[i] == buf[i - a]
  }

  lemma WrittenMore(target: seq<Byte>, t: seq<Byte>, a: nat, buf: seq<Byte>, d: nat, piece: seq<Byte>)
    requires Written(target, t, a, buf, d) && d + |piece| <= |buf| && piece == buf[d..][..|piece|]
    ensures Written(target, Splice(t, a + d, piece), a, buf, d + |piece|)
  {
    var t' := Splice(t, a + d, piece);
    forall i | 0 <= i < |target| ensures t'[i] == if a <= i < a + d + |piece| then buf[i - a] else target[i] {
      if a + d <= i < a + d + |piece| {
        assert t'[i] == piece[i - a - d] == buf[d..][..|piece|][i - a - d];
      } else if i < a + d {
        assert t'[i] == t[..a + d][i];
      } else {
        assert t'[i] == t[a + d + |piece|..][i - a - d - |piece|];
      }
    }
  }

  /** A target that is zero already needs no zeroes written. */
  lemma SkippedZeroes(target: seq<Byte>, t: seq<Byte>, a: nat, buf: seq<Byte>, d: nat, len: nat)
    requires Written(target, t, a, buf, d) && d + len <= |buf| && buf[d..][..len] == Zeroes(len)
    requires ZeroOrSame(target, a, buf)
    ensures Written(target, t, a, buf, d + len)
  {
    forall i | a + d <= i < a + d + len ensures t[i] == buf[i - a] {
      assert buf[d..][..len][i - a - d] == 0;
    }
  }

  lemma WrittenIsMixed(target: seq<Byte>, t: seq<Byte>, a: nat, buf: seq<Byte>, d: nat)
    requires Written(target, t, a, buf, d)
    ensures Mixed(target, t, a, buf)
  {
  }

  lemma WrittenAll(target: seq<Byte>, t: seq<Byte>, a: nat, buf: seq<Byte>)
    requires Written(target, t, a, buf, |buf|)
    ensures t == Splice(target, a, buf)
  {
    WrittenMore(target, target, a, buf, 0, buf);
    assert buf[0..][..|buf|] == buf;
  }

  // ------------------------------------------------------------------------------------------
  // convert_select_part and convert_iteration_sectors

  function Sum(parts: seq<nat>): nat {
    if parts == [] then 0 else Sum(parts[..|parts| - 1]) + parts[|parts| - 1]
  }

  /** convert_select_part: the source image that holds the sector, and where it begins. */
  method SelectPart(parts: seq<nat>, sectorNum: nat) returns (cur: nat, start: nat)
    requires sectorNum < Sum(parts)
    ensures cur < |parts| && start == Sum(parts[..cur]) && start <= sectorNum < start + parts[cur]
  {
    cur, start := 0, 0;
    assert parts[..|parts|] == parts;
    SumMonotone(parts, 0, |parts|);
    while sectorNum - start >= parts[cur]
      invariant cur < |parts| && start == Sum(parts[..cur]) && start <= sectorNum
      decreases |parts| - cur
    {
      start := start + parts[cur];
      cur := cur + 1;
      assert parts[..cur][..cur - 1] == parts[..cur - 1];
    }
  }

  lemma {:induction false} SumMonotone(parts: seq<nat>, i: nat, j: nat)
    requires i <= j <= |parts|
    ensures Sum(parts[..i]) <= Sum(parts[..j])
    decreases j - i
  {
    if i < j {
      SumMonotone(parts, i, j - 1);
      assert parts[..j][..j - 1] == parts[..j - 1];
    }
  }

  /** What bdrv_block_status_above answers for n sectors from an offset in a part; count is in bytes. */
  datatype Answer = Failed | Found(zero: bool, data: bool, count: nat)

  datatype Plan = Plan(
    parts: seq<nat>, srcAlignment: seq<nat>, bufSectors: nat, clusterSectors: nat, compressed: bool, salvage: bool,
    targetHasBacking: bool, targetBackingSectors: int, query: (nat, nat, nat) -> Answer)

  const REQUEST_MAX_SECTORS: nat := 4194303

  function DivRoundUp(n: nat, d: nat): nat
    requires d > 0
  {
    (n + d - 1) / d
  }

  /** What the source reads as, and what the target's backing file does: zeroes beyond its end. */
  datatype Content = Content(source: seq<Byte>, base: seq<Byte>)

  /** Sectors of zeroes in the source */
  ghost predicate ZeroRange(c: Content, from: nat, n: nat) {
    forall i :: from * SECTOR <= i < (from + n) * SECTOR ==> At(c.source, i) == 0
  }

  /** Sectors in which the source and the target's backing file do not differ */
  ghost predicate BaseRange(c: Content, from: nat, n: nat) {
    forall i :: from * SECTOR <= i < (from + n) * SECTOR ==> At(c.source, i) == At(c.base, i)
  }

  /** The options make sense; block status makes progress, and reports as zero, or as unallocated above
      the backing file, only what is; and the backing file is no longer than it is said to be. */
  ghost predicate Reliable(p: Plan, c: Content) {
    && (p.targetBackingSectors >= 0 ==> |c.base| <= p.targetBackingSectors * SECTOR)
    && |p.srcAlignment| == |p.parts| && (forall k :: 0 <= k < |p.parts| ==> p.srcAlignment[k] > 0) && p.bufSectors > 0
    && (p.compressed ==> p.clusterSectors > 0) && (p.targetBackingSectors >= 0 ==> p.targetHasBacking)
    && (forall cur: nat, offset: nat, n: nat {:trigger p.query(cur, offset, n)} ::
          cur < |p.parts| && n > 0 && p.query(cur, offset, n).Found? ==>
            var a := p.query(cur, offset, n);
            && 0 < a.count <= n * SECTOR
            && (a.zero ==> ZeroRange(c, Sum(p.parts[..cur]) + offset, DivRoundUp(a.count, SECTOR)))
            && (!a.zero && !a.data && p.targetHasBacking ==>
                  BaseRange(c, Sum(p.parts[..cur]) + offset, DivRoundUp(a.count, SECTOR))))
  }

  /** A status is only attached to sectors that it fits. */
  ghost predicate Honest(p: Plan, c: Content, status: BlockStatus, from: nat, to: nat) {
    && (status.Zero? && from <= to ==> ZeroRange(c, from, to - from))
    && (status.BackingFile? ==> p.targetHasBacking && (from <= to ==> BaseRange(c, from, to - from)))
  }

  /** The query loop of convert_iteration_sectors; in salvage mode it retries on shorter ranges. */
  method QueryStatus(p: Plan, cur: nat, offset: nat, n0: nat) returns (a: Answer, ghost m: nat)
    requires n0 > 0 && cur < |p.parts|
    ensures a.Found? ==> 0 < m <= n0 && (a == p.query(cur, offset, m) || a == Found(false, true, SECTOR))
    ensures a.Failed? ==> !p.salvage && p.query(cur, offset, n0).Failed?
  {
    var n := n0;
    while true
      invariant 0 < n <= n0 && (!p.salvage ==> n == n0)
      decreases n
    {
      a, m := p.query(cur, offset, n), n;
      if !a.Failed? || !p.salvage {
        return;
      }
      if n == 1 {
        return Found(false, true, SECTOR), n;
      }
      n := DivRoundUp(n, 4);
    }
  }

  /** convert_iteration_sectors: the next request is not empty, stays inside the image, and its status
      is right for all of it. */
  method IterationSectors(p: Plan, sectorNum: nat, status: BlockStatus, next: nat, ghost c: Content)
    returns (ok: bool, n: nat, status': BlockStatus, next': nat)
    requires sectorNum < Sum(p.parts) && Reliable(p, c)
    requires Honest(p, c, status, sectorNum, next)
    ensures ok ==> 0 < n <= Sum(p.parts) - sectorNum && Honest(p, c, status', sectorNum, sectorNum + n)
    ensures ok ==> Honest(p, c, status', sectorNum + n, next')
    ensures ok && p.compressed ==> n % p.clusterSectors == 0 || n == Sum(p.parts) - sectorNum
    ensures !ok ==> !p.salvage
  {
    var total := Sum(p.parts);
    var cur, start := SelectPart(p.parts, sectorNum);
    n, status', next' := Min(total - sectorNum, REQUEST_MAX_SECTORS), status, next;
    var postBackingZero := false;
    if p.targetBackingSectors >= 0 {
      if sectorNum >= p.targetBackingSectors {
        postBackingZero := true;
      } else if sectorNum + n > p.targetBackingSectors {
        n := p.targetBackingSectors - sectorNum;
      }
    }
    if next <= sectorNum {
      var a: Answer;
      ghost var m: nat;
      a, m := QueryStatus(p, cur, sectorNum - start, n);
      if a.Failed? {
        return false, n, status', next';
      }
      n, status' := FreshStatus(p, cur, start, sectorNum, n, a, m, postBackingZero, c);
      next' := sectorNum + n;
    }
    n := Min(n, next' - sectorNum);
    if status'.Data? {
      n := Min(n, p.bufSectors);
    }
    ok := true;
    if p.compressed {
      n, status' := WholeClusters(p.clusterSectors, n, total - sectorNum, status');
    }
  }

  /** The status and length of a fresh answer, rounded down to the source's alignment if possible. */
  method FreshStatus(
      p: Plan, cur: nat, start: nat, sectorNum: nat, n0: nat, a: Answer, ghost m: nat, postBackingZero: bool,
      ghost c: Content)
    returns (n: nat, status: BlockStatus)
    requires Reliable(p, c) && cur < |p.parts| && start == Sum(p.parts[..cur]) && start <= sectorNum && n0 > 0
    requires a.Found? && 0 < m <= n0 && (a == p.query(cur, sectorNum - start, m) || a == Found(false, true, SECTOR))
    requires postBackingZero ==> 0 <= p.targetBackingSectors <= sectorNum
    ensures 0 < n <= n0 && Honest(p, c, status, sectorNum, sectorNum + n)
  {
    n := DivRoundUp(a.count, SECTOR);
    var tail := (sectorNum - start + n) % p.srcAlignment[cur];
    if n > tail {
      n := n - tail;
    }
    if a.zero {
      status := if postBackingZero then BackingFile else Zero;
    } else if a.data {
      status := Data;
    } else {
      status := if p.targetHasBacking then BackingFile else Data;
    }
  }

  /** Compressed clusters are written as a whole. */
  method WholeClusters(cluster: nat, n: nat, left: nat, status: BlockStatus) returns (n': nat, status': BlockStatus)
    requires cluster > 0 && 0 < n <= left
    ensures 0 < n' <= left && (n' % cluster == 0 || n' == left)
    ensures status' == Data || (status' == status && n' <= n)
  {
    if n < cluster {
      FirstChunk(cluster, cluster);
      return Min(cluster, left), Data;
    }
    AlignDownIs(n, cluster);
    return AlignDown(n, cluster), status;
  }

  // ------------------------------------------------------------------------------------------
  // One request of convert_co_do_copy

  /** What the untouched target reads as: the backing file if it has one, zeroes if it is known to be
      zero initialised. */
  ghost predicate Untouched(p: Plan, o: Options, c: Content, first: seq<Byte>) {
    && o.targetHasBacking == p.targetHasBacking && o.alignment > 0 && |first| == |c.source|
    && (o.targetHasBacking ==> !o.hasZeroInit && forall i :: 0 <= i < |first| ==> first[i] == At(c.base, i))
    && (o.hasZeroInit ==> AllZero(first))
  }

  /** Every byte is as it was, or holds the source's data. */
  ghost predicate PartlyCopied(c: Content, first: seq<Byte>, target: seq<Byte>) {
    && |target| == |first| == |c.source|
    && forall i :: 0 <= i < |target| ==> target[i] == first[i] || target[i] == c.source[i]
  }

  lemma ZeroRangeIs(c: Content, from: nat, n: nat)
    requires (from + n) * SECTOR <= |c.source| && ZeroRange(c, from, n)
    ensures c.source[from * SECTOR..(from + n) * SECTOR] == Zeroes(n * SECTOR)
  {
    var range := c.source[from * SECTOR..(from + n) * SECTOR];
    forall i | 0 <= i < n * SECTOR ensures range[i] == 0 { assert At(c.source, from * SECTOR + i) == 0; }
  }

  /** Where the source does not differ from the backing file, there is nothing to write. */
  lemma BaseRangeIs(p: Plan, o: Options, c: Content, first: seq<Byte>, target: seq<Byte>, from: nat, n: nat)
    requires Untouched(p, o, c, first) && PartlyCopied(c, first, target) && (from + n) * SECTOR <= |target|
    requires p.targetHasBacking && BaseRange(c, from, n)
    ensures target == Splice(target, from * SECTOR, c.source[from * SECTOR..(from + n) * SECTOR])
  {
    var a, b := from * SECTOR, (from + n) * SECTOR;
    forall i | a <= i < b ensures target[i] == c.source[i] { assert At(c.source, i) == At(c.base, i); }
    assert target[a..b] == c.source[a..b];
    assert target == target[..a] + target[a..b] + target[b..];
  }

  /** Reading and writing one request: what the target reads as in its range is then the source's
      content, whatever its status and the options. */
  method CopyRequest(
    p: Plan, o: Options, c: Content, ghost first: seq<Byte>, target: seq<Byte>, sectorNum: nat, n: nat,
    status: BlockStatus, fails: nat -> bool) returns (ok: bool, target': seq<Byte>)
    requires Untouched(p, o, c, first) && PartlyCopied(c, first, target) && (sectorNum + n) * SECTOR <= |target|
    requires Honest(p, c, status, sectorNum, sectorNum + n)
    ensures ok ==> target' == Splice(target, sectorNum * SECTOR, c.source[sectorNum * SECTOR..(sectorNum + n) * SECTOR])
    ensures !ok ==> Mixed(target, target', sectorNum * SECTOR, c.source[sectorNum * SECTOR..(sectorNum + n) * SECTOR])
    ensures !ok ==> exists k :: fails(k)
  {
    var a, b := sectorNum * SECTOR, (sectorNum + n) * SECTOR;
    ghost var data := c.source[a..b];
    var status' := if o.minSparse == 0 && status.Zero? then Data else status;
    var buf := if status.Zero? then Zeroes(n * SECTOR) else c.source[a..b];
    if status.Zero? { ZeroRangeIs(c, sectorNum, n); }
    ok, target' := CoWrite(target, sectorNum, buf, status', o, fails);
    if status.BackingFile? {
      BaseRangeIs(p, o, c, first, target, sectorNum, n);
    }
  }
}
