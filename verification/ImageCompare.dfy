/** `qemu-img compare`: decides whether two images have the same content. */
module ImageCompare {

  import opened ImageBuffers

  /** What bdrv_block_status_above reports from an offset on; `flags` are the remaining status bits. */
  datatype Status = Status(isAllocated: bool, zero: bool, flags: int, pnum: nat)

  datatype Source = Source(content: seq<Byte>, status: nat -> Status)

  /** Block status tells the truth: what is zero or not allocated anywhere in the chain reads as
      zeroes, and every report makes progress and stays inside the image. */
  ghost predicate Truthful(a: Source) {
    forall i: nat {:trigger a.status(i)} :: i < |a.content| ==>
      var st := a.status(i);
      0 < st.pnum <= |a.content| - i && (st.zero || !st.isAllocated ==> AllZero(a.content[i..i + st.pnum]))
  }

  /** Equal after the shorter one is extended with zeroes. */
  ghost predicate SameContent(a: seq<Byte>, b: seq<Byte>) {
    forall i :: 0 <= i < Max(|a|, |b|) ==> At(a, i) == At(b, i)
  }

  ghost predicate SameUpTo(a: seq<Byte>, b: seq<Byte>, n: nat) {
    forall i :: 0 <= i < n ==> At(a, i) == At(b, i)
  }

  const IO_BUF_SIZE: nat := 2 * 1024 * 1024

  /** All status bits agree. */
  predicate SameStatus(st1: Status, st2: Status) {
    st1.(pnum := 0) == st2.(pnum := 0)
  }

  /** How far one turn of the loop goes: a read is limited to the size of the buffer. */
  function ChunkOf(st1: Status, st2: Status): nat {
    var chunk := Min(st1.pnum, st2.pnum);
    if (st1.zero && st2.zero) || (!st1.isAllocated && !st2.isAllocated) then chunk else Min(chunk, IO_BUF_SIZE)
  }

  /** The offsets from `offset` on at which the block status of the images is compared. */
  ghost function Visits(a: Source, b: Source, offset: nat): set<nat>
    requires Truthful(a) && Truthful(b)
    decreases |a.content| - offset
  {
    if offset >= |a.content| || offset >= |b.content| then {}
    else {offset} + Visits(a, b, offset + ChunkOf(a.status(offset), b.status(offset)))
  }

  ghost predicate SameStatuses(a: Source, b: Source, offsets: set<nat>) {
    forall i :: i in offsets ==> SameStatus(a.status(i), b.status(i))
  }

  /** check_empty_sectors: 0 if the range is zero, 1 if not, 4 if it cannot be read. */
  method CheckEmptySectors(a: seq<Byte>, offset: nat, bytes: nat, fails: bool) returns (ret: int)
    requires offset + bytes <= |a|
    ensures ret == if fails then 4 else if AllZero(a[offset..offset + bytes]) then 0 else 1
  {
    if fails {
      return 4;
    }
    var idx := FindNonzero(a[offset..offset + bytes]);
    if idx >= 0 {
      return 1;
    }
    return 0;
  }

  /** How a comparison step over [offset, offset + chunk) may end. */
  ghost predicate StepOk(a: seq<Byte>, b: seq<Byte>, offset: nat, chunk: nat, ret: int) {
    && offset + chunk <= Max(|a|, |b|)
    && (ret == 0 ==> forall i :: offset <= i < offset + chunk ==> At(a, i) == At(b, i))
    && (ret == 1 ==> exists i :: offset <= i < offset + chunk && At(a, i) != At(b, i))
  }

  lemma ZeroAt(a: seq<Byte>, i: nat, j: nat)
    requires i <= j <= |a|
    ensures AllZero(a[i..j]) <==> forall k :: i <= k < j ==> At(a, k) == 0
  {
    if AllZero(a[i..j]) {
      forall k | i <= k < j ensures At(a, k) == 0 { assert a[i..j][k - i] == 0; }
    }
    if forall k :: i <= k < j ==> At(a, k) == 0 {
      forall k | 0 <= k < j - i ensures a[i..j][k] == 0 { assert At(a, i + k) == 0; }
    }
  }

  lemma SliceAt(a: seq<Byte>, b: seq<Byte>, offset: nat, chunk: nat)
    requires offset + chunk <= |a| && offset + chunk <= |b|
    ensures a[offset..offset + chunk] == b[offset..offset + chunk] <==>
      forall i :: offset <= i < offset + chunk ==> At(a, i) == At(b, i)
  {
    if a[offset..offset + chunk] == b[offset..offset + chunk] {
      forall i | offset <= i < offset + chunk ensures At(a, i) == At(b, i) {
        assert a[offset..offset + chunk][i - offset] == b[offset..offset + chunk][i - offset];
      }
    }
    if forall i :: offset <= i < offset + chunk ==> At(a, i) == At(b, i) {
      var x, y := a[offset..offset + chunk], b[offset..offset + chunk];
      forall k | 0 <= k < chunk ensures x[k] == y[k] {
        assert At(a, offset + k) == At(b, offset + k);
      }
    }
  }

  /** compare_buffers finds no difference exactly when the buffers are equal. */
  lemma WholeOrDifferent(buf1: seq<Byte>, buf2: seq<Byte>, differ: bool, pnum: nat)
    requires |buf1| == |buf2| > 0 && 0 < pnum <= |buf1| && ChunkDiffers(buf1, buf2, SECTOR, 0) == differ
    requires pnum < |buf1| ==> ChunkDiffers(buf1, buf2, SECTOR, pnum) != differ
    requires !differ ==> buf1[..pnum] == buf2[..pnum]
    ensures differ || pnum != |buf1| <==> buf1 != buf2
  {
    assert buf1[..|buf1|] == buf1 && buf2[..|buf2|] == buf2;
  }

  /** Both images are allocated here: their bytes are compared. */
  method CompareData(a: seq<Byte>, b: seq<Byte>, offset: nat, chunk: nat, fails1: bool, fails2: bool) returns (ret: int)
    requires 0 < chunk && offset + chunk <= |a| && offset + chunk <= |b|
    ensures StepOk(a, b, offset, chunk, ret) && ret in {0, 1, 4} && (ret == 4 ==> fails1 || fails2)
  {
    if fails1 || fails2 {
      return 4;
    }
    var buf1, buf2 := a[offset..offset + chunk], b[offset..offset + chunk];
    var differ, pnum := CompareBuffers(buf1, buf2, 0);
    FirstChunk(SECTOR, SECTOR);
    assert 0 % SECTOR == 0;
    WholeOrDifferent(buf1, buf2, differ, pnum);
    SliceAt(a, b, offset, chunk);
    if differ || pnum != chunk {
      return 1;
    }
    return 0;
  }

  ghost predicate ZeroIn(a: seq<Byte>, i: nat, j: nat) {
    forall k :: i <= k < j ==> At(a, k) == 0
  }

  /** The contents of both images from offset on, as far as both reports reach or the buffers do. */
  method CompareContent(a: seq<Byte>, b: seq<Byte>, st1: Status, st2: Status, offset: nat, fails1: bool, fails2: bool)
    returns (ret: int, chunk: nat)
    requires 0 < st1.pnum && offset + st1.pnum <= |a|
    requires st1.zero || !st1.isAllocated ==> ZeroIn(a, offset, offset + st1.pnum)
    requires 0 < st2.pnum && offset + st2.pnum <= |b|
    requires st2.zero || !st2.isAllocated ==> ZeroIn(b, offset, offset + st2.pnum)
    ensures chunk == ChunkOf(st1, st2) && 0 < chunk && offset + chunk <= |a| && offset + chunk <= |b|
    ensures StepOk(a, b, offset, chunk, ret) && ret in {0, 1, 4} && (ret == 4 ==> fails1 || fails2)
  {
    chunk := Min(st1.pnum, st2.pnum);
    if (st1.zero && st2.zero) || (!st1.isAllocated && !st2.isAllocated) {
      return 0, chunk;
    }
    chunk := Min(chunk, IO_BUF_SIZE);
    if st1.isAllocated && st2.isAllocated {
      ret := CompareData(a, b, offset, chunk, fails1, fails2);
    } else {
      ret := CompareWithZero(a, b, st1.isAllocated, offset, chunk, fails1);
    }
  }

  /** Only one of the images is allocated here: it must be zero. */
  method CompareWithZero(a: seq<Byte>, b: seq<Byte>, first: bool, offset: nat, chunk: nat, fails: bool)
    returns (ret: int)
    requires offset + chunk <= |a| && offset + chunk <= |b| && ZeroIn(if first then b else a, offset, offset + chunk)
    ensures StepOk(a, b, offset, chunk, ret) && ret in {0, 1, 4} && (ret == 4 ==> fails)
  {
    var data := if first then a else b;
    ZeroAt(data, offset, offset + chunk);
    ret := CheckEmptySectors(data, offset, chunk, fails);
  }

  /** One turn of the loop over the common part of the images. */
  method CompareChunk(a: Source, b: Source, offset: nat, strict: bool, fails: nat -> bool, io: nat)
    returns (ret: int, chunk: nat)
    requires Truthful(a) && Truthful(b) && offset < |a.content| && offset < |b.content|
    ensures 0 < chunk && offset + chunk <= |a.content| && offset + chunk <= |b.content| && ret in {0, 1, 3, 4}
    ensures ret == 0 ==> StepOk(a.content, b.content, offset, chunk, 0)
    ensures ret == 0 ==> chunk == ChunkOf(a.status(offset), b.status(offset))
    ensures ret == 1 ==>
      || StepOk(a.content, b.content, offset, chunk, 1)
      || (strict && !SameStatus(a.status(offset), b.status(offset)))
    ensures ret == 0 && strict ==> SameStatus(a.status(offset), b.status(offset))
    ensures ret in {3, 4} ==> exists k :: fails(k)
  {
    var st1, st2 := a.status(offset), b.status(offset);
    chunk := Min(st1.pnum, st2.pnum);
    if fails(io) || fails(io + 1) {
      return 3, chunk;
    }
    if strict && !SameStatus(st1, st2) {
      return 1, chunk;
    }
    ZeroAt(a.content, offset, offset + st1.pnum);
    ZeroAt(b.content, offset, offset + st2.pnum);
    ret, chunk := CompareContent(a.content, b.content, st1, st2, offset, fails(io + 2), fails(io + 3));
  }

  /** The loop over the tail of the longer image. */
  method CompareTail(over: Source, other: seq<Byte>, fails: nat -> bool, io: nat) returns (ret: int)
    requires Truthful(over) && |other| < |over.content|
    ensures ret in {0, 1, 3, 4} && (ret in {3, 4} ==> exists k :: fails(k))
    ensures ret == 0 ==> forall i :: |other| <= i < |over.content| ==> At(over.content, i) == 0
    ensures ret == 1 ==> exists i :: |other| <= i < |over.content| && At(over.content, i) != 0
  {
    var offset, k := |other|, io;
    while offset < |over.content|
      invariant |other| <= offset <= |over.content|
      invariant forall i :: |other| <= i < offset ==> At(over.content, i) == 0
      decreases |over.content| - offset
    {
      if fails(k) {
        return 3;
      }
      var st := over.status(offset);
      var chunk := st.pnum;
      ZeroAt(over.content, offset, offset + chunk);
      if st.isAllocated && !st.zero {
        chunk := Min(chunk, IO_BUF_SIZE);
        ZeroAt(over.content, offset, offset + chunk);
        ret := CheckEmptySectors(over.content, offset, chunk, fails(k + 1));
        if ret != 0 {
          return;
        }
      }
      offset := offset + chunk;
      k := k + 2;
    }
    ret := 0;
  }

  /** What `qemu-img compare` returns: 0 for images with the same content and 1 for images that
      differ; anything else only after an I/O error.  Strict mode returns 0 exactly if in addition the
      sizes are equal, and the block status at every offset where the loop looks at it. */
  method Compare(a: Source, b: Source, strict: bool, fails: nat -> bool) returns (ret: int)
    requires Truthful(a) && Truthful(b)
    ensures ret in {0, 1, 3, 4} && (ret in {3, 4} ==> exists k :: fails(k))
    ensures !strict && ret in {0, 1} ==> (ret == 0 <==> SameContent(a.content, b.content))
    ensures strict && ret in {0, 1} ==> (ret == 0 <==> a.content == b.content && SameStatuses(a, b, Visits(a, b, 0)))
  {
    var total := Min(|a.content|, |b.content|);
    if strict && |a.content| != |b.content| {
      return 1;
    }
    var offset, io := 0, 0;
    ghost var seen := {};
    while offset < total
      invariant 0 <= offset <= total && SameUpTo(a.content, b.content, offset)
      invariant Visits(a, b, 0) == seen + Visits(a, b, offset) && (strict ==> SameStatuses(a, b, seen))
      decreases total - offset
    {
      var chunk;
      ret, chunk := CompareChunk(a, b, offset, strict, fails, io);
      if ret != 0 {
        if ret == 1 { Different(a, b, offset, chunk, strict); }
        return;
      }
      io := io + 4;
      seen := seen + {offset};
      offset := offset + chunk;
    }
    if |a.content| > |b.content| {
      ret := CompareTail(a, b.content, fails, io);
    } else if |b.content| > |a.content| {
      ret := CompareTail(b, a.content, fails, io);
    } else {
      ret := 0;
    }
    Concluded(a.content, b.content, ret);
  }

  lemma Different(a: Source, b: Source, offset: nat, chunk: nat, strict: bool)
    requires Truthful(a) && Truthful(b) && offset < |a.content| && offset < |b.content|
    requires
      || StepOk(a.content, b.content, offset, chunk, 1)
      || (strict && !SameStatus(a.status(offset), b.status(offset)))
    ensures !SameContent(a.content, b.content) || (strict && !SameStatuses(a, b, Visits(a, b, offset)))
    ensures a.content == b.content ==> SameContent(a.content, b.content)
  {
    if StepOk(a.content, b.content, offset, chunk, 1) {
      var i :| offset <= i < offset + chunk && At(a.content, i) != At(b.content, i);
      assert 0 <= i < Max(|a.content|, |b.content|);
    } else {
      assert offset in Visits(a, b, offset);
    }
  }

  lemma Concluded(a: seq<Byte>, b: seq<Byte>, ret: int)
    requires SameUpTo(a, b, Min(|a|, |b|))
    requires ret == 0 ==> forall i :: Min(|a|, |b|) <= i < Max(|a|, |b|) ==> At(a, i) == At(b, i)
    requires ret == 1 ==> exists i :: Min(|a|, |b|) <= i < Max(|a|, |b|) && At(a, i) != At(b, i)
    ensures ret == 0 ==> SameContent(a, b) && (|a| == |b| ==> a == b)
    ensures ret == 1 ==> !SameContent(a, b)
  {
    if ret == 0 && |a| == |b| {
      forall i | 0 <= i < |a| ensures a[i] == b[i] { assert At(a, i) == At(b, i); }
    }
  }
}
