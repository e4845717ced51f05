/** Buffers of bytes, alignment, and the scans that qemu-img makes over buffers. */
module ImageBuffers {

  type Byte = b: int | 0 <= b < 256

  const SECTOR: nat := 512

  /** Reading at i, with zeroes beyond the end. */
  function At(s: seq<Byte>, i: int): Byte {
    if 0 <= i < |s| then s[i] else 0
  }

  predicate AllZero(s: seq<Byte>) {
    forall i :: 0 <= i < |s| ==> s[i] == 0
  }

  function Min(a: int, b: int): int {
    if a < b then a else b
  }

  function Max(a: int, b: int): int {
    if a < b then b else a
  }

  // ------------------------------------------------------------------------------------------
  // Alignment

  /** QEMU_ALIGN_DOWN */
  function AlignDown(x: nat, w: nat): (r: nat)
    requires w > 0
    ensures r <= x
  {
    x - x % w
  }

  /** QEMU_ALIGN_UP */
  function AlignUp(x: nat, w: nat): nat
    requires w > 0
  {
    AlignDown(x + w - 1, w)
  }

  lemma {:induction false} MultipleIsBig(d: nat, w: nat)
    requires d > 0
    ensures d * w >= w
  {
    if d > 1 {
      MultipleIsBig(d - 1, w);
      assert d * w == (d - 1) * w + w;
    }
  }

  lemma MulDiv(k: nat, r: nat, w: nat)
    requires r < w
    ensures (k * w + r) / w == k && (k * w + r) % w == r
  {
    var x := k * w + r;
    var q, m := x / w, x % w;
    assert x == q * w + m;
    assert (q - k) * w == q * w - k * w;
    assert (k - q) * w == k * w - q * w;
    if q > k { MultipleIsBig(q - k, w); }
    if q < k { MultipleIsBig(k - q, w); }
  }

  lemma AlignDownIs(x: nat, w: nat)
    requires w > 0
    ensures AlignDown(x, w) == x / w * w && AlignDown(x, w) % w == 0 && x - w < AlignDown(x, w)
    ensures forall i :: AlignDown(x, w) <= i <= x ==> i / w == x / w
  {
    var k := x / w;
    assert x == k * w + x % w;
    MulDiv(k, 0, w);
    forall i | k * w <= i <= x ensures i / w == k {
      MulDiv(k, i - k * w, w);
    }
  }

  lemma AlignUpIs(x: nat, w: nat)
    requires w > 0 && x > 0
    ensures x <= AlignUp(x, w) < x + w && AlignUp(x, w) % w == 0
    ensures forall i :: x <= i < AlignUp(x, w) ==> i / w == (x - 1) / w
  {
    var y := x + w - 1;
    AlignDownIs(y, w);
    var k, r := (x - 1) / w, (x - 1) % w;
    assert y == (k + 1) * w + r by {
      assert x - 1 == k * w + r;
      assert (k + 1) * w == k * w + w;
    }
    MulDiv(k + 1, r, w);
    forall i | x <= i < AlignUp(x, w) ensures i / w == k {
      assert AlignUp(x, w) == (k + 1) * w == k * w + w;
      MulDiv(k, i - k * w, w);
    }
  }

  lemma DivMod(i: nat, w: nat)
    requires w > 0
    ensures i == i / w * w + i % w && i % w < w
  {
  }

  /** Two places in one small cluster are in one big cluster. */
  lemma Coarser(i: nat, j: nat, w: nat, g: nat)
    requires w > 0 && g > 0 && g % w == 0 && i / w == j / w
    ensures i / g == j / g
  {
    DivMod(g, w);
    DivMod(i, w);
    DivMod(j, w);
    assert g / w > 0;
    SameBigCluster(i, j, i / w, i % w, j % w, w, g / w, g);
  }

  lemma SameBigCluster(i: nat, j: nat, a: nat, r: nat, s: nat, w: nat, q: nat, g: nat)
    requires i == a * w + r && j == a * w + s && r < w && s < w && g == q * w && g > 0 && q > 0
    ensures i / g == j / g
  {
    DivMod(a, q);
    var b, c := a / q, a % q;
    assert a == b * q + c;
    Place(b, c, r, q, w);
    Place(b, c, s, q, w);
  }

  lemma Place(b: nat, c: nat, r: nat, q: nat, w: nat)
    requires c < q && r < w
    ensures q * w > 0 && ((b * q + c) * w + r) / (q * w) == b
  {
    MultipleIsBig(q, w);
    MulLe(c + 1, q, w);
    Regroup(b, q, c, w);
    MulDiv(b, c * w + r, q * w);
  }

  lemma Regroup(b: nat, q: nat, c: nat, w: nat)
    ensures (b * q + c) * w == b * (q * w) + c * w && (c + 1) * w == c * w + w
  {
    assert (b * q + c) * w == (b * q) * w + c * w;
    assert (b * q) * w == b * (q * w);
  }

  lemma MulLe(a: nat, b: nat, w: nat)
    requires a <= b
    ensures a * w <= b * w
  {
    assert b * w == a * w + (b - a) * w;
  }

  // ------------------------------------------------------------------------------------------
  // compare_buffers

  /** Do the buffers differ in the chunk of size c that begins at i? */
  predicate ChunkDiffers(buf1: seq<Byte>, buf2: seq<Byte>, c: nat, i: nat)
    requires |buf1| == |buf2| && i <= |buf1|
  {
    var end := Min(i + c, |buf1|);
    buf1[i..end] != buf2[i..end]
  }

  /** compare_buffers: pnum is the longest prefix of whole chunks that all differ, or all agree. */
  method CompareBuffers(buf1: seq<Byte>, buf2: seq<Byte>, chsize: nat) returns (differ: bool, pnum: nat)
    requires |buf1| == |buf2| > 0
    ensures var c := if chsize == 0 then SECTOR else chsize;
      && 0 < pnum <= |buf1| && (pnum == |buf1| || pnum % c == 0)
      && (forall i :: 0 <= i < pnum && i % c == 0 ==> ChunkDiffers(buf1, buf2, c, i) == differ)
      && (pnum < |buf1| ==> ChunkDiffers(buf1, buf2, c, pnum) != differ)
    ensures !differ ==> buf1[..pnum] == buf2[..pnum]
  {
    var c := if chsize == 0 then SECTOR else chsize;
    var i := Min(|buf1|, c);
    differ := buf1[..i] != buf2[..i];
    assert ChunkDiffers(buf1, buf2, c, 0) == differ;
    FirstChunk(c, i);
    while i < |buf1|
      invariant 0 < i <= |buf1| && (i == |buf1| || i % c == 0)
      invariant forall k :: 0 <= k < i && k % c == 0 ==> ChunkDiffers(buf1, buf2, c, k) == differ
      invariant !differ ==> buf1[..i] == buf2[..i]
    {
      var len := Min(|buf1| - i, c);
      if (buf1[i..i + len] != buf2[i..i + len]) != differ {
        break;
      }
      assert ChunkDiffers(buf1, buf2, c, i) == differ;
      NextChunk(c, i, len);
      if !differ {
        assert buf1[..i + len] == buf1[..i] + buf1[i..i + len];
        assert buf2[..i + len] == buf2[..i] + buf2[i..i + len];
      }
      i := i + len;
    }
    pnum := i;
  }

  lemma FirstChunk(c: nat, i: nat)
    requires 0 < i <= c
    ensures forall k :: 0 < k < i ==> k % c != 0
    ensures c % c == 0
  {
    forall k | 0 < k < i ensures k % c == k { MulDiv(0, k, c); }
    MulDiv(1, 0, c);
  }

  /** Between two chunk borders there is none. */
  lemma NextChunk(c: nat, i: nat, len: nat)
    requires 0 < len <= c && i % c == 0
    ensures forall k :: i < k < i + len ==> k % c != 0
    ensures len == c ==> (i + len) % c == 0
  {
    var q := i / c;
    assert i == q * c;
    forall k | i < k < i + len ensures k % c == k - i { MulDiv(q, k - i, c); }
    if len == c {
      assert i + c == (q + 1) * c;
      MulDiv(q + 1, 0, c);
    }
  }

  // ------------------------------------------------------------------------------------------
  // find_nonzero

  /** find_nonzero: the first sector that is not all zeroes, or -1. */
  method FindNonzero(buf: seq<Byte>) returns (r: int)
    ensures r == -1 <==> AllZero(buf)
    ensures
      r != -1 ==> 0 <= r < |buf| && r % SECTOR == 0 && AllZero(buf[..r]) && !AllZero(buf[r..Min(r + SECTOR, |buf|)])
  {
    var n := |buf|;
    var end := AlignDown(n, SECTOR);
    var i := 0;
    while i < end
      invariant 0 <= i <= end && i % SECTOR == 0 && AllZero(buf[..i])
    {
      if !AllZero(buf[i..i + SECTOR]) {
        NotZeroInside(buf, i, i + SECTOR);
        return i;
      }
      ZeroJoin(buf, i, i + SECTOR);
      i := i + SECTOR;
    }
    if i < n && !AllZero(buf[i..n]) {
      NotZeroInside(buf, i, n);
      return i;
    }
    if i < n { ZeroJoin(buf, i, n); }
    assert buf[..n] == buf;
    return -1;
  }

  lemma ZeroJoin(buf: seq<Byte>, i: nat, j: nat)
    requires i <= j <= |buf| && AllZero(buf[..i]) && AllZero(buf[i..j])
    ensures AllZero(buf[..j])
  {
    forall k | 0 <= k < j ensures buf[..j][k] == 0 {
      if k < i { assert buf[..i][k] == 0; } else { assert buf[i..j][k - i] == 0; }
    }
  }

  lemma NotZeroInside(buf: seq<Byte>, i: nat, j: nat)
    requires i <= j <= |buf| && !AllZero(buf[i..j])
    ensures !AllZero(buf)
  {
    var k :| 0 <= k < j - i && buf[i..j][k] != 0;
    assert buf[i + k] != 0;
  }
}
