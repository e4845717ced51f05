/** The safe mode of `qemu-img rebase`: the overlay keeps its visible content while its backing file
    is exchanged. */
module ImageRebase {

  import opened ImageBuffers

  /** The overlay: its own bytes, and which of them are allocated. */
  datatype Image = Image(data: seq<Byte>, alloc: seq<bool>)

  predicate Sized(img: Image) {
    |img.data| == |img.alloc|
  }

  /** Space is allocated in clusters of g bytes. */
  ghost predicate Uniform(img: Image, g: nat)
    requires g > 0
  {
    && Sized(img)
    && forall i, j :: 0 <= i < |img.alloc| && 0 <= j < |img.alloc| && i / g == j / g ==> img.alloc[i] == img.alloc[j]
  }

  /** What a guest sees at i over the given backing file. */
  function ViewAt(img: Image, base: seq<Byte>, i: nat): Byte
    requires Sized(img) && i < |img.data|
  {
    if img.alloc[i] then img.data[i] else At(base, i)
  }

  ghost predicate SameView(img: Image, img': Image, base: seq<Byte>) {
    && Sized(img) && Sized(img') && |img'.data| == |img.data|
    && forall i :: 0 <= i < |img.data| ==> ViewAt(img', base, i) == ViewAt(img, base, i)
  }

  ghost predicate Grows(img: Image, img': Image) {
    && |img'.alloc| == |img.alloc|
    && forall i :: 0 <= i < |img.alloc| && img.alloc[i] ==> img'.alloc[i]
  }

  /** i lies in a cluster that a write of [a, b) touches. */
  predicate Touched(g: nat, a: nat, b: nat, i: nat)
    requires g > 0 && a < b
  {
    a / g <= i / g <= (b - 1) / g
  }

  /** A write allocates whole clusters and fills them up from the backing file. */
  function Write(img: Image, base: seq<Byte>, g: nat, a: nat, buf: seq<Byte>): (img': Image)
    requires Sized(img) && g > 0 && a + |buf| <= |img.data|
    ensures Sized(img') && |img'.data| == |img.data|
  {
    if buf == [] then img
    else Image(
      seq(|img.data|, i requires 0 <= i < |img.data| =>
        if a <= i < a + |buf| then buf[i - a]
        else if Touched(g, a, a + |buf|, i) && !img.alloc[i] then At(base, i)
        else img.data[i]),
      seq(|img.data|, i requires 0 <= i < |img.data| => img.alloc[i] || Touched(g, a, a + |buf|, i)))
  }

  lemma DivMono(a: nat, b: nat, g: nat)
    requires g > 0 && a <= b
    ensures a / g <= b / g
  {
    var p, q := a / g, b / g;
    assert (p - q) * g == p * g - q * g;
    if q < p { MultipleIsBig(p - q, g); }
  }

  lemma WriteIs(img: Image, base: seq<Byte>, g: nat, a: nat, buf: seq<Byte>)
    requires g > 0 && Uniform(img, g) && a + |buf| <= |img.data|
    ensures var img' := Write(img, base, g, a, buf);
      && Uniform(img', g) && Grows(img, img')
      && (forall i :: a <= i < a + |buf| ==> img'.alloc[i])
      && (forall i ::
            0 <= i < |img.data| ==>
              ViewAt(img', base, i) == if a <= i < a + |buf| then buf[i - a] else ViewAt(img, base, i))
  {
    var img' := Write(img, base, g, a, buf);
    if buf != [] {
      var b := a + |buf|;
      forall i | a <= i < b ensures Touched(g, a, b, i) {
        DivMono(a, i, g);
        DivMono(i, b - 1, g);
      }
    }
  }

  /** A write of what is visible anyway does not change what is visible. */
  lemma WriteSameView(img0: Image, img: Image, base: seq<Byte>, g: nat, a: nat, buf: seq<Byte>)
    requires g > 0 && Uniform(img, g) && a + |buf| <= |img.data| && SameView(img0, img, base)
    requires forall i :: 0 <= i < |buf| ==> buf[i] == ViewAt(img0, base, a + i)
    ensures SameView(img0, Write(img, base, g, a, buf), base)
  {
    WriteIs(img, base, g, a, buf);
    var img' := Write(img, base, g, a, buf);
    forall i | 0 <= i < |img0.data| ensures ViewAt(img', base, i) == ViewAt(img0, base, i) {
      if a <= i < a + |buf| { assert buf[i - a] == ViewAt(img0, base, a + (i - a)); }
    }
  }

  // ------------------------------------------------------------------------------------------
  // The assertion on the extended region

  /** The region [offset, offset + n) of the loop, extended to multiples of w within the image. */
  function Extended(offset: nat, n: nat, w: nat, size: nat): (nat, nat)
    requires w > 0
  {
    (AlignDown(offset, w), Min(AlignUp(offset + n, w), size))
  }

  ghost predicate Unallocated(img: Image, a: nat, b: nat) {
    forall i :: a <= i < b && i < |img.alloc| ==> !img.alloc[i]
  }

  /** If clusters are multiples of w, an unallocated region stays unallocated when it is extended. */
  lemma ExtendedIsUnallocated(img: Image, g: nat, w: nat, offset: nat, n: nat)
    requires g > 0 && w > 0 && g % w == 0 && Uniform(img, g) && n > 0 && offset + n <= |img.alloc|
    requires Unallocated(img, offset, offset + n)
    ensures var (a, b) := Extended(offset, n, w, |img.alloc|);
      && a <= offset && offset + n <= b && a % w == 0 && (b % w == 0 || b == |img.alloc|) && Unallocated(img, a, b)
  {
    var (a, b) := Extended(offset, n, w, |img.alloc|);
    AlignDownIs(offset, w);
    AlignUpIs(offset + n, w);
    forall i | a <= i < b ensures !img.alloc[i] {
      if i < offset {
        Coarser(i, offset, w, g);
        assert !img.alloc[offset];
      } else if i >= offset + n {
        Coarser(i, offset + n - 1, w, g);
        assert !img.alloc[offset + n - 1];
      }
    }
  }

  /** Otherwise the assertion fails for some image. */
  lemma AssertionCanFail(g: nat, w: nat) returns (img: Image, offset: nat)
    requires g > 0 && w > 0 && g % w != 0
    ensures Uniform(img, g) && offset < |img.alloc| && Unallocated(img, offset, offset + 1)
    ensures var (a, b) := Extended(offset, 1, w, |img.alloc|); !Unallocated(img, a, b)
  {
    offset := g;
    img := Image(seq(2 * g, i => 0), seq(2 * g, i => i < g));
    forall i, j | 0 <= i < 2 * g && 0 <= j < 2 * g && i / g == j / g ensures img.alloc[i] == img.alloc[j] {
      MulDiv(0, if i < g then i else i - g, g);
      MulDiv(0, if j < g then j else j - g, g);
      MulDiv(1, if i < g then i else i - g, g);
      MulDiv(1, if j < g then j else j - g, g);
    }
    AlignDownIs(g, w);
    AlignUpIs(g + 1, w);
    var (a, b) := Extended(g, 1, w, 2 * g);
    assert a < g && img.alloc[a];
  }

  // ------------------------------------------------------------------------------------------
  // The loop

  /** The environment: which I/O requests fail, how much of a failed write has reached the disk, how
      far a status query looks ahead, and, if the new backing file is part of the old chain, whether
      anything above it is allocated. */
  datatype Env = Env(
    fails: nat -> bool, partial: nat -> nat, look: nat -> nat, prefix: bool, above: (nat, nat) -> (bool, nat))

  /** bdrv_is_allocated_above tells the truth: where nothing is allocated above the new backing file,
      the old backing file reads the same as the new one. */
  ghost predicate Truthful(env: Env, was: seq<Byte>, now: seq<Byte>) {
    env.prefix ==>
      forall offset: nat, n: nat {:trigger env.above(offset, n)} ::
        var (changed, m) := env.above(offset, n);
        m <= n && (!changed ==> forall i :: offset <= i < offset + m ==> At(was, i) == At(now, i))
  }

  /** The byte needs no more attention. */
  predicate Settled(img: Image, was: seq<Byte>, now: seq<Byte>, i: nat)
    requires i < |img.alloc|
  {
    img.alloc[i] || At(was, i) == At(now, i)
  }

  ghost predicate SettledIn(img: Image, was: seq<Byte>, now: seq<Byte>, a: nat, b: nat) {
    b <= |img.alloc| && forall i :: a <= i < b ==> Settled(img, was, now, i)
  }

  /** blk_pread of a backing file that may be too short, into a zeroed buffer */
  function ReadPadded(base: seq<Byte>, offset: nat, n: nat): (buf: seq<Byte>)
    ensures |buf| == n && forall i :: 0 <= i < n ==> buf[i] == At(base, offset + i)
  {
    seq<Byte>(n, i requires 0 <= i < n => At(base, offset + i))
  }

  /** bdrv_is_allocated */
  method IsAllocated(img: Image, offset: nat, n: nat, look: nat) returns (a: bool, m: nat)
    requires Sized(img) && n > 0 && offset + n <= |img.alloc|
    ensures 0 < m <= n && forall i :: offset <= i < offset + m ==> img.alloc[i] == a
  {
    a := img.alloc[offset];
    m := 1;
    while m < n && m < look && img.alloc[offset + m] == a
      invariant 0 < m <= n && forall i :: offset <= i < offset + m ==> img.alloc[i] == a
    {
      m := m + 1;
    }
  }

  /** blk_pwrite; a write that fails may have been done in part. */
  method WriteRequest(img: Image, base: seq<Byte>, g: nat, a: nat, buf: seq<Byte>, env: Env, io: nat)
    returns (ok: bool, img': Image)
    requires g > 0 && Uniform(img, g) && a + |buf| <= |img.data|
    ensures Uniform(img', g) && Grows(img, img') && |img'.data| == |img.data|
    ensures ok ==> forall i :: a <= i < a + |buf| ==> img'.alloc[i]
    ensures ok <==> !env.fails(io)
    ensures forall img0 ::
      SameView(img0, img, base) && (forall i :: 0 <= i < |buf| ==> buf[i] == ViewAt(img0, base, a + i)) ==>
        SameView(img0, img', base)
  {
    ok := !env.fails(io);
    var done := if ok then buf else buf[..Min(env.partial(io), |buf|)];
    WriteIs(img, base, g, a, done);
    img' := Write(img, base, g, a, done);
    forall img0 | SameView(img0, img, base) && (forall i :: 0 <= i < |buf| ==> buf[i] == ViewAt(img0, base, a + i))
      ensures SameView(img0, img', base)
    {
      WriteSameView(img0, img, base, g, a, done);
    }
  }

  /** One turn of the inner loop: the next chunks of [offset, offset + n) that all differ are copied
      from the old backing file, chunks that all agree are left alone. */
  method CopyChunks(
    ghost img0: Image, img: Image, was: seq<Byte>, now: seq<Byte>, w: nat, g: nat, offset: nat, n: nat, written: nat,
    eof: bool, env: Env, io: nat)
    returns (ok: bool, img': Image, pnum: nat)
    requires g > 0 && w > 0 && Uniform(img, g) && written < n && offset + n <= |img0.data|
    requires Unallocated(img0, offset, offset + n)
    requires SameView(img0, img, was) && (eof ==> offset + written >= |was|)
    ensures Uniform(img', g) && Grows(img, img') && SameView(img0, img', was) && 0 < pnum <= n - written
    ensures ok ==> SettledIn(img', was, now, offset + written, offset + written + pnum)
    ensures !ok ==> env.fails(io)
  {
    var bufOld, bufNew := ReadPadded(was, offset, n), ReadPadded(now, offset, n);
    var differ;
    differ, pnum := CompareBuffers(bufOld[written..], bufNew[written..], w);
    if differ {
      var zeroes := seq<Byte>(pnum, i => 0);
      var buf := if eof then zeroes else bufOld[written..written + pnum];
      assert forall i :: 0 <= i < pnum ==> buf[i] == At(was, offset + written + i);
      RegionView(img0, was, offset, n, offset + written, buf);
      ok, img' := WriteRequest(img, was, g, offset + written, buf, env, io);
    } else {
      SameBytes(was, now, offset, bufOld, bufNew, written, pnum);
      ok, img' := true, img;
    }
  }

  /** One extended region: both backing files are read, compared, and copied where they differ. */
  method CopyRegion(img0: Image, was: seq<Byte>, now: seq<Byte>, w: nat, g: nat, offset: nat, n: nat, env: Env, io: nat)
    returns (ok: bool, img: Image, io': nat)
    requires g > 0 && w > 0 && Uniform(img0, g) && n > 0 && offset + n <= |img0.data|
    requires Unallocated(img0, offset, offset + n)
    ensures Uniform(img, g) && Grows(img0, img) && SameView(img0, img, was)
    ensures ok ==> SettledIn(img, was, now, offset, offset + n)
    ensures !ok ==> exists k: nat :: env.fails(k)
  {
    img, io' := img0, io;
    var nOld, nNew := Min(n, Max(0, |was| - offset)), Min(n, Max(0, |now| - offset));
    if nOld > 0 {
      io' := io' + 1;
      if env.fails(io') {
        return false, img, io';
      }
    }
    if nNew > 0 {
      io' := io' + 1;
      if env.fails(io') {
        return false, img, io';
      }
    }
    var eof := nOld == 0;
    var written := 0;
    while written < n
      invariant 0 <= written <= n && Uniform(img, g) && Grows(img0, img) && SameView(img0, img, was)
      invariant SettledIn(img, was, now, offset, offset + written)
      invariant eof ==> offset + written >= |was|
      decreases n - written
    {
      var before := img;
      var pnum;
      io' := io' + 1;
      ok, img, pnum := CopyChunks(img0, img, was, now, w, g, offset, n, written, eof, env, io');
      if !ok {
        return;
      }
      SettledGrows(before, img, was, now, offset, offset + written);
      written := written + pnum;
      if offset + written >= |was| {
        eof := true;
      }
    }
    ok := true;
  }

  /** In an unallocated region, what is read from the old backing file is what is visible. */
  lemma RegionView(img: Image, was: seq<Byte>, offset: nat, n: nat, a: nat, buf: seq<Byte>)
    requires Sized(img) && offset <= a && a + |buf| <= offset + n <= |img.data| && Unallocated(img, offset, offset + n)
    requires forall i :: 0 <= i < |buf| ==> buf[i] == At(was, a + i)
    ensures forall i :: 0 <= i < |buf| ==> buf[i] == ViewAt(img, was, a + i)
  {
  }

  lemma SameBytes(
      was: seq<Byte>, now: seq<Byte>, offset: nat, bufOld: seq<Byte>, bufNew: seq<Byte>, written: nat, pnum: nat)
    requires |bufOld| == |bufNew| && written + pnum <= |bufOld|
    requires bufOld[written..][..pnum] == bufNew[written..][..pnum]
    requires forall i :: 0 <= i < |bufOld| ==> bufOld[i] == At(was, offset + i)
    requires forall i :: 0 <= i < |bufNew| ==> bufNew[i] == At(now, offset + i)
    ensures forall i :: offset + written <= i < offset + written + pnum ==> At(was, i) == At(now, i)
  {
    forall i | offset + written <= i < offset + written + pnum ensures At(was, i) == At(now, i) {
      var k := i - offset - written;
      assert bufOld[written..][..pnum][k] == bufNew[written..][..pnum][k];
      assert
        && bufOld[written + k] == At(was, offset + (written + k))
        && bufNew[written + k] == At(now, offset + (written + k));
    }
  }

  lemma SettledGrows(img: Image, img': Image, was: seq<Byte>, now: seq<Byte>, a: nat, b: nat)
    requires Grows(img, img') && SettledIn(img, was, now, a, b)
    ensures SettledIn(img', was, now, a, b)
  {
    forall i | a <= i < b ensures Settled(img', was, now, i) { assert Settled(img, was, now, i); }
  }

  /** The main loop.  Whatever fails, and whenever, the image reads over the old backing file as it
      did before; when all is done, it reads the same over the new one. */
  method Rebase(img0: Image, was: seq<Byte>, now: seq<Byte>, w: nat, g: nat, env: Env) returns (ok: bool, img: Image)
    requires g > 0 && w > 0 && g % w == 0 && Uniform(img0, g) && Truthful(env, was, now)
    ensures Uniform(img, g) && SameView(img0, img, was)
    ensures ok ==> forall i :: 0 <= i < |img0.data| ==> ViewAt(img, now, i) == ViewAt(img0, was, i)
    ensures !ok ==> exists k: nat :: env.fails(k)
  {
    img := img0;
    var size := |img.data|;
    var io, offset := 0, 0;
    while offset < size
      invariant 0 <= offset <= size == |img.data| && Uniform(img, g) && SameView(img0, img, was)
      invariant SettledIn(img, was, now, 0, offset)
      decreases size - offset
    {
      var n := Min(2 * 1024 * 1024, size - offset);
      io := io + 1;
      if env.fails(io) {
        return false, img;
      }
      var a, m := IsAllocated(img, offset, n, env.look(io));
      if a {
        offset := offset + m;
        continue;
      }
      n := m;
      if env.prefix {
        io := io + 1;
        if env.fails(io) {
          return false, img;
        }
        var (changed, k) := env.above(offset, n);
        if !changed && k != 0 {
          offset := offset + k;
          continue;
        }
        if k != 0 {
          n := k;
        }
      }
      ExtendedIsUnallocated(img, g, w, offset, n);
      var (from, to) := Extended(offset, n, w, size);
      assert Unallocated(img, from, to);
      var before := img;
      ok, img, io := CopyRegion(img, was, now, w, g, from, to - from, env, io);
      SameViewTrans(img0, before, img, was);
      if !ok {
        return;
      }
      SettledGrows(before, img, was, now, 0, offset);
      offset := to;
    }
    ok := true;
    forall i | 0 <= i < |img0.data| ensures ViewAt(img, now, i) == ViewAt(img0, was, i) {
      assert Settled(img, was, now, i) && ViewAt(img, was, i) == ViewAt(img0, was, i);
    }
  }

  lemma SameViewTrans(img0: Image, img1: Image, img2: Image, base: seq<Byte>)
    requires SameView(img0, img1, base) && SameView(img1, img2, base)
    ensures SameView(img0, img2, base)
  {
    forall i | 0 <= i < |img0.data| ensures ViewAt(img2, base, i) == ViewAt(img0, base, i) {
      assert ViewAt(img1, base, i) == ViewAt(img0, base, i);
    }
  }
}
