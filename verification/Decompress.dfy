/** Copying decompressed data into the pages of a read: the extent comes in buffers of any size, the pages
    want any ascending pieces of it. */
module Decompress {
  import opened Ctree

  const U32 := 0x1_0000_0000
  const U64 := 0x1_0000_0000_0000_0000

  /** A bvec: where its page lies in the file, and how many bytes. */
  datatype Seg = Seg(file: nat, len: nat)

  /** Where a piece of the file lies in the extent; base is the file offset of the extent's first byte, which
      is negative when a file extent item begins beyond it. */
  function Off(base: int, s: Seg): int
  {
    s.file - base
  }

  predicate SegOk(base: int, size: nat, s: Seg)
  {
    s.len > 0 && 0 <= Off(base, s) && Off(base, s) + s.len <= size
  }

  predicate AllOk(base: int, size: nat, segs: seq<Seg>)
  {
    forall i {:trigger SegOk(base, size, segs[i])} :: 0 <= i < |segs| ==> SegOk(base, size, segs[i])
  }

  predicate SegsOk(base: int, size: nat, segs: seq<Seg>)
  {
    && AllOk(base, size, segs)
    && (forall i, j :: 0 <= i < j < |segs| ==> Off(base, segs[i]) + segs[i].len <= Off(base, segs[j]))
  }

  function Total(segs: seq<Seg>): nat
  {
    if segs == [] then 0 else Total(segs[..|segs| - 1]) + segs[|segs| - 1].len
  }

  /** What the read is to return. */
  function Wanted(base: int, segs: seq<Seg>, extent: seq<Byte>): (r: seq<Byte>)
    requires AllOk(base, |extent|, segs)
    ensures |r| == Total(segs)
  {
    if segs == [] then []
    else
      var n := |segs| - 1;
      assert SegOk(base, |extent|, segs[n]);
      Wanted(base, segs[..n], extent) + extent[Off(base, segs[n])..Off(base, segs[n]) + segs[n].len]
  }

  lemma {:induction false} PrefixOk(base: int, size: nat, segs: seq<Seg>, i: nat)
    requires AllOk(base, size, segs) && i <= |segs|
    ensures AllOk(base, size, segs[..i])
  {
    forall k | 0 <= k < i
      ensures SegOk(base, size, segs[..i][k])
    {
      assert SegOk(base, size, segs[k]);
    }
  }

  lemma {:induction false} WantedPrefix(base: int, segs: seq<Seg>, extent: seq<Byte>, i: nat)
    requires AllOk(base, |extent|, segs) && i <= |segs| && AllOk(base, |extent|, segs[..i])
    ensures Total(segs[..i]) <= Total(segs)
    ensures Wanted(base, segs, extent)[..Total(segs[..i])] == Wanted(base, segs[..i], extent)
  {
    if i == |segs| {
      assert segs[..i] == segs;
    } else {
      var n := |segs| - 1;
      PrefixOk(base, |extent|, segs, n);
      assert segs[..n][..i] == segs[..i];
      WantedPrefix(base, segs[..n], extent, i);
    }
  }

  /** The bytes of segment i within all that is wanted. */
  lemma {:induction false} WantedAt(base: int, segs: seq<Seg>, extent: seq<Byte>, i: nat)
    requires AllOk(base, |extent|, segs) && i < |segs|
    ensures SegOk(base, |extent|, segs[i])
    ensures var p, s := Total(segs[..i]), segs[i];
            && p + s.len <= Total(segs) && Total(segs[..i + 1]) == p + s.len
            && Wanted(base, segs, extent)[p..p + s.len] == extent[Off(base, s)..Off(base, s) + s.len]
  {
    assert SegOk(base, |extent|, segs[i]);
    PrefixOk(base, |extent|, segs, i);
    PrefixOk(base, |extent|, segs, i + 1);
    assert segs[..i + 1][..i] == segs[..i];
    WantedPrefix(base, segs, extent, i + 1);
    BehindPrefix(Wanted(base, segs, extent), Wanted(base, segs[..i], extent),
        extent[Off(base, segs[i])..Off(base, segs[i]) + segs[i].len]);
  }

  lemma {:induction false} BehindPrefix(w: seq<Byte>, u: seq<Byte>, v: seq<Byte>)
    requires |u| + |v| <= |w| && w[..|u| + |v|] == u + v
    ensures w[|u|..|u| + |v|] == v
  {
    assert w[|u|..|u| + |v|] == w[..|u| + |v|][|u|..];
  }

  /** The next n bytes the read wants, from inside segment i. */
  lemma {:induction false} NextBytes(base: int, segs: seq<Seg>, extent: seq<Byte>, i: nat, done: nat, n: nat)
    requires AllOk(base, |extent|, segs) && i < |segs| && done + n <= segs[i].len && SegOk(base, |extent|, segs[i])
    ensures var p, o := Total(segs[..i]) + done, Off(base, segs[i]) + done;
            p + n <= Total(segs) && Wanted(base, segs, extent)[p..p + n] == extent[o..o + n]
    ensures Total(segs[..i + 1]) == Total(segs[..i]) + segs[i].len
  {
    WantedAt(base, segs, extent, i);
    SamePart(Wanted(base, segs, extent), Total(segs[..i]), extent, Off(base, segs[i]), segs[i].len, done, n);
  }

  lemma {:induction false} SamePart(w: seq<Byte>, p: int, e: seq<Byte>, o: int, len: int, c: int, n: int)
    requires 0 <= p && 0 <= o && 0 <= c && 0 <= n && c + n <= len && p + len <= |w| && o + len <= |e|
    requires w[p..p + len] == e[o..o + len]
    ensures w[p + c..p + c + n] == e[o + c..o + c + n]
  {
    SubSlice(w, p, len, c, n);
    SubSlice(e, o, len, c, n);
  }

  /** file_offset_from_bvec minus cb->start, computed in 64 bits and kept in 32: cb->start is base modulo
      2^64, and the difference is right all the same. */
  method OffsetInExtent(file: nat, cbStart: nat, ghost base: int) returns (offset: nat)
    requires -U64 < base < U64 && cbStart == base % U64 && file < U64 && 0 <= file - base < U32
    ensures offset == file - base
  {
    if base < 0 {
      assert base % U64 == base + U64;
    } else {
      assert base % U64 == base;
    }
    offset := (file - cbStart) % U64 % U32;
  }

  class Bio {
    const segs: seq<Seg>
    /** the pages, one after the other */
    const mem: array<Byte>
    /** bi_iter: the current bvec and the bytes of it done */
    var idx: nat
    var done: nat

    constructor (segs: seq<Seg>, mem: array<Byte>)
      ensures this.segs == segs && this.mem == mem && idx == 0 && done == 0
    {
      this.segs, this.mem, idx, done := segs, mem, 0, 0;
    }

    ghost predicate Valid(base: int, size: nat)
      reads this
    {
      && SegsOk(base, size, segs) && mem.Length == Total(segs)
      && (if idx == |segs| then done == 0 else idx < |segs| && done < segs[idx].len)
    }

    ghost function Pos(): nat
      requires idx <= |segs|
      reads this
    {
      Total(segs[..idx]) + done
    }

    /** All bytes of the extent before d that the read wants have been copied. */
    ghost predicate FilledTo(base: int, extent: seq<Byte>, d: nat)
      requires Valid(base, |extent|)
      reads this, mem
    {
      && Pos() <= mem.Length && mem[..Pos()] == Wanted(base, segs, extent)[..Pos()]
      && (idx < |segs| ==> d <= Off(base, segs[idx]) + done)
    }

    /** bio_advance inside the current bvec */
    method Advance(n: nat)
      requires idx < |segs| && done + n <= segs[idx].len
      modifies this`idx, this`done
      ensures if old(done) + n == segs[old(idx)].len then idx == old(idx) + 1 && done == 0
              else idx == old(idx) && done == old(done) + n
    {
      done := done + n;
      if done == segs[idx].len {
        idx, done := idx + 1, 0;
      }
    }

    /** btrfs_decompress_buf2page: buf is the part of the extent that begins at `decompressed`.  Bytes of the
        pages behind what is filled stay as they are. */
    method Buf2Page(buf: seq<Byte>, decompressed: nat, cbStart: nat, ghost base: int,
            ghost extent: seq<Byte>) returns (ret: int)
      requires Valid(base, |extent|) && FilledTo(base, extent, decompressed) && idx < |segs|
      requires decompressed + |buf| <= |extent| < U32 && buf == extent[decompressed..decompressed + |buf|]
      requires -U64 < base < U64 && cbStart == base % U64
      requires forall i :: 0 <= i < |segs| ==> segs[i].file + segs[i].len < U64
      modifies this`idx, this`done, mem
      ensures Valid(base, |extent|) && FilledTo(base, extent, decompressed + |buf|)
      ensures (ret == 0 || ret == 1) && (ret == 0 <==> idx == |segs|)
      ensures old(Pos()) <= Pos() && mem[Pos()..] == old(mem[..])[Pos()..]
    {
      var cur, end := decompressed, decompressed + |buf|;
      while cur < end
        invariant Valid(base, |extent|) && FilledTo(base, extent, cur) && idx < |segs| && decompressed <= cur <= end
        invariant old(Pos()) <= Pos() && mem[Pos()..] == old(mem[..])[Pos()..]
        decreases end - cur
      {
        var file, len := segs[idx].file + done, segs[idx].len - done;  // bio_iter_iovec
        assert SegOk(base, |extent|, segs[idx]);
        var bvecOffset := OffsetInExtent(file, cbStart, base);
        if end <= bvecOffset {
          return 1;
        }
        ghost var m, p := mem[..], Pos();
        var copyLen := CopyNext(buf, decompressed, cur, bvecOffset, len, base, extent);
        Behind(old(mem[..]), m, mem[..], p, Pos());
        cur := cur + copyLen;
        if idx == |segs| {
          return 0;
        }
      }
      return 1;
    }

    /** What buf has for the current bvec. */
    method CopyNext(buf: seq<Byte>, decompressed: nat, cur: nat, bvecOffset: nat, len: nat, ghost base: int,
            ghost extent: seq<Byte>) returns (copyLen: nat)
      requires Valid(base, |extent|) && FilledTo(base, extent, cur) && idx < |segs| && SegOk(base, |extent|, segs[idx])
      requires decompressed + |buf| <= |extent| && buf == extent[decompressed..decompressed + |buf|]
      requires decompressed <= cur < decompressed + |buf| && bvecOffset < decompressed + |buf|
      requires bvecOffset == Off(base, segs[idx]) + done && len == segs[idx].len - done
      modifies this`idx, this`done, mem
      ensures Valid(base, |extent|) && 0 < copyLen && cur + copyLen <= decompressed + |buf|
      ensures FilledTo(base, extent, cur + copyLen) && (idx == |segs| ==> FilledTo(base, extent, decompressed + |buf|))
      ensures old(Pos()) <= Pos() && mem[Pos()..] == old(mem[..])[Pos()..]
    {
      var end := decompressed + |buf|;
      var copyStart := if cur > bvecOffset then cur else bvecOffset;
      copyLen := (if bvecOffset + len < end then bvecOffset + len else end) - copyStart;
      assert copyLen > 0 && copyStart - decompressed < |buf|;  // the two ASSERTs
      SubSlice(extent, decompressed, |buf|, copyStart - decompressed, copyLen);
      CopyPiece(buf[copyStart - decompressed..copyStart - decompressed + copyLen], base, extent);
    }

    /** The memcpy into the current bvec and the advance behind it. */
    method CopyPiece(piece: seq<Byte>, ghost base: int, ghost extent: seq<Byte>)
      requires Valid(base, |extent|) && idx < |segs| && SegOk(base, |extent|, segs[idx]) && Pos() <= mem.Length
      requires mem[..Pos()] == Wanted(base, segs, extent)[..Pos()]
      requires 0 < |piece| <= segs[idx].len - done
      requires var o := Off(base, segs[idx]) + done; piece == extent[o..o + |piece|]
      modifies this`idx, this`done, mem
      ensures Valid(base, |extent|) && Pos() == old(Pos()) + |piece| <= mem.Length
      ensures mem[..Pos()] == Wanted(base, segs, extent)[..Pos()] && mem[Pos()..] == old(mem[..])[Pos()..]
      ensures idx < |segs| ==> old(Off(base, segs[idx])) + old(done) + |piece| <= Off(base, segs[idx]) + done
    {
      ghost var w, p := Wanted(base, segs, extent), Pos();
      NextBytes(base, segs, extent, idx, done, |piece|);
      var at := Position();
      WriteAt(mem, at, piece);
      Advance(|piece|);
      assert idx < |segs| ==> SegOk(base, |extent|, segs[idx]);
      Prefixes(mem[..], w, p, piece);
    }

    /** The place in the pages the iterator points to. */
    method Position() returns (at: nat)
      requires idx <= |segs|
      ensures at == Pos()
    {
      at := Total(segs[..idx]) + done;
    }
  }

  lemma {:induction false} SubSlice(s: seq<Byte>, a: int, len: int, c: int, n: int)
    requires 0 <= a && 0 <= c && 0 <= n && c + n <= len && a + len <= |s|
    ensures s[a..a + len][c..c + n] == s[a + c..a + c + n]
  {
    var x, y := s[a..a + len][c..c + n], s[a + c..a + c + n];
    forall k | 0 <= k < n
      ensures x[k] == y[k]
    {
      assert s[a..a + len][c + k] == s[a + c + k];
    }
  }

  lemma {:induction false} Behind(a: seq<Byte>, b: seq<Byte>, c: seq<Byte>, p: nat, q: nat)
    requires |a| == |b| == |c| && p <= q <= |a| && b[p..] == a[p..] && c[q..] == b[q..]
    ensures c[q..] == a[q..]
  {
    assert b[q..] == b[p..][q - p..] && a[q..] == a[p..][q - p..];
  }

  lemma {:induction false} Prefixes(m: seq<Byte>, w: seq<Byte>, p: nat, piece: seq<Byte>)
    requires p + |piece| <= |m| && p + |piece| <= |w| && m[..p] == w[..p]
    requires m[p..p + |piece|] == piece == w[p..p + |piece|]
    ensures m[..p + |piece|] == w[..p + |piece|]
  {
    assert m[..p + |piece|] == m[..p] + m[p..p + |piece|];
    assert w[..p + |piece|] == w[..p] + w[p..p + |piece|];
  }

  method WriteAt(a: array<Byte>, at: nat, s: seq<Byte>)
    requires at + |s| <= a.Length
    modifies a
    ensures a[..at] == old(a[..at]) && a[at..at + |s|] == s && a[at + |s|..] == old(a[at + |s|..])
  {
    ghost var d := a[..];
    var i := 0;
    while i < |s|
      invariant 0 <= i <= |s|
      invariant forall k :: at <= k < at + i ==> a[k] == s[k - at]
      invariant forall k :: 0 <= k < a.Length && !(at <= k < at + i) ==> a[k] == d[k]
    {
      a[at + i] := s[i];
      i := i + 1;
    }
  }

  function Concat(bufs: seq<seq<Byte>>): seq<Byte>
  {
    if bufs == [] then [] else Concat(bufs[..|bufs| - 1]) + bufs[|bufs| - 1]
  }

  lemma {:induction false} ConcatAt(bufs: seq<seq<Byte>>, i: nat)
    requires i < |bufs|
    ensures var d := |Concat(bufs[..i])|;
            && |Concat(bufs[..i + 1])| == d + |bufs[i]| <= |Concat(bufs)|
            && Concat(bufs)[d..d + |bufs[i]|] == bufs[i]
  {
    assert bufs[..i + 1][..i] == bufs[..i];
    ConcatPrefix(bufs, i + 1);
    BehindPrefix(Concat(bufs), Concat(bufs[..i]), bufs[i]);
  }

  lemma {:induction false} ConcatPrefix(bufs: seq<seq<Byte>>, i: nat)
    requires i <= |bufs|
    ensures |Concat(bufs[..i])| <= |Concat(bufs)| && Concat(bufs)[..|Concat(bufs[..i])|] == Concat(bufs[..i])
  {
    if i == |bufs| {
      assert bufs[..i] == bufs;
    } else {
      var n := |bufs| - 1;
      assert bufs[..n][..i] == bufs[..i];
      ConcatPrefix(bufs[..n], i);
    }
  }

  /** The callers' loop: one call per decompressed buffer until the read has all it wants.  However the
      extent is cut into buffers, the pages end up with the bytes they want, and the last call says so. */
  method ReadExtent(bio: Bio, bufs: seq<seq<Byte>>, cbStart: nat, ghost base: int) returns (ret: int)
    requires bio.idx == 0 && bio.done == 0 && bio.segs != [] && bio.mem.Length == Total(bio.segs)
    requires SegsOk(base, |Concat(bufs)|, bio.segs) && |Concat(bufs)| < U32
    requires -U64 < base < U64 && cbStart == base % U64
    requires forall i :: 0 <= i < |bio.segs| ==> bio.segs[i].file + bio.segs[i].len < U64
    modifies bio, bio.mem
    ensures ret == 0 && bio.mem[..] == Wanted(base, bio.segs, Concat(bufs))
  {
    ghost var extent := Concat(bufs);
    var i, decompressed := 0, 0;
    assert SegOk(base, |extent|, bio.segs[0]);
    assert bio.segs[..0] == [] && bufs[..0] == [];
    ret := 1;
    while i < |bufs| && ret != 0
      invariant 0 <= i <= |bufs| && decompressed == |Concat(bufs[..i])|
      invariant bio.Valid(base, |extent|) && bio.FilledTo(base, extent, decompressed)
      invariant (ret == 0 || ret == 1) && (ret == 0 <==> bio.idx == |bio.segs|)
    {
      ConcatAt(bufs, i);
      ret := bio.Buf2Page(bufs[i], decompressed, cbStart, base, extent);
      decompressed := decompressed + |bufs[i]|;
      i := i + 1;
    }
    assert bufs[..|bufs|] == bufs;
    AllCopied(bio, base, extent, decompressed);
  }

  /** A read whose next byte would lie behind the extent has no next byte. */
  lemma {:induction false} AllCopied(bio: Bio, base: int, extent: seq<Byte>, d: nat)
    requires bio.Valid(base, |extent|) && bio.FilledTo(base, extent, d) && (bio.idx < |bio.segs| ==> d == |extent|)
    ensures bio.idx == |bio.segs| && bio.mem[..] == Wanted(base, bio.segs, extent)
  {
    assert bio.idx < |bio.segs| ==> SegOk(base, |extent|, bio.segs[bio.idx]);
    assert bio.segs[..|bio.segs|] == bio.segs;
    assert bio.mem[..bio.mem.Length] == bio.mem[..];
  }
}
