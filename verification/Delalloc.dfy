/** Metadata reservations of one inode for data not yet written: how much the inode's block reserve asks
    for, and how reservations and releases keep it covered. */
module Delalloc {
  import BlockRsv
  import opened Common
  import opened Errno

  const MAX_LEVEL := 8

  datatype Fs = Fs(nodesize: nat, sectorsize: nat, maxExtentSize: nat, csumsPerLeaf: nat)
  {
    predicate Valid()
    {
      nodesize > 0 && sectorsize > 0 && maxExtentSize > 0 && csumsPerLeaf > 0
    }
  }

  /** DIV_ROUND_UP */
  function Ceil(x: nat, m: nat): nat
    requires m > 0
  {
    (x + m - 1) / m
  }

  /** ALIGN */
  function Align(x: nat, m: nat): nat
    requires m > 0
  {
    Ceil(x, m) * m
  }

  /** count_max_extents */
  function Extents(fs: Fs, size: nat): nat
    requires fs.Valid()
  {
    Ceil(size, fs.maxExtentSize)
  }

  /** btrfs_csum_bytes_to_leaves */
  function Leaves(fs: Fs, csumBytes: nat): nat
    requires fs.Valid()
  {
    Ceil(csumBytes / fs.sectorsize, fs.csumsPerLeaf)
  }

  /** btrfs_calc_insert_metadata_size and btrfs_calc_metadata_size of one item */
  function InsertSize(fs: Fs, items: nat): nat
  {
    fs.nodesize * MAX_LEVEL * 2 * items
  }

  function UpdateSize(fs: Fs): nat
  {
    fs.nodesize * MAX_LEVEL
  }

  // ---------------------------------------------------------------------------------------------
  // Rounding

  /** Ceil is the one number of pieces of size m that covers x and no more. */
  lemma {:induction false} CeilCovers(x: nat, m: nat)
    requires m > 0
    ensures x <= Ceil(x, m) * m < x + m
  {
  }

  lemma {:induction false} CeilUnique(x: nat, m: nat, k: nat)
    requires m > 0 && x <= k * m < x + m
    ensures Ceil(x, m) == k
  {
    CeilCovers(x, m);
    var c := Ceil(x, m);
    assert (c + 1) * m == c * m + m && (k + 1) * m == k * m + m;
    if c < k {
      MulLe(c + 1, k, m);
    } else if k < c {
      MulLe(k + 1, c, m);
    }
  }

  /** Rounding up two lengths covers the rounded-up sum. */
  lemma {:induction false} CeilSubadditive(a: nat, b: nat, m: nat)
    requires m > 0
    ensures Ceil(a + b, m) <= Ceil(a, m) + Ceil(b, m)
  {
    CeilCovers(a, m);
    CeilCovers(b, m);
    CeilCovers(a + b, m);
    var c, k := Ceil(a + b, m), Ceil(a, m) + Ceil(b, m);
    assert k * m == Ceil(a, m) * m + Ceil(b, m) * m;
    assert (k + 1) * m == k * m + m;
    if k < c {
      MulLe(k + 1, c, m);
    }
  }

  lemma {:induction false} CeilMonotone(a: nat, b: nat, m: nat)
    requires m > 0 && a <= b
    ensures Ceil(a, m) <= Ceil(b, m)
  {
    CeilCovers(a, m);
    CeilCovers(b, m);
    var c, k := Ceil(a, m), Ceil(b, m);
    assert (k + 1) * m == k * m + m;
    if k < c {
      MulLe(k + 1, c, m);
    }
  }

  /** Aligning a length first does not change its number of extents, if an extent is a whole number of
      sectors. */
  lemma {:induction false} AlignedExtents(fs: Fs, x: nat, q: nat)
    requires fs.Valid() && fs.maxExtentSize == q * fs.sectorsize
    ensures Extents(fs, Align(x, fs.sectorsize)) == Extents(fs, x)
  {
    var s, m, a := fs.sectorsize, fs.maxExtentSize, Align(x, fs.sectorsize);
    CeilCovers(x, s);
    CeilCovers(x, m);
    var k := Extents(fs, x);
    // k * m is a multiple of the sector size that is at least x, so it is at least a
    assert k * m == (k * q) * s && (k * q + 1) * s == k * m + s;
    if a > k * m {
      MultipleGap(Ceil(x, s), k * q, s);
    }
    CeilUnique(a, m, k);
  }

  lemma {:induction false} MultipleGap(c: nat, d: nat, s: nat)
    requires s > 0 && c * s > d * s
    ensures c * s >= (d + 1) * s
  {
    if c <= d {
      MulLe(c, d, s);
    } else {
      MulLe(d + 1, c, s);
    }
  }

  ghost predicate AlignmentIsHarmless(fs: Fs)
    requires fs.Valid()
  {
    forall x: nat {:trigger Align(x, fs.sectorsize)} :: Extents(fs, Align(x, fs.sectorsize)) == Extents(fs, x)
  }

  /** It holds for every length exactly when the extent size is a multiple of the sector size; otherwise a
      write of exactly one extent already fails. */
  lemma {:induction false} AlignmentExactly(fs: Fs)
    requires fs.Valid()
    ensures AlignmentIsHarmless(fs) <==> fs.maxExtentSize % fs.sectorsize == 0
  {
    var s, m := fs.sectorsize, fs.maxExtentSize;
    if m % s == 0 {
      assert m == (m / s) * s;
      forall x: nat
        ensures Extents(fs, Align(x, s)) == Extents(fs, x)
      {
        AlignedExtents(fs, x, m / s);
      }
    } else {
      CeilCovers(m, s);
      var c := Ceil(m, s);
      assert Align(m, s) > m by {
        if c * s == m {
          NoRemainder(m, s, c);
        }
      }
      CeilUnique(m, m, 1);
      CeilCovers(Align(m, s), m);
      assert Extents(fs, Align(m, s)) != 1;
    }
  }

  lemma {:induction false} NoRemainder(m: nat, s: nat, c: nat)
    requires s > 0 && m == c * s
    ensures m % s == 0
  {
    var q, r := m / s, m % s;
    assert m == q * s + r;
    assert (q + 1) * s == q * s + s;
    if c <= q {
      MulLe(c, q, s);
    } else {
      MulLe(q + 1, c, s);
    }
  }

  /** Whole sectors: their number adds up. */
  lemma {:induction false} SectorsAdd(a: nat, b: nat, s: nat)
    requires s > 0 && a % s == 0 && b % s == 0
    ensures (a + b) % s == 0 && (a + b) / s == a / s + b / s
    ensures b <= a ==> (a - b) % s == 0 && (a - b) / s == a / s - b / s
  {
    var x, y := a / s, b / s;
    assert a == x * s && b == y * s;
    assert a + b == (x + y) * s && a - b == (x - y) * s;
    Exact(a + b, s, x + y);
    if b <= a {
      Exact(a - b, s, x - y);
    }
  }

  lemma {:induction false} Exact(m: nat, s: nat, c: int)
    requires s > 0 && m == c * s
    ensures m / s == c && m % s == 0
  {
    var q := m / s;
    assert (q + 1) * s == q * s + s && (c + 1) * s == c * s + s;
    if q < c {
      MulLe(q + 1, c, s);
    } else if c < q {
      MulLe(c + 1, q, s);
    }
  }

  // ---------------------------------------------------------------------------------------------
  // The inode

  /** What btrfs_calculate_inode_block_rsv_size asks for. */
  function Needed(fs: Fs, datasum: bool, outstanding: nat, csumBytes: nat): nat
    requires fs.Valid()
  {
    (if outstanding > 0 then InsertSize(fs, outstanding) + UpdateSize(fs) else 0)
    + (if datasum then InsertSize(fs, Leaves(fs, csumBytes)) else 0)
  }

  /** calc_inode_reservations for lengths already aligned */
  function MetaReserve(fs: Fs, datasum: bool, numBytes: nat, diskNumBytes: nat): nat
    requires fs.Valid()
  {
    InsertSize(fs, Extents(fs, numBytes) + if datasum then Leaves(fs, diskNumBytes) else 0) + UpdateSize(fs)
  }

  lemma {:induction false} InsertSizeAdd(fs: Fs, a: nat, b: nat)
    ensures InsertSize(fs, a + b) == InsertSize(fs, a) + InsertSize(fs, b)
    ensures a <= b ==> InsertSize(fs, a) <= InsertSize(fs, b)
  {
    var i := fs.nodesize * MAX_LEVEL * 2;
    assert i * (a + b) == i * a + i * b;
    if a <= b {
      MulLe(a, b, i);
    }
  }

  /** What a reservation brings is at least what it adds to the need. */
  lemma {:induction false} ReservationSuffices(fs: Fs, datasum: bool, outstanding: nat, csumBytes: nat, n: nat, d: nat)
    requires fs.Valid() && csumBytes % fs.sectorsize == 0 && d % fs.sectorsize == 0
    ensures Needed(fs, datasum, outstanding + Extents(fs, n), if datasum then csumBytes + d else csumBytes)
            <= Needed(fs, datasum, outstanding, csumBytes) + MetaReserve(fs, datasum, n, d)
  {
    var k := Extents(fs, n);
    InsertSizeAdd(fs, outstanding, k);
    if datasum {
      var s, c := fs.sectorsize, fs.csumsPerLeaf;
      SectorsAdd(csumBytes, d, s);
      CeilSubadditive(csumBytes / s, d / s, c);
      InsertSizeAdd(fs, Leaves(fs, csumBytes), Leaves(fs, d));
      InsertSizeAdd(fs, Leaves(fs, csumBytes + d), Leaves(fs, csumBytes) + Leaves(fs, d));
      InsertSizeAdd(fs, k, Leaves(fs, d));
    }
  }

  /** Reserved lengths not yet released, and the numbers derived from them. */
  function ExtentsOf(fs: Fs, pending: seq<nat>): nat
    requires fs.Valid()
  {
    if pending == [] then 0 else ExtentsOf(fs, pending[..|pending| - 1]) + Extents(fs, pending[|pending| - 1])
  }

  function AlignedOf(fs: Fs, pending: seq<nat>): nat
    requires fs.Valid()
  {
    if pending == [] then 0 else AlignedOf(fs, pending[..|pending| - 1]) + Align(pending[|pending| - 1], fs.sectorsize)
  }

  lemma {:induction false} ExtentsWithout(fs: Fs, a: seq<nat>, i: nat)
    requires fs.Valid() && i < |a|
    ensures ExtentsOf(fs, a) == ExtentsOf(fs, Without(a, i)) + Extents(fs, a[i])
  {
    WithoutLast(a, i);
    if i < |a| - 1 {
      ExtentsWithout(fs, a[..|a| - 1], i);
    }
  }

  lemma {:induction false} AlignedWithout(fs: Fs, a: seq<nat>, i: nat)
    requires fs.Valid() && i < |a|
    ensures AlignedOf(fs, a) == AlignedOf(fs, Without(a, i)) + Align(a[i], fs.sectorsize)
  {
    WithoutLast(a, i);
    if i < |a| - 1 {
      AlignedWithout(fs, a[..|a| - 1], i);
    }
  }

  lemma {:induction false} ExtentsReplace(fs: Fs, a: seq<nat>, i: nat, x: nat)
    requires fs.Valid() && i < |a|
    ensures ExtentsOf(fs, a[i := x]) == ExtentsOf(fs, a) - Extents(fs, a[i]) + Extents(fs, x)
  {
    ExtentsWithout(fs, a, i);
    ExtentsWithout(fs, a[i := x], i);
    assert Without(a[i := x], i) == Without(a, i);
  }

  lemma {:induction false} AlignedIsSectors(fs: Fs, a: seq<nat>)
    requires fs.Valid()
    ensures AlignedOf(fs, a) % fs.sectorsize == 0
  {
    if a == [] {
      Exact(0, fs.sectorsize, 0);
    } else {
      var n := |a| - 1;
      AlignedIsSectors(fs, a[..n]);
      AlignIsSectors(fs, a[n]);
      SectorsAdd(AlignedOf(fs, a[..n]), Align(a[n], fs.sectorsize), fs.sectorsize);
    }
  }

  lemma {:induction false} AlignIsSectors(fs: Fs, x: nat)
    requires fs.Valid()
    ensures Align(x, fs.sectorsize) % fs.sectorsize == 0
  {
    Exact(Align(x, fs.sectorsize), fs.sectorsize, Ceil(x, fs.sectorsize));
  }

  class Inode {
    const fs: Fs
    /** not BTRFS_INODE_NODATASUM */
    const datasum: bool
    var outstandingExtents: nat
    var csumBytes: nat
    var rsv: BlockRsv.Rsv
    /** the lengths of reservations whose extents, and whose checksum bytes, have not been released */
    ghost var extents: seq<nat>
    ghost var metas: seq<nat>

    /** Extents are whole sectors, the counters are those of the reservations outstanding, the reserve's size
        is what they need, and the reserve holds at least its size. */
    ghost predicate Valid()
      reads this
    {
      && fs.Valid() && fs.maxExtentSize % fs.sectorsize == 0
      && outstandingExtents == ExtentsOf(fs, extents)
      && csumBytes == (if datasum then AlignedOf(fs, metas) else 0)
      && rsv.size == Needed(fs, datasum, outstandingExtents, csumBytes)
      && rsv.qgroupSize == outstandingExtents * fs.nodesize
      && rsv.size <= rsv.reserved && rsv.qgroupSize <= rsv.qgroupReserved
      && (extents == [] && metas == [] ==> rsv.reserved == rsv.size && rsv.qgroupReserved == rsv.qgroupSize)
    }

    constructor (fs: Fs, datasum: bool, space: nat)
      requires fs.Valid() && fs.maxExtentSize % fs.sectorsize == 0
      ensures Valid() && extents == [] && metas == [] && this.fs == fs && this.datasum == datasum
    {
      this.fs, this.datasum, outstandingExtents, csumBytes, extents, metas := fs, datasum, 0, 0, [], [];
      rsv := BlockRsv.Rsv(0, 0, space, false, false, BlockRsv.Delalloc, 0, 0);
      new;
      CeilUnique(0, fs.csumsPerLeaf, 0);
      Exact(0, fs.sectorsize, 0);
    }

    /** btrfs_calculate_inode_block_rsv_size */
    method CalculateSize()
      requires fs.Valid()
      modifies this`rsv
      ensures rsv == old(rsv).(size := Needed(fs, datasum, outstandingExtents, csumBytes),
              qgroupSize := outstandingExtents * fs.nodesize)
    {
      var reserveSize := 0;
      if outstandingExtents > 0 {
        reserveSize := InsertSize(fs, outstandingExtents);
        reserveSize := reserveSize + UpdateSize(fs);
      }
      if datasum {
        reserveSize := reserveSize + InsertSize(fs, Leaves(fs, csumBytes));
      }
      rsv := rsv.(size := reserveSize, qgroupSize := outstandingExtents * fs.nodesize);
    }

    /** btrfs_inode_rsv_release: a release of zero bytes lets go of what is held beyond the size. */
    method ReleaseExcess()
      requires rsv.size <= rsv.reserved && rsv.qgroupSize <= rsv.qgroupReserved
      modifies this`rsv
      ensures rsv == old(rsv).(reserved := old(rsv).size, full := true, qgroupReserved := old(rsv).qgroupSize)
    {
      rsv := BlockRsv.Shrunk(rsv, 0, true);
    }

    /** btrfs_delalloc_reserve_metadata; ok says whether quota and space could be reserved. */
    method ReserveMetadata(numBytes: nat, diskNumBytes: nat, ok: bool) returns (ret: int)
      requires Valid()
      modifies this
      ensures Valid() && (ret == 0 <==> ok)
      ensures ret != 0 ==> extents == old(extents) && metas == old(metas) && rsv == old(rsv)
      ensures ret == 0 ==> extents == old(extents) + [numBytes] && metas == old(metas) + [diskNumBytes]
    {
      var n, d := Align(numBytes, fs.sectorsize), Align(diskNumBytes, fs.sectorsize);
      var meta, qgroup := MetaReserve(fs, datasum, n, d), Extents(fs, n) * fs.nodesize;
      if !ok {
        return ENOSPC;
      }
      CountersKeepUp(numBytes, diskNumBytes);
      outstandingExtents := outstandingExtents + Extents(fs, n);
      if datasum {
        csumBytes := csumBytes + d;
      }
      CalculateSize();
      rsv := BlockRsv.Added(rsv, meta, false);
      rsv := rsv.(qgroupReserved := rsv.qgroupReserved + qgroup);
      extents, metas := extents + [numBytes], metas + [diskNumBytes];
      return 0;
    }

    /** What one more reservation does to the counters and to the need. */
    lemma {:induction false} CountersKeepUp(numBytes: nat, diskNumBytes: nat)
      requires Valid()
      ensures var n, d := Align(numBytes, fs.sectorsize), Align(diskNumBytes, fs.sectorsize);
              && ExtentsOf(fs, extents + [numBytes]) == outstandingExtents + Extents(fs, n)
              && AlignedOf(fs, metas + [diskNumBytes]) == AlignedOf(fs, metas) + d
              && Needed(fs, datasum, outstandingExtents + Extents(fs, n), if datasum then csumBytes + d else csumBytes)
                 <= rsv.reserved + MetaReserve(fs, datasum, n, d)
              && (outstandingExtents + Extents(fs, n)) * fs.nodesize <= rsv.qgroupReserved
                  + Extents(fs, n) * fs.nodesize
    {
      var n, d := Align(numBytes, fs.sectorsize), Align(diskNumBytes, fs.sectorsize);
      AlignmentExactly(fs);
      assert Extents(fs, n) == Extents(fs, numBytes);
      assert (extents + [numBytes])[..|extents|] == extents && (metas + [diskNumBytes])[..|metas|] == metas;
      AlignedIsSectors(fs, metas);
      AlignIsSectors(fs, diskNumBytes);
      Exact(0, fs.sectorsize, 0);
      ReservationSuffices(fs, datasum, outstandingExtents, csumBytes, n, d);
      assert (outstandingExtents + Extents(fs, n)) * fs.nodesize
          == outstandingExtents * fs.nodesize + Extents(fs, n) * fs.nodesize;
    }

    /** btrfs_delalloc_release_metadata for the i-th of the reservations whose bytes are outstanding. */
    method ReleaseMetadata(numBytes: nat, ghost i: nat)
      requires Valid() && i < |metas| && metas[i] == numBytes
      modifies this
      ensures Valid() && metas == Without(old(metas), i) && extents == old(extents)
      ensures outstandingExtents == old(outstandingExtents)
      ensures rsv.reserved == rsv.size && rsv.qgroupReserved == rsv.qgroupSize
    {
      var n := Align(numBytes, fs.sectorsize);
      AlignedWithout(fs, metas, i);
      NeededMonotone(fs, datasum, outstandingExtents, outstandingExtents, AlignedOf(fs, Without(metas, i)),
          AlignedOf(fs, metas));
      if datasum {
        csumBytes := csumBytes - n;
      }
      CalculateSize();
      ReleaseExcess();
      metas := Without(metas, i);
    }

    /** btrfs_delalloc_release_extents; the length is not aligned here. */
    method ReleaseExtents(numBytes: nat, ghost i: nat)
      requires Valid() && i < |extents| && extents[i] == numBytes
      modifies this
      ensures Valid() && extents == Without(old(extents), i) && metas == old(metas) && csumBytes == old(csumBytes)
      ensures rsv.reserved == rsv.size && rsv.qgroupReserved == rsv.qgroupSize
    {
      var n := Extents(fs, numBytes);
      ExtentsWithout(fs, extents, i);
      FewerExtents(outstandingExtents - n);
      outstandingExtents := outstandingExtents - n;
      CalculateSize();
      ReleaseExcess();
      extents := Without(extents, i);
    }

    /** btrfs_delalloc_shrink_extents: the i-th reservation becomes shorter. */
    method ShrinkExtents(reservedLen: nat, newLen: nat, ghost i: nat)
      requires Valid() && i < |extents| && extents[i] == reservedLen && newLen <= reservedLen
      modifies this
      ensures Valid() && extents == old(extents)[i := newLen] && metas == old(metas) && csumBytes == old(csumBytes)
    {
      var before, after := Extents(fs, reservedLen), Extents(fs, newLen);
      ExtentsReplace(fs, extents, i, newLen);
      extents := extents[i := newLen];
      if after == before {
        return;
      }
      CeilMonotone(newLen, reservedLen, fs.maxExtentSize);
      FewerExtents(outstandingExtents + after - before);
      outstandingExtents := outstandingExtents + after - before;
      CalculateSize();
      ReleaseExcess();
    }

    lemma {:induction false} FewerExtents(k: nat)
      requires fs.Valid() && k <= outstandingExtents
      ensures Needed(fs, datasum, k, csumBytes) <= Needed(fs, datasum, outstandingExtents, csumBytes)
      ensures k * fs.nodesize <= outstandingExtents * fs.nodesize
    {
      NeededMonotone(fs, datasum, k, outstandingExtents, csumBytes, csumBytes);
      MulLe(k, outstandingExtents, fs.nodesize);
    }

    /** Whatever the order of reservations, releases and shrinks: once every reservation has been released,
        nothing is left, neither counted nor reserved. */
    lemma {:induction false} AllReleased()
      requires Valid() && extents == [] && metas == []
      ensures outstandingExtents == 0 && csumBytes == 0
      ensures rsv.size == 0 && rsv.reserved == 0 && rsv.qgroupSize == 0 && rsv.qgroupReserved == 0
    {
      Exact(0, fs.sectorsize, 0);
      CeilUnique(0, fs.csumsPerLeaf, 0);
    }
  }

  lemma {:induction false} NeededMonotone(fs: Fs, datasum: bool, a: nat, b: nat, x: nat, y: nat)
    requires fs.Valid() && a <= b && x <= y
    ensures Needed(fs, datasum, a, x) <= Needed(fs, datasum, b, y)
  {
    InsertSizeAdd(fs, a, b);
    DivMonotone(x, y, fs.sectorsize);
    CeilMonotone(x / fs.sectorsize, y / fs.sectorsize, fs.csumsPerLeaf);
    InsertSizeAdd(fs, Leaves(fs, x), Leaves(fs, y));
  }

  lemma {:induction false} DivMonotone(x: nat, y: nat, s: nat)
    requires s > 0 && x <= y
    ensures x / s <= y / s
  {
    var p, q := x / s, y / s;
    assert (q + 1) * s == q * s + s;
    if q < p {
      MulLe(q + 1, p, s);
    }
  }
}
