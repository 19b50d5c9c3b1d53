/** The bytes of a leaf.  Item headers grow from the front, item data from the back; every operation moves
    bytes and corrects offsets, and is proved to do to the sequence of items what its name says. */
module LeafLayout {
  import opened Ctree
  import opened Errno

  /** struct btrfs_item: offset counts from the end of the block header. */
  datatype Header = Header(key: Key, offset: int, size: nat)

  /** BTRFS_EXTENT_DATA_KEY, BTRFS_FILE_EXTENT_INLINE, BTRFS_FILE_EXTENT_INLINE_DATA_START and the place
      of the type byte in struct btrfs_file_extent_item */
  const EXTENT_DATA_KEY := 108
  const FILE_EXTENT_INLINE: Byte := 0
  const INLINE_DATA_START := 21
  const TYPE_OFFSET := 20

  // ---------------------------------------------------------------------------------------------
  // Stretches of headers whose data areas follow each other downwards from `top`

  /** Where the data of item i must end: btrfs_item_offset of the item before it. */
  function Top(top: int, hs: seq<Header>, i: nat): int
    requires i <= |hs|
  {
    if i == 0 then top else hs[i - 1].offset
  }

  function End(top: int, hs: seq<Header>): int
  {
    Top(top, hs, |hs|)
  }

  predicate LaidAt(top: int, hs: seq<Header>, i: nat)
    requires i < |hs|
  {
    hs[i].offset >= 0 && hs[i].offset + hs[i].size == Top(top, hs, i)
  }

  predicate Laid(top: int, hs: seq<Header>)
  {
    top >= 0 && forall i: nat {:trigger LaidAt(top, hs, i)} :: i < |hs| ==> LaidAt(top, hs, i)
  }

  predicate InRange(size: nat, hs: seq<Header>)
  {
    forall i {:trigger Inside(size, hs[i])} :: 0 <= i < |hs| ==> Inside(size, hs[i])
  }

  predicate Inside(size: nat, h: Header)
  {
    0 <= h.offset && h.offset + h.size <= size
  }

  lemma {:induction false} TopDescends(top: int, hs: seq<Header>, i: nat, j: nat)
    requires Laid(top, hs) && i <= j <= |hs|
    ensures 0 <= Top(top, hs, j) <= Top(top, hs, i) <= top
    decreases j
  {
    if i < j {
      TopDescends(top, hs, i, j - 1);
      assert LaidAt(top, hs, j - 1);
    } else if i > 0 {
      TopDescends(top, hs, i - 1, i - 1);
      assert LaidAt(top, hs, i - 1);
    }
  }

  lemma {:induction false} LaidInRange(top: int, hs: seq<Header>, size: nat)
    requires Laid(top, hs) && top <= size
    ensures InRange(size, hs) && 0 <= End(top, hs) <= top
  {
    forall i | 0 <= i < |hs|
      ensures 0 <= hs[i].offset && hs[i].offset + hs[i].size <= size
    {
      TopDescends(top, hs, i, i);
      assert LaidAt(top, hs, i);
    }
    TopDescends(top, hs, |hs|, |hs|);
  }

  function ItemOf(h: Header, d: seq<Byte>): Item
    requires Inside(|d|, h)
  {
    Item(h.key, d[h.offset..h.offset + h.size])
  }

  /** The items the headers describe. */
  function Abstract(hs: seq<Header>, d: seq<Byte>): (items: seq<Item>)
    requires InRange(|d|, hs)
    ensures |items| == |hs|
    ensures forall i {:trigger items[i]} :: 0 <= i < |hs| ==> Inside(|d|, hs[i]) && items[i] == ItemOf(hs[i], d)
  {
    seq(|hs|, i requires 0 <= i < |hs| => assert Inside(|d|, hs[i]); ItemOf(hs[i], d))
  }

  function Rebase(hs: seq<Header>, delta: int): (r: seq<Header>)
    ensures |r| == |hs|
    ensures forall i {:trigger r[i]} :: 0 <= i < |hs| ==> r[i] == hs[i].(offset := hs[i].offset + delta)
  {
    seq(|hs|, i requires 0 <= i < |hs| => hs[i].(offset := hs[i].offset + delta))
  }

  /** A stretch cut in two. */
  lemma {:induction false} Cut(top: int, hs: seq<Header>, k: nat, d: seq<Byte>)
    requires Laid(top, hs) && k <= |hs| && top <= |d|
    ensures var mid := Top(top, hs, k);
            && Laid(top, hs[..k]) && End(top, hs[..k]) == mid
            && Laid(mid, hs[k..]) && End(mid, hs[k..]) == End(top, hs)
            && 0 <= End(top, hs) <= mid <= top
    ensures InRange(|d|, hs) && InRange(|d|, hs[..k]) && InRange(|d|, hs[k..])
    ensures Abstract(hs[..k], d) == Abstract(hs, d)[..k] && Abstract(hs[k..], d) == Abstract(hs, d)[k..]
  {
    var a, b, mid := hs[..k], hs[k..], Top(top, hs, k);
    TopDescends(top, hs, k, |hs|);
    forall i: nat | i < k
      ensures LaidAt(top, a, i)
    {
      assert LaidAt(top, hs, i);
    }
    forall i: nat | i < |b|
      ensures LaidAt(mid, b, i)
    {
      assert LaidAt(top, hs, k + i);
    }
    LaidInRange(top, hs, |d|);
    LaidInRange(top, a, |d|);
    LaidInRange(mid, b, |d|);
  }

  /** Two stretches, the second below the first, are one. */
  lemma {:induction false} Join(top: int, a: seq<Header>, b: seq<Header>, d: seq<Byte>)
    requires Laid(top, a) && Laid(End(top, a), b) && top <= |d|
    ensures Laid(top, a + b) && End(top, a + b) == End(End(top, a), b)
    ensures InRange(|d|, a) && InRange(|d|, b) && InRange(|d|, a + b)
    ensures Abstract(a + b, d) == Abstract(a, d) + Abstract(b, d)
  {
    var w := a + b;
    forall i: nat | i < |w|
      ensures LaidAt(top, w, i)
    {
      if i < |a| {
        assert LaidAt(top, a, i);
      } else {
        assert LaidAt(End(top, a), b, i - |a|);
      }
    }
    LaidInRange(top, a, |d|);
    LaidInRange(End(top, a), b, |d|);
    LaidInRange(top, w, |d|);
  }

  /** A stretch whose bytes are found elsewhere, in the same buffer or another one. */
  predicate Carried(top: int, hs: seq<Header>, d: seq<Byte>, d': seq<Byte>, delta: int)
  {
    && 0 <= End(top, hs) <= top <= |d| && 0 <= End(top, hs) + delta && top + delta <= |d'|
    && d'[End(top, hs) + delta..top + delta] == d[End(top, hs)..top]
  }

  lemma {:induction false} Carry(top: int, hs: seq<Header>, d: seq<Byte>, d': seq<Byte>, delta: int)
    requires Laid(top, hs) && Carried(top, hs, d, d', delta)
    ensures Laid(top + delta, Rebase(hs, delta)) && End(top + delta, Rebase(hs, delta)) == End(top, hs) + delta
    ensures InRange(|d|, hs) && InRange(|d'|, Rebase(hs, delta))
    ensures Abstract(Rebase(hs, delta), d') == Abstract(hs, d)
  {
    var r, end, top' := Rebase(hs, delta), End(top, hs), top + delta;
    forall i: nat | i < |r|
      ensures LaidAt(top', r, i)
    {
      assert LaidAt(top, hs, i);
      TopDescends(top, hs, i + 1, |hs|);
    }
    LaidInRange(top, hs, |d|);
    LaidInRange(top', r, |d'|);
    var was, now := Abstract(hs, d), Abstract(r, d');
    forall i | 0 <= i < |r|
      ensures now[i] == was[i]
    {
      assert LaidAt(top, hs, i);
      TopDescends(top, hs, i, |hs|);
      TopDescends(top, hs, i + 1, |hs|);
      SliceCarried(d, d', end, top, delta, hs[i].offset, hs[i].size);
    }
  }

  lemma {:induction false} SliceCarried(d: seq<Byte>, d': seq<Byte>, lo: int, hi: int, delta: int, o: int, n: int)
    requires 0 <= lo <= hi <= |d| && 0 <= lo + delta && hi + delta <= |d'| && d'[lo + delta..hi + delta] == d[lo..hi]
    requires lo <= o && 0 <= n && o + n <= hi
    ensures d'[o + delta..o + delta + n] == d[o..o + n]
  {
    var x, y := d'[o + delta..o + delta + n], d[o..o + n];
    forall k | 0 <= k < n
      ensures x[k] == y[k]
    {
      assert d'[lo + delta..hi + delta][o - lo + k] == d[lo..hi][o - lo + k];
    }
  }

  /** The same at the same place. */
  lemma {:induction false} Stay(top: int, hs: seq<Header>, d: seq<Byte>, d': seq<Byte>)
    requires Laid(top, hs) && Carried(top, hs, d, d', 0)
    ensures InRange(|d|, hs) && InRange(|d'|, hs) && Abstract(hs, d') == Abstract(hs, d)
  {
    Carry(top, hs, d, d', 0);
    assert Rebase(hs, 0) == hs;
  }

  /** What n headers take. */
  function HeaderBytes(g: Geometry, n: nat): nat
  {
    if n == 0 then 0 else HeaderBytes(g, n - 1) + g.itemSize
  }

  lemma {:induction false} HeaderBytesAdd(g: Geometry, a: nat, b: nat)
    ensures HeaderBytes(g, a + b) == HeaderBytes(g, a) + HeaderBytes(g, b)
  {
    if b > 0 {
      HeaderBytesAdd(g, a, b - 1);
    }
  }

  lemma {:induction false} HeaderBytesLess(g: Geometry, a: nat, b: nat)
    requires a <= b
    ensures HeaderBytes(g, a) <= HeaderBytes(g, b)
  {
    HeaderBytesAdd(g, a, b - a);
  }

  lemma {:induction false} HeaderBytesIsProduct(g: Geometry, n: nat)
    ensures HeaderBytes(g, n) == g.itemSize * n
  {
    if n > 0 {
      HeaderBytesIsProduct(g, n - 1);
      assert g.itemSize * n == g.itemSize * (n - 1) + g.itemSize;
    }
  }

  /** leaf_space_used from the headers: what the items take, headers and data. */
  lemma {:induction false} UsedIsLayout(g: Geometry, top: int, hs: seq<Header>, d: seq<Byte>)
    requires Laid(top, hs) && top <= |d| && InRange(|d|, hs)
    ensures Used(g, Abstract(hs, d)) == HeaderBytes(g, |hs|) + top - End(top, hs)
  {
    if hs != [] {
      var n := |hs| - 1;
      Cut(top, hs, n, d);
      assert LaidAt(top, hs, n);
      UsedIsLayout(g, top, hs[..n], d);
    }
  }

  lemma {:induction false} RangeSpace(g: Geometry, hs: seq<Header>, d: seq<Byte>, start: nat, nr: nat)
    requires Laid(|d|, hs) && start + nr <= |hs| && InRange(|d|, hs)
    ensures Used(g, Abstract(hs, d)[start..start + nr])
            == HeaderBytes(g, nr) + Top(|d|, hs, start) - Top(|d|, hs, start + nr)
  {
    var p := hs[..start + nr];
    Cut(|d|, hs, start + nr, d);
    Cut(|d|, p, start, d);
    UsedIsLayout(g, Top(|d|, p, start), p[start..], d);
    assert Abstract(hs, d)[start..start + nr] == Abstract(hs, d)[..start + nr][start..];
  }

  // ---------------------------------------------------------------------------------------------
  // memmove and memcpy

  predicate Movable(size: nat, dst: int, src: int, len: int)
  {
    0 <= len && 0 <= dst && dst + len <= size && 0 <= src && src + len <= size
  }

  /** memmove inside one buffer. */
  function Moved(d: seq<Byte>, dst: int, src: int, len: int): (r: seq<Byte>)
    requires Movable(|d|, dst, src, len)
    ensures |r| == |d| && r[..dst] == d[..dst] && r[dst..dst + len] == d[src..src + len]
    ensures r[dst + len..] == d[dst + len..]
  {
    d[..dst] + d[src..src + len] + d[dst + len..]
  }

  /** Bytes from elsewhere laid over part of a buffer. */
  function Pasted(d: seq<Byte>, dst: int, s: seq<Byte>): (r: seq<Byte>)
    requires 0 <= dst && dst + |s| <= |d|
    ensures |r| == |d| && r[..dst] == d[..dst] && r[dst..dst + |s|] == s && r[dst + |s|..] == d[dst + |s|..]
  {
    d[..dst] + s + d[dst + |s|..]
  }

  /** memmove: the direction of the copy depends on which area lies lower. */
  method Memmove(a: array<Byte>, dst: int, src: int, len: int)
    requires Movable(a.Length, dst, src, len)
    modifies a
    ensures a[..] == Moved(old(a[..]), dst, src, len)
  {
    if dst <= src {
      CopyUpwards(a, dst, src, len);
    } else {
      CopyDownwards(a, dst, src, len);
    }
    PointwiseMoved(old(a[..]), dst, src, len, a[..]);
  }

  lemma {:induction false} PointwiseMoved(d: seq<Byte>, dst: int, src: int, len: int, d': seq<Byte>)
    requires Movable(|d|, dst, src, len) && |d'| == |d|
    requires forall k :: 0 <= k < |d| ==> d'[k] == d[if dst <= k < dst + len then k - dst + src else k]
    ensures d' == Moved(d, dst, src, len)
  {
  }

  method CopyUpwards(a: array<Byte>, dst: int, src: int, len: int)
    requires Movable(a.Length, dst, src, len) && dst <= src
    modifies a
    ensures forall k :: 0 <= k < a.Length ==> a[k] == old(a[..])[if dst <= k < dst + len then k - dst + src else k]
  {
    ghost var d := a[..];
    var i := 0;
    while i < len
      invariant 0 <= i <= len
      invariant forall k :: 0 <= k < a.Length ==> a[k] == d[if dst <= k < dst + i then k - dst + src else k]
    {
      a[dst + i] := a[src + i];
      i := i + 1;
    }
  }

  method CopyDownwards(a: array<Byte>, dst: int, src: int, len: int)
    requires Movable(a.Length, dst, src, len) && src < dst
    modifies a
    ensures forall k :: 0 <= k < a.Length ==> a[k] == old(a[..])[if dst <= k < dst + len then k - dst + src else k]
  {
    ghost var d := a[..];
    var i := len;
    while i > 0
      invariant 0 <= i <= len
      invariant forall k :: 0 <= k < a.Length ==> a[k] == d[if dst + i <= k < dst + len then k - dst + src else k]
    {
      i := i - 1;
      a[dst + i] := a[src + i];
    }
  }

  /** write_extent_buffer and copy_extent_buffer. */
  method WriteBytes(a: array<Byte>, dst: int, s: seq<Byte>)
    requires 0 <= dst && dst + |s| <= a.Length
    modifies a
    ensures a[..] == Pasted(old(a[..]), dst, s)
  {
    ghost var d := a[..];
    var i := 0;
    while i < |s|
      invariant 0 <= i <= |s|
      invariant forall k :: dst <= k < dst + i ==> a[k] == s[k - dst]
      invariant forall k :: 0 <= k < a.Length && !(dst <= k < dst + i) ==> a[k] == d[k]
    {
      a[dst + i] := s[i];
      i := i + 1;
    }
    assert a[..] == Pasted(d, dst, s);
  }

  // ---------------------------------------------------------------------------------------------
  // What the operations do to headers and bytes, and so to items

  lemma {:induction false} TailStays(d: seq<Byte>, d': seq<Byte>, k: int)
    requires |d'| == |d| && 0 <= k <= |d| && d'[k..] == d[k..]
    ensures d'[k..|d|] == d[k..|d|]
  {
    assert d'[k..|d|] == d'[k..] && d[k..|d|] == d[k..];
  }

  /** Items [slot, slot + nr) go; the data below them moves up. */
  lemma {:induction false} DeleteRange(size: nat, hs: seq<Header>, d: seq<Byte>, slot: nat, nr: nat, end: int,
          last: int, top: int)
    requires |d| == size && Laid(size, hs) && slot + nr <= |hs|
    requires end == End(size, hs) && last == Top(size, hs, slot + nr) && top == Top(size, hs, slot)
    ensures Movable(size, end + (top - last), end, last - end) && last <= top
    ensures var r := hs[..slot] + Rebase(hs[slot + nr..], top - last);
            && Laid(size, r) && End(size, r) == end + top - last && InRange(size, hs) && InRange(size, r)
            && Abstract(r, Moved(d, end + (top - last), end, last - end))
                == Abstract(hs, d)[..slot] + Abstract(hs, d)[slot + nr..]
  {
    TopDescends(size, hs, slot, slot + nr);
    Cut(size, hs, slot + nr, d);
    Cut(size, hs, slot, d);
    var d' := Moved(d, end + (top - last), end, last - end);
    var a, b := hs[..slot], hs[slot + nr..];
    TailStays(d, d', top);
    Stay(size, a, d, d');
    Carry(last, b, d, d', top - last);
    Join(size, a, Rebase(b, top - last), d');
  }

  lemma {:induction false} RangeBounds(hs: seq<Header>, size: nat, slot: nat, nr: nat)
    requires Laid(size, hs) && slot + nr <= |hs|
    ensures 0 <= End(size, hs) <= Top(size, hs, slot + nr) <= Top(size, hs, slot) <= size
  {
    TopDescends(size, hs, slot, slot + nr);
    TopDescends(size, hs, slot + nr, |hs|);
  }

  lemma {:induction false} RangeDeleted(size: nat, hs: seq<Header>, d: seq<Byte>, slot: nat, nr: nat, end: int,
          last: int, gap: int, hs': seq<Header>, d': seq<Byte>)
    requires |d| == size && Laid(size, hs) && InRange(size, hs) && slot + nr <= |hs|
    requires end == End(size, hs) && last == Top(size, hs, slot + nr) && gap == Top(size, hs, slot) - last
    requires Movable(size, end + gap, end, last - end)
    requires hs' == hs[..slot] + Rebase(hs[slot + nr..], gap) && d' == Moved(d, end + gap, end, last - end)
    ensures Laid(size, hs') && InRange(size, hs') && |d'| == size && |hs'| == |hs| - nr
    ensures End(size, hs) <= End(size, hs')
    ensures Abstract(hs', d') == Abstract(hs, d)[..slot] + Abstract(hs, d)[slot + nr..]
  {
    DeleteRange(size, hs, d, slot, nr, End(size, hs), Top(size, hs, slot + nr), Top(size, hs, slot));
  }

  /** Room for `total` bytes of data between items slot - 1 and slot: the data of item slot and below moves
      down.  The new headers are given; what bytes their items hold is not said. */
  lemma {:induction false} OpenRange(hs: seq<Header>, d: seq<Byte>, slot: nat, total: int, news: seq<Header>)
    requires Laid(|d|, hs) && slot <= |hs| && 0 <= total <= End(|d|, hs)
    requires Laid(Top(|d|, hs, slot), news) && End(Top(|d|, hs, slot), news) == Top(|d|, hs, slot) - total
    ensures var end, cut := End(|d|, hs), Top(|d|, hs, slot);
            var r := hs[..slot] + news + Rebase(hs[slot..], -total);
            && Movable(|d|, end - total, end, cut - end)
            && Laid(|d|, r) && End(|d|, r) == end - total && InRange(|d|, hs) && InRange(|d|, news) && InRange(|d|, r)
            && var d' := Moved(d, end - total, end, cut - end);
               Abstract(r, d') == Abstract(hs, d)[..slot] + Abstract(news, d') + Abstract(hs, d)[slot..]
  {
    var end, cut := End(|d|, hs), Top(|d|, hs, slot);
    Cut(|d|, hs, slot, d);
    var d' := Moved(d, end - total, end, cut - end);
    var a, b := hs[..slot], hs[slot..];
    TailStays(d, d', cut);
    Stay(|d|, a, d, d');
    Carry(cut, b, d, d', -total);
    Join(|d|, a, news, d');
    Join(|d|, a + news, Rebase(b, -total), d');
  }

  /** One item between two stretches. */
  lemma {:induction false} Triple(top: int, a: seq<Header>, x: Header, b: seq<Header>, d: seq<Byte>)
    requires Laid(top, a) && top <= |d| && 0 <= x.offset && x.offset + x.size == End(top, a) && Laid(x.offset, b)
    ensures Laid(top, a + [x] + b) && End(top, a + [x] + b) == End(x.offset, b)
    ensures 0 <= End(x.offset, b) <= x.offset <= End(top, a) <= top
    ensures InRange(|d|, a) && InRange(|d|, b) && InRange(|d|, a + [x] + b)
    ensures Abstract(a + [x] + b, d) == Abstract(a, d) + [ItemOf(x, d)] + Abstract(b, d)
  {
    assert LaidAt(End(top, a), [x], 0);
    LaidInRange(top, a, |d|);
    LaidInRange(x.offset, b, |d|);
    Join(top, a, [x], d);
    Join(top, a + [x], b, d);
    assert Abstract([x], d) == [ItemOf(x, d)];
  }

  /** Item slot and what lies on either side of it. */
  lemma {:induction false} Around(hs: seq<Header>, d: seq<Byte>, slot: nat)
    requires Laid(|d|, hs) && slot < |hs|
    ensures var a, h, b := hs[..slot], hs[slot], hs[slot + 1..];
            && hs == a + [h] + b && Laid(|d|, a) && Laid(h.offset, b)
            && 0 <= End(h.offset, b) == End(|d|, hs) <= h.offset
                && h.offset + h.size == End(|d|, a) == Top(|d|, hs, slot) <= |d|
            && InRange(|d|, hs) && InRange(|d|, a) && InRange(|d|, b)
            && Abstract(a, d) == Abstract(hs, d)[..slot] && Abstract(b, d) == Abstract(hs, d)[slot + 1..]
  {
    Cut(|d|, hs, slot, d);
    Cut(|d|, hs, slot + 1, d);
    assert LaidAt(|d|, hs, slot);
  }

  lemma {:induction false} Put<T>(s: seq<T>, i: nat, x: T)
    requires i < |s|
    ensures s[..i] + [x] + s[i + 1..] == s[i := x]
  {
  }

  /** The data from some point `cut` inside item slot downwards moves by delta: the items before slot stay,
      those behind it go along. */
  lemma {:induction false} Slide(hs: seq<Header>, d: seq<Byte>, slot: nat, cut: int, delta: int)
    requires Laid(|d|, hs) && slot < |hs| && 0 <= End(|d|, hs) + delta
    requires hs[slot].offset <= cut <= Top(|d|, hs, slot) && cut + delta <= Top(|d|, hs, slot)
    ensures var a, h, b, end := hs[..slot], hs[slot], hs[slot + 1..], End(|d|, hs);
            && Movable(|d|, end + delta, end, cut - end) && 0 <= h.offset + delta && h.offset + h.size == End(|d|, a)
            && InRange(|d|, hs) && Laid(|d|, a) && InRange(|d|, a)
            && Laid(h.offset + delta, Rebase(b, delta)) && InRange(|d|, Rebase(b, delta))
            && End(h.offset + delta, Rebase(b, delta)) == end + delta
            && var d' := Moved(d, end + delta, end, cut - end);
               && Abstract(a, d') == Abstract(hs, d)[..slot]
               && Abstract(Rebase(b, delta), d') == Abstract(hs, d)[slot + 1..]
  {
    var a, h, b, end := hs[..slot], hs[slot], hs[slot + 1..], End(|d|, hs);
    Around(hs, d, slot);
    var d', top := Moved(d, end + delta, end, cut - end), h.offset + h.size;
    TailStays(d, d', cut + delta);
    SliceCarried(d, d', cut + delta, |d|, 0, top, |d| - top);
    Stay(|d|, a, d, d');
    SliceCarried(d, d', end, cut, delta, end, h.offset - end);
    Carry(h.offset, b, d, d', delta);
  }

  function Refitted(hs: seq<Header>, slot: nat, delta: int, key: Key): seq<Header>
    requires slot < |hs| && delta <= hs[slot].size
  {
    hs[..slot] + [Header(key, hs[slot].offset + delta, hs[slot].size - delta)] + Rebase(hs[slot + 1..], delta)
  }

  /** The same, and the header of item slot covers what lies between: only item slot has changed. */
  lemma {:induction false} Refit(hs: seq<Header>, d: seq<Byte>, slot: nat, cut: int, delta: int, key: Key)
    requires Laid(|d|, hs) && slot < |hs| && 0 <= End(|d|, hs) + delta
    requires hs[slot].offset <= cut <= Top(|d|, hs, slot) && cut + delta <= Top(|d|, hs, slot)
    ensures Top(|d|, hs, slot) == hs[slot].offset + hs[slot].size
    ensures 0 <= hs[slot].offset + delta <= Top(|d|, hs, slot) <= |d|
    ensures var r, end := Refitted(hs, slot, delta, key), End(|d|, hs);
            && Movable(|d|, end + delta, end, cut - end)
            && InRange(|d|, hs) && Laid(|d|, r) && End(|d|, r) == end + delta && InRange(|d|, r)
            && var d' := Moved(d, end + delta, end, cut - end);
               Abstract(r, d') == Abstract(hs, d)[slot := ItemOf(r[slot], d')]
  {
    var h, end := hs[slot], End(|d|, hs);
    Around(hs, d, slot);
    Slide(hs, d, slot, cut, delta);
    var h', d' := Header(key, h.offset + delta, h.size - delta), Moved(d, end + delta, end, cut - end);
    Triple(|d|, hs[..slot], h', Rebase(hs[slot + 1..], delta), d');
    Put(Abstract(hs, d), slot, ItemOf(h', d'));
  }

  /** hs' and d' are what moving the bytes below `cut` by delta makes of hs and d. */
  predicate Resized(hs: seq<Header>, d: seq<Byte>, slot: nat, cut: int, delta: int, key: Key, hs': seq<Header>,
          d': seq<Byte>)
  {
    && slot < |hs| && delta <= hs[slot].size && Movable(|d|, End(|d|, hs) + delta, End(|d|, hs), cut - End(|d|, hs))
    && hs' == Refitted(hs, slot, delta, key)
    && d' == Moved(d, End(|d|, hs) + delta, End(|d|, hs), cut - End(|d|, hs))
  }

  /** The first newSize bytes of an item. */
  function HeadItem(item: Item, newSize: nat): Item
    requires newSize <= |item.data|
  {
    Item(item.key, item.data[..newSize])
  }

  /** btrfs_truncate_item from the end: the first newSize bytes stay. */
  lemma {:induction false} TruncateEnd(hs: seq<Header>, d: seq<Byte>, slot: nat, newSize: nat, cut: int, diff: int,
          hs': seq<Header>, d': seq<Byte>)
    requires Laid(|d|, hs) && slot < |hs| && newSize <= hs[slot].size
    requires cut == hs[slot].offset + newSize && diff == hs[slot].size - newSize
    requires Resized(hs, d, slot, cut, diff, hs[slot].key, hs', d')
    ensures Laid(|d|, hs') && End(|d|, hs') == End(|d|, hs) + hs[slot].size - newSize && InRange(|d|, hs)
    ensures InRange(|d|, hs')
    ensures |Abstract(hs, d)[slot].data| == hs[slot].size
    ensures Abstract(hs', d') == Abstract(hs, d)[slot := HeadItem(Abstract(hs, d)[slot], newSize)]
  {
    var h, end := hs[slot], End(|d|, hs);
    assert LaidAt(|d|, hs, slot);
    TopDescends(|d|, hs, slot + 1, |hs|);
    Refit(hs, d, slot, cut, diff, h.key);
    SliceCarried(d, d', end, cut, diff, h.offset, newSize);
    assert d[h.offset..h.offset + h.size][..newSize] == d[h.offset..h.offset + newSize];
  }

  /** The last newSize bytes of an item under a key moved on by what was cut. */
  function CutItem(item: Item, newSize: nat): Item
    requires newSize <= |item.data|
  {
    Item(CutKey(item.key, |item.data|, newSize), item.data[|item.data| - newSize..])
  }

  function CutKey(key: Key, size: nat, newSize: nat): Key
    requires newSize <= size
  {
    key.(offset := key.offset + size - newSize)
  }

  /** btrfs_truncate_item from the front. */
  lemma {:induction false} TruncateFront(hs: seq<Header>, d: seq<Byte>, slot: nat, newSize: nat, hs': seq<Header>,
          d': seq<Byte>)
    requires Laid(|d|, hs) && slot < |hs| && newSize <= hs[slot].size
    requires var h := hs[slot];
             Resized(hs, d, slot, h.offset, h.size - newSize, CutKey(h.key, h.size, newSize), hs', d')
    ensures Laid(|d|, hs') && End(|d|, hs') == End(|d|, hs) + hs[slot].size - newSize && InRange(|d|, hs)
    ensures InRange(|d|, hs')
    ensures |Abstract(hs, d)[slot].data| == hs[slot].size
    ensures Abstract(hs', d') == Abstract(hs, d)[slot := CutItem(Abstract(hs, d)[slot], newSize)]
  {
    var h, diff := hs[slot], hs[slot].size - newSize;
    assert LaidAt(|d|, hs, slot);
    TopDescends(|d|, hs, slot + 1, |hs|);
    Refit(hs, d, slot, h.offset, diff, CutKey(h.key, h.size, newSize));
    var low := h.offset + diff;
    TailStays(d, d', low);
    SliceCarried(d, d', low, |d|, 0, low, newSize);
    assert d[h.offset..h.offset + h.size][diff..] == d[low..low + newSize];
  }

  /** btrfs_extend_item: n more bytes behind the ones it has; they are whatever the memmove left there. */
  lemma {:induction false} Extend(hs: seq<Header>, d: seq<Byte>, slot: nat, n: int, hs': seq<Header>,
          d': seq<Byte>) returns (tail: seq<Byte>)
    requires Laid(|d|, hs) && slot < |hs| && 0 <= n <= End(|d|, hs)
    requires Resized(hs, d, slot, hs[slot].offset + hs[slot].size, -n, hs[slot].key, hs', d')
    ensures Laid(|d|, hs') && End(|d|, hs') == End(|d|, hs) - n && InRange(|d|, hs) && InRange(|d|, hs') && |d'| == |d|
    ensures |tail| == n && Abstract(hs', d') == Abstract(hs, d)[slot := Extended(Abstract(hs, d)[slot], tail)]
  {
    var h, end := hs[slot], End(|d|, hs);
    var top := h.offset + h.size;
    assert LaidAt(|d|, hs, slot);
    TopDescends(|d|, hs, slot + 1, |hs|);
    Refit(hs, d, slot, top, -n, h.key);
    SliceCarried(d, d', end, top, -n, h.offset, h.size);
    tail := d'[top - n..top];
    assert d'[h.offset - n..top] == d'[h.offset - n..top - n] + tail;
  }

  function Extended(item: Item, tail: seq<Byte>): Item
  {
    Item(item.key, item.data + tail)
  }

  predicate Opened(hs: seq<Header>, d: seq<Byte>, slot: nat, news: seq<Header>, total: int, hs': seq<Header>,
          d': seq<Byte>)
  {
    && slot <= |hs| && Movable(|d|, End(|d|, hs) - total, End(|d|, hs), Top(|d|, hs, slot) - End(|d|, hs))
    && hs' == hs[..slot] + news + Rebase(hs[slot..], 0 - total)
    && d' == Moved(d, End(|d|, hs) - total, End(|d|, hs), Top(|d|, hs, slot) - End(|d|, hs))
  }

  lemma {:induction false} GapOpened(hs: seq<Header>, d: seq<Byte>, slot: nat, news: seq<Header>, total: int, end: int,
          top: int, hs': seq<Header>, d': seq<Byte>)
    requires slot <= |hs| && end == End(|d|, hs) && top == Top(|d|, hs, slot)
    requires Movable(|d|, end - total, end, top - end) && d' == Moved(d, end - total, end, top - end)
    requires hs' == hs[..slot] + news + Rebase(hs[slot..], 0 - total)
    ensures Opened(hs, d, slot, news, total, hs', d')
  {
  }

  /** New items: their keys and sizes are given, their bytes are not. */
  predicate Described(added: seq<Item>, keys: seq<Key>, sizes: seq<nat>)
  {
    |added| == |keys| == |sizes| && forall i :: 0 <= i < |added| ==>
        added[i].key == keys[i] && |added[i].data| == sizes[i]
  }

  /** setup_items_for_insert. */
  lemma {:induction false} BatchInserted(hs: seq<Header>, d: seq<Byte>, slot: nat, keys: seq<Key>, sizes: seq<nat>,
          hs': seq<Header>, d': seq<Byte>)
    returns (added: seq<Item>)
    requires Laid(|d|, hs) && slot <= |hs| && |keys| == |sizes| && Sum(sizes) <= End(|d|, hs)
    requires Opened(hs, d, slot, NewHeaders(Top(|d|, hs, slot), keys, sizes), Sum(sizes), hs', d')
    ensures Laid(|d|, hs') && End(|d|, hs') == End(|d|, hs) - Sum(sizes) && |d'| == |d| && InRange(|d|, hs)
    ensures InRange(|d|, hs')
    ensures |hs'| == |hs| + |keys| && Described(added, keys, sizes)
    ensures Abstract(hs', d') == Abstract(hs, d)[..slot] + added + Abstract(hs, d)[slot..]
  {
    var top := Top(|d|, hs, slot);
    TopDescends(|d|, hs, slot, |hs|);
    NewHeadersLaid(top, keys, sizes);
    var news := NewHeaders(top, keys, sizes);
    OpenRange(hs, d, slot, Sum(sizes), news);
    added := Abstract(news, d');
  }

  /** split_item: two headers share the data area of item slot, the first bytes on top. */
  lemma {:induction false} SplitLaid(hs: seq<Header>, d: seq<Byte>, slot: nat, x: Header, y: Header, d': seq<Byte>)
    requires Laid(|d|, hs) && slot < |hs| && |d'| == |d| && InRange(|d|, hs) && Inside(|d|, hs[slot])
    requires y.offset == hs[slot].offset && x.offset == y.offset + y.size && x.size + y.size == hs[slot].size
    requires d'[..y.offset] == d[..y.offset] && d'[x.offset + x.size..] == d[x.offset + x.size..]
    ensures var r := hs[..slot] + [x] + ([y] + hs[slot + 1..]);
            && Laid(|d|, r) && End(|d|, r) == End(|d|, hs) && InRange(|d|, r)
            && Abstract(r, d') == Abstract(hs, d)[..slot] + [ItemOf(x, d'), ItemOf(y, d')] + Abstract(hs, d)[slot + 1..]
  {
    var a, b := hs[..slot], hs[slot + 1..];
    Around(hs, d, slot);
    Stay(|d|, a, d, d');
    assert d'[0..y.offset] == d[0..y.offset];
    SliceCarried(d, d', 0, y.offset, 0, End(y.offset, b), y.offset - End(y.offset, b));
    Stay(y.offset, b, d, d');
    Triple(x.offset, [], y, b, d');
    assert [] + [y] + b == [y] + b;
    Triple(|d|, a, x, [y] + b, d');
  }

  /** The two halves written back. */
  lemma {:induction false} SplitBytes(d: seq<Byte>, o: int, buf: seq<Byte>, at: nat)
    requires 0 <= o && o + |buf| <= |d| && at <= |buf|
    ensures var d' := Pasted(Pasted(d, o + |buf| - at, buf[..at]), o, buf[at..]);
            && d'[..o] == d[..o] && d'[o + |buf|..] == d[o + |buf|..]
            && d'[o..o + |buf| - at] == buf[at..] && d'[o + |buf| - at..o + |buf|] == buf[..at]
  {
    var d1 := Pasted(d, o + |buf| - at, buf[..at]);
    var d', k := Pasted(d1, o, buf[at..]), o + |buf| - at;
    assert d'[..o] == d1[..k][..o] == d[..k][..o];
    assert d'[k..] == d1[k..];
    assert d'[k..][..at] == d1[k..o + |buf|];
    assert d'[k..][at..] == d1[o + |buf|..];
  }

  /** d' is d with the data moved down and the bytes put on top of it. */
  predicate ToppedUp(d: seq<Byte>, end: int, bytes: seq<Byte>, d': seq<Byte>)
  {
    && |bytes| <= end <= |d| == |d'|
    && d'[end - |bytes|..|d| - |bytes|] == d[end..|d|] && d'[|d| - |bytes|..|d|] == bytes
  }

  lemma {:induction false} MovedAndPasted(d: seq<Byte>, end: int, bytes: seq<Byte>)
    requires |bytes| <= end <= |d|
    ensures ToppedUp(d, end, bytes, Pasted(Moved(d, end - |bytes|, end, |d| - end), |d| - |bytes|, bytes))
  {
    var d1, low, high := Moved(d, end - |bytes|, end, |d| - end), end - |bytes|, |d| - |bytes|;
    var d' := Pasted(d1, high, bytes);
    assert d'[..high] == d1[..high];
    assert d'[low..high] == d'[..high][low..] == d1[..high][low..] == d1[low..high];
  }

  /** Items [m, |hl|) of the left leaf put in front of the items of the right one. */
  lemma {:induction false} PushedRight(size: nat, hl: seq<Header>, dl: seq<Byte>, m: nat, lo: int, hi: int,
          hr: seq<Header>, dr: seq<Byte>, d': seq<Byte>)
    requires |dl| == size == |dr| && Laid(size, hl) && Laid(size, hr) && m <= |hl|
    requires lo == End(size, hl) && hi == Top(size, hl, m) && 0 <= lo <= hi <= size
    requires ToppedUp(dr, End(size, hr), dl[lo..hi], d')
    ensures var r := Rebase(hl[m..], size - hi) + Rebase(hr, lo - hi);
            && Laid(size, r) && End(size, r) == End(size, hr) + lo - hi && InRange(size, r) && InRange(size, hl)
                && InRange(size, hr)
            && |d'| == size && Abstract(r, d') == Abstract(hl, dl)[m..] + Abstract(hr, dr)
  {
    Cut(size, hl, m, dl);
    Carry(hi, hl[m..], dl, d', size - hi);
    LaidInRange(size, hr, size);
    Carry(size, hr, dr, d', lo - hi);
    Join(size, Rebase(hl[m..], size - hi), Rebase(hr, lo - hi), d');
  }

  /** Items [0, k) of the right leaf put behind the items of the left one. */
  lemma {:induction false} PushedLeft(hl: seq<Header>, dl: seq<Byte>, k: nat, hr: seq<Header>, dr: seq<Byte>,
          d1: seq<Byte>)
    requires Laid(|dl|, hl) && Laid(|dr|, hr) && |dr| == |dl| && k <= |hr|
    requires var low, end := Top(|dr|, hr, k), End(|dl|, hl);
             0 <= low <= |dr| && |dr| - low <= end <= |dl| && d1 == Pasted(dl, end - (|dr| - low), dr[low..])
    ensures var r := hl + Rebase(hr[..k], End(|dl|, hl) - |dl|);
            && Laid(|dl|, r) && End(|dl|, r) == End(|dl|, hl) - (|dr| - Top(|dr|, hr, k)) && InRange(|dl|, r)
                && InRange(|dl|, hl) && InRange(|dr|, hr)
            && |d1| == |dl| && Abstract(r, d1) == Abstract(hl, dl) + Abstract(hr, dr)[..k]
  {
    var low, end, size := Top(|dr|, hr, k), End(|dl|, hl), |dl|;
    Cut(size, hr, k, dr);
    LaidInRange(size, hl, size);
    assert d1[end..size] == dl[end..size];
    Stay(size, hl, dl, d1);
    assert dr[low..size] == dr[low..];
    Carry(size, hr[..k], dr, d1, end - size);
    Join(size, hl, Rebase(hr[..k], end - size), d1);
  }

  /** Items [m, |hs|) alone in another buffer, or alone in their own. */
  lemma {:induction false} TailAlone(size: nat, hs: seq<Header>, d: seq<Byte>, m: nat, lo: int, hi: int, d': seq<Byte>)
    requires |d| == size == |d'| && Laid(size, hs) && m <= |hs|
    requires lo == End(size, hs) && hi == Top(size, hs, m) && 0 <= lo <= hi <= size
    requires d'[size - (hi - lo)..] == d[lo..hi]
    ensures var r := Rebase(hs[m..], size - hi);
            && Laid(size, r) && End(size, r) == size - hi + lo && InRange(size, r) && InRange(size, hs)
            && Abstract(r, d') == Abstract(hs, d)[m..]
  {
    Cut(size, hs, m, d);
    assert d'[size - (hi - lo)..size] == d'[size - (hi - lo)..];
    Carry(hi, hs[m..], d, d', size - hi);
  }

  /** Headers of new items, laid downwards from `top`. */
  function NewHeaders(top: int, keys: seq<Key>, sizes: seq<nat>): (hs: seq<Header>)
    requires |keys| == |sizes|
    ensures |hs| == |keys|
    ensures forall i :: 0 <= i < |hs| ==> hs[i].key == keys[i] && hs[i].size == sizes[i]
    decreases |keys|
  {
    if keys == [] then []
    else
      var n := |keys| - 1;
      var hs := NewHeaders(top, keys[..n], sizes[..n]);
      hs + [Header(keys[n], End(top, hs) - sizes[n], sizes[n])]
  }

  function Sum(sizes: seq<nat>): nat
  {
    if sizes == [] then 0 else Sum(sizes[..|sizes| - 1]) + sizes[|sizes| - 1]
  }

  lemma {:induction false} NewHeadersLaid(top: int, keys: seq<Key>, sizes: seq<nat>)
    requires |keys| == |sizes| && Sum(sizes) <= top
    ensures Laid(top, NewHeaders(top, keys, sizes)) && End(top, NewHeaders(top, keys, sizes)) == top - Sum(sizes)
    decreases |keys|
  {
    if keys != [] {
      var n := |keys| - 1;
      NewHeadersLaid(top, keys[..n], sizes[..n]);
      var hs := NewHeaders(top, keys[..n], sizes[..n]);
      var all := NewHeaders(top, keys, sizes);
      forall i: nat | i <= n
        ensures LaidAt(top, all, i)
      {
        assert i < n ==> LaidAt(top, hs, i);
      }
    }
  }

  /** A change of bytes inside the data area of item slot changes that item alone. */
  lemma {:induction false} Within(hs: seq<Header>, d: seq<Byte>, d': seq<Byte>, slot: nat)
    requires Laid(|d|, hs) && slot < |hs| && |d'| == |d| && InRange(|d|, hs) && Inside(|d|, hs[slot])
    requires d'[..hs[slot].offset] == d[..hs[slot].offset]
    requires d'[hs[slot].offset + hs[slot].size..] == d[hs[slot].offset + hs[slot].size..]
    ensures Abstract(hs, d') == Abstract(hs, d)[slot := ItemOf(hs[slot], d')]
  {
    var a, h, b := hs[..slot], hs[slot], hs[slot + 1..];
    Around(hs, d, slot);
    Stay(|d|, a, d, d');
    assert d'[0..h.offset] == d[0..h.offset];
    SliceCarried(d, d', 0, h.offset, 0, End(h.offset, b), h.offset - End(h.offset, b));
    Stay(h.offset, b, d, d');
    Triple(|d|, a, h, b, d');
    Put(Abstract(hs, d), slot, ItemOf(h, d'));
  }

  /** An inline extent with its header copied to where its front will be once diff bytes are cut. */
  function InlineMoved(item: Item, diff: nat): Item
    requires diff + INLINE_DATA_START <= |item.data|
  {
    Item(item.key, item.data[..diff] + item.data[..INLINE_DATA_START] + item.data[diff + INLINE_DATA_START..])
  }

  /** The header of an inline extent copied over the bytes that will become its new front. */
  lemma {:induction false} InlineFront(size: nat, hs: seq<Header>, d: seq<Byte>, slot: nat, diff: nat, o: int)
    requires |d| == size && Laid(size, hs) && slot < |hs| && diff + INLINE_DATA_START <= hs[slot].size
    requires o == hs[slot].offset
    ensures InRange(size, hs) && Movable(size, o + diff, o, INLINE_DATA_START)
    ensures |Abstract(hs, d)[slot].data| == hs[slot].size
    ensures Abstract(hs, Moved(d, o + diff, o, INLINE_DATA_START))
            == Abstract(hs, d)[slot := InlineMoved(Abstract(hs, d)[slot], diff)]
  {
    LaidInRange(size, hs, size);
    assert Inside(size, hs[slot]);
    InlineBytes(d, o, hs[slot].size, diff);
    Within(hs, d, Moved(d, o + diff, o, INLINE_DATA_START), slot);
  }

  lemma {:induction false} InlineBytes(d: seq<Byte>, o: int, size: int, diff: nat)
    requires 0 <= o && diff + INLINE_DATA_START <= size && o + size <= |d|
    ensures var d', x := Moved(d, o + diff, o, INLINE_DATA_START), d[o..o + size];
            && d'[..o] == d[..o] && d'[o + size..] == d[o + size..]
            && d'[o..o + size] == x[..diff] + x[..INLINE_DATA_START] + x[diff + INLINE_DATA_START..]
  {
    var d', x, k := Moved(d, o + diff, o, INLINE_DATA_START), d[o..o + size], o + diff + INLINE_DATA_START;
    assert d'[..o + diff][..o] == d[..o + diff][..o] && d'[k..][o + size - k..] == d[k..][o + size - k..];
    assert x[..diff] == d'[..o + diff][o..];
    assert x[..INLINE_DATA_START] == d'[o + diff..k];
    assert x[diff + INLINE_DATA_START..] == d'[k..][..o + size - k];
  }

  // ---------------------------------------------------------------------------------------------
  // The leaf

  /** Headers of n items and of k more below `end`. */
  lemma {:induction false} HeaderRoom(g: Geometry, n: nat, k: nat, end: int)
    requires HeaderBytes(g, n) + HeaderBytes(g, k) <= end
    ensures 0 <= HeaderBytes(g, n) <= end && HeaderBytes(g, n + k) <= end
  {
    HeaderBytesAdd(g, n, k);
  }

  class Leaf {
    const g: Geometry
    const data: array<Byte>
    /** the headers at the front of the leaf; they take HeaderBytes bytes of it */
    var items: seq<Header>

    ghost predicate Valid()
      reads this
    {
      && data.Length == g.leafSize && Laid(g.leafSize, items) && InRange(g.leafSize, items)
      && HeaderBytes(g, |items|) <= End(g.leafSize, items)
    }

    /** An empty leaf, as btrfs_alloc_tree_block gives it. */
    constructor (g: Geometry)
      ensures Valid() && Items() == [] && fresh(data) && this.g == g
    {
      this.g := g;
      data := new Byte[g.leafSize];
      items := [];
    }

    /** The items in the leaf, in order. */
    ghost function Items(): (r: seq<Item>)
      requires Valid()
      reads this, data
      ensures |r| == |items|
    {
      Abstract(items, data[..])
    }

    /** leaf_data_end */
    function DataEnd(): int
      reads this
    {
      End(g.leafSize, items)
    }

    /** leaf_space_used */
    method SpaceUsed(start: nat, nr: nat) returns (used: int)
      requires Valid() && start + nr <= |items|
      ensures used == Used(g, Items()[start..start + nr])
    {
      var end := (if |items| < start + nr then |items| else start + nr) - 1;
      if nr == 0 {
        return 0;
      }
      used := items[start].offset + items[start].size;
      used := used - items[end].offset;
      used := used + g.itemSize * nr;
      HeaderBytesIsProduct(g, nr);
      RangeSpace(g, items, data[..], start, nr);
      assert LaidAt(g.leafSize, items, start);
    }

    /** btrfs_leaf_free_space */
    method LeafFreeSpace() returns (free: int)
      requires Valid()
      ensures free == FreeSpace(g, Items()) && free == DataEnd() - HeaderBytes(g, |items|)
    {
      var used := SpaceUsed(0, |items|);
      free := g.leafSize - used;
      assert Items()[0..|items|] == Items();
      LaidInRange(g.leafSize, items, g.leafSize);
      UsedIsLayout(g, g.leafSize, items, data[..]);
    }

    /** The loops that correct the data offsets from one item on. */
    method ShiftOffsets(from: nat, delta: int)
      requires from <= |items|
      modifies this`items
      ensures items == old(items)[..from] + Rebase(old(items)[from..], delta)
    {
      var i := from;
      while i < |items|
        invariant from <= i <= |items| == |old(items)|
        invariant forall k :: 0 <= k < |items| ==>
                items[k] == if from <= k < i then old(items)[k].(offset := old(items)[k].offset + delta)
                else old(items)[k]
      {
        items := items[i := items[i].(offset := items[i].offset + delta)];
        i := i + 1;
      }
    }

    /** memmove_leaf_data; the headers must not be hit. */
    method MoveData(dst: int, src: int, len: int)
      requires Movable(data.Length, dst, src, len) && HeaderBytes(g, |items|) <= dst
      modifies data
      ensures data[..] == Moved(old(data[..]), dst, src, len)
    {
      Memmove(data, dst, src, len);
    }

    method RangeSize(slot: nat, nr: nat) returns (dsize: int)
      requires Laid(g.leafSize, items) && slot + nr <= |items|
      ensures dsize == Top(g.leafSize, items, slot) - Top(g.leafSize, items, slot + nr)
    {
      dsize := 0;
      var i := 0;
      while i < nr
        invariant 0 <= i <= nr && dsize == Top(g.leafSize, items, slot) - Top(g.leafSize, items, slot + i)
      {
        assert LaidAt(g.leafSize, items, slot + i);
        dsize := dsize + items[slot + i].size;
        i := i + 1;
      }
    }

    /** btrfs_del_items, the part inside the leaf. */
    method DelItems(slot: nat, nr: nat)
      requires Valid() && nr > 0 && slot + nr <= |items|
      modifies this`items, data
      ensures Valid() && Items() == old(Items())[..slot] + old(Items())[slot + nr..]
    {
      HeaderBytesLess(g, |items| - nr, |items|);
      if slot + nr != |items| {
        DelMiddle(slot, nr);
      } else {
        Cut(g.leafSize, items, slot, data[..]);
        items := items[..slot];
      }
    }

    method DelMiddle(slot: nat, nr: nat)
      requires Valid() && slot + nr < |items| && 0 < nr && HeaderBytes(g, |items| - nr) <= HeaderBytes(g, |items|)
      modifies this`items, data
      ensures Valid() && Items() == old(Items())[..slot] + old(Items())[slot + nr..]
    {
      ghost var hs, d := items, data[..];
      assert |d| == g.leafSize;
      var lastOff, dataEnd := items[slot + nr - 1].offset, DataEnd();
      var dsize := RangeSize(slot, nr);
      RangeBounds(hs, g.leafSize, slot, nr);
      CutOut(slot, nr, lastOff, dsize);
      RangeDeleted(g.leafSize, hs, d, slot, nr, dataEnd, lastOff, dsize, items, data[..]);
    }

    /** The moves of a deletion: data, offsets, headers. */
    method CutOut(slot: nat, nr: nat, lastOff: int, dsize: int)
      requires slot + nr <= |items| && dsize >= 0 && data.Length == g.leafSize && HeaderBytes(g, |items|) <= DataEnd()
      requires Movable(g.leafSize, DataEnd() + dsize, DataEnd(), lastOff - DataEnd())
      modifies this`items, data
      ensures items == old(items)[..slot] + Rebase(old(items)[slot + nr..], dsize)
      ensures data[..] == Moved(old(data[..]), old(DataEnd()) + dsize, old(DataEnd()), lastOff - old(DataEnd()))
    {
      ghost var hs := items;
      var dataEnd := DataEnd();
      MoveData(dataEnd + dsize, dataEnd, lastOff - dataEnd);
      ShiftOffsets(slot + nr, dsize);
      Splice(hs, slot, nr, Rebase(hs[slot + nr..], dsize));
      items := items[..slot] + items[slot + nr..];  // memmove_leaf_items
    }

    /** What extending and truncating have in common: the data pointers from item slot on move by delta,
        the bytes below `cut` move along, and the header of item slot gets its new size. */
    method Resize(slot: nat, cut: int, delta: int, key: Key)
      requires slot < |items| && delta <= items[slot].size && data.Length == g.leafSize
      requires Movable(data.Length, DataEnd() + delta, DataEnd(), cut - DataEnd())
      requires HeaderBytes(g, |items|) <= DataEnd() + delta
      modifies this`items, data
      ensures Resized(old(items), old(data[..]), slot, cut, delta, key, items, data[..])
    {
      ghost var hs, d := items, data[..];
      var dataEnd := DataEnd();
      assert |d| == g.leafSize && End(|d|, hs) == dataEnd;
      ShiftOffsets(slot, delta);
      MoveData(dataEnd + delta, dataEnd, cut - dataEnd);
      ShiftedIsRefitted(hs, slot, delta, Header(key, hs[slot].offset + delta, hs[slot].size - delta));
      items := items[slot := Header(key, items[slot].offset, items[slot].size - delta)];
    }

    method GrowItem(slot: nat, dataSize: nat)
      requires Valid() && slot < |items| && HeaderBytes(g, |items|) <= DataEnd() - dataSize
      modifies this`items, data
      ensures Valid() && |Items()| == |old(Items())|
      ensures exists tail: seq<Byte> ::
              |tail| == dataSize && Items() == old(Items())[slot := Extended(old(Items())[slot], tail)]
    {
      ghost var hs, d := items, data[..];
      DataBounds(hs, g.leafSize, slot);
      Resize(slot, items[slot].offset + items[slot].size, 0 - dataSize, items[slot].key);
      ghost var tail := Extend(hs, d, slot, dataSize, items, data[..]);
    }

    /** btrfs_extend_item.  The source stops the machine when there is no room. */
    method ExtendItem(slot: nat, dataSize: nat)
      requires Valid() && slot < |items| && dataSize <= FreeSpace(g, Items())
      modifies this`items, data
      ensures Valid() && |Items()| == |old(Items())|
      ensures exists tail: seq<Byte> ::
              |tail| == dataSize && Items() == old(Items())[slot := Extended(old(Items())[slot], tail)]
    {
      var free := LeafFreeSpace();
      assert free >= dataSize;
      GrowItem(slot, dataSize);
    }

    /** setup_items_for_insert: room for a batch of items, whose bytes are not written yet.  The source
        stops the machine when there is no room. */
    method SetupItems(slot: nat, keys: seq<Key>, sizes: seq<nat>)
      requires Valid() && slot <= |items| && |keys| == |sizes|
      requires Sum(sizes) + HeaderBytes(g, |keys|) <= FreeSpace(g, Items())
      modifies this`items, data
      ensures Valid()
      ensures exists added ::
              Described(added, keys, sizes) && Items() == old(Items())[..slot] + added + old(Items())[slot..]
    {
      var free := LeafFreeSpace();
      assert free >= Sum(sizes) + HeaderBytes(g, |keys|);
      HeaderRoom(g, |items|, |keys|, DataEnd() - Sum(sizes));
      PlaceBatch(slot, keys, sizes);
    }

    method PlaceBatch(slot: nat, keys: seq<Key>, sizes: seq<nat>)
      requires Valid() && slot <= |items| && |keys| == |sizes|
      requires HeaderBytes(g, |items|) <= DataEnd() - Sum(sizes)
      requires HeaderBytes(g, |items| + |keys|) <= DataEnd() - Sum(sizes)
      modifies this`items, data
      ensures Valid()
      ensures exists added ::
              Described(added, keys, sizes) && Items() == old(Items())[..slot] + added + old(Items())[slot..]
    {
      ghost var hs, d := items, data[..];
      var news := OpenGap(slot, keys, sizes, Sum(sizes));
      ghost var added := BatchInserted(hs, d, slot, keys, sizes, items, data[..]);
    }

    method OpenGap(slot: nat, keys: seq<Key>, sizes: seq<nat>, total: nat) returns (news: seq<Header>)
      requires slot <= |items| && |keys| == |sizes| && data.Length == g.leafSize && Laid(g.leafSize, items)
      requires HeaderBytes(g, |items|) <= DataEnd() - total && 0 <= HeaderBytes(g, |items|)
      modifies this`items, data
      ensures news == NewHeaders(Top(g.leafSize, old(items), slot), keys, sizes)
      ensures Opened(old(items), old(data[..]), slot, news, total, items, data[..])
    {
      ghost var hs, d := items, data[..];
      var dataEnd, top := DataEnd(), Top(g.leafSize, items, slot);
      TopDescends(g.leafSize, hs, slot, |hs|);
      MoveDown(slot, dataEnd, top, total);
      news := BatchHeaders(top, keys, sizes);
      InsertHeaders(slot, news, hs, Rebase(hs[slot..], 0 - total));
      GapOpened(hs, d, slot, news, total, dataEnd, top, items, data[..]);
    }

    /** memmove_leaf_items, then the new headers */
    method InsertHeaders(slot: nat, news: seq<Header>, ghost hs: seq<Header>, ghost rest: seq<Header>)
      requires slot <= |hs| && items == hs[..slot] + rest
      modifies this`items
      ensures items == hs[..slot] + news + rest
    {
      SpliceIn(hs, slot, news, rest);
      items := items[..slot] + news + items[slot..];
    }

    /** Unless the new items go to the end, the offsets from item slot on and the data below `top` move down. */
    method MoveDown(slot: nat, dataEnd: int, top: int, total: nat)
      requires slot <= |items| && Movable(data.Length, dataEnd - total, dataEnd, top - dataEnd)
      requires HeaderBytes(g, |items|) <= dataEnd - total && (slot == |items| ==> top == dataEnd)
      modifies this`items, data
      ensures items == old(items)[..slot] + Rebase(old(items)[slot..], 0 - total)
      ensures data[..] == Moved(old(data[..]), dataEnd - total, dataEnd, top - dataEnd)
    {
      if slot != |items| {
        ShiftOffsets(slot, 0 - total);
        MoveData(dataEnd - total, dataEnd, top - dataEnd);
      } else {
        NothingMoved(data[..], dataEnd - total, dataEnd);
      }
    }

    /** write_extent_buffer over the data of one item. */
    method WriteItem(slot: nat, bytes: seq<Byte>)
      requires Valid() && slot < |items| && |bytes| == |Items()[slot].data|
      modifies data
      ensures Valid() && Items() == old(Items())[slot := Item(old(Items())[slot].key, bytes)]
    {
      DataSize(slot);
      ghost var d := data[..];
      LaidInRange(g.leafSize, items, g.leafSize);
      WriteBytes(data, items[slot].offset, bytes);
      Within(items, d, data[..], slot);
    }

    /** A batch inserted and written: the leaf of a path after btrfs_insert_empty_items and the writes. */
    method InsertItems(slot: nat, batch: seq<Item>)
      requires Valid() && slot <= |items| && Used(g, batch) <= FreeSpace(g, Items())
      modifies this`items, data
      ensures Valid() && Items() == old(Items())[..slot] + batch + old(Items())[slot..]
    {
      ghost var was := Items();
      var keys, sizes := KeysAndSizes(batch);
      UsedBySizes(g, batch, keys, sizes);
      SetupItems(slot, keys, sizes);
      ghost var added :| Described(added, keys, sizes) && Items() == was[..slot] + added + was[slot..];
      FillItems(slot, batch, was, added);
    }

    /** The bytes of a batch written, one item after the other. */
    method FillItems(slot: nat, batch: seq<Item>, ghost was: seq<Item>, ghost added: seq<Item>)
      requires Valid() && slot <= |was| && Items() == was[..slot] + added + was[slot..]
      requires |added| == |batch| && forall i :: 0 <= i < |batch| ==>
                 added[i].key == batch[i].key && |added[i].data| == |batch[i].data|
      modifies data
      ensures Valid() && Items() == was[..slot] + batch + was[slot..]
    {
      PartlyEnds(was, slot, batch, added);
      var i := 0;
      while i < |batch|
        invariant i <= |batch| && Valid() && Items() == Partly(was, slot, batch, added, i)
      {
        FillItem(slot, batch, i, was, added);
        i := i + 1;
      }
    }

    method FillItem(slot: nat, batch: seq<Item>, i: nat, ghost was: seq<Item>, ghost added: seq<Item>)
      requires Valid() && slot <= |was| && i < |batch| == |added| && Items() == Partly(was, slot, batch, added, i)
      requires added[i].key == batch[i].key && |added[i].data| == |batch[i].data|
      modifies data
      ensures Valid() && Items() == Partly(was, slot, batch, added, i + 1)
    {
      FillNext(was, slot, batch, added, i);
      WriteItem(slot + i, batch[i].data);
    }

    /** split_item */
    method SplitItem(slot: nat, newKey: Key, splitOffset: nat) returns (ret: int)
      requires Valid() && slot < |items| && splitOffset <= |Items()[slot].data|
      modifies this`items, data
      ensures Valid() && (ret == ENOSPC <==> old(FreeSpace(g, Items())) < g.itemSize) && (ret == 0 || ret == ENOSPC)
      ensures ret == ENOSPC ==> Items() == old(Items())
      ensures ret == 0 ==> Items() == old(Items())[..slot]
                           + [Item(old(Items())[slot].key, old(Items())[slot].data[..splitOffset]),
                               Item(newKey, old(Items())[slot].data[splitOffset..])]
                           + old(Items())[slot + 1..]
    {
      var free := LeafFreeSpace();
      if free < g.itemSize {
        return ENOSPC;
      }
      HeaderRoom(g, |items|, 1, DataEnd());
      DivideItem(slot, newKey, splitOffset);
      return 0;
    }

    method DivideItem(slot: nat, newKey: Key, splitOffset: nat)
      requires Valid() && slot < |items| && splitOffset <= |Items()[slot].data|
      requires HeaderBytes(g, |items| + 1) <= DataEnd()
      modifies this`items, data
      ensures Valid()
      ensures Items() == old(Items())[..slot]
                         + [Item(old(Items())[slot].key, old(Items())[slot].data[..splitOffset]),
                             Item(newKey, old(Items())[slot].data[splitOffset..])]
                         + old(Items())[slot + 1..]
    {
      DataSize(slot);
      ghost var hs, d := items, data[..];
      var h := items[slot];
      var buf := data[h.offset..h.offset + h.size];
      assert buf == Abstract(hs, d)[slot].data;
      var x, y := Header(h.key, h.offset + h.size - splitOffset, splitOffset),
          Header(newKey, h.offset, h.size - splitOffset);
      WriteHalves(h.offset, buf, splitOffset);
      SplitLaid(hs, d, slot, x, y, data[..]);
      items := items[..slot] + [x] + ([y] + items[slot + 1..]);
    }

    method WriteHalves(o: int, buf: seq<Byte>, at: nat)
      requires 0 <= o && o + |buf| <= data.Length && at <= |buf|
      modifies data
      ensures var d, d' := old(data[..]), data[..];
              && d'[..o] == d[..o] && d'[o + |buf|..] == d[o + |buf|..]
              && d'[o..o + |buf| - at] == buf[at..] && d'[o + |buf| - at..o + |buf|] == buf[..at]
    {
      SplitBytes(data[..], o, buf, at);
      WriteBytes(data, o + |buf| - at, buf[..at]);
      WriteBytes(data, o, buf[at..]);
    }

    /** The loops that lay all data areas out again from the end of the leaf: they arrive at the one layout
        with these keys and sizes. */
    method Relay(ghost want: seq<Header>)
      requires Laid(g.leafSize, want) && SameShape(items, want)
      modifies this`items
      ensures items == want
    {
      var space, i: nat := g.leafSize, 0;
      while i < |items|
        invariant i <= |items| == |want| && space == Top(g.leafSize, want, i)
        invariant forall k :: 0 <= k < |items| ==> items[k].key == want[k].key && items[k].size == want[k].size
        invariant forall k :: 0 <= k < i ==> items[k] == want[k]
      {
        assert LaidAt(g.leafSize, want, i);
        space := space - items[i].size;
        items := items[i := items[i].(offset := space)];
        i := i + 1;
      }
    }

    lemma {:induction false} DataSize(slot: nat)
      requires Valid() && slot < |items|
      ensures |Items()[slot].data| == items[slot].size && Items()[slot].key == items[slot].key
      ensures 0 <= DataEnd() <= items[slot].offset && items[slot].offset + items[slot].size <= g.leafSize
    {
      DataBounds(items, g.leafSize, slot);
      LaidInRange(g.leafSize, items, g.leafSize);
    }

    /** btrfs_truncate_item with from_end. */
    method TruncateItemEnd(slot: nat, newSize: nat)
      requires Valid() && slot < |items| && newSize <= |Items()[slot].data|
      modifies this`items, data
      ensures Valid()
      ensures Items() == old(Items())[slot := HeadItem(old(Items())[slot], newSize)]
    {
      DataSize(slot);
      if items[slot].size != newSize {
        CutEnd(slot, newSize);
      } else {
        NoCut(Items(), slot);
      }
    }

    method CutEnd(slot: nat, newSize: nat)
      requires Valid() && slot < |items| && newSize <= |Items()[slot].data|
      modifies this`items, data
      ensures Valid()
      ensures Items() == old(Items())[slot := HeadItem(old(Items())[slot], newSize)]
    {
      DataSize(slot);
      ghost var hs, d := items, data[..];
      assert |d| == g.leafSize;
      var cut, diff := items[slot].offset + newSize, items[slot].size - newSize;
      Resize(slot, cut, diff, items[slot].key);
      TruncateEnd(hs, d, slot, newSize, cut, diff, items, data[..]);
    }

    /** btrfs_truncate_item without from_end: bytes go from the front and the key's offset grows. */
    method TruncateItemFront(slot: nat, newSize: nat)
      requires Valid() && slot < |items| && newSize <= |Items()[slot].data| && FrontCutOk(Items()[slot], newSize)
      modifies this`items, data
      ensures Valid()
      ensures Items() == old(Items())[slot := TruncatedFront(old(Items())[slot], newSize)]
    {
      DataSize(slot);
      if items[slot].size == newSize {
        NoFrontCut(Items()[slot]);
      } else {
        CopyInlineHeader(slot, items[slot].size - newSize);
        CutAfterCopy(old(Items()), Items(), slot, newSize);
        CutFront(slot, newSize);
      }
    }

    method CutFront(slot: nat, newSize: nat)
      requires Valid() && slot < |items| && newSize <= |Items()[slot].data|
      modifies this`items, data
      ensures Valid()
      ensures Items() == old(Items())[slot := CutItem(old(Items())[slot], newSize)]
    {
      DataSize(slot);
      var h := items[slot];
      ghost var hs, d := items, data[..];
      Resize(slot, h.offset, h.size - newSize, CutKey(h.key, h.size, newSize));
      TruncateFront(hs, d, slot, newSize, items, data[..]);
    }

    /** An inline extent keeps its header when its front is cut. */
    method CopyInlineHeader(slot: nat, diff: nat)
      requires Valid() && slot < |items| && diff <= |Items()[slot].data|
      requires FrontCutOk(Items()[slot], |Items()[slot].data| - diff)
      modifies data
      ensures Valid() && |Items()[slot].data| == |old(Items())[slot].data|
      ensures Items() == old(Items())[slot := Item(old(Items())[slot].key, Items()[slot].data)]
      ensures Items()[slot].data[diff..] == FrontCut(old(Items())[slot], |old(Items())[slot].data| - diff)
    {
      DataSize(slot);
      var h := items[slot];
      ghost var it := Items()[slot];
      assert it == ItemOf(h, data[..]);
      if h.key.kind == EXTENT_DATA_KEY && data[h.offset + TYPE_OFFSET] == FILE_EXTENT_INLINE {
        MoveInlineHeader(slot, diff);
        FrontCutInline(it.data, diff, Items()[slot].data);
      } else {
        SameItem(Items(), slot);
      }
    }

    method MoveInlineHeader(slot: nat, diff: nat)
      requires Valid() && slot < |items| && diff + INLINE_DATA_START <= items[slot].size
      modifies data
      ensures Valid() && Items() == old(Items())[slot := InlineMoved(old(Items())[slot], diff)]
    {
      var o := items[slot].offset;
      InlineFront(g.leafSize, items, data[..], slot, diff, o);
      Memmove(data, o + diff, o, INLINE_DATA_START);
    }
  }

  lemma {:induction false} SameItem(items: seq<Item>, slot: nat)
    requires slot < |items|
    ensures items == items[slot := Item(items[slot].key, items[slot].data)]
  {
  }

  /** The items up to i are written. */
  ghost function Partly(was: seq<Item>, slot: nat, batch: seq<Item>, added: seq<Item>, i: nat): seq<Item>
    requires slot <= |was| && i <= |batch| == |added|
  {
    was[..slot] + (batch[..i] + added[i..]) + was[slot..]
  }

  lemma {:induction false} PartlyEnds(was: seq<Item>, slot: nat, batch: seq<Item>, added: seq<Item>)
    requires slot <= |was| && |batch| == |added|
    ensures Partly(was, slot, batch, added, 0) == was[..slot] + added + was[slot..]
    ensures Partly(was, slot, batch, added, |batch|) == was[..slot] + batch + was[slot..]
  {
    assert batch[..0] + added[0..] == added;
    assert batch[..|batch|] + added[|batch|..] == batch;
  }

  /** Writing item i is one step further. */
  lemma {:induction false} FillNext(was: seq<Item>, slot: nat, batch: seq<Item>, added: seq<Item>, i: nat)
    requires slot <= |was| && i < |batch| == |added| && added[i].key == batch[i].key
    ensures var now := Partly(was, slot, batch, added, i);
            && slot + i < |now| && now[slot + i] == added[i]
            && now[slot + i := Item(added[i].key, batch[i].data)] == Partly(was, slot, batch, added, i + 1)
  {
  }

  method KeysAndSizes(batch: seq<Item>) returns (keys: seq<Key>, sizes: seq<nat>)
    ensures Described(batch, keys, sizes)
  {
    keys := seq(|batch|, i requires 0 <= i < |batch| => batch[i].key);
    sizes := seq(|batch|, i requires 0 <= i < |batch| => |batch[i].data|);
  }

  lemma {:induction false} UsedBySizes(g: Geometry, batch: seq<Item>, keys: seq<Key>, sizes: seq<nat>)
    requires Described(batch, keys, sizes)
    ensures Used(g, batch) == Sum(sizes) + HeaderBytes(g, |batch|)
  {
    if batch != [] {
      var n := |batch| - 1;
      UsedBySizes(g, batch[..n], keys[..n], sizes[..n]);
    }
  }

  /** The loop that fills in the new headers. */
  method BatchHeaders(top: int, keys: seq<Key>, sizes: seq<nat>) returns (news: seq<Header>)
    requires |keys| == |sizes|
    ensures news == NewHeaders(top, keys, sizes)
  {
    var dataEnd, i := top, 0;
    news := [];
    while i < |keys|
      invariant 0 <= i <= |keys| && news == NewHeaders(top, keys[..i], sizes[..i]) && dataEnd == End(top, news)
    {
      dataEnd := dataEnd - sizes[i];
      assert keys[..i + 1][..i] == keys[..i] && sizes[..i + 1][..i] == sizes[..i];
      news := news + [Header(keys[i], dataEnd, sizes[i])];
      i := i + 1;
    }
    assert keys[..|keys|] == keys && sizes[..|sizes|] == sizes;
  }

  lemma {:induction false} NothingMoved(d: seq<Byte>, dst: int, src: int)
    requires Movable(|d|, dst, src, 0)
    ensures Moved(d, dst, src, 0) == d
  {
  }

  lemma {:induction false} NoCut(items: seq<Item>, slot: nat)
    requires slot < |items|
    ensures items[slot := HeadItem(items[slot], |items[slot].data|)] == items
  {
    assert items[slot].data[..|items[slot].data|] == items[slot].data;
  }

  lemma {:induction false} CutAfterCopy(was: seq<Item>, mid: seq<Item>, slot: nat, newSize: nat)
    requires slot < |was| && newSize <= |was[slot].data| && FrontCutOk(was[slot], newSize) && |mid| == |was|
    requires mid == was[slot := Item(was[slot].key, mid[slot].data)] && |mid[slot].data| == |was[slot].data|
    requires mid[slot].data[|was[slot].data| - newSize..] == FrontCut(was[slot], newSize)
    ensures mid[slot := CutItem(mid[slot], newSize)] == was[slot := TruncatedFront(was[slot], newSize)]
  {
  }

  lemma {:induction false} NoFrontCut(item: Item)
    requires FrontCutOk(item, |item.data|)
    ensures TruncatedFront(item, |item.data|) == item
  {
  }

  predicate SameShape(a: seq<Header>, b: seq<Header>)
  {
    |a| == |b| && forall i :: 0 <= i < |a| ==> a[i].key == b[i].key && a[i].size == b[i].size
  }

  lemma {:induction false} RebaseShape(a: seq<Header>, x: int, b: seq<Header>, y: int)
    ensures SameShape(a, Rebase(a, x)) && SameShape(a + b, Rebase(a, x) + Rebase(b, y))
  {
  }

  /** Two different leaves of one file system. */
  ghost predicate Two(a: Leaf, b: Leaf)
    reads a, b
  {
    a != b && a.data != b.data && a.g == b.g && a.Valid() && b.Valid()
  }

  /** The space the last items of a leaf take, from the layout. */
  lemma {:induction false} TailSpace(leaf: Leaf, m: nat)
    requires leaf.Valid() && m <= |leaf.items|
    ensures var top, end := Top(leaf.g.leafSize, leaf.items, m), leaf.DataEnd();
            && 0 <= end <= top <= leaf.g.leafSize
            && Used(leaf.g, leaf.Items()[m..]) == HeaderBytes(leaf.g, |leaf.items| - m) + top - end
  {
    var size, hs, d := leaf.g.leafSize, leaf.items, leaf.data[..];
    Cut(size, hs, m, d);
    UsedIsLayout(leaf.g, Top(size, hs, m), hs[m..], d);
  }

  lemma {:induction false} HeadSpace(leaf: Leaf, k: nat)
    requires leaf.Valid() && k <= |leaf.items|
    ensures var top := Top(leaf.g.leafSize, leaf.items, k);
            && 0 <= leaf.DataEnd() <= top <= leaf.g.leafSize
            && Used(leaf.g, leaf.Items()[..k]) == HeaderBytes(leaf.g, k) + leaf.g.leafSize - top
  {
    var size, hs, d := leaf.g.leafSize, leaf.items, leaf.data[..];
    Cut(size, hs, k, d);
    UsedIsLayout(leaf.g, size, hs[..k], d);
  }

  /** The move of __push_leaf_right. */
  method PushRight(left: Leaf, right: Leaf, pushItems: nat)
    requires Two(left, right) && 0 < pushItems <= |left.items|
    requires Used(left.g, left.Items()[|left.items| - pushItems..]) <= FreeSpace(right.g, right.Items())
    modifies left`items, right`items, right.data
    ensures Two(left, right)
    ensures left.Items() == old(left.Items())[..|old(left.Items())| - pushItems]
    ensures right.Items() == old(left.Items())[|old(left.Items())| - pushItems..] + old(right.Items())
  {
    PushRoom(left, right, pushItems);
    MoveTail(left, right, |left.items| - pushItems, left.Items(), right.Items());
  }

  method MoveTail(left: Leaf, right: Leaf, m: nat, ghost li: seq<Item>, ghost ri: seq<Item>)
    requires Two(left, right) && m < |left.items| && RoomFor(left, right, m)
    requires li == left.Items() && ri == right.Items()
    modifies left`items, right`items, right.data
    ensures Two(left, right) && left.Items() == li[..m] && right.Items() == li[m..] + ri
  {
    PrependTail(left, right, m, li, ri);
    DropTail(left, m);
    assert right.Items() == li[m..] + ri;
  }

  method DropTail(left: Leaf, m: nat)
    requires left.Valid() && m <= |left.items|
    modifies left`items
    ensures left.Valid() && left.Items() == old(left.Items())[..m]
  {
    Cut(left.g.leafSize, left.items, m, left.data[..]);
    HeaderBytesLess(left.g, m, |left.items|);
    left.items := left.items[..m];
  }

  /** There is room in the right leaf for headers and data of the items from m on of the left one. */
  ghost predicate RoomFor(left: Leaf, right: Leaf, m: nat)
    requires m <= |left.items|
    reads left, right
  {
    var size, lo, hi, end := right.g.leafSize, left.DataEnd(), Top(right.g.leafSize, left.items, m), right.DataEnd();
    && 0 <= lo <= hi <= size && end <= size && 0 <= HeaderBytes(right.g, |right.items|) <= end - (hi - lo)
    && HeaderBytes(right.g, |right.items| + (|left.items| - m)) <= end - (hi - lo)
  }

  /** The last items of the left leaf fit into the right one: so do their headers and their data. */
  lemma {:induction false} PushRoom(left: Leaf, right: Leaf, pushItems: nat)
    requires Two(left, right) && 0 < pushItems <= |left.items|
    requires Used(left.g, left.Items()[|left.items| - pushItems..]) <= FreeSpace(right.g, right.Items())
    ensures RoomFor(left, right, |left.items| - pushItems)
  {
    RoomForTail(left, right, |left.items| - pushItems);
  }

  lemma {:induction false} RoomForTail(left: Leaf, right: Leaf, m: nat)
    requires Two(left, right) && m < |left.items|
    requires Used(left.g, left.Items()[m..]) <= FreeSpace(right.g, right.Items())
    ensures RoomFor(left, right, m)
  {
    var size, hr := right.g.leafSize, right.items;
    TailSpace(left, m);
    LaidInRange(size, hr, size);
    UsedIsLayout(right.g, size, hr, right.data[..]);
    HeaderRoom(right.g, |hr|, |left.items| - m, right.DataEnd() - (Top(size, left.items, m) - left.DataEnd()));
  }

  method PrependTail(left: Leaf, right: Leaf, m: nat, ghost li: seq<Item>, ghost ri: seq<Item>)
    requires Two(left, right) && m < |left.items| && RoomFor(left, right, m)
    requires li == left.Items() && ri == right.Items()
    modifies right`items, right.data
    ensures Two(left, right) && left.Items() == li && right.Items() == li[m..] + ri
  {
    ghost var dr := right.data[..];
    var lo, hi := left.DataEnd(), Top(right.g.leafSize, left.items, m);
    CopyIntoTop(left, right, lo, hi);
    assert left.Items() == li;
    PrependHeaders(left, right, m, lo, hi, dr, li, ri);
  }

  /** The bytes are in place; dr is what the right leaf held before. */
  method PrependHeaders(left: Leaf, right: Leaf, m: nat, lo: int, hi: int, ghost dr: seq<Byte>, ghost li: seq<Item>,
          ghost ri: seq<Item>)
    requires left != right && left.g == right.g && left.Valid() && m < |left.items|
    requires |dr| == right.g.leafSize == right.data.Length && Laid(|dr|, right.items) && InRange(|dr|, right.items)
    requires lo == left.DataEnd() && hi == Top(|dr|, left.items, m) && 0 <= lo <= hi <= |dr|
    requires ToppedUp(dr, right.DataEnd(), left.data[..][lo..hi], right.data[..])
    requires HeaderBytes(right.g, |right.items| + (|left.items| - m)) <= right.DataEnd() - (hi - lo)
    requires li == left.Items() && ri == Abstract(right.items, dr)
    modifies right`items
    ensures right.Valid() && left.Valid() && left.Items() == li && right.Items() == li[m..] + ri
  {
    ghost var want := Rebase(left.items[m..], |dr| - hi) + Rebase(right.items, lo - hi);
    PushedRight(|dr|, left.items, left.data[..], m, lo, hi, right.items, dr, right.data[..]);
    TakeHeaders(left, right, m, want);
  }

  /** The headers of the left leaf from m on in front of those of the right one, all laid out again. */
  method TakeHeaders(left: Leaf, right: Leaf, m: nat, ghost want: seq<Header>)
    requires left != right && m <= |left.items| && Laid(right.g.leafSize, want)
    requires exists x, y :: want == Rebase(left.items[m..], x) + Rebase(right.items, y)
    modifies right`items
    ensures right.items == want
  {
    ghost var x, y :| want == Rebase(left.items[m..], x) + Rebase(right.items, y);
    RebaseShape(left.items[m..], x, right.items, y);
    right.items := left.items[m..] + right.items;
    right.Relay(want);
  }

  method CopyIntoTop(left: Leaf, right: Leaf, lo: int, hi: int)
    requires left.data != right.data && 0 <= lo <= hi <= left.data.Length && right.data.Length == right.g.leafSize
    requires 0 <= HeaderBytes(right.g, |right.items|) <= right.DataEnd() - (hi - lo)
    requires right.DataEnd() <= right.g.leafSize
    modifies right.data
    ensures left.data[..] == old(left.data[..])
    ensures ToppedUp(old(right.data[..]), right.DataEnd(), left.data[..][lo..hi], right.data[..])
  {
    var bytes := left.data[lo..hi];
    OpenTop(right, hi - lo, bytes);
    assert bytes == left.data[..][lo..hi];
  }

  /** All data moves down to make room at the end of the leaf, and the room is filled. */
  method OpenTop(right: Leaf, space: int, bytes: seq<Byte>)
    requires 0 <= space == |bytes| && right.data.Length == right.g.leafSize
    requires 0 <= HeaderBytes(right.g, |right.items|) <= right.DataEnd() - space && right.DataEnd() <= right.g.leafSize
    modifies right.data
    ensures ToppedUp(old(right.data[..]), right.DataEnd(), bytes, right.data[..])
  {
    var size, dataEnd := right.g.leafSize, right.DataEnd();
    MovedAndPasted(right.data[..], dataEnd, bytes);
    right.MoveData(dataEnd - space, dataEnd, size - dataEnd);
    WriteBytes(right.data, size - space, bytes);
  }

  /** The move of __push_leaf_left. */
  method PushLeft(left: Leaf, right: Leaf, pushItems: nat)
    requires Two(left, right) && 0 < pushItems <= |right.items|
    requires Used(right.g, right.Items()[..pushItems]) <= FreeSpace(left.g, left.Items())
    modifies left`items, left.data, right`items, right.data
    ensures Two(left, right)
    ensures left.Items() == old(left.Items()) + old(right.Items())[..pushItems]
    ensures right.Items() == old(right.Items())[pushItems..]
  {
    AppendHead(left, right, pushItems);
    DropHead(right, pushItems);
  }

  method AppendHead(left: Leaf, right: Leaf, pushItems: nat)
    requires Two(left, right) && 0 < pushItems <= |right.items|
    requires Used(right.g, right.Items()[..pushItems]) <= FreeSpace(left.g, left.Items())
    modifies left`items, left.data
    ensures Two(left, right) && left.Items() == old(left.Items()) + right.Items()[..pushItems]
  {
    ghost var dl := left.data[..];
    var low, dataEnd := right.items[pushItems - 1].offset, left.DataEnd();
    AppendRoom(left, right, pushItems);
    WriteBytes(left.data, dataEnd - (left.g.leafSize - low), right.data[low..]);
    AppendHeaders(left, right, pushItems, low, dl);
  }

  /** The first k items of the right leaf fit into the left one: so do their headers and their data. */
  lemma {:induction false} AppendRoom(left: Leaf, right: Leaf, k: nat)
    requires Two(left, right) && 0 < k <= |right.items|
    requires Used(right.g, right.Items()[..k]) <= FreeSpace(left.g, left.Items())
    ensures var size, low, end := left.g.leafSize, right.items[k - 1].offset, left.DataEnd();
            && 0 <= low <= size && 0 <= end <= size && size - low <= end
            && HeaderBytes(left.g, |left.items| + k) <= end - (size - low)
  {
    var size, hl := left.g.leafSize, left.items;
    HeadSpace(right, k);
    LaidInRange(size, hl, size);
    UsedIsLayout(left.g, size, hl, left.data[..]);
    HeaderRoom(left.g, |hl|, k, left.DataEnd() - (size - Top(size, right.items, k)));
  }

  /** The bytes are in place; dl is what the left leaf held before. */
  method AppendHeaders(left: Leaf, right: Leaf, k: nat, low: int, ghost dl: seq<Byte>)
    requires left != right && left.g == right.g && right.Valid() && 0 < k <= |right.items|
    requires |dl| == left.g.leafSize == left.data.Length && Laid(|dl|, left.items) && InRange(|dl|, left.items)
    requires low == right.items[k - 1].offset && 0 <= low <= |dl| && |dl| - low <= left.DataEnd() <= |dl|
    requires left.data[..] == Pasted(dl, left.DataEnd() - (|dl| - low), right.data[..][low..])
    requires HeaderBytes(left.g, |left.items| + k) <= left.DataEnd() - (|dl| - low)
    modifies left`items
    ensures left.Valid() && left.Items() == Abstract(old(left.items), dl) + right.Items()[..k]
  {
    ghost var hl, want := left.items, left.items + Rebase(right.items[..k], left.DataEnd() - |dl|);
    PushedLeft(hl, dl, k, right.items, right.data[..], left.data[..]);
    JoinHeaders(left, right.items[..k], left.DataEnd() - left.g.leafSize);
    assert left.items == want;
  }

  method JoinHeaders(left: Leaf, hs: seq<Header>, delta: int)
    modifies left`items
    ensures left.items == old(left.items) + Rebase(hs, delta)
  {
    var nr := |left.items|;
    left.items := left.items + hs;
    assert left.items[..nr] == old(left.items) && left.items[nr..] == hs;
    left.ShiftOffsets(nr, delta);
  }

  method DropHead(right: Leaf, pushItems: nat)
    requires right.Valid() && 0 < pushItems <= |right.items|
    modifies right`items, right.data
    ensures right.Valid() && right.Items() == old(right.Items())[pushItems..]
  {
    ghost var hr, dr := right.items, right.data[..];
    var size, lo, hi := right.g.leafSize, right.DataEnd(), right.items[pushItems - 1].offset;
    TopDescends(size, hr, pushItems, |hr|);
    HeaderBytesLess(right.g, |hr| - pushItems, |hr|);
    MoveTailUp(right, pushItems < |right.items|, lo, hi);
    TailAlone(size, hr, dr, pushItems, lo, hi, right.data[..]);
    KeepTail(right, pushItems, Rebase(hr[pushItems..], size - hi));
  }

  /** The bytes [lo, hi) go to the end of the leaf. */
  method MoveTailUp(right: Leaf, any: bool, lo: int, hi: int)
    requires 0 <= lo <= hi <= right.data.Length == right.g.leafSize && HeaderBytes(right.g, |right.items|) <= lo
    requires (!any ==> lo == hi)
    modifies right.data
    ensures right.data[..][right.g.leafSize - (hi - lo)..] == old(right.data[..])[lo..hi]
  {
    ghost var dr := right.data[..];
    if any {
      right.MoveData(right.g.leafSize - (hi - lo), lo, hi - lo);
    }
    EndsWith(dr, right.g.leafSize - (hi - lo), lo, hi - lo, right.data[..]);
  }

  method KeepTail(right: Leaf, m: nat, ghost want: seq<Header>)
    requires m <= |right.items| && Laid(right.g.leafSize, want)
    requires exists x :: want == Rebase(right.items[m..], x)
    modifies right`items
    ensures right.items == want
  {
    ghost var x :| want == Rebase(right.items[m..], x);
    RebaseShape(right.items[m..], x, [], 0);
    right.items := right.items[m..];
    right.Relay(want);
  }

  lemma {:induction false} EndsWith(d: seq<Byte>, dst: int, src: int, len: int, d': seq<Byte>)
    requires Movable(|d|, dst, src, len) && dst + len == |d|
    requires d' == Moved(d, dst, src, len) || (len == 0 && d' == d)
    ensures |d'| == |d| && d'[dst..] == d[src..src + len]
  {
    assert d'[dst..] == d'[dst..dst + len];
  }

  /** copy_for_split: the items from mid on go into an empty leaf. */
  method CopyForSplit(left: Leaf, right: Leaf, mid: nat)
    requires Two(left, right) && mid < |left.items|
    modifies left`items, right`items, right.data
    ensures Two(left, right)
    ensures left.Items() == old(left.Items())[..mid] && right.Items() == old(left.Items())[mid..]
  {
    TakeTail(left, right, mid);
    DropTail(left, mid);
  }

  method TakeTail(left: Leaf, right: Leaf, mid: nat)
    requires Two(left, right) && mid < |left.items|
    modifies right`items, right.data
    ensures Two(left, right) && right.Items() == left.Items()[mid..]
  {
    var lo, hi := left.DataEnd(), left.items[mid].offset + left.items[mid].size;
    AloneRoom(left, mid);
    CopyToEnd(right, left.data[lo..hi]);
    TakeAlone(left, right, mid, lo, hi);
  }

  /** The items from mid on have room in a leaf of their own. */
  lemma {:induction false} AloneRoom(left: Leaf, mid: nat)
    requires left.Valid() && mid < |left.items|
    ensures var size, lo, hi := left.g.leafSize, left.DataEnd(), left.items[mid].offset + left.items[mid].size;
            && hi == Top(size, left.items, mid) && 0 <= lo <= hi <= size
            && HeaderBytes(left.g, |left.items| - mid) <= size - (hi - lo)
  {
    var size, hl := left.g.leafSize, left.items;
    assert LaidAt(size, hl, mid);
    TopDescends(size, hl, mid, |hl|);
    HeaderBytesLess(left.g, |hl| - mid, |hl|);
  }

  method CopyToEnd(right: Leaf, bytes: seq<Byte>)
    requires |bytes| <= right.data.Length
    modifies right.data
    ensures right.data[..][right.data.Length - |bytes|..] == bytes
  {
    var k := right.data.Length - |bytes|;
    WriteBytes(right.data, k, bytes);
    assert right.data[..][k..] == right.data[..][k..k + |bytes|];
  }

  /** The bytes are in place. */
  method TakeAlone(left: Leaf, right: Leaf, mid: nat, lo: int, hi: int)
    requires left != right && left.g == right.g && left.Valid() && mid < |left.items|
            && right.data.Length == left.g.leafSize
    requires lo == left.DataEnd() && hi == Top(left.g.leafSize, left.items, mid) && 0 <= lo <= hi <= left.g.leafSize
    requires right.data[..][left.g.leafSize - (hi - lo)..] == left.data[..][lo..hi]
    requires HeaderBytes(left.g, |left.items| - mid) <= left.g.leafSize - (hi - lo)
    modifies right`items
    ensures right.Valid() && right.Items() == left.Items()[mid..]
  {
    ghost var want := Rebase(left.items[mid..], left.g.leafSize - hi);
    TailAlone(left.g.leafSize, left.items, left.data[..], mid, lo, hi, right.data[..]);
    TakeRebased(left, right, mid, left.g.leafSize - hi);
    assert right.items == want && |want| == |left.items| - mid;
  }

  method TakeRebased(left: Leaf, right: Leaf, mid: nat, delta: int)
    requires left != right && mid <= |left.items|
    modifies right`items
    ensures right.items == Rebase(left.items[mid..], delta)
  {
    right.items := [];
    JoinHeaders(right, left.items[mid..], delta);
  }

  function TruncatedFront(item: Item, newSize: nat): Item
    requires newSize <= |item.data| && FrontCutOk(item, newSize)
  {
    Item(item.key.(offset := item.key.offset + |item.data| - newSize), FrontCut(item, newSize))
  }

  /** What truncation from the front leaves of an item's data: the last bytes, and of an inline extent its
      header as well. */
  function FrontCut(item: Item, newSize: nat): seq<Byte>
    requires newSize <= |item.data| && FrontCutOk(item, newSize)
  {
    var diff := |item.data| - newSize;
    if IsInline(item) then item.data[..INLINE_DATA_START] + item.data[diff + INLINE_DATA_START..] else item.data[diff..]
  }

  predicate IsInline(item: Item)
  {
    item.key.kind == EXTENT_DATA_KEY && |item.data| >= INLINE_DATA_START && item.data[TYPE_OFFSET] == FILE_EXTENT_INLINE
  }

  /** A file extent item holds at least the common header, and an inline one is not cut shorter. */
  predicate FrontCutOk(item: Item, newSize: nat)
  {
    (item.key.kind == EXTENT_DATA_KEY ==> |item.data| >= INLINE_DATA_START)
        && (IsInline(item) ==> newSize >= INLINE_DATA_START)
  }

  lemma {:induction false} FrontCutInline(x: seq<Byte>, diff: nat, y: seq<Byte>)
    requires diff + INLINE_DATA_START <= |x| && y == x[..diff] + x[..INLINE_DATA_START] + x[diff + INLINE_DATA_START..]
    ensures |y| == |x| && y[diff..] == x[..INLINE_DATA_START] + x[diff + INLINE_DATA_START..]
  {
  }

  lemma {:induction false} DataBounds(hs: seq<Header>, size: nat, slot: nat)
    requires Laid(size, hs) && slot < |hs|
    ensures 0 <= End(size, hs) <= hs[slot].offset && hs[slot].offset + hs[slot].size <= size
  {
    assert LaidAt(size, hs, slot);
    TopDescends(size, hs, slot + 1, |hs|);
    TopDescends(size, hs, slot, slot);
  }

  lemma {:induction false} Splice<T>(hs: seq<T>, slot: nat, nr: nat, b: seq<T>)
    requires slot + nr <= |hs|
    ensures (hs[..slot + nr] + b)[..slot] + (hs[..slot + nr] + b)[slot + nr..] == hs[..slot] + b
  {
  }

  lemma {:induction false} SpliceIn<T>(hs: seq<T>, slot: nat, news: seq<T>, b: seq<T>)
    requires slot <= |hs|
    ensures (hs[..slot] + b)[..slot] + news + (hs[..slot] + b)[slot..] == hs[..slot] + news + b
    ensures slot == |hs| ==> hs[..slot] + news + hs[slot..] == hs[..slot] + news + []
  {
  }

  lemma {:induction false} ShiftedIsRefitted(hs: seq<Header>, slot: nat, delta: int, h: Header)
    requires slot < |hs| && delta <= hs[slot].size
    requires h.offset == hs[slot].offset + delta && h.size == hs[slot].size - delta
    ensures (hs[..slot] + Rebase(hs[slot..], delta))[slot := h] == Refitted(hs, slot, delta, h.key)
    ensures (hs[..slot] + Rebase(hs[slot..], delta))[slot] == hs[slot].(offset := hs[slot].offset + delta)
  {
  }
}
