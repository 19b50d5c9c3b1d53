/** Making room in a leaf: the leaves under one level-1 node, the path's position among them, and the
    operations that move items between neighbouring leaves or split a leaf. */
module LeafPath {
  import opened Common
  import opened Ctree
  import opened Errno
  import opened TreePath

  predicate Fits(g: Geometry, rows: seq<seq<Item>>)
  {
    forall i :: 0 <= i < |rows| ==> Used(g, rows[i]) <= g.leafSize
  }

  /** The key kept in the parent for a leaf is the leaf's first key. */
  predicate KeysOk(keys: seq<Key>, rows: seq<seq<Item>>)
  {
    |keys| == |rows| && forall i :: 0 <= i < |rows| && rows[i] != [] ==> keys[i] == rows[i][0].key
  }

  predicate Sorted(items: seq<Item>)
  {
    forall i, j :: 0 <= i < j < |items| ==> Less(items[i].key, items[j].key)
  }

  /** The space that n items from the end of a leaf need in the right neighbour; if the path's item is
      among them, or behind them all, so is the space asked for. */
  function SpaceRight(g: Geometry, left: seq<Item>, pos: nat, dataSize: nat, n: nat): nat
    requires n <= |left|
  {
    if n == 0 then (if pos >= |left| then dataSize else 0)
    else
      SpaceRight(g, left, pos, dataSize, n - 1) + g.itemSize + |left[|left| - n].data|
      + if pos == |left| - n then dataSize else 0
  }

  lemma {:induction false} SpaceRightIsUsed(g: Geometry, left: seq<Item>, pos: nat, dataSize: nat, n: nat)
    requires n <= |left|
    ensures SpaceRight(g, left, pos, dataSize, n)
            == Used(g, left[|left| - n..]) + if pos >= |left| - n then dataSize else 0
    ensures Used(g, left[|left| - n..]) <= Used(g, left)
  {
    if n == 0 {
      assert left[|left|..] == [];
    } else {
      SpaceRightIsUsed(g, left, pos, dataSize, n - 1);
      UsedTail(g, left, |left| - n);
    }
  }

  /** n items have been chosen: may the next one follow?  Once something moves, items before the path's
      place stay, and the path's item itself moves only if that does not leave its leaf the emptier one. */
  predicate MorePushRight(g: Geometry, left: seq<Item>, pos: nat, free: int, dataSize: nat, empty: bool, n: nat)
    requires n < |left|
  {
    && SpaceRight(g, left, pos, dataSize, n + 1) <= free
    && (empty || n == 0 || pos < |left| - 1 - n
        || (pos == |left| - 1 - n && FreeSpace(g, left) + 2 * SpaceRight(g, left, pos, dataSize, n) <= free))
  }

  /** As many as may follow one another, down to slot nr. */
  function PushRightFrom(g: Geometry, left: seq<Item>, pos: nat, free: int, dataSize: nat, empty: bool, nr: nat,
          n: nat): (r: nat)
    requires n <= |left|
    ensures n <= r <= |left|
    decreases |left| - n
  {
    if n < |left| && |left| - 1 - n >= nr && MorePushRight(g, left, pos, free, dataSize, empty, n)
    then PushRightFrom(g, left, pos, free, dataSize, empty, nr, n + 1)
    else n
  }

  /** It stops at the first item that may not follow, and not before. */
  lemma {:induction false} PushRightIsFirstStop(g: Geometry, left: seq<Item>, pos: nat, free: int, dataSize: nat,
          empty: bool, nr: nat, n: nat, m: nat)
    requires n <= m < |left|
    ensures var r := PushRightFrom(g, left, pos, free, dataSize, empty, nr, n);
            && (m < r ==> |left| - 1 - m >= nr && MorePushRight(g, left, pos, free, dataSize, empty, m))
            && (m == r ==> |left| - 1 - m < nr || !MorePushRight(g, left, pos, free, dataSize, empty, m))
    decreases |left| - n
  {
    if n < |left| && |left| - 1 - n >= nr && MorePushRight(g, left, pos, free, dataSize, empty, n) && n < m {
      PushRightIsFirstStop(g, left, pos, free, dataSize, empty, nr, n + 1, m);
    }
  }

  /** What is moved fits; and a leaf that fits as a whole is moved as a whole if it may be emptied. */
  lemma {:induction false} PushRightFits(g: Geometry, left: seq<Item>, pos: nat, free: int, dataSize: nat, empty: bool,
          nr: nat)
    requires |left| > 0
    ensures var n := PushRightFrom(g, left, pos, free, dataSize, empty, nr, 0);
            && (n > 0 ==> Used(g, left[|left| - n..]) <= free) && n <= (if nr < |left| then |left| - nr else 0)
            && (empty && dataSize == 0 && nr == 0 && Used(g, left) <= free ==> n == |left|)
  {
    var n := PushRightFrom(g, left, pos, free, dataSize, empty, nr, 0);
    if n > 0 {
      PushRightIsFirstStop(g, left, pos, free, dataSize, empty, nr, 0, n - 1);
      SpaceRightIsUsed(g, left, pos, dataSize, n);
    }
    if n < |left| {
      PushRightIsFirstStop(g, left, pos, free, dataSize, empty, nr, 0, n);
      SpaceRightIsUsed(g, left, pos, dataSize, n + 1);
    }
  }

  /** How many items __push_leaf_right moves. */
  function PushRightCount(g: Geometry, left: seq<Item>, pos: nat, free: int, dataSize: nat, empty: bool,
          minSlot: nat): (n: nat)
    ensures n <= |left|
  {
    PushRightFrom(g, left, pos, free, dataSize, empty, if empty then 0 else if minSlot > 1 then minSlot else 1, 0)
  }

  /** What the callers need to know of it. */
  method ItemsToPushRight(g: Geometry, left: seq<Item>, pos: nat, free: int, dataSize: nat, empty: bool,
          minSlot: nat) returns (n: nat)
    requires |left| > 0 && g.Valid()
    ensures n <= |left| && (!empty ==> n < |left|)
    ensures n > 0 ==> Used(g, left[|left| - n..]) <= free
    ensures empty && dataSize == 0 && Used(g, left) <= free ==> n == |left|
    ensures n == PushRightCount(g, left, pos, free, dataSize, empty, minSlot)
  {
    var nr := if empty then 0 else if minSlot > 1 then minSlot else 1;
    n := CountPushRight(g, left, pos, free, dataSize, empty, nr);
    PushRightFits(g, left, pos, free, dataSize, empty, nr);
  }

  /** The loop of __push_leaf_right that counts the items to move. */
  method CountPushRight(g: Geometry, left: seq<Item>, pos: nat, free: int, dataSize: nat, empty: bool, nr: nat)
    returns (n: nat)
    requires |left| > 0
    ensures n == PushRightFrom(g, left, pos, free, dataSize, empty, nr, 0)
  {
    var space := if pos >= |left| then dataSize else 0;
    n := 0;
    var i := |left| - 1;
    while i >= nr
      invariant -1 <= i < |left| && n == |left| - 1 - i
      invariant space == SpaceRight(g, left, pos, dataSize, n)
      invariant PushRightFrom(g, left, pos, free, dataSize, empty, nr, n)
              == PushRightFrom(g, left, pos, free, dataSize, empty, nr, 0)
      decreases i
    {
      if !empty && n > 0 {
        if pos > i {
          break;
        }
        if pos == i && FreeSpace(g, left) + space * 2 > free {
          break;
        }
      }
      if pos == i {
        space := space + dataSize;
      }
      if |left[i].data| + g.itemSize + space > free {
        break;
      }
      n := n + 1;
      space := space + |left[i].data| + g.itemSize;
      i := i - 1;
    }
  }

  /** The same for n items from the front of a leaf and the left neighbour. */
  function SpaceLeft(g: Geometry, right: seq<Item>, pos: nat, dataSize: nat, n: nat): nat
    requires n <= |right|
  {
    if n == 0 then 0
    else
      SpaceLeft(g, right, pos, dataSize, n - 1) + g.itemSize + |right[n - 1].data|
      + if pos == n - 1 then dataSize else 0
  }

  lemma {:induction false} SpaceLeftIsUsed(g: Geometry, right: seq<Item>, pos: nat, dataSize: nat, n: nat)
    requires n <= |right|
    ensures SpaceLeft(g, right, pos, dataSize, n) == Used(g, right[..n]) + if pos < n then dataSize else 0
    ensures Used(g, right[..n]) <= Used(g, right)
  {
    if n == 0 {
      assert right[..0] == [];
    } else {
      SpaceLeftIsUsed(g, right, pos, dataSize, n - 1);
      UsedHead(g, right, n - 1);
    }
  }

  predicate MorePushLeft(g: Geometry, right: seq<Item>, pos: nat, free: int, dataSize: nat, empty: bool, n: nat)
    requires n < |right|
  {
    && SpaceLeft(g, right, pos, dataSize, n + 1) <= free
    && (empty || n == 0 || n < pos
        || (pos == n && FreeSpace(g, right) + 2 * SpaceLeft(g, right, pos, dataSize, n) <= free))
  }

  function PushLeftFrom(g: Geometry, right: seq<Item>, pos: nat, free: int, dataSize: nat, empty: bool, nr: nat,
          n: nat): (r: nat)
    requires n <= |right|
    ensures n <= r <= |right|
    decreases |right| - n
  {
    if n < |right| && n < nr && MorePushLeft(g, right, pos, free, dataSize, empty, n)
    then PushLeftFrom(g, right, pos, free, dataSize, empty, nr, n + 1)
    else n
  }

  lemma {:induction false} PushLeftIsFirstStop(g: Geometry, right: seq<Item>, pos: nat, free: int, dataSize: nat,
          empty: bool, nr: nat, n: nat, m: nat)
    requires n <= m < |right|
    ensures var r := PushLeftFrom(g, right, pos, free, dataSize, empty, nr, n);
            && (m < r ==> m < nr && MorePushLeft(g, right, pos, free, dataSize, empty, m))
            && (m == r ==> m >= nr || !MorePushLeft(g, right, pos, free, dataSize, empty, m))
    decreases |right| - n
  {
    if n < |right| && n < nr && MorePushLeft(g, right, pos, free, dataSize, empty, n) && n < m {
      PushLeftIsFirstStop(g, right, pos, free, dataSize, empty, nr, n + 1, m);
    }
  }

  lemma {:induction false} PushLeftFits(g: Geometry, right: seq<Item>, pos: nat, free: int, dataSize: nat, empty: bool,
          nr: nat)
    requires |right| > 0
    ensures var n := PushLeftFrom(g, right, pos, free, dataSize, empty, nr, 0);
            && (n > 0 ==> Used(g, right[..n]) <= free && n <= nr)
            && (empty && dataSize == 0 && nr >= |right| && Used(g, right) <= free ==> n == |right|)
  {
    var n := PushLeftFrom(g, right, pos, free, dataSize, empty, nr, 0);
    if n > 0 {
      PushLeftIsFirstStop(g, right, pos, free, dataSize, empty, nr, 0, n - 1);
      SpaceLeftIsUsed(g, right, pos, dataSize, n);
    }
    if n < |right| {
      PushLeftIsFirstStop(g, right, pos, free, dataSize, empty, nr, 0, n);
      SpaceLeftIsUsed(g, right, pos, dataSize, n + 1);
    }
  }

  function Min(a: int, b: int): int
  {
    if a < b then a else b
  }

  /** How many items __push_leaf_left moves. */
  function PushLeftCount(g: Geometry, right: seq<Item>, pos: nat, free: int, dataSize: nat, empty: bool,
          maxSlot: nat): (n: nat)
    requires right != []
    ensures n <= |right|
  {
    PushLeftFrom(g, right, pos, free, dataSize, empty, Min(if empty then |right| else |right| - 1, maxSlot), 0)
  }

  method ItemsToPushLeft(g: Geometry, right: seq<Item>, pos: nat, free: int, dataSize: nat, empty: bool,
          maxSlot: nat) returns (n: nat)
    requires |right| > 0 && g.Valid()
    ensures n <= |right| && (!empty ==> n < |right|)
    ensures n > 0 ==> Used(g, right[..n]) <= free
    ensures empty && dataSize == 0 && Used(g, right) <= free && maxSlot >= |right| ==> n == |right|
    ensures n == PushLeftCount(g, right, pos, free, dataSize, empty, maxSlot)
  {
    var nr := Min(if empty then |right| else |right| - 1, maxSlot);
    n := CountPushLeft(g, right, pos, free, dataSize, empty, nr);
    PushLeftFits(g, right, pos, free, dataSize, empty, nr);
  }

  /** The loop of __push_leaf_left that counts the items to move. */
  method CountPushLeft(g: Geometry, right: seq<Item>, pos: nat, free: int, dataSize: nat, empty: bool, nr: nat)
    returns (n: nat)
    requires nr <= |right|
    ensures n == PushLeftFrom(g, right, pos, free, dataSize, empty, nr, 0)
  {
    var space := 0;
    n := 0;
    while n < nr
      invariant 0 <= n <= nr
      invariant space == SpaceLeft(g, right, pos, dataSize, n)
      invariant PushLeftFrom(g, right, pos, free, dataSize, empty, nr, n)
              == PushLeftFrom(g, right, pos, free, dataSize, empty, nr, 0)
    {
      if !empty && n > 0 {
        if pos < n {
          break;
        }
        if pos == n && FreeSpace(g, right) + space * 2 > free {
          break;
        }
      }
      if pos == n {
        space := space + dataSize;
      }
      if |right[n].data| + g.itemSize + space > free {
        break;
      }
      space := space + |right[n].data| + g.itemSize;
      n := n + 1;
    }
  }

  /** Neighbouring leaves in one row: the last key on the left is below the first on the right, so
      check_sibling_keys finds nothing to report. */
  lemma {:induction false} SiblingKeysOrdered(rows: seq<seq<Item>>, i: nat)
    requires i + 1 < |rows| && rows[i] != [] && rows[i + 1] != [] && Sorted(Cat(rows))
    ensures Less(rows[i][|rows[i]| - 1].key, rows[i + 1][0].key)
  {
    CatAt(rows, i, |rows[i]| - 1);
    CatAt(rows, i + 1, 0);
    CatPrefix(rows, i);
  }

  /** check_sibling_keys: true means corruption. */
  predicate BadSiblingKeys(left: seq<Item>, right: seq<Item>)
  {
    left != [] && right != [] && CompKeys(left[|left| - 1].key, right[0].key) >= 0
  }

  /** Row i becomes rows x and y, and the key of y is inserted behind that of x. */
  lemma {:induction false} SplitRowOk(g: Geometry, keys: seq<Key>, rows: seq<seq<Item>>, i: nat, x: seq<Item>,
          y: seq<Item>, key: Key)
    requires Fits(g, rows) && |keys| == |rows| && i < |rows|
    requires forall j :: 0 <= j < |rows| && j != i && rows[j] != [] ==> keys[j] == rows[j][0].key
    requires Used(g, x) <= g.leafSize && Used(g, y) <= g.leafSize
    requires (x != [] ==> keys[i] == x[0].key) && (y != [] ==> key == y[0].key)
    ensures Fits(g, rows[..i] + [x, y] + rows[i + 1..])
    ensures KeysOk(keys[..i + 1] + [key] + keys[i + 1..], rows[..i] + [x, y] + rows[i + 1..])
    ensures (rows[..i] + [x, y] + rows[i + 1..])[..i] == rows[..i]
    ensures NonEmpty(rows) && x != [] && y != [] ==> NonEmpty(rows[..i] + [x, y] + rows[i + 1..])
  {
    TwoForOne(rows, i, x, y);
    TwoForOne(keys, i, keys[i], key);
    assert keys[..i + 1] + [key] + keys[i + 1..] == keys[..i] + [keys[i], key] + keys[i + 1..];
  }

  /** Leaf i cut in two at item mid. */
  function SplitAt(rows: seq<seq<Item>>, i: nat, mid: nat): (r: seq<seq<Item>>)
    requires i < |rows| && mid <= |rows[i]|
  {
    rows[..i] + [rows[i][..mid], rows[i][mid..]] + rows[i + 1..]
  }

  lemma {:induction false} SplitAtOk(g: Geometry, keys: seq<Key>, rows: seq<seq<Item>>, i: nat, mid: nat)
    requires Fits(g, rows) && KeysOk(keys, rows) && i < |rows| && mid < |rows[i]|
    ensures var r, keys' := SplitAt(rows, i, mid), keys[..i + 1] + [rows[i][mid].key] + keys[i + 1..];
            && Fits(g, r) && KeysOk(keys', r) && Cat(r) == Cat(rows) && keys'[0] == keys[0]
            && |r| == |rows| + 1 && r[i] == rows[i][..mid] && r[i + 1] == rows[i][mid..]
            && |Cat(r[..i])| == |Cat(rows[..i])| && |Cat(r[..i + 1])| == |Cat(rows[..i])| + mid
            && (0 < mid && NonEmpty(rows) ==> NonEmpty(r))
  {
    var l := rows[i];
    assert l == l[..mid] + l[mid..];
    CatSplitRow(rows, i, l[..mid], l[mid..]);
    UsedSplit(g, l, mid);
    SplitRowOk(g, keys, rows, i, l[..mid], l[mid..], l[mid].key);
  }

  /** Rows i and i + 1 become x and y. */
  lemma {:induction false} NeighboursOk(g: Geometry, keys: seq<Key>, rows: seq<seq<Item>>, i: nat, x: seq<Item>,
          y: seq<Item>, key: Key)
    requires Fits(g, rows) && KeysOk(keys, rows) && i + 1 < |rows|
    requires Used(g, x) <= g.leafSize && Used(g, y) <= g.leafSize
    requires (x != [] ==> keys[i] == x[0].key) && (y != [] ==> key == y[0].key) && x + y == rows[i] + rows[i + 1]
    ensures Fits(g, rows[i := x][i + 1 := y]) && KeysOk(keys[i + 1 := key], rows[i := x][i + 1 := y])
    ensures Cat(rows[i := x][i + 1 := y]) == Cat(rows)
    ensures rows[i := x][i + 1 := y][..i] == rows[..i]
    ensures Cat(rows[i := x][i + 1 := y][..i + 1]) == Cat(rows[..i]) + x
  {
    CatNeighbours(rows, i, x, y);
    CatPrefix(rows[i := x][i + 1 := y], i);
  }

  /** s with xs put before element i. */
  function Spliced<T>(s: seq<T>, i: nat, xs: seq<T>): seq<T>
    requires i <= |s|
  {
    s[..i] + xs + s[i..]
  }

  lemma {:induction false} EmptyRowOk(g: Geometry, keys: seq<Key>, rows: seq<seq<Item>>, i: nat, key: Key)
    requires Fits(g, rows) && KeysOk(keys, rows) && i <= |rows|
    ensures var rows', keys' := Spliced(rows, i, [[]]), Spliced(keys, i, [key]);
            && Fits(g, rows') && KeysOk(keys', rows') && keys'[i] == key && (i > 0 ==> keys'[0] == keys[0])
            && (NonEmpty(rows) ==> forall j :: 0 <= j <= |rows| && j != i ==> rows'[j] != [])
  {
    var rows', keys' := Spliced(rows, i, [[]]), Spliced(keys, i, [key]);
    assert forall j :: 0 <= j < |rows'| ==> rows'[j] == (if j < i then rows[j] else if j == i then [] else rows[j - 1]);
    assert forall j :: 0 <= j < |keys'| ==>
        keys'[j] == (if j < i then keys[j] else if j == i then key else keys[j - 1]);
  }

  lemma {:induction false} CatEmptyRow<T>(rows: seq<seq<T>>, i: nat)
    requires i <= |rows|
    ensures var rows' := Spliced(rows, i, [[]]);
            Cat(rows') == Cat(rows) && |rows'| == |rows| + 1 && rows'[i] == [] && Cat(rows'[..i]) == Cat(rows[..i])
  {
    var a, b := rows[..i], rows[i..];
    CatOne<T>([]);
    assert Cat<T>([[]]) == Cat<T>([]);
    CatReplace(a, [[]], [], b);
    assert a + [] + b == rows;
    assert Spliced(rows, i, [[]])[..i] == rows[..i];
  }

  lemma {:induction false} MovedRightRows(rows: seq<seq<Item>>, slot: nat, n: nat)
    requires slot + 1 < |rows| && n <= |rows[slot]| && NonEmpty(rows)
    ensures var r := MovedRight(rows, slot, n);
            && |r| == |rows| && (n < |rows[slot]| ==> NonEmpty(r)) && (n == |rows[slot]| ==> r[slot] == [])
            && forall i :: 0 <= i < |r| && i != slot ==> r[i] != []
  {
  }

  /** The last n items of a leaf in front of those of the next one. */
  function MovedRight(rows: seq<seq<Item>>, slot: nat, n: nat): (r: seq<seq<Item>>)
    requires slot + 1 < |rows| && n <= |rows[slot]|
  {
    var k := |rows[slot]| - n;
    rows[slot := rows[slot][..k]][slot + 1 := rows[slot][k..] + rows[slot + 1]]
  }

  /** The first n items of a leaf behind those of the one before it. */
  function MovedLeft(rows: seq<seq<Item>>, slot: nat, n: nat): (r: seq<seq<Item>>)
    requires 0 < slot < |rows| && n <= |rows[slot]|
  {
    rows[slot - 1 := rows[slot - 1] + rows[slot][..n]][slot := rows[slot][n..]]
  }

  lemma {:induction false} MovedRightOk(g: Geometry, keys: seq<Key>, rows: seq<seq<Item>>, slot: nat, n: nat)
    requires Fits(g, rows) && KeysOk(keys, rows) && slot + 1 < |rows| && 0 < n <= |rows[slot]|
    requires Used(g, rows[slot][|rows[slot]| - n..]) <= FreeSpace(g, rows[slot + 1])
    ensures var r, k := MovedRight(rows, slot, n), |rows[slot]| - n;
            && Fits(g, r) && KeysOk(keys[slot + 1 := rows[slot][k].key], r) && Cat(r) == Cat(rows)
            && |Cat(r[..slot])| == |Cat(rows[..slot])| && |Cat(r[..slot + 1])| == |Cat(rows[..slot])| + k
            && |r| == |rows| && |r[slot]| == k && |r[slot + 1]| == n + |rows[slot + 1]|
  {
    var left, right, k := rows[slot], rows[slot + 1], |rows[slot]| - n;
    UsedSplit(g, left, k);
    UsedCat(g, left[k..], right);
    NeighboursOk(g, keys, rows, slot, left[..k], left[k..] + right, left[k].key);
  }

  lemma {:induction false} MovedLeftOk(g: Geometry, keys: seq<Key>, rows: seq<seq<Item>>, slot: nat, n: nat)
    requires Fits(g, rows) && KeysOk(keys, rows) && 0 < slot < |rows| && rows[slot - 1] != [] && 0 < n <= |rows[slot]|
    requires Used(g, rows[slot][..n]) <= FreeSpace(g, rows[slot - 1])
    ensures var r, l := MovedLeft(rows, slot, n), rows[slot];
            && Fits(g, r) && KeysOk(keys[slot := if n < |l| then l[n].key else l[0].key], r) && Cat(r) == Cat(rows)
            && |Cat(rows[..slot])| == |Cat(rows[..slot - 1])| + |rows[slot - 1]|
            && |Cat(r[..slot - 1])| == |Cat(rows[..slot - 1])| && |Cat(r[..slot])| == |Cat(rows[..slot])| + n
  {
    var left, right := rows[slot - 1], rows[slot];
    UsedSplit(g, right, n);
    UsedCat(g, left, right[..n]);
    CatPrefix(rows, slot - 1);
    var first := if n < |right| then right[n].key else right[0].key;
    NeighboursOk(g, keys, rows, slot - 1, left + right[..n], right[n..], first);
  }

  class Path {
    const g: Geometry
    /** the held nodes above the level-1 node */
    var up: seq<Frame>
    /** keys of the level-1 node, contents of its leaves, path->slots[1], path->slots[0] */
    var keys: seq<Key>
    var rows: seq<seq<Item>>
    var slot: nat
    var pos: nat
    /** leaves allocated so far */
    var allocs: nat

    /** Leaves fit, keys are right all the way up, the path is in place. */
    predicate Sound()
      reads this
    {
      && g.Valid()
      && slot < |rows| && pos <= |rows[slot]|
      && Fits(g, rows)
      && KeysOk(keys, rows)
      && LowKeysOk(up, keys[0])
    }

    predicate Valid()
      reads this
    {
      Sound() && Sorted(Cat(rows))
    }

    constructor (g: Geometry, up: seq<Frame>, keys: seq<Key>, rows: seq<seq<Item>>, slot: nat, pos: nat)
      ensures this.g == g && this.up == up && this.keys == keys && this.rows == rows && this.slot == slot
              && this.pos == pos
      ensures allocs == 0
    {
      this.g, this.up, this.keys, this.rows, this.slot, this.pos, allocs := g, up, keys, rows, slot, pos, 0;
    }

    /** fixup_low_keys from level 1 on: the key goes into the path's slot of the level-1 node, and up from
        there only if that is slot 0. */
    method FixupLowKeys(key: Key)
      requires slot < |keys| && LowKeysOk(up, keys[0])
      modifies this`keys, this`up
      ensures keys == old(keys)[slot := key] && LowKeysOk(up, keys[0]) && Rekeyed(old(up), up)
      ensures slot != 0 ==> up == old(up)
    {
      keys := keys[slot := key];
      if slot == 0 {
        up := TreePath.FixupLowKeys(up, key, old(keys)[0]);
      }
    }

    /** push_leaf_right with __push_leaf_right. */
    method PushLeafRight(minDataSize: nat, dataSize: int, empty: bool, minSlot: nat) returns (ret: int)
      requires Valid() && NonEmpty(rows)
      modifies this`keys, this`rows, this`slot, this`pos
      ensures Valid() && (ret == 0 || ret == 1)
      ensures ret == 1 ==> keys == old(keys) && rows == old(rows) && slot == old(slot) && pos == old(pos)
      ensures |rows| == |old(rows)| && Cat(rows) == old(Cat(rows)) && At(rows, slot, pos) == old(At(rows, slot, pos))
      ensures forall i :: 0 <= i < |rows| && i != old(slot) ==> rows[i] != []
      ensures !empty ==> NonEmpty(rows)
      ensures old(pos < |rows[slot]|) ==> pos < |rows[slot]|
      ensures ret == 0 && empty && minDataSize == 0 && dataSize == old(Used(g, rows[slot])) ==> rows[old(slot)] == []
      ensures old(slot + 1 == |rows| || FreeSpace(g, rows[slot + 1]) < dataSize) ==> ret == 1
      ensures old(slot + 1 < |rows| && FreeSpace(g, rows[slot + 1]) >= dataSize && !empty && pos == |rows[slot]|) ==>
                ret == 0 && rows == old(rows)
      ensures old(slot + 1 < |rows| && FreeSpace(g, rows[slot + 1]) >= dataSize && (empty || pos < |rows[slot]|)) ==>
                var n := old(PushRightCount(g, rows[slot], pos, FreeSpace(g, rows[slot + 1]), minDataSize, empty,
                    minSlot));
                if n == 0 then ret == 1 else ret == 0 && rows == old(MovedRight(rows, slot, n))
    {
      if slot >= |rows| - 1 {
        return 1;
      }
      var left, right := rows[slot], rows[slot + 1];
      var free := FreeSpace(g, right);
      if free < dataSize {
        return 1;
      }
      SiblingKeysOrdered(rows, slot);
      if BadSiblingKeys(left, right) {
        return EUCLEAN;
      }
      if pos == |left| && !empty {
        StepRight();
        return 0;
      }
      ret := PushItemsRight(free, minDataSize, empty, minSlot);
    }

    /** __push_leaf_right, with `free` bytes free in the right leaf. */
    method PushItemsRight(free: int, dataSize: nat, empty: bool, minSlot: nat) returns (ret: int)
      requires Valid() && NonEmpty(rows) && slot + 1 < |rows| && free == FreeSpace(g, rows[slot + 1])
      modifies this`keys, this`rows, this`slot, this`pos
      ensures Valid() && |rows| == |old(rows)|
      ensures Cat(rows) == old(Cat(rows)) && At(rows, slot, pos) == old(At(rows, slot, pos))
      ensures forall i :: 0 <= i < |rows| && i != old(slot) ==> rows[i] != []
      ensures !empty ==> NonEmpty(rows)
      ensures old(pos < |rows[slot]|) ==> pos < |rows[slot]|
      ensures empty && dataSize == 0 && old(Used(g, rows[slot])) <= free ==> ret == 0 && rows[old(slot)] == []
      ensures var n := old(PushRightCount(g, rows[slot], pos, free, dataSize, empty, minSlot));
              if n == 0 then ret == 1 && keys == old(keys) && rows == old(rows) && slot == old(slot) && pos == old(pos)
              else ret == 0 && rows == old(MovedRight(rows, slot, n))
    {
      var n := ItemsToPushRight(g, rows[slot], pos, free, dataSize, empty, minSlot);
      if n == 0 {
        return 1;
      }
      MovedRightRows(rows, slot, n);
      MoveRight(n);
      return 0;
    }

    /** From behind the last item of a leaf to the first item of the next one. */
    method StepRight()
      requires Valid() && slot + 1 < |rows| && pos == |rows[slot]|
      modifies this`slot, this`pos
      ensures Valid() && At(rows, slot, pos) == old(At(rows, slot, pos))
      ensures slot == old(slot) + 1 && pos == 0
    {
      CatPrefix(rows, slot);
      slot := slot + 1;
      pos := 0;
    }

    /** The moving half of __push_leaf_right: the last n items of the path's leaf go to the right one. */
    method MoveRight(n: nat)
      requires Valid() && slot + 1 < |rows| && 0 < n <= |rows[slot]|
      requires Used(g, rows[slot][|rows[slot]| - n..]) <= FreeSpace(g, rows[slot + 1])
      modifies this`keys, this`rows, this`slot, this`pos
      ensures Valid()
      ensures rows == old(MovedRight(rows, slot, n))
      ensures Cat(rows) == old(Cat(rows)) && At(rows, slot, pos) == old(At(rows, slot, pos))
      ensures old(pos < |rows[slot]|) ==> pos < |rows[slot]|
    {
      var k := |rows[slot]| - n;
      MoveRowsRight(n);
      if pos >= k {
        pos := pos - k;
        slot := slot + 1;
      }
    }

    method MoveRowsRight(n: nat)
      requires Fits(g, rows) && KeysOk(keys, rows) && slot + 1 < |rows| && 0 < n <= |rows[slot]|
      requires Used(g, rows[slot][|rows[slot]| - n..]) <= FreeSpace(g, rows[slot + 1])
      modifies this`keys, this`rows
      ensures Fits(g, rows) && KeysOk(keys, rows) && Cat(rows) == old(Cat(rows))
              && rows == old(MovedRight(rows, slot, n))
      ensures |rows| == |old(rows)| && |rows[slot]| == |old(rows[slot])| - n
              && |rows[slot + 1]| == n + |old(rows[slot + 1])|
      ensures |Cat(rows[..slot])| == |Cat(old(rows)[..slot])|
      ensures |Cat(rows[..slot + 1])| == |Cat(old(rows)[..slot])| + |rows[slot]| && keys[0] == old(keys[0])
    {
      var keys', rows' := keys[slot + 1 := rows[slot][|rows[slot]| - n].key], MovedRight(rows, slot, n);
      MovedRightOk(g, keys, rows, slot, n);
      keys, rows := keys', rows';
    }

    /** push_leaf_left with __push_leaf_left. */
    method PushLeafLeft(minDataSize: nat, dataSize: int, empty: bool, maxSlot: nat) returns (ret: int)
      requires Valid() && NonEmpty(rows)
      modifies this`keys, this`rows, this`slot, this`pos
      ensures Valid() && (ret == 0 || ret == 1)
      ensures ret == 1 ==> keys == old(keys) && rows == old(rows) && slot == old(slot) && pos == old(pos)
      ensures |rows| == |old(rows)| && Cat(rows) == old(Cat(rows)) && At(rows, slot, pos) == old(At(rows, slot, pos))
      ensures forall i :: 0 <= i < |rows| && i != old(slot) ==> rows[i] != []
      ensures !empty ==> NonEmpty(rows)
      ensures old(pos < |rows[slot]|) ==> pos < |rows[slot]|
      ensures slot == old(slot) || slot == old(slot) - 1
      ensures old(slot == 0 || FreeSpace(g, rows[slot - 1]) < dataSize) ==> ret == 1
      ensures old(slot > 0 && FreeSpace(g, rows[slot - 1]) >= dataSize) ==>
                var n := old(PushLeftCount(g, rows[slot], pos, FreeSpace(g, rows[slot - 1]), minDataSize, empty,
                    maxSlot));
                if n == 0 then ret == 1 else ret == 0 && rows == old(MovedLeft(rows, slot, n))
    {
      if slot == 0 {
        return 1;
      }
      var left, right := rows[slot - 1], rows[slot];
      var free := FreeSpace(g, left);
      if free < dataSize {
        return 1;
      }
      SiblingKeysOrdered(rows, slot - 1);
      if BadSiblingKeys(left, right) {
        return EUCLEAN;
      }
      var n := ItemsToPushLeft(g, right, pos, free, minDataSize, empty, maxSlot);
      if n == 0 {
        return 1;
      }
      MoveLeft(n);
      return 0;
    }

    /** The moving half of __push_leaf_left: the first n items of the path's leaf go to the left one, and
        fixup_low_keys stores the leaf's new first key (an emptied leaf still shows its old one).  The leaf
        is not the first one, so the climb ends where it starts. */
    method MoveLeft(n: nat)
      requires Valid() && 0 < slot && rows[slot - 1] != [] && 0 < n <= |rows[slot]|
      requires Used(g, rows[slot][..n]) <= FreeSpace(g, rows[slot - 1])
      modifies this`keys, this`rows, this`slot, this`pos
      ensures Valid()
      ensures rows == old(MovedLeft(rows, slot, n))
      ensures Cat(rows) == old(Cat(rows)) && At(rows, slot, pos) == old(At(rows, slot, pos))
      ensures old(pos < |rows[slot]|) ==> pos < |rows[slot]|
      ensures slot == old(slot) || slot == old(slot) - 1
    {
      var before := |rows[slot - 1]|;
      MovedLeftOk(g, keys, rows, slot, n);
      keys := keys[slot := if n < |rows[slot]| then rows[slot][n].key else rows[slot][0].key];
      rows := MovedLeft(rows, slot, n);
      if pos < n {
        pos := pos + before;
        slot := slot - 1;
      } else {
        pos := pos - n;
      }
    }

    /** copy_for_split: a new leaf right of the path's takes the items from mid on. */
    method CopyForSplit(mid: nat)
      requires Valid() && mid < |rows[slot]|
      modifies this`keys, this`rows, this`slot, this`pos, this`allocs
      ensures Valid() && allocs == old(allocs) + 1
      ensures rows == old(SplitAt(rows, slot, mid)) && |rows| == |old(rows)| + 1
      ensures rows[slot] == old(if mid <= pos then rows[slot][mid..] else rows[slot][..mid])
      ensures 0 < mid && old(NonEmpty(rows)) ==> NonEmpty(rows)
      ensures Cat(rows) == old(Cat(rows)) && At(rows, slot, pos) == old(At(rows, slot, pos))
      ensures if mid <= old(pos) then slot == old(slot) + 1 && pos == old(pos) - mid
              else slot == old(slot) && pos == old(pos)
    {
      SplitRowAt(mid);
      if mid <= pos {
        pos := pos - mid;
        slot := slot + 1;
      }
    }

    /** The copying half: the path's leaf in two, the path not yet looked at. */
    method SplitRowAt(mid: nat)
      requires Fits(g, rows) && KeysOk(keys, rows) && slot < |rows| && mid < |rows[slot]|
      modifies this`keys, this`rows, this`allocs
      ensures rows == old(SplitAt(rows, slot, mid)) && allocs == old(allocs) + 1
      ensures Fits(g, rows) && KeysOk(keys, rows) && Cat(rows) == old(Cat(rows)) && keys[0] == old(keys[0])
      ensures |rows| == |old(rows)| + 1
      ensures rows[slot] == old(rows[slot])[..mid] && rows[slot + 1] == old(rows[slot])[mid..]
      ensures |Cat(rows[..slot])| == |Cat(old(rows)[..slot])|
      ensures |Cat(rows[..slot + 1])| == |Cat(old(rows)[..slot])| + mid
      ensures 0 < mid && old(NonEmpty(rows)) ==> NonEmpty(rows)
    {
      var keys', rows' := keys[..slot + 1] + [rows[slot][mid].key] + keys[slot + 1..], SplitAt(rows, slot, mid);
      SplitAtOk(g, keys, rows, slot, mid);
      keys, rows := keys', rows';
      allocs := allocs + 1;
    }

    /** The split == 0 case of split_leaf: a new empty leaf for the item to come, before or behind. */
    method NewEmptyLeaf(insKey: Key, behind: bool)
      requires Valid() && (if behind then pos == |rows[slot]| else pos == 0)
      modifies this`keys, this`rows, this`slot, this`pos, this`allocs, this`up
      ensures Rekeyed(old(up), up)
      ensures Valid() && allocs == old(allocs) + 1
      ensures slot == (if behind then old(slot) + 1 else old(slot)) && pos == 0 && keys[slot] == insKey
      ensures |rows| == |old(rows)| + 1 && rows[slot] == [] && rows == Spliced(old(rows), slot, [[]])
      ensures old(NonEmpty(rows)) ==> forall i :: 0 <= i < |rows| && i != slot ==> rows[i] != []
      ensures Cat(rows) == old(Cat(rows)) && At(rows, slot, pos) == old(At(rows, slot, pos))
    {
      CatPrefix(rows, slot);
      var i := if behind then slot + 1 else slot;
      AddEmptyLeaf(i, insKey);
      slot, pos := i, 0;
      if i == 0 {
        up := TreePath.FixupLowKeys(up, insKey, old(keys)[0]);
      }
    }

    /** An empty leaf in front of leaf i, the path not yet looked at. */
    method AddEmptyLeaf(i: nat, insKey: Key)
      requires Fits(g, rows) && KeysOk(keys, rows) && i <= |rows|
      modifies this`keys, this`rows, this`allocs
      ensures rows == Spliced(old(rows), i, [[]]) && allocs == old(allocs) + 1
      ensures Fits(g, rows) && KeysOk(keys, rows) && Cat(rows) == old(Cat(rows))
      ensures keys[i] == insKey && (i > 0 ==> keys[0] == old(keys[0])) && |rows| == |old(rows)| + 1 && rows[i] == []
      ensures |Cat(rows[..i])| == |Cat(old(rows)[..i])|
      ensures old(NonEmpty(rows)) ==> forall j :: 0 <= j < |rows| && j != i ==> rows[j] != []
    {
      var keys', rows' := Spliced(keys, i, [insKey]), Spliced(rows, i, [[]]);
      EmptyRowOk(g, keys, rows, i, insKey);
      CatEmptyRow(rows, i);
      keys, rows := keys', rows';
      allocs := allocs + 1;
    }

    /** push_for_double_split; its result is not looked at. */
    method PushForDoubleSplit(dataSize: nat)
      requires Valid() && NonEmpty(rows)
      modifies this`keys, this`rows, this`slot, this`pos
      ensures Valid() && NonEmpty(rows) && |rows| == |old(rows)|
      ensures Cat(rows) == old(Cat(rows)) && At(rows, slot, pos) == old(At(rows, slot, pos))
      ensures old(pos < |rows[slot]|) ==> pos < |rows[slot]|
    {
      var needed: int := dataSize;
      if pos < |rows[slot]| {
        needed := needed - FreeSpace(g, rows[slot]);
      }
      var ret := PushLeafRight(1, needed, false, pos);
      if pos == 0 || pos == |rows[slot]| {
        return;
      }
      if FreeSpace(g, rows[slot]) >= dataSize {
        return;
      }
      needed := dataSize;
      if pos > 0 {
        needed := needed - FreeSpace(g, rows[slot]);
      }
      ret := PushLeafLeft(1, needed, false, pos);
    }

    /** Where split_leaf cuts: split is 0 for a new empty leaf, 1 for a cut at mid, 2 for a cut at mid
        that needs a second one, 3 for the jump to push_for_double. */
    method ChooseSplit(dataSize: nat, extend: bool, tried: bool) returns (split: nat, mid: nat)
      requires Valid() && rows[slot] != [] && FreeSpace(g, rows[slot]) < dataSize
      requires extend ==> pos < |rows[slot]| && dataSize + |rows[slot][pos].data| + g.itemSize <= g.leafSize
      ensures split <= 3 && (split == 3 ==> !tried) && (split >= 2 ==> 0 < pos < |rows[slot]|)
      ensures split == 0 ==> !extend && (mid <= pos <==> pos == |rows[slot]|) && (pos == 0 || pos == |rows[slot]|)
      ensures split == 1 ==> 0 < mid < |rows[slot]|
      ensures split == 1 ==>
              dataSize + Used(g, if mid <= pos then rows[slot][mid..] else rows[slot][..mid]) <= g.leafSize
      ensures split == 2 ==> tried && mid == pos && dataSize + Used(g, rows[slot][mid..]) > g.leafSize
    {
      var l := rows[slot];
      var n := |l|;
      split, mid := 1, (n + 1) / 2;
      assert l[..n] == l;
      if mid <= pos {
        if n == 1 || Used(g, l[mid..]) + dataSize > g.leafSize {
          if pos >= n {
            split := 0;
          } else {
            mid := pos;
            if mid != n && Used(g, l[mid..]) + dataSize > g.leafSize {
              split := if dataSize > 0 && !tried then 3 else 2;
            }
          }
        }
      } else {
        if Used(g, l[..mid]) + dataSize > g.leafSize {
          if !extend && dataSize > 0 && pos == 0 {
            split := 0;
          } else if (extend || dataSize == 0) && pos == 0 {
            mid := 1;
            assert l[..0] == [];
            UsedHead(g, l, 0);
          } else {
            mid := pos;
            if mid != n && Used(g, l[mid..]) + dataSize > g.leafSize {
              split := if dataSize > 0 && !tried then 3 else 2;
            }
          }
        }
      }
    }

    /** One pass of split_leaf from `again` on; `more` is the next jump to it. */
    method SplitOnce(insKey: Key, dataSize: nat, extend: bool, tried: bool) returns (more: bool)
      requires Valid() && NonEmpty(rows) && FreeSpace(g, rows[slot]) < dataSize <= g.leafSize
      requires extend ==> pos < |rows[slot]| && dataSize + |rows[slot][pos].data| + g.itemSize <= g.leafSize
      modifies this`keys, this`rows, this`slot, this`pos, this`allocs, this`up
      ensures Rekeyed(old(up), up)
      ensures Valid() && Cat(rows) == old(Cat(rows)) && At(rows, slot, pos) == old(At(rows, slot, pos))
      ensures extend ==> pos < |rows[slot]|
      ensures old(allocs) <= allocs <= old(allocs) + 1 && |rows| == |old(rows)| + allocs - old(allocs)
      ensures more ==> NonEmpty(rows) && FreeSpace(g, rows[slot]) < dataSize
      ensures more && allocs == old(allocs) ==> !tried
      ensures more && allocs > old(allocs) ==> tried && pos == 0 && old(pos) > 0
      ensures !more ==> FreeSpace(g, rows[slot]) >= dataSize
      ensures !more ==> forall i :: 0 <= i < |rows| && i != slot ==> rows[i] != []
      ensures !more && rows[slot] == [] ==> !extend && pos == 0 && keys[slot] == insKey
    {
      var split, mid := ChooseSplit(dataSize, extend, tried);
      if split == 3 {
        PushForDoubleSplit(dataSize);
        return FreeSpace(g, rows[slot]) < dataSize;
      }
      if split == 0 {
        NewEmptyLeaf(insKey, mid <= pos);
        return false;
      }
      CopyForSplit(mid);
      return split == 2;
    }

    /** The part of split_leaf from `again` on. */
    method SplitAgain(insKey: Key, dataSize: nat, extend: bool)
      requires Valid() && NonEmpty(rows) && allocs == 0 && FreeSpace(g, rows[slot]) < dataSize <= g.leafSize
      requires extend ==> pos < |rows[slot]| && dataSize + |rows[slot][pos].data| + g.itemSize <= g.leafSize
      modifies this`keys, this`rows, this`slot, this`pos, this`allocs, this`up
      ensures Rekeyed(old(up), up)
      ensures Valid() && Cat(rows) == old(Cat(rows)) && At(rows, slot, pos) == old(At(rows, slot, pos))
      ensures FreeSpace(g, rows[slot]) >= dataSize && (extend ==> pos < |rows[slot]|)
      ensures allocs <= 2 && |rows| == |old(rows)| + allocs
      ensures forall i :: 0 <= i < |rows| && i != slot ==> rows[i] != []
      ensures rows[slot] == [] ==> !extend && pos == 0 && keys[slot] == insKey
    {
      var more, numDoubles, tried := true, 0, false;
      ghost var all, it := Cat(rows), At(rows, slot, pos);
      if extend {
        CatAt(rows, slot, pos);
      }
      while more
        invariant Valid() && Cat(rows) == all && At(rows, slot, pos) == it && Rekeyed(old(up), up)
        invariant extend ==> pos < |rows[slot]| && it < |all| && dataSize + |all[it].data| + g.itemSize <= g.leafSize
        invariant |rows| == |old(rows)| + allocs && numDoubles <= 1
        invariant more ==> NonEmpty(rows) && FreeSpace(g, rows[slot]) < dataSize && allocs == numDoubles
        invariant more && numDoubles == 1 ==> tried && pos == 0
        invariant !more ==> FreeSpace(g, rows[slot]) >= dataSize && allocs <= 2
        invariant !more ==> forall i :: 0 <= i < |rows| && i != slot ==> rows[i] != []
        invariant !more && rows[slot] == [] ==> !extend && pos == 0 && keys[slot] == insKey
        decreases more, 1 - numDoubles, !tried
      {
        if extend {
          CatAt(rows, slot, pos);
        }
        var leaves := allocs;
        ghost var held := up;
        more := SplitOnce(insKey, dataSize, extend, tried);
        RekeyedTwice(old(up), held, up);
        if more && allocs > leaves {
          assert numDoubles == 0;  // BUG_ON(num_doubles != 0)
          numDoubles := 1;
        } else if more {
          tried := true;
        }
      }
    }

    /** The first part of split_leaf: make room by pushing items right, or else left. */
    method PushForRoom(dataSize: nat)
      requires Valid() && NonEmpty(rows) && FreeSpace(g, rows[slot]) < dataSize
      modifies this`keys, this`rows, this`slot, this`pos
      ensures Valid() && NonEmpty(rows) && |rows| == |old(rows)|
      ensures Cat(rows) == old(Cat(rows)) && At(rows, slot, pos) == old(At(rows, slot, pos))
      ensures old(pos < |rows[slot]|) ==> pos < |rows[slot]|
    {
      var needed: int := dataSize;
      if pos < |rows[slot]| {
        needed := needed - FreeSpace(g, rows[slot]);
      }
      var wret := PushLeafRight(needed, needed, false, 0);
      if wret != 0 {
        needed := dataSize;
        if pos > 0 {
          needed := needed - FreeSpace(g, rows[slot]);
        }
        wret := PushLeafLeft(needed, needed, false, 0xffff_ffff);
      }
    }

    /** split_leaf.  `hasParent` tells whether the leaf was reached through a level-1 node; if not,
        insert_new_root has just put it alone under a new one. */
    method SplitLeaf(insKey: Key, dataSize: nat, extend: bool, hasParent: bool) returns (ret: int)
      requires Valid() && NonEmpty(rows) && allocs == 0
      requires FreeSpace(g, rows[slot]) < dataSize <= g.leafSize
      requires extend ==> pos < |rows[slot]|
      requires !hasParent ==> |rows| == 1
      modifies this`keys, this`rows, this`slot, this`pos, this`allocs, this`up
      ensures Rekeyed(old(up), up)
      ensures Valid() && (ret == 0 || ret == EOVERFLOW)
      ensures ret == EOVERFLOW <==> extend && dataSize + old(|rows[slot][pos].data|) + g.itemSize > g.leafSize
      ensures Cat(rows) == old(Cat(rows)) && At(rows, slot, pos) == old(At(rows, slot, pos))
      ensures ret == 0 ==> FreeSpace(g, rows[slot]) >= dataSize
      ensures ret == 0 && extend ==> pos < |rows[slot]|
      ensures allocs <= 2 && |rows| == |old(rows)| + allocs
      ensures forall i :: 0 <= i < |rows| && i != slot ==> rows[i] != []
      ensures rows[slot] == [] ==> !extend && pos == 0 && keys[slot] == insKey
    {
      if extend {
        CatAt(rows, slot, pos);
        if dataSize + |rows[slot][pos].data| + g.itemSize > g.leafSize {
          return EOVERFLOW;
        }
      }
      if dataSize > 0 && hasParent {
        PushForRoom(dataSize);
        if FreeSpace(g, rows[slot]) >= dataSize {
          return 0;
        }
      }
      if extend {
        CatAt(rows, slot, pos);
      }
      SplitAgain(insKey, dataSize, extend);
      return 0;
    }

    /** setup_items_for_insert for a batch at the path's place, and the bytes written into the items.  Whether the
        batch belongs there is not looked at. */
    method InsertItems(batch: seq<Item>)
      requires Sound() && batch != [] && Used(g, batch) <= FreeSpace(g, rows[slot])
      requires forall i :: 0 <= i < |rows| && i != slot ==> rows[i] != []
      modifies this`keys, this`rows, this`up
      ensures Rekeyed(old(up), up)
      ensures Sound() && NonEmpty(rows) && rows == old(rows[slot := Spliced(rows[slot], pos, batch)])
      ensures old(At(rows, slot, pos) <= |Cat(rows)|)
      ensures Cat(rows) == Spliced(old(Cat(rows)), old(At(rows, slot, pos)), batch)
    {
      var l := rows[slot];
      InsertInCat(rows, slot, pos, batch);
      UsedInsert(g, l, pos, batch);
      if pos == 0 {
        FixupLowKeys(batch[0].key);
      }
      rows := rows[slot := Spliced(l, pos, batch)];
    }

    /** split_leaf if the leaf lacks room, then the insertion unless the key is there already. */
    method SplitAndInsert(batch: seq<Item>, found: bool, hasParent: bool) returns (ret: int)
      requires Valid() && NonEmpty(rows) && allocs == 0
      requires batch != [] && Used(g, batch) <= g.leafSize
      requires !hasParent ==> |rows| == 1
      requires found ==> pos < |rows[slot]|
      modifies this`keys, this`rows, this`slot, this`pos, this`allocs, this`up
      ensures Rekeyed(old(up), up)
      ensures Sound() && NonEmpty(rows) && |old(rows)| <= |rows| <= |old(rows)| + 2
      ensures ret == 0 || ret == EOVERFLOW
      ensures ret == EOVERFLOW <==> found && Used(g, batch) + old(|rows[slot][pos].data|) > g.leafSize
      ensures found ==> Cat(rows) == old(Cat(rows))
      ensures !found ==> old(At(rows, slot, pos) <= |Cat(rows)|)
      ensures !found ==> Cat(rows) == Spliced(old(Cat(rows)), old(At(rows, slot, pos)), batch)
    {
      var insLen := if found then Used(g, batch) - g.itemSize else Used(g, batch);
      ret := 0;
      if found {
        UsedTail(g, rows[slot], pos);
      }
      if FreeSpace(g, rows[slot]) < insLen {
        ret := SplitLeaf(batch[0].key, insLen, found, hasParent);
      }
      ghost var held := up;
      if !found {
        InsertItems(batch);
        RekeyedTwice(old(up), held, up);
      }
    }

    /** The item at the path's place gets other bytes and another key: btrfs_truncate_item from the front,
        btrfs_set_item_key_safe.  The leaves stay in order exactly if the key fits between its neighbours. */
    method SetItem(item: Item)
      requires Valid() && NonEmpty(rows) && pos < |rows[slot]| && Used(g, rows[slot][pos := item]) <= g.leafSize
      modifies this`keys, this`rows, this`up
      ensures Rekeyed(old(up), up)
      ensures Sound() && NonEmpty(rows) && rows == old(rows[slot := rows[slot][pos := item]])
      ensures old(At(rows, slot, pos) < |Cat(rows)|) && Cat(rows) == old(Cat(rows))[old(At(rows, slot, pos)) := item]
      ensures Valid() <==> FitsBetween(old(Cat(rows)), old(At(rows, slot, pos)), item.key)
    {
      var l := rows[slot];
      SetInCat(rows, slot, pos, item);
      SetInOrder(Cat(rows), At(rows, slot, pos), item);
      if pos == 0 {
        FixupLowKeys(item.key);
      }
      rows := rows[slot := l[pos := item]];
    }

    /** The items leave the leaf (first half of btrfs_del_items). */
    method RemoveItems(nr: nat)
      requires Valid() && NonEmpty(rows) && 0 < nr && pos + nr <= |rows[slot]|
      modifies this`keys, this`rows, this`up
      ensures Rekeyed(old(up), up)
      ensures Valid() && rows == old(rows[slot := Cut(rows[slot], pos, nr)])
      ensures forall i :: 0 <= i < |rows| && i != slot ==> rows[i] != []
      ensures old(At(rows, slot, pos)) + nr <= |old(Cat(rows))|
      ensures Cat(rows) == Cut(old(Cat(rows)), old(At(rows, slot, pos)), nr)
    {
      var l := rows[slot];
      RemoveInCat(rows, slot, pos, nr);
      UsedCut(g, l, pos, nr);
      rows := rows[slot := Cut(l, pos, nr)];
      if pos == 0 && rows[slot] != [] {
        FixupLowKeys(rows[slot][0].key);
      }
    }

    /** btrfs_del_leaf: the pointer to an empty leaf goes; its parent keeps another one.  If it was the first
        pointer, the key of the next one climbs (btrfs_del_ptr). */
    method DelLeaf(i: nat)
      requires Valid() && |rows| >= 2 && i < |rows| && rows[i] == []
      requires forall j :: 0 <= j < |rows| && j != i ==> rows[j] != []
      modifies this`keys, this`rows, this`up
      ensures Fits(g, rows) && KeysOk(keys, rows) && NonEmpty(rows) && rows == Without(old(rows), i)
      ensures LowKeysOk(up, keys[0]) && Rekeyed(old(up), up)
      ensures Cat(rows) == old(Cat(rows))
    {
      CatDropRow(rows, i);
      rows, keys := Without(rows, i), Without(keys, i);
      if i == 0 {
        up := TreePath.FixupLowKeys(up, keys[0], old(keys)[0]);
      }
    }

    /** A leaf less than a third full offers its items to the left neighbour, then, all or none, to the
        right one; if it ends up empty it is deleted. */
    method MergeSmallLeaf()
      requires Valid() && NonEmpty(rows) && |rows| >= 2
      modifies this`keys, this`rows, this`slot, this`pos, this`up
      ensures |old(rows)| - 1 <= |rows| <= |old(rows)|
      ensures Fits(g, rows) && KeysOk(keys, rows) && NonEmpty(rows) && Cat(rows) == old(Cat(rows))
      ensures LowKeysOk(up, keys[0]) && Rekeyed(old(up), up)
    {
      var s := slot;
      var wret := PushLeafLeft(0, g.itemSize + |rows[s][0].data|, true, 0xffff_ffff);
      if slot == s && rows[s] != [] {
        wret := PushLeafRight(0, Used(g, rows[s]), true, 0);
      }
      if rows[s] == [] {
        DelLeaf(s);
      }
    }

    /** btrfs_del_items: nr items from the path's place on. */
    method DelItems(nr: nat)
      requires Valid() && NonEmpty(rows) && |rows| >= 2 && 0 < nr && pos + nr <= |rows[slot]|
      modifies this`keys, this`rows, this`slot, this`pos, this`up
      ensures |old(rows)| - 1 <= |rows| <= |old(rows)|
      ensures Fits(g, rows) && KeysOk(keys, rows) && NonEmpty(rows)
      ensures LowKeysOk(up, keys[0]) && Rekeyed(old(up), up)
      ensures old(At(rows, slot, pos)) + nr <= |old(Cat(rows))|
      ensures Cat(rows) == Cut(old(Cat(rows)), old(At(rows, slot, pos)), nr)
    {
      RemoveItems(nr);
      ghost var held := up;
      if rows[slot] == [] {
        DelLeaf(slot);
        RekeyedTwice(old(up), held, up);
      } else if Used(g, rows[slot]) < g.leafSize / 3 {
        MergeSmallLeaf();
        RekeyedTwice(old(up), held, up);
      }
    }
  }

  /** All items before i are smaller than the batch, all others bigger. */
  predicate Between(items: seq<Item>, i: nat, batch: seq<Item>)
    requires batch != []
  {
    && i <= |items|
    && (forall j :: 0 <= j < i ==> Less(items[j].key, batch[0].key))
    && (forall j :: i <= j < |items| ==> Less(batch[|batch| - 1].key, items[j].key))
  }

  lemma {:induction false} UsedInsert(g: Geometry, items: seq<Item>, i: nat, batch: seq<Item>)
    requires i <= |items|
    ensures Used(g, Spliced(items, i, batch)) == Used(g, items) + Used(g, batch)
  {
    UsedSplit(g, items, i);
    UsedCat(g, items[..i] + batch, items[i..]);
    UsedCat(g, items[..i], batch);
  }

  /** A splice is in order only if the batch is, and lies between what is before and behind it. */
  lemma {:induction false} SplicedOnlyIf(items: seq<Item>, i: nat, batch: seq<Item>)
    requires batch != [] && i <= |items| && Sorted(Spliced(items, i, batch))
    ensures Sorted(batch) && Between(items, i, batch)
  {
    var w, n := Spliced(items, i, batch), |batch|;
    assert forall k :: 0 <= k < n ==> w[i + k] == batch[k];
    assert forall k :: 0 <= k < i ==> w[k] == items[k];
    assert forall k :: i <= k < |items| ==> w[k + n] == items[k];
  }

  lemma {:induction false} InsertSorted(items: seq<Item>, i: nat, batch: seq<Item>)
    requires Sorted(items) && batch != [] && Sorted(batch) && Between(items, i, batch)
    ensures Sorted(Spliced(items, i, batch))
  {
    var w, n := Spliced(items, i, batch), |batch|;
    assert forall k :: 0 <= k < |w| ==>
        w[k] == (if k < i then items[k] else if k < i + n then batch[k - i] else items[k - n]);
    forall x, y | 0 <= x < y < |w|
      ensures Less(w[x].key, w[y].key)
    {
      if x < i <= y < i + n {
        CompKeysIsTotalOrder(w[x].key, batch[0].key, w[y].key);
      } else if i <= x < i + n <= y {
        CompKeysIsTotalOrder(w[x].key, batch[n - 1].key, w[y].key);
      }
    }
  }

  lemma {:induction false} InsertMiddle<T>(a: seq<T>, l: seq<T>, b: seq<T>, pos: nat, xs: seq<T>)
    requires pos <= |l|
    ensures a + Spliced(l, pos, xs) + b == Spliced(a + l + b, |a| + pos, xs)
  {
    var all, i := a + l + b, |a| + pos;
    assert all[..i] == a + l[..pos];
    assert all[i..] == l[pos..] + b;
  }

  lemma {:induction false} InsertInCat<T>(rows: seq<seq<T>>, slot: nat, pos: nat, batch: seq<T>)
    requires slot < |rows| && pos <= |rows[slot]|
    ensures At(rows, slot, pos) <= |Cat(rows)|
    ensures Cat(rows[slot := Spliced(rows[slot], pos, batch)]) == Spliced(Cat(rows), At(rows, slot, pos), batch)
  {
    var l := rows[slot];
    var rows' := rows[slot := Spliced(l, pos, batch)];
    CatParts(rows, slot);
    CatParts(rows', slot);
    assert rows'[..slot] == rows[..slot] && rows'[slot + 1..] == rows[slot + 1..];
    InsertMiddle(Cat(rows[..slot]), l, Cat(rows[slot + 1..]), pos, batch);
  }

  lemma {:induction false} SetInCat<T>(rows: seq<seq<T>>, slot: nat, pos: nat, x: T)
    requires slot < |rows| && pos < |rows[slot]|
    ensures At(rows, slot, pos) < |Cat(rows)|
    ensures Cat(rows[slot := rows[slot][pos := x]]) == Cat(rows)[At(rows, slot, pos) := x]
  {
    var rows' := rows[slot := rows[slot][pos := x]];
    CatParts(rows, slot);
    CatParts(rows', slot);
    assert rows'[..slot] == rows[..slot] && rows'[slot + 1..] == rows[slot + 1..];
    SetMiddle(Cat(rows[..slot]), rows[slot], Cat(rows[slot + 1..]), pos, x);
  }

  lemma {:induction false} SetMiddle<T>(a: seq<T>, l: seq<T>, b: seq<T>, pos: nat, x: T)
    requires pos < |l|
    ensures a + l[pos := x] + b == (a + l + b)[|a| + pos := x]
  {
  }

  /** The key lies between those of the items before and behind i. */
  predicate FitsBetween(items: seq<Item>, i: nat, key: Key)
  {
    && i < |items|
    && (i > 0 ==> Less(items[i - 1].key, key))
    && (i + 1 < |items| ==> Less(key, items[i + 1].key))
  }

  lemma {:induction false} SetInOrder(items: seq<Item>, i: nat, item: Item)
    requires Sorted(items) && i < |items|
    ensures Sorted(items[i := item]) <==> FitsBetween(items, i, item.key)
  {
    var w := items[i := item];
    if Sorted(w) {
      assert i > 0 ==> Less(w[i - 1].key, w[i].key);
      assert i + 1 < |w| ==> Less(w[i].key, w[i + 1].key);
    }
    if FitsBetween(items, i, item.key) {
      forall x, y | 0 <= x < y < |w|
        ensures Less(w[x].key, w[y].key)
      {
        if x < i - 1 && y == i {
          CompKeysIsTotalOrder(w[x].key, items[i - 1].key, item.key);
        } else if x == i && i + 1 < y {
          CompKeysIsTotalOrder(item.key, items[i + 1].key, w[y].key);
        }
      }
    }
  }

  lemma {:induction false} CatParts<T>(rows: seq<seq<T>>, i: nat)
    requires i < |rows|
    ensures Cat(rows) == Cat(rows[..i]) + rows[i] + Cat(rows[i + 1..])
  {
    var a, b := rows[..i], rows[i + 1..];
    assert rows == a + [rows[i]] + b;
    CatCat(a + [rows[i]], b);
    CatCat(a, [rows[i]]);
    CatOne(rows[i]);
  }

  lemma {:induction false} UsedCut(g: Geometry, items: seq<Item>, i: nat, n: nat)
    requires i + n <= |items|
    ensures Used(g, Cut(items, i, n)) <= Used(g, items)
  {
    var rest := items[i..];
    UsedSplit(g, items, i);
    UsedSplit(g, rest, n);
    assert rest[n..] == items[i + n..];
    UsedCat(g, items[..i], items[i + n..]);
  }

  lemma {:induction false} RemoveInCat(rows: seq<seq<Item>>, slot: nat, pos: nat, n: nat)
    requires slot < |rows| && pos + n <= |rows[slot]| && Sorted(Cat(rows))
    ensures At(rows, slot, pos) + n <= |Cat(rows)|
    ensures Cat(rows[slot := Cut(rows[slot], pos, n)]) == Cut(Cat(rows), At(rows, slot, pos), n)
    ensures Sorted(Cut(Cat(rows), At(rows, slot, pos), n))
  {
    var l := rows[slot];
    var rows' := rows[slot := Cut(l, pos, n)];
    CatParts(rows, slot);
    CatParts(rows', slot);
    assert rows'[..slot] == rows[..slot] && rows'[slot + 1..] == rows[slot + 1..];
    var a, b := Cat(rows[..slot]), Cat(rows[slot + 1..]);
    CutMiddle(a, l, b, pos, n);
    CutSorted(Cat(rows), At(rows, slot, pos), n);
  }

  lemma {:induction false} CutMiddle<T>(a: seq<T>, l: seq<T>, b: seq<T>, pos: nat, n: nat)
    requires pos + n <= |l|
    ensures a + Cut(l, pos, n) + b == Cut(a + l + b, |a| + pos, n)
  {
  }

  lemma {:induction false} CutSorted(items: seq<Item>, i: nat, n: nat)
    requires i + n <= |items| && Sorted(items)
    ensures Sorted(Cut(items, i, n))
  {
    assert forall k :: 0 <= k < |items| - n ==> Cut(items, i, n)[k] == items[if k < i then k else k + n];
  }
}
