/** Keys, items and rows of children: the vocabulary shared by the B-tree modules. */
module Ctree {
  newtype Byte = x: int | 0 <= x < 256

  /** struct btrfs_key */
  datatype Key = Key(objectid: nat, kind: nat, offset: nat)

  /** btrfs_comp_cpu_keys */
  function CompKeys(a: Key, b: Key): (r: int)
  {
    if a.objectid > b.objectid then 1
    else if a.objectid < b.objectid then -1
    else if a.kind > b.kind then 1
    else if a.kind < b.kind then -1
    else if a.offset > b.offset then 1
    else if a.offset < b.offset then -1
    else 0
  }

  predicate Less(a: Key, b: Key)
  {
    CompKeys(a, b) < 0
  }

  /** btrfs_comp_cpu_keys is a total order. */
  lemma {:induction false} CompKeysIsTotalOrder(a: Key, b: Key, c: Key)
    ensures CompKeys(a, b) == 0 <==> a == b
    ensures CompKeys(a, b) == -CompKeys(b, a)
    ensures Less(a, b) && Less(b, c) ==> Less(a, c)
  {
  }

  /** An item of a leaf: its key and its bytes. */
  datatype Item = Item(key: Key, data: seq<Byte>)

  /** A block and everything below it. */
  datatype Tree = Leaf(items: seq<Item>) | Node(kids: seq<Kid>)

  /** struct btrfs_key_ptr: the lowest key below a child, and the child. */
  datatype Kid = Kid(key: Key, child: Tree)

  /** sizeof(struct btrfs_item), BTRFS_LEAF_DATA_SIZE and BTRFS_NODEPTRS_PER_BLOCK of a file system. */
  datatype Geometry = Geometry(itemSize: nat, leafSize: nat, nodePtrs: nat)
  {
    predicate Valid()
    {
      itemSize > 0 && leafSize > itemSize && nodePtrs >= 16
    }
  }

  /** Bytes of a leaf taken by the items: headers and data. */
  function Used(g: Geometry, items: seq<Item>): nat
  {
    if items == [] then 0 else Used(g, items[..|items| - 1]) + g.itemSize + |items[|items| - 1].data|
  }

  /** btrfs_leaf_free_space */
  function FreeSpace(g: Geometry, items: seq<Item>): int
  {
    g.leafSize - Used(g, items)
  }

  lemma {:induction false} UsedCat(g: Geometry, a: seq<Item>, b: seq<Item>)
    ensures Used(g, a + b) == Used(g, a) + Used(g, b)
  {
    if b == [] {
      assert a + b == a;
    } else {
      UsedCat(g, a, b[..|b| - 1]);
      assert (a + b)[..|a + b| - 1] == a + b[..|b| - 1];
    }
  }

  lemma {:induction false} UsedTail(g: Geometry, items: seq<Item>, i: nat)
    requires i < |items|
    ensures Used(g, items[i..]) == g.itemSize + |items[i].data| + Used(g, items[i + 1..])
    ensures Used(g, items[i..]) <= Used(g, items)
  {
    assert items[i..] == [items[i]] + items[i + 1..];
    assert items == items[..i] + items[i..];
    UsedCat(g, [items[i]], items[i + 1..]);
    UsedCat(g, items[..i], items[i..]);
    assert [items[i]][..0] == [];
  }

  lemma {:induction false} UsedHead(g: Geometry, items: seq<Item>, i: nat)
    requires i < |items|
    ensures Used(g, items[..i + 1]) == Used(g, items[..i]) + g.itemSize + |items[i].data|
    ensures Used(g, items[..i + 1]) <= Used(g, items)
  {
    assert items[..i + 1][..i] == items[..i];
    assert items == items[..i + 1] + items[i + 1..];
    UsedCat(g, items[..i + 1], items[i + 1..]);
  }

  /** Splitting a leaf's items at k splits the space they take. */
  lemma {:induction false} UsedSplit(g: Geometry, items: seq<Item>, k: nat)
    requires k <= |items|
    ensures Used(g, items) == Used(g, items[..k]) + Used(g, items[k..])
  {
    assert items == items[..k] + items[k..];
    UsedCat(g, items[..k], items[k..]);
  }

  // ---------------------------------------------------------------------------------------------
  // Rows: the contents of the children of one node, left to right

  function Cat<T>(rows: seq<seq<T>>): seq<T>
  {
    if rows == [] then [] else Cat(rows[..|rows| - 1]) + rows[|rows| - 1]
  }

  lemma {:induction false} CatCat<T>(a: seq<seq<T>>, b: seq<seq<T>>)
    ensures Cat(a + b) == Cat(a) + Cat(b)
  {
    if b == [] {
      assert a + b == a;
    } else {
      var b', x := b[..|b| - 1], b[|b| - 1];
      CatCat(a, b');
      assert (a + b)[..|a + b| - 1] == a + b' && (a + b)[|a + b| - 1] == x;
      assert Cat(a) + Cat(b') + x == Cat(a) + (Cat(b') + x);
    }
  }

  lemma {:induction false} CatOne<T>(row: seq<T>)
    ensures Cat([row]) == row
  {
    assert [row][..0] == [];
  }

  /** Any stretch of rows can be exchanged for another with the same contents. */
  lemma {:induction false} CatReplace<T>(a: seq<seq<T>>, mid: seq<seq<T>>, mid': seq<seq<T>>, b: seq<seq<T>>)
    requires Cat(mid) == Cat(mid')
    ensures Cat(a + mid + b) == Cat(a + mid' + b)
  {
    CatCat(a + mid, b);
    CatCat(a, mid);
    CatCat(a + mid', b);
    CatCat(a, mid');
  }

  lemma {:induction false} CatTwo<T>(x: seq<T>, y: seq<T>)
    ensures Cat([x, y]) == x + y
  {
    assert [x, y] == [x] + [y];
    CatCat([x], [y]);
    CatOne(x);
    CatOne(y);
  }

  /** Where position `pos` of row `slot` lies in the concatenation. */
  function At<T>(rows: seq<seq<T>>, slot: nat, pos: nat): nat
    requires slot <= |rows|
  {
    |Cat(rows[..slot])| + pos
  }

  /** An element inside a row is the element of the concatenation at that place. */
  lemma {:induction false} CatAt<T>(rows: seq<seq<T>>, slot: nat, pos: nat)
    requires slot < |rows| && pos < |rows[slot]|
    ensures At(rows, slot, pos) < |Cat(rows)| && Cat(rows)[At(rows, slot, pos)] == rows[slot][pos]
  {
    assert rows == rows[..slot] + [rows[slot]] + rows[slot + 1..];
    CatCat(rows[..slot] + [rows[slot]], rows[slot + 1..]);
    CatCat(rows[..slot], [rows[slot]]);
    CatOne(rows[slot]);
  }

  lemma {:induction false} CatPrefix<T>(rows: seq<seq<T>>, i: nat)
    requires i < |rows|
    ensures Cat(rows[..i + 1]) == Cat(rows[..i]) + rows[i]
  {
    assert rows[..i + 1][..i] == rows[..i];
  }

  predicate NonEmpty<T>(rows: seq<seq<T>>)
  {
    forall i :: 0 <= i < |rows| ==> rows[i] != []
  }

  lemma {:induction false} CatAround<T>(rows: seq<seq<T>>, i: nat)
    requires i + 1 < |rows|
    ensures Cat(rows) == Cat(rows[..i]) + (rows[i] + rows[i + 1]) + Cat(rows[i + 2..])
  {
    var a, b := rows[..i], rows[i + 2..];
    assert rows == a + [rows[i], rows[i + 1]] + b;
    CatCat(a + [rows[i], rows[i + 1]], b);
    CatCat(a, [rows[i], rows[i + 1]]);
    CatTwo(rows[i], rows[i + 1]);
  }

  /** Two neighbouring rows exchange contents. */
  lemma {:induction false} CatNeighbours<T>(rows: seq<seq<T>>, i: nat, x: seq<T>, y: seq<T>)
    requires i + 1 < |rows| && x + y == rows[i] + rows[i + 1]
    ensures Cat(rows[i := x][i + 1 := y]) == Cat(rows)
  {
    CatTwo(x, y);
    CatTwo(rows[i], rows[i + 1]);
    CatReplace(rows[..i], [rows[i], rows[i + 1]], [x, y], rows[i + 2..]);
    assert rows == rows[..i] + [rows[i], rows[i + 1]] + rows[i + 2..];
    assert rows[i := x][i + 1 := y] == rows[..i] + [x, y] + rows[i + 2..];
  }

  /** Element i becomes two elements. */
  lemma {:induction false} TwoForOne<T>(s: seq<T>, i: nat, x: T, y: T)
    requires i < |s|
    ensures var s' := s[..i] + [x, y] + s[i + 1..];
            && |s'| == |s| + 1 && s'[..i] == s[..i]
            && forall j :: 0 <= j < |s'| ==>
                 s'[j] == if j < i then s[j] else if j == i then x else if j == i + 1 then y else s[j - 1]
  {
  }

  /** Row i becomes two rows. */
  lemma {:induction false} CatSplitRow<T>(rows: seq<seq<T>>, i: nat, x: seq<T>, y: seq<T>)
    requires i < |rows| && x + y == rows[i]
    ensures var rows' := rows[..i] + [x, y] + rows[i + 1..];
            && Cat(rows') == Cat(rows) && |rows'| == |rows| + 1 && rows'[i] == x && rows'[i + 1] == y
            && rows'[..i] == rows[..i] && Cat(rows'[..i + 1]) == Cat(rows[..i]) + x
  {
    var a, b := rows[..i], rows[i + 1..];
    assert rows == a + [rows[i]] + b;
    CatTwo(x, y);
    CatOne(rows[i]);
    CatReplace(a, [rows[i]], [x, y], b);
    var rows' := a + [x, y] + b;
    assert rows'[..i] == a && rows'[i] == x;
    CatPrefix(rows', i);
  }

  /** Removing an empty row. */
  lemma {:induction false} CatDropRow<T>(rows: seq<seq<T>>, i: nat)
    requires i < |rows| && rows[i] == []
    ensures Cat(rows[..i] + rows[i + 1..]) == Cat(rows)
  {
    var a, b := rows[..i], rows[i + 1..];
    assert rows == a + [rows[i]] + b;
    CatOne(rows[i]);
    CatReplace(a, [rows[i]], [], b);
    assert a + [] == a;
  }
}