/** The whole B-tree: search, insertion of a batch of items and deletion of a run of items, each as one descent. */
module BTree {
  import opened Common
  import opened Ctree
  import opened Errno
  import opened TreePath
  import LeafPath
  import NodePath

  /** All items below, left to right: the map the tree stands for. */
  function Flat(t: Tree): seq<Item>
  {
    match t
    case Leaf(items) => items
    case Node(kids) => FlatKids(kids)
  }

  function FlatKids(kids: seq<Kid>): seq<Item>
  {
    if kids == [] then [] else FlatKids(kids[..|kids| - 1]) + FlatKid(kids[|kids| - 1])
  }

  function FlatKid(kid: Kid): seq<Item>
  {
    Flat(kid.child)
  }

  function FirstKey(t: Tree): Key
    requires if t.Leaf? then t.items != [] else t.kids != []
  {
    match t
    case Leaf(items) => items[0].key
    case Node(kids) => kids[0].key
  }

  /** Subtrees of height h: leaves fit and are not empty, nodes have between one and all pointers, every
      pointer carries the first key below it. */
  ghost predicate KidsWf(g: Geometry, kids: seq<Kid>, h: nat)
    decreases h, 1
  {
    forall i {:trigger KidWf(g, kids[i], h)} :: 0 <= i < |kids| ==> KidWf(g, kids[i], h)
  }

  ghost predicate KidWf(g: Geometry, kid: Kid, h: nat)
    decreases h, 0
  {
    (if kid.child.Leaf?
     then h == 0 && kid.child.items != [] && Used(g, kid.child.items) <= g.leafSize
     else h > 0 && 1 <= |kid.child.kids| <= g.nodePtrs && KidsWf(g, kid.child.kids, h - 1))
    && kid.key == FirstKey(kid.child)
  }

  predicate Sorted(items: seq<Item>)
  {
    LeafPath.Sorted(items)
  }

  /** Well formed below; only a root leaf may be empty. */
  ghost predicate IsShaped(g: Geometry, t: Tree, h: nat)
  {
    && g.Valid()
    && (if t.Leaf? then h == 0 && Used(g, t.items) <= g.leafSize
        else h > 0 && 1 <= |t.kids| <= g.nodePtrs && KidsWf(g, t.kids, h - 1))
  }

  /** A tree: well formed and in key order. */
  ghost predicate IsTree(g: Geometry, t: Tree, h: nat)
  {
    IsShaped(g, t, h) && Sorted(Flat(t))
  }

  lemma {:induction false} FlatKidsCat(a: seq<Kid>, b: seq<Kid>)
    ensures FlatKids(a + b) == FlatKids(a) + FlatKids(b)
  {
    if b == [] {
      assert a + b == a;
    } else {
      FlatKidsCat(a, b[..|b| - 1]);
      assert (a + b)[..|a + b| - 1] == a + b[..|b| - 1];
    }
  }

  lemma {:induction false} FlatKidsAt(kids: seq<Kid>, i: nat)
    requires i < |kids|
    ensures FlatKids(kids) == FlatKids(kids[..i]) + FlatKid(kids[i]) + FlatKids(kids[i + 1..])
  {
    var a, k, b := kids[..i], kids[i], kids[i + 1..];
    assert kids == a + [k] + b;
    FlatKidsCat(a + [k], b);
    FlatKidsCat(a, [k]);
    assert [k][..0] == [];
  }

  /** The key in a pointer is the key of the first item below it. */
  lemma {:induction false} FirstItem(g: Geometry, kid: Kid, h: nat)
    requires KidWf(g, kid, h)
    ensures FlatKid(kid) != [] && FlatKid(kid)[0].key == kid.key
    decreases h
  {
    if kid.child.Node? {
      var kids := kid.child.kids;
      FirstItem(g, kids[0], h - 1);
      FlatKidsAt(kids, 0);
      assert kids[..0] == [];
    }
  }

  // ---------------------------------------------------------------------------------------------
  // Order

  /** Where a key belongs among sorted items: the first index not below it. */
  ghost predicate IsSlot(items: seq<Item>, key: Key, i: nat)
  {
    && i <= |items|
    && (forall j :: 0 <= j < i ==> Less(items[j].key, key))
    && (forall j :: i <= j < |items| ==> !Less(items[j].key, key))
  }

  ghost predicate Has(items: seq<Item>, key: Key)
  {
    exists j :: 0 <= j < |items| && items[j].key == key
  }

  lemma {:induction false} SlotIsUnique(items: seq<Item>, key: Key, i: nat, j: nat)
    requires IsSlot(items, key, i) && IsSlot(items, key, j)
    ensures i == j
  {
    assert i < |items| ==> !Less(items[i].key, key);
    assert j < |items| ==> !Less(items[j].key, key);
  }

  lemma {:induction false} HasAtSlot(items: seq<Item>, key: Key, i: nat)
    requires Sorted(items) && IsSlot(items, key, i)
    ensures Has(items, key) <==> i < |items| && items[i].key == key
  {
    if Has(items, key) {
      var j :| 0 <= j < |items| && items[j].key == key;
      CompKeysIsTotalOrder(key, key, key);
    }
  }

  /** The keys of a around and b around a middle part. */
  ghost predicate Around(a: seq<Item>, key: Key, b: seq<Item>)
  {
    && (forall j :: 0 <= j < |a| ==> Less(a[j].key, key))
    && (forall j :: 0 <= j < |b| ==> Less(key, b[j].key))
  }

  lemma {:induction false} SlotInMiddle(a: seq<Item>, m: seq<Item>, b: seq<Item>, key: Key, i: nat)
    requires Around(a, key, b) && IsSlot(m, key, i)
    ensures IsSlot(a + m + b, key, |a| + i)
  {
    var w := a + m + b;
    assert forall j :: 0 <= j < |w| ==>
        w[j] == (if j < |a| then a[j] else if j < |a| + |m| then m[j - |a|] else b[j - |a| - |m|]);
    forall j | |a| + i <= j < |w|
      ensures !Less(w[j].key, key)
    {
      if j >= |a| + |m| {
        CompKeysIsTotalOrder(key, w[j].key, key);
      }
    }
  }

  lemma {:induction false} SortedParts(a: seq<Item>, m: seq<Item>, b: seq<Item>)
    requires Sorted(a + m + b)
    ensures Sorted(a) && Sorted(m) && Sorted(b)
    ensures forall i, j :: 0 <= i < |a| && 0 <= j < |m| ==> Less(a[i].key, m[j].key)
    ensures forall i, j :: 0 <= i < |m| && 0 <= j < |b| ==> Less(m[i].key, b[j].key)
  {
    var w := a + m + b;
    assert forall k :: 0 <= k < |a| ==> a[k] == w[k];
    assert forall k :: 0 <= k < |m| ==> m[k] == w[|a| + k];
    assert forall k :: 0 <= k < |b| ==> b[k] == w[|a| + |m| + k];
  }

  // ---------------------------------------------------------------------------------------------
  // Search

  function KeysOf(kids: seq<Kid>): (keys: seq<Key>)
    ensures |keys| == |kids| && forall i :: 0 <= i < |kids| ==> keys[i] == kids[i].key
  {
    seq(|kids|, i requires 0 <= i < |kids| => kids[i].key)
  }

  function ItemKeys(items: seq<Item>): (keys: seq<Key>)
    ensures |keys| == |items| && forall i :: 0 <= i < |items| ==> keys[i] == items[i].key
  {
    seq(|items|, i requires 0 <= i < |items| => items[i].key)
  }

  predicate Ascending(keys: seq<Key>)
  {
    forall i, j :: 0 <= i < j < |keys| ==> Less(keys[i], keys[j])
  }

  /** btrfs_bin_search: 0 and the slot of the key, or 1 and the slot where it would go.  Slots below
      `first` are known to hold smaller keys. */
  method BinSearch(keys: seq<Key>, first: nat, key: Key) returns (ret: int, slot: nat)
    requires Ascending(keys) && first <= |keys| && forall j :: 0 <= j < first ==> Less(keys[j], key)
    ensures slot <= |keys| && (ret == 0 || ret == 1)
    ensures forall j :: 0 <= j < slot ==> Less(keys[j], key)
    ensures ret == 0 ==> slot < |keys| && keys[slot] == key
    ensures ret == 1 ==> forall j :: slot <= j < |keys| ==> Less(key, keys[j])
  {
    var low, high := first, |keys|;
    while low < high
      invariant first <= low <= high <= |keys|
      invariant forall j :: 0 <= j < low ==> Less(keys[j], key)
      invariant forall j :: high <= j < |keys| ==> Less(key, keys[j])
    {
      var mid := (low + high) / 2;
      var cmp := CompKeys(keys[mid], key);
      if cmp < 0 {
        forall j | 0 <= j <= mid
          ensures Less(keys[j], key)
        {
          CompKeysIsTotalOrder(keys[j], keys[mid], key);
        }
        low := mid + 1;
      } else if cmp > 0 {
        forall j | mid <= j < |keys|
          ensures Less(key, keys[j])
        {
          CompKeysIsTotalOrder(key, keys[mid], keys[j]);
          CompKeysIsTotalOrder(keys[mid], key, key);
        }
        high := mid;
      } else {
        CompKeysIsTotalOrder(keys[mid], key, key);
        return 0, mid;
      }
    }
    return 1, low;
  }

  /** search_for_key_slot: after an exact match in the parent the key is the first one here. */
  method SearchForKeySlot(keys: seq<Key>, first: nat, key: Key, prevCmp: int) returns (ret: int, slot: nat)
    requires Ascending(keys) && first <= |keys| && forall j :: 0 <= j < first ==> Less(keys[j], key)
    requires prevCmp == 0 ==> keys != [] && keys[0] == key
    ensures slot <= |keys| && (ret == 0 || ret == 1)
    ensures forall j :: 0 <= j < slot ==> Less(keys[j], key)
    ensures ret == 0 ==> slot < |keys| && keys[slot] == key
    ensures ret == 1 ==> forall j :: slot <= j < |keys| ==> Less(key, keys[j])
  {
    if prevCmp == 0 {
      return 0, 0;
    }
    ret, slot := BinSearch(keys, first, key);
  }

  /** The search part of search_leaf.  With room for an insertion the first key is compared alone: it
      either settles the matter or takes slot 0 out of the binary search. */
  method SearchLeaf(g: Geometry, items: seq<Item>, key: Key, insLen: int, parentLocked: bool, prevCmp: int)
      returns (ret: int, slot: nat)
    requires Sorted(items) && (parentLocked ==> items != []) && (prevCmp == 0 ==> items != [] && items[0].key == key)
    ensures ret == 0 || ret == 1
    ensures IsSlot(items, key, slot) && (ret == 0 <==> Has(items, key))
    ensures ret == 0 <==> slot < |items| && items[slot].key == key
  {
    var keys := ItemKeys(items);
    CompKeysIsTotalOrder(key, key, key);
    if insLen > 0 && parentLocked && FreeSpace(g, items) >= insLen {
      var cmp := CompKeys(items[0].key, key);
      if cmp < 0 {
        ret, slot := SearchForKeySlot(keys, 1, key, prevCmp);
      } else {
        CompKeysIsTotalOrder(items[0].key, key, key);
        ret, slot := cmp, 0;
        forall j | 0 <= j < |items|
          ensures !Less(items[j].key, key)
        {
          CompKeysIsTotalOrder(items[0].key, items[j].key, key);
        }
      }
    } else {
      ret, slot := SearchForKeySlot(keys, 0, key, prevCmp);
    }
    forall j | slot <= j < |items|
      ensures !Less(items[j].key, key)
    {
      CompKeysIsTotalOrder(key, items[j].key, key);
      if ret == 0 && j > slot {
        assert Less(items[slot].key, items[j].key);
      }
    }
    HasAtSlot(items, key, slot);
    assert ret == 1 && slot < |items| ==> items[slot].key != key;
  }

  /** Kids of one node in order: their keys ascend, and so do the items below. */
  lemma {:induction false} KidsAscend(g: Geometry, kids: seq<Kid>, h: nat)
    requires KidsWf(g, kids, h) && Sorted(FlatKids(kids))
    ensures Ascending(KeysOf(kids)) && NodePath.KidsSorted(kids)
  {
    forall i, j | 0 <= i < j < |kids|
      ensures Less(kids[i].key, kids[j].key)
    {
      assert KidWf(g, kids[i], h) && KidWf(g, kids[j], h);
      FirstItem(g, kids[i], h);
      FirstItem(g, kids[j], h);
      FlatKidsAt(kids, j);
      FlatKidsAt(kids[..j], i);
      SortedParts(FlatKids(kids[..j]), FlatKid(kids[j]), FlatKids(kids[j + 1..]));
      var k := |FlatKids(kids[..j][..i])|;
      assert FlatKids(kids[..j])[k] == FlatKid(kids[i])[0];
    }
  }

  /** The choice of btrfs_search_slot at an inner node: the last kid whose key is not above the key, or
      the first kid. */
  ghost predicate GoesBelow(kids: seq<Kid>, key: Key, slot: nat)
  {
    && slot < |kids|
    && (slot > 0 ==> !Less(key, kids[slot].key))
    && (forall j :: slot < j < |kids| ==> Less(key, kids[j].key))
  }

  /** All that lies left of the chosen kid is smaller, all that lies right of it is bigger. */
  lemma {:induction false} BelowIsAround(g: Geometry, kids: seq<Kid>, h: nat, key: Key, slot: nat)
    requires KidsWf(g, kids, h) && Sorted(FlatKids(kids)) && GoesBelow(kids, key, slot)
    ensures Around(FlatKids(kids[..slot]), key, FlatKids(kids[slot + 1..]))
  {
    var a, m, b := FlatKids(kids[..slot]), FlatKid(kids[slot]), FlatKids(kids[slot + 1..]);
    FlatKidsAt(kids, slot);
    assert KidWf(g, kids[slot], h);
    FirstItem(g, kids[slot], h);
    SortedParts(a, m, b);
    forall j | 0 <= j < |a|
      ensures Less(a[j].key, key)
    {
      assert slot > 0 by { assert kids[..0] == []; }
      CompKeysIsTotalOrder(a[j].key, kids[slot].key, key);
      CompKeysIsTotalOrder(key, kids[slot].key, key);
    }
    if slot + 1 < |kids| {
      var rest := kids[slot + 1..];
      assert KidWf(g, kids[slot + 1], h);
      FirstItem(g, kids[slot + 1], h);
      FlatKidsAt(rest, 0);
      assert rest[..0] == [];
      assert b[0].key == kids[slot + 1].key;
      forall j | 0 <= j < |b|
        ensures Less(key, b[j].key)
      {
        CompKeysIsTotalOrder(key, b[0].key, b[j].key);
      }
    }
  }

  /** The slot choice at an inner node (lines of btrfs_search_slot after the binary search). */
  method KidSlot(kids: seq<Kid>, key: Key, prevCmp: int) returns (ret: int, slot: nat)
    requires kids != [] && Ascending(KeysOf(kids)) && (prevCmp == 0 ==> kids[0].key == key)
    ensures ret == 0 || ret == 1
    ensures GoesBelow(kids, key, slot) && (ret == 0 <==> kids[slot].key == key)
  {
    ret, slot := SearchForKeySlot(KeysOf(kids), 0, key, prevCmp);
    CompKeysIsTotalOrder(key, key, key);
    if ret != 0 && slot > 0 {
      slot := slot - 1;
    }
    CompKeysIsTotalOrder(kids[slot].key, key, key);
    forall j | slot < j < |kids|
      ensures Less(key, kids[j].key)
    {
      CompKeysIsTotalOrder(key, kids[slot].key, kids[j].key);
    }
  }

  /** One level down: the parts left and right of the chosen kid join what is left and right already. */
  lemma {:induction false} StepDown(g: Geometry, kids: seq<Kid>, h: nat, key: Key, s: nat, lo: seq<Item>, hi: seq<Item>)
    requires KidsWf(g, kids, h) && Sorted(lo + FlatKids(kids) + hi) && Around(lo, key, hi) && GoesBelow(kids, key, s)
    ensures var left, right := FlatKids(kids[..s]), FlatKids(kids[s + 1..]);
            && lo + FlatKids(kids) + hi == (lo + left) + FlatKid(kids[s]) + (right + hi)
            && Around(lo + left, key, right + hi)
    ensures KidWf(g, kids[s], h) && FlatKid(kids[s]) != [] && FlatKid(kids[s])[0].key == kids[s].key
  {
    SortedParts(lo, FlatKids(kids), hi);
    BelowIsAround(g, kids, h, key, s);
    FlatKidsAt(kids, s);
    assert KidWf(g, kids[s], h);
    FirstItem(g, kids[s], h);
  }

  // Paths

  ghost predicate IsPath(t: Tree, path: seq<nat>)
    decreases |path|, 0
  {
    path == [] || (IsPath(t, path[..|path| - 1]) && SubAt(t, path[..|path| - 1]).Node?
        && path[|path| - 1] < |SubAt(t, path[..|path| - 1]).kids|)
  }

  ghost function SubAt(t: Tree, path: seq<nat>): Tree
    requires IsPath(t, path)
    decreases |path|, 1
  {
    if path == [] then t else SubAt(t, path[..|path| - 1]).kids[path[|path| - 1]].child
  }

  /** How many items lie left of the block the path leads to. */
  ghost function Before(t: Tree, path: seq<nat>): nat
    requires IsPath(t, path)
  {
    if path == [] then 0
    else Before(t, path[..|path| - 1]) + |FlatKids(SubAt(t, path[..|path| - 1]).kids[..path[|path| - 1]])|
  }

  lemma {:induction false} PathStep(t: Tree, path: seq<nat>, s: nat)
    requires IsPath(t, path) && SubAt(t, path).Node? && s < |SubAt(t, path).kids|
    ensures IsPath(t, path + [s])
    ensures SubAt(t, path + [s]) == SubAt(t, path).kids[s].child
    ensures Before(t, path + [s]) == Before(t, path) + |FlatKids(SubAt(t, path).kids[..s])|
  {
    assert (path + [s])[..|path|] == path;
  }

  /** The descent has reached block b, of height d, with lo left of it and hi right of it. */
  ghost predicate Stands(g: Geometry, t: Tree, key: Key, path: seq<nat>, b: Tree, d: nat, lo: seq<Item>, hi: seq<Item>)
  {
    && IsPath(t, path) && b == SubAt(t, path) && |lo| == Before(t, path)
    && Flat(t) == lo + Flat(b) + hi && Around(lo, key, hi)
    && (if b.Leaf? then d == 0 else d > 0 && b.kids != [] && KidsWf(g, b.kids, d - 1))
  }

  /** One turn of the loop of btrfs_search_slot at an inner node. */
  method Descend(g: Geometry, ghost t: Tree, key: Key, path: seq<nat>, b: Tree, prevCmp: int, ghost d: nat,
          ghost lo: seq<Item>, ghost hi: seq<Item>)
    returns (path': seq<nat>, b': Tree, cmp: int, ghost lo': seq<Item>, ghost hi': seq<Item>)
    requires Sorted(Flat(t)) && Stands(g, t, key, path, b, d, lo, hi) && b.Node?
    requires (prevCmp == 0 ==> FirstKeyIs(b, key))
    ensures d > 0 && Stands(g, t, key, path', b', d - 1, lo', hi') && (cmp == 0 ==> FirstKeyIs(b', key))
  {
    SortedParts(lo, Flat(b), hi);
    KidsAscend(g, b.kids, d - 1);
    var s;
    cmp, s := KidSlot(b.kids, key, prevCmp);
    StepDown(g, b.kids, d - 1, key, s, lo, hi);
    PathStep(t, path, s);
    path', b' := path + [s], b.kids[s].child;
    lo', hi' := lo + FlatKids(b.kids[..s]), FlatKids(b.kids[s + 1..]) + hi;
    assert FlatKid(b.kids[s]) == Flat(b');
  }

  /** btrfs_search_slot without modification: found or not, and the place where the key is or belongs. */
  method SearchSlot(g: Geometry, t: Tree, key: Key, ghost h: nat) returns (ret: int, path: seq<nat>, slot: nat)
    requires IsTree(g, t, h)
    ensures ret == 0 || ret == 1
    ensures ret == 0 <==> Has(Flat(t), key)
    ensures IsPath(t, path) && SubAt(t, path).Leaf? && slot <= |SubAt(t, path).items|
    ensures IsSlot(Flat(t), key, Before(t, path) + slot)
  {
    var b, prevCmp := t, -1;
    path := [];
    ghost var lo, hi, d := [], [], h;
    while b.Node?
      invariant Stands(g, t, key, path, b, d, lo, hi) && (prevCmp == 0 ==> FirstKeyIs(b, key))
      decreases d
    {
      path, b, prevCmp, lo, hi := Descend(g, t, key, path, b, prevCmp, d, lo, hi);
      d := d - 1;
    }
    SortedParts(lo, b.items, hi);
    ret, slot := SearchLeaf(g, b.items, key, 0, false, prevCmp);
    SlotInMiddle(lo, b.items, hi, key, slot);
    HasInMiddle(lo, b.items, hi, key);
  }

  lemma {:induction false} HasInMiddle(a: seq<Item>, m: seq<Item>, b: seq<Item>, key: Key)
    requires Around(a, key, b)
    ensures Has(a + m + b, key) <==> Has(m, key)
  {
    var w := a + m + b;
    CompKeysIsTotalOrder(key, key, key);
    assert forall k :: 0 <= k < |a| ==> w[k] == a[k];
    assert forall k :: 0 <= k < |m| ==> w[|a| + k] == m[k];
    assert forall k :: |a| + |m| <= k < |w| ==> w[k] == b[k - |a| - |m|];
    if Has(w, key) {
      var j :| 0 <= j < |w| && w[j].key == key;
      assert m[j - |a|] == w[j];
    }
  }

  ghost predicate FirstKeyIs(t: Tree, key: Key)
  {
    if t.Leaf? then t.items != [] && t.items[0].key == key else t.kids != [] && t.kids[0].key == key
  }

  // ---------------------------------------------------------------------------------------------
  // The children of a node as rows

  predicate AllLeaves(kids: seq<Kid>)
  {
    forall i :: 0 <= i < |kids| ==> kids[i].child.Leaf?
  }

  predicate AllNodes(kids: seq<Kid>)
  {
    forall i :: 0 <= i < |kids| ==> kids[i].child.Node?
  }

  function LeafRows(kids: seq<Kid>): (rows: seq<seq<Item>>)
    requires AllLeaves(kids)
    ensures |rows| == |kids| && forall i :: 0 <= i < |kids| ==> rows[i] == kids[i].child.items
  {
    seq(|kids|, i requires 0 <= i < |kids| => kids[i].child.items)
  }

  function NodeRows(kids: seq<Kid>): (rows: seq<seq<Kid>>)
    requires AllNodes(kids)
    ensures |rows| == |kids| && forall i :: 0 <= i < |kids| ==> rows[i] == kids[i].child.kids
  {
    seq(|kids|, i requires 0 <= i < |kids| => kids[i].child.kids)
  }

  function LeafKids(keys: seq<Key>, rows: seq<seq<Item>>): (kids: seq<Kid>)
    requires |keys| == |rows|
    ensures |kids| == |rows| && forall i :: 0 <= i < |kids| ==> kids[i] == Kid(keys[i], Leaf(rows[i]))
  {
    seq(|rows|, i requires 0 <= i < |rows| => Kid(keys[i], Leaf(rows[i])))
  }

  function NodeKids(keys: seq<Key>, rows: seq<seq<Kid>>): (kids: seq<Kid>)
    requires |keys| == |rows|
    ensures |kids| == |rows| && forall i :: 0 <= i < |kids| ==> kids[i] == Kid(keys[i], Node(rows[i]))
  {
    seq(|rows|, i requires 0 <= i < |rows| => Kid(keys[i], Node(rows[i])))
  }

  lemma {:induction false} LeafKidsFlat(keys: seq<Key>, rows: seq<seq<Item>>)
    requires |keys| == |rows|
    ensures FlatKids(LeafKids(keys, rows)) == Cat(rows)
  {
    if rows != [] {
      var n := |rows| - 1;
      LeafKidsFlat(keys[..n], rows[..n]);
      assert LeafKids(keys, rows)[..n] == LeafKids(keys[..n], rows[..n]);
      assert FlatKid(LeafKids(keys, rows)[n]) == rows[n];
    } else {
      assert LeafKids(keys, rows) == [];
    }
  }

  lemma {:induction false} NodeKidsFlat(keys: seq<Key>, rows: seq<seq<Kid>>)
    requires |keys| == |rows|
    ensures FlatKids(NodeKids(keys, rows)) == FlatKids(Cat(rows))
  {
    if rows != [] {
      var n := |rows| - 1;
      NodeKidsFlat(keys[..n], rows[..n]);
      assert NodeKids(keys, rows)[..n] == NodeKids(keys[..n], rows[..n]);
      FlatKidsCat(Cat(rows[..n]), rows[n]);
      assert FlatKid(NodeKids(keys, rows)[n]) == FlatKids(rows[n]);
    } else {
      assert NodeKids(keys, rows) == [];
    }
  }

  /** Leaves under a level-1 node, as the leaf operations want them. */
  lemma {:induction false} LeafView(g: Geometry, kids: seq<Kid>)
    requires KidsWf(g, kids, 0)
    ensures AllLeaves(kids)
    ensures var keys, rows := KeysOf(kids), LeafRows(kids);
            LeafKids(keys, rows) == kids && Cat(rows) == FlatKids(kids)
            && LeafPath.Fits(g, rows) && LeafPath.KeysOk(keys, rows) && NonEmpty(rows)
  {
    assert forall i :: 0 <= i < |kids| ==> KidWf(g, kids[i], 0);
    LeafKidsFlat(KeysOf(kids), LeafRows(kids));
    assert LeafKids(KeysOf(kids), LeafRows(kids)) == kids;
  }

  lemma {:induction false} LeafKidsWf(g: Geometry, keys: seq<Key>, rows: seq<seq<Item>>)
    requires LeafPath.Fits(g, rows) && LeafPath.KeysOk(keys, rows) && NonEmpty(rows)
    ensures KidsWf(g, LeafKids(keys, rows), 0) && FlatKids(LeafKids(keys, rows)) == Cat(rows)
  {
    LeafKidsFlat(keys, rows);
  }

  /** Inner nodes under a parent, as the node operations want them. */
  lemma {:induction false} NodeView(g: Geometry, kids: seq<Kid>, h: nat)
    requires KidsWf(g, kids, h + 1)
    ensures AllNodes(kids)
    ensures var keys, rows := KeysOf(kids), NodeRows(kids);
            && NodeKids(keys, rows) == kids && FlatKids(Cat(rows)) == FlatKids(kids)
            && NodePath.Fits(g, rows) && NodePath.KeysOk(keys, rows) && NonEmpty(rows)
            && KidsWf(g, Cat(rows), h)
  {
    assert forall i :: 0 <= i < |kids| ==> KidWf(g, kids[i], h + 1);
    var keys, rows := KeysOf(kids), NodeRows(kids);
    assert NodeKids(keys, rows) == kids;
    NodeKidsFlat(keys, rows);
    CatKidsWf(g, rows, h);
  }

  lemma {:induction false} CatKidsWf(g: Geometry, rows: seq<seq<Kid>>, h: nat)
    ensures KidsWf(g, Cat(rows), h) <==> forall i :: 0 <= i < |rows| ==> KidsWf(g, rows[i], h)
  {
    if rows != [] {
      var n := |rows| - 1;
      CatKidsWf(g, rows[..n], h);
      var a, b := Cat(rows[..n]), rows[n];
      if KidsWf(g, a + b, h) {
        assert forall i :: 0 <= i < |a| ==> (a + b)[i] == a[i];
        assert forall i :: 0 <= i < |b| ==> (a + b)[|a| + i] == b[i];
        assert KidsWf(g, a, h) && KidsWf(g, b, h);
      }
    }
  }

  lemma {:induction false} NodeKidsWf(g: Geometry, keys: seq<Key>, rows: seq<seq<Kid>>, h: nat)
    requires NodePath.Fits(g, rows) && NodePath.KeysOk(keys, rows) && NonEmpty(rows) && KidsWf(g, Cat(rows), h)
    ensures KidsWf(g, NodeKids(keys, rows), h + 1) && FlatKids(NodeKids(keys, rows)) == FlatKids(Cat(rows))
  {
    NodeKidsFlat(keys, rows);
    CatKidsWf(g, rows, h);
    var kids := NodeKids(keys, rows);
    forall i | 0 <= i < |kids|
      ensures KidWf(g, kids[i], h + 1)
    {
      assert KidsWf(g, rows[i], h);
    }
  }

  // ---------------------------------------------------------------------------------------------
  // Insertion

  /** No key of the items lies behind the batch's first key and not behind its last one. */
  ghost predicate Clear(items: seq<Item>, batch: seq<Item>)
    requires batch != []
  {
    forall j :: 0 <= j < |items| && Less(batch[0].key, items[j].key) ==> Less(batch[|batch| - 1].key, items[j].key)
  }

  /** At least one item, and no more than a leaf can hold.  Nothing is said about the keys. */
  ghost predicate IsBatch(g: Geometry, batch: seq<Item>)
  {
    batch != [] && Used(g, batch) <= g.leafSize
  }

  /** The first key is there already, in an item that could not take the batch's bytes as well. */
  ghost predicate Overflows(g: Geometry, items: seq<Item>, batch: seq<Item>)
    requires batch != []
  {
    exists j :: 0 <= j < |items| && items[j].key == batch[0].key && Used(g, batch) + |items[j].data| > g.leafSize
  }

  /** after is before with the batch put where its first key belongs. */
  ghost predicate Inserted(before: seq<Item>, after: seq<Item>, batch: seq<Item>)
    requires batch != []
  {
    exists i: nat :: IsSlot(before, batch[0].key, i) && after == LeafPath.Spliced(before, i, batch)
  }

  lemma {:induction false} InsertedInMiddle(a: seq<Item>, m: seq<Item>, b: seq<Item>, m': seq<Item>, batch: seq<Item>)
    requires batch != [] && Around(a, batch[0].key, b) && Inserted(m, m', batch)
    ensures Inserted(a + m + b, a + m' + b, batch)
  {
    var i: nat :| IsSlot(m, batch[0].key, i) && m' == LeafPath.Spliced(m, i, batch);
    SlotInMiddle(a, m, b, batch[0].key, i);
    LeafPath.InsertMiddle(a, m, b, i, batch);
  }

  /** Only the first key of a batch is looked up.  The items are in order afterwards exactly if the batch is in
      order itself and its range was clear. */
  lemma {:induction false} InsertedInOrder(before: seq<Item>, after: seq<Item>, batch: seq<Item>)
    requires Sorted(before) && batch != [] && Inserted(before, after, batch) && !Has(before, batch[0].key)
    ensures Sorted(after) <==> Sorted(batch) && Clear(before, batch)
  {
    var i: nat :| IsSlot(before, batch[0].key, i) && after == LeafPath.Spliced(before, i, batch);
    if Sorted(batch) && Clear(before, batch) {
      StrictSlot(before, batch, i);
      LeafPath.InsertSorted(before, i, batch);
    }
    if Sorted(after) {
      LeafPath.SplicedOnlyIf(before, i, batch);
      forall j | 0 <= j < |before| && Less(batch[0].key, before[j].key)
        ensures Less(batch[|batch| - 1].key, before[j].key)
      {
        CompKeysIsTotalOrder(batch[0].key, before[j].key, batch[0].key);
      }
    }
  }

  /** If the key is absent, everything from its slot on is bigger than the whole batch. */
  lemma {:induction false} StrictSlot(items: seq<Item>, batch: seq<Item>, i: nat)
    requires batch != [] && IsSlot(items, batch[0].key, i) && !Has(items, batch[0].key) && Clear(items, batch)
    ensures LeafPath.Between(items, i, batch)
  {
    forall j | i <= j < |items|
      ensures Less(batch[|batch| - 1].key, items[j].key)
    {
      CompKeysIsTotalOrder(items[j].key, batch[0].key, batch[0].key);
    }
  }

  lemma {:induction false} OverflowsInMiddle(g: Geometry, a: seq<Item>, m: seq<Item>, b: seq<Item>, batch: seq<Item>)
    requires batch != [] && Around(a, batch[0].key, b)
    ensures Overflows(g, a + m + b, batch) <==> Overflows(g, m, batch)
  {
    var w := a + m + b;
    CompKeysIsTotalOrder(batch[0].key, batch[0].key, batch[0].key);
    assert forall k :: 0 <= k < |a| ==> w[k] == a[k];
    assert forall k :: 0 <= k < |m| ==> w[|a| + k] == m[k];
    assert forall k :: |a| + |m| <= k < |w| ==> w[k] == b[k - |a| - |m|];
    if Overflows(g, w, batch) {
      var j :| 0 <= j < |w| && w[j].key == batch[0].key && Used(g, batch) + |w[j].data| > g.leafSize;
      assert m[j - |a|] == w[j];
    }
  }

  /** In sorted items there is one item to look at. */
  lemma {:induction false} OverflowsAtSlot(g: Geometry, items: seq<Item>, i: nat, batch: seq<Item>)
    requires Sorted(items) && batch != [] && i < |items| && items[i].key == batch[0].key
    ensures Overflows(g, items, batch) <==> Used(g, batch) + |items[i].data| > g.leafSize
  {
    if Overflows(g, items, batch) {
      var j: nat :| j < |items| && items[j].key == batch[0].key && Used(g, batch) + |items[j].data| > g.leafSize;
      OneSlotPerKey(items, i, j);
    }
  }

  /** The children of a node, each of height h, and the slot the search chose among them. */
  ghost predicate AtKid(g: Geometry, kids: seq<Kid>, h: nat, slot: nat, key: Key)
  {
    g.Valid() && KidsWf(g, kids, h) && Sorted(FlatKids(kids)) && GoesBelow(kids, key, slot)
  }

  /** The place found in the leaf is the key's place among all items below the node. */
  lemma {:induction false} LeafSlot(g: Geometry, kids: seq<Kid>, slot: nat, key: Key, pos: nat)
    requires AtKid(g, kids, 0, slot, key) && AllLeaves(kids) && IsSlot(kids[slot].child.items, key, pos)
    ensures IsSlot(FlatKids(kids), key, At(LeafRows(kids), slot, pos))
    ensures Has(FlatKids(kids), key) <==> Has(kids[slot].child.items, key)
  {
    BelowIsAround(g, kids, 0, key, slot);
    FlatKidsAt(kids, slot);
    var a, m, b := FlatKids(kids[..slot]), FlatKid(kids[slot]), FlatKids(kids[slot + 1..]);
    SlotInMiddle(a, m, b, key, pos);
    HasInMiddle(a, m, b, key);
    LeafKidsFlat(KeysOf(kids[..slot]), LeafRows(kids[..slot]));
    assert LeafKids(KeysOf(kids[..slot]), LeafRows(kids[..slot])) == kids[..slot];
    assert LeafRows(kids[..slot]) == LeafRows(kids)[..slot];
  }

  /** A pointer of a held node, other than the one the path takes, leads to subtrees of height h. */
  ghost predicate FrameWf(g: Geometry, f: Frame, h: nat)
  {
    && f.Valid() && |f.kids| <= g.nodePtrs
    && forall j {:trigger KidWf(g, f.kids[j], h)} :: 0 <= j < |f.kids| && j != f.slot ==> KidWf(g, f.kids[j], h)
  }

  /** The held nodes of a path; the pointers of the lowest one lead to subtrees of height h. */
  ghost predicate PathWf(g: Geometry, path: seq<Frame>, h: nat)
  {
    forall i {:trigger path[i]} :: 0 <= i < |path| ==> FrameWf(g, path[i], h + |path| - 1 - i)
  }

  /** The tree the path leads through, with t at its end. */
  function Plug(path: seq<Frame>, t: Tree): Tree
    requires TreePath.Valid(path)
  {
    if path == [] then t
    else
      var f := path[|path| - 1];
      Plug(path[..|path| - 1], Node(f.kids[f.slot := Kid(f.LowKey(), t)]))
  }

  /** All items left of the path. */
  ghost function LeftOf(path: seq<Frame>): seq<Item>
    requires TreePath.Valid(path)
  {
    if path == [] then [] else LeftOf(path[..|path| - 1]) + FlatKids(path[|path| - 1].kids[..path[|path| - 1].slot])
  }

  /** All items right of the path. */
  ghost function RightOf(path: seq<Frame>): seq<Item>
    requires TreePath.Valid(path)
  {
    if path == [] then []
    else FlatKids(path[|path| - 1].kids[path[|path| - 1].slot + 1..]) + RightOf(path[..|path| - 1])
  }

  lemma {:induction false} PlugFlat(path: seq<Frame>, t: Tree)
    requires TreePath.Valid(path)
    ensures Flat(Plug(path, t)) == LeftOf(path) + Flat(t) + RightOf(path)
  {
    if path == [] {
      assert [] + Flat(t) + [] == Flat(t);
    } else {
      var f, rest := path[|path| - 1], path[..|path| - 1];
      var kids := f.kids[f.slot := Kid(f.LowKey(), t)];
      PlugFlat(rest, Node(kids));
      FlatKidsAt(kids, f.slot);
      assert kids[..f.slot] == f.kids[..f.slot] && kids[f.slot + 1..] == f.kids[f.slot + 1..];
      assert FlatKid(kids[f.slot]) == Flat(t);
      Regroup(LeftOf(rest), FlatKids(f.kids[..f.slot]), Flat(t), FlatKids(f.kids[f.slot + 1..]), RightOf(rest));
    }
  }

  lemma {:induction false} Regroup<T>(l: seq<T>, a: seq<T>, m: seq<T>, b: seq<T>, r: seq<T>)
    ensures l + (a + m + b) + r == (l + a) + m + (b + r)
  {
  }

  /** If the keys on the path are right, so is the tree. */
  lemma {:induction false} PlugWf(g: Geometry, path: seq<Frame>, kids: seq<Kid>, h: nat)
    requires PathWf(g, path, h + 1) && 1 <= |kids| <= g.nodePtrs && KidsWf(g, kids, h) && LowKeysOk(path, kids[0].key)
    ensures Plug(path, Node(kids)).Node?
    ensures var top := Plug(path, Node(kids)).kids; 1 <= |top| <= g.nodePtrs && KidsWf(g, top, h + |path|)
  {
    if path != [] {
      var n := |path| - 1;
      var f, rest := path[n], path[..n];
      var kids' := f.kids[f.slot := Kid(f.LowKey(), Node(kids))];
      assert LowKeyOk(path, kids[0].key, n);
      assert FrameWf(g, path[n], h + 1);
      forall i | 0 <= i < |kids'|
        ensures KidWf(g, kids'[i], h + 1)
      {
        assert i != f.slot ==> KidWf(g, f.kids[i], h + 1);
      }
      PathPrefix(g, path, h + 1);
      forall i | 0 <= i < n
        ensures LowKeyOk(rest, kids'[0].key, i)
      {
        assert LowKeyOk(path, kids[0].key, i);
      }
      PlugWf(g, rest, kids', h + 1);
    }
  }

  /** New keys in the path's own slots leave the other pointers as they were. */
  lemma {:induction false} RekeyedWf(g: Geometry, path: seq<Frame>, path': seq<Frame>, h: nat)
    requires Rekeyed(path, path') && PathWf(g, path, h)
    ensures PathWf(g, path', h)
  {
    forall i | 0 <= i < |path|
      ensures FrameWf(g, path'[i], h + |path| - 1 - i)
    {
      var f, f', d := path[i], path'[i], h + |path| - 1 - i;
      assert FrameWf(g, f, d) && SameButKey(f, f');
      forall j | 0 <= j < |f'.kids| && j != f'.slot
        ensures KidWf(g, f'.kids[j], d)
      {
        assert KidWf(g, f.kids[j], d);
      }
    }
  }

  /** ... and so the items beside the path. */
  lemma {:induction false} RekeyedSides(path: seq<Frame>, path': seq<Frame>)
    requires Rekeyed(path, path') && TreePath.Valid(path')
    ensures LeftOf(path') == LeftOf(path) && RightOf(path') == RightOf(path)
  {
    if path != [] {
      var n := |path| - 1;
      var f, f' := path[n], path'[n];
      RekeyedSides(path[..n], path'[..n]);
      assert SameButKey(f, f');
      assert f'.kids[..f.slot] == f.kids[..f.slot] && f'.kids[f.slot + 1..] == f.kids[f.slot + 1..];
    }
  }

  lemma {:induction false} PathPrefix(g: Geometry, path: seq<Frame>, h: nat)
    requires path != [] && PathWf(g, path, h)
    ensures PathWf(g, path[..|path| - 1], h + 1)
  {
    var rest := path[..|path| - 1];
    forall i | 0 <= i < |rest|
      ensures FrameWf(g, rest[i], h + 1 + |rest| - 1 - i)
    {
      assert FrameWf(g, path[i], h + |path| - 1 - i);
    }
  }

  lemma {:induction false} LongerPath(g: Geometry, path: seq<Frame>, kids: seq<Kid>, slot: nat, h: nat)
    requires PathWf(g, path, h + 1) && KidsWf(g, kids, h) && slot < |kids| <= g.nodePtrs
    ensures PathWf(g, path + [Frame(kids, slot)], h)
  {
    var path' := path + [Frame(kids, slot)];
    forall i | 0 <= i < |path'|
      ensures FrameWf(g, path'[i], h + |path'| - 1 - i)
    {
      if i < |path| {
        assert FrameWf(g, path[i], h + 1 + |path| - 1 - i);
      }
    }
  }

  /** The descent of a change stands at a node with these kids, of height h each, under the held path: every
      key on the way is right, the search's choice among the kids is slot, and the tree holds `all`. */
  ghost predicate Holds(g: Geometry, path: seq<Frame>, kids: seq<Kid>, h: nat, slot: nat, key: Key, all: seq<Item>)
  {
    && AtKid(g, kids, h, slot, key) && |kids| <= g.nodePtrs
    && PathWf(g, path, h + 1) && LowKeysOk(path, kids[0].key)
    && all == LeftOf(path) + FlatKids(kids) + RightOf(path) && Around(LeftOf(path), key, RightOf(path))
  }

  /** Regrouping below a node that keeps the node's first key needs no climb. */
  lemma {:induction false} Regrouped(g: Geometry, path: seq<Frame>, kids: seq<Kid>, h: nat, slot: nat, key: Key,
          all: seq<Item>, kids': seq<Kid>, slot': nat)
    requires Holds(g, path, kids, h, slot, key, all) && AtKid(g, kids', h, slot', key) && |kids'| <= g.nodePtrs
    requires FlatKids(kids') == FlatKids(kids) && kids'[0].key == kids[0].key
    ensures Holds(g, path, kids', h, slot', key, all)
  {
  }

  /** One level down: the node joins the held path. */
  lemma {:induction false} HoldsBelow(g: Geometry, path: seq<Frame>, kids: seq<Kid>, h: nat, slot: nat, cslot: nat,
          key: Key, all: seq<Item>)
    requires Holds(g, path, kids, h + 1, slot, key, all) && Sorted(all)
    requires kids[slot].child.Node? && GoesBelow(kids[slot].child.kids, key, cslot)
    ensures Holds(g, path + [Frame(kids, slot)], kids[slot].child.kids, h, cslot, key, all)
  {
    ChildIsNode(g, kids, h, slot, key);
    LowerPath(path, kids, slot);
    LongerPath(g, path, kids, slot, h + 1);
    LongerSides(path, kids, slot);
    StepDown(g, kids, h + 1, key, slot, LeftOf(path), RightOf(path));
    assert FlatKid(kids[slot]) == FlatKids(kids[slot].child.kids);
  }

  lemma {:induction false} LongerSides(path: seq<Frame>, kids: seq<Kid>, slot: nat)
    requires TreePath.Valid(path) && slot < |kids|
    ensures TreePath.Valid(path + [Frame(kids, slot)])
    ensures LeftOf(path + [Frame(kids, slot)]) == LeftOf(path) + FlatKids(kids[..slot])
    ensures RightOf(path + [Frame(kids, slot)]) == FlatKids(kids[slot + 1..]) + RightOf(path)
  {
    assert (path + [Frame(kids, slot)])[..|path|] == path;
  }

  /** Back at the top: what was put below the path, with the climbs made, gives a tree. */
  lemma {:induction false} Replaced(g: Geometry, path: seq<Frame>, kids: seq<Kid>, h: nat, slot: nat, key: Key,
          all: seq<Item>, path': seq<Frame>, kids': seq<Kid>)
    requires Holds(g, path, kids, h, slot, key, all)
    requires Rekeyed(path, path') && 1 <= |kids'| <= g.nodePtrs && KidsWf(g, kids', h) && LowKeysOk(path', kids'[0].key)
    ensures Plug(path', Node(kids')).Node?
    ensures var t := Plug(path', Node(kids'));
            && 1 <= |t.kids| <= g.nodePtrs && KidsWf(g, t.kids, h + |path|)
            && Flat(t) == LeftOf(path) + FlatKids(kids') + RightOf(path)
  {
    RekeyedWf(g, path, path', h + 1);
    RekeyedSides(path, path');
    PlugWf(g, path', kids', h);
    PlugFlat(path', Node(kids'));
  }

  /** The leaf end of an insertion: search_leaf with split_leaf, then setup_items_for_insert.  A root leaf
      has no parent; it is given as the only child of the root that insert_new_root makes for it. */
  method InsertInLeaf(g: Geometry, path: seq<Frame>, kids: seq<Kid>, slot: nat, batch: seq<Item>, prevCmp: int,
          hasParent: bool) returns (ret: int, path': seq<Frame>, kids': seq<Kid>)
    requires IsBatch(g, batch) && AtKid(g, kids, 0, slot, batch[0].key)
    requires LowKeysOk(path, kids[0].key)
    requires (prevCmp == 0 ==> kids[slot].key == batch[0].key) && (!hasParent ==> |kids| == 1)
    ensures KidsWf(g, kids', 0) && |kids| <= |kids'| <= |kids| + 2
    ensures Rekeyed(path, path') && LowKeysOk(path', kids'[0].key)
    ensures ret == 0 || ret == EEXIST || ret == EOVERFLOW
    ensures ret == 0 <==> !Has(FlatKids(kids), batch[0].key)
    ensures ret == EOVERFLOW <==> Overflows(g, FlatKids(kids), batch)
    ensures if ret == 0 then Inserted(FlatKids(kids), FlatKids(kids'), batch) else FlatKids(kids') == FlatKids(kids)
  {
    var key := batch[0].key;
    LeafView(g, kids);
    assert KidWf(g, kids[slot], 0);
    var items := kids[slot].child.items;
    FlatKidsAt(kids, slot);
    SortedParts(FlatKids(kids[..slot]), items, FlatKids(kids[slot + 1..]));
    var found, pos := SearchLeaf(g, items, key, Used(g, batch), hasParent, prevCmp);
    LeafSlot(g, kids, slot, key, pos);
    var p := new LeafPath.Path(g, path, KeysOf(kids), LeafRows(kids), slot, pos);
    if found == 0 {
      CatAt(p.rows, slot, pos);
      OverflowsAtSlot(g, FlatKids(kids), At(p.rows, slot, pos), batch);
    }
    ret := p.SplitAndInsert(batch, found == 0, hasParent);
    if found == 0 && ret == 0 {
      ret := EEXIST;
    }
    LeafKidsWf(g, p.keys, p.rows);
    path', kids' := p.up, LeafKids(p.keys, p.rows);
  }

  /** The choice of the search survives any regrouping of the same pointers: it is still the choice within
      the node the path is on now, and that node is still the choice in the parent. */
  lemma {:induction false} ChoiceSurvives(kids: seq<Kid>, key: Key, slot: nat, rows: seq<seq<Kid>>, keys: seq<Key>,
          s: nat, pos: nat)
    requires GoesBelow(kids, key, slot) && NodePath.KidsSorted(kids)
    requires Cat(rows) == kids && NonEmpty(rows) && NodePath.KeysOk(keys, rows) && s < |rows| && pos < |rows[s]|
    requires At(rows, s, pos) == slot
    ensures GoesBelow(rows[s], key, pos) && rows[s][pos] == kids[slot]
    ensures GoesBelow(NodeKids(keys, rows), key, s)
  {
    CatAt(rows, s, pos);
    forall j | 0 <= j < |rows[s]|
      ensures 0 <= slot - pos + j < |kids| && rows[s][j] == kids[slot - pos + j]
    {
      CatAt(rows, s, j);
    }
    var up := NodeKids(keys, rows);
    if s > 0 {
      CatAt(rows, s, 0);
      CatNonEmpty(rows, s);
      CompKeysIsTotalOrder(up[s].key, kids[slot].key, key);
      CompKeysIsTotalOrder(key, up[s].key, kids[slot].key);
      CompKeysIsTotalOrder(key, kids[slot].key, key);
    }
    forall j | s < j < |up|
      ensures Less(key, up[j].key)
    {
      CatAt(rows, j, 0);
      CatMonotone(rows, s, j);
    }
  }

  lemma {:induction false} CatNonEmpty<T>(rows: seq<seq<T>>, s: nat)
    requires NonEmpty(rows) && 0 < s <= |rows|
    ensures |Cat(rows[..s])| > 0
  {
    CatPrefix(rows, s - 1);
  }

  lemma {:induction false} CatMonotone<T>(rows: seq<seq<T>>, s: nat, j: nat)
    requires s < j <= |rows|
    ensures |Cat(rows[..j])| >= |Cat(rows[..s])| + |rows[s]|
  {
    CatPrefix(rows, j - 1);
    if s < j - 1 {
      CatMonotone(rows, s, j - 1);
    }
  }

  /** Make sure the chosen child of an insertion path has room, splitting it if need be (the ins_len > 0
      case of setup_nodes_for_search).  cslot is the search's choice in the child. */
  method RoomInChild(g: Geometry, kids: seq<Kid>, ghost h: nat, slot: nat, cslot: nat, key: Key)
      returns (kids': seq<Kid>, slot': nat, cslot': nat)
    requires AtKid(g, kids, h + 1, slot, key) && |kids| < g.nodePtrs
    requires kids[slot].child.Node? && GoesBelow(kids[slot].child.kids, key, cslot)
    ensures AtKid(g, kids', h + 1, slot', key) && |kids| <= |kids'| <= |kids| + 1
    ensures FlatKids(kids') == FlatKids(kids) && kids'[0].key == kids[0].key
    ensures kids'[slot'].child.Node? && |kids'[slot'].child.kids| < g.nodePtrs - 3
    ensures GoesBelow(kids'[slot'].child.kids, key, cslot')
    ensures kids'[slot'].child.kids[cslot'] == kids[slot].child.kids[cslot]
  {
    if |kids[slot].child.kids| < g.nodePtrs - 3 {
      return kids, slot, cslot;
    }
    NodeView(g, kids, h);
    var p := new NodePath.Path(g, KeysOf(kids), NodeRows(kids), slot, cslot);
    ghost var all := Cat(p.rows);
    ghost var it := At(p.rows, slot, cslot);
    KidsAscend(g, all, h);
    CatAt(p.rows, slot, cslot);
    BelowInRow(g, kids, h, slot, cslot, key);
    p.SplitNode();
    ChoiceSurvives(all, key, it, p.rows, p.keys, p.slot, p.pos);
    NodeKidsWf(g, p.keys, p.rows, h);
    return NodeKids(p.keys, p.rows), p.slot, p.pos;
  }

  /** The choice in the parent and the choice in the child are one choice among all grandchildren. */
  lemma {:induction false} BelowInRow(g: Geometry, kids: seq<Kid>, h: nat, slot: nat, cslot: nat, key: Key)
    requires AtKid(g, kids, h + 1, slot, key) && AllNodes(kids) && GoesBelow(kids[slot].child.kids, key, cslot)
    requires NonEmpty(NodeRows(kids)) && NodePath.KeysOk(KeysOf(kids), NodeRows(kids))
    requires NodePath.KidsSorted(Cat(NodeRows(kids)))
    ensures GoesBelow(Cat(NodeRows(kids)), key, At(NodeRows(kids), slot, cslot))
  {
    var rows: seq<seq<Kid>> := NodeRows(kids);
    var all: seq<Kid>, it := Cat(rows), At(rows, slot, cslot);
    CatAt(rows, slot, cslot);
    if it > 0 && cslot == 0 {
      assert slot > 0 by { assert rows[..0] == []; }
      assert rows[slot][0].key == kids[slot].key;
    }
    forall j | it < j < |all|
      ensures Less(key, all[j].key)
    {
      RightOfChoice(kids, rows, slot, cslot, key, j);
    }
  }

  lemma {:induction false} RightOfChoice(kids: seq<Kid>, rows: seq<seq<Kid>>, slot: nat, cslot: nat, key: Key, j: nat)
    requires |kids| == |rows| && GoesBelow(kids, key, slot) && GoesBelow(rows[slot], key, cslot)
    requires NonEmpty(rows) && NodePath.KeysOk(KeysOf(kids), rows) && NodePath.KidsSorted(Cat(rows))
    requires At(rows, slot, cslot) < j < |Cat(rows)|
    ensures Less(key, Cat(rows)[j].key)
  {
    var base := |Cat(rows[..slot])|;
    LeafPath.CatParts(rows, slot);
    if j < base + |rows[slot]| {
      CatAt(rows, slot, j - base);
    } else {
      assert rows[slot + 1..] != [];
      CatAt(rows, slot + 1, 0);
      CatPrefix(rows, slot);
      assert rows[slot + 1][0].key == kids[slot + 1].key;
      CompKeysIsTotalOrder(key, kids[slot + 1].key, Cat(rows)[j].key);
    }
  }

  /** One turn of the loop of btrfs_search_slot at an inner node, for an insertion: choose, make room, go down. */
  method InsertStep(g: Geometry, path: seq<Frame>, kids: seq<Kid>, ghost h: nat, slot: nat, key: Key, prevCmp: int,
          ghost all: seq<Item>) returns (path': seq<Frame>, kids': seq<Kid>, slot': nat, cmp: int)
    requires Holds(g, path, kids, h + 1, slot, key, all) && Sorted(all)
    requires |kids| < g.nodePtrs - 3 && (prevCmp == 0 <==> kids[slot].key == key)
    ensures Holds(g, path', kids', h, slot', key, all) && |path'| == |path| + 1
    ensures |kids'| < g.nodePtrs - 3 && (cmp == 0 <==> kids'[slot'].key == key)
  {
    ChildIsNode(g, kids, h, slot, key);
    var cslot;
    cmp, cslot := KidSlot(kids[slot].child.kids, key, prevCmp);
    var up, s, c := RoomInChild(g, kids, h, slot, cslot, key);
    Regrouped(g, path, kids, h + 1, slot, key, all, up, s);
    HoldsBelow(g, path, up, h, s, c, key, all);
    path', kids', slot' := path + [Frame(up, s)], up[s].child.kids, c;
  }

  /** The rest of the descent of an insertion below a node that has room for three more pointers. */
  method InsertBelow(g: Geometry, path: seq<Frame>, kids: seq<Kid>, h: nat, slot: nat, batch: seq<Item>, prevCmp: int,
          ghost all: seq<Item>) returns (ret: int, t: Tree)
    requires IsBatch(g, batch) && Sorted(all) && Holds(g, path, kids, h, slot, batch[0].key, all)
    requires |kids| < g.nodePtrs - 3 && (prevCmp == 0 <==> kids[slot].key == batch[0].key)
    ensures t.Node? && 1 <= |t.kids| <= g.nodePtrs && KidsWf(g, t.kids, h + |path|)
    ensures ret == 0 || ret == EEXIST || ret == EOVERFLOW
    ensures ret == 0 <==> !Has(all, batch[0].key)
    ensures ret == EOVERFLOW <==> Overflows(g, all, batch)
    ensures if ret == 0 then Inserted(all, Flat(t), batch) else Flat(t) == all
  {
    var held, ks, d, s, cmp := path, kids, h, slot, prevCmp;
    while d > 0
      invariant Holds(g, held, ks, d, s, batch[0].key, all) && |held| + d == |path| + h
      invariant |ks| < g.nodePtrs - 3 && (cmp == 0 <==> ks[s].key == batch[0].key)
    {
      held, ks, s, cmp := InsertStep(g, held, ks, d - 1, s, batch[0].key, cmp, all);
      d := d - 1;
    }
    ghost var a, m, b := LeftOf(held), FlatKids(ks), RightOf(held);
    var held', ks';
    ret, held', ks' := InsertInLeaf(g, held, ks, s, batch, cmp, true);
    Replaced(g, held, ks, 0, s, batch[0].key, all, held', ks');
    HasInMiddle(a, m, b, batch[0].key);
    OverflowsInMiddle(g, a, m, b, batch);
    if ret == 0 {
      InsertedInMiddle(a, m, b, FlatKids(ks'), batch);
    }
    t := Plug(held', Node(ks'));
  }

  lemma {:induction false} ChildIsNode(g: Geometry, kids: seq<Kid>, h: nat, slot: nat, key: Key)
    requires AtKid(g, kids, h + 1, slot, key)
    ensures kids[slot].child.Node?
    ensures var sub := kids[slot].child.kids;
            && 1 <= |sub| <= g.nodePtrs && KidsWf(g, sub, h) && Sorted(FlatKids(sub))
            && Ascending(KeysOf(sub)) && kids[slot].key == sub[0].key
  {
    assert KidWf(g, kids[slot], h + 1);
    FlatKidsAt(kids, slot);
    SortedParts(FlatKids(kids[..slot]), FlatKid(kids[slot]), FlatKids(kids[slot + 1..]));
    KidsAscend(g, kids[slot].child.kids, h);
  }

  /** One block alone under a new root (insert_new_root). */
  lemma {:induction false} NewRoot(g: Geometry, kids: seq<Kid>, h: nat, slot: nat, key: Key)
    requires AtKid(g, kids, h, slot, key) && |kids| <= g.nodePtrs
    ensures AtKid(g, [Kid(kids[0].key, Node(kids))], h + 1, 0, key)
    ensures FlatKids([Kid(kids[0].key, Node(kids))]) == FlatKids(kids)
  {
    var k := Kid(kids[0].key, Node(kids));
    assert [k][..0] == [];
    assert KidWf(g, k, h + 1);
    assert FlatKid(k) == FlatKids(kids);
  }

  /** btrfs_insert_empty_items and the write of the items' bytes.  The first key must be new; if it is not, the
      tree may be rearranged but stands for the same items.  The other keys are not looked at: it is the callers
      who see to it that the batch is in order and its range clear. */
  method InsertItems(g: Geometry, t: Tree, h: nat, batch: seq<Item>) returns (ret: int, t': Tree, h': nat)
    requires IsTree(g, t, h) && IsBatch(g, batch)
    ensures IsShaped(g, t', h') && h <= h' <= h + 1
    ensures IsTree(g, t', h') <==> ret != 0 || (Sorted(batch) && Clear(Flat(t), batch))
    ensures ret == 0 || ret == EEXIST || ret == EOVERFLOW
    ensures ret == 0 <==> !Has(Flat(t), batch[0].key)
    ensures ret == EOVERFLOW <==> Overflows(g, Flat(t), batch)
    ensures if ret == 0 then Inserted(Flat(t), Flat(t'), batch) else Flat(t') == Flat(t)
  {
    if t.Leaf? {
      ret, t', h' := InsertInRootLeaf(g, t.items, batch);
    } else {
      ret, t', h' := InsertInRootNode(g, t.kids, h - 1, batch);
    }
    if ret == 0 {
      InsertedInOrder(Flat(t), Flat(t'), batch);
    }
  }

  /** The tree has inner nodes: the root is split if it lacks room for three more pointers. */
  method InsertInRootNode(g: Geometry, kids: seq<Kid>, h: nat, batch: seq<Item>) returns (ret: int, t': Tree, h': nat)
    requires g.Valid() && 1 <= |kids| <= g.nodePtrs && KidsWf(g, kids, h) && Sorted(FlatKids(kids))
    requires IsBatch(g, batch)
    ensures h + 1 <= h' <= h + 2 && t'.Node? && 1 <= |t'.kids| <= g.nodePtrs && KidsWf(g, t'.kids, h' - 1)
    ensures ret == 0 || ret == EEXIST || ret == EOVERFLOW
    ensures ret == 0 <==> !Has(FlatKids(kids), batch[0].key)
    ensures ret == EOVERFLOW <==> Overflows(g, FlatKids(kids), batch)
    ensures if ret == 0 then Inserted(FlatKids(kids), Flat(t'), batch) else Flat(t') == FlatKids(kids)
  {
    ghost var all := FlatKids(kids);
    KidsAscend(g, kids, h);
    var cmp, slot := KidSlot(kids, batch[0].key, -1);
    if |kids| >= g.nodePtrs - 3 {
      var path, below, c := SplitRoot(g, kids, h, slot, batch[0].key);
      ret, t' := InsertBelow(g, path, below, h, c, batch, cmp, all);
      h' := h + 2;
    } else {
      HoldsAtRoot(g, kids, h, slot, batch[0].key);
      ret, t' := InsertBelow(g, [], kids, h, slot, batch, cmp, all);
      h' := h + 1;
    }
  }

  /** split_node of the root: insert_new_root, then a split below the new root. */
  method SplitRoot(g: Geometry, kids: seq<Kid>, ghost h: nat, slot: nat, key: Key)
      returns (path: seq<Frame>, kids': seq<Kid>, slot': nat)
    requires AtKid(g, kids, h, slot, key) && |kids| <= g.nodePtrs
    ensures Holds(g, path, kids', h, slot', key, FlatKids(kids)) && |path| == 1
    ensures |kids'| < g.nodePtrs - 3 && kids'[slot'] == kids[slot]
  {
    NewRoot(g, kids, h, slot, key);
    var root := [Kid(kids[0].key, Node(kids))];
    var up, s, c := RoomInChild(g, root, h, 0, slot, key);
    HoldsAtRoot(g, up, h + 1, s, key);
    HoldsBelow(g, [], up, h, s, c, key, FlatKids(kids));
    path, kids', slot' := [] + [Frame(up, s)], up[s].child.kids, c;
  }

  lemma {:induction false} HoldsAtRoot(g: Geometry, kids: seq<Kid>, h: nat, slot: nat, key: Key)
    requires AtKid(g, kids, h, slot, key) && |kids| <= g.nodePtrs
    ensures Holds(g, [], kids, h, slot, key, FlatKids(kids))
  {
    assert [] + FlatKids(kids) + [] == FlatKids(kids);
  }

  /** The tree is a single leaf. */
  method InsertInRootLeaf(g: Geometry, items: seq<Item>, batch: seq<Item>) returns (ret: int, t': Tree, h': nat)
    requires g.Valid() && Sorted(items) && Used(g, items) <= g.leafSize && IsBatch(g, batch)
    ensures if h' == 0 then t'.Leaf? && Used(g, t'.items) <= g.leafSize
            else h' == 1 && t'.Node? && 1 <= |t'.kids| <= 3 && KidsWf(g, t'.kids, 0)
    ensures ret == 0 || ret == EEXIST || ret == EOVERFLOW
    ensures ret == 0 <==> !Has(items, batch[0].key)
    ensures ret == EOVERFLOW <==> Overflows(g, items, batch)
    ensures if ret == 0 then Inserted(items, Flat(t'), batch) else Flat(t') == items
  {
    var insLen: int := Used(g, batch);
    var found, pos := SearchLeaf(g, items, batch[0].key, insLen, false, -1);
    if found == 0 {
      insLen := insLen - g.itemSize;
      OverflowsAtSlot(g, items, pos, batch);
      UsedTail(g, items, pos);
    }
    if FreeSpace(g, items) < insLen {
      ret, t', h' := SplitRootLeaf(g, items, batch);
    } else if found == 0 {
      ret, t', h' := EEXIST, Leaf(items), 0;
    } else {
      LeafPath.UsedInsert(g, items, pos, batch);
      ret, t', h' := 0, Leaf(LeafPath.Spliced(items, pos, batch)), 0;
    }
  }

  method SplitRootLeaf(g: Geometry, items: seq<Item>, batch: seq<Item>) returns (ret: int, t': Tree, h': nat)
    requires g.Valid() && Sorted(items) && items != [] && Used(g, items) <= g.leafSize
    requires IsBatch(g, batch)
    ensures if h' == 0 then t' == Leaf(items) else h' == 1 && t'.Node? && 1 <= |t'.kids| <= 3 && KidsWf(g, t'.kids, 0)
    ensures ret == 0 || ret == EEXIST || ret == EOVERFLOW
    ensures ret == 0 <==> !Has(items, batch[0].key)
    ensures ret == EOVERFLOW <==> Overflows(g, items, batch)
    ensures if ret == 0 then Inserted(items, Flat(t'), batch) else Flat(t') == items
  {
    var root := [Kid(items[0].key, Leaf(items))];  // insert_new_root
    LeafUnderRoot(g, items, batch[0].key);
    var path, kids;
    ret, path, kids := InsertInLeaf(g, [], root, 0, batch, -1, false);
    if ret == EOVERFLOW {
      return ret, Leaf(items), 0;
    }
    t', h' := Node(kids), 1;
  }

  lemma {:induction false} LeafUnderRoot(g: Geometry, items: seq<Item>, key: Key)
    requires g.Valid() && Sorted(items) && Used(g, items) <= g.leafSize && items != []
    ensures AtKid(g, [Kid(items[0].key, Leaf(items))], 0, 0, key) && FlatKids([Kid(items[0].key, Leaf(items))]) == items
  {
    var k := Kid(items[0].key, Leaf(items));
    assert [k][..0] == [];
    assert KidWf(g, k, 0);
    assert FlatKid(k) == items;
  }

  // ---------------------------------------------------------------------------------------------
  // Deletion

  /** after is before with the n items from the key's on taken out. */
  ghost predicate Deleted(before: seq<Item>, after: seq<Item>, key: Key, n: nat)
  {
    exists i: nat :: DeletedAt(before, after, key, n, i)
  }

  ghost predicate DeletedAt(before: seq<Item>, after: seq<Item>, key: Key, n: nat, i: nat)
  {
    0 < n && i + n <= |before| && before[i].key == key && after == Cut(before, i, n)
  }

  lemma {:induction false} DeletedInMiddle(a: seq<Item>, m: seq<Item>, b: seq<Item>, m': seq<Item>, key: Key, n: nat)
    requires Deleted(m, m', key, n)
    ensures Deleted(a + m + b, a + m' + b, key, n)
  {
    var i: nat :| DeletedAt(m, m', key, n, i);
    LeafPath.CutMiddle(a, m, b, i, n);
    assert (a + m + b)[|a| + i] == m[i];
    assert DeletedAt(a + m + b, a + m' + b, key, n, |a| + i);
  }

  lemma {:induction false} DeletedKeepsOrder(before: seq<Item>, after: seq<Item>, key: Key, n: nat)
    requires Sorted(before) && Deleted(before, after, key, n)
    ensures Sorted(after) && !Has(after, key)
  {
    var i: nat :| DeletedAt(before, after, key, n, i);
    LeafPath.CutSorted(before, i, n);
    forall k | 0 <= k < |after|
      ensures after[k].key != key
    {
      assert after[k] == before[if k < i then k else k + n];
      CompKeysIsTotalOrder(key, key, key);
    }
  }

  /** The leaf end of a deletion: search_leaf, then btrfs_del_items for nr items or as many as the leaf has. */
  method DeleteInLeaf(g: Geometry, path: seq<Frame>, kids: seq<Kid>, slot: nat, key: Key, nr: nat, prevCmp: int)
      returns (ret: int, n: nat, path': seq<Frame>, kids': seq<Kid>)
    requires AtKid(g, kids, 0, slot, key) && |kids| >= 2 && LowKeysOk(path, kids[0].key) && 0 < nr
    requires prevCmp == 0 ==> kids[slot].key == key
    ensures KidsWf(g, kids', 0) && 1 <= |kids'| <= |kids|
    ensures Rekeyed(path, path') && LowKeysOk(path', kids'[0].key)
    ensures (ret == 0 || ret == 1) && n <= nr && (ret == 0 <==> n > 0)
    ensures ret == 0 <==> Has(FlatKids(kids), key)
    ensures if ret == 0 then Deleted(FlatKids(kids), FlatKids(kids'), key, n) else kids' == kids
  {
    LeafView(g, kids);
    assert KidWf(g, kids[slot], 0);
    var items := kids[slot].child.items;
    FlatKidsAt(kids, slot);
    SortedParts(FlatKids(kids[..slot]), items, FlatKids(kids[slot + 1..]));
    var pos;
    ret, pos := SearchLeaf(g, items, key, -1, true, prevCmp);
    LeafSlot(g, kids, slot, key, pos);
    n, path', kids' := 0, path, kids;
    if ret == 0 {
      n := if |items| - pos < nr then |items| - pos else nr;
      var p := new LeafPath.Path(g, path, KeysOf(kids), LeafRows(kids), slot, pos);
      CatAt(p.rows, slot, pos);
      p.DelItems(n);
      LeafKidsWf(g, p.keys, p.rows);
      path', kids' := p.up, LeafKids(p.keys, p.rows);
      assert DeletedAt(FlatKids(kids), FlatKids(kids'), key, n, At(LeafRows(kids), slot, pos));
    }
  }

  /** The chosen child of a deletion path ends up with at least two pointers (the ins_len < 0 case of
      setup_nodes_for_search): balance_level does not fail and the BUG_ON after it is not hit. */
  method FillChild(g: Geometry, kids: seq<Kid>, ghost h: nat, slot: nat, cslot: nat, key: Key)
      returns (kids': seq<Kid>, slot': nat, cslot': nat)
    requires AtKid(g, kids, h + 1, slot, key) && |kids| >= 2
    requires kids[slot].child.Node? && GoesBelow(kids[slot].child.kids, key, cslot)
    ensures AtKid(g, kids', h + 1, slot', key) && 1 <= |kids'| <= |kids|
    ensures FlatKids(kids') == FlatKids(kids) && kids'[0].key == kids[0].key
    ensures kids'[slot'].child.Node? && |kids'[slot'].child.kids| >= 2
    ensures GoesBelow(kids'[slot'].child.kids, key, cslot')
    ensures kids'[slot'].child.kids[cslot'] == kids[slot].child.kids[cslot]
  {
    if |kids[slot].child.kids| >= g.nodePtrs / 2 {
      return kids, slot, cslot;
    }
    NodeView(g, kids, h);
    var p := new NodePath.Path(g, KeysOf(kids), NodeRows(kids), slot, cslot);
    ghost var all := Cat(p.rows);
    ghost var it := At(p.rows, slot, cslot);
    KidsAscend(g, all, h);
    CatAt(p.rows, slot, cslot);
    BelowInRow(g, kids, h, slot, cslot, key);
    var ret := p.BalanceLevel();
    ChoiceSurvives(all, key, it, p.rows, p.keys, p.slot, p.pos);
    NodeKidsWf(g, p.keys, p.rows, h);
    return NodeKids(p.keys, p.rows), p.slot, p.pos;
  }

  /** One turn of the loop of btrfs_search_slot at an inner node, for a deletion: choose, fill up, go down. */
  method DeleteStep(g: Geometry, path: seq<Frame>, kids: seq<Kid>, ghost h: nat, slot: nat, key: Key, prevCmp: int,
          ghost all: seq<Item>) returns (path': seq<Frame>, kids': seq<Kid>, slot': nat, cmp: int)
    requires Holds(g, path, kids, h + 1, slot, key, all) && Sorted(all)
    requires |kids| >= 2 && (prevCmp == 0 ==> kids[slot].key == key)
    ensures Holds(g, path', kids', h, slot', key, all) && |path'| == |path| + 1
    ensures |kids'| >= 2 && (cmp == 0 ==> kids'[slot'].key == key)
  {
    ChildIsNode(g, kids, h, slot, key);
    var cslot;
    cmp, cslot := KidSlot(kids[slot].child.kids, key, prevCmp);
    var up, s, c := FillChild(g, kids, h, slot, cslot, key);
    Regrouped(g, path, kids, h + 1, slot, key, all, up, s);
    HoldsBelow(g, path, up, h, s, c, key, all);
    path', kids', slot' := path + [Frame(up, s)], up[s].child.kids, c;
  }

  /** The rest of the descent of a deletion below a node with at least two pointers. */
  method DeleteBelow(g: Geometry, path: seq<Frame>, kids: seq<Kid>, h: nat, slot: nat, key: Key, nr: nat, prevCmp: int,
          ghost all: seq<Item>) returns (ret: int, n: nat, t: Tree)
    requires Holds(g, path, kids, h, slot, key, all) && Sorted(all) && 0 < nr
    requires |kids| >= 2 && (prevCmp == 0 ==> kids[slot].key == key)
    ensures t.Node? && 1 <= |t.kids| <= g.nodePtrs && KidsWf(g, t.kids, h + |path|)
    ensures (ret == 0 || ret == 1) && n <= nr && (ret == 0 <==> n > 0)
    ensures ret == 0 <==> Has(all, key)
    ensures if ret == 0 then Deleted(all, Flat(t), key, n) else Flat(t) == all
  {
    var held, ks, d, s, cmp := path, kids, h, slot, prevCmp;
    while d > 0
      invariant Holds(g, held, ks, d, s, key, all) && |held| + d == |path| + h
      invariant |ks| >= 2 && (cmp == 0 ==> ks[s].key == key)
    {
      held, ks, s, cmp := DeleteStep(g, held, ks, d - 1, s, key, cmp, all);
      d := d - 1;
    }
    ghost var a, m, b := LeftOf(held), FlatKids(ks), RightOf(held);
    var held', ks';
    ret, n, held', ks' := DeleteInLeaf(g, held, ks, s, key, nr, cmp);
    Replaced(g, held, ks, 0, s, key, all, held', ks');
    HasInMiddle(a, m, b, key);
    if ret == 0 {
      DeletedInMiddle(a, m, b, FlatKids(ks'), key, n);
    }
    t := Plug(held', Node(ks'));
  }

  /** A root with a single pointer is replaced by its child (the first part of balance_level; the search
      then starts over). */
  method DemoteRoot(g: Geometry, t: Tree, h: nat) returns (t': Tree, h': nat)
    requires IsTree(g, t, h)
    ensures IsTree(g, t', h') && h' <= h && Flat(t') == Flat(t) && (t'.Node? ==> |t'.kids| >= 2)
  {
    t', h' := t, h;
    while t'.Node? && |t'.kids| == 1
      invariant IsTree(g, t', h') && h' <= h && Flat(t') == Flat(t)
      decreases h'
    {
      assert KidWf(g, t'.kids[0], h' - 1);
      OnlyKid(t'.kids);
      t', h' := t'.kids[0].child, h' - 1;
    }
  }

  lemma {:induction false} OnlyKid(kids: seq<Kid>)
    requires |kids| == 1
    ensures FlatKids(kids) == Flat(kids[0].child)
  {
    FlatKidsAt(kids, 0);
    assert kids[..0] == [] && kids[1..] == [];
    assert FlatKid(kids[0]) == Flat(kids[0].child);
  }

  /** The tree is a single leaf. */
  method DeleteInRootLeaf(g: Geometry, items: seq<Item>, key: Key, nr: nat)
      returns (ret: int, n: nat, items': seq<Item>)
    requires g.Valid() && Sorted(items) && Used(g, items) <= g.leafSize && 0 < nr
    ensures (ret == 0 || ret == 1) && n <= nr && (ret == 0 <==> n > 0)
    ensures ret == 0 <==> Has(items, key)
    ensures Used(g, items') <= g.leafSize
    ensures if ret == 0 then Deleted(items, items', key, n) else items' == items
  {
    var pos;
    ret, pos := SearchLeaf(g, items, key, -1, false, -1);
    if ret != 0 {
      return ret, 0, items;
    }
    n := if |items| - pos < nr then |items| - pos else nr;
    LeafPath.UsedCut(g, items, pos, n);
    items' := Cut(items, pos, n);
    assert DeletedAt(items, items', key, n, pos);
  }

  /** The tree has inner nodes. */
  method DeleteInRootNode(g: Geometry, kids: seq<Kid>, h: nat, key: Key, nr: nat) returns (ret: int, n: nat, t: Tree)
    requires g.Valid() && 2 <= |kids| <= g.nodePtrs && KidsWf(g, kids, h) && Sorted(FlatKids(kids)) && 0 < nr
    ensures t.Node? && 1 <= |t.kids| <= g.nodePtrs && KidsWf(g, t.kids, h)
    ensures (ret == 0 || ret == 1) && n <= nr && (ret == 0 <==> n > 0)
    ensures ret == 0 <==> Has(FlatKids(kids), key)
    ensures if ret == 0 then Deleted(FlatKids(kids), Flat(t), key, n) else Flat(t) == FlatKids(kids)
  {
    KidsAscend(g, kids, h);
    var cmp, slot := KidSlot(kids, key, -1);
    HoldsAtRoot(g, kids, h, slot, key);
    ret, n, t := DeleteBelow(g, [], kids, h, slot, key, nr, cmp, FlatKids(kids));
  }

  /** btrfs_search_slot with ins_len < 0 followed by btrfs_del_items for nr items, or as many as follow in the
      key's leaf. */
  method DeleteItems(g: Geometry, t: Tree, h: nat, key: Key, nr: nat) returns (ret: int, n: nat, t': Tree, h': nat)
    requires IsTree(g, t, h) && 0 < nr
    ensures IsTree(g, t', h') && h' <= h
    ensures (ret == 0 || ret == 1) && n <= nr && (ret == 0 <==> n > 0)
    ensures ret == 0 <==> Has(Flat(t), key)
    ensures if ret == 0 then Deleted(Flat(t), Flat(t'), key, n) else Flat(t') == Flat(t)
  {
    t', h' := DemoteRoot(g, t, h);
    if t'.Leaf? {
      var items;
      ret, n, items := DeleteInRootLeaf(g, t'.items, key, nr);
      t' := Leaf(items);
    } else {
      ret, n, t' := DeleteInRootNode(g, t'.kids, h' - 1, key, nr);
    }
    if ret == 0 {
      DeletedKeepsOrder(Flat(t), Flat(t'), key, n);
    }
  }

  // ---------------------------------------------------------------------------------------------
  // The tree as a map from key to bytes: at most one item per key

  /** An insertion binds the new keys and leaves every other binding. */
  lemma {:induction false} InsertedBinds(before: seq<Item>, after: seq<Item>, batch: seq<Item>, x: Item)
    requires batch != [] && Inserted(before, after, batch)
    ensures x in after <==> x in before || x in batch
  {
    var i: nat :| IsSlot(before, batch[0].key, i) && after == LeafPath.Spliced(before, i, batch);
    assert before == before[..i] + before[i..];
  }

  /** A deletion unbinds n neighbouring keys and leaves every other binding. */
  lemma {:induction false} DeletedBinds(before: seq<Item>, after: seq<Item>, key: Key, n: nat, i: nat, x: Item)
    requires Sorted(before) && DeletedAt(before, after, key, n, i)
    ensures x in after <==> x in before && x !in before[i..i + n]
    ensures n == 1 ==> (x in after <==> x in before && x.key != key)
  {
    var gone := before[i..i + n];
    assert before == before[..i] + gone + before[i + n..];
    if n == 1 {
      assert gone == [before[i]];
      if x in before && x.key == key {
        var j: nat :| j < |before| && before[j] == x;
        OneSlotPerKey(before, i, j);
      }
    }
  }

  /** Deleting what was just inserted gives back the items there were before. */
  lemma {:induction false} DeleteUndoesInsert(before: seq<Item>, mid: seq<Item>, after: seq<Item>, batch: seq<Item>)
    requires Sorted(before) && batch != [] && Sorted(batch) && Clear(before, batch) && !Has(before, batch[0].key)
    requires Inserted(before, mid, batch) && Deleted(mid, after, batch[0].key, |batch|)
    ensures after == before
  {
    InsertedInOrder(before, mid, batch);
    var i: nat :| IsSlot(before, batch[0].key, i) && mid == LeafPath.Spliced(before, i, batch);
    var j: nat :| DeletedAt(mid, after, batch[0].key, |batch|, j);
    CutSpliced(before, i, batch);
    OneSlotPerKey(mid, i, j);
  }

  lemma {:induction false} CutSpliced<T>(s: seq<T>, i: nat, xs: seq<T>)
    requires i <= |s| && xs != []
    ensures LeafPath.Spliced(s, i, xs)[i] == xs[0] && Cut(LeafPath.Spliced(s, i, xs), i, |xs|) == s
  {
  }

  lemma {:induction false} OneSlotPerKey(items: seq<Item>, i: nat, j: nat)
    requires Sorted(items) && i < |items| && j < |items| && items[i].key == items[j].key
    ensures i == j
  {
    CompKeysIsTotalOrder(items[i].key, items[i].key, items[i].key);
    assert !(i < j) && !(j < i);
  }
}
