/** Keeping inner nodes fit: the nodes under one parent, the path's position among them, and the
    operations that move pointers between neighbouring nodes, split or merge nodes. */
module NodePath {
  import opened Ctree
  import opened Errno

  predicate KidsSorted(kids: seq<Kid>)
  {
    forall i, j :: 0 <= i < j < |kids| ==> Less(kids[i].key, kids[j].key)
  }

  /** check_sibling_keys on nodes: true means corruption. */
  predicate BadSiblingKeys(left: seq<Kid>, right: seq<Kid>)
  {
    left != [] && right != [] && CompKeys(left[|left| - 1].key, right[0].key) >= 0
  }

  lemma {:induction false} NoBadSiblings(left: seq<Kid>, right: seq<Kid>)
    requires KidsSorted(left + right)
    ensures !BadSiblingKeys(left, right)
  {
    if left != [] && right != [] {
      assert (left + right)[|left| - 1] == left[|left| - 1] && (left + right)[|left|] == right[0];
    }
  }

  /** push_node_left: move pointers from src into dst, its left neighbour; n is how many. */
  method PushNodeLeft(g: Geometry, dst: seq<Kid>, src: seq<Kid>, empty: bool)
      returns (ret: int, dst': seq<Kid>, src': seq<Kid>)
    requires g.Valid() && |dst| <= g.nodePtrs && |src| <= g.nodePtrs && KidsSorted(dst + src)
    ensures ret == 0 || ret == 1
    ensures ret == 1 ==> dst' == dst && src' == src
    ensures ret == 1 <==> |dst| == g.nodePtrs
                          || (if empty then 0 < |dst| + |src| - g.nodePtrs < 8 && g.nodePtrs - |dst| <= 8
                              else |src| <= 8)
    ensures dst' + src' == dst + src && |dst| <= |dst'| <= g.nodePtrs
    ensures ret == 0 && !empty ==> |dst'| == g.nodePtrs || |src'| == 8
    ensures ret == 0 && empty ==> |dst'| == g.nodePtrs || src' == []
                                  || (|dst'| == g.nodePtrs - 8 && |dst| + |src| < g.nodePtrs + 8)
    ensures ret == 0 && src != [] ==> |dst| < |dst'|
    ensures ret == 0 && empty ==> src' == [] || |src'| >= 8
    ensures ret == 0 && !empty ==> |src'| >= 8
    ensures ret == 1 && empty ==> |dst| == g.nodePtrs || (|src| > g.nodePtrs - |dst| && g.nodePtrs - |dst| <= 8)
    ensures empty && |dst| < g.nodePtrs && |dst| + |src| <= g.nodePtrs ==> src' == []
  {
    dst', src' := dst, src;
    var push := g.nodePtrs - |dst|;
    if !empty && |src| <= 8 {
      return 1, dst, src;
    }
    if push <= 0 {
      return 1, dst, src;
    }
    if empty {
      push := if |src| < push then |src| else push;
      if push < |src| && |src| - push < 8 {
        if push <= 8 {
          return 1, dst, src;
        }
        push := push - 8;
      }
    } else {
      push := if |src| - 8 < push then |src| - 8 else push;
    }
    NoBadSiblings(dst, src);
    if BadSiblingKeys(dst, src) {
      return EUCLEAN, dst, src;
    }
    ret, dst', src' := 0, dst + src[..push], src[push..];
    assert src == src[..push] + src[push..];
  }

  /** balance_node_right: move up to half of src's pointers into dst, its right neighbour. */
  method BalanceNodeRight(g: Geometry, src: seq<Kid>, dst: seq<Kid>) returns (ret: int, src': seq<Kid>, dst': seq<Kid>)
    requires g.Valid() && |dst| <= g.nodePtrs && |src| <= g.nodePtrs && KidsSorted(src + dst)
    ensures ret == 0 || ret == 1
    ensures ret == 1 <==> |dst| == g.nodePtrs || |src| < 4
    ensures ret == 1 ==> src' == src && dst' == dst
    ensures src' + dst' == src + dst && |dst'| <= g.nodePtrs
    ensures ret == 0 ==> |dst'| == g.nodePtrs || |dst'| == |dst| + |src| / 2 + 1
    ensures ret == 0 ==> src' != [] && |dst'| > |dst|
    ensures ret == 0 && |dst| == 1 ==> |dst'| >= 2
  {
    src', dst' := src, dst;
    var push := g.nodePtrs - |dst|;
    if push <= 0 {
      return 1, src, dst;
    }
    if |src| < 4 {
      return 1, src, dst;
    }
    var maxPush := |src| / 2 + 1;
    if maxPush >= |src| {
      return 1, src, dst;
    }
    if maxPush < push {
      push := maxPush;
    }
    NoBadSiblings(src, dst);
    if BadSiblingKeys(src, dst) {
      return EUCLEAN, src, dst;
    }
    ret, src', dst' := 0, src[..|src| - push], src[|src| - push..] + dst;
    assert src == src[..|src| - push] + src[|src| - push..];
  }

  predicate KeysOk(keys: seq<Key>, rows: seq<seq<Kid>>)
  {
    |keys| == |rows| && forall i :: 0 <= i < |rows| && rows[i] != [] ==> keys[i] == rows[i][0].key
  }

  predicate Fits(g: Geometry, rows: seq<seq<Kid>>)
  {
    forall i :: 0 <= i < |rows| ==> |rows[i]| <= g.nodePtrs
  }

  lemma {:induction false} MiddleSorted(a: seq<Kid>, w: seq<Kid>, b: seq<Kid>)
    requires KidsSorted(a + w + b)
    ensures KidsSorted(w)
  {
    assert forall k :: 0 <= k < |w| ==> w[k] == (a + w + b)[|a| + k];
  }

  lemma {:induction false} NeighboursSorted(rows: seq<seq<Kid>>, i: nat)
    requires i + 1 < |rows| && KidsSorted(Cat(rows))
    ensures KidsSorted(rows[i] + rows[i + 1])
  {
    CatAround(rows, i);
    MiddleSorted(Cat(rows[..i]), rows[i] + rows[i + 1], Cat(rows[i + 2..]));
  }

  /** Child k has pointers and its parent key is the first of them. */
  predicate ChildOk(keys: seq<Key>, rows: seq<seq<Kid>>, k: nat)
    requires k < |keys| && k < |rows|
  {
    rows[k] != [] && keys[k] == rows[k][0].key
  }

  lemma {:induction false} AllChildrenOk(keys: seq<Key>, rows: seq<seq<Kid>>)
    requires |keys| == |rows|
    ensures (forall k :: 0 <= k < |rows| ==> ChildOk(keys, rows, k)) <==> KeysOk(keys, rows) && NonEmpty(rows)
  {
    if forall k :: 0 <= k < |rows| ==> ChildOk(keys, rows, k) {
      forall k | 0 <= k < |rows|
        ensures rows[k] != [] && keys[k] == rows[k][0].key
      {
        assert ChildOk(keys, rows, k);
      }
    }
  }

  /** Dropping child i keeps the others' order; child j < i is exempt before and after. */
  lemma {:induction false} DropOk(keys: seq<Key>, rows: seq<seq<Kid>>, i: nat, j: nat)
    requires |keys| == |rows| && i < |rows| && j <= i
    requires forall k :: 0 <= k < |rows| && k != i && k != j ==> ChildOk(keys, rows, k)
    ensures var keys', rows' := keys[..i] + keys[i + 1..], rows[..i] + rows[i + 1..];
      && |keys'| == |rows'| == |rows| - 1 && rows'[..i] == rows[..i]
      && forall k :: 0 <= k < |rows'| && (k != j || i == j) ==> ChildOk(keys', rows', k)
  {
    var keys', rows' := keys[..i] + keys[i + 1..], rows[..i] + rows[i + 1..];
    forall k | 0 <= k < |rows'| && (k != j || i == j)
      ensures ChildOk(keys', rows', k)
    {
      assert ChildOk(keys, rows, if k < i then k else k + 1);
    }
  }

  class Path {
    const g: Geometry
    /** keys of the parent, pointers of its children, the parent's slot, the slot in the child */
    var keys: seq<Key>
    var rows: seq<seq<Kid>>
    var slot: nat
    var pos: nat

    predicate Sound()
      reads this
    {
      g.Valid() && |keys| == |rows| && Fits(g, rows) && KidsSorted(Cat(rows))
    }

    predicate Valid()
      reads this
    {
      Sound() && slot < |rows| && pos < |rows[slot]| && KeysOk(keys, rows) && NonEmpty(rows)
    }

    constructor (g: Geometry, keys: seq<Key>, rows: seq<seq<Kid>>, slot: nat, pos: nat)
      ensures this.g == g && this.keys == keys && this.rows == rows && this.slot == slot && this.pos == pos
    {
      this.g, this.keys, this.rows, this.slot, this.pos := g, keys, rows, slot, pos;
    }

    /** Store new contents in two neighbouring nodes. */
    method SetNeighbours(i: nat, x: seq<Kid>, y: seq<Kid>)
      requires Sound() && i + 1 < |rows| && x + y == rows[i] + rows[i + 1] && |x| <= g.nodePtrs && |y| <= g.nodePtrs
      modifies this`rows
      ensures Sound() && rows == old(rows)[i := x][i + 1 := y] && Cat(rows) == old(Cat(rows))
      ensures rows[..i] == old(rows)[..i]
    {
      CatNeighbours(rows, i, x, y);
      rows := rows[i := x][i + 1 := y];
    }

    /** push_node_left between two neighbours. */
    method PushLeft(i: nat, empty: bool) returns (ret: int)
      requires Sound() && i + 1 < |rows|
      modifies this`rows
      ensures Sound() && (ret == 0 || ret == 1) && Cat(rows) == old(Cat(rows))
      ensures |rows| == |old(rows)| && rows == old(rows)[i := rows[i]][i + 1 := rows[i + 1]]
      ensures rows[i] + rows[i + 1] == old(rows[i] + rows[i + 1]) && |rows[i]| >= |old(rows)[i]|
      ensures ret == 1 ==> rows == old(rows)
      ensures ret == 0 && old(rows)[i + 1] != [] ==> |rows[i]| > |old(rows)[i]|
      ensures ret == 0 && empty ==> rows[i + 1] == [] || |rows[i + 1]| >= 8
      ensures ret == 0 && !empty ==> |rows[i + 1]| >= 8
      ensures ret == 1 && empty ==>
              |rows[i]| == g.nodePtrs || (|rows[i + 1]| > g.nodePtrs - |rows[i]| && g.nodePtrs - |rows[i]| <= 8)
      ensures empty && old(|rows[i]| < g.nodePtrs && |rows[i]| + |rows[i + 1]| <= g.nodePtrs) ==> rows[i + 1] == []
    {
      NeighboursSorted(rows, i);
      var dst, src;
      ret, dst, src := PushNodeLeft(g, rows[i], rows[i + 1], empty);
      if ret == 0 {
        assert |dst| + |src| == |dst + src|;
        SetNeighbours(i, dst, src);
      }
    }

    /** balance_node_right between two neighbours. */
    method PushRight(i: nat) returns (ret: int)
      requires Sound() && i + 1 < |rows|
      modifies this`rows
      ensures Sound() && (ret == 0 || ret == 1) && Cat(rows) == old(Cat(rows))
      ensures |rows| == |old(rows)| && rows == old(rows)[i := rows[i]][i + 1 := rows[i + 1]]
      ensures rows[i] + rows[i + 1] == old(rows[i] + rows[i + 1])
      ensures ret == 1 <==> old(|rows[i + 1]| == g.nodePtrs || |rows[i]| < 4)
      ensures ret == 1 ==> rows == old(rows)
      ensures ret == 0 ==> rows[i] != [] && |rows[i + 1]| > |old(rows)[i + 1]| && |rows[i]| < |old(rows)[i]|
    {
      NeighboursSorted(rows, i);
      var src, dst;
      ret, src, dst := BalanceNodeRight(g, rows[i], rows[i + 1]);
      if ret == 0 {
        assert |src| + |dst| == |src + dst|;
        SetNeighbours(i, src, dst);
      }
    }

    /** btrfs_del_ptr for a child that has been emptied.  balance_level never empties the first child, so
        the parent's first key stays and nothing climbs. */
    method DelPtr(i: nat)
      requires Sound() && 0 < i < |rows| && rows[i] == []
      modifies this`rows, this`keys
      ensures Sound() && Cat(rows) == old(Cat(rows))
      ensures rows == old(rows)[..i] + old(rows)[i + 1..] && keys == old(keys)[..i] + old(keys)[i + 1..]
    {
      CatDropRow(rows, i);
      rows := rows[..i] + rows[i + 1..];
      keys := keys[..i] + keys[i + 1..];
    }

    /** Give the path to the child holding element `at` of the two children from `first` on (the end of
        balance_level and push_nodes_for_insert). */
    method SetPath(first: nat, at: nat)
      requires first + 1 < |rows| && at < |rows[first]| + |rows[first + 1]|
      modifies this`slot, this`pos
      ensures slot < |rows| && pos < |rows[slot]| && At(rows, slot, pos) == At(rows, first, at)
      ensures slot == if at < |rows[first]| then first else first + 1
    {
      CatPrefix(rows, first);
      if |rows[first]| > at {
        slot, pos := first, at;
      } else {
        slot, pos := first + 1, at - |rows[first]|;
      }
    }

    /** The moves of balance_level: fill the left neighbour, then refill from the right one, then make sure
        the path's node is not left with a single pointer. */
    method BalanceMoves() returns (ret: int)
      requires Valid() && |rows[slot]| <= g.nodePtrs / 4
      modifies this`rows
      ensures Sound() && |rows| == |old(rows)| && Cat(rows) == old(Cat(rows))
      ensures ret == 0 || (ret == EUCLEAN && |rows| == 1 && |rows[0]| == 1 && rows == old(rows))
      ensures ret == 0 ==> |rows[slot]| != 1
      ensures rows[slot] == [] ==> slot > 0 && (slot + 1 < |rows| ==> rows[slot + 1] == [])
      ensures slot > 0 ==> rows[slot - 1] != []
      ensures forall k :: 0 <= k < |rows| && (k < slot - 1 || k > slot + 1) ==> rows[k] == old(rows)[k]
      ensures if slot == 0 then |rows[0]| >= |old(rows)[0]|
              else |rows[slot - 1]| + |rows[slot]| >= |old(rows)[slot - 1]| + |old(rows)[slot]|
    {
      ret := 0;
      FirstMoves();
      if |rows[slot]| == 1 {
        if slot == 0 {
          return EUCLEAN;
        }
        PullFromLeft();
      }
    }

    /** The node is down to one pointer: it takes some from the left neighbour or gives its own away. */
    method PullFromLeft()
      requires Sound() && 0 < slot < |rows| && |rows[slot]| == 1 && rows[slot - 1] != []
      modifies this`rows
      ensures Sound() && |rows| == |old(rows)| && Cat(rows) == old(Cat(rows))
      ensures |rows[slot]| != 1 && rows[slot - 1] != []
      ensures forall k :: 0 <= k < |rows| && k != slot - 1 && k != slot ==> rows[k] == old(rows)[k]
      ensures |rows[slot - 1]| + |rows[slot]| == |old(rows)[slot - 1]| + |old(rows)[slot]|
    {
      ghost var two := rows[slot - 1] + rows[slot];
      var wret := PushRight(slot - 1);
      if wret == 1 {
        wret := PushLeft(slot - 1, true);
      }
      assert wret != 1;  // BUG_ON(wret == 1)
      assert |two| == |rows[slot - 1] + rows[slot]|;
    }

    method FirstMoves()
      requires Valid() && |rows[slot]| <= g.nodePtrs / 4
      modifies this`rows
      ensures Sound() && |rows| == |old(rows)| && Cat(rows) == old(Cat(rows))
      ensures forall k :: 0 <= k < |rows| && (k < slot - 1 || k > slot + 1) ==> rows[k] == old(rows)[k]
      ensures slot > 0 ==> rows[slot - 1] != []
      ensures slot == 0 ==> |rows[0]| >= |old(rows)[0]| && (if |rows| == 1 then rows == old(rows) else |rows[0]| >= 2)
      ensures slot > 0 ==> |rows[slot - 1]| + |rows[slot]| >= |old(rows)[slot - 1]| + |old(rows)[slot]|
      ensures |rows[slot]| <= 1 && slot + 1 < |rows| ==> slot > 0 && rows[slot + 1] == []
      ensures rows[slot] == [] ==> slot > 0
    {
      var wret;
      if slot > 0 {
        wret := PushLeft(slot - 1, true);
      }
      if slot + 1 < |rows| {
        wret := PushLeft(slot, true);
      }
    }

    /** The parent's side of balance_level for the right neighbour. */
    method FixRightKey()
      requires Sound() && slot + 1 < |rows|
      requires forall k :: 0 <= k < |rows| && k != slot && k != slot + 1 ==> ChildOk(keys, rows, k)
      modifies this`keys, this`rows
      ensures Sound() && Cat(rows) == old(Cat(rows)) && slot < |rows| && rows[..slot + 1] == old(rows)[..slot + 1]
      ensures forall k :: 0 <= k < |rows| && k != slot ==> ChildOk(keys, rows, k)
      ensures |rows| == |old(rows)| || (|rows| == |old(rows)| - 1 && old(rows)[slot + 1] == [])
      ensures keys[0] == old(keys[0])
    {
      if rows[slot + 1] == [] {
        DropOk(keys, rows, slot + 1, slot);
        DelPtr(slot + 1);
      } else {
        keys := keys[slot + 1 := rows[slot + 1][0].key];
        forall k | 0 <= k < |rows| && k != slot
          ensures ChildOk(keys, rows, k)
        {
          assert k != slot + 1 ==> ChildOk(old(keys), rows, k);
        }
      }
    }

    /** The parent's side of balance_level for the path's own node. */
    method FixMidKey()
      requires Sound() && slot < |rows|
      requires forall k :: 0 <= k < |rows| && k != slot ==> ChildOk(keys, rows, k)
      requires rows[slot] == [] ==> slot > 0
      modifies this`keys, this`rows
      ensures Sound() && KeysOk(keys, rows) && NonEmpty(rows) && Cat(rows) == old(Cat(rows))
      ensures slot <= |rows| && rows[..slot] == old(rows)[..slot]
      ensures old(rows)[slot] != [] ==> rows == old(rows)
      ensures old(rows)[slot] == [] ==> |rows| == |old(rows)| - 1
      ensures slot > 0 ==> keys[0] == old(keys[0])
    {
      if rows[slot] == [] {
        DropOk(keys, rows, slot, slot);
        DelPtr(slot);
      } else {
        keys := keys[slot := rows[slot][0].key];
        forall k | 0 <= k < |rows|
          ensures ChildOk(keys, rows, k)
        {
          assert k != slot ==> ChildOk(old(keys), rows, k);
        }
      }
      AllChildrenOk(keys, rows);
    }

    /** The parent's side of balance_level: drop emptied children, store first keys. */
    method BalanceKeys()
      requires Sound() && slot < |rows|
      requires forall k :: 0 <= k < |rows| && k != slot && k != slot + 1 ==> ChildOk(keys, rows, k)
      requires rows[slot] == [] ==> slot > 0
      modifies this`keys, this`rows
      ensures Sound() && KeysOk(keys, rows) && NonEmpty(rows) && Cat(rows) == old(Cat(rows))
      ensures slot <= |rows| && rows[..slot] == old(rows)[..slot]
      ensures old(rows)[slot] != [] ==> slot < |rows| && rows[slot] == old(rows)[slot]
      ensures |old(rows)| - 2 <= |rows| <= |old(rows)|
      ensures slot > 0 ==> keys[0] == old(keys[0])
    {
      if slot + 1 < |rows| {
        FixRightKey();
      }
      assert rows[slot] == rows[..slot + 1][slot];
      assert rows[..slot] == rows[..slot + 1][..slot];
      FixMidKey();
    }

    /** balance_level below the root.  The pointers and their order stay, the path stays on its pointer
        (the final BUG check), and no node is left empty or with a single pointer under the path. */
    method BalanceLevel() returns (ret: int)
      requires Valid()
      modifies this`keys, this`rows, this`slot, this`pos
      ensures ret == EUCLEAN <==> old(|rows| == 1 && |rows[0]| == 1)
      ensures ret == 0 || (ret == EUCLEAN && rows == old(rows) && keys == old(keys) && slot == old(slot)
              && pos == old(pos))
      ensures Valid() && Cat(rows) == old(Cat(rows)) && At(rows, slot, pos) == old(At(rows, slot, pos))
      ensures rows[slot][pos] == old(rows[slot][pos])
      ensures ret == 0 ==> |rows[slot]| >= 2
      ensures |old(rows)| - 2 <= |rows| <= |old(rows)|
      ensures keys[0] == old(keys[0])
    {
      if |rows[slot]| > g.nodePtrs / 4 {
        return 0;
      }
      CatAt(rows, slot, pos);
      if slot == 0 {
        ret := BalanceFirst();
      } else {
        BalanceMiddle();
        ret := 0;
      }
      CatAt(rows, slot, pos);
    }

    /** balance_level for the leftmost child. */
    method BalanceFirst() returns (ret: int)
      requires Valid() && slot == 0 && |rows[slot]| <= g.nodePtrs / 4
      modifies this`keys, this`rows
      ensures ret == EUCLEAN <==> old(|rows| == 1 && |rows[0]| == 1)
      ensures ret == 0 || (ret == EUCLEAN && rows == old(rows) && keys == old(keys))
      ensures Valid() && Cat(rows) == old(Cat(rows))
      ensures ret == 0 ==> |rows[0]| >= 2
      ensures |old(rows)| - 2 <= |rows| <= |old(rows)|
      ensures keys[0] == old(keys[0])
    {
      AllChildrenOk(keys, rows);
      CatAt(rows, 0, 0);
      ret := BalanceMoves();
      if ret == 0 {
        CatAt(rows, 0, 0);
        assert forall k :: 0 <= k < |rows| && k != 0 && k != 1 ==>
            ChildOk(keys, old(rows), k) && ChildOk(keys, rows, k);
        BalanceKeys();
        assert keys[0] == rows[0][0].key;
      }
    }

    /** balance_level for a child with a left neighbour. */
    method BalanceMiddle()
      requires Valid() && slot > 0 && |rows[slot]| <= g.nodePtrs / 4
      modifies this`keys, this`rows, this`slot, this`pos
      ensures Valid() && Cat(rows) == old(Cat(rows)) && At(rows, slot, pos) == old(At(rows, slot, pos))
      ensures |rows[slot]| >= 2
      ensures |old(rows)| - 2 <= |rows| <= |old(rows)|
      ensures keys[0] == old(keys[0])
    {
      var f := slot - 1;
      var orig := pos + |rows[f]|;
      ghost var base := Cat(rows[..f]);
      AllChildrenOk(keys, rows);
      CatAt(rows, f, 0);
      CatPrefix(rows, f);
      MovesBelow(f);
      ghost var moved := rows;
      BalanceKeys();
      assert rows[..f] == rows[..slot][..f] && moved[..f] == moved[..slot][..f];
      assert rows[f] == rows[..slot][f] && moved[f] == moved[..slot][f];
      CatPrefix(rows, f);
      if |rows[f]| > orig {
        slot := f;
        pos := orig;
      } else {
        pos := orig - |rows[f]|;
      }
    }

    method MovesBelow(f: nat)
      requires Valid() && slot == f + 1 && |rows[slot]| <= g.nodePtrs / 4
      modifies this`rows
      ensures Sound() && |rows| == |old(rows)| && Cat(rows) == old(Cat(rows)) && rows[..f] == old(rows)[..f]
      ensures forall k :: 0 <= k < |rows| && k != slot && k != slot + 1 ==> ChildOk(keys, rows, k)
      ensures |rows[slot]| != 1 && |rows[f]| + |rows[slot]| >= |old(rows)[f]| + |old(rows)[slot]|
    {
      AllChildrenOk(keys, rows);
      CatAt(rows, f, 0);
      var ret := BalanceMoves();
      assert rows[..f] == old(rows)[..f];
      CatAt(rows, f, 0);
      forall k | 0 <= k < |rows| && k != slot && k != slot + 1
        ensures ChildOk(keys, rows, k)
      {
        assert ChildOk(keys, old(rows), k);
      }
    }

    /** push_nodes_for_insert. */
    method PushNodesForInsert() returns (ret: int)
      requires Valid()
      modifies this`keys, this`rows, this`slot, this`pos
      ensures Valid() && (ret == 0 || ret == 1) && |rows| == |old(rows)|
      ensures ret == 1 ==> keys == old(keys) && rows == old(rows) && slot == old(slot) && pos == old(pos)
      ensures Cat(rows) == old(Cat(rows)) && At(rows, slot, pos) == old(At(rows, slot, pos))
      ensures keys[0] == old(keys[0])
    {
      ret := 1;
      if slot > 0 && |rows[slot - 1]| < g.nodePtrs - 1 {
        ret := PushToLeft();
      }
      if ret != 0 && slot + 1 < |rows| && |rows[slot + 1]| < g.nodePtrs - 1 {
        ret := PushPair(slot, false);
        if ret == 0 {
          SetPath(slot, pos);
        }
      }
    }

    /** The first half of push_nodes_for_insert: to the left neighbour. */
    method PushToLeft() returns (ret: int)
      requires Valid() && slot > 0
      modifies this`keys, this`rows, this`slot, this`pos
      ensures Valid() && (ret == 0 || ret == 1) && |rows| == |old(rows)| && keys[0] == old(keys[0])
      ensures ret == 1 ==> keys == old(keys) && rows == old(rows) && slot == old(slot) && pos == old(pos)
      ensures Cat(rows) == old(Cat(rows)) && At(rows, slot, pos) == old(At(rows, slot, pos))
    {
      var f := slot - 1;
      var orig := pos + |rows[f]|;
      CatPrefix(rows, f);
      ret := PushPair(f, true);
      if ret == 0 {
        SetPath(f, orig);
      }
    }

    /** push_node_left or balance_node_right between children i and i + 1, and the new first key of the
        right one in the parent. */
    method PushPair(i: nat, toLeft: bool) returns (ret: int)
      requires Sound() && KeysOk(keys, rows) && NonEmpty(rows) && i + 1 < |rows|
      modifies this`keys, this`rows
      ensures Sound() && KeysOk(keys, rows) && NonEmpty(rows) && (ret == 0 || ret == 1)
      ensures |rows| == |old(rows)| && rows[..i] == old(rows)[..i] && Cat(rows) == old(Cat(rows))
      ensures |rows[i]| + |rows[i + 1]| == |old(rows)[i]| + |old(rows)[i + 1]|
      ensures ret == 1 ==> keys == old(keys) && rows == old(rows)
      ensures keys[0] == old(keys[0])
    {
      CatAt(rows, i, 0);
      ghost var two := rows[i] + rows[i + 1];
      if toLeft {
        ret := PushLeft(i, false);
      } else {
        ret := PushRight(i);
      }
      assert |two| == |rows[i] + rows[i + 1]|;
      assert rows[..i] == old(rows)[..i];
      CatAt(rows, i, 0);
      if ret == 0 {
        keys := keys[i + 1 := rows[i + 1][0].key];
      }
    }

    /** split_node below the root.  (For the root, insert_new_root has just put it alone under a new one;
        then there is no neighbour to push to.) */
    method SplitNode()
      requires Valid() && |rows[slot]| >= g.nodePtrs - 3
      requires |rows| < g.nodePtrs  // the parent has room: what insert_ptr insists on
      modifies this`keys, this`rows, this`slot, this`pos
      ensures Valid() && |rows[slot]| < g.nodePtrs - 3
      ensures Cat(rows) == old(Cat(rows)) && At(rows, slot, pos) == old(At(rows, slot, pos))
      ensures |old(rows)| <= |rows| <= |old(rows)| + 1
      ensures keys[0] == old(keys[0])
    {
      var ret := PushNodesForInsert();
      if ret == 0 && |rows[slot]| < g.nodePtrs - 3 {
        return;
      }
      SplitRow((|rows[slot]| + 1) / 2);
    }

    method SplitRow(mid: nat)
      requires Valid() && 0 < mid < |rows[slot]|
      modifies this`keys, this`rows, this`slot, this`pos
      ensures Valid() && |rows| == |old(rows)| + 1
      ensures Cat(rows) == old(Cat(rows)) && At(rows, slot, pos) == old(At(rows, slot, pos))
      ensures |rows[slot]| == mid || |rows[slot]| == |old(rows[slot])| - mid
      ensures keys[0] == old(keys[0])
    {
      var c := rows[slot];
      CatSplitRow(rows, slot, c[..mid], c[mid..]);
      assert c == c[..mid] + c[mid..];
      SplitRowOk(g, keys, rows, slot, c[..mid], c[mid..]);
      keys := keys[..slot + 1] + [c[mid].key] + keys[slot + 1..];
      rows := rows[..slot] + [c[..mid], c[mid..]] + rows[slot + 1..];
      assert rows[slot] == c[..mid] && rows[slot + 1] == c[mid..];
      CatPrefix(rows, slot);
      if pos >= mid {
        pos := pos - mid;
        slot := slot + 1;
      }
    }
  }

  lemma {:induction false} SplitRowOk(g: Geometry, keys: seq<Key>, rows: seq<seq<Kid>>, i: nat, x: seq<Kid>,
          y: seq<Kid>)
    requires Fits(g, rows) && KeysOk(keys, rows) && NonEmpty(rows) && i < |rows|
    requires x != [] && y != [] && x + y == rows[i]
    ensures Fits(g, rows[..i] + [x, y] + rows[i + 1..]) && NonEmpty(rows[..i] + [x, y] + rows[i + 1..])
    ensures KeysOk(keys[..i + 1] + [y[0].key] + keys[i + 1..], rows[..i] + [x, y] + rows[i + 1..])
    ensures (rows[..i] + [x, y] + rows[i + 1..])[..i] == rows[..i]
  {
    assert |x| + |y| == |rows[i]| && x[0] == rows[i][0];
    TwoForOne(rows, i, x, y);
    TwoForOne(keys, i, keys[i], y[0].key);
    assert keys[..i + 1] + [y[0].key] + keys[i + 1..] == keys[..i] + [keys[i], y[0].key] + keys[i + 1..];
  }
}
