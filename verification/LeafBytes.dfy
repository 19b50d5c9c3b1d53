/** The leaves of LeafPath are blocks of bytes: every change LeafPath makes to its rows of items is what LeafLayout's
    memmoves do to a row of blocks. */
module LeafBytes {
  import opened Common
  import opened Ctree
  import LeafLayout
  import LeafPath

  /** A block of the file system that holds these items. */
  ghost predicate Is(g: Geometry, leaf: LeafLayout.Leaf, row: seq<Item>)
    reads leaf, leaf.data
  {
    leaf.g == g && leaf.Valid() && leaf.Items() == row
  }

  ghost predicate Distinct(leaves: seq<LeafLayout.Leaf>)
  {
    forall i, j :: 0 <= i < j < |leaves| ==> leaves[i] != leaves[j] && leaves[i].data != leaves[j].data
  }

  ghost function Arrays(leaves: seq<LeafLayout.Leaf>): (r: set<array<Byte>>)
    ensures forall i :: 0 <= i < |leaves| ==> leaves[i].data in r
  {
    set i | 0 <= i < |leaves| :: leaves[i].data
  }

  /** Different blocks that hold these rows of items. */
  ghost predicate Hold(g: Geometry, leaves: seq<LeafLayout.Leaf>, rows: seq<seq<Item>>)
    reads leaves, Arrays(leaves)
  {
    && Distinct(leaves) && |rows| == |leaves|
    && forall i :: 0 <= i < |leaves| ==> Is(g, leaves[i], rows[i])
  }

  /** __push_leaf_right */
  method PushRight(g: Geometry, leaves: seq<LeafLayout.Leaf>, slot: nat, n: nat, ghost rows: seq<seq<Item>>)
    requires Hold(g, leaves, rows) && slot + 1 < |rows| && 0 < n <= |rows[slot]|
    requires Used(g, rows[slot][|rows[slot]| - n..]) <= FreeSpace(g, rows[slot + 1])
    modifies leaves[slot], leaves[slot + 1], leaves[slot + 1].data
    ensures Hold(g, leaves, LeafPath.MovedRight(rows, slot, n))
  {
    PushPair(g, leaves[slot], leaves[slot + 1], n, rows[slot], rows[slot + 1]);
  }

  method PushPair(g: Geometry, left: LeafLayout.Leaf, right: LeafLayout.Leaf, n: nat, ghost l: seq<Item>,
          ghost r: seq<Item>)
    requires Is(g, left, l) && Is(g, right, r) && left != right && left.data != right.data && 0 < n <= |l|
    requires Used(g, l[|l| - n..]) <= FreeSpace(g, r)
    modifies left, right, right.data
    ensures Is(g, left, l[..|l| - n]) && Is(g, right, l[|l| - n..] + r)
  {
    assert |left.items| == |l|;
    LeafLayout.PushRight(left, right, n);
    assert left.Items() == l[..|l| - n];
  }

  /** __push_leaf_left */
  method PushLeft(g: Geometry, leaves: seq<LeafLayout.Leaf>, slot: nat, n: nat, ghost rows: seq<seq<Item>>)
    requires Hold(g, leaves, rows) && 0 < slot < |rows| && 0 < n <= |rows[slot]|
    requires Used(g, rows[slot][..n]) <= FreeSpace(g, rows[slot - 1])
    modifies leaves[slot - 1], leaves[slot - 1].data, leaves[slot], leaves[slot].data
    ensures Hold(g, leaves, LeafPath.MovedLeft(rows, slot, n))
  {
    LeafLayout.PushLeft(leaves[slot - 1], leaves[slot], n);
  }

  /** Each of these blocks is one of those, or new. */
  twostate predicate KnownOrNew(leaves: seq<LeafLayout.Leaf>, new leaves': seq<LeafLayout.Leaf>)
  {
    forall i :: 0 <= i < |leaves'| ==>
      && (leaves'[i] in leaves || fresh(leaves'[i]))
      && (leaves'[i].data in Arrays(leaves) || fresh(leaves'[i].data))
  }

  /** A new empty block (split_leaf without a split) */
  method NewLeaf(g: Geometry, leaves: seq<LeafLayout.Leaf>, slot: nat, ghost rows: seq<seq<Item>>)
      returns (leaves': seq<LeafLayout.Leaf>)
    requires Hold(g, leaves, rows) && slot <= |rows|
    ensures Hold(g, leaves', LeafPath.Spliced(rows, slot, [[]])) && KnownOrNew(leaves, leaves')
    ensures leaves'[..slot] == leaves[..slot] && fresh(leaves'[slot]) && fresh(leaves'[slot].data)
  {
    var leaf := new LeafLayout.Leaf(g);
    leaves' := leaves[..slot] + [leaf] + leaves[slot..];
  }

  /** copy_for_split into a new block */
  method CopyForSplit(g: Geometry, leaves: seq<LeafLayout.Leaf>, slot: nat, mid: nat, ghost rows: seq<seq<Item>>)
      returns (leaves': seq<LeafLayout.Leaf>)
    requires Hold(g, leaves, rows) && slot < |rows| && mid < |rows[slot]|
    modifies leaves[slot]
    ensures Hold(g, leaves', LeafPath.SplitAt(rows, slot, mid)) && KnownOrNew(leaves, leaves')
  {
    leaves' := NewLeaf(g, leaves, slot + 1, rows);
    assert leaves'[slot] == leaves'[..slot + 1][slot] == leaves[slot];
    SplitInto(g, leaves', slot, mid, LeafPath.Spliced(rows, slot + 1, [[]]));
    SplitRows(rows, slot, mid);
  }

  lemma {:induction false} SplitRows(rows: seq<seq<Item>>, slot: nat, mid: nat)
    requires slot < |rows| && mid < |rows[slot]|
    ensures var r, l := LeafPath.Spliced(rows, slot + 1, [[]]), rows[slot];
            r[slot := l[..mid]][slot + 1 := l[mid..]] == LeafPath.SplitAt(rows, slot, mid)
  {
  }

  method SplitInto(g: Geometry, leaves: seq<LeafLayout.Leaf>, slot: nat, mid: nat, ghost rows: seq<seq<Item>>)
    requires Hold(g, leaves, rows) && slot + 1 < |rows| && mid < |rows[slot]|
    modifies leaves[slot], leaves[slot + 1], leaves[slot + 1].data
    ensures Hold(g, leaves, rows[slot := rows[slot][..mid]][slot + 1 := rows[slot][mid..]])
  {
    SplitPair(g, leaves[slot], leaves[slot + 1], mid, rows[slot]);
  }

  method SplitPair(g: Geometry, left: LeafLayout.Leaf, right: LeafLayout.Leaf, mid: nat, ghost l: seq<Item>)
    requires Is(g, left, l) && right.g == g && right.Valid() && left != right && left.data != right.data && mid < |l|
    modifies left, right, right.data
    ensures Is(g, left, l[..mid]) && Is(g, right, l[mid..])
  {
    LeafLayout.CopyForSplit(left, right, mid);
  }

  /** btrfs_del_leaf lets go of a block */
  method DelLeaf(g: Geometry, leaves: seq<LeafLayout.Leaf>, slot: nat, ghost rows: seq<seq<Item>>)
      returns (leaves': seq<LeafLayout.Leaf>)
    requires Hold(g, leaves, rows) && slot < |rows|
    ensures Hold(g, leaves', Without(rows, slot)) && KnownOrNew(leaves, leaves')
  {
    leaves' := Without(leaves, slot);
    assert forall i :: 0 <= i < |leaves'| ==> leaves'[i] == if i < slot then leaves[i] else leaves[i + 1];
  }

  /** setup_items_for_insert, then the bytes of the items */
  method InsertItems(g: Geometry, leaves: seq<LeafLayout.Leaf>, slot: nat, pos: nat, batch: seq<Item>,
          ghost rows: seq<seq<Item>>)
    requires Hold(g, leaves, rows) && slot < |rows| && pos <= |rows[slot]|
    requires Used(g, batch) <= FreeSpace(g, rows[slot])
    modifies leaves[slot], leaves[slot].data
    ensures Hold(g, leaves, rows[slot := LeafPath.Spliced(rows[slot], pos, batch)])
  {
    leaves[slot].InsertItems(pos, batch);
  }

  /** btrfs_del_items */
  method DelItems(g: Geometry, leaves: seq<LeafLayout.Leaf>, slot: nat, pos: nat, nr: nat, ghost rows: seq<seq<Item>>)
    requires Hold(g, leaves, rows) && slot < |rows| && 0 < nr && pos + nr <= |rows[slot]|
    modifies leaves[slot], leaves[slot].data
    ensures Hold(g, leaves, rows[slot := Cut(rows[slot], pos, nr)])
  {
    leaves[slot].DelItems(pos, nr);
  }

  /** btrfs_truncate_item from the front: the bytes of LeafPath.Path.SetItem */
  method TruncateFront(g: Geometry, leaves: seq<LeafLayout.Leaf>, slot: nat, pos: nat, newSize: nat,
          ghost rows: seq<seq<Item>>)
    requires Hold(g, leaves, rows) && slot < |rows| && pos < |rows[slot]| && newSize <= |rows[slot][pos].data|
    requires LeafLayout.FrontCutOk(rows[slot][pos], newSize)
    modifies leaves[slot], leaves[slot].data
    ensures Hold(g, leaves, rows[slot := rows[slot][pos := LeafLayout.TruncatedFront(rows[slot][pos], newSize)]])
  {
    leaves[slot].TruncateItemFront(pos, newSize);
  }

  // ---------------------------------------------------------------------------------------------
  // Any run of such changes

  /** What LeafPath does to its rows, one change at a time. */
  datatype Edit =
    | MoveRight(slot: nat, n: nat)
    | MoveLeft(slot: nat, n: nat)
    | Split(slot: nat, mid: nat)
    | Add(slot: nat)
    | Insert(slot: nat, pos: nat, batch: seq<Item>)
    | Remove(slot: nat, pos: nat, nr: nat)
    | Truncate(slot: nat, pos: nat, newSize: nat)
    | Drop(slot: nat)

  /** The change makes sense and there is room for it. */
  predicate Can(g: Geometry, rows: seq<seq<Item>>, e: Edit)
  {
    match e
    case MoveRight(slot, n) =>
      && slot + 1 < |rows| && 0 < n <= |rows[slot]|
      && Used(g, rows[slot][|rows[slot]| - n..]) <= FreeSpace(g, rows[slot + 1])
    case MoveLeft(slot, n) =>
      0 < slot < |rows| && 0 < n <= |rows[slot]| && Used(g, rows[slot][..n]) <= FreeSpace(g, rows[slot - 1])
    case Split(slot, mid) => slot < |rows| && mid < |rows[slot]|
    case Add(slot) => slot <= |rows|
    case Insert(slot, pos, batch) =>
      slot < |rows| && pos <= |rows[slot]| && Used(g, batch) <= FreeSpace(g, rows[slot])
    case Remove(slot, pos, nr) => slot < |rows| && 0 < nr && pos + nr <= |rows[slot]|
    case Truncate(slot, pos, newSize) =>
      && slot < |rows| && pos < |rows[slot]| && newSize <= |rows[slot][pos].data|
      && LeafLayout.FrontCutOk(rows[slot][pos], newSize)
    case Drop(slot) => slot < |rows|
  }

  function Edited(g: Geometry, rows: seq<seq<Item>>, e: Edit): seq<seq<Item>>
    requires Can(g, rows, e)
  {
    match e
    case MoveRight(slot, n) => LeafPath.MovedRight(rows, slot, n)
    case MoveLeft(slot, n) => LeafPath.MovedLeft(rows, slot, n)
    case Split(slot, mid) => LeafPath.SplitAt(rows, slot, mid)
    case Add(slot) => LeafPath.Spliced(rows, slot, [[]])
    case Insert(slot, pos, batch) => rows[slot := LeafPath.Spliced(rows[slot], pos, batch)]
    case Remove(slot, pos, nr) => rows[slot := Cut(rows[slot], pos, nr)]
    case Truncate(slot, pos, newSize) =>
      rows[slot := rows[slot][pos := LeafLayout.TruncatedFront(rows[slot][pos], newSize)]]
    case Drop(slot) => Without(rows, slot)
  }

  predicate CanAll(g: Geometry, rows: seq<seq<Item>>, edits: seq<Edit>)
    decreases |edits|
  {
    edits == [] || (Can(g, rows, edits[0]) && CanAll(g, Edited(g, rows, edits[0]), edits[1..]))
  }

  function AllEdited(g: Geometry, rows: seq<seq<Item>>, edits: seq<Edit>): seq<seq<Item>>
    requires CanAll(g, rows, edits)
    decreases |edits|
  {
    if edits == [] then rows else AllEdited(g, Edited(g, rows, edits[0]), edits[1..])
  }

  /** One change, on blocks of bytes. */
  method Do(g: Geometry, leaves: seq<LeafLayout.Leaf>, e: Edit, ghost rows: seq<seq<Item>>)
      returns (leaves': seq<LeafLayout.Leaf>)
    requires Hold(g, leaves, rows) && Can(g, rows, e)
    modifies leaves, Arrays(leaves)
    ensures Hold(g, leaves', Edited(g, rows, e)) && KnownOrNew(leaves, leaves')
  {
    match e
    case Split(slot, mid) => leaves' := CopyForSplit(g, leaves, slot, mid, rows);
    case Add(slot) => leaves' := NewLeaf(g, leaves, slot, rows);
    case Drop(slot) => leaves' := DelLeaf(g, leaves, slot, rows);
    case _ =>
      DoInPlace(g, leaves, e, rows);
      leaves' := leaves;
  }

  /** A change that neither adds nor drops a block. */
  method DoInPlace(g: Geometry, leaves: seq<LeafLayout.Leaf>, e: Edit, ghost rows: seq<seq<Item>>)
    requires Hold(g, leaves, rows) && Can(g, rows, e) && !e.Split? && !e.Add? && !e.Drop?
    modifies leaves, Arrays(leaves)
    ensures Hold(g, leaves, Edited(g, rows, e))
  {
    if e.MoveRight? {
      PushRight(g, leaves, e.slot, e.n, rows);
    } else if e.MoveLeft? {
      PushLeft(g, leaves, e.slot, e.n, rows);
    } else {
      DoInLeaf(g, leaves, e, rows);
    }
  }

  method DoInLeaf(g: Geometry, leaves: seq<LeafLayout.Leaf>, e: Edit, ghost rows: seq<seq<Item>>)
    requires Hold(g, leaves, rows) && Can(g, rows, e) && (e.Insert? || e.Remove? || e.Truncate?)
    modifies leaves[e.slot], leaves[e.slot].data
    ensures Hold(g, leaves, Edited(g, rows, e))
  {
    match e
    case Insert(slot, pos, batch) => InsertItems(g, leaves, slot, pos, batch, rows);
    case Remove(slot, pos, nr) => DelItems(g, leaves, slot, pos, nr, rows);
    case Truncate(slot, pos, newSize) => TruncateFront(g, leaves, slot, pos, newSize, rows);
  }

  /** However LeafPath changes its rows, the blocks of bytes can be changed along and hold the same items. */
  method Replay(g: Geometry, leaves: seq<LeafLayout.Leaf>, edits: seq<Edit>, ghost rows: seq<seq<Item>>)
      returns (leaves': seq<LeafLayout.Leaf>)
    requires Hold(g, leaves, rows) && CanAll(g, rows, edits)
    modifies leaves, Arrays(leaves)
    ensures Hold(g, leaves', AllEdited(g, rows, edits))
  {
    leaves' := leaves;
    ghost var now := rows;
    var i := 0;
    assert edits[0..] == edits;
    while i < |edits|
      invariant i <= |edits| && KnownOrNew(leaves, leaves') && Hold(g, leaves', now)
      invariant CanAll(g, now, edits[i..]) && AllEdited(g, now, edits[i..]) == AllEdited(g, rows, edits)
    {
      assert edits[i..][1..] == edits[i + 1..];
      leaves' := Do(g, leaves', edits[i], now);
      now := Edited(g, now, edits[i]);
      i := i + 1;
    }
  }
}
