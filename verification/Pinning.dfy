/** Addresses are handed out again: what is freed while a transaction runs stays pinned until it commits, unless it was
    made in the same transaction and never written.  CowRefs names every block by an address of its own; here blocks and
    data extents have places on the device, and a place may be used again. */
module Pinning {
  import opened CowRefs

  // ---------------------------------------------------------------------------------------------
  // Live blocks point at live blocks

  ghost predicate PointsWell(s: State, h: Addr, a: Addr)
    requires h in s.blocks
  {
    (a in s.blocks ==> a in s.live) && (s.blocks[h].level > 0 ==> a in s.blocks)
  }

  /** A live block points at no freed block, and only a leaf points at anything but blocks. */
  ghost predicate Closed(s: State)
  {
    forall h, a {:trigger PointsWell(s, h, a)} :: h in s.live && h in s.blocks && a in s.blocks[h].ptrs ==>
      PointsWell(s, h, a)
  }

  /** The rewritten nodes point at blocks. */
  ghost predicate TypedEdit(s: State, edit: map<Addr, Body>)
  {
    forall b, a :: b in edit && edit[b].level > 0 && a in edit[b].ptrs ==> a in s.blocks || a in edit
  }

  ghost predicate Typed(s: State, step: Step)
  {
    step.Restructure? ==> TypedEdit(s, step.edit)
  }

  /** What no reference is recorded for, no live block points at. */
  lemma {:induction false} NoRefNoPointer(s: State, h: Addr, a: Addr)
    requires Inv(s) && h in s.live && RefsAt(s.refs, a) == multiset{}
    ensures h in s.blocks && a !in s.blocks[h].ptrs
  {
    if a in s.blocks[h].ptrs {
      PointerIsRecorded(s, h, a);
    }
  }

  /** A block that has references is live. */
  lemma {:induction false} RefMeansLive(s: State, a: Addr)
    requires Inv(s) && Closed(s) && a in s.blocks && RefsAt(s.refs, a) != multiset{}
    ensures a in s.live
  {
    var ref :| ref in RefsAt(s.refs, a);
    assert RefsAt(s.refs, a)[ref] == Expected(s, a, ref);
    if RootCount(s.roots, a, ref) > 0 {
      assert RootOk(s, ref.root);
    } else {
      HolderByRef(s.blocks, s.full, s.live, a, ref);
      var h :| h in s.live && a in s.blocks[h].ptrs && RefOf(s.blocks, s.full, h) == ref;
      assert PointsWell(s, h, a);
    }
  }

  lemma {:induction false} CowChildClosed(s: State, p: Addr, i: nat, c: Addr)
    requires Inv(s) && Closed(s) && ChildReady(s, p, i, c)
    ensures Closed(CowChild(s, p, i, c))
  {
    var s', buf := CowChild(s, p, i, c), s.blocks[p].ptrs[i];
    CowChildKeepsInv(s, p, i, c);
    LookupIsTrue(s, p, buf);
    assert HeldOk(s, p);
    if buf !in s'.live {
      FreedHasNoRefs(s, p, i, c);
    }
    forall h, a | h in s'.live && h in s'.blocks && a in s'.blocks[h].ptrs
      ensures PointsWell(s', h, a)
    {
      if a == buf && buf !in s'.live {
        NoRefNoPointer(s', h, buf);
      } else {
        CopyPointsWell(s, p, i, c, h, a);
      }
    }
  }

  lemma {:induction false} CopyPointsWell(s: State, p: Addr, i: nat, c: Addr, h: Addr, a: Addr)
    requires Shape(s) && Closed(s) && ChildReady(s, p, i, c) && p != s.blocks[p].ptrs[i] && p in s.live
    requires var s' := CowChild(s, p, i, c);
             && h in s'.live && h in s'.blocks && a in s'.blocks[h].ptrs
             && (a == s.blocks[p].ptrs[i] ==> a in s'.live)
    ensures PointsWell(CowChild(s, p, i, c), h, a)
  {
    var s', buf := CowChild(s, p, i, c), s.blocks[p].ptrs[i];
    if a != c {
      var k := if h == c then buf else h;
      assert a in s.blocks[k].ptrs;
      assert PointsWell(s, k, a);
    } else {
      assert h == p;
    }
  }

  lemma {:induction false} FreedHasNoRefs(s: State, p: Addr, i: nat, c: Addr)
    requires Inv(s) && ChildReady(s, p, i, c) && s.blocks[p].ptrs[i] !in CowChild(s, p, i, c).live
    ensures RefsAt(CowChild(s, p, i, c).refs, s.blocks[p].ptrs[i]) == multiset{}
  {
    var s', buf := CowChild(s, p, i, c), s.blocks[p].ptrs[i];
    LookupIsTrue(s, p, buf);
    forall x
      ensures RefsAt(s'.refs, buf)[x] == 0
    {
      CowRefAt(s, p, i, c, buf, x);
    }
  }

  lemma {:induction false} CowRootClosed(s: State, c: Addr)
    requires Inv(s) && Closed(s) && s.held == {} && Usable(s, s.cur) && Unused(s, c) && RootOk(s, s.cur)
    ensures Closed(CowRoot(s, c))
  {
    var s', node := CowRoot(s, c), s.roots[s.cur].node;
    CowRootKeepsInv(s, c);
    forall x
      ensures RefsAt(s'.refs, node)[x] == 0
    {
      CowRootRefs(s, c, node, x);
    }
    forall h, a | h in s'.live && h in s'.blocks && a in s'.blocks[h].ptrs
      ensures PointsWell(s', h, a)
    {
      if a == node {
        NoRefNoPointer(s', h, node);
      } else {
        var k := if h == c then node else h;
        assert a in s.blocks[k].ptrs;
        assert PointsWell(s, k, a);
      }
    }
  }

  lemma {:induction false} RestructureClosed(s: State, edit: map<Addr, Body>, node: Addr)
    requires Inv(s) && Closed(s) && MayRestructure(s, edit, node) && TypedEdit(s, edit)
    ensures Closed(Restructured(s, edit, node))
  {
    var s' := Restructured(s, edit, node);
    RestructureKeepsInv(s, edit, node);
    assert forall b :: b in s.held ==> HeldOk(s, b);
    assert RootOk(s, s.cur);
    forall h, a | h in s'.live && h in s'.blocks && a in s'.blocks[h].ptrs
      ensures PointsWell(s', h, a)
    {
      if a in s.held - edit.Keys {
        NoRefNoPointer(s', h, a);
      } else if h in edit {
        RestructuredPtr(s, edit, node, h, a);
        if k :| k in s.held && a in s.blocks[k].ptrs {
          assert PointsWell(s, k, a);
        }
      } else {
        assert PointsWell(s, h, a);
        assert a in edit && a !in s.held ==> Unused(s, a);
      }
    }
  }

  lemma {:induction false} SnapshotClosed(s: State, r: RootId, n: RootId, c: Addr)
    requires Inv(s) && Closed(s) && MaySnapshot(s, r, n, c)
    ensures Closed(Snapshotted(s, r, n, c))
  {
    var s', node := Snapshotted(s, r, n, c), s.roots[r].node;
    assert RootOk(s, r);
    forall h, a | h in s'.live && h in s'.blocks && a in s'.blocks[h].ptrs
      ensures PointsWell(s', h, a)
    {
      var k := if h == c then node else h;
      assert a in s.blocks[k].ptrs;
      assert PointsWell(s, k, a);
    }
  }

  /** The same blocks with the same levels, new pointers only in leaves and only to data. */
  lemma {:induction false} LeafChangeClosed(s: State, s': State)
    requires Closed(s) && s'.live == s.live && s'.blocks.Keys == s.blocks.Keys
    requires forall b :: b in s.blocks ==> s'.blocks[b].level == s.blocks[b].level
    requires forall b, a :: b in s.blocks && a in s'.blocks[b].ptrs && a !in s.blocks[b].ptrs ==>
               s.blocks[b].level == 0 && a !in s.blocks
    ensures Closed(s')
  {
    forall h, a | h in s'.live && h in s'.blocks && a in s'.blocks[h].ptrs
      ensures PointsWell(s', h, a)
    {
      assert a in s.blocks[h].ptrs ==> PointsWell(s, h, a);
    }
  }

  lemma {:induction false} CreateClosed(s: State, n: RootId, c: Addr)
    requires Closed(s) && Unused(s, c)
    ensures Closed(Created(s, n, c))
  {
    var s' := Created(s, n, c);
    forall h, a | h in s'.live && h in s'.blocks && a in s'.blocks[h].ptrs
      ensures PointsWell(s', h, a)
    {
      assert PointsWell(s, h, a);
    }
  }

  lemma {:induction false} StartClosed(s: State, r: RootId, c: Addr)
    requires Inv(s) && Closed(s) && Usable(s, r) && Unused(s, c) && s.roots[r].node in s.blocks
    ensures Closed(Started(s, r, c))
  {
    var s0 := s.(cur := r, held := {});
    PathFrame(s, r, {});
    LeafChangeClosed(s, s0);
    assert RootOk(s0, r);
    if ShouldCow(s0, r, s.roots[r].node) {
      CowRootClosed(s0, c);
    } else {
      LeafChangeClosed(s0, Started(s, r, c));
    }
  }

  lemma {:induction false} DataClosed(s: State, b: Addr, s': State)
    requires Closed(s) && HeldLeaf(s, b) && s'.live == s.live && b in s'.blocks
    requires s'.blocks == s.blocks[b := s.blocks[b].(ptrs := s'.blocks[b].ptrs)]
    requires forall a :: a in s'.blocks[b].ptrs && a !in s.blocks[b].ptrs ==> a !in s.blocks
    ensures Closed(s')
  {
    LeafChangeClosed(s, s');
  }

  lemma {:induction false} VisitClosed(s: State, p: Addr, i: nat, c: Addr)
    requires Inv(s) && Closed(s) && ChildReady(s, p, i, c)
    ensures Closed(Visited(s, p, i, c))
  {
    if ShouldCow(s, s.cur, s.blocks[p].ptrs[i]) {
      CowChildClosed(s, p, i, c);
    } else {
      LeafChangeClosed(s, Visited(s, p, i, c));
    }
  }

  lemma {:induction false} StepClosed(s: State, step: Step)
    requires Inv(s) && Closed(s) && Enabled(s, step) && Typed(s, step)
    ensures Closed(Apply(s, step))
  {
    match step
    case Start(r, c) => StartClosed(s, r, c);
    case Visit(p, i, c) => VisitClosed(s, p, i, c);
    case Restructure(edit, node) => RestructureClosed(s, edit, node);
    case Create(n, c) => CreateClosed(s, n, c);
    case Snapshot(r, n, c) => SnapshotClosed(s, r, n, c);
    case AddData(b, k, a) => DataClosed(s, b, DataAdded(s, b, k, a));
    case DropData(b, k) => DataClosed(s, b, DataDropped(s, b, k));
    case Release => LeafChangeClosed(s, s.(held := {}));
    case Commit => LeafChangeClosed(s, Committed(s));
    case WriteOut(b) => LeafChangeClosed(s, WrittenOut(s, b));
  }

  /** The ways ctree.c changes the blocks of a path keep nodes and data apart. */
  lemma {:induction false} TreeOpIsTyped(s: State, op: TreeOp, edit: map<Addr, Body>)
    requires Inv(s) && Closed(s) && OpReady(s, op) && SameShape(EditOf(s, op), edit)
    ensures TypedEdit(s, edit)
  {
    forall b, a | b in edit && edit[b].level > 0 && a in edit[b].ptrs
      ensures a in s.blocks || a in edit
    {
      OpPointer(s, op, b, a);
      if k :| k in s.held && s.blocks[k].level == edit[b].level && a in s.blocks[k].ptrs {
        assert HeldOk(s, k) && PointsWell(s, k, a);
      }
    }
  }

  /** A pointer of an edit was in a held block of that level, or leads to a block of the edit. */
  lemma {:induction false} OpPointer(s: State, op: TreeOp, b: Addr, a: Addr)
    requires OpReady(s, op) && b in EditOf(s, op) && a in EditOf(s, op)[b].ptrs
    ensures a in EditOf(s, op) || a in s.blocks
            || exists k :: k in s.held && s.blocks[k].level == EditOf(s, op)[b].level && a in s.blocks[k].ptrs
  {
    match op
    case PushLeft(src, dst, n) => assert a in s.blocks[src].ptrs || (b in s.held && a in s.blocks[b].ptrs);
    case PushRight(src, dst, n) => assert a in s.blocks[src].ptrs || (b in s.held && a in s.blocks[b].ptrs);
    case Split(p, j, mid, c) =>
      var x := s.blocks[p].ptrs[j];
      assert a == c || (b == c && a in s.blocks[x].ptrs) || (b in s.held && a in s.blocks[b].ptrs);
    case NewLeaf(p, j, c) => assert a == c || (b in s.held && a in s.blocks[b].ptrs);
    case NewRoot(c) => assert a in s.blocks || (b in s.held && a in s.blocks[b].ptrs);
    case PromoteChild(x) => assert b in s.held && a in s.blocks[b].ptrs;
    case DropEmpty(p, j) => assert b in s.held && a in s.blocks[b].ptrs;
  }

  // ---------------------------------------------------------------------------------------------
  // Places on the device

  type Place = nat

  /** place: where each extent is.  pinned: extents freed in the running transaction that must not be used again
      before it commits.  disk: the last block written at each place; its pointers are places too. */
  datatype Device = Device(s: State, place: map<Addr, Place>, pinned: set<Addr>, disk: map<Place, Block>)

  ghost predicate InUse(s: State, a: Addr)
  {
    a in s.live || RefsAt(s.refs, a) != multiset{}
  }

  /** The allocator must not hand out the extent's place. */
  ghost predicate Busy(d: Device, a: Addr)
  {
    InUse(d.s, a) || a in d.pinned
  }

  /** btrfs_free_tree_block and the freeing of a data extent: only a block made by the running transaction that was
      never written may be used again at once. */
  ghost predicate MustPin(s: State, s': State, a: Addr)
  {
    InUse(s, a) && !InUse(s', a) && (a in s.blocks ==> s.blocks[a].gen < s.transid || s.blocks[a].written)
  }

  predicate AllPlaced(place: map<Addr, Place>, ptrs: seq<Addr>)
  {
    forall i :: 0 <= i < |ptrs| ==> ptrs[i] in place
  }

  /** The block as it is on the device. */
  function OnDisk(place: map<Addr, Place>, b: Block): Block
    requires AllPlaced(place, b.ptrs)
  {
    b.(ptrs := seq(|b.ptrs|, i requires 0 <= i < |b.ptrs| => place[b.ptrs[i]]))
  }

  ghost predicate Changed(s: State, s': State, b: Addr)
  {
    b in s'.live && b in s'.blocks && (b !in s.live || b !in s.blocks || s'.blocks[b] != s.blocks[b])
  }

  ghost predicate Stored(d: Device, b: Addr)
    requires b in d.s.blocks
  {
    && b in d.place && d.place[b] in d.disk && AllPlaced(d.place, d.s.blocks[b].ptrs)
    && d.disk[d.place[b]] == OnDisk(d.place, d.s.blocks[b])
  }

  /** Allocation: what was busy and still is stays where it is; what is new gets a place that nothing busy has. */
  ghost predicate Allocates(d: Device, d': Device)
  {
    && (forall a {:trigger Busy(d', a)} :: Busy(d', a) ==> a in d'.place)
    && (forall a {:trigger Busy(d', a)} :: Busy(d', a) && Busy(d, a) ==> a in d.place && d'.place[a] == d.place[a])
    && (forall a, b {:trigger Busy(d', a), Busy(d, b)} :: Busy(d', a) && !Busy(d, a) && Busy(d, b) && b in d.place ==>
          d'.place[a] != d.place[b])
    && (forall a, b {:trigger Busy(d', a), Busy(d', b)} ::
          Busy(d', a) && !Busy(d, a) && Busy(d', b) && !Busy(d, b) && a != b ==> d'.place[a] != d'.place[b])
  }

  /** Writing: the blocks that changed, at their places, and nothing else. */
  ghost predicate Writes(d: Device, d': Device)
  {
    && (forall b {:trigger Stored(d', b)} :: Changed(d.s, d'.s, b) ==> Stored(d', b))
    && (forall q :: (forall b :: Changed(d.s, d'.s, b) && b in d'.place ==> d'.place[b] != q) ==>
          (q in d'.disk <==> q in d.disk) && (q in d.disk ==> d'.disk[q] == d.disk[q]))
  }

  /** Freeing, and unpinning when the transaction has committed. */
  ghost predicate Pins(d: Device, step: Step, d': Device)
  {
    if step.Commit? then d'.pinned == {}
    else
      && d.pinned <= d'.pinned
      && (forall a :: MustPin(d.s, d'.s, a) ==> a in d'.pinned)
      && (forall a :: a in d'.pinned && a !in d.pinned ==> InUse(d.s, a))
  }

  ghost predicate DeviceStep(d: Device, step: Step, d': Device)
  {
    && Enabled(d.s, step) && Typed(d.s, step) && d'.s == Apply(d.s, step)
    && Pins(d, step, d') && Allocates(d, d') && Writes(d, d')
  }

  /** Busy extents have places of their own. */
  ghost predicate Separate(d: Device)
  {
    && (forall a {:trigger Busy(d, a)} :: Busy(d, a) ==> a in d.place)
    && (forall a, b {:trigger Busy(d, a), Busy(d, b)} :: Busy(d, a) && Busy(d, b) && a != b ==>
          d.place[a] != d.place[b])
  }

  /** The blocks that must be readable: the live ones, and of the pinned ones those of earlier transactions. */
  ghost predicate Needed(d: Device, b: Addr)
  {
    b in d.s.blocks && (b in d.s.live || (b in d.pinned && d.s.blocks[b].gen < d.s.transid))
  }

  ghost predicate BusyPtrs(d: Device, b: Addr)
    requires b in d.s.blocks
  {
    forall a :: a in d.s.blocks[b].ptrs ==> Busy(d, a)
  }

  ghost predicate DeviceInv(d: Device)
  {
    && Inv(d.s) && Closed(d.s) && Separate(d)
    && (forall b {:trigger Stored(d, b)} :: Needed(d, b) ==> Stored(d, b) && BusyPtrs(d, b))
  }

  lemma {:induction false} SeparateStays(d: Device, d': Device)
    requires Separate(d) && Allocates(d, d')
    ensures Separate(d')
  {
    forall a, b | Busy(d', a) && Busy(d', b) && a != b
      ensures d'.place[a] != d'.place[b]
    {
      assert Busy(d, a) || !Busy(d, a);
      assert Busy(d, b) || !Busy(d, b);
    }
  }

  /** Blocks keep their generation; a new block has that of the running transaction. */
  ghost predicate Ages(s: State, s': State)
  {
    forall b :: b in s'.blocks ==> s'.blocks[b].gen == if b in s.blocks then s.blocks[b].gen else s.transid
  }

  lemma {:induction false} StepAges(s: State, step: Step)
    requires Enabled(s, step)
    ensures Ages(s, Apply(s, step))
  {
    match step
    case Start(r, c) => StartAges(s, r, c);
    case Visit(p, i, c) => VisitAges(s, p, i, c);
    case Restructure(edit, node) => RestructureAges(s, edit, node);
    case _ =>
  }

  lemma {:induction false} StartAges(s: State, r: RootId, c: Addr)
    requires r in s.roots && s.roots[r].node in s.blocks && c !in s.blocks
    ensures Ages(s, Started(s, r, c))
  {
  }

  lemma {:induction false} VisitAges(s: State, p: Addr, i: nat, c: Addr)
    requires ChildReady(s, p, i, c)
    ensures Ages(s, Visited(s, p, i, c))
  {
  }

  lemma {:induction false} RestructureAges(s: State, edit: map<Addr, Body>, node: Addr)
    requires MayRestructure(s, edit, node)
    ensures Ages(s, Restructured(s, edit, node))
  {
  }

  lemma {:induction false} LivePtrsInUse(s: State, b: Addr, a: Addr)
    requires Inv(s) && b in s.live && b in s.blocks && a in s.blocks[b].ptrs
    ensures InUse(s, a)
  {
    PointerIsRecorded(s, b, a);
  }

  /** Freed or not, an extent of an earlier transaction stays busy until the commit. */
  lemma {:induction false} StaysBusy(d: Device, step: Step, d': Device, a: Addr)
    requires DeviceStep(d, step, d') && !step.Commit? && Busy(d, a)
    requires a in d.s.blocks ==> d.s.blocks[a].gen < d.s.transid
    ensures Busy(d', a)
  {
    if !InUse(d'.s, a) && a !in d.pinned {
      assert MustPin(d.s, d'.s, a);
    }
  }

  /** What must be readable after a step and was not written by it had to be readable before. */
  lemma {:induction false} NeededBefore(d: Device, step: Step, d': Device, b: Addr)
    requires DeviceInv(d) && DeviceStep(d, step, d') && Needed(d', b) && !Changed(d.s, d'.s, b)
    ensures Needed(d, b) && Busy(d, b) && d'.s.blocks[b] == d.s.blocks[b]
    ensures b !in d'.s.live ==> !step.Commit? && d.s.blocks[b].gen < d.s.transid
  {
    if b !in d'.s.live {
      StepAges(d.s, step);
      StepKeepsOld(d.s, step);
      assert b in d.s.blocks && d.s.blocks[b].gen < d.s.transid;
      if b !in d.pinned && b !in d.s.live {
        RefMeansLive(d.s, b);
      }
    }
  }

  lemma {:induction false} NeededPtrsBusy(d: Device, step: Step, d': Device, b: Addr, a: Addr)
    requires DeviceInv(d) && DeviceStep(d, step, d') && Inv(d'.s) && Needed(d', b) && a in d'.s.blocks[b].ptrs
    ensures Busy(d', a)
  {
    if b in d'.s.live {
      LivePtrsInUse(d'.s, b, a);
    } else {
      NeededBefore(d, step, d', b);
      assert Stored(d, b) && BusyPtrs(d, b);
      assert a in d.s.blocks ==> PtrOk(d.s, b, a);
      StaysBusy(d, step, d', a);
    }
  }

  lemma {:induction false} NeededIsStored(d: Device, step: Step, d': Device, b: Addr)
    requires DeviceInv(d) && DeviceStep(d, step, d') && Separate(d') && Needed(d', b) && BusyPtrs(d', b)
    ensures Stored(d', b)
  {
    if !Changed(d.s, d'.s, b) {
      NeededBefore(d, step, d', b);
      assert Stored(d, b) && BusyPtrs(d, b) && Busy(d', b);
      SameImage(d, d', d.s.blocks[b]);
      forall x | Changed(d.s, d'.s, x) && x in d'.place
        ensures d'.place[x] != d'.place[b]
      {
        assert Busy(d', x);
      }
    }
  }

  /** A block whose pointers were busy and still are has the same image on the device. */
  lemma {:induction false} SameImage(d: Device, d': Device, k: Block)
    requires Allocates(d, d') && forall a :: a in k.ptrs ==> Busy(d, a) && Busy(d', a)
    ensures AllPlaced(d.place, k.ptrs) && AllPlaced(d'.place, k.ptrs) && OnDisk(d'.place, k) == OnDisk(d.place, k)
  {
    forall i | 0 <= i < |k.ptrs|
      ensures k.ptrs[i] in d'.place && k.ptrs[i] in d.place && d'.place[k.ptrs[i]] == d.place[k.ptrs[i]]
    {
      assert Busy(d, k.ptrs[i]) && Busy(d', k.ptrs[i]);
    }
  }

  /** Whatever the file system does and wherever the allocator puts things. */
  lemma {:induction false} StepKeepsDevice(d: Device, step: Step, d': Device)
    requires DeviceInv(d) && DeviceStep(d, step, d')
    ensures DeviceInv(d')
  {
    StepKeepsInv(d.s, step);
    StepClosed(d.s, step);
    SeparateStays(d, d');
    forall b | Needed(d', b)
      ensures Stored(d', b) && BusyPtrs(d', b)
    {
      forall a | a in d'.s.blocks[b].ptrs
        ensures Busy(d', a)
      {
        NeededPtrsBusy(d, step, d', b, a);
      }
      NeededIsStored(d, step, d', b);
    }
  }

  // ---------------------------------------------------------------------------------------------
  // Runs

  /** A freshly made file system at place q. */
  function Made(r: RootId, a: Addr, q: Place): Device
  {
    Device(Init(r, a), map[a := q], {}, map[q := Init(r, a).blocks[a]])
  }

  ghost predicate IsDeviceRun(run: seq<Device>, steps: seq<Step>)
  {
    && |run| == |steps| + 1
    && (exists r, a, q :: run[0] == Made(r, a, q))
    && forall i {:trigger steps[i]} :: 0 <= i < |steps| ==> DeviceStep(run[i], steps[i], run[i + 1])
  }

  lemma {:induction false} MadeInv(r: RootId, a: Addr, q: Place)
    ensures DeviceInv(Made(r, a, q))
  {
    InitInv(r, a);
    var d := Made(r, a, q);
    var k := d.s.blocks[a];
    assert forall x :: Busy(d, x) ==> x == a;
    forall b | Needed(d, b)
      ensures Stored(d, b) && BusyPtrs(d, b)
    {
      assert b == a;
      assert AllPlaced(d.place, k.ptrs) && OnDisk(d.place, k).ptrs == k.ptrs == [];
    }
  }

  lemma {:induction false} DeviceRunInv(run: seq<Device>, steps: seq<Step>, i: nat)
    requires IsDeviceRun(run, steps) && i < |run|
    ensures DeviceInv(run[i])
  {
    if i == 0 {
      var r, a, q :| run[0] == Made(r, a, q);
      MadeInv(r, a, q);
    } else {
      DeviceRunInv(run, steps, i - 1);
      StepKeepsDevice(run[i - 1], steps[i - 1], run[i]);
    }
  }

  /** What a reader that follows places sees, down to the given depth. */
  ghost function Seen(disk: map<Place, Block>, q: Place, depth: nat): View
    decreases depth
  {
    if depth == 0 || q !in disk then Cut(q)
    else if disk[q].level == 0 then Shown(disk[q], [])
    else Shown(disk[q],
        seq(|disk[q].ptrs|, i requires 0 <= i < |disk[q].ptrs| => Seen(disk, disk[q].ptrs[i], depth - 1)))
  }

  /** Extent a is where it was, and nothing else may go there. */
  ghost predicate Kept(d: Device, d': Device, a: Addr)
  {
    Busy(d', a) && a in d.place && a in d'.place && d'.place[a] == d.place[a]
  }

  /** Device d begins a transaction: nothing is pinned and everything is from earlier ones.  In d' all that was live
      in d is still in its place, with what it points at. */
  ghost predicate KeepsAll(d: Device, d': Device)
  {
    && OldSame(d.s, d'.s)
    && (forall b {:trigger Kept(d, d', b)} :: b in d.s.live ==> Kept(d, d', b))
    && (forall b, a {:trigger a in d.s.blocks[b].ptrs} ::
          b in d.s.live && b in d.s.blocks && a in d.s.blocks[b].ptrs ==> Kept(d, d', a))
  }

  /** Every block is from an earlier transaction. */
  ghost predicate AllOld(s: State)
  {
    s.live <= s.blocks.Keys && forall b :: b in s.blocks ==> s.blocks[b].gen < s.transid
  }

  lemma {:induction false} KeptStays(d: Device, d1: Device, step: Step, d2: Device, a: Addr)
    requires Kept(d, d1, a) && DeviceStep(d1, step, d2) && !step.Commit?
    requires a in d1.s.blocks ==> d1.s.blocks[a].gen < d1.s.transid
    ensures Kept(d, d2, a)
  {
    StaysBusy(d1, step, d2, a);
  }

  lemma {:induction false} KeepsAllStays(d: Device, d1: Device, step: Step, d2: Device)
    requires AllOld(d.s) && KeepsAll(d, d1) && Inv(d1.s) && DeviceStep(d1, step, d2) && !step.Commit?
    ensures KeepsAll(d, d2)
  {
    StepKeepsOld(d1.s, step);
    OldSameTrans(d.s, d1.s, d2.s);
    forall b | b in d.s.live
      ensures Kept(d, d2, b)
    {
      assert Kept(d, d1, b);
      KeptStays(d, d1, step, d2, b);
    }
    forall b, a | b in d.s.live && b in d.s.blocks && a in d.s.blocks[b].ptrs
      ensures Kept(d, d2, a)
    {
      assert Kept(d, d1, a);
      KeptStays(d, d1, step, d2, a);
    }
  }

  /** Read from its place, a live block of d shows the same tree in d'. */
  lemma {:induction false} SeenSame(d: Device, d': Device, b: Addr, depth: nat)
    requires DeviceInv(d) && AllOld(d.s) && DeviceInv(d') && KeepsAll(d, d') && b in d.s.live
    ensures b in d.place && b in d'.place
    ensures Seen(d'.disk, d'.place[b], depth) == Seen(d.disk, d.place[b], depth)
    decreases depth
  {
    SameOnDisk(d, d', b);
    if depth > 0 && d.s.blocks[b].level > 0 {
      var q, ptrs := d.place[b], d.s.blocks[b].ptrs;
      forall i | 0 <= i < |ptrs|
        ensures d.disk[q].ptrs[i] == d.place[ptrs[i]]
        ensures Seen(d'.disk, d.disk[q].ptrs[i], depth - 1) == Seen(d.disk, d.disk[q].ptrs[i], depth - 1)
      {
        assert PointsWell(d.s, b, ptrs[i]);
        SeenSame(d, d', ptrs[i], depth - 1);
        assert Kept(d, d', ptrs[i]);
      }
    }
  }

  lemma {:induction false} SameOnDisk(d: Device, d': Device, b: Addr)
    requires DeviceInv(d) && AllOld(d.s) && DeviceInv(d') && KeepsAll(d, d') && b in d.s.live
    ensures b in d.s.blocks && Stored(d, b) && b in d'.place && d'.place[b] == d.place[b]
    ensures d.place[b] in d'.disk && d'.disk[d.place[b]] == d.disk[d.place[b]]
  {
    assert Kept(d, d', b) && Needed(d, b) && Stored(d, b);
    if b !in d'.s.live && b !in d'.pinned {
      RefMeansLive(d'.s, b);
    }
    assert Needed(d', b) && Stored(d', b);
    var ptrs := d.s.blocks[b].ptrs;
    forall i | 0 <= i < |ptrs|
      ensures d'.place[ptrs[i]] == d.place[ptrs[i]]
    {
      assert ptrs[i] in d.s.blocks[b].ptrs;
      assert Kept(d, d', ptrs[i]);
    }
  }

  /** State i is the first of a transaction. */
  ghost predicate DeviceBegins(run: seq<Device>, steps: seq<Step>, i: nat)
  {
    IsDeviceRun(run, steps) && i < |run| && (i == 0 || steps[i - 1].Commit?)
  }

  lemma {:induction false} BeginsOld(run: seq<Device>, steps: seq<Step>, i: nat)
    requires DeviceBegins(run, steps, i)
    ensures DeviceInv(run[i]) && AllOld(run[i].s) && KeepsAll(run[i], run[i])
    ensures forall r :: r in run[i].s.roots ==> run[i].s.roots[r].commitRoot in run[i].s.live
  {
    DeviceRunInv(run, steps, i);
    var d := run[i];
    if i == 0 {
      var r, a, q :| run[0] == Made(r, a, q);
    } else {
      DeviceRunInv(run, steps, i - 1);
      assert DeviceStep(run[i - 1], steps[i - 1], run[i]);
    }
    forall b | b in d.s.live
      ensures Kept(d, d, b)
    {
      assert Busy(d, b);
    }
    forall b, a | b in d.s.live && b in d.s.blocks && a in d.s.blocks[b].ptrs
      ensures Kept(d, d, a)
    {
      LivePtrsInUse(d.s, b, a);
      assert Busy(d, a);
    }
    forall r | r in d.s.roots
      ensures d.s.roots[r].commitRoot in d.s.live
    {
      assert RootOk(d.s, r);
    }
  }

  /** Step k of the run is one inside a transaction. */
  ghost predicate Within(run: seq<Device>, steps: seq<Step>, k: nat)
  {
    && |run| == |steps| + 1 && k < |steps|
    && Inv(run[k].s) && DeviceStep(run[k], steps[k], run[k + 1]) && !steps[k].Commit?
  }

  lemma {:induction false} WithinKeepsAll(d: Device, run: seq<Device>, steps: seq<Step>, k: nat)
    requires Within(run, steps, k) && AllOld(d.s) && KeepsAll(d, run[k])
    ensures KeepsAll(d, run[k + 1])
  {
    KeepsAllStays(d, run[k], steps[k], run[k + 1]);
  }

  lemma {:induction false} TransactionKeepsAll(d: Device, run: seq<Device>, steps: seq<Step>, i: nat, j: nat)
    requires i <= j < |run| && AllOld(d.s) && KeepsAll(d, run[i])
    requires forall k :: i <= k < j ==> Within(run, steps, k)
    ensures KeepsAll(d, run[j])
    decreases j
  {
    if i < j {
      TransactionKeepsAll(d, run, steps, i, j - 1);
      assert Within(run, steps, j - 1);
      WithinKeepsAll(d, run, steps, j - 1);
    }
  }

  /** From the beginning of a transaction to its end, a reader that starts at the place of a tree's commit root and
      follows places sees the same tree at every moment, to any depth, wherever the allocator puts new blocks and data
      among the places that are not in use and not pinned. */
  lemma {:induction false} CommittedTreeIsNotOverwritten(run: seq<Device>, steps: seq<Step>, i: nat, j: nat, r: RootId,
          depth: nat)
    requires DeviceBegins(run, steps, i) && i <= j < |run| && r in run[i].s.roots
    requires forall k :: i <= k < j ==> !steps[k].Commit?
    ensures r in run[j].s.roots && run[j].s.roots[r].commitRoot == run[i].s.roots[r].commitRoot
    ensures var c := run[i].s.roots[r].commitRoot;
            && c in run[i].place && c in run[j].place
            && Seen(run[j].disk, run[j].place[c], depth) == Seen(run[i].disk, run[i].place[c], depth)
  {
    BeginsOld(run, steps, i);
    forall k | i <= k < j
      ensures Within(run, steps, k)
    {
      DeviceRunInv(run, steps, k);
    }
    TransactionKeepsAll(run[i], run, steps, i, j);
    DeviceRunInv(run, steps, j);
    SeenSame(run[i], run[j], run[i].s.roots[r].commitRoot, depth);
  }
}
