/** Space accounting: the counters of one space_info against the block groups it is made of (not zoned). */
module BlockGroups {
  import opened Common
  import opened Errno

  /** struct btrfs_block_group, as far as it is accounted for */
  datatype Group = Group(length: nat, used: nat, reserved: nat, pinned: nat, bytesSuper: nat, ro: nat, swapExtents: nat)

  predicate Fits(g: Group)
  {
    g.used + g.reserved + g.pinned + g.bytesSuper <= g.length
  }

  predicate AllFit(groups: seq<Group>)
  {
    forall i :: 0 <= i < |groups| ==> Fits(groups[i])
  }

  /** btrfs_block_group_available_space */
  function Available(g: Group): int
  {
    g.length - g.used - g.pinned - g.reserved - g.bytesSuper
  }

  /** What groups add up to.  Read-only bytes are the superblock copies everywhere and whatever is free in
      the groups nobody may allocate from. */
  datatype Totals = Totals(used: int, reserved: int, pinned: int, readonly: int, total: int)
  {
    function Plus(o: Totals): Totals
    {
      Totals(used + o.used, reserved + o.reserved, pinned + o.pinned, readonly + o.readonly, total + o.total)
    }

    function Minus(o: Totals): Totals
    {
      Totals(used - o.used, reserved - o.reserved, pinned - o.pinned, readonly - o.readonly, total - o.total)
    }
  }

  function Share(g: Group): Totals
  {
    Totals(g.used, g.reserved, g.pinned, g.bytesSuper + (if g.ro > 0 then Available(g) else 0), g.length)
  }

  function Sum(groups: seq<Group>): Totals
  {
    if groups == [] then Totals(0, 0, 0, 0, 0) else Sum(groups[..|groups| - 1]).Plus(Share(groups[|groups| - 1]))
  }

  lemma {:induction false} SumSet(groups: seq<Group>, i: nat, g: Group)
    requires i < |groups|
    ensures Sum(groups[i := g]) == Sum(groups).Minus(Share(groups[i])).Plus(Share(g))
  {
    var n := |groups| - 1;
    if i < n {
      SumSet(groups[..n], i, g);
      assert groups[i := g][..n] == groups[..n][i := g];
    } else {
      assert groups[i := g][..n] == groups[..n];
    }
  }

  lemma {:induction false} SumRemove(groups: seq<Group>, i: nat)
    requires i < |groups|
    ensures Sum(Without(groups, i)) == Sum(groups).Minus(Share(groups[i]))
  {
    var n := |groups| - 1;
    WithoutLast(groups, i);
    if i < n {
      SumRemove(groups[..n], i);
    }
  }

  /** Free space in the groups that can be written. */
  function Writable(groups: seq<Group>): int
  {
    if groups == [] then 0
    else Writable(groups[..|groups| - 1]) + if groups[|groups| - 1].ro > 0 then 0 else Available(groups[|groups| - 1])
  }

  /** What the counters leave over is exactly the free space of the writable groups. */
  lemma {:induction false} LeftOver(groups: seq<Group>)
    ensures Sum(groups).total - Sum(groups).used - Sum(groups).reserved - Sum(groups).pinned - Sum(groups).readonly
            == Writable(groups)
  {
    if groups != [] {
      LeftOver(groups[..|groups| - 1]);
    }
  }

  function Updated(g: Group, num: nat, alloc: bool): Group
    requires if alloc then num <= g.reserved else num <= g.used
  {
    if alloc then g.(used := g.used + num, reserved := g.reserved - num)
    else g.(used := g.used - num, pinned := g.pinned + num)
  }

  class SpaceInfo {
    var groups: seq<Group>
    var totalBytes: int
    var bytesUsed: int
    var bytesReserved: int
    var bytesPinned: int
    var bytesReadonly: int
    var bytesMayUse: nat
    const isData: bool

    ghost function Counters(): Totals
      reads this
    {
      Totals(bytesUsed, bytesReserved, bytesPinned, bytesReadonly, totalBytes)
    }

    ghost predicate Valid()
      reads this
    {
      Counters() == Sum(groups) && AllFit(groups)
    }

    constructor (isData: bool)
      ensures Valid() && groups == []
    {
      this.isData := isData;
      groups, totalBytes, bytesUsed, bytesReserved, bytesPinned, bytesReadonly, bytesMayUse := [], 0, 0, 0, 0, 0, 0;
    }

    /** btrfs_add_bg_to_space_info: a group joins with what it holds already. */
    method AddGroup(length: nat, used: nat, bytesSuper: nat)
      requires Valid() && used + bytesSuper <= length
      modifies this
      ensures Valid() && groups == old(groups) + [Group(length, used, 0, 0, bytesSuper, 0, 0)]
    {
      var g := Group(length, used, 0, 0, bytesSuper, 0, 0);
      totalBytes := totalBytes + length;
      bytesUsed := bytesUsed + used;
      bytesReadonly := bytesReadonly + bytesSuper;
      assert (groups + [g])[..|groups|] == groups;
      groups := groups + [g];
    }

    /** btrfs_space_info_used with may_use */
    function UsedAndMayUse(): int
      reads this
    {
      bytesUsed + bytesReserved + bytesPinned + bytesReadonly + bytesMayUse
    }

    /** inc_block_group_ro; canOvercommit is the answer of btrfs_can_overcommit. */
    method IncRo(i: nat, force: bool, canOvercommit: bool) returns (ret: int)
      requires Valid() && i < |groups|
      modifies this`groups, this`bytesReadonly
      ensures Valid()
      ensures groups == if ret == 0 then old(groups)[i := old(groups)[i].(ro := old(groups)[i].ro + 1)] else old(groups)
      ensures ret == ETXTBSY <==> old(groups)[i].swapExtents > 0
      ensures ret == 0 <==> old(groups)[i].swapExtents == 0
                            && (old(groups)[i].ro > 0 || force
                                || (if isData then old(UsedAndMayUse()) + Available(old(groups)[i]) <= totalBytes
                                    else canOvercommit))
      ensures ret != 0 ==> bytesReadonly == old(bytesReadonly)
    {
      var g := groups[i];
      if g.swapExtents > 0 {
        return ETXTBSY;
      }
      SumSet(groups, i, g.(ro := g.ro + 1));
      if g.ro > 0 {
        groups := groups[i := g.(ro := g.ro + 1)];
        return 0;
      }
      var num := Available(g);
      ret := ENOSPC;
      if force {
        ret := 0;
      } else if isData {
        if UsedAndMayUse() + num <= totalBytes {
          ret := 0;
        }
      } else if canOvercommit {
        ret := 0;
      }
      if ret == 0 {
        bytesReadonly := bytesReadonly + num;
        groups := groups[i := g.(ro := g.ro + 1)];
      }
    }

    /** btrfs_dec_block_group_ro */
    method DecRo(i: nat)
      requires Valid() && i < |groups| && groups[i].ro > 0
      modifies this`groups, this`bytesReadonly
      ensures Valid() && groups == old(groups)[i := old(groups)[i].(ro := old(groups)[i].ro - 1)]
    {
      var g := groups[i];
      SumSet(groups, i, g.(ro := g.ro - 1));
      groups := groups[i := g.(ro := g.ro - 1)];
      if groups[i].ro == 0 {
        bytesReadonly := bytesReadonly - Available(groups[i]);
      }
    }

    /** btrfs_add_reserved_bytes: the allocator takes num bytes of the group.  It is not asked here whether they
        are free: the counters agree in any case, and the group keeps within its length exactly if they are. */
    method AddReserved(i: nat, ramBytes: nat, num: nat) returns (ret: int)
      requires Valid() && i < |groups|
      modifies this`groups, this`bytesReserved, this`bytesMayUse
      ensures Counters() == Sum(groups) && (ret == EAGAIN <==> old(groups)[i].ro > 0) && (ret == 0 || ret == EAGAIN)
      ensures Valid() <==> ret == EAGAIN || num <= Available(old(groups)[i])
      ensures groups == if ret != 0 then old(groups)
                        else old(groups)[i := old(groups)[i].(reserved := old(groups)[i].reserved + num)]
      ensures bytesMayUse == if ret != 0 then old(bytesMayUse)
                             else if old(bytesMayUse) < ramBytes then 0 else old(bytesMayUse) - ramBytes
    {
      var g := groups[i];
      if g.ro > 0 {
        return EAGAIN;
      }
      SumSet(groups, i, g.(reserved := g.reserved + num));
      groups := groups[i := g.(reserved := g.reserved + num)];
      bytesReserved := bytesReserved + num;
      bytesMayUse := if bytesMayUse < ramBytes then 0 else bytesMayUse - ramBytes;
      assert Fits(groups[i]) <==> num <= Available(g);
      return 0;
    }

    /** btrfs_free_reserved_bytes: reserved bytes that were never written. */
    method FreeReserved(i: nat, num: nat)
      requires Valid() && i < |groups| && num <= groups[i].reserved
      modifies this`groups, this`bytesReserved, this`bytesReadonly
      ensures Valid() && groups == old(groups)[i := old(groups)[i].(reserved := old(groups)[i].reserved - num)]
    {
      var g := groups[i];
      SumSet(groups, i, g.(reserved := g.reserved - num));
      groups := groups[i := g.(reserved := g.reserved - num)];
      if g.ro > 0 {
        bytesReadonly := bytesReadonly + num;
      }
      bytesReserved := bytesReserved - num;
    }

    /** btrfs_update_block_group: reserved bytes become used, or used bytes become pinned. */
    method Update(i: nat, num: nat, alloc: bool)
      requires Valid() && i < |groups| && (if alloc then num <= groups[i].reserved else num <= groups[i].used)
      modifies this`groups, this`bytesUsed, this`bytesReserved, this`bytesPinned
      ensures Valid() && groups == old(groups)[i := Updated(old(groups)[i], num, alloc)]
    {
      if alloc {
        UpdateAlloc(i, num);
      } else {
        UpdateFree(i, num);
      }
    }

    method UpdateAlloc(i: nat, num: nat)
      requires Valid() && i < |groups| && num <= groups[i].reserved
      modifies this`groups, this`bytesUsed, this`bytesReserved
      ensures Valid() && groups == old(groups)[i := Updated(old(groups)[i], num, true)]
    {
      SumSet(groups, i, Updated(groups[i], num, true));
      groups := groups[i := Updated(groups[i], num, true)];
      bytesReserved := bytesReserved - num;
      bytesUsed := bytesUsed + num;
    }

    method UpdateFree(i: nat, num: nat)
      requires Valid() && i < |groups| && num <= groups[i].used
      modifies this`groups, this`bytesUsed, this`bytesPinned
      ensures Valid() && groups == old(groups)[i := Updated(old(groups)[i], num, false)]
    {
      SumSet(groups, i, Updated(groups[i], num, false));
      groups := groups[i := Updated(groups[i], num, false)];
      bytesPinned := bytesPinned + num;
      bytesUsed := bytesUsed - num;
    }

    /** unpin_extent_range inside one group */
    method Unpin(i: nat, len: nat)
      requires Valid() && i < |groups| && len <= groups[i].pinned
      modifies this`groups, this`bytesPinned, this`bytesReadonly
      ensures Valid() && groups == old(groups)[i := old(groups)[i].(pinned := old(groups)[i].pinned - len)]
    {
      var g := groups[i];
      SumSet(groups, i, g.(pinned := g.pinned - len));
      groups := groups[i := g.(pinned := g.pinned - len)];
      bytesPinned := bytesPinned - len;
      if g.ro > 0 {
        bytesReadonly := bytesReadonly + len;
      }
    }

    /** The pinned bytes of an unused, read-only group counted as read-only (btrfs_delete_unused_bgs). */
    method FoldPinned(i: nat)
      requires Valid() && i < |groups| && groups[i].ro > 0
      modifies this`groups, this`bytesPinned, this`bytesReadonly
      ensures Valid() && groups == old(groups)[i := old(groups)[i].(pinned := 0)]
    {
      var g := groups[i];
      SumSet(groups, i, g.(pinned := 0));
      bytesPinned := bytesPinned - g.pinned;
      bytesReadonly := bytesReadonly + g.pinned;
      groups := groups[i := g.(pinned := 0)];
    }

    /** btrfs_remove_bg_from_sinfo and the group's leaving the list.  Whether the counters stay right depends
        on the group alone. */
    method RemoveGroup(i: nat)
      requires Valid() && i < |groups|
      modifies this`groups, this`totalBytes, this`bytesReadonly
      ensures groups == Without(old(groups), i)
      ensures Valid() <==> Removable(old(groups)[i])
    {
      SumRemove(groups, i);
      RemovableShare(groups[i]);
      FitsWithout(groups, i);
      totalBytes := totalBytes - groups[i].length;
      bytesReadonly := bytesReadonly - groups[i].length;
      groups := Without(groups, i);
      ghost var g := old(groups)[i];
      assert Counters() == Sum(old(groups)).Minus(Totals(0, 0, 0, g.length, g.length));
    }
  }

  /** A group whose removal keeps the accounts: empty and read-only, or nothing but superblock copies. */
  predicate Removable(g: Group)
  {
    g.used == 0 && g.reserved == 0 && g.pinned == 0 && (g.ro > 0 || g.bytesSuper == g.length)
  }

  lemma {:induction false} RemovableShare(g: Group)
    requires Fits(g)
    ensures Removable(g) <==> Share(g) == Totals(0, 0, 0, g.length, g.length)
  {
  }

  lemma {:induction false} FitsWithout(groups: seq<Group>, i: nat)
    requires i < |groups| && AllFit(groups)
    ensures AllFit(Without(groups, i))
  {
  }
}
