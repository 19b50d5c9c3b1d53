/** Loading the free space of a block group from the extent tree: the complement of the extents and of the
    excluded ranges, found in one scan of the tree. */
module FreeSpace {
  import opened Ctree

  const SUPER_INFO_OFFSET := 0x1_0000
  const EXTENT_ITEM_KEY := 168
  const METADATA_ITEM_KEY := 169
  const U64_MAX := 0xffff_ffff_ffff_ffff

  /** Bytes [start, end). */
  datatype Range = Range(start: nat, end: nat)

  predicate In(r: Range, x: int)
  {
    r.start <= x < r.end
  }

  predicate InSome(rs: seq<Range>, x: int)
  {
    exists i :: 0 <= i < |rs| && In(rs[i], x)
  }

  /** Ranges in ascending order, none empty, none overlapping. */
  predicate Ascending(rs: seq<Range>)
  {
    && (forall i :: 0 <= i < |rs| ==> rs[i].start < rs[i].end)
    && (forall i, j :: 0 <= i < j < |rs| ==> rs[i].end <= rs[j].start)
  }

  function Bytes(rs: seq<Range>): int
  {
    if rs == [] then 0 else Bytes(rs[..|rs| - 1]) + rs[|rs| - 1].end - rs[|rs| - 1].start
  }

  // ---------------------------------------------------------------------------------------------
  // Excluded ranges

  /** btrfs_find_first_extent_bit: the first range that ends after start. */
  method FindFirst(excluded: seq<Range>, start: nat) returns (i: nat)
    requires Ascending(excluded)
    ensures i <= |excluded|
    ensures i < |excluded| ==> start < excluded[i].end
    ensures forall j :: 0 <= j < i ==> excluded[j].end <= start
  {
    i := 0;
    while i < |excluded| && excluded[i].end <= start
      invariant i <= |excluded| && forall j :: 0 <= j < i ==> excluded[j].end <= start
    {
      i := i + 1;
    }
  }

  /** Everything free so far lies below `at`. */
  predicate Below(rs: seq<Range>, at: nat)
  {
    forall i :: 0 <= i < |rs| ==> rs[i].end <= at
  }

  /** What is free in [start, end): not excluded. */
  predicate Open(excluded: seq<Range>, start: int, end: int, x: int)
  {
    start <= x < end && !InSome(excluded, x)
  }

  /** free' is free and everything open in [start, upto). */
  ghost predicate Adds(free: seq<Range>, free': seq<Range>, excluded: seq<Range>, start: int, upto: int)
  {
    forall x {:trigger InSome(free', x)} :: InSome(free', x) <==> InSome(free, x) || Open(excluded, start, upto, x)
  }

  lemma {:induction false} Push(rs: seq<Range>, r: Range)
    requires Ascending(rs) && Below(rs, r.start) && r.start < r.end
    ensures Ascending(rs + [r]) && Below(rs + [r], r.end) && Bytes(rs + [r]) == Bytes(rs) + r.end - r.start
  {
    assert (rs + [r])[..|rs|] == rs;
  }

  lemma {:induction false} InPushed(rs: seq<Range>, r: Range, x: int)
    ensures InSome(rs + [r], x) <==> InSome(rs, x) || In(r, x)
  {
    var w := rs + [r];
    if InSome(rs, x) {
      var i :| 0 <= i < |rs| && In(rs[i], x);
      assert w[i] == rs[i];
    }
    assert w[|rs|] == r;
  }

  /** An excluded range adds nothing. */
  lemma {:induction false} Skip(free: seq<Range>, free': seq<Range>, excluded: seq<Range>, start: int, at: int,
          upto: int, i: nat)
    requires Adds(free, free', excluded, start, at) && i < |excluded|
    requires excluded[i].start <= at <= upto <= excluded[i].end
    ensures Adds(free, free', excluded, start, upto)
  {
    forall x | at <= x < upto
      ensures InSome(excluded, x)
    {
      assert In(excluded[i], x);
    }
  }

  /** A stretch before the next excluded range is free as a whole. */
  lemma {:induction false} Take(free: seq<Range>, free': seq<Range>, excluded: seq<Range>, start: int, at: nat,
          upto: nat, i: nat)
    requires Adds(free, free', excluded, start, at) && Ascending(excluded) && start <= at <= upto && i <= |excluded|
    requires (forall j :: 0 <= j < i ==> excluded[j].end <= at) && (i < |excluded| ==> upto <= excluded[i].start)
    ensures Adds(free, free' + [Range(at, upto)], excluded, start, upto)
  {
    forall x
      ensures InSome(free' + [Range(at, upto)], x) <==> InSome(free, x) || Open(excluded, start, upto, x)
    {
      InPushed(free', Range(at, upto), x);
      if at <= x < upto {
        NotExcluded(excluded, at, upto, i, x);
      }
    }
  }

  lemma {:induction false} NotExcluded(excluded: seq<Range>, at: int, upto: int, i: nat, x: int)
    requires Ascending(excluded) && i <= |excluded| && at <= x < upto
    requires (forall j :: 0 <= j < i ==> excluded[j].end <= at) && (i < |excluded| ==> upto <= excluded[i].start)
    ensures !InSome(excluded, x)
  {
  }

  /** btrfs_add_new_free_space */
  method AddNewFreeSpace(excluded: seq<Range>, free: seq<Range>, start: nat, end: nat)
      returns (free': seq<Range>, added: int)
    requires Ascending(excluded) && Ascending(free) && Below(free, start)
    ensures Ascending(free') && Below(free', if start < end then end else start)
    ensures added == Bytes(free') - Bytes(free) >= 0
    ensures Adds(free, free', excluded, start, end)
  {
    var at, i: nat := start, |excluded|;
    free', added := free, 0;
    while at < end
      invariant start <= at && Ascending(free') && Below(free', at) && Below(free', if start < end then end else start)
      invariant added == Bytes(free') - Bytes(free) >= 0
      invariant Adds(free, free', excluded, start, if at < end || start >= end then at else end)
      decreases end - at
    {
      i := FindFirst(excluded, at);
      if i == |excluded| {
        break;
      }
      var r := excluded[i];
      var upto := if r.end < end then r.end else end;
      if r.start <= at {
        Skip(free, free', excluded, start, at, upto, i);
        at := r.end;
      } else if r.start < end {
        Push(free', Range(at, r.start));
        Take(free, free', excluded, start, at, r.start, i);
        free' := free' + [Range(at, r.start)];
        added := added + r.start - at;
        Skip(free, free', excluded, start, r.start, upto, i);
        at := r.end;
      } else {
        break;
      }
    }
    if at < end {
      Push(free', Range(at, end));
      Take(free, free', excluded, start, at, end, i);
      free' := free' + [Range(at, end)];
      added := added + end - at;
    }
  }

  // ---------------------------------------------------------------------------------------------
  // The extent tree

  predicate IsExtent(key: Key)
  {
    key.kind == EXTENT_ITEM_KEY || key.kind == METADATA_ITEM_KEY
  }

  /** The bytes an extent item stands for. */
  function Extent(key: Key, nodesize: nat): Range
  {
    Range(key.objectid, key.objectid + if key.kind == METADATA_ITEM_KEY then nodesize else key.offset)
  }

  predicate Covered(keys: seq<Key>, nodesize: nat, x: int)
  {
    exists k :: 0 <= k < |keys| && IsExtent(keys[k]) && In(Extent(keys[k], nodesize), x)
  }

  predicate KeysAscend(keys: seq<Key>)
  {
    forall i, j :: 0 <= i < j < |keys| ==> Less(keys[i], keys[j])
  }

  /** Extents do not overlap, and none reaches from below `low` to above it. */
  predicate Disjoint(keys: seq<Key>, nodesize: nat, low: nat)
  {
    && (forall i, j :: 0 <= i < j < |keys| && IsExtent(keys[i]) && IsExtent(keys[j]) ==>
        Extent(keys[i], nodesize).end <= keys[j].objectid)
    && (forall i :: 0 <= i < |keys| && IsExtent(keys[i]) && keys[i].objectid < low ==>
        Extent(keys[i], nodesize).end <= low)
  }

  /** btrfs_search_slot: the first key that is not smaller. */
  method SearchSlot(keys: seq<Key>, key: Key) returns (pos: nat)
    requires KeysAscend(keys)
    ensures pos <= |keys|
    ensures forall j :: 0 <= j < pos ==> Less(keys[j], key)
    ensures forall j :: pos <= j < |keys| ==> !Less(keys[j], key)
  {
    pos := 0;
    while pos < |keys| && Less(keys[pos], key)
      invariant pos <= |keys| && forall j :: 0 <= j < pos ==> Less(keys[j], key)
    {
      pos := pos + 1;
    }
    forall j | pos <= j < |keys|
      ensures !Less(keys[j], key)
    {
      CompKeysIsTotalOrder(keys[pos], keys[j], key);
    }
  }

  /** Where the scan stands: extents before pos are done with, those from pos on begin at last or later. */
  predicate ScannedTo(keys: seq<Key>, nodesize: nat, pos: nat, last: nat)
  {
    && (forall k :: 0 <= k < pos && k < |keys| && IsExtent(keys[k]) ==> Extent(keys[k], nodesize).end <= last)
    && (forall k :: pos <= k < |keys| && IsExtent(keys[k]) ==> last <= keys[k].objectid)
  }

  /** What has been found free is what is free below last. */
  ghost predicate Found(keys: seq<Key>, nodesize: nat, excluded: seq<Range>, low: nat, last: nat, end: nat,
          free: seq<Range>)
  {
    && Ascending(free) && Below(free, last)
    && forall x {:trigger InSome(free, x)} :: InSome(free, x) <==>
        Open(excluded, low, if last < end then last else end, x) && !Covered(keys, nodesize, x)
  }

  /** One extent further: what lies between last and it is free unless excluded. */
  lemma {:induction false} NextExtent(keys: seq<Key>, nodesize: nat, excluded: seq<Range>, low: nat, last: nat,
          end: nat, free: seq<Range>, free': seq<Range>, pos: nat)
    requires KeysAscend(keys) && Disjoint(keys, nodesize, low) && ScannedTo(keys, nodesize, pos, last)
    requires pos < |keys| && IsExtent(keys[pos]) && low <= last <= keys[pos].objectid < end
    requires Found(keys, nodesize, excluded, low, last, end, free)
    requires Ascending(free') && Below(free', keys[pos].objectid)
    requires Adds(free, free', excluded, last, keys[pos].objectid)
    ensures Found(keys, nodesize, excluded, low, Extent(keys[pos], nodesize).end, end, free')
    ensures ScannedTo(keys, nodesize, pos + 1, Extent(keys[pos], nodesize).end)
  {
    var e := Extent(keys[pos], nodesize);
    forall x
      ensures InSome(free', x) <==>
              Open(excluded, low, if e.end < end then e.end else end, x) && !Covered(keys, nodesize, x)
    {
      if last <= x < e.start {
        Uncovered(keys, nodesize, pos, last, x, e.start);
      }
    }
  }

  /** Between last and the next extent nothing is covered. */
  lemma {:induction false} Uncovered(keys: seq<Key>, nodesize: nat, pos: nat, last: nat, x: int, next: nat)
    requires ScannedTo(keys, nodesize, pos, last) && last <= x < next
    requires forall k :: pos <= k < |keys| && IsExtent(keys[k]) ==> next <= keys[k].objectid
    ensures !Covered(keys, nodesize, x)
  {
  }

  /** The end of the scan: no extent from pos on begins inside the group. */
  lemma {:induction false} LastStretch(keys: seq<Key>, nodesize: nat, excluded: seq<Range>, low: nat, last: nat,
          end: nat, free: seq<Range>, free': seq<Range>, pos: nat)
    requires ScannedTo(keys, nodesize, pos, last) && low <= last
    requires forall k :: pos <= k < |keys| && IsExtent(keys[k]) ==> end <= keys[k].objectid
    requires Found(keys, nodesize, excluded, low, last, end, free)
    requires Adds(free, free', excluded, last, end)
    ensures forall x {:trigger InSome(free', x)} :: InSome(free', x) <==>
            Open(excluded, low, end, x) && !Covered(keys, nodesize, x)
  {
    forall x
      ensures InSome(free', x) <==> Open(excluded, low, end, x) && !Covered(keys, nodesize, x)
    {
      if last <= x < end {
        Uncovered(keys, nodesize, pos, last, x, end);
      }
    }
  }

  const CACHING_CTL_WAKE_UP := 0x20_0000

  /** load_extent_tree_free.  The path is a position among the keys of the tree, and possibly at the end of
      the leaf before that position; where leaves end, when the scan has to let go of the path and when the
      file system closes is not known to it. */
  method LoadExtentTreeFree(keys: seq<Key>, excluded: seq<Range>, nodesize: nat, groupStart: nat, groupEnd: nat)
    returns (closed: bool, free: seq<Range>, progress: nat)
    requires KeysAscend(keys) && Ascending(excluded) && groupEnd <= U64_MAX
    requires Disjoint(keys, nodesize, if groupStart < SUPER_INFO_OFFSET then SUPER_INFO_OFFSET else groupStart)
    ensures Ascending(free) && progress * CACHING_CTL_WAKE_UP <= Bytes(free)
    ensures var low := if groupStart < SUPER_INFO_OFFSET then SUPER_INFO_OFFSET else groupStart;
            && (forall x {:trigger InSome(free, x)} :: InSome(free, x) ==>
                Open(excluded, low, groupEnd, x) && !Covered(keys, nodesize, x))
            && (!closed ==> forall x {:trigger InSome(free, x)} :: InSome(free, x) <==>
                Open(excluded, low, groupEnd, x) && !Covered(keys, nodesize, x))
  {
    var low := if groupStart < SUPER_INFO_OFFSET then SUPER_INFO_OFFSET else groupStart;
    var last, total, atEnd := low, 0, false;
    closed, free, progress := false, [], 0;
    var pos := SearchSlot(keys, Key(last, EXTENT_ITEM_KEY, 0));
    StartOfScan(keys, nodesize, low, pos);
    if * {
      atEnd := true;
    }
    while true
      invariant low <= last && pos <= |keys| && ScannedTo(keys, nodesize, pos, last)
      invariant Found(keys, nodesize, excluded, low, last, groupEnd, free) && Below(free, groupEnd)
      invariant 0 <= total && progress * CACHING_CTL_WAKE_UP + total <= Bytes(free)
      invariant !closed
      decreases |keys| - pos, atEnd
    {
      if * {
        closed := true;  // btrfs_fs_closing_done
        break;
      }
      if atEnd || pos == |keys| {
        if pos == |keys| {  // btrfs_find_next_key finds none
          break;
        }
        if * {
          var again := SearchSlot(keys, keys[pos]);  // the path was let go: search for the next key
          SameKey(keys, pos, again);
          pos := again;
        }
        atEnd := false;  // or btrfs_next_leaf
        continue;
      }
      var key := keys[pos];
      if key.objectid < last {
        var next := SearchSlot(keys, Key(last, EXTENT_ITEM_KEY, 0));
        SkipsNoExtent(keys, nodesize, pos, last, next);
        pos, atEnd := next, *;
        continue;
      }
      if key.objectid >= groupEnd {
        break;
      }
      if IsExtent(key) {
        var free', added := AddNewFreeSpace(excluded, free, last, key.objectid);
        NextExtent(keys, nodesize, excluded, low, last, groupEnd, free, free', pos);
        free := free';
        total := total + added;
        last := Extent(key, nodesize).end;
        if total > CACHING_CTL_WAKE_UP {
          total := 0;
          progress := progress + 1;
        }
      }
      pos, atEnd := pos + 1, *;
    }
    if closed {
      last := U64_MAX;
    }
    var free', added := AddNewFreeSpace(excluded, free, last, groupEnd);
    if !closed {
      LastStretch(keys, nodesize, excluded, low, last, groupEnd, free, free', pos);
    }
    free := free';
  }

  /** The search for the first extent misses none that matters. */
  lemma {:induction false} StartOfScan(keys: seq<Key>, nodesize: nat, low: nat, pos: nat)
    requires KeysAscend(keys) && Disjoint(keys, nodesize, low) && pos <= |keys|
    requires forall j :: 0 <= j < pos ==> Less(keys[j], Key(low, EXTENT_ITEM_KEY, 0))
    requires forall j :: pos <= j < |keys| ==> !Less(keys[j], Key(low, EXTENT_ITEM_KEY, 0))
    ensures ScannedTo(keys, nodesize, pos, low)
  {
  }

  /** Searching again from the end of the extent just done skips back references, never an extent. */
  lemma {:induction false} SkipsNoExtent(keys: seq<Key>, nodesize: nat, pos: nat, last: nat, next: nat)
    requires KeysAscend(keys) && ScannedTo(keys, nodesize, pos, last) && pos < |keys| && keys[pos].objectid < last
    requires next <= |keys|
    requires forall j :: 0 <= j < next ==> Less(keys[j], Key(last, EXTENT_ITEM_KEY, 0))
    requires forall j :: next <= j < |keys| ==> !Less(keys[j], Key(last, EXTENT_ITEM_KEY, 0))
    ensures pos < next && ScannedTo(keys, nodesize, next, last)
  {
    assert Less(keys[pos], Key(last, EXTENT_ITEM_KEY, 0));
  }

  lemma {:induction false} SameKey(keys: seq<Key>, pos: nat, again: nat)
    requires KeysAscend(keys) && pos < |keys| && again <= |keys|
    requires forall j :: 0 <= j < again ==> Less(keys[j], keys[pos])
    requires forall j :: again <= j < |keys| ==> !Less(keys[j], keys[pos])
    ensures again == pos
  {
    CompKeysIsTotalOrder(keys[pos], keys[pos], keys[pos]);
    assert forall j :: 0 <= j < pos ==> Less(keys[j], keys[pos]);
    assert again < |keys| ==> !Less(keys[again], keys[pos]);
  }
}
