/** The locks of btrfs_search_slot: which nodes a descent holds, read or write, when it starts over for more write
    locks, and what it lets go of. */
module SearchLocks {
  import opened Ctree
  import opened TreePath

  const MAX_LEVEL := 8

  /** path->locks[i] */
  datatype Lock = None | Read | Write

  /** path->slots[i], and whether that is the last slot of its node. */
  datatype Place = Place(slot: nat, last: bool)

  /** What setup_nodes_for_search (at a leaf: split_leaf) finds to do.  Checked: the node looks too small but stays.
      Moved: split or balanced, the path now at `here` and, one level up, at `up`; splitting the root puts a new root
      above it.  Collapsed: the root had one pointer left and was replaced by its child. */
  datatype Work = Nothing | Checked | Moved(here: Place, up: Place) | Collapsed

  /** What a pass meets at a level: must the block be copied, the slot of the key, the work. */
  datatype Level = Level(cow: bool, place: Place, work: Work)
  {
    function EndSlot(): nat
    {
      if work.Moved? then work.here.slot else place.slot
    }
  }

  /** What one pass from the root to the leaf meets.  The root's level is seen once under a read lock and, if that has
      to be traded for a write lock, once more.  Of the leaf: is there room for the item, how its first key compares
      with the key, is the key there. */
  datatype Pass = Pass(readTop: nat, writeTop: nat, levels: seq<Level>, room: bool, firstCmp: int, found: bool)
  {
    /** A pass that starts at a root on level `top`. */
    predicate From(top: nat, insLen: int)
    {
      && top < MAX_LEVEL == |levels|
      && (forall i :: 0 <= i <= top ==> LevelOk(i, top, insLen))
      && (levels[0].work.Nothing? || (levels[0].work.Moved? && insLen > 0 && !room))
      && (firstCmp < 0 ==> levels[0].place.slot > 0)
      && (firstCmp == 0 ==> found)
    }

    /** Work keeps the path at the same pointer: it is the leftmost one of the two levels after the work exactly if
        it was before (see LeftmostStays).  No tree grows beyond MAX_LEVEL. */
    predicate LevelOk(i: nat, top: nat, insLen: int)
      requires i <= top < MAX_LEVEL == |levels|
    {
      match levels[i].work
      case Nothing => true
      case Checked => insLen < 0
      case Moved(here, up) =>
        && (if i < top then insLen != 0 else insLen > 0 && top + 1 < MAX_LEVEL)
        && (here.slot == 0 && up.slot == 0 <==>
            levels[i].place.slot == 0 && (i < top ==> levels[i + 1].EndSlot() == 0))
      case Collapsed => insLen < 0 && i == top > 0
    }

    predicate Valid(insLen: int)
    {
      From(readTop, insLen) && From(writeTop, insLen)
    }

    predicate Collapses()
    {
      || (readTop < |levels| && levels[readTop].work.Collapsed?)
      || (writeTop < |levels| && levels[writeTop].work.Collapsed?)
    }
  }

  /** Where a path is in two levels is told by its place in their concatenation; the place is the first one exactly if
      both slots are 0. */
  lemma {:induction false} LeftmostStays<T>(rows: seq<seq<T>>, slot: nat, pos: nat, rows': seq<seq<T>>, slot': nat,
          pos': nat)
    requires slot < |rows| && slot' < |rows'| && NonEmpty(rows[..slot]) && NonEmpty(rows'[..slot'])
    requires At(rows, slot, pos) == At(rows', slot', pos')
    ensures slot == 0 && pos == 0 <==> slot' == 0 && pos' == 0
  {
    FirstPlace(rows, slot, pos);
    FirstPlace(rows', slot', pos');
  }

  lemma {:induction false} FirstPlace<T>(rows: seq<seq<T>>, slot: nat, pos: nat)
    requires slot < |rows| && NonEmpty(rows[..slot])
    ensures At(rows, slot, pos) == 0 <==> slot == 0 && pos == 0
  {
    if slot > 0 {
      CatPrefix(rows, slot - 1);
      assert rows[..slot][slot - 1] == rows[slot - 1];
    }
  }

  /** From level lo up to, but not including, level i the path takes the first slot everywhere. */
  predicate Leftmost(places: seq<Place>, lo: nat, i: nat)
    requires i <= |places|
  {
    forall k :: lo <= k < i ==> places[k].slot == 0
  }

  /** fixup_low_keys from level lo on stores into write-locked nodes only: into level lo, and into every level above
      as long as the store below went into slot 0. */
  predicate StoresLocked(places: seq<Place>, locks: seq<Lock>, top: nat, lo: nat)
    requires top < |places| == |locks|
  {
    forall i :: lo <= i <= top && Leftmost(places, lo, i) ==> locks[i] == Write
  }

  lemma {:induction false} StoresFrom(places: seq<Place>, locks: seq<Lock>, top: nat, lo: nat)
    requires top < |places| == |locks| && lo <= top
    ensures StoresLocked(places, locks, top, lo) <==>
            locks[lo] == Write && (places[lo].slot == 0 ==> StoresLocked(places, locks, top, lo + 1))
  {
    assert Leftmost(places, lo, lo);
    if locks[lo] == Write && (places[lo].slot == 0 ==> StoresLocked(places, locks, top, lo + 1)) {
      forall i | lo <= i <= top && Leftmost(places, lo, i)
        ensures locks[i] == Write
      {
        if i > lo {
          assert places[lo].slot == 0;
          assert Leftmost(places, lo + 1, i);
        }
      }
    }
    if StoresLocked(places, locks, top, lo) && places[lo].slot == 0 {
      forall i | lo + 1 <= i <= top && Leftmost(places, lo + 1, i)
        ensures locks[i] == Write
      {
        assert Leftmost(places, lo, i);
      }
    }
  }

  /** What is above level lo decides; below it the path may be anything. */
  lemma {:induction false} StoresAbove(places: seq<Place>, places': seq<Place>, locks: seq<Lock>, locks': seq<Lock>,
          top: nat, lo: nat)
    requires top < |places| == |locks| == |places'| == |locks'| && lo <= |places|
    requires places'[lo..] == places[lo..] && locks'[lo..] == locks[lo..]
    requires StoresLocked(places, locks, top, lo)
    ensures StoresLocked(places', locks', top, lo)
  {
    forall i | lo <= i <= top && Leftmost(places', lo, i)
      ensures locks'[i] == Write
    {
      forall k | lo <= k < i
        ensures places[k].slot == 0
      {
        assert places'[lo..][k - lo] == places[lo..][k - lo];
      }
      assert Leftmost(places, lo, i);
      assert locks'[lo..][i - lo] == locks[lo..][i - lo];
    }
  }

  /** A node that fixup_low_keys changes is one of those, if `path` holds the nodes of levels top down to 1. */
  lemma {:induction false} StoresAreLocked(path: seq<Frame>, key: Key, was: Key, places: seq<Place>, locks: seq<Lock>,
          i: nat)
    requires LowKeysOk(path, was) && |path| < |places| == |locks| && i < |path|
    requires forall j :: 0 <= j < |path| ==> places[|path| - j].slot == path[j].slot
    requires StoresLocked(places, locks, |path|, 1)
    ensures Climbed(path, key)[i] != path[i] ==> locks[|path| - i] == Write
  {
    ClimbIsRight(path, key, was);
    if Climbed(path, key)[i] != path[i] {
      forall k | 1 <= k < |path| - i
        ensures places[k].slot == 0
      {
        var j := |path| - k;
        assert places[|path| - j].slot == path[j].slot;
      }
      assert Leftmost(places, 1, |path| - i);
    }
  }

  /** A block that was copied, split or balanced, with the locks held on it and on its parent at that moment. */
  datatype Change = Change(level: nat, own: Lock, hasParent: bool, parent: Lock)
  {
    predicate Safe()
    {
      own == Write && (hasParent ==> parent == Write)
    }
  }

  predicate AllSafe(changed: seq<Change>)
  {
    forall i :: 0 <= i < |changed| ==> changed[i].Safe()
  }

  /** The first write_lock_level of a search. */
  function StartLevel(insLen: int, cow: bool, keepLocks: bool): int
  {
    if !cow then -1 else if keepLocks then MAX_LEVEL else if insLen < 0 then 2 else if insLen > 0 then 1 else 0
  }

  /** unlock_up does not look for locks to drop above this place yet. */
  predicate Skips(place: Place, keepLocks: bool)
  {
    place.slot == 0 || (keepLocks && place.last)
  }

  predicate SkipsUpTo(places: seq<Place>, keepLocks: bool, lo: nat, i: nat)
    requires i <= |places|
  {
    forall k :: lo <= k < i ==> Skips(places[k], keepLocks)
  }

  /** The locks of a descent that has just locked the block on `level`; the pass started with write_lock_level
      `start`. */
  class Search {
    const insLen: int
    const cow: bool
    const keepLocks: bool
    const lowestUnlock: nat
    const minWriteLockLevel: int
    var writeLockLevel: int
    var top: nat
    var places: seq<Place>
    var locks: seq<Lock>
    var changed: seq<Change>

    predicate Valid()
      reads this
    {
      && (insLen != 0 ==> cow)
      && lowestUnlock == (if insLen < 0 then 2 else 1)
      && minWriteLockLevel == StartLevel(insLen, cow, keepLocks) <= writeLockLevel <= MAX_LEVEL
      && top < MAX_LEVEL == |places| == |locks|
      && AllSafe(changed)
    }

    predicate Released()
      reads this
    {
      forall i :: 0 <= i < |locks| ==> locks[i] == None
    }

    /** "Everything at write_lock_level or lower must be write locked." */
    predicate LevelsLocked(level: nat)
      requires top < |locks|
      reads this
    {
      && (forall i :: level <= i <= top && locks[i] != None && i <= writeLockLevel ==> locks[i] == Write)
      && (forall i :: top < i < |locks| ==> locks[i] == None)
    }

    /** A change of the first key of the path's block on `level` can be carried upwards. */
    predicate CanClimb(level: nat)
      requires top < |places| == |locks|
      reads this
    {
      level < top && places[level].slot == 0 ==> StoresLocked(places, locks, top, level + 1)
    }

    /** The block on `level` is locked and nothing is known of it yet. */
    predicate Arrived(level: nat, start: int)
      reads this
    {
      && Valid() && level <= top && LevelsLocked(level) && locks[level] != None
      && (writeLockLevel >= start || writeLockLevel >= level + 1)
      && (level == top ==> writeLockLevel == start)
      && (level < top ==> locks[level + 1] != None)
      && (insLen != 0 && level < top ==> CanClimb(level + 1))
    }

    /** btrfs_search_slot up to `again`. */
    constructor (insLen: int, cow: bool, keepLocks: bool)
      requires insLen != 0 ==> cow
      ensures Valid() && Released() && writeLockLevel == StartLevel(insLen, cow, keepLocks) && changed == []
      ensures this.insLen == insLen && this.cow == cow && this.keepLocks == keepLocks
    {
      this.insLen, this.cow, this.keepLocks := insLen, cow, keepLocks;
      lowestUnlock := if insLen < 0 then 2 else 1;
      minWriteLockLevel := StartLevel(insLen, cow, keepLocks);
      writeLockLevel := StartLevel(insLen, cow, keepLocks);
      top, changed := 0, [];
      places, locks := seq(MAX_LEVEL, _ => Place(0, false)), seq(MAX_LEVEL, _ => None);
    }

    /** btrfs_release_path, and another pass with a higher write_lock_level. */
    method StartOver(level: int)
      requires Valid() && writeLockLevel <= level <= MAX_LEVEL
      modifies this`writeLockLevel, this`locks
      ensures Valid() && Released() && writeLockLevel == level
    {
      writeLockLevel := level;
      locks := seq(MAX_LEVEL, _ => None);
    }

    /** btrfs_search_slot_get_root */
    method GetRoot(pass: Pass)
      requires Valid() && Released() && pass.Valid(insLen)
      modifies this`top, this`locks
      ensures Arrived(top, writeLockLevel) && (top == pass.readTop || top == pass.writeTop)
    {
      if writeLockLevel < MAX_LEVEL && pass.readTop > writeLockLevel {
        top := pass.readTop;
        locks := locks[top := Read];
      } else {
        top := pass.writeTop;
        locks := locks[top := Write];
      }
    }

    /** The copy-on-write step of btrfs_search_slot. */
    method CowBlock(level: nat, must: bool, ghost start: int) returns (again: bool)
      requires Arrived(level, start)
      modifies this`writeLockLevel, this`locks, this`changed
      ensures !again ==> Arrived(level, start) && locks == old(locks) && writeLockLevel == old(writeLockLevel)
      ensures again ==> Valid() && Released() && writeLockLevel > start
    {
      if !cow || !must {
        return false;
      }
      if level > writeLockLevel || (level + 1 > writeLockLevel && level + 1 < MAX_LEVEL && level < top) {
        StartOver(level + 1);
        return true;
      }
      LogChange(level);
      return false;
    }

    method LogChange(level: nat)
      requires Valid() && level <= top && locks[level] == Write && (level < top ==> locks[level + 1] == Write)
      modifies this`changed
      ensures Valid()
    {
      changed := changed + [Change(level, locks[level], level < top, if level < top then locks[level + 1] else None)];
    }

    /** As Arrived, with the slot on `level` known and any work on the two levels done. */
    predicate Placed(level: nat, start: int)
      reads this
    {
      && Valid() && level <= top && LevelsLocked(level) && locks[level] != None
      && (writeLockLevel >= start || writeLockLevel >= level + 1)
      && (insLen != 0 && level < top ==>
            locks[level + 1] != None && (places[level].slot == 0 ==> CanClimb(level + 1)))
    }

    /** setup_nodes_for_search */
    method SetupNodes(level: nat, work: Work, ghost start: int) returns (again: bool)
      requires Placed(level, start) && (level == top ==> writeLockLevel == start)
      requires work.Moved? ==> (if level < top then insLen != 0 else insLen > 0 && top + 1 < MAX_LEVEL)
      requires work.Moved? && work.here.slot == 0 && work.up.slot == 0 ==>
                 places[level].slot == 0 && (level < top ==> places[level + 1].slot == 0)
      requires work.Collapsed? ==> level == top
      modifies this`writeLockLevel, this`top, this`places, this`locks, this`changed
      ensures !again ==> Placed(level, start) && top >= old(top)
      ensures !again ==> places[level] == (if work.Moved? then work.here else old(places)[level])
      ensures again ==> Valid() && Released()
      ensures again ==> writeLockLevel > start || (work.Collapsed? && level == old(top) && writeLockLevel == start)
    {
      if work.Nothing? {
        return false;
      }
      if writeLockLevel < level + 1 {
        StartOver(level + 1);
        return true;
      }
      if work.Collapsed? {
        LogChange(level);
        StartOver(writeLockLevel);
        return true;
      }
      if work.Moved? {
        if level < top {
          LogChange(level);
          StoresMoved(level, work.here, work.up);
          places := places[level := work.here][level + 1 := work.up];
        } else {
          Grow(level, work.here, work.up);
        }
      }
      return false;
    }

    /** insert_new_root, and the split below it */
    method Grow(level: nat, here: Place, up: Place)
      requires Valid() && level == top && top + 1 < MAX_LEVEL && LevelsLocked(level) && locks[level] == Write
      modifies this`top, this`places, this`locks, this`changed
      ensures Valid() && top == level + 1 && LevelsLocked(level) && locks == old(locks)[top := Write]
      ensures places == old(places)[level := here][level + 1 := up]
    {
      top := top + 1;
      locks := locks[top := Write];
      LogChange(level);
      places := places[level := here][level + 1 := up];
    }

    lemma {:induction false} StoresMoved(level: nat, here: Place, up: Place)
      requires top < |places| == |locks| && level < top
      requires here.slot == 0 && up.slot == 0 ==> places[level].slot == 0 && places[level + 1].slot == 0
      requires places[level].slot == 0 ==> CanClimb(level + 1)
      ensures here.slot == 0 && level + 1 < top && up.slot == 0 ==>
                StoresLocked(places[level := here][level + 1 := up], locks, top, level + 2)
    {
      var places' := places[level := here][level + 1 := up];
      if here.slot == 0 && level + 1 < top && up.slot == 0 {
        assert places'[level + 2..] == places[level + 2..];
        StoresAbove(places, places', locks, locks, top, level + 2);
      }
    }

    predicate SkippedTo(lo: nat, i: int)
      reads this`places
    {
      lo <= i < |places| && SkipsUpTo(places, keepLocks, lo, i)
    }

    /** unlock_up, called with the search on `level`: locks are dropped from above, never one that a change of the
        first key on this level, or on another level below lowestUnlock, could climb to.  The lowest level whose write
        lock is gone bounds write_lock_level. */
    method UnlockUp(level: nat, lower: bool)
      requires Valid() && level < MAX_LEVEL
      modifies this`locks, this`writeLockLevel
      ensures Valid() && (!lower ==> writeLockLevel == old(writeLockLevel))
      ensures writeLockLevel == old(writeLockLevel) || level <= writeLockLevel < old(writeLockLevel)
      ensures forall i :: 0 <= i < MAX_LEVEL ==> locks[i] == old(locks)[i] || locks[i] == None
      ensures forall i :: 0 <= i < MAX_LEVEL && (i <= level || i < lowestUnlock) ==> locks[i] == old(locks)[i]
      ensures forall lo: nat, i :: (lo <= level || lo < lowestUnlock) && SkippedTo(lo, i) ==> locks[i] == old(locks)[i]
    {
      var i, skipLevel, checkSkip := level, level, true;
      ghost var first := 0;  // the first lock dropped
      while i < MAX_LEVEL
        invariant level <= i <= MAX_LEVEL == |locks| && level <= skipLevel && Valid()
        invariant checkSkip ==> locks == old(locks) && (i > level && Skips(places[i - 1], keepLocks) ==> skipLevel == i)
        invariant !checkSkip ==> skipLevel < first < i && lowestUnlock <= first && !Skips(places[first - 1], keepLocks)
        invariant forall j :: 0 <= j < MAX_LEVEL ==>
                    locks[j] == if checkSkip || j < first || j >= i then old(locks)[j] else None
        invariant writeLockLevel == old(writeLockLevel) || (lower && level <= writeLockLevel < old(writeLockLevel))
      {
        if locks[i] == None {
          break;
        }
        if checkSkip && Skips(places[i], keepLocks) {
          skipLevel := i + 1;
        } else if i >= lowestUnlock && i > skipLevel {
          if checkSkip {
            first := i;
          }
          checkSkip := false;
          locks := locks[i := None];
          if lower && minWriteLockLevel < i <= writeLockLevel {
            writeLockLevel := i - 1;
          }
        }
        i := i + 1;
      }
    }

    /** One turn of the loop of btrfs_search_slot above the leaf. */
    method AtNode(level: nat, lv: Level, ghost start: int) returns (again: bool)
      requires Arrived(level, start) && level > 0
      requires lv.work.Moved? ==> (if level < top then insLen != 0 else insLen > 0 && top + 1 < MAX_LEVEL)
      requires lv.work.Moved? && lv.work.here.slot == 0 && lv.work.up.slot == 0 ==>
                 lv.place.slot == 0 && (level < top ==> places[level + 1].slot == 0)
      requires lv.work.Collapsed? ==> level == top
      modifies this`writeLockLevel, this`top, this`places, this`locks, this`changed
      ensures !again ==> Arrived(level - 1, start) && places[level].slot == lv.EndSlot() && top >= old(top)
      ensures again ==> Valid() && Released()
      ensures again ==> writeLockLevel > start || (lv.work.Collapsed? && level == old(top) && writeLockLevel == start)
    {
      again := CowBlock(level, lv.cow, start);
      if again {
        return;
      }
      SetSlot(level, lv.place, start);
      again := SetupNodes(level, lv.work, start);
      if again {
        return;
      }
      if places[level].slot == 0 && insLen != 0 && writeLockLevel < level + 1 {
        StartOver(level + 1);
        return true;
      }
      LeaveNode(level, start);
      return false;
    }

    /** A plain search lets go of the parent before the search in the block; then the slot is found. */
    method SetSlot(level: nat, place: Place, ghost start: int)
      requires Arrived(level, start)
      modifies this`places, this`locks
      ensures Placed(level, start) && places == old(places)[level := place]
      ensures locks[level] == old(locks)[level] && (insLen != 0 ==> locks == old(locks))
      ensures insLen != 0 && level < top ==> CanClimb(level + 1)
    {
      if insLen == 0 && !keepLocks && level + 1 < MAX_LEVEL {
        locks := locks[level + 1 := None];
      }
      places := places[level := place];
      if insLen != 0 && level + 1 < top && places[level + 1].slot == 0 {
        assert places[level + 2..] == old(places)[level + 2..];
        StoresAbove(old(places), places, locks, locks, top, level + 2);
      }
    }

    /** unlock_up, then the child is read and locked. */
    method LeaveNode(level: nat, ghost start: int)
      requires Placed(level, start) && level > 0
      requires insLen != 0 && places[level].slot == 0 ==> writeLockLevel >= level + 1
      modifies this`writeLockLevel, this`locks
      ensures Arrived(level - 1, start)
    {
      if insLen != 0 && level < top && places[level].slot == 0 {
        StoresFrom(places, locks, top, level + 1);
      }
      ghost var held := locks;
      UnlockUp(level, true);
      if insLen != 0 && level < top && places[level].slot == 0 {
        KeepsStores(held, locks, level, level + 1);
      }
      ghost var kept := locks;
      locks := locks[level - 1 := if level - 1 <= writeLockLevel then Write else Read];
      if insLen != 0 && level < top && places[level].slot == 0 {
        assert locks[level + 1..] == kept[level + 1..];
        StoresAbove(places, places, kept, locks, top, level + 1);
      }
    }

    /** Locks kept from level `from` on cover a climb that starts at level lo, behind slots 0. */
    lemma {:induction false} KeepsStores(held: seq<Lock>, kept: seq<Lock>, from: nat, lo: nat)
      requires top < |places| == |held| == |kept| && from <= lo <= top && Leftmost(places, from, lo)
      requires StoresLocked(places, held, top, lo)
      requires forall i :: SkippedTo(from, i) ==> kept[i] == held[i]
      ensures StoresLocked(places, kept, top, lo)
    {
      forall i | lo <= i <= top && Leftmost(places, lo, i)
        ensures kept[i] == Write
      {
        assert SkippedTo(from, i);
      }
    }

    /** The search is over: the leaf is locked, for writing if it may be changed, and so is every node that
        fixup_low_keys or del_ptr will store into. */
    predicate Ready(found: bool)
      reads this
    {
      && Valid() && locks[0] != None && (cow ==> locks[0] == Write)
      && (insLen < 0 && top > 0 ==> StoresLocked(places, locks, top, 1))
      && (insLen > 0 && !found && top > 0 && places[0].slot == 0 ==> StoresLocked(places, locks, top, 1))
    }

    /** btrfs_unlock_up_safe(path, 1) */
    method UnlockParents()
      requires Valid()
      modifies this`locks
      ensures Valid() && locks[0] == old(locks)[0] && forall i :: 1 <= i < MAX_LEVEL ==> locks[i] == None
    {
      locks := locks[..1] + seq(MAX_LEVEL - 1, _ => None);
    }

    /** split_leaf.  It may itself carry a new first key upwards from level 1. */
    method SplitLeaf(here: Place, up: Place, ghost start: int)
      requires Placed(0, start) && insLen > 0 && locks[0] == Write && (top > 0 ==> locks[1] == Write)
      requires top > 0 && places[0].slot == 0 ==> StoresLocked(places, locks, top, 1)
      requires here.slot == 0 && up.slot == 0 ==> places[0].slot == 0 && (0 < top ==> places[1].slot == 0)
      modifies this`top, this`places, this`locks, this`changed
      ensures Placed(0, start) && places[0] == here && locks[0] == Write && top > 0 && locks[1] == Write
    {
      if top == 0 {
        Grow(0, here, up);
      } else {
        LogChange(0);
        if places[0].slot == 0 {
          StoresFrom(places, locks, top, 1);
        }
        StoresMoved(0, here, up);
        places := places[0 := here][1 := up];
      }
    }

    /** The last turn: search_leaf, then unlock_up. */
    method AtLeaf(lv: Level, room: bool, firstCmp: int, found: bool, ghost start: int) returns (again: bool)
      requires Arrived(0, start)
      requires lv.work.Nothing? || (lv.work.Moved? && insLen > 0 && !room)
      requires lv.work.Moved? && lv.work.here.slot == 0 && lv.work.up.slot == 0 ==>
                 lv.place.slot == 0 && (0 < top ==> places[1].slot == 0)
      requires (firstCmp < 0 ==> lv.place.slot > 0) && (firstCmp == 0 ==> found)
      modifies this`writeLockLevel, this`top, this`places, this`locks, this`changed
      ensures !again ==> Ready(found)
      ensures again ==> Valid() && Released() && writeLockLevel > start
    {
      again := CowBlock(0, lv.cow, start);
      if again {
        return;
      }
      SetSlot(0, lv.place, start);
      if insLen != 0 && top > 0 {
        StoresFrom(places, locks, top, 1);
      }
      if insLen > 0 && locks[1] != None && room && firstCmp <= 0 {
        UnlockParents();
      }
      if lv.work.Moved? {
        SplitLeaf(lv.work.here, lv.work.up, start);
        StoresFrom(places, locks, top, 1);
      }
      LeaveLeaf(found);
    }

    method LeaveLeaf(found: bool)
      requires Ready(found)
      modifies this`writeLockLevel, this`locks
      ensures Ready(found)
    {
      ghost var held := locks;
      UnlockUp(0, false);
      if insLen < 0 && top > 0 {
        KeepsStores(held, locks, 1, 1);
      } else if insLen > 0 && !found && top > 0 && places[0].slot == 0 {
        KeepsStores(held, locks, 0, 1);
      }
    }

    /** One pass from the root to the leaf: it either ends with every lock the change needs, or starts over with a
        higher write_lock_level, unless it was the root that went away. */
    method Descend(pass: Pass) returns (done: bool)
      requires Valid() && Released() && pass.Valid(insLen)
      modifies this`writeLockLevel, this`top, this`places, this`locks, this`changed
      ensures done ==> Ready(pass.found)
      ensures !done ==> Valid() && Released()
      ensures !done ==> writeLockLevel > old(writeLockLevel)
                        || (writeLockLevel == old(writeLockLevel) && pass.Collapses())
    {
      ghost var start := writeLockLevel;
      GetRoot(pass);
      var level := top;
      ghost var root := top;
      while level > 0
        invariant 0 <= level <= root <= top && Arrived(level, start) && pass.From(root, insLen)
        invariant if level == root then top == root else places[level + 1].slot == pass.levels[level + 1].EndSlot()
      {
        assert pass.LevelOk(level, root, insLen);
        var again := AtNode(level, pass.levels[level], start);
        if again {
          return false;
        }
        level := level - 1;
      }
      assert pass.LevelOk(0, root, insLen);
      var again := AtLeaf(pass.levels[0], pass.room, pass.firstCmp, pass.found, start);
      return !again;
    }
  }

  /** Passes that may find the root with one pointer left. */
  function Collapses(passes: seq<Pass>): nat
  {
    if passes == [] then 0
    else Collapses(passes[..|passes| - 1]) + if passes[|passes| - 1].Collapses() then 1 else 0
  }

  /** The passes of btrfs_search_slot, whatever each of them meets.  Not counting roots that collapse, it starts over
      at most once for each level above the first write_lock_level. */
  method SearchSlot(insLen: int, cow: bool, keepLocks: bool, passes: seq<Pass>)
      returns (s: Search, n: nat, done: bool)
    requires insLen != 0 ==> cow
    requires forall i :: 0 <= i < |passes| ==> passes[i].Valid(insLen)
    ensures s.Valid() && s.insLen == insLen && s.cow == cow && n <= |passes|
    ensures if done then n > 0 && s.Ready(passes[n - 1].found) else n == |passes| && s.Released()
    ensures (if done then n - 1 else n) <= Collapses(passes[..n]) + MAX_LEVEL - StartLevel(insLen, cow, keepLocks)
  {
    s := new Search(insLen, cow, keepLocks);
    n := 0;
    while n < |passes|
      invariant n <= |passes| && fresh(s) && s.Valid() && s.Released() && s.insLen == insLen && s.cow == cow
      invariant n <= Collapses(passes[..n]) + s.writeLockLevel - StartLevel(insLen, cow, keepLocks)
    {
      CollapsesUpTo(passes, n);
      done := s.Descend(passes[n]);
      n := n + 1;
      if done {
        return;
      }
    }
    done := false;
  }

  lemma {:induction false} CollapsesUpTo(passes: seq<Pass>, n: nat)
    requires n < |passes|
    ensures Collapses(passes[..n + 1]) == Collapses(passes[..n]) + if passes[n].Collapses() then 1 else 0
  {
    assert passes[..n + 1][..n] == passes[..n];
  }
}
