/** Block reserves: metadata bytes promised to operations, carved out of a space's bytes_may_use. */
module BlockRsv {
  import opened Errno

  const U64 := 0x1_0000_0000_0000_0000
  /** (u64)-1, which asks a release to give back everything */
  const ALL := U64 - 1
  const SZ_512M := 0x2000_0000

  datatype Kind = Global | Delalloc | Trans | Chunk | Remap | DelOps | DelRefs | TreeLog | Empty | Temp

  /** struct btrfs_block_rsv; space is the number of its space_info. */
  datatype Rsv = Rsv(size: nat, reserved: nat, space: nat, full: bool, failfast: bool, kind: Kind, qgroupSize: nat,
      qgroupReserved: nat)

  /** u64 subtraction */
  function Sub(a: nat, b: nat): nat
  {
    if b <= a then a - b else a + U64 - b % U64
  }

  /** What a reserve holds when it says it is not full: no more than its size. */
  predicate Sound(r: Rsv)
  {
    !r.full ==> r.reserved <= r.size
  }

  // ---------------------------------------------------------------------------------------------
  // One reserve

  /** btrfs_block_rsv_use_bytes when there is enough */
  function Used(r: Rsv, n: nat): (r': Rsv)
    requires n <= r.reserved
    ensures Sound(r) ==> Sound(r')
  {
    var left := r.reserved - n;
    r.(reserved := left, full := if left < r.size then false else r.full)
  }

  /** btrfs_block_rsv_add_bytes */
  function Added(r: Rsv, n: nat, updateSize: bool): (r': Rsv)
    ensures Sound(r) ==> Sound(r')
  {
    if updateSize then r.(reserved := r.reserved + n, size := r.size + n)
    else r.(reserved := r.reserved + n, full := r.reserved + n >= r.size || r.full)
  }

  /** The first half of block_rsv_release_bytes: the reserve shrinks and lets go of what it holds beyond
      its new size. */
  function Shrunk(r: Rsv, n: nat, qgroup: bool): (r': Rsv)
    ensures Sound(r) ==> Sound(r')
    ensures r'.reserved <= r.reserved && (r'.reserved < r.reserved ==> r'.full && r'.reserved == r'.size)
  {
    var size := Sub(r.size, if n == ALL then r.size else n);
    var s := if r.reserved >= size then r.(size := size, reserved := size, full := true) else r.(size := size);
    if qgroup && s.qgroupReserved >= s.qgroupSize then s.(qgroupReserved := s.qgroupSize) else s
  }

  /** The second half: what the release target takes. */
  function Taken(r: Rsv, n: nat): (k: nat)
    ensures k <= n
  {
    if r.full then 0
    else
      var room := Sub(r.size, r.reserved);
      if n < room then n else room
  }

  function Topped(r: Rsv, n: nat): (r': Rsv)
    requires Sound(r)
    ensures r'.reserved == r.reserved + Taken(r, n) && Sound(r')
    ensures r.reserved <= r.size ==> r'.reserved <= r'.size
  {
    var reserved := r.reserved + Taken(r, n);
    r.(reserved := reserved, full := r.full || reserved >= r.size)
  }

  /** The subtraction dest->size - dest->reserved does not wrap: the target takes exactly what it lacks, up
      to what is offered. */
  lemma {:induction false} NoWrap(r: Rsv, n: nat)
    requires Sound(r)
    ensures !r.full ==> r.reserved + Taken(r, n) <= r.size && (Taken(r, n) == n || Topped(r, n).reserved == r.size)
  {
  }

  // ---------------------------------------------------------------------------------------------
  // All reserves

  /** What all reserves of one space hold. */
  function Sum(rsvs: seq<Rsv>, space: nat): nat
  {
    if rsvs == [] then 0
    else Sum(rsvs[..|rsvs| - 1], space) + if rsvs[|rsvs| - 1].space == space then rsvs[|rsvs| - 1].reserved else 0
  }

  lemma {:induction false} SumSet(rsvs: seq<Rsv>, i: nat, r: Rsv, space: nat)
    requires i < |rsvs| && r.space == rsvs[i].space
    ensures Sum(rsvs[i := r], space) == Sum(rsvs, space) + if r.space == space then r.reserved - rsvs[i].reserved else 0
  {
    var n := |rsvs| - 1;
    if i < n {
      SumSet(rsvs[..n], i, r, space);
      assert rsvs[i := r][..n] == rsvs[..n][i := r];
    } else {
      assert rsvs[i := r][..n] == rsvs[..n];
    }
  }

  lemma {:induction false} SumAtLeast(rsvs: seq<Rsv>, i: nat)
    requires i < |rsvs|
    ensures rsvs[i].reserved <= Sum(rsvs, rsvs[i].space)
  {
    if i < |rsvs| - 1 {
      SumAtLeast(rsvs[..|rsvs| - 1], i);
    }
  }

  const GLOBAL := 0
  const DELAYED := 1
  const EMPTY := 2

  predicate Kinds(rsvs: seq<Rsv>, spaces: nat)
  {
    && |rsvs| > EMPTY
    && rsvs[GLOBAL].space == rsvs[DELAYED].space && rsvs[DELAYED].kind == DelRefs
    && (forall i :: 0 <= i < |rsvs| ==> rsvs[i].space < spaces && (rsvs[i].kind == Global <==> i == GLOBAL))
  }

  class Reserves {
    /** global_block_rsv, delayed_refs_rsv, empty_block_rsv, then all others */
    var rsvs: seq<Rsv>
    /** bytes_may_use of each space */
    var mayUse: seq<nat>

    /** Bytes in bytes_may_use that no reserve holds: handed out to blocks being allocated. */
    ghost function Slack(space: nat): int
      requires space < |mayUse|
      reads this
    {
      mayUse[space] - Sum(rsvs, space)
    }

    /** The two reserves that releases fill up are sound, bytes_may_use covers what all reserves hold, and the
        delayed refs reserve, whose flag two functions clear without looking, never holds more than its size. */
    ghost predicate Valid()
      reads this
    {
      Base() && rsvs[DELAYED].reserved <= rsvs[DELAYED].size
    }

    ghost predicate Base()
      reads this
    {
      && Kinds(rsvs, |mayUse|)
      && Sound(rsvs[GLOBAL]) && Sound(rsvs[DELAYED])
      && (forall s: nat {:trigger Slack(s)} :: s < |mayUse| ==> Slack(s) >= 0)
    }

    /** One reserve changes and bytes_may_use of its space with it. */
    method Set(i: nat, r: Rsv, bytes: int)
      requires i < |rsvs| && r.space == rsvs[i].space < |mayUse| && mayUse[r.space] + bytes >= 0
      modifies this
      ensures rsvs == old(rsvs)[i := r] && mayUse == old(mayUse)[r.space := old(mayUse)[r.space] + bytes]
      ensures forall s: nat {:trigger Slack(s)} :: s < |mayUse| ==>
                Slack(s) == old(Slack(s)) + if s == r.space then bytes - (r.reserved - old(rsvs)[i].reserved) else 0
    {
      forall s: nat
        ensures Sum(rsvs[i := r], s) == Sum(rsvs, s) + if s == r.space then r.reserved - rsvs[i].reserved else 0
      {
        SumSet(rsvs, i, r, s);
      }
      rsvs := rsvs[i := r];
      mayUse := mayUse[r.space := mayUse[r.space] + bytes];
    }

    /** btrfs_block_rsv_use_bytes */
    method UseBytes(i: nat, n: nat) returns (ret: int)
      requires Valid() && i < |rsvs|
      modifies this
      ensures Valid() && |mayUse| == |old(mayUse)| && (ret == 0 || ret == ENOSPC)
      ensures ret == 0 <==> n <= old(rsvs)[i].reserved
      ensures rsvs == (if ret == 0 then old(rsvs)[i := Used(old(rsvs)[i], n)] else old(rsvs)) && mayUse == old(mayUse)
      ensures forall s: nat {:trigger Slack(s)} :: s < |mayUse| ==>
                Slack(s) == old(Slack(s)) + if ret == 0 && s == rsvs[i].space then n else 0
    {
      if rsvs[i].reserved < n {
        return ENOSPC;
      }
      Set(i, Used(rsvs[i], n), 0);
      assert mayUse == old(mayUse);
      return 0;
    }

    /** btrfs_block_rsv_add_bytes with the bytes just reserved or taken elsewhere: `bytes` of them are new
        in bytes_may_use. */
    method AddBytes(i: nat, n: nat, updateSize: bool, bytes: nat)
      requires Valid() && i < |rsvs| && (i == DELAYED ==> updateSize) && Slack(rsvs[i].space) + bytes >= n
      modifies this
      ensures Valid() && rsvs == old(rsvs)[i := Added(old(rsvs)[i], n, updateSize)] && |mayUse| == |old(mayUse)|
      ensures forall s: nat {:trigger Slack(s)} :: s < |mayUse| ==>
              Slack(s) == old(Slack(s)) + if s == rsvs[i].space then bytes - n else 0
    {
      Set(i, Added(rsvs[i], n, updateSize), bytes);
    }

    /** btrfs_block_rsv_add; ok says whether btrfs_reserve_metadata_bytes found the space. */
    method Add(i: nat, n: nat, ok: bool) returns (ret: int)
      requires Valid() && i < |rsvs|
      modifies this
      ensures Valid() && |mayUse| == |old(mayUse)| && (ret == 0 <==> n == 0 || ok)
      ensures rsvs == if ret == 0 && n > 0 then old(rsvs)[i := Added(old(rsvs)[i], n, true)] else old(rsvs)
      ensures forall s: nat {:trigger Slack(s)} :: s < |mayUse| ==> Slack(s) == old(Slack(s))
    {
      if n == 0 {
        return 0;
      }
      if ok {
        AddBytes(i, n, true, n);
        return 0;
      }
      return ENOSPC;
    }

    /** btrfs_block_rsv_refill: afterwards the reserve holds at least n.  The delayed refs reserve has a
        refill of its own. */
    method Refill(i: nat, n: nat, ok: bool) returns (ret: int)
      requires Valid() && i < |rsvs| && i != DELAYED
      modifies this
      ensures Valid() && |mayUse| == |old(mayUse)| && |rsvs| == |old(rsvs)|
      ensures ret == 0 <==> n <= old(rsvs)[i].reserved || ok
      ensures ret == 0 ==> rsvs[i].reserved == if n <= old(rsvs)[i].reserved then old(rsvs)[i].reserved else n
      ensures ret != 0 ==> rsvs == old(rsvs)
      ensures forall s: nat {:trigger Slack(s)} :: s < |mayUse| ==> Slack(s) == old(Slack(s))
    {
      if n <= rsvs[i].reserved {
        return 0;
      }
      var more := n - rsvs[i].reserved;
      if ok {
        AddBytes(i, more, false, more);
        return 0;
      }
      return ENOSPC;
    }

    /** btrfs_block_rsv_migrate between reserves of one space */
    method Migrate(src: nat, dst: nat, n: nat, updateSize: bool) returns (ret: int)
      requires Valid() && src < |rsvs| && dst < |rsvs| && rsvs[src].space == rsvs[dst].space
      requires (dst == DELAYED ==> updateSize)
      modifies this
      ensures Valid() && |mayUse| == |old(mayUse)| && (ret == 0 <==> n <= old(rsvs)[src].reserved)
      ensures var mid := if ret == 0 then old(rsvs)[src := Used(old(rsvs)[src], n)] else old(rsvs);
              rsvs == if ret == 0 then mid[dst := Added(mid[dst], n, updateSize)] else old(rsvs)
      ensures forall s: nat {:trigger Slack(s)} :: s < |mayUse| ==> Slack(s) == old(Slack(s))
    {
      ret := UseBytes(src, n);
      if ret != 0 {
        return;
      }
      AddBytes(dst, n, updateSize, 0);
    }

    /** The target btrfs_block_rsv_release chooses, or the reserve itself for none. */
    function Target(i: nat): (d: nat)
      requires i < |rsvs| && |rsvs| > EMPTY
      reads this
      ensures d < |rsvs| && (d != i ==> d == GLOBAL || d == DELAYED)
    {
      var d := if rsvs[i].kind == DelRefs then GLOBAL else if i != GLOBAL && !rsvs[DELAYED].full then DELAYED else i;
      if rsvs[i].space != rsvs[d].space then i else d
    }

    /** btrfs_block_rsv_release: what the reserve lets go of goes to the target first, and what the target
        does not take leaves bytes_may_use. */
    method Release(i: nat, n: nat, qgroup: bool) returns (ret: nat, qgroupReleased: nat)
      requires Base() && i < |rsvs| && (i != DELAYED ==> Valid())
      modifies this
      ensures Valid() && |mayUse| == |old(mayUse)| && |rsvs| == |old(rsvs)|
      ensures rsvs[i] == Shrunk(old(rsvs)[i], n, qgroup) && ret == old(rsvs)[i].reserved - rsvs[i].reserved
      ensures qgroupReleased == old(rsvs)[i].qgroupReserved - rsvs[i].qgroupReserved
      ensures forall k :: 0 <= k < |rsvs| && k != i && k != old(Target(i)) ==> rsvs[k] == old(rsvs)[k]
      ensures old(Target(i)) != i && ret > 0 ==> rsvs[old(Target(i))] == Topped(old(rsvs)[old(Target(i))], ret)
      ensures old(Target(i)) != i && ret == 0 ==> rsvs[old(Target(i))] == old(rsvs)[old(Target(i))]
      ensures forall s: nat {:trigger Slack(s)} :: s < |mayUse| ==> Slack(s) == old(Slack(s))
    {
      var d, r := Target(i), Shrunk(rsvs[i], n, qgroup);
      ret, qgroupReleased := rsvs[i].reserved - r.reserved, rsvs[i].qgroupReserved - r.qgroupReserved;
      Set(i, r, 0);
      if ret > 0 {
        GiveAway(d, d != i, ret);
      }
    }

    method GiveAway(d: nat, hasTarget: bool, n: nat)
      requires Valid() && d < |rsvs| && Slack(rsvs[d].space) >= n && (hasTarget ==> d == GLOBAL || d == DELAYED)
      modifies this
      ensures Valid() && |mayUse| == |old(mayUse)|
      ensures rsvs == if hasTarget then old(rsvs)[d := Topped(old(rsvs)[d], n)] else old(rsvs)
      ensures forall s: nat {:trigger Slack(s)} :: s < |mayUse| ==>
              Slack(s) == old(Slack(s)) - if s == old(rsvs)[d].space then n else 0
    {
      var left := n;
      if hasTarget {
        left := n - Taken(rsvs[d], n);
        Set(d, Topped(rsvs[d], n), 0);
      }
      if left > 0 {
        FreeMayUse(rsvs[d].space, left);
      }
    }

    /** btrfs_space_info_free_bytes_may_use: clamped at zero with a warning, which Slack >= 0 rules out. */
    method FreeMayUse(space: nat, n: nat)
      requires space < |mayUse| && Slack(space) >= n
      modifies this`mayUse
      ensures |mayUse| == |old(mayUse)|
      ensures forall s: nat {:trigger Slack(s)} :: s < |mayUse| ==>
              Slack(s) == old(Slack(s)) - if s == space then n else 0
    {
      mayUse := mayUse[space := if mayUse[space] < n then 0 else mayUse[space] - n];
    }

    /** btrfs_update_global_block_rsv; num is what the sizes of the trees ask for. */
    method UpdateGlobal(num: nat)
      requires Valid()
      modifies this
      ensures Valid() && |mayUse| == |old(mayUse)|
      ensures var size := if num < SZ_512M then num else SZ_512M;
              rsvs == old(rsvs)[GLOBAL := old(rsvs)[GLOBAL].(size := size, reserved := size, full := true)]
      ensures forall s: nat {:trigger Slack(s)} :: s < |mayUse| ==> Slack(s) == old(Slack(s))
    {
      var g := rsvs[GLOBAL];
      var size := if num < SZ_512M then num else SZ_512M;
      SumAtLeast(rsvs, GLOBAL);
      assert Slack(g.space) >= 0;
      var bytes := 0;
      if g.reserved < size {
        bytes := size - g.reserved;
      } else if g.reserved > size {
        bytes := -(g.reserved - size);
      }
      Set(GLOBAL, g.(size := size, reserved := size, full := true), bytes);
    }

    /** btrfs_use_block_rsv.  noFlush and emergency say whether the two attempts to reserve fresh space
        succeed; num is as in UpdateGlobal.  On success the reserve to charge is returned. */
    method UseBlockRsv(i: nat, blocksize: nat, noFlush: bool, emergency: bool, num: nat)
        returns (ret: int, charged: nat)
      requires Valid() && i < |rsvs| && blocksize > 0
      modifies this
      ensures Valid() && |mayUse| == |old(mayUse)| && |rsvs| == |old(rsvs)| && (ret == 0 || ret == ENOSPC)
      ensures ret == 0 ==> (charged == i || charged == GLOBAL) && rsvs[charged].space == rsvs[i].space
      ensures forall s: nat {:trigger Slack(s)} :: s < |mayUse| ==>
                Slack(s) == old(Slack(s)) + if ret == 0 && s == rsvs[i].space then blocksize else 0
      ensures ret == ENOSPC <==> old(!CanUse(i, blocksize, noFlush, emergency, num))
      ensures ret == 0 && old(rsvs)[i].size > 0 && blocksize <= old(rsvs)[i].reserved ==>
              charged == i && mayUse == old(mayUse)
    {
      if rsvs[i].size != 0 {
        var globalUpdated := false;
        while true
          invariant Valid() && |mayUse| == |old(mayUse)| && |rsvs| == |old(rsvs)|
          invariant forall s: nat {:trigger Slack(s)} :: s < |mayUse| ==> Slack(s) == old(Slack(s))
          invariant !globalUpdated ==> rsvs == old(rsvs) && mayUse == old(mayUse)
          invariant globalUpdated ==> i == GLOBAL && !old(rsvs)[i].failfast && old(rsvs)[i].reserved < blocksize
          invariant globalUpdated ==> rsvs[GLOBAL].reserved == if num < SZ_512M then num else SZ_512M
          invariant rsvs[i].failfast == old(rsvs)[i].failfast && rsvs[i].space == old(rsvs)[i].space
          decreases !globalUpdated
        {
          ret := UseBytes(i, blocksize);
          if ret == 0 {
            return 0, i;
          }
          if rsvs[i].failfast {
            return ret, i;
          }
          if rsvs[i].kind == Global && !globalUpdated {
            globalUpdated := true;
            UpdateGlobal(num);
          } else {
            break;
          }
        }
      }
      ret, charged := TryReserve(i, blocksize, noFlush, emergency);
    }

    /** Fresh space first, then the global reserve, then fresh space again, harder. */
    method TryReserve(i: nat, blocksize: nat, noFlush: bool, emergency: bool) returns (ret: int, charged: nat)
      requires Valid() && i < |rsvs|
      modifies this
      ensures Valid() && |mayUse| == |old(mayUse)| && |rsvs| == |old(rsvs)| && (ret == 0 || ret == ENOSPC)
      ensures ret == 0 ==>
              (charged == i || charged == GLOBAL) && rsvs[charged].space == rsvs[i].space == old(rsvs)[i].space
      ensures ret == 0 <==>
              noFlush || emergency
              || (i != GLOBAL && old(rsvs)[i].space == old(rsvs)[GLOBAL].space
                  && blocksize <= old(rsvs)[GLOBAL].reserved)
      ensures forall s: nat {:trigger Slack(s)} :: s < |mayUse| ==>
                Slack(s) == old(Slack(s)) + if ret == 0 && s == old(rsvs)[i].space then blocksize else 0
    {
      if noFlush {
        Set(i, rsvs[i], blocksize);
        return 0, i;
      }
      if rsvs[i].kind != Global && rsvs[i].space == rsvs[GLOBAL].space {
        ret := UseBytes(GLOBAL, blocksize);
        if ret == 0 {
          return 0, GLOBAL;
        }
      }
      if emergency {
        Set(i, rsvs[i], blocksize);
        return 0, i;
      }
      return ENOSPC, i;
    }

    /** When a block can be charged at all. */
    ghost predicate CanUse(i: nat, blocksize: nat, noFlush: bool, emergency: bool, num: nat)
      requires i < |rsvs| && |rsvs| > EMPTY
      reads this
    {
      var size := if num < SZ_512M then num else SZ_512M;
      || (rsvs[i].size > 0
          && (blocksize <= rsvs[i].reserved || (i == GLOBAL && !rsvs[i].failfast && blocksize <= size)))
      || ((rsvs[i].size == 0 || !rsvs[i].failfast)
          && (noFlush || emergency
              || (i != GLOBAL && rsvs[i].space == rsvs[GLOBAL].space && blocksize <= rsvs[GLOBAL].reserved)))
    }

    /** btrfs_unuse_block_rsv: the bytes of an unused block go back the way they came. */
    method UnuseBlockRsv(i: nat, blocksize: nat)
      requires Valid() && i < |rsvs| && Slack(rsvs[i].space) >= blocksize
      modifies this
      ensures Valid() && |mayUse| == |old(mayUse)| && |rsvs| == |old(rsvs)|
      ensures forall s: nat {:trigger Slack(s)} :: s < |mayUse| ==>
              Slack(s) == old(Slack(s)) - if s == old(rsvs)[i].space then blocksize else 0
    {
      Set(i, Added(rsvs[i], blocksize, false), 0);
      var released, q := Release(i, 0, false);
    }

    /** btrfs_update_delayed_refs_rsv: the delayed refs reserve grows by num, backed by what the local
        reserve of the transaction handle can give. */
    method UpdateDelayedRefs(local: nat, num: nat)
      requires Valid() && DELAYED != local < |rsvs| && rsvs[local].space == rsvs[DELAYED].space
      modifies this
      ensures Valid() && |mayUse| == |old(mayUse)| && |rsvs| == |old(rsvs)|
      ensures rsvs == old(rsvs)[local := rsvs[local]][DELAYED := rsvs[DELAYED]]
      ensures rsvs[local].reserved + rsvs[DELAYED].reserved == old(rsvs)[local].reserved + old(rsvs)[DELAYED].reserved
      ensures rsvs[DELAYED].size == old(rsvs)[DELAYED].size + num && rsvs[local].size == old(rsvs)[local].size
      ensures num > 0 ==> (rsvs[DELAYED].full <==> rsvs[DELAYED].reserved >= rsvs[DELAYED].size)
      ensures forall s: nat {:trigger Slack(s)} :: s < |mayUse| ==> Slack(s) == old(Slack(s))
    {
      if num == 0 {
        return;
      }
      var l := rsvs[local];
      var bytes := if num < l.reserved then num else l.reserved;
      Set(local, l.(reserved := l.reserved - bytes, full := l.reserved - bytes >= l.size), 0);
      var d := rsvs[DELAYED];
      var size, reserved := d.size + num, d.reserved + bytes;
      Set(DELAYED, d.(size := size, reserved := reserved, full := reserved >= size), 0);
    }

    /** btrfs_inc_delayed_refs_rsv_bg_inserts and _updates: the flag is cleared whatever it was. */
    method GrowDelayed(num: nat)
      requires Valid()
      modifies this
      ensures Valid() && |mayUse| == |old(mayUse)|
      ensures rsvs == old(rsvs)[DELAYED := old(rsvs)[DELAYED].(size := old(rsvs)[DELAYED].size + num, full := false)]
      ensures forall s: nat {:trigger Slack(s)} :: s < |mayUse| ==> Slack(s) == old(Slack(s))
    {
      var d := rsvs[DELAYED];
      Set(DELAYED, d.(size := d.size + num, full := false), 0);
    }

    /** btrfs_delayed_refs_rsv_refill: towards its size by one item's worth; ok as in Add. */
    method RefillDelayed(limit: nat, ok: bool) returns (ret: int)
      requires Valid()
      modifies this
      ensures Valid() && |mayUse| == |old(mayUse)| && (ret == 0 || ret == ENOSPC)
      ensures ret == ENOSPC ==> rsvs == old(rsvs) && !ok
      ensures ret == 0 ==> rsvs == old(rsvs)[DELAYED := rsvs[DELAYED]] && rsvs[DELAYED].size == old(rsvs)[DELAYED].size
      ensures ret == 0 ==> rsvs[DELAYED].reserved == var d := old(rsvs)[DELAYED];
              if d.size - d.reserved < limit then d.size else d.reserved + limit
      ensures forall s: nat {:trigger Slack(s)} :: s < |mayUse| ==> Slack(s) == old(Slack(s))
    {
      var d := rsvs[DELAYED];
      var num := 0;
      if d.reserved < d.size {
        num := d.size - d.reserved;
        num := if num < limit then num else limit;
      }
      if num == 0 {
        return 0;
      }
      if !ok {
        return ENOSPC;
      }
      var needed := d.size - d.reserved;
      if num >= needed {
        Set(DELAYED, d.(reserved := d.reserved + needed, full := true), needed);
      } else {
        Set(DELAYED, d.(reserved := d.reserved + num), num);
      }
      return 0;
    }

    /** A caller sets the size of its own reserve outright, whatever it holds at the moment. */
    method SetSize(i: nat, size: nat, qgroupSize: nat, failfast: bool)
      requires Valid() && EMPTY < i < |rsvs|
      modifies this
      ensures Valid() && |mayUse| == |old(mayUse)|
      ensures rsvs == old(rsvs)[i := old(rsvs)[i].(size := size, qgroupSize := qgroupSize, failfast := failfast)]
      ensures forall s: nat {:trigger Slack(s)} :: s < |mayUse| ==> Slack(s) == old(Slack(s))
    {
      Set(i, rsvs[i].(size := size, qgroupSize := qgroupSize, failfast := failfast), 0);
    }

    /** btrfs_alloc_block_rsv and btrfs_init_metadata_block_rsv */
    method Alloc(kind: Kind, failfast: bool, space: nat) returns (i: nat)
      requires Valid() && kind != Global && space < |mayUse|
      modifies this`rsvs
      ensures Valid() && rsvs == old(rsvs) + [Rsv(0, 0, space, false, failfast, kind, 0, 0)] && i == |old(rsvs)|
      ensures forall s: nat {:trigger Slack(s)} :: s < |mayUse| ==> Slack(s) == old(Slack(s))
    {
      i := |rsvs|;
      var r := Rsv(0, 0, space, false, failfast, kind, 0, 0);
      forall s: nat
        ensures Sum(rsvs + [r], s) == Sum(rsvs, s)
      {
        assert (rsvs + [r])[..|rsvs|] == rsvs;
      }
      rsvs := rsvs + [r];
      assert forall s: nat {:trigger Slack(s)} :: s < |mayUse| ==> Slack(s) == old(Slack(s));
    }

    /** btrfs_free_block_rsv: nothing is left in it, so nothing is lost with it. */
    method Free(i: nat)
      requires Valid() && EMPTY < i < |rsvs|
      modifies this
      ensures Valid() && |mayUse| == |old(mayUse)| && |rsvs| == |old(rsvs)|
      ensures rsvs[i].size == 0 && rsvs[i].reserved == 0
      ensures forall s: nat {:trigger Slack(s)} :: s < |mayUse| ==> Slack(s) == old(Slack(s))
    {
      var ret, q := Release(i, ALL, false);
    }
  }
}
