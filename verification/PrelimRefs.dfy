/** Preliminary references of a backref walk: merged on insertion into search trees kept in descending order,
    with a running count of the references that are really there. */
module PrelimRefs {
  import opened Common

  const DATA_RELOC_TREE_OBJECTID := 0xffff_ffff_ffff_fff7

  /** What prelim_ref_compare compares. */
  datatype Id = Id(level: nat, rootId: nat, kind: nat, objectid: nat, offset: nat, parent: nat)

  /** struct prelim_ref; inodes is its inode_list. */
  datatype Ref = Ref(id: Id, count: int, inodes: seq<nat>, wantedDiskByte: nat)

  /** prelim_ref_compare */
  function Compare(a: Id, b: Id): int
  {
    if a.level < b.level then -1
    else if a.level > b.level then 1
    else if a.rootId < b.rootId then -1
    else if a.rootId > b.rootId then 1
    else if a.kind < b.kind then -1
    else if a.kind > b.kind then 1
    else if a.objectid < b.objectid then -1
    else if a.objectid > b.objectid then 1
    else if a.offset < b.offset then -1
    else if a.offset > b.offset then 1
    else if a.parent < b.parent then -1
    else if a.parent > b.parent then 1
    else 0
  }

  lemma {:induction false} CompareIsTotalOrder(a: Id, b: Id, c: Id)
    ensures Compare(a, b) == 0 <==> a == b
    ensures Compare(a, b) == -Compare(b, a)
    ensures Compare(a, b) < 0 && Compare(b, c) < 0 ==> Compare(a, c) < 0
  {
  }

  // ---------------------------------------------------------------------------------------------
  // The search tree

  datatype Tree = Nil | Node(left: Tree, ref: Ref, right: Tree)

  ghost function AsMap(t: Tree): map<Id, Ref>
  {
    match t
    case Nil => map[]
    case Node(l, r, x) => AsMap(l) + AsMap(x) + map[r.id := r]
  }

  /** Bigger references lie to the left: rb_find_add hands the comparison its arguments the other way round. */
  ghost predicate Ordered(t: Tree)
  {
    match t
    case Nil => true
    case Node(l, r, x) =>
      Ordered(l) && Ordered(x) && Above(AsMap(l), r.id) && Under(AsMap(x), r.id)
  }

  ghost predicate Above(m: map<Id, Ref>, e: Id)
  {
    forall i :: i in m ==> Compare(e, i) < 0
  }

  ghost predicate Under(m: map<Id, Ref>, e: Id)
  {
    forall i :: i in m ==> Compare(i, e) < 0
  }

  /** Identical references are merged: counts add up, inode lists are chained. */
  function Merged(have: Ref, more: Ref): Ref
  {
    have.(count := have.count + more.count, inodes := have.inodes + more.inodes)
  }

  /** rb_find_add_cached with prelim_ref_rb_add_cmp, and the merge. */
  function Inserted(t: Tree, r: Ref): Tree
  {
    match t
    case Nil => Node(Nil, r, Nil)
    case Node(l, e, x) =>
      var c := Compare(e.id, r.id);
      if c < 0 then Node(Inserted(l, r), e, x)
      else if c > 0 then Node(l, e, Inserted(x, r))
      else Node(l, Merged(e, r), x)
  }

  /** The entry for a reference once r has been inserted. */
  ghost function With(m: map<Id, Ref>, r: Ref): map<Id, Ref>
  {
    m[r.id := if r.id in m then Merged(m[r.id], r) else r]
  }

  lemma {:induction false} MapLeft(a: map<Id, Ref>, b: map<Id, Ref>, e: Ref, r: Ref)
    requires r.id !in b && r.id != e.id
    ensures With(a, r) + b + map[e.id := e] == With(a + b + map[e.id := e], r)
  {
  }

  lemma {:induction false} MapRight(a: map<Id, Ref>, b: map<Id, Ref>, e: Ref, r: Ref)
    requires r.id !in a && r.id != e.id
    ensures a + With(b, r) + map[e.id := e] == With(a + b + map[e.id := e], r)
  {
  }

  lemma {:induction false} BoundWith(m: map<Id, Ref>, e: Id, r: Ref)
    ensures Above(m, e) && Compare(e, r.id) < 0 ==> Above(With(m, r), e)
    ensures Under(m, e) && Compare(r.id, e) < 0 ==> Under(With(m, r), e)
    ensures Above(m, e) && Compare(r.id, e) <= 0 ==> r.id !in m
    ensures Under(m, e) && Compare(e, r.id) <= 0 ==> r.id !in m
  {
    CompareIsTotalOrder(e, r.id, e);
  }

  lemma {:induction false} MapHere(a: map<Id, Ref>, b: map<Id, Ref>, e: Ref, r: Ref)
    requires r.id == e.id
    ensures a + b + map[e.id := Merged(e, r)] == With(a + b + map[e.id := e], r)
  {
  }

  lemma {:induction false} InsertOk(t: Tree, r: Ref)
    requires Ordered(t)
    ensures Ordered(Inserted(t, r)) && AsMap(Inserted(t, r)) == With(AsMap(t), r)
  {
    if t.Node? {
      var l, e, x := t.left, t.ref, t.right;
      CompareIsTotalOrder(e.id, r.id, e.id);
      BoundWith(AsMap(l), e.id, r);
      BoundWith(AsMap(x), e.id, r);
      var c := Compare(e.id, r.id);
      if c < 0 {
        InsertOk(l, r);
        MapLeft(AsMap(l), AsMap(x), e, r);
      } else if c > 0 {
        InsertOk(x, r);
        MapRight(AsMap(l), AsMap(x), e, r);
      } else {
        MapHere(AsMap(l), AsMap(x), e, r);
      }
    }
  }

  /** What the tree says of one reference is found by descending: to the left if the reference here is
      smaller than the one looked for. */
  method Find(t: Tree, target: Id) returns (found: bool)
    requires Ordered(t)
    ensures found <==> target in AsMap(t)
  {
    var p := t;
    while p.Node?
      invariant Ordered(p) && (target in AsMap(p) <==> target in AsMap(t))
      decreases p
    {
      var result := Compare(p.ref.id, target);
      CompareIsTotalOrder(p.ref.id, target, target);
      if result < 0 {
        p := p.left;
      } else if result > 0 {
        p := p.right;
      } else {
        return true;
      }
    }
    return false;
  }

  // ---------------------------------------------------------------------------------------------
  // What the references inserted so far amount to

  function SumOf(refs: seq<Ref>, id: Id): int
  {
    if refs == [] then 0
    else SumOf(refs[..|refs| - 1], id) + if refs[|refs| - 1].id == id then refs[|refs| - 1].count else 0
  }

  function InodesOf(refs: seq<Ref>, id: Id): seq<nat>
  {
    if refs == [] then []
    else InodesOf(refs[..|refs| - 1], id) + if refs[|refs| - 1].id == id then refs[|refs| - 1].inodes else []
  }

  function Ids(refs: seq<Ref>): set<Id>
  {
    if refs == [] then {} else Ids(refs[..|refs| - 1]) + {refs[|refs| - 1].id}
  }

  /** The classes whose references outweigh the dropped ones. */
  function Positive(refs: seq<Ref>): set<Id>
  {
    set i | i in Ids(refs) && SumOf(refs, i) > 0
  }

  ghost predicate Says(m: map<Id, Ref>, refs: seq<Ref>, i: Id)
  {
    i in m ==> m[i].id == i && m[i].count == SumOf(refs, i) && m[i].inodes == InodesOf(refs, i)
  }

  /** The tree holds one entry per class, with the sum of the counts and the chain of the inode lists. */
  ghost predicate Holds(t: Tree, count: nat, refs: seq<Ref>)
  {
    Ordered(t) && MapHolds(AsMap(t), count, refs)
  }

  ghost predicate MapHolds(m: map<Id, Ref>, count: nat, refs: seq<Ref>)
  {
    m.Keys == Ids(refs) && count == |Ids(refs)| && forall i {:trigger Says(m, refs, i)} :: Says(m, refs, i)
  }

  lemma {:induction false} OneMore(refs: seq<Ref>, r: Ref, i: Id)
    ensures SumOf(refs + [r], i) == SumOf(refs, i) + if r.id == i then r.count else 0
    ensures InodesOf(refs + [r], i) == InodesOf(refs, i) + if r.id == i then r.inodes else []
    ensures Ids(refs + [r]) == Ids(refs) + {r.id}
  {
    assert (refs + [r])[..|refs|] == refs;
  }

  lemma {:induction false} NoneIsZero(refs: seq<Ref>, i: Id)
    requires i !in Ids(refs)
    ensures SumOf(refs, i) == 0 && InodesOf(refs, i) == []
  {
    if refs != [] {
      NoneIsZero(refs[..|refs| - 1], i);
    }
  }

  /** Inserting keeps the tree in step with the references. */
  lemma {:induction false} InsertHolds(t: Tree, count: nat, refs: seq<Ref>, r: Ref)
    requires Holds(t, count, refs)
    ensures Holds(Inserted(t, r), if r.id in AsMap(t) then count else count + 1, refs + [r])
    ensures r.id in AsMap(t) ==> AsMap(t)[r.id].count == SumOf(refs, r.id)
    ensures r.id !in AsMap(t) ==> SumOf(refs, r.id) == 0
  {
    InsertOk(t, r);
    MapInsert(AsMap(t), count, refs, r);
  }

  lemma {:induction false} MapInsert(m: map<Id, Ref>, count: nat, refs: seq<Ref>, r: Ref)
    requires MapHolds(m, count, refs)
    ensures MapHolds(With(m, r), if r.id in m then count else count + 1, refs + [r])
    ensures r.id in m ==> m[r.id].count == SumOf(refs, r.id)
    ensures r.id !in m ==> SumOf(refs, r.id) == 0
  {
    OneMore(refs, r, r.id);
    assert Says(m, refs, r.id);
    if r.id !in m {
      NoneIsZero(refs, r.id);
    }
    assert With(m, r).Keys == m.Keys + {r.id};
    var refs' := refs + [r];
    forall i
      ensures Says(With(m, r), refs', i)
    {
      assert Says(m, refs, i);
      SaysWith(m, refs, r, i);
    }
  }

  lemma {:induction false} SaysWith(m: map<Id, Ref>, refs: seq<Ref>, r: Ref, i: Id)
    requires Says(m, refs, i) && (r.id !in m ==> SumOf(refs, r.id) == 0 && InodesOf(refs, r.id) == [])
    ensures Says(With(m, r), refs + [r], i)
  {
    OneMore(refs, r, i);
    if i == r.id && i !in m {
      assert InodesOf(refs + [r], i) == [] + r.inodes;
    }
  }

  /** How one more reference moves the classes that count. */
  lemma {:induction false} PositiveStep(refs: seq<Ref>, r: Ref)
    ensures var was, now := SumOf(refs, r.id), SumOf(refs, r.id) + r.count;
            && (r.id in Positive(refs) <==> was > 0)
            && Positive(refs + [r]) == if now > 0 then Positive(refs) + {r.id} else Positive(refs) - {r.id}
  {
    OneMore(refs, r, r.id);
    if r.id !in Ids(refs) {
      NoneIsZero(refs, r.id);
    }
    forall i
      ensures i in Positive(refs + [r]) <==>
              (i in Ids(refs) || i == r.id) && SumOf(refs, i) + (if i == r.id then r.count else 0) > 0
    {
      OneMore(refs, r, i);
    }
  }

  // ---------------------------------------------------------------------------------------------
  // The walk

  /** preftrees->direct; indirect and indirect_missing_keys are trees 1 and 2. */
  const DIRECT := 0
  const FOUND_SHARED := 6

  /** The classes that count in all three trees together. */
  function Shared(refs: seq<seq<Ref>>): nat
  {
    if refs == [] then 0 else Shared(refs[..|refs| - 1]) + |Positive(refs[|refs| - 1])|
  }

  /** The step of share_count in update_share_count. */
  function ShareStep(was: int, now: int): int
  {
    if was == 0 && now < 1 then 0
    else if was > 0 && now < 1 then -1
    else if was < 1 && now > 0 then 1
    else 0
  }

  lemma {:induction false} ShareStepIsRight(refs: seq<Ref>, r: Ref)
    ensures |Positive(refs + [r])| == |Positive(refs)| + ShareStep(SumOf(refs, r.id), SumOf(refs, r.id) + r.count)
  {
    PositiveStep(refs, r);
    OneInOrOut(Positive(refs), r.id);
  }

  lemma {:induction false} OneInOrOut<T>(s: set<T>, x: T)
    ensures if x in s then s + {x} == s && |s - {x}| == |s| - 1 else |s + {x}| == |s| + 1 && s - {x} == s
  {
  }

  lemma {:induction false} SharedStep(refs: seq<seq<Ref>>, i: nat, r: Ref)
    requires i < |refs|
    ensures Shared(refs[i := refs[i] + [r]])
            == Shared(refs) + ShareStep(SumOf(refs[i], r.id), SumOf(refs[i], r.id) + r.count)
  {
    var n := |refs| - 1;
    if i < n {
      SharedStep(refs[..n], i, r);
      assert refs[i := refs[i] + [r]][..n] == refs[..n][i := refs[i] + [r]];
    } else {
      ShareStepIsRight(refs[i], r);
      assert refs[i := refs[i] + [r]][..n] == refs[..n];
    }
  }

  lemma {:induction false} Appended(refs: seq<seq<Ref>>, i: nat, r: Ref, was: int) returns (refs': seq<seq<Ref>>)
    requires i < |refs| && was == SumOf(refs[i], r.id)
    ensures refs' == refs[i := refs[i] + [r]] && Shared(refs') == Shared(refs) + ShareStep(was, was + r.count)
  {
    SharedStep(refs, i, r);
    refs' := refs[i := refs[i] + [r]];
  }

  lemma {:induction false} NothingHolds()
    ensures Holds(Nil, 0, [])
  {
    assert AsMap(Nil) == map[] && Ids([]) == {};
  }

  ghost predicate HoldsAt(trees: seq<Tree>, counts: seq<nat>, refs: seq<seq<Ref>>, k: nat)
  {
    k < |trees| && k < |counts| && k < |refs| && Holds(trees[k], counts[k], refs[k])
  }

  ghost predicate AllHold(trees: seq<Tree>, counts: seq<nat>, refs: seq<seq<Ref>>)
  {
    |trees| == |counts| == |refs| == 3 && forall k: nat {:trigger HoldsAt(trees, counts, refs, k)} :: k < 3 ==>
        HoldsAt(trees, counts, refs, k)
  }

  lemma {:induction false} OneChanged(trees: seq<Tree>, counts: seq<nat>, refs: seq<seq<Ref>>, i: nat, t: Tree,
          c: nat, rs: seq<Ref>)
    requires AllHold(trees, counts, refs) && i < 3 && Holds(t, c, rs)
    ensures AllHold(trees[i := t], counts[i := c], refs[i := rs])
  {
    var trees', counts', refs' := trees[i := t], counts[i := c], refs[i := rs];
    forall k: nat | k < 3
      ensures HoldsAt(trees', counts', refs', k)
    {
      assert HoldsAt(trees, counts, refs, k);
    }
  }

  /** One reference into one tree: the tree and its entry count afterwards, and what was there before. */
  method InsertInto(t: Tree, count: nat, r: Ref, ghost refs: seq<Ref>) returns (t': Tree, count': nat, was: int)
    requires Holds(t, count, refs)
    ensures Holds(t', count', refs + [r]) && was == SumOf(refs, r.id)
  {
    InsertHolds(t, count, refs, r);
    var found;
    found, was := Lookup(t, r.id);
    t', count' := Inserted(t, r), if found then count else count + 1;
  }

  method InsertAt(trees: seq<Tree>, counts: seq<nat>, i: nat, r: Ref, ghost refs: seq<seq<Ref>>)
      returns (trees': seq<Tree>, counts': seq<nat>, was: int)
    requires AllHold(trees, counts, refs) && i < 3
    ensures AllHold(trees', counts', refs[i := refs[i] + [r]]) && was == SumOf(refs[i], r.id)
  {
    assert HoldsAt(trees, counts, refs, i);
    var t, c;
    t, c, was := InsertInto(trees[i], counts[i], r, refs[i]);
    OneChanged(trees, counts, refs, i, t, c, refs[i] + [r]);
    trees', counts' := trees[i := t], counts[i := c];
  }

  /** Trees and share context of one find_parent_nodes. */
  class Walk {
    var trees: seq<Tree>
    var counts: seq<nat>
    /** is there a share context, and whose sharedness does it check */
    const checking: bool
    const root: nat
    const dataBytenr: nat
    const inum: nat
    var shareCount: int
    var selfRefCount: int
    ghost var refs: seq<seq<Ref>>

    ghost predicate Valid()
      reads this
    {
      && AllHold(trees, counts, refs)
      && (checking ==> shareCount == Shared(refs))
    }

    constructor (checking: bool, root: nat, dataBytenr: nat, inum: nat)
      ensures Valid() && refs == [[], [], []]
    {
      this.checking, this.root, this.dataBytenr, this.inum := checking, root, dataBytenr, inum;
      trees, counts, refs, shareCount, selfRefCount := [Nil, Nil, Nil], [0, 0, 0], [[], [], []], 0, 0;
      new;
      NothingHolds();
      assert forall k: nat :: k < 3 ==> HoldsAt(trees, counts, refs, k);
      assert Positive([]) == {};
      assert Shared([]) == 0 && Shared([[]]) == 0 && Shared([[], []]) == 0 && Shared([[], [], []]) == 0 by {
        var e: seq<seq<Ref>> := [[], [], []];
        assert [[]][..0] == e[..0] && [[], []][..1] == e[..1] && e[..2] == [[], []];
      }
    }

    /** prelim_ref_insert with update_share_count */
    method InsertRef(i: nat, r: Ref)
      requires Valid() && i < 3
      modifies this
      ensures Valid() && refs == old(refs)[i := old(refs)[i] + [r]]
      ensures selfRefCount == old(selfRefCount) + SelfStep(old(SumOf(refs[i], r.id)), r)
    {
      var was;
      ghost var before := refs;
      trees, counts, was := InsertAt(trees, counts, i, r, before);
      refs := Appended(before, i, r, was);
      UpdateShareCount(was, was + r.count, r);
    }

    /** What a reference adds to self_ref_count: its count, if it is the checked extent's own file's, and
        unless the class was at zero and does not rise above it. */
    function SelfStep(was: int, r: Ref): int
    {
      if checking && (was != 0 || r.count > 0) && r.id.rootId == root && r.wantedDiskByte == dataBytenr
          && r.id.objectid == inum
      then r.count else 0
    }

    method UpdateShareCount(was: int, now: int, r: Ref)
      modifies this`shareCount, this`selfRefCount
      ensures shareCount == old(shareCount) + if checking then ShareStep(was, now) else 0
      ensures now == was + r.count ==> selfRefCount == old(selfRefCount) + SelfStep(was, r)
    {
      if !checking || (was == 0 && now < 1) {
        return;
      }
      if was > 0 && now < 1 {
        shareCount := shareCount - 1;
      } else if was < 1 && now > 0 {
        shareCount := shareCount + 1;
      }
      if r.id.rootId == root && r.wantedDiskByte == dataBytenr && r.id.objectid == inum {
        selfRefCount := selfRefCount + r.count;
      }
    }

    /** add_prelim_ref: the answer says whether more than one class counts. */
    method AddPrelimRef(i: nat, r: Ref) returns (ret: int)
      requires Valid() && i < 3
      modifies this
      ensures Valid()
      ensures refs == if r.id.rootId == DATA_RELOC_TREE_OBJECTID then old(refs) else old(refs)[i := old(refs)[i] + [r]]
      ensures ret == if r.id.rootId != DATA_RELOC_TREE_OBJECTID && checking && Shared(refs) > 1 then FOUND_SHARED else 0
    {
      if r.id.rootId == DATA_RELOC_TREE_OBJECTID {
        return 0;
      }
      InsertRef(i, r);
      return if checking && shareCount > 1 then FOUND_SHARED else 0;
    }

    /** The rb-tree may rebalance: any other shape with the same contents in the same order will do. */
    method Rebalance(i: nat, shape: Tree)
      requires Valid() && i < 3 && Ordered(shape) && AsMap(shape) == AsMap(trees[i])
      modifies this`trees
      ensures Valid() && trees == old(trees)[i := shape]
    {
      assert HoldsAt(trees, counts, refs, i);
      OneChanged(trees, counts, refs, i, shape, counts[i], refs[i]);
      assert counts[i := counts[i]] == counts && refs[i := refs[i]] == refs;
      trees := trees[i := shape];
    }

    /** is_shared_data_backref: is there a direct reference from this parent. */
    method IsSharedDataBackref(bytenr: nat) returns (ret: int)
      requires Valid()
      ensures ret == 0 || ret == 1
      ensures ret == 1 <==> exists k :: 0 <= k < |refs[DIRECT]| && refs[DIRECT][k].id == Id(0, 0, 0, 0, 0, bytenr)
    {
      var target := Id(0, 0, 0, 0, 0, bytenr);
      assert HoldsAt(trees, counts, refs, DIRECT);
      var found := Find(trees[DIRECT], target);
      IdsAre(refs[DIRECT], target);
      return if found then 1 else 0;
    }
  }

  /** The count of an entry, 0 if there is none. */
  method Lookup(t: Tree, id: Id) returns (found: bool, count: int)
    requires Ordered(t)
    ensures found <==> id in AsMap(t)
    ensures found ==> count == AsMap(t)[id].count
    ensures !found ==> count == 0
  {
    var p := t;
    while p.Node?
      invariant Ordered(p) && (id in AsMap(p) <==> id in AsMap(t)) && (id in AsMap(p) ==> AsMap(p)[id] == AsMap(t)[id])
      decreases p
    {
      var result := Compare(p.ref.id, id);
      CompareIsTotalOrder(p.ref.id, id, id);
      if result < 0 {
        p := p.left;
      } else if result > 0 {
        p := p.right;
      } else {
        return true, p.ref.count;
      }
    }
    return false, 0;
  }

  lemma {:induction false} IdsAre(refs: seq<Ref>, id: Id)
    ensures id in Ids(refs) <==> exists k :: 0 <= k < |refs| && refs[k].id == id
  {
    if refs != [] {
      var n := |refs| - 1;
      IdsAre(refs[..n], id);
      if id in Ids(refs[..n]) {
        var k :| 0 <= k < n && refs[..n][k].id == id;
        assert refs[k].id == id;
      }
      if k :| 0 <= k < |refs| && refs[k].id == id && k < n {
        assert refs[..n][k].id == id;
      }
    }
  }

  // ---------------------------------------------------------------------------------------------
  // The order of insertion does not matter

  lemma {:induction false} SumWithout(refs: seq<Ref>, j: nat, id: Id)
    requires j < |refs|
    ensures SumOf(refs, id) == SumOf(Without(refs, j), id) + if refs[j].id == id then refs[j].count else 0
  {
    var n := |refs| - 1;
    WithoutLast(refs, j);
    if j < n {
      SumWithout(refs[..n], j, id);
    }
  }

  lemma {:induction false} TakenOut(refs: seq<Ref>, j: nat)
    requires j < |refs|
    ensures multiset(Without(refs, j)) == multiset(refs) - multiset{refs[j]}
  {
    assert refs == refs[..j] + [refs[j]] + refs[j + 1..];
    assert multiset(refs) == multiset(Without(refs, j)) + multiset{refs[j]};
  }

  lemma {:induction false} SumIsOfMultiset(a: seq<Ref>, b: seq<Ref>, id: Id)
    requires multiset(a) == multiset(b)
    ensures SumOf(a, id) == SumOf(b, id)
    decreases |a|
  {
    SameLength(a, b);
    if a != [] {
      var n := |a| - 1;
      assert a[n] in multiset(b);
      var j :| 0 <= j < |b| && b[j] == a[n];
      TakenOut(a, n);
      TakenOut(b, j);
      SumIsOfMultiset(Without(a, n), Without(b, j), id);
      SumWithout(a, n, id);
      SumWithout(b, j, id);
    }
  }

  lemma {:induction false} SameLength(a: seq<Ref>, b: seq<Ref>)
    requires multiset(a) == multiset(b)
    ensures |a| == |b|
  {
    assert |multiset(a)| == |a| && |multiset(b)| == |b|;
  }

  /** The same references in another order leave the same classes with the same counts. */
  lemma {:induction false} OrderIndependent(a: seq<Ref>, b: seq<Ref>, t: Tree, u: Tree, m: nat, n: nat)
    requires multiset(a) == multiset(b) && Holds(t, m, a) && Holds(u, n, b)
    ensures m == n && AsMap(t).Keys == AsMap(u).Keys && Positive(a) == Positive(b)
    ensures forall i :: i in AsMap(t) ==> AsMap(t)[i].count == AsMap(u)[i].count
  {
    SameIds(a, b);
    forall i | i in AsMap(t)
      ensures AsMap(t)[i].count == AsMap(u)[i].count
    {
      SumIsOfMultiset(a, b, i);
      assert Says(AsMap(t), a, i) && Says(AsMap(u), b, i);
    }
  }

  lemma {:induction false} SameIds(a: seq<Ref>, b: seq<Ref>)
    requires multiset(a) == multiset(b)
    ensures Ids(a) == Ids(b) && Positive(a) == Positive(b)
  {
    forall i
      ensures (i in Ids(a) <==> i in Ids(b)) && SumOf(a, i) == SumOf(b, i)
    {
      SumIsOfMultiset(a, b, i);
      IdsAre(a, i);
      IdsAre(b, i);
      SameMembers(a, b, i);
    }
  }

  lemma {:induction false} SameMembers(a: seq<Ref>, b: seq<Ref>, i: Id)
    requires multiset(a) == multiset(b)
    ensures (exists k :: 0 <= k < |a| && a[k].id == i) <==> (exists k :: 0 <= k < |b| && b[k].id == i)
  {
    if k :| 0 <= k < |a| && a[k].id == i {
      assert a[k] in multiset(b);
    }
    if k :| 0 <= k < |b| && b[k].id == i {
      assert b[k] in multiset(a);
    }
  }
}
