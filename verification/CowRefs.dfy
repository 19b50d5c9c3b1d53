/** Copy-on-write of tree blocks and the back references kept for them.

    Tree blocks and the data extents that leaves point at share one address space.  A block is
    allocated with its owner root and the running transaction id.  The extent tree records, for every
    extent, who refers to it: `ByRoot` is an implicit (keyed) reference, `ByParent` a full one. */
module CowRefs {
  type Addr = nat
  type RootId = nat

  datatype Ref = ByRoot(root: RootId) | ByParent(parent: Addr)

  /** header level, owner and generation, HEADER_FLAG_WRITTEN, block pointers, all other bytes */
  datatype Block = Block(level: nat, owner: RootId, gen: nat, written: bool, ptrs: seq<Addr>, payload: nat)

  /** root->node, root->commit_root, last_snapshot of the root item, BTRFS_ROOT_FORCE_COW */
  datatype Root = Root(node: Addr, commitRoot: Addr, lastSnapshot: nat, forceCow: bool)

  /** `blocks` keeps the bytes of freed blocks too; `live` are the allocated ones; `full` those flagged
      FULL_BACKREF; `held` the blocks a btrfs_path of root `cur` has brought in for modification. */
  datatype State = State(
    blocks: map<Addr, Block>,
    live: set<Addr>,
    full: set<Addr>,
    refs: map<Addr, multiset<Ref>>,
    roots: map<RootId, Root>,
    transid: nat,
    cur: RootId,
    held: set<Addr>)

  function RefsAt(refs: map<Addr, multiset<Ref>>, a: Addr): multiset<Ref>
  {
    if a in refs then refs[a] else multiset{}
  }

  function AddRef(refs: map<Addr, multiset<Ref>>, a: Addr, ref: Ref): map<Addr, multiset<Ref>>
  {
    refs[a := RefsAt(refs, a) + multiset{ref}]
  }

  function DropRef(refs: map<Addr, multiset<Ref>>, a: Addr, ref: Ref): map<Addr, multiset<Ref>>
  {
    refs[a := RefsAt(refs, a) - multiset{ref}]
  }

  /** btrfs_inc_ref: one reference more for every pointer in the block. */
  function IncRefs(refs: map<Addr, multiset<Ref>>, ptrs: seq<Addr>, ref: Ref): map<Addr, multiset<Ref>>
  {
    if ptrs == [] then refs else AddRef(IncRefs(refs, ptrs[..|ptrs| - 1], ref), ptrs[|ptrs| - 1], ref)
  }

  /** btrfs_dec_ref */
  function DecRefs(refs: map<Addr, multiset<Ref>>, ptrs: seq<Addr>, ref: Ref): map<Addr, multiset<Ref>>
  {
    if ptrs == [] then refs else DropRef(DecRefs(refs, ptrs[..|ptrs| - 1], ref), ptrs[|ptrs| - 1], ref)
  }

  /** The reference a pointer inside block h counts as. */
  function RefOf(blocks: map<Addr, Block>, full: set<Addr>, h: Addr): Ref
    requires h in blocks
  {
    if h in full then ByParent(h) else ByRoot(blocks[h].owner)
  }

  // ---------------------------------------------------------------------------------------------
  // Counting live pointers

  function Contrib(blocks: map<Addr, Block>, full: set<Addr>, h: Addr, a: Addr, ref: Ref): nat
    requires h in blocks
  {
    if RefOf(blocks, full, h) == ref then multiset(blocks[h].ptrs)[a] else 0
  }

  /** Pointers to a inside the blocks of S that count as ref. */
  ghost function Count(blocks: map<Addr, Block>, full: set<Addr>, S: set<Addr>, a: Addr, ref: Ref): nat
    requires S <= blocks.Keys
  {
    if S == {} then 0
    else
      var h :| h in S;
      Contrib(blocks, full, h, a, ref) + Count(blocks, full, S - {h}, a, ref)
  }

  lemma {:induction false} CountPick(blocks: map<Addr, Block>, full: set<Addr>, S: set<Addr>, a: Addr, ref: Ref,
          h: Addr)
    requires S <= blocks.Keys && h in S
    ensures Count(blocks, full, S, a, ref) == Contrib(blocks, full, h, a, ref) + Count(blocks, full, S - {h}, a, ref)
    decreases S
  {
    var k :| k in S && Count(blocks, full, S, a, ref)
        == Contrib(blocks, full, k, a, ref) + Count(blocks, full, S - {k}, a, ref);
    if k != h {
      CountPick(blocks, full, S - {k}, a, ref, h);
      CountPick(blocks, full, S - {h}, a, ref, k);
      assert S - {k} - {h} == S - {h} - {k};
    }
  }

  lemma {:induction false} CountSame(blocks: map<Addr, Block>, full: set<Addr>, blocks': map<Addr, Block>,
          full': set<Addr>,
                                     S: set<Addr>, a: Addr, ref: Ref)
    requires S <= blocks.Keys && S <= blocks'.Keys
    requires forall h :: h in S ==> Contrib(blocks, full, h, a, ref) == Contrib(blocks', full', h, a, ref)
    ensures Count(blocks, full, S, a, ref) == Count(blocks', full', S, a, ref)
    decreases S
  {
    if S != {} {
      var h :| h in S;
      CountPick(blocks, full, S, a, ref, h);
      CountPick(blocks', full', S, a, ref, h);
      CountSame(blocks, full, blocks', full', S - {h}, a, ref);
    }
  }

  /** References to extent a that live holders and tree roots justify. */
  ghost function Expected(s: State, a: Addr, ref: Ref): nat
    requires s.live <= s.blocks.Keys
  {
    Count(s.blocks, s.full, s.live, a, ref) + RootCount(s.roots, a, ref)
  }

  function RootCount(roots: map<RootId, Root>, a: Addr, ref: Ref): nat
  {
    if ref.ByRoot? && ref.root in roots && roots[ref.root].node == a then 1 else 0
  }

  // ---------------------------------------------------------------------------------------------
  // The code

  /** btrfs_block_can_be_shared, for a shareable root and outside relocation */
  predicate CanBeShared(s: State, r: RootId, b: Addr)
    requires r in s.roots && b in s.blocks
  {
    if b == s.roots[r].node then false
    else if s.blocks[b].gen > s.roots[r].lastSnapshot then false
    else if b != s.roots[r].commitRoot then true
    else s.blocks[b].gen == s.transid
  }

  /** should_cow_block, outside relocation */
  predicate ShouldCow(s: State, r: RootId, b: Addr)
    requires r in s.roots && b in s.blocks
  {
    s.blocks[b].gen != s.transid || s.blocks[b].written || s.roots[r].forceCow
  }

  datatype Update = Update(refs: map<Addr, multiset<Ref>>, full: set<Addr>, lastRef: bool)

  /** update_ref_for_cow: `buf` was copied into a block owned by r with the same pointers. */
  function UpdateRefForCow(s: State, r: RootId, buf: Addr): Update
    requires r in s.roots && buf in s.blocks
  {
    var shared := CanBeShared(s, r, buf);
    var refs := if shared then |RefsAt(s.refs, buf)| else 1;
    var isFull := shared && buf in s.full;
    var ptrs := s.blocks[buf].ptrs;
    if refs > 1 then
      if s.blocks[buf].owner == r && !isFull then
        Update(IncRefs(s.refs, ptrs, ByParent(buf)), s.full + {buf}, false)
      else
        Update(IncRefs(s.refs, ptrs, ByRoot(r)), s.full, false)
    else if isFull then
      Update(DecRefs(IncRefs(s.refs, ptrs, ByRoot(r)), ptrs, ByParent(buf)), s.full, true)
    else
      Update(s.refs, s.full, true)
  }

  /** btrfs_force_cow_block up to switching the pointer: allocate c for root r, copy, fix references,
      drop r's reference on buf. */
  function ForceCow(s: State, r: RootId, buf: Addr, c: Addr): State
    requires r in s.roots && buf in s.blocks
  {
    var copy := s.blocks[buf].(owner := r, gen := s.transid, written := false);
    var u := UpdateRefForCow(s, r, buf);
    s.(blocks := s.blocks[c := copy],
       live := if u.lastRef then s.live - {buf} + {c} else s.live + {c},
       full := if u.lastRef then u.full - {buf} else u.full,
       refs := AddRef(DropRef(u.refs, buf, ByRoot(r)), c, ByRoot(r)),
       held := s.held + {c})
  }

  function SetPtr(s: State, p: Addr, i: nat, c: Addr): State
    requires p in s.blocks && i < |s.blocks[p].ptrs|
  {
    s.(blocks := s.blocks[p := s.blocks[p].(ptrs := s.blocks[p].ptrs[i := c])])
  }

  function SetNode(s: State, r: RootId, c: Addr): State
    requires r in s.roots
  {
    s.(roots := s.roots[r := s.roots[r].(node := c)])
  }

  // ---------------------------------------------------------------------------------------------
  // The invariant

  ghost predicate Exact(s: State)
    requires s.live <= s.blocks.Keys
  {
    forall a, ref {:trigger Expected(s, a, ref)} :: RefsAt(s.refs, a)[ref] == Expected(s, a, ref)
  }

  /** A live block with implicit references is still referenced by its owner; and if it is younger than
      the owner's last snapshot nothing else refers to it. */
  ghost predicate BlockOk(s: State, b: Addr)
    requires b in s.blocks
  {
    var k := s.blocks[b];
    && k.owner in s.roots
    && (b !in s.full ==> ByRoot(k.owner) in RefsAt(s.refs, b))
    && (k.gen > s.roots[k.owner].lastSnapshot ==> b !in s.full && RefsAt(s.refs, b) == multiset{ByRoot(k.owner)})
  }

  /** A pointer from an implicitly referencing block into a block of another owner was there at the
      last snapshot of the holder's owner. */
  ghost predicate PtrOk(s: State, h: Addr, a: Addr)
    requires h in s.blocks && a in s.blocks
  {
    && s.blocks[a].level < s.blocks[h].level
    && s.blocks[a].gen <= s.blocks[h].gen
    && (h in s.live && h !in s.full && a in s.live && s.blocks[a].owner != s.blocks[h].owner ==>
          s.blocks[h].owner in s.roots && s.blocks[a].gen <= s.roots[s.blocks[h].owner].lastSnapshot)
  }

  /** The root block is the tree's alone.  A commit root that is no longer the root block has been copied and
      freed, unless the tree was created in the running transaction: then it may live on as an inner block. */
  ghost predicate RootOk(s: State, r: RootId)
    requires r in s.roots
  {
    var root := s.roots[r];
    && root.node in s.live && root.node in s.blocks && root.node !in s.full
    && s.blocks[root.node].owner == r
    && RefsAt(s.refs, root.node) == multiset{ByRoot(r)}
    && root.lastSnapshot <= s.transid
    && root.commitRoot in s.blocks
    && (root.commitRoot != root.node && root.commitRoot in s.live ==> s.blocks[root.commitRoot].gen == s.transid)
  }

  ghost predicate HeldOk(s: State, b: Addr)
  {
    && b in s.live && b in s.blocks && b !in s.full
    && s.blocks[b].owner == s.cur && s.blocks[b].gen == s.transid
    && RefsAt(s.refs, b) == multiset{ByRoot(s.cur)}
    && (forall h :: h in s.live && h in s.blocks && b in s.blocks[h].ptrs ==> h in s.held)
  }

  /** A snapshot made in the running transaction is not modified before the transaction commits. */
  predicate Usable(s: State, r: RootId)
  {
    r in s.roots && (s.roots[r].forceCow || s.roots[r].lastSnapshot < s.transid)
  }

  ghost predicate Shape(s: State)
  {
    && s.live <= s.blocks.Keys && s.full <= s.live
    && (forall b :: b in s.blocks ==> s.blocks[b].gen <= s.transid)
  }

  /** What holds of the file system, whatever the path holds. */
  ghost predicate CoreInv(s: State)
  {
    && Shape(s)
    && Exact(s)
    && (forall b {:trigger BlockOk(s, b)} :: b in s.live ==> BlockOk(s, b))
    && (forall h, a {:trigger PtrOk(s, h, a)} :: h in s.blocks && a in s.blocks[h].ptrs && a in s.blocks ==>
        PtrOk(s, h, a))
    && (forall r {:trigger RootOk(s, r)} :: r in s.roots ==> RootOk(s, r))
  }

  ghost predicate HeldInv(s: State)
  {
    && (s.held != {} ==> Usable(s, s.cur))
    && (forall b {:trigger HeldOk(s, b)} :: b in s.held ==> HeldOk(s, b))
  }

  ghost predicate Inv(s: State)
  {
    CoreInv(s) && HeldInv(s)
  }

  // ---------------------------------------------------------------------------------------------
  // Reference arithmetic

  lemma {:induction false} IncRefsAdds(refs: map<Addr, multiset<Ref>>, ptrs: seq<Addr>, ref: Ref, a: Addr, x: Ref)
    ensures RefsAt(IncRefs(refs, ptrs, ref), a)[x] == RefsAt(refs, a)[x] + (if x == ref then multiset(ptrs)[a] else 0)
  {
    if ptrs != [] {
      var init, last := ptrs[..|ptrs| - 1], ptrs[|ptrs| - 1];
      assert ptrs == init + [last];
      IncRefsAdds(refs, init, ref, a, x);
      var before := IncRefs(refs, init, ref);
      assert RefsAt(AddRef(before, last, ref), a)[x] == RefsAt(before, a)[x] + (if a == last && x == ref then 1 else 0);
    }
  }

  lemma {:induction false} DropRefAt(refs: map<Addr, multiset<Ref>>, b: Addr, ref: Ref, a: Addr, x: Ref)
    requires a == b ==> RefsAt(refs, a)[ref] >= 1
    ensures RefsAt(DropRef(refs, b, ref), a)[x] == RefsAt(refs, a)[x] - (if a == b && x == ref then 1 else 0)
  {
  }

  lemma {:induction false} DecRefsDrops(refs: map<Addr, multiset<Ref>>, ptrs: seq<Addr>, ref: Ref, a: Addr, x: Ref)
    requires RefsAt(refs, a)[ref] >= multiset(ptrs)[a]
    ensures RefsAt(DecRefs(refs, ptrs, ref), a)[x] == RefsAt(refs, a)[x] - (if x == ref then multiset(ptrs)[a] else 0)
  {
    if ptrs != [] {
      var init, last := ptrs[..|ptrs| - 1], ptrs[|ptrs| - 1];
      assert ptrs == init + [last];
      DecRefsDrops(refs, init, ref, a, x);
      DecRefsDrops(refs, init, ref, a, ref);
      DropRefAt(DecRefs(refs, init, ref), last, ref, a, x);
    }
  }

  /** A live pointer is recorded. */
  lemma {:induction false} PointerIsRecorded(s: State, h: Addr, a: Addr)
    requires Shape(s) && Exact(s) && h in s.live && a in s.blocks[h].ptrs
    ensures RefOf(s.blocks, s.full, h) in RefsAt(s.refs, a)
  {
    var ref := RefOf(s.blocks, s.full, h);
    CountPick(s.blocks, s.full, s.live, a, ref, h);
    assert RefsAt(s.refs, a)[ref] == Expected(s, a, ref);
  }

  lemma {:induction false} SingletonMember<T>(m: multiset<T>, x: T, y: T)
    requires |m| == 1 && x in m && y in m
    ensures x == y && m == multiset{x}
  {
    assert m == m - multiset{x} + multiset{x};
    assert |m - multiset{x}| == 0;
    assert m - multiset{x} == multiset{};
  }

  /** The shortcut in update_ref_for_cow is sound: a block of the path for which the extent tree is not
      consulted has exactly one reference and implicit back references. */
  lemma {:induction false} NotSharedIsExclusive(s: State, p: Addr, buf: Addr)
    requires Inv(s) && p in s.held && p in s.blocks && buf in s.blocks[p].ptrs && buf in s.live
    requires !CanBeShared(s, s.cur, buf)
    ensures RefsAt(s.refs, buf) == multiset{ByRoot(s.cur)} && buf !in s.full && s.blocks[buf].owner == s.cur
  {
    assert HeldOk(s, p) && RootOk(s, s.cur) && BlockOk(s, buf) && PtrOk(s, p, buf);
    PointerIsRecorded(s, p, buf);
  }

  /** An address the allocator may hand out: never used before. */
  ghost predicate Unused(s: State, c: Addr)
  {
    c !in s.blocks && c !in s.live && RefsAt(s.refs, c) == multiset{} && forall h :: h in s.blocks ==>
        c !in s.blocks[h].ptrs
  }

  /** The child at slot i of a held block p can be brought into the path. */
  ghost predicate ChildReady(s: State, p: Addr, i: nat, c: Addr)
  {
    && p in s.held && p in s.blocks && i < |s.blocks[p].ptrs|
    && s.blocks[p].ptrs[i] in s.live && s.blocks[p].ptrs[i] in s.blocks && s.blocks[p].ptrs[i] !in s.held
    && Unused(s, c) && s.cur in s.roots
  }

  function CowChild(s: State, p: Addr, i: nat, c: Addr): State
    requires p in s.blocks && i < |s.blocks[p].ptrs| && s.blocks[p].ptrs[i] in s.blocks && s.cur in s.roots
    requires c !in s.blocks
  {
    SetPtr(ForceCow(s, s.cur, s.blocks[p].ptrs[i], c), p, i, c)
  }

  /** What the lookup of the path's block returns: at least one reference, and the right flags. */
  lemma {:induction false} LookupIsTrue(s: State, p: Addr, buf: Addr)
    requires Inv(s) && p in s.held && p in s.blocks && buf in s.blocks[p].ptrs && buf in s.live && s.cur in s.roots
    ensures ByRoot(s.cur) in RefsAt(s.refs, buf) && p != buf && p !in s.full && s.blocks[p].owner == s.cur
    ensures !CanBeShared(s, s.cur, buf) ==> RefsAt(s.refs, buf) == multiset{ByRoot(s.cur)} && buf !in s.full
    ensures |RefsAt(s.refs, buf)| <= 1 && buf !in s.full ==> s.blocks[buf].owner == s.cur
    ensures |RefsAt(s.refs, buf)| <= 1 ==> RefsAt(s.refs, buf) == multiset{ByRoot(s.cur)}
  {
    assert HeldOk(s, p) && BlockOk(s, buf) && PtrOk(s, p, buf);
    PointerIsRecorded(s, p, buf);
    if !CanBeShared(s, s.cur, buf) {
      NotSharedIsExclusive(s, p, buf);
    }
    var m := RefsAt(s.refs, buf);
    if |m| <= 1 {
      assert m[ByRoot(s.cur)] >= 1;
      assert |m| == 1;
      SingletonMember(m, ByRoot(s.cur), ByRoot(s.cur));
    }
  }

  lemma {:induction false} CowCountsAt(s: State, p: Addr, i: nat, c: Addr, a: Addr, ref: Ref)
    requires Inv(s) && ChildReady(s, p, i, c)
    ensures var s' := CowChild(s, p, i, c); var buf := s.blocks[p].ptrs[i];
            s'.live <= s'.blocks.Keys &&
            Count(s'.blocks, s'.full, s'.live, a, ref) ==
              Count(s.blocks, s.full, s.live, a, ref) - Contrib(s.blocks, s.full, p, a, ref)
                  - Contrib(s.blocks, s.full, buf, a, ref)
              + Contrib(s'.blocks, s'.full, p, a, ref) + Contrib(s'.blocks, s'.full, c, a, ref)
              + (if buf in s'.live then Contrib(s'.blocks, s'.full, buf, a, ref) else 0)
  {
    var s', buf := CowChild(s, p, i, c), s.blocks[p].ptrs[i];
    var rest := s.live - {p} - {buf};
    LookupIsTrue(s, p, buf);
    assert HeldOk(s, p);
    CowRest(s, p, i, c, a, ref);
    CountPick(s.blocks, s.full, s.live, a, ref, p);
    CountPick(s.blocks, s.full, s.live - {p}, a, ref, buf);
    CountThree(s'.blocks, s'.full, s'.live, rest, p, c, buf, a, ref);
    CountSame(s.blocks, s.full, s'.blocks, s'.full, rest, a, ref);
  }

  /** What a COW does not touch. */
  lemma {:induction false} CowRest(s: State, p: Addr, i: nat, c: Addr, a: Addr, ref: Ref)
    requires Shape(s) && ChildReady(s, p, i, c) && p in s.live && p != s.blocks[p].ptrs[i]
    ensures var s', buf := CowChild(s, p, i, c), s.blocks[p].ptrs[i];
            var rest := s.live - {p} - {buf};
            && s'.live <= s'.blocks.Keys && s'.live == rest + {p, c} + (if buf in s'.live then {buf} else {})
            && forall h :: h in rest ==> Contrib(s.blocks, s.full, h, a, ref) == Contrib(s'.blocks, s'.full, h, a, ref)
  {
    var s', buf := CowChild(s, p, i, c), s.blocks[p].ptrs[i];
    assert s'.blocks.Keys == s.blocks.Keys + {c};
    forall h | h in s.live - {p} - {buf}
      ensures s'.blocks[h] == s.blocks[h] && (h in s'.full <==> h in s.full)
    {
    }
  }

  lemma {:induction false} CountThree(blocks: map<Addr, Block>, full: set<Addr>, live: set<Addr>, rest: set<Addr>,
          p: Addr, c: Addr, buf: Addr, a: Addr, ref: Ref)
    requires live <= blocks.Keys && p != c && p != buf && c != buf && p !in rest && c !in rest && buf !in rest
    requires live == rest + {p, c} + (if buf in live then {buf} else {})
    ensures rest <= blocks.Keys
    ensures Count(blocks, full, live, a, ref)
            == Count(blocks, full, rest, a, ref) + Contrib(blocks, full, p, a, ref) + Contrib(blocks, full, c, a, ref)
               + if buf in live then Contrib(blocks, full, buf, a, ref) else 0
  {
    CountPick(blocks, full, live, a, ref, p);
    CountPick(blocks, full, live - {p}, a, ref, c);
    if buf in live {
      CountPick(blocks, full, live - {p} - {c}, a, ref, buf);
      assert live - {p} - {c} - {buf} == rest;
    } else {
      assert live - {p} - {c} == rest;
    }
  }

  lemma {:induction false} SetPtrCount(ptrs: seq<Addr>, i: nat, c: Addr, a: Addr)
    requires i < |ptrs|
    ensures multiset(ptrs[i := c])[a] == multiset(ptrs)[a] - (if a == ptrs[i] then 1 else 0) + (if a == c then 1 else 0)
  {
    assert ptrs == ptrs[..i] + [ptrs[i]] + ptrs[i + 1..];
    assert ptrs[i := c] == ptrs[..i] + [c] + ptrs[i + 1..];
  }

  /** The references update_ref_for_cow leaves, against those the four kinds of pointers it is about
      now justify. */
  lemma {:induction false} UpdateCounts(s: State, p: Addr, buf: Addr, a: Addr, ref: Ref)
    requires Inv(s) && p in s.held && p in s.blocks && buf in s.blocks[p].ptrs && buf in s.live && s.cur in s.roots
    ensures var u := UpdateRefForCow(s, s.cur, buf); var n := multiset(s.blocks[buf].ptrs)[a];
            RefsAt(u.refs, a)[ref] == RefsAt(s.refs, a)[ref]
              - Contrib(s.blocks, s.full, buf, a, ref)
              + (if ref == ByRoot(s.cur) then n else 0)
              + (if !u.lastRef && RefOf(s.blocks, u.full, buf) == ref then n else 0)
  {
    var u := UpdateRefForCow(s, s.cur, buf);
    var ptrs := s.blocks[buf].ptrs;
    LookupIsTrue(s, p, buf);
    IncRefsAdds(s.refs, ptrs, ByParent(buf), a, ref);
    IncRefsAdds(s.refs, ptrs, ByRoot(s.cur), a, ref);
    if buf in s.full {
      CountPick(s.blocks, s.full, s.live, a, ByParent(buf), buf);
      assert RefsAt(s.refs, a)[ByParent(buf)] == Expected(s, a, ByParent(buf));
      IncRefsAdds(s.refs, ptrs, ByRoot(s.cur), a, ByParent(buf));
      DecRefsDrops(IncRefs(s.refs, ptrs, ByRoot(s.cur)), ptrs, ByParent(buf), a, ref);
    }
  }

  function One(b: bool): int { if b then 1 else 0 }

  /** The references recorded after the copy took over buf's place under p. */
  lemma {:induction false} CowRefCount(s: State, p: Addr, i: nat, c: Addr, a: Addr, ref: Ref)
    requires Inv(s) && ChildReady(s, p, i, c)
    ensures var buf := s.blocks[p].ptrs[i]; var n := multiset(s.blocks[buf].ptrs)[a];
            var u := UpdateRefForCow(s, s.cur, buf);
            RefsAt(CowChild(s, p, i, c).refs, a)[ref] ==
              RefsAt(s.refs, a)[ref] - Contrib(s.blocks, s.full, buf, a, ref)
              + (if ref == ByRoot(s.cur) then n + One(a == c) - One(a == buf) else 0)
              + (if !u.lastRef && RefOf(s.blocks, u.full, buf) == ref then n else 0)
  {
    var buf := s.blocks[p].ptrs[i];
    var u := UpdateRefForCow(s, s.cur, buf);
    LookupIsTrue(s, p, buf);
    UpdateCounts(s, p, buf, a, ref);
    UpdateCounts(s, p, buf, buf, ByRoot(s.cur));
    assert buf !in s.blocks[buf].ptrs by { assert buf in s.blocks[buf].ptrs ==> PtrOk(s, buf, buf); }
  }

  lemma {:induction false} CowExactAt(s: State, p: Addr, i: nat, c: Addr, a: Addr, ref: Ref)
    requires Inv(s) && ChildReady(s, p, i, c)
    ensures var s' := CowChild(s, p, i, c); s'.live <= s'.blocks.Keys && RefsAt(s'.refs, a)[ref] == Expected(s', a, ref)
  {
    LookupIsTrue(s, p, s.blocks[p].ptrs[i]);
    CowRefCount(s, p, i, c, a, ref);
    CowCountsAt(s, p, i, c, a, ref);
    SetPtrCount(s.blocks[p].ptrs, i, c, a);
    assert RefsAt(s.refs, a)[ref] == Expected(s, a, ref);
  }

  /** Blocks that only one root refers to are referenced through one pointer of that root. */
  lemma {:induction false} SoleHolder(s: State, a: Addr, r: RootId, h: Addr, k: Addr)
    requires Shape(s) && Exact(s) && RefsAt(s.refs, a) == multiset{ByRoot(r)}
    requires h in s.live && a in s.blocks[h].ptrs && k in s.live && a in s.blocks[k].ptrs
    ensures h == k && RefOf(s.blocks, s.full, h) == ByRoot(r) && RootCount(s.roots, a, ByRoot(r)) == 0
  {
    PointerIsRecorded(s, h, a);
    PointerIsRecorded(s, k, a);
    assert RefsAt(s.refs, a)[ByRoot(r)] == Expected(s, a, ByRoot(r));
    CountPick(s.blocks, s.full, s.live, a, ByRoot(r), h);
    if h != k {
      CountPick(s.blocks, s.full, s.live - {h}, a, ByRoot(r), k);
    }
  }

  /** References of a block after the COW of buf: only buf, the copy and buf's children are touched. */
  lemma {:induction false} CowRefsAt(s: State, p: Addr, i: nat, c: Addr, a: Addr)
    requires Inv(s) && ChildReady(s, p, i, c)
    ensures var s' := CowChild(s, p, i, c); var buf := s.blocks[p].ptrs[i];
            && (a == c ==> RefsAt(s'.refs, a) == multiset{ByRoot(s.cur)})
            && (a == buf ==> forall x :: x != ByRoot(s.cur) ==> RefsAt(s'.refs, a)[x] == RefsAt(s.refs, a)[x])
            && (a != c && a != buf && a !in s.blocks[buf].ptrs ==> RefsAt(s'.refs, a) == RefsAt(s.refs, a))
  {
    var s' := CowChild(s, p, i, c);
    var buf := s.blocks[p].ptrs[i];
    forall x
      ensures a == c || a !in s.blocks[buf].ptrs ==>
        RefsAt(s'.refs, a)[x] == RefsAt(s.refs, a)[x] + (if x == ByRoot(s.cur) then One(a == c) - One(a == buf) else 0)
      ensures (a == c ==> RefsAt(s.refs, a)[x] == 0) && (a == buf ==> a != c && a !in s.blocks[buf].ptrs)
    {
      CowRefAt(s, p, i, c, a, x);
    }
  }

  /** Implicit references of all other blocks never decrease. */
  lemma {:induction false} CowRefsGrow(s: State, p: Addr, i: nat, c: Addr, a: Addr)
    requires Inv(s) && ChildReady(s, p, i, c) && a != c && a != s.blocks[p].ptrs[i]
    ensures forall r: RootId :: RefsAt(CowChild(s, p, i, c).refs, a)[ByRoot(r)] >= RefsAt(s.refs, a)[ByRoot(r)]
  {
    forall r: RootId
      ensures RefsAt(CowChild(s, p, i, c).refs, a)[ByRoot(r)] >= RefsAt(s.refs, a)[ByRoot(r)]
    {
      CowRefAt(s, p, i, c, a, ByRoot(r));
    }
  }

  lemma {:induction false} CowRefAt(s: State, p: Addr, i: nat, c: Addr, a: Addr, x: Ref)
    requires Inv(s) && ChildReady(s, p, i, c)
    ensures var s', buf := CowChild(s, p, i, c), s.blocks[p].ptrs[i];
            && (a == c || a !in s.blocks[buf].ptrs ==>
                  RefsAt(s'.refs, a)[x]
                      == RefsAt(s.refs, a)[x] + (if x == ByRoot(s.cur) then One(a == c) - One(a == buf) else 0))
            && (x.ByRoot? && a != buf ==> RefsAt(s'.refs, a)[x] >= RefsAt(s.refs, a)[x])
            && (a == c ==> RefsAt(s.refs, a)[x] == 0) && (a == buf ==> a != c && a !in s.blocks[buf].ptrs)
  {
    var buf := s.blocks[p].ptrs[i];
    LookupIsTrue(s, p, buf);
    assert buf !in s.blocks[buf].ptrs by { assert buf in s.blocks[buf].ptrs ==> PtrOk(s, buf, buf); }
    CowRefCount(s, p, i, c, a, x);
  }

  /** A child of buf that only its owner refers to makes buf a block that only the path refers to. */
  lemma {:induction false} YoungChild(s: State, p: Addr, buf: Addr, a: Addr)
    requires Inv(s) && p in s.held && p in s.blocks && buf in s.blocks[p].ptrs && buf in s.live && s.cur in s.roots
    requires a in s.blocks[buf].ptrs && a in s.live && BlockOk(s, a)
    requires s.blocks[a].gen > s.roots[s.blocks[a].owner].lastSnapshot
    ensures RefsAt(s.refs, buf) == multiset{ByRoot(s.cur)} && buf !in s.full && s.blocks[buf].owner == s.cur
  {
    LookupIsTrue(s, p, buf);
    PointerIsRecorded(s, buf, a);
    assert PtrOk(s, buf, a) && BlockOk(s, buf);
  }

  lemma {:induction false} CowKeepsBlocks(s: State, p: Addr, i: nat, c: Addr, b: Addr)
    requires Inv(s) && ChildReady(s, p, i, c)
    requires b in CowChild(s, p, i, c).live
    ensures b in CowChild(s, p, i, c).blocks && BlockOk(CowChild(s, p, i, c), b)
  {
    if b == c || b == s.blocks[p].ptrs[i] {
      CowKeepsPair(s, p, i, c, b);
    } else {
      CowKeepsOther(s, p, i, c, b);
    }
  }

  /** The block copied, if it lives on, and the copy. */
  lemma {:induction false} CowKeepsPair(s: State, p: Addr, i: nat, c: Addr, b: Addr)
    requires Inv(s) && ChildReady(s, p, i, c) && (b == c || b == s.blocks[p].ptrs[i])
    requires b in CowChild(s, p, i, c).live
    ensures b in CowChild(s, p, i, c).blocks && BlockOk(CowChild(s, p, i, c), b)
  {
    LookupIsTrue(s, p, s.blocks[p].ptrs[i]);
    CowRefsAt(s, p, i, c, b);
    assert b != c ==> BlockOk(s, b);
  }

  lemma {:induction false} CowKeepsOther(s: State, p: Addr, i: nat, c: Addr, b: Addr)
    requires Inv(s) && ChildReady(s, p, i, c) && b in s.live && b != c && b != s.blocks[p].ptrs[i]
    ensures b in CowChild(s, p, i, c).blocks && BlockOk(CowChild(s, p, i, c), b)
  {
    assert BlockOk(s, b);
    CowRefsGrow(s, p, i, c, b);
    CowKeepsYoung(s, p, i, c, b);
  }

  /** A block younger than its owner's last snapshot keeps its one reference when another block is copied. */
  lemma {:induction false} CowKeepsYoung(s: State, p: Addr, i: nat, c: Addr, b: Addr)
    requires Inv(s) && ChildReady(s, p, i, c) && b in s.live && b != c && b != s.blocks[p].ptrs[i] && BlockOk(s, b)
    ensures s.blocks[b].gen > s.roots[s.blocks[b].owner].lastSnapshot ==>
              RefsAt(CowChild(s, p, i, c).refs, b) == RefsAt(s.refs, b)
  {
    var buf := s.blocks[p].ptrs[i];
    LookupIsTrue(s, p, buf);
    CowRefsAt(s, p, i, c, b);
    if b in s.blocks[buf].ptrs && s.blocks[b].gen > s.roots[s.blocks[b].owner].lastSnapshot {
      YoungChild(s, p, buf, b);
      assert PtrOk(s, buf, b);
      assert UpdateRefForCow(s, s.cur, buf).refs == s.refs;
    }
  }

  lemma {:induction false} CowKeepsPtrs(s: State, p: Addr, i: nat, c: Addr, h: Addr, a: Addr)
    requires Inv(s) && ChildReady(s, p, i, c)
    requires var s' := CowChild(s, p, i, c); h in s'.blocks && a in s'.blocks[h].ptrs && a in s'.blocks
    ensures PtrOk(CowChild(s, p, i, c), h, a)
  {
    var s' := CowChild(s, p, i, c);
    var buf := s.blocks[p].ptrs[i];
    LookupIsTrue(s, p, buf);
    assert HeldOk(s, p) && PtrOk(s, p, buf) && BlockOk(s, buf);
    if h == c {
      assert PtrOk(s, buf, a);
    } else if a != c {
      assert a in s.blocks[h].ptrs;
      assert PtrOk(s, h, a);
    }
  }

  /** Nothing points at the root block of a tree. */
  lemma {:induction false} NobodyPointsAtNode(s: State, r: RootId, h: Addr)
    requires Inv(s) && r in s.roots && h in s.live
    ensures s.roots[r].node !in s.blocks[h].ptrs
  {
    assert RootOk(s, r);
    if s.roots[r].node in s.blocks[h].ptrs {
      SoleHolder(s, s.roots[r].node, r, h, h);
    }
  }

  lemma {:induction false} CowKeepsRoots(s: State, p: Addr, i: nat, c: Addr, r: RootId)
    requires Inv(s) && ChildReady(s, p, i, c) && r in s.roots
    ensures RootOk(CowChild(s, p, i, c), r)
  {
    var buf := s.blocks[p].ptrs[i];
    LookupIsTrue(s, p, buf);
    assert RootOk(s, r) && HeldOk(s, p);
    NobodyPointsAtNode(s, r, p);
    NobodyPointsAtNode(s, r, buf);
    CowRefsAt(s, p, i, c, s.roots[r].node);
  }

  lemma {:induction false} CowKeepsHeld(s: State, p: Addr, i: nat, c: Addr, b: Addr)
    requires Inv(s) && ChildReady(s, p, i, c)
    requires b in s.held || b == c
    ensures HeldOk(CowChild(s, p, i, c), b)
  {
    var s' := CowChild(s, p, i, c);
    var buf := s.blocks[p].ptrs[i];
    LookupIsTrue(s, p, buf);
    CowRefsAt(s, p, i, c, b);
    assert PtrOk(s, p, buf) && HeldOk(s, p);
    if b != c {
      assert HeldOk(s, b);
      forall h | h in s'.live && h in s'.blocks && b in s'.blocks[h].ptrs
        ensures h in s'.held
      {
        assert h != c;
        assert b in s.blocks[h].ptrs;
      }
    }
  }

  lemma {:induction false} CowKeepsShape(s: State, p: Addr, i: nat, c: Addr)
    requires Inv(s) && ChildReady(s, p, i, c)
    ensures var s' := CowChild(s, p, i, c);
            Shape(s') && s'.roots == s.roots && s'.transid == s.transid && s'.cur == s.cur && s'.held == s.held + {c}
  {
    LookupIsTrue(s, p, s.blocks[p].ptrs[i]);
    assert HeldOk(s, p);
  }

  lemma {:induction false} CowKeepsHeldInv(s: State, p: Addr, i: nat, c: Addr)
    requires Inv(s) && ChildReady(s, p, i, c)
    ensures HeldInv(CowChild(s, p, i, c))
  {
    var s' := CowChild(s, p, i, c);
    CowKeepsShape(s, p, i, c);
    forall b | b in s'.held
      ensures HeldOk(s', b)
    {
      CowKeepsHeld(s, p, i, c, b);
    }
  }

  /** btrfs_cow_block of a child of the path keeps the references of every extent exact. */
  lemma {:induction false} CowChildKeepsInv(s: State, p: Addr, i: nat, c: Addr)
    requires Inv(s) && ChildReady(s, p, i, c)
    ensures Inv(CowChild(s, p, i, c))
  {
    var s' := CowChild(s, p, i, c);
    CowKeepsShape(s, p, i, c);
    CowKeepsHeldInv(s, p, i, c);
    forall a, ref
      ensures RefsAt(s'.refs, a)[ref] == Expected(s', a, ref)
    {
      CowExactAt(s, p, i, c, a, ref);
    }
    forall b | b in s'.live
      ensures BlockOk(s', b)
    {
      CowKeepsBlocks(s, p, i, c, b);
    }
    forall h, a | h in s'.blocks && a in s'.blocks[h].ptrs && a in s'.blocks
      ensures PtrOk(s', h, a)
    {
      CowKeepsPtrs(s, p, i, c, h, a);
    }
    forall r | r in s'.roots
      ensures RootOk(s', r)
    {
      CowKeepsRoots(s, p, i, c, r);
    }
  }

  // ---------------------------------------------------------------------------------------------
  // Starting a path at the root, and blocks that need no COW

  function CowRoot(s: State, c: Addr): State
    requires s.cur in s.roots && s.roots[s.cur].node in s.blocks
  {
    SetNode(ForceCow(s, s.cur, s.roots[s.cur].node, c), s.cur, c)
  }

  lemma {:induction false} CowRootExactAt(s: State, c: Addr, a: Addr, ref: Ref)
    requires Inv(s) && s.held == {} && Usable(s, s.cur) && Unused(s, c) && RootOk(s, s.cur)
    ensures var s' := CowRoot(s, c); s'.live <= s'.blocks.Keys && RefsAt(s'.refs, a)[ref] == Expected(s', a, ref)
  {
    var s' := CowRoot(s, c);
    var node := s.roots[s.cur].node;
    CountPick(s.blocks, s.full, s.live, a, ref, node);
    CountPick(s'.blocks, s'.full, s'.live, a, ref, c);
    assert s'.live - {c} == s.live - {node};
    CountSame(s.blocks, s.full, s'.blocks, s'.full, s.live - {node}, a, ref);
    assert RefsAt(s.refs, a)[ref] == Expected(s, a, ref);
    CowRootRefs(s, c, a, ref);
    NewNodeCount(s.roots, s.cur, c, a, ref);
  }

  lemma {:induction false} CowRootRefs(s: State, c: Addr, a: Addr, ref: Ref)
    requires Unused(s, c) && s.cur in s.roots && RootOk(s, s.cur)
    ensures RefsAt(CowRoot(s, c).refs, a)[ref] == RefsAt(s.refs, a)[ref]
              + if ref == ByRoot(s.cur) then One(a == c) - One(a == s.roots[s.cur].node) else 0
  {
  }

  lemma {:induction false} CowRootKeepsBlocks(s: State, c: Addr)
    requires Inv(s) && s.held == {} && Usable(s, s.cur) && Unused(s, c) && RootOk(s, s.cur)
    ensures forall b :: b in CowRoot(s, c).live ==> BlockOk(CowRoot(s, c), b)
    ensures HeldInv(CowRoot(s, c)) && Shape(CowRoot(s, c))
  {
    var s' := CowRoot(s, c);
    forall b | b in s'.live
      ensures BlockOk(s', b)
    {
      assert b != c ==> BlockOk(s, b);
    }
    assert HeldOk(s', c);
  }

  lemma {:induction false} CowRootKeepsPtrs(s: State, c: Addr, h: Addr, a: Addr)
    requires Inv(s) && s.held == {} && Usable(s, s.cur) && Unused(s, c) && RootOk(s, s.cur)
    requires var s' := CowRoot(s, c); h in s'.blocks && a in s'.blocks[h].ptrs && a in s'.blocks
    ensures PtrOk(CowRoot(s, c), h, a)
  {
    var node := s.roots[s.cur].node;
    if h == c {
      assert PtrOk(s, node, a);
    } else {
      assert PtrOk(s, h, a);
    }
  }

  lemma {:induction false} CowRootKeepsRoots(s: State, c: Addr, r: RootId)
    requires Inv(s) && s.held == {} && Usable(s, s.cur) && Unused(s, c) && RootOk(s, s.cur) && r in s.roots
    ensures RootOk(CowRoot(s, c), r)
  {
    assert RootOk(s, r);
  }

  lemma {:induction false} CowRootKeepsInv(s: State, c: Addr)
    requires Inv(s) && s.held == {} && Usable(s, s.cur) && Unused(s, c) && RootOk(s, s.cur)
    ensures Inv(CowRoot(s, c))
  {
    var s' := CowRoot(s, c);
    CowRootKeepsBlocks(s, c);
    forall a, ref
      ensures RefsAt(s'.refs, a)[ref] == Expected(s', a, ref)
    {
      CowRootExactAt(s, c, a, ref);
    }
    forall h, a | h in s'.blocks && a in s'.blocks[h].ptrs && a in s'.blocks
      ensures PtrOk(s', h, a)
    {
      CowRootKeepsPtrs(s, c, h, a);
    }
    forall r | r in s'.roots
      ensures RootOk(s', r)
    {
      CowRootKeepsRoots(s, c, r);
    }
  }

  lemma {:induction false} PathFrame(s: State, cur: RootId, held: set<Addr>)
    requires CoreInv(s)
    ensures CoreInv(s.(cur := cur, held := held))
  {
    var s' := s.(cur := cur, held := held);
    forall a, ref
      ensures RefsAt(s'.refs, a)[ref] == Expected(s', a, ref)
    {
      assert Expected(s, a, ref) == Expected(s', a, ref);
    }
    forall b | b in s'.live
      ensures BlockOk(s', b)
    {
      assert BlockOk(s, b);
    }
    forall h, a | h in s'.blocks && a in s'.blocks[h].ptrs && a in s'.blocks
      ensures PtrOk(s', h, a)
    {
      assert PtrOk(s, h, a);
    }
    forall r | r in s'.roots
      ensures RootOk(s', r)
    {
      assert RootOk(s, r);
    }
  }

  /** A block that should_cow_block lets the path keep is exclusively the path's. */
  lemma {:induction false} TouchKeepsHeld(s: State, p: Addr, b: Addr)
    requires Inv(s) && p in s.held && p in s.blocks && b in s.blocks[p].ptrs && b in s.live && s.cur in s.roots
    requires !ShouldCow(s, s.cur, b)
    ensures HeldInv(s.(held := s.held + {b}))
  {
    var s' := s.(held := s.held + {b});
    assert HeldOk(s, p) && PtrOk(s, p, b) && BlockOk(s, b);
    forall k | k in s'.held
      ensures HeldOk(s', k)
    {
      if k in s.held {
        assert HeldOk(s, k);
      } else {
        forall h | h in s.live && h in s.blocks && k in s.blocks[h].ptrs
          ensures h in s'.held
        {
          SoleHolder(s, b, s.cur, p, h);
        }
      }
    }
  }

  lemma {:induction false} TouchRootKeepsHeld(s: State)
    requires Inv(s) && Usable(s, s.cur) && RootOk(s, s.cur)
    requires !ShouldCow(s, s.cur, s.roots[s.cur].node)
    ensures HeldInv(s.(held := {s.roots[s.cur].node}))
  {
    var node := s.roots[s.cur].node;
    var s' := s.(held := {node});
    forall h | h in s.live
      ensures node !in s.blocks[h].ptrs
    {
      NobodyPointsAtNode(s, s.cur, h);
    }
    assert HeldOk(s', node);
  }

  // ---------------------------------------------------------------------------------------------
  // Changing the blocks a path holds

  /** New contents for a block. */
  datatype Body = Body(level: nat, ptrs: seq<Addr>, payload: nat)

  /** Any rewrite of the held blocks: pushes, balancing, splits with new blocks (keys of edit that are not
      held), removal of blocks, a new root node.  No back reference is touched except those of the
      blocks allocated and freed as a whole. */
  function Rewritten(s: State, edit: map<Addr, Body>): map<Addr, Block>
  {
    map b | b in s.blocks.Keys + edit.Keys ::
      if b !in edit then s.blocks[b]
      else if b in s.blocks then s.blocks[b].(level := edit[b].level, ptrs := edit[b].ptrs, payload := edit[b].payload)
      else Block(edit[b].level, s.cur, s.transid, false, edit[b].ptrs, edit[b].payload)
  }

  function Restructured(s: State, edit: map<Addr, Body>, node: Addr): State
    requires s.cur in s.roots
  {
    var added, removed := edit.Keys - s.held, s.held - edit.Keys;
    s.(blocks := Rewritten(s, edit),
       live := s.live - removed + added,
       refs := map a | a in s.refs.Keys + added + removed ::
                 if a in added then multiset{ByRoot(s.cur)} else if a in removed then multiset{} else s.refs[a],
       roots := s.roots[s.cur := s.roots[s.cur].(node := node)],
       held := edit.Keys)
  }

  /** The rewrite loses and invents no pointer: it only adds one to each new block and takes the one
      of each removed block.  Levels stay in order, and existing blocks keep theirs. */
  ghost predicate Balanced(s: State, edit: map<Addr, Body>, node: Addr)
    requires s.cur in s.roots && s.held <= s.blocks.Keys
  {
    var prev := s.roots[s.cur].node;
    var added, removed := edit.Keys - s.held, s.held - edit.Keys;
    && (forall b :: b in added ==> Unused(s, b))
    && (forall b :: b in edit && b in s.blocks ==> edit[b].level == s.blocks[b].level)
    && (node == prev || (prev in s.held && node in edit))
    && (prev in removed ==> node != prev)
    && (forall b, a :: b in edit && a in edit[b].ptrs && a in Rewritten(s, edit) ==>
        Rewritten(s, edit)[a].level < edit[b].level)
    && (forall a {:trigger Count(s.blocks, s.full, s.held, a, ByRoot(s.cur))} ::
          Count(Rewritten(s, edit), s.full, edit.Keys, a, ByRoot(s.cur)) + One(a == node)
          == Count(s.blocks, s.full, s.held, a, ByRoot(s.cur)) + One(a == prev) + One(a in added) - One(a in removed))
  }

  lemma {:induction false} CountUnion(blocks: map<Addr, Block>, full: set<Addr>, S: set<Addr>, T: set<Addr>, a: Addr,
          ref: Ref)
    requires S <= blocks.Keys && T <= blocks.Keys && S !! T
    ensures Count(blocks, full, S + T, a, ref) == Count(blocks, full, S, a, ref) + Count(blocks, full, T, a, ref)
    decreases S
  {
    if S == {} {
      assert S + T == T;
    } else {
      var h :| h in S;
      CountPick(blocks, full, S, a, ref, h);
      CountPick(blocks, full, S + T, a, ref, h);
      assert S + T - {h} == (S - {h}) + T;
      CountUnion(blocks, full, S - {h}, T, a, ref);
    }
  }

  lemma {:induction false} CountNone(blocks: map<Addr, Block>, full: set<Addr>, S: set<Addr>, a: Addr, ref: Ref)
    requires S <= blocks.Keys
    requires forall h :: h in S ==> RefOf(blocks, full, h) != ref
    ensures Count(blocks, full, S, a, ref) == 0
    decreases S
  {
    if S != {} {
      var h :| h in S;
      CountPick(blocks, full, S, a, ref, h);
      CountNone(blocks, full, S - {h}, a, ref);
    }
  }

  lemma {:induction false} CountWitness(blocks: map<Addr, Block>, full: set<Addr>, S: set<Addr>, a: Addr, ref: Ref)
    requires S <= blocks.Keys && Count(blocks, full, S, a, ref) > 0
    ensures exists h :: h in S && a in blocks[h].ptrs
    decreases S
  {
    var h :| h in S;
    CountPick(blocks, full, S, a, ref, h);
    if a !in blocks[h].ptrs {
      CountWitness(blocks, full, S - {h}, a, ref);
    }
  }

  /** Of all counts only those of implicit references of the path's root move, and only within the held
      blocks. */
  lemma {:induction false} RestructureCounts(s: State, edit: map<Addr, Body>, node: Addr, a: Addr, ref: Ref)
    requires Shape(s) && s.held <= s.live && s.cur in s.roots
    requires forall b :: b in s.held ==> RefOf(s.blocks, s.full, b) == ByRoot(s.cur)
    requires forall b :: b in edit.Keys - s.held ==> b !in s.blocks
    ensures var s' := Restructured(s, edit, node);
            && s'.live <= s'.blocks.Keys
            && Count(s'.blocks, s'.full, s'.live, a, ref) - Count(s.blocks, s.full, s.live, a, ref)
               == if ref == ByRoot(s.cur)
                   then Count(s'.blocks, s.full, edit.Keys, a, ref) - Count(s.blocks, s.full, s.held, a, ref) else 0
  {
    var s' := Restructured(s, edit, node);
    var rest := s.live - s.held;
    assert s.live == s.held + rest;
    assert s'.live == edit.Keys + rest;
    CountUnion(s.blocks, s.full, s.held, rest, a, ref);
    CountUnion(s'.blocks, s'.full, edit.Keys, rest, a, ref);
    CountSame(s.blocks, s.full, s'.blocks, s'.full, rest, a, ref);
    if ref != ByRoot(s.cur) {
      CountNone(s.blocks, s.full, s.held, a, ref);
      CountNone(s'.blocks, s'.full, edit.Keys, a, ref);
    }
  }

  lemma {:induction false} RestructureRefs(s: State, edit: map<Addr, Body>, node: Addr, a: Addr, ref: Ref)
    requires s.cur in s.roots
    requires forall b :: b in s.held ==> HeldOk(s, b)
    requires forall b :: b in edit.Keys - s.held ==> Unused(s, b)
    ensures RefsAt(Restructured(s, edit, node).refs, a)[ref] ==
            RefsAt(s.refs, a)[ref]
                + (if ref == ByRoot(s.cur) then One(a in edit.Keys - s.held) - One(a in s.held - edit.Keys) else 0)
  {
    if a in s.held {
      assert HeldOk(s, a);
    }
  }

  lemma {:induction false} RestructureExactAt(s: State, edit: map<Addr, Body>, node: Addr, a: Addr, ref: Ref)
    requires Shape(s) && s.held <= s.live && s.cur in s.roots && RefsAt(s.refs, a)[ref] == Expected(s, a, ref)
    requires forall b :: b in s.held ==> HeldOk(s, b)
    requires forall b :: b in edit.Keys - s.held ==> Unused(s, b)
    requires Count(Rewritten(s, edit), s.full, edit.Keys, a, ByRoot(s.cur)) + One(a == node)
             == Count(s.blocks, s.full, s.held, a, ByRoot(s.cur)) + One(a == s.roots[s.cur].node)
                + One(a in edit.Keys - s.held) - One(a in s.held - edit.Keys)
    ensures var s' := Restructured(s, edit, node);
            s'.live <= s'.blocks.Keys && RefsAt(s'.refs, a)[ref] == Expected(s', a, ref)
  {
    RestructureCounts(s, edit, node, a, ref);
    RestructureRefs(s, edit, node, a, ref);
    NewNodeCount(s.roots, s.cur, node, a, ref);
  }

  lemma {:induction false} NewNodeCount(roots: map<RootId, Root>, r: RootId, node: Addr, a: Addr, ref: Ref)
    requires r in roots
    ensures RootCount(roots[r := roots[r].(node := node)], a, ref)
            == RootCount(roots, a, ref) + if ref == ByRoot(r) then One(a == node) - One(a == roots[r].node) else 0
  {
  }

  /** A pointer of the rewritten blocks leads to a new block or where some held block or the root led. */
  lemma {:induction false} RestructuredPtr(s: State, edit: map<Addr, Body>, node: Addr, h: Addr, a: Addr)
    requires Shape(s) && s.held <= s.live && s.cur in s.roots && Balanced(s, edit, node)
    requires forall b :: b in s.held ==> HeldOk(s, b)
    requires h in edit && a in edit[h].ptrs
    ensures a in edit.Keys - s.held || a == s.roots[s.cur].node || exists k :: k in s.held && a in s.blocks[k].ptrs
  {
    var blocks := Rewritten(s, edit);
    assert a in blocks[h].ptrs;
    assert if h in s.held then HeldOk(s, h) else Unused(s, h);
    CountPick(blocks, s.full, edit.Keys, a, ByRoot(s.cur), h);
    if Count(s.blocks, s.full, s.held, a, ByRoot(s.cur)) > 0 {
      CountWitness(s.blocks, s.full, s.held, a, ByRoot(s.cur));
    }
  }

  ghost predicate MayRestructure(s: State, edit: map<Addr, Body>, node: Addr)
  {
    && s.cur in s.roots && s.held <= s.blocks.Keys && s.held != {}
    && Balanced(s, edit, node)
  }

  lemma {:induction false} RestructureKeepsBlocks(s: State, edit: map<Addr, Body>, node: Addr)
    requires Inv(s) && MayRestructure(s, edit, node)
    ensures Shape(Restructured(s, edit, node))
    ensures forall b :: b in Restructured(s, edit, node).live ==> BlockOk(Restructured(s, edit, node), b)
  {
    var s' := Restructured(s, edit, node);
    assert forall b :: b in s.held ==> HeldOk(s, b);
    forall b | b in s'.live
      ensures BlockOk(s', b)
    {
      if b in s.live {
        assert BlockOk(s, b);
        assert b in edit.Keys - s.held ==> Unused(s, b);
      }
    }
  }

  lemma {:induction false} RestructureKeepsPtrs(s: State, edit: map<Addr, Body>, node: Addr, h: Addr, a: Addr)
    requires Inv(s) && MayRestructure(s, edit, node)
    requires var s' := Restructured(s, edit, node); h in s'.blocks && a in s'.blocks[h].ptrs && a in s'.blocks
    ensures PtrOk(Restructured(s, edit, node), h, a)
  {
    var s' := Restructured(s, edit, node);
    assert forall b :: b in s.held ==> HeldOk(s, b);
    assert RootOk(s, s.cur);
    if h in edit {
      RestructuredPtr(s, edit, node, h, a);
      assert if h in s.held then HeldOk(s, h) else Unused(s, h);
      if a in edit.Keys - s.held {
        assert Unused(s, a);
      } else if k :| k in s.held && a in s.blocks[k].ptrs {
        assert HeldOk(s, k) && PtrOk(s, k, a);
      }
    } else {
      assert a !in s.blocks ==> Unused(s, a);
      assert PtrOk(s, h, a);
    }
  }

  lemma {:induction false} RestructureKeepsRoots(s: State, edit: map<Addr, Body>, node: Addr, r: RootId)
    requires Inv(s) && MayRestructure(s, edit, node) && r in s.roots
    ensures RootOk(Restructured(s, edit, node), r)
  {
    assert RootOk(s, r) && RootOk(s, s.cur) && Usable(s, s.cur);
    assert s.roots[r].node in s.held ==> HeldOk(s, s.roots[r].node);
    assert node in s.held ==> HeldOk(s, node);
    assert s.roots[r].commitRoot in s.held ==> HeldOk(s, s.roots[r].commitRoot);
    if r == s.cur {
      RestructureKeepsOwnRoot(s, edit, node);
    } else {
      RestructureKeepsOtherRoot(s, edit, node, r);
    }
  }

  lemma {:induction false} RestructureKeepsOwnRoot(s: State, edit: map<Addr, Body>, node: Addr)
    requires Shape(s) && MayRestructure(s, edit, node) && RootOk(s, s.cur)
    requires node in s.held ==> HeldOk(s, node)
    requires s.roots[s.cur].commitRoot in s.held ==> HeldOk(s, s.roots[s.cur].commitRoot)
    ensures RootOk(Restructured(s, edit, node), s.cur)
  {
    assert node in edit && node !in s.held ==> Unused(s, node);
  }

  lemma {:induction false} RestructureKeepsOtherRoot(s: State, edit: map<Addr, Body>, node: Addr, r: RootId)
    requires Shape(s) && MayRestructure(s, edit, node) && r in s.roots && RootOk(s, r) && r != s.cur
    requires s.roots[r].node in s.held ==> HeldOk(s, s.roots[r].node)
    requires s.roots[r].commitRoot in s.held ==> HeldOk(s, s.roots[r].commitRoot)
    ensures RootOk(Restructured(s, edit, node), r)
  {
    assert s.roots[r].node !in edit.Keys - s.held;
    assert s.roots[r].commitRoot !in edit.Keys - s.held;
  }

  lemma {:induction false} RestructureKeepsHeld(s: State, edit: map<Addr, Body>, node: Addr, b: Addr)
    requires Inv(s) && MayRestructure(s, edit, node) && b in edit
    ensures HeldOk(Restructured(s, edit, node), b)
  {
    var s' := Restructured(s, edit, node);
    assert if b in s.held then HeldOk(s, b) else Unused(s, b);
    assert forall h :: h in s'.live - edit.Keys ==> s'.blocks[h] == s.blocks[h];
  }

  /** Moving pointers between blocks a root has already COWed, allocating and freeing whole blocks, and
      changing the root node keep every reference exact without any reference update of their own. */
  lemma {:induction false} RestructureKeepsInv(s: State, edit: map<Addr, Body>, node: Addr)
    requires Inv(s) && MayRestructure(s, edit, node)
    ensures Inv(Restructured(s, edit, node))
  {
    var s' := Restructured(s, edit, node);
    RestructureKeepsBlocks(s, edit, node);
    assert forall b :: b in s.held ==> HeldOk(s, b);
    forall a, ref
      ensures RefsAt(s'.refs, a)[ref] == Expected(s', a, ref)
    {
      RestructureExactAt(s, edit, node, a, ref);
    }
    forall h, a | h in s'.blocks && a in s'.blocks[h].ptrs && a in s'.blocks
      ensures PtrOk(s', h, a)
    {
      RestructureKeepsPtrs(s, edit, node, h, a);
    }
    forall r | r in s'.roots
      ensures RootOk(s', r)
    {
      RestructureKeepsRoots(s, edit, node, r);
    }
    forall b | b in s'.held
      ensures HeldOk(s', b)
    {
      RestructureKeepsHeld(s, edit, node, b);
    }
  }

  /** The contents the held blocks have now. */
  function Bodies(s: State): map<Addr, Body>
    requires s.held <= s.blocks.Keys
  {
    map b | b in s.held :: Body(s.blocks[b].level, s.blocks[b].ptrs, s.blocks[b].payload)
  }

  /** Two blocks change their pointers: the count changes by theirs. */
  lemma {:induction false} TwoChanged(blocks: map<Addr, Block>, full: set<Addr>, blocks': map<Addr, Block>,
          S: set<Addr>, x: Addr, y: Addr, a: Addr, ref: Ref)
    requires S <= blocks.Keys && S <= blocks'.Keys && x in S && y in S && x != y
    requires forall h :: h in S - {x, y} ==> Contrib(blocks, full, h, a, ref) == Contrib(blocks', full, h, a, ref)
    ensures Count(blocks', full, S, a, ref) + Contrib(blocks, full, x, a, ref) + Contrib(blocks, full, y, a, ref)
            == Count(blocks, full, S, a, ref) + Contrib(blocks', full, x, a, ref) + Contrib(blocks', full, y, a, ref)
  {
    CountPick(blocks, full, S, a, ref, x);
    CountPick(blocks, full, S - {x}, a, ref, y);
    CountPick(blocks', full, S, a, ref, x);
    CountPick(blocks', full, S - {x}, a, ref, y);
    CountSame(blocks, full, blocks', full, S - {x} - {y}, a, ref);
  }

  lemma {:induction false} CutCount(P: seq<Addr>, k: nat, a: Addr)
    requires k <= |P|
    ensures multiset(P[..k])[a] + multiset(P[k..])[a] == multiset(P)[a]
  {
    assert P == P[..k] + P[k..];
  }

  lemma {:induction false} TakeCount(P: seq<Addr>, i: nat, a: Addr)
    requires i < |P|
    ensures multiset(P[..i] + P[i + 1..])[a] + One(a == P[i]) == multiset(P)[a]
  {
    var Q := P[..i] + P[i + 1..];
    assert Q[..i] + [P[i]] + Q[i..] == P;
    PutCount(Q, i, P[i], a);
  }

  lemma {:induction false} PutCount(P: seq<Addr>, k: nat, c: Addr, a: Addr)
    requires k <= |P|
    ensures multiset(P[..k] + [c] + P[k..])[a] == multiset(P)[a] + One(a == c)
  {
    CutCount(P, k, a);
  }

  /** Two held blocks get new pointers. */
  function ShareEdit(s: State, x: Addr, y: Addr, P: seq<Addr>, Q: seq<Addr>): map<Addr, Body>
    requires s.held <= s.blocks.Keys && x in s.held && y in s.held
  {
    var now := Bodies(s);
    now[x := now[x].(ptrs := P)][y := now[y].(ptrs := Q)]
  }

  lemma {:induction false} ShareCounts(s: State, x: Addr, y: Addr, P: seq<Addr>, Q: seq<Addr>, a: Addr)
    requires s.held <= s.blocks.Keys && x in s.held && y in s.held && x != y && HeldOk(s, x) && HeldOk(s, y)
    requires multiset(P)[a] + multiset(Q)[a] == multiset(s.blocks[x].ptrs)[a] + multiset(s.blocks[y].ptrs)[a]
    ensures Count(Rewritten(s, ShareEdit(s, x, y, P, Q)), s.full, s.held, a, ByRoot(s.cur))
            == Count(s.blocks, s.full, s.held, a, ByRoot(s.cur))
  {
    var edit := ShareEdit(s, x, y, P, Q);
    assert edit.Keys == s.held;
    TwoChanged(s.blocks, s.full, Rewritten(s, edit), s.held, x, y, a, ByRoot(s.cur));
  }

  /** Two held blocks of one level may share their pointers out anew in any way. */
  lemma {:induction false} ShareIsBalanced(s: State, x: Addr, y: Addr, P: seq<Addr>, Q: seq<Addr>)
    requires Inv(s) && s.cur in s.roots && s.held <= s.blocks.Keys && x in s.held && y in s.held && x != y
    requires s.blocks[x].level == s.blocks[y].level
    requires forall a ::
            multiset(P)[a] + multiset(Q)[a] == multiset(s.blocks[x].ptrs)[a] + multiset(s.blocks[y].ptrs)[a]
    ensures MayRestructure(s, ShareEdit(s, x, y, P, Q), s.roots[s.cur].node)
  {
    var edit := ShareEdit(s, x, y, P, Q);
    var blocks := Rewritten(s, edit);
    assert edit.Keys == s.held;
    assert HeldOk(s, x) && HeldOk(s, y);
    forall a
      ensures Count(blocks, s.full, edit.Keys, a, ByRoot(s.cur)) == Count(s.blocks, s.full, s.held, a, ByRoot(s.cur))
    {
      ShareCounts(s, x, y, P, Q, a);
    }
    forall b, a | b in edit && a in edit[b].ptrs && a in blocks
      ensures blocks[a].level < edit[b].level
    {
      ShareLevels(s, x, y, P, Q, b, a);
    }
  }

  lemma {:induction false} ShareLevels(s: State, x: Addr, y: Addr, P: seq<Addr>, Q: seq<Addr>, b: Addr, a: Addr)
    requires Inv(s) && s.held <= s.blocks.Keys && x in s.held && y in s.held && x != y && b in s.held && a in s.blocks
    requires s.blocks[x].level == s.blocks[y].level
    requires multiset(P)[a] + multiset(Q)[a] == multiset(s.blocks[x].ptrs)[a] + multiset(s.blocks[y].ptrs)[a]
    requires a in ShareEdit(s, x, y, P, Q)[b].ptrs
    ensures s.blocks[a].level < s.blocks[b].level
  {
    assert a in multiset(ShareEdit(s, x, y, P, Q)[b].ptrs);
    var h := if a in s.blocks[b].ptrs then b else if b == x then y else x;
    assert a in multiset(s.blocks[h].ptrs);
    assert PtrOk(s, h, a);
  }

  lemma {:induction false} MoveCounts(P: seq<Addr>, D: seq<Addr>, k: nat)
    requires k <= |P|
    ensures forall a :: multiset(P[k..])[a] + multiset(D + P[..k])[a] == multiset(P)[a] + multiset(D)[a]
    ensures forall a :: multiset(P[..k])[a] + multiset(P[k..] + D)[a] == multiset(P)[a] + multiset(D)[a]
  {
    forall a
      ensures multiset(P[..k])[a] + multiset(P[k..])[a] == multiset(P)[a]
    {
      CutCount(P, k, a);
    }
  }

  /** push_node_left and push_leaf_left, seen from the pointers: the first k of src go behind those of dst. */
  function PushEdit(s: State, src: Addr, dst: Addr, k: nat): map<Addr, Body>
    requires s.held <= s.blocks.Keys && src in s.held && dst in s.held && k <= |s.blocks[src].ptrs|
  {
    ShareEdit(s, src, dst, s.blocks[src].ptrs[k..], s.blocks[dst].ptrs + s.blocks[src].ptrs[..k])
  }

  lemma {:induction false} PushIsBalanced(s: State, src: Addr, dst: Addr, k: nat)
    requires Inv(s) && s.cur in s.roots && s.held <= s.blocks.Keys && src in s.held && dst in s.held && src != dst
    requires k <= |s.blocks[src].ptrs| && s.blocks[src].level == s.blocks[dst].level
    ensures MayRestructure(s, PushEdit(s, src, dst, k), s.roots[s.cur].node)
  {
    var P, D := s.blocks[src].ptrs, s.blocks[dst].ptrs;
    MoveCounts(P, D, k);
    ShareIsBalanced(s, src, dst, P[k..], D + P[..k]);
  }

  /** balance_node_right and push_leaf_right: the last k pointers of src go before those of dst. */
  function PushRightEdit(s: State, src: Addr, dst: Addr, k: nat): map<Addr, Body>
    requires s.held <= s.blocks.Keys && src in s.held && dst in s.held && k <= |s.blocks[src].ptrs|
  {
    var m := |s.blocks[src].ptrs| - k;
    ShareEdit(s, src, dst, s.blocks[src].ptrs[..m], s.blocks[src].ptrs[m..] + s.blocks[dst].ptrs)
  }

  lemma {:induction false} PushRightIsBalanced(s: State, src: Addr, dst: Addr, k: nat)
    requires Inv(s) && s.cur in s.roots && s.held <= s.blocks.Keys && src in s.held && dst in s.held && src != dst
    requires k <= |s.blocks[src].ptrs| && s.blocks[src].level == s.blocks[dst].level
    ensures MayRestructure(s, PushRightEdit(s, src, dst, k), s.roots[s.cur].node)
  {
    var P, D := s.blocks[src].ptrs, s.blocks[dst].ptrs;
    var m := |P| - k;
    MoveCounts(P, D, m);
    ShareIsBalanced(s, src, dst, P[..m], P[m..] + D);
  }

  /** split_node and copy_for_split: the pointers of b from mid on go to the new block c, which is
      inserted behind slot i of the parent p. */
  function SplitEdit(s: State, p: Addr, i: nat, mid: nat, c: Addr): map<Addr, Body>
    requires s.held <= s.blocks.Keys && p in s.held && i < |s.blocks[p].ptrs| && s.blocks[p].ptrs[i] in s.held
    requires mid <= |s.blocks[s.blocks[p].ptrs[i]].ptrs|
  {
    var now := Bodies(s);
    var b := s.blocks[p].ptrs[i];
    now[b := now[b].(ptrs := now[b].ptrs[..mid])]
       [c := now[b].(ptrs := now[b].ptrs[mid..])]
       [p := now[p].(ptrs := now[p].ptrs[..i + 1] + [c] + now[p].ptrs[i + 1..])]
  }

  /** What the three blocks of a split contribute afterwards; the others are as they were. */
  lemma {:induction false} SplitContribs(s: State, p: Addr, i: nat, mid: nat, c: Addr, a: Addr)
    requires s.held <= s.blocks.Keys && p in s.held && i < |s.blocks[p].ptrs| && s.blocks[p].ptrs[i] in s.held
    requires mid <= |s.blocks[s.blocks[p].ptrs[i]].ptrs| && c !in s.blocks && c !in s.full && p != s.blocks[p].ptrs[i]
    requires HeldOk(s, p) && HeldOk(s, s.blocks[p].ptrs[i])
    ensures var edit, b := SplitEdit(s, p, i, mid, c), s.blocks[p].ptrs[i];
            var blocks := Rewritten(s, edit);
            && edit.Keys == s.held + {c} && edit.Keys <= blocks.Keys
            && Contrib(blocks, s.full, p, a, ByRoot(s.cur))
                == multiset(s.blocks[p].ptrs[..i + 1] + [c] + s.blocks[p].ptrs[i + 1..])[a]
            && Contrib(blocks, s.full, b, a, ByRoot(s.cur)) == multiset(s.blocks[b].ptrs[..mid])[a]
            && Contrib(blocks, s.full, c, a, ByRoot(s.cur)) == multiset(s.blocks[b].ptrs[mid..])[a]
            && forall h :: h in s.held - {p, b} ==>
                Contrib(s.blocks, s.full, h, a, ByRoot(s.cur)) == Contrib(blocks, s.full, h, a, ByRoot(s.cur))
  {
  }

  lemma {:induction false} SplitCounts(s: State, p: Addr, i: nat, mid: nat, c: Addr, a: Addr)
    requires s.held <= s.blocks.Keys && p in s.held && i < |s.blocks[p].ptrs| && s.blocks[p].ptrs[i] in s.held
    requires mid <= |s.blocks[s.blocks[p].ptrs[i]].ptrs| && c !in s.blocks && c !in s.full && p != s.blocks[p].ptrs[i]
    requires HeldOk(s, p) && HeldOk(s, s.blocks[p].ptrs[i])
    ensures var edit := SplitEdit(s, p, i, mid, c);
            Count(Rewritten(s, edit), s.full, edit.Keys, a, ByRoot(s.cur))
                == Count(s.blocks, s.full, s.held, a, ByRoot(s.cur)) + One(a == c)
  {
    var edit, b, ref := SplitEdit(s, p, i, mid, c), s.blocks[p].ptrs[i], ByRoot(s.cur);
    var blocks := Rewritten(s, edit);
    SplitContribs(s, p, i, mid, c, a);
    CountPick(blocks, s.full, edit.Keys, a, ref, c);
    assert edit.Keys - {c} == s.held;
    TwoChanged(s.blocks, s.full, blocks, s.held, p, b, a, ref);
    CutCount(s.blocks[b].ptrs, mid, a);
    PutCount(s.blocks[p].ptrs, i + 1, c, a);
  }

  lemma {:induction false} SplitIsBalanced(s: State, p: Addr, i: nat, mid: nat, c: Addr)
    requires Inv(s) && s.cur in s.roots && s.held <= s.blocks.Keys && p in s.held && i < |s.blocks[p].ptrs|
    requires s.blocks[p].ptrs[i] in s.held && mid <= |s.blocks[s.blocks[p].ptrs[i]].ptrs| && Unused(s, c)
    ensures MayRestructure(s, SplitEdit(s, p, i, mid, c), s.roots[s.cur].node)
  {
    var edit := SplitEdit(s, p, i, mid, c);
    var b := s.blocks[p].ptrs[i];
    var blocks := Rewritten(s, edit);
    assert PtrOk(s, p, b) && HeldOk(s, p) && HeldOk(s, b);
    assert edit.Keys == s.held + {c};
    forall a
      ensures Count(blocks, s.full, edit.Keys, a, ByRoot(s.cur))
              == Count(s.blocks, s.full, s.held, a, ByRoot(s.cur)) + One(a == c)
    {
      SplitCounts(s, p, i, mid, c, a);
    }
    forall x, a | x in edit && a in edit[x].ptrs && a in blocks
      ensures blocks[a].level < edit[x].level
    {
      if a != c {
        assert PtrOk(s, if x == c then b else x, a);
      }
    }
  }

  /** One block changes its pointers: the count changes by its own. */
  lemma {:induction false} OneChanged(blocks: map<Addr, Block>, full: set<Addr>, blocks': map<Addr, Block>,
          S: set<Addr>,
          x: Addr, a: Addr, ref: Ref)
    requires S <= blocks.Keys && S <= blocks'.Keys && x in S
    requires forall h :: h in S - {x} ==> Contrib(blocks, full, h, a, ref) == Contrib(blocks', full, h, a, ref)
    ensures Count(blocks', full, S, a, ref) + Contrib(blocks, full, x, a, ref)
            == Count(blocks, full, S, a, ref) + Contrib(blocks', full, x, a, ref)
  {
    CountPick(blocks, full, S, a, ref, x);
    CountPick(blocks', full, S, a, ref, x);
    CountSame(blocks, full, blocks', full, S - {x}, a, ref);
  }

  /** split_leaf with nothing to move: a new empty leaf c at slot i of the parent p. */
  function NewLeafEdit(s: State, p: Addr, i: nat, c: Addr): map<Addr, Body>
    requires s.held <= s.blocks.Keys && p in s.held && i <= |s.blocks[p].ptrs|
  {
    var now := Bodies(s);
    now[c := Body(0, [], 0)][p := now[p].(ptrs := now[p].ptrs[..i] + [c] + now[p].ptrs[i..])]
  }

  lemma {:induction false} NewLeafCounts(s: State, p: Addr, i: nat, c: Addr, a: Addr)
    requires s.held <= s.blocks.Keys && p in s.held && i <= |s.blocks[p].ptrs| && c !in s.blocks && HeldOk(s, p)
    ensures var edit := NewLeafEdit(s, p, i, c);
            Count(Rewritten(s, edit), s.full, edit.Keys, a, ByRoot(s.cur))
                == Count(s.blocks, s.full, s.held, a, ByRoot(s.cur)) + One(a == c)
  {
    var edit, ref := NewLeafEdit(s, p, i, c), ByRoot(s.cur);
    var blocks := Rewritten(s, edit);
    CountPick(blocks, s.full, edit.Keys, a, ref, c);
    assert edit.Keys - {c} == s.held;
    OneChanged(s.blocks, s.full, blocks, s.held, p, a, ref);
    PutCount(s.blocks[p].ptrs, i, c, a);
  }

  lemma {:induction false} NewLeafIsBalanced(s: State, p: Addr, i: nat, c: Addr)
    requires Inv(s) && s.cur in s.roots && s.held <= s.blocks.Keys && p in s.held && i <= |s.blocks[p].ptrs|
    requires s.blocks[p].level > 0 && Unused(s, c)
    ensures MayRestructure(s, NewLeafEdit(s, p, i, c), s.roots[s.cur].node)
  {
    var edit := NewLeafEdit(s, p, i, c);
    var blocks := Rewritten(s, edit);
    assert HeldOk(s, p);
    assert edit.Keys == s.held + {c};
    forall a
      ensures Count(blocks, s.full, edit.Keys, a, ByRoot(s.cur))
              == Count(s.blocks, s.full, s.held, a, ByRoot(s.cur)) + One(a == c)
    {
      NewLeafCounts(s, p, i, c, a);
    }
    forall x, a | x in edit && a in edit[x].ptrs && a in blocks
      ensures blocks[a].level < edit[x].level
    {
      if a != c {
        assert PtrOk(s, x, a);
      }
    }
  }

  /** insert_new_root: a new node c above the root block. */
  function NewRootEdit(s: State, c: Addr): map<Addr, Body>
    requires s.held <= s.blocks.Keys && s.cur in s.roots && s.roots[s.cur].node in s.held
  {
    var prev := s.roots[s.cur].node;
    Bodies(s)[c := Body(s.blocks[prev].level + 1, [prev], 0)]
  }

  lemma {:induction false} NewRootIsBalanced(s: State, c: Addr)
    requires Inv(s) && s.held <= s.blocks.Keys && s.cur in s.roots && s.roots[s.cur].node in s.held && Unused(s, c)
    ensures MayRestructure(s, NewRootEdit(s, c), c)
  {
    var edit, prev, ref := NewRootEdit(s, c), s.roots[s.cur].node, ByRoot(s.cur);
    var blocks := Rewritten(s, edit);
    assert edit.Keys == s.held + {c};
    forall a
      ensures Count(blocks, s.full, edit.Keys, a, ref) == Count(s.blocks, s.full, s.held, a, ref) + One(a == prev)
    {
      CountPick(blocks, s.full, edit.Keys, a, ref, c);
      assert edit.Keys - {c} == s.held;
      CountSame(s.blocks, s.full, blocks, s.full, s.held, a, ref);
    }
    forall x, a | x in edit && a in edit[x].ptrs && a in blocks
      ensures blocks[a].level < edit[x].level
    {
      if x != c {
        assert PtrOk(s, x, a);
      }
    }
  }

  /** promote_child_to_root: the root block, down to one pointer, is freed and its child takes its place. */
  function PromoteEdit(s: State): map<Addr, Body>
    requires s.held <= s.blocks.Keys && s.cur in s.roots
  {
    Bodies(s) - {s.roots[s.cur].node}
  }

  lemma {:induction false} PromoteIsBalanced(s: State, b: Addr)
    requires Inv(s) && s.held <= s.blocks.Keys && s.cur in s.roots && s.roots[s.cur].node in s.held
    requires b in s.held && s.blocks[s.roots[s.cur].node].ptrs == [b]
    ensures MayRestructure(s, PromoteEdit(s), b)
  {
    var edit, prev, ref := PromoteEdit(s), s.roots[s.cur].node, ByRoot(s.cur);
    var blocks := Rewritten(s, edit);
    assert PtrOk(s, prev, b) && HeldOk(s, prev);
    assert edit.Keys == s.held - {prev};
    forall a
      ensures Count(blocks, s.full, edit.Keys, a, ref) + One(a == b) == Count(s.blocks, s.full, s.held, a, ref)
    {
      CountPick(s.blocks, s.full, s.held, a, ref, prev);
      CountSame(s.blocks, s.full, blocks, s.full, edit.Keys, a, ref);
    }
    forall x, a | x in edit && a in edit[x].ptrs && a in blocks
      ensures blocks[a].level < edit[x].level
    {
      assert PtrOk(s, x, a);
    }
  }

  /** btrfs_del_ptr and btrfs_free_tree_block for an emptied child. */
  function DropEdit(s: State, p: Addr, i: nat): map<Addr, Body>
    requires s.held <= s.blocks.Keys && p in s.held && i < |s.blocks[p].ptrs|
  {
    var now := Bodies(s);
    now[p := now[p].(ptrs := now[p].ptrs[..i] + now[p].ptrs[i + 1..])] - {s.blocks[p].ptrs[i]}
  }

  lemma {:induction false} DropCounts(s: State, p: Addr, i: nat, a: Addr)
    requires s.held <= s.blocks.Keys && p in s.held && i < |s.blocks[p].ptrs| && HeldOk(s, p)
    requires var b := s.blocks[p].ptrs[i]; b in s.held && b != p && s.blocks[b].ptrs == []
    ensures var edit, b := DropEdit(s, p, i), s.blocks[p].ptrs[i];
            Count(Rewritten(s, edit), s.full, edit.Keys, a, ByRoot(s.cur)) + One(a == b)
                == Count(s.blocks, s.full, s.held, a, ByRoot(s.cur))
  {
    var edit, b, ref, P := DropEdit(s, p, i), s.blocks[p].ptrs[i], ByRoot(s.cur), s.blocks[p].ptrs;
    var blocks := Rewritten(s, edit);
    CountPick(s.blocks, s.full, s.held, a, ref, b);
    assert edit.Keys == s.held - {b};
    OneChanged(s.blocks, s.full, blocks, s.held - {b}, p, a, ref);
    TakeCount(P, i, a);
  }

  lemma {:induction false} DropIsBalanced(s: State, p: Addr, i: nat)
    requires Inv(s) && s.cur in s.roots && s.held <= s.blocks.Keys && p in s.held && i < |s.blocks[p].ptrs|
    requires var b := s.blocks[p].ptrs[i]; b in s.held && s.blocks[b].ptrs == []
    ensures MayRestructure(s, DropEdit(s, p, i), s.roots[s.cur].node)
  {
    var edit, b := DropEdit(s, p, i), s.blocks[p].ptrs[i];
    var blocks := Rewritten(s, edit);
    assert PtrOk(s, p, b) && HeldOk(s, p) && HeldOk(s, b);
    NobodyPointsAtNode(s, s.cur, p);
    assert edit.Keys == s.held - {b};
    forall a
      ensures Count(blocks, s.full, edit.Keys, a, ByRoot(s.cur)) + One(a == b)
              == Count(s.blocks, s.full, s.held, a, ByRoot(s.cur))
    {
      DropCounts(s, p, i, a);
    }
    forall x, a | x in edit && a in edit[x].ptrs && a in blocks
      ensures blocks[a].level < edit[x].level
    {
      assert a in s.blocks[x].ptrs;
      assert PtrOk(s, x, a);
    }
  }

  /** The same blocks with the same levels and pointers; keys, items and all other bytes may differ. */
  ghost predicate SameShape(edit: map<Addr, Body>, edit': map<Addr, Body>)
  {
    edit'.Keys == edit.Keys && forall b :: b in edit ==>
        edit'[b].level == edit[b].level && edit'[b].ptrs == edit[b].ptrs
  }

  lemma {:induction false} PayloadIsFree(s: State, edit: map<Addr, Body>, edit': map<Addr, Body>, node: Addr)
    requires MayRestructure(s, edit, node) && SameShape(edit, edit')
    ensures MayRestructure(s, edit', node)
  {
    var blocks, blocks' := Rewritten(s, edit), Rewritten(s, edit');
    forall a
      ensures Count(blocks', s.full, edit'.Keys, a, ByRoot(s.cur)) == Count(blocks, s.full, edit.Keys, a, ByRoot(s.cur))
    {
      CountSame(blocks, s.full, blocks', s.full, edit.Keys, a, ByRoot(s.cur));
    }
  }

  /** The ways ctree.c changes the blocks of a path. */
  datatype TreeOp =
    | PushLeft(src: Addr, dst: Addr, k: nat)          // push_node_left, push_leaf_left
    | PushRight(src: Addr, dst: Addr, k: nat)         // balance_node_right, push_leaf_right
    | Split(p: Addr, i: nat, mid: nat, c: Addr)       // split_node, copy_for_split
    | NewLeaf(p: Addr, i: nat, c: Addr)               // split_leaf with nothing to move
    | NewRoot(c: Addr)                                // insert_new_root
    | PromoteChild(b: Addr)                           // promote_child_to_root
    | DropEmpty(p: Addr, i: nat)                      // btrfs_del_ptr and btrfs_free_tree_block

  ghost predicate OpReady(s: State, op: TreeOp)
  {
    && s.cur in s.roots && s.held <= s.blocks.Keys
    && match op
       case PushLeft(src, dst, k) =>
         src in s.held && dst in s.held && src != dst && k <= |s.blocks[src].ptrs|
             && s.blocks[src].level == s.blocks[dst].level
       case PushRight(src, dst, k) =>
         src in s.held && dst in s.held && src != dst && k <= |s.blocks[src].ptrs|
             && s.blocks[src].level == s.blocks[dst].level
       case Split(p, i, mid, c) =>
         p in s.held && i < |s.blocks[p].ptrs| && s.blocks[p].ptrs[i] in s.held
         && mid <= |s.blocks[s.blocks[p].ptrs[i]].ptrs| && Unused(s, c)
       case NewLeaf(p, i, c) => p in s.held && i <= |s.blocks[p].ptrs| && s.blocks[p].level == 1 && Unused(s, c)
       case NewRoot(c) => s.roots[s.cur].node in s.held && Unused(s, c)
       case PromoteChild(b) => s.roots[s.cur].node in s.held && b in s.held && s.blocks[s.roots[s.cur].node].ptrs == [b]
       case DropEmpty(p, i) =>
         p in s.held && i < |s.blocks[p].ptrs| && s.blocks[p].ptrs[i] in s.held
             && s.blocks[s.blocks[p].ptrs[i]].ptrs == []
  }

  ghost function EditOf(s: State, op: TreeOp): map<Addr, Body>
    requires OpReady(s, op)
  {
    match op
    case PushLeft(src, dst, k) => PushEdit(s, src, dst, k)
    case PushRight(src, dst, k) => PushRightEdit(s, src, dst, k)
    case Split(p, i, mid, c) => SplitEdit(s, p, i, mid, c)
    case NewLeaf(p, i, c) => NewLeafEdit(s, p, i, c)
    case NewRoot(c) => NewRootEdit(s, c)
    case PromoteChild(b) => PromoteEdit(s)
    case DropEmpty(p, i) => DropEdit(s, p, i)
  }

  function NodeAfter(s: State, op: TreeOp): Addr
    requires s.cur in s.roots
  {
    match op
    case NewRoot(c) => c
    case PromoteChild(b) => b
    case _ => s.roots[s.cur].node
  }

  lemma {:induction false} OpIsBalanced(s: State, op: TreeOp)
    requires Inv(s) && OpReady(s, op)
    ensures MayRestructure(s, EditOf(s, op), NodeAfter(s, op))
  {
    match op
    case PushLeft(src, dst, k) => PushIsBalanced(s, src, dst, k);
    case PushRight(src, dst, k) => PushRightIsBalanced(s, src, dst, k);
    case Split(p, i, mid, c) => SplitIsBalanced(s, p, i, mid, c);
    case NewLeaf(p, i, c) => NewLeafIsBalanced(s, p, i, c);
    case NewRoot(c) => NewRootIsBalanced(s, c);
    case PromoteChild(b) => PromoteIsBalanced(s, b);
    case DropEmpty(p, i) => DropIsBalanced(s, p, i);
  }

  /** Each of them, with whatever bytes beside the pointers, is a rewrite that needs no reference update beyond
      those of the blocks it allocates or frees. */
  lemma {:induction false} TreeOpIsBalanced(s: State, op: TreeOp, edit: map<Addr, Body>)
    requires Inv(s) && OpReady(s, op) && SameShape(EditOf(s, op), edit)
    ensures MayRestructure(s, edit, NodeAfter(s, op))
  {
    OpIsBalanced(s, op);
    PayloadIsFree(s, EditOf(s, op), edit, NodeAfter(s, op));
  }

  // ---------------------------------------------------------------------------------------------
  // Snapshots, commits, write-out

  /** create_pending_snapshot after the source root block was COWed: btrfs_copy_root into c for the new
      root n, last_snapshot set for both, FORCE_COW for the source. */
  function Snapshotted(s: State, r: RootId, n: RootId, c: Addr): State
    requires r in s.roots && s.roots[r].node in s.blocks
  {
    var top := s.blocks[s.roots[r].node];
    s.(blocks := s.blocks[c := top.(owner := n, gen := s.transid, written := false)],
       live := s.live + {c},
       refs := AddRef(IncRefs(s.refs, top.ptrs, ByRoot(n)), c, ByRoot(n)),
       roots := s.roots[r := s.roots[r].(lastSnapshot := s.transid, forceCow := true)]
                       [n := Root(c, c, s.transid, false)],
       held := {})
  }

  ghost predicate MaySnapshot(s: State, r: RootId, n: RootId, c: Addr)
  {
    && Usable(s, r) && n !in s.roots && Unused(s, c)
    && s.roots[r].node in s.blocks
  }

  lemma {:induction false} SnapshotExactAt(s: State, r: RootId, n: RootId, c: Addr, a: Addr, ref: Ref)
    requires CoreInv(s) && MaySnapshot(s, r, n, c)
    ensures var s' := Snapshotted(s, r, n, c);
            s'.live <= s'.blocks.Keys && RefsAt(s'.refs, a)[ref] == Expected(s', a, ref)
  {
    var s' := Snapshotted(s, r, n, c);
    var ptrs := s.blocks[s.roots[r].node].ptrs;
    assert RefsAt(s.refs, a)[ref] == Expected(s, a, ref);
    IncRefsAdds(s.refs, ptrs, ByRoot(n), a, ref);
    CountPick(s'.blocks, s'.full, s'.live, a, ref, c);
    assert s'.live - {c} == s.live;
    CountSame(s.blocks, s.full, s'.blocks, s'.full, s.live, a, ref);
    assert RootOk(s, r);
  }

  lemma {:induction false} SnapshotKeepsBlocks(s: State, r: RootId, n: RootId, c: Addr, b: Addr)
    requires CoreInv(s) && MaySnapshot(s, r, n, c) && b in Snapshotted(s, r, n, c).live
    ensures b in Snapshotted(s, r, n, c).blocks && BlockOk(Snapshotted(s, r, n, c), b)
  {
    var s' := Snapshotted(s, r, n, c);
    var node := s.roots[r].node;
    var ptrs := s.blocks[node].ptrs;
    assert RootOk(s, r);
    forall x
      ensures RefsAt(IncRefs(s.refs, ptrs, ByRoot(n)), b)[x] >= RefsAt(s.refs, b)[x]
      ensures b !in ptrs ==> RefsAt(IncRefs(s.refs, ptrs, ByRoot(n)), b)[x] == RefsAt(s.refs, b)[x]
    {
      IncRefsAdds(s.refs, ptrs, ByRoot(n), b, x);
    }
    if b != c {
      assert BlockOk(s, b);
      if b in ptrs {
        PointerIsRecorded(s, node, b);
      }
    }
  }

  lemma {:induction false} SnapshotKeepsPtrs(s: State, r: RootId, n: RootId, c: Addr, h: Addr, a: Addr)
    requires CoreInv(s) && MaySnapshot(s, r, n, c)
    requires var s' := Snapshotted(s, r, n, c); h in s'.blocks && a in s'.blocks[h].ptrs && a in s'.blocks
    ensures PtrOk(Snapshotted(s, r, n, c), h, a)
  {
    if h == c {
      assert PtrOk(s, s.roots[r].node, a);
    } else {
      assert PtrOk(s, h, a);
    }
  }

  lemma {:induction false} SnapshotKeepsRefs(s: State, r: RootId, n: RootId, c: Addr, a: Addr)
    requires CoreInv(s) && MaySnapshot(s, r, n, c) && a !in s.blocks[s.roots[r].node].ptrs
    ensures RefsAt(Snapshotted(s, r, n, c).refs, a) == if a == c then multiset{ByRoot(n)} else RefsAt(s.refs, a)
  {
    var ptrs := s.blocks[s.roots[r].node].ptrs;
    forall x
      ensures RefsAt(IncRefs(s.refs, ptrs, ByRoot(n)), a)[x] == RefsAt(s.refs, a)[x]
    {
      IncRefsAdds(s.refs, ptrs, ByRoot(n), a, x);
    }
  }

  lemma {:induction false} SnapshotKeepsRoots(s: State, r: RootId, n: RootId, c: Addr, q: RootId)
    requires CoreInv(s) && MaySnapshot(s, r, n, c) && q in s.roots
    ensures RootOk(Snapshotted(s, r, n, c), q)
  {
    var top := s.roots[r].node;
    assert RootOk(s, r) && RootOk(s, q);
    var node := s.roots[q].node;
    if node in s.blocks[top].ptrs {
      SoleHolder(s, node, q, top, top);
    }
    SnapshotKeepsRefs(s, r, n, c, node);
  }

  lemma {:induction false} SnapshotKeepsShape(s: State, r: RootId, n: RootId, c: Addr)
    requires CoreInv(s) && MaySnapshot(s, r, n, c)
    ensures Shape(Snapshotted(s, r, n, c)) && HeldInv(Snapshotted(s, r, n, c))
    ensures RootOk(Snapshotted(s, r, n, c), n)
  {
    assert RootOk(s, r);
    SnapshotKeepsRefs(s, r, n, c, c);
  }

  lemma {:induction false} SnapshotKeepsInv(s: State, r: RootId, n: RootId, c: Addr)
    requires Inv(s) && MaySnapshot(s, r, n, c)
    ensures Inv(Snapshotted(s, r, n, c))
  {
    var s' := Snapshotted(s, r, n, c);
    SnapshotKeepsShape(s, r, n, c);
    forall a, ref
      ensures RefsAt(s'.refs, a)[ref] == Expected(s', a, ref)
    {
      SnapshotExactAt(s, r, n, c, a, ref);
    }
    forall b | b in s'.live
      ensures BlockOk(s', b)
    {
      SnapshotKeepsBlocks(s, r, n, c, b);
    }
    forall h, a | h in s'.blocks && a in s'.blocks[h].ptrs && a in s'.blocks
      ensures PtrOk(s', h, a)
    {
      SnapshotKeepsPtrs(s, r, n, c, h, a);
    }
    forall q | q in s'.roots
      ensures RootOk(s', q)
    {
      if q != n {
        SnapshotKeepsRoots(s, r, n, c, q);
      }
    }
  }

  /** create_subvol: a new tree n with the empty leaf c as its node and commit root, and no snapshot yet. */
  function Created(s: State, n: RootId, c: Addr): State
  {
    s.(blocks := s.blocks[c := Block(0, n, s.transid, false, [], 0)],
       live := s.live + {c},
       refs := AddRef(s.refs, c, ByRoot(n)),
       roots := s.roots[n := Root(c, c, 0, false)],
       held := {})
  }

  lemma {:induction false} CreateExactAt(s: State, n: RootId, c: Addr, a: Addr, ref: Ref)
    requires CoreInv(s) && n !in s.roots && Unused(s, c)
    ensures var s' := Created(s, n, c); s'.live <= s'.blocks.Keys && RefsAt(s'.refs, a)[ref] == Expected(s', a, ref)
  {
    var s' := Created(s, n, c);
    assert RefsAt(s.refs, a)[ref] == Expected(s, a, ref);
    CountPick(s'.blocks, s'.full, s'.live, a, ref, c);
    assert s'.live - {c} == s.live;
    CountSame(s.blocks, s.full, s'.blocks, s'.full, s.live, a, ref);
  }

  lemma {:induction false} CreateKeepsBlocks(s: State, n: RootId, c: Addr)
    requires CoreInv(s) && n !in s.roots && Unused(s, c)
    ensures Shape(Created(s, n, c)) && forall b :: b in Created(s, n, c).live ==> BlockOk(Created(s, n, c), b)
  {
    var s' := Created(s, n, c);
    forall b | b in s'.live
      ensures BlockOk(s', b)
    {
      assert b != c ==> BlockOk(s, b);
    }
  }

  lemma {:induction false} CreateKeepsPtrs(s: State, n: RootId, c: Addr, h: Addr, a: Addr)
    requires CoreInv(s) && n !in s.roots && Unused(s, c)
    requires var s' := Created(s, n, c); h in s'.blocks && a in s'.blocks[h].ptrs && a in s'.blocks
    ensures PtrOk(Created(s, n, c), h, a)
  {
    assert PtrOk(s, h, a);
    assert h in s.live ==> BlockOk(s, h);
  }

  lemma {:induction false} CreateKeepsRoots(s: State, n: RootId, c: Addr, r: RootId)
    requires CoreInv(s) && n !in s.roots && Unused(s, c) && r in Created(s, n, c).roots
    ensures RootOk(Created(s, n, c), r)
  {
    assert r != n ==> RootOk(s, r);
  }

  lemma {:induction false} CreateKeepsInv(s: State, n: RootId, c: Addr)
    requires Inv(s) && n !in s.roots && Unused(s, c)
    ensures Inv(Created(s, n, c))
  {
    var s' := Created(s, n, c);
    CreateKeepsBlocks(s, n, c);
    forall a, ref
      ensures RefsAt(s'.refs, a)[ref] == Expected(s', a, ref)
    {
      CreateExactAt(s, n, c, a, ref);
    }
    forall h, a | h in s'.blocks && a in s'.blocks[h].ptrs && a in s'.blocks
      ensures PtrOk(s', h, a)
    {
      CreateKeepsPtrs(s, n, c, h, a);
    }
    forall r | r in s'.roots
      ensures RootOk(s', r)
    {
      CreateKeepsRoots(s, n, c, r);
    }
  }

  /** A held leaf gains a pointer to data extent a at slot k, and the extent a reference: a new file extent
      item, or a clone of one (btrfs_inc_extent_ref). */
  function DataAdded(s: State, b: Addr, k: nat, a: Addr): State
    requires b in s.blocks && k <= |s.blocks[b].ptrs|
  {
    var ptrs := s.blocks[b].ptrs;
    s.(blocks := s.blocks[b := s.blocks[b].(ptrs := ptrs[..k] + [a] + ptrs[k..])],
       refs := AddRef(s.refs, a, ByRoot(s.cur)))
  }

  /** A held leaf loses pointer k to a data extent, and the extent the reference (btrfs_free_extent). */
  function DataDropped(s: State, b: Addr, k: nat): State
    requires b in s.blocks && k < |s.blocks[b].ptrs|
  {
    var ptrs := s.blocks[b].ptrs;
    s.(blocks := s.blocks[b := s.blocks[b].(ptrs := ptrs[..k] + ptrs[k + 1..])],
       refs := DropRef(s.refs, ptrs[k], ByRoot(s.cur)))
  }

  ghost predicate HeldLeaf(s: State, b: Addr)
  {
    b in s.held && b in s.blocks && s.blocks[b].level == 0
  }

  /** Held leaf b has d pointers more to data extent a, and a has d references more of b's tree. */
  ghost predicate DataMoved(s: State, b: Addr, ptrs: seq<Addr>, refs: map<Addr, multiset<Ref>>, a: Addr, d: int)
  {
    && HeldLeaf(s, b) && a !in s.blocks
    && (forall x :: multiset(ptrs)[x] as int == multiset(s.blocks[b].ptrs)[x] + if x == a then d else 0)
    && (forall x :: x != a ==> RefsAt(refs, x) == RefsAt(s.refs, x))
    && (forall ref :: RefsAt(refs, a)[ref] as int == RefsAt(s.refs, a)[ref] + if ref == ByRoot(s.cur) then d else 0)
  }

  function WithPtrs(s: State, b: Addr, ptrs: seq<Addr>, refs: map<Addr, multiset<Ref>>): State
    requires b in s.blocks
  {
    s.(blocks := s.blocks[b := s.blocks[b].(ptrs := ptrs)], refs := refs)
  }

  lemma {:induction false} DataExactAt(s: State, b: Addr, ptrs: seq<Addr>, refs: map<Addr, multiset<Ref>>, a: Addr,
          d: int,
          x: Addr, ref: Ref)
    requires Inv(s) && DataMoved(s, b, ptrs, refs, a, d)
    ensures var s' := WithPtrs(s, b, ptrs, refs);
            s'.live <= s'.blocks.Keys && RefsAt(s'.refs, x)[ref] == Expected(s', x, ref)
  {
    var s' := WithPtrs(s, b, ptrs, refs);
    assert HeldOk(s, b);
    assert RefsAt(s.refs, x)[ref] == Expected(s, x, ref);
    CountPick(s.blocks, s.full, s.live, x, ref, b);
    CountPick(s'.blocks, s'.full, s'.live, x, ref, b);
    CountSame(s.blocks, s.full, s'.blocks, s'.full, s.live - {b}, x, ref);
  }

  lemma {:induction false} DataKeepsPtrs(s: State, b: Addr, ptrs: seq<Addr>, refs: map<Addr, multiset<Ref>>, a: Addr,
          d: int,
          h: Addr, x: Addr)
    requires Inv(s) && DataMoved(s, b, ptrs, refs, a, d)
    requires var s' := WithPtrs(s, b, ptrs, refs); h in s'.blocks && x in s'.blocks[h].ptrs && x in s'.blocks
    ensures x in s.blocks[h].ptrs && PtrOk(WithPtrs(s, b, ptrs, refs), h, x)
  {
    if h == b {
      assert x in multiset(ptrs);
      assert x in multiset(s.blocks[b].ptrs);
    }
    assert PtrOk(s, h, x);
  }

  lemma {:induction false} DataKeepsBlocks(s: State, b: Addr, ptrs: seq<Addr>, refs: map<Addr, multiset<Ref>>, a: Addr,
          d: int)
    requires Inv(s) && DataMoved(s, b, ptrs, refs, a, d)
    ensures var s' := WithPtrs(s, b, ptrs, refs);
            Shape(s') && (forall k :: k in s'.live ==> BlockOk(s', k)) && forall r :: r in s'.roots ==> RootOk(s', r)
  {
    var s' := WithPtrs(s, b, ptrs, refs);
    forall k | k in s'.live
      ensures BlockOk(s', k)
    {
      assert BlockOk(s, k);
    }
    forall r | r in s'.roots
      ensures RootOk(s', r)
    {
      assert RootOk(s, r);
    }
  }

  lemma {:induction false} DataKeepsHeld(s: State, b: Addr, ptrs: seq<Addr>, refs: map<Addr, multiset<Ref>>, a: Addr,
          d: int,
          k: Addr)
    requires Inv(s) && DataMoved(s, b, ptrs, refs, a, d) && k in s.held
    ensures HeldOk(WithPtrs(s, b, ptrs, refs), k)
  {
    var s' := WithPtrs(s, b, ptrs, refs);
    assert HeldOk(s, k);
    forall h | h in s'.live && h in s'.blocks && k in s'.blocks[h].ptrs
      ensures h in s'.held
    {
      DataKeepsPtrs(s, b, ptrs, refs, a, d, h, k);
    }
  }

  /** Only one held leaf and the references of one data extent change, and they change alike. */
  lemma {:induction false} DataKeepsInv(s: State, b: Addr, ptrs: seq<Addr>, refs: map<Addr, multiset<Ref>>, a: Addr,
          d: int)
    requires Inv(s) && DataMoved(s, b, ptrs, refs, a, d)
    ensures Inv(WithPtrs(s, b, ptrs, refs))
  {
    var s' := WithPtrs(s, b, ptrs, refs);
    DataKeepsBlocks(s, b, ptrs, refs, a, d);
    forall x, ref
      ensures RefsAt(s'.refs, x)[ref] == Expected(s', x, ref)
    {
      DataExactAt(s, b, ptrs, refs, a, d, x, ref);
    }
    forall h, x | h in s'.blocks && x in s'.blocks[h].ptrs && x in s'.blocks
      ensures PtrOk(s', h, x)
    {
      DataKeepsPtrs(s, b, ptrs, refs, a, d, h, x);
    }
    forall k | k in s'.held
      ensures HeldOk(s', k)
    {
      DataKeepsHeld(s, b, ptrs, refs, a, d, k);
    }
  }

  lemma {:induction false} AddDataKeepsInv(s: State, b: Addr, k: nat, a: Addr)
    requires Inv(s) && HeldLeaf(s, b) && k <= |s.blocks[b].ptrs| && a !in s.blocks
    ensures Inv(DataAdded(s, b, k, a))
  {
    var P := s.blocks[b].ptrs;
    AddIsMoved(s, b, k, a);
    DataKeepsInv(s, b, P[..k] + [a] + P[k..], AddRef(s.refs, a, ByRoot(s.cur)), a, 1);
  }

  lemma {:induction false} AddIsMoved(s: State, b: Addr, k: nat, a: Addr)
    requires HeldLeaf(s, b) && k <= |s.blocks[b].ptrs| && a !in s.blocks
    ensures var P := s.blocks[b].ptrs; DataMoved(s, b, P[..k] + [a] + P[k..], AddRef(s.refs, a, ByRoot(s.cur)), a, 1)
  {
    PutCounts(s.blocks[b].ptrs, k, a);
    AddRefCounts(s.refs, a, ByRoot(s.cur));
  }

  lemma {:induction false} PutCounts(P: seq<Addr>, k: nat, c: Addr)
    requires k <= |P|
    ensures forall x :: multiset(P[..k] + [c] + P[k..])[x] == multiset(P)[x] + One(x == c)
  {
    forall x
      ensures multiset(P[..k] + [c] + P[k..])[x] == multiset(P)[x] + One(x == c)
    {
      PutCount(P, k, c, x);
    }
  }

  lemma {:induction false} AddRefCounts(refs: map<Addr, multiset<Ref>>, a: Addr, r: Ref)
    ensures forall x :: x != a ==> RefsAt(AddRef(refs, a, r), x) == RefsAt(refs, x)
    ensures forall ref :: RefsAt(AddRef(refs, a, r), a)[ref] == RefsAt(refs, a)[ref] + One(ref == r)
  {
  }

  lemma {:induction false} DropDataKeepsInv(s: State, b: Addr, k: nat)
    requires Inv(s) && HeldLeaf(s, b) && k < |s.blocks[b].ptrs| && s.blocks[b].ptrs[k] !in s.blocks
    ensures Inv(DataDropped(s, b, k))
  {
    var P := s.blocks[b].ptrs;
    var a, ptrs := P[k], P[..k] + P[k + 1..];
    assert HeldOk(s, b);
    PointerIsRecorded(s, b, a);
    forall x
      ensures multiset(ptrs)[x] + One(x == a) == multiset(P)[x]
    {
      TakeCount(P, k, x);
    }
    DataKeepsInv(s, b, ptrs, DropRef(s.refs, a, ByRoot(s.cur)), a, -1);
  }

  /** The next transaction starts: commit roots switch, FORCE_COW is cleared. */
  function Committed(s: State): State
  {
    s.(roots := map r | r in s.roots :: s.roots[r].(commitRoot := s.roots[r].node, forceCow := false),
       transid := s.transid + 1,
       held := {})
  }

  lemma {:induction false} CommitKeepsInv(s: State)
    requires Inv(s)
    ensures Inv(Committed(s))
  {
    var s' := Committed(s);
    forall a, ref
      ensures RefsAt(s'.refs, a)[ref] == Expected(s', a, ref)
    {
      assert RefsAt(s.refs, a)[ref] == Expected(s, a, ref);
      assert RootCount(s'.roots, a, ref) == RootCount(s.roots, a, ref);
    }
    forall b | b in s'.live
      ensures BlockOk(s', b)
    {
      assert BlockOk(s, b);
    }
    forall h, a | h in s'.blocks && a in s'.blocks[h].ptrs && a in s'.blocks
      ensures PtrOk(s', h, a)
    {
      assert PtrOk(s, h, a);
    }
    forall r | r in s'.roots
      ensures RootOk(s', r)
    {
      assert RootOk(s, r);
    }
  }

  /** A dirty block of the running transaction is written out early. */
  function WrittenOut(s: State, b: Addr): State
    requires b in s.blocks
  {
    s.(blocks := s.blocks[b := s.blocks[b].(written := true)])
  }

  lemma {:induction false} WriteOutKeepsInv(s: State, b: Addr)
    requires Inv(s) && b in s.blocks && b !in s.held
    ensures Inv(WrittenOut(s, b))
  {
    var s' := WrittenOut(s, b);
    forall a, ref
      ensures RefsAt(s'.refs, a)[ref] == Expected(s', a, ref)
    {
      assert RefsAt(s.refs, a)[ref] == Expected(s, a, ref);
      CountSame(s.blocks, s.full, s'.blocks, s'.full, s.live, a, ref);
    }
    forall k | k in s'.live
      ensures BlockOk(s', k)
    {
      assert BlockOk(s, k);
    }
    forall h, a | h in s'.blocks && a in s'.blocks[h].ptrs && a in s'.blocks
      ensures PtrOk(s', h, a)
    {
      assert PtrOk(s, h, a);
    }
    forall r | r in s'.roots
      ensures RootOk(s', r)
    {
      assert RootOk(s, r);
    }
    forall k | k in s'.held
      ensures HeldOk(s', k)
    {
      assert HeldOk(s, k);
    }
  }

  // ---------------------------------------------------------------------------------------------
  // Runs

  datatype Step =
    | Start(r: RootId, c: Addr)               // btrfs_search_slot at the root of tree r, c for the copy
    | Visit(p: Addr, i: nat, c: Addr)         // go down to, or pull in as a sibling, child i of held block p
    | Restructure(edit: map<Addr, Body>, node: Addr)
    | Release                                 // btrfs_release_path
    | AddData(b: Addr, k: nat, a: Addr)
    | DropData(b: Addr, k: nat)
    | Create(n: RootId, c: Addr)              // a new subvolume
    | Snapshot(r: RootId, n: RootId, c: Addr)
    | Commit
    | WriteOut(b: Addr)

  ghost predicate Enabled(s: State, step: Step)
  {
    match step
    case Start(r, c) => Usable(s, r) && Unused(s, c) && s.roots[r].node in s.blocks
    case Visit(p, i, c) => ChildReady(s, p, i, c)
    case Restructure(edit, node) => MayRestructure(s, edit, node)
    case Release => true
    case AddData(b, k, a) => HeldLeaf(s, b) && k <= |s.blocks[b].ptrs| && a !in s.blocks
    case DropData(b, k) => HeldLeaf(s, b) && k < |s.blocks[b].ptrs| && s.blocks[b].ptrs[k] !in s.blocks
    case Create(n, c) => n !in s.roots && Unused(s, c)
    case Snapshot(r, n, c) => MaySnapshot(s, r, n, c)
    case Commit => true
    case WriteOut(b) => b in s.blocks && b !in s.held && s.blocks[b].gen == s.transid
  }

  function Started(s: State, r: RootId, c: Addr): State
    requires r in s.roots && s.roots[r].node in s.blocks
  {
    var s0 := s.(cur := r, held := {});
    if ShouldCow(s0, r, s.roots[r].node) then CowRoot(s0, c) else s0.(held := {s.roots[r].node})
  }

  function Visited(s: State, p: Addr, i: nat, c: Addr): State
    requires p in s.blocks && i < |s.blocks[p].ptrs| && s.blocks[p].ptrs[i] in s.blocks && s.cur in s.roots
    requires c !in s.blocks
  {
    var b := s.blocks[p].ptrs[i];
    if ShouldCow(s, s.cur, b) then CowChild(s, p, i, c) else s.(held := s.held + {b})
  }

  ghost function Apply(s: State, step: Step): State
    requires Enabled(s, step)
  {
    match step
    case Start(r, c) => Started(s, r, c)
    case Visit(p, i, c) => Visited(s, p, i, c)
    case Restructure(edit, node) => Restructured(s, edit, node)
    case Release => s.(held := {})
    case AddData(b, k, a) => DataAdded(s, b, k, a)
    case DropData(b, k) => DataDropped(s, b, k)
    case Create(n, c) => Created(s, n, c)
    case Snapshot(r, n, c) => Snapshotted(s, r, n, c)
    case Commit => Committed(s)
    case WriteOut(b) => WrittenOut(s, b)
  }

  lemma {:induction false} StartKeepsInv(s: State, r: RootId, c: Addr)
    requires Inv(s) && Usable(s, r) && Unused(s, c) && s.roots[r].node in s.blocks
    ensures Inv(Started(s, r, c))
  {
    var s0 := s.(cur := r, held := {});
    PathFrame(s, r, {});
    assert RootOk(s0, r);
    if ShouldCow(s0, r, s.roots[r].node) {
      CowRootKeepsInv(s0, c);
    } else {
      TouchRootKeepsHeld(s0);
      PathFrame(s0, r, {s.roots[r].node});
    }
  }

  lemma {:induction false} VisitKeepsInv(s: State, p: Addr, i: nat, c: Addr)
    requires Inv(s) && ChildReady(s, p, i, c)
    ensures Inv(Visited(s, p, i, c))
  {
    var b := s.blocks[p].ptrs[i];
    if ShouldCow(s, s.cur, b) {
      CowChildKeepsInv(s, p, i, c);
    } else {
      TouchKeepsHeld(s, p, b);
      PathFrame(s, s.cur, s.held + {b});
    }
  }

  lemma {:induction false} StepKeepsInv(s: State, step: Step)
    requires Inv(s) && Enabled(s, step)
    ensures Inv(Apply(s, step))
  {
    match step
    case Start(r, c) => StartKeepsInv(s, r, c);
    case Visit(p, i, c) => VisitKeepsInv(s, p, i, c);
    case Restructure(edit, node) => RestructureKeepsInv(s, edit, node);
    case Release => PathFrame(s, s.cur, {});
    case AddData(b, k, a) => AddDataKeepsInv(s, b, k, a);
    case DropData(b, k) => DropDataKeepsInv(s, b, k);
    case Create(n, c) => CreateKeepsInv(s, n, c);
    case Snapshot(r, n, c) => SnapshotKeepsInv(s, r, n, c);
    case Commit => CommitKeepsInv(s);
    case WriteOut(b) => WriteOutKeepsInv(s, b);
  }

  /** A freshly made file system: one tree, one empty leaf. */
  function Init(r: RootId, a: Addr): State
  {
    State(map[a := Block(0, r, 0, true, [], 0)], {a}, {}, map[a := multiset{ByRoot(r)}],
          map[r := Root(a, a, 0, false)], 1, r, {})
  }

  lemma {:induction false} InitInv(r: RootId, a: Addr)
    ensures Inv(Init(r, a))
  {
    var s := Init(r, a);
    forall x, ref
      ensures RefsAt(s.refs, x)[ref] == Expected(s, x, ref)
    {
      CountPick(s.blocks, s.full, s.live, x, ref, a);
      assert s.live - {a} == {};
    }
    assert BlockOk(s, a) && RootOk(s, r);
  }

  ghost predicate IsRun(run: seq<State>, steps: seq<Step>)
  {
    && |run| == |steps| + 1
    && (exists r, a :: run[0] == Init(r, a))
    && forall i {:trigger steps[i]} :: 0 <= i < |steps| ==>
        Enabled(run[i], steps[i]) && run[i + 1] == Apply(run[i], steps[i])
  }

  lemma {:induction false} RunInv(run: seq<State>, steps: seq<Step>, i: nat)
    requires IsRun(run, steps) && i < |run|
    ensures Inv(run[i])
  {
    if i == 0 {
      var r, a :| run[0] == Init(r, a);
      InitInv(r, a);
    } else {
      RunInv(run, steps, i - 1);
      StepKeepsInv(run[i - 1], steps[i - 1]);
    }
  }

  /** In every run the recorded references of every extent are exactly its live pointers. */
  lemma {:induction false} ReferencesStayExact(run: seq<State>, steps: seq<Step>, i: nat, a: Addr, ref: Ref)
    requires IsRun(run, steps) && i < |run|
    ensures run[i].live <= run[i].blocks.Keys
    ensures RefsAt(run[i].refs, a)[ref] == Expected(run[i], a, ref)
  {
    RunInv(run, steps, i);
  }

  /** In every run a block without full back references is still pointed at by its owner tree. */
  lemma {:induction false} OwnerStillRefers(run: seq<State>, steps: seq<Step>, i: nat, b: Addr)
    requires IsRun(run, steps) && i < |run| && b in run[i].live && b !in run[i].full
    ensures b in run[i].blocks && run[i].blocks[b].owner in run[i].roots
    ensures var owner := run[i].blocks[b].owner;
      run[i].roots[owner].node == b
      || exists h :: h in run[i].live && h in run[i].blocks && h !in run[i].full && run[i].blocks[h].owner == owner
          && b in run[i].blocks[h].ptrs
  {
    RunInv(run, steps, i);
    var s := run[i];
    assert BlockOk(s, b);
    var ref := ByRoot(s.blocks[b].owner);
    assert RefsAt(s.refs, b)[ref] == Expected(s, b, ref);
    if s.roots[s.blocks[b].owner].node != b {
      HolderByRef(s.blocks, s.full, s.live, b, ref);
    }
  }

  lemma {:induction false} HolderByRef(blocks: map<Addr, Block>, full: set<Addr>, S: set<Addr>, a: Addr, ref: Ref)
    requires S <= blocks.Keys && Count(blocks, full, S, a, ref) > 0
    ensures exists h :: h in S && a in blocks[h].ptrs && RefOf(blocks, full, h) == ref
    decreases S
  {
    var h :| h in S;
    CountPick(blocks, full, S, a, ref, h);
    if Contrib(blocks, full, h, a, ref) == 0 {
      HolderByRef(blocks, full, S - {h}, a, ref);
    }
  }

  /** In every run a COW that looks a block up finds at least one reference: the corruption exit of
      update_ref_for_cow is not taken. */
  lemma {:induction false} LookupNeverFindsZero(run: seq<State>, steps: seq<Step>, i: nat, p: Addr, slot: nat, c: Addr)
    requires IsRun(run, steps) && i < |run| && Enabled(run[i], Visit(p, slot, c))
    ensures |RefsAt(run[i].refs, run[i].blocks[p].ptrs[slot])| > 0
  {
    RunInv(run, steps, i);
    LookupIsTrue(run[i], p, run[i].blocks[p].ptrs[slot]);
  }

  // ---------------------------------------------------------------------------------------------
  // A commit root can be shared: the last branch of btrfs_block_can_be_shared

  /** A subvolume n created in the running transaction grows by a level: its commit root c is now the only
      child of its root block d. */
  ghost predicate Grown(s: State, n: RootId, c: Addr, d: Addr)
  {
    && s.transid > 0 && c != d && c in s.blocks && d in s.blocks && c in s.live
    && n in s.roots && s.roots[n] == Root(d, c, 0, false)
    && s.blocks[d].ptrs == [c] && s.blocks[c].gen == s.transid && RefsAt(s.refs, c) == multiset{ByRoot(n)}
  }

  lemma {:induction false} CreateThenGrow(s: State, n: RootId, c: Addr, d: Addr)
    requires Inv(s) && s.transid > 0 && n !in s.roots && Unused(s, c) && Unused(s, d) && c != d
    ensures Enabled(s, Create(n, c)) && Enabled(Created(s, n, c), Start(n, d))
    ensures var s2 := Started(Created(s, n, c), n, d);
            && OpReady(s2, NewRoot(d)) && MayRestructure(s2, EditOf(s2, NewRoot(d)), d)
            && Grown(Restructured(s2, EditOf(s2, NewRoot(d)), d), n, c, d)
  {
    var s1 := Created(s, n, c);
    CreateKeepsInv(s, n, c);
    StartKeepsInv(s1, n, d);
    var s2 := Started(s1, n, d);
    assert s2 == s1.(cur := n, held := {c});
    OpIsBalanced(s2, NewRoot(d));
  }

  /** Snapshot it to m, and start the next change of it: the block in its root block's only slot is its own
      commit root, not its root block, and both trees refer to it; the generation test is what makes the
      code look. */
  lemma {:induction false} CommitRootIsShared(s: State, n: RootId, m: RootId, c: Addr, d: Addr, e: Addr, f: Addr)
    requires Inv(s) && Grown(s, n, c, d) && m !in s.roots && Unused(s, e) && Unused(s, f) && e != f
    ensures Enabled(s, Snapshot(n, m, e)) && Enabled(Snapshotted(s, n, m, e), Start(n, f))
    ensures var s' := Started(Snapshotted(s, n, m, e), n, f);
            && f in s'.held && f in s'.blocks && s'.blocks[f].ptrs == [c] && c in s'.live && c in s'.blocks
            && c == s'.roots[n].commitRoot && c != s'.roots[n].node && CanBeShared(s', n, c)
            && RefsAt(s'.refs, c) == multiset{ByRoot(n), ByRoot(m)}
  {
    var s1 := Snapshotted(s, n, m, e);
    assert RootOk(s, n);
    assert [c][..0] == [];
    assert IncRefs(s.refs, [c], ByRoot(m)) == AddRef(s.refs, c, ByRoot(m));
  }

  // ---------------------------------------------------------------------------------------------
  // The committed trees do not change while a transaction runs

  /** Everything written before the transaction of s reads the same in s'. */
  ghost predicate OldSame(s: State, s': State)
  {
    && s'.transid == s.transid
    && (forall b :: b in s.blocks && s.blocks[b].gen < s.transid ==> b in s'.blocks && s'.blocks[b] == s.blocks[b])
    && (forall b, a :: b in s.blocks && s.blocks[b].gen < s.transid && a in s.blocks[b].ptrs && a !in s.blocks ==>
        a !in s'.blocks)
    && (forall r :: r in s.roots ==> r in s'.roots && s'.roots[r].commitRoot == s.roots[r].commitRoot)
  }

  lemma {:induction false} VisitKeepsOld(s: State, p: Addr, i: nat, c: Addr)
    requires Inv(s) && ChildReady(s, p, i, c)
    ensures OldSame(s, Visited(s, p, i, c))
  {
    assert HeldOk(s, p);
  }

  lemma {:induction false} RestructureKeepsOld(s: State, edit: map<Addr, Body>, node: Addr)
    requires Inv(s) && MayRestructure(s, edit, node)
    ensures OldSame(s, Restructured(s, edit, node))
  {
    forall b | b in edit
      ensures if b in s.held then HeldOk(s, b) else Unused(s, b)
    {
    }
  }

  lemma {:induction false} StepKeepsOld(s: State, step: Step)
    requires Inv(s) && Enabled(s, step) && !step.Commit?
    ensures OldSame(s, Apply(s, step))
  {
    match step
    case Visit(p, i, c) => VisitKeepsOld(s, p, i, c);
    case Restructure(edit, node) => RestructureKeepsOld(s, edit, node);
    case AddData(b, k, a) => assert HeldOk(s, b);
    case DropData(b, k) => assert HeldOk(s, b);
    case _ =>
  }

  lemma {:induction false} OldSameTrans(s: State, s1: State, s2: State)
    requires OldSame(s, s1) && OldSame(s1, s2)
    ensures OldSame(s, s2)
  {
  }

  datatype View = Cut(addr: Addr) | Shown(block: Block, children: seq<View>)

  /** What a reader starting at a sees, down to the given depth. */
  ghost function ViewOf(blocks: map<Addr, Block>, a: Addr, depth: nat): View
    decreases depth
  {
    if depth == 0 || a !in blocks then Cut(a)
    else Shown(blocks[a],
        seq(|blocks[a].ptrs|, i requires 0 <= i < |blocks[a].ptrs| => ViewOf(blocks, blocks[a].ptrs[i], depth - 1)))
  }

  lemma {:induction false} OldViewSame(s: State, s': State, a: Addr, depth: nat)
    requires Inv(s) && OldSame(s, s')
    requires a in s.blocks && s.blocks[a].gen < s.transid
    ensures ViewOf(s.blocks, a, depth) == ViewOf(s'.blocks, a, depth)
    decreases depth
  {
    if depth != 0 {
      var ptrs := s.blocks[a].ptrs;
      forall i | 0 <= i < |ptrs|
        ensures ViewOf(s.blocks, ptrs[i], depth - 1) == ViewOf(s'.blocks, ptrs[i], depth - 1)
      {
        if ptrs[i] in s.blocks {
          assert PtrOk(s, a, ptrs[i]);
          OldViewSame(s, s', ptrs[i], depth - 1);
        }
      }
    }
  }

  lemma {:induction false} RunKeepsOld(run: seq<State>, steps: seq<Step>, i: nat, j: nat)
    requires IsRun(run, steps) && i <= j < |run|
    requires forall k :: i <= k < j ==> !steps[k].Commit?
    ensures OldSame(run[i], run[j])
    decreases j
  {
    if i < j {
      RunKeepsOld(run, steps, i, j - 1);
      RunInv(run, steps, j - 1);
      StepKeepsOld(run[j - 1], steps[j - 1]);
      OldSameTrans(run[i], run[j - 1], run[j]);
    }
  }

  /** State i is the first of a transaction. */
  ghost predicate Begins(run: seq<State>, steps: seq<Step>, i: nat)
  {
    IsRun(run, steps) && i < |run| && (i == 0 || steps[i - 1].Commit?)
  }

  /** When a transaction begins, the commit root of every tree is older than it. */
  lemma {:induction false} CommitRootsAreOld(run: seq<State>, steps: seq<Step>, i: nat, r: RootId)
    requires Begins(run, steps, i) && r in run[i].roots
    ensures run[i].roots[r].commitRoot in run[i].blocks
    ensures run[i].blocks[run[i].roots[r].commitRoot].gen < run[i].transid
  {
    if i > 0 {
      RunInv(run, steps, i - 1);
      assert steps[i - 1].Commit? && run[i] == Apply(run[i - 1], steps[i - 1]);
      assert RootOk(run[i - 1], r);
    }
  }

  /** From the beginning of a transaction to its end the tree below the commit root of every tree reads the
      same at every moment, to any depth, whatever is copied, rewritten, allocated, freed, created or
      snapshotted meanwhile. */
  lemma {:induction false} CommittedTreeIsStable(run: seq<State>, steps: seq<Step>, i: nat, j: nat, r: RootId,
          depth: nat)
    requires Begins(run, steps, i) && i <= j < |run| && r in run[i].roots
    requires forall k :: i <= k < j ==> !steps[k].Commit?
    ensures r in run[j].roots && run[j].roots[r].commitRoot == run[i].roots[r].commitRoot
    ensures ViewOf(run[i].blocks, run[i].roots[r].commitRoot, depth)
            == ViewOf(run[j].blocks, run[j].roots[r].commitRoot, depth)
  {
    RunInv(run, steps, i);
    RunKeepsOld(run, steps, i, j);
    CommitRootsAreOld(run, steps, i, r);
    OldViewSame(run[i], run[j], run[i].roots[r].commitRoot, depth);
  }
}
