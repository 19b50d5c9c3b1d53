/** Collecting the roots that reach an extent: a list of blocks that grows while it is walked. */
module RootWalk {
  import opened Common
  import opened Errno

  /** What find_parent_nodes would find for each block: the blocks that refer to it, the roots that do, and
      the error it returns. */
  datatype Graph = Graph(parents: map<nat, seq<nat>>, roots: map<nat, seq<nat>>, errors: map<nat, int>)
  {
    function Parents(b: nat): seq<nat>
    {
      if b in parents then parents[b] else []
    }

    function Roots(b: nat): seq<nat>
    {
      if b in roots then roots[b] else []
    }

    /** Any error but -ENOENT ends the walk. */
    predicate Fails(b: nat)
    {
      b in errors && errors[b] < 0 && errors[b] != ENOENT
    }
  }

  /** A chain of references, each block referred to by the next. */
  predicate IsChain(g: Graph, path: seq<nat>)
  {
    path != [] && forall i :: 0 <= i < |path| - 1 ==> path[i + 1] in g.Parents(path[i])
  }

  ghost predicate Reaches(g: Graph, a: nat, b: nat)
  {
    exists path :: IsChain(g, path) && path[0] == a && path[|path| - 1] == b
  }

  lemma {:induction false} ReachesSelf(g: Graph, a: nat)
    ensures Reaches(g, a, a)
  {
    assert IsChain(g, [a]);
  }

  lemma {:induction false} ReachesFurther(g: Graph, a: nat, b: nat, c: nat)
    requires Reaches(g, a, b) && c in g.Parents(b)
    ensures Reaches(g, a, c)
  {
    var path :| IsChain(g, path) && path[0] == a && path[|path| - 1] == b;
    assert IsChain(g, path + [c]);
  }

  /** A set that holds the start and the parents of its members holds everything reachable. */
  lemma {:induction false} ClosedHoldsReachable(g: Graph, seen: set<nat>, path: seq<nat>)
    requires IsChain(g, path) && path[0] in seen
    requires forall b, c :: b in seen && c in g.Parents(b) ==> c in seen
    ensures path[|path| - 1] in seen
    decreases |path|
  {
    if |path| > 1 {
      var n := |path| - 1;
      assert IsChain(g, path[..n]);
      ClosedHoldsReachable(g, seen, path[..n]);
      assert path[n] in g.Parents(path[n - 1]);
    }
  }

  // ---------------------------------------------------------------------------------------------
  // ulist

  predicate Unique(list: seq<nat>)
  {
    forall i, j :: 0 <= i < j < |list| ==> list[i] != list[j]
  }

  /** ulist_add: at the end, unless it is there. */
  function Add(list: seq<nat>, v: nat): (r: seq<nat>)
    ensures forall x :: x in r <==> x in list || x == v
    ensures list <= r && (Unique(list) ==> Unique(r))
  {
    if v in list then list else list + [v]
  }

  /** One find_parent_nodes adds all it found. */
  method AddAll(list: seq<nat>, vs: seq<nat>) returns (r: seq<nat>)
    requires Unique(list)
    ensures Unique(r) && list <= r && forall x :: x in r <==> x in list || x in vs
  {
    r := list;
    var i := 0;
    while i < |vs|
      invariant 0 <= i <= |vs| && Unique(r) && list <= r
      invariant forall x :: x in r <==> x in list || x in vs[..i]
    {
      assert vs[..i + 1] == vs[..i] + [vs[i]];
      r := Add(r, vs[i]);
      i := i + 1;
    }
    assert vs[..i] == vs;
  }

  /** All values the lists can ever hold. */
  ghost function Universe(g: Graph): set<nat>
  {
    set b, v | b in g.parents && v in g.parents[b] :: v
  }

  lemma {:induction false} UniqueFits(list: seq<nat>, universe: set<nat>)
    requires Unique(list) && forall x :: x in list ==> x in universe
    ensures |list| <= |universe|
    decreases |list|
  {
    if list != [] {
      var n := |list| - 1;
      UniqueFits(list[..n], universe - {list[n]});
    }
  }

  // ---------------------------------------------------------------------------------------------
  // The walk

  /** The first n blocks walked: the start, then the list in order. */
  predicate Walked(start: nat, refs: seq<nat>, n: nat, b: nat)
  {
    0 < n <= |refs| + 1 && (b == start || b in refs[..n - 1])
  }

  /** What a block that has been walked has left behind. */
  predicate Noted(g: Graph, refs: seq<nat>, found: seq<nat>, b: nat)
  {
    !g.Fails(b) && (forall c :: c in g.Parents(b) ==> c in refs) && (forall r :: r in g.Roots(b) ==> r in found)
  }

  ghost predicate AllNoted(g: Graph, start: nat, refs: seq<nat>, n: nat, found: seq<nat>)
  {
    forall b {:trigger Walked(start, refs, n, b)} :: Walked(start, refs, n, b) ==> Noted(g, refs, found, b)
  }

  /** A root found is one that was given or one attached to a reachable block. */
  ghost predicate Justified(g: Graph, start: nat, given: seq<nat>, r: nat)
  {
    r in given || exists b :: Reaches(g, start, b) && r in g.Roots(b)
  }

  ghost predicate AllReached(g: Graph, start: nat, refs: seq<nat>)
  {
    forall b :: b in refs ==> Reaches(g, start, b) && b in Universe(g)
  }

  /** One more block walked. */
  lemma {:induction false} WalkOne(g: Graph, start: nat, refs: seq<nat>, refs': seq<nat>, n: nat, found: seq<nat>,
          found': seq<nat>, cur: nat)
    requires n <= |refs| && refs <= refs' && found <= found' && AllNoted(g, start, refs, n, found)
    requires cur == (if n == 0 then start else refs[n - 1]) && Noted(g, refs', found', cur)
    ensures AllNoted(g, start, refs', n + 1, found')
  {
    forall b | Walked(start, refs', n + 1, b)
      ensures Noted(g, refs', found', b)
    {
      if b != cur {
        assert n > 0 && refs'[..n] == refs[..n] == refs[..n - 1] + [cur];
        assert Walked(start, refs, n, b);
      }
    }
  }

  lemma {:induction false} ReachOne(g: Graph, start: nat, refs: seq<nat>, refs': seq<nat>, cur: nat)
    requires AllReached(g, start, refs) && Reaches(g, start, cur)
    requires forall x :: x in refs' <==> x in refs || x in g.Parents(cur)
    ensures AllReached(g, start, refs')
  {
    forall b | b in refs'
      ensures Reaches(g, start, b) && b in Universe(g)
    {
      if b in g.Parents(cur) {
        ReachesFurther(g, start, cur, b);
      }
    }
  }

  /** With the whole list walked, the list is what can be reached and the roots are its roots. */
  lemma {:induction false} Complete(g: Graph, start: nat, refs: seq<nat>, found: seq<nat>, b: nat)
    requires AllNoted(g, start, refs, |refs| + 1, found) && Reaches(g, start, b)
    ensures b == start || b in refs
    ensures Noted(g, refs, found, b)
  {
    assert refs[..|refs|] == refs;
    var seen := {start} + set x | x in refs;
    forall x, y | x in seen && y in g.Parents(x)
      ensures y in seen
    {
      assert Walked(start, refs, |refs| + 1, x);
    }
    var path :| IsChain(g, path) && path[0] == start && path[|path| - 1] == b;
    ClosedHoldsReachable(g, seen, path);
    assert Walked(start, refs, |refs| + 1, b);
  }

  class Ctx {
    var bytenr: nat
    var skipInodeRefList: bool
    var roots: Option<seq<nat>>

    constructor (bytenr: nat, skip: bool, roots: Option<seq<nat>>)
      ensures this.bytenr == bytenr && skipInodeRefList == skip && this.roots == roots
    {
      this.bytenr, this.skipInodeRefList, this.roots := bytenr, skip, roots;
    }

    /** btrfs_find_all_roots_safe.  refs is returned for what is said of it; the source frees it. */
    method FindAllRoots(g: Graph) returns (ret: int, refs: seq<nat>)
      requires roots.Some? ==> Unique(roots.value)
      modifies this
      ensures bytenr == old(bytenr) && skipInodeRefList == old(skipInodeRefList)
      ensures Unique(refs) && AllReached(g, bytenr, refs)
      ensures ret == 0 <==> forall b {:trigger Reaches(g, bytenr, b)} :: Reaches(g, bytenr, b) ==> !g.Fails(b)
      ensures ret == 0 ==> roots.Some? && Unique(roots.value)
      ensures ret == 0 ==> forall b {:trigger Reaches(g, bytenr, b)} :: Reaches(g, bytenr, b) <==>
              b == bytenr || b in refs
      ensures ret == 0 ==> forall r :: r in roots.value <==>
              Justified(g, bytenr, if old(roots).Some? then old(roots).value else [], r)
      ensures ret != 0 && old(roots).None? ==> roots.None?
      ensures ret != 0 && old(roots).Some? ==>
                roots.Some? && old(roots).value <= roots.value && forall r :: r in roots.value ==>
                    Justified(g, bytenr, old(roots).value, r)
    {
      var start, skip := bytenr, skipInodeRefList;
      var given: seq<nat> := if roots.None? then [] else roots.value;
      skipInodeRefList := true;
      var found;
      ret, refs, found := Walk(g, start, given);
      skipInodeRefList := skip;
      if ret == 0 || roots.Some? {
        roots := Some(found);
      }
    }

    /** The loop. */
    method Walk(g: Graph, start: nat, given: seq<nat>) returns (ret: int, refs: seq<nat>, found: seq<nat>)
      requires Unique(given) && bytenr == start
      modifies this`bytenr
      ensures bytenr == start && Unique(refs) && AllReached(g, start, refs)
      ensures ret == 0 <==> forall b {:trigger Reaches(g, start, b)} :: Reaches(g, start, b) ==> !g.Fails(b)
      ensures Unique(found) && given <= found && forall r :: r in found ==> Justified(g, start, given, r)
      ensures ret == 0 ==> forall b {:trigger Reaches(g, start, b)} :: Reaches(g, start, b) <==> b == start || b in refs
      ensures ret == 0 ==> forall r :: r in found <==> Justified(g, start, given, r)
    {
      refs, found, ret := [], given, 0;
      var i := 0;
      ReachesSelf(g, start);
      while true
        invariant Unique(refs) && Unique(found) && 0 <= i <= |refs| && bytenr == (if i == 0 then start else refs[i - 1])
        invariant AllReached(g, start, refs) && AllNoted(g, start, refs, i, found)
        invariant given <= found && forall r :: r in found ==> Justified(g, start, given, r)
        invariant ret == 0
        decreases |Universe(g)| - i
      {
        ghost var cur := bytenr;
        if g.Fails(bytenr) {
          ret := g.errors[bytenr];
          bytenr := start;
          assert Reaches(g, start, cur) && g.Fails(cur);
          return;
        }
        var refs' := AddAll(refs, g.Parents(bytenr));
        var found' := AddAll(found, g.Roots(bytenr));
        WalkOne(g, start, refs, refs', i, found, found', bytenr);
        ReachOne(g, start, refs, refs', bytenr);
        refs, found := refs', found';
        UniqueFits(refs, Universe(g));
        if i == |refs| {
          break;
        }
        bytenr := refs[i];
        i := i + 1;
      }
      bytenr := start;
      forall b | Reaches(g, start, b)
        ensures (b == start || b in refs) && Noted(g, refs, found, b)
      {
        Complete(g, start, refs, found, b);
      }
    }
  }
}
