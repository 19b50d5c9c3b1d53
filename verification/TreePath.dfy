/** The part of a btrfs_path above the blocks an operation changes: the nodes held, the slot taken in each,
    and fixup_low_keys, which carries a new first key upwards. */
module TreePath {
  import opened Ctree

  /** path->nodes[i] and path->slots[i].  The pointer in the slot leads to the next block of the path; what
      it leads to is that block as it is now, so only the key of that pointer counts here. */
  datatype Frame = Frame(kids: seq<Kid>, slot: nat)
  {
    predicate Valid()
    {
      slot < |kids|
    }

    /** The key stored for the next block of the path. */
    function LowKey(): Key
      requires Valid()
    {
      kids[slot].key
    }

    /** btrfs_set_node_key */
    function WithKey(key: Key): (f: Frame)
      requires Valid()
      ensures f.Valid() && SameButKey(this, f) && f.LowKey() == key
    {
      Frame(kids[slot := kids[slot].(key := key)], slot)
    }
  }

  /** Held nodes, from the root down. */
  predicate Valid(path: seq<Frame>)
  {
    forall i :: 0 <= i < |path| ==> path[i].Valid()
  }

  /** The first key of what follows frame i: of the next held node, or of the block below them all. */
  function FirstBelow(path: seq<Frame>, first: Key, i: nat): Key
    requires Valid(path) && i < |path|
  {
    if i + 1 < |path| then path[i + 1].kids[0].key else first
  }

  predicate LowKeyOk(path: seq<Frame>, first: Key, i: nat)
    requires Valid(path) && i < |path|
  {
    path[i].LowKey() == FirstBelow(path, first, i)
  }

  /** Every key on the path is the first key of the block it stands for, if the block below the path starts
      with `first`. */
  predicate LowKeysOk(path: seq<Frame>, first: Key)
  {
    Valid(path) && forall i :: 0 <= i < |path| ==> LowKeyOk(path, first, i)
  }

  /** The same node and slot; the key in the slot may differ. */
  predicate SameButKey(f: Frame, f': Frame)
    requires f.Valid()
  {
    && f'.slot == f.slot && |f'.kids| == |f.kids| && f'.kids[f.slot].child == f.kids[f.slot].child
    && forall j :: 0 <= j < |f.kids| && j != f.slot ==> f'.kids[j] == f.kids[j]
  }

  /** The path is the same but for keys in its own slots. */
  predicate Rekeyed(path: seq<Frame>, path': seq<Frame>)
  {
    Valid(path) && |path'| == |path| && forall i :: 0 <= i < |path| ==> SameButKey(path[i], path'[i])
  }

  lemma {:induction false} RekeyedTwice(a: seq<Frame>, b: seq<Frame>, c: seq<Frame>)
    requires Rekeyed(a, b) && Rekeyed(b, c)
    ensures Rekeyed(a, c)
  {
    forall i | 0 <= i < |a|
      ensures SameButKey(a[i], c[i])
    {
      assert SameButKey(a[i], b[i]) && SameButKey(b[i], c[i]);
    }
  }

  /** One level further down, into slot of a node with these kids. */
  lemma {:induction false} LowerPath(path: seq<Frame>, kids: seq<Kid>, slot: nat)
    requires slot < |kids| && LowKeysOk(path, kids[0].key)
    ensures LowKeysOk(path + [Frame(kids, slot)], kids[slot].key)
  {
    var path' := path + [Frame(kids, slot)];
    forall i | 0 <= i < |path'|
      ensures LowKeyOk(path', kids[slot].key, i)
    {
      assert i < |path| ==> LowKeyOk(path, kids[0].key, i);
    }
  }

  /** What fixup_low_keys makes of a path: the key is stored in the lowest node, and above it only as long as
      it went into slot 0. */
  function Climbed(path: seq<Frame>, key: Key): (r: seq<Frame>)
    requires Valid(path)
    ensures |r| == |path|
  {
    if path == [] then []
    else
      var n := |path| - 1;
      (if path[n].slot != 0 then path[..n] else Climbed(path[..n], key)) + [path[n].WithKey(key)]
  }

  lemma {:induction false} Shorter(path: seq<Frame>, first: Key)
    requires LowKeysOk(path, first) && path != []
    ensures LowKeysOk(path[..|path| - 1], path[|path| - 1].kids[0].key)
  {
    var n := |path| - 1;
    forall i | 0 <= i < n
      ensures LowKeyOk(path[..n], path[n].kids[0].key, i)
    {
      assert LowKeyOk(path, first, i);
    }
  }

  /** Whatever the first key below was before, the climb makes every key of the path right, and touches nothing
      above a node that the path leaves through another slot. */
  lemma {:induction false} ClimbIsRight(path: seq<Frame>, key: Key, was: Key)
    requires LowKeysOk(path, was)
    ensures LowKeysOk(Climbed(path, key), key) && Rekeyed(path, Climbed(path, key))
    ensures forall i, k :: 0 <= i < k < |path| && path[k].slot != 0 ==> Climbed(path, key)[i] == path[i]
  {
    if path != [] {
      var n := |path| - 1;
      var f, rest := path[n].WithKey(key), path[..n];
      Shorter(path, was);
      ClimbIsRight(rest, key, path[n].kids[0].key);
      LowerPath(if path[n].slot != 0 then rest else Climbed(rest, key), f.kids, f.slot);
    }
  }

  /** fixup_low_keys from the lowest node of the path on. */
  method FixupLowKeys(path: seq<Frame>, key: Key, ghost was: Key) returns (path': seq<Frame>)
    requires LowKeysOk(path, was)
    ensures path' == Climbed(path, key) && LowKeysOk(path', key) && Rekeyed(path, path')
  {
    path' := StoreUpwards(path, key);
    ClimbIsRight(path, key, was);
  }

  /** The loop of fixup_low_keys. */
  method StoreUpwards(path: seq<Frame>, key: Key) returns (path': seq<Frame>)
    requires Valid(path)
    ensures path' == Climbed(path, key)
  {
    path' := path;
    var i := |path|;
    assert path[..i] == path && path'[i..] == [];
    while i > 0
      invariant 0 <= i <= |path| == |path'| && path'[..i] == path[..i]
      invariant Climbed(path, key) == Climbed(path[..i], key) + path'[i..]
    {
      i := i - 1;
      ClimbStep(path, path', i, key);
      path' := path'[i := path'[i].WithKey(key)];
      if path'[i].slot != 0 {
        return;
      }
    }
  }

  lemma {:induction false} ClimbStep(path: seq<Frame>, path': seq<Frame>, i: nat, key: Key)
    requires Valid(path) && i < |path| == |path'| && path'[..i + 1] == path[..i + 1]
    ensures path'[i] == path[i] && path'[..i] == path[..i]
    ensures var p := path'[i := path'[i].WithKey(key)];
            if path[i].slot != 0 then p == Climbed(path[..i + 1], key) + path'[i + 1..]
            else Climbed(path[..i], key) + p[i..] == Climbed(path[..i + 1], key) + path'[i + 1..]
  {
    assert path'[..i + 1][i] == path[..i + 1][i];
    assert path[..i + 1][..i] == path[..i] == path'[..i + 1][..i] == path'[..i];
    var f := path[i].WithKey(key);
    var p := path'[i := f];
    assert p[i..] == [f] + path'[i + 1..];
    assert p == path[..i] + [f] + path'[i + 1..];
  }

  /** Where the first key below does not change, the code makes no climb and none is missing; where it does
      change, a path without a climb is wrong at its lowest node. */
  lemma {:induction false} ClimbIsNeeded(path: seq<Frame>, first: Key, first': Key)
    requires LowKeysOk(path, first) && path != []
    ensures LowKeysOk(path, first') <==> first' == first
  {
    assert LowKeyOk(path, first, |path| - 1);
    if LowKeysOk(path, first') {
      assert LowKeyOk(path, first', |path| - 1);
    }
  }
}
