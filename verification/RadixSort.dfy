/** radix_sort of the compression heuristic: a least-significant-digit sort with reversed digits that goes
    back and forth between two arrays, four bits at a time. */
module RadixSort {
  import opened Common

  const COUNTERS_SIZE := 16

  function Pow2(n: nat): (r: nat)
    ensures r > 0
  {
    if n == 0 then 1 else 2 * Pow2(n - 1)
  }

  /** get4bits: four bits of the number, in reverse order. */
  function Get4Bits(num: nat, shift: nat): (r: nat)
    ensures r < COUNTERS_SIZE
  {
    COUNTERS_SIZE - 1 - num / Pow2(shift) % COUNTERS_SIZE
  }

  /** What the passes up to `bits` have sorted by. */
  function Low(num: nat, bits: nat): (r: nat)
    ensures r < Pow2(bits)
  {
    num % Pow2(bits)
  }

  // ---------------------------------------------------------------------------------------------
  // Stable order

  /** Element k of s goes before element l: its key is bigger, or equal and it came first. */
  predicate Before(s: seq<nat>, bits: nat, k: int, l: int)
    requires 0 <= k < |s| && 0 <= l < |s|
  {
    Low(s[k], bits) > Low(s[l], bits) || (Low(s[k], bits) == Low(s[l], bits) && k < l)
  }

  /** Element k of s is element q[k] of t. */
  predicate Places(s: seq<nat>, t: seq<nat>, q: seq<nat>)
  {
    |q| == |s| == |t| && forall k :: 0 <= k < |s| ==> q[k] < |t| && t[q[k]] == s[k]
  }

  /** t is s in descending order of the low bits, elements with the same low bits in their old order. */
  ghost predicate StableDescending(s: seq<nat>, t: seq<nat>, bits: nat)
  {
    exists q: seq<nat> :: Places(s, t, q) && Ordered(s, bits, q)
  }

  predicate Ordered(s: seq<nat>, bits: nat, q: seq<nat>)
    requires |q| == |s|
  {
    forall k, l {:trigger Before(s, bits, k, l)} {:trigger q[k], q[l]} :: 0 <= k < |s| && 0 <= l < |s| ==>
        (q[k] < q[l] <==> Before(s, bits, k, l))
  }

  // ---------------------------------------------------------------------------------------------
  // One counting pass

  predicate DigitBefore(s: seq<nat>, shift: nat, k: int, l: int)
    requires 0 <= k < |s| && 0 <= l < |s|
  {
    Get4Bits(s[k], shift) < Get4Bits(s[l], shift) || (Get4Bits(s[k], shift) == Get4Bits(s[l], shift) && k < l)
  }

  predicate DigitOrdered(s: seq<nat>, shift: nat, q: seq<nat>)
    requires |q| == |s|
  {
    forall k, l {:trigger DigitBefore(s, shift, k, l)} :: 0 <= k < |s| && 0 <= l < |s| ==>
        (q[k] < q[l] <==> DigitBefore(s, shift, k, l))
  }

  /** How many elements have digit a, and how many have a smaller one. */
  function Count(s: seq<nat>, shift: nat, a: nat): nat
  {
    if s == [] then 0 else Count(s[..|s| - 1], shift, a) + if Get4Bits(s[|s| - 1], shift) == a then 1 else 0
  }

  function Below(s: seq<nat>, shift: nat, a: nat): nat
  {
    if a == 0 then 0 else Below(s, shift, a - 1) + Count(s, shift, a - 1)
  }

  lemma {:induction false} CountGrows(s: seq<nat>, shift: nat, i: nat, j: nat, a: nat)
    requires i <= j <= |s|
    ensures Count(s[..i], shift, a) <= Count(s[..j], shift, a)
    ensures i < j && Get4Bits(s[i], shift) == a ==> Count(s[..i], shift, a) < Count(s[..j], shift, a)
    decreases j - i
  {
    if i < j {
      assert s[..i + 1][..i] == s[..i];
      CountGrows(s, shift, i + 1, j, a);
    }
  }

  lemma {:induction false} BelowGrows(s: seq<nat>, shift: nat, a: nat, b: nat)
    requires a < b
    ensures Below(s, shift, a) + Count(s, shift, a) <= Below(s, shift, b)
    decreases b
  {
    if a < b - 1 {
      BelowGrows(s, shift, a, b - 1);
    }
  }

  /** Counting one element: only its own digit and what is above it move. */
  lemma {:induction false} BelowOne(s: seq<nat>, shift: nat, x: nat, a: nat)
    ensures Below(s + [x], shift, a) == Below(s, shift, a) + if Get4Bits(x, shift) < a then 1 else 0
  {
    assert (s + [x])[..|s|] == s;
    if a > 0 {
      BelowOne(s, shift, x, a - 1);
    }
  }

  lemma {:induction false} AllBelow16(s: seq<nat>, shift: nat)
    ensures Below(s, shift, COUNTERS_SIZE) == |s|
  {
    if s == [] {
      NoneBelow(shift, COUNTERS_SIZE);
    } else {
      var n := |s| - 1;
      AllBelow16(s[..n], shift);
      BelowOne(s[..n], shift, s[n], COUNTERS_SIZE);
      assert s[..n] + [s[n]] == s;
    }
  }

  lemma {:induction false} NoneBelow(shift: nat, a: nat)
    ensures Below([], shift, a) == 0
  {
    if a > 0 {
      NoneBelow(shift, a - 1);
    }
  }

  /** Where the pass puts element k. */
  function Pos(s: seq<nat>, shift: nat, k: nat): nat
    requires k < |s|
  {
    Below(s, shift, Get4Bits(s[k], shift)) + Count(s[..k], shift, Get4Bits(s[k], shift))
  }

  lemma {:induction false} PosOrder(s: seq<nat>, shift: nat, k: nat, l: nat)
    requires k < |s| && l < |s| && DigitBefore(s, shift, k, l)
    ensures Pos(s, shift, k) < Pos(s, shift, l)
  {
    var a, b := Get4Bits(s[k], shift), Get4Bits(s[l], shift);
    assert s[..|s|] == s;
    if a < b {
      CountGrows(s, shift, k, |s|, a);
      BelowGrows(s, shift, a, b);
    } else {
      CountGrows(s, shift, k, l, a);
    }
  }

  lemma {:induction false} PosInRange(s: seq<nat>, shift: nat, k: nat)
    requires k < |s|
    ensures Pos(s, shift, k) < |s|
  {
    assert s[..|s|] == s;
    CountGrows(s, shift, k, |s|, Get4Bits(s[k], shift));
    BelowGrows(s, shift, Get4Bits(s[k], shift), COUNTERS_SIZE);
    AllBelow16(s, shift);
  }

  lemma {:induction false} PosInjective(s: seq<nat>, shift: nat, k: nat, l: nat)
    requires k < |s| && l < |s| && k != l
    ensures Pos(s, shift, k) != Pos(s, shift, l)
  {
    if DigitBefore(s, shift, k, l) {
      PosOrder(s, shift, k, l);
    } else {
      PosOrder(s, shift, l, k);
    }
  }

  ghost function Positions(s: seq<nat>, shift: nat): (q: seq<nat>)
    ensures |q| == |s| && forall k :: 0 <= k < |s| ==> q[k] == Pos(s, shift, k)
  {
    seq(|s|, k requires 0 <= k < |s| => Pos(s, shift, k))
  }

  lemma {:induction false} PositionsOrdered(s: seq<nat>, shift: nat)
    ensures DigitOrdered(s, shift, Positions(s, shift))
  {
    var q := Positions(s, shift);
    forall k, l | 0 <= k < |s| && 0 <= l < |s|
      ensures q[k] < q[l] <==> DigitBefore(s, shift, k, l)
    {
      if DigitBefore(s, shift, k, l) {
        PosOrder(s, shift, k, l);
      } else if k != l {
        PosOrder(s, shift, l, k);
      }
    }
  }

  ghost predicate Injective(q: seq<nat>)
  {
    forall k, l :: 0 <= k < l < |q| ==> q[k] != q[l]
  }

  lemma {:induction false} PositionsInjective(s: seq<nat>, shift: nat)
    ensures Injective(Positions(s, shift)) && forall k :: 0 <= k < |s| ==> Positions(s, shift)[k] < |s|
  {
    var q := Positions(s, shift);
    forall k, l | 0 <= k < l < |q|
      ensures q[k] != q[l]
    {
      PosInjective(s, shift, k, l);
    }
    forall k | 0 <= k < |s|
      ensures q[k] < |s|
    {
      PosInRange(s, shift, k);
    }
  }

  /** The loop that counts digits. */
  method Histogram(src: array<nat>, shift: nat) returns (counters: array<nat>)
    ensures counters.Length == COUNTERS_SIZE && fresh(counters)
    ensures forall a: nat :: a < COUNTERS_SIZE ==> counters[a] == Count(src[..], shift, a)
  {
    ghost var s := src[..];
    counters := new nat[COUNTERS_SIZE](_ => 0);
    var i: nat := 0;
    while i < src.Length
      invariant i <= src.Length
      invariant forall a: nat :: a < COUNTERS_SIZE ==> counters[a] == Count(s[..i], shift, a)
    {
      var addr := Get4Bits(src[i], shift);
      assert s[..i + 1][..i] == s[..i];
      counters[addr] := counters[addr] + 1;
      i := i + 1;
    }
    assert s[..i] == s;
  }

  /** The loop that sums the counts. */
  method Accumulate(counters: array<nat>, ghost s: seq<nat>, shift: nat)
    requires counters.Length == COUNTERS_SIZE
    requires forall a: nat :: a < COUNTERS_SIZE ==> counters[a] == Count(s, shift, a)
    modifies counters
    ensures forall a: nat :: a < COUNTERS_SIZE ==> counters[a] == Below(s, shift, a) + Count(s, shift, a)
  {
    var i: nat := 1;
    while i < COUNTERS_SIZE
      invariant 1 <= i <= COUNTERS_SIZE
      invariant forall a: nat :: a < i ==> counters[a] == Below(s, shift, a) + Count(s, shift, a)
      invariant forall a: nat :: i <= a < COUNTERS_SIZE ==> counters[a] == Count(s, shift, a)
    {
      counters[i] := counters[i] + counters[i - 1];
      i := i + 1;
    }
  }

  /** One pass: src goes to dst, ordered by one digit. */
  method Pass(src: array<nat>, dst: array<nat>, shift: nat)
    requires src != dst && src.Length == dst.Length
    modifies dst
    ensures Places(src[..], dst[..], Positions(src[..], shift))
  {
    var counters := Histogram(src, shift);
    Accumulate(counters, src[..], shift);
    PositionsInjective(src[..], shift);
    Distribute(src, dst, shift, counters, Positions(src[..], shift));
  }

  ghost predicate PosIs(s: seq<nat>, shift: nat, k: nat, x: nat)
    requires k < |s|
  {
    x == Pos(s, shift, k)
  }

  /** The loop from the end that takes each element to its place. */
  method Distribute(src: array<nat>, dst: array<nat>, shift: nat, counters: array<nat>, ghost q: seq<nat>)
    requires src != dst && counters != dst && counters != src && src.Length == dst.Length
    requires counters.Length == COUNTERS_SIZE
    requires forall a: nat :: a < COUNTERS_SIZE ==> counters[a] == Below(src[..], shift, a) + Count(src[..], shift, a)
    requires |q| == src.Length && Injective(q) && forall k :: 0 <= k < |q| ==> q[k] < |q|
    requires forall k: nat {:trigger PosIs(src[..], shift, k, q[k])} :: k < |q| ==> PosIs(src[..], shift, k, q[k])
    modifies dst, counters
    ensures Places(src[..], dst[..], q)
  {
    ghost var s := src[..];
    var i: int := src.Length - 1;
    assert s[..i + 1] == s;
    while i >= 0
      invariant -1 <= i < src.Length
      invariant forall a: nat :: a < COUNTERS_SIZE ==> counters[a] == Below(s, shift, a) + Count(s[..i + 1], shift, a)
      invariant forall k :: i < k < |s| ==> dst[q[k]] == s[k]
    {
      var addr := Get4Bits(src[i], shift);
      assert s[..i + 1][..i] == s[..i];
      assert PosIs(s, shift, i, q[i]);
      counters[addr] := counters[addr] - 1;
      dst[counters[addr]] := src[i];
      i := i - 1;
    }
  }

  // ---------------------------------------------------------------------------------------------
  // Passes add up

  lemma {:induction false} Pow2Add4(n: nat)
    ensures Pow2(n + 4) == 16 * Pow2(n)
  {
    assert Pow2(n + 4) == 2 * Pow2(n + 3) && Pow2(n + 3) == 2 * Pow2(n + 2) && Pow2(n + 2) == 2 * Pow2(n + 1);
  }

  /** Quotient and remainder are the only ones. */
  lemma {:induction false} DivUnique(x: nat, n: nat, a: nat, r: nat)
    requires n > 0 && r < n && x == a * n + r
    ensures x / n == a && x % n == r
  {
    var c := x / n;
    assert (c + 1) * n == c * n + n && (a + 1) * n == a * n + n;
    if c < a {
      MulLe(c + 1, a, n);
    } else if a < c {
      MulLe(a + 1, c, n);
    }
  }

  lemma {:induction false} DivMod(x: nat, p: nat)
    requires p > 0
    ensures x % (16 * p) == (x / p % 16) * p + x % p
  {
    var q, r := x / p, x % p;
    var a, b := q / 16, q % 16;
    assert x == a * (16 * p) + (b * p + r) by {
      assert q == 16 * a + b;
      assert (16 * a + b) * p == a * (16 * p) + b * p;
    }
    MulLe(b, 15, p);
    DivUnique(x, 16 * p, a, b * p + r);
  }

  lemma {:induction false} CompareDigits(a: nat, u: nat, b: nat, v: nat, p: nat)
    requires u < p && v < p
    ensures a * p + u > b * p + v <==> a > b || (a == b && u > v)
    ensures a * p + u == b * p + v <==> a == b && u == v
  {
    if a < b {
      MulLe(a + 1, b, p);
      assert (a + 1) * p == a * p + p;
    } else if b < a {
      MulLe(b + 1, a, p);
      assert (b + 1) * p == b * p + p;
    }
  }

  /** The low bits are the next digit above the lower bits, as numbers in base 16. */
  lemma {:induction false} LowerThenDigit(x: nat, y: nat, bits: nat)
    ensures Low(x, bits + 4) > Low(y, bits + 4) <==>
            Get4Bits(x, bits) < Get4Bits(y, bits)
            || (Get4Bits(x, bits) == Get4Bits(y, bits) && Low(x, bits) > Low(y, bits))
    ensures Low(x, bits + 4) == Low(y, bits + 4) <==>
            Get4Bits(x, bits) == Get4Bits(y, bits) && Low(x, bits) == Low(y, bits)
  {
    var p := Pow2(bits);
    Pow2Add4(bits);
    DivMod(x, p);
    DivMod(y, p);
    CompareDigits(x / p % 16, x % p, y / p % 16, y % p, p);
  }

  ghost function Composed(q1: seq<nat>, q2: seq<nat>): (q: seq<nat>)
    requires forall k :: 0 <= k < |q1| ==> q1[k] < |q2|
    ensures |q| == |q1| && forall k :: 0 <= k < |q| ==> q[k] == q2[q1[k]]
  {
    seq(|q1|, k requires 0 <= k < |q1| => q2[q1[k]])
  }

  /** A stable pass over the next digit of something sorted by the digits below. */
  lemma {:induction false} NextDigit(s: seq<nat>, t: seq<nat>, u: seq<nat>, bits: nat)
    requires StableDescending(s, t, bits) && Places(t, u, Positions(t, bits))
    ensures StableDescending(s, u, bits + 4)
  {
    var q1: seq<nat> :| Places(s, t, q1) && Ordered(s, bits, q1);
    var q2 := Positions(t, bits);
    PositionsOrdered(t, bits);
    var q := Composed(q1, q2);
    forall k, l | 0 <= k < |s| && 0 <= l < |s|
      ensures q[k] < q[l] <==> Before(s, bits + 4, k, l)
    {
      LowerThenDigit(s[k], s[l], bits);
      assert q[k] < q[l] <==> DigitBefore(t, bits, q1[k], q1[l]);
      assert q1[k] < q1[l] <==> Before(s, bits, k, l);
    }
    assert Places(s, u, q) && Ordered(s, bits + 4, q);
  }

  lemma {:induction false} NothingSorted(s: seq<nat>)
    ensures StableDescending(s, s, 0)
  {
    var q := seq(|s|, k requires 0 <= k < |s| => k);
    assert Places(s, s, q) && Ordered(s, 0, q);
  }

  // ---------------------------------------------------------------------------------------------
  // The sort

  /** ilog2 of a u64 variable: fls64 minus one, which for 0 is all ones. */
  function Ilog2(n: nat): (r: nat)
  {
    if n == 0 then 0xffff_ffff_ffff_ffff else Log(n)
  }

  function Log(n: nat): (r: nat)
    requires n > 0
    ensures Pow2(r) <= n < 2 * Pow2(r)
  {
    if n == 1 then 0 else Log(n / 2) + 1
  }

  /** ALIGN(x, 8) of a 64-bit number, which wraps. */
  function Align8(x: nat): (r: nat)
    ensures r % 8 == 0
  {
    var y := if x + 7 >= 0x1_0000_0000_0000_0000 then x + 7 - 0x1_0000_0000_0000_0000 else x + 7;
    y / 8 * 8
  }

  /** How many low bits the passes look at when the biggest number is m. */
  function BitLen(m: nat): (r: nat)
    ensures r % 8 == 0
  {
    Align8(Ilog2(m))
  }

  function Max(s: seq<nat>): nat
    requires s != []
  {
    if |s| == 1 then s[0] else if s[|s| - 1] > Max(s[..|s| - 1]) then s[|s| - 1] else Max(s[..|s| - 1])
  }

  method MaxOf(a: array<nat>) returns (m: nat)
    requires a.Length > 0
    ensures m == Max(a[..])
  {
    m := a[0];
    var i := 1;
    assert a[..1] == [a[0]];
    while i < a.Length
      invariant 1 <= i <= a.Length && m == Max(a[..i])
    {
      assert a[..i + 1][..i] == a[..i];
      if a[i] > m {
        m := a[i];
      }
      i := i + 1;
    }
    assert a[..i] == a[..];
  }

  /** radix_sort: array and buf have the same size, which is not zero. */
  method Sort(a: array<nat>, buf: array<nat>)
    requires a != buf && a.Length == buf.Length && a.Length > 0
    modifies a, buf
    ensures StableDescending(old(a[..]), a[..], BitLen(Max(old(a[..]))))
  {
    var m := MaxOf(a);
    SortBits(a, buf, BitLen(m));
  }

  method SortBits(a: array<nat>, buf: array<nat>, bitlen: nat)
    requires a != buf && a.Length == buf.Length && bitlen % 8 == 0
    modifies a, buf
    ensures StableDescending(old(a[..]), a[..], bitlen)
  {
    ghost var s := a[..];
    NothingSorted(s);
    var shift := 0;
    while shift < bitlen
      invariant shift <= bitlen && shift % 8 == 0
      invariant StableDescending(s, a[..], shift)
    {
      TwoPasses(s, a, buf, shift);
      shift := shift + 8;
    }
  }

  /** The body of the loop: from the array to the buffer and back. */
  method TwoPasses(ghost s: seq<nat>, a: array<nat>, buf: array<nat>, shift: nat)
    requires a != buf && a.Length == buf.Length && StableDescending(s, a[..], shift)
    modifies a, buf
    ensures StableDescending(s, a[..], shift + 8)
  {
    Pass(a, buf, shift);
    NextDigit(s, a[..], buf[..], shift);
    Pass(buf, a, shift + 4);
    NextDigit(s, buf[..], a[..], shift + 4);
  }

  // ---------------------------------------------------------------------------------------------
  // What it means

  predicate Descending(s: seq<nat>)
  {
    forall i, j :: 0 <= i < j < |s| ==> s[i] >= s[j]
  }

  ghost function UpTo(n: nat): (r: set<nat>)
    ensures |r| == n && forall i: nat :: i in r <==> i < n
  {
    if n == 0 then {} else UpTo(n - 1) + {n - 1}
  }

  lemma {:induction false} ImageSize(q: seq<nat>, n: nat)
    requires n <= |q| && Injective(q)
    ensures |set k | 0 <= k < n :: q[k]| == n
  {
    if n > 0 {
      ImageSize(q, n - 1);
      assert (set k | 0 <= k < n :: q[k]) == (set k | 0 <= k < n - 1 :: q[k]) + {q[n - 1]};
    }
  }

  lemma {:induction false} OrderedIsInjective(s: seq<nat>, bits: nat, q: seq<nat>)
    requires |q| == |s| && Ordered(s, bits, q)
    ensures Injective(q)
  {
    forall k, l | 0 <= k < l < |q|
      ensures q[k] != q[l]
    {
      assert q[k] < q[l] <==> Before(s, bits, k, l);
      assert q[l] < q[k] <==> Before(s, bits, l, k);
    }
  }

  /** Every place is taken by some element. */
  lemma {:induction false} Onto(q: seq<nat>, i: nat)
    requires Injective(q) && (forall k :: 0 <= k < |q| ==> q[k] < |q|) && i < |q|
    ensures exists k :: 0 <= k < |q| && q[k] == i
  {
    ImageSize(q, |q|);
    var image := set k | 0 <= k < |q| :: q[k];
    SubsetOfSameSize(image, UpTo(|q|));
    assert i in image;
  }

  lemma {:induction false} SubsetOfSameSize<T>(a: set<T>, b: set<T>)
    requires a <= b && |a| == |b|
    ensures a == b
  {
    if x :| x in b && x !in a {
      assert a <= b - {x};
      SubsetSize(a, b - {x});
    }
  }

  lemma {:induction false} SubsetSize<T>(a: set<T>, b: set<T>)
    requires a <= b
    ensures |a| <= |b|
    decreases |a|
  {
    if a != {} {
      var x :| x in a;
      SubsetSize(a - {x}, b - {x});
    }
  }

  /** Two placements in the same order are one. */
  lemma {:induction false} SamePlace(s: seq<nat>, bits: nat, q: seq<nat>, p: seq<nat>, k: nat)
    requires |q| == |p| == |s| && Ordered(s, bits, q) && Ordered(s, bits, p) && k < |s|
    requires forall l :: 0 <= l < |s| ==> q[l] < |s| && p[l] < |s|
    ensures q[k] == p[k]
    decreases q[k]
  {
    OrderedIsInjective(s, bits, q);
    OrderedIsInjective(s, bits, p);
    if p[k] < q[k] {
      Onto(q, p[k]);
      var l :| 0 <= l < |q| && q[l] == p[k];
      SamePlace(s, bits, q, p, l);
    } else if q[k] < p[k] {
      Onto(p, q[k]);
      var l :| 0 <= l < |p| && p[l] == q[k];
      assert Before(s, bits, l, k);
      SamePlace(s, bits, q, p, l);
    }
  }

  /** There is only one such arrangement: whatever Sort returns is determined by what it was given. */
  lemma {:induction false} StableUnique(s: seq<nat>, t: seq<nat>, u: seq<nat>, bits: nat)
    requires StableDescending(s, t, bits) && StableDescending(s, u, bits)
    ensures t == u
  {
    var q: seq<nat> :| Places(s, t, q) && Ordered(s, bits, q);
    var p: seq<nat> :| Places(s, u, p) && Ordered(s, bits, p);
    OrderedIsInjective(s, bits, q);
    forall i | 0 <= i < |t|
      ensures t[i] == u[i]
    {
      Onto(q, i);
      var k :| 0 <= k < |q| && q[k] == i;
      SamePlace(s, bits, q, p, k);
    }
  }

  /** The result is in descending order of the low bits. */
  lemma {:induction false} DescendingLow(s: seq<nat>, t: seq<nat>, bits: nat, i: nat, j: nat)
    requires StableDescending(s, t, bits) && i < j < |t|
    ensures Low(t[i], bits) >= Low(t[j], bits)
  {
    var q: seq<nat> :| Places(s, t, q) && Ordered(s, bits, q);
    OrderedIsInjective(s, bits, q);
    Onto(q, i);
    Onto(q, j);
    var k :| 0 <= k < |q| && q[k] == i;
    var l :| 0 <= l < |q| && q[l] == j;
    assert Before(s, bits, k, l);
  }

  /** The places of the other elements once place c is gone. */
  ghost function Closed(q: seq<nat>, n: nat, c: nat): (r: seq<nat>)
    requires n <= |q| && forall k :: 0 <= k < n ==> q[k] != c
    ensures |r| == n && forall k :: 0 <= k < n ==> r[k] == if q[k] < c then q[k] else q[k] - 1
  {
    seq(n, k requires 0 <= k < n => if q[k] < c then q[k] else q[k] - 1)
  }

  lemma {:induction false} RemovePlace(s: seq<nat>, t: seq<nat>, q: seq<nat>)
    requires Places(s, t, q) && Injective(q) && s != []
    ensures var n := |s| - 1;
            Places(s[..n], t[..q[n]] + t[q[n] + 1..], Closed(q, n, q[n])) && Injective(Closed(q, n, q[n]))
  {
    var n := |s| - 1;
    var c := q[n];
    var t', r := t[..c] + t[c + 1..], Closed(q, n, c);
    forall k | 0 <= k < n
      ensures r[k] < |t'| && t'[r[k]] == s[..n][k]
    {
      assert q[k] != c && t[q[k]] == s[k];
    }
  }

  lemma {:induction false} TakenOut(s: seq<nat>, c: nat)
    requires c < |s|
    ensures multiset(s) == multiset(s[..c] + s[c + 1..]) + multiset{s[c]}
  {
    assert s == s[..c] + [s[c]] + s[c + 1..];
  }

  lemma {:induction false} PlacesPermute(s: seq<nat>, t: seq<nat>, q: seq<nat>)
    requires Places(s, t, q) && Injective(q)
    ensures multiset(s) == multiset(t)
  {
    if s != [] {
      var n := |s| - 1;
      var c := q[n];
      RemovePlace(s, t, q);
      PlacesPermute(s[..n], t[..c] + t[c + 1..], Closed(q, n, c));
      TakenOut(s, n);
      TakenOut(t, c);
      assert s[..n] + s[n + 1..] == s[..n];
    }
  }

  /** The result is a permutation of the input. */
  lemma {:induction false} Permutes(s: seq<nat>, t: seq<nat>, bits: nat)
    requires StableDescending(s, t, bits)
    ensures multiset(s) == multiset(t)
  {
    var q: seq<nat> :| Places(s, t, q) && Ordered(s, bits, q);
    OrderedIsInjective(s, bits, q);
    PlacesPermute(s, t, q);
  }

  lemma {:induction false} MaxBounds(s: seq<nat>, x: nat)
    requires s != [] && x in s
    ensures x <= Max(s)
  {
    if |s| > 1 && x != s[|s| - 1] {
      assert s == s[..|s| - 1] + [s[|s| - 1]];
      MaxBounds(s[..|s| - 1], x);
    }
  }

  /** If no number reaches beyond the bits looked at, the whole numbers are in descending order. */
  lemma {:induction false} SortsFully(s: seq<nat>, t: seq<nat>, bits: nat)
    requires s != [] && StableDescending(s, t, bits) && Max(s) < Pow2(bits)
    ensures Descending(t)
  {
    Permutes(s, t, bits);
    forall i, j | 0 <= i < j < |t|
      ensures t[i] >= t[j]
    {
      DescendingLow(s, t, bits, i, j);
      assert t[i] in multiset(t) && t[j] in multiset(t);
      MaxBounds(s, t[i]);
      MaxBounds(s, t[j]);
      LowIsAll(t[i], bits);
      LowIsAll(t[j], bits);
    }
  }

  lemma {:induction false} LowIsAll(x: nat, bits: nat)
    requires x < Pow2(bits)
    ensures Low(x, bits) == x
  {
    DivUnique(x, Pow2(bits), 0, x);
  }

  lemma {:induction false} Pow2Grows(a: nat, b: nat)
    requires a <= b
    ensures Pow2(a) <= Pow2(b) && (a < b ==> 2 * Pow2(a) <= Pow2(b))
  {
    if a < b {
      Pow2Grows(a, b - 1);
    }
  }

  lemma {:induction false} Log32(m: nat)
    requires 0 < m < 0x1_0000_0000
    ensures Log(m) < 32
  {
    assert Pow2(32) == 0x1_0000_0000 by {
      Pow2Add4(28);
      Pow2Add4(24);
      Pow2Add4(20);
      Pow2Add4(16);
      Pow2Add4(12);
      Pow2Add4(8);
      Pow2Add4(4);
      Pow2Add4(0);
    }
    if Log(m) >= 32 {
      Pow2Grows(32, Log(m));
    }
  }

  /** A 32-bit count stays below the bits looked at unless its top bit is the first of a byte: ALIGN leaves
      a multiple of eight alone, and the bit with that number is not covered. */
  lemma {:induction false} Covered(m: nat)
    requires m < 0x1_0000_0000
    ensures m < Pow2(BitLen(m)) <==> m == 0 || Log(m) % 8 != 0
  {
    if m > 0 {
      Log32(m);
      var l := Log(m);
      Align8Small(l);
      if l % 8 != 0 {
        Pow2Grows(l, BitLen(m));
      }
    }
  }

  lemma {:induction false} Align8Small(l: nat)
    requires l < 32
    ensures if l % 8 == 0 then Align8(l) == l else Align8(l) > l
  {
  }

  /** The counterexample for every such maximum: m and what is left of it without its top bit stay in
      ascending order, and that is the only result the sort can have. */
  lemma {:induction false} NotSorted(m: nat)
    requires 0 < m < 0x1_0000_0000 && Log(m) % 8 == 0
    ensures m >= Pow2(Log(m))
    ensures var s := [m - Pow2(Log(m)), m];
            && Max(s) == m && StableDescending(s, s, BitLen(m)) && !Descending(s)
            && forall t: seq<nat> :: StableDescending(s, t, BitLen(m)) ==> t == s
  {
    Log32(m);
    Align8Small(Log(m));
    TopBitIgnored(m, Log(m));
    var s := [m - Pow2(Log(m)), m];
    forall t: seq<nat> | StableDescending(s, t, BitLen(m))
      ensures t == s
    {
      StableUnique(s, t, s, BitLen(m));
    }
  }

  lemma {:induction false} TopBitIgnored(m: nat, bits: nat)
    requires Pow2(bits) <= m < 2 * Pow2(bits)
    ensures var s := [m - Pow2(bits), m];
            Max(s) == m && StableDescending(s, s, bits) && !Descending(s)
  {
    var s := [m - Pow2(bits), m];
    assert s[..1] == [m - Pow2(bits)];
    DivUnique(m, Pow2(bits), 1, m - Pow2(bits));
    LowIsAll(m - Pow2(bits), bits);
    var q: seq<nat> := [0, 1];
    assert Before(s, bits, 0, 1) && !Before(s, bits, 1, 0);
    assert Places(s, s, q) && Ordered(s, bits, q);
    assert !(s[0] >= s[1]);
  }

  ghost predicate AlwaysDescending(m: nat)
  {
    forall s: seq<nat>, t: seq<nat> {:trigger StableDescending(s, t, BitLen(m))} ::
      s != [] && Max(s) == m && StableDescending(s, t, BitLen(m)) ==> Descending(t)
  }

  /** No result radix_sort can have for this array is in descending order. */
  ghost predicate NeverDescending(s: seq<nat>)
    requires s != []
  {
    forall t: seq<nat> :: StableDescending(s, t, BitLen(Max(s))) ==> !Descending(t)
  }

  /** radix_sort puts every array whose maximum is m in descending order exactly when m is zero or the
      number of its top bit is not a multiple of eight; otherwise there is an array it cannot but leave
      unsorted. */
  lemma {:induction false} SortedExactly(m: nat)
    requires m < 0x1_0000_0000
    ensures AlwaysDescending(m) <==> m == 0 || Log(m) % 8 != 0
    ensures !AlwaysDescending(m) ==> exists s: seq<nat> :: s != [] && Max(s) == m && NeverDescending(s)
  {
    Covered(m);
    if m == 0 || Log(m) % 8 != 0 {
      forall s: seq<nat>, t: seq<nat> | s != [] && Max(s) == m && StableDescending(s, t, BitLen(m))
        ensures Descending(t)
      {
        SortsFully(s, t, BitLen(m));
      }
    } else {
      NotSorted(m);
      var s := [m - Pow2(Log(m)), m];
      assert StableDescending(s, s, BitLen(m));
      assert NeverDescending(s);
    }
  }
}
