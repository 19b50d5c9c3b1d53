/** Error codes, as the kernel returns them. */
module Errno {
  const ENOENT := -2
  const EAGAIN := -11
  const EEXIST := -17
  const ETXTBSY := -26
  const ENOSPC := -28
  const EOVERFLOW := -75
  const EUCLEAN := -117
}

/** Small things several modules share. */
module Common {
  datatype Option<T> = None | Some(value: T)

  /** s without the n elements from i on. */
  function Cut<T>(s: seq<T>, i: nat, n: nat): seq<T>
    requires i + n <= |s|
  {
    s[..i] + s[i + n..]
  }

  /** s without element i. */
  function Without<T>(s: seq<T>, i: nat): seq<T>
    requires i < |s|
  {
    s[..i] + s[i + 1..]
  }

  /** Taking out an element before the last one leaves the last one in place. */
  lemma {:induction false} WithoutLast<T>(s: seq<T>, i: nat)
    requires i < |s|
    ensures var n, r := |s| - 1, Without(s, i);
            if i == n then r == s[..n] else r != [] && r[..n - 1] == Without(s[..n], i) && r[n - 1] == s[n]
  {
  }

  lemma {:induction false} MulLe(a: int, b: int, n: int)
    requires a <= b && n >= 0
    ensures a * n <= b * n
  {
  }
}
