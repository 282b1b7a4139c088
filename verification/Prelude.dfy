/** Shared vocabulary: optional values and the machine integers of the control plane. */
module Prelude {

  datatype Option<+T> = None | Some(value: T)

  const U64_LIMIT: nat := 0x1_0000_0000_0000_0000
  const U64_MAX: u64 := 0xFFFF_FFFF_FFFF_FFFF

  /** An unsigned 64-bit integer. Arithmetic is unbounded, so storing a sum back
      into a `u64` obliges the verifier to show that it did not overflow. */
  type u64 = x: nat | x < U64_LIMIT

  predicate FitsU64(n: int) {
    0 <= n <= U64_MAX
  }

  /** `u64::checked_add`. */
  function CheckedAdd(a: u64, b: u64): (r: Option<u64>)
    ensures r == None <==> a + b > U64_MAX
    ensures r.Some? ==> r.value - b == a
  {
    if a + b < U64_LIMIT then Some(a + b) else None
  }

  /** `u64::saturating_add`. */
  function SaturatingAdd(a: u64, b: u64): (r: u64)
    ensures r == a + b || r == U64_MAX < a + b
  {
    if a + b < U64_LIMIT then a + b else U64_MAX
  }

  /** `saturating_sub` on any unsigned width. */
  function SaturatingSub(a: nat, b: nat): (r: nat)
    ensures r <= a
    ensures a <= b + r
    ensures r > 0 ==> b + r == a
  {
    if a >= b then a - b else 0
  }

  /** The elements of `s` that satisfy `p`, in order (`Iterator::filter`). */
  function Filter<T>(s: seq<T>, p: T -> bool): (r: seq<T>)
    ensures |r| <= |s|
    ensures forall i :: 0 <= i < |r| ==> r[i] in s && p(r[i])
  {
    if s == [] then []
    else (if p(s[0]) then [s[0]] else []) + Filter(s[1..], p)
  }

  lemma AppendIsAssociative<T>(a: seq<T>, b: seq<T>, c: seq<T>)
    ensures (a + b) + c == a + (b + c)
  {
  }

  lemma TakenIsPrefix<T>(taken: seq<T>, next: T, rest: seq<T>)
    ensures (taken + [next]) + rest == taken + ([next] + rest)
    ensures taken <= taken + [next] <= taken + ([next] + rest)
  {
    AppendIsAssociative(taken, [next], rest);
  }

  lemma {:induction false} FilterKeeps<T>(s: seq<T>, p: T -> bool, x: T)
    requires x in s && p(x)
    ensures x in Filter(s, p)
  {
    if s[0] != x {
      FilterKeeps(s[1..], p, x);
    }
  }
}
