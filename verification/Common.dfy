/** Machine integers with Rust's saturating semantics, and the few datatypes every module shares. */
module Common {

  datatype Option<+T> = None | Some(value: T)

  const U32_MAX: nat := 0xFFFF_FFFF
  const U64_MAX: nat := 0xFFFF_FFFF_FFFF_FFFF

  type u32 = x: int | 0 <= x <= 0xFFFF_FFFF

  function Min(a: int, b: int): int {
    if a < b then a else b
  }

  function Max(a: int, b: int): int {
    if a < b then b else a
  }

  /** `n` lies in the range with the ends `a` and `b`, in whichever order. */
  predicate Between(a: int, n: int, b: int) {
    a <= n <= b || b <= n <= a
  }

  /** Keep a fraction between 0 and 1. */
  function Clamp01(x: real): real {
    if x < 0.0 then 0.0 else if x > 1.0 then 1.0 else x
  }

  /** Clip an unbounded natural to a `u32`, as `saturating_add` and its siblings do. */
  function Sat32(x: nat): u32 {
    if x <= U32_MAX then x else U32_MAX
  }

  /** Clip an unbounded natural to a `u64`. */
  function Sat64(x: nat): nat {
    if x <= U64_MAX then x else U64_MAX
  }

  /** Saturating subtraction. */
  function SatSub(a: nat, b: nat): nat {
    if b <= a then a - b else 0
  }

  function Pow2(n: nat): nat {
    if n == 0 then 1 else 2 * Pow2(n - 1)
  }

  lemma {:induction false} Pow2Monotone(m: nat, n: nat)
    requires m <= n
    ensures 1 <= Pow2(m) <= Pow2(n)
  {
    if n == 0 {
    } else if m == n {
      Pow2Monotone(m - 1, n - 1);
    } else {
      Pow2Monotone(m, n - 1);
    }
  }

  /** The ends of the machine words. */
  lemma WordSizes()
    ensures U32_MAX + 1 == Pow2(32) && U64_MAX + 1 == Pow2(64)
  {
    assert Pow2(8) == 0x100;
    assert Pow2(16) == 0x1_0000;
    assert Pow2(24) == 0x100_0000;
    assert Pow2(32) == 0x1_0000_0000;
    assert Pow2(40) == 0x100_0000_0000;
    assert Pow2(48) == 0x1_0000_0000_0000;
    assert Pow2(56) == 0x100_0000_0000_0000;
  }

  lemma ProductAtLeast(a: nat, b: nat)
    requires 1 <= b
    ensures a * b >= a && b * a >= a
  {
  }

  lemma SmallMultiple(k: int, b: int)
    requires 0 < b && -b < k * b < b
    ensures k == 0
  {
    assert k >= 1 ==> k * b >= b;
    assert k <= -1 ==> k * b <= -b;
  }

  /** A quotient and remainder determine the division. */
  lemma DivUnique(x: int, b: int, q: int, r: int)
    requires 0 < b && 0 <= r < b && x == q * b + r
    ensures x / b == q && x % b == r
  {
    var p := x / b;
    assert x == p * b + x % b;
    assert (q - p) * b == q * b - p * b;
    SmallMultiple(q - p, b);
  }

  lemma DivPlus(a: int, b: int)
    requires 0 < b
    ensures (a + b) / b == a / b + 1 && (a + b) % b == a % b
  {
    assert (a / b + 1) * b == a / b * b + b;
    DivUnique(a + b, b, a / b + 1, a % b);
  }

  // ---------------------------------------------------------------- lists of names

  function Elements(s: seq<string>): (r: set<string>)
    ensures forall x :: x in r <==> x in s
  {
    set x | x in s
  }

  ghost predicate Distinct(s: seq<string>) {
    forall i, j :: 0 <= i < j < |s| ==> s[i] != s[j]
  }

  lemma ElementsNext(s: seq<string>, x: string)
    ensures Elements(s + [x]) == Elements(s) + {x}
  {
  }

  lemma {:induction false} DistinctCount(s: seq<string>)
    requires Distinct(s)
    ensures |Elements(s)| == |s|
  {
    if |s| != 0 {
      var front := s[..|s| - 1];
      DistinctCount(front);
      ElementsNext(front, s[|s| - 1]);
      assert s == front + [s[|s| - 1]];
      assert s[|s| - 1] !in front;
    }
  }
}
