/** Shared value types and the fixed-width arithmetic of the kernel's `uint64_t` counters. */
module Prelude {
  datatype Option<+T> = None | Some(value: T)

  const PAGE_SIZE: nat := 4096
  const TWO_64: nat := 0x1_0000_0000_0000_0000

  function Max(a: nat, b: nat): nat {
    if a < b then b else a
  }

  function Min(a: nat, b: nat): nat {
    if a < b then a else b
  }

  function Power(b: nat, n: nat): nat {
    if n == 0 then 1 else b * Power(b, n - 1)
  }

  // A `uint64_t` holding the mathematical value `x`, wrapped around.
  function Wrap64(x: int): (r: nat)
    ensures r < TWO_64
  {
    x % TWO_64
  }

  lemma Wrap64Add(x: int, d: int)
    ensures Wrap64(Wrap64(x) + d) == Wrap64(x + d)
  {
  }

  lemma Wrap64Cancel(x: nat, d: int)
    requires x < TWO_64
    ensures Wrap64(Wrap64(x + d) - d) == x
  {
    Wrap64Add(x + d, -d);
  }

  // A counter x of u things wraps only when x is negative.
  lemma Wrap64Exact(x: int, u: nat)
    requires -1 <= x <= u < TWO_64
    ensures Wrap64(x) == x && Wrap64(x) + Wrap64(u - x) == u <==> 0 <= x
  {
  }

  // The step `(i + 1) % n` of a cyclic walk, without the division.
  lemma CyclicSuccessor(i: nat, n: nat)
    requires i < n
    ensures (i + 1) % n == if i + 1 == n then 0 else i + 1
  {
    if i + 1 < n {
      SmallMod(i + 1, n);
    }
  }

  lemma SmallMod(x: nat, n: nat)
    requires x < n
    ensures x % n == x
  {
  }
}
