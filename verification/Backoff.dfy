// Doubling waits (retry_wait of main/mesh_addr.c, doubled of main/bat_mode.c) and sums of the
// time between steps.
module Backoff {
  import opened Words

  const MAX_MS: int := 600000

  // first doubled n times, at most MAX_MS.
  function Doubled(first: nat, n: nat): nat {
    if first * Pow2(n) < MAX_MS then first * Pow2(n) else MAX_MS
  }

  lemma {:induction false} PowGrows(m: nat, n: nat)
    requires m <= n
    ensures 1 <= Pow2(m) <= Pow2(n)
    decreases n
  {
    if m < n {
      PowGrows(m, n - 1);
    } else if n > 0 {
      PowGrows(n - 1, n - 1);
    }
  }

  lemma Beyond(first: nat, m: nat, n: nat)
    requires m <= n && first * Pow2(m) >= MAX_MS
    ensures first * Pow2(n) >= MAX_MS
  {
    PowGrows(m, n);
    assert first * Pow2(n) >= first * Pow2(m);
  }

  lemma DoubleAgain(first: nat, i: nat)
    ensures first * Pow2(i + 1) == 2 * (first * Pow2(i))
  {
  }

  // The loop, in 32 bits: no doubling overflows.
  method DoubledWait(first: u32, n: u8) returns (w: u32)
    requires first < MAX_MS
    ensures w == Doubled(first, n)
  {
    w := first;
    var i := 0;
    while i < n && w < MAX_MS
      invariant i <= n && w == first * Pow2(i) && w < 2 * MAX_MS
    {
      DoubleAgain(first, i);
      w := w * 2;
      i := i + 1;
    }
    if w >= MAX_MS {
      Beyond(first, i, n);
      w := MAX_MS;
    }
  }

  // Time passed over the steps i to j.
  function Total(elapsed: seq<u32>, i: nat, j: nat): nat
    requires i <= j <= |elapsed|
  {
    if i == j then 0 else Total(elapsed, i, j - 1) + elapsed[j - 1]
  }
}
