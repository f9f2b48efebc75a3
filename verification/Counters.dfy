// Unsigned counters of 32 bits, as numbers that wrap modulo 2^32.

module Counters {
  const WORD: nat := 0x1_0000_0000

  // ++ and -- on a uint32_t.
  function Inc32(n: nat): nat {
    (n + 1) % WORD
  }

  function Dec32(n: nat): nat {
    if n == 0 then WORD - 1 else n - 1
  }

  // Counters that wrap still count modulo 2^32.
  lemma CountUp(n: nat, m: nat)
    requires m == n + 1
    ensures Inc32(n % WORD) == m % WORD
  {
  }

  lemma CountDown(n: nat, m: nat)
    requires n == m + 1
    ensures Dec32(n % WORD) == m % WORD
  {
  }
}
