/** 64-bit counters that wrap. */
module Counters {
  const COUNTER_MODULUS := 0x1_0000_0000_0000_0000

  function Wrapped(n: nat): nat {
    n % COUNTER_MODULUS
  }

  /** Counting on from a wrapped count is counting on. */
  lemma WrapsOnce(e: nat, k: nat)
    requires e < COUNTER_MODULUS
    ensures Wrapped(e) == e && Wrapped(e + 1) < COUNTER_MODULUS
    ensures Wrapped(Wrapped(e + 1) + k) == Wrapped(e + (1 + k))
  {
    if e + 1 == COUNTER_MODULUS {
      assert e + (1 + k) == COUNTER_MODULUS + k;
    }
  }

  /** A counter reads as it did exactly when it has moved a multiple of 2^64 times. */
  lemma BackAtStart(e: nat, k: nat)
    requires e < COUNTER_MODULUS
    ensures Wrapped(e + k) == e <==> Wrapped(k) == 0
  {
    var q := k / COUNTER_MODULUS;
    assert k == q * COUNTER_MODULUS + Wrapped(k);
    var sum := e + Wrapped(k);
    assert Wrapped(e + k) == if sum < COUNTER_MODULUS then sum else sum - COUNTER_MODULUS;
  }
}
