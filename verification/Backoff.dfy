/** The waiting times between attempts: powers of two, at most 256 seconds. */
module Backoff {

  function Pow2(k: nat): nat {
    if k == 0 then 1 else 2 * Pow2(k - 1)
  }

  /** The wait before the next attempt when `attempts` were made before this one. */
  function Delay(attempts: nat): nat {
    Pow2(if attempts < 8 then attempts else 8)
  }

  /** All waiting times of the first k retries. */
  function Waited(k: nat): nat {
    if k == 0 then 0 else Waited(k - 1) + Delay(k - 1)
  }

  lemma PowersOfTwo()
    ensures Pow2(8) == 256 && Pow2(9) == 512
  {
    assert Pow2(4) == 16;
    assert Pow2(8) == 16 * Pow2(4) by {
      assert Pow2(6) == 4 * Pow2(4);
    }
  }

  /** The closed form of the sum. */
  lemma {:induction false} WaitedIs(k: nat)
    ensures Waited(k) == if k <= 9 then Pow2(k) - 1 else 511 + 256 * (k - 9)
  {
    PowersOfTwo();
    if k > 0 {
      WaitedIs(k - 1);
    }
  }
}
