/** Types shared by the precompiles, and the overflow test of their additions
    (precompiles/common/types.go). */
module EvmTypes {
  import opened Numbers

  type Address = nat

  const MAX_UINT256 := 0xffff_ffff_ffff_ffff_ffff_ffff_ffff_ffff_ffff_ffff_ffff_ffff_ffff_ffff_ffff_ffff

  /** math.MaxBitLen */
  const MAX_BIT_LEN := 256

  type uint256 = x: int | 0 <= x <= MAX_UINT256

  /** An SDK integer cannot hold it. */
  predicate Overflows(amount: int) {
    amount > MAX_UINT256 || amount < -MAX_UINT256
  }

  /** The sum, and whether its bit length exceeds what an SDK integer holds. */
  function SafeAdd(a: int, b: int): (r: (int, bool))
  {
    var res := a + b;
    (res, BitLen(if res < 0 then -res else res) > MAX_BIT_LEN)
  }

  lemma MaxUint256IsPower()
    ensures MAX_UINT256 + 1 == Pow2(MAX_BIT_LEN)
  {
    hide Pow2;
    var half := MAX_BIT_LEN / 2;
    Pow2Words();
    Pow2Add(64, 64);
    assert Pow2(64 + 64) == TWO_64 * TWO_64;
    Pow2Add(half, half);
    assert half == 64 + 64 && half + half == MAX_BIT_LEN;
  }

  /** The bit-length test is the range test. */
  lemma SafeAddExact(a: int, b: int)
    ensures SafeAdd(a, b) == (a + b, Overflows(a + b))
  {
    hide Pow2, BitLen;
    MaxUint256IsPower();
    var res := a + b;
    BitLenExceeds(if res < 0 then -res else res, MAX_BIT_LEN);
  }
}
