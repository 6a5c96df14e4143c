/** Machine words written out over unbounded integers: powers of two, truncated
    shifts, bitwise or, two's complement, base-128 and base-256 digits, and the
    decimal digits printed by `%d`. */
module Numbers {

  type byte = x: int | 0 <= x < 256

  const TWO_31 := 0x8000_0000
  const TWO_32 := 0x1_0000_0000
  const TWO_63 := 0x8000_0000_0000_0000
  const TWO_64 := 0x1_0000_0000_0000_0000

  type uint32 = x: int | 0 <= x < TWO_32
  type uint64 = x: int | 0 <= x < TWO_64
  type int32 = x: int | -TWO_31 <= x < TWO_31
  type int64 = x: int | -TWO_63 <= x < TWO_63

  function Pow2(n: nat): (r: nat)
    ensures r > 0
  {
    if n == 0 then 1 else 2 * Pow2(n - 1)
  }

  lemma Pow2Add(a: nat, b: nat)
    ensures Pow2(a + b) == Pow2(a) * Pow2(b)
    decreases a
  {
    if a != 0 {
      Pow2Add(a - 1, b);
      assert 2 * (Pow2(a - 1) * Pow2(b)) == (2 * Pow2(a - 1)) * Pow2(b);
    }
  }

  lemma Pow2Words()
    ensures Pow2(7) == 128 && Pow2(8) == 256
    ensures Pow2(31) == TWO_31 && Pow2(32) == TWO_32
    ensures Pow2(63) == TWO_63 && Pow2(64) == TWO_64
  {
    assert Pow2(4) == 16;
    Pow2Add(4, 4);
    Pow2Add(8, 8);
    Pow2Add(16, 16);
    Pow2Add(32, 32);
  }

  lemma Pow2Monotone(a: nat, b: nat)
    requires a <= b
    ensures Pow2(a) <= Pow2(b)
  {
    if a < b {
      Pow2Monotone(a, b - 1);
    }
  }

  lemma MulLess(a: nat, b: nat, k: nat)
    requires a < b && 0 < k
    ensures a * k < b * k
    ensures a * k <= b * k - k
  {
    assert (b - a - 1) * k >= 0;
  }

  lemma MulAtLeast(k: int, d: int)
    requires 0 < d && k != 0
    ensures k * d >= d || k * d <= -d
  {
    if k > 0 {
      assert (k - 1) * d >= 0;
    } else {
      assert (-k - 1) * d >= 0;
    }
  }

  /** Quotient and remainder are unique. */
  lemma DivModUnique(x: int, d: int, q: int, r: int)
    requires 0 < d && 0 <= r < d && x == q * d + r
    ensures x / d == q && x % d == r
  {
    var k := x / d - q;
    assert k * d == r - x % d;
    if k != 0 {
      MulAtLeast(k, d);
    }
  }

  // ---- Bitwise or, and the shift that drops the bits leaving the word ----

  function Or(a: nat, b: nat): (r: nat)
  {
    if a == 0 && b == 0 then 0
    else (if a % 2 == 1 || b % 2 == 1 then 1 else 0) + 2 * Or(a / 2, b / 2)
  }

  lemma OrZero(b: nat)
    ensures Or(0, b) == b
  {
    if b != 0 {
      OrZero(b / 2);
    }
  }

  /** Disjoint bits: or is addition. */
  lemma {:induction false} OrDisjoint(a: nat, c: nat, k: nat)
    requires a < Pow2(k)
    ensures c * Pow2(k) >= 0
    ensures Or(a, c * Pow2(k)) == a + c * Pow2(k)
    decreases k
  {
    if k == 0 {
      OrZero(c);
      assert c * Pow2(0) == c;
    } else {
      var high := c * Pow2(k - 1);
      assert c * Pow2(k) == 2 * high;
      OrDisjoint(a / 2, c, k - 1);
    }
  }

  /** `x << shift` in a word of `width` bits. */
  function ShiftLeft(x: nat, shift: nat, width: nat): (r: nat)
  {
    if width <= shift then 0 else (x % Pow2(width - shift)) * Pow2(shift)
  }

  /** Or-ing a shifted digit into the low part is addition modulo the word. */
  lemma OrShifted(low: nat, x: nat, shift: nat, width: nat)
    requires low < Pow2(shift)
    ensures Or(low % Pow2(width), ShiftLeft(x, shift, width)) == (low + x * Pow2(shift)) % Pow2(width)
  {
    if width <= shift {
      OrShiftedAbove(low, x, shift, width);
    } else {
      OrShiftedWithin(low, x, shift, width);
    }
  }

  lemma OrShiftedAbove(low: nat, x: nat, shift: nat, width: nat)
    requires width <= shift
    ensures Or(low % Pow2(width), 0) == (low + x * Pow2(shift)) % Pow2(width)
  {
    Pow2Add(shift - width, width);
    OrDisjoint(low % Pow2(width), 0, width);
    ModOfMultiple(low, x, Pow2(shift - width), Pow2(width));
  }

  lemma OrShiftedWithin(low: nat, x: nat, shift: nat, width: nat)
    requires low < Pow2(shift) && shift < width
    ensures Or(low % Pow2(width), (x % Pow2(width - shift)) * Pow2(shift)) == (low + x * Pow2(shift)) % Pow2(width)
  {
    Pow2Add(width - shift, shift);
    Pow2Monotone(shift, width);
    OrDisjoint(low, x % Pow2(width - shift), shift);
    ModOfShifted(low, x, Pow2(width - shift), Pow2(shift));
  }

  lemma ModOfMultiple(low: nat, x: nat, above: nat, word: nat)
    requires 0 < word
    ensures (low + x * (above * word)) % word == low % word
  {
    var q := low / word;
    var k := x * above;
    assert x * (above * word) == k * word;
    assert q * word + k * word == (q + k) * word;
    DivModUnique(low + k * word, word, q + k, low % word);
  }

  lemma ModOfShifted(low: nat, x: nat, top: nat, p: nat)
    requires low < p && 0 < top
    ensures top * p > 0 && low % (top * p) == low
    ensures (low + x * p) % (top * p) == low + (x % top) * p
  {
    var q, r := x / top, x % top;
    MulLess(r, top, p);
    MulAtLeast(top, p);
    var word := top * p;
    DivModUnique(low, word, 0, low);
    assert x * p == (q * top) * p + r * p by { assert x == q * top + r; }
    assert (q * top) * p == q * word;
    DivModUnique(low + x * p, word, q, low + r * p);
  }

  /** The number of binary digits: bits.Len64, big.Int.BitLen. */
  function BitLen(x: nat): (n: nat)
  {
    if x == 0 then 0 else 1 + BitLen(x / 2)
  }

  lemma {:induction false} BitLenExceeds(x: nat, n: nat)
    ensures BitLen(x) > n <==> x >= Pow2(n)
    decreases n
  {
    if n != 0 && x != 0 {
      BitLenExceeds(x / 2, n - 1);
    }
  }

  // ---- Two's complement ----

  function ToInt64(u: uint64): (x: int64)
  {
    if u < TWO_63 then u else u - TWO_64
  }

  function FromInt64(x: int64): (u: uint64)
  {
    if 0 <= x then x else x + TWO_64
  }

  function ToInt32(u: uint32): (x: int32)
  {
    if u < TWO_31 then u else u - TWO_32
  }

  /** A 64-bit addition that wraps. */
  function AddInt64(a: int64, b: int64): (r: int64)
    ensures -TWO_63 <= a + b < TWO_63 ==> r == a + b
    ensures a >= 0 && b >= 0 && a + b >= TWO_63 ==> r < 0
  {
    ToInt64((FromInt64(a) + FromInt64(b)) % TWO_64)
  }

  // ---- Base 128, least significant digit first ----

  function Base128(bs: seq<byte>): (r: nat)
  {
    if bs == [] then 0 else bs[0] % 128 + 128 * Base128(bs[1..])
  }

  lemma {:induction false} Base128Append(bs: seq<byte>, b: byte)
    ensures Base128(bs) < Pow2(7 * |bs|)
    ensures Base128(bs + [b]) == Base128(bs) + (b % 128) * Pow2(7 * |bs|)
  {
    Pow2Words();
    if bs == [] {
      assert Base128([b][1..]) == 0;
    } else {
      Base128Append(bs[1..], b);
      assert (bs + [b])[1..] == bs[1..] + [b];
      Pow2Add(7, 7 * |bs[1..]|);
      assert 7 + 7 * |bs[1..]| == 7 * |bs|;
      var p := Pow2(7 * |bs[1..]|);
      assert 128 * ((b % 128) * p) == (b % 128) * (128 * p);
    }
  }

  // ---- Base 256, most significant digit first ----

  /** The last `len` base-256 digits of `n`; of a negative number, those of its two's complement. */
  function BigEndian(n: int, len: nat): (bs: seq<byte>)
    ensures |bs| == len
    decreases len
  {
    if len == 0 then [] else BigEndian(n / 256, len - 1) + [n % 256]
  }

  function FromBigEndian(bs: seq<byte>): (n: nat)
  {
    if bs == [] then 0 else 256 * FromBigEndian(bs[..|bs| - 1]) + bs[|bs| - 1]
  }

  lemma {:induction false} BigEndianMod(n: int, len: nat)
    ensures FromBigEndian(BigEndian(n, len)) == n % Pow2(8 * len)
    decreases len
  {
    if len == 0 {
      DivModUnique(n, 1, n, 0);
    } else {
      Pow2Words();
      Pow2Add(8, 8 * (len - 1));
      assert 8 + 8 * (len - 1) == 8 * len;
      BigEndianMod(n / 256, len - 1);
      assert BigEndian(n, len)[..len - 1] == BigEndian(n / 256, len - 1);
      ModSplit(n, Pow2(8 * (len - 1)));
    }
  }

  lemma ModSplit(n: int, p: nat)
    requires p > 0
    ensures 256 * ((n / 256) % p) + n % 256 == n % (256 * p)
  {
    var high, low := n / 256, n % 256;
    var q, r := high / p, high % p;
    assert n == 256 * (q * p + r) + low;
    assert 256 * (q * p) == q * (256 * p);
    DivModUnique(n, 256 * p, q, 256 * r + low);
  }

  lemma BigEndianRoundTrip(n: nat, len: nat)
    requires n < Pow2(8 * len)
    ensures FromBigEndian(BigEndian(n, len)) == n
  {
    BigEndianMod(n, len);
    DivModUnique(n, Pow2(8 * len), 0, n);
  }

  // ---- Decimal digits ----

  function Digit(d: nat): (c: char)
    requires d < 10
    ensures '0' <= c <= '9'
  {
    ['0', '1', '2', '3', '4', '5', '6', '7', '8', '9'][d]
  }

  function Decimal(n: nat): (s: string)
    ensures s != []
    ensures forall c :: c in s ==> '0' <= c <= '9'
  {
    if n < 10 then [Digit(n)] else Decimal(n / 10) + [Digit(n % 10)]
  }

  function DecimalValue(s: string): (n: int)
  {
    if s == [] then 0 else 10 * DecimalValue(s[..|s| - 1]) + (s[|s| - 1] as int - '0' as int)
  }

  lemma {:induction false} DecimalRoundTrip(n: nat)
    ensures DecimalValue(Decimal(n)) == n
  {
    if n >= 10 {
      DecimalRoundTrip(n / 10);
      assert Decimal(n)[..|Decimal(n)| - 1] == Decimal(n / 10);
    } else {
      assert DecimalValue([Digit(n)][..0]) == 0;
    }
  }

  lemma DecimalInjective(m: nat, n: nat)
    requires Decimal(m) == Decimal(n)
    ensures m == n
  {
    DecimalRoundTrip(m);
    DecimalRoundTrip(n);
  }
}
