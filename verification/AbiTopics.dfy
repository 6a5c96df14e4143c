/** Event topics of integer arguments (precompiles/common/abi.go): 32 bytes read as one
    big-endian number in two's complement. */
module AbiTopics {
  import opened Numbers

  const HASH_LENGTH := 32
  const ADDRESS_LENGTH := 20
  const WORD_BITS := 8 * HASH_LENGTH

  type Topic = t: seq<byte> | |t| == HASH_LENGTH witness seq(HASH_LENGTH, _ => 0)

  /** The 256-bit two's complement number a topic stands for. */
  function SignedValue(t: Topic): (x: int) {
    var u := FromBigEndian(t);
    if u < Pow2(WORD_BITS - 1) then u else u - Pow2(WORD_BITS)
  }

  // ---- The code ----

  /** The i-th byte from the right: an arithmetic shift, then the low byte. */
  function ByteOf(rule: int64, i: nat): (b: byte) {
    rule / Pow2(8 * i) % 256
  }

  method GenIntType(rule: int64, size: nat) returns (topic: array<byte>)
    requires size <= HASH_LENGTH
    ensures fresh(topic) && topic.Length == HASH_LENGTH && topic[..] == IntTopic(rule, size)
  {
    hide ByteOf, BigEndian, Fill;
    topic := new byte[HASH_LENGTH](_ => 0);
    if rule < 0 {
      for j := 0 to HASH_LENGTH
        invariant forall k :: 0 <= k < j ==> topic[k] == 255
      {
        topic[j] := 255;
      }
    }
    ghost var fill := if rule < 0 then 255 else 0;
    for i := 0 to size
      invariant forall k :: 0 <= k < HASH_LENGTH - i ==> topic[k] == fill
      invariant forall k :: 0 <= k < i ==> topic[HASH_LENGTH - 1 - k] == ByteOf(rule, k)
    {
      topic[HASH_LENGTH - i - 1] := ByteOf(rule, i);
    }
    forall k | 0 <= k < size ensures topic[HASH_LENGTH - size + k] == BigEndian(rule, size)[k] {
      DigitIsByte(rule, size, size - 1 - k);
      assert topic[HASH_LENGTH - 1 - (size - 1 - k)] == ByteOf(rule, size - 1 - k);
    }
    assert topic[..] == IntTopic(rule, size);
  }

  function IntTopic(rule: int64, size: nat): (t: Topic)
    requires size <= HASH_LENGTH
  {
    Fill(if rule < 0 then 255 else 0, HASH_LENGTH - size) + BigEndian(rule, size)
  }

  function Fill(b: byte, n: nat): (bs: seq<byte>)
    ensures |bs| == n
    ensures forall k :: 0 <= k < n ==> bs[k] == b
  {
    if n == 0 then [] else Fill(b, n - 1) + [b]
  }

  lemma {:induction false} BigEndianDigit(n: int, len: nat, k: nat)
    requires k < len
    ensures BigEndian(n, len)[len - 1 - k] == n / Pow2(8 * k) % 256
    decreases len
  {
    if k == 0 {
    } else {
      BigEndianDigit(n / 256, len - 1, k - 1);
      Pow2Words();
      Pow2Add(8, 8 * (k - 1));
      assert 8 + 8 * (k - 1) == 8 * k;
      DivDiv(n, Pow2(8 * (k - 1)));
    }
  }

  lemma DigitIsByte(rule: int64, size: nat, k: nat)
    requires k < size
    ensures BigEndian(rule, size)[size - 1 - k] == ByteOf(rule, k)
  {
    BigEndianDigit(rule, size, k);
  }

  lemma DivDiv(n: int, p: nat)
    requires p > 0
    ensures n / 256 / p == n / (256 * p)
  {
    var high, low := n / 256, n % 256;
    var q, r := high / p, high % p;
    assert n == 256 * (q * p + r) + low;
    assert 256 * (q * p) == q * (256 * p);
    DivModUnique(n, 256 * p, q, 256 * r + low);
  }

  // ---- What the topic says ----

  lemma {:induction false} FromBigEndianConcat(a: seq<byte>, b: seq<byte>)
    ensures FromBigEndian(a + b) == FromBigEndian(a) * Pow2(8 * |b|) + FromBigEndian(b)
    decreases |b|
  {
    if b == [] {
      assert a + b == a;
    } else {
      hide Pow2;
      var last := |b| - 1;
      FromBigEndianConcat(a, b[..last]);
      assert (a + b)[..|a + b| - 1] == a + b[..last];
      Pow2Step(|b|);
      ScaleUp(FromBigEndian(a), Pow2(8 * last), FromBigEndian(b[..last]));
    }
  }

  lemma ScaleUp(x: nat, p: nat, y: nat)
    ensures 256 * (x * p + y) == x * (256 * p) + 256 * y
  {
  }

  lemma {:induction false} FillValue(b: byte, n: nat)
    requires b == 0 || b == 255
    ensures FromBigEndian(Fill(b, n)) == if b == 0 then 0 else Pow2(8 * n) - 1
    decreases n
  {
    if n == 0 {
    } else {
      FillValue(b, n - 1);
      assert Fill(b, n)[..n - 1] == Fill(b, n - 1);
      Pow2Step(n);
    }
  }

  lemma Pow2Step(n: nat)
    requires n > 0
    ensures Pow2(8 * n) == 256 * Pow2(8 * (n - 1))
  {
    Pow2Words();
    Pow2Add(8, 8 * (n - 1));
    assert 8 + 8 * (n - 1) == 8 * n;
  }

  /** The unsigned value of an integer topic. */
  lemma IntTopicUnsigned(rule: int64, size: nat)
    requires size <= HASH_LENGTH
    ensures var m := Pow2(8 * size);
            FromBigEndian(IntTopic(rule, size)) == rule % m + if rule < 0 then Pow2(WORD_BITS) - m else 0
  {
    hide Pow2, BigEndian, Fill, FromBigEndian;
    var rest := HASH_LENGTH - size;
    var fill := if rule < 0 then 255 else 0;
    FillValue(fill, rest);
    FromBigEndianConcat(Fill(fill, rest), BigEndian(rule, size));
    BigEndianMod(rule, size);
    FillWeight(size);
  }

  lemma FillWeight(size: nat)
    requires size <= HASH_LENGTH
    ensures (Pow2(8 * (HASH_LENGTH - size)) - 1) * Pow2(8 * size) == Pow2(WORD_BITS) - Pow2(8 * size)
  {
    hide Pow2;
    var above, m := Pow2(8 * (HASH_LENGTH - size)), Pow2(8 * size);
    Pow2Add(8 * (HASH_LENGTH - size), 8 * size);
    assert 8 * (HASH_LENGTH - size) + 8 * size == WORD_BITS;
    OneLess(above, m);
  }

  lemma OneLess(a: int, m: int)
    ensures (a - 1) * m == a * m - m
  {
  }

  lemma TopBit(size: nat)
    requires size < HASH_LENGTH
    ensures Pow2(8 * size) <= Pow2(WORD_BITS - 1) && Pow2(WORD_BITS) == 2 * Pow2(WORD_BITS - 1)
  {
    Pow2Monotone(8 * size, WORD_BITS - 1);
  }

  /** A topic of `size` low bytes reads back as its integer exactly when the integer needs no
      more bytes than that, sign apart. */
  lemma IntTopicExact(rule: int64, size: nat)
    requires size < HASH_LENGTH
    ensures SignedValue(IntTopic(rule, size)) == rule <==> 0 <= rule + Pow2(8 * size) && rule < Pow2(8 * size)
  {
    hide Pow2, FromBigEndian, IntTopic;
    var m := Pow2(8 * size);
    IntTopicUnsigned(rule, size);
    TopBit(size);
    assert 0 <= rule % m < m;
    if 0 <= rule < m {
      DivModUnique(rule, m, 0, rule);
    } else if 0 <= rule + m < m {
      DivModUnique(rule, m, -1, rule + m);
    }
  }

  /** Every value of the integer type fits. */
  predicate Fits(x: int64, size: nat) {
    size in {1, 2, 4, 8} && 0 <= x + Pow2(8 * size - 1) && x < Pow2(8 * size - 1)
  }

  lemma FittingTopic(x: int64, size: nat)
    requires Fits(x, size)
    ensures SignedValue(IntTopic(x, size)) == x
  {
    hide SignedValue, IntTopic;
    Pow2Monotone(8 * size - 1, 8 * size);
    IntTopicExact(x, size);
  }

  /** The arguments MakeTopic turns into numbers. */
  datatype Rule =
    | SignedInt(x: int64, size: nat)     // int8, int16, int32, int64
    | UnsignedInt(u: uint64)             // uint8, ..., uint64
    | BigInt(n: int)
    | Boolean(b: bool)
    | Address(bytes: seq<byte>)

  predicate ValidRule(r: Rule) {
    match r
    case SignedInt(x, size) => Fits(x, size)
    case BigInt(n) => 0 < n + Pow2(WORD_BITS) && n < Pow2(WORD_BITS)
    case Address(bytes) => |bytes| == ADDRESS_LENGTH
    case _ => true
  }

  /** The numeric cases of MakeTopic; a big integer contributes its absolute value. */
  function MakeTopic(r: Rule): (t: Topic)
    requires ValidRule(r)
  {
    match r
    case SignedInt(x, size) => IntTopic(x, size)
    case UnsignedInt(u) => BigEndian(u, HASH_LENGTH)
    case BigInt(n) => BigEndian(if n < 0 then -n else n, HASH_LENGTH)
    case Boolean(b) => Fill(0, HASH_LENGTH - 1) + [if b then 1 else 0]
    case Address(bytes) => Fill(0, HASH_LENGTH - ADDRESS_LENGTH) + bytes
  }

  lemma UnsignedTopic(n: nat)
    requires n < Pow2(WORD_BITS)
    ensures FromBigEndian(BigEndian(n, HASH_LENGTH)) == n
  {
    BigEndianRoundTrip(n, HASH_LENGTH);
  }

  lemma BelowHalf(x: nat)
    requires x < TWO_64
    ensures x < Pow2(WORD_BITS - 1) && Pow2(WORD_BITS) == 2 * Pow2(WORD_BITS - 1)
  {
    Pow2Words();
    Pow2Monotone(64, 255);
    Pow2Add(1, 255);
    assert Pow2(1) == 2;
  }

  /** Signed topics of any widths are equal exactly when the values are. */
  lemma SignedTopicsAgree(x: int64, size: nat, y: int64, size': nat)
    requires Fits(x, size) && Fits(y, size')
    ensures MakeTopic(SignedInt(x, size)) == MakeTopic(SignedInt(y, size')) <==> x == y
  {
    hide Pow2, FromBigEndian, IntTopic, SignedValue;
    FittingTopic(x, size);
    FittingTopic(y, size');
    if x == y {
      IntTopicUnsigned(x, size);
      IntTopicUnsigned(y, size');
      SameUnsigned(x, size);
      SameUnsigned(y, size');
      FromBigEndianInjective(IntTopic(x, size), IntTopic(y, size'));
    }
  }

  /** The unsigned reading of a fitting topic does not depend on its width. */
  lemma SameUnsigned(x: int64, size: nat)
    requires Fits(x, size)
    ensures FromBigEndian(IntTopic(x, size)) == if x < 0 then x + Pow2(WORD_BITS) else x
  {
    var m := Pow2(8 * size);
    IntTopicUnsigned(x, size);
    Pow2Monotone(8 * size - 1, 8 * size);
    if x >= 0 {
      DivModUnique(x, m, 0, x);
    } else {
      DivModUnique(x, m, -1, x + m);
    }
  }

  lemma {:induction false} FromBigEndianInjective(a: seq<byte>, b: seq<byte>)
    requires |a| == |b| && FromBigEndian(a) == FromBigEndian(b)
    ensures a == b
    decreases |a|
  {
    if |a| == 0 {
    } else {
      var last := |a| - 1;
      FromBigEndianInjective(a[..last], b[..last]);
      assert a == a[..last] + [a[last]] && b == b[..last] + [b[last]];
    }
  }

  /** A signed argument has the topic of the unsigned or big integer of equal value exactly when
      it is not negative. */
  lemma SignedMeetsUnsigned(x: int64, size: nat)
    requires Fits(x, size)
    ensures x >= 0 ==> MakeTopic(SignedInt(x, size)) == MakeTopic(UnsignedInt(x))
    ensures ValidRule(BigInt(x)) && (MakeTopic(SignedInt(x, size)) == MakeTopic(BigInt(x)) <==> x >= 0)
  {
    hide Pow2, FromBigEndian, IntTopic, BigEndian;
    SameUnsigned(x, size);
    var abs: int := if x < 0 then 0 - x as int else x;
    BelowHalf(abs);
    UnsignedTopic(abs);
    if x >= 0 {
      FromBigEndianInjective(IntTopic(x, size), BigEndian(x, HASH_LENGTH));
    }
  }

  // ---- All numeric arguments at once ----

  /** The unsigned number an argument's topic stands for. */
  function TopicNumber(r: Rule): (n: int)
    requires ValidRule(r)
  {
    match r
    case SignedInt(x, _) => if x < 0 then x + Pow2(WORD_BITS) else x
    case UnsignedInt(u) => u
    case BigInt(n) => if n < 0 then -n else n
    case Boolean(b) => if b then 1 else 0
    case Address(bytes) => FromBigEndian(bytes)
  }

  lemma PaddedValue(bytes: seq<byte>)
    requires |bytes| <= HASH_LENGTH
    ensures FromBigEndian(Fill(0, HASH_LENGTH - |bytes|) + bytes) == FromBigEndian(bytes)
  {
    hide Fill, FromBigEndian;
    FillValue(0, HASH_LENGTH - |bytes|);
    FromBigEndianConcat(Fill(0, HASH_LENGTH - |bytes|), bytes);
  }

  lemma TopicValue(r: Rule)
    requires ValidRule(r)
    ensures FromBigEndian(MakeTopic(r)) == TopicNumber(r)
  {
    hide Fill, Pow2, BigEndian, IntTopic, Fits;
    match r
    case SignedInt(x, size) => SameUnsigned(x, size);
    case UnsignedInt(u) =>
      BelowHalf(u);
      UnsignedTopic(u);
    case BigInt(n) => UnsignedTopic(if n < 0 then -n else n);
    case Boolean(b) => PaddedValue([if b then 1 else 0]);
    case Address(bytes) => PaddedValue(bytes);
  }

  /** Topics of any two numeric arguments are equal exactly when their numbers are. */
  lemma TopicsAgree(r: Rule, r': Rule)
    requires ValidRule(r) && ValidRule(r')
    ensures MakeTopic(r) == MakeTopic(r') <==> TopicNumber(r) == TopicNumber(r')
  {
    hide MakeTopic, TopicNumber, FromBigEndian;
    TopicValue(r);
    TopicValue(r');
    if TopicNumber(r) == TopicNumber(r') {
      FromBigEndianInjective(MakeTopic(r), MakeTopic(r'));
    }
  }

  /** So a filter on an unsigned, boolean or address argument selects exactly that value. */
  lemma TopicSelects(r: Rule, r': Rule)
    requires ValidRule(r) && ValidRule(r')
    requires (r.UnsignedInt? && r'.UnsignedInt?) || (r.Boolean? && r'.Boolean?) || (r.Address? && r'.Address?)
    ensures MakeTopic(r) == MakeTopic(r') <==> r == r'
  {
    hide MakeTopic, FromBigEndian;
    TopicsAgree(r, r');
    if r.Address? && TopicNumber(r) == TopicNumber(r') {
      FromBigEndianInjective(r.bytes, r'.bytes);
    }
  }
}
