/** The keys of the transaction index (indexer/kv_indexer.go) and their byte order, which is
    the order in which the store iterates. */
module IndexKeys {
  import opened Numbers
  import opened Order
  import opened Wrappers

  type Bytes = b: seq<byte> | |b| < TWO_63
  type Hash = h: Bytes | |h| == 32 witness seq(32, _ => 0)
  type Db = map<Bytes, Bytes>

  const KEY_PREFIX_TX_HASH: byte := 1
  const KEY_PREFIX_TX_INDEX: byte := 2
  const WORD_BYTES := 8
  const TX_INDEX_KEY_LENGTH := 1 + WORD_BYTES + WORD_BYTES

  function ByteRank(b: byte): (r: int) { b }

  predicate BytesLess(a: Bytes, b: Bytes) {
    Less(a, b, ByteRank)
  }

  lemma BytesTotal(a: Bytes, b: Bytes)
    ensures a == b || BytesLess(a, b) || BytesLess(b, a)
  {
    LessTotal(a, b, ByteRank);
  }

  lemma BytesTransitive(a: Bytes, b: Bytes, c: Bytes)
    requires BytesLess(a, b) && BytesLess(b, c)
    ensures BytesLess(a, c)
  {
    LessTransitive(a, b, c, ByteRank);
  }

  function TxHashKey(hash: Hash): (key: Bytes) {
    [KEY_PREFIX_TX_HASH] + hash
  }

  function TxIndexKey(height: int64, index: int32): (key: Bytes)
    ensures |key| == TX_INDEX_KEY_LENGTH
  {
    [KEY_PREFIX_TX_INDEX] + (BigEndian(FromInt64(height), WORD_BYTES) + BigEndian(FromInt64(index), WORD_BYTES))
  }

  function ParseBlockNumberFromKey(key: Bytes): (height: Option<int64>) {
    if |key| != TX_INDEX_KEY_LENGTH then None
    else
      var word := key[1..1 + WORD_BYTES];
      WordBound(word);
      Some(ToInt64(FromBigEndian(word)))
  }

  lemma {:induction false} FromBigEndianBound(bs: seq<byte>)
    ensures FromBigEndian(bs) < Pow2(8 * |bs|)
  {
    if bs == [] {
    } else {
      FromBigEndianBound(bs[..|bs| - 1]);
      Pow2Words();
      Pow2Add(8, 8 * (|bs| - 1));
      assert 8 + 8 * (|bs| - 1) == 8 * |bs|;
    }
  }

  lemma WordBound(word: seq<byte>)
    requires |word| == WORD_BYTES
    ensures FromBigEndian(word) < TWO_64
  {
    hide Pow2, FromBigEndian;
    FromBigEndianBound(word);
    Pow2Words();
    assert 8 * |word| == 64;
  }

  lemma WordRoundTrip(u: uint64)
    ensures FromBigEndian(BigEndian(u, WORD_BYTES)) == u
  {
    hide Pow2, FromBigEndian, BigEndian;
    Pow2Words();
    assert 8 * WORD_BYTES == 64;
    BigEndianRoundTrip(u, WORD_BYTES);
  }

  lemma KeyParts(height: int64, index: int32)
    ensures TxIndexKey(height, index)[1..1 + WORD_BYTES] == BigEndian(FromInt64(height), WORD_BYTES)
    ensures TxIndexKey(height, index)[1 + WORD_BYTES..] == BigEndian(FromInt64(index), WORD_BYTES)
  {
    hide BigEndian, FromInt64;
  }

  /** The height read back from an index key is the height it was made from. */
  lemma HeightOfKey(height: int64, index: int32)
    ensures ParseBlockNumberFromKey(TxIndexKey(height, index)) == Some(height)
  {
    hide TxIndexKey, BigEndian, FromBigEndian;
    KeyParts(height, index);
    WordRoundTrip(FromInt64(height));
  }

  lemma KeysDistinct(h1: int64, i1: int32, h2: int64, i2: int32)
    ensures TxIndexKey(h1, i1) == TxIndexKey(h2, i2) <==> h1 == h2 && i1 == i2
  {
    hide TxIndexKey, ParseBlockNumberFromKey, BigEndian, FromBigEndian;
    if TxIndexKey(h1, i1) == TxIndexKey(h2, i2) {
      HeightOfKey(h1, i1);
      HeightOfKey(h2, i2);
      KeyParts(h1, i1);
      KeyParts(h2, i2);
      WordRoundTrip(FromInt64(i1));
      WordRoundTrip(FromInt64(i2));
    }
  }

  /** The two key spaces are disjoint, and hash keys determine their hash. */
  lemma HashKeysApart(h: Hash, h': Hash, height: int64, index: int32)
    ensures TxHashKey(h) != TxIndexKey(height, index)
    ensures TxHashKey(h) == TxHashKey(h') ==> h == h'
  {
    assert TxHashKey(h)[0] != TxIndexKey(height, index)[0];
    assert TxHashKey(h)[1..] == h && TxHashKey(h')[1..] == h';
  }

  // ---- Byte order is numeric order ----

  lemma {:induction false} BigEndianOrder(a: nat, b: nat, n: nat, x: seq<byte>, y: seq<byte>)
    requires a < Pow2(8 * n) && b < Pow2(8 * n)
    ensures Less(BigEndian(a, n) + x, BigEndian(b, n) + y, ByteRank) <==> a < b || (a == b && Less(x, y, ByteRank))
    decreases n
  {
    if n == 0 {
      assert [] + x == x && [] + y == y;
    } else {
      HighDigits(a, b, n);
      BigEndianOrder(a / 256, b / 256, n - 1, [a % 256] + x, [b % 256] + y);
      assert BigEndian(a, n) + x == BigEndian(a / 256, n - 1) + ([a % 256] + x);
      assert BigEndian(b, n) + y == BigEndian(b / 256, n - 1) + ([b % 256] + y);
      LastDigit(a % 256, b % 256, x, y);
    }
  }

  lemma HighDigits(a: nat, b: nat, n: nat)
    requires n > 0 && a < Pow2(8 * n) && b < Pow2(8 * n)
    ensures a / 256 < Pow2(8 * (n - 1)) && b / 256 < Pow2(8 * (n - 1))
  {
    Pow2Words();
    Pow2Add(8, 8 * (n - 1));
    assert 8 + 8 * (n - 1) == 8 * n;
  }

  lemma LastDigit(a: byte, b: byte, x: seq<byte>, y: seq<byte>)
    ensures Less([a] + x, [b] + y, ByteRank) <==> a < b || (a == b && Less(x, y, ByteRank))
  {
    assert ([a] + x)[1..] == x && ([b] + y)[1..] == y;
  }

  lemma IndexKeyOrder(h1: int64, i1: int32, h2: int64, i2: int32)
    requires h1 >= 0 && i1 >= 0 && h2 >= 0 && i2 >= 0
    ensures BytesLess(TxIndexKey(h1, i1), TxIndexKey(h2, i2)) <==> h1 < h2 || (h1 == h2 && i1 < i2)
  {
    hide Pow2, BigEndian, Less;
    Pow2Words();
    assert 8 * WORD_BYTES == 64;
    var b1, b2 := BigEndian(i1, WORD_BYTES), BigEndian(i2, WORD_BYTES);
    LastDigit(KEY_PREFIX_TX_INDEX, KEY_PREFIX_TX_INDEX, BigEndian(h1, WORD_BYTES) + b1, BigEndian(h2, WORD_BYTES) + b2);
    BigEndianOrder(h1, h2, WORD_BYTES, b1, b2);
    var end: seq<byte> := [];
    BigEndianOrder(i1, i2, WORD_BYTES, end, end);
    assert b1 + end == b1 && b2 + end == b2;
    LessIrreflexive(end, ByteRank);
  }

  /** The range the store is iterated over: from the byte 2 up to, not including, the byte 3. */
  predicate InIndexRange(key: Bytes) {
    !BytesLess(key, [KEY_PREFIX_TX_INDEX]) && BytesLess(key, [KEY_PREFIX_TX_INDEX + 1])
  }

  lemma IndexRange(key: Bytes)
    ensures InIndexRange(key) <==> key != [] && key[0] == KEY_PREFIX_TX_INDEX
  {
    var lo: Bytes, hi: Bytes := [KEY_PREFIX_TX_INDEX], [KEY_PREFIX_TX_INDEX + 1];
    assert lo[1..] == [] && hi[1..] == [];
    if key != [] {
      assert !Less(key[1..], [], ByteRank);
    }
  }

  // ---- The bytes of a key ----

  lemma {:induction false} SmallBigEndian(n: nat, len: nat)
    requires len > 0 && n < 256
    ensures BigEndian(n, len) == seq(len - 1, _ => 0) + [n]
  {
    if len == 1 {
      assert BigEndian(0, 0) == [];
    } else {
      SmallBigEndian(0, len - 1);
    }
  }

  /** A hash key is the byte 1 and the hash; an index key is the byte 2 with the height and the
      index in eight bytes each, here for one-byte numbers. */
  lemma KeyBytes(hash: Hash, h: nat, i: nat)
    requires h < 256 && i < 256
    ensures TxHashKey(hash) == [1] + hash
    ensures TxIndexKey(h, i) == [2, 0, 0, 0, 0, 0, 0, 0, h, 0, 0, 0, 0, 0, 0, 0, i]
  {
    hide BigEndian;
    SmallBigEndian(h, WORD_BYTES);
    SmallBigEndian(i, WORD_BYTES);
  }
}
