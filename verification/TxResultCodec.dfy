/** The protobuf codec of the record stored by the Ethereum transaction indexer
    (types/indexer.pb.go): what the reader accepts, and what it makes of it. */
module TxResultCodec {
  import opened Numbers
  import opened Wrappers

  datatype TxResult = TxResult(
    height: int64,
    txIndex: uint32,
    msgIndex: uint32,
    ethTxIndex: int32,
    failed: bool,
    gasUsed: uint64,
    cumulativeGasUsed: uint64)

  const EMPTY := TxResult(0, 0, 0, 0, false, 0, 0)

  datatype Error =
    | IntOverflow
    | UnexpectedEOF
    | InvalidLength
    | EndGroupForNonGroup
    | UnexpectedEndOfGroup
    | IllegalTag(fieldNumber: int)
    | WrongWireType(field: int, wireType: int)
    | IllegalWireType(wireType: int)

  // ------------------------------------------------------------------
  // Reading: specification functions
  // ------------------------------------------------------------------

  datatype ScanResult = ScanResult(stop: nat, err: Option<Error>)

  /** Where a varint starting at `i` stops when `n` of its bytes were already read. */
  function Scan(data: seq<byte>, i: nat, n: nat): (r: ScanResult)
    requires i <= |data| && n <= 10
    ensures i <= r.stop <= |data|
    ensures r.err.None? ==> i < r.stop
    decreases |data| - i
  {
    if n == 10 then ScanResult(i, Some(IntOverflow))
    else if i == |data| then ScanResult(i, Some(UnexpectedEOF))
    else if data[i] < 128 then ScanResult(i + 1, None)
    else Scan(data, i + 1, n + 1)
  }

  /** The 64-bit word a varint stands for. */
  function Word(bs: seq<byte>): (w: uint64)
  {
    Base128(bs) % TWO_64
  }

  function WireType(tag: seq<byte>): (t: nat)
    ensures t < 8
  {
    Word(tag) % 8
  }

  function FieldNumber(tag: seq<byte>): (n: int32)
  {
    ToInt32(Word(tag) / 8 % TWO_32)
  }

  /** One tag with its payload, as the skipper sees it: the payload may reach past the data. */
  datatype Token = Token(wireType: nat, next: int64) | BadToken(err: Error)

  function ReadToken(data: seq<byte>, i: nat): (t: Token)
    requires i < |data| < TWO_63
    ensures t.Token? ==> t.wireType <= 5 && i < t.next
  {
    var tag := Scan(data, i, 0);
    if tag.err.Some? then BadToken(tag.err.value)
    else ReadPayload(data, tag.stop, WireType(data[i..tag.stop]))
  }

  function ReadPayload(data: seq<byte>, start: nat, wireType: nat): (t: Token)
    requires 0 < start <= |data| < TWO_63
    ensures t.Token? ==> t.wireType == wireType <= 5 && start <= t.next
  {
    match wireType
    case 0 =>
      var value := Scan(data, start, 0);
      if value.err.Some? then BadToken(value.err.value) else Token(0, value.stop)
    case 1 => Advance(1, start, 8)
    case 2 =>
      var length := Scan(data, start, 0);
      if length.err.Some? then BadToken(length.err.value)
      else
        var len := ToInt64(Word(data[start..length.stop]));
        if len < 0 then BadToken(InvalidLength) else Advance(2, length.stop, len)
    case 3 => Token(3, start)
    case 4 => Token(4, start)
    case 5 => Advance(5, start, 4)
    case _ => BadToken(IllegalWireType(wireType))
  }

  function Advance(wireType: nat, from: int64, step: int64): (t: Token)
    requires wireType <= 5 && 0 < from && 0 <= step
    ensures t.Token? ==> t.wireType == wireType && t.next == from + step
  {
    var next := AddInt64(from, step);
    if next < 0 then BadToken(InvalidLength) else Token(wireType, next)
  }

  datatype SkipResult = Skipped(n: int64) | SkipFailed(err: Error)

  /** skipIndexer resumed at `i` inside `depth` open groups. */
  function SkipFrom(data: seq<byte>, i: nat, depth: nat): (r: SkipResult)
    requires |data| < TWO_63
    ensures r.Skipped? ==> i < r.n
    decreases if i < |data| then |data| - i else 0
  {
    if i >= |data| then SkipFailed(UnexpectedEOF)
    else
      match ReadToken(data, i)
      case BadToken(e) => SkipFailed(e)
      case Token(wireType, next) =>
        if wireType == 4 && depth == 0 then SkipFailed(UnexpectedEndOfGroup)
        else
          var depth' := if wireType == 3 then depth + 1 else if wireType == 4 then depth - 1 else depth;
          if depth' == 0 then Skipped(next) else SkipFrom(data, next, depth')
  }

  /** What reading `v` into field `num` leaves in the record; a boolean is only
      stored once its varint is complete. */
  function Assign(m: TxResult, num: int, v: nat, complete: bool): (r: TxResult)
  {
    match num
    case 1 => m.(height := ToInt64(v % TWO_64))
    case 2 => m.(txIndex := v % TWO_32)
    case 3 => m.(msgIndex := v % TWO_32)
    case 4 => m.(ethTxIndex := ToInt32(v % TWO_32))
    case 5 => if complete then m.(failed := v % TWO_64 != 0) else m
    case 6 => m.(gasUsed := v % TWO_64)
    case 7 => m.(cumulativeGasUsed := v % TWO_64)
    case _ => m
  }

  datatype Decoded = Decoded(m: TxResult, err: Option<Error>)

  /** One turn of the Unmarshal loop: go on at `i`, or stop with an error. */
  datatype Turn = GoOn(i: nat, m: TxResult) | Stop(m: TxResult, err: Error)

  function ReadKnown(data: seq<byte>, start: nat, num: int, m: TxResult): (t: Turn)
    requires start <= |data|
    ensures t.GoOn? ==> start < t.i <= |data|
  {
    var value := Scan(data, start, 0);
    var m' := Assign(m, num, Base128(data[start..value.stop]), value.err.None?);
    if value.err.Some? then Stop(m', value.err.value) else GoOn(value.stop, m')
  }

  function SkipUnknown(data: seq<byte>, i: nat, m: TxResult): (t: Turn)
    requires i < |data| < TWO_63
    ensures t.GoOn? ==> i < t.i <= |data|
  {
    match SkipFrom(data[i..], 0, 0)
    case SkipFailed(e) => Stop(m, e)
    case Skipped(n) =>
      if AddInt64(i, n) < 0 then Stop(m, InvalidLength)
      else if i + n > |data| then Stop(m, UnexpectedEOF)
      else GoOn(i + n, m)
  }

  function ReadField(data: seq<byte>, i: nat, m: TxResult): (t: Turn)
    requires i < |data| < TWO_63
    ensures t.GoOn? ==> i < t.i <= |data|
  {
    var tag := Scan(data, i, 0);
    if tag.err.Some? then Stop(m, tag.err.value)
    else
      var num := FieldNumber(data[i..tag.stop]);
      var wireType := WireType(data[i..tag.stop]);
      if wireType == 4 then Stop(m, EndGroupForNonGroup)
      else if num <= 0 then Stop(m, IllegalTag(num))
      else if num > 7 then SkipUnknown(data, i, m)
      else if wireType != 0 then Stop(m, WrongWireType(num, wireType))
      else ReadKnown(data, tag.stop, num, m)
  }

  /** Unmarshal resumed at `i` with the record `m` read so far. */
  function Decode(data: seq<byte>, i: nat, m: TxResult): (r: Decoded)
    requires i <= |data| < TWO_63
    decreases |data| - i
  {
    if i == |data| then Decoded(m, None)
    else
      match ReadField(data, i, m)
      case Stop(m', e) => Decoded(m', Some(e))
      case GoOn(i', m') => Decode(data, i', m')
  }

  // ------------------------------------------------------------------
  // Reading: the loops
  // ------------------------------------------------------------------

  lemma AccumulateByte(data: seq<byte>, start: nat, stop: nat, width: nat)
    requires start <= stop < |data|
    ensures Or(Base128(data[start..stop]) % Pow2(width), ShiftLeft(data[stop] % 128, 7 * (stop - start), width))
         == Base128(data[start..stop + 1]) % Pow2(width)
  {
    var read, b := data[start..stop], data[stop];
    Base128Append(read, b);
    assert read + [b] == data[start..stop + 1];
    OrShifted(Base128(read), b % 128, 7 * (stop - start), width);
  }

  method ReadVarint(data: seq<byte>, start: nat, width: nat)
    returns (value: nat, stop: nat, err: Option<Error>)
    requires start <= |data|
    ensures ScanResult(stop, err) == Scan(data, start, 0)
    ensures value == Base128(data[start..stop]) % Pow2(width)
  {
    value, stop := 0, start;
    assert value == Base128(data[start..stop]) % Pow2(width) by {
      DivModUnique(0, Pow2(width), 0, 0);
    }
    var shift := 0;
    while true
      invariant start <= stop <= |data| && stop - start <= 10
      invariant shift == 7 * (stop - start)
      invariant Scan(data, start, 0) == Scan(data, stop, stop - start)
      invariant value == Base128(data[start..stop]) % Pow2(width)
      decreases |data| - stop
    {
      if shift >= 64 {
        return value, stop, Some(IntOverflow);
      }
      if stop >= |data| {
        return value, stop, Some(UnexpectedEOF);
      }
      var b := data[stop];
      AccumulateByte(data, start, stop, width);
      stop := stop + 1;
      value := Or(value, ShiftLeft(b % 128, shift, width));
      if b < 0x80 {
        return value, stop, None;
      }
      shift := shift + 7;
    }
  }

  method SkipVarint(data: seq<byte>, start: nat) returns (stop: nat, err: Option<Error>)
    requires start <= |data|
    ensures ScanResult(stop, err) == Scan(data, start, 0)
  {
    stop := start;
    var shift := 0;
    while true
      invariant start <= stop <= |data| && stop - start <= 10
      invariant shift == 7 * (stop - start)
      invariant Scan(data, start, 0) == Scan(data, stop, stop - start)
      decreases |data| - stop
    {
      if shift >= 64 {
        return stop, Some(IntOverflow);
      }
      if stop >= |data| {
        return stop, Some(UnexpectedEOF);
      }
      stop := stop + 1;
      if data[stop - 1] < 0x80 {
        return stop, None;
      }
      shift := shift + 7;
    }
  }

  /** The tag at `i` and its payload, up to the check that the index has not wrapped. */
  method NextToken(data: seq<byte>, i: nat) returns (t: Token)
    requires i < |data| < TWO_63
    ensures t == ReadToken(data, i)
  {
    hide Scan, Base128, AddInt64, ToInt64;
    Pow2Words();
    var wire, stop, err := ReadVarint(data, i, 64);
    if err.Some? {
      return BadToken(err.value);
    }
    var wireType := wire % 8;
    var next: int64 := stop;
    if wireType == 0 {
      var valueStop, valueErr := SkipVarint(data, stop);
      if valueErr.Some? {
        return BadToken(valueErr.value);
      }
      next := valueStop;
    } else if wireType == 1 {
      next := AddInt64(stop, 8);
    } else if wireType == 2 {
      var raw, lengthStop, lengthErr := ReadVarint(data, stop, 64);
      if lengthErr.Some? {
        return BadToken(lengthErr.value);
      }
      var length := ToInt64(raw);
      if length < 0 {
        return BadToken(InvalidLength);
      }
      next := AddInt64(lengthStop, length);
    } else if wireType == 5 {
      next := AddInt64(stop, 4);
    } else if wireType != 3 && wireType != 4 {
      return BadToken(IllegalWireType(wireType));
    }
    if next < 0 {
      return BadToken(InvalidLength);
    }
    return Token(wireType, next);
  }

  method SkipIndexer(data: seq<byte>) returns (r: SkipResult)
    requires |data| < TWO_63
    ensures r == SkipFrom(data, 0, 0)
    ensures r.Skipped? ==> r.n >= 1
  {
    hide ReadToken;
    var i: int64, depth := 0, 0;
    while i < |data|
      invariant 0 <= i && 0 <= depth
      invariant SkipFrom(data, 0, 0) == SkipFrom(data, i, depth)
      decreases |data| - i
    {
      var token := NextToken(data, i);
      if token.BadToken? {
        return SkipFailed(token.err);
      }
      if token.wireType == 3 {
        depth := depth + 1;
      } else if token.wireType == 4 {
        if depth == 0 {
          return SkipFailed(UnexpectedEndOfGroup);
        }
        depth := depth - 1;
      }
      i := token.next;
      if depth == 0 {
        return Skipped(i);
      }
    }
    return SkipFailed(UnexpectedEOF);
  }

  // ------------------------------------------------------------------
  // Writing: specification functions
  // ------------------------------------------------------------------

  /** The shortest base-128 form of `v`, continuation bit set on all but the last byte. */
  function Varint(v: nat): (bs: seq<byte>)
    ensures bs != []
  {
    if v < 128 then [v] else [v % 128 + 128] + Varint(v / 128)
  }

  /** The seven fields as the 64-bit words the writer emits; signed fields are sign-extended. */
  function Words(m: TxResult): (ws: seq<uint64>)
    ensures |ws| == 7
  {
    [FromInt64(m.height), m.txIndex, m.msgIndex, FromInt64(m.ethTxIndex),
     if m.failed then 1 else 0, m.gasUsed, m.cumulativeGasUsed]
  }

  /** Fields `k`, `k + 1`, ... with zero fields left out; field `k` (from 0) has tag `8 * (k + 1)`. */
  function EncodeFrom(ws: seq<uint64>, k: nat): (bs: seq<byte>)
    requires k <= |ws| <= 7
    decreases |ws| - k
  {
    if k == |ws| then []
    else if ws[k] == 0 then EncodeFrom(ws, k + 1)
    else [8 * (k + 1)] + Varint(ws[k]) + EncodeFrom(ws, k + 1)
  }

  function Encode(m: TxResult): (bs: seq<byte>)
  {
    EncodeFrom(Words(m), 0)
  }

  function SizeOfVarint(x: uint64): (n: nat)
  {
    (BitLen(Or(x, 1)) + 6) / 7
  }

  function SizeFrom(ws: seq<uint64>, k: nat): (n: nat)
    requires k <= |ws|
    decreases |ws| - k
  {
    if k == |ws| then 0
    else (if ws[k] == 0 then 0 else 1 + SizeOfVarint(ws[k])) + SizeFrom(ws, k + 1)
  }

  lemma BitLenOrOne(x: nat)
    ensures BitLen(Or(x, 1)) == if x == 0 then 1 else BitLen(x)
  {
    var half := x / 2;
    OrComm(half, 0);
    OrZero(half);
    var y := Or(x, 1);
    assert y == 1 + 2 * half;
    assert y / 2 == half;
  }

  lemma OrComm(a: nat, b: nat)
    ensures Or(a, b) == Or(b, a)
  {
    if a != 0 || b != 0 {
      OrComm(a / 2, b / 2);
    }
  }

  lemma {:induction false} BitLenVarint(x: nat)
    requires x > 0
    ensures |Varint(x)| == (BitLen(x) + 6) / 7
  {
    if x < 128 {
      Pow2Words();
      BitLenExceeds(x, 7);
    } else {
      BitLenEighth(x);
      var eighth := x / 8;
      BitLenEighth(eighth);
      assert eighth / 8 / 2 == x / 128;
      BitLenVarint(x / 128);
    }
  }

  lemma BitLenEighth(x: nat)
    requires x >= 8
    ensures BitLen(x) == 3 + BitLen(x / 8)
  {
    var half := x / 2;
    var quarter := half / 2;
    assert quarter / 2 == x / 8;
    assert BitLen(x) == 1 + BitLen(half) && BitLen(half) == 1 + BitLen(quarter);
  }

  /** sovIndexer is the number of bytes the varint loop emits. */
  lemma SizeOfVarintExact(x: uint64)
    ensures SizeOfVarint(x) == |Varint(x)|
  {
    BitLenOrOne(x);
    if x > 0 {
      BitLenVarint(x);
    }
  }

  lemma {:induction false} SizeExact(ws: seq<uint64>, k: nat)
    requires k <= |ws| <= 7
    ensures SizeFrom(ws, k) == |EncodeFrom(ws, k)|
    decreases |ws| - k
  {
    if k == |ws| {
    } else {
      SizeOfVarintExact(ws[k]);
      SizeExact(ws, k + 1);
    }
  }

  // ------------------------------------------------------------------
  // Writing: the backward buffer
  // ------------------------------------------------------------------

  method EncodeVarint(buf: array<byte>, offset: nat, v: uint64) returns (start: nat)
    requires SizeOfVarint(v) <= offset <= buf.Length
    modifies buf
    ensures start + |Varint(v)| == offset
    ensures buf[..] == old(buf[..start]) + Varint(v) + old(buf[offset..])
  {
    hide SizeOfVarint, Varint;
    SizeOfVarintExact(v);
    start := offset - SizeOfVarint(v);
    ghost var all := Varint(v);
    var at, w := start, v;
    while w >= 0x80
      invariant 0 <= w && start <= at < offset
      invariant all[at - start..] == Varint(w)
      invariant forall j :: start <= j < at ==> buf[j] == all[j - start]
      invariant forall j :: 0 <= j < start || offset <= j < buf.Length ==> buf[j] == old(buf[j])
      decreases w
    {
      VarintTail(all, at - start, w);
      buf[at] := w % 128 + 128;
      w := w / 128;
      at := at + 1;
    }
    VarintLast(all, at - start, w);
    buf[at] := w;
  }

  lemma VarintLast(all: seq<byte>, k: nat, w: nat)
    requires k < |all| && all[k..] == Varint(w) && w < 128
    ensures all[k] == w && k + 1 == |all|
  {
    assert all[k..][0] == all[k];
  }

  lemma VarintTail(all: seq<byte>, k: nat, w: nat)
    requires k < |all| && all[k..] == Varint(w) && w >= 128
    ensures all[k] == w % 128 + 128 && k + 1 < |all| && all[k + 1..] == Varint(w / 128)
  {
    assert all[k..][0] == all[k] && all[k..][1..] == all[k + 1..];
  }

  /** A varint ending at `end`, with its tag byte in front. */
  method PutTagged(buf: array<byte>, end: nat, tag: byte, v: uint64) returns (start: nat)
    requires 1 + |Varint(v)| <= end <= buf.Length
    modifies buf
    ensures start + 1 + |Varint(v)| == end
    ensures buf[start..] == [tag] + Varint(v) + old(buf[end..])
    ensures buf[..start] == old(buf[..start])
  {
    SizeOfVarintExact(v);
    start := EncodeVarint(buf, end, v);
    ghost var written := buf[..];
    assert written[start..] == Varint(v) + old(buf[end..]);
    start := start - 1;
    buf[start] := tag;
    assert buf[start..] == [tag] + written[start + 1..];
    assert buf[..start] == written[..start] == old(buf[..start]);
  }

  /** Field `k` of `ws` put in front of the later ones, unless it is zero. */
  method PutField(buf: array<byte>, end: nat, tag: byte, v: uint64, ghost ws: seq<uint64>, ghost k: nat,
                  ghost orig: seq<byte>)
    returns (start: nat)
    requires k < |ws| == 7 && v == ws[k] && tag == 8 * (k + 1)
    requires |EncodeFrom(ws, 0)| <= buf.Length == |orig|
    requires end <= buf.Length && buf[..end] == orig[..end] && buf[end..] == EncodeFrom(ws, k + 1)
    modifies buf
    ensures start <= end && buf[..start] == orig[..start] && buf[start..] == EncodeFrom(ws, k)
  {
    EncodeFromFits(ws, k);
    start := end;
    if v != 0 {
      start := PutTagged(buf, end, tag, v);
      assert buf[..start] == orig[..end][..start];
    }
  }

  lemma EncodeFromFits(ws: seq<uint64>, k: nat)
    requires k <= |ws| <= 7
    ensures |EncodeFrom(ws, k)| <= |EncodeFrom(ws, 0)|
  {
    if k != 0 {
      EncodeFromFits(ws, k - 1);
    }
  }

  class Message {
    var height: int64
    var txIndex: uint32
    var msgIndex: uint32
    var ethTxIndex: int32
    var failed: bool
    var gasUsed: uint64
    var cumulativeGasUsed: uint64

    function Value(): (m: TxResult)
      reads this
    {
      TxResult(height, txIndex, msgIndex, ethTxIndex, failed, gasUsed, cumulativeGasUsed)
    }

    constructor (m: TxResult)
      ensures Value() == m
    {
      height, txIndex, msgIndex, ethTxIndex := m.height, m.txIndex, m.msgIndex, m.ethTxIndex;
      failed, gasUsed, cumulativeGasUsed := m.failed, m.gasUsed, m.cumulativeGasUsed;
    }

    method Size() returns (n: nat)
      ensures n == |Encode(Value())|
    {
      hide SizeOfVarint, EncodeFrom;
      ghost var ws := Words(Value());
      ghost var total := SizeFrom(ws, 0);
      n := 0;
      if height != 0 { n := n + 1 + SizeOfVarint(FromInt64(height)); }
      assert n + SizeFrom(ws, 1) == total;
      if txIndex != 0 { n := n + 1 + SizeOfVarint(txIndex); }
      assert n + SizeFrom(ws, 2) == total;
      if msgIndex != 0 { n := n + 1 + SizeOfVarint(msgIndex); }
      assert n + SizeFrom(ws, 3) == total;
      if ethTxIndex != 0 { n := n + 1 + SizeOfVarint(FromInt64(ethTxIndex)); }
      assert n + SizeFrom(ws, 4) == total;
      SizeOfVarintExact(1);
      if failed { n := n + 2; }
      assert n + SizeFrom(ws, 5) == total;
      if gasUsed != 0 { n := n + 1 + SizeOfVarint(gasUsed); }
      assert n + SizeFrom(ws, 6) == total;
      if cumulativeGasUsed != 0 { n := n + 1 + SizeOfVarint(cumulativeGasUsed); }
      assert n + SizeFrom(ws, 7) == total;
      SizeExact(ws, 0);
    }

    method MarshalToSizedBuffer(buf: array<byte>) returns (n: nat)
      requires |Encode(Value())| <= buf.Length
      modifies buf
      ensures n == |Encode(Value())|
      ensures buf[..] == old(buf[..])[..buf.Length - n] + Encode(Value())
    {
      ghost var orig := buf[..];
      var i := PutHighFields(Value(), buf);
      i := PutLowFields(Value(), buf, i, orig);
      n := buf.Length - i;
      assert buf[..] == buf[..i] + buf[i..];
    }

    static method PutHighFields(m: TxResult, buf: array<byte>) returns (i: nat)
      requires |Encode(m)| <= buf.Length
      modifies buf
      ensures i <= buf.Length && buf[..i] == old(buf[..i]) && buf[i..] == EncodeFrom(Words(m), 3)
    {
      ghost var ws, orig := Words(m), buf[..];
      ghost var k := |ws|;
      i := buf.Length;
      i := PutField(buf, i, 0x38, m.cumulativeGasUsed, ws, k - 1, orig);
      i := PutField(buf, i, 0x30, m.gasUsed, ws, k - 2, orig);
      i := PutField(buf, i, 0x28, if m.failed then 1 else 0, ws, k - 3, orig);
      i := PutField(buf, i, 0x20, FromInt64(m.ethTxIndex), ws, k - 4, orig);
      assert buf[..i] == orig[..i];
    }

    static method PutLowFields(m: TxResult, buf: array<byte>, end: nat, ghost orig: seq<byte>) returns (i: nat)
      requires |Encode(m)| <= buf.Length == |orig|
      requires end <= buf.Length && buf[..end] == orig[..end] && buf[end..] == EncodeFrom(Words(m), 3)
      modifies buf
      ensures i <= buf.Length && buf[..i] == orig[..i] && buf[i..] == Encode(m)
    {
      ghost var ws := Words(m);
      ghost var k := |ws| - 4;
      i := PutField(buf, end, 0x18, m.msgIndex, ws, k - 1, orig);
      i := PutField(buf, i, 0x10, m.txIndex, ws, k - 2, orig);
      i := PutField(buf, i, 0x8, FromInt64(m.height), ws, k - 3, orig);
    }

    method Marshal() returns (buf: array<byte>)
      ensures fresh(buf) && buf[..] == Encode(Value())
    {
      var size := Size();
      buf := new byte[size](_ => 0);
      var n := MarshalToSizedBuffer(buf);
    }

    /** Reads a value for field `num` and stores it, whole or cut short by an error. */
    method ReadInto(data: seq<byte>, start: nat, num: int) returns (stop: nat, err: Option<Error>)
      requires start <= |data| && 1 <= num <= 7
      modifies this
      ensures ScanResult(stop, err) == Scan(data, start, 0)
      ensures Value() == Assign(old(Value()), num, Base128(data[start..stop]), err.None?)
    {
      hide Pow2, Base128, Scan;
      Pow2Words();
      var value;
      match num {
        case 1 =>
          value, stop, err := ReadVarint(data, start, 64);
          height := ToInt64(value);
        case 2 =>
          value, stop, err := ReadVarint(data, start, 32);
          txIndex := value;
        case 3 =>
          value, stop, err := ReadVarint(data, start, 32);
          msgIndex := value;
        case 4 =>
          value, stop, err := ReadVarint(data, start, 32);
          ethTxIndex := ToInt32(value);
        case 5 =>
          value, stop, err := ReadVarint(data, start, 64);
          if err.None? {
            failed := value != 0;
          }
        case 6 =>
          value, stop, err := ReadVarint(data, start, 64);
          gasUsed := value;
        case 7 =>
          value, stop, err := ReadVarint(data, start, 64);
          cumulativeGasUsed := value;
      }
    }

    method Unmarshal(data: seq<byte>) returns (err: Option<Error>)
      requires |data| < TWO_63
      modifies this
      ensures Decoded(Value(), err) == Decode(data, 0, old(Value()))
    {
      Pow2Words();
      var i := 0;
      while i < |data|
        invariant 0 <= i <= |data|
        invariant Decode(data, i, Value()) == Decode(data, 0, old(Value()))
        decreases |data| - i
      {
        var wire, stop, tagErr := ReadVarint(data, i, 64);
        if tagErr.Some? {
          return tagErr;
        }
        var fieldNum := ToInt32(wire / 8 % TWO_32);
        var wireType := wire % 8;
        if wireType == 4 {
          return Some(EndGroupForNonGroup);
        }
        if fieldNum <= 0 {
          return Some(IllegalTag(fieldNum));
        }
        if fieldNum <= 7 {
          if wireType != 0 {
            return Some(WrongWireType(fieldNum, wireType));
          }
          var valueStop, valueErr := ReadInto(data, stop, fieldNum);
          if valueErr.Some? {
            return valueErr;
          }
          i := valueStop;
        } else {
          var skipped := SkipIndexer(data[i..]);
          if skipped.SkipFailed? {
            return Some(skipped.err);
          }
          var next := AddInt64(i, skipped.n);
          if next < 0 {
            return Some(InvalidLength);
          }
          if next > |data| {
            return Some(UnexpectedEOF);
          }
          i := next;
        }
      }
      return None;
    }
  }
}
