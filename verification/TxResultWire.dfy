/** The reader of TxResultCodec against the protobuf message grammar: it accepts
    exactly the concatenations of well-formed fields and folds them from left to
    right, so that it undoes the writer. */
module TxResultWire {
  import opened Numbers
  import opened Wrappers
  import opened TxResultCodec

  /** A field with its bytes as sent; varints need not be the shortest form. */
  datatype Field =
    | VarintField(tag: seq<byte>, value: seq<byte>)
    | Fixed64Field(tag: seq<byte>, payload: seq<byte>)
    | BytesField(tag: seq<byte>, length: seq<byte>, payload: seq<byte>)
    | GroupField(tag: seq<byte>, body: seq<Field>, end: seq<byte>)
    | Fixed32Field(tag: seq<byte>, payload: seq<byte>)

  function Wire(f: Field): (bs: seq<byte>)
    decreases f, 1
  {
    match f
    case VarintField(tag, value) => tag + value
    case Fixed64Field(tag, payload) => tag + payload
    case BytesField(tag, length, payload) => tag + length + payload
    case GroupField(tag, body, end) => tag + WireAll(body) + end
    case Fixed32Field(tag, payload) => tag + payload
  }

  function WireAll(fs: seq<Field>): (bs: seq<byte>)
    decreases fs, 0
  {
    if fs == [] then [] else Wire(fs[0]) + WireAll(fs[1..])
  }

  predicate IsVarint(bs: seq<byte>) {
    && 1 <= |bs| <= 10
    && bs[|bs| - 1] < 128
    && forall k :: 0 <= k < |bs| - 1 ==> bs[k] >= 128
  }

  predicate WellFormed(f: Field)
    decreases f
  {
    && IsVarint(f.tag)
    && match f
       case VarintField(tag, value) => WireType(tag) == 0 && IsVarint(value)
       case Fixed64Field(tag, payload) => WireType(tag) == 1 && |payload| == 8
       case BytesField(tag, length, payload) =>
         WireType(tag) == 2 && IsVarint(length) && ToInt64(Word(length)) == |payload|
       case GroupField(tag, body, end) =>
         && WireType(tag) == 3
         && (forall f' :: f' in body ==> WellFormed(f'))
         && IsVarint(end) && WireType(end) == 4
       case Fixed32Field(tag, payload) => WireType(tag) == 5 && |payload| == 4
  }

  /** What Unmarshal accepts outside groups: positive field numbers, and varints
      for the seven fields it knows. */
  predicate TopLevel(f: Field) {
    && WellFormed(f)
    && FieldNumber(f.tag) >= 1
    && (FieldNumber(f.tag) <= 7 ==> f.VarintField?)
  }

  /** The effect of one field: a known one overwrites, an unknown one does nothing. */
  function Apply(m: TxResult, f: Field): (r: TxResult) {
    if f.VarintField? then Assign(m, FieldNumber(f.tag), Base128(f.value), true) else m
  }

  function ApplyAll(m: TxResult, fs: seq<Field>): (r: TxResult)
    decreases |fs|
  {
    if fs == [] then m else ApplyAll(Apply(m, fs[0]), fs[1..])
  }

  /** `bs` lies in `data` at `i`. */
  predicate At(data: seq<byte>, i: nat, bs: seq<byte>) {
    i + |bs| <= |data| && data[i..i + |bs|] == bs
  }

  lemma AtParts(data: seq<byte>, i: nat, a: seq<byte>, b: seq<byte>)
    requires At(data, i, a + b)
    ensures At(data, i, a) && At(data, i + |a|, b)
  {
    assert data[i..i + |a|] == data[i..i + |a + b|][..|a|] == (a + b)[..|a|];
    assert data[i + |a|..i + |a + b|] == data[i..i + |a + b|][|a|..] == (a + b)[|a|..];
  }

  // ---- Varints ----

  lemma {:induction false} ScanVarint(data: seq<byte>, start: nat, bs: seq<byte>, n: nat)
    requires IsVarint(bs) && At(data, start, bs) && n < |bs|
    ensures Scan(data, start + n, n) == ScanResult(start + |bs|, None)
    decreases |bs| - n
  {
    assert data[start + n] == data[start..start + |bs|][n] == bs[n];
    if n < |bs| - 1 {
      ScanVarint(data, start, bs, n + 1);
    }
  }

  lemma {:induction false} ScannedIsVarint(data: seq<byte>, start: nat, n: nat)
    requires start + n <= |data| && n <= 10
    requires forall k :: start <= k < start + n ==> data[k] >= 128
    requires Scan(data, start + n, n).err.None?
    ensures IsVarint(data[start..Scan(data, start + n, n).stop])
    decreases 10 - n
  {
    if data[start + n] >= 128 {
      ScannedIsVarint(data, start, n + 1);
    }
  }

  // ---- Skipping: a well-formed field is skipped exactly ----

  lemma TokenOfTag(data: seq<byte>, i: nat, tag: seq<byte>)
    requires |data| < TWO_63 && IsVarint(tag) && At(data, i, tag)
    ensures i < i + |tag| <= |data|
    ensures Scan(data, i, 0) == ScanResult(i + |tag|, None) && data[i..i + |tag|] == tag
    ensures ReadToken(data, i) == ReadPayload(data, i + |tag|, WireType(tag))
  {
    hide ReadPayload, WireType;
    ScanVarint(data, i, tag, 0);
  }

  lemma TokenOfBytes(data: seq<byte>, start: nat, length: seq<byte>, payload: seq<byte>)
    requires 0 < start <= |data| < TWO_63 && IsVarint(length) && ToInt64(Word(length)) == |payload|
    requires At(data, start, length + payload)
    ensures ReadPayload(data, start, 2) == Token(2, start + |length| + |payload|)
  {
    hide Word, ToInt64;
    AtParts(data, start, length, payload);
    ScanVarint(data, start, length, 0);
  }

  lemma TokenOfField(data: seq<byte>, i: nat, f: Field)
    requires |data| < TWO_63 && WellFormed(f) && !f.GroupField? && At(data, i, Wire(f))
    ensures ReadToken(data, i) == Token(WireType(f.tag), i + |Wire(f)|)
  {
    hide ReadToken, WireType, Word, ToInt64, Scan, AddInt64;
    TagFirst(data, i, f);
    TokenOfTag(data, i, f.tag);
    var start := i + |f.tag|;
    match f
    case VarintField(tag, value) =>
      AtParts(data, i, tag, value);
      ScanVarint(data, start, value, 0);
    case BytesField(tag, length, payload) =>
      assert Wire(f) == tag + (length + payload);
      AtParts(data, i, tag, length + payload);
      TokenOfBytes(data, start, length, payload);
    case Fixed64Field(tag, payload) => assert |Wire(f)| == |tag| + 8;
    case Fixed32Field(tag, payload) => assert |Wire(f)| == |tag| + 4;
  }

  /** One token at depth `depth`, as the loop of skipIndexer handles it. */
  lemma SkipToken(data: seq<byte>, i: nat, depth: nat, wireType: nat, next: nat)
    requires i < |data| < TWO_63 && next < TWO_63
    requires ReadToken(data, i) == Token(wireType, next) && (wireType == 4 ==> depth > 0)
    ensures var depth' := if wireType == 3 then depth + 1 else if wireType == 4 then depth - 1 else depth;
            SkipFrom(data, i, depth) == if depth' == 0 then Skipped(next) else SkipFrom(data, next, depth')
  {
    hide ReadToken;
  }

  lemma {:induction false} SkipField(data: seq<byte>, i: nat, f: Field, depth: nat)
    requires |data| < TWO_63 && WellFormed(f) && At(data, i, Wire(f))
    ensures SkipFrom(data, i, depth)
         == if depth == 0 then Skipped(i + |Wire(f)|) else SkipFrom(data, i + |Wire(f)|, depth)
    decreases f, 1
  {
    hide ReadToken, SkipFrom, WireType, Scan, IsVarint;
    if f.GroupField? {
      var inside := i + |f.tag|;
      var ended := inside + |WireAll(f.body)|;
      AtParts(data, i, f.tag + WireAll(f.body), f.end);
      AtParts(data, i, f.tag, WireAll(f.body));
      TokenOfTag(data, i, f.tag);
      SkipToken(data, i, depth, 3, inside);
      SkipFields(data, inside, f.body, depth + 1);
      TokenOfTag(data, ended, f.end);
      SkipToken(data, ended, depth + 1, 4, ended + |f.end|);
    } else {
      TokenOfField(data, i, f);
      SkipToken(data, i, depth, WireType(f.tag), i + |Wire(f)|);
    }
  }

  lemma {:induction false} SkipFields(data: seq<byte>, i: nat, fs: seq<Field>, depth: nat)
    requires |data| < TWO_63 && depth > 0
    requires forall f :: f in fs ==> WellFormed(f)
    requires At(data, i, WireAll(fs))
    ensures SkipFrom(data, i, depth) == SkipFrom(data, i + |WireAll(fs)|, depth)
    decreases fs, 0
  {
    hide SkipFrom, Wire, WellFormed;
    if fs == [] {
    } else {
      AtParts(data, i, Wire(fs[0]), WireAll(fs[1..]));
      SkipField(data, i, fs[0], depth);
      SkipFields(data, i + |Wire(fs[0])|, fs[1..], depth);
    }
  }

  // ---- Skipping: whatever is skipped inside the data is one well-formed field ----

  lemma BytesOfPayload(data: seq<byte>, start: nat, tag: seq<byte>) returns (f: Field)
    requires 0 < start <= |data| < TWO_63 && IsVarint(tag) && WireType(tag) == 2
    requires ReadPayload(data, start, 2).Token? && ReadPayload(data, start, 2).next <= |data|
    ensures WellFormed(f) && f.BytesField? && f.tag == tag
    ensures Wire(f) == tag + data[start..ReadPayload(data, start, 2).next]
  {
    hide WireType, Word, Scan, IsVarint, AddInt64, ToInt64;
    var next := ReadPayload(data, start, 2).next;
    var stop := Scan(data, start, 0).stop;
    ScannedIsVarint(data, start, 0);
    f := BytesField(tag, data[start..stop], data[stop..next]);
    assert data[start..next] == data[start..stop] + data[stop..next];
  }

  lemma OtherPayload(data: seq<byte>, start: nat, tag: seq<byte>) returns (f: Field)
    requires 0 < start <= |data| < TWO_63 && IsVarint(tag) && WireType(tag) in {0, 1, 5}
    requires ReadPayload(data, start, WireType(tag)).Token? && ReadPayload(data, start, WireType(tag)).next <= |data|
    ensures WellFormed(f) && !f.GroupField? && f.tag == tag
    ensures Wire(f) == tag + data[start..ReadPayload(data, start, WireType(tag)).next]
  {
    hide WireType, Scan, IsVarint, AddInt64;
    var next := ReadPayload(data, start, WireType(tag)).next;
    if WireType(tag) == 0 {
      ScannedIsVarint(data, start, 0);
      f := VarintField(tag, data[start..next]);
    } else if WireType(tag) == 1 {
      f := Fixed64Field(tag, data[start..next]);
    } else {
      f := Fixed32Field(tag, data[start..next]);
    }
  }

  /** The field a token stands for, when its payload lies in the data. */
  lemma FieldOfToken(data: seq<byte>, i: nat) returns (f: Field)
    requires i < |data| < TWO_63
    requires ReadToken(data, i).Token? && ReadToken(data, i).next <= |data|
    requires ReadToken(data, i).wireType !in {3, 4}
    ensures WellFormed(f) && !f.GroupField? && Wire(f) == data[i..ReadToken(data, i).next]
    ensures f.tag == data[i..Scan(data, i, 0).stop]
  {
    hide WireType, Scan, IsVarint, ReadPayload, WellFormed, Wire;
    var next := ReadToken(data, i).next;
    var stop := Scan(data, i, 0).stop;
    var tag := data[i..stop];
    ScannedIsVarint(data, i, 0);
    if WireType(tag) == 2 {
      f := BytesOfPayload(data, stop, tag);
    } else {
      f := OtherPayload(data, stop, tag);
    }
    assert data[i..next] == tag + data[stop..next];
  }

  /** A group tag read by the skipper. */
  lemma TagOfToken(data: seq<byte>, i: nat)
    requires i < |data| < TWO_63
    requires ReadToken(data, i).Token? && ReadToken(data, i).wireType in {3, 4}
    ensures var t := ReadToken(data, i);
            t.next == Scan(data, i, 0).stop && IsVarint(data[i..t.next]) && WireType(data[i..t.next]) == t.wireType
  {
    hide WireType, Scan, IsVarint;
    ScannedIsVarint(data, i, 0);
  }

  lemma PrependField(f: Field, rest: seq<Field>)
    ensures WireAll([f] + rest) == Wire(f) + WireAll(rest)
  {
    assert ([f] + rest)[1..] == rest;
  }

  /** Inside a group the skipper reads fields up to the end tag of that group. */
  lemma {:induction false} FieldsUntilEnd(data: seq<byte>, i: nat, depth: nat, n: nat)
    returns (fs: seq<Field>, end: seq<byte>, k: nat)
    requires |data| < TWO_63 && depth > 0 && n <= |data|
    requires SkipFrom(data, i, depth) == Skipped(n)
    ensures forall f :: f in fs ==> WellFormed(f)
    ensures IsVarint(end) && WireType(end) == 4
    ensures i < k <= n && data[i..k] == WireAll(fs) + end
    ensures if depth == 1 then k == n else SkipFrom(data, k, depth - 1) == Skipped(n)
    decreases n - i
  {
    hide ReadToken, WireType, IsVarint, Scan, WireAll, Wire;
    var token := ReadToken(data, i);
    var next := token.next;
    assert next <= n;
    if token.wireType == 4 {
      TagOfToken(data, i);
      fs, end, k := [], data[i..next], next;
      EmptyWire();
    } else {
      var f, j := FieldInGroup(data, i, depth, n);
      var rest;
      rest, end, k := FieldsUntilEnd(data, j, depth, n);
      fs := [f] + rest;
      PrependField(f, rest);
      assert data[i..k] == data[i..j] + data[j..k];
    }
  }

  lemma EmptyWire()
    ensures WireAll([]) == []
  {
  }

  lemma {:induction false} FieldInGroup(data: seq<byte>, i: nat, depth: nat, n: nat) returns (f: Field, j: nat)
    requires i < |data| < TWO_63 && depth > 0 && n <= |data|
    requires SkipFrom(data, i, depth) == Skipped(n)
    requires ReadToken(data, i).wireType != 4
    ensures WellFormed(f) && i < j <= n && data[i..j] == Wire(f)
    ensures SkipFrom(data, j, depth) == Skipped(n)
    decreases n - i, 0
  {
    hide ReadToken, IsVarint, WireType, Scan, WireAll;
    var next := ReadToken(data, i).next;
    if ReadToken(data, i).wireType == 3 {
      TagOfToken(data, i);
      var body, bodyEnd, k := FieldsUntilEnd(data, next, depth + 1, n);
      f, j := GroupField(data[i..next], body, bodyEnd), k;
      assert data[i..j] == data[i..next] + data[next..j];
    } else {
      f := FieldOfToken(data, i);
      j := next;
    }
  }

  /** A successful skip consumes exactly one field or one balanced group. */
  lemma SkippedIsField(data: seq<byte>, n: nat) returns (f: Field)
    requires n <= |data| < TWO_63
    requires SkipFrom(data, 0, 0) == Skipped(n)
    ensures WellFormed(f) && Wire(f) == data[..n] && n >= 1
    ensures f.tag == data[..Scan(data, 0, 0).stop]
  {
    hide ReadToken, IsVarint, WireType, Scan, WireAll;
    var token := ReadToken(data, 0);
    if token.wireType == 3 {
      TagOfToken(data, 0);
      var body, end, k := FieldsUntilEnd(data, token.next, 1, n);
      f := GroupField(data[..token.next], body, end);
      assert data[..n] == data[..token.next] + data[token.next..n];
    } else {
      f := FieldOfToken(data, 0);
    }
  }

  /** skipIndexer succeeds inside the data exactly when the data starts with a well-formed field. */
  lemma SkipExact(data: seq<byte>, n: nat)
    requires n <= |data| < TWO_63
    ensures SkipFrom(data, 0, 0) == Skipped(n) <==> exists f :: WellFormed(f) && Wire(f) == data[..n]
  {
    if SkipFrom(data, 0, 0) == Skipped(n) {
      var f := SkippedIsField(data, n);
    }
    if f :| WellFormed(f) && Wire(f) == data[..n] {
      SkipField(data, 0, f, 0);
    }
  }

  // ---- Decoding is a fold over the fields ----

  lemma ReadsKnown(data: seq<byte>, start: nat, value: seq<byte>, num: int, m: TxResult)
    requires start <= |data| && IsVarint(value) && At(data, start, value)
    ensures ReadKnown(data, start, num, m) == GoOn(start + |value|, Assign(m, num, Base128(value), true))
  {
    hide Assign;
    ScanVarint(data, start, value, 0);
  }

  lemma SkipsUnknown(data: seq<byte>, i: nat, f: Field, m: TxResult)
    requires i < |data| < TWO_63 && WellFormed(f) && At(data, i, Wire(f))
    ensures SkipUnknown(data, i, m) == GoOn(i + |Wire(f)|, m)
  {
    hide SkipFrom, WellFormed, Wire;
    assert data[i..][0..|Wire(f)|] == data[i..i + |Wire(f)|];
    SkipField(data[i..], 0, f, 0);
  }

  lemma ReadsField(data: seq<byte>, i: nat, f: Field, m: TxResult)
    requires i < |data| < TWO_63 && TopLevel(f) && At(data, i, Wire(f))
    ensures ReadField(data, i, m) == GoOn(i + |Wire(f)|, Apply(m, f))
  {
    hide WireType, FieldNumber, Assign, Scan, ReadKnown, SkipUnknown, ReadToken, ReadPayload;
    TagFirst(data, i, f);
    TokenOfTag(data, i, f.tag);
    if FieldNumber(f.tag) <= 7 {
      AtParts(data, i, f.tag, f.value);
      ReadsKnown(data, i + |f.tag|, f.value, FieldNumber(f.tag), m);
    } else {
      UnknownHasNoEffect(m, f);
      SkipsUnknown(data, i, f, m);
    }
  }

  lemma UnknownHasNoEffect(m: TxResult, f: Field)
    requires FieldNumber(f.tag) > 7
    ensures Apply(m, f) == m
  {
    hide FieldNumber;
  }

  lemma WireNotEmpty(f: Field)
    requires TopLevel(f)
    ensures |Wire(f)| > 0
  {
    hide WireType, WireAll, FieldNumber;
  }

  lemma TagFirst(data: seq<byte>, i: nat, f: Field)
    requires At(data, i, Wire(f))
    ensures At(data, i, f.tag)
  {
    hide At, WireAll;
    match f
    case VarintField(tag, value) => AtParts(data, i, tag, value);
    case Fixed64Field(tag, payload) => AtParts(data, i, tag, payload);
    case BytesField(tag, length, payload) =>
      AtParts(data, i, tag + length, payload);
      AtParts(data, i, tag, length);
    case GroupField(tag, body, end) =>
      AtParts(data, i, tag + WireAll(body), end);
      AtParts(data, i, tag, WireAll(body));
    case Fixed32Field(tag, payload) => AtParts(data, i, tag, payload);
  }

  lemma {:induction false} DecodeFields(data: seq<byte>, i: nat, fs: seq<Field>, m: TxResult)
    requires |data| < TWO_63 && i <= |data| && data[i..] == WireAll(fs)
    requires forall f :: f in fs ==> TopLevel(f)
    ensures Decode(data, i, m) == Decoded(ApplyAll(m, fs), None)
    decreases |fs|
  {
    hide ReadField, Wire, Apply, TopLevel;
    if fs == [] {
    } else {
      assert At(data, i, Wire(fs[0]) + WireAll(fs[1..]));
      AtParts(data, i, Wire(fs[0]), WireAll(fs[1..]));
      WireNotEmpty(fs[0]);
      ReadsField(data, i, fs[0], m);
      DecodeFields(data, i + |Wire(fs[0])|, fs[1..], Apply(m, fs[0]));
    }
  }

  lemma {:induction false} DecodedIsFields(data: seq<byte>, i: nat, m: TxResult) returns (fs: seq<Field>)
    requires i <= |data| < TWO_63
    requires Decode(data, i, m).err.None?
    ensures data[i..] == WireAll(fs)
    ensures forall f :: f in fs ==> TopLevel(f)
    decreases |data| - i
  {
    hide ReadField, Wire, WireAll, Apply, TopLevel, WellFormed;
    if i == |data| {
      EmptyWire();
      fs := [];
    } else {
      var f := FirstField(data, i, m);
      WireNotEmpty(f);
      ReadsField(data, i, f, m);
      var rest := DecodedIsFields(data, i + |Wire(f)|, Apply(m, f));
      fs := [f] + rest;
      PrependField(f, rest);
      assert data[i..] == data[i..i + |Wire(f)|] + data[i + |Wire(f)|..];
    }
  }

  lemma FirstField(data: seq<byte>, i: nat, m: TxResult) returns (f: Field)
    requires i < |data| < TWO_63
    requires ReadField(data, i, m).GoOn?
    ensures TopLevel(f) && At(data, i, Wire(f))
  {
    hide WireType, FieldNumber, Assign, Scan, SkipFrom, IsVarint;
    var stop := Scan(data, i, 0).stop;
    ScannedIsVarint(data, i, 0);
    if FieldNumber(data[i..stop]) <= 7 {
      ScannedIsVarint(data, stop, 0);
      f := VarintField(data[i..stop], data[stop..Scan(data, stop, 0).stop]);
    } else {
      var n := SkipFrom(data[i..], 0, 0).n;
      f := SkippedIsField(data[i..], n);
      assert data[i..][..n] == data[i..i + n];
      SameTag(data, i, f);
    }
  }

  /** The tag found in the suffix handed to the skipper is the tag found in place. */
  lemma SameTag(data: seq<byte>, i: nat, f: Field)
    requires i < |data| && WellFormed(f) && At(data, i, Wire(f))
    ensures f.tag == data[i..Scan(data, i, 0).stop]
  {
    hide WireType, WireAll, Wire;
    TagFirst(data, i, f);
    ScanVarint(data, i, f.tag, 0);
  }

  /** Unmarshal accepts exactly the concatenations of well-formed top-level fields,
      and its result is their left-to-right fold: last value wins, unknown fields
      and groups have no effect. */
  lemma UnmarshalIsFold(data: seq<byte>, m: TxResult)
    requires |data| < TWO_63
    ensures Decode(data, 0, m).err.None?
       <==> exists fs :: data == WireAll(fs) && forall f :: f in fs ==> TopLevel(f)
    ensures forall fs :: data == WireAll(fs) && (forall f :: f in fs ==> TopLevel(f))
                     ==> Decode(data, 0, m) == Decoded(ApplyAll(m, fs), None)
  {
    assert data[0..] == data;
    if Decode(data, 0, m).err.None? {
      var fs := DecodedIsFields(data, 0, m);
    }
    forall fs | data == WireAll(fs) && forall f :: f in fs ==> TopLevel(f)
      ensures Decode(data, 0, m) == Decoded(ApplyAll(m, fs), None)
    {
      DecodeFields(data, 0, fs, m);
    }
  }

  // ---- The writer's output ----

  lemma {:induction false} VarintIsVarint(v: nat, k: nat)
    requires 1 <= k <= 10 && v < Pow2(7 * k)
    ensures |Varint(v)| <= k && IsVarint(Varint(v))
    decreases k
  {
    if v >= 128 {
      HighVarint(v, k);
      VarintIsVarint(v / 128, k - 1);
    }
  }

  lemma HighVarint(v: nat, k: nat)
    requires 1 <= k && 128 <= v < Pow2(7 * k)
    ensures k > 1 && v / 128 < Pow2(7 * (k - 1))
  {
    Pow2Words();
    Pow2Add(7, 7 * (k - 1));
    assert 7 + 7 * (k - 1) == 7 * k;
  }

  lemma {:induction false} VarintValue(v: nat)
    ensures Base128(Varint(v)) == v
  {
    if v < 128 {
      assert Base128([v][1..]) == 0;
    } else {
      VarintValue(v / 128);
      assert Varint(v)[1..] == Varint(v / 128);
    }
  }

  lemma WordVarint(v: uint64)
    ensures IsVarint(Varint(v)) && Base128(Varint(v)) == v
  {
    Pow2Words();
    Pow2Monotone(64, 70);
    VarintIsVarint(v, 10);
    VarintValue(v);
  }

  /** The non-zero fields from `k` on, as grammar fields. */
  function FieldsFrom(ws: seq<uint64>, k: nat): (fs: seq<Field>)
    requires k <= |ws| <= 7
    decreases |ws| - k
  {
    if k == |ws| then []
    else if ws[k] == 0 then FieldsFrom(ws, k + 1)
    else [VarintField([8 * (k + 1)], Varint(ws[k]))] + FieldsFrom(ws, k + 1)
  }

  lemma KnownField(k: nat, v: uint64)
    requires k < 7
    ensures var f := VarintField([8 * (k + 1)], Varint(v));
            TopLevel(f) && FieldNumber(f.tag) == k + 1 && |Wire(f)| <= 11 && Base128(f.value) == v
  {
    WordVarint(v);
    var tag: seq<byte> := [8 * (k + 1)];
    assert Base128(tag[1..]) == 0;
    assert Word(tag) == 8 * (k + 1);
  }

  lemma {:induction false} EncodedFields(ws: seq<uint64>, k: nat)
    requires k <= |ws| <= 7
    ensures WireAll(FieldsFrom(ws, k)) == EncodeFrom(ws, k)
    ensures forall f :: f in FieldsFrom(ws, k) ==> TopLevel(f)
    ensures |EncodeFrom(ws, k)| <= 11 * (|ws| - k)
    decreases |ws| - k
  {
    hide TopLevel, Varint;
    if k == |ws| {
    } else {
      EncodedFields(ws, k + 1);
      if ws[k] != 0 {
        KnownField(k, ws[k]);
        PrependField(VarintField([8 * (k + 1)], Varint(ws[k])), FieldsFrom(ws, k + 1));
      }
    }
  }

  lemma {:induction false} ApplyConcat(m: TxResult, fs: seq<Field>, gs: seq<Field>)
    ensures ApplyAll(m, fs + gs) == ApplyAll(ApplyAll(m, fs), gs)
    decreases |fs|
  {
    if fs == [] {
      assert fs + gs == gs;
    } else {
      assert (fs + gs)[1..] == fs[1..] + gs;
      ApplyConcat(Apply(m, fs[0]), fs[1..], gs);
    }
  }

  lemma {:induction false} WireConcat(fs: seq<Field>, gs: seq<Field>)
    ensures WireAll(fs + gs) == WireAll(fs) + WireAll(gs)
    decreases |fs|
  {
    if fs == [] {
      assert fs + gs == gs;
    } else {
      assert (fs + gs)[1..] == fs[1..] + gs;
      WireConcat(fs[1..], gs);
    }
  }

  /** `a` with every non-zero field of `b` put over it. */
  function Override(a: TxResult, b: TxResult): (r: TxResult) {
    TxResult(
      if b.height != 0 then b.height else a.height,
      if b.txIndex != 0 then b.txIndex else a.txIndex,
      if b.msgIndex != 0 then b.msgIndex else a.msgIndex,
      if b.ethTxIndex != 0 then b.ethTxIndex else a.ethTxIndex,
      b.failed || a.failed,
      if b.gasUsed != 0 then b.gasUsed else a.gasUsed,
      if b.cumulativeGasUsed != 0 then b.cumulativeGasUsed else a.cumulativeGasUsed)
  }

  function OverrideField(m: TxResult, b: TxResult, k: nat): (r: TxResult) {
    match k
    case 0 => if b.height != 0 then m.(height := b.height) else m
    case 1 => if b.txIndex != 0 then m.(txIndex := b.txIndex) else m
    case 2 => if b.msgIndex != 0 then m.(msgIndex := b.msgIndex) else m
    case 3 => if b.ethTxIndex != 0 then m.(ethTxIndex := b.ethTxIndex) else m
    case 4 => if b.failed then m.(failed := true) else m
    case 5 => if b.gasUsed != 0 then m.(gasUsed := b.gasUsed) else m
    case _ => if b.cumulativeGasUsed != 0 then m.(cumulativeGasUsed := b.cumulativeGasUsed) else m
  }

  function OverrideFrom(m: TxResult, b: TxResult, k: nat): (r: TxResult)
    decreases 7 - k
  {
    if k >= 7 then m else OverrideFrom(OverrideField(m, b, k), b, k + 1)
  }

  lemma SignedWord(x: int64)
    ensures ToInt64(FromInt64(x) % TWO_64) == x && (FromInt64(x) == 0 <==> x == 0)
  {
  }

  lemma SignedHalfWord(x: int32)
    ensures ToInt32(FromInt64(x) % TWO_32) == x && (FromInt64(x) == 0 <==> x == 0)
  {
  }

  lemma AssignWord(m: TxResult, b: TxResult, k: nat)
    requires k < 7
    ensures var w := Words(b)[k];
            if w == 0 then OverrideField(m, b, k) == m else OverrideField(m, b, k) == Assign(m, k + 1, w, true)
  {
    hide FromInt64, ToInt64, ToInt32;
    SignedWord(b.height);
    SignedHalfWord(b.ethTxIndex);
    match k
    case 0 =>
    case 1 =>
    case 2 =>
    case 3 =>
    case 4 =>
    case 5 =>
    case 6 =>
  }

  lemma {:induction false} ApplyWords(m: TxResult, b: TxResult, k: nat)
    requires k <= 7
    ensures ApplyAll(m, FieldsFrom(Words(b), k)) == OverrideFrom(m, b, k)
    decreases 7 - k
  {
    hide Assign, Varint, FieldNumber, TopLevel, Base128, Words, OverrideField;
    if k == 7 {
    } else {
      var ws := Words(b);
      AssignWord(m, b, k);
      ApplyWords(OverrideField(m, b, k), b, k + 1);
      if ws[k] != 0 {
        KnownField(k, ws[k]);
        assert FieldsFrom(ws, k)[1..] == FieldsFrom(ws, k + 1);
      }
    }
  }

  lemma OverrideAll(m: TxResult, b: TxResult)
    ensures OverrideFrom(m, b, 0) == Override(m, b)
  {
    var m4 := OverrideField(OverrideField(OverrideField(OverrideField(m, b, 0), b, 1), b, 2), b, 3);
    assert OverrideFrom(m, b, 0) == OverrideFrom(m4, b, 4);
  }

  /** Two records written one after the other read back as the first overridden by the second. */
  lemma DecodeConcatenation(m: TxResult, a: TxResult, b: TxResult)
    ensures |Encode(a) + Encode(b)| < TWO_63
    ensures Decode(Encode(a) + Encode(b), 0, m) == Decoded(Override(Override(m, a), b), None)
  {
    var fs, gs := FieldsFrom(Words(a), 0), FieldsFrom(Words(b), 0);
    EncodedFields(Words(a), 0);
    EncodedFields(Words(b), 0);
    WireConcat(fs, gs);
    var data := Encode(a) + Encode(b);
    assert data[0..] == data;
    DecodeFields(data, 0, fs + gs, m);
    ApplyConcat(m, fs, gs);
    ApplyWords(m, a, 0);
    OverrideAll(m, a);
    ApplyWords(Override(m, a), b, 0);
    OverrideAll(Override(m, a), b);
  }

  /** Unmarshal undoes Marshal on every record. */
  lemma RoundTrip(m: TxResult)
    ensures |Encode(m)| < TWO_63
    ensures Decode(Encode(m), 0, EMPTY) == Decoded(m, None)
  {
    DecodeConcatenation(EMPTY, m, EMPTY);
    assert Encode(EMPTY) == [] by {
      EmptyOnlyForZero(Words(EMPTY), 0);
    }
    assert Encode(m) + [] == Encode(m);
  }

  lemma {:induction false} EmptyOnlyForZero(ws: seq<uint64>, k: nat)
    requires k <= |ws| <= 7
    ensures EncodeFrom(ws, k) == [] <==> forall j :: k <= j < |ws| ==> ws[j] == 0
    decreases |ws| - k
  {
    if k == |ws| {
    } else {
      EmptyOnlyForZero(ws, k + 1);
    }
  }

  /** The all-zero record is the only one with an empty encoding. */
  lemma EncodesEmpty(m: TxResult)
    ensures Encode(m) == [] <==> m == EMPTY
  {
    var ws := Words(m);
    EmptyOnlyForZero(ws, 0);
    if Encode(m) == [] {
      assert ws[0] == 0 && ws[1] == 0 && ws[2] == 0 && ws[3] == 0 && ws[4] == 0 && ws[5] == 0 && ws[6] == 0;
    }
  }

  // ------------------------------------------------------------------
  // The bytes of a record
  // ------------------------------------------------------------------

  /** A field on the wire: its tag byte and its value, or nothing for zero. */
  function Part(tag: byte, w: uint64): (bs: seq<byte>) {
    if w == 0 then [] else [tag] + Varint(w)
  }

  /** Two's complement in 64 bits. */
  function Unsigned(x: int64): (w: uint64) {
    if x < 0 then x + TWO_64 else x
  }

  lemma EncodeStep(ws: seq<uint64>, k: nat)
    requires k < |ws| <= 7
    ensures EncodeFrom(ws, k) == Part(8 * (k + 1), ws[k]) + EncodeFrom(ws, k + 1)
  {
    hide Varint;
  }

  /** Which member goes under which tag, in which order. */
  lemma RecordBytes(m: TxResult)
    ensures Encode(m) ==
            Part(0x08, Unsigned(m.height)) + Part(0x10, m.txIndex) + Part(0x18, m.msgIndex)
            + Part(0x20, Unsigned(m.ethTxIndex)) + Part(0x28, if m.failed then 1 else 0)
            + Part(0x30, m.gasUsed) + Part(0x38, m.cumulativeGasUsed)
  {
    hide Part, EncodeFrom;
    var ws := Words(m);
    EncodeStep(ws, 0);
    EncodeStep(ws, 1);
    EncodeStep(ws, 2);
    EncodeStep(ws, 3);
    EncodeStep(ws, 4);
    EncodeStep(ws, 5);
    EncodeStep(ws, 6);
    EncodeEnd(ws);
  }

  lemma EncodeEnd(ws: seq<uint64>)
    requires |ws| == 7
    ensures EncodeFrom(ws, 7) == []
  {
  }

  /** The example of the Protocol Buffers Encoding guide: 150 is sent as 96 01, lowest group first. */
  lemma VarintExample()
    ensures Varint(150) == [0x96, 0x01] && Base128([0x96, 0x01]) == 150
  {
    assert Varint(1) == [1];
    assert [0x96, 0x01][1..] == [0x01] && [0x01][1..] == [];
    assert Base128([0x01]) == 1;
  }

  /** `x` is `v` cut to the width, read as signed or unsigned. */
  predicate CutTo(x: int, v: nat, modulus: nat)
    requires modulus > 0
  {
    (v - x) % modulus == 0
  }

  /** What a varint of any size does to the record: field 1 to 7 in the order of the members, each
      value cut to its width, the flag set for any value but zero in 64 bits. */
  lemma AssignMeans(m: TxResult, num: int, v: nat)
    ensures var r := Assign(m, num, v, true);
            && (if num == 1 then CutTo(r.height, v, TWO_64) else r.height == m.height)
            && (if num == 2 then CutTo(r.txIndex, v, TWO_32) else r.txIndex == m.txIndex)
            && (if num == 3 then CutTo(r.msgIndex, v, TWO_32) else r.msgIndex == m.msgIndex)
            && (if num == 4 then CutTo(r.ethTxIndex, v, TWO_32) else r.ethTxIndex == m.ethTxIndex)
            && (if num == 5 then (!r.failed <==> CutTo(0, v, TWO_64)) else r.failed == m.failed)
            && (if num == 6 then CutTo(r.gasUsed, v, TWO_64) else r.gasUsed == m.gasUsed)
            && (if num == 7 then CutTo(r.cumulativeGasUsed, v, TWO_64) else r.cumulativeGasUsed == m.cumulativeGasUsed)
  {
    hide CutTo;
    Cut64(v);
    Cut32(v);
  }

  lemma Cut64(v: nat)
    ensures CutTo(v % TWO_64, v, TWO_64) && CutTo(ToInt64(v % TWO_64), v, TWO_64)
    ensures CutTo(0, v, TWO_64) <==> v % TWO_64 == 0
  {
  }

  lemma Cut32(v: nat)
    ensures CutTo(v % TWO_32, v, TWO_32) && CutTo(ToInt32(v % TWO_32), v, TWO_32)
  {
  }

  // ------------------------------------------------------------------
  // How reading fails
  // ------------------------------------------------------------------

  predicate AllContinue(bs: seq<byte>) {
    forall k :: 0 <= k < |bs| ==> bs[k] >= 128
  }

  lemma {:induction false} ScanCut(data: seq<byte>, i: nat, n: nat)
    requires i <= |data| && n <= 10 && AllContinue(data[i..])
    ensures Scan(data, i, n) ==
            if n + (|data| - i) >= 10 then ScanResult(i + (10 - n), Some(IntOverflow))
            else ScanResult(|data|, Some(UnexpectedEOF))
    decreases |data| - i
  {
    if n == 10 || i == |data| {
    } else {
      assert data[i] == data[i..][0];
      assert data[i + 1..] == data[i..][1..];
      ScanCut(data, i + 1, n + 1);
    }
  }

  /** A field cut off in its value ends in UnexpectedEOF, one that goes on for ten bytes in
      IntOverflow; by then the groups read are in the record, except for the flag. */
  lemma CutField(m: TxResult, k: nat, bs: seq<byte>)
    requires 1 <= k <= 7 && AllContinue(bs) && |bs| < TWO_63 - 1
    ensures var read := if |bs| >= 10 then bs[..10] else bs;
            Decode([8 * k] + bs, 0, m) ==
            Decoded(if k == 5 then m else Assign(m, k, Base128(read), true),
                    Some(if |bs| >= 10 then IntOverflow else UnexpectedEOF))
  {
    hide Base128, Decode, ReadField;
    var data: seq<byte> := [8 * k] + bs;
    assert data[1..] == bs;
    ScanCut(data, 1, 0);
    assert data[1..Scan(data, 1, 0).stop] == if |bs| >= 10 then bs[..10] else bs;
    CutTurn(data, k, m);
    DecodeStops(data, m);
  }

  lemma TagByte(data: seq<byte>, k: nat)
    requires data != [] && 1 <= k <= 7 && data[0] == 8 * k
    ensures Scan(data, 0, 0) == ScanResult(1, None) && FieldNumber(data[0..1]) == k && WireType(data[0..1]) == 0
  {
    hide FieldNumber, WireType;
    assert data[0..1] == [8 * ((k - 1) + 1)];
    KnownField(k - 1, 0);
  }

  lemma CutTurn(data: seq<byte>, k: nat, m: TxResult)
    requires data != [] && |data| < TWO_63 && 1 <= k <= 7 && data[0] == 8 * k
    ensures ReadField(data, 0, m) == ReadKnown(data, 1, k, m)
  {
    hide FieldNumber, WireType, ReadKnown;
    TagByte(data, k);
  }

  lemma DecodeStops(data: seq<byte>, m: TxResult)
    requires data != [] && |data| < TWO_63 && ReadField(data, 0, m).Stop?
    ensures Decode(data, 0, m) == Decoded(ReadField(data, 0, m).m, Some(ReadField(data, 0, m).err))
  {
    hide ReadField;
  }

  /** The first tag decides: an end of group, a field number that is not positive and a known
      field that is no varint are errors of their own, in this order. */
  lemma BadTag(m: TxResult, tag: seq<byte>, rest: seq<byte>)
    requires IsVarint(tag) && |tag + rest| < TWO_63
    ensures var r := Decode(tag + rest, 0, m);
            var wire, num := Base128(tag) % 8, FieldNumber(tag);
            && (wire == 4 ==> r == Decoded(m, Some(EndGroupForNonGroup)))
            && (wire != 4 && num <= 0 ==> r == Decoded(m, Some(IllegalTag(num))))
            && (wire != 4 && wire != 0 && 1 <= num <= 7 ==> r == Decoded(m, Some(WrongWireType(num, wire))))
  {
    hide Base128, FieldNumber, SkipUnknown, ReadKnown;
    var data := tag + rest;
    assert At(data, 0, tag);
    ScanVarint(data, 0, tag, 0);
    assert data[0..|tag|] == tag;
    assert Word(tag) % 8 == Base128(tag) % 8;
  }

  lemma SkipStops(m: TxResult, tag: seq<byte>, rest: seq<byte>)
    requires IsVarint(tag) && |tag + rest| < TWO_63 && FieldNumber(tag) > 7 && Base128(tag) % 8 != 4
    ensures ReadField(tag + rest, 0, m) == SkipUnknown(tag + rest, 0, m)
    ensures ReadToken(tag + rest, 0) == ReadPayload(tag + rest, |tag|, Base128(tag) % 8)
  {
    hide Base128, FieldNumber, SkipUnknown, ReadKnown, ReadPayload;
    var data := tag + rest;
    assert At(data, 0, tag);
    ScanVarint(data, 0, tag, 0);
    assert data[0..|tag|] == tag;
    assert Word(tag) % 8 == Base128(tag) % 8;
  }

  lemma SkipEndsAt(data: seq<byte>, m: TxResult)
    requires data != [] && |data| < TWO_63
    ensures match ReadToken(data, 0) {
              case BadToken(e) => SkipUnknown(data, 0, m) == Stop(m, e)
              case Token(wireType, next) =>
                wireType in {0, 1, 2, 5} && next > |data| ==> SkipUnknown(data, 0, m) == Stop(m, UnexpectedEOF)
            }
  {
    hide ReadToken;
    assert data[0..] == data;
  }

  /** How an unknown field fails: an unknown wire type, a payload of eight or four bytes that is cut
      off, and a length that is negative in 64 bits. */
  lemma BadUnknown(m: TxResult, tag: seq<byte>, rest: seq<byte>)
    requires IsVarint(tag) && |tag + rest| < TWO_63 && FieldNumber(tag) > 7
    ensures var r, wire := Decode(tag + rest, 0, m), Base128(tag) % 8;
            && (wire >= 6 ==> r == Decoded(m, Some(IllegalWireType(wire))))
            && (wire == 1 && |rest| < 8 ==> r == Decoded(m, Some(UnexpectedEOF)))
            && (wire == 5 && |rest| < 4 ==> r == Decoded(m, Some(UnexpectedEOF)))
            && (wire == 2 && IsVarint(rest) && Base128(rest) % TWO_64 >= TWO_63 ==>
                  r == Decoded(m, Some(InvalidLength)))
  {
    hide Base128, FieldNumber, Decode, ReadField, ReadToken, SkipUnknown;
    var data, wire := tag + rest, Base128(tag) % 8;
    if wire != 4 {
      SkipStops(m, tag, rest);
      SkipEndsAt(data, m);
      if wire == 2 && IsVarint(rest) {
        assert At(data, |tag|, rest);
        ScanVarint(data, |tag|, rest, 0);
        assert data[|tag|..|tag| + |rest|] == rest;
      }
      if ReadField(data, 0, m).Stop? {
        DecodeStops(data, m);
      }
    }
  }

  /** skipIndexer on an end of group without a group. */
  lemma StrayEndOfGroup(tag: seq<byte>, rest: seq<byte>)
    requires IsVarint(tag) && |tag + rest| < TWO_63 && Base128(tag) % 8 == 4
    ensures SkipFrom(tag + rest, 0, 0) == SkipFailed(UnexpectedEndOfGroup)
  {
    hide Base128;
    var data := tag + rest;
    assert At(data, 0, tag);
    ScanVarint(data, 0, tag, 0);
    assert data[0..|tag|] == tag;
    assert Word(tag) % 8 == Base128(tag) % 8;
  }

  /** The field number is the tag without its three low bits, cut to 32 bits and read as signed. */
  lemma FieldNumberMeans(tag: seq<byte>)
    ensures -TWO_31 <= FieldNumber(tag) < TWO_31
    ensures CutTo(FieldNumber(tag), Base128(tag) % TWO_64 / 8, TWO_32)
  {
    Cut32(Base128(tag) % TWO_64 / 8);
  }
}
