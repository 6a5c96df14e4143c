/** What the inferred types mean (ethereum/eip712/types.go): the values EIP-712 admits for them,
    all array elements included, and exactly when a payload is one. */
module Eip712Values {
  import opened Numbers
  import opened Eip712Names
  import opened Eip712Types
  import opened Eip712Message

  // ------------------------------------------------------------------
  // Values of a type
  // ------------------------------------------------------------------

  predicate IsInt64(x: real) {
    x.Floor as real == x && -TWO_63 <= x.Floor < TWO_63
  }

  predicate IsArrayType(typ: string) { |typ| >= 2 && typ[|typ| - 2..] == "[]" }

  ghost predicate FieldsAre(fields: seq<TypedField>, members: map<string, Json>) {
    forall k :: k in members <==> k in FieldNames(fields)
  }

  /** `v` is a value of the type named `typ`: an integer of 64 bits, an array of values of the
      element type, or an object with exactly the fields of the struct. */
  ghost predicate IsValue(types: Schema, typ: string, v: Json)
    decreases v, 1
  {
    match v
    case Null => false
    case Bool(_) => typ == "bool"
    case Number(n) => typ == "int64" && IsInt64(n)
    case String(_) => typ == "string"
    case Array(items) =>
      IsArrayType(typ) && forall i :: 0 <= i < |items| ==> IsValue(types, typ[..|typ| - 2], items[i])
    case Object(members) =>
      && typ in types && FieldsAre(types[typ], members)
      && forall i :: 0 <= i < |types[typ]| ==> IsFieldValue(types, types[typ][i], v)
  }

  ghost predicate IsFieldValue(types: Schema, f: TypedField, v: Json)
    requires v.Object?
    decreases v, 0
  {
    f.name in v.members && IsValue(types, f.typ, v.members[f.name])
  }

  // ------------------------------------------------------------------
  // The same without types
  // ------------------------------------------------------------------

  /** `v` is built like `a`: the same kinds of values under the same names, every element of an
      array like the first one of `a`'s, and like a string where `a`'s is empty. */
  ghost predicate Alike(a: Json, v: Json) {
    match a
    case Null => false
    case Bool(_) => v.Bool?
    case Number(_) => v.Number?
    case String(_) => v.String?
    case Array(items) =>
      && v.Array?
      && if items == [] then forall i :: 0 <= i < |v.items| ==> v.items[i].String?
         else !items[0].Array? && forall i :: 0 <= i < |v.items| ==> Alike(items[0], v.items[i])
    case Object(members) =>
      && v.Object?
      && (forall k :: k in v.members <==> k in members && IsRepresentable(members[k]))
      && (forall k :: k in v.members && k in members ==> Alike(members[k], v.members[k]))
  }

  /** Every number in it is an integer of 64 bits. */
  ghost predicate NumbersFit(v: Json) {
    match v
    case Number(n) => IsInt64(n)
    case Array(items) => forall i :: 0 <= i < |items| ==> NumbersFit(items[i])
    case Object(members) => forall k :: k in members ==> NumbersFit(members[k])
    case _ => true
  }

  // ------------------------------------------------------------------
  // Struct names are not mistaken for other types
  // ------------------------------------------------------------------

  ghost predicate IsStructName(name: string) {
    !IsArrayType(name) && name != "bool" && name != "int64" && name != "string"
  }

  ghost predicate Proper(types: Schema) {
    forall k :: k in types ==> IsStructName(k)
  }

  lemma DecimalEnds(n: nat)
    ensures |Decimal(n)| > 0 && Decimal(n)[|Decimal(n)| - 1] != ']'
  {
  }

  lemma GeneratedIsStructName(root: string, prefix: string, n: nat)
    requires ValidContext(root, prefix)
    ensures IsStructName(TypeDefWithIndex(TypeDefForPrefix(prefix, root), n))
  {
    hide TypeDefForPrefix, ValidContext, Decimal;
    var key := TypeDefWithIndex(TypeDefForPrefix(prefix, root), n);
    ContextIsGenerated(root, prefix, n);
    DecimalEnds(n);
    assert key[|key| - 1] == Decimal(n)[|Decimal(n)| - 1];
    assert key[0] == TYPE_PREFIX[0] == 'T';
    assert |key| >= 2 ==> key[|key| - 2..][1] == key[|key| - 1];
  }

  lemma FirstFitProper(types: Schema, root: string, prefix: string, fields: seq<TypedField>)
    requires ValidContext(root, prefix) && Proper(types)
    ensures Proper(FirstFit(types, TypeDefForPrefix(prefix, root), fields, 0).types)
  {
    hide FirstFit, TypeDefForPrefix, TypeDefWithIndex, ValidContext, IsStructName;
    var n := FirstFitStops(types, TypeDefForPrefix(prefix, root), fields, 0);
    GeneratedIsStructName(root, prefix, n);
  }

  lemma {:induction false} InferProper(types: Schema, root: string, prefix: string, json: Json)
    requires ValidContext(root, prefix) && Proper(types)
    ensures Proper(Infer(types, root, prefix, json).types)
    decreases json, 1, 0
  {
    hide FirstFit, TypeDefForPrefix, ValidContext, Proper;
    if json.Object? {
      var names := SortedKeys(json.members.Keys);
      InferFieldsProper(types, root, prefix, json, names);
      var listed := InferFields(types, root, prefix, json, names);
      if listed.fields.Some? {
        FirstFitProper(listed.types, root, prefix, listed.fields.value);
      }
    }
  }

  lemma {:induction false} InferFieldsProper(types: Schema, root: string, prefix: string, json: Json,
                                             names: seq<string>)
    requires ValidContext(root, prefix) && Proper(types)
    requires json.Object? && forall n :: n in names ==> n in json.members
    ensures Proper(InferFields(types, root, prefix, json, names).types)
    decreases json, 0, |names|
  {
    hide Infer, Sanitize, ValidContext, Proper;
    if names == [] {
    } else {
      match ShapeOf(json.members[names[0]])
      case Dropped => InferFieldsProper(types, root, prefix, json, names[1..]);
      case Primitive(_) => InferFieldsProper(types, root, prefix, json, names[1..]);
      case Nested(elem, _) =>
        var subPrefix := PrefixForSubField(prefix, names[0]);
        SubContext(root, prefix, names[0]);
        InferProper(types, root, subPrefix, elem);
        InferFieldsProper(Infer(types, root, subPrefix, elem).types, root, prefix, json, names[1..]);
    }
  }

  lemma {:induction false} AddMsgsProper(types: Schema, payload: Json, i: nat, n: nat)
    requires i <= n && Proper(types)
    ensures Proper(AddMsgs(types, payload, i, n).types)
    decreases n - i
  {
    hide Infer, MsgFieldForIndex, Generated;
    if i == n {
    } else {
      var msg := Get(payload, MsgFieldForIndex(i));
      if msg.Object? && MsgRootType(msg).Some? {
        InferProper(types, MsgRootType(msg).value, ROOT_PREFIX, msg);
      }
      var one := AddMsg(types, MsgFieldForIndex(i), msg);
      if one.ok {
        AddMsgsProper(one.types, payload, i + 1, n);
      }
    }
  }

  lemma InitialProper()
    ensures Proper(INITIAL)
  {
  }

  // ------------------------------------------------------------------
  // The values of an inferred type
  // ------------------------------------------------------------------

  lemma {:induction false} FieldNamed(fields: seq<TypedField>, k: string)
    ensures k in FieldNames(fields) <==> exists i :: 0 <= i < |fields| && fields[i].name == k
  {
    if fields == [] {
    } else {
      FieldNamed(fields[1..], k);
      if i :| 0 <= i < |fields| && fields[i].name == k && i > 0 {
        assert fields[1..][i - 1].name == k;
      }
    }
  }

  lemma {:induction false} RepresentableNames(members: map<string, Json>, names: seq<string>, k: string)
    requires forall n :: n in names ==> n in members
    ensures k in Representable(members, names) <==> k in names && IsRepresentable(members[k])
  {
    hide IsRepresentable;
    if names == [] {
    } else {
      RepresentableNames(members, names[1..], k);
    }
  }

  lemma ArrayTypeOf(elem: string)
    ensures var typ := elem + "[]"; IsArrayType(typ) && typ[..|typ| - 2] == elem
  {
  }

  lemma DescribedNames(types: Schema, key: string, a: Json, k: string)
    requires Describes(types, key, a)
    ensures k in FieldNames(types[key]) <==> k in a.members && IsRepresentable(a.members[k])
  {
    hide IsRepresentable, FieldFits;
    RepresentableNames(a.members, SortedKeys(a.members.Keys), k);
  }

  /** The values of a type are those built like any value the type was given to, with numbers
      that fit. */
  lemma {:induction false} ValueExact(types: Schema, typ: string, a: Json, v: Json)
    requires Proper(types) && HasType(types, typ, a)
    ensures IsValue(types, typ, v) <==> Alike(a, v) && NumbersFit(v)
    decreases a, 1
  {
    match a
    case Bool(_) => BuiltinIsNoStruct(types, typ);
    case Number(_) => BuiltinIsNoStruct(types, typ);
    case String(_) => BuiltinIsNoStruct(types, typ);
    case Array(items) => ArrayExact(types, typ, a, v);
    case Object(_) => StructExact(types, typ, a, v);
  }

  lemma BuiltinIsNoStruct(types: Schema, typ: string)
    requires Proper(types) && (typ == "bool" || typ == "int64" || typ == "string")
    ensures typ !in types && !IsArrayType(typ)
  {
  }

  lemma ValueOfArrayType(types: Schema, elem: string, v: Json)
    requires Proper(types)
    ensures IsValue(types, elem + "[]", v) <==>
            v.Array? && forall i :: 0 <= i < |v.items| ==> IsValue(types, elem, v.items[i])
  {
    ArrayTypeOf(elem);
    assert elem + "[]" !in types;
  }

  lemma LikeArray(a: Json, v: Json)
    requires a.Array? && a.items != [] && !a.items[0].Array?
    ensures Alike(a, v) && NumbersFit(v) <==>
            v.Array? && forall i :: 0 <= i < |v.items| ==> Alike(a.items[0], v.items[i]) && NumbersFit(v.items[i])
  {
  }

  lemma LikeEmptyArray(types: Schema, v: Json)
    requires Proper(types)
    ensures Alike(Array([]), v) && NumbersFit(v) <==>
            v.Array? && forall i :: 0 <= i < |v.items| ==> IsValue(types, "string", v.items[i])
  {
    BuiltinIsNoStruct(types, "string");
  }

  lemma {:induction false} ArrayExact(types: Schema, typ: string, a: Json, v: Json)
    requires Proper(types) && HasType(types, typ, a) && a.Array?
    ensures IsValue(types, typ, v) <==> Alike(a, v) && NumbersFit(v)
    decreases a, 0
  {
    hide Describes, Proper, IsValue, Alike, NumbersFit;
    if a.items == [] {
      assert "string" + "[]" == typ;
      ValueOfArrayType(types, "string", v);
      LikeEmptyArray(types, v);
    } else {
      var elem :| typ == elem + "[]" && HasType(types, elem, a.items[0]);
      ValueOfArrayType(types, elem, v);
      LikeArray(a, v);
      if v.Array? {
        forall i | 0 <= i < |v.items|
          ensures IsValue(types, elem, v.items[i]) <==> Alike(a.items[0], v.items[i]) && NumbersFit(v.items[i])
        {
          ValueExact(types, elem, a.items[0], v.items[i]);
        }
      }
    }
  }

  lemma ValueOfStruct(types: Schema, typ: string, v: Json)
    requires Proper(types) && typ in types
    ensures IsValue(types, typ, v) <==>
            && v.Object? && FieldsAre(types[typ], v.members)
            && forall i :: 0 <= i < |types[typ]| ==> IsFieldValue(types, types[typ][i], v)
  {
    hide FieldsAre, IsFieldValue;
    assert IsStructName(typ);
  }

  ghost predicate LikeMember(a: Json, v: Json, k: string)
    requires a.Object? && v.Object?
  {
    k in a.members && k in v.members && Alike(a.members[k], v.members[k]) && NumbersFit(v.members[k])
  }

  lemma LikeStruct(a: Json, v: Json)
    requires a.Object?
    ensures Alike(a, v) && NumbersFit(v) <==>
            && v.Object?
            && (forall k :: k in v.members <==> k in a.members && IsRepresentable(a.members[k]))
            && (forall k :: k in v.members ==> LikeMember(a, v, k))
  {
    hide IsRepresentable;
  }

  lemma {:induction false} StructExact(types: Schema, typ: string, a: Json, v: Json)
    requires Proper(types) && Describes(types, typ, a)
    ensures IsValue(types, typ, v) <==> Alike(a, v) && NumbersFit(v)
    decreases a, 0
  {
    hide IsRepresentable, HasType, Proper, IsValue, Alike, NumbersFit, FieldNames, Representable;
    var fields := types[typ];
    ValueOfStruct(types, typ, v);
    LikeStruct(a, v);
    forall k ensures k in FieldNames(fields) <==> k in a.members && IsRepresentable(a.members[k]) {
      DescribedNames(types, typ, a, k);
    }
    if v.Object? && FieldsAre(fields, v.members) {
      forall i | 0 <= i < |fields|
        ensures IsFieldValue(types, fields[i], v) <==> LikeMember(a, v, fields[i].name)
      {
        FieldNamed(fields, fields[i].name);
        assert FieldFits(types, fields[i], a);
        ValueExact(types, fields[i].typ, a.members[fields[i].name], v.members[fields[i].name]);
      }
      if IsValue(types, typ, v) {
        forall k | k in v.members ensures LikeMember(a, v, k) {
          FieldNamed(fields, k);
          var i :| 0 <= i < |fields| && fields[i].name == k;
          assert IsFieldValue(types, fields[i], v);
        }
      } else if forall k :: k in v.members ==> LikeMember(a, v, k) {
        forall i | 0 <= i < |fields| ensures IsFieldValue(types, fields[i], v) {
          FieldNamed(fields, fields[i].name);
          assert LikeMember(a, v, fields[i].name);
        }
      }
    }
  }

  // ------------------------------------------------------------------
  // Payloads
  // ------------------------------------------------------------------

  /** Message j of a payload is a value of the type signed for it if and only if all its numbers
      are integers of 64 bits and it is built like itself: no null, no array in an array, and the
      elements of every array alike. */
  lemma MessageIsValue(payload: Json, f: Flattened, j: nat)
    requires Flattenable(payload) && IsFlattening(payload, f)
    requires AddMsgs(INITIAL, f.payload, 0, f.numMsgs).ok && j < f.numMsgs
    ensures var types, msg := AddMsgs(INITIAL, f.payload, 0, f.numMsgs).types, payload.members[MSGS].items[j];
            && TX in types && 5 + j < |types[TX]|
            && (IsValue(types, types[TX][5 + j].typ, msg) <==> Alike(msg, msg) && NumbersFit(msg))
  {
    hide AddMsgs, IsValue, Alike, NumbersFit, Describes, Proper;
    MessagesDescribed(payload, f, j);
    InitialProper();
    AddMsgsProper(INITIAL, f.payload, 0, f.numMsgs);
    var types: Schema := AddMsgs(INITIAL, f.payload, 0, f.numMsgs).types;
    var msg: Json := payload.members[MSGS].items[j];
    DescribedHasType(types, types[TX][5 + j].typ, msg);
    ValueExact(types, types[TX][5 + j].typ, msg, msg);
  }

  lemma DescribedHasType(types: Schema, typ: string, v: Json)
    requires Describes(types, typ, v)
    ensures HasType(types, typ, v)
  {
    hide FieldFits, FieldNames, Representable;
  }

  /** A fraction is typed int64 and is a value of no type. */
  lemma FractionIsNoValue(types: Schema, typ: string)
    ensures HasType(types, "int64", Number(0.5)) && !IsValue(types, typ, Number(0.5))
  {
  }

  /** An array is typed by its first element, and one that goes on with another kind is a value
      of no type. */
  lemma MixedArrayIsNoValue(types: Schema, typ: string)
    ensures var v := Array([String("a"), Bool(true)]); HasType(types, "string[]", v) && !IsValue(types, typ, v)
  {
    var items := [String("a"), Bool(true)];
    assert "string" + "[]" == "string[]" && HasType(types, "string", items[0]);
    if IsArrayType(typ) {
      var elem := typ[..|typ| - 2];
      assert !(IsValue(types, elem, items[0]) && IsValue(types, elem, items[1]));
    }
  }

  // ------------------------------------------------------------------
  // The predefined types and whole payloads
  // ------------------------------------------------------------------

  /** The predefined types in the order EIP-712 encodes them. */
  lemma PredefinedOrder()
    ensures FieldNames(INITIAL["Tx"]) == ["account_number", "chain_id", "fee", "memo", "sequence"]
    ensures FieldNames(INITIAL["Fee"]) == ["amount", "gas"]
    ensures FieldNames(INITIAL["Coin"]) == ["denom", "amount"]
    ensures FieldNames(INITIAL["EIP712Domain"]) == ["name", "version", "chainId", "verifyingContract", "salt"]
  {
    hide FieldNames;
    FieldNamesAt(INITIAL["Tx"]);
    FieldNamesAt(INITIAL["Fee"]);
    FieldNamesAt(INITIAL["Coin"]);
    FieldNamesAt(INITIAL["EIP712Domain"]);
  }

  lemma {:induction false} FieldNamesAt(fields: seq<TypedField>)
    ensures |FieldNames(fields)| == |fields|
    ensures forall i :: 0 <= i < |fields| ==> FieldNames(fields)[i] == fields[i].name
  {
    if fields == [] {
    } else {
      FieldNamesAt(fields[1..]);
    }
  }

  predicate IsText(v: Json, k: string) {
    v.Object? && k in v.members && v.members[k].String?
  }

  predicate HasKeys(v: Json, keys: set<string>) {
    v.Object? && v.members.Keys == keys
  }

  /** A coin and a fee as the Cosmos SDK writes them to JSON. */
  predicate IsCoin(v: Json) {
    HasKeys(v, {"denom", "amount"}) && IsText(v, "denom") && IsText(v, "amount")
  }

  predicate IsFee(v: Json) {
    && HasKeys(v, {"amount", "gas"}) && IsText(v, "gas")
    && v.members["amount"].Array?
    && forall i :: 0 <= i < |v.members["amount"].items| ==> IsCoin(v.members["amount"].items[i])
  }

  /** The predefined types are unchanged after any payload. */
  ghost predicate KeepsPredefined(types: Schema) {
    && Proper(types) && "Fee" in types && "Coin" in types
    && types["Fee"] == INITIAL["Fee"] && types["Coin"] == INITIAL["Coin"]
  }

  lemma TextValue(types: Schema, v: Json)
    requires Proper(types)
    ensures IsValue(types, "string", v) <==> v.String?
  {
    BuiltinIsNoStruct(types, "string");
  }

  lemma CoinValue(types: Schema, v: Json)
    requires KeepsPredefined(types)
    ensures IsValue(types, "Coin", v) <==> IsCoin(v)
  {
    hide IsValue, Proper;
    ValueOfStruct(types, "Coin", v);
    if v.Object? {
      var fields := types["Coin"];
      assert fields == [TypedField("denom", "string"), TypedField("amount", "string")];
      TwoFields(fields, v.members);
      forall k | k in v.members { TextValue(types, v.members[k]); }
    }
  }

  lemma TwoFields(fields: seq<TypedField>, members: map<string, Json>)
    requires |fields| == 2
    ensures FieldsAre(fields, members) <==> members.Keys == {fields[0].name, fields[1].name}
  {
    assert forall k :: k in FieldNames(fields) <==> k == fields[0].name || k == fields[1].name by {
      forall k ensures k in FieldNames(fields) <==> k == fields[0].name || k == fields[1].name {
        FieldNamed(fields, k);
      }
    }
  }

  lemma FeeValue(types: Schema, v: Json)
    requires KeepsPredefined(types)
    ensures IsValue(types, "Fee", v) <==> IsFee(v)
  {
    hide IsValue, Proper, IsCoin;
    ValueOfStruct(types, "Fee", v);
    if v.Object? {
      var fields := types["Fee"];
      assert fields == [TypedField("amount", "Coin[]"), TypedField("gas", "string")];
      TwoFields(fields, v.members);
      if "gas" in v.members { TextValue(types, v.members["gas"]); }
      if "amount" in v.members {
        var coins := v.members["amount"];
        assert "Coin" + "[]" == "Coin[]";
        ValueOfArrayType(types, "Coin", coins);
        if coins.Array? {
          forall i | 0 <= i < |coins.items| { CoinValue(types, coins.items[i]); }
        }
      }
    }
  }

  const HEADER := ["account_number", "chain_id", "fee", "memo", "sequence"]

  /** The Tx type after a payload of `n` messages: the header, then one field per message. */
  ghost predicate TxShape(types: Schema, n: nat) {
    && TX in types && |types[TX]| == 5 + n && types[TX][..5] == INITIAL[TX]
    && forall j :: 0 <= j < n ==> types[TX][5 + j].name == "msg" + Decimal(j)
  }

  lemma HeaderField(types: Schema, n: nat, i: nat)
    requires TxShape(types, n) && i < 5
    ensures types[TX][i] == TypedField(HEADER[i], if i == 2 then "Fee" else "string")
  {
    assert types[TX][i] == types[TX][..5][i];
  }

  lemma HeaderIsNoMsg(k: string, j: nat)
    requires k in HEADER
    ensures k != "msg" + Decimal(j) && k != "msgs"
  {
    hide Decimal;
    var name := "msg" + Decimal(j);
    assert name[0] == 'm' && name[1] == 's';
  }

  lemma TxFieldNames(types: Schema, n: nat, k: string)
    requires TxShape(types, n)
    ensures k in FieldNames(types[TX]) <==> k in HEADER || exists j :: 0 <= j < n && k == "msg" + Decimal(j)
  {
    hide Decimal, FieldNames;
    FieldNamed(types[TX], k);
    if i :| 0 <= i < |types[TX]| && types[TX][i].name == k {
      if i < 5 {
        HeaderField(types, n, i);
      } else {
        assert types[TX][5 + (i - 5)].name == "msg" + Decimal(i - 5);
      }
    }
    if i :| 0 <= i < 5 && HEADER[i] == k {
      HeaderField(types, n, i);
    }
    if j :| 0 <= j < n && k == "msg" + Decimal(j) {
      assert types[TX][5 + j].name == k;
    }
  }

  ghost predicate OnlyHeader(members: map<string, Json>) {
    forall k :: k in members <==> k in HEADER || k == "msgs"
  }

  lemma TxFieldsAre(types: Schema, payload: Json, f: Flattened)
    requires Flattenable(payload) && IsFlattening(payload, f) && TxShape(types, f.numMsgs)
    ensures FieldsAre(types[TX], f.payload.members) <==> OnlyHeader(payload.members)
  {
    hide Decimal, FieldNames, IsFlattening, Flattenable;
    FlattenedFields(payload, f);
    FlattenSucceeds(payload);
    var msgs := payload.members["msgs"].items;
    forall k ensures (k in f.payload.members <==> k in FieldNames(types[TX])) <==>
                     (k == "msgs" || (k in payload.members <==> k in HEADER))
    {
      TxFieldNames(types, f.numMsgs, k);
      if j :| 0 <= j < |msgs| && k == "msg" + Decimal(j) {
        if k in HEADER {
          HeaderIsNoMsg(k, j);
        }
      } else if k in HEADER {
        HeaderIsNoMsg(k, 0);
      }
    }
    forall k | k in HEADER ensures k != "msgs" {
      HeaderIsNoMsg(k, 0);
    }
  }

  /** The header of a Cosmos sign document. */
  predicate IsHeader(v: Json) {
    && IsText(v, "account_number") && IsText(v, "chain_id") && IsText(v, "memo") && IsText(v, "sequence")
    && "fee" in v.members && IsFee(v.members["fee"])
  }

  lemma HeaderValue(types: Schema, n: nat, v: Json)
    requires KeepsPredefined(types) && TxShape(types, n) && v.Object?
    ensures (forall i :: 0 <= i < 5 ==> IsFieldValue(types, types[TX][i], v)) <==> IsHeader(v)
  {
    hide IsValue, Proper, KeepsPredefined, IsFee;
    forall i | 0 <= i < 5
      ensures var k := HEADER[i];
              IsFieldValue(types, types[TX][i], v) <==>
              k in v.members && if i == 2 then IsFee(v.members[k]) else v.members[k].String?
    {
      HeaderField(types, n, i);
      if HEADER[i] in v.members {
        PredefinedProper(types);
        TextValue(types, v.members[HEADER[i]]);
        FeeValue(types, v.members[HEADER[i]]);
      }
    }
    assert HEADER[0] == "account_number" && HEADER[1] == "chain_id" && HEADER[2] == "fee";
    assert HEADER[3] == "memo" && HEADER[4] == "sequence";
  }

  lemma PredefinedProper(types: Schema)
    requires KeepsPredefined(types)
    ensures Proper(types)
  {
  }

  lemma PayloadShape(payload: Json, f: Flattened)
    requires Flattenable(payload) && IsFlattening(payload, f) && AddMsgs(INITIAL, f.payload, 0, f.numMsgs).ok
    ensures var types := AddMsgs(INITIAL, f.payload, 0, f.numMsgs).types;
            KeepsPredefined(types) && TxShape(types, f.numMsgs)
  {
    hide AddMsgs, Describes, Infer, Proper;
    PayloadTyped(f.payload, f.numMsgs);
    InitialProper();
    AddMsgsProper(INITIAL, f.payload, 0, f.numMsgs);
    var types: Schema := AddMsgs(INITIAL, f.payload, 0, f.numMsgs).types;
    forall j | 0 <= j < f.numMsgs ensures types[TX][5 + j].name == "msg" + Decimal(j) {
      assert MsgTyped(types, f.payload, 5, j);
    }
  }

  /** A whole payload is an EIP-712 value of the Tx type signed for it if and only if it is a
      Cosmos sign document, with these header fields, a fee in coins and nothing else, and every
      message is built like itself with numbers that fit. */
  lemma PayloadIsValue(payload: Json, f: Flattened)
    requires Flattenable(payload) && IsFlattening(payload, f) && AddMsgs(INITIAL, f.payload, 0, f.numMsgs).ok
    ensures var types, msgs := AddMsgs(INITIAL, f.payload, 0, f.numMsgs).types, payload.members["msgs"].items;
            IsValue(types, "Tx", f.payload) <==>
            && OnlyHeader(payload.members) && IsHeader(payload)
            && forall j :: 0 <= j < |msgs| ==> Alike(msgs[j], msgs[j]) && NumbersFit(msgs[j])
  {
    hide AddMsgs, IsValue, Alike, NumbersFit, KeepsPredefined, TxShape, OnlyHeader, IsFee, FieldsAre, IsFieldValue,
         FieldNames;
    var types: Schema := AddMsgs(INITIAL, f.payload, 0, f.numMsgs).types;
    var msgs: seq<Json> := payload.members["msgs"].items;
    PayloadShape(payload, f);
    PredefinedProper(types);
    FlattenedFields(payload, f);
    TxFieldsAre(types, payload, f);
    TxPresent(types, f.numMsgs);
    ValueOfStruct(types, TX, f.payload);
    HeaderValue(types, f.numMsgs, f.payload);
    SameHeader(payload, f);
    forall j | 0 <= j < |msgs|
      ensures MsgFieldOk(types, f, j) <==> Alike(msgs[j], msgs[j]) && NumbersFit(msgs[j])
    {
      MessageIsValue(payload, f, j);
      MsgFieldValue(types, f, msgs[j], j);
    }
    FieldsSplit(types, f);
  }

  lemma TxPresent(types: Schema, n: nat)
    requires TxShape(types, n)
    ensures TX in types && |types[TX]| == 5 + n
  {
  }

  lemma SameHeader(payload: Json, f: Flattened)
    requires Flattenable(payload) && IsFlattening(payload, f)
    ensures f.payload.Object? && (IsHeader(f.payload) <==> IsHeader(payload))
  {
    hide Decimal, IsFee, IsFlattening;
    FlattenedFields(payload, f);
    forall k | k in HEADER
      ensures (k in f.payload.members <==> k in payload.members)
           && (k in payload.members ==> f.payload.members[k] == payload.members[k])
    {
      HeaderIsNoMsg(k, 0);
      forall j | 0 <= j < f.numMsgs ensures k != "msg" + Decimal(j) {
        HeaderIsNoMsg(k, j);
      }
    }
    assert HEADER[0] == "account_number" && HEADER[1] == "chain_id" && HEADER[2] == "fee";
    assert HEADER[3] == "memo" && HEADER[4] == "sequence";
  }

  ghost predicate MsgFieldOk(types: Schema, f: Flattened, j: nat)
    requires f.payload.Object? && TX in types && 5 + j < |types[TX]|
  {
    IsFieldValue(types, types[TX][5 + j], f.payload)
  }

  lemma MsgFieldValue(types: Schema, f: Flattened, msg: Json, j: nat)
    requires TxShape(types, f.numMsgs) && j < f.numMsgs && f.payload.Object?
    requires var k := "msg" + Decimal(j); k in f.payload.members && f.payload.members[k] == msg
    ensures MsgFieldOk(types, f, j) <==> IsValue(types, types[TX][5 + j].typ, msg)
  {
    hide Decimal, IsValue;
  }

  lemma FieldsSplit(types: Schema, f: Flattened)
    requires TX in types && |types[TX]| == 5 + f.numMsgs && f.payload.Object?
    ensures (forall i :: 0 <= i < |types[TX]| ==> IsFieldValue(types, types[TX][i], f.payload)) <==>
            && (forall i :: 0 <= i < 5 ==> IsFieldValue(types, types[TX][i], f.payload))
            && (forall j :: 0 <= j < f.numMsgs ==> MsgFieldOk(types, f, j))
  {
    hide IsFieldValue;
    if forall j :: 0 <= j < f.numMsgs ==> MsgFieldOk(types, f, j) {
      forall i | 5 <= i < |types[TX]| ensures IsFieldValue(types, types[TX][i], f.payload) {
        assert MsgFieldOk(types, f, i - 5);
      }
    }
  }
}
