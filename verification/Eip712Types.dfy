/** Type inference for EIP-712 signing (ethereum/eip712/types.go): a JSON payload is
    compiled to named struct types held in one shared map that is only ever extended. */
module Eip712Types {
  import opened Numbers
  import opened Wrappers
  import opened Eip712Names

  datatype TypedField = TypedField(name: string, typ: string)

  type Schema = map<string, seq<TypedField>>

  const TX := "Tx"
  const MAX_DUPLICATE_TYPE_DEFS := 1000

  // ------------------------------------------------------------------
  // Specification functions: what a run of the inference does to the map
  // ------------------------------------------------------------------

  /** How a field value is represented: arrays stand for their first element. */
  datatype Shape = Dropped | Primitive(typ: string) | Nested(elem: Json, isArray: bool)

  function EthTypeForJSON(json: Json): (typ: string) {
    match json
    case Bool(_) => "bool"
    case Number(_) => "int64"
    case String(_) => "string"
    case _ => ""
  }

  function Brackets(isArray: bool): (s: string) { if isArray then "[]" else "" }

  function ElementShape(json: Json, isArray: bool): (s: Shape) {
    if EthTypeForJSON(json) != "" then Primitive(EthTypeForJSON(json) + Brackets(isArray))
    else if json.Object? then Nested(json, isArray)
    else Dropped
  }

  function ShapeOf(json: Json): (s: Shape)
    ensures s.Nested? ==> s.elem.Object? && (s.elem == json || s.elem < json)
  {
    if json == Array([]) then Primitive("string[]")
    else if json.Array? then ElementShape(json.items[0], true)
    else ElementShape(json, false)
  }

  /** The map after a run, and the key returned unless the run failed. */
  datatype Keyed = Keyed(types: Schema, key: Option<string>)

  datatype Listed = Listed(types: Schema, fields: Option<seq<TypedField>>)

  /** addTypesToRoot from index `i` on: reuse an identical definition, else take the first free name. */
  function FirstFit(types: Schema, typeDef: string, fields: seq<TypedField>, i: nat): (r: Keyed)
    decreases MAX_DUPLICATE_TYPE_DEFS - i
  {
    var key := TypeDefWithIndex(typeDef, i);
    if key !in types then Keyed(types[key := fields], Some(key))
    else if types[key] == fields then Keyed(types, Some(key))
    else if i + 1 >= MAX_DUPLICATE_TYPE_DEFS then Keyed(types, None)
    else FirstFit(types, typeDef, fields, i + 1)
  }

  /** recursivelyAddTypesToRoot */
  ghost function Infer(types: Schema, root: string, prefix: string, json: Json): (r: Keyed)
    decreases json, 1, 0
  {
    if !json.Object? then Keyed(types, None)
    else
      var listed := InferFields(types, root, prefix, json, SortedKeys(json.members.Keys));
      if listed.fields.None? then Keyed(listed.types, None)
      else FirstFit(listed.types, TypeDefForPrefix(prefix, root), listed.fields.value, 0)
  }

  /** Its loop over the remaining field names. */
  ghost function InferFields(types: Schema, root: string, prefix: string, json: Json, names: seq<string>): (r: Listed)
    requires json.Object? && forall n :: n in names ==> n in json.members
    decreases json, 0, |names|
  {
    if names == [] then Listed(types, Some([]))
    else
      match ShapeOf(json.members[names[0]])
      case Dropped => InferFields(types, root, prefix, json, names[1..])
      case Primitive(typ) =>
        Prepend(TypedField(names[0], typ), InferFields(types, root, prefix, json, names[1..]))
      case Nested(elem, isArray) =>
        var sub := Infer(types, root, PrefixForSubField(prefix, names[0]), elem);
        if sub.key.None? then Listed(sub.types, None)
        else
          Prepend(TypedField(names[0], Sanitize(sub.key.value) + Brackets(isArray)),
                  InferFields(sub.types, root, prefix, json, names[1..]))
  }

  function Prepend(f: TypedField, rest: Listed): (r: Listed) {
    if rest.fields.None? then rest else Listed(rest.types, Some([f] + rest.fields.value))
  }

  // ------------------------------------------------------------------
  // The map is only extended
  // ------------------------------------------------------------------

  /** Every definition other than Tx is kept, and Tx at most grows at its end. */
  ghost predicate Extends(old_: Schema, new_: Schema) {
    && (forall k :: k in old_ && k != TX ==> k in new_ && new_[k] == old_[k])
    && (TX in old_ ==> TX in new_ && old_[TX] <= new_[TX])
  }

  lemma ExtendsTransitive(a: Schema, b: Schema, c: Schema)
    requires Extends(a, b) && Extends(b, c)
    ensures Extends(a, c)
  {
  }

  /** Generated names start with "Type", so they never meet a predefined type. */
  ghost predicate Generated(name: string) { TYPE_PREFIX <= name }

  ghost predicate ValidContext(root: string, prefix: string) {
    Generated(root) && (prefix == ROOT_PREFIX || IsSubPrefix(prefix))
  }

  lemma ContextIsGenerated(root: string, prefix: string, i: nat)
    requires ValidContext(root, prefix)
    ensures var key := TypeDefWithIndex(TypeDefForPrefix(prefix, root), i); Generated(key) && key != TX
  {
    if prefix != ROOT_PREFIX {
      SubPrefixIsTyped(prefix);
    }
    var key := TypeDefWithIndex(TypeDefForPrefix(prefix, root), i);
    assert key[1] == TYPE_PREFIX[1] != TX[1];
  }

  lemma SubContext(root: string, prefix: string, name: string)
    requires ValidContext(root, prefix)
    ensures ValidContext(root, PrefixForSubField(prefix, name)) && IsSubPrefix(PrefixForSubField(prefix, name))
  {
    var sub := PrefixForSubField(prefix, name);
    assert sub[..2] == "_.";
  }

  /** Where first fit ends: at the first index that is free or already holds these fields. */
  lemma {:induction false} FirstFitStops(types: Schema, typeDef: string, fields: seq<TypedField>, i: nat)
    returns (n: nat)
    requires i < MAX_DUPLICATE_TYPE_DEFS
    ensures i <= n <= MAX_DUPLICATE_TYPE_DEFS
    ensures forall j :: i <= j < n ==>
              var key := TypeDefWithIndex(typeDef, j); key in types && types[key] != fields
    ensures FirstFit(types, typeDef, fields, i) ==
            if n == MAX_DUPLICATE_TYPE_DEFS then Keyed(types, None)
            else Keyed(types[TypeDefWithIndex(typeDef, n) := fields], Some(TypeDefWithIndex(typeDef, n)))
    ensures n < MAX_DUPLICATE_TYPE_DEFS ==>
              var key := TypeDefWithIndex(typeDef, n); key !in types || types[key] == fields
    decreases MAX_DUPLICATE_TYPE_DEFS - i
  {
    hide TypeDefWithIndex;
    var key := TypeDefWithIndex(typeDef, i);
    if key !in types || types[key] == fields {
      n := i;
      assert key in types ==> types[key := fields] == types;
    } else if i + 1 >= MAX_DUPLICATE_TYPE_DEFS {
      n := i + 1;
    } else {
      n := FirstFitStops(types, typeDef, fields, i + 1);
    }
  }

  lemma {:induction false} FirstFitAgain(types: Schema, typeDef: string, fields: seq<TypedField>, i: nat, n: nat)
    requires i <= n < MAX_DUPLICATE_TYPE_DEFS
    requires forall j :: i <= j < n ==>
               var key := TypeDefWithIndex(typeDef, j); key in types && types[key] != fields
    requires var key := TypeDefWithIndex(typeDef, n); key in types && types[key] == fields
    ensures FirstFit(types, typeDef, fields, i) == Keyed(types, Some(TypeDefWithIndex(typeDef, n)))
    decreases n - i
  {
    hide TypeDefWithIndex;
    if i < n {
      var key := TypeDefWithIndex(typeDef, i);
      assert key in types && types[key] != fields;
      FirstFitAgain(types, typeDef, fields, i + 1, n);
    }
  }

  /** Insertion fails exactly when all thousand names are taken by other definitions. */
  lemma InsertionFails(types: Schema, typeDef: string, fields: seq<TypedField>)
    ensures FirstFit(types, typeDef, fields, 0).key.None?
       <==> forall i :: 0 <= i < 1000 ==>
              var key := TypeDefWithIndex(typeDef, i); key in types && types[key] != fields
  {
    hide TypeDefWithIndex, FirstFit;
    var n := FirstFitStops(types, typeDef, fields, 0);
    if n < MAX_DUPLICATE_TYPE_DEFS {
      var key := TypeDefWithIndex(typeDef, n);
      assert key !in types || types[key] == fields;
    }
  }

  /** A successful insertion binds the returned key to the given fields. */
  lemma FirstFitInserts(types: Schema, root: string, prefix: string, fields: seq<TypedField>)
    requires ValidContext(root, prefix)
    ensures var r := FirstFit(types, TypeDefForPrefix(prefix, root), fields, 0);
            && Extends(types, r.types) && (TX in types ==> r.types[TX] == types[TX])
            && (r.key.Some? ==>
                  && r.key.value in r.types && r.types[r.key.value] == fields
                  && Generated(r.key.value) && r.key.value != TX
                  && (IsSubPrefix(prefix) ==> Sanitize(r.key.value) == r.key.value))
  {
    hide Sanitize, TypeDefWithIndex, TypeDefForPrefix, FirstFit, Generated;
    var n := FirstFitStops(types, TypeDefForPrefix(prefix, root), fields, 0);
    if n < MAX_DUPLICATE_TYPE_DEFS {
      ContextIsGenerated(root, prefix, n);
      if IsSubPrefix(prefix) {
        SubPrefixTypeDef(prefix, root);
        NestedKeySanitized(prefix, n);
      }
    }
  }

  lemma SubPrefixTypeDef(prefix: string, root: string)
    requires IsSubPrefix(prefix)
    ensures TypeDefForPrefix(prefix, root) == Sanitize(prefix)
  {
  }

  lemma {:induction false} InferExtends(types: Schema, root: string, prefix: string, json: Json)
    requires ValidContext(root, prefix)
    ensures var r := Infer(types, root, prefix, json);
            && Extends(types, r.types) && (TX in types ==> r.types[TX] == types[TX])
            && (r.key.Some? ==>
                  && r.key.value in r.types && Generated(r.key.value) && r.key.value != TX
                  && (IsSubPrefix(prefix) ==> Sanitize(r.key.value) == r.key.value))
    decreases json, 1, 0
  {
    hide Sanitize, FirstFit, ValidContext, Generated;
    if json.Object? {
      var listed := InferFields(types, root, prefix, json, SortedKeys(json.members.Keys));
      InferFieldsExtends(types, root, prefix, json, SortedKeys(json.members.Keys));
      if listed.fields.Some? {
        FirstFitInserts(listed.types, root, prefix, listed.fields.value);
      }
    }
  }

  lemma {:induction false} InferFieldsExtends(types: Schema, root: string, prefix: string, json: Json,
                                              names: seq<string>)
    requires ValidContext(root, prefix)
    requires json.Object? && forall n :: n in names ==> n in json.members
    ensures var r := InferFields(types, root, prefix, json, names);
            Extends(types, r.types) && (TX in types ==> r.types[TX] == types[TX])
    decreases json, 0, |names|
  {
    hide Sanitize, FirstFit, ValidContext, Infer;
    if names == [] {
    } else {
      match ShapeOf(json.members[names[0]])
      case Dropped => InferFieldsExtends(types, root, prefix, json, names[1..]);
      case Primitive(_) => InferFieldsExtends(types, root, prefix, json, names[1..]);
      case Nested(elem, _) =>
        SubContext(root, prefix, names[0]);
        var sub := Infer(types, root, PrefixForSubField(prefix, names[0]), elem);
        InferExtends(types, root, PrefixForSubField(prefix, names[0]), elem);
        InferFieldsExtends(sub.types, root, prefix, json, names[1..]);
    }
  }

  // ------------------------------------------------------------------
  // Schema soundness: the typing judgement the generated map satisfies
  // ------------------------------------------------------------------

  /** A value EIP-712 can carry: not null, and no array headed by null or by an array. */
  predicate IsRepresentable(v: Json) {
    match v
    case Null => false
    case Array(items) => items == [] || !(items[0].Null? || items[0].Array?)
    case _ => true
  }

  function Representable(members: map<string, Json>, names: seq<string>): (r: seq<string>)
    requires forall n :: n in names ==> n in members
  {
    if names == [] then []
    else if !IsRepresentable(members[names[0]]) then Representable(members, names[1..])
    else [names[0]] + Representable(members, names[1..])
  }

  function FieldNames(fields: seq<TypedField>): (r: seq<string>) {
    if fields == [] then [] else [fields[0].name] + FieldNames(fields[1..])
  }

  /** The typing judgement: `v` is a value of the type named `typ`; an array has the type of its head. */
  ghost predicate HasType(types: Schema, typ: string, v: Json)
    decreases v, 2
  {
    match v
    case Null => false
    case Bool(_) => typ == "bool"
    case Number(_) => typ == "int64"
    case String(_) => typ == "string"
    case Array(items) =>
      if items == [] then typ == "string[]"
      else !items[0].Array? && exists elem :: typ == elem + "[]" && HasType(types, elem, items[0])
    case Object(_) => Describes(types, typ, v)
  }

  /** `key` names a struct type with exactly the representable fields of the object, in
      descending order, each of a type its value has. */
  ghost predicate Describes(types: Schema, key: string, json: Json)
    decreases json, 1
  {
    && json.Object? && key != TX && key in types
    && FieldNames(types[key]) == Representable(json.members, SortedKeys(json.members.Keys))
    && forall i :: 0 <= i < |types[key]| ==> FieldFits(types, types[key][i], json)
  }

  ghost predicate FieldFits(types: Schema, f: TypedField, json: Json)
    requires json.Object?
    decreases json, 0
  {
    f.name in json.members && HasType(types, f.typ, json.members[f.name])
  }

  lemma {:induction false} HasTypeKept(types: Schema, types': Schema, typ: string, v: Json)
    requires Extends(types, types') && HasType(types, typ, v)
    ensures HasType(types', typ, v)
    decreases v, 2
  {
    match v
    case Bool(_) =>
    case Number(_) =>
    case String(_) =>
    case Array(items) =>
      if items != [] {
        var elem :| typ == elem + "[]" && HasType(types, elem, items[0]);
        HasTypeKept(types, types', elem, items[0]);
      }
    case Object(_) => DescribesKept(types, types', typ, v);
  }

  lemma {:induction false} DescribesKept(types: Schema, types': Schema, key: string, json: Json)
    requires Extends(types, types') && Describes(types, key, json)
    ensures Describes(types', key, json)
    decreases json, 1
  {
    hide HasType;
    forall i | 0 <= i < |types[key]| ensures FieldFits(types', types[key][i], json) {
      FieldFitsKept(types, types', types[key][i], json);
    }
  }

  lemma {:induction false} FieldFitsKept(types: Schema, types': Schema, f: TypedField, json: Json)
    requires Extends(types, types') && json.Object? && FieldFits(types, f, json)
    ensures FieldFits(types', f, json)
    decreases json, 0
  {
    HasTypeKept(types, types', f.typ, json.members[f.name]);
  }

  /** The shapes the code distinguishes agree with the judgement. */
  lemma ShapeAgrees(types: Schema, v: Json)
    ensures ShapeOf(v).Dropped? <==> !IsRepresentable(v)
    ensures ShapeOf(v).Primitive? ==> HasType(types, ShapeOf(v).typ, v)
  {
    hide Describes;
    if v.Array? && v.items != [] && ShapeOf(v).Primitive? {
      assert HasType(types, EthTypeForJSON(v.items[0]), v.items[0]);
    } else if ShapeOf(v).Primitive? {
      assert EthTypeForJSON(v) + "" == EthTypeForJSON(v);
    }
  }

  lemma NestedHasType(types: Schema, key: string, v: Json)
    requires ShapeOf(v).Nested? && Describes(types, key, ShapeOf(v).elem)
    ensures HasType(types, key + Brackets(ShapeOf(v).isArray), v)
  {
    hide Describes;
    if v.Array? {
      assert HasType(types, key, v.items[0]);
    } else {
      assert key + "" == key;
    }
  }

  lemma {:induction false} InferSound(types: Schema, root: string, prefix: string, json: Json)
    requires ValidContext(root, prefix)
    ensures var r := Infer(types, root, prefix, json);
            r.key.Some? ==> Describes(r.types, r.key.value, json)
    decreases json, 1, 0
  {
    hide Sanitize, FirstFit, FieldFits, ValidContext, Generated;
    if json.Object? {
      var names := SortedKeys(json.members.Keys);
      var listed := InferFields(types, root, prefix, json, names);
      InferFieldsSound(types, root, prefix, json, names);
      if listed.fields.Some? {
        var fields := listed.fields.value;
        FirstFitInserts(listed.types, root, prefix, fields);
        var r := FirstFit(listed.types, TypeDefForPrefix(prefix, root), fields, 0);
        forall i | 0 <= i < |fields| ensures FieldFits(r.types, fields[i], json) {
          FieldFitsKept(listed.types, r.types, fields[i], json);
        }
      }
    }
  }

  ghost predicate AllFit(types: Schema, fields: seq<TypedField>, json: Json)
    requires json.Object?
  {
    forall i :: 0 <= i < |fields| ==> FieldFits(types, fields[i], json)
  }

  lemma {:induction false} InferFieldsSound(types: Schema, root: string, prefix: string, json: Json, names: seq<string>)
    requires ValidContext(root, prefix)
    requires json.Object? && forall n :: n in names ==> n in json.members
    ensures var r := InferFields(types, root, prefix, json, names);
            r.fields.Some? ==>
              && FieldNames(r.fields.value) == Representable(json.members, names)
              && AllFit(r.types, r.fields.value, json)
    decreases json, 0, |names|
  {
    hide Sanitize, FirstFit, ValidContext, Infer, Generated, Describes, HasType, IsRepresentable;
    if names == [] {
    } else {
      var name := names[0];
      ShapeAgrees(InferFields(types, root, prefix, json, names).types, json.members[name]);
      match ShapeOf(json.members[name])
      case Dropped => InferFieldsSound(types, root, prefix, json, names[1..]);
      case Primitive(typ) =>
        InferFieldsSound(types, root, prefix, json, names[1..]);
        PrependFits(TypedField(name, typ), InferFields(types, root, prefix, json, names[1..]), json);
      case Nested(elem, isArray) =>
        var subPrefix := PrefixForSubField(prefix, name);
        SubContext(root, prefix, name);
        var sub := Infer(types, root, subPrefix, elem);
        InferExtends(types, root, subPrefix, elem);
        InferSound(types, root, subPrefix, elem);
        if sub.key.Some? {
          var f := TypedField(name, sub.key.value + Brackets(isArray));
          NestedHasType(sub.types, sub.key.value, json.members[name]);
          var rest := InferFields(sub.types, root, prefix, json, names[1..]);
          InferFieldsExtends(sub.types, root, prefix, json, names[1..]);
          InferFieldsSound(sub.types, root, prefix, json, names[1..]);
          FieldFitsKept(sub.types, rest.types, f, json);
          PrependFits(f, rest, json);
        }
    }
  }

  lemma PrependFits(f: TypedField, rest: Listed, json: Json)
    requires json.Object? && FieldFits(rest.types, f, json)
    requires rest.fields.Some? ==> AllFit(rest.types, rest.fields.value, json)
    ensures var r := Prepend(f, rest);
            r.fields.Some? ==>
              && AllFit(r.types, r.fields.value, json)
              && FieldNames(r.fields.value) == [f.name] + FieldNames(rest.fields.value)
  {
    hide FieldFits;
    if rest.fields.Some? {
      assert ([f] + rest.fields.value)[1..] == rest.fields.value;
    }
  }

  // ------------------------------------------------------------------
  // Stability: running the inference again on any extension of its result
  // ------------------------------------------------------------------

  lemma FirstFitStable(types: Schema, root: string, prefix: string, fields: seq<TypedField>, later: Schema)
    requires ValidContext(root, prefix)
    requires var r := FirstFit(types, TypeDefForPrefix(prefix, root), fields, 0);
             r.key.Some? && Extends(r.types, later)
    ensures FirstFit(later, TypeDefForPrefix(prefix, root), fields, 0) ==
            Keyed(later, FirstFit(types, TypeDefForPrefix(prefix, root), fields, 0).key)
  {
    hide FirstFit, TypeDefWithIndex, TypeDefForPrefix, ValidContext;
    var typeDef := TypeDefForPrefix(prefix, root);
    var n := FirstFitStops(types, typeDef, fields, 0);
    FirstFitInserts(types, root, prefix, fields);
    forall j | 0 <= j < n
      ensures var key := TypeDefWithIndex(typeDef, j); key in later && later[key] != fields
    {
      var key := TypeDefWithIndex(typeDef, j);
      ContextIsGenerated(root, prefix, j);
      assert key in types && types[key] != fields;
    }
    ContextIsGenerated(root, prefix, n);
    FirstFitAgain(later, typeDef, fields, 0, n);
  }

  lemma {:induction false} InferStable(types: Schema, root: string, prefix: string, json: Json, later: Schema)
    requires ValidContext(root, prefix)
    requires Infer(types, root, prefix, json).key.Some?
    requires Extends(Infer(types, root, prefix, json).types, later)
    ensures Infer(later, root, prefix, json) == Keyed(later, Infer(types, root, prefix, json).key)
    decreases json, 1, 0
  {
    hide FirstFit, TypeDefForPrefix, ValidContext;
    var names := SortedKeys(json.members.Keys);
    var listed := InferFields(types, root, prefix, json, names);
    FirstFitInserts(listed.types, root, prefix, listed.fields.value);
    ExtendsTransitive(listed.types, Infer(types, root, prefix, json).types, later);
    InferFieldsStable(types, root, prefix, json, names, later);
    FirstFitStable(listed.types, root, prefix, listed.fields.value, later);
  }

  lemma {:induction false} InferFieldsStable(
    types: Schema, root: string, prefix: string, json: Json, names: seq<string>, later: Schema)
    requires ValidContext(root, prefix)
    requires json.Object? && forall n :: n in names ==> n in json.members
    requires InferFields(types, root, prefix, json, names).fields.Some?
    requires Extends(InferFields(types, root, prefix, json, names).types, later)
    ensures InferFields(later, root, prefix, json, names) ==
            Listed(later, InferFields(types, root, prefix, json, names).fields)
    decreases json, 0, |names|
  {
    hide Infer, Sanitize, ValidContext;
    if names == [] {
    } else {
      match ShapeOf(json.members[names[0]])
      case Dropped => InferFieldsStable(types, root, prefix, json, names[1..], later);
      case Primitive(_) => InferFieldsStable(types, root, prefix, json, names[1..], later);
      case Nested(elem, _) =>
        var subPrefix := PrefixForSubField(prefix, names[0]);
        SubContext(root, prefix, names[0]);
        var sub := Infer(types, root, subPrefix, elem);
        InferFieldsExtends(sub.types, root, prefix, json, names[1..]);
        ExtendsTransitive(sub.types, InferFields(sub.types, root, prefix, json, names[1..]).types, later);
        InferStable(types, root, subPrefix, elem, later);
        InferFieldsStable(sub.types, root, prefix, json, names[1..], later);
    }
  }

  // ------------------------------------------------------------------
  // No type reference dangles
  // ------------------------------------------------------------------

  predicate IsBuiltin(typ: string) { typ in ["string", "bool", "int64", "uint256"] }

  predicate RefersTo(types: Schema, typ: string, base: string) {
    (typ == base || typ == base + "[]") && (IsBuiltin(base) || base in types)
  }

  ghost predicate Resolves(types: Schema, typ: string) {
    exists base :: RefersTo(types, typ, base)
  }

  ghost predicate AllResolve(types: Schema, fields: seq<TypedField>) {
    forall i :: 0 <= i < |fields| ==> Resolves(types, fields[i].typ)
  }

  ghost predicate WellScoped(types: Schema) {
    forall k :: k in types ==> AllResolve(types, types[k])
  }

  lemma AllResolveKept(types: Schema, types': Schema, fields: seq<TypedField>)
    requires Extends(types, types') && AllResolve(types, fields)
    ensures AllResolve(types', fields)
  {
    hide IsBuiltin;
    forall i | 0 <= i < |fields| ensures Resolves(types', fields[i].typ) {
      var base :| RefersTo(types, fields[i].typ, base);
      assert RefersTo(types', fields[i].typ, base);
    }
  }

  lemma PrimitiveResolves(types: Schema, json: Json)
    requires ShapeOf(json).Primitive?
    ensures Resolves(types, ShapeOf(json).typ)
  {
    var elem := if json.Array? && json.items != [] then json.items[0] else json;
    var base := if json == Array([]) then "string" else EthTypeForJSON(elem);
    assert EthTypeForJSON(elem) + "" == EthTypeForJSON(elem);
    assert RefersTo(types, ShapeOf(json).typ, base);
  }

  lemma FirstFitScoped(types: Schema, root: string, prefix: string, fields: seq<TypedField>)
    requires ValidContext(root, prefix) && WellScoped(types) && AllResolve(types, fields)
    ensures WellScoped(FirstFit(types, TypeDefForPrefix(prefix, root), fields, 0).types)
  {
    hide FirstFit, TypeDefForPrefix, TypeDefWithIndex, ValidContext, Resolves;
    var r := FirstFit(types, TypeDefForPrefix(prefix, root), fields, 0);
    FirstFitInserts(types, root, prefix, fields);
    var n := FirstFitStops(types, TypeDefForPrefix(prefix, root), fields, 0);
    forall k | k in r.types ensures AllResolve(r.types, r.types[k]) {
      AllResolveKept(types, r.types, r.types[k]);
    }
  }

  lemma {:induction false} InferScoped(types: Schema, root: string, prefix: string, json: Json)
    requires ValidContext(root, prefix) && WellScoped(types)
    ensures WellScoped(Infer(types, root, prefix, json).types)
    decreases json, 1, 0
  {
    hide FirstFit, TypeDefForPrefix, ValidContext, WellScoped;
    if json.Object? {
      var names := SortedKeys(json.members.Keys);
      InferFieldsScoped(types, root, prefix, json, names);
      var listed := InferFields(types, root, prefix, json, names);
      if listed.fields.Some? {
        FirstFitScoped(listed.types, root, prefix, listed.fields.value);
      }
    }
  }

  lemma {:induction false} InferFieldsScoped(types: Schema, root: string, prefix: string, json: Json,
                                             names: seq<string>)
    requires ValidContext(root, prefix) && WellScoped(types)
    requires json.Object? && forall n :: n in names ==> n in json.members
    ensures var r := InferFields(types, root, prefix, json, names);
            WellScoped(r.types) && (r.fields.Some? ==> AllResolve(r.types, r.fields.value))
    decreases json, 0, |names|
  {
    hide Infer, Sanitize, ValidContext, WellScoped, Resolves;
    if names == [] {
    } else {
      match ShapeOf(json.members[names[0]])
      case Dropped => InferFieldsScoped(types, root, prefix, json, names[1..]);
      case Primitive(_) =>
        InferFieldsScoped(types, root, prefix, json, names[1..]);
        PrimitiveResolves(InferFields(types, root, prefix, json, names[1..]).types, json.members[names[0]]);
      case Nested(elem, isArray) =>
        var subPrefix := PrefixForSubField(prefix, names[0]);
        SubContext(root, prefix, names[0]);
        var sub := Infer(types, root, subPrefix, elem);
        InferExtends(types, root, subPrefix, elem);
        InferScoped(types, root, subPrefix, elem);
        InferFieldsScoped(sub.types, root, prefix, json, names[1..]);
        InferFieldsExtends(sub.types, root, prefix, json, names[1..]);
        if sub.key.Some? {
          KeyResolves(InferFields(sub.types, root, prefix, json, names[1..]).types, sub.key.value, isArray);
        }
    }
  }

  lemma KeyResolves(types: Schema, key: string, isArray: bool)
    requires key in types
    ensures Resolves(types, key + Brackets(isArray))
  {
    assert key + "" == key;
    assert RefersTo(types, key + Brackets(isArray), key);
  }

  // ------------------------------------------------------------------
  // A whole payload
  // ------------------------------------------------------------------

  const INITIAL: Schema := map[
    "EIP712Domain" := [
      TypedField("name", "string"),
      TypedField("version", "string"),
      TypedField("chainId", "uint256"),
      TypedField("verifyingContract", "string"),
      TypedField("salt", "string")],
    "Tx" := [
      TypedField("account_number", "string"),
      TypedField("chain_id", "string"),
      TypedField("fee", "Fee"),
      TypedField("memo", "string"),
      TypedField("sequence", "string")],
    "Fee" := [
      TypedField("amount", "Coin[]"),
      TypedField("gas", "string")],
    "Coin" := [
      TypedField("denom", "string"),
      TypedField("amount", "string")]
  ]

  function MsgFieldForIndex(i: nat): (field: string) { "msg" + Decimal(i) }

  function Get(json: Json, name: string): (r: Json) {
    if json.Object? && name in json.members then json.members[name] else Null
  }

  function MsgRootType(msg: Json): (r: Option<string>)
    ensures r.Some? ==> Generated(r.value)
  {
    var typ := Get(msg, "type");
    if typ.String? && typ.s != "" then
      var tokens := Split(typ.s, '/');
      Some(TYPE_PREFIX + tokens[|tokens| - 1])
    else None
  }

  datatype Added = Added(types: Schema, ok: bool)

  /** addMsgTypesToRoot */
  ghost function AddMsg(types: Schema, msgField: string, msg: Json): (r: Added) {
    if !msg.Object? then Added(types, false)
    else
      match MsgRootType(msg)
      case None => Added(types, false)
      case Some(root) =>
        var keyed := Infer(types, root, ROOT_PREFIX, msg);
        if keyed.key.None? then Added(keyed.types, false)
        else Added(AppendToTx(keyed.types, msgField, keyed.key.value), true)
  }

  function AppendToTx(types: Schema, msgField: string, msgTypeDef: string): (r: Schema) {
    var fields := if TX in types then types[TX] else [];
    types[TX := fields + [TypedField(msgField, msgTypeDef)]]
  }

  ghost function AddMsgs(types: Schema, payload: Json, i: nat, n: nat): (r: Added)
    requires i <= n
    decreases n - i
  {
    if i == n then Added(types, true)
    else
      var one := AddMsg(types, MsgFieldForIndex(i), Get(payload, MsgFieldForIndex(i)));
      if one.ok then AddMsgs(one.types, payload, i + 1, n) else one
  }

  /** Tx field `first + j` is message `j`: it names a type that describes the message, and
      inferring the message again finds that very type and changes nothing. */
  ghost predicate MsgTyped(types: Schema, payload: Json, first: nat, j: nat) {
    var msg := Get(payload, MsgFieldForIndex(j));
    && TX in types && first + j < |types[TX]|
    && var f := types[TX][first + j];
       && f.name == MsgFieldForIndex(j)
       && Describes(types, f.typ, msg)
       && MsgRootType(msg).Some?
       && Infer(types, MsgRootType(msg).value, ROOT_PREFIX, msg) == Keyed(types, Some(f.typ))
  }

  lemma AddMsgTyped(types: Schema, payload: Json, first: nat, j: nat)
    requires TX in types && |types[TX]| == first + j && WellScoped(types)
    requires AddMsg(types, MsgFieldForIndex(j), Get(payload, MsgFieldForIndex(j))).ok
    ensures var r := AddMsg(types, MsgFieldForIndex(j), Get(payload, MsgFieldForIndex(j)));
            && Extends(types, r.types) && WellScoped(r.types)
            && |r.types[TX]| == first + j + 1
            && MsgTyped(r.types, payload, first, j)
  {
    hide Infer, Describes, Resolves, Generated;
    var msg := Get(payload, MsgFieldForIndex(j));
    var root := MsgRootType(msg).value;
    var keyed := Infer(types, root, ROOT_PREFIX, msg);
    var f := TypedField(MsgFieldForIndex(j), keyed.key.value);
    var final := AppendToTx(keyed.types, MsgFieldForIndex(j), keyed.key.value);
    InferExtends(types, root, ROOT_PREFIX, msg);
    InferSound(types, root, ROOT_PREFIX, msg);
    DescribesKept(keyed.types, final, keyed.key.value, msg);
    InferStable(types, root, ROOT_PREFIX, msg, final);
    InferScoped(types, root, ROOT_PREFIX, msg);
    KeyResolves(final, keyed.key.value, false);
    assert f.typ + "" == f.typ;
    forall k | k in final ensures AllResolve(final, final[k]) {
      AllResolveKept(keyed.types, final, keyed.types[k]);
    }
  }

  lemma MsgTypedKept(types: Schema, types': Schema, payload: Json, first: nat, j: nat)
    requires Extends(types, types') && MsgTyped(types, payload, first, j)
    ensures MsgTyped(types', payload, first, j)
  {
    hide Infer, Describes;
    var msg := Get(payload, MsgFieldForIndex(j));
    var f := types[TX][first + j];
    assert types'[TX][first + j] == f;
    DescribesKept(types, types', f.typ, msg);
    InferStable(types, MsgRootType(msg).value, ROOT_PREFIX, msg, types');
  }

  lemma {:induction false} AddMsgsTyped(types: Schema, payload: Json, first: nat, i: nat, n: nat)
    requires i <= n && TX in types && |types[TX]| == first + i && WellScoped(types)
    requires AddMsgs(types, payload, i, n).ok
    ensures var r := AddMsgs(types, payload, i, n).types;
            && Extends(types, r) && WellScoped(r)
            && |r[TX]| == first + n
            && forall j :: i <= j < n ==> MsgTyped(r, payload, first, j)
    decreases n - i
  {
    hide AddMsg, MsgTyped, WellScoped, MsgFieldForIndex;
    if i == n {
    } else {
      var one := AddMsg(types, MsgFieldForIndex(i), Get(payload, MsgFieldForIndex(i)));
      AddMsgTyped(types, payload, first, i);
      AddMsgsTyped(one.types, payload, first, i + 1, n);
      MsgTypedKept(one.types, AddMsgs(one.types, payload, i + 1, n).types, payload, first, i);
    }
  }

  lemma InitialScoped()
    ensures WellScoped(INITIAL)
  {
    assert RefersTo(INITIAL, "Coin[]", "Coin") by { assert "Coin" + "[]" == "Coin[]"; }
    assert RefersTo(INITIAL, "Fee", "Fee");
    assert RefersTo(INITIAL, "string", "string");
    assert RefersTo(INITIAL, "uint256", "uint256");
  }

  /** After a whole payload: the predefined types are intact, message i is field 5 + i of Tx and is
      described by its type, inferring it again changes nothing, and no reference dangles. */
  lemma PayloadTyped(payload: Json, n: nat)
    requires AddMsgs(INITIAL, payload, 0, n).ok
    ensures var r := AddMsgs(INITIAL, payload, 0, n).types;
            && Extends(INITIAL, r) && WellScoped(r)
            && |r[TX]| == 5 + n
            && forall j :: 0 <= j < n ==> MsgTyped(r, payload, 5, j)
  {
    hide AddMsg, MsgTyped, WellScoped, MsgFieldForIndex;
    InitialScoped();
    AddMsgsTyped(INITIAL, payload, 5, 0, n);
  }

  // ------------------------------------------------------------------
  // The only way an object fails
  // ------------------------------------------------------------------

  ghost predicate Exhausted(types: Schema, typeDef: string) {
    forall i :: 0 <= i < MAX_DUPLICATE_TYPE_DEFS ==> TypeDefWithIndex(typeDef, i) in types
  }

  lemma {:induction false} InferFailsExhausted(types: Schema, root: string, prefix: string, json: Json)
    requires json.Object? && Infer(types, root, prefix, json).key.None?
    ensures exists typeDef :: Exhausted(Infer(types, root, prefix, json).types, typeDef)
    decreases json, 1, 0
  {
    hide FirstFit, TypeDefForPrefix, TypeDefWithIndex;
    var names := SortedKeys(json.members.Keys);
    var listed := InferFields(types, root, prefix, json, names);
    if listed.fields.None? {
      InferFieldsFailExhausted(types, root, prefix, json, names);
    } else {
      var typeDef := TypeDefForPrefix(prefix, root);
      InsertionFails(listed.types, typeDef, listed.fields.value);
      var n := FirstFitStops(listed.types, typeDef, listed.fields.value, 0);
      assert Exhausted(listed.types, typeDef);
    }
  }

  lemma {:induction false} InferFieldsFailExhausted(
    types: Schema, root: string, prefix: string, json: Json, names: seq<string>)
    requires json.Object? && forall n :: n in names ==> n in json.members
    requires InferFields(types, root, prefix, json, names).fields.None?
    ensures exists typeDef :: Exhausted(InferFields(types, root, prefix, json, names).types, typeDef)
    decreases json, 0, |names|
  {
    hide Infer, Exhausted;
    match ShapeOf(json.members[names[0]])
    case Dropped => InferFieldsFailExhausted(types, root, prefix, json, names[1..]);
    case Primitive(_) => InferFieldsFailExhausted(types, root, prefix, json, names[1..]);
    case Nested(elem, _) =>
      var sub := Infer(types, root, PrefixForSubField(prefix, names[0]), elem);
      if sub.key.None? {
        InferFailsExhausted(types, root, PrefixForSubField(prefix, names[0]), elem);
      } else {
        InferFieldsFailExhausted(sub.types, root, prefix, json, names[1..]);
      }
  }

  // ------------------------------------------------------------------
  // The code: one map mutated by every step
  // ------------------------------------------------------------------

  method TypesAreEqual(a: seq<TypedField>, b: seq<TypedField>) returns (equal: bool)
    ensures equal <==> a == b
  {
    if |a| != |b| {
      return false;
    }
    for i := 0 to |a|
      invariant a[..i] == b[..i]
    {
      if a[i].name != b[i].name || a[i].typ != b[i].typ {
        return false;
      }
      assert a[..i + 1] == a[..i] + [a[i]] && b[..i + 1] == b[..i] + [b[i]];
    }
    assert a == a[..|a|] && b == b[..|b|];
    return true;
  }

  function Continue(done: seq<TypedField>, rest: Listed): (r: Listed) {
    if rest.fields.None? then rest else Listed(rest.types, Some(done + rest.fields.value))
  }

  lemma ContinuePrepend(done: seq<TypedField>, f: TypedField, rest: Listed)
    ensures Continue(done, Prepend(f, rest)) == Continue(done + [f], rest)
  {
    if rest.fields.Some? {
      assert done + ([f] + rest.fields.value) == (done + [f]) + rest.fields.value;
    }
  }

  lemma ContinueNothing(rest: Listed)
    ensures Continue([], rest) == rest
  {
    if rest.fields.Some? {
      assert [] + rest.fields.value == rest.fields.value;
    }
  }

  class TypeMap {
    var types: Schema

    constructor ()
      ensures types == INITIAL
    {
      types := INITIAL;
    }

    method AddTypesToRoot(typeDef: string, fields: seq<TypedField>) returns (key: Option<string>)
      modifies this
      ensures Keyed(types, key) == FirstFit(old(types), typeDef, fields, 0)
    {
      var indexAsDuplicate := 0;
      while true
        invariant 0 <= indexAsDuplicate < MAX_DUPLICATE_TYPE_DEFS
        invariant types == old(types)
        invariant FirstFit(types, typeDef, fields, 0) == FirstFit(types, typeDef, fields, indexAsDuplicate)
        decreases MAX_DUPLICATE_TYPE_DEFS - indexAsDuplicate
      {
        var indexedTypeDef := TypeDefWithIndex(typeDef, indexAsDuplicate);
        if indexedTypeDef in types {
          var equal := TypesAreEqual(fields, types[indexedTypeDef]);
          if equal {
            return Some(indexedTypeDef);
          }
        } else {
          types := types[indexedTypeDef := fields];
          return Some(indexedTypeDef);
        }
        indexAsDuplicate := indexAsDuplicate + 1;
        if indexAsDuplicate == MAX_DUPLICATE_TYPE_DEFS {
          return None;
        }
      }
    }

    method RecursivelyAddTypesToRoot(root: string, prefix: string, payload: Json) returns (key: Option<string>)
      modifies this
      ensures Keyed(types, key) == Infer(old(types), root, prefix, payload)
      decreases payload
    {
      hide Sanitize, FirstFit;
      var sorted := SortedJSONKeys(payload);
      if sorted.None? {
        return None;
      }
      var names := sorted.value;
      var typesToAdd: seq<TypedField> := [];
      var typeDef := TypeDefForPrefix(prefix, root);
      ghost var goal := InferFields(types, root, prefix, payload, names);
      ContinueNothing(goal);
      assert names[0..] == names;
      for i := 0 to |names|
        invariant goal == Continue(typesToAdd, InferFields(types, root, prefix, payload, names[i..]))
      {
        var fieldName := names[i];
        assert names[i..][0] == fieldName && names[i..][1..] == names[i + 1..];
        var field := payload.members[fieldName];
        var isCollection := false;
        if field.Array? {
          if |field.items| == 0 {
            ContinuePrepend(typesToAdd, TypedField(fieldName, "string[]"),
                            InferFields(types, root, prefix, payload, names[i + 1..]));
            typesToAdd := typesToAdd + [TypedField(fieldName, "string[]")];
            continue;
          }
          field := field.items[0];
          isCollection := true;
        }
        var ethType := EthTypeForJSON(field);
        if ethType != "" {
          ethType := ethType + Brackets(isCollection);
          ContinuePrepend(typesToAdd, TypedField(fieldName, ethType),
                          InferFields(types, root, prefix, payload, names[i + 1..]));
          typesToAdd := typesToAdd + [TypedField(fieldName, ethType)];
          continue;
        }
        if field.Object? {
          var fieldPrefix := PrefixForSubField(prefix, fieldName);
          var fieldKey := RecursivelyAddTypesToRoot(root, fieldPrefix, field);
          if fieldKey.None? {
            return None;
          }
          var fieldTypeDef := SanitizeTypedef(fieldKey.value);
          fieldTypeDef := fieldTypeDef + Brackets(isCollection);
          ContinuePrepend(typesToAdd, TypedField(fieldName, fieldTypeDef),
                          InferFields(types, root, prefix, payload, names[i + 1..]));
          typesToAdd := typesToAdd + [TypedField(fieldName, fieldTypeDef)];
          continue;
        }
      }
      assert typesToAdd + [] == typesToAdd;
      key := AddTypesToRoot(typeDef, typesToAdd);
    }

    method AddMsgTypesToRoot(msgField: string, msg: Json) returns (ok: bool)
      modifies this
      ensures Added(types, ok) == AddMsg(old(types), msgField, msg)
    {
      hide Infer;
      if !msg.Object? {
        return false;
      }
      var root := MsgRootType(msg);
      if root.None? {
        return false;
      }
      var msgTypeDef := RecursivelyAddTypesToRoot(root.value, ROOT_PREFIX, msg);
      if msgTypeDef.None? {
        return false;
      }
      types := AppendToTx(types, msgField, msgTypeDef.value);
      return true;
    }
  }

  method CreateEIP712Types(payload: Json, numPayloadMsgs: nat) returns (r: Option<Schema>)
    ensures var added := AddMsgs(INITIAL, payload, 0, numPayloadMsgs);
            r == if added.ok then Some(added.types) else None
  {
    hide AddMsg;
    var eip712Types := new TypeMap();
    for i := 0 to numPayloadMsgs
      invariant AddMsgs(INITIAL, payload, 0, numPayloadMsgs) == AddMsgs(eip712Types.types, payload, i, numPayloadMsgs)
    {
      var field := MsgFieldForIndex(i);
      var ok := eip712Types.AddMsgTypesToRoot(field, Get(payload, field));
      if !ok {
        return None;
      }
    }
    return Some(eip712Types.types);
  }
}
