/** The names of the generated EIP-712 types (ethereum/eip712/types.go), and exactly when a
    payload gets its types. */
module Eip712Naming {
  import opened Numbers
  import opened Eip712Names
  import opened Eip712Types

  // ------------------------------------------------------------------
  // Sanitized names
  // ------------------------------------------------------------------

  lemma {:induction false} SplitConcat(a: string, b: string, sep: char)
    ensures Split(a + [sep] + b, sep) == Split(a, sep) + Split(b, sep)
  {
    var s := a + [sep] + b;
    if a == "" {
      assert s[1..] == b;
    } else {
      assert s[1..] == a[1..] + [sep] + b;
      SplitConcat(a[1..], b, sep);
    }
  }

  /** The last piece of a split: what follows the last separator. */
  lemma {:induction false} SplitLast(s: string, sep: char) returns (pre: string)
    ensures var parts := Split(s, sep);
            var last := parts[|parts| - 1];
            sep !in last && s == if |parts| == 1 then last else pre + [sep] + last
  {
    pre := "";
    if s == "" {
    } else {
      var rest := Split(s[1..], sep);
      pre := SplitLast(s[1..], sep);
      assert s == [s[0]] + s[1..];
      if |rest| > 1 {
        assert s == ([s[0]] + pre) + [sep] + rest[|rest| - 1];
        pre := [s[0]] + pre;
      } else if s[0] == sep {
        pre := "";
        assert s == "" + [sep] + rest[0];
      }
    }
  }

  lemma {:induction false} SanitizePartsConcat(p: seq<string>, q: seq<string>)
    ensures SanitizeParts(p + q) == SanitizeParts(p) + SanitizeParts(q)
  {
    hide SanitizePart;
    if p == [] {
      assert p + q == q;
    } else {
      assert (p + q)[1..] == p[1..] + q;
      SanitizePartsConcat(p[1..], q);
    }
  }

  lemma {:induction false} TitleAllConcat(p: seq<string>, q: seq<string>)
    ensures TitleAll(p + q) == TitleAll(p) + TitleAll(q)
  {
    hide Title;
    if p == [] {
      assert p + q == q;
    } else {
      assert (p + q)[1..] == p[1..] + q;
      TitleAllConcat(p[1..], q);
    }
  }

  /** Parts of a path are sanitized one by one and joined. */
  lemma SanitizePath(a: string, b: string)
    ensures Sanitize(a + "." + b) == Sanitize(a) + Sanitize(b)
  {
    SplitConcat(a, b, '.');
    SanitizePartsConcat(Split(a, '.'), Split(b, '.'));
  }

  lemma SanitizeOnePart(s: string)
    requires '.' !in s
    ensures Sanitize(s) == SanitizePart(s)
  {
    SplitWhole(s, '.');
    assert SanitizeParts([s]) == SanitizePart(s) + SanitizeParts([]);
  }

  /** The root prefix stands for "Type". */
  lemma SanitizeRoot()
    ensures Sanitize("_") == "Type"
  {
    SanitizeOnePart("_");
  }

  /** Words joined by an underscore are title cased one by one and joined; the root prefix apart. */
  lemma SanitizeWords(a: string, b: string)
    requires '.' !in a && '.' !in b && a != "_" && b != "_" && (a != "" || b != "")
    ensures Sanitize(a + "_" + b) == Sanitize(a) + Sanitize(b)
  {
    hide TitleAll, Split, Sanitize;
    var s := a + "_" + b;
    assert |s| != 1;
    SanitizeOnePart(a);
    SanitizeOnePart(b);
    SanitizeOnePart(s);
    SplitConcat(a, b, '_');
    TitleAllConcat(Split(a, '_'), Split(b, '_'));
  }

  /** A single word is title cased. */
  lemma SanitizeWord(w: string)
    requires Clean(w)
    ensures Sanitize(w) == Title(w)
  {
    hide Title;
    SanitizeOnePart(w);
    SplitWhole(w, '_');
    assert TitleAll([w]) == Title(w) + TitleAll([]);
  }

  /** Inside a word nothing changes. */
  lemma {:induction false} TitleInside(w: string)
    requires forall c :: c in w ==> !IsBreak(c) && !IsMid(c)
    ensures TitleFrom(w, true, false) == w
  {
    if w == "" {
    } else {
      TitleInside(w[1..]);
    }
  }

  /** Title casing raises the first letter and leaves the rest of the word alone. */
  lemma TitleFirst(w: string)
    requires w != "" && IsLetter(w[0]) && forall c :: c in w ==> !IsBreak(c) && !IsMid(c)
    ensures Title(w) == [ToUpper(w[0])] + w[1..]
  {
    TitleInside(w[1..]);
  }

  lemma BreakIsOther(c: char)
    requires IsBreak(c)
    ensures !IsLetter(c) && !IsMid(c)
  {
  }

  lemma TitleStep(s: string, inWord: bool, wasMid: bool)
    requires s != ""
    ensures var inside := inWord && !(wasMid && IsMid(s[0]));
            TitleFrom(s, inWord, wasMid) ==
            if IsLetter(s[0]) then [if inside then s[0] else ToUpper(s[0])] + TitleFrom(s[1..], true, false)
            else [s[0]] + TitleFrom(s[1..], inside && !IsBreak(s[0]), IsMid(s[0]))
  {
    hide IsBreak, IsMid, IsLetter, ToUpper;
  }

  /** A break starts a new word. */
  lemma {:induction false} TitleBreaks(a: string, c: char, b: string, inWord: bool, wasMid: bool)
    requires IsBreak(c)
    ensures TitleFrom(a + [c] + b, inWord, wasMid) == TitleFrom(a, inWord, wasMid) + [c] + Title(b)
  {
    hide IsBreak, IsMid, IsLetter, ToUpper, TitleFrom;
    BreakIsOther(c);
    var s := a + [c] + b;
    TitleStep(s, inWord, wasMid);
    if a == "" {
      assert s[0] == c && s[1..] == b;
      NothingTitledFrom(inWord, wasMid);
    } else {
      assert s[0] == a[0] && s[1..] == a[1..] + [c] + b;
      TitleStep(a, inWord, wasMid);
      if IsLetter(a[0]) {
        TitleBreaks(a[1..], c, b, true, false);
      } else {
        TitleBreaks(a[1..], c, b, inWord && !(wasMid && IsMid(a[0])) && !IsBreak(a[0]), IsMid(a[0]));
      }
    }
  }

  lemma NothingTitledFrom(inWord: bool, wasMid: bool)
    ensures TitleFrom("", inWord, wasMid) == ""
  {
  }

  /** The example given with the code. */
  lemma SanitizeExample()
    ensures Sanitize("_.foo_bar.baz") == "TypeFooBarBaz"
  {
    hide Sanitize, Title;
    assert "_.foo_bar.baz" == "_" + "." + ("foo_bar" + "." + "baz");
    SanitizePath("_", "foo_bar" + "." + "baz");
    SanitizePath("foo_bar", "baz");
    SanitizeRoot();
    assert "foo_bar" == "foo" + "_" + "bar";
    SanitizeWords("foo", "bar");
    SanitizeLetters("foo");
    SanitizeLetters("bar");
    SanitizeLetters("baz");
    assert "Foo" == ['F'] + "foo"[1..] && "Bar" == ['B'] + "bar"[1..] && "Baz" == ['B'] + "baz"[1..];
  }

  /** A hyphen ends a word, an apostrophe between letters does not. */
  lemma WordExamples()
    ensures Title("my-msg") == "My-Msg" && Title("it's") == "It's"
  {
    hide Title;
    assert "my-msg" == "my" + ['-'] + "msg";
    assert Title("my-msg") == Title("my") + ['-'] + Title("msg") by {
      TitleBreaks("my", '-', "msg", false, false);
      TitleIsFrom("my-msg");
      TitleIsFrom("my");
    }
    TitleFirst("my");
    TitleFirst("msg");
    assert "My" == ['M'] + "my"[1..] && "Msg" == ['M'] + "msg"[1..];
    Apostrophe();
  }

  lemma TitleIsFrom(w: string)
    ensures Title(w) == TitleFrom(w, false, false)
  {
  }

  lemma Apostrophe()
    ensures Title("it's") == "It's"
  {
    hide TitleFrom;
    assert "it's"[1..] == "t's" && "t's"[1..] == "'s" && "'s"[1..] == "s" && "s"[1..] == "";
    TitleStep("it's", false, false);
    TitleStep("t's", true, false);
    TitleStep("'s", true, false);
    TitleStep("s", true, true);
    NothingTitledFrom(true, false);
    assert "It's" == ['I'] + (['t'] + (['\''] + ['s']));
  }

  lemma SanitizeLetters(w: string)
    requires w != "" && forall i :: 0 <= i < |w| ==> IsLetter(w[i])
    ensures Sanitize(w) == [ToUpper(w[0])] + w[1..]
  {
    hide Sanitize, Title;
    SanitizeWord(w);
    TitleFirst(w);
  }

  /** Decimal numbers have no leading zero. */
  lemma {:induction false} DecimalShortest(n: nat)
    ensures |Decimal(n)| > 0 && (n > 0 ==> Decimal(n)[0] != '0')
  {
    if n < 10 {
    } else {
      DecimalShortest(n / 10);
    }
  }

  // ------------------------------------------------------------------
  // The name of a message's type
  // ------------------------------------------------------------------

  /** `name` is what follows the last slash of `s`. */
  ghost predicate LastSegment(s: string, name: string) {
    '/' !in name && (s == name || exists pre :: s == pre + "/" + name)
  }

  ghost predicate HasTypeString(msg: Json) {
    msg.Object? && "type" in msg.members && msg.members["type"].String? && msg.members["type"].s != ""
  }

  /** A message has a root type exactly when it has a type string, and the root type is "Type"
      with the last segment of that string. */
  lemma RootTypeNamed(msg: Json)
    ensures MsgRootType(msg).Some? <==> HasTypeString(msg)
    ensures HasTypeString(msg) ==>
              exists name :: LastSegment(msg.members["type"].s, name) && MsgRootType(msg).value == "Type" + name
  {
    if HasTypeString(msg) {
      var s := msg.members["type"].s;
      var parts := Split(s, '/');
      var name := parts[|parts| - 1];
      var pre := SplitLast(s, '/');
      assert |parts| > 1 ==> s == pre + "/" + name;
      assert LastSegment(s, name) && MsgRootType(msg).value == "Type" + name;
    }
  }

  /** The key of an inferred type is its name and an index below a thousand. */
  lemma InferKeyNamed(types: Schema, root: string, prefix: string, json: Json)
    requires Infer(types, root, prefix, json).key.Some?
    ensures exists n :: 0 <= n < 1000 &&
              Infer(types, root, prefix, json).key.value ==
              (if prefix == "_" then root else Sanitize(prefix)) + Decimal(n)
  {
    hide FirstFit, Sanitize;
    var listed := InferFields(types, root, prefix, json, SortedKeys(json.members.Keys));
    var n := FirstFitStops(listed.types, TypeDefForPrefix(prefix, root), listed.fields.value, 0);
    assert Infer(types, root, prefix, json).key.value == TypeDefForPrefix(prefix, root) + Decimal(n);
  }

  /** Every message field of Tx is named after its index, and its type after the last segment of
      the message's type string. */
  lemma PayloadNamed(payload: Json, n: nat, j: nat)
    requires AddMsgs(INITIAL, payload, 0, n).ok && j < n
    ensures var types, msg := AddMsgs(INITIAL, payload, 0, n).types, Get(payload, "msg" + Decimal(j));
            && TX in types && 5 + j < |types[TX]| && types[TX][5 + j].name == "msg" + Decimal(j)
            && HasTypeString(msg)
            && exists name, i :: 0 <= i < 1000 && LastSegment(msg.members["type"].s, name)
                                 && types[TX][5 + j].typ == "Type" + name + Decimal(i)
  {
    hide AddMsgs, Describes, Infer, HasTypeString, LastSegment, Split;
    PayloadTyped(payload, n);
    var types: Schema := AddMsgs(INITIAL, payload, 0, n).types;
    assert MsgTyped(types, payload, 5, j);
    var msg: Json := Get(payload, MsgFieldForIndex(j));
    RootTypeNamed(msg);
    var root := MsgRootType(msg).value;
    var name :| LastSegment(msg.members["type"].s, name) && root == "Type" + name;
    InferKeyNamed(types, root, ROOT_PREFIX, msg);
    var i :| 0 <= i < 1000 && types[TX][5 + j].typ == root + Decimal(i);
    assert types[TX][5 + j].typ == "Type" + name + Decimal(i);
  }

  // ------------------------------------------------------------------
  // The names of nested types
  // ------------------------------------------------------------------

  /** A field that holds an object, or an array headed by one, has the type named by its path. */
  ghost predicate NestedNamed(prefix: string, f: TypedField, json: Json)
    requires json.Object? && f.name in json.members
  {
    var shape := ShapeOf(json.members[f.name]);
    shape.Nested? ==>
      exists n :: 0 <= n < 1000 &&
        f.typ == Sanitize(prefix + "." + f.name) + Decimal(n) + if shape.isArray then "[]" else ""
  }

  ghost predicate AllNamed(prefix: string, fields: seq<TypedField>, json: Json)
    requires json.Object?
  {
    forall i :: 0 <= i < |fields| ==> fields[i].name in json.members && NestedNamed(prefix, fields[i], json)
  }

  lemma PrependNamed(prefix: string, f: TypedField, rest: Listed, json: Json)
    requires json.Object? && f.name in json.members && NestedNamed(prefix, f, json)
    requires rest.fields.Some? ==> AllNamed(prefix, rest.fields.value, json)
    ensures var r := Prepend(f, rest); r.fields.Some? ==> AllNamed(prefix, r.fields.value, json)
  {
    hide NestedNamed;
  }

  lemma {:induction false} InferFieldsNamed(types: Schema, root: string, prefix: string, json: Json,
                                            names: seq<string>)
    requires ValidContext(root, prefix)
    requires json.Object? && forall n :: n in names ==> n in json.members
    ensures var r := InferFields(types, root, prefix, json, names);
            r.fields.Some? ==> AllNamed(prefix, r.fields.value, json)
    decreases |names|
  {
    hide Infer, Sanitize, ValidContext, AllNamed, NestedNamed, ShapeOf;
    if names == [] {
      NoneNamed(prefix, json);
    } else {
      var name := names[0];
      match ShapeOf(json.members[name])
      case Dropped => InferFieldsNamed(types, root, prefix, json, names[1..]);
      case Primitive(typ) =>
        InferFieldsNamed(types, root, prefix, json, names[1..]);
        PrimitiveNamed(prefix, TypedField(name, typ), json);
        PrependNamed(prefix, TypedField(name, typ), InferFields(types, root, prefix, json, names[1..]), json);
      case Nested(elem, isArray) =>
        var subPrefix := PrefixForSubField(prefix, name);
        SubContext(root, prefix, name);
        var sub := Infer(types, root, subPrefix, elem);
        if sub.key.Some? {
          InferExtends(types, root, subPrefix, elem);
          InferKeyNamed(types, root, subPrefix, elem);
          InferFieldsNamed(sub.types, root, prefix, json, names[1..]);
          var f := TypedField(name, sub.key.value + Brackets(isArray));
          NestedFieldNamed(prefix, f, json, sub.key.value);
          PrependNamed(prefix, f, InferFields(sub.types, root, prefix, json, names[1..]), json);
        }
    }
  }

  lemma NoneNamed(prefix: string, json: Json)
    requires json.Object?
    ensures AllNamed(prefix, [], json)
  {
  }

  lemma PrimitiveNamed(prefix: string, f: TypedField, json: Json)
    requires json.Object? && f.name in json.members && !ShapeOf(json.members[f.name]).Nested?
    ensures NestedNamed(prefix, f, json)
  {
  }

  lemma NestedFieldNamed(prefix: string, f: TypedField, json: Json, key: string)
    requires json.Object? && f.name in json.members && ShapeOf(json.members[f.name]).Nested?
    requires IsSubPrefix(PrefixForSubField(prefix, f.name))
    requires exists n :: 0 <= n < 1000 && key == Sanitize(PrefixForSubField(prefix, f.name)) + Decimal(n)
    requires f.typ == key + Brackets(ShapeOf(json.members[f.name]).isArray)
    ensures NestedNamed(prefix, f, json)
  {
    hide Sanitize, ShapeOf;
  }

  /** In every inferred type the nested types are named by their paths. */
  lemma InferNamed(types: Schema, root: string, prefix: string, json: Json)
    requires ValidContext(root, prefix) && Infer(types, root, prefix, json).key.Some?
    ensures var r := Infer(types, root, prefix, json);
            r.key.value in r.types && AllNamed(prefix, r.types[r.key.value], json)
  {
    hide FirstFit, ValidContext, AllNamed, TypeDefForPrefix;
    var names := SortedKeys(json.members.Keys);
    InferFieldsNamed(types, root, prefix, json, names);
    var listed := InferFields(types, root, prefix, json, names);
    FirstFitInserts(listed.types, root, prefix, listed.fields.value);
  }

  // ------------------------------------------------------------------
  // Exactly when a payload gets its types
  // ------------------------------------------------------------------

  ghost predicate MsgOk(payload: Json, j: nat) {
    HasTypeString(Get(payload, "msg" + Decimal(j)))
  }

  ghost predicate SomeExhausted(types: Schema) {
    exists typeDef :: Exhausted(types, typeDef)
  }

  lemma AddMsgSucceeds(types: Schema, payload: Json, j: nat)
    ensures var r := AddMsg(types, "msg" + Decimal(j), Get(payload, "msg" + Decimal(j)));
            && (r.ok ==> MsgOk(payload, j))
            && (MsgOk(payload, j) && !r.ok ==> SomeExhausted(r.types))
  {
    hide Infer, Exhausted;
    var msg := Get(payload, "msg" + Decimal(j));
    RootTypeNamed(msg);
    if HasTypeString(msg) {
      var root := MsgRootType(msg).value;
      if Infer(types, root, ROOT_PREFIX, msg).key.None? {
        InferFailsExhausted(types, root, ROOT_PREFIX, msg);
      }
    }
  }

  /** A payload fails on a message without a type string, and otherwise only when some name has
      all its thousand indices taken. */
  lemma {:induction false} AddMsgsSucceeds(types: Schema, payload: Json, i: nat, n: nat)
    requires i <= n
    ensures var r := AddMsgs(types, payload, i, n);
            && (r.ok ==> forall j :: i <= j < n ==> MsgOk(payload, j))
            && ((forall j :: i <= j < n ==> MsgOk(payload, j)) && !r.ok ==> SomeExhausted(r.types))
    decreases n - i
  {
    hide AddMsg, SomeExhausted, MsgOk;
    if i == n {
    } else {
      AddMsgSucceeds(types, payload, i);
      var one := AddMsg(types, MsgFieldForIndex(i), Get(payload, MsgFieldForIndex(i)));
      if one.ok {
        AddMsgsSucceeds(one.types, payload, i + 1, n);
      }
    }
  }

  // ---- How many names a payload can use up ----

  /** The objects of a value that need a type; an array counts by its first element. */
  ghost function Objects(json: Json): (n: nat)
    decreases json, 1, 0
  {
    if !json.Object? then 0 else 1 + ObjectsIn(json, SortedKeys(json.members.Keys))
  }

  ghost function ObjectsIn(json: Json, names: seq<string>): (n: nat)
    requires json.Object? && forall n :: n in names ==> n in json.members
    decreases json, 0, |names|
  {
    if names == [] then 0
    else
      var shape := ShapeOf(json.members[names[0]]);
      (if shape.Nested? then Objects(shape.elem) else 0) + ObjectsIn(json, names[1..])
  }

  ghost function ObjectsOf(payload: Json, i: nat, n: nat): (count: nat)
    requires i <= n
    decreases n - i
  {
    if i == n then 0 else Objects(Get(payload, "msg" + Decimal(i))) + ObjectsOf(payload, i + 1, n)
  }

  lemma {:induction false} InferAdds(types: Schema, root: string, prefix: string, json: Json)
    ensures |Infer(types, root, prefix, json).types| <= |types| + Objects(json)
    decreases json, 1, 0
  {
    hide FirstFit, TypeDefForPrefix;
    if json.Object? {
      var names := SortedKeys(json.members.Keys);
      var listed := InferFields(types, root, prefix, json, names);
      InferFieldsAdds(types, root, prefix, json, names);
      if listed.fields.Some? {
        var n := FirstFitStops(listed.types, TypeDefForPrefix(prefix, root), listed.fields.value, 0);
        OneMoreKey(listed.types, TypeDefWithIndex(TypeDefForPrefix(prefix, root), n), listed.fields.value);
      }
    }
  }

  lemma OneMoreKey(types: Schema, key: string, fields: seq<TypedField>)
    ensures |types[key := fields]| <= |types| + 1
  {
    assert types[key := fields].Keys == types.Keys + {key};
  }

  lemma {:induction false} InferFieldsAdds(types: Schema, root: string, prefix: string, json: Json,
                                           names: seq<string>)
    requires json.Object? && forall n :: n in names ==> n in json.members
    ensures |InferFields(types, root, prefix, json, names).types| <= |types| + ObjectsIn(json, names)
    decreases json, 0, |names|
  {
    hide Infer, Sanitize, Objects;
    if names == [] {
    } else {
      match ShapeOf(json.members[names[0]])
      case Dropped => InferFieldsAdds(types, root, prefix, json, names[1..]);
      case Primitive(_) => InferFieldsAdds(types, root, prefix, json, names[1..]);
      case Nested(elem, _) =>
        var subPrefix := PrefixForSubField(prefix, names[0]);
        InferAdds(types, root, subPrefix, elem);
        InferFieldsAdds(Infer(types, root, subPrefix, elem).types, root, prefix, json, names[1..]);
    }
  }

  lemma {:induction false} AddMsgsAdds(types: Schema, payload: Json, i: nat, n: nat)
    requires i <= n && TX in types
    ensures |AddMsgs(types, payload, i, n).types| <= |types| + ObjectsOf(payload, i, n)
    decreases n - i
  {
    hide Infer, Objects, Generated;
    if i == n {
    } else {
      var msg := Get(payload, MsgFieldForIndex(i));
      var one := AddMsg(types, MsgFieldForIndex(i), msg);
      if msg.Object? && MsgRootType(msg).Some? {
        var root := MsgRootType(msg).value;
        InferAdds(types, root, ROOT_PREFIX, msg);
        InferExtends(types, root, ROOT_PREFIX, msg);
        var keyed := Infer(types, root, ROOT_PREFIX, msg);
        if keyed.key.Some? {
          SameKeys(keyed.types, MsgFieldForIndex(i), keyed.key.value);
        }
      }
      if one.ok {
        AddMsgsAdds(one.types, payload, i + 1, n);
      }
    }
  }

  lemma SameKeys(types: Schema, msgField: string, typ: string)
    requires TX in types
    ensures var r := AppendToTx(types, msgField, typ); TX in r && |r| == |types|
  {
    assert AppendToTx(types, msgField, typ).Keys == types.Keys;
  }

  ghost function IndexedNames(typeDef: string, n: nat): (names: set<string>) {
    set i | 0 <= i < n :: TypeDefWithIndex(typeDef, i)
  }

  lemma {:induction false} IndexedNamesCount(typeDef: string, n: nat)
    ensures |IndexedNames(typeDef, n)| == n
  {
    hide Decimal;
    if n == 0 {
    } else {
      IndexedNamesCount(typeDef, n - 1);
      var last := TypeDefWithIndex(typeDef, n - 1);
      assert IndexedNames(typeDef, n) == IndexedNames(typeDef, n - 1) + {last};
      forall i | 0 <= i < n - 1 ensures TypeDefWithIndex(typeDef, i) != last {
        assert TypeDefWithIndex(typeDef, i)[|typeDef|..] == Decimal(i) && last[|typeDef|..] == Decimal(n - 1);
        if TypeDefWithIndex(typeDef, i) == last {
          DecimalInjective(i, n - 1);
        }
      }
    }
  }

  lemma ExhaustedIsLarge(types: Schema)
    requires SomeExhausted(types)
    ensures |types| >= 1000
  {
    hide TypeDefWithIndex;
    var typeDef :| Exhausted(types, typeDef);
    var names := IndexedNames(typeDef, MAX_DUPLICATE_TYPE_DEFS);
    IndexedNamesCount(typeDef, MAX_DUPLICATE_TYPE_DEFS);
    assert names <= types.Keys;
    assert types.Keys == names + (types.Keys - names);
  }

  /** With fewer than 996 objects to type, a payload gets its types if and only if every message
      has a type string. */
  lemma PayloadSucceeds(payload: Json, n: nat)
    requires ObjectsOf(payload, 0, n) < 996
    ensures AddMsgs(INITIAL, payload, 0, n).ok <==> forall j :: 0 <= j < n ==> MsgOk(payload, j)
  {
    hide AddMsgs, MsgOk, SomeExhausted;
    AddMsgsSucceeds(INITIAL, payload, 0, n);
    AddMsgsAdds(INITIAL, payload, 0, n);
    InitialSize();
    var types := AddMsgs(INITIAL, payload, 0, n).types;
    if SomeExhausted(types) {
      ExhaustedIsLarge(types);
    }
  }

  lemma InitialSize()
    ensures |INITIAL| == 4
  {
    assert INITIAL.Keys == {"EIP712Domain", "Tx", "Fee", "Coin"};
  }
}
