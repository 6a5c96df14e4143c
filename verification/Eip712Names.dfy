/** JSON values, the fixed order of object keys, and the sanitized names of the types
    generated for EIP-712 signing (ethereum/eip712/types.go). */
module Eip712Names {
  import opened Numbers
  import opened Order
  import opened Wrappers

  /** JSON values; object keys are plain, so that looking one up by name is a map lookup. */
  datatype Json =
    | Null
    | Bool(b: bool)
    | Number(n: real)
    | String(s: string)
    | Array(items: seq<Json>)
    | Object(members: map<string, Json>)

  const ROOT_PREFIX := "_"
  const TYPE_PREFIX := "Type"

  // ------------------------------------------------------------------
  // Object keys in descending order
  // ------------------------------------------------------------------

  ghost predicate Descending(names: seq<string>) {
    forall i, j :: 0 <= i < j < |names| ==> StringLess(names[j], names[i])
  }

  /** `names` lists `keys` once each, greatest first. */
  ghost predicate Lists(names: seq<string>, keys: set<string>) {
    Descending(names) && forall k :: k in names <==> k in keys
  }

  ghost predicate IsGreatest(k: string, keys: set<string>) {
    k in keys && forall k' :: k' in keys && k' != k ==> StringLess(k', k)
  }

  lemma GreatestExists(keys: set<string>) returns (k: string)
    requires keys != {}
    ensures IsGreatest(k, keys)
  {
    k :| k in keys;
    var rest := keys - {k};
    assert forall k' :: k' in keys && k' != k ==> k' in rest;
    if rest != {} {
      var g := GreatestExists(rest);
      StringTotal(g, k);
      if StringLess(k, g) {
        k := g;
      } else {
        forall k' | k' in keys && k' != k ensures StringLess(k', k) {
          if k' != g {
            StringTransitive(k', g, k);
          }
        }
      }
    }
  }

  ghost function SortedKeys(keys: set<string>): (names: seq<string>)
    ensures Lists(names, keys)
    decreases |keys|
  {
    if keys == {} then []
    else
      assert exists k :: IsGreatest(k, keys) by { var k := GreatestExists(keys); }
      var k :| IsGreatest(k, keys);
      var rest := SortedKeys(keys - {k});
      ConsLists(k, rest, keys);
      [k] + rest
  }

  lemma ConsLists(k: string, rest: seq<string>, keys: set<string>)
    requires IsGreatest(k, keys) && Lists(rest, keys - {k})
    ensures Lists([k] + rest, keys)
  {
    forall j | 0 <= j < |rest| ensures StringLess(rest[j], k) {
      assert rest[j] in keys - {k};
    }
  }

  /** The listing is unique: the order in which a map is iterated cannot show. */
  lemma {:induction false} ListingUnique(a: seq<string>, b: seq<string>, keys: set<string>)
    requires Lists(a, keys) && Lists(b, keys)
    ensures a == b
    decreases |a|
  {
    assert |a| > 0 ==> a[0] in keys;
    assert |b| > 0 ==> b[0] in keys;
    if |a| == 0 {
    } else {
      HeadIsGreatest(a, keys);
      HeadIsGreatest(b, keys);
      if a[0] != b[0] {
        StringAsymmetric(a[0], b[0]);
        assert false;
      }
      TailLists(a, keys);
      TailLists(b, keys);
      ListingUnique(a[1..], b[1..], keys - {a[0]});
      assert a == [a[0]] + a[1..] && b == [b[0]] + b[1..];
    }
  }

  lemma HeadIsGreatest(names: seq<string>, keys: set<string>)
    requires Lists(names, keys) && names != []
    ensures IsGreatest(names[0], keys)
  {
    assert names[0] in keys;
    forall k | k in keys && k != names[0] ensures StringLess(k, names[0]) {
      var j :| 0 <= j < |names| && names[j] == k;
    }
  }

  lemma TailLists(names: seq<string>, keys: set<string>)
    requires Lists(names, keys) && names != []
    ensures Lists(names[1..], keys - {names[0]})
  {
    forall k ensures k in names[1..] <==> k in keys - {names[0]} {
      if k in names[1..] {
        var j :| 0 <= j < |names[1..]| && names[1..][j] == k;
        assert names[j + 1] == k;
        StringAsymmetric(names[j + 1], names[0]);
      }
    }
  }

  /** sortedJSONKeys: the members come out of the map in any order and are sorted. */
  method SortedJSONKeys(json: Json) returns (names: Option<seq<string>>)
    ensures names == if json.Object? then Some(SortedKeys(json.members.Keys)) else None
  {
    if !json.Object? {
      return None;
    }
    var left := json.members.Keys;
    var sorted: seq<string> := [];
    while left != {}
      invariant left <= json.members.Keys
      invariant Lists(sorted, json.members.Keys - left)
      decreases left
    {
      var k :| k in left;
      sorted := InsertKey(sorted, k, json.members.Keys - left);
      left := left - {k};
      assert json.members.Keys - left == json.members.Keys - (left + {k}) + {k};
    }
    assert json.members.Keys - left == json.members.Keys;
    ListingUnique(sorted, SortedKeys(json.members.Keys), json.members.Keys);
    return Some(sorted);
  }

  method InsertKey(sorted: seq<string>, k: string, ghost keys: set<string>) returns (r: seq<string>)
    requires Lists(sorted, keys) && k !in keys
    ensures Lists(r, keys + {k})
  {
    var i := 0;
    while i < |sorted| && StringLess(k, sorted[i])
      invariant 0 <= i <= |sorted|
      invariant forall j :: 0 <= j < i ==> StringLess(k, sorted[j])
    {
      i := i + 1;
    }
    forall j | i <= j < |sorted| ensures StringLess(sorted[j], k) {
      assert sorted[i] in keys;
      StringTotal(sorted[i], k);
      if i < j {
        StringTransitive(sorted[j], sorted[i], k);
      }
    }
    r := sorted[..i] + [k] + sorted[i..];
  }

  // ------------------------------------------------------------------
  // Type names
  // ------------------------------------------------------------------

  function Split(s: string, sep: char): (parts: seq<string>)
    ensures |parts| > 0
  {
    if s == "" then [""]
    else
      var rest := Split(s[1..], sep);
      if s[0] == sep then [""] + rest else [[s[0]] + rest[0]] + rest[1..]
  }

  predicate IsLower(c: char) { 'a' <= c <= 'z' }

  predicate IsUpper(c: char) { 'A' <= c <= 'Z' }

  function ToUpper(c: char): (r: char) {
    if IsLower(c) then (c as int - 32) as char else c
  }

  predicate IsLetter(c: char) { IsLower(c) || IsUpper(c) }

  /** Punctuation that joins two letters of one word when it stands alone between them. */
  predicate IsMid(c: char) { c in {'.', ':', '\''} }

  /** Any other ASCII character that is no letter, digit or underscore ends the word. */
  predicate IsBreak(c: char) {
    c < '\U{0080}' && !IsLetter(c) && !('0' <= c <= '9') && c != '_' && !IsMid(c)
  }

  /** Title case that never lowers: the first letter of every word is raised. `inWord` says that
      a letter of the word went before, `wasMid` that the character before was joining. */
  function TitleFrom(s: string, inWord: bool, wasMid: bool): (r: string)
    ensures |r| == |s|
  {
    if s == "" then ""
    else
      var c := s[0];
      var inside := inWord && !(wasMid && IsMid(c));
      if IsLetter(c) then [if inside then c else ToUpper(c)] + TitleFrom(s[1..], true, false)
      else [c] + TitleFrom(s[1..], inside && !IsBreak(c), IsMid(c))
  }

  function Title(word: string): (r: string) {
    TitleFrom(word, false, false)
  }

  function TitleAll(words: seq<string>): (r: string) {
    if words == [] then "" else Title(words[0]) + TitleAll(words[1..])
  }

  function SanitizePart(part: string): (r: string) {
    if part == ROOT_PREFIX then TYPE_PREFIX else TitleAll(Split(part, '_'))
  }

  function SanitizeParts(parts: seq<string>): (r: string) {
    if parts == [] then "" else SanitizePart(parts[0]) + SanitizeParts(parts[1..])
  }

  function Sanitize(s: string): (r: string) {
    SanitizeParts(Split(s, '.'))
  }

  function TypeDefForPrefix(prefix: string, rootType: string): (r: string) {
    if prefix == ROOT_PREFIX then rootType else Sanitize(prefix)
  }

  function PrefixForSubField(prefix: string, fieldName: string): (r: string) {
    prefix + "." + fieldName
  }

  function TypeDefWithIndex(typeDef: string, index: nat): (r: string) {
    typeDef + Decimal(index)
  }

  method TitleParts(part: string) returns (r: string)
    ensures r == TitleAll(Split(part, '_'))
  {
    r := "";
    var subparts := Split(part, '_');
    for j := 0 to |subparts|
      invariant r + TitleAll(subparts[j..]) == TitleAll(subparts)
    {
      assert subparts[j..][1..] == subparts[j + 1..];
      r := r + Title(subparts[j]);
    }
  }

  method SanitizeTypedef(str: string) returns (r: string)
    ensures r == Sanitize(str)
  {
    hide Title, Split, TitleAll;
    r := "";
    var parts := Split(str, '.');
    for i := 0 to |parts|
      invariant r + SanitizeParts(parts[i..]) == SanitizeParts(parts)
    {
      assert parts[i..][1..] == parts[i + 1..];
      ghost var part, rest := SanitizePart(parts[i]), SanitizeParts(parts[i + 1..]);
      assert r + (part + rest) == (r + part) + rest;
      if parts[i] == ROOT_PREFIX {
        r := r + TYPE_PREFIX;
      } else {
        var titled := TitleParts(parts[i]);
        r := r + titled;
      }
    }
  }

  /** No separator that sanitizing would act on. */
  predicate Clean(s: string) { '.' !in s && '_' !in s }

  lemma {:induction false} SplitWhole(s: string, sep: char)
    requires sep !in s
    ensures Split(s, sep) == [s]
  {
    if s == "" {
    } else {
      SplitWhole(s[1..], sep);
      assert s == [s[0]] + s[1..];
    }
  }

  lemma {:induction false} SplitPieces(s: string, sep: char)
    ensures forall p, c :: p in Split(s, sep) && c in p ==> c in s && c != sep
  {
    if s == "" {
    } else {
      SplitPieces(s[1..], sep);
    }
  }

  lemma {:induction false} TitleClean(word: string, inWord: bool, wasMid: bool)
    requires Clean(word)
    ensures Clean(TitleFrom(word, inWord, wasMid))
  {
    if word == "" {
    } else {
      var inside := inWord && !(wasMid && IsMid(word[0]));
      if IsLetter(word[0]) {
        TitleClean(word[1..], true, false);
      } else {
        TitleClean(word[1..], inside && !IsBreak(word[0]), IsMid(word[0]));
      }
    }
  }

  lemma {:induction false} TitleAllClean(words: seq<string>)
    requires forall w :: w in words ==> Clean(w)
    ensures Clean(TitleAll(words))
  {
    if words == [] {
    } else {
      TitleClean(words[0], false, false);
      TitleAllClean(words[1..]);
    }
  }

  lemma SanitizePartClean(part: string)
    requires '.' !in part
    ensures Clean(SanitizePart(part))
  {
    SplitPieces(part, '_');
    TitleAllClean(Split(part, '_'));
  }

  lemma {:induction false} SanitizePartsClean(parts: seq<string>)
    requires forall p :: p in parts ==> '.' !in p
    ensures Clean(SanitizeParts(parts))
  {
    if parts == [] {
    } else {
      SanitizePartClean(parts[0]);
      SanitizePartsClean(parts[1..]);
    }
  }

  /** Sanitizing leaves no separator, whatever it is given. */
  lemma SanitizeClean(s: string)
    ensures Clean(Sanitize(s))
  {
    SplitPieces(s, '.');
    SanitizePartsClean(Split(s, '.'));
  }

  /** Title casing finds nothing left to raise. */
  predicate Titled(s: string, inWord: bool, wasMid: bool) {
    TitleFrom(s, inWord, wasMid) == s
  }

  lemma TitledTail(s: string, inWord: bool, wasMid: bool)
    requires s != ""
    ensures var c := s[0];
            var inside := inWord && !(wasMid && IsMid(c));
            Titled(s, inWord, wasMid) <==>
            if IsLetter(c) then (inside || IsUpper(c)) && Titled(s[1..], true, false)
            else Titled(s[1..], inside && !IsBreak(c), IsMid(c))
  {
    var c := s[0];
    var inside := inWord && !(wasMid && IsMid(c));
    var rest := if IsLetter(c) then TitleFrom(s[1..], true, false)
                else TitleFrom(s[1..], inside && !IsBreak(c), IsMid(c));
    assert s == [c] + s[1..];
    assert TitleFrom(s, inWord, wasMid)[1..] == rest;
  }

  lemma {:induction false} TitleIsTitled(s: string, inWord: bool, wasMid: bool)
    ensures Titled(TitleFrom(s, inWord, wasMid), inWord, wasMid)
  {
    if s == "" {
    } else {
      var c := s[0];
      var inside := inWord && !(wasMid && IsMid(c));
      var t := TitleFrom(s, inWord, wasMid);
      TitledTail(t, inWord, wasMid);
      if IsLetter(c) {
        TitleIsTitled(s[1..], true, false);
        assert t[1..] == TitleFrom(s[1..], true, false);
      } else {
        TitleIsTitled(s[1..], inside && !IsBreak(c), IsMid(c));
        assert t[1..] == TitleFrom(s[1..], inside && !IsBreak(c), IsMid(c));
      }
    }
  }

  /** A string titled on its own stays titled after anything: fewer of its words begin. */
  lemma {:induction false} TitledInside(s: string, inWord: bool, wasMid: bool, inWord': bool, wasMid': bool)
    requires Titled(s, inWord, wasMid) && (inWord ==> inWord' && wasMid' == wasMid)
    ensures Titled(s, inWord', wasMid')
  {
    if s == "" {
    } else {
      var c := s[0];
      TitledTail(s, inWord, wasMid);
      TitledTail(s, inWord', wasMid');
      if !IsLetter(c) {
        TitledInside(s[1..], inWord && !(wasMid && IsMid(c)) && !IsBreak(c), IsMid(c),
                     inWord' && !(wasMid' && IsMid(c)) && !IsBreak(c), IsMid(c));
      }
    }
  }

  lemma {:induction false} TitledConcat(a: string, b: string, inWord: bool, wasMid: bool)
    requires Titled(a, inWord, wasMid) && Titled(b, false, false)
    ensures Titled(a + b, inWord, wasMid)
  {
    if a == "" {
      assert a + b == b;
      TitledInside(b, false, false, inWord, wasMid);
    } else {
      var c := a[0];
      assert (a + b)[1..] == a[1..] + b;
      TitledTail(a, inWord, wasMid);
      TitledTail(a + b, inWord, wasMid);
      if IsLetter(c) {
        TitledConcat(a[1..], b, true, false);
      } else {
        TitledConcat(a[1..], b, inWord && !(wasMid && IsMid(c)) && !IsBreak(c), IsMid(c));
      }
    }
  }

  lemma {:induction false} DigitsTitled(n: nat)
    ensures Titled(Decimal(n), false, false)
  {
    hide Titled;
    if n < 10 {
      DigitTitled(n);
    } else {
      DigitsTitled(n / 10);
      DigitTitled(n % 10);
      TitledConcat(Decimal(n / 10), [Digit(n % 10)], false, false);
    }
  }

  lemma DigitTitled(n: nat)
    requires n < 10
    ensures Titled([Digit(n)], false, false)
  {
    assert [Digit(n)][1..] == "";
  }

  lemma {:induction false} TitleAllTitled(words: seq<string>)
    ensures Titled(TitleAll(words), false, false)
  {
    hide Titled;
    if words == [] {
      NothingTitled();
    } else {
      TitleIsTitled(words[0], false, false);
      TitleAllTitled(words[1..]);
      TitledConcat(Title(words[0]), TitleAll(words[1..]), false, false);
    }
  }

  lemma NothingTitled()
    ensures Titled("", false, false) && Titled(TYPE_PREFIX, false, false)
  {
    TitledTail("Type", false, false);
    TitledTail("ype", true, false);
    TitledTail("pe", true, false);
    TitledTail("e", true, false);
    assert "Type"[1..] == "ype" && "ype"[1..] == "pe" && "pe"[1..] == "e" && "e"[1..] == "";
  }

  lemma {:induction false} SanitizedTitled(parts: seq<string>)
    ensures Titled(SanitizeParts(parts), false, false)
  {
    hide Titled, TitleAll;
    NothingTitled();
    if parts == [] {
    } else {
      TitleAllTitled(Split(parts[0], '_'));
      SanitizedTitled(parts[1..]);
      TitledConcat(SanitizePart(parts[0]), SanitizeParts(parts[1..]), false, false);
    }
  }

  /** A clean and titled name is a fixed point of sanitizing. */
  lemma SanitizeFixed(s: string)
    requires Clean(s) && Titled(s, false, false)
    ensures Sanitize(s) == s
  {
    SplitWhole(s, '.');
    SplitWhole(s, '_');
    assert Split(s, '_') == [s] && Split(s, '.') == [s];
    assert TitleAll([s]) == Title(s) + TitleAll([]);
    assert SanitizeParts([s]) == SanitizePart(s) + SanitizeParts([]);
  }

  /** The prefix of a nested object. */
  predicate IsSubPrefix(prefix: string) { |prefix| >= 2 && prefix[..2] == "_." }

  lemma SubPrefixIsTyped(prefix: string)
    requires IsSubPrefix(prefix)
    ensures TYPE_PREFIX <= Sanitize(prefix)
  {
    var rest := prefix[2..];
    assert prefix == ['_'] + (['.'] + rest);
    assert prefix[1..] == ['.'] + rest && prefix[1..][1..] == rest;
    assert Split(prefix[1..], '.') == [""] + Split(rest, '.');
    assert ['_'] + "" == "_" && ([""] + Split(rest, '.'))[1..] == Split(rest, '.');
    assert Split(prefix, '.') == ["_"] + Split(rest, '.');
    assert SanitizePart("_") == TYPE_PREFIX;
  }

  /** Line 211 of types.go: sanitizing the key of a nested object again changes nothing. */
  lemma NestedKeySanitized(prefix: string, index: nat)
    ensures var key := TypeDefWithIndex(Sanitize(prefix), index); Sanitize(key) == key
  {
    hide Titled;
    SanitizeClean(prefix);
    SanitizedTitled(Split(prefix, '.'));
    DigitsTitled(index);
    TitledConcat(Sanitize(prefix), Decimal(index), false, false);
    SanitizeFixed(TypeDefWithIndex(Sanitize(prefix), index));
  }
}
