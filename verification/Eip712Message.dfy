/** Flattening of a signing payload (ethereum/eip712/message.go): the array under "msgs"
    becomes one field per message, and nothing is lost on the way. */
module Eip712Message {
  import opened Numbers
  import opened Wrappers
  import opened Eip712Names
  import opened Eip712Types

  const MSGS := "msgs"

  datatype Flattened = Flattened(payload: Json, numMsgs: nat)

  // ---- The code ----

  method GetPayloadMessages(payload: Json) returns (msgs: Option<seq<Json>>)
    ensures msgs.Some? <==> payload.Object? && MSGS in payload.members && payload.members[MSGS].Array?
    ensures msgs.Some? ==> msgs.value == payload.members[MSGS].items
  {
    if !payload.Object? || MSGS !in payload.members {
      return None;
    }
    var rawMsgs := payload.members[MSGS];
    if !rawMsgs.Array? {
      return None;
    }
    return Some(rawMsgs.items);
  }

  method PayloadWithNewMessage(members: map<string, Json>, msg: Json, index: nat) returns (r: Option<map<string, Json>>)
    ensures r.Some? <==> MsgFieldForIndex(index) !in members && msg.Object?
    ensures r.Some? ==> r.value == members[MsgFieldForIndex(index) := msg]
  {
    var field := MsgFieldForIndex(index);
    if field in members {
      return None;
    }
    if !msg.Object? {
      return None;
    }
    return Some(members[field := msg]);
  }

  method FlattenPayloadMessages(payload: Json) returns (r: Option<Flattened>)
    ensures r.Some? <==> Flattenable(payload)
    ensures r.Some? ==> IsFlattening(payload, r.value)
  {
    var msgs := GetPayloadMessages(payload);
    if msgs.None? {
      return None;
    }
    var n := |msgs.value|;
    var flattened := payload.members;
    for i := 0 to n
      invariant flattened == WithMessages(payload.members, msgs.value, i)
      invariant forall j :: 0 <= j < i ==> MsgAdmissible(payload.members, msgs.value, j)
    {
      NewMessageIsNew(payload.members, msgs.value, i, i);
      var next := PayloadWithNewMessage(flattened, msgs.value[i], i);
      if next.None? {
        assert !MsgAdmissible(payload.members, msgs.value, i);
        return None;
      }
      flattened := next.value;
    }
    flattened := flattened - {MSGS};
    return Some(Flattened(Object(flattened), n));
  }

  // ---- What it computes ----

  predicate MsgAdmissible(members: map<string, Json>, msgs: seq<Json>, i: nat)
    requires i < |msgs|
  {
    msgs[i].Object? && MsgFieldForIndex(i) !in members
  }

  /** Flattening succeeds on an object whose "msgs" is an array of objects none of whose new names is in use. */
  predicate Flattenable(payload: Json) {
    && payload.Object? && MSGS in payload.members && payload.members[MSGS].Array?
    && var msgs := payload.members[MSGS].items;
       forall i :: 0 <= i < |msgs| ==> MsgAdmissible(payload.members, msgs, i)
  }

  function WithMessages(members: map<string, Json>, msgs: seq<Json>, i: nat): (r: map<string, Json>)
    requires i <= |msgs|
  {
    if i == 0 then members else WithMessages(members, msgs, i - 1)[MsgFieldForIndex(i - 1) := msgs[i - 1]]
  }

  predicate IsFlattening(payload: Json, f: Flattened)
    requires Flattenable(payload)
  {
    var msgs := payload.members[MSGS].items;
    f == Flattened(Object(WithMessages(payload.members, msgs, |msgs|) - {MSGS}), |msgs|)
  }

  lemma FieldNamesDistinct(i: nat, j: nat)
    ensures MsgFieldForIndex(i) == MsgFieldForIndex(j) <==> i == j
    ensures MsgFieldForIndex(i) != MSGS
  {
    assert MsgFieldForIndex(i)[3..] == Decimal(i) && MsgFieldForIndex(j)[3..] == Decimal(j);
    assert MsgFieldForIndex(i)[3] in Decimal(i);
    if MsgFieldForIndex(i) == MsgFieldForIndex(j) {
      DecimalInjective(i, j);
    }
  }

  /** Messages sit at their own names, every other field is untouched. */
  lemma {:induction false} WithMessagesPointwise(members: map<string, Json>, msgs: seq<Json>, i: nat)
    requires i <= |msgs|
    ensures forall j :: 0 <= j < i ==>
              var k := MsgFieldForIndex(j);
              k in WithMessages(members, msgs, i) && WithMessages(members, msgs, i)[k] == msgs[j]
    ensures forall k :: (forall j :: 0 <= j < i ==> k != MsgFieldForIndex(j)) ==>
              (k in WithMessages(members, msgs, i) <==> k in members) &&
              (k in members ==> WithMessages(members, msgs, i)[k] == members[k])
  {
    hide MsgFieldForIndex;
    if i == 0 {
    } else {
      WithMessagesPointwise(members, msgs, i - 1);
      forall j | 0 <= j < i - 1 ensures MsgFieldForIndex(j) != MsgFieldForIndex(i - 1) {
        FieldNamesDistinct(j, i - 1);
      }
    }
  }

  lemma NewMessageIsNew(members: map<string, Json>, msgs: seq<Json>, i: nat, j: nat)
    requires i <= j < |msgs|
    ensures MsgFieldForIndex(j) in WithMessages(members, msgs, i) <==> MsgFieldForIndex(j) in members
  {
    hide MsgFieldForIndex;
    WithMessagesPointwise(members, msgs, i);
    forall j' | 0 <= j' < i ensures MsgFieldForIndex(j) != MsgFieldForIndex(j') {
      FieldNamesDistinct(j, j');
    }
  }

  // ---- Nothing is lost ----

  ghost function NewNames(n: nat): (names: set<string>) {
    set j | 0 <= j < n :: MsgFieldForIndex(j)
  }

  /** Collects the message fields back into the array. */
  ghost function Unflatten(f: Flattened): (payload: Json)
    requires f.payload.Object? && NewNames(f.numMsgs) <= f.payload.members.Keys
  {
    var members := f.payload.members;
    var msgs := seq(f.numMsgs, j requires 0 <= j < f.numMsgs =>
                      assert MsgFieldForIndex(j) in NewNames(f.numMsgs); members[MsgFieldForIndex(j)]);
    Object((members - NewNames(f.numMsgs))[MSGS := Array(msgs)])
  }

  /** The original payload is recovered from the flattened one and the count. */
  lemma UnflattenRestores(payload: Json, f: Flattened)
    requires Flattenable(payload) && IsFlattening(payload, f)
    ensures f.payload.Object? && NewNames(f.numMsgs) <= f.payload.members.Keys
    ensures Unflatten(f) == payload
  {
    hide MsgFieldForIndex;
    var members := payload.members;
    var msgs := members[MSGS].items;
    var n := |msgs|;
    WithMessagesPointwise(members, msgs, n);
    forall j | 0 <= j < n ensures MsgFieldForIndex(j) != MSGS && MsgFieldForIndex(j) !in members {
      FieldNamesDistinct(j, j);
      assert MsgAdmissible(members, msgs, j);
    }
    var restored := Unflatten(f).members;
    assert restored[MSGS].items == msgs;
    forall k ensures k in restored <==> k in members {
      if k in members && k != MSGS {
        assert k !in NewNames(n);
      }
    }
    assert restored == members;
  }

  /** Flattening succeeds exactly on an object with an array "msgs" of objects and no field
      "msg0", "msg1", ... for them yet. */
  lemma FlattenSucceeds(payload: Json)
    ensures Flattenable(payload) <==>
            && payload.Object? && "msgs" in payload.members && payload.members["msgs"].Array?
            && var msgs := payload.members["msgs"].items;
               forall j :: 0 <= j < |msgs| ==> msgs[j].Object? && "msg" + Decimal(j) !in payload.members
  {
    hide Decimal;
    if payload.Object? && MSGS in payload.members && payload.members[MSGS].Array? {
      var msgs := payload.members[MSGS].items;
      if Flattenable(payload) {
        forall j | 0 <= j < |msgs| ensures msgs[j].Object? && "msg" + Decimal(j) !in payload.members {
          assert MsgAdmissible(payload.members, msgs, j);
        }
      } else {
        var j :| 0 <= j < |msgs| && !MsgAdmissible(payload.members, msgs, j);
        assert !(msgs[j].Object? && "msg" + Decimal(j) !in payload.members);
      }
    }
  }

  /** The result has message j at "msg" with j, no "msgs", and every other field as it was. */
  lemma FlattenedFields(payload: Json, f: Flattened)
    requires Flattenable(payload) && IsFlattening(payload, f)
    ensures var members, msgs := payload.members, payload.members["msgs"].items;
            && f.payload.Object? && f.numMsgs == |msgs| && "msgs" !in f.payload.members
            && (forall j :: 0 <= j < |msgs| ==>
                  var k := "msg" + Decimal(j); k in f.payload.members && f.payload.members[k] == msgs[j])
            && (forall k :: k != "msgs" && (forall j :: 0 <= j < |msgs| ==> k != "msg" + Decimal(j)) ==>
                  (k in f.payload.members <==> k in members) && (k in members ==> f.payload.members[k] == members[k]))
  {
    hide Decimal;
    var msgs := payload.members[MSGS].items;
    WithMessagesPointwise(payload.members, msgs, |msgs|);
    forall j | 0 <= j < |msgs|
      ensures var k := "msg" + Decimal(j); k in f.payload.members && f.payload.members[k] == msgs[j]
    {
      FieldNamesDistinct(j, j);
      assert MsgFieldForIndex(j) == "msg" + Decimal(j);
    }
  }

  lemma FlattenInjective(p: Json, q: Json, f: Flattened)
    requires Flattenable(p) && Flattenable(q) && IsFlattening(p, f) && IsFlattening(q, f)
    ensures p == q
  {
    UnflattenRestores(p, f);
    UnflattenRestores(q, f);
  }

  /** From the original payload to the schema: message j of "msgs" is described by Tx field 5 + j. */
  lemma MessagesDescribed(payload: Json, f: Flattened, j: nat)
    requires Flattenable(payload) && IsFlattening(payload, f)
    requires AddMsgs(INITIAL, f.payload, 0, f.numMsgs).ok && j < f.numMsgs
    ensures var types := AddMsgs(INITIAL, f.payload, 0, f.numMsgs).types;
            && TX in types && 5 + j < |types[TX]|
            && Describes(types, types[TX][5 + j].typ, payload.members[MSGS].items[j])
  {
    hide AddMsgs, Describes, Infer, MsgFieldForIndex;
    PayloadTyped(f.payload, f.numMsgs);
    var msgs := payload.members[MSGS].items;
    WithMessagesPointwise(payload.members, msgs, |msgs|);
    FieldNamesDistinct(j, j);
    assert MsgTyped(AddMsgs(INITIAL, f.payload, 0, f.numMsgs).types, f.payload, 5, j);
  }
}
