/** Gas for signature verification (app/ante/sigverify.go): the recursion over nested
    multisignatures and the meter it charges. */
module MultisigGas {

  const SECP256K1_VERIFY_COST := 21000

  datatype PubKey = EthSecp256k1 | Ed25519 | Multisig(keys: seq<PubKey>) | OtherKey

  datatype SigData = Single | Multi(bits: seq<bool>, sigs: seq<SigData>)

  /** A run ends with success, an error, a failed index or an exhausted meter. */
  datatype Result = Done | UnsupportedKey | WrongSignatureData | IndexPanic | OutOfGas

  datatype Charged = Charged(result: Result, consumed: nat)

  /** Gas is added first and checked against the limit afterwards. */
  function Charge(consumed: nat, amount: nat, limit: nat): (r: Charged) {
    Charged(if consumed + amount > limit then OutOfGas else Done, consumed + amount)
  }

  /** SigVerificationGasConsumer */
  function Consume(key: PubKey, sig: SigData, consumed: nat, limit: nat, ed25519Cost: nat): (r: Charged)
    decreases key, 1
  {
    match key
    case EthSecp256k1 => Charge(consumed, SECP256K1_VERIFY_COST, limit)
    case Ed25519 =>
      var r := Charge(consumed, ed25519Cost, limit);
      if r.result.Done? then r.(result := UnsupportedKey) else r
    case Multisig(keys) =>
      if sig.Single? then Charged(WrongSignatureData, consumed)
      else ConsumeFrom(key, sig, 0, 0, consumed, limit, ed25519Cost)
    case OtherKey => Charged(UnsupportedKey, consumed)
  }

  /** The loop of ConsumeMultisignatureVerificationGas from bit `i` on. */
  function ConsumeFrom(key: PubKey, sig: SigData, i: nat, sigIndex: nat, consumed: nat, limit: nat,
                       ed25519Cost: nat): (r: Charged)
    requires key.Multisig? && sig.Multi? && i <= |sig.bits|
    decreases key, 0, |sig.bits| - i
  {
    if i == |sig.bits| then Charged(Done, consumed)
    else if !sig.bits[i] then ConsumeFrom(key, sig, i + 1, sigIndex, consumed, limit, ed25519Cost)
    else if i >= |key.keys| || sigIndex >= |sig.sigs| then Charged(IndexPanic, consumed)
    else
      var r := Consume(key.keys[i], sig.sigs[sigIndex], consumed, limit, ed25519Cost);
      if !r.result.Done? then r
      else ConsumeFrom(key, sig, i + 1, sigIndex + 1, r.consumed, limit, ed25519Cost)
  }

  // ------------------------------------------------------------------
  // The signatures a multisignature actually carries
  // ------------------------------------------------------------------

  /** The positions of the set bits from `i` on, in order. */
  function SetBits(bits: seq<bool>, i: nat): (ks: seq<nat>)
    requires i <= |bits|
    ensures forall j :: 0 <= j < |ks| ==> i <= ks[j] < |bits| && bits[ks[j]]
    decreases |bits| - i
  {
    if i == |bits| then []
    else if bits[i] then [i] + SetBits(bits, i + 1)
    else SetBits(bits, i + 1)
  }

  /** Signature k belongs to the key of the k-th set bit, and all flagged leaves are Ethereum keys. */
  ghost predicate AllEth(key: PubKey, sig: SigData)
    decreases key
  {
    match key
    case EthSecp256k1 => true
    case Multisig(keys) =>
      && sig.Multi?
      && var ks := SetBits(sig.bits, 0);
         && |ks| <= |sig.sigs|
         && forall k :: 0 <= k < |ks| ==> ks[k] < |keys| && AllEth(keys[ks[k]], sig.sigs[k])
    case _ => false
  }

  /** The number of flagged leaves. */
  ghost function Leaves(key: PubKey, sig: SigData): (n: nat)
    requires AllEth(key, sig)
    decreases key, 1
  {
    match key
    case EthSecp256k1 => 1
    case Multisig(keys) => LeavesFrom(key, sig, 0)
  }

  ghost function LeavesFrom(key: PubKey, sig: SigData, k: nat): (n: nat)
    requires key.Multisig? && AllEth(key, sig) && k <= |SetBits(sig.bits, 0)|
    decreases key, 0, |SetBits(sig.bits, 0)| - k
  {
    var ks := SetBits(sig.bits, 0);
    if k == |ks| then 0 else Leaves(key.keys[ks[k]], sig.sigs[k]) + LeavesFrom(key, sig, k + 1)
  }

  // ------------------------------------------------------------------
  // The recursion charges exactly the flagged leaves
  // ------------------------------------------------------------------

  /** The loop is at bit `i` having used `k` signatures: the set bits left are those from index k on. */
  ghost predicate InStep(bits: seq<bool>, i: nat, k: nat) {
    i <= |bits| && k <= |SetBits(bits, 0)| && SetBits(bits, i) == SetBits(bits, 0)[k..]
  }

  lemma NextBit(bits: seq<bool>, i: nat, k: nat)
    requires InStep(bits, i, k) && i < |bits|
    ensures if bits[i] then k < |SetBits(bits, 0)| && SetBits(bits, 0)[k] == i && InStep(bits, i + 1, k + 1)
            else InStep(bits, i + 1, k)
  {
    var ks := SetBits(bits, 0);
    if bits[i] {
      assert SetBits(bits, i)[0] == i && SetBits(bits, i)[1..] == SetBits(bits, i + 1);
      assert ks[k..][1..] == ks[k + 1..];
    }
  }

  ghost predicate RestEth(key: PubKey, sig: SigData, k: nat)
    requires key.Multisig? && sig.Multi?
  {
    var ks := SetBits(sig.bits, 0);
    && |ks| <= |sig.sigs|
    && forall j :: k <= j < |ks| ==> ks[j] < |key.keys| && AllEth(key.keys[ks[j]], sig.sigs[j])
  }

  lemma {:induction false} ConsumeExact(key: PubKey, sig: SigData, consumed: nat, limit: nat, ed25519Cost: nat)
    requires consumed <= limit
    ensures var r := Consume(key, sig, consumed, limit, ed25519Cost);
            && (r.result.Done? <==> AllEth(key, sig) && consumed + SECP256K1_VERIFY_COST * Leaves(key, sig) <= limit)
            && (r.result.Done? ==> r.consumed == consumed + SECP256K1_VERIFY_COST * Leaves(key, sig))
    decreases key, 1
  {
    if key.Multisig? && sig.Multi? {
      assert SetBits(sig.bits, 0)[0..] == SetBits(sig.bits, 0);
      ConsumeFromExact(key, sig, 0, 0, consumed, limit, ed25519Cost);
      assert AllEth(key, sig) <==> RestEth(key, sig, 0);
      if AllEth(key, sig) {
        RestLeavesAll(key, sig, 0);
      }
    }
  }

  /** The leaves from signature `k` on, defined without looking at earlier ones. */
  ghost function RestLeaves(key: PubKey, sig: SigData, k: nat): (n: nat)
    requires key.Multisig? && sig.Multi? && k <= |SetBits(sig.bits, 0)| && RestEth(key, sig, k)
    decreases |SetBits(sig.bits, 0)| - k
  {
    var ks := SetBits(sig.bits, 0);
    if k == |ks| then 0 else Leaves(key.keys[ks[k]], sig.sigs[k]) + RestLeaves(key, sig, k + 1)
  }

  lemma {:induction false} RestLeavesAll(key: PubKey, sig: SigData, k: nat)
    requires key.Multisig? && AllEth(key, sig) && k <= |SetBits(sig.bits, 0)|
    ensures RestLeaves(key, sig, k) == LeavesFrom(key, sig, k)
    decreases |SetBits(sig.bits, 0)| - k
  {
    if k == |SetBits(sig.bits, 0)| {
    } else {
      RestLeavesAll(key, sig, k + 1);
    }
  }

  lemma {:induction false} ConsumeFromExact(
    key: PubKey, sig: SigData, i: nat, k: nat, consumed: nat, limit: nat, ed25519Cost: nat)
    requires key.Multisig? && sig.Multi? && InStep(sig.bits, i, k) && consumed <= limit && k <= |sig.sigs|
    ensures var r := ConsumeFrom(key, sig, i, k, consumed, limit, ed25519Cost);
            && (r.result.Done? <==>
                  RestEth(key, sig, k) && consumed + SECP256K1_VERIFY_COST * RestLeaves(key, sig, k) <= limit)
            && (r.result.Done? ==> r.consumed == consumed + SECP256K1_VERIFY_COST * RestLeaves(key, sig, k))
    decreases key, 0, |sig.bits| - i
  {
    hide AllEth, Leaves, SetBits, Consume;
    if i == |sig.bits| {
      NoBitsLeft(sig.bits, k);
    } else {
      NextBit(sig.bits, i, k);
      if !sig.bits[i] {
        ConsumeFromExact(key, sig, i + 1, k, consumed, limit, ed25519Cost);
      } else if i < |key.keys| && k < |sig.sigs| {
        var sub, part := key.keys[i], sig.sigs[k];
        ConsumeExact(sub, part, consumed, limit, ed25519Cost);
        var r := Consume(sub, part, consumed, limit, ed25519Cost);
        if r.result.Done? {
          ConsumeFromExact(key, sig, i + 1, k + 1, r.consumed, limit, ed25519Cost);
          assert RestEth(key, sig, k) <==> RestEth(key, sig, k + 1);
        }
      }
    }
  }

  lemma NoBitsLeft(bits: seq<bool>, k: nat)
    requires InStep(bits, |bits|, k)
    ensures k == |SetBits(bits, 0)|
  {
  }

  // ------------------------------------------------------------------
  // What any run charges, failing ones included
  // ------------------------------------------------------------------

  /** The charges of a verification in order, and how it ends, were there gas without limit. */
  datatype Trace = Trace(charges: seq<nat>, end: Result)

  ghost function TraceOf(key: PubKey, sig: SigData, ed25519Cost: nat): (t: Trace)
    decreases key, 1
  {
    match key
    case EthSecp256k1 => Trace([21000], Done)
    case Ed25519 => Trace([ed25519Cost], UnsupportedKey)
    case Multisig(_) => if sig.Multi? then TraceFrom(key, sig, 0, ed25519Cost) else Trace([], WrongSignatureData)
    case OtherKey => Trace([], UnsupportedKey)
  }

  /** From the k-th set bit on: signature k with the key at that bit, until one does not succeed. */
  ghost function TraceFrom(key: PubKey, sig: SigData, k: nat, ed25519Cost: nat): (t: Trace)
    requires key.Multisig? && sig.Multi? && k <= |SetBits(sig.bits, 0)|
    decreases key, 0, |SetBits(sig.bits, 0)| - k
  {
    var ks := SetBits(sig.bits, 0);
    if k == |ks| then Trace([], Done)
    else if ks[k] >= |key.keys| || k >= |sig.sigs| then Trace([], IndexPanic)
    else
      var first := TraceOf(key.keys[ks[k]], sig.sigs[k], ed25519Cost);
      if first.end.Done? then
        var rest := TraceFrom(key, sig, k + 1, ed25519Cost);
        Trace(first.charges + rest.charges, rest.end)
      else first
  }

  /** A meter that is charged these amounts in turn and stops when one exceeds the limit. */
  function Metered(t: Trace, consumed: nat, limit: nat): (r: Charged)
    decreases |t.charges|
  {
    if t.charges == [] then Charged(t.end, consumed)
    else if consumed + t.charges[0] > limit then Charged(OutOfGas, consumed + t.charges[0])
    else Metered(Trace(t.charges[1..], t.end), consumed + t.charges[0], limit)
  }

  lemma {:induction false} MeteredConcat(a: seq<nat>, b: Trace, consumed: nat, limit: nat)
    ensures var first := Metered(Trace(a, Done), consumed, limit);
            Metered(Trace(a + b.charges, b.end), consumed, limit) ==
            if first.result.Done? then Metered(b, first.consumed, limit) else first
    decreases |a|
  {
    if a == [] {
      assert a + b.charges == b.charges;
    } else {
      assert (a + b.charges)[1..] == a[1..] + b.charges;
      if consumed + a[0] <= limit {
        MeteredConcat(a[1..], b, consumed + a[0], limit);
      }
    }
  }

  /** Every verification, successful or not, charges its trace until the meter runs out. */
  lemma {:induction false} ConsumeIsMetered(key: PubKey, sig: SigData, consumed: nat, limit: nat, ed25519Cost: nat)
    ensures Consume(key, sig, consumed, limit, ed25519Cost) ==
            Metered(TraceOf(key, sig, ed25519Cost), consumed, limit)
    decreases key, 1
  {
    if key.Multisig? && sig.Multi? {
      assert SetBits(sig.bits, 0)[0..] == SetBits(sig.bits, 0);
      ConsumeFromIsMetered(key, sig, 0, 0, consumed, limit, ed25519Cost);
    } else if key.EthSecp256k1? || key.Ed25519? {
      assert TraceOf(key, sig, ed25519Cost).charges[1..] == [];
    }
  }

  lemma {:induction false} ConsumeFromIsMetered(
    key: PubKey, sig: SigData, i: nat, k: nat, consumed: nat, limit: nat, ed25519Cost: nat)
    requires key.Multisig? && sig.Multi? && InStep(sig.bits, i, k)
    ensures ConsumeFrom(key, sig, i, k, consumed, limit, ed25519Cost) ==
            Metered(TraceFrom(key, sig, k, ed25519Cost), consumed, limit)
    decreases key, 0, |sig.bits| - i
  {
    hide SetBits, Consume, TraceOf;
    if i == |sig.bits| {
      NoBitsLeft(sig.bits, k);
    } else {
      NextBit(sig.bits, i, k);
      if !sig.bits[i] {
        ConsumeFromIsMetered(key, sig, i + 1, k, consumed, limit, ed25519Cost);
      } else if i < |key.keys| && k < |sig.sigs| {
        var sub, part := key.keys[i], sig.sigs[k];
        ConsumeIsMetered(sub, part, consumed, limit, ed25519Cost);
        var r := Consume(sub, part, consumed, limit, ed25519Cost);
        var first := TraceOf(sub, part, ed25519Cost);
        MeteredEnd(first, consumed, limit);
        if first.end.Done? {
          MeteredConcat(first.charges, TraceFrom(key, sig, k + 1, ed25519Cost), consumed, limit);
        }
        if r.result.Done? {
          ConsumeFromIsMetered(key, sig, i + 1, k + 1, r.consumed, limit, ed25519Cost);
        }
      }
    }
  }

  lemma {:induction false} MeteredEnd(t: Trace, consumed: nat, limit: nat)
    ensures Metered(t, consumed, limit).result in {OutOfGas, t.end}
    decreases |t.charges|
  {
    if t.charges == [] {
    } else {
      MeteredEnd(Trace(t.charges[1..], t.end), consumed + t.charges[0], limit);
    }
  }

  // ------------------------------------------------------------------
  // The code
  // ------------------------------------------------------------------

  class GasMeter {
    var consumed: nat
    const limit: nat

    constructor (limit: nat)
      ensures this.limit == limit && consumed == 0
    {
      this.limit := limit;
      consumed := 0;
    }

    method ConsumeGas(amount: nat) returns (r: Result)
      modifies this
      ensures Charged(r, consumed) == Charge(old(consumed), amount, limit)
    {
      consumed := consumed + amount;
      return if consumed > limit then OutOfGas else Done;
    }
  }

  method SigVerificationGasConsumer(meter: GasMeter, key: PubKey, sig: SigData, ed25519Cost: nat) returns (r: Result)
    modifies meter
    ensures Charged(r, meter.consumed) == Consume(key, sig, old(meter.consumed), meter.limit, ed25519Cost)
    decreases key, 1
  {
    match key
    case EthSecp256k1 => r := meter.ConsumeGas(SECP256K1_VERIFY_COST);
    case Ed25519 =>
      r := meter.ConsumeGas(ed25519Cost);
      if r.Done? {
        r := UnsupportedKey;
      }
    case Multisig(_) =>
      if sig.Single? {
        r := WrongSignatureData;
      } else {
        r := ConsumeMultisignatureVerificationGas(meter, sig, key, ed25519Cost);
      }
    case OtherKey => r := UnsupportedKey;
  }

  method ConsumeMultisignatureVerificationGas(meter: GasMeter, sig: SigData, key: PubKey, ed25519Cost: nat)
    returns (r: Result)
    requires key.Multisig? && sig.Multi?
    modifies meter
    ensures Charged(r, meter.consumed) == ConsumeFrom(key, sig, 0, 0, old(meter.consumed), meter.limit, ed25519Cost)
    decreases key, 0
  {
    var sigIndex := 0;
    for i := 0 to |sig.bits|
      invariant 0 <= sigIndex
      invariant ConsumeFrom(key, sig, 0, 0, old(meter.consumed), meter.limit, ed25519Cost)
             == ConsumeFrom(key, sig, i, sigIndex, meter.consumed, meter.limit, ed25519Cost)
    {
      if !sig.bits[i] {
        continue;
      }
      if i >= |key.keys| || sigIndex >= |sig.sigs| {
        return IndexPanic;
      }
      var err := SigVerificationGasConsumer(meter, key.keys[i], sig.sigs[sigIndex], ed25519Cost);
      if !err.Done? {
        return err;
      }
      sigIndex := sigIndex + 1;
    }
    return Done;
  }
}
