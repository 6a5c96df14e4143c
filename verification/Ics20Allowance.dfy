/** ICS-20 transfer allowances (precompiles/ics20/approve_common.go, types.go): a grant holds one
    spend limit per port and channel, edited in place. */
module Ics20Allowance {
  import opened Order
  import opened Wrappers
  import opened Coins
  import opened EvmTypes

  datatype Allocation = Allocation(port: string, channel: string, spendLimit: seq<Coin>, allowList: seq<string>)

  datatype Authorization = Transfer(allocations: seq<Allocation>) | OtherAuthorization

  datatype Grant = Grant(auth: Authorization, expiration: Option<int>)

  /** Grants keyed by (granter, grantee), and the block time. */
  datatype Ledger = Ledger(grants: map<(Address, Address), Grant>, now: int)

  datatype Error =
    | AuthzDoesNotExistOrExpired
    | UnknownAuthorizationType
    | NoMatchingAllocation
    | IntegerOverflow
    | NegativeAmount
    | InvalidExpiration
    | ChannelNotFound
    | InvalidAuthorization
    | InvalidAmount
    | DifferentOriginFromSender
    | ReceiverNotAllowed
    | InsufficientAllowance
    | TransferFailed

  datatype Outcome = Ok(ledger: Ledger) | Err(error: Error)

  // ------------------------------------------------------------------
  // Specification functions
  // ------------------------------------------------------------------

  function GetTransferAuthz(l: Ledger, granter: Address, grantee: Address): (r: Option<Grant>) {
    if (granter, grantee) !in l.grants then None
    else
      var g := l.grants[(granter, grantee)];
      if g.expiration.Some? && g.expiration.value < l.now then None else Some(g)
  }

  function SaveGrant(l: Ledger, granter: Address, grantee: Address, g: Grant): (r: Outcome) {
    if g.expiration.Some? && g.expiration.value <= l.now then Err(InvalidExpiration)
    else Ok(l.(grants := l.grants[(granter, grantee) := g]))
  }

  /** The first allocation for the port and channel from index `i` on, if it knows the denomination. */
  function AllocationIndex(allocs: seq<Allocation>, port: string, channel: string, denom: string,
                           i: nat): (r: Option<nat>)
    requires i <= |allocs|
    ensures r.Some? ==> i <= r.value < |allocs| && Find(allocs[r.value].spendLimit, denom).Some?
    decreases |allocs| - i
  {
    if i == |allocs| then None
    else if allocs[i].port != port || allocs[i].channel != channel then
      AllocationIndex(allocs, port, channel, denom, i + 1)
    else if Find(allocs[i].spendLimit, denom).None? then None
    else Some(i)
  }

  /** The allocation a call works on. */
  datatype Target = Target(g: Grant, idx: nat, limit: int) | NoTarget(error: Error)

  function TargetOf(l: Ledger, granter: Address, grantee: Address, port: string, channel: string,
                    denom: string): (r: Target)
    ensures r.Target? ==> r.g.auth.Transfer? && r.idx < |r.g.auth.allocations|
  {
    match GetTransferAuthz(l, granter, grantee)
    case None => NoTarget(AuthzDoesNotExistOrExpired)
    case Some(g) =>
      if !g.auth.Transfer? then NoTarget(UnknownAuthorizationType)
      else
        match AllocationIndex(g.auth.allocations, port, channel, denom, 0)
        case None => NoTarget(NoMatchingAllocation)
        case Some(idx) => Target(g, idx, Find(g.auth.allocations[idx].spendLimit, denom).value.amount)
  }

  function WithLimit(g: Grant, idx: nat, coins: seq<Coin>): (r: Grant)
    requires g.auth.Transfer? && idx < |g.auth.allocations|
  {
    var a := g.auth.allocations[idx];
    g.(auth := Transfer(g.auth.allocations[idx := a.(spendLimit := coins)]))
  }

  function IncreaseAllowance(
    l: Ledger, granter: Address, grantee: Address, port: string, channel: string, denom: string,
    amount: uint256): (r: Outcome)
  {
    match TargetOf(l, granter, grantee, port, channel, denom)
    case NoTarget(e) => Err(e)
    case Target(g, idx, limit) =>
      if SafeAdd(limit, amount).1 then Err(IntegerOverflow)
      else
        var coins := AddCoin(g.auth.allocations[idx].spendLimit, Coin(denom, amount));
        SaveGrant(l, granter, grantee, WithLimit(g, idx, coins))
  }

  function DecreaseAllowance(
    l: Ledger, granter: Address, grantee: Address, port: string, channel: string, denom: string,
    amount: uint256): (r: Outcome)
  {
    match TargetOf(l, granter, grantee, port, channel, denom)
    case NoTarget(e) => Err(e)
    case Target(g, idx, limit) =>
      if limit < amount then Err(NegativeAmount)
      else
        var coins := SubCoin(g.auth.allocations[idx].spendLimit, Coin(denom, amount));
        SaveGrant(l, granter, grantee, WithLimit(g, idx, coins))
  }

  /** An allocation as decoded from the call; it has no allow list. */
  datatype Input = Input(port: string, channel: string, spendLimit: seq<Coin>)

  function Allocations(inputs: seq<Input>): (allocs: seq<Allocation>)
    ensures |allocs| == |inputs|
  {
    seq(|inputs|, i requires 0 <= i < |inputs| =>
      Allocation(inputs[i].port, inputs[i].channel, inputs[i].spendLimit, []))
  }

  predicate DistinctChannels(allocs: seq<Allocation>) {
    forall i, j :: 0 <= i < j < |allocs| ==> allocs[i].channel != allocs[j].channel
  }

  predicate InRange(coins: seq<Coin>) {
    forall i :: 0 <= i < |coins| ==> coins[i].amount <= MAX_UINT256
  }

  /** TransferAuthorization.ValidateBasic, the syntax of names apart. */
  predicate ValidAllocations(allocs: seq<Allocation>) {
    && allocs != [] && DistinctChannels(allocs)
    && forall i :: 0 <= i < |allocs| ==> ValidCoins(allocs[i].spendLimit) && InRange(allocs[i].spendLimit)
  }

  predicate Open(channels: set<(string, string)>, allocs: seq<Allocation>) {
    forall i :: 0 <= i < |allocs| ==> (allocs[i].port, allocs[i].channel) in channels
  }

  /** `wellNamed` says whether denominations, ports and channels are well-formed names. */
  function Approve(l: Ledger, channels: set<(string, string)>, granter: Address, grantee: Address, inputs: seq<Input>,
                   wellNamed: bool, duration: int): (r: Outcome)
  {
    var allocs := Allocations(inputs);
    if !wellNamed || !ValidAllocations(allocs) then Err(InvalidAuthorization)
    else if !Open(channels, allocs) then Err(ChannelNotFound)
    else SaveGrant(l, granter, grantee, Grant(Transfer(allocs), Some(l.now + duration)))
  }

  function Revoke(l: Ledger, granter: Address, grantee: Address): (r: Outcome) {
    match GetTransferAuthz(l, granter, grantee)
    case None => Err(AuthzDoesNotExistOrExpired)
    case Some(g) =>
      if !g.auth.Transfer? then Err(UnknownAuthorizationType)
      else Ok(l.(grants := l.grants - {(granter, grantee)}))
  }

  /** What accepting a transfer leaves of the allocations. */
  datatype Accepted = Refused(error: Error) | Unlimited | Left(allocs: seq<Allocation>)

  /** TransferAuthorization.Accept from allocation `i` on: the first allocation for the port and
      channel decides, a limit of 2^256 - 1 is never reduced, and a used-up allocation is dropped. */
  function Accept(allocs: seq<Allocation>, port: string, channel: string, receiver: string, coin: Coin,
                  i: nat): (r: Accepted)
    requires i <= |allocs|
    decreases |allocs| - i
  {
    if i == |allocs| then Refused(NoMatchingAllocation)
    else if allocs[i].port != port || allocs[i].channel != channel then
      Accept(allocs, port, channel, receiver, coin, i + 1)
    else AcceptAt(allocs, receiver, coin, i)
  }

  function AcceptAt(allocs: seq<Allocation>, receiver: string, coin: Coin, i: nat): (r: Accepted)
    requires i < |allocs|
  {
    var a := allocs[i];
    if a.allowList != [] && receiver !in a.allowList then Refused(ReceiverNotAllowed)
    else if FindAmount(a.spendLimit, coin.denom) == MAX_UINT256 then Unlimited
    else
      var left := SubCoin(a.spendLimit, coin);
      if AnyNegative(left) then Refused(InsufficientAllowance)
      else if left == [] then Left(allocs[..i] + allocs[i + 1..])
      else Left(allocs[i := a.(spendLimit := left)])
  }

  /** The grant after a transfer was accepted: deleted when no allocation is left. */
  function UpdateGrant(l: Ledger, granter: Address, grantee: Address, g: Grant, accepted: Accepted): (r: Outcome) {
    match accepted
    case Refused(e) => Err(e)
    case Unlimited => Ok(l)
    case Left(allocs) =>
      if allocs == [] then Ok(l.(grants := l.grants - {(granter, grantee)}))
      else SaveGrant(l, granter, grantee, g.(auth := Transfer(allocs)))
  }

  /** The transfer call; `transferOk` is the outcome of the IBC transfer itself. A caller that is
      not the origin spends the allowance the origin gave it. */
  function SpendAllowance(l: Ledger, channels: set<(string, string)>, origin: Address, caller: Address, sender: Address,
                          port: string, channel: string, receiver: string, coin: Coin, transferOk: bool): (r: Outcome)
  {
    if coin.amount <= 0 then Err(InvalidAmount)
    else if (port, channel) !in channels then Err(ChannelNotFound)
    else if caller != sender && origin != sender then Err(DifferentOriginFromSender)
    else if caller == origin then if transferOk then Ok(l) else Err(TransferFailed)
    else
      match GetTransferAuthz(l, origin, caller)
      case None => Err(AuthzDoesNotExistOrExpired)
      case Some(g) =>
        if !g.auth.Transfer? then Err(UnknownAuthorizationType)
        else
          var accepted := Accept(g.auth.allocations, port, channel, receiver, coin, 0);
          if accepted.Refused? then Err(accepted.error)
          else if !transferOk then Err(TransferFailed)
          else UpdateGrant(l, origin, caller, g, accepted)
  }

  // ------------------------------------------------------------------
  // The invariant and what the calls do
  // ------------------------------------------------------------------

  /** Strictly sorted, positive and below 2^256. */
  ghost predicate LimitOk(coins: seq<Coin>) {
    ValidCoins(coins) && forall d :: AmountOf(coins, d) <= MAX_UINT256
  }

  ghost predicate GrantOk(g: Grant) {
    g.auth.Transfer? ==> forall i :: 0 <= i < |g.auth.allocations| ==> LimitOk(g.auth.allocations[i].spendLimit)
  }

  ghost predicate LedgerOk(l: Ledger) {
    forall k :: k in l.grants ==> GrantOk(l.grants[k])
  }

  /** What the grantee may still transfer through a channel. */
  function Allowance(l: Ledger, granter: Address, grantee: Address, port: string, channel: string,
                     denom: string): (a: int)
  {
    var t := TargetOf(l, granter, grantee, port, channel, denom);
    if t.Target? then t.limit else 0
  }

  /** The spend limit of the target allocation moves by `delta` in one denomination; every other
      coin, allocation, grant and the order of the allocations stay. */
  ghost predicate Adjusts(l: Ledger, l': Ledger, granter: Address, grantee: Address, t: Target, denom: string,
                          delta: int)
    requires t.Target? && t.g.auth.Transfer? && t.idx < |t.g.auth.allocations|
  {
    exists coins: seq<Coin> ::
      && LimitOk(coins)
      && (forall d :: AmountOf(coins, d) ==
                      AmountOf(t.g.auth.allocations[t.idx].spendLimit, d) + if d == denom then delta else 0)
      && l' == l.(grants := l.grants[(granter, grantee) := WithLimit(t.g, t.idx, coins)])
  }

  lemma TargetValid(l: Ledger, granter: Address, grantee: Address, port: string, channel: string, denom: string)
    requires LedgerOk(l)
    ensures var t := TargetOf(l, granter, grantee, port, channel, denom);
            t.Target? ==>
              && LimitOk(t.g.auth.allocations[t.idx].spendLimit)
              && t.limit == AmountOf(t.g.auth.allocations[t.idx].spendLimit, denom) > 0
  {
    hide Find;
    var t := TargetOf(l, granter, grantee, port, channel, denom);
    if t.Target? {
      var coins := t.g.auth.allocations[t.idx].spendLimit;
      FindExact(coins, denom);
      AmountSign(coins, denom);
    }
  }

  lemma {:induction false} SubCoinAmounts(coins: seq<Coin>, coin: Coin, d: string)
    requires Sorted(coins)
    ensures AmountOf(SubCoin(coins, coin), d) == AmountOf(coins, d) - if d == coin.denom then coin.amount else 0
  {
    AddCoinAmounts(coins, Coin(coin.denom, -coin.amount), d);
  }

  lemma AdjustKeepsOk(l: Ledger, l': Ledger, granter: Address, grantee: Address, t: Target, denom: string, delta: int)
    requires LedgerOk(l) && t.Target? && GrantOk(t.g) && t.g.auth.Transfer? && t.idx < |t.g.auth.allocations|
    requires Adjusts(l, l', granter, grantee, t, denom, delta)
    ensures LedgerOk(l')
  {
    hide LimitOk, AmountOf;
  }

  lemma IncreaseAdjusts(
    l: Ledger, granter: Address, grantee: Address, port: string, channel: string, denom: string, amount: uint256)
    requires LedgerOk(l) && IncreaseAllowance(l, granter, grantee, port, channel, denom, amount).Ok?
    ensures var t := TargetOf(l, granter, grantee, port, channel, denom);
            var l' := IncreaseAllowance(l, granter, grantee, port, channel, denom, amount).ledger;
            t.Target? && Adjusts(l, l', granter, grantee, t, denom, amount) && LedgerOk(l')
  {
    hide AddCoin, TargetOf, WithLimit, SafeAdd;
    var t := TargetOf(l, granter, grantee, port, channel, denom);
    TargetValid(l, granter, grantee, port, channel, denom);
    SafeAddExact(t.limit, amount);
    var coins := t.g.auth.allocations[t.idx].spendLimit;
    var coin := Coin(denom, amount);
    AddCoinValid(coins, coin);
    forall d ensures AmountOf(AddCoin(coins, coin), d) == AmountOf(coins, d) + if d == denom then amount else 0 {
      AddCoinAmounts(coins, coin, d);
    }
    TargetGrantOk(l, granter, grantee, port, channel, denom);
    var l' := IncreaseAllowance(l, granter, grantee, port, channel, denom, amount).ledger;
    assert Adjusts(l, l', granter, grantee, t, denom, amount);
    AdjustKeepsOk(l, l', granter, grantee, t, denom, amount);
  }

  lemma TargetGrantOk(l: Ledger, granter: Address, grantee: Address, port: string, channel: string, denom: string)
    requires LedgerOk(l) && TargetOf(l, granter, grantee, port, channel, denom).Target?
    ensures GrantOk(TargetOf(l, granter, grantee, port, channel, denom).g)
  {
  }

  lemma DecreaseAdjusts(
    l: Ledger, granter: Address, grantee: Address, port: string, channel: string, denom: string, amount: uint256)
    requires LedgerOk(l) && DecreaseAllowance(l, granter, grantee, port, channel, denom, amount).Ok?
    ensures var t := TargetOf(l, granter, grantee, port, channel, denom);
            var l' := DecreaseAllowance(l, granter, grantee, port, channel, denom, amount).ledger;
            && t.Target? && amount <= t.limit
            && Adjusts(l, l', granter, grantee, t, denom, 0 - amount as int) && LedgerOk(l')
  {
    hide AddCoin, TargetOf, WithLimit;
    var t := TargetOf(l, granter, grantee, port, channel, denom);
    TargetValid(l, granter, grantee, port, channel, denom);
    var coins := t.g.auth.allocations[t.idx].spendLimit;
    var coin := Coin(denom, amount);
    AddCoinValid(coins, Coin(denom, 0 - amount as int));
    forall d ensures AmountOf(SubCoin(coins, coin), d) == AmountOf(coins, d) - if d == denom then amount else 0 {
      SubCoinAmounts(coins, coin, d);
    }
    TargetGrantOk(l, granter, grantee, port, channel, denom);
    var l' := DecreaseAllowance(l, granter, grantee, port, channel, denom, amount).ledger;
    assert Adjusts(l, l', granter, grantee, t, denom, 0 - amount as int);
    AdjustKeepsOk(l, l', granter, grantee, t, denom, 0 - amount as int);
  }

  // ------------------------------------------------------------------
  // The calls as updates of one allowance
  // ------------------------------------------------------------------

  /** The limit of a denomination in the first allocation for the port and channel. */
  function LimitOf(allocs: seq<Allocation>, port: string, channel: string, d: string): (a: int) {
    if allocs == [] then 0
    else if allocs[0].port == port && allocs[0].channel == channel then AmountOf(allocs[0].spendLimit, d)
    else LimitOf(allocs[1..], port, channel, d)
  }

  lemma {:induction false} IndexLimit(allocs: seq<Allocation>, port: string, channel: string, d: string, i: nat)
    requires i <= |allocs| && forall j :: 0 <= j < |allocs| ==> LimitOk(allocs[j].spendLimit)
    ensures match AllocationIndex(allocs, port, channel, d, i) {
              case None => LimitOf(allocs[i..], port, channel, d) == 0
              case Some(k) => LimitOf(allocs[i..], port, channel, d) == Find(allocs[k].spendLimit, d).value.amount
            }
    decreases |allocs| - i
  {
    hide Find;
    if i == |allocs| {
    } else {
      assert allocs[i..][1..] == allocs[i + 1..];
      if allocs[i].port == port && allocs[i].channel == channel {
        FindExact(allocs[i].spendLimit, d);
        AmountSign(allocs[i].spendLimit, d);
      } else {
        IndexLimit(allocs, port, channel, d, i + 1);
      }
    }
  }

  lemma AllowanceIsLimit(l: Ledger, granter: Address, grantee: Address, port: string, channel: string, d: string)
    requires LedgerOk(l)
    ensures Allowance(l, granter, grantee, port, channel, d) ==
            match GetTransferAuthz(l, granter, grantee) {
              case None => 0
              case Some(g) => if g.auth.Transfer? then LimitOf(g.auth.allocations, port, channel, d) else 0
            }
  {
    hide Find, LimitOk;
    match GetTransferAuthz(l, granter, grantee)
    case None =>
    case Some(g) =>
      if g.auth.Transfer? {
        assert g.auth.allocations[0..] == g.auth.allocations;
        IndexLimit(g.auth.allocations, port, channel, d, 0);
      }
  }

  lemma {:induction false} FirstMatch(allocs: seq<Allocation>, port: string, channel: string, d: string, i: nat)
    requires i <= |allocs| && AllocationIndex(allocs, port, channel, d, i).Some?
    ensures var k := AllocationIndex(allocs, port, channel, d, i).value;
            && allocs[k].port == port && allocs[k].channel == channel
            && forall j :: i <= j < k ==> allocs[j].port != port || allocs[j].channel != channel
    decreases |allocs| - i
  {
    hide Find;
    if allocs[i].port != port || allocs[i].channel != channel {
      FirstMatch(allocs, port, channel, d, i + 1);
    }
  }

  lemma {:induction false} LimitUpdate(allocs: seq<Allocation>, idx: nat, coins: seq<Coin>, port: string,
                                       channel: string, d: string)
    requires idx < |allocs|
    requires forall j :: 0 <= j < idx ==> allocs[j].port != allocs[idx].port || allocs[j].channel != allocs[idx].channel
    ensures var here := allocs[idx].port == port && allocs[idx].channel == channel;
            && LimitOf(allocs[idx := allocs[idx].(spendLimit := coins)], port, channel, d) ==
               (if here then AmountOf(coins, d) else LimitOf(allocs, port, channel, d))
            && (here ==> LimitOf(allocs, port, channel, d) == AmountOf(allocs[idx].spendLimit, d))
    decreases idx
  {
    hide AmountOf;
    var changed := allocs[idx := allocs[idx].(spendLimit := coins)];
    if idx == 0 {
      assert changed[1..] == allocs[1..];
    } else {
      LimitUpdate(allocs[1..], idx - 1, coins, port, channel, d);
      assert changed[1..] == allocs[1..][idx - 1 := allocs[idx].(spendLimit := coins)];
    }
  }

  /** An adjustment moves its own allowance by `delta` and leaves every other allowance as it was. */
  lemma AdjustSetsOnly(
    l: Ledger, l': Ledger, granter: Address, grantee: Address, port: string, channel: string, denom: string, delta: int,
    gr: Address, ge: Address, p: string, c: string, d: string)
    requires LedgerOk(l) && LedgerOk(l') && TargetOf(l, granter, grantee, port, channel, denom).Target?
    requires Adjusts(l, l', granter, grantee, TargetOf(l, granter, grantee, port, channel, denom), denom, delta)
    ensures Allowance(l', gr, ge, p, c, d) == Allowance(l, gr, ge, p, c, d) +
            if (gr, ge, p, c, d) == (granter, grantee, port, channel, denom) then delta else 0
  {
    hide LedgerOk, AmountOf, LimitOf, Allowance;
    var t := TargetOf(l, granter, grantee, port, channel, denom);
    var allocs := t.g.auth.allocations;
    var coins :| && LimitOk(coins)
                 && (forall d :: AmountOf(coins, d) ==
                                 AmountOf(allocs[t.idx].spendLimit, d) + if d == denom then delta else 0)
                 && l' == l.(grants := l.grants[(granter, grantee) := WithLimit(t.g, t.idx, coins)]);
    AllowanceIsLimit(l, gr, ge, p, c, d);
    AllowanceIsLimit(l', gr, ge, p, c, d);
    FirstMatch(allocs, port, channel, denom, 0);
    LimitUpdate(allocs, t.idx, coins, p, c, d);
  }

  // ------------------------------------------------------------------
  // Undoing
  // ------------------------------------------------------------------

  lemma {:induction false} SameIndex(allocs: seq<Allocation>, idx: nat, coins: seq<Coin>, port: string,
                                     channel: string, denom: string, i: nat)
    requires i <= |allocs| && AllocationIndex(allocs, port, channel, denom, i) == Some(idx)
    ensures AllocationIndex(allocs[idx := allocs[idx].(spendLimit := coins)], port, channel, denom, i) ==
            if Find(coins, denom).Some? then Some(idx) else None
    decreases |allocs| - i
  {
    hide Find;
    if allocs[i].port != port || allocs[i].channel != channel {
      SameIndex(allocs, idx, coins, port, channel, denom, i + 1);
    }
  }

  /** The target after the spend limit of a live target was rewritten. */
  lemma TargetAfter(l: Ledger, l': Ledger, granter: Address, grantee: Address, port: string, channel: string,
                    denom: string, coins: seq<Coin>)
    requires var t := TargetOf(l, granter, grantee, port, channel, denom);
             t.Target? && l' == l.(grants := l.grants[(granter, grantee) := WithLimit(t.g, t.idx, coins)])
    ensures var t := TargetOf(l, granter, grantee, port, channel, denom);
            TargetOf(l', granter, grantee, port, channel, denom) ==
            match Find(coins, denom) {
              case None => NoTarget(NoMatchingAllocation)
              case Some(coin) => Target(WithLimit(t.g, t.idx, coins), t.idx, coin.amount)
            }
  {
    hide Find;
    var t := TargetOf(l, granter, grantee, port, channel, denom);
    SameIndex(t.g.auth.allocations, t.idx, coins, port, channel, denom, 0);
  }

  lemma RewriteTwice(l: Ledger, granter: Address, grantee: Address, g: Grant, idx: nat, coins: seq<Coin>)
    requires g.auth.Transfer? && idx < |g.auth.allocations|
    requires (granter, grantee) in l.grants && l.grants[(granter, grantee)] == g
    ensures var g' := WithLimit(g, idx, coins);
            var back := WithLimit(g', idx, g.auth.allocations[idx].spendLimit);
            back == g && l.(grants := l.grants[(granter, grantee) := g'][(granter, grantee) := back]) == l
  {
    var g' := WithLimit(g, idx, coins);
    var back := WithLimit(g', idx, g.auth.allocations[idx].spendLimit);
    assert back.auth.allocations == g.auth.allocations;
    assert l.grants[(granter, grantee) := g'][(granter, grantee) := g] == l.grants;
  }

  /** After an increase the same amount can be taken back, and that restores the ledger. */
  lemma IncreaseThenDecrease(
    l: Ledger, granter: Address, grantee: Address, port: string, channel: string, denom: string, amount: uint256)
    requires LedgerOk(l) && IncreaseAllowance(l, granter, grantee, port, channel, denom, amount).Ok?
    ensures var l' := IncreaseAllowance(l, granter, grantee, port, channel, denom, amount).ledger;
            DecreaseAllowance(l', granter, grantee, port, channel, denom, amount) == Ok(l)
  {
    hide AddCoin, TargetOf, WithLimit, Find, AmountOf, SafeAdd;
    var t := TargetOf(l, granter, grantee, port, channel, denom);
    TargetValid(l, granter, grantee, port, channel, denom);
    var coins := t.g.auth.allocations[t.idx].spendLimit;
    var coin := Coin(denom, amount);
    var more := AddCoin(coins, coin);
    AddCoinValid(coins, coin);
    AddCoinAmounts(coins, coin, denom);
    AmountSign(more, denom);
    FindExact(more, denom);
    var l' := l.(grants := l.grants[(granter, grantee) := WithLimit(t.g, t.idx, more)]);
    TargetAfter(l, l', granter, grantee, port, channel, denom, more);
    AddSubCancel(coins, denom, amount);
    TargetInStore(l, granter, grantee, port, channel, denom);
    RewriteTwice(l, granter, grantee, t.g, t.idx, more);
    LimitAt(t.g, t.idx, more);
  }

  lemma LimitAt(g: Grant, idx: nat, coins: seq<Coin>)
    requires g.auth.Transfer? && idx < |g.auth.allocations|
    ensures var g' := WithLimit(g, idx, coins);
            && g'.auth.Transfer? && idx < |g'.auth.allocations| && g'.auth.allocations[idx].spendLimit == coins
            && g'.expiration == g.expiration
  {
  }

  lemma TargetInStore(l: Ledger, granter: Address, grantee: Address, port: string, channel: string, denom: string)
    requires TargetOf(l, granter, grantee, port, channel, denom).Target?
    ensures (granter, grantee) in l.grants
    ensures l.grants[(granter, grantee)] == TargetOf(l, granter, grantee, port, channel, denom).g
  {
  }

  lemma AddSubCancel(coins: seq<Coin>, denom: string, amount: int)
    requires ValidCoins(coins) && AmountOf(coins, denom) + amount >= 0
    ensures SubCoin(AddCoin(coins, Coin(denom, amount)), Coin(denom, amount)) == coins
  {
    hide AddCoin, AmountOf;
    var plus, minus := Coin(denom, amount), Coin(denom, -amount);
    var more := AddCoin(coins, plus);
    AddCoinValid(coins, plus);
    AmountSign(coins, denom);
    AddCoinAmounts(coins, plus, denom);
    AddCoinValid(more, minus);
    forall d ensures AmountOf(AddCoin(more, minus), d) == AmountOf(coins, d) {
      AddCoinAmounts(coins, plus, d);
      AddCoinAmounts(more, minus, d);
    }
    SameAmountsSame(AddCoin(more, minus), coins);
  }

  /** A decrease can be taken back exactly when it did not use up the allowance: at zero the
      coin is gone and increasing finds no allocation for it. */
  lemma DecreaseThenIncrease(
    l: Ledger, granter: Address, grantee: Address, port: string, channel: string, denom: string, amount: uint256)
    requires LedgerOk(l) && DecreaseAllowance(l, granter, grantee, port, channel, denom, amount).Ok?
    ensures var l' := DecreaseAllowance(l, granter, grantee, port, channel, denom, amount).ledger;
            IncreaseAllowance(l', granter, grantee, port, channel, denom, amount) ==
            if amount < Allowance(l, granter, grantee, port, channel, denom) then Ok(l) else Err(NoMatchingAllocation)
  {
    hide AddCoin, TargetOf, WithLimit, Find, AmountOf, SafeAdd;
    var t := TargetOf(l, granter, grantee, port, channel, denom);
    TargetValid(l, granter, grantee, port, channel, denom);
    var coins := t.g.auth.allocations[t.idx].spendLimit;
    var minus := Coin(denom, 0 - amount as int);
    var less := SubCoin(coins, Coin(denom, amount));
    AddCoinValid(coins, minus);
    AddCoinAmounts(coins, minus, denom);
    AmountSign(less, denom);
    FindExact(less, denom);
    var l' := l.(grants := l.grants[(granter, grantee) := WithLimit(t.g, t.idx, less)]);
    TargetAfter(l, l', granter, grantee, port, channel, denom, less);
    AddSubCancel(coins, denom, 0 - amount as int);
    SafeAddExact(AmountOf(less, denom), amount);
    TargetInStore(l, granter, grantee, port, channel, denom);
    RewriteTwice(l, granter, grantee, t.g, t.idx, less);
    LimitAt(t.g, t.idx, less);
  }

  // ------------------------------------------------------------------
  // The code: deletion from a slice while ranging over it
  // ------------------------------------------------------------------

  /** Removes element `i` of the first `len` by shifting the rest down; the last slot keeps its value. */
  method DeleteAt(a: array<Coin>, len: nat, i: nat)
    requires i < len <= a.Length
    modifies a
    ensures a[..len] == old(a[..i]) + old(a[i + 1..len]) + [old(a[len - 1])]
    ensures a[len..] == old(a[len..])
  {
    forall j | i <= j < len - 1 {
      a[j] := a[j + 1];
    }
  }

  /** The backing array after its element `k` was reduced to `left`, or deleted. */
  function Reduced(was: seq<Coin>, k: nat, left: int): (r: seq<Coin>)
    requires k < |was|
    ensures |r| == |was|
  {
    if left > 0 then was[k := Coin(was[k].denom, left)] else was[..k] + was[k + 1..] + [was[|was| - 1]]
  }

  /** What the loop still reads after the target is not the target's denomination. */
  lemma RestDiffers(was: seq<Coin>, k: nat, left: int, i: nat)
    requires Sorted(was) && k < i < |was|
    ensures Reduced(was, k, left)[i].denom != was[k].denom
  {
    hide StringLess, Sorted;
    DenomsDiffer(was, i, k);
    DenomsDiffer(was, |was| - 1, k);
    if i + 1 < |was| {
      DenomsDiffer(was, i + 1, k);
      assert (was[..k] + was[k + 1..])[i] == was[i + 1];
    }
  }

  /** The loop of DecreaseAllowance over the backing array of the spend limit. The range was
      fixed at `n` elements on entry, elements are read when they are reached, and deleting
      shifts the rest of the array under the loop. */
  method ReduceInPlace(a: array<Coin>, n: nat, denom: string, expense: int) returns (len: nat)
    requires n <= a.Length && ValidCoins(a[..n])
    requires Has(a[..n], denom) && expense <= AmountOf(a[..n], denom)
    modifies a
    ensures len <= n && a[..len] == SubCoin(old(a[..n]), Coin(denom, expense))
    ensures a[n..] == old(a[n..])
  {
    hide StringLess, AmountOf, SubCoin, Reduced;
    ghost var was := a[..n];
    ghost var k: nat :| k < n && was[k].denom == denom;
    AmountAt(was, k);
    ghost var left := was[k].amount - expense;
    len := n;
    for i := 0 to n
      invariant a[n..] == old(a[n..])
      invariant i <= k ==> len == n && a[..n] == was
      invariant i > k ==> len == (if left > 0 then n else n - 1) && a[..n] == Reduced(was, k, left)
    {
      var coin := a[i];
      assert coin == a[..n][i];
      if i > k {
        RestDiffers(was, k, left, i);
      } else if i < k {
        DenomsDiffer(was, i, k);
      }
      if coin.denom != denom {
        continue;
      }
      var coinDiff := coin.amount - expense;
      if coinDiff <= 0 {
        DeleteAt(a, len, i);
        len := len - 1;
      } else {
        a[i] := Coin(coin.denom, coinDiff);
      }
      StepReduces(was, k, left, a[..n]);
    }
    ReducedList(was, k, expense);
    KeptPart(was, k, left);
    assert a[..len] == a[..n][..len];
  }

  lemma StepReduces(was: seq<Coin>, k: nat, left: int, now: seq<Coin>)
    requires k < |was|
    requires left > 0 ==> now == was[k := Coin(was[k].denom, left)]
    requires left <= 0 ==> now == was[..k] + was[k + 1..] + [was[|was| - 1]]
    ensures now == Reduced(was, k, left)
  {
  }

  lemma KeptPart(was: seq<Coin>, k: nat, left: int)
    requires k < |was|
    ensures left > 0 ==> Reduced(was, k, left) == was[k := Coin(was[k].denom, left)]
    ensures left <= 0 ==> Reduced(was, k, left)[..|was| - 1] == was[..k] + was[k + 1..]
  {
  }

  lemma DenomsDiffer(coins: seq<Coin>, i: nat, j: nat)
    requires Sorted(coins) && i < |coins| && j < |coins| && i != j
    ensures coins[i].denom != coins[j].denom
  {
    hide StringLess;
    if i < j {
      StringAsymmetric(coins[i].denom, coins[j].denom);
    } else {
      StringAsymmetric(coins[j].denom, coins[i].denom);
    }
  }

  /** Subtracting at position `k` of a valid list. */
  lemma {:induction false} ReducedList(coins: seq<Coin>, k: nat, expense: int)
    requires ValidCoins(coins) && k < |coins| && expense <= coins[k].amount
    ensures var left := coins[k].amount - expense;
            SubCoin(coins, Coin(coins[k].denom, expense)) ==
            if left == 0 then coins[..k] + coins[k + 1..] else coins[k := Coin(coins[k].denom, left)]
  {
    hide StringLess;
    if k == 0 {
    } else {
      StringAsymmetric(coins[0].denom, coins[k].denom);
      ReducedList(coins[1..], k - 1, expense);
      assert coins[1..][k - 1] == coins[k];
      var left := coins[k].amount - expense;
      assert [coins[0]] + (coins[1..][..k - 1] + coins[1..][k..]) == coins[..k] + coins[k + 1..];
      assert [coins[0]] + coins[1..][k - 1 := Coin(coins[k].denom, left)] == coins[k := Coin(coins[k].denom, left)];
    }
  }

  class Ics20Precompile {
    var grants: map<(Address, Address), Grant>
    var now: int

    constructor (l: Ledger)
      ensures View() == l
    {
      grants, now := l.grants, l.now;
    }

    function View(): (l: Ledger)
      reads this
    {
      Ledger(grants, now)
    }

    predicate Shows(o: Outcome, was: Ledger, err: Option<Error>)
      reads this
    {
      if o.Ok? then View() == o.ledger && err == None else View() == was && err == Some(o.error)
    }

    /** The loop over the allocations that asks for their channels, then the grant. */
    method ApproveGrant(channels: set<(string, string)>, granter: Address, grantee: Address, inputs: seq<Input>,
                        wellNamed: bool, duration: int) returns (err: Option<Error>)
      modifies this`grants
      ensures Shows(Approve(old(View()), channels, granter, grantee, inputs, wellNamed, duration), old(View()), err)
    {
      hide ValidAllocations;
      var allocations := Allocations(inputs);
      if !wellNamed || !ValidAllocations(allocations) {
        return Some(InvalidAuthorization);
      }
      for i := 0 to |allocations|
        invariant Open(channels, allocations[..i])
      {
        if (allocations[i].port, allocations[i].channel) !in channels {
          return Some(ChannelNotFound);
        }
      }
      assert allocations[..|allocations|] == allocations;
      err := Save(granter, grantee, Grant(Transfer(allocations), Some(now + duration)));
    }

    method RevokeGrant(granter: Address, grantee: Address) returns (err: Option<Error>)
      modifies this`grants
      ensures Shows(Revoke(old(View()), granter, grantee), old(View()), err)
    {
      var authz := GetTransferAuthz(View(), granter, grantee);
      if authz.None? {
        return Some(AuthzDoesNotExistOrExpired);
      }
      if !authz.value.auth.Transfer? {
        return Some(UnknownAuthorizationType);
      }
      grants := grants - {(granter, grantee)};
      return None;
    }

    static method CheckAllocationExists(allocs: seq<Allocation>, port: string, channel: string, denom: string)
      returns (idx: Option<nat>)
      ensures idx == AllocationIndex(allocs, port, channel, denom, 0)
    {
      for i := 0 to |allocs|
        invariant AllocationIndex(allocs, port, channel, denom, 0) == AllocationIndex(allocs, port, channel, denom, i)
      {
        if allocs[i].port != port || allocs[i].channel != channel {
          continue;
        }
        if Find(allocs[i].spendLimit, denom).None? {
          return None;
        }
        return Some(i);
      }
      return None;
    }

    method Save(granter: Address, grantee: Address, g: Grant) returns (err: Option<Error>)
      modifies this`grants
      ensures Shows(SaveGrant(old(View()), granter, grantee, g), old(View()), err)
    {
      if g.expiration.Some? && g.expiration.value <= now {
        return Some(InvalidExpiration);
      }
      grants := grants[(granter, grantee) := g];
      return None;
    }

    /** Looks the target up, as both calls begin. */
    method Lookup(granter: Address, grantee: Address, port: string, channel: string, denom: string) returns (t: Target)
      ensures t == TargetOf(View(), granter, grantee, port, channel, denom)
    {
      var authz := GetTransferAuthz(View(), granter, grantee);
      if authz.None? {
        return NoTarget(AuthzDoesNotExistOrExpired);
      }
      if !authz.value.auth.Transfer? {
        return NoTarget(UnknownAuthorizationType);
      }
      var idx := CheckAllocationExists(authz.value.auth.allocations, port, channel, denom);
      if idx.None? {
        return NoTarget(NoMatchingAllocation);
      }
      var limit := Find(authz.value.auth.allocations[idx.value].spendLimit, denom);
      return Target(authz.value, idx.value, limit.value.amount);
    }

    method Increase(granter: Address, grantee: Address, port: string, channel: string, denom: string, amount: uint256)
      returns (err: Option<Error>)
      modifies this`grants
      ensures Shows(IncreaseAllowance(old(View()), granter, grantee, port, channel, denom, amount), old(View()), err)
    {
      hide TargetOf, AddCoin;
      var t := Lookup(granter, grantee, port, channel, denom);
      if t.NoTarget? {
        return Some(t.error);
      }
      if SafeAdd(t.limit, amount).1 {
        return Some(IntegerOverflow);
      }
      var allocations := t.g.auth.allocations;
      var spendLimit := AddCoin(allocations[t.idx].spendLimit, Coin(denom, amount));
      allocations := allocations[t.idx := allocations[t.idx].(spendLimit := spendLimit)];
      err := Save(granter, grantee, t.g.(auth := Transfer(allocations)));
    }

    method Decrease(granter: Address, grantee: Address, port: string, channel: string, denom: string, amount: uint256)
      returns (err: Option<Error>)
      requires LedgerOk(View())
      modifies this`grants
      ensures Shows(DecreaseAllowance(old(View()), granter, grantee, port, channel, denom, amount), old(View()), err)
    {
      hide TargetOf, AddCoin, Find, LedgerOk;
      var t := Lookup(granter, grantee, port, channel, denom);
      if t.NoTarget? {
        return Some(t.error);
      }
      if t.limit < amount {
        return Some(NegativeAmount);
      }
      TargetValid(View(), granter, grantee, port, channel, denom);
      var allocations := t.g.auth.allocations;
      var limit := allocations[t.idx].spendLimit;
      AmountSign(limit, denom);
      var slice := new Coin[|limit|](i requires 0 <= i < |limit| => limit[i]);
      assert slice[..|limit|] == limit;
      var len := ReduceInPlace(slice, |limit|, denom, amount);
      allocations := allocations[t.idx := allocations[t.idx].(spendLimit := slice[..len])];
      err := Save(granter, grantee, t.g.(auth := Transfer(allocations)));
    }
  }
}
