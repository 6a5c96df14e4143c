/** ICS-20 calls over Ics20Allowance, the rest of their outcome: exactly when a call succeeds and
    which error it ends in otherwise, and how long the allowances it leaves behind live. */
module Ics20Verdicts {
  import opened Wrappers
  import opened Coins
  import opened EvmTypes
  import opened Ics20Allowance
  import opened Ics20Runs

  // ------------------------------------------------------------------
  // Which error
  // ------------------------------------------------------------------

  predicate EndsIn(r: Outcome, e: Option<Error>) {
    if e.None? then r.Ok? else r == Err(e.value)
  }

  /** A grant stored for the pair that has not expired; it lives through the moment it expires. */
  predicate Live(l: Ledger, granter: Address, grantee: Address) {
    && (granter, grantee) in l.grants
    && var g := l.grants[(granter, grantee)]; g.expiration.None? || l.now <= g.expiration.value
  }

  /** A live grant for transfers. */
  predicate LiveTransfer(l: Ledger, granter: Address, grantee: Address) {
    Live(l, granter, grantee) && l.grants[(granter, grantee)].auth.Transfer?
  }

  function GrantError(l: Ledger, granter: Address, grantee: Address): (e: Option<Error>) {
    if !Live(l, granter, grantee) then Some(AuthzDoesNotExistOrExpired)
    else if !LiveTransfer(l, granter, grantee) then Some(UnknownAuthorizationType)
    else None
  }

  /** Saving the grant again needs an expiration after the block time. */
  function SaveError(l: Ledger, granter: Address, grantee: Address): (e: Option<Error>)
    requires Live(l, granter, grantee)
  {
    var g := l.grants[(granter, grantee)];
    if g.expiration.Some? && g.expiration.value <= l.now then Some(InvalidExpiration) else None
  }

  /** Not empty, every channel once and open, coins strictly sorted and positive. */
  predicate ValidInputs(inputs: seq<Input>) {
    && inputs != []
    && (forall i, j :: 0 <= i < j < |inputs| ==> inputs[i].channel != inputs[j].channel)
    && (forall i :: 0 <= i < |inputs| ==> ValidCoins(inputs[i].spendLimit) && InRange(inputs[i].spendLimit))
  }

  predicate AllOpen(channels: set<(string, string)>, inputs: seq<Input>) {
    forall i :: 0 <= i < |inputs| ==> (inputs[i].port, inputs[i].channel) in channels
  }

  function ApproveError(channels: set<(string, string)>, inputs: seq<Input>, wellNamed: bool,
                        duration: int): (e: Option<Error>)
  {
    if !wellNamed || !ValidInputs(inputs) then Some(InvalidAuthorization)
    else if !AllOpen(channels, inputs) then Some(ChannelNotFound)
    else if duration <= 0 then Some(InvalidExpiration)
    else None
  }

  lemma ApproveVerdict(l: Ledger, channels: set<(string, string)>, granter: Address, grantee: Address,
                       inputs: seq<Input>, wellNamed: bool, duration: int)
    ensures EndsIn(Approve(l, channels, granter, grantee, inputs, wellNamed, duration),
                   ApproveError(channels, inputs, wellNamed, duration))
  {
    hide ValidCoins, InRange;
    var allocs := Allocations(inputs);
    assert forall i :: 0 <= i < |inputs| ==>
             allocs[i] == Allocation(inputs[i].port, inputs[i].channel, inputs[i].spendLimit, []);
    assert DistinctChannels(allocs) <==>
           forall i, j :: 0 <= i < j < |inputs| ==> inputs[i].channel != inputs[j].channel;
  }

  /** A grant is revoked exactly when it is live and for transfers. */
  lemma RevokeVerdict(l: Ledger, granter: Address, grantee: Address)
    ensures EndsIn(Revoke(l, granter, grantee), GrantError(l, granter, grantee))
    ensures Revoke(l, granter, grantee).Ok? <==> LiveTransfer(l, granter, grantee)
    ensures Revoke(l, granter, grantee).Ok? ==>
              Revoke(l, granter, grantee).ledger.grants == l.grants - {(granter, grantee)}
  {
  }

  function AdjustError(l: Ledger, op: Op): (e: Option<Error>)
    requires op.IncreaseOp? || op.DecreaseOp?
  {
    var a := Allowance(l, op.granter, op.grantee, op.port, op.channel, op.denom);
    if GrantError(l, op.granter, op.grantee).Some? then GrantError(l, op.granter, op.grantee)
    else if a == 0 then Some(NoMatchingAllocation)
    else if op.IncreaseOp? && a + op.amount > MAX_UINT256 then Some(IntegerOverflow)
    else if op.DecreaseOp? && op.amount > a then Some(NegativeAmount)
    else SaveError(l, op.granter, op.grantee)
  }

  lemma AdjustVerdict(l: Ledger, env: Env, op: Op)
    requires LedgerOk(l) && (op.IncreaseOp? || op.DecreaseOp?)
    ensures EndsIn(Call(l, env, op), AdjustError(l, op))
  {
    hide AddCoin, SafeAdd, Find, AllocationIndex;
    TargetValid(l, op.granter, op.grantee, op.port, op.channel, op.denom);
    var t := TargetOf(l, op.granter, op.grantee, op.port, op.channel, op.denom);
    if t.Target? {
      SafeAddExact(t.limit, op.amount);
    }
  }

  /** Allocation `i` of the pair's grant is the one for the port and channel. */
  predicate IsFor(allocs: seq<Allocation>, port: string, channel: string, i: nat) {
    i < |allocs| && allocs[i].port == port && allocs[i].channel == channel
  }

  ghost predicate HasAllocation(allocs: seq<Allocation>, port: string, channel: string) {
    exists i: nat :: IsFor(allocs, port, channel, i)
  }

  predicate Allows(a: Allocation, receiver: string) {
    a.allowList == [] || receiver in a.allowList
  }

  ghost predicate ReceiverAllowed(allocs: seq<Allocation>, port: string, channel: string, receiver: string) {
    forall i: nat :: IsFor(allocs, port, channel, i) ==> Allows(allocs[i], receiver)
  }

  /** The transfer uses up the only limit of the grant, which is then deleted. */
  ghost predicate UsesUp(allocs: seq<Allocation>, port: string, channel: string, coin: Coin) {
    && |allocs| == 1
    && forall d :: LimitOf(allocs, port, channel, d) == if d == coin.denom then coin.amount else 0
  }

  lemma EmptyExactly(coins: seq<Coin>)
    requires ValidCoins(coins)
    ensures coins == [] <==> forall d :: AmountOf(coins, d) == 0
  {
    if coins != [] {
      assert AmountOf(coins, coins[0].denom) > 0;
    }
  }

  ghost function AcceptError(allocs: seq<Allocation>, port: string, channel: string, receiver: string,
                             coin: Coin): (e: Option<Error>)
  {
    if !HasAllocation(allocs, port, channel) then Some(NoMatchingAllocation)
    else if !ReceiverAllowed(allocs, port, channel, receiver) then Some(ReceiverNotAllowed)
    else if LimitOf(allocs, port, channel, coin.denom) == MAX_UINT256 then None
    else if coin.amount > LimitOf(allocs, port, channel, coin.denom) then Some(InsufficientAllowance)
    else None
  }

  lemma {:induction false} AcceptFinds(allocs: seq<Allocation>, port: string, channel: string, receiver: string,
                                       coin: Coin, i: nat)
    requires i <= |allocs| && DistinctChannels(allocs)
    requires forall j :: 0 <= j < i ==> !IsFor(allocs, port, channel, j)
    ensures if HasAllocation(allocs, port, channel)
            then exists k: nat :: IsFor(allocs, port, channel, k)
                             && Accept(allocs, port, channel, receiver, coin, i) == AcceptAt(allocs, receiver, coin, k)
            else Accept(allocs, port, channel, receiver, coin, i) == Refused(NoMatchingAllocation)
    decreases |allocs| - i
  {
    hide AcceptAt;
    if i == |allocs| {
    } else if IsFor(allocs, port, channel, i) {
    } else {
      AcceptFinds(allocs, port, channel, receiver, coin, i + 1);
    }
  }

  ghost predicate OnlyCoin(coins: seq<Coin>, coin: Coin) {
    forall d :: AmountOf(coins, d) == if d == coin.denom then coin.amount else 0
  }

  lemma LeftNothing(coins: seq<Coin>, coin: Coin)
    requires LimitOk(coins) && 0 < coin.amount <= AmountOf(coins, coin.denom)
    ensures SubCoin(coins, coin) == [] <==> OnlyCoin(coins, coin)
  {
    hide SubCoin, AmountOf;
    var left := SubCoin(coins, coin);
    SpentCoins(coins, coin);
    EmptyExactly(left);
    if left == [] {
      forall d ensures AmountOf(coins, d) == if d == coin.denom then coin.amount else 0 {
        assert AmountOf(left, d) == 0;
      }
    }
    if OnlyCoin(coins, coin) {
      forall d ensures AmountOf(left, d) == 0 {
        assert AmountOf(coins, d) == if d == coin.denom then coin.amount else 0;
      }
    }
  }

  lemma AcceptVerdict(allocs: seq<Allocation>, port: string, channel: string, receiver: string, coin: Coin)
    requires AllocationsOk(allocs) && coin.amount > 0
    ensures var r := Accept(allocs, port, channel, receiver, coin, 0);
            var e := AcceptError(allocs, port, channel, receiver, coin);
            && (r.Refused? <==> e.Some?) && (r.Refused? ==> r.error == e.value)
            && (e.None? ==> (r.Unlimited? <==> LimitOf(allocs, port, channel, coin.denom) == MAX_UINT256))
            && (r.Left? ==> (r.allocs == [] <==> UsesUp(allocs, port, channel, coin)))
  {
    hide LimitOk, AmountOf, SubCoin, LimitOf, FindAmount, AnyNegative, Accept;
    AcceptFinds(allocs, port, channel, receiver, coin, 0);
    if HasAllocation(allocs, port, channel) {
      var k: nat :| IsFor(allocs, port, channel, k)
               && Accept(allocs, port, channel, receiver, coin, 0) == AcceptAt(allocs, receiver, coin, k);
      assert forall i: nat :: IsFor(allocs, port, channel, i) ==> i == k;
      forall d ensures LimitOf(allocs, port, channel, d) == AmountOf(allocs[k].spendLimit, d) {
        LimitUpdate(allocs, k, [], port, channel, d);
      }
      LimitAmounts(allocs[k].spendLimit, coin.denom);
      SpentCoins(allocs[k].spendLimit, coin);
      if coin.amount <= AmountOf(allocs[k].spendLimit, coin.denom) {
        LeftNothing(allocs[k].spendLimit, coin);
        assert UsesUp(allocs, port, channel, coin) <==> |allocs| == 1 && OnlyCoin(allocs[k].spendLimit, coin);
      }
    }
  }

  ghost function TransferError(l: Ledger, env: Env, op: Op): (e: Option<Error>)
    requires op.TransferOp?
  {
    if op.amount == 0 then Some(InvalidAmount)
    else if (op.port, op.channel) !in env.channels then Some(ChannelNotFound)
    else if op.grantee != op.sender && op.granter != op.sender then Some(DifferentOriginFromSender)
    else if op.granter == op.grantee then if op.transferOk then None else Some(TransferFailed)
    else if GrantError(l, op.granter, op.grantee).Some? then GrantError(l, op.granter, op.grantee)
    else
      var allocs, coin := l.grants[(op.granter, op.grantee)].auth.allocations, Coin(op.denom, op.amount);
      var refused := AcceptError(allocs, op.port, op.channel, op.receiver, coin);
      if refused.Some? then refused
      else if !op.transferOk then Some(TransferFailed)
      else if LimitOf(allocs, op.port, op.channel, op.denom) == MAX_UINT256 then None
      else if UsesUp(allocs, op.port, op.channel, coin) then None
      else SaveError(l, op.granter, op.grantee)
  }

  lemma TransferVerdict(l: Ledger, env: Env, op: Op)
    requires StoreOk(l) && op.TransferOp?
    ensures EndsIn(Call(l, env, op), TransferError(l, env, op))
  {
    hide Accept, AcceptError, AllocationsOk, LimitOf, UsesUp;
    if LiveTransfer(l, op.granter, op.grantee) && op.amount > 0 {
      GrantAllocations(l, op.granter, op.grantee);
      AcceptVerdict(l.grants[(op.granter, op.grantee)].auth.allocations, op.port, op.channel, op.receiver,
                    Coin(op.denom, op.amount));
    }
  }

  ghost function CallError(l: Ledger, env: Env, op: Op): (e: Option<Error>) {
    match op
    case ApproveOp(_, _, inputs, wellNamed) => ApproveError(env.channels, inputs, wellNamed, env.duration)
    case RevokeOp(granter, grantee) => GrantError(l, granter, grantee)
    case IncreaseOp(_, _, _, _, _, _) => AdjustError(l, op)
    case DecreaseOp(_, _, _, _, _, _) => AdjustError(l, op)
    case TransferOp(_, _, _, _, _, _, _, _, _) => TransferError(l, env, op)
    case Tick(_) => None
  }

  /** Every call ends as predicted: in success or in that very error. */
  lemma CallVerdict(l: Ledger, env: Env, op: Op)
    requires StoreOk(l)
    ensures EndsIn(Call(l, env, op), CallError(l, env, op))
  {
    hide StoreOk, LedgerOk, Approve, Revoke, ApproveError, GrantError, AdjustError, TransferError, EndsIn;
    StoreIsLedger(l);
    match op
    case ApproveOp(granter, grantee, inputs, wellNamed) =>
      ApproveVerdict(l, env.channels, granter, grantee, inputs, wellNamed, env.duration);
    case RevokeOp(granter, grantee) => RevokeVerdict(l, granter, grantee);
    case IncreaseOp(_, _, _, _, _, _) => AdjustVerdict(l, env, op);
    case DecreaseOp(_, _, _, _, _, _) => AdjustVerdict(l, env, op);
    case TransferOp(_, _, _, _, _, _, _, _, _) => TransferVerdict(l, env, op);
    case Tick(_) => TimePasses(l, env, op);
  }

  lemma TimePasses(l: Ledger, env: Env, op: Op)
    requires op.Tick?
    ensures EndsIn(Call(l, env, op), None)
  {
  }

  // ------------------------------------------------------------------
  // How long an allowance lives
  // ------------------------------------------------------------------

  /** Same port, channel and allow list. */
  predicate SameRoute(a: Allocation, b: Allocation) {
    a.port == b.port && a.channel == b.channel && a.allowList == b.allowList
  }

  ghost predicate HasRoute(allocs: seq<Allocation>, a: Allocation) {
    exists j :: 0 <= j < |allocs| && SameRoute(allocs[j], a)
  }

  /** Every allocation was there before, with its allow list. */
  ghost predicate RoutesKept(allocs: seq<Allocation>, allocs': seq<Allocation>) {
    forall i :: 0 <= i < |allocs'| ==> HasRoute(allocs, allocs'[i])
  }

  ghost predicate SameTerms(g: Grant, g': Grant) {
    && g'.expiration == g.expiration && (g.auth.Transfer? <==> g'.auth.Transfer?)
    && (g.auth.Transfer? ==> RoutesKept(g.auth.allocations, g'.auth.allocations))
  }

  /** A grant made now: any receiver, until the duration has passed. */
  predicate FreshTerms(g: Grant, now: int, duration: int) {
    && g.expiration == Some(now + duration) && g.auth.Transfer?
    && forall i :: 0 <= i < |g.auth.allocations| ==> g.auth.allocations[i].allowList == []
  }

  lemma SameRoutes(allocs: seq<Allocation>)
    ensures RoutesKept(allocs, allocs)
  {
    forall i | 0 <= i < |allocs| ensures HasRoute(allocs, allocs[i]) {
      assert SameRoute(allocs[i], allocs[i]);
    }
  }

  lemma LimitKeepsRoutes(allocs: seq<Allocation>, idx: nat, coins: seq<Coin>)
    requires idx < |allocs|
    ensures RoutesKept(allocs, allocs[idx := allocs[idx].(spendLimit := coins)])
  {
    var allocs' := allocs[idx := allocs[idx].(spendLimit := coins)];
    forall i | 0 <= i < |allocs'| ensures HasRoute(allocs, allocs'[i]) {
      assert SameRoute(allocs[i], allocs'[i]);
    }
  }

  lemma DropKeepsRoutes(allocs: seq<Allocation>, idx: nat)
    requires idx < |allocs|
    ensures RoutesKept(allocs, allocs[..idx] + allocs[idx + 1..])
  {
    var allocs' := allocs[..idx] + allocs[idx + 1..];
    forall i | 0 <= i < |allocs'| ensures HasRoute(allocs, allocs'[i]) {
      assert SameRoute(allocs[if i < idx then i else i + 1], allocs'[i]);
    }
  }

  lemma {:induction false} AcceptKeepsRoutes(allocs: seq<Allocation>, port: string, channel: string, receiver: string,
                                             coin: Coin, i: nat)
    requires i <= |allocs| && Accept(allocs, port, channel, receiver, coin, i).Left?
    ensures RoutesKept(allocs, Accept(allocs, port, channel, receiver, coin, i).allocs)
    decreases |allocs| - i
  {
    hide RoutesKept, SubCoin, FindAmount;
    if i == |allocs| {
    } else if allocs[i].port != port || allocs[i].channel != channel {
      AcceptKeepsRoutes(allocs, port, channel, receiver, coin, i + 1);
    } else {
      DropKeepsRoutes(allocs, i);
      LimitKeepsRoutes(allocs, i, SubCoin(allocs[i].spendLimit, coin));
    }
  }

  lemma PairTermsKept(l: Ledger, env: Env, op: Op)
    requires (op.IncreaseOp? || op.DecreaseOp? || op.TransferOp?) && Call(l, env, op).Ok?
    ensures var pair, grants := (op.granter, op.grantee), Call(l, env, op).ledger.grants;
            pair in grants ==> pair in l.grants && SameTerms(l.grants[pair], grants[pair])
  {
    hide RoutesKept, SubCoin, AddCoin, SafeAdd, Find, FindAmount, AllocationIndex, Accept;
    var pair := (op.granter, op.grantee);
    if pair in l.grants && l.grants[pair].auth.Transfer? {
      var allocs := l.grants[pair].auth.allocations;
      SameRoutes(allocs);
      if op.TransferOp? {
        var coin := Coin(op.denom, op.amount);
        if Accept(allocs, op.port, op.channel, op.receiver, coin, 0).Left? {
          AcceptKeepsRoutes(allocs, op.port, op.channel, op.receiver, coin, 0);
        }
      } else {
        var t := TargetOf(l, op.granter, op.grantee, op.port, op.channel, op.denom);
        var limit := allocs[t.idx].spendLimit;
        LimitKeepsRoutes(allocs, t.idx, AddCoin(limit, Coin(op.denom, op.amount)));
        LimitKeepsRoutes(allocs, t.idx, SubCoin(limit, Coin(op.denom, op.amount)));
      }
    }
  }

  /** After a call every grant has the expiration and allow lists it had, except one that approve
      made, which replaces the old one; the grants of other pairs are left alone. */
  lemma TermsKept(l: Ledger, env: Env, op: Op, granter: Address, grantee: Address)
    requires !op.Tick? && Call(l, env, op).Ok?
    ensures var pair, grants := (granter, grantee), Call(l, env, op).ledger.grants;
            if pair != (op.granter, op.grantee)
            then (pair in grants <==> pair in l.grants) && (pair in grants ==> grants[pair] == l.grants[pair])
            else pair in grants ==>
                   if op.ApproveOp? then FreshTerms(grants[pair], l.now, env.duration)
                   else pair in l.grants && SameTerms(l.grants[pair], grants[pair])
  {
    hide SameTerms, SubCoin, AddCoin, SafeAdd, Find, FindAmount, AllocationIndex, Accept, ValidAllocations;
    if op.IncreaseOp? || op.DecreaseOp? || op.TransferOp? {
      PairTermsKept(l, env, op);
    }
  }

  /** An approval is worth its spend limits for the duration, to the last moment, and nothing
      afterwards. */
  lemma ApprovalLives(l: Ledger, env: Env, op: Op, elapsed: nat, i: nat, d: string)
    requires StoreOk(l) && op.ApproveOp? && Call(l, env, op).Ok? && i < |op.inputs|
    ensures var later := Commit(Call(l, env, op).ledger, env, Tick(elapsed));
            var k := Key(op.granter, op.grantee, op.inputs[i].port, op.inputs[i].channel, d);
            At(later, k) == if elapsed <= env.duration then AmountOf(op.inputs[i].spendLimit, d) else 0
  {
    hide AmountOf, StoreOk, AllocationsOk, LimitOf, AllocationIndex;
    var k := Key(op.granter, op.grantee, op.inputs[i].port, op.inputs[i].channel, d);
    var l' := Call(l, env, op).ledger;
    ApproveSets(l, env, op, k);
    LimitUpdate(Allocations(op.inputs), i, [], op.inputs[i].port, op.inputs[i].channel, d);
    assert At(l', k) == AmountOf(op.inputs[i].spendLimit, d);
    assert At(l'.(now := l'.now + elapsed), k) == if elapsed <= env.duration then At(l', k) else 0;
  }
}
