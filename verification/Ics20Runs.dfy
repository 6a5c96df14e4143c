/** Whole runs of ICS-20 approvals, revocations, adjustments and transfers over Ics20Allowance:
    the stored grants stay valid, and every unit of allowance is accounted for. */
module Ics20Runs {
  import opened Wrappers
  import opened Coins
  import opened EvmTypes
  import opened Ics20Allowance

  // ------------------------------------------------------------------
  // The invariant of the store
  // ------------------------------------------------------------------

  ghost predicate AllocationsOk(allocs: seq<Allocation>) {
    DistinctChannels(allocs) && forall i :: 0 <= i < |allocs| ==> LimitOk(allocs[i].spendLimit)
  }

  /** Spend limits are strictly sorted, positive and below 2^256, and no channel occurs twice in a grant. */
  ghost predicate StoreOk(l: Ledger) {
    forall k :: k in l.grants && l.grants[k].auth.Transfer? ==> AllocationsOk(l.grants[k].auth.allocations)
  }

  lemma StoreIsLedger(l: Ledger)
    requires StoreOk(l)
    ensures LedgerOk(l)
  {
    hide LimitOk;
  }

  lemma ValidIsOk(allocs: seq<Allocation>)
    requires ValidAllocations(allocs)
    ensures AllocationsOk(allocs)
  {
    forall i | 0 <= i < |allocs| ensures LimitOk(allocs[i].spendLimit) {
      hide ValidCoins, AmountOf;
      forall d ensures AmountOf(allocs[i].spendLimit, d) <= MAX_UINT256 {
        AmountBound(allocs[i].spendLimit, MAX_UINT256, d);
      }
    }
  }

  // ------------------------------------------------------------------
  // Dropping and reducing an allocation
  // ------------------------------------------------------------------

  lemma {:induction false} LimitAbsent(allocs: seq<Allocation>, port: string, channel: string, d: string)
    requires forall i :: 0 <= i < |allocs| ==> allocs[i].channel != channel
    ensures LimitOf(allocs, port, channel, d) == 0
  {
    if allocs == [] {
    } else {
      LimitAbsent(allocs[1..], port, channel, d);
    }
  }

  lemma {:induction false} LimitDropped(allocs: seq<Allocation>, idx: nat, port: string, channel: string, d: string)
    requires DistinctChannels(allocs) && idx < |allocs|
    ensures var here := allocs[idx].port == port && allocs[idx].channel == channel;
            LimitOf(allocs[..idx] + allocs[idx + 1..], port, channel, d) ==
            if here then 0 else LimitOf(allocs, port, channel, d)
    decreases idx
  {
    hide AmountOf;
    var rest := allocs[..idx] + allocs[idx + 1..];
    if idx == 0 {
      assert rest == allocs[1..];
      if allocs[0].channel == channel {
        LimitAbsent(allocs[1..], port, channel, d);
      }
    } else {
      LimitDropped(allocs[1..], idx - 1, port, channel, d);
      assert rest[1..] == allocs[1..][..idx - 1] + allocs[1..][idx..];
    }
  }

  /** One limit reduced by the coin, all others kept, the invariant with them. */
  ghost predicate Reduces(allocs: seq<Allocation>, allocs': seq<Allocation>, port: string, channel: string,
                          coin: Coin)
  {
    && AllocationsOk(allocs')
    && forall p, c, d :: LimitOf(allocs', p, c, d) == LimitOf(allocs, p, c, d) -
                         if (p, c, d) == (port, channel, coin.denom) then coin.amount else 0
  }

  lemma SpentCoins(coins: seq<Coin>, coin: Coin)
    requires LimitOk(coins) && coin.amount > 0
    ensures var left := SubCoin(coins, coin);
            && (AnyNegative(left) <==> coin.amount > AmountOf(coins, coin.denom))
            && (!AnyNegative(left) ==>
                  && LimitOk(left)
                  && forall d :: AmountOf(left, d) == AmountOf(coins, d) - if d == coin.denom then coin.amount else 0)
  {
    hide AddCoin;
    AddCoinValid(coins, Coin(coin.denom, -coin.amount));
    forall d
      ensures AmountOf(SubCoin(coins, coin), d) == AmountOf(coins, d) - if d == coin.denom then coin.amount else 0
    {
      SubCoinAmounts(coins, coin, d);
    }
  }

  /** Accepting at the allocation found: within the limit, and exactly one limit is reduced. */
  lemma AcceptAtReduces(allocs: seq<Allocation>, receiver: string, coin: Coin, i: nat)
    requires AllocationsOk(allocs) && i < |allocs| && coin.amount > 0
    ensures var r, limit := AcceptAt(allocs, receiver, coin, i), AmountOf(allocs[i].spendLimit, coin.denom);
            && (r.Unlimited? ==> limit == MAX_UINT256)
            && (r.Left? ==> coin.amount <= limit < MAX_UINT256
                            && Reduces(allocs, r.allocs, allocs[i].port, allocs[i].channel, coin))
  {
    hide LimitOk, AmountOf, SubCoin, LimitOf, FindAmount, AnyNegative;
    var a, r := allocs[i], AcceptAt(allocs, receiver, coin, i);
    LimitAmounts(a.spendLimit, coin.denom);
    if r.Left? {
      SpentCoins(a.spendLimit, coin);
      var left := SubCoin(a.spendLimit, coin);
      forall p, c, d
        ensures LimitOf(r.allocs, p, c, d) == LimitOf(allocs, p, c, d) -
                if (p, c, d) == (a.port, a.channel, coin.denom) then coin.amount else 0
      {
        LimitUpdate(allocs, i, left, p, c, d);
        if left == [] {
          LimitDropped(allocs, i, p, c, d);
          EmptyAmount(left, d);
        }
      }
    }
  }

  lemma EmptyAmount(coins: seq<Coin>, d: string)
    requires coins == []
    ensures AmountOf(coins, d) == 0
  {
  }

  lemma LimitAmounts(coins: seq<Coin>, d: string)
    requires LimitOk(coins)
    ensures FindAmount(coins, d) == AmountOf(coins, d) && 0 <= AmountOf(coins, d) <= MAX_UINT256
  {
    FindAmountExact(coins, d);
    AmountSign(coins, d);
  }

  lemma {:induction false} FirstAllocation(allocs: seq<Allocation>, port: string, channel: string, receiver: string,
                                           coin: Coin, i: nat)
    returns (k: nat)
    requires i <= |allocs| && DistinctChannels(allocs)
    requires Accept(allocs, port, channel, receiver, coin, i) != Refused(NoMatchingAllocation)
    ensures k < |allocs| && allocs[k].port == port && allocs[k].channel == channel
    ensures Accept(allocs, port, channel, receiver, coin, i) == AcceptAt(allocs, receiver, coin, k)
    decreases |allocs| - i
  {
    hide AcceptAt;
    if allocs[i].port == port && allocs[i].channel == channel {
      k := i;
    } else {
      k := FirstAllocation(allocs, port, channel, receiver, coin, i + 1);
    }
  }

  lemma AcceptReduces(allocs: seq<Allocation>, port: string, channel: string, receiver: string, coin: Coin)
    requires AllocationsOk(allocs) && coin.amount > 0
    ensures var r := Accept(allocs, port, channel, receiver, coin, 0);
            var limit := LimitOf(allocs, port, channel, coin.denom);
            && (r.Unlimited? ==> limit == MAX_UINT256)
            && (r.Left? ==> coin.amount <= limit < MAX_UINT256 && Reduces(allocs, r.allocs, port, channel, coin))
  {
    hide AcceptAt, LimitOk, AmountOf, LimitOf, Reduces;
    if !Accept(allocs, port, channel, receiver, coin, 0).Refused? {
      var k := FirstAllocation(allocs, port, channel, receiver, coin, 0);
      AcceptAtReduces(allocs, receiver, coin, k);
      LimitUpdate(allocs, k, [], port, channel, coin.denom);
    }
  }

  // ------------------------------------------------------------------
  // Runs
  // ------------------------------------------------------------------

  datatype Op =
    | ApproveOp(granter: Address, grantee: Address, inputs: seq<Input>, wellNamed: bool)
    | RevokeOp(granter: Address, grantee: Address)
    | IncreaseOp(granter: Address, grantee: Address, port: string, channel: string, denom: string, amount: uint256)
    | DecreaseOp(granter: Address, grantee: Address, port: string, channel: string, denom: string, amount: uint256)
    | TransferOp(granter: Address, grantee: Address, sender: Address, port: string, channel: string, receiver: string,
                 denom: string, amount: uint256, transferOk: bool)
    | Tick(elapsed: nat)

  /** What the calls do not change: the open channels and the lifetime of an approval. */
  datatype Env = Env(channels: set<(string, string)>, duration: int)

  function Call(l: Ledger, env: Env, op: Op): (r: Outcome) {
    match op
    case ApproveOp(granter, grantee, inputs, wellNamed) =>
      Approve(l, env.channels, granter, grantee, inputs, wellNamed, env.duration)
    case RevokeOp(granter, grantee) => Revoke(l, granter, grantee)
    case IncreaseOp(granter, grantee, port, channel, denom, amount) =>
      IncreaseAllowance(l, granter, grantee, port, channel, denom, amount)
    case DecreaseOp(granter, grantee, port, channel, denom, amount) =>
      DecreaseAllowance(l, granter, grantee, port, channel, denom, amount)
    case TransferOp(granter, grantee, sender, port, channel, receiver, denom, amount, transferOk) =>
      SpendAllowance(l, env.channels, granter, grantee, sender, port, channel, receiver, Coin(denom, amount),
                     transferOk)
    case Tick(elapsed) => Ok(l.(now := l.now + elapsed))
  }

  function Commit(l: Ledger, env: Env, op: Op): (l': Ledger) {
    var r := Call(l, env, op);
    if r.Ok? then r.ledger else l
  }

  function Run(l: Ledger, env: Env, ops: seq<Op>): (l': Ledger) {
    if ops == [] then l else Commit(Run(l, env, ops[..|ops| - 1]), env, ops[|ops| - 1])
  }

  /** One place where an allowance is kept. */
  datatype Key = Key(granter: Address, grantee: Address, port: string, channel: string, denom: string)

  function At(l: Ledger, k: Key): (a: int) {
    Allowance(l, k.granter, k.grantee, k.port, k.channel, k.denom)
  }

  predicate OnPair(op: Op, k: Key) {
    !op.Tick? && op.granter == k.granter && op.grantee == k.grantee
  }

  /** The call works on this very allowance. */
  predicate OnKey(op: Op, k: Key) {
    && (op.IncreaseOp? || op.DecreaseOp? || op.TransferOp?)
    && OnPair(op, k) && op.port == k.port && op.channel == k.channel && op.denom == k.denom
  }

  /** The allowance `a` at a place after a successful call. */
  function Next(op: Op, k: Key, a: int): (a': int) {
    if !OnPair(op, k) then a
    else if op.ApproveOp? then LimitOf(Allocations(op.inputs), k.port, k.channel, k.denom)
    else if op.RevokeOp? then 0
    else if !OnKey(op, k) then a
    else if op.IncreaseOp? then a + op.amount
    else if op.DecreaseOp? then a - op.amount
    else if op.granter == op.grantee || a == MAX_UINT256 then a
    else a - op.amount
  }

  /** The grant of one pair is replaced: its allowances are the limits of the new allocations. */
  lemma PairReplaced(l: Ledger, l': Ledger, granter: Address, grantee: Address, g: Grant, k: Key)
    requires StoreOk(l) && g.auth.Transfer? && AllocationsOk(g.auth.allocations)
    requires l' == l.(grants := l.grants[(granter, grantee) := g])
    requires g.expiration.None? || g.expiration.value >= l.now
    ensures StoreOk(l')
    ensures At(l', k) == if (k.granter, k.grantee) == (granter, grantee)
                         then LimitOf(g.auth.allocations, k.port, k.channel, k.denom) else At(l, k)
  {
    hide AllocationsOk, LimitOf, Allowance;
    assert StoreOk(l');
    StoreIsLedger(l);
    StoreIsLedger(l');
    AllowanceIsLimit(l, k.granter, k.grantee, k.port, k.channel, k.denom);
    AllowanceIsLimit(l', k.granter, k.grantee, k.port, k.channel, k.denom);
  }

  lemma PairDeleted(l: Ledger, l': Ledger, granter: Address, grantee: Address, k: Key)
    requires StoreOk(l) && l' == l.(grants := l.grants - {(granter, grantee)})
    ensures StoreOk(l')
    ensures At(l', k) == if (k.granter, k.grantee) == (granter, grantee) then 0 else At(l, k)
  {
    hide AllocationsOk, AllocationIndex;
  }

  lemma ApproveSets(l: Ledger, env: Env, op: Op, k: Key)
    requires StoreOk(l) && op.ApproveOp? && Call(l, env, op).Ok?
    ensures StoreOk(Call(l, env, op).ledger) && At(Call(l, env, op).ledger, k) == Next(op, k, At(l, k))
  {
    hide StoreOk, Allowance, LimitOf, ValidAllocations, Open, Allocations, AllocationsOk;
    var allocs := Allocations(op.inputs);
    ValidIsOk(allocs);
    var g := Grant(Transfer(allocs), Some(l.now + env.duration));
    PairReplaced(l, Call(l, env, op).ledger, op.granter, op.grantee, g, k);
  }

  lemma RevokeSets(l: Ledger, env: Env, op: Op, k: Key)
    requires StoreOk(l) && op.RevokeOp? && Call(l, env, op).Ok?
    ensures StoreOk(Call(l, env, op).ledger) && At(Call(l, env, op).ledger, k) == Next(op, k, At(l, k))
  {
    hide StoreOk, Allowance;
    PairDeleted(l, Call(l, env, op).ledger, op.granter, op.grantee, k);
  }

  /** Adjusting a limit keeps the channels apart. */
  lemma AdjustKeepsStore(l: Ledger, l': Ledger, granter: Address, grantee: Address, t: Target, denom: string,
                         delta: int)
    requires StoreOk(l) && t.Target? && t.g.auth.Transfer? && t.idx < |t.g.auth.allocations|
    requires AllocationsOk(t.g.auth.allocations) && Adjusts(l, l', granter, grantee, t, denom, delta)
    ensures StoreOk(l')
  {
    hide LimitOk, AmountOf;
  }

  lemma AdjustSets(l: Ledger, env: Env, op: Op, k: Key)
    requires StoreOk(l) && (op.IncreaseOp? || op.DecreaseOp?) && Call(l, env, op).Ok?
    ensures StoreOk(Call(l, env, op).ledger) && At(Call(l, env, op).ledger, k) == Next(op, k, At(l, k))
  {
    hide StoreOk, LedgerOk, Allowance, TargetOf, IncreaseAllowance, DecreaseAllowance, Adjusts, AllocationsOk;
    StoreIsLedger(l);
    var t := TargetOf(l, op.granter, op.grantee, op.port, op.channel, op.denom);
    var l' := Call(l, env, op).ledger;
    var delta: int := if op.IncreaseOp? then op.amount else 0 - op.amount as int;
    if op.IncreaseOp? {
      IncreaseAdjusts(l, op.granter, op.grantee, op.port, op.channel, op.denom, op.amount);
    } else {
      DecreaseAdjusts(l, op.granter, op.grantee, op.port, op.channel, op.denom, op.amount);
    }
    TargetAllocations(l, op.granter, op.grantee, op.port, op.channel, op.denom);
    AdjustKeepsStore(l, l', op.granter, op.grantee, t, op.denom, delta);
    AdjustSetsOnly(l, l', op.granter, op.grantee, op.port, op.channel, op.denom, delta,
                   k.granter, k.grantee, k.port, k.channel, k.denom);
  }

  lemma TargetAllocations(l: Ledger, granter: Address, grantee: Address, port: string, channel: string, denom: string)
    requires StoreOk(l) && TargetOf(l, granter, grantee, port, channel, denom).Target?
    ensures AllocationsOk(TargetOf(l, granter, grantee, port, channel, denom).g.auth.allocations)
  {
    hide AllocationsOk;
  }

  lemma TransferSets(l: Ledger, env: Env, op: Op, k: Key)
    requires StoreOk(l) && op.TransferOp? && Call(l, env, op).Ok?
    ensures StoreOk(Call(l, env, op).ledger) && At(Call(l, env, op).ledger, k) == Next(op, k, At(l, k))
    ensures op.granter != op.grantee ==>
            op.amount <= At(l, Key(op.granter, op.grantee, op.port, op.channel, op.denom))
  {
    if op.granter != op.grantee {
      hide StoreOk, Allowance, LimitOf, Accept, AllocationsOk;
      var l' := Call(l, env, op).ledger;
      var g := GetTransferAuthz(l, op.granter, op.grantee).value;
      var allocs := g.auth.allocations;
      GrantAllocations(l, op.granter, op.grantee);
      var coin := Coin(op.denom, op.amount);
      AcceptReduces(allocs, op.port, op.channel, op.receiver, coin);
      StoreIsLedger(l);
      AllowanceIsLimit(l, op.granter, op.grantee, op.port, op.channel, op.denom);
      AllowanceIsLimit(l, k.granter, k.grantee, k.port, k.channel, k.denom);
      var accepted := Accept(allocs, op.port, op.channel, op.receiver, coin, 0);
      if accepted.Left? {
        if accepted.allocs == [] {
          PairDeleted(l, l', op.granter, op.grantee, k);
          assert LimitOf(accepted.allocs, k.port, k.channel, k.denom) == 0 by {
            LimitAbsent(accepted.allocs, k.port, k.channel, k.denom);
          }
        } else {
          PairReplaced(l, l', op.granter, op.grantee, g.(auth := Transfer(accepted.allocs)), k);
        }
      }
    }
  }

  lemma GrantAllocations(l: Ledger, granter: Address, grantee: Address)
    requires StoreOk(l) && GetTransferAuthz(l, granter, grantee).Some?
    ensures var g := GetTransferAuthz(l, granter, grantee).value;
            g.auth.Transfer? ==> AllocationsOk(g.auth.allocations)
  {
    hide AllocationsOk;
  }

  /** Each successful call keeps the store valid and does its update to every allowance at once. */
  lemma CallRefines(l: Ledger, env: Env, op: Op, k: Key)
    requires StoreOk(l) && !op.Tick? && Call(l, env, op).Ok?
    ensures StoreOk(Call(l, env, op).ledger) && At(Call(l, env, op).ledger, k) == Next(op, k, At(l, k))
  {
    hide StoreOk, Call, At, Next;
    match op
    case ApproveOp(_, _, _, _) => ApproveSets(l, env, op, k);
    case RevokeOp(_, _) => RevokeSets(l, env, op, k);
    case IncreaseOp(_, _, _, _, _, _) => AdjustSets(l, env, op, k);
    case DecreaseOp(_, _, _, _, _, _) => AdjustSets(l, env, op, k);
    case TransferOp(_, _, _, _, _, _, _, _, _) => TransferSets(l, env, op, k);
  }

  lemma TickKeepsStore(l: Ledger, elapsed: nat)
    requires StoreOk(l)
    ensures StoreOk(l.(now := l.now + elapsed))
  {
    hide AllocationsOk;
  }

  /** Over every run the store stays valid; from an empty store it is valid throughout. */
  lemma {:induction false} RunKeepsOk(l: Ledger, env: Env, ops: seq<Op>)
    requires StoreOk(l)
    ensures StoreOk(Run(l, env, ops)) && LedgerOk(Run(l, env, ops))
  {
    hide StoreOk, LedgerOk, Call;
    if ops == [] {
    } else {
      var before, op := ops[..|ops| - 1], ops[|ops| - 1];
      RunKeepsOk(l, env, before);
      CommitKeepsOk(Run(l, env, before), env, op);
    }
    StoreIsLedger(Run(l, env, ops));
  }

  lemma CommitKeepsOk(l: Ledger, env: Env, op: Op)
    requires StoreOk(l)
    ensures StoreOk(Commit(l, env, op))
  {
    hide StoreOk, At, Next;
    if op.Tick? {
      TickKeepsStore(l, op.elapsed);
    } else if Call(l, env, op).Ok? {
      CallRefines(l, env, op, Key(0, 0, "", "", ""));
    }
  }

  /** In particular every run that begins without grants. */
  lemma RunFromEmpty(now: int, env: Env, ops: seq<Op>)
    ensures StoreOk(Run(Ledger(map[], now), env, ops)) && LedgerOk(Run(Ledger(map[], now), env, ops))
  {
    RunKeepsOk(Ledger(map[], now), env, ops);
  }

  // ------------------------------------------------------------------
  // The spending ledger of one allowance
  // ------------------------------------------------------------------

  /** `unmetered` is what was transferred under a limit of 2^256 - 1, which is never reduced. */
  datatype Totals = Totals(spent: int, unmetered: int, raised: int, lowered: int, expired: int)

  const NOTHING := Totals(0, 0, 0, 0, 0)

  function Plus(a: Totals, b: Totals): (c: Totals) {
    Totals(a.spent + b.spent, a.unmetered + b.unmetered, a.raised + b.raised, a.lowered + b.lowered,
           a.expired + b.expired)
  }

  /** What one committed step adds to the totals of an allowance. */
  function Charge(l: Ledger, env: Env, op: Op, k: Key): (t: Totals) {
    var a := At(l, k);
    if op.Tick? then
      var g := GetTransferAuthz(l, k.granter, k.grantee);
      var ends := g.Some? && g.value.expiration.Some? && g.value.expiration.value < l.now + op.elapsed;
      if ends then NOTHING.(expired := a) else NOTHING
    else if !Call(l, env, op).Ok? || !OnPair(op, k) then NOTHING
    else if op.ApproveOp? then
      var v := LimitOf(Allocations(op.inputs), k.port, k.channel, k.denom);
      if v >= a then NOTHING.(raised := v - a) else NOTHING.(lowered := a - v)
    else if op.RevokeOp? then NOTHING.(lowered := a)
    else if !OnKey(op, k) then NOTHING
    else if op.IncreaseOp? then NOTHING.(raised := op.amount)
    else if op.DecreaseOp? then NOTHING.(lowered := op.amount)
    else if op.granter == op.grantee then NOTHING
    else if a == MAX_UINT256 then NOTHING.(unmetered := op.amount)
    else NOTHING.(spent := op.amount)
  }

  /** What a committed step transferred on behalf of the granter. */
  function Transferred(l: Ledger, env: Env, op: Op, k: Key): (amount: int) {
    if op.TransferOp? && OnKey(op, k) && op.granter != op.grantee && Call(l, env, op).Ok? then op.amount else 0
  }

  function RunTransferred(l: Ledger, env: Env, ops: seq<Op>, k: Key): (amount: int) {
    if ops == [] then 0
    else
      var before := ops[..|ops| - 1];
      RunTransferred(l, env, before, k) + Transferred(Run(l, env, before), env, ops[|ops| - 1], k)
  }

  function RunTotals(l: Ledger, env: Env, ops: seq<Op>, k: Key): (t: Totals) {
    if ops == [] then NOTHING
    else
      var before := ops[..|ops| - 1];
      Plus(RunTotals(l, env, before, k), Charge(Run(l, env, before), env, ops[|ops| - 1], k))
  }

  lemma TickBalances(l: Ledger, env: Env, op: Op, k: Key)
    requires op.Tick?
    ensures var t := Charge(l, env, op, k);
            t == NOTHING.(expired := t.expired) && At(l, k) == At(Commit(l, env, op), k) + t.expired
  {
    hide AllocationIndex, Find;
  }

  lemma StepBalances(l: Ledger, env: Env, op: Op, k: Key)
    requires StoreOk(l)
    ensures var t := Charge(l, env, op, k);
            && At(l, k) + t.raised == At(Commit(l, env, op), k) + t.spent + t.lowered + t.expired
            && t.spent + t.unmetered == Transferred(l, env, op, k)
  {
    hide StoreOk, Call, At;
    if op.Tick? {
      TickBalances(l, env, op, k);
    } else if Call(l, env, op).Ok? {
      CallRefines(l, env, op, k);
    }
  }

  lemma AllowanceInRange(l: Ledger, k: Key)
    requires StoreOk(l)
    ensures 0 <= At(l, k) <= MAX_UINT256
  {
    hide TargetOf;
    StoreIsLedger(l);
    TargetValid(l, k.granter, k.grantee, k.port, k.channel, k.denom);
  }

  /** Over every run: spent + lowered + expired + current allowance = initial allowance + raised,
      and all that was transferred for the granter was spent, or moved under an unlimited one. */
  lemma {:induction false} SpendingLedger(l: Ledger, env: Env, ops: seq<Op>, k: Key)
    requires StoreOk(l)
    ensures var t := RunTotals(l, env, ops, k);
            && At(l, k) + t.raised == At(Run(l, env, ops), k) + t.spent + t.lowered + t.expired
            && t.spent + t.unmetered == RunTransferred(l, env, ops, k)
    ensures 0 <= At(Run(l, env, ops), k) <= MAX_UINT256
  {
    hide StoreOk, At, Commit, Charge, Transferred;
    RunKeepsOk(l, env, ops);
    AllowanceInRange(Run(l, env, ops), k);
    if ops == [] {
    } else {
      var before := ops[..|ops| - 1];
      SpendingLedger(l, env, before, k);
      RunKeepsOk(l, env, before);
      StepBalances(Run(l, env, before), env, ops[|ops| - 1], k);
    }
  }
}
