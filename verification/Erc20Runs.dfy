/** Whole runs of ERC-20 calls over Erc20Ledger: when a call succeeds, what a run keeps, and
    where every unit of allowance and of balance went. */
module Erc20Runs {
  import opened Wrappers
  import opened Coins
  import opened EvmTypes
  import opened Erc20Ledger

  // ------------------------------------------------------------------
  // Exactly when a call succeeds
  // ------------------------------------------------------------------

  /** A grant can be rewritten unless the block time has reached its expiration. */
  predicate Rewritable(g: Grant, now: int) {
    g.expiration.None? || g.expiration.value > now
  }

  /** `denom` is the only denomination with an allowance in this pair. */
  ghost predicate OnlyAllowance(l: Ledger, owner: Address, spender: Address, denom: string) {
    forall d :: d != denom ==> Allowance(l, owner, spender, d) == 0
  }

  lemma RemoveSucceeds(l: Ledger, owner: Address, spender: Address, denom: string, g: Grant)
    requires LedgerOk(l) && GetAuthorization(l, owner, spender) == Some(g)
    ensures RemoveSpendLimit(l, owner, spender, denom, g).Ok? <==>
            && Allowance(l, owner, spender, denom) > 0
            && (OnlyAllowance(l, owner, spender, denom) || Rewritable(g, l.now))
  {
    if g.auth.Send? {
      hide SubCoin, Find, AmountOf;
      var coins := g.auth.spendLimit;
      FindExact(coins, denom);
      AmountSign(coins, denom);
      if Has(coins, denom) {
        var amount := AmountOf(coins, denom);
        SubCoinLeaves(coins, denom, amount);
        LeftEmpty(l, owner, spender, denom, SubCoin(coins, Coin(denom, amount)));
      }
    }
  }

  lemma LeftEmpty(l: Ledger, owner: Address, spender: Address, denom: string, left: seq<Coin>)
    requires ValidCoins(left)
    requires forall d :: AmountOf(left, d) == if d == denom then 0 else Allowance(l, owner, spender, d)
    ensures left == [] <==> OnlyAllowance(l, owner, spender, denom)
  {
    hide Allowance;
    if left == [] {
      forall d | d != denom ensures Allowance(l, owner, spender, d) == 0 {
        assert AmountOf(left, d) == 0;
      }
    } else {
      var d := left[0].denom;
      assert AmountOf(left, d) == left[0].amount > 0;
      assert d != denom && Allowance(l, owner, spender, d) > 0;
    }
  }

  lemma UpdateSucceeds(l: Ledger, owner: Address, spender: Address, denom: string, amount: int, g: Grant)
    requires LedgerOk(l) && GetAuthorization(l, owner, spender) == Some(g) && g.auth.Send? && amount > 0
    ensures UpdateAuthorization(l, owner, spender, denom, amount, g).Ok? <==>
            amount <= MAX_UINT256 && Rewritable(g, l.now)
  {
    hide UpdateOrAdd;
    UpdateOrAddSets(g.auth.spendLimit, Coin(denom, amount));
  }

  /** approve succeeds, over all inputs, exactly so; EIP-20 would also accept approving zero
      without an allowance to remove. */
  lemma ApproveSucceeds(l: Ledger, token: Address, caller: Address, spender: Address, denom: string, amount: int,
                        duration: int)
    requires LedgerOk(l)
    ensures Approve(l, token, caller, spender, denom, amount, duration).Ok? <==>
            && caller != spender
            && match GetAuthorization(l, caller, spender) {
                 case None => amount == 0 || (0 < amount <= MAX_UINT256 && duration > 0)
                 case Some(g) =>
                   if amount > 0 then g.auth.Send? && amount <= MAX_UINT256 && Rewritable(g, l.now)
                   else Allowance(l, caller, spender, denom) > 0 &&
                        (OnlyAllowance(l, caller, spender, denom) || Rewritable(g, l.now))
               }
  {
    hide UpdateAuthorization, RemoveSpendLimit, GetAuthorization, Allowance, LedgerOk;
    match GetAuthorization(l, caller, spender)
    case None =>
    case Some(g) =>
      if amount <= 0 {
        RemoveSucceeds(l, caller, spender, denom, g);
      } else if g.auth.Send? {
        UpdateSucceeds(l, caller, spender, denom, amount, g);
      }
  }

  lemma IncreaseSucceeds(l: Ledger, token: Address, caller: Address, spender: Address, denom: string, added: int,
                         duration: int)
    requires LedgerOk(l)
    ensures IncreaseAllowance(l, token, caller, spender, denom, added, duration).Ok? <==>
            && caller != spender && added > 0
            && Allowance(l, caller, spender, denom) + added <= MAX_UINT256
            && match GetAuthorization(l, caller, spender) {
                 case None => duration > 0
                 case Some(g) => g.auth.Send? && Rewritable(g, l.now)
               }
  {
    hide UpdateAuthorization, SafeAdd;
    match GetAuthorization(l, caller, spender)
    case None =>
    case Some(g) =>
      if g.auth.Send? && added > 0 {
        SafeAddExact(AmountOf(g.auth.spendLimit, denom), added);
        FindAmountExact(g.auth.spendLimit, denom);
        AmountSign(g.auth.spendLimit, denom);
        UpdateSucceeds(l, caller, spender, denom, AmountOf(g.auth.spendLimit, denom) + added, g);
      }
  }

  lemma DecreaseSucceeds(l: Ledger, token: Address, caller: Address, spender: Address, denom: string, subtracted: int)
    requires LedgerOk(l)
    ensures DecreaseAllowance(l, token, caller, spender, denom, subtracted).Ok? <==>
            && caller != spender && 0 < subtracted <= Allowance(l, caller, spender, denom)
            && ((subtracted == Allowance(l, caller, spender, denom) && OnlyAllowance(l, caller, spender, denom))
                || Rewritable(GetAuthorization(l, caller, spender).value, l.now))
  {
    hide UpdateAuthorization, RemoveSpendLimit, OnlyAllowance;
    LiveGrantMeansAllowance(l, caller, spender);
    var grant := GetAuthorization(l, caller, spender);
    if grant.Some? && grant.value.auth.Send? {
      var g := grant.value;
      FindAmountExact(g.auth.spendLimit, denom);
      RemoveSucceeds(l, caller, spender, denom, g);
      var left := AmountOf(g.auth.spendLimit, denom) - subtracted;
      if left > 0 {
        UpdateSucceeds(l, caller, spender, denom, left, g);
      }
    }
  }

  /** The bank lets the tokens go. */
  predicate Sendable(l: Ledger, from: Address, to: Address, denom: string, amount: int) {
    denom !in l.rules.disabled && to !in l.rules.blocked && amount <= Balance(l, from, denom) - Locked(l, from, denom)
  }

  /** The recipient is on the grant's allow list, if it has one; a grant used up whole is not asked. */
  ghost predicate Admits(l: Ledger, owner: Address, spender: Address, to: Address, denom: string, amount: int) {
    match GetAuthorization(l, owner, spender)
    case None => false
    case Some(g) =>
      g.auth.Send? &&
      (g.auth.allowList == {} || to in g.auth.allowList ||
       (amount == Allowance(l, owner, spender, denom) && OnlyAllowance(l, owner, spender, denom)))
  }

  lemma TransferSucceeds(l: Ledger, isTransferFrom: bool, caller: Address, from: Address, to: Address, denom: string,
                         amount: int)
    requires LedgerOk(l)
    ensures Transfer(l, isTransferFrom, caller, from, to, denom, amount).Ok? <==>
            && 0 < amount <= MAX_UINT256 && Sendable(l, from, to, denom, amount)
            && (caller == from ||
                (amount <= Allowance(l, from, caller, denom) && Admits(l, from, caller, to, denom, amount)))
  {
    if 0 < amount <= MAX_UINT256 && caller != from {
      hide SubCoin, AmountOf, OnlyAllowance;
      var grant := GetAuthorization(l, from, caller);
      if grant.Some? && grant.value.auth.Send? {
        var coins := grant.value.auth.spendLimit;
        SubCoinLeaves(coins, denom, amount);
        if amount <= AmountOf(coins, denom) {
          var left := SubCoin(coins, Coin(denom, amount));
          UsedUp(l, from, caller, denom, amount, left);
        }
      }
    }
  }

  lemma UsedUp(l: Ledger, owner: Address, spender: Address, denom: string, amount: int, left: seq<Coin>)
    requires ValidCoins(left)
    requires forall d :: AmountOf(left, d) == Allowance(l, owner, spender, d) - if d == denom then amount else 0
    ensures left == [] <==> amount == Allowance(l, owner, spender, denom) && OnlyAllowance(l, owner, spender, denom)
  {
    hide Allowance;
    if left == [] {
      assert AmountOf(left, denom) == 0;
      forall d | d != denom ensures Allowance(l, owner, spender, d) == 0 {
        assert AmountOf(left, d) == 0;
      }
    } else {
      assert AmountOf(left, left[0].denom) == left[0].amount > 0;
    }
  }

  // ------------------------------------------------------------------
  // Runs
  // ------------------------------------------------------------------

  datatype Op =
    | ApproveOp(token: Address, caller: Address, spender: Address, denom: string, amount: int)
    | IncreaseOp(token: Address, caller: Address, spender: Address, denom: string, amount: int)
    | DecreaseOp(token: Address, caller: Address, spender: Address, denom: string, amount: int)
    | TransferOp(caller: Address, to: Address, denom: string, amount: int)
    | TransferFromOp(caller: Address, from: Address, to: Address, denom: string, amount: int)
    | Tick(elapsed: nat)

  function Call(l: Ledger, op: Op, duration: int): (r: Outcome) {
    match op
    case ApproveOp(token, caller, spender, denom, amount) =>
      Approve(l, token, caller, spender, denom, amount, duration)
    case IncreaseOp(token, caller, spender, denom, amount) =>
      IncreaseAllowance(l, token, caller, spender, denom, amount, duration)
    case DecreaseOp(token, caller, spender, denom, amount) =>
      DecreaseAllowance(l, token, caller, spender, denom, amount)
    case TransferOp(caller, to, denom, amount) => Transfer(l, false, caller, caller, to, denom, amount)
    case TransferFromOp(caller, from, to, denom, amount) => Transfer(l, true, caller, from, to, denom, amount)
    case Tick(elapsed) => Ok(l.(now := l.now + elapsed), None)
  }

  /** A failed call is rolled back by the transaction around it. */
  function Commit(l: Ledger, op: Op, duration: int): (l': Ledger) {
    var r := Call(l, op, duration);
    if r.Ok? then r.ledger else l
  }

  function Run(l: Ledger, ops: seq<Op>, duration: int): (l': Ledger) {
    if ops == [] then l else Commit(Run(l, ops[..|ops| - 1], duration), ops[|ops| - 1], duration)
  }

  /** The pair and denomination whose allowance a call works on. */
  function Owner(op: Op): (a: Address) requires !op.Tick? {
    if op.TransferFromOp? then op.from else op.caller
  }

  function Spender(op: Op): (a: Address) requires !op.Tick? {
    if op.TransferFromOp? || op.TransferOp? then op.caller else op.spender
  }

  /** The EIP-20 update of that allowance `a`. */
  function NewAllowance(op: Op, a: int): (a': int) requires !op.Tick? {
    match op
    case ApproveOp(_, _, _, _, amount) => if amount > 0 then amount else 0
    case IncreaseOp(_, _, _, _, amount) => a + amount
    case DecreaseOp(_, _, _, _, amount) => a - amount
    case TransferOp(_, _, _, _) => a
    case TransferFromOp(caller, from, _, _, amount) => if caller == from then a else a - amount
  }

  lemma TickKeepsOk(l: Ledger, elapsed: nat)
    requires LedgerOk(l)
    ensures LedgerOk(l.(now := l.now + elapsed))
  {
  }

  /** Each successful call performs its EIP-20 update on its own entry and on no other. */
  lemma CallRefines(l: Ledger, op: Op, duration: int)
    requires LedgerOk(l) && !op.Tick? && Call(l, op, duration).Ok?
    ensures var l' := Call(l, op, duration).ledger;
            && LedgerOk(l')
            && SetsOnly(l, l', Owner(op), Spender(op), op.denom,
                        NewAllowance(op, Allowance(l, Owner(op), Spender(op), op.denom)))
  {
    hide LedgerOk, SetsOnly, Allowance, Approve, IncreaseAllowance, DecreaseAllowance, Transfer;
    match op
    case ApproveOp(token, caller, spender, denom, amount) =>
      ApproveRefines(l, token, caller, spender, denom, amount, duration);
    case IncreaseOp(token, caller, spender, denom, amount) =>
      IncreaseRefines(l, token, caller, spender, denom, amount, duration);
    case DecreaseOp(token, caller, spender, denom, amount) =>
      DecreaseRefines(l, token, caller, spender, denom, amount);
    case TransferOp(caller, to, denom, amount) => TransferRefines(l, false, caller, caller, to, denom, amount);
    case TransferFromOp(caller, from, to, denom, amount) => TransferRefines(l, true, caller, from, to, denom, amount);
  }

  lemma {:induction false} RunKeepsOk(l: Ledger, ops: seq<Op>, duration: int)
    requires LedgerOk(l)
    ensures LedgerOk(Run(l, ops, duration))
  {
    hide LedgerOk, Call;
    if ops == [] {
    } else {
      var before, op := Run(l, ops[..|ops| - 1], duration), ops[|ops| - 1];
      RunKeepsOk(l, ops[..|ops| - 1], duration);
      CommitKeepsOk(before, op, duration);
    }
  }

  lemma CommitKeepsOk(l: Ledger, op: Op, duration: int)
    requires LedgerOk(l)
    ensures LedgerOk(Commit(l, op, duration))
  {
    if op.Tick? {
      TickKeepsOk(l, op.elapsed);
    } else if Call(l, op, duration).Ok? {
      CallRefines(l, op, duration);
    }
  }

  // ------------------------------------------------------------------
  // The Approval event
  // ------------------------------------------------------------------

  /** The event of a call, when it emits one: the pair it names and the value. */
  lemma EventOf(l: Ledger, op: Op, duration: int)
    requires LedgerOk(l) && !op.Tick? && Call(l, op, duration).Ok?
    ensures var r := Call(l, op, duration);
            && (r.approval == None <==> op.TransferOp?)
            && (r.approval.Some? ==>
                  && r.approval.value.owner == NamedOwner(op) && r.approval.value.spender == Spender(op)
                  && (Owner(op) != Spender(op) ==> r.approval.value.value == EmittedValue(l, op)))
  {
    hide LedgerOk, Allowance, Approve, IncreaseAllowance, DecreaseAllowance, Transfer;
    match op
    case ApproveOp(token, caller, spender, denom, amount) =>
      ApproveRefines(l, token, caller, spender, denom, amount, duration);
    case IncreaseOp(token, caller, spender, denom, amount) =>
      IncreaseRefines(l, token, caller, spender, denom, amount, duration);
    case DecreaseOp(token, caller, spender, denom, amount) =>
      DecreaseRefines(l, token, caller, spender, denom, amount);
    case TransferOp(caller, to, denom, amount) => TransferRefines(l, false, caller, caller, to, denom, amount);
    case TransferFromOp(caller, from, to, denom, amount) => TransferRefines(l, true, caller, from, to, denom, amount);
  }

  /** The owner in the event of a call: the precompile for approve, increase and decrease. */
  function NamedOwner(op: Op): (a: Address) requires !op.Tick? {
    if op.ApproveOp? || op.IncreaseOp? || op.DecreaseOp? then op.token else Owner(op)
  }

  function EmittedValue(l: Ledger, op: Op): (v: int) requires !op.Tick? {
    if op.ApproveOp? then op.amount else NewAllowance(op, Allowance(l, Owner(op), Spender(op), op.denom))
  }

  /** The Approval value emitted for a spender other than the owner is the allowance stored by
      the call, unless a negative amount was approved. */
  lemma ApprovalIsStored(l: Ledger, op: Op, duration: int)
    requires LedgerOk(l) && !op.Tick? && Owner(op) != Spender(op)
    requires Call(l, op, duration).Ok? && Call(l, op, duration).approval.Some?
    ensures var r := Call(l, op, duration);
            r.approval.value.value == Allowance(r.ledger, Owner(op), Spender(op), op.denom) <==>
            !(op.ApproveOp? && op.amount < 0)
  {
    hide LedgerOk, Allowance, Call;
    EventOf(l, op, duration);
    CallRefines(l, op, duration);
  }

  /** The event names the pair whose allowance the call works on if and only if the call is
      transferFrom or the caller is the precompile itself. In every other case the allowance of
      the pair it names is left as it was. */
  lemma ApprovalNamesOwner(l: Ledger, op: Op, duration: int)
    requires LedgerOk(l) && !op.Tick?
    requires Call(l, op, duration).Ok? && Call(l, op, duration).approval.Some?
    ensures var r := Call(l, op, duration);
            var e := r.approval.value;
            && ((e.owner, e.spender) == (Owner(op), Spender(op)) <==> op.TransferFromOp? || NamedOwner(op) == op.caller)
            && (e.owner != Owner(op) ==>
                  Allowance(r.ledger, e.owner, e.spender, op.denom) == Allowance(l, e.owner, e.spender, op.denom))
  {
    hide LedgerOk, Allowance, Call;
    EventOf(l, op, duration);
    CallRefines(l, op, duration);
  }

  /** An approval on an empty ledger: the allowance is the caller's, the event speaks of the
      precompile, which has granted nothing. */
  lemma ApproveNamesPrecompile(l: Ledger, token: Address, caller: Address, spender: Address, denom: string,
                               duration: int)
    requires l.grants == map[] && duration > 0 && caller != spender && caller != token
    ensures var r := Approve(l, token, caller, spender, denom, 1, duration);
            && r.Ok? && r.approval == Some(Approval(token, spender, 1))
            && Allowance(r.ledger, caller, spender, denom) == 1
            && Allowance(r.ledger, token, spender, denom) == 0
  {
    hide Approve;
    ApproveSucceeds(l, token, caller, spender, denom, 1, duration);
    ApproveRefines(l, token, caller, spender, denom, 1, duration);
  }

  // ------------------------------------------------------------------
  // Calls EIP-20 accepts and the code refuses
  // ------------------------------------------------------------------

  /** A grant for another token alone: approving zero is an error. */
  lemma ZeroApproveRefused(l: Ledger, token: Address, caller: Address, spender: Address, denom: string,
                           other: string, amount: int, duration: int)
    requires l.grants == map[(caller, spender) := Grant(Send([Coin(other, amount)], {}), None)]
    requires caller != spender && denom != other && 0 < amount <= MAX_UINT256
    ensures LedgerOk(l) && Allowance(l, caller, spender, denom) == 0
    ensures Approve(l, token, caller, spender, denom, 0, duration).Err?
  {
    var coins := [Coin(other, amount)];
    assert coins[1..] == [] && AmountOf(coins, denom) == 0;
    ApproveSucceeds(l, token, caller, spender, denom, 0, duration);
  }

  /** A transfer of zero is always an error, and changes nothing. */
  lemma ZeroTransferRefused(l: Ledger, isTransferFrom: bool, caller: Address, from: Address, to: Address, denom: string)
    ensures Transfer(l, isTransferFrom, caller, from, to, denom, 0) == Err(l, InvalidCoins)
  {
  }

  // ------------------------------------------------------------------
  // The spending ledger of one (owner, spender, denom)
  // ------------------------------------------------------------------

  datatype Totals = Totals(spent: int, raised: int, lowered: int, expired: int)

  function Plus(a: Totals, b: Totals): (c: Totals) {
    Totals(a.spent + b.spent, a.raised + b.raised, a.lowered + b.lowered, a.expired + b.expired)
  }

  predicate Concerns(op: Op, o: Address, s: Address, d: string) {
    !op.Tick? && Owner(op) == o && Spender(op) == s && op.denom == d
  }

  /** What one committed step adds to the totals of (o, s, d). */
  function Charge(l: Ledger, op: Op, duration: int, o: Address, s: Address, d: string): (t: Totals) {
    var a := Allowance(l, o, s, d);
    if op.Tick? then
      var g := GetAuthorization(l, o, s);
      Totals(0, 0, 0, if g.Some? && Expired(g.value, l.now + op.elapsed) then a else 0)
    else if !Call(l, op, duration).Ok? || !Concerns(op, o, s, d) then Totals(0, 0, 0, 0)
    else
      match op
      case ApproveOp(_, _, _, _, amount) =>
        var v := if amount > 0 then amount else 0;
        if v >= a then Totals(0, v - a, 0, 0) else Totals(0, 0, a - v, 0)
      case IncreaseOp(_, _, _, _, amount) => Totals(0, amount, 0, 0)
      case DecreaseOp(_, _, _, _, amount) => Totals(0, 0, amount, 0)
      case TransferOp(_, _, _, _) => Totals(0, 0, 0, 0)
      case TransferFromOp(_, _, _, _, amount) => if o == s then Totals(0, 0, 0, 0) else Totals(amount, 0, 0, 0)
  }

  function RunTotals(l: Ledger, ops: seq<Op>, duration: int, o: Address, s: Address, d: string): (t: Totals) {
    if ops == [] then Totals(0, 0, 0, 0)
    else
      var before := ops[..|ops| - 1];
      Plus(RunTotals(l, before, duration, o, s, d), Charge(Run(l, before, duration), ops[|ops| - 1], duration, o, s, d))
  }

  lemma StepBalances(l: Ledger, op: Op, duration: int, o: Address, s: Address, d: string)
    requires LedgerOk(l)
    ensures var t := Charge(l, op, duration, o, s, d);
            Allowance(l, o, s, d) + t.raised ==
            Allowance(Commit(l, op, duration), o, s, d) + t.spent + t.lowered + t.expired
  {
    hide LedgerOk, Call;
    if op.Tick? {
      TickBalances(l, op, duration, o, s, d);
    } else if Call(l, op, duration).Ok? {
      CallRefines(l, op, duration);
    }
  }

  lemma TickBalances(l: Ledger, op: Op, duration: int, o: Address, s: Address, d: string)
    requires op.Tick?
    ensures var t := Charge(l, op, duration, o, s, d);
            && t == Totals(0, 0, 0, t.expired)
            && Allowance(l, o, s, d) == Allowance(Commit(l, op, duration), o, s, d) + t.expired
  {
    hide AmountOf;
  }

  /** Over every run: spent + lowered + expired + current allowance = initial allowance + raised. */
  lemma {:induction false} SpendingLedger(l: Ledger, ops: seq<Op>, duration: int, o: Address, s: Address, d: string)
    requires LedgerOk(l)
    ensures var t := RunTotals(l, ops, duration, o, s, d);
            Allowance(l, o, s, d) + t.raised ==
            Allowance(Run(l, ops, duration), o, s, d) + t.spent + t.lowered + t.expired
    ensures 0 <= Allowance(Run(l, ops, duration), o, s, d) <= MAX_UINT256
  {
    hide LedgerOk, Allowance, Commit, Charge;
    RunKeepsOk(l, ops, duration);
    LiveGrantMeansAllowance(Run(l, ops, duration), o, s);
    if ops == [] {
    } else {
      var before := ops[..|ops| - 1];
      SpendingLedger(l, before, duration, o, s, d);
      RunKeepsOk(l, before, duration);
      StepBalances(Run(l, before, duration), ops[|ops| - 1], duration, o, s, d);
    }
  }

  // ------------------------------------------------------------------
  // Balances
  // ------------------------------------------------------------------

  function SumBalances(l: Ledger, accounts: seq<Address>, d: string): (total: nat) {
    if accounts == [] then 0 else Balance(l, accounts[0], d) + SumBalances(l, accounts[1..], d)
  }

  ghost predicate Distinct(accounts: seq<Address>) {
    forall i, j :: 0 <= i < j < |accounts| ==> accounts[i] != accounts[j]
  }

  lemma {:induction false} MovedSum(l: Ledger, l': Ledger, from: Address, to: Address, denom: string, amount: int,
                                    accounts: seq<Address>, d: string)
    requires Distinct(accounts) && Moves(l, l', from, to, denom, amount)
    ensures SumBalances(l', accounts, d) == SumBalances(l, accounts, d) +
            (if d == denom && to in accounts then amount else 0)
            - (if d == denom && from in accounts then amount else 0)
  {
    hide Balance;
    if accounts == [] {
    } else {
      assert accounts == [accounts[0]] + accounts[1..];
      MovedSum(l, l', from, to, denom, amount, accounts[1..], d);
    }
  }

  lemma OtherCallsKeepBalances(l: Ledger, op: Op, duration: int)
    requires !op.TransferOp? && !op.TransferFromOp?
    ensures Commit(l, op, duration).balances == l.balances
  {
    hide AmountOf, FindAmount, Find, UpdateOrAdd, SubCoin;
  }

  lemma CommitConserves(l: Ledger, op: Op, duration: int, accounts: seq<Address>, d: string)
    requires LedgerOk(l) && Distinct(accounts)
    requires op.TransferOp? ==> op.caller in accounts && op.to in accounts
    requires op.TransferFromOp? ==> op.from in accounts && op.to in accounts
    ensures SumBalances(Commit(l, op, duration), accounts, d) == SumBalances(l, accounts, d)
  {
    hide LedgerOk, Transfer, Moves;
    if op.TransferOp? || op.TransferFromOp? {
      if Call(l, op, duration).Ok? {
        TransferRefines(l, op.TransferFromOp?, op.caller, Owner(op), op.to, op.denom, op.amount);
        MovedSum(l, Call(l, op, duration).ledger, Owner(op), op.to, op.denom, op.amount, accounts, d);
      }
    } else {
      OtherCallsKeepBalances(l, op, duration);
      SameSum(l, Commit(l, op, duration), accounts, d);
    }
  }

  lemma {:induction false} SameSum(l: Ledger, l': Ledger, accounts: seq<Address>, d: string)
    requires l'.balances == l.balances
    ensures SumBalances(l', accounts, d) == SumBalances(l, accounts, d)
  {
    if accounts == [] {
    } else {
      SameSum(l, l', accounts[1..], d);
    }
  }

  /** Over every run the total of every denomination is conserved, for any list of accounts that
      includes everyone transferring or receiving. */
  lemma {:induction false} SupplyConserved(l: Ledger, ops: seq<Op>, duration: int, accounts: seq<Address>, d: string)
    requires LedgerOk(l) && Distinct(accounts)
    requires forall op :: op in ops && op.TransferOp? ==> op.caller in accounts && op.to in accounts
    requires forall op :: op in ops && op.TransferFromOp? ==> op.from in accounts && op.to in accounts
    ensures SumBalances(Run(l, ops, duration), accounts, d) == SumBalances(l, accounts, d)
  {
    hide LedgerOk, Commit;
    if ops == [] {
    } else {
      var before := ops[..|ops| - 1];
      SupplyConserved(l, before, duration, accounts, d);
      RunKeepsOk(l, before, duration);
      CommitConserves(Run(l, before, duration), ops[|ops| - 1], duration, accounts, d);
    }
  }
}
