/** ERC-20 calls over Erc20Ledger, the rest of their outcome: which error a call ends in, and how
    long the allowances it leaves behind live. */
module Erc20Verdicts {
  import opened Wrappers
  import opened Coins
  import opened EvmTypes
  import opened Erc20Ledger
  import opened Erc20Runs

  // ------------------------------------------------------------------
  // Which error
  // ------------------------------------------------------------------

  /** The call succeeds, or ends in this error. */
  predicate EndsIn(r: Outcome, e: Option<Error>) {
    if e.None? then r.Ok? else r.Err? && r.error == e.value
  }

  /** The grant is saved again, which needs an expiration after the block time. */
  function SaveError(g: Grant, now: int): (e: Option<Error>) {
    if Rewritable(g, now) then None else Some(InvalidExpiration)
  }

  ghost function RemoveError(l: Ledger, owner: Address, spender: Address, denom: string, g: Grant): (e: Option<Error>) {
    if !g.auth.Send? then Some(UnknownAuthorizationType)
    else if Allowance(l, owner, spender, denom) == 0 then Some(NoAllowanceForToken)
    else if OnlyAllowance(l, owner, spender, denom) then None
    else SaveError(g, l.now)
  }

  function CreateError(amount: int, duration: int): (e: Option<Error>) {
    if amount > MAX_UINT256 then Some(IntegerOverflow)
    else if duration <= 0 then Some(InvalidExpiration)
    else None
  }

  ghost function ApproveError(l: Ledger, caller: Address, spender: Address, denom: string, amount: int,
                              duration: int): (e: Option<Error>)
  {
    if caller == spender then Some(SpenderIsOwner)
    else
      match GetAuthorization(l, caller, spender)
      case None =>
        if amount < 0 then Some(NegativeAmount) else if amount == 0 then None else CreateError(amount, duration)
      case Some(g) =>
        if amount <= 0 then RemoveError(l, caller, spender, denom, g)
        else if !g.auth.Send? then Some(UnknownAuthorizationType)
        else if amount > MAX_UINT256 then Some(IntegerOverflow)
        else SaveError(g, l.now)
  }

  function IncreaseError(l: Ledger, caller: Address, spender: Address, denom: string, added: int,
                         duration: int): (e: Option<Error>)
  {
    if caller == spender then Some(SpenderIsOwner)
    else if added <= 0 then Some(NonPositiveValue)
    else
      match GetAuthorization(l, caller, spender)
      case None => CreateError(added, duration)
      case Some(g) =>
        if !g.auth.Send? then Some(UnknownAuthorizationType)
        else if Allowance(l, caller, spender, denom) + added > MAX_UINT256 then Some(IntegerOverflow)
        else SaveError(g, l.now)
  }

  ghost function DecreaseError(l: Ledger, caller: Address, spender: Address, denom: string,
                               subtracted: int): (e: Option<Error>)
  {
    var allowance := Allowance(l, caller, spender, denom);
    if caller == spender then Some(SpenderIsOwner)
    else if subtracted <= 0 then Some(NonPositiveValue)
    else if allowance == 0 then Some(NoAllowanceForToken)
    else if subtracted > allowance then Some(DecreasedAllowanceBelowZero)
    else if subtracted == allowance && OnlyAllowance(l, caller, spender, denom) then None
    else
      match GetAuthorization(l, caller, spender)
      case None => None
      case Some(g) => SaveError(g, l.now)
  }

  function BankError(l: Ledger, from: Address, to: Address, denom: string, amount: int): (e: Option<Error>) {
    if denom in l.rules.disabled then Some(SendDisabled)
    else if to in l.rules.blocked then Some(Unauthorized)
    else if amount > Balance(l, from, denom) - Locked(l, from, denom) then Some(InsufficientFunds)
    else None
  }

  ghost function TransferError(l: Ledger, caller: Address, from: Address, to: Address, denom: string,
                               amount: int): (e: Option<Error>)
  {
    if amount > MAX_UINT256 || amount < -MAX_UINT256 then Some(IntegerOverflow)
    else if amount <= 0 then Some(InvalidCoins)
    else if caller == from then BankError(l, from, to, denom, amount)
    else if amount > Allowance(l, from, caller, denom) then Some(InsufficientAllowance)
    else if !Admits(l, from, caller, to, denom, amount) then Some(Unauthorized)
    else BankError(l, from, to, denom, amount)
  }

  lemma RemoveVerdict(l: Ledger, owner: Address, spender: Address, denom: string, g: Grant)
    requires LedgerOk(l) && GetAuthorization(l, owner, spender) == Some(g)
    ensures EndsIn(RemoveSpendLimit(l, owner, spender, denom, g), RemoveError(l, owner, spender, denom, g))
  {
    RemoveSucceeds(l, owner, spender, denom, g);
    if g.auth.Send? {
      hide SubCoin, Find, AmountOf, OnlyAllowance;
      var coins := g.auth.spendLimit;
      FindExact(coins, denom);
      AmountSign(coins, denom);
      if Has(coins, denom) {
        SubCoinLeaves(coins, denom, AmountOf(coins, denom));
      }
    }
  }

  lemma UpdateVerdict(l: Ledger, owner: Address, spender: Address, denom: string, amount: int, g: Grant)
    requires LedgerOk(l) && GetAuthorization(l, owner, spender) == Some(g) && g.auth.Send? && amount > 0
    ensures EndsIn(UpdateAuthorization(l, owner, spender, denom, amount, g),
                   if amount > MAX_UINT256 then Some(IntegerOverflow) else SaveError(g, l.now))
  {
    hide UpdateOrAdd;
    UpdateOrAddSets(g.auth.spendLimit, Coin(denom, amount));
  }

  lemma ApproveVerdict(l: Ledger, token: Address, caller: Address, spender: Address, denom: string, amount: int,
                       duration: int)
    requires LedgerOk(l)
    ensures EndsIn(Approve(l, token, caller, spender, denom, amount, duration),
                   ApproveError(l, caller, spender, denom, amount, duration))
  {
    hide UpdateAuthorization, RemoveSpendLimit, GetAuthorization, RemoveError, SaveError, LedgerOk;
    match GetAuthorization(l, caller, spender)
    case None =>
    case Some(g) =>
      if amount <= 0 {
        RemoveVerdict(l, caller, spender, denom, g);
      } else if g.auth.Send? {
        UpdateVerdict(l, caller, spender, denom, amount, g);
      }
  }

  lemma IncreaseVerdict(l: Ledger, token: Address, caller: Address, spender: Address, denom: string, added: int,
                        duration: int)
    requires LedgerOk(l)
    ensures EndsIn(IncreaseAllowance(l, token, caller, spender, denom, added, duration),
                   IncreaseError(l, caller, spender, denom, added, duration))
  {
    hide UpdateAuthorization, SafeAdd, SaveError;
    match GetAuthorization(l, caller, spender)
    case None =>
    case Some(g) =>
      if g.auth.Send? && added > 0 {
        SafeAddExact(AmountOf(g.auth.spendLimit, denom), added);
        FindAmountExact(g.auth.spendLimit, denom);
        AmountSign(g.auth.spendLimit, denom);
        UpdateVerdict(l, caller, spender, denom, AmountOf(g.auth.spendLimit, denom) + added, g);
      }
  }

  lemma DecreaseVerdict(l: Ledger, token: Address, caller: Address, spender: Address, denom: string, subtracted: int)
    requires LedgerOk(l)
    ensures EndsIn(DecreaseAllowance(l, token, caller, spender, denom, subtracted),
                   DecreaseError(l, caller, spender, denom, subtracted))
  {
    hide UpdateAuthorization, RemoveSpendLimit, OnlyAllowance, SaveError;
    LiveGrantMeansAllowance(l, caller, spender);
    var grant := GetAuthorization(l, caller, spender);
    if grant.Some? && grant.value.auth.Send? {
      var g := grant.value;
      FindAmountExact(g.auth.spendLimit, denom);
      RemoveVerdict(l, caller, spender, denom, g);
      var left := AmountOf(g.auth.spendLimit, denom) - subtracted;
      if left > 0 {
        LimitInRange(l, caller, spender, denom);
        UpdateVerdict(l, caller, spender, denom, left, g);
      }
    }
  }

  lemma LimitInRange(l: Ledger, owner: Address, spender: Address, denom: string)
    requires LedgerOk(l)
    ensures Allowance(l, owner, spender, denom) <= MAX_UINT256
  {
    LiveGrantMeansAllowance(l, owner, spender);
  }

  lemma BankVerdict(l: Ledger, from: Address, to: Address, denom: string, amount: nat)
    ensures EndsIn(BankSend(l, from, to, denom, amount), BankError(l, from, to, denom, amount))
  {
  }

  lemma SameBank(l: Ledger, l': Ledger, from: Address, to: Address, denom: string, amount: int)
    requires l'.balances == l.balances && l'.rules == l.rules
    ensures BankError(l', from, to, denom, amount) == BankError(l, from, to, denom, amount)
  {
  }

  lemma DispatchVerdict(l: Ledger, owner: Address, spender: Address, to: Address, denom: string, amount: nat)
    requires LedgerOk(l) && amount > 0
    requires GetAuthorization(l, owner, spender).Some? && GetAuthorization(l, owner, spender).value.auth.Send?
    ensures EndsIn(Dispatch(l, owner, spender, to, denom, amount),
                   if amount > Allowance(l, owner, spender, denom) then Some(InsufficientAllowance)
                   else if !Admits(l, owner, spender, to, denom, amount) then Some(Unauthorized)
                   else BankError(l, owner, to, denom, amount))
  {
    hide SubCoin, AmountOf, OnlyAllowance, BankSend, BankError, AnyNegative;
    var g := l.grants[(owner, spender)];
    var left := SubCoin(g.auth.spendLimit, Coin(denom, amount));
    SubCoinLeaves(g.auth.spendLimit, denom, amount);
    if amount <= AmountOf(g.auth.spendLimit, denom) {
      UsedUp(l, owner, spender, denom, amount, left);
      var mid := l.(grants := if left == [] then l.grants - {(owner, spender)}
                              else l.grants[(owner, spender) := g.(auth := g.auth.(spendLimit := left))]);
      BankVerdict(mid, owner, to, denom, amount);
      SameBank(l, mid, owner, to, denom, amount);
    }
  }

  lemma TransferVerdict(l: Ledger, isTransferFrom: bool, caller: Address, from: Address, to: Address, denom: string,
                        amount: int)
    requires LedgerOk(l)
    ensures EndsIn(Transfer(l, isTransferFrom, caller, from, to, denom, amount),
                   TransferError(l, caller, from, to, denom, amount))
  {
    hide LedgerOk, AmountOf, FindAmount, Admits, Dispatch, BankSend, BankError;
    if 0 < amount <= MAX_UINT256 {
      BankVerdict(l, from, to, denom, amount);
      var grant := GetAuthorization(l, from, caller);
      if grant.Some? && grant.value.auth.Send? {
        DispatchVerdict(l, from, caller, to, denom, amount);
      }
    }
  }

  /** The error of each call, over all inputs, in terms of allowances, grants and bank rules. */
  ghost function CallError(l: Ledger, op: Op, duration: int): (e: Option<Error>) {
    match op
    case ApproveOp(_, caller, spender, denom, amount) => ApproveError(l, caller, spender, denom, amount, duration)
    case IncreaseOp(_, caller, spender, denom, amount) => IncreaseError(l, caller, spender, denom, amount, duration)
    case DecreaseOp(_, caller, spender, denom, amount) => DecreaseError(l, caller, spender, denom, amount)
    case TransferOp(caller, to, denom, amount) => TransferError(l, caller, caller, to, denom, amount)
    case TransferFromOp(caller, from, to, denom, amount) => TransferError(l, caller, from, to, denom, amount)
    case Tick(_) => None
  }

  /** Every call ends as predicted: in success or in that very error. */
  lemma CallVerdict(l: Ledger, op: Op, duration: int)
    requires LedgerOk(l)
    ensures EndsIn(Call(l, op, duration), CallError(l, op, duration))
  {
    hide LedgerOk, Approve, IncreaseAllowance, DecreaseAllowance, Transfer, ApproveError, IncreaseError,
         DecreaseError, TransferError;
    match op
    case ApproveOp(token, caller, spender, denom, amount) =>
      ApproveVerdict(l, token, caller, spender, denom, amount, duration);
    case IncreaseOp(token, caller, spender, denom, amount) =>
      IncreaseVerdict(l, token, caller, spender, denom, amount, duration);
    case DecreaseOp(token, caller, spender, denom, amount) => DecreaseVerdict(l, token, caller, spender, denom, amount);
    case TransferOp(caller, to, denom, amount) => TransferVerdict(l, false, caller, caller, to, denom, amount);
    case TransferFromOp(caller, from, to, denom, amount) => TransferVerdict(l, true, caller, from, to, denom, amount);
    case Tick(_) =>
  }

  // ------------------------------------------------------------------
  // What a failed call leaves behind before it is rolled back
  // ------------------------------------------------------------------

  /** The allowance was accepted, so that only the bank can refuse. */
  ghost predicate Accepted(l: Ledger, caller: Address, from: Address, to: Address, denom: string, amount: int) {
    && caller != from && 0 < amount <= MAX_UINT256
    && amount <= Allowance(l, from, caller, denom) && Admits(l, from, caller, to, denom, amount)
  }

  /** A transfer on behalf of another that fails in the bank has already taken its amount off the
      allowance; any other failed transfer has changed nothing. */
  lemma FailedTransferLeaves(l: Ledger, isTransferFrom: bool, caller: Address, from: Address, to: Address,
                             denom: string, amount: int)
    requires LedgerOk(l) && Transfer(l, isTransferFrom, caller, from, to, denom, amount).Err?
    ensures var l' := Transfer(l, isTransferFrom, caller, from, to, denom, amount).ledger;
            if Accepted(l, caller, from, to, denom, amount)
            then l'.balances == l.balances
                 && SetsOnly(l, l', from, caller, denom, Allowance(l, from, caller, denom) - amount)
            else l' == l
  {
    hide AmountOf, OnlyAllowance, SubCoin, FindAmount, SetsOnly;
    var grant := GetAuthorization(l, from, caller);
    if caller != from && 0 < amount <= MAX_UINT256 && grant.Some? && grant.value.auth.Send? {
      var coins := grant.value.auth.spendLimit;
      var left := SubCoin(coins, Coin(denom, amount));
      SubCoinLeaves(coins, denom, amount);
      if amount <= AmountOf(coins, denom) {
        UsedUp(l, from, caller, denom, amount, left);
        var g := l.grants[(from, caller)];
        var mid := l.(grants := if left == [] then l.grants - {(from, caller)}
                                else l.grants[(from, caller) := g.(auth := g.auth.(spendLimit := left))]);
        SpendSets(l, from, caller, denom, Allowance(l, from, caller, denom) - amount, left, mid);
      }
    }
  }

  // ------------------------------------------------------------------
  // How long an allowance lives
  // ------------------------------------------------------------------

  /** Expiration and allow list are those of before. */
  predicate SameTerms(g: Grant, g': Grant) {
    && g'.expiration == g.expiration && (g.auth.Send? <==> g'.auth.Send?)
    && (g.auth.Send? ==> g'.auth.allowList == g.auth.allowList)
  }

  /** A grant made now: any recipient, until the duration has passed. */
  predicate FreshTerms(g: Grant, now: int, duration: int) {
    g.expiration == Some(now + duration) && g.auth.Send? && g.auth.allowList == {}
  }

  /** The grants of every other pair are left alone, live or not. */
  lemma OtherGrantsKept(l: Ledger, op: Op, duration: int, owner: Address, spender: Address)
    requires !op.Tick? && Call(l, op, duration).Ok? && (owner, spender) != (Owner(op), Spender(op))
    ensures var grants := Call(l, op, duration).ledger.grants;
            && ((owner, spender) in grants <==> (owner, spender) in l.grants)
            && ((owner, spender) in grants ==> grants[(owner, spender)] == l.grants[(owner, spender)])
  {
    hide AmountOf, FindAmount, Find, UpdateOrAdd, SubCoin, SafeAdd;
  }

  /** After a call every grant has the terms it had, except one that approve or increaseAllowance
      made where no live one was. */
  lemma TermsKept(l: Ledger, op: Op, duration: int, owner: Address, spender: Address)
    requires !op.Tick? && Call(l, op, duration).Ok?
    ensures var grants := Call(l, op, duration).ledger.grants;
            (owner, spender) in grants ==>
              if (op.ApproveOp? || op.IncreaseOp?) && (owner, spender) == (Owner(op), Spender(op))
                 && GetAuthorization(l, owner, spender).None? && op.amount > 0
              then FreshTerms(grants[(owner, spender)], l.now, duration)
              else (owner, spender) in l.grants && SameTerms(l.grants[(owner, spender)], grants[(owner, spender)])
  {
    hide AmountOf, FindAmount, Find, UpdateOrAdd, SubCoin, SafeAdd;
  }

  /** An allowance newly made is worth its amount for the duration, to the last moment, and
      nothing afterwards. */
  lemma NewAllowanceLives(l: Ledger, op: Op, duration: int, elapsed: nat, d: string)
    requires LedgerOk(l) && (op.ApproveOp? || op.IncreaseOp?) && op.amount > 0 && Call(l, op, duration).Ok?
    requires GetAuthorization(l, Owner(op), Spender(op)).None?
    ensures var later := Commit(Call(l, op, duration).ledger, Tick(elapsed), duration);
            Allowance(later, Owner(op), Spender(op), d) == if d == op.denom && elapsed <= duration then op.amount else 0
  {
    hide AmountOf, Approve, IncreaseAllowance;
    var l' := Call(l, op, duration).ledger;
    CallRefines(l, op, duration);
    TermsKept(l, op, duration, Owner(op), Spender(op));
    TickKeepsNow(l, op, duration);
    var o, s := Owner(op), Spender(op);
    assert Allowance(l', o, s, op.denom) == op.amount;
    assert Allowance(l', o, s, d) == if d == op.denom then op.amount else 0;
    var later := l'.(now := l'.now + elapsed);
    assert Allowance(later, o, s, d) == if elapsed <= duration then Allowance(l', o, s, d) else 0;
  }

  lemma TickKeepsNow(l: Ledger, op: Op, duration: int)
    requires !op.Tick? && Call(l, op, duration).Ok?
    ensures Call(l, op, duration).ledger.now == l.now
  {
    hide AmountOf, FindAmount, Find, UpdateOrAdd, SubCoin, SafeAdd;
  }
}
