/** The ERC-20 precompile as code that reads, edits and saves grants and balances in place
    (precompiles/erc20/approve.go, tx.go, types.go, query.go). */
module Erc20Precompile {
  import opened Wrappers
  import opened Coins
  import opened EvmTypes
  import opened Erc20Ledger

  method UpdateOrAddCoin(coins: seq<Coin>, coin: Coin) returns (r: seq<Coin>)
    ensures r == UpdateOrAdd(coins, coin, 0)
  {
    r := coins;
    for idx := 0 to |coins|
      invariant r == coins
      invariant UpdateOrAdd(coins, coin, 0) == UpdateOrAdd(coins, coin, idx)
    {
      if coins[idx].denom == coin.denom {
        r := r[idx := coin];
        return;
      }
    }
    r := AddCoin(r, coin);
  }

  class Precompile {
    const address: Address
    const denom: string
    const approvalExpiration: int
    const rules: BankRules
    var grants: map<(Address, Address), Grant>
    var balances: map<(Address, string), nat>
    var now: int

    constructor (address: Address, denom: string, approvalExpiration: int, l: Ledger)
      ensures this.address == address && this.denom == denom && this.approvalExpiration == approvalExpiration
      ensures View() == l
    {
      this.address, this.denom, this.approvalExpiration := address, denom, approvalExpiration;
      rules, grants, balances, now := l.rules, l.grants, l.balances, l.now;
    }

    function View(): (l: Ledger)
      reads this
    {
      Ledger(grants, balances, now, rules)
    }

    /** The state and the error are those of the specified outcome. */
    predicate Shows(o: Outcome, err: Option<Error>)
      reads this
    {
      View() == o.ledger && err == if o.Ok? then None else Some(o.error)
    }

    method SaveGrantFor(owner: Address, spender: Address, g: Grant) returns (err: Option<Error>)
      modifies this`grants
      ensures Shows(SaveGrant(old(View()), owner, spender, g), err)
    {
      if g.expiration.Some? && g.expiration.value <= now {
        return Some(InvalidExpiration);
      }
      grants := grants[(owner, spender) := g];
      return None;
    }

    method DeleteGrantFor(owner: Address, spender: Address)
      modifies this`grants
      ensures Shows(DeleteGrant(old(View()), owner, spender), None)
    {
      grants := grants - {(owner, spender)};
    }

    method SendCoins(from: Address, to: Address, amount: nat) returns (err: Option<Error>)
      modifies this`balances
      ensures Shows(BankSend(old(View()), from, to, denom, amount), err)
    {
      if denom in rules.disabled {
        return Some(SendDisabled);
      }
      if to in rules.blocked {
        return Some(Error.Unauthorized);
      }
      if Balance(View(), from, denom) - Locked(View(), from, denom) < amount {
        return Some(InsufficientFunds);
      }
      balances := balances[(from, denom) := Balance(View(), from, denom) - amount];
      balances := balances[(to, denom) := Balance(View(), to, denom) + amount];
      return None;
    }

    method Create(owner: Address, spender: Address, amount: int) returns (err: Option<Error>)
      modifies this`grants
      ensures Shows(CreateAuthorization(old(View()), owner, spender, denom, amount, approvalExpiration), err)
    {
      if Overflows(amount) {
        return Some(IntegerOverflow);
      }
      var coins := [Coin(denom, amount)];
      var authorization := Send(coins, {});
      if !Spendable(coins) {
        return Some(InvalidCoins);
      }
      err := SaveGrantFor(owner, spender, Grant(authorization, Some(now + approvalExpiration)));
    }

    method Update(owner: Address, spender: Address, amount: int, g: Grant) returns (err: Option<Error>)
      requires g.auth.Send?
      modifies this`grants
      ensures Shows(UpdateAuthorization(old(View()), owner, spender, denom, amount, g), err)
    {
      hide UpdateOrAdd, SaveGrant;
      if Overflows(amount) {
        return Some(IntegerOverflow);
      }
      var spendLimit := UpdateOrAddCoin(g.auth.spendLimit, Coin(denom, amount));
      if !Spendable(spendLimit) {
        return Some(InvalidCoins);
      }
      err := SaveGrantFor(owner, spender, g.(auth := g.auth.(spendLimit := spendLimit)));
    }

    method RemoveSpendLimitOrDelete(owner: Address, spender: Address, g: Grant) returns (err: Option<Error>)
      modifies this`grants
      ensures Shows(RemoveSpendLimit(old(View()), owner, spender, denom, g), err)
    {
      hide SubCoin, Find, SaveGrant;
      if !g.auth.Send? {
        return Some(UnknownAuthorizationType);
      }
      var found := Find(g.auth.spendLimit, denom);
      if found.None? {
        return Some(NoAllowanceForToken);
      }
      var newSpendLimit := SubCoin(g.auth.spendLimit, found.value);
      if AnyNegative(newSpendLimit) {
        return Some(DecreasedAllowanceBelowZero);
      }
      if newSpendLimit == [] {
        DeleteGrantFor(owner, spender);
        return None;
      }
      err := SaveGrantFor(owner, spender, g.(auth := g.auth.(spendLimit := newSpendLimit)));
    }

    method ApproveCall(caller: Address, spender: Address, amount: int)
      returns (err: Option<Error>, approval: Option<Approval>)
      modifies this`grants
      ensures var o := Approve(old(View()), address, caller, spender, denom, amount, approvalExpiration);
              Shows(o, err) && approval == if o.Ok? then o.approval else None
    {
      hide CreateAuthorization, UpdateAuthorization, RemoveSpendLimit;
      approval := None;
      if spender == caller {
        return Some(SpenderIsOwner), None;
      }
      var authorization := GetAuthorization(View(), caller, spender);
      err := None;
      if authorization.None? && amount < 0 {
        err := Some(NegativeAmount);
      } else if authorization.None? && amount > 0 {
        err := Create(caller, spender, amount);
      } else if authorization.Some? && amount <= 0 {
        err := RemoveSpendLimitOrDelete(caller, spender, authorization.value);
      } else if authorization.Some? && amount > 0 {
        if !authorization.value.auth.Send? {
          return Some(UnknownAuthorizationType), None;
        }
        err := Update(caller, spender, amount, authorization.value);
      }
      if err.None? {
        approval := Some(Approval(address, spender, amount));
      }
    }

    method IncreaseAllowanceCall(caller: Address, spender: Address, added: int)
      returns (err: Option<Error>, approval: Option<Approval>)
      modifies this`grants
      ensures var o := IncreaseAllowance(old(View()), address, caller, spender, denom, added, approvalExpiration);
              Shows(o, err) && approval == if o.Ok? then o.approval else None
    {
      hide CreateAuthorization, UpdateAuthorization, FindAmount, SafeAdd;
      approval := None;
      if spender == caller {
        return Some(SpenderIsOwner), None;
      }
      var authorization := GetAuthorization(View(), caller, spender);
      var amount;
      if added <= 0 {
        return Some(NonPositiveValue), None;
      } else if authorization.None? {
        amount := added;
        err := Create(caller, spender, added);
      } else {
        var g := authorization.value;
        if !g.auth.Send? {
          return Some(UnknownAuthorizationType), None;
        }
        var allowance := FindAmount(g.auth.spendLimit, denom);
        var (sum, overflow) := SafeAdd(allowance, added);
        if Overflows(added) || overflow {
          return Some(IntegerOverflow), None;
        }
        amount := sum;
        err := Update(caller, spender, amount, g);
      }
      if err.None? {
        approval := Some(Approval(address, spender, amount));
      }
    }

    method DecreaseAllowanceCall(caller: Address, spender: Address, subtracted: int)
      returns (err: Option<Error>, approval: Option<Approval>)
      modifies this`grants
      ensures var o := DecreaseAllowance(old(View()), address, caller, spender, denom, subtracted);
              Shows(o, err) && approval == if o.Ok? then o.approval else None
    {
      hide UpdateAuthorization, RemoveSpendLimit, FindAmount;
      approval := None;
      if spender == caller {
        return Some(SpenderIsOwner), None;
      }
      var authorization := GetAuthorization(View(), caller, spender);
      if subtracted <= 0 {
        return Some(NonPositiveValue), None;
      }
      if authorization.None? || !authorization.value.auth.Send? {
        return Some(NoAllowanceForToken), None;
      }
      var g := authorization.value;
      var allowance := FindAmount(g.auth.spendLimit, denom);
      var amount;
      if subtracted < allowance {
        amount := allowance - subtracted;
        err := Update(caller, spender, amount, g);
      } else if subtracted == allowance {
        err := RemoveSpendLimitOrDelete(caller, spender, g);
        amount := 0;
      } else if allowance == 0 {
        return Some(NoAllowanceForToken), None;
      } else {
        return Some(DecreasedAllowanceBelowZero), None;
      }
      if err.None? {
        approval := Some(Approval(address, spender, amount));
      }
    }

    method DispatchActions(owner: Address, spender: Address, to: Address, amount: nat, g: Grant)
      returns (err: Option<Error>)
      requires GetAuthorization(View(), owner, spender) == Some(g) && g.auth.Send?
      modifies this`grants, this`balances
      ensures Shows(Dispatch(old(View()), owner, spender, to, denom, amount), err)
    {
      hide SubCoin, BankSend;
      var limitLeft := SubCoin(g.auth.spendLimit, Coin(denom, amount));
      if AnyNegative(limitLeft) {
        return Some(InsufficientAllowance);
      }
      if limitLeft == [] {
        DeleteGrantFor(owner, spender);
      } else {
        if g.auth.allowList != {} && to !in g.auth.allowList {
          return Some(Error.Unauthorized);
        }
        grants := grants[(owner, spender) := g.(auth := g.auth.(spendLimit := limitLeft))];
      }
      err := SendCoins(owner, to, amount);
    }

    method TransferCall(isTransferFrom: bool, caller: Address, from: Address, to: Address, amount: int)
      returns (err: Option<Error>, approval: Option<Approval>)
      modifies this`grants, this`balances
      ensures var o := Transfer(old(View()), isTransferFrom, caller, from, to, denom, amount);
              Shows(o, err) && approval == if o.Ok? then o.approval else None
    {
      hide Dispatch, BankSend, FindAmount;
      approval := None;
      if Overflows(amount) {
        return Some(IntegerOverflow), None;
      }
      if amount <= 0 {
        return Some(InvalidCoins), None;
      }
      var prevAllowance := 0;
      if caller == from {
        err := SendCoins(from, to, amount);
      } else {
        var authorization := GetAuthorization(View(), from, caller);
        if authorization.None? || !authorization.value.auth.Send? {
          return Some(InsufficientAllowance), None;
        }
        prevAllowance := FindAmount(authorization.value.auth.spendLimit, denom);
        err := DispatchActions(from, caller, to, amount, authorization.value);
      }
      if err.None? && isTransferFrom {
        approval := Some(Approval(from, caller, if caller == from then MAX_UINT256 else prevAllowance - amount));
      }
    }

    /** The query answers the stored allowance, and the maximum for an owner asking for itself. */
    method AllowanceQuery(owner: Address, spender: Address) returns (allowance: int)
      requires LedgerOk(View())
      ensures allowance == if owner == spender then MAX_UINT256 else Allowance(View(), owner, spender, denom)
    {
      if owner == spender {
        return MAX_UINT256;
      }
      var authorization := GetAuthorization(View(), owner, spender);
      if authorization.None? || !authorization.value.auth.Send? {
        return 0;
      }
      FindAmountExact(authorization.value.auth.spendLimit, denom);
      return FindAmount(authorization.value.auth.spendLimit, denom);
    }
  }
}
