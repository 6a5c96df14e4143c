/** ERC-20 calls served by bank balances and authz grants (precompiles/erc20): one grant per
    owner and spender holds the allowances of every denomination, and expires. */
module Erc20Ledger {
  import opened Order
  import opened Wrappers
  import opened Coins
  import opened EvmTypes

  datatype Authorization =
    | Send(spendLimit: seq<Coin>, allowList: set<Address>)
    | OtherAuthorization

  datatype Grant = Grant(auth: Authorization, expiration: Option<int>)

  /** What the SDK does not let this code decide: tokens that may not be sent, accounts that may
      not receive, and balances locked by vesting. */
  datatype BankRules = BankRules(disabled: set<string>, blocked: set<Address>, locked: map<(Address, string), nat>)

  /** The state the calls work on; grants are keyed by (granter, grantee). */
  datatype Ledger = Ledger(
    grants: map<(Address, Address), Grant>,
    balances: map<(Address, string), nat>,
    now: int,
    rules: BankRules)

  datatype Error =
    | SpenderIsOwner
    | NegativeAmount
    | NonPositiveValue
    | IntegerOverflow
    | InvalidCoins
    | UnknownAuthorizationType
    | NoAllowanceForToken
    | DecreasedAllowanceBelowZero
    | InsufficientAllowance
    | InvalidExpiration
    | Unauthorized
    | SendDisabled
    | InsufficientFunds

  /** The Approval event. */
  datatype Approval = Approval(owner: Address, spender: Address, value: int)

  /** The ledger a call leaves behind; a failed call's ledger is discarded with its transaction. */
  datatype Outcome = Ok(ledger: Ledger, approval: Option<Approval>) | Err(ledger: Ledger, error: Error)

  // ------------------------------------------------------------------
  // The authz and bank keepers
  // ------------------------------------------------------------------

  predicate Expired(g: Grant, now: int) {
    g.expiration.Some? && g.expiration.value < now
  }

  function GetAuthorization(l: Ledger, owner: Address, spender: Address): (r: Option<Grant>) {
    if (owner, spender) !in l.grants || Expired(l.grants[(owner, spender)], l.now) then None
    else Some(l.grants[(owner, spender)])
  }

  /** SaveGrant refuses an expiration that is not after the block time. */
  function SaveGrant(l: Ledger, owner: Address, spender: Address, g: Grant): (r: Outcome) {
    if g.expiration.Some? && g.expiration.value <= l.now then Err(l, InvalidExpiration)
    else Ok(l.(grants := l.grants[(owner, spender) := g]), None)
  }

  function DeleteGrant(l: Ledger, owner: Address, spender: Address): (r: Outcome) {
    Ok(l.(grants := l.grants - {(owner, spender)}), None)
  }

  function Balance(l: Ledger, a: Address, denom: string): (b: nat) {
    if (a, denom) in l.balances then l.balances[(a, denom)] else 0
  }

  function Locked(l: Ledger, a: Address, denom: string): (b: nat) {
    if (a, denom) in l.rules.locked then l.rules.locked[(a, denom)] else 0
  }

  /** MsgServer.Send for one coin. */
  function BankSend(l: Ledger, from: Address, to: Address, denom: string, amount: nat): (r: Outcome)
    ensures r.Ok? ==> r.approval == None && r.ledger.grants == l.grants && r.ledger.now == l.now
    ensures r.Err? ==> r.ledger == l
  {
    if denom in l.rules.disabled then Err(l, SendDisabled)
    else if to in l.rules.blocked then Err(l, Unauthorized)
    else if Balance(l, from, denom) - Locked(l, from, denom) < amount then Err(l, InsufficientFunds)
    else
      var l1 := l.(balances := l.balances[(from, denom) := Balance(l, from, denom) - amount]);
      Ok(l1.(balances := l1.balances[(to, denom) := Balance(l1, to, denom) + amount]), None)
  }

  /** Keeper.DispatchActions for a MsgSend: accept, store what is left of the grant, send. */
  function Dispatch(l: Ledger, owner: Address, spender: Address, to: Address, denom: string, amount: nat): (r: Outcome)
    requires GetAuthorization(l, owner, spender).Some? && GetAuthorization(l, owner, spender).value.auth.Send?
    ensures r.Ok? ==> r.approval == None
    ensures r.Err? ==> r.ledger.balances == l.balances
  {
    var g := l.grants[(owner, spender)];
    var left := SubCoin(g.auth.spendLimit, Coin(denom, amount));
    if AnyNegative(left) then Err(l, InsufficientAllowance)
    else if left == [] then BankSend(l.(grants := l.grants - {(owner, spender)}), owner, to, denom, amount)
    else if g.auth.allowList != {} && to !in g.auth.allowList then Err(l, Unauthorized)
    else
      var g' := g.(auth := g.auth.(spendLimit := left));
      BankSend(l.(grants := l.grants[(owner, spender) := g']), owner, to, denom, amount)
  }

  // ------------------------------------------------------------------
  // The precompile calls
  // ------------------------------------------------------------------

  function UpdateOrAdd(coins: seq<Coin>, coin: Coin, i: nat): (r: seq<Coin>)
    requires i <= |coins|
    decreases |coins| - i
  {
    if i == |coins| then AddCoin(coins, coin)
    else if coins[i].denom == coin.denom then coins[i := coin]
    else UpdateOrAdd(coins, coin, i + 1)
  }

  /** SendAuthorization.ValidateBasic on the spend limit. */
  predicate Spendable(coins: seq<Coin>) {
    coins != [] && AllPositive(coins)
  }

  function CreateAuthorization(l: Ledger, owner: Address, spender: Address, denom: string, amount: int,
                               duration: int): (r: Outcome)
  {
    if Overflows(amount) then Err(l, IntegerOverflow)
    else
      var coins := [Coin(denom, amount)];
      if !Spendable(coins) then Err(l, InvalidCoins)
      else SaveGrant(l, owner, spender, Grant(Send(coins, {}), Some(l.now + duration)))
  }

  function UpdateAuthorization(l: Ledger, owner: Address, spender: Address, denom: string, amount: int,
                               g: Grant): (r: Outcome)
    requires g.auth.Send?
  {
    if Overflows(amount) then Err(l, IntegerOverflow)
    else
      var coins := UpdateOrAdd(g.auth.spendLimit, Coin(denom, amount), 0);
      if !Spendable(coins) then Err(l, InvalidCoins)
      else SaveGrant(l, owner, spender, g.(auth := g.auth.(spendLimit := coins)))
  }

  function RemoveSpendLimit(l: Ledger, owner: Address, spender: Address, denom: string, g: Grant): (r: Outcome) {
    if !g.auth.Send? then Err(l, UnknownAuthorizationType)
    else
      match Find(g.auth.spendLimit, denom)
      case None => Err(l, NoAllowanceForToken)
      case Some(coin) =>
        var left := SubCoin(g.auth.spendLimit, coin);
        if AnyNegative(left) then Err(l, DecreasedAllowanceBelowZero)
        else if left == [] then DeleteGrant(l, owner, spender)
        else SaveGrant(l, owner, spender, g.(auth := g.auth.(spendLimit := left)))
  }

  /** The Approval event follows a successful update. */
  function Emit(r: Outcome, owner: Address, spender: Address, value: int): (r': Outcome) {
    if r.Ok? then r.(approval := Some(Approval(owner, spender, value))) else r
  }

  /** `token` is the address of the precompile; approve, increase and decrease name it, and not
      the caller, as the owner in their events. */
  function Approve(l: Ledger, token: Address, caller: Address, spender: Address, denom: string, amount: int,
                   duration: int): (r: Outcome)
  {
    if spender == caller then Err(l, SpenderIsOwner)
    else
      match GetAuthorization(l, caller, spender)
      case None =>
        if amount < 0 then Err(l, NegativeAmount)
        else if amount > 0 then
          Emit(CreateAuthorization(l, caller, spender, denom, amount, duration), token, spender, amount)
        else Emit(Ok(l, None), token, spender, amount)
      case Some(g) =>
        if amount <= 0 then Emit(RemoveSpendLimit(l, caller, spender, denom, g), token, spender, amount)
        else if !g.auth.Send? then Err(l, UnknownAuthorizationType)
        else Emit(UpdateAuthorization(l, caller, spender, denom, amount, g), token, spender, amount)
  }

  function IncreaseAllowance(l: Ledger, token: Address, caller: Address, spender: Address, denom: string, added: int,
                             duration: int): (r: Outcome)
  {
    if spender == caller then Err(l, SpenderIsOwner)
    else if added <= 0 then Err(l, NonPositiveValue)
    else
      match GetAuthorization(l, caller, spender)
      case None => Emit(CreateAuthorization(l, caller, spender, denom, added, duration), token, spender, added)
      case Some(g) =>
        if !g.auth.Send? then Err(l, UnknownAuthorizationType)
        else
          var (amount, overflow) := SafeAdd(FindAmount(g.auth.spendLimit, denom), added);
          if Overflows(added) || overflow then Err(l, IntegerOverflow)
          else Emit(UpdateAuthorization(l, caller, spender, denom, amount, g), token, spender, amount)
  }

  function DecreaseAllowance(l: Ledger, token: Address, caller: Address, spender: Address, denom: string,
                             subtracted: int): (r: Outcome)
  {
    if spender == caller then Err(l, SpenderIsOwner)
    else if subtracted <= 0 then Err(l, NonPositiveValue)
    else
      match GetAuthorization(l, caller, spender)
      case None => Err(l, NoAllowanceForToken)
      case Some(g) =>
        if !g.auth.Send? then Err(l, NoAllowanceForToken)
        else
          var allowance := FindAmount(g.auth.spendLimit, denom);
          if subtracted < allowance then
            var left := allowance - subtracted;
            Emit(UpdateAuthorization(l, caller, spender, denom, left, g), token, spender, left)
          else if subtracted == allowance then Emit(RemoveSpendLimit(l, caller, spender, denom, g), token, spender, 0)
          else if allowance == 0 then Err(l, NoAllowanceForToken)
          else Err(l, DecreasedAllowanceBelowZero)
  }

  /** transfer (`isTransferFrom` false, from the caller) and transferFrom. */
  function Transfer(l: Ledger, isTransferFrom: bool, caller: Address, from: Address, to: Address, denom: string,
                    amount: int): (r: Outcome)
  {
    if Overflows(amount) then Err(l, IntegerOverflow)
    else if amount <= 0 then Err(l, InvalidCoins)
    else if caller == from then
      var sent := BankSend(l, from, to, denom, amount);
      if isTransferFrom then Emit(sent, from, caller, MAX_UINT256) else sent
    else
      match GetAuthorization(l, from, caller)
      case None => Err(l, InsufficientAllowance)
      case Some(g) =>
        if !g.auth.Send? then Err(l, InsufficientAllowance)
        else
          var sent := Dispatch(l, from, caller, to, denom, amount);
          var left := FindAmount(g.auth.spendLimit, denom) - amount;
          if isTransferFrom then Emit(sent, from, caller, left) else sent
  }

  // ------------------------------------------------------------------
  // The abstract allowance
  // ------------------------------------------------------------------

  /** What the spender may still take from the owner. */
  function Allowance(l: Ledger, owner: Address, spender: Address, denom: string): (a: int) {
    match GetAuthorization(l, owner, spender)
    case None => 0
    case Some(g) => if g.auth.Send? then AmountOf(g.auth.spendLimit, denom) else 0
  }

  /** Spend limits are never empty, strictly sorted, positive and below 2^256. */
  ghost predicate GrantOk(g: Grant) {
    g.auth.Send? ==>
      && g.auth.spendLimit != [] && ValidCoins(g.auth.spendLimit)
      && forall i :: 0 <= i < |g.auth.spendLimit| ==> g.auth.spendLimit[i].amount <= MAX_UINT256
  }

  ghost predicate LedgerOk(l: Ledger) {
    forall k :: k in l.grants ==> GrantOk(l.grants[k])
  }

  /** A live spending grant exists exactly when some allowance is positive, and allowances are uint256. */
  lemma LiveGrantMeansAllowance(l: Ledger, owner: Address, spender: Address)
    requires LedgerOk(l)
    ensures forall d :: 0 <= Allowance(l, owner, spender, d) <= MAX_UINT256
    ensures var g := GetAuthorization(l, owner, spender);
            (g.Some? && g.value.auth.Send?) <==> exists d :: Allowance(l, owner, spender, d) > 0
  {
    var g := GetAuthorization(l, owner, spender);
    if g.Some? && g.value.auth.Send? {
      var coins := g.value.auth.spendLimit;
      forall d ensures 0 <= AmountOf(coins, d) <= MAX_UINT256 {
        AmountSign(coins, d);
        if i :| 0 <= i < |coins| && coins[i].denom == d {
          AmountAt(coins, i);
        }
      }
      AmountAt(coins, 0);
      assert Allowance(l, owner, spender, coins[0].denom) > 0;
    }
  }

  /** The effect of a call on the allowance map: one entry set, all others kept. */
  ghost predicate SetsOnly(l: Ledger, l': Ledger, owner: Address, spender: Address, denom: string, value: int) {
    forall o: Address, s: Address, d: string ::
      Allowance(l', o, s, d) == if o == owner && s == spender && d == denom then value else Allowance(l, o, s, d)
  }

  lemma {:induction false} UpdateOrAddCases(coins: seq<Coin>, coin: Coin, i: nat)
    requires i <= |coins| && forall j :: 0 <= j < i ==> coins[j].denom != coin.denom
    ensures if Has(coins, coin.denom)
            then exists k :: 0 <= k < |coins| && coins[k].denom == coin.denom
                             && UpdateOrAdd(coins, coin, i) == coins[k := coin]
            else UpdateOrAdd(coins, coin, i) == AddCoin(coins, coin)
    decreases |coins| - i
  {
    if i == |coins| {
    } else {
      if coins[i].denom == coin.denom {
        assert UpdateOrAdd(coins, coin, i) == coins[i := coin];
      } else {
        UpdateOrAddCases(coins, coin, i + 1);
      }
    }
  }

  lemma {:induction false} ReplaceAmounts(coins: seq<Coin>, k: nat, coin: Coin, d: string)
    requires Sorted(coins) && k < |coins| && coins[k].denom == coin.denom
    ensures AmountOf(coins[k := coin], d) == if d == coin.denom then coin.amount else AmountOf(coins, d)
  {
    if k > 0 {
      StringAsymmetric(coins[0].denom, coins[k].denom);
      ReplaceAmounts(coins[1..], k - 1, coin, d);
      assert coins[k := coin][1..] == coins[1..][k - 1 := coin];
    } else {
      assert coins[k := coin][1..] == coins[1..];
    }
  }

  /** updateOrAddCoin sets one amount and keeps the list valid. */
  lemma UpdateOrAddSets(coins: seq<Coin>, coin: Coin)
    requires ValidCoins(coins) && coin.amount > 0
    ensures var r := UpdateOrAdd(coins, coin, 0);
            && r != [] && ValidCoins(r)
            && (forall d :: AmountOf(r, d) == if d == coin.denom then coin.amount else AmountOf(coins, d))
            && (forall i :: 0 <= i < |r| ==> r[i] == coin || r[i] in coins)
  {
    hide AddCoin;
    var r := UpdateOrAdd(coins, coin, 0);
    UpdateOrAddCases(coins, coin, 0);
    if Has(coins, coin.denom) {
      var k :| 0 <= k < |coins| && coins[k].denom == coin.denom && r == coins[k := coin];
      forall d ensures AmountOf(r, d) == if d == coin.denom then coin.amount else AmountOf(coins, d) {
        ReplaceAmounts(coins, k, coin, d);
      }
    } else {
      AmountAbsent(coins, coin.denom);
      AddCoinValid(coins, coin);
      forall d ensures AmountOf(r, d) == if d == coin.denom then coin.amount else AmountOf(coins, d) {
        AddCoinAmounts(coins, coin, d);
      }
      AddedMembers(coins, coin);
      NonEmptyByAmount(r, coin.denom);
    }
  }

  lemma NonEmptyByAmount(coins: seq<Coin>, d: string)
    requires AmountOf(coins, d) != 0
    ensures coins != []
  {
  }

  lemma {:induction false} AddedMembers(coins: seq<Coin>, coin: Coin)
    requires !Has(coins, coin.denom)
    ensures forall i :: 0 <= i < |AddCoin(coins, coin)| ==>
              AddCoin(coins, coin)[i] == coin || AddCoin(coins, coin)[i] in coins
  {
    if coins == [] {
    } else {
      assert coins[0].denom != coin.denom;
      if !StringLess(coin.denom, coins[0].denom) {
        assert !Has(coins[1..], coin.denom);
        AddedMembers(coins[1..], coin);
      }
    }
  }

  // ------------------------------------------------------------------
  // Refinement: what each successful call does to the allowance map
  // ------------------------------------------------------------------

  /** Storing a live spending grant changes the allowances of its own pair to its amounts. */
  lemma SaveGrantSets(l: Ledger, owner: Address, spender: Address, g: Grant, denom: string, value: int)
    requires LedgerOk(l) && GrantOk(g) && g.auth.Send?
    requires forall d :: AmountOf(g.auth.spendLimit, d) == if d == denom then value else Allowance(l, owner, spender, d)
    requires SaveGrant(l, owner, spender, g).Ok?
    ensures LedgerOk(SaveGrant(l, owner, spender, g).ledger)
    ensures SetsOnly(l, SaveGrant(l, owner, spender, g).ledger, owner, spender, denom, value)
  {
    hide GrantOk;
  }

  lemma DeleteGrantSets(l: Ledger, owner: Address, spender: Address, denom: string)
    requires LedgerOk(l) && forall d :: d != denom ==> Allowance(l, owner, spender, d) == 0
    ensures LedgerOk(DeleteGrant(l, owner, spender).ledger)
    ensures SetsOnly(l, DeleteGrant(l, owner, spender).ledger, owner, spender, denom, 0)
  {
    hide GrantOk, AmountOf;
  }

  lemma CreateSets(l: Ledger, owner: Address, spender: Address, denom: string, amount: int, duration: int)
    requires LedgerOk(l) && GetAuthorization(l, owner, spender).None?
    requires CreateAuthorization(l, owner, spender, denom, amount, duration).Ok?
    ensures var l' := CreateAuthorization(l, owner, spender, denom, amount, duration).ledger;
            LedgerOk(l') && SetsOnly(l, l', owner, spender, denom, amount)
  {
    hide LedgerOk, SetsOnly, SaveGrant, GetAuthorization;
    var coins := [Coin(denom, amount)];
    assert forall d :: AmountOf(coins, d) == if d == denom then amount else 0 by {
      assert coins[1..] == [];
    }
    SaveGrantSets(l, owner, spender, Grant(Send(coins, {}), Some(l.now + duration)), denom, amount);
  }

  lemma UpdateSets(l: Ledger, owner: Address, spender: Address, denom: string, amount: int, g: Grant)
    requires LedgerOk(l) && GetAuthorization(l, owner, spender) == Some(g) && g.auth.Send? && amount > 0
    requires UpdateAuthorization(l, owner, spender, denom, amount, g).Ok?
    ensures var l' := UpdateAuthorization(l, owner, spender, denom, amount, g).ledger;
            LedgerOk(l') && SetsOnly(l, l', owner, spender, denom, amount)
  {
    hide SetsOnly, SaveGrant, UpdateOrAdd;
    var coin := Coin(denom, amount);
    UpdateOrAddSets(g.auth.spendLimit, coin);
    var coins := UpdateOrAdd(g.auth.spendLimit, coin, 0);
    SaveGrantSets(l, owner, spender, g.(auth := g.auth.(spendLimit := coins)), denom, amount);
  }

  /** What is left of a spend limit after taking `amount` of `denom`. */
  lemma SubCoinLeaves(coins: seq<Coin>, denom: string, amount: nat)
    requires ValidCoins(coins) && forall i :: 0 <= i < |coins| ==> coins[i].amount <= MAX_UINT256
    ensures AnyNegative(SubCoin(coins, Coin(denom, amount))) <==> amount > AmountOf(coins, denom)
    ensures var left := SubCoin(coins, Coin(denom, amount));
            amount <= AmountOf(coins, denom) ==>
              && ValidCoins(left) && (forall i :: 0 <= i < |left| ==> left[i].amount <= MAX_UINT256)
              && (forall d :: AmountOf(left, d) == AmountOf(coins, d) - if d == denom then amount else 0)
  {
    hide AddCoin;
    var taken := Coin(denom, 0 - amount as int);
    var left := SubCoin(coins, Coin(denom, amount));
    AddCoinValid(coins, taken);
    if amount <= AmountOf(coins, denom) {
      forall d ensures AmountOf(left, d) == AmountOf(coins, d) - if d == denom then amount else 0 {
        AddCoinAmounts(coins, taken, d);
      }
      forall i | 0 <= i < |left| ensures left[i].amount <= MAX_UINT256 {
        AmountAt(left, i);
        AmountBound(coins, MAX_UINT256, left[i].denom);
      }
    }
  }

  lemma RemoveSets(l: Ledger, owner: Address, spender: Address, denom: string, g: Grant)
    requires LedgerOk(l) && GetAuthorization(l, owner, spender) == Some(g)
    requires RemoveSpendLimit(l, owner, spender, denom, g).Ok?
    ensures var l' := RemoveSpendLimit(l, owner, spender, denom, g).ledger;
            LedgerOk(l') && SetsOnly(l, l', owner, spender, denom, 0)
  {
    hide SetsOnly, SaveGrant, DeleteGrant, SubCoin, Find;
    var coins := g.auth.spendLimit;
    FindExact(coins, denom);
    AmountSign(coins, denom);
    var coin := Find(coins, denom).value;
    SubCoinLeaves(coins, denom, coin.amount);
    var left := SubCoin(coins, coin);
    if left == [] {
      forall d | d != denom ensures Allowance(l, owner, spender, d) == 0 {
        assert AmountOf(left, d) == 0;
      }
      DeleteGrantSets(l, owner, spender, denom);
    } else {
      SaveGrantSets(l, owner, spender, g.(auth := g.auth.(spendLimit := left)), denom, 0);
    }
  }

  /** A successful approve sets the one allowance to the amount, zero for a negative one. */
  lemma ApproveRefines(l: Ledger, token: Address, caller: Address, spender: Address, denom: string, amount: int,
                       duration: int)
    requires LedgerOk(l) && Approve(l, token, caller, spender, denom, amount, duration).Ok?
    ensures var r := Approve(l, token, caller, spender, denom, amount, duration);
            && LedgerOk(r.ledger) && r.approval == Some(Approval(token, spender, amount)) && caller != spender
            && SetsOnly(l, r.ledger, caller, spender, denom, if amount > 0 then amount else 0)
  {
    hide LedgerOk, CreateAuthorization, UpdateAuthorization, RemoveSpendLimit, GetAuthorization;
    match GetAuthorization(l, caller, spender)
    case None =>
      if amount > 0 {
        CreateSets(l, caller, spender, denom, amount, duration);
      }
    case Some(g) =>
      if amount <= 0 {
        RemoveSets(l, caller, spender, denom, g);
      } else {
        UpdateSets(l, caller, spender, denom, amount, g);
      }
  }

  lemma IncreaseRefines(l: Ledger, token: Address, caller: Address, spender: Address, denom: string, added: int,
                        duration: int)
    requires LedgerOk(l) && IncreaseAllowance(l, token, caller, spender, denom, added, duration).Ok?
    ensures var r := IncreaseAllowance(l, token, caller, spender, denom, added, duration);
            var value := Allowance(l, caller, spender, denom) + added;
            && LedgerOk(r.ledger) && r.approval == Some(Approval(token, spender, value))
            && caller != spender && added > 0
            && SetsOnly(l, r.ledger, caller, spender, denom, value)
  {
    hide CreateAuthorization, UpdateAuthorization, SetsOnly, SafeAdd;
    match GetAuthorization(l, caller, spender)
    case None => CreateSets(l, caller, spender, denom, added, duration);
    case Some(g) =>
      FindAmountExact(g.auth.spendLimit, denom);
      AmountSign(g.auth.spendLimit, denom);
      SafeAddExact(AmountOf(g.auth.spendLimit, denom), added);
      UpdateSets(l, caller, spender, denom, AmountOf(g.auth.spendLimit, denom) + added, g);
  }

  lemma DecreaseRefines(l: Ledger, token: Address, caller: Address, spender: Address, denom: string, subtracted: int)
    requires LedgerOk(l) && DecreaseAllowance(l, token, caller, spender, denom, subtracted).Ok?
    ensures var r := DecreaseAllowance(l, token, caller, spender, denom, subtracted);
            var value := Allowance(l, caller, spender, denom) - subtracted;
            && LedgerOk(r.ledger) && r.approval == Some(Approval(token, spender, value))
            && caller != spender && 0 < subtracted && 0 <= value
            && SetsOnly(l, r.ledger, caller, spender, denom, value)
  {
    hide RemoveSpendLimit, UpdateAuthorization, SetsOnly;
    var g := GetAuthorization(l, caller, spender).value;
    FindAmountExact(g.auth.spendLimit, denom);
    var allowance := AmountOf(g.auth.spendLimit, denom);
    if subtracted < allowance {
      UpdateSets(l, caller, spender, denom, allowance - subtracted, g);
    } else {
      RemoveSets(l, caller, spender, denom, g);
    }
  }

  /** A transfer from another account takes the amount off the caller's allowance, a direct one
      touches no allowance; either moves the amount between the two balances. */
  lemma TransferRefines(l: Ledger, isTransferFrom: bool, caller: Address, from: Address, to: Address, denom: string,
                        amount: int)
    requires LedgerOk(l) && Transfer(l, isTransferFrom, caller, from, to, denom, amount).Ok?
    ensures var r := Transfer(l, isTransferFrom, caller, from, to, denom, amount);
            var value := Allowance(l, from, caller, denom) - if caller == from then 0 else amount;
            && LedgerOk(r.ledger) && 0 < amount
            && SetsOnly(l, r.ledger, from, caller, denom, value)
            && (caller != from ==> 0 <= value)
            && (isTransferFrom ==>
                  r.approval == Some(Approval(from, caller, if caller == from then MAX_UINT256 else value)))
            && (!isTransferFrom ==> r.approval == None)
            && Moves(l, r.ledger, from, to, denom, amount)
  {
    hide Dispatch, BankSend, SetsOnly, Moves;
    if caller == from {
      BankSendMoves(l, from, to, denom, amount);
    } else {
      var g := GetAuthorization(l, from, caller).value;
      FindAmountExact(g.auth.spendLimit, denom);
      DispatchRefines(l, from, caller, to, denom, amount);
    }
  }

  /** The balances after a transfer. */
  ghost predicate Moves(l: Ledger, l': Ledger, from: Address, to: Address, denom: string, amount: int) {
    && Balance(l, from, denom) >= amount
    && forall a: Address, d: string ::
         Balance(l', a, d) == Balance(l, a, d)
                              - (if a == from && d == denom then amount else 0)
                              + (if a == to && d == denom then amount else 0)
  }

  lemma BankSendMoves(l: Ledger, from: Address, to: Address, denom: string, amount: nat)
    requires BankSend(l, from, to, denom, amount).Ok?
    ensures var r := BankSend(l, from, to, denom, amount);
            && r.ledger.grants == l.grants && r.ledger.now == l.now && r.ledger.rules == l.rules && r.approval == None
            && Moves(l, r.ledger, from, to, denom, amount)
            && (forall o, s, d :: SetsOnly(l, r.ledger, o, s, d, Allowance(l, o, s, d)))
  {
    var l' := BankSend(l, from, to, denom, amount).ledger;
    assert forall o: Address, s: Address :: GetAuthorization(l', o, s) == GetAuthorization(l, o, s);
  }

  lemma DispatchRefines(l: Ledger, owner: Address, spender: Address, to: Address, denom: string, amount: nat)
    requires LedgerOk(l) && amount > 0
    requires GetAuthorization(l, owner, spender).Some? && GetAuthorization(l, owner, spender).value.auth.Send?
    requires Dispatch(l, owner, spender, to, denom, amount).Ok?
    ensures var r := Dispatch(l, owner, spender, to, denom, amount);
            && LedgerOk(r.ledger) && amount <= Allowance(l, owner, spender, denom) && r.approval == None
            && SetsOnly(l, r.ledger, owner, spender, denom, Allowance(l, owner, spender, denom) - amount)
            && Moves(l, r.ledger, owner, to, denom, amount)
  {
    hide BankSend, SubCoin, SetsOnly;
    var g := l.grants[(owner, spender)];
    var left := SubCoin(g.auth.spendLimit, Coin(denom, amount));
    SubCoinLeaves(g.auth.spendLimit, denom, amount);
    var value := Allowance(l, owner, spender, denom) - amount;
    var mid := l.(grants := if left == [] then l.grants - {(owner, spender)}
                            else l.grants[(owner, spender) := g.(auth := g.auth.(spendLimit := left))]);
    SpendSets(l, owner, spender, denom, value, left, mid);
    BankSendMoves(mid, owner, to, denom, amount);
    KeepsSets(l, mid, Dispatch(l, owner, spender, to, denom, amount).ledger, owner, spender, denom, value);
  }

  lemma SpendSets(l: Ledger, owner: Address, spender: Address, denom: string, value: int, left: seq<Coin>, mid: Ledger)
    requires LedgerOk(l)
    requires GetAuthorization(l, owner, spender).Some? && GetAuthorization(l, owner, spender).value.auth.Send?
    requires ValidCoins(left) && forall i :: 0 <= i < |left| ==> left[i].amount <= MAX_UINT256
    requires forall d :: AmountOf(left, d) == if d == denom then value else Allowance(l, owner, spender, d)
    requires var g := l.grants[(owner, spender)];
             mid == l.(grants := if left == [] then l.grants - {(owner, spender)}
                                 else l.grants[(owner, spender) := g.(auth := g.auth.(spendLimit := left))])
    ensures LedgerOk(mid) && SetsOnly(l, mid, owner, spender, denom, value)
  {
    hide ValidCoins, AmountOf;
    if left == [] {
      EmptyAmounts(left);
      assert AmountOf(left, denom) == value;
      forall d | d != denom ensures Allowance(l, owner, spender, d) == 0 {
        assert AmountOf(left, d) == 0;
      }
    }
  }

  lemma EmptyAmounts(left: seq<Coin>)
    requires left == []
    ensures forall d :: AmountOf(left, d) == 0
  {
  }

  lemma KeepsSets(l: Ledger, mid: Ledger, l': Ledger, owner: Address, spender: Address, denom: string, value: int)
    requires SetsOnly(l, mid, owner, spender, denom, value)
    requires SetsOnly(mid, l', owner, spender, denom, Allowance(mid, owner, spender, denom))
    ensures SetsOnly(l, l', owner, spender, denom, value)
  {
    hide Allowance;
  }
}
