/** Coin lists as the Cosmos SDK keeps them, strictly sorted by denomination with positive
    amounts, and the operations on them that the allowance code calls. */
module Coins {
  import opened Order
  import opened Wrappers

  datatype Coin = Coin(denom: string, amount: int)

  predicate Sorted(coins: seq<Coin>) {
    forall i, j :: 0 <= i < j < |coins| ==> StringLess(coins[i].denom, coins[j].denom)
  }

  predicate AllPositive(coins: seq<Coin>) {
    forall i :: 0 <= i < |coins| ==> coins[i].amount > 0
  }

  predicate ValidCoins(coins: seq<Coin>) {
    Sorted(coins) && AllPositive(coins)
  }

  /** The amount of `denom`, zero when absent. */
  function AmountOf(coins: seq<Coin>, denom: string): (amount: int) {
    if coins == [] then 0
    else if coins[0].denom == denom then coins[0].amount
    else AmountOf(coins[1..], denom)
  }

  predicate Has(coins: seq<Coin>, denom: string) {
    exists i :: 0 <= i < |coins| && coins[i].denom == denom
  }

  /** Coins.Find: binary search. */
  function Find(coins: seq<Coin>, denom: string): (r: Option<Coin>)
    decreases |coins|
  {
    if |coins| == 0 then None
    else if |coins| == 1 then if coins[0].denom == denom then Some(coins[0]) else None
    else
      var mid := |coins| / 2;
      if StringLess(denom, coins[mid].denom) then Find(coins[..mid], denom)
      else if denom == coins[mid].denom then Some(coins[mid])
      else Find(coins[mid + 1..], denom)
  }

  /** Coins.AmountOfNoDenomValidation */
  function FindAmount(coins: seq<Coin>, denom: string): (amount: int) {
    match Find(coins, denom)
    case None => 0
    case Some(coin) => coin.amount
  }

  /** Coins.Add with one coin of any sign, zero results dropped: the merge keeps the order. */
  function AddCoin(coins: seq<Coin>, coin: Coin): (r: seq<Coin>) {
    if coins == [] then if coin.amount == 0 then [] else [coin]
    else if coins[0].denom == coin.denom then
      var sum := coins[0].amount + coin.amount;
      (if sum == 0 then [] else [Coin(coin.denom, sum)]) + coins[1..]
    else if StringLess(coin.denom, coins[0].denom) then (if coin.amount == 0 then [] else [coin]) + coins
    else [coins[0]] + AddCoin(coins[1..], coin)
  }

  function SubCoin(coins: seq<Coin>, coin: Coin): (r: seq<Coin>) {
    AddCoin(coins, Coin(coin.denom, -coin.amount))
  }

  predicate AnyNegative(coins: seq<Coin>) {
    exists i :: 0 <= i < |coins| && coins[i].amount < 0
  }

  // ------------------------------------------------------------------
  // Facts
  // ------------------------------------------------------------------

  lemma {:induction false} AmountAt(coins: seq<Coin>, i: nat)
    requires Sorted(coins) && i < |coins|
    ensures AmountOf(coins, coins[i].denom) == coins[i].amount
  {
    if i == 0 {
    } else {
      StringAsymmetric(coins[0].denom, coins[i].denom);
      AmountAt(coins[1..], i - 1);
    }
  }

  lemma {:induction false} AmountAbsent(coins: seq<Coin>, denom: string)
    requires !Has(coins, denom)
    ensures AmountOf(coins, denom) == 0
  {
    if coins == [] {
    } else {
      assert coins[0].denom != denom;
      assert forall i :: 0 <= i < |coins[1..]| ==> coins[1..][i] == coins[i + 1];
      AmountAbsent(coins[1..], denom);
    }
  }

  lemma AmountSign(coins: seq<Coin>, denom: string)
    requires ValidCoins(coins)
    ensures AmountOf(coins, denom) >= 0
    ensures AmountOf(coins, denom) > 0 <==> Has(coins, denom)
  {
    if Has(coins, denom) {
      var i :| 0 <= i < |coins| && coins[i].denom == denom;
      AmountAt(coins, i);
    } else {
      AmountAbsent(coins, denom);
    }
  }

  lemma AmountBound(coins: seq<Coin>, bound: nat, d: string)
    requires ValidCoins(coins) && forall i :: 0 <= i < |coins| ==> coins[i].amount <= bound
    ensures AmountOf(coins, d) <= bound
  {
    if Has(coins, d) {
      var i :| 0 <= i < |coins| && coins[i].denom == d;
      AmountAt(coins, i);
    } else {
      AmountAbsent(coins, d);
    }
  }

  /** On a sorted list the binary search finds what a scan would. */
  lemma {:induction false} FindExact(coins: seq<Coin>, denom: string)
    requires Sorted(coins)
    ensures Find(coins, denom) == if Has(coins, denom) then Some(Coin(denom, AmountOf(coins, denom))) else None
    decreases |coins|
  {
    if |coins| == 1 {
      if coins[0].denom == denom {
        AmountAt(coins, 0);
      }
    } else if |coins| > 1 {
      var mid := |coins| / 2;
      StringTotal(denom, coins[mid].denom);
      if StringLess(denom, coins[mid].denom) {
        StringAsymmetric(denom, coins[mid].denom);
        FindExact(coins[..mid], denom);
        SearchLeft(coins, denom, mid);
      } else if denom == coins[mid].denom {
        AmountAt(coins, mid);
      } else {
        FindExact(coins[mid + 1..], denom);
        SearchRight(coins, denom, mid);
      }
    }
  }

  lemma FindAmountExact(coins: seq<Coin>, denom: string)
    requires Sorted(coins)
    ensures FindAmount(coins, denom) == AmountOf(coins, denom)
  {
    FindExact(coins, denom);
    if !Has(coins, denom) {
      AmountAbsent(coins, denom);
    }
  }

  lemma SearchLeft(coins: seq<Coin>, denom: string, mid: nat)
    requires Sorted(coins) && mid < |coins| && StringLess(denom, coins[mid].denom)
    ensures Has(coins, denom) <==> Has(coins[..mid], denom)
    ensures Has(coins, denom) ==> AmountOf(coins, denom) == AmountOf(coins[..mid], denom)
  {
    hide StringLess, AmountOf;
    if Has(coins, denom) {
      var i :| 0 <= i < |coins| && coins[i].denom == denom;
      StringAsymmetric(denom, coins[mid].denom);
      if i >= mid {
        assert false;
      }
      assert coins[..mid][i].denom == denom;
      AmountAt(coins, i);
      AmountAt(coins[..mid], i);
    }
  }

  lemma SearchRight(coins: seq<Coin>, denom: string, mid: nat)
    requires Sorted(coins) && mid < |coins| && StringLess(coins[mid].denom, denom)
    ensures Has(coins, denom) <==> Has(coins[mid + 1..], denom)
    ensures Has(coins, denom) ==> AmountOf(coins, denom) == AmountOf(coins[mid + 1..], denom)
  {
    hide StringLess, AmountOf;
    if Has(coins, denom) {
      var i :| 0 <= i < |coins| && coins[i].denom == denom;
      StringAsymmetric(coins[mid].denom, denom);
      if i <= mid {
        assert false;
      }
      assert coins[mid + 1..][i - mid - 1].denom == denom;
      AmountAt(coins, i);
      AmountAt(coins[mid + 1..], i - mid - 1);
    }
  }

  /** Adding a coin changes the amount of its own denomination and no other. */
  lemma {:induction false} AddCoinAmounts(coins: seq<Coin>, coin: Coin, denom: string)
    requires Sorted(coins)
    ensures AmountOf(AddCoin(coins, coin), denom) ==
            AmountOf(coins, denom) + if denom == coin.denom then coin.amount else 0
  {
    hide StringLess;
    if coins == [] {
    } else {
      if coins[0].denom == coin.denom {
        HeadNotInTail(coins);
        AmountAbsent(coins[1..], coin.denom);
        var rest := AddCoin(coins, coin);
        assert coins[0].amount + coin.amount == 0 ==> rest == coins[1..];
        assert coins[0].amount + coin.amount != 0 ==> rest[1..] == coins[1..];
      } else if StringLess(coin.denom, coins[0].denom) {
        BelowHeadAbsent(coins, coin.denom);
        AmountAbsent(coins, coin.denom);
        var rest := AddCoin(coins, coin);
        assert coin.amount == 0 ==> rest == coins;
        assert coin.amount != 0 ==> rest[1..] == coins;
      } else {
        AddCoinAmounts(coins[1..], coin, denom);
        assert AddCoin(coins, coin)[1..] == AddCoin(coins[1..], coin);
      }
    }
  }

  lemma HeadNotInTail(coins: seq<Coin>)
    requires Sorted(coins) && coins != []
    ensures !Has(coins[1..], coins[0].denom)
  {
    if i :| 0 <= i < |coins[1..]| && coins[1..][i].denom == coins[0].denom {
      StringAsymmetric(coins[0].denom, coins[i + 1].denom);
    }
  }

  lemma BelowHeadAbsent(coins: seq<Coin>, denom: string)
    requires Sorted(coins) && coins != [] && StringLess(denom, coins[0].denom)
    ensures !Has(coins, denom)
  {
    StringAsymmetric(denom, coins[0].denom);
  }

  lemma {:induction false} AddedDenoms(coins: seq<Coin>, coin: Coin, i: nat)
    requires i < |AddCoin(coins, coin)|
    ensures var d := AddCoin(coins, coin)[i].denom; d == coin.denom || Has(coins, d)
  {
    hide StringLess;
    var r := AddCoin(coins, coin);
    if coins == [] {
    } else if coins[0].denom == coin.denom || StringLess(coin.denom, coins[0].denom) {
      assert r[i].denom != coin.denom ==> r[i] in coins;
    } else if i > 0 {
      AddedDenoms(coins[1..], coin, i - 1);
      if r[i].denom != coin.denom {
        var j :| 0 <= j < |coins[1..]| && coins[1..][j].denom == r[i].denom;
        assert coins[j + 1].denom == r[i].denom;
      }
    }
  }

  lemma {:induction false} AddCoinSorted(coins: seq<Coin>, coin: Coin)
    requires Sorted(coins)
    ensures Sorted(AddCoin(coins, coin))
  {
    hide StringLess;
    if coins == [] {
    } else if coins[0].denom == coin.denom {
      assert forall i :: 0 <= i < |coins[1..]| ==> coins[1..][i] == coins[i + 1];
    } else if StringLess(coin.denom, coins[0].denom) {
      forall j | 0 < j < |coins| ensures StringLess(coin.denom, coins[j].denom) {
        StringTransitive(coin.denom, coins[0].denom, coins[j].denom);
      }
    } else {
      StringTotal(coin.denom, coins[0].denom);
      AddCoinSorted(coins[1..], coin);
      var tail := AddCoin(coins[1..], coin);
      forall j | 0 <= j < |tail| ensures StringLess(coins[0].denom, tail[j].denom) {
        AddedDenoms(coins[1..], coin, j);
      }
    }
  }

  /** A list of coins is determined by its amounts: sorted, no zero entries. */
  lemma {:induction false} SameAmountsSame(a: seq<Coin>, b: seq<Coin>)
    requires ValidCoins(a) && ValidCoins(b)
    requires forall d :: AmountOf(a, d) == AmountOf(b, d)
    ensures a == b
  {
    assert |a| > 0 ==> AmountOf(a, a[0].denom) == AmountOf(b, a[0].denom);
    assert |b| > 0 ==> AmountOf(a, b[0].denom) == AmountOf(b, b[0].denom);
    if |a| > 0 && |b| > 0 {
      HeadsAgree(a, b);
      forall d ensures AmountOf(a[1..], d) == AmountOf(b[1..], d) {
        assert AmountOf(a, d) == AmountOf(b, d);
        if d == a[0].denom {
          HeadNotInTail(a);
          HeadNotInTail(b);
          AmountAbsent(a[1..], d);
          AmountAbsent(b[1..], d);
        }
      }
      SameAmountsSame(a[1..], b[1..]);
      assert a == [a[0]] + a[1..] && b == [b[0]] + b[1..];
    }
  }

  lemma HeadsAgree(a: seq<Coin>, b: seq<Coin>)
    requires ValidCoins(a) && ValidCoins(b) && a != [] && b != []
    requires forall d :: AmountOf(a, d) == AmountOf(b, d)
    ensures a[0] == b[0]
  {
    var da, db := a[0].denom, b[0].denom;
    assert AmountOf(a, da) == AmountOf(b, da) && AmountOf(a, db) == AmountOf(b, db);
    StringTotal(da, db);
    if StringLess(da, db) {
      BelowHeadAbsent(b, da);
      AmountAbsent(b, da);
    } else if StringLess(db, da) {
      BelowHeadAbsent(a, db);
      AmountAbsent(a, db);
    }
  }

  /** The result of an addition that leaves no denomination below zero is a valid list. */
  lemma AddCoinValid(coins: seq<Coin>, coin: Coin)
    requires ValidCoins(coins)
    ensures AmountOf(coins, coin.denom) + coin.amount >= 0 ==> ValidCoins(AddCoin(coins, coin))
    ensures AmountOf(coins, coin.denom) + coin.amount < 0 ==> AnyNegative(AddCoin(coins, coin))
    ensures AmountOf(coins, coin.denom) + coin.amount >= 0 ==> !AnyNegative(AddCoin(coins, coin))
  {
    var r := AddCoin(coins, coin);
    AddCoinSorted(coins, coin);
    AddCoinNoZero(coins, coin);
    AddCoinAmounts(coins, coin, coin.denom);
    if AmountOf(r, coin.denom) < 0 {
      if !Has(r, coin.denom) {
        AmountAbsent(r, coin.denom);
      }
      var i :| 0 <= i < |r| && r[i].denom == coin.denom;
      AmountAt(r, i);
    } else {
      forall i | 0 <= i < |r| ensures r[i].amount > 0 {
        AmountAt(r, i);
        AddCoinAmounts(coins, coin, r[i].denom);
        AmountSign(coins, r[i].denom);
      }
    }
  }

  lemma {:induction false} AddCoinNoZero(coins: seq<Coin>, coin: Coin)
    requires AllPositive(coins)
    ensures forall i :: 0 <= i < |AddCoin(coins, coin)| ==> AddCoin(coins, coin)[i].amount != 0
  {
    if coins != [] && coins[0].denom != coin.denom && !StringLess(coin.denom, coins[0].denom) {
      AddCoinNoZero(coins[1..], coin);
    }
  }
}
