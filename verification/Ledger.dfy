/** Balances with a running total: the scaled position tokens (DepositToken.sol, DebtToken.sol)
    and the pool's WETH collateral mapping. */
module Ledgers {
  import opened Results
  import opened FixedPoint

  /** A 160-bit account or contract address; the zero address is 0. */
  type Address = nat

  datatype Ledger = Ledger(balances: map<Address, nat>, total: nat) {
    function BalanceOf(account: Address): nat {
      if account in balances then balances[account] else 0
    }

    function Mint(account: Address, amount: nat): Result<Ledger> {
      var newTotal :- Add(total, amount);
      Success(Ledger(balances[account := BalanceOf(account) + amount], newTotal))
    }

    function Burn(account: Address, amount: nat): Result<Ledger> {
      if BalanceOf(account) < amount then Failure(InsufficientBalance) else
      var newTotal :- Sub(total, amount);
      Success(Ledger(balances[account := BalanceOf(account) - amount], newTotal))
    }

    /** The total is the sum of the balances. */
    ghost predicate Valid() {
      total == Sum(balances)
    }
  }

  const EMPTY: Ledger := Ledger(map[], 0)

  ghost function Sum(balances: map<Address, nat>): nat
    decreases |balances|
  {
    if balances == map[] then 0 else
    var a :| a in balances;
    balances[a] + Sum(balances - {a})
  }

  lemma {:induction false} SumWithout(balances: map<Address, nat>, a: Address)
    requires a in balances
    ensures Sum(balances) == balances[a] + Sum(balances - {a})
    decreases |balances|
  {
    var b :| b in balances && Sum(balances) == balances[b] + Sum(balances - {b});
    if a != b {
      SumWithout(balances - {b}, a);
      SumWithout(balances - {a}, b);
      assert (balances - {b}) - {a} == (balances - {a}) - {b};
    }
  }

  /** Overwriting one balance moves the sum by the difference. */
  lemma SumUpdate(l: Ledger, a: Address, x: nat)
    ensures Sum(l.balances[a := x]) == Sum(l.balances) - l.BalanceOf(a) + x
    ensures l.BalanceOf(a) <= Sum(l.balances)
  {
    var updated := l.balances[a := x];
    SumWithout(updated, a);
    if a in l.balances {
      SumWithout(l.balances, a);
      assert updated - {a} == l.balances - {a};
    } else {
      assert updated - {a} == l.balances;
    }
  }

  /** A balance never exceeds the total, and two different accounts' balances fit in it together. */
  lemma BalancesWithinTotal(l: Ledger, a: Address, b: Address)
    requires l.Valid()
    ensures l.BalanceOf(a) <= l.total
    ensures a != b ==> l.BalanceOf(a) + l.BalanceOf(b) <= l.total
  {
    SumUpdate(l, a, 0);
    if a != b {
      var l' := Ledger(l.balances[a := 0], l.total);
      assert l'.BalanceOf(b) == l.BalanceOf(b);
      SumUpdate(l', b, 0);
    }
  }

  /** When nobody but `a` holds a balance, `a` holds the total. */
  lemma {:induction false} SoleHolder(l: Ledger, a: Address)
    requires l.Valid()
    requires forall b :: b != a ==> l.BalanceOf(b) == 0
    ensures l.BalanceOf(a) == l.total
    decreases |l.balances|
  {
    if b :| b in l.balances && b != a {
      SumWithout(l.balances, b);
      var l' := Ledger(l.balances - {b}, l.total);
      assert l.BalanceOf(b) == 0;
      assert forall c :: l'.BalanceOf(c) == l.BalanceOf(c);
      SoleHolder(l', a);
    } else {
      assert l.balances.Keys <= {a};
      if a in l.balances {
        SumWithout(l.balances, a);
        assert l.balances - {a} == map[];
      } else {
        assert l.balances == map[];
      }
    }
  }

  /** Minting succeeds unless the total overflows, and moves exactly one balance. */
  lemma MintEffect(l: Ledger, a: Address, x: nat)
    requires l.Valid()
    ensures l.Mint(a, x).Success? <==> l.total + x <= MAX_UINT256
    ensures l.Mint(a, x).Success? ==>
              var l' := l.Mint(a, x).value;
              && l'.Valid() && l'.total == l.total + x
              && l'.BalanceOf(a) == l.BalanceOf(a) + x
              && forall b :: b != a ==> l'.BalanceOf(b) == l.BalanceOf(b)
  {
    SumUpdate(l, a, l.BalanceOf(a) + x);
  }

  /** Burning succeeds exactly when the balance covers it: the total's subtraction cannot underflow. */
  lemma BurnEffect(l: Ledger, a: Address, x: nat)
    requires l.Valid()
    ensures l.Burn(a, x).Success? <==> x <= l.BalanceOf(a)
    ensures l.Burn(a, x).Success? ==>
              var l' := l.Burn(a, x).value;
              && l'.Valid() && l'.total == l.total - x
              && l'.BalanceOf(a) == l.BalanceOf(a) - x
              && forall b :: b != a ==> l'.BalanceOf(b) == l.BalanceOf(b)
  {
    SumUpdate(l, a, if x <= l.BalanceOf(a) then l.BalanceOf(a) - x else 0);
  }
}
