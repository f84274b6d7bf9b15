/** The balance side of the account store: setting one balance, and the
    total of all balances, which the transfers are proved to respect. */
module Balances {
  import opened AccountEntity

  /** The store `m` with account `n`'s balance set to `b`: what
      `account.setBalance(b); accountRepository.save(account)` leaves. */
  function WithBalance(m: map<string, Account>, n: string, b: Money): (m': map<string, Account>)
    requires n in m
    ensures m'.Keys == m.Keys
    ensures m'[n].balance == b && m'[n].(balance := m[n].balance) == m[n]
    ensures forall k | k in m && k != n :: m'[k] == m[k]
  {
    m[n := m[n].(balance := b)]
  }

  /** The sum of the balances of all accounts in `m`. */
  ghost function Total(m: map<string, Account>): Money
    decreases |m|
  {
    if m == map[] then 0.0
    else
      var n :| n in m;
      assert |m - {n}| < |m| by { RemoveOne(m, n); }
      m[n].balance + Total(m - {n})
  }

  lemma RemoveOne(m: map<string, Account>, n: string)
    requires n in m
    ensures |m - {n}| == |m| - 1
  {
    assert (m - {n}).Keys == m.Keys - {n};
  }

  /** Any account can be split off the total, whichever one Total picked. */
  lemma {:induction false} TotalSplit(m: map<string, Account>, n: string)
    requires n in m
    ensures Total(m) == m[n].balance + Total(m - {n})
    decreases |m|
  {
    var k :| k in m && Total(m) == m[k].balance + Total(m - {k});
    if k != n {
      RemoveOne(m, k);
      RemoveOne(m, n);
      TotalSplit(m - {k}, n);
      TotalSplit(m - {n}, k);
      assert m - {k} - {n} == m - {n} - {k};
    }
  }

  /** Setting one balance changes the total by exactly the difference. */
  lemma TotalWithBalance(m: map<string, Account>, n: string, b: Money)
    requires n in m
    ensures Total(WithBalance(m, n, b)) == Total(m) - m[n].balance + b
  {
    var m' := WithBalance(m, n, b);
    TotalSplit(m, n);
    TotalSplit(m', n);
    assert m' - {n} == m - {n};
  }

  /** Every account has a non-negative balance. */
  ghost predicate NonNegative(m: map<string, Account>)
  {
    forall n | n in m :: m[n].balance >= 0.0
  }
}
