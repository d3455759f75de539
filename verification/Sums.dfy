/** Totals over the accounts of a ledger. */
module Sums {

  ghost function Sum<K(!new), V(!new)>(accounts: map<K, V>, f: (K, V) -> nat): nat
    decreases |accounts|
  {
    if accounts == map[] then 0 else
    var k :| k in accounts;
    f(k, accounts[k]) + Sum(accounts - {k}, f)
  }

  /** Any one account can be taken out of a total, not only the one the definition picks. */
  lemma {:induction false} SumSplit<K(!new), V(!new)>(accounts: map<K, V>, k: K, f: (K, V) -> nat)
    requires k in accounts
    ensures Sum(accounts, f) == f(k, accounts[k]) + Sum(accounts - {k}, f)
    decreases |accounts|
  {
    var j :| j in accounts && Sum(accounts, f) == f(j, accounts[j]) + Sum(accounts - {j}, f);
    if j != k {
      SumSplit(accounts - {j}, k, f);
      SumSplit(accounts - {k}, j, f);
      assert accounts - {j} - {k} == accounts - {k} - {j};
    }
  }

  function Share<K, V>(accounts: map<K, V>, k: K, f: (K, V) -> nat): nat {
    if k in accounts then f(k, accounts[k]) else 0
  }

  /** Writing one account moves a total by exactly that account's change. */
  lemma SumUpdate<K(!new), V(!new)>(accounts: map<K, V>, k: K, v: V, f: (K, V) -> nat)
    ensures Sum(accounts[k := v], f) == Sum(accounts, f) - Share(accounts, k, f) + f(k, v)
    ensures Share(accounts, k, f) <= Sum(accounts, f)
  {
    SumSplit(accounts[k := v], k, f);
    assert accounts[k := v] - {k} == accounts - {k};
    if k in accounts {
      SumSplit(accounts, k, f);
    } else {
      assert accounts - {k} == accounts;
    }
  }

  lemma {:induction false} SumZero<K(!new), V(!new)>(accounts: map<K, V>, f: (K, V) -> nat)
    requires forall k | k in accounts :: f(k, accounts[k]) == 0
    ensures Sum(accounts, f) == 0
    decreases |accounts|
  {
    if accounts != map[] {
      var k :| k in accounts && Sum(accounts, f) == f(k, accounts[k]) + Sum(accounts - {k}, f);
      SumZero(accounts - {k}, f);
    }
  }
}
