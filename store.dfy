/** The database behind the services: the account, customer, favourite and
    transaction repositories, held as maps and a sequence, with the
    invariants the schema and the services keep. */
module Store {
  import opened AccountEntity
  import opened CustomerEntity
  import opened FavoriteEntity
  import opened TransactionEntity
  import Balances

  /** Account numbers are unique (the key of `accounts`) and so are ids;
      the two indexes agree, and every id was handed out already. */
  ghost predicate AccountsIndexed(accounts: map<string, Account>, accountIds: map<nat, string>, nextId: nat)
  {
    && (forall n | n in accounts ::
          accounts[n].accountNumber == n && accounts[n].id in accountIds && accountIds[accounts[n].id] == n)
    && (forall i | i in accountIds ::
          i < nextId && accountIds[i] in accounts && accounts[accountIds[i]].id == i)
  }

  /** Emails are unique (the key of `customers`) and so are ids. */
  ghost predicate CustomersIndexed(customers: map<string, Customer>, customerIds: map<nat, string>, nextId: nat)
  {
    && (forall e | e in customers ::
          customers[e].email == e && customers[e].id in customerIds && customerIds[customers[e].id] == e)
    && (forall i | i in customerIds ::
          i < nextId && customerIds[i] in customers && customers[customerIds[i]].id == i)
  }

  /** Every account has one owning customer, and a customer's account set is
      exactly the set of accounts it owns. */
  ghost predicate Owned(accounts: map<string, Account>, customers: map<string, Customer>)
  {
    && (forall n | n in accounts ::
          accounts[n].owner in customers && n in customers[accounts[n].owner].accounts)
    && (forall e, n | e in customers && n in customers[e].accounts ::
          n in accounts && accounts[n].owner == e)
  }

  /** Two accounts of the same customer in the same currency. */
  ghost predicate SameHolding(a: Account, b: Account)
  {
    a.owner == b.owner && a.currency == b.currency
  }

  /** A customer holds at most one account per currency. */
  ghost predicate OneAccountPerCurrency(accounts: map<string, Account>)
  {
    forall n, m {:trigger SameHolding(accounts[n], accounts[m])} | n in accounts && m in accounts ::
      SameHolding(accounts[n], accounts[m]) ==> n == m
  }

  /** A customer's favourite set is exactly the set of favourites stored
      under its customer id. */
  ghost predicate FavoritesLinked(favorites: map<FavKey, FavRecipient>, customers: map<string, Customer>,
                                  customerIds: map<nat, string>)
  {
    && (forall k | k in favorites ::
          favorites[k].id == k && k.customerId in customerIds && customerIds[k.customerId] in customers
          && k in customers[customerIds[k.customerId]].favorites)
    && (forall e, k | e in customers && k in customers[e].favorites ::
          k in favorites && k.customerId == customers[e].id)
  }

  /** Ledger entries are numbered by their position. */
  ghost predicate LedgerNumbered(transactions: seq<Transaction>)
  {
    forall i | 0 <= i < |transactions| :: transactions[i].id == i
  }

  /** The contents of the database: the four repositories, the two
      IDENTITY counters, and the id index of each keyed table. */
  datatype Db = Db(accounts: map<string, Account>, accountIds: map<nat, string>, nextAccountId: nat,
                   customers: map<string, Customer>, customerIds: map<nat, string>, nextCustomerId: nat,
                   favorites: map<FavKey, FavRecipient>, transactions: seq<Transaction>)

  /** All the store invariants. */
  ghost predicate Consistent(d: Db)
  {
    && AccountsIndexed(d.accounts, d.accountIds, d.nextAccountId)
    && CustomersIndexed(d.customers, d.customerIds, d.nextCustomerId)
    && Owned(d.accounts, d.customers)
    && OneAccountPerCurrency(d.accounts)
    && FavoritesLinked(d.favorites, d.customers, d.customerIds)
    && LedgerNumbered(d.transactions)
  }

  /** `m'` differs from `m` at most in balances. */
  ghost predicate SameButBalances(m: map<string, Account>, m': map<string, Account>)
  {
    m'.Keys == m.Keys && forall n | n in m :: m'[n].(balance := m[n].balance) == m[n]
  }

  /** The account invariants do not depend on balances. */
  lemma BalancesIrrelevant(m: map<string, Account>, m': map<string, Account>, ids: map<nat, string>,
                           nextId: nat, customers: map<string, Customer>)
    requires SameButBalances(m, m')
    ensures AccountsIndexed(m, ids, nextId) ==> AccountsIndexed(m', ids, nextId)
    ensures Owned(m, customers) ==> Owned(m', customers)
    ensures OneAccountPerCurrency(m) ==> OneAccountPerCurrency(m')
  {
    assert forall n | n in m :: m'[n].accountNumber == m[n].accountNumber && m'[n].id == m[n].id
                                && m'[n].owner == m[n].owner && m'[n].currency == m[n].currency;
    if OneAccountPerCurrency(m) {
      forall n, k | n in m' && k in m' && SameHolding(m'[n], m'[k])
        ensures n == k
      {
        assert SameHolding(m[n], m[k]);
      }
    }
  }

  /** `c'` differs from `c` at most in the customers' account sets. */
  ghost predicate SameButAccountSets(c: map<string, Customer>, c': map<string, Customer>)
  {
    c'.Keys == c.Keys && forall e | e in c :: c'[e].(accounts := c[e].accounts) == c[e]
  }

  /** `c'` differs from `c` at most in the customers' favourite sets. */
  ghost predicate SameButFavoriteSets(c: map<string, Customer>, c': map<string, Customer>)
  {
    c'.Keys == c.Keys && forall e | e in c :: c'[e].(favorites := c[e].favorites) == c[e]
  }

  lemma AccountSetChanged(c: map<string, Customer>, e: string, accounts: set<string>)
    requires e in c
    ensures SameButAccountSets(c, c[e := c[e].(accounts := accounts)])
  {
  }

  lemma FavoriteSetChanged(c: map<string, Customer>, e: string, favorites: set<FavKey>)
    requires e in c
    ensures SameButFavoriteSets(c, c[e := c[e].(favorites := favorites)])
  {
  }

  lemma AccountSetsIrrelevant(c: map<string, Customer>, c': map<string, Customer>, ids: map<nat, string>,
                              nextId: nat, favorites: map<FavKey, FavRecipient>)
    requires SameButAccountSets(c, c')
    ensures CustomersIndexed(c, ids, nextId) ==> CustomersIndexed(c', ids, nextId)
    ensures FavoritesLinked(favorites, c, ids) ==> FavoritesLinked(favorites, c', ids)
  {
    assert forall e | e in c :: c'[e].email == c[e].email && c'[e].id == c[e].id
                                && c'[e].favorites == c[e].favorites;
  }

  lemma FavoriteSetsIrrelevant(c: map<string, Customer>, c': map<string, Customer>, ids: map<nat, string>,
                               nextId: nat, accounts: map<string, Account>)
    requires SameButFavoriteSets(c, c')
    ensures CustomersIndexed(c, ids, nextId) ==> CustomersIndexed(c', ids, nextId)
    ensures Owned(accounts, c) ==> Owned(accounts, c')
  {
    assert forall e | e in c :: c'[e].email == c[e].email && c'[e].id == c[e].id
                                && c'[e].accounts == c[e].accounts;
  }

  lemma InsertAccountKeepsIndex(accounts: map<string, Account>, ids: map<nat, string>, nextId: nat, a: Account)
    requires AccountsIndexed(accounts, ids, nextId)
    requires a.id == nextId && a.accountNumber !in accounts
    ensures AccountsIndexed(accounts[a.accountNumber := a], ids[a.id := a.accountNumber], nextId + 1)
  {
  }

  lemma InsertAccountKeepsOwnership(accounts: map<string, Account>, customers: map<string, Customer>, a: Account)
    requires Owned(accounts, customers)
    requires a.accountNumber !in accounts && a.owner in customers
    ensures var c := customers[a.owner];
            Owned(accounts[a.accountNumber := a],
                  customers[a.owner := c.(accounts := c.accounts + {a.accountNumber})])
  {
  }

  lemma InsertAccountKeepsCurrencies(accounts: map<string, Account>, a: Account)
    requires OneAccountPerCurrency(accounts)
    requires a.accountNumber !in accounts
    requires forall n | n in accounts && accounts[n].owner == a.owner :: accounts[n].currency != a.currency
    ensures OneAccountPerCurrency(accounts[a.accountNumber := a])
  {
  }

  lemma InsertCustomerKeepsIndex(customers: map<string, Customer>, ids: map<nat, string>, nextId: nat, c: Customer)
    requires CustomersIndexed(customers, ids, nextId)
    requires c.id == nextId && c.email !in customers
    ensures CustomersIndexed(customers[c.email := c], ids[c.id := c.email], nextId + 1)
  {
  }

  lemma InsertCustomerKeepsOwnership(accounts: map<string, Account>, customers: map<string, Customer>, c: Customer)
    requires Owned(accounts, customers)
    requires c.email !in customers && c.accounts == {}
    ensures Owned(accounts, customers[c.email := c])
  {
  }

  lemma InsertCustomerKeepsLinks(favorites: map<FavKey, FavRecipient>, customers: map<string, Customer>,
                                 ids: map<nat, string>, nextId: nat, c: Customer)
    requires FavoritesLinked(favorites, customers, ids) && CustomersIndexed(customers, ids, nextId)
    requires c.id == nextId && c.email !in customers && c.favorites == {}
    ensures FavoritesLinked(favorites, customers[c.email := c], ids[c.id := c.email])
  {
  }

  lemma RemoveAccountKeepsIndex(accounts: map<string, Account>, ids: map<nat, string>, nextId: nat, n: string)
    requires AccountsIndexed(accounts, ids, nextId) && n in accounts
    ensures AccountsIndexed(accounts - {n}, ids - {accounts[n].id}, nextId)
  {
  }

  lemma RemoveAccountKeepsOwnership(accounts: map<string, Account>, customers: map<string, Customer>, n: string)
    requires Owned(accounts, customers) && n in accounts
    ensures var c := customers[accounts[n].owner];
            Owned(accounts - {n}, customers[accounts[n].owner := c.(accounts := c.accounts - {n})])
  {
  }

  lemma SaveFavoriteKeepsLinks(favorites: map<FavKey, FavRecipient>, customers: map<string, Customer>,
                               ids: map<nat, string>, nextId: nat, f: FavRecipient)
    requires FavoritesLinked(favorites, customers, ids) && CustomersIndexed(customers, ids, nextId)
    requires f.id.customerId in ids
    ensures var e := ids[f.id.customerId];
            FavoritesLinked(favorites[f.id := f],
                            customers[e := customers[e].(favorites := customers[e].favorites + {f.id})], ids)
  {
  }

  lemma RemoveFavoriteKeepsLinks(favorites: map<FavKey, FavRecipient>, customers: map<string, Customer>,
                                 ids: map<nat, string>, nextId: nat, k: FavKey)
    requires FavoritesLinked(favorites, customers, ids) && CustomersIndexed(customers, ids, nextId)
    requires k in favorites
    ensures var e := ids[k.customerId];
            FavoritesLinked(favorites - {k},
                            customers[e := customers[e].(favorites := customers[e].favorites - {k})], ids)
  {
  }

  /** The empty database. */
  function EmptyDb(): (d: Db)
    ensures Consistent(d)
  {
    Db(map[], map[], 0, map[], map[], 0, map[], [])
  }

  /** The store after `amount` is added to the balance of account `n`:
      `account.setBalance(account.getBalance() + amount)` followed by
      `accountRepository.save(account)`, as `deposit` does. */
  function Deposited(d: Db, n: string, amount: Money): Db
    requires n in d.accounts
  {
    d.(accounts := Balances.WithBalance(d.accounts, n, d.accounts[n].balance + amount))
  }

  /** The store after `amount` is taken from the balance of account `n`, as
      `withdraw` does. */
  function Withdrawn(d: Db, n: string, amount: Money): Db
    requires n in d.accounts
  {
    d.(accounts := Balances.WithBalance(d.accounts, n, d.accounts[n].balance - amount))
  }

  /** `accountRepository.save(a)` for a new account: it takes the next id and
      joins its owner's account set. */
  function AddAccount(d: Db, a: Account): Db
    requires a.owner in d.customers
  {
    var c := d.customers[a.owner];
    d.(accounts := d.accounts[a.accountNumber := a], accountIds := d.accountIds[a.id := a.accountNumber],
       nextAccountId := d.nextAccountId + 1,
       customers := d.customers[a.owner := c.(accounts := c.accounts + {a.accountNumber})])
  }

  /** `customer.getAccounts().remove(account)` followed by
      `accountRepository.deleteById(id)`. */
  function DropAccount(d: Db, n: string): Db
    requires n in d.accounts && d.accounts[n].owner in d.customers
  {
    var a := d.accounts[n];
    var c := d.customers[a.owner];
    d.(accounts := d.accounts - {n}, accountIds := d.accountIds - {a.id},
       customers := d.customers[a.owner := c.(accounts := c.accounts - {n})])
  }

  /** `customerRepository.save(c)` for a new customer, taking the next id. */
  function AddCustomer(d: Db, c: Customer): Db
  {
    d.(customers := d.customers[c.email := c], customerIds := d.customerIds[c.id := c.email],
       nextCustomerId := d.nextCustomerId + 1)
  }

  /** `favoriteRecipientRepository.save(f)`: inserts, or replaces the
      favourite stored under the same key; the key joins the favourite set
      of the customer named in it. */
  function PutFavorite(d: Db, f: FavRecipient): Db
    requires f.id.customerId in d.customerIds && d.customerIds[f.id.customerId] in d.customers
  {
    var e := d.customerIds[f.id.customerId];
    var c := d.customers[e];
    d.(favorites := d.favorites[f.id := f], customers := d.customers[e := c.(favorites := c.favorites + {f.id})])
  }

  /** `customer.getFavoriteRecipients().remove(f)` followed by
      `favoriteRecipientRepository.deleteById(k)`. */
  function DropFavorite(d: Db, k: FavKey): Db
    requires k.customerId in d.customerIds && d.customerIds[k.customerId] in d.customers
  {
    var e := d.customerIds[k.customerId];
    var c := d.customers[e];
    d.(favorites := d.favorites - {k}, customers := d.customers[e := c.(favorites := c.favorites - {k})])
  }

  /** `transactionRepository.save(t)`: a new ledger entry at the end. */
  function Log(d: Db, t: Transaction): Db
  {
    d.(transactions := d.transactions + [t])
  }

  /** The account records of customer `c`: the `Set<Account>` the entity holds. */
  function OwnedAccounts(d: Db, c: Customer): set<Account>
  {
    set n | n in c.accounts && n in d.accounts :: d.accounts[n]
  }

  /** The favourite records of customer `c`. */
  function FavoritesOf(d: Db, c: Customer): set<FavRecipient>
  {
    set k | k in c.favorites && k in d.favorites :: d.favorites[k]
  }

  /** Some row holds a foreign key to account `id`: a ledger entry it sent
      (`Transaction.account`) or a favourite naming it
      (`FavRecipient.recipientAccount`). The database refuses to delete such
      an account. */
  predicate IsReferenced(d: Db, id: nat)
  {
    || (exists i | 0 <= i < |d.transactions| :: d.transactions[i].sender == id)
    || (exists k | k in d.favorites :: k.recipientAccountId == id)
  }

  /** Every foreign key to an account names an account that exists. */
  ghost predicate ReferencesResolve(d: Db)
  {
    && (forall i | 0 <= i < |d.transactions| :: d.transactions[i].sender in d.accountIds)
    && (forall k | k in d.favorites :: k.recipientAccountId in d.accountIds)
  }

  /** Going from `d` to `d'`, every account whose balance went down belongs
      to `caller`. */
  ghost predicate DebitsOnlyOwnedBy(d: Db, d': Db, caller: string)
  {
    forall n | n in d.accounts && n in d'.accounts && d'.accounts[n].balance < d.accounts[n].balance ::
      d.accounts[n].owner == caller
  }

  lemma DepositedKeepsConsistent(d: Db, n: string, amount: Money)
    requires Consistent(d) && n in d.accounts
    ensures Consistent(Deposited(d, n, amount))
  {
    BalancesIrrelevant(d.accounts, Deposited(d, n, amount).accounts, d.accountIds, d.nextAccountId, d.customers);
  }

  lemma WithdrawnKeepsConsistent(d: Db, n: string, amount: Money)
    requires Consistent(d) && n in d.accounts
    ensures Consistent(Withdrawn(d, n, amount))
  {
    BalancesIrrelevant(d.accounts, Withdrawn(d, n, amount).accounts, d.accountIds, d.nextAccountId, d.customers);
  }

  /** Inserting keeps the invariants exactly when the caller has checked
      that the number is free and that the owner holds no account in that
      currency yet. */
  lemma AddAccountKeepsConsistent(d: Db, a: Account)
    requires Consistent(d)
    requires a.id == d.nextAccountId && a.accountNumber !in d.accounts && a.owner in d.customers
    requires forall n | n in d.accounts && d.accounts[n].owner == a.owner :: d.accounts[n].currency != a.currency
    ensures Consistent(AddAccount(d, a))
  {
    var c := d.customers[a.owner];
    var cs := d.customers[a.owner := c.(accounts := c.accounts + {a.accountNumber})];
    InsertAccountKeepsIndex(d.accounts, d.accountIds, d.nextAccountId, a);
    InsertAccountKeepsOwnership(d.accounts, d.customers, a);
    InsertAccountKeepsCurrencies(d.accounts, a);
    AccountSetChanged(d.customers, a.owner, c.accounts + {a.accountNumber});
    AccountSetsIrrelevant(d.customers, cs, d.customerIds, d.nextCustomerId, d.favorites);
  }

  lemma DropAccountKeepsConsistent(d: Db, n: string)
    requires Consistent(d) && n in d.accounts
    ensures d.accounts[n].owner in d.customers
    ensures Consistent(DropAccount(d, n))
  {
    var a := d.accounts[n];
    var c := d.customers[a.owner];
    var cs := d.customers[a.owner := c.(accounts := c.accounts - {n})];
    RemoveAccountKeepsIndex(d.accounts, d.accountIds, d.nextAccountId, n);
    RemoveAccountKeepsOwnership(d.accounts, d.customers, n);
    AccountSetChanged(d.customers, a.owner, c.accounts - {n});
    AccountSetsIrrelevant(d.customers, cs, d.customerIds, d.nextCustomerId, d.favorites);
  }

  lemma AddCustomerKeepsConsistent(d: Db, c: Customer)
    requires Consistent(d)
    requires c.id == d.nextCustomerId && c.email !in d.customers && c.accounts == {} && c.favorites == {}
    ensures Consistent(AddCustomer(d, c))
  {
    InsertCustomerKeepsIndex(d.customers, d.customerIds, d.nextCustomerId, c);
    InsertCustomerKeepsOwnership(d.accounts, d.customers, c);
    InsertCustomerKeepsLinks(d.favorites, d.customers, d.customerIds, d.nextCustomerId, c);
  }

  lemma PutFavoriteKeepsConsistent(d: Db, f: FavRecipient)
    requires Consistent(d) && f.id.customerId in d.customerIds
    ensures d.customerIds[f.id.customerId] in d.customers
    ensures Consistent(PutFavorite(d, f))
  {
    var e := d.customerIds[f.id.customerId];
    var c := d.customers[e];
    SaveFavoriteKeepsLinks(d.favorites, d.customers, d.customerIds, d.nextCustomerId, f);
    FavoriteSetChanged(d.customers, e, c.favorites + {f.id});
    FavoriteSetsIrrelevant(d.customers, d.customers[e := c.(favorites := c.favorites + {f.id})],
                           d.customerIds, d.nextCustomerId, d.accounts);
  }

  lemma DropFavoriteKeepsConsistent(d: Db, k: FavKey)
    requires Consistent(d) && k in d.favorites
    ensures k.customerId in d.customerIds && d.customerIds[k.customerId] in d.customers
    ensures Consistent(DropFavorite(d, k))
  {
    var e := d.customerIds[k.customerId];
    var c := d.customers[e];
    RemoveFavoriteKeepsLinks(d.favorites, d.customers, d.customerIds, d.nextCustomerId, k);
    FavoriteSetChanged(d.customers, e, c.favorites - {k});
    FavoriteSetsIrrelevant(d.customers, d.customers[e := c.(favorites := c.favorites - {k})],
                           d.customerIds, d.nextCustomerId, d.accounts);
  }

  lemma LogKeepsConsistent(d: Db, t: Transaction)
    requires Consistent(d) && t.id == |d.transactions|
    ensures Consistent(Log(d, t))
  {
  }

  /** A deposit of a non-negative amount keeps every balance non-negative. */
  lemma DepositKeepsSolvent(d: Db, n: string, amount: Money)
    requires n in d.accounts
    ensures Balances.NonNegative(d.accounts) && amount >= 0.0 ==> Balances.NonNegative(Deposited(d, n, amount).accounts)
  {
  }

  /** A withdrawal the balance covers keeps every balance non-negative,
      whatever the sign of the amount. */
  lemma WithdrawKeepsSolvent(d: Db, n: string, amount: Money)
    requires n in d.accounts
    ensures Balances.NonNegative(d.accounts) && d.accounts[n].balance >= amount ==>
            Balances.NonNegative(Withdrawn(d, n, amount).accounts)
  {
  }

  class Bank {
    /** The repositories' contents. */
    var db: Db

    ghost predicate Valid()
      reads this
    {
      Consistent(db)
    }

    /** No account has a negative balance. Not part of Valid(): `deposit`
        accepts negative amounts. */
    ghost predicate Solvent()
      reads this
    {
      Balances.NonNegative(db.accounts)
    }

    constructor ()
      ensures Valid() && Solvent()
      ensures db == EmptyDb()
    {
      db := EmptyDb();
    }

    /** `deposit`'s balance update and save. */
    method Credit(n: string, amount: Money)
      requires Valid() && n in db.accounts
      modifies this
      ensures Valid() && db == Deposited(old(db), n, amount)
      ensures old(Solvent()) && amount >= 0.0 ==> Solvent()
    {
      DepositedKeepsConsistent(db, n, amount);
      DepositKeepsSolvent(db, n, amount);
      db := Deposited(db, n, amount);
    }

    /** `withdraw`'s balance update and save. */
    method Debit(n: string, amount: Money)
      requires Valid() && n in db.accounts
      modifies this
      ensures Valid() && db == Withdrawn(old(db), n, amount)
      ensures old(Solvent()) && old(db).accounts[n].balance >= amount ==> Solvent()
    {
      WithdrawnKeepsConsistent(db, n, amount);
      WithdrawKeepsSolvent(db, n, amount);
      db := Withdrawn(db, n, amount);
    }

    method InsertAccount(a: Account)
      requires Valid()
      requires a.id == db.nextAccountId && a.accountNumber !in db.accounts && a.owner in db.customers
      requires forall n | n in db.accounts && db.accounts[n].owner == a.owner :: db.accounts[n].currency != a.currency
      modifies this
      ensures Valid() && db == AddAccount(old(db), a)
    {
      AddAccountKeepsConsistent(db, a);
      db := AddAccount(db, a);
    }

    method RemoveAccount(n: string)
      requires Valid() && n in db.accounts
      modifies this
      ensures old(db).accounts[n].owner in old(db).customers
      ensures Valid() && db == DropAccount(old(db), n)
    {
      DropAccountKeepsConsistent(db, n);
      db := DropAccount(db, n);
    }

    method InsertCustomer(c: Customer)
      requires Valid()
      requires c.id == db.nextCustomerId && c.email !in db.customers && c.accounts == {} && c.favorites == {}
      modifies this
      ensures Valid() && db == AddCustomer(old(db), c)
    {
      AddCustomerKeepsConsistent(db, c);
      db := AddCustomer(db, c);
    }

    method SaveFavorite(f: FavRecipient)
      requires Valid() && f.id.customerId in db.customerIds
      modifies this
      ensures old(db).customerIds[f.id.customerId] in old(db).customers
      ensures Valid() && db == PutFavorite(old(db), f)
    {
      PutFavoriteKeepsConsistent(db, f);
      db := PutFavorite(db, f);
    }

    method RemoveFavorite(k: FavKey)
      requires Valid() && k in db.favorites
      modifies this
      ensures k.customerId in old(db).customerIds && old(db).customerIds[k.customerId] in old(db).customers
      ensures Valid() && db == DropFavorite(old(db), k)
    {
      DropFavoriteKeepsConsistent(db, k);
      db := DropFavorite(db, k);
    }

    method AppendTransaction(t: Transaction)
      requires Valid() && t.id == |db.transactions|
      modifies this
      ensures Valid() && db == Log(old(db), t)
    {
      LogKeepsConsistent(db, t);
      db := Log(db, t);
    }
  }
}
