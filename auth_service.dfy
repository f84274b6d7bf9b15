/** AuthServiceImpl.register: a new customer with its default account. */
module AuthService {
  import opened Wrappers
  import opened AccountEntity
  import opened CustomerEntity
  import opened Store
  import Decimal

  /** The description every default account gets. */
  const DefaultDescription: string := "Savings Account"

  /** The account `register` builds for a new customer: named after the
      customer, empty, with the requested type and currency. */
  function DefaultAccount(id: nat, number: string, name: string, email: string,
                          currency: Currency, accountType: AccountType): (a: Account)
    ensures a.id == id && a.accountNumber == number && a.owner == email && a.active
    ensures a.balance == 0.0 && a.accountName == name && a.accountDescription == DefaultDescription
    ensures a.currency == currency && a.accountType == accountType
  {
    NewAccount(id, number, accountType, 0.0, currency, name, DefaultDescription, email)
  }

  /** The store after a registration: the customer saved with the encoded
      password, then its default account through the cascade. */
  function Registered(d: Db, name: string, email: string, hashed: string,
                      currency: Currency, accountType: AccountType, number: string): Db
  {
    var d1 := AddCustomer(d, NewCustomer(d.nextCustomerId, name, email, hashed));
    AddAccount(d1, DefaultAccount(d1.nextAccountId, number, name, email, currency, accountType))
  }

  /** A registration with a fresh email and a fresh account number keeps
      the store consistent. */
  lemma RegisterKeepsConsistent(d: Db, name: string, email: string, hashed: string,
                                currency: Currency, accountType: AccountType, number: string)
    requires Consistent(d) && email !in d.customers && number !in d.accounts
    ensures Consistent(Registered(d, name, email, hashed, currency, accountType, number))
  {
    var c := NewCustomer(d.nextCustomerId, name, email, hashed);
    AddCustomerKeepsConsistent(d, c);
    var d1 := AddCustomer(d, c);
    assert forall n | n in d1.accounts :: d1.accounts[n].owner != email;
    AddAccountKeepsConsistent(d1, DefaultAccount(d1.nextAccountId, number, name, email, currency, accountType));
  }

  /** A registration leaves the new customer with the encoded password and
      exactly one account, the default account; every account that was
      there before is unchanged. */
  lemma RegisterOpensOneAccount(d: Db, name: string, email: string, hashed: string,
                                currency: Currency, accountType: AccountType, number: string)
    requires Consistent(d) && email !in d.customers && number !in d.accounts
    ensures var d' := Registered(d, name, email, hashed, currency, accountType, number);
            && email in d'.customers && number in d'.accounts
            && d'.customers[email].id == d.nextCustomerId
            && d'.customers[email].name == name && d'.customers[email].password == hashed
            && d'.customers[email].accounts == {number}
            && d'.accounts[number] == DefaultAccount(d.nextAccountId, number, name, email, currency, accountType)
            && (forall n | n in d'.accounts && d'.accounts[n].owner == email :: n == number)
            && d'.accounts.Keys == d.accounts.Keys + {number}
            && (forall n | n in d.accounts :: d'.accounts[n] == d.accounts[n])
  {
    var c := NewCustomer(d.nextCustomerId, name, email, hashed);
    var d1 := AddCustomer(d, c);
    var a := DefaultAccount(d1.nextAccountId, number, name, email, currency, accountType);
    var d' := Registered(d, name, email, hashed, currency, accountType, number);
    assert d1.customers == d.customers[email := c] && d1.accounts == d.accounts;
    assert d'.accounts == d.accounts[number := a];
    assert d'.customers == d1.customers[email := c.(accounts := c.accounts + {number})];
    assert forall n | n in d.accounts :: d.accounts[n].owner != email;
  }

  /** `register`. `encode` stands for the password encoder and `draw` for
      `new SecureRandom().nextInt(1000000000)`. A drawn number that is
      already taken is refused as the account table's unique constraint
      would refuse it. */
  method Register(bank: Bank, name: string, email: string, password: string,
                  currency: Currency, accountType: AccountType, encode: string -> string, draw: nat)
    returns (r: Result<CustomerResponse>)
    requires bank.Valid() && draw < Decimal.AccountNumberBound
    modifies bank
    ensures bank.Valid()
    ensures r == Err(EmailExists) <==> email in old(bank.db).customers
    ensures r == Err(DuplicateAccountNumber) <==>
            email !in old(bank.db).customers && Decimal.DecimalString(draw) in old(bank.db).accounts
    ensures r.Ok? <==>
            email !in old(bank.db).customers && Decimal.DecimalString(draw) !in old(bank.db).accounts
    ensures r.Err? ==> bank.db == old(bank.db)
    ensures r.Ok? ==>
              && bank.db == Registered(old(bank.db), name, email, encode(password), currency, accountType,
                                       Decimal.DecimalString(draw))
              && r.value == CustomerResponse(old(bank.db).nextCustomerId, name, email)
  {
    if email in bank.db.customers {
      return Err(EmailExists);
    }
    var number := Decimal.DecimalString(draw);
    if number in bank.db.accounts {
      return Err(DuplicateAccountNumber);
    }
    var customer := NewCustomer(bank.db.nextCustomerId, name, email, encode(password));
    assert forall n | n in bank.db.accounts :: bank.db.accounts[n].owner != email;
    bank.InsertCustomer(customer);
    var account := DefaultAccount(bank.db.nextAccountId, number, name, email, currency, accountType);
    bank.InsertAccount(account);
    r := Ok(ToResponse(customer));
  }
}
