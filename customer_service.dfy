/** CustomerServiceImpl: the customer lookup, the older transfer by account
    id (no currency conversion), and the favourite recipients. */
module CustomerService {
  import opened Wrappers
  import opened AccountEntity
  import opened CustomerEntity
  import opened FavoriteEntity
  import opened TransactionEntity
  import opened Store
  import Balances
  import Sets
  import AccountService

  /** `customerRepository.findById(id)` followed by `toDTO()`. */
  function GetCustomerById(d: Db, id: nat): (r: Result<CustomerDTO>)
    ensures r.Ok? <==> id in d.customerIds && d.customerIds[id] in d.customers
    ensures r.Err? ==> r.error == NotFound
  {
    if id in d.customerIds && d.customerIds[id] in d.customers then
      var c := d.customers[d.customerIds[id]];
      Ok(CustomerEntity.ToDTO(c, OwnedAccounts(d, c)))
    else Err(NotFound)
  }

  /** In a consistent store the lookup succeeds exactly for the id of a
      customer, and the DTO is that customer's, listing the DTO of every
      account the customer owns and no other. */
  lemma GetCustomerByIdDescribesTheCustomer(d: Db, id: nat)
    requires Consistent(d)
    ensures GetCustomerById(d, id).Ok? <==> exists e | e in d.customers :: d.customers[e].id == id
    ensures GetCustomerById(d, id).Ok? ==>
              var c := d.customers[d.customerIds[id]];
              var r := GetCustomerById(d, id).value;
              && r.id == id && r.name == c.name && r.email == c.email
              && r.accounts == set n | n in d.accounts && d.accounts[n].owner == c.email :: AccountEntity.ToDTO(d.accounts[n])
  {
    if e :| e in d.customers && d.customers[e].id == id {
      assert d.customerIds[id] == e;
    }
    if GetCustomerById(d, id).Ok? {
      var c := d.customers[d.customerIds[id]];
      assert OwnedAccounts(d, c) == set n | n in d.accounts && d.accounts[n].owner == c.email :: d.accounts[n];
    }
  }

  /** `customerRepository.findUserByEmail(caller)` and the check that the
      customer found carries the caller's email. */
  function FindCustomer(d: Db, caller: string): (r: Result<Customer>)
    ensures r == Err(NotFound) <==> caller !in d.customers
    ensures r == Err(Unauthorized) <==> caller in d.customers && d.customers[caller].email != caller
    ensures r.Ok? <==> caller in d.customers && d.customers[caller].email == caller
    ensures r.Ok? ==> r.value == d.customers[caller]
  {
    if caller !in d.customers then Err(NotFound)
    else if d.customers[caller].email != caller then Err(Unauthorized)
    else Ok(d.customers[caller])
  }

  /** Emails are the customer key, so in a consistent store the email check
      never fails: the lookup fails only with NotFound. */
  lemma FindCustomerNeverUnauthorized(d: Db, caller: string)
    requires Consistent(d)
    ensures FindCustomer(d, caller).Ok? <==> caller in d.customers
    ensures FindCustomer(d, caller) != Err(Unauthorized)
  {
    if caller in d.customers {
      assert d.customers[caller].email == caller;
    }
  }

  /** The ledger entry of the id-based transfer: receiver id set, no
      receiver number or name. */
  function ByIdEntry(id: nat, sender: Account, receiverId: nat, amount: Money): (t: Transaction)
    ensures t.id == id && t.sender == sender.id && t.currency == sender.currency
    ensures t.amountTransferred == amount && t.receiverId == Some(receiverId)
    ensures t.receiverNumber == None && t.receiverName == None
  {
    Transaction(id, sender.id, sender.currency, amount, Some(receiverId), None, None)
  }

  /** The store after a completed id-based transfer: `amount` moved
      unconverted from the sender to the receiver, one entry logged. */
  function TransferredById(d: Db, senderId: nat, receiverId: nat, amount: Money): Db
    requires senderId in d.accountIds && d.accountIds[senderId] in d.accounts
    requires receiverId in d.accountIds && d.accountIds[receiverId] in d.accounts
  {
    var s := d.accountIds[senderId];
    var r := d.accountIds[receiverId];
    Log(AccountService.Moved(d, s, r, amount, amount), ByIdEntry(|d.transactions|, d.accounts[s], receiverId, amount))
  }

  /** The id-based transfer conserves money: the sum of the two balances and
      the total of all balances are unchanged, and no other account moves. */
  lemma TransferByIdConserves(d: Db, senderId: nat, receiverId: nat, amount: Money)
    requires senderId in d.accountIds && d.accountIds[senderId] in d.accounts
    requires receiverId in d.accountIds && d.accountIds[receiverId] in d.accounts
    ensures var s := d.accountIds[senderId];
            var r := d.accountIds[receiverId];
            var d' := TransferredById(d, senderId, receiverId, amount);
            && d'.accounts.Keys == d.accounts.Keys
            && (s != r ==>
                  d'.accounts[s].balance + d'.accounts[r].balance == d.accounts[s].balance + d.accounts[r].balance)
            && (s == r ==> d'.accounts[s].balance == d.accounts[s].balance)
            && (forall m | m in d.accounts && m != s && m != r :: d'.accounts[m] == d.accounts[m])
            && Balances.Total(d'.accounts) == Balances.Total(d.accounts)
  {
    var s := d.accountIds[senderId];
    var r := d.accountIds[receiverId];
    AccountService.TransferMovesMoney(d, s, r, amount, amount);
    AccountService.TransferMovesTotal(d, s, r, amount, amount);
  }

  /** The id-based transfer appends exactly one entry, and the sender's
      history grows by exactly that entry. */
  lemma TransferByIdLogsOneEntry(d: Db, senderId: nat, receiverId: nat, amount: Money)
    requires senderId in d.accountIds && d.accountIds[senderId] in d.accounts
    requires receiverId in d.accountIds && d.accountIds[receiverId] in d.accounts
    ensures var sender := d.accounts[d.accountIds[senderId]];
            var entry := ByIdEntry(|d.transactions|, sender, receiverId, amount);
            var d' := TransferredById(d, senderId, receiverId, amount);
            && d'.transactions == d.transactions + [entry]
            && SentBy(d'.transactions, sender.id) == SentBy(d.transactions, sender.id) + [entry]
  {
    var sender := d.accounts[d.accountIds[senderId]];
    SentByAppend(d.transactions, ByIdEntry(|d.transactions|, sender, receiverId, amount), sender.id);
  }

  /** With a covered, non-negative amount the id-based transfer keeps every
      balance non-negative and debits only the sender's owner. */
  lemma TransferByIdKeepsSolvent(d: Db, senderId: nat, receiverId: nat, amount: Money)
    requires senderId in d.accountIds && d.accountIds[senderId] in d.accounts
    requires receiverId in d.accountIds && d.accountIds[receiverId] in d.accounts
    requires d.accounts[d.accountIds[senderId]].balance >= amount >= 0.0
    ensures var d' := TransferredById(d, senderId, receiverId, amount);
            && (Balances.NonNegative(d.accounts) ==> Balances.NonNegative(d'.accounts))
            && DebitsOnlyOwnedBy(d, d', d.accounts[d.accountIds[senderId]].owner)
  {
    AccountService.TransferKeepsSolvent(d, d.accountIds[senderId], d.accountIds[receiverId], amount, amount);
  }

  /** The id-based transfer does not check the amount's sign either: a
      negative amount lowers the receiver's balance, which the caller does
      not own, and can overdraw it. */
  lemma NegativeTransferByIdDebitsTheReceiver(d: Db, senderId: nat, receiverId: nat, caller: string, amount: Money)
    requires senderId in d.accountIds && d.accountIds[senderId] in d.accounts
    requires receiverId in d.accountIds && d.accountIds[receiverId] in d.accounts
    requires d.accountIds[senderId] != d.accountIds[receiverId]
    requires d.accounts[d.accountIds[senderId]].owner == caller
    requires d.accounts[d.accountIds[receiverId]].owner != caller
    requires d.accounts[d.accountIds[senderId]].balance >= 0.0 > amount
    ensures d.accounts[d.accountIds[senderId]].balance >= amount
    ensures var d' := TransferredById(d, senderId, receiverId, amount);
            var r := d.accountIds[receiverId];
            && d'.accounts[r].balance == d.accounts[r].balance + amount
            && !DebitsOnlyOwnedBy(d, d', caller)
            && (d.accounts[r].balance + amount < 0.0 ==> !Balances.NonNegative(d'.accounts))
  {
    AccountService.TransferMovesMoney(d, d.accountIds[senderId], d.accountIds[receiverId], amount, amount);
  }

  /** `transfer` by account ids: both accounts are looked up, then
      `withdraw` under the caller's identity, then `deposit` of the same
      amount to the receiver under its owner's identity, then the entry. */
  method TransferById(bank: Bank, senderId: nat, receiverId: nat, amount: Money, caller: string)
    returns (o: Outcome)
    requires bank.Valid()
    modifies bank
    ensures bank.Valid()
    ensures o == Fail(NotFound) <==>
            AccountService.CheckAccountExistence(old(bank.db), senderId).Err?
            || AccountService.CheckAccountExistence(old(bank.db), receiverId).Err?
    ensures var s := AccountService.CheckAccountExistence(old(bank.db), senderId);
            var q := AccountService.CheckAccountExistence(old(bank.db), receiverId);
            o == Fail(Unauthorized) <==> s.Ok? && q.Ok? && s.value.owner != caller
    ensures var s := AccountService.CheckAccountExistence(old(bank.db), senderId);
            var q := AccountService.CheckAccountExistence(old(bank.db), receiverId);
            o == Fail(InsufficientFunds) <==> s.Ok? && q.Ok? && s.value.owner == caller && s.value.balance < amount
    ensures var s := AccountService.CheckAccountExistence(old(bank.db), senderId);
            var q := AccountService.CheckAccountExistence(old(bank.db), receiverId);
            o.Pass? <==> s.Ok? && q.Ok? && s.value.owner == caller && s.value.balance >= amount
    ensures o.Fail? ==> bank.db == old(bank.db)
    ensures o.Pass? ==> bank.db == TransferredById(old(bank.db), senderId, receiverId, amount)
    ensures old(bank.Solvent()) && amount >= 0.0 ==> bank.Solvent()
  {
    if senderId !in bank.db.accountIds || bank.db.accountIds[senderId] !in bank.db.accounts {
      return Fail(NotFound);
    }
    var sender := bank.db.accounts[bank.db.accountIds[senderId]];
    if receiverId !in bank.db.accountIds || bank.db.accountIds[receiverId] !in bank.db.accounts {
      return Fail(NotFound);
    }
    var receiver := bank.db.accounts[bank.db.accountIds[receiverId]];
    o := AccountService.Withdraw(bank, senderId, amount, caller);
    if o.Fail? {
      return;
    }
    var deposited := AccountService.Deposit(bank, receiver.accountNumber, amount, receiver.owner);
    var t := ByIdEntry(|bank.db.transactions|, sender, receiverId, amount);
    bank.AppendTransaction(t);
  }

  /** `getFavorites`: the DTOs of the caller's favourite recipients. */
  function GetFavorites(d: Db, caller: string): (r: Result<set<FavoriteDTO>>)
    ensures r == Err(NotFound) <==> caller !in d.customers
    ensures r == Err(Unauthorized) <==> caller in d.customers && d.customers[caller].email != caller
    ensures r.Ok? ==> r.value == Sets.Image(FavoritesOf(d, d.customers[caller]), FavoriteEntity.ToDTO)
  {
    match FindCustomer(d, caller)
    case Err(e) => Err(e)
    case Ok(c) => Ok(Sets.Image(FavoritesOf(d, c), FavoriteEntity.ToDTO))
  }

  /** In a consistent store `getFavorites` succeeds for every customer, and
      a (name, account id) pair is listed exactly when the caller saved
      that account under that name. */
  lemma GetFavoritesListsTheSaved(d: Db, caller: string, name: string, accountId: nat)
    requires Consistent(d)
    ensures GetFavorites(d, caller).Ok? <==> caller in d.customers
    ensures GetFavorites(d, caller).Ok? ==>
              var k := FavKey(d.customers[caller].id, accountId);
              (FavoriteDTO(name, accountId) in GetFavorites(d, caller).value <==>
                 k in d.favorites && d.favorites[k].recipientName == name)
  {
    FindCustomerNeverUnauthorized(d, caller);
    if caller in d.customers {
      var c := d.customers[caller];
      var k := FavKey(c.id, accountId);
      if k in d.favorites {
        assert d.customerIds[c.id] == caller;
        assert d.favorites[k] in FavoritesOf(d, c);
      }
    }
  }

  /** `addFavorite`: the caller's customer, the recipient account by id, and
      `favoriteRecipientRepository.save` of the favourite keyed by (customer
      id, account id) and named after the account. */
  method AddFavorite(bank: Bank, recipientAccountId: nat, caller: string) returns (o: Outcome)
    requires bank.Valid()
    modifies bank
    ensures bank.Valid()
    ensures o == Fail(NotFound) <==>
            FindCustomer(old(bank.db), caller) == Err(NotFound)
            || (FindCustomer(old(bank.db), caller).Ok?
                && AccountService.CheckAccountExistence(old(bank.db), recipientAccountId).Err?)
    ensures o == Fail(Unauthorized) <==> FindCustomer(old(bank.db), caller) == Err(Unauthorized)
    ensures o.Pass? <==>
            FindCustomer(old(bank.db), caller).Ok?
            && AccountService.CheckAccountExistence(old(bank.db), recipientAccountId).Ok?
    ensures o.Fail? ==> bank.db == old(bank.db)
    ensures o.Pass? ==>
              var account := AccountService.CheckAccountExistence(old(bank.db), recipientAccountId).value;
              bank.db == PutFavorite(old(bank.db), FavRecipient(FavKey(old(bank.db).customers[caller].id, recipientAccountId),
                                                                account.accountName))
  {
    var customer := FindCustomer(bank.db, caller);
    if customer.Err? {
      return Fail(customer.error);
    }
    var found := AccountService.CheckAccountExistence(bank.db, recipientAccountId);
    if found.Err? {
      return Fail(found.error);
    }
    var account := found.value;
    var f := FavRecipient(FavKey(customer.value.id, account.id), account.accountName);
    bank.SaveFavorite(f);
    o := Pass;
  }

  /** After saving favourite `f`, it is stored under its key and in the
      favourite set of its customer, and every other favourite is as before.
      Saving the same favourite again changes nothing. */
  lemma AddFavoriteStoresIt(d: Db, f: FavRecipient)
    requires Consistent(d) && f.id.customerId in d.customerIds
    ensures d.customerIds[f.id.customerId] in d.customers
    ensures var d' := PutFavorite(d, f);
            var e := d.customerIds[f.id.customerId];
            && d'.favorites.Keys == d.favorites.Keys + {f.id}
            && d'.favorites[f.id] == f
            && (forall k | k in d.favorites && k != f.id :: d'.favorites[k] == d.favorites[k])
            && d'.customers[e].favorites == d.customers[e].favorites + {f.id}
            && PutFavorite(d', f) == d'
  {
  }

  /** Once saved, the favourite is listed by `getFavorites` for its
      customer. */
  lemma AddedFavoriteIsListed(d: Db, f: FavRecipient)
    requires Consistent(d) && f.id.customerId in d.customerIds
    ensures d.customerIds[f.id.customerId] in d.customers
    ensures var e := d.customerIds[f.id.customerId];
            var listed := GetFavorites(PutFavorite(d, f), e);
            listed.Ok? && FavoriteEntity.ToDTO(f) in listed.value
  {
    PutFavoriteKeepsConsistent(d, f);
    var e := d.customerIds[f.id.customerId];
    GetFavoritesListsTheSaved(PutFavorite(d, f), e, f.recipientName, f.id.recipientAccountId);
  }

  /** `deleteFavorite`: the caller's customer, the recipient account by id,
      the favourite under (customer id, account id), then its removal from
      the customer's set and from the repository. */
  method DeleteFavorite(bank: Bank, recipientAccountId: nat, caller: string) returns (o: Outcome)
    requires bank.Valid()
    modifies bank
    ensures bank.Valid()
    ensures o == Fail(NotFound) <==>
            FindCustomer(old(bank.db), caller) == Err(NotFound)
            || (FindCustomer(old(bank.db), caller).Ok?
                && (AccountService.CheckAccountExistence(old(bank.db), recipientAccountId).Err?
                    || FavKey(old(bank.db).customers[caller].id, recipientAccountId) !in old(bank.db).favorites))
    ensures o == Fail(Unauthorized) <==> FindCustomer(old(bank.db), caller) == Err(Unauthorized)
    ensures o.Pass? <==>
            FindCustomer(old(bank.db), caller).Ok?
            && AccountService.CheckAccountExistence(old(bank.db), recipientAccountId).Ok?
            && FavKey(old(bank.db).customers[caller].id, recipientAccountId) in old(bank.db).favorites
    ensures o.Fail? ==> bank.db == old(bank.db)
    ensures o.Pass? ==>
              bank.db == DropFavorite(old(bank.db), FavKey(old(bank.db).customers[caller].id, recipientAccountId))
  {
    var customer := FindCustomer(bank.db, caller);
    if customer.Err? {
      return Fail(customer.error);
    }
    var found := AccountService.CheckAccountExistence(bank.db, recipientAccountId);
    if found.Err? {
      return Fail(found.error);
    }
    var k := FavKey(customer.value.id, found.value.id);
    if k !in bank.db.favorites {
      return Fail(NotFound);
    }
    bank.RemoveFavorite(k);
    o := Pass;
  }

  /** Deleting a favourite removes exactly that favourite, from the
      repository and from its customer's set. */
  lemma DeleteFavoriteRemovesIt(d: Db, k: FavKey)
    requires Consistent(d) && k in d.favorites
    ensures k.customerId in d.customerIds && d.customerIds[k.customerId] in d.customers
    ensures var d' := DropFavorite(d, k);
            var e := d.customerIds[k.customerId];
            && d'.favorites.Keys == d.favorites.Keys - {k}
            && (forall j | j in d'.favorites :: d'.favorites[j] == d.favorites[j])
            && d'.customers[e].favorites == d.customers[e].favorites - {k}
            && d'.accounts == d.accounts && d'.transactions == d.transactions
  {
  }

  /** Once deleted, the recipient is no longer listed by `getFavorites`
      for that customer, under any name. */
  lemma DeletedFavoriteIsNotListed(d: Db, k: FavKey, name: string)
    requires Consistent(d) && k in d.favorites
    ensures k.customerId in d.customerIds && d.customerIds[k.customerId] in d.customers
    ensures var e := d.customerIds[k.customerId];
            var listed := GetFavorites(DropFavorite(d, k), e);
            listed.Ok? && FavoriteDTO(name, k.recipientAccountId) !in listed.value
  {
    DropFavoriteKeepsConsistent(d, k);
    var e := d.customerIds[k.customerId];
    GetFavoritesListsTheSaved(DropFavorite(d, k), e, name, k.recipientAccountId);
  }

  /** Deleting a favourite that was just added to a store that lacked it
      gives back the store as it was. */
  lemma DeleteUndoesAdd(d: Db, f: FavRecipient)
    requires Consistent(d) && f.id.customerId in d.customerIds && f.id !in d.favorites
    ensures d.customerIds[f.id.customerId] in d.customers
    ensures f.id.customerId in PutFavorite(d, f).customerIds
    ensures PutFavorite(d, f).customerIds[f.id.customerId] in PutFavorite(d, f).customers
    ensures DropFavorite(PutFavorite(d, f), f.id) == d
  {
    var e := d.customerIds[f.id.customerId];
    var c := d.customers[e];
    assert f.id !in c.favorites;
    assert c.favorites + {f.id} - {f.id} == c.favorites;
    assert d.favorites[f.id := f] - {f.id} == d.favorites;
    assert d.customers[e := c.(favorites := c.favorites + {f.id})][e := c] == d.customers;
  }
}
