/** AccountServiceImpl: opening, closing and querying accounts, deposits,
    withdrawals, the paged transaction history, and the number-based
    transfer with currency conversion. */
module AccountService {
  import opened Wrappers
  import opened AccountEntity
  import opened TransactionEntity
  import opened Store
  import Balances
  import Paging
  import Decimal

  /** `checkAccountExistance(id)`: `accountRepository.findById(id)`. */
  function CheckAccountExistence(d: Db, id: nat): (r: Result<Account>)
    ensures r.Ok? <==> id in d.accountIds && d.accountIds[id] in d.accounts
    ensures r.Err? ==> r.error == NotFound
    ensures r.Ok? ==> r.value == d.accounts[d.accountIds[id]]
  {
    if id in d.accountIds && d.accountIds[id] in d.accounts then Ok(d.accounts[d.accountIds[id]])
    else Err(NotFound)
  }

  /** In a consistent store, the lookup by id finds exactly the account
      carrying that id. */
  lemma CheckAccountExistenceFindsTheId(d: Db, id: nat)
    requires Consistent(d)
    ensures CheckAccountExistence(d, id).Ok? <==> exists n | n in d.accounts :: d.accounts[n].id == id
    ensures CheckAccountExistence(d, id).Ok? ==> CheckAccountExistence(d, id).value.id == id
  {
    if n :| n in d.accounts && d.accounts[n].id == id {
      assert d.accountIds[id] == n;
    }
  }

  /** `customer.getAccounts().stream().anyMatch(currency equals ...)`. */
  predicate HasCurrency(d: Db, email: string, currency: Currency)
    requires email in d.customers
  {
    exists n | n in d.customers[email].accounts :: n in d.accounts && d.accounts[n].currency == currency
  }

  /** The check over the customer's account set agrees with a search of the
      whole account table for an account of that owner and currency. */
  lemma HasCurrencyIffOwnsOne(d: Db, email: string, currency: Currency)
    requires Consistent(d) && email in d.customers
    ensures HasCurrency(d, email, currency) <==>
            exists n | n in d.accounts :: d.accounts[n].owner == email && d.accounts[n].currency == currency
  {
    if n :| n in d.accounts && d.accounts[n].owner == email && d.accounts[n].currency == currency {
      assert n in d.customers[email].accounts;
    }
  }

  /** The account `createAccount` builds for `caller`: zero balance, the
      requested fields, the decimal form of the random draw as its number. */
  function RequestedAccount(d: Db, caller: string, accountType: AccountType, currency: Currency,
                            accountName: string, accountDescription: string, draw: nat): (a: Account)
    ensures a.id == d.nextAccountId && a.owner == caller && a.balance == 0.0 && a.active
    ensures a.accountType == accountType && a.currency == currency
    ensures a.accountName == accountName && a.accountDescription == accountDescription
    ensures a.accountNumber == Decimal.DecimalString(draw) && Decimal.ParseDecimal(a.accountNumber) == draw
  {
    Decimal.ParseDecimalString(draw);
    NewAccount(d.nextAccountId, Decimal.DecimalString(draw), accountType, 0.0, currency,
               accountName, accountDescription, caller)
  }

  /** Opening an account under a fresh number adds exactly that account:
      one more row, one more entry in the owner's account set, and every
      other account and customer as before. (In a consistent store a fresh
      number is in no customer's account set.) */
  lemma AddAccountAddsOne(d: Db, a: Account)
    requires a.owner in d.customers && a.accountNumber !in d.accounts
    requires a.accountNumber !in d.customers[a.owner].accounts
    ensures var d' := AddAccount(d, a);
            && d'.accounts.Keys == d.accounts.Keys + {a.accountNumber}
            && |d'.accounts| == |d.accounts| + 1
            && d'.accounts[a.accountNumber] == a
            && (forall n | n in d.accounts :: d'.accounts[n] == d.accounts[n])
            && d'.customers[a.owner].accounts == d.customers[a.owner].accounts + {a.accountNumber}
            && |d'.customers[a.owner].accounts| == |d.customers[a.owner].accounts| + 1
            && (forall e | e in d.customers && e != a.owner :: d'.customers[e] == d.customers[e])
  {
    var d' := AddAccount(d, a);
    var c := d.customers[a.owner];
    assert d'.accounts == d.accounts[a.accountNumber := a];
    assert d'.accounts.Keys == d.accounts.Keys + {a.accountNumber};
    assert d'.customers == d.customers[a.owner := c.(accounts := c.accounts + {a.accountNumber})];
  }


  /** `createAccount`. The number comes from `draw`, the value
      `SecureRandom.nextInt(1000000000)` returned; a number already in use
      is refused by the unique column. */
  method CreateAccount(bank: Bank, caller: string, accountType: AccountType, currency: Currency,
                       accountName: string, accountDescription: string, draw: nat)
    returns (r: Result<AccountDTO>)
    requires bank.Valid() && draw < Decimal.AccountNumberBound
    modifies bank
    ensures bank.Valid()
    ensures r == Err(NotFound) <==> caller !in old(bank.db).customers
    ensures r == Err(CurrencyExists) <==>
            caller in old(bank.db).customers && HasCurrency(old(bank.db), caller, currency)
    ensures r == Err(DuplicateAccountNumber) <==>
            caller in old(bank.db).customers && !HasCurrency(old(bank.db), caller, currency)
            && Decimal.DecimalString(draw) in old(bank.db).accounts
    ensures r.Ok? <==>
            caller in old(bank.db).customers && !HasCurrency(old(bank.db), caller, currency)
            && Decimal.DecimalString(draw) !in old(bank.db).accounts
    ensures r.Err? ==> bank.db == old(bank.db)
    ensures r.Ok? ==>
              var a := RequestedAccount(old(bank.db), caller, accountType, currency, accountName,
                                        accountDescription, draw);
              && a.accountNumber !in old(bank.db).accounts
              && bank.db == AddAccount(old(bank.db), a)
              && r.value == AccountEntity.ToDTO(a)
  {
    if caller !in bank.db.customers {
      return Err(NotFound);
    }
    if HasCurrency(bank.db, caller, currency) {
      return Err(CurrencyExists);
    }
    var a := RequestedAccount(bank.db, caller, accountType, currency, accountName, accountDescription, draw);
    if a.accountNumber in bank.db.accounts {
      return Err(DuplicateAccountNumber);
    }
    HasCurrencyIffOwnsOne(bank.db, caller, currency);
    bank.InsertAccount(a);
    r := Ok(AccountEntity.ToDTO(a));
  }

  /** Closing an account removes exactly it: from the account table, from
      the id index and from its owner's account set. */
  lemma DropAccountRemovesOne(d: Db, n: string)
    requires Consistent(d) && n in d.accounts
    ensures d.accounts[n].owner in d.customers
    ensures var d' := DropAccount(d, n);
            && d'.accounts.Keys == d.accounts.Keys - {n}
            && (forall m | m in d'.accounts :: d'.accounts[m] == d.accounts[m])
            && d.accounts[n].id !in d'.accountIds
            && d'.customers[d.accounts[n].owner].accounts == d.customers[d.accounts[n].owner].accounts - {n}
            && (forall e | e in d.customers && e != d.accounts[n].owner :: d'.customers[e] == d.customers[e])
  {
  }

  /** Refusing the delete of a referenced account is exactly what keeps
      every foreign key resolving: the delete leaves no dangling reference
      iff no row refers to the account. */
  lemma DeleteLeavesNoDanglingReference(d: Db, n: string)
    requires Consistent(d) && n in d.accounts && ReferencesResolve(d)
    ensures d.accounts[n].owner in d.customers
    ensures ReferencesResolve(DropAccount(d, n)) <==> !IsReferenced(d, d.accounts[n].id)
  {
  }

  /** `deleteAccount`. `accountRepository.deleteById` fails on the foreign
      keys when a ledger entry or a favourite refers to the account; the
      transaction then rolls back, so the refusal changes nothing. */
  method DeleteAccount(bank: Bank, number: string, caller: string) returns (o: Outcome)
    requires bank.Valid()
    modifies bank
    ensures bank.Valid()
    ensures o == Fail(NotFound) <==> number !in old(bank.db).accounts
    ensures o == Fail(Unauthorized) <==>
            number in old(bank.db).accounts && old(bank.db).accounts[number].owner != caller
    ensures o == Fail(AccountReferenced) <==>
            number in old(bank.db).accounts && old(bank.db).accounts[number].owner == caller
            && IsReferenced(old(bank.db), old(bank.db).accounts[number].id)
    ensures o.Pass? <==>
            number in old(bank.db).accounts && old(bank.db).accounts[number].owner == caller
            && !IsReferenced(old(bank.db), old(bank.db).accounts[number].id)
    ensures o.Fail? ==> bank.db == old(bank.db)
    ensures o.Pass? ==> caller in old(bank.db).customers && bank.db == DropAccount(old(bank.db), number)
  {
    if number !in bank.db.accounts {
      return Fail(NotFound);
    }
    var account := bank.db.accounts[number];
    if account.owner != caller {
      return Fail(Unauthorized);
    }
    if IsReferenced(bank.db, account.id) {
      return Fail(AccountReferenced);
    }
    bank.RemoveAccount(number);
    o := Pass;
  }

  /** A deposit raises the total by the amount, changes no other account,
      and lowers no balance but the target's, and that one only for a
      negative amount. */
  lemma DepositChangesOneBalance(d: Db, number: string, amount: Money)
    requires number in d.accounts
    ensures var d' := Deposited(d, number, amount);
            && d'.accounts.Keys == d.accounts.Keys
            && d'.accounts[number].balance == d.accounts[number].balance + amount
            && (forall m | m in d.accounts && m != number :: d'.accounts[m] == d.accounts[m])
            && Balances.Total(d'.accounts) == Balances.Total(d.accounts) + amount
            && DebitsOnlyOwnedBy(d, d', d.accounts[number].owner)
            && (amount >= 0.0 ==> forall m | m in d.accounts :: d'.accounts[m].balance >= d.accounts[m].balance)
  {
    Balances.TotalWithBalance(d.accounts, number, d.accounts[number].balance + amount);
  }

  /** `deposit`. The amount is not checked: a negative deposit lowers the
      balance. */
  method Deposit(bank: Bank, number: string, amount: Money, caller: string) returns (o: Outcome)
    requires bank.Valid()
    modifies bank
    ensures bank.Valid()
    ensures o == Fail(NotFound) <==> number !in old(bank.db).accounts
    ensures o == Fail(Unauthorized) <==>
            number in old(bank.db).accounts && old(bank.db).accounts[number].owner != caller
    ensures o.Pass? <==> number in old(bank.db).accounts && old(bank.db).accounts[number].owner == caller
    ensures o.Fail? ==> bank.db == old(bank.db)
    ensures o.Pass? ==> bank.db == Deposited(old(bank.db), number, amount)
    ensures old(bank.Solvent()) && amount >= 0.0 ==> bank.Solvent()
  {
    if number !in bank.db.accounts {
      return Fail(NotFound);
    }
    var account := bank.db.accounts[number];
    if account.owner != caller {
      return Fail(Unauthorized);
    }
    bank.Credit(number, amount);
    o := Pass;
  }

  /** A withdrawal the balance covers leaves that balance non-negative,
      lowers the total by the amount, changes no other account and debits
      only that account. */
  lemma WithdrawChangesOneBalance(d: Db, number: string, amount: Money)
    requires number in d.accounts && d.accounts[number].balance >= amount
    ensures var d' := Withdrawn(d, number, amount);
            && d'.accounts.Keys == d.accounts.Keys
            && d'.accounts[number].balance == d.accounts[number].balance - amount >= 0.0
            && (forall m | m in d.accounts && m != number :: d'.accounts[m] == d.accounts[m])
            && Balances.Total(d'.accounts) == Balances.Total(d.accounts) - amount
            && DebitsOnlyOwnedBy(d, d', d.accounts[number].owner)
  {
    Balances.TotalWithBalance(d.accounts, number, d.accounts[number].balance - amount);
  }

  /** `withdraw`: by account id; the balance must cover the amount. */
  method Withdraw(bank: Bank, accountId: nat, amount: Money, caller: string) returns (o: Outcome)
    requires bank.Valid()
    modifies bank
    ensures bank.Valid()
    ensures o == Fail(NotFound) <==> CheckAccountExistence(old(bank.db), accountId).Err?
    ensures var found := CheckAccountExistence(old(bank.db), accountId);
            o == Fail(Unauthorized) <==> found.Ok? && found.value.owner != caller
    ensures var found := CheckAccountExistence(old(bank.db), accountId);
            o == Fail(InsufficientFunds) <==>
              found.Ok? && found.value.owner == caller && found.value.balance < amount
    ensures var found := CheckAccountExistence(old(bank.db), accountId);
            o.Pass? <==> found.Ok? && found.value.owner == caller && found.value.balance >= amount
    ensures o.Fail? ==> bank.db == old(bank.db)
    ensures o.Pass? ==> bank.db == Withdrawn(old(bank.db), old(bank.db).accountIds[accountId], amount)
    ensures old(bank.Solvent()) ==> bank.Solvent()
  {
    if accountId !in bank.db.accountIds || bank.db.accountIds[accountId] !in bank.db.accounts {
      return Fail(NotFound);
    }
    var n := bank.db.accountIds[accountId];
    var account := bank.db.accounts[n];
    if account.owner != caller {
      return Fail(Unauthorized);
    }
    if account.balance < amount {
      return Fail(InsufficientFunds);
    }
    bank.Debit(n, amount);
    o := Pass;
  }

  /** `getBalance`: `findByAccountNumber` and the owner check. */
  function GetBalance(d: Db, number: string, caller: string): (r: Result<Money>)
    ensures r == Err(NotFound) <==> number !in d.accounts
    ensures r == Err(Unauthorized) <==> number in d.accounts && d.accounts[number].owner != caller
    ensures r.Ok? <==> number in d.accounts && d.accounts[number].owner == caller
    ensures r.Ok? ==> r.value == d.accounts[number].balance
  {
    if number !in d.accounts then Err(NotFound)
    else if d.accounts[number].owner != caller then Err(Unauthorized)
    else Ok(d.accounts[number].balance)
  }

  /** TransactionPageResponseDTO. */
  datatype TransactionPage = TransactionPage(
    totalElement: nat,
    totalPages: nat,
    pageNumber: nat,
    pageSize: nat,
    isLast: bool,
    transactionsForAccount: seq<TransactionDTO>)

  /** `getTransactions`: page `pageNo` of the entries the account sent, in
      ledger order. `PageRequest.of` refuses a negative page number and a
      page size below one. `totalElement` is the number of entries on this
      page (`getNumberOfElements`). */
  function GetTransactions(d: Db, number: string, caller: string, pageNo: int, pageSize: int)
    : (r: Result<TransactionPage>)
    ensures r == Err(NotFound) <==> number !in d.accounts
    ensures r == Err(Unauthorized) <==> number in d.accounts && d.accounts[number].owner != caller
    ensures r == Err(IllegalArgument) <==>
            number in d.accounts && d.accounts[number].owner == caller && (pageNo < 0 || pageSize < 1)
    ensures r.Ok? <==> number in d.accounts && d.accounts[number].owner == caller && pageNo >= 0 && pageSize >= 1
    ensures r.Ok? ==>
              var history := SentBy(d.transactions, d.accounts[number].id);
              var p := r.value;
              && p.pageNumber == pageNo && p.pageSize == pageSize
              && p.totalPages * pageSize >= |history|
              && (p.totalPages == 0 || (p.totalPages - 1) * pageSize < |history|)
              && (p.isLast <==> pageNo >= p.totalPages - 1)
              && (p.isLast <==> (pageNo + 1) * pageSize >= |history|)
              && p.totalElement == |p.transactionsForAccount| <= pageSize
              && (pageNo * pageSize >= |history| ==> p.transactionsForAccount == [])
              && (pageNo * pageSize < |history| ==>
                    |p.transactionsForAccount|
                    == (if |history| - pageNo * pageSize < pageSize then |history| - pageNo * pageSize else pageSize))
              && (forall i | 0 <= i < |p.transactionsForAccount| ::
                    pageNo * pageSize + i < |history|
                    && p.transactionsForAccount[i] == TransactionEntity.ToDTO(history[pageNo * pageSize + i])
                    && p.transactionsForAccount[i].senderId == d.accounts[number].id)
  {
    if number !in d.accounts then Err(NotFound)
    else if d.accounts[number].owner != caller then Err(Unauthorized)
    else if pageNo < 0 || pageSize < 1 then Err(IllegalArgument)
    else
      var history := SentBy(d.transactions, d.accounts[number].id);
      var entries := PageDTOs(history, pageNo, pageSize);
      var totalPages := Paging.TotalPages(|history|, pageSize);
      Paging.IsLastIffNothingFollows(pageNo, pageSize, |history|);
      Ok(TransactionPage(|entries|, totalPages, pageNo, pageSize, Paging.IsLast(pageNo, totalPages), entries))
  }

  /** `transactionPage.getContent().stream().map(Transaction::toDTO)`: the
      DTOs of page `pageNo` of `history`. */
  function PageDTOs(history: seq<Transaction>, pageNo: nat, pageSize: nat): (p: seq<TransactionDTO>)
    requires pageSize >= 1
    ensures |p| <= pageSize
    ensures |p| == |Paging.PageOf(history, pageNo, pageSize)|
    ensures pageNo * pageSize >= |history| ==> p == []
    ensures pageNo * pageSize < |history| ==>
              |p| == (if |history| - pageNo * pageSize < pageSize then |history| - pageNo * pageSize else pageSize)
    ensures forall i | 0 <= i < |p| ::
              pageNo * pageSize + i < |history| && p[i] == TransactionEntity.ToDTO(history[pageNo * pageSize + i])
  {
    var entries := Paging.PageOf(history, pageNo, pageSize);
    seq(|entries|, i requires 0 <= i < |entries| => TransactionEntity.ToDTO(entries[i]))
  }

  /** The ledger entry the number-based transfer records as entry `id`. */
  function TransferEntry(id: nat, sender: Account, receiver: Account, amount: Money): (t: Transaction)
    ensures t.id == id && t.sender == sender.id && t.currency == sender.currency
    ensures t.amountTransferred == amount && t.receiverId == None
    ensures t.receiverNumber == Some(receiver.accountNumber) && t.receiverName == Some(receiver.accountName)
  {
    Transaction(id, sender.id, sender.currency, amount, None,
                Some(receiver.accountNumber), Some(receiver.accountName))
  }

  /** The balances after the two legs of a transfer: `withdraw` of `amount`
      from the sender, then `deposit` of `converted` to the receiver. */
  function Moved(d: Db, senderNumber: string, recipientNumber: string, amount: Money, converted: Money): Db
    requires senderNumber in d.accounts && recipientNumber in d.accounts
  {
    Deposited(Withdrawn(d, senderNumber, amount), recipientNumber, converted)
  }

  /** The store after a completed number-based transfer: the two legs, then
      one entry logged. */
  function Transferred(d: Db, senderNumber: string, recipientNumber: string, amount: Money, converted: Money): Db
    requires senderNumber in d.accounts && recipientNumber in d.accounts
  {
    var entry := TransferEntry(|d.transactions|, d.accounts[senderNumber], d.accounts[recipientNumber], amount);
    Log(Moved(d, senderNumber, recipientNumber, amount, converted), entry)
  }

  /** A transfer appends exactly one entry, and the sender's history grows
      by exactly that entry. */
  lemma TransferLogsOneEntry(d: Db, senderNumber: string, recipientNumber: string, amount: Money, converted: Money)
    requires senderNumber in d.accounts && recipientNumber in d.accounts
    ensures var d' := Transferred(d, senderNumber, recipientNumber, amount, converted);
            var entry := TransferEntry(|d.transactions|, d.accounts[senderNumber], d.accounts[recipientNumber], amount);
            && d'.transactions == d.transactions + [entry]
            && SentBy(d'.transactions, d.accounts[senderNumber].id)
               == SentBy(d.transactions, d.accounts[senderNumber].id) + [entry]
  {
    var entry := TransferEntry(|d.transactions|, d.accounts[senderNumber], d.accounts[recipientNumber], amount);
    SentByAppend(d.transactions, entry, d.accounts[senderNumber].id);
  }

  /** The balances after a transfer: the sender loses `amount`, the
      receiver gains `converted` (both apply when they are one account), and
      no other account changes. */
  lemma TransferMovesMoney(d: Db, senderNumber: string, recipientNumber: string, amount: Money, converted: Money)
    requires senderNumber in d.accounts && recipientNumber in d.accounts
    ensures var d' := Moved(d, senderNumber, recipientNumber, amount, converted);
            && d'.accounts.Keys == d.accounts.Keys
            && (senderNumber != recipientNumber ==>
                  && d'.accounts[senderNumber].balance == d.accounts[senderNumber].balance - amount
                  && d'.accounts[recipientNumber].balance == d.accounts[recipientNumber].balance + converted)
            && (senderNumber == recipientNumber ==>
                  d'.accounts[senderNumber].balance == d.accounts[senderNumber].balance - amount + converted)
            && (forall m | m in d.accounts && m != senderNumber && m != recipientNumber ::
                  d'.accounts[m] == d.accounts[m])
  {
    WithdrawOrDeposit(d, senderNumber, -amount);
    DepositChangesOneBalance(d, senderNumber, -amount);
    DepositChangesOneBalance(Withdrawn(d, senderNumber, amount), recipientNumber, converted);
  }

  /** A transfer moves the total held by all accounts by `converted - amount`:
      money is conserved exactly when the conversion returns the amount. */
  lemma TransferMovesTotal(d: Db, senderNumber: string, recipientNumber: string, amount: Money, converted: Money)
    requires senderNumber in d.accounts && recipientNumber in d.accounts
    ensures Balances.Total(Moved(d, senderNumber, recipientNumber, amount, converted).accounts)
            == Balances.Total(d.accounts) - amount + converted
  {
    WithdrawOrDeposit(d, senderNumber, -amount);
    Balances.TotalWithBalance(Withdrawn(d, senderNumber, amount).accounts, recipientNumber,
                              Withdrawn(d, senderNumber, amount).accounts[recipientNumber].balance + converted);
  }

  /** Withdrawing and depositing are the same balance update. */
  lemma WithdrawOrDeposit(d: Db, number: string, amount: Money)
    requires number in d.accounts
    ensures Withdrawn(d, number, -amount) == Deposited(d, number, amount)
    ensures Balances.Total(Withdrawn(d, number, -amount).accounts) == Balances.Total(d.accounts) + amount
  {
    DepositChangesOneBalance(d, number, amount);
  }

  /** With a non-negative amount and a non-negative converted amount, a
      covered transfer keeps every balance non-negative and debits only the
      sender's owner. */
  lemma TransferKeepsSolvent(d: Db, senderNumber: string, recipientNumber: string, amount: Money, converted: Money)
    requires senderNumber in d.accounts && recipientNumber in d.accounts
    requires d.accounts[senderNumber].balance >= amount && amount >= 0.0 && converted >= 0.0
    ensures Balances.NonNegative(d.accounts) ==>
              Balances.NonNegative(Moved(d, senderNumber, recipientNumber, amount, converted).accounts)
    ensures DebitsOnlyOwnedBy(d, Moved(d, senderNumber, recipientNumber, amount, converted),
                              d.accounts[senderNumber].owner)
  {
    TransferMovesMoney(d, senderNumber, recipientNumber, amount, converted);
  }

  /** `transfer` does not check the amount's sign, so a negative amount turns
      it around: its checks pass for any sender with a non-negative balance,
      and a negative converted amount then lowers the receiver's balance,
      which the caller does not own, and can overdraw it. The
      `DebitsOnlyOwnedBy` and solvency guarantees of `TransferKeepsSolvent`
      therefore need its `amount >= 0.0`. */
  lemma NegativeTransferDebitsTheReceiver(d: Db, senderNumber: string, recipientNumber: string,
                                          recipientName: string, caller: string, amount: Money, converted: Money)
    requires senderNumber in d.accounts && recipientNumber in d.accounts && senderNumber != recipientNumber
    requires d.accounts[recipientNumber].accountName == recipientName
    requires d.accounts[senderNumber].owner == caller && d.accounts[recipientNumber].owner != caller
    requires d.accounts[senderNumber].balance >= 0.0 && amount < 0.0 && converted < 0.0
    ensures TransferChecksPass(d, senderNumber, recipientNumber, recipientName, amount, caller)
    ensures var d' := Moved(d, senderNumber, recipientNumber, amount, converted);
            && d'.accounts[recipientNumber].balance < d.accounts[recipientNumber].balance
            && !DebitsOnlyOwnedBy(d, d', caller)
            && (d.accounts[recipientNumber].balance + converted < 0.0 ==> !Balances.NonNegative(d'.accounts))
  {
    TransferMovesMoney(d, senderNumber, recipientNumber, amount, converted);
  }

  /** The checks `transfer` makes before it converts: both accounts exist,
      the recipient's name matches, the caller owns the sender, and the
      sender's balance covers the amount. */
  predicate TransferChecksPass(d: Db, senderNumber: string, recipientNumber: string, recipientName: string,
                               amount: Money, caller: string)
  {
    && senderNumber in d.accounts && recipientNumber in d.accounts
    && d.accounts[recipientNumber].accountName == recipientName
    && d.accounts[senderNumber].owner == caller
    && d.accounts[senderNumber].balance >= amount
  }

  /** The second leg of a transfer whose withdrawal is done: the deposit of the
      converted amount to the receiver and the ledger entry, which together
      leave the database as `Transferred` from the state before the withdrawal. */
  method CompleteTransfer(bank: Bank, ghost d0: Db, sender: Account, receiver: Account,
                          amount: Money, converted: Money) returns (dto: TransactionDTO)
    requires bank.Valid()
    requires sender.accountNumber in d0.accounts && d0.accounts[sender.accountNumber] == sender
    requires receiver.accountNumber in d0.accounts && d0.accounts[receiver.accountNumber] == receiver
    requires bank.db == Withdrawn(d0, sender.accountNumber, amount)
    modifies bank
    ensures bank.Valid()
    ensures bank.db == Transferred(d0, sender.accountNumber, receiver.accountNumber, amount, converted)
    ensures dto == TransactionEntity.ToDTO(TransferEntry(|d0.transactions|, sender, receiver, amount))
    ensures old(bank.Solvent()) && converted >= 0.0 ==> bank.Solvent()
  {
    assert bank.db.accounts[receiver.accountNumber].owner == receiver.owner;
    var deposited := Deposit(bank, receiver.accountNumber, converted, receiver.owner);
    assert bank.db == Moved(d0, sender.accountNumber, receiver.accountNumber, amount, converted);
    var t := TransferEntry(|bank.db.transactions|, sender, receiver, amount);
    bank.AppendTransaction(t);
    dto := TransactionEntity.ToDTO(t);
  }

  /** `transfer` by account numbers. The sender is debited through
      `withdraw` under the caller's identity; the receiver is credited
      through `deposit` under its own owner's identity with
      `convert(senderCurrency, receiverCurrency, amount)`. `convert` stands
      for the HTTP exchange-rate lookup; `None` is its IOException, which
      leaves the withdrawal in place. */
  method Transfer(bank: Bank, senderNumber: string, recipientNumber: string, recipientName: string,
                  amount: Money, caller: string, convert: (Currency, Currency, Money) -> Option<Money>)
    returns (r: Result<TransactionDTO>)
    requires bank.Valid()
    modifies bank
    ensures bank.Valid()
    ensures r == Err(NotFound) <==>
            senderNumber !in old(bank.db).accounts || recipientNumber !in old(bank.db).accounts
            || old(bank.db).accounts[recipientNumber].accountName != recipientName
    ensures r == Err(Unauthorized) <==>
            senderNumber in old(bank.db).accounts && recipientNumber in old(bank.db).accounts
            && old(bank.db).accounts[recipientNumber].accountName == recipientName
            && old(bank.db).accounts[senderNumber].owner != caller
    ensures r == Err(InsufficientFunds) <==>
            senderNumber in old(bank.db).accounts && recipientNumber in old(bank.db).accounts
            && old(bank.db).accounts[recipientNumber].accountName == recipientName
            && old(bank.db).accounts[senderNumber].owner == caller
            && old(bank.db).accounts[senderNumber].balance < amount
    ensures r == Err(ConversionFailed) <==>
            TransferChecksPass(old(bank.db), senderNumber, recipientNumber, recipientName, amount, caller)
            && convert(old(bank.db).accounts[senderNumber].currency,
                       old(bank.db).accounts[recipientNumber].currency, amount).None?
    ensures r.Ok? <==>
            TransferChecksPass(old(bank.db), senderNumber, recipientNumber, recipientName, amount, caller)
            && convert(old(bank.db).accounts[senderNumber].currency,
                       old(bank.db).accounts[recipientNumber].currency, amount).Some?
    ensures r.Err? && r.error != ConversionFailed ==> bank.db == old(bank.db)
    ensures r.Ok? || r == Err(ConversionFailed) ==>
              && senderNumber in old(bank.db).accounts && recipientNumber in old(bank.db).accounts
              && old(bank.db).accounts[senderNumber].owner == caller
              && old(bank.db).accounts[senderNumber].balance >= amount
    ensures r == Err(ConversionFailed) ==>
              && convert(old(bank.db).accounts[senderNumber].currency,
                         old(bank.db).accounts[recipientNumber].currency, amount) == None
              && bank.db == Withdrawn(old(bank.db), senderNumber, amount)
    ensures r.Ok? ==>
              var s := old(bank.db).accounts[senderNumber];
              var q := old(bank.db).accounts[recipientNumber];
              && convert(s.currency, q.currency, amount).Some?
              && bank.db == Transferred(old(bank.db), senderNumber, recipientNumber, amount,
                                        convert(s.currency, q.currency, amount).value)
              && r.value == TransactionEntity.ToDTO(TransferEntry(|old(bank.db).transactions|, s, q, amount))
    ensures old(bank.Solvent()) && r == Err(ConversionFailed) ==> bank.Solvent()
    ensures old(bank.Solvent()) && r.Ok?
            && convert(old(bank.db).accounts[senderNumber].currency,
                       old(bank.db).accounts[recipientNumber].currency, amount).value >= 0.0
            ==> bank.Solvent()
  {
    if senderNumber !in bank.db.accounts || recipientNumber !in bank.db.accounts {
      return Err(NotFound);
    }
    var sender := bank.db.accounts[senderNumber];
    var receiver := bank.db.accounts[recipientNumber];
    if receiver.accountName != recipientName {
      return Err(NotFound);
    }
    CheckAccountExistenceFindsTheId(bank.db, sender.id);
    assert CheckAccountExistence(bank.db, sender.id) == Ok(sender);
    ghost var d0 := bank.db;
    var withdrawn := Withdraw(bank, sender.id, amount, caller);
    if withdrawn.Fail? {
      return Err(withdrawn.error);
    }
    assert TransferChecksPass(d0, senderNumber, recipientNumber, recipientName, amount, caller);
    assert bank.db == Withdrawn(d0, senderNumber, amount);
    var converted := convert(sender.currency, receiver.currency, amount);
    if converted.None? {
      return Err(ConversionFailed);
    }
    var dto := CompleteTransfer(bank, d0, sender, receiver, amount, converted.value);
    r := Ok(dto);
  }
}
