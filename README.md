# Money-Transfer-Service ledger, modelled in Dafny

A model of the account ledger of the Money-Transfer-Service Spring application.
A customer registers with an email and a password and gets a default savings account.
They can open at most one account per currency, close their accounts, deposit and
withdraw, read a balance, page through the transactions an account sent, transfer money
by account number (with currency conversion) or by account id (without), and keep a set
of favourite recipients.

The four JPA repositories are held in one value `Store.Db`: accounts keyed by account
number, customers keyed by email, favourites keyed by (customer id, recipient account id),
and the transaction ledger as a sequence. The `IDENTITY` id sequences and the id indexes of
the keyed tables are part of it too. `Store.Consistent` is the schema's invariant:
- unique numbers, emails and ids;
- every account has one owner, and every customer's account set is exactly what they own;
- at most one account per customer and currency;
- favourites linked to their customer;
- ledger entries numbered in order.

`Store.Bank` is the mutable database. Each repository write is a method that keeps
`Valid()` and whose new state is a pure function of the old one (`Deposited`, `Withdrawn`,
`AddAccount`, `DropAccount`, `AddCustomer`, `PutFavorite`, `DropFavorite`, `Log`). Each of
those functions has a lemma that it keeps the store consistent.

The service operations are written as the Java code is:
- Operations that read are functions that return a `Result` or an `Outcome`. Every
  exception the code throws becomes an `Error` constructor, except those listed under
  "## Left out".
- Operations that write are methods on a `Bank`. Their contract lists, as if-and-only-if
  clauses, when each error is thrown. It also says that a failure changes nothing and
  gives the new state on success.

Lemmas state what the services promise:
- a deposit or withdrawal moves exactly one balance and moves the total by the amount;
- a withdrawal the balance covers leaves it non-negative;
- a number-based transfer moves the total by `converted - amount`;
- an id-based transfer conserves money;
- each transfer appends exactly one entry to the sender's history;
- `isLast` is set exactly when no element lies beyond the page;
- favourites that are added are listed, deleted ones are not, and deleting undoes adding;
- registration opens exactly one account for the new customer;
- account numbers drawn from `nextInt(1000000000)` have one to nine digits, and distinct
  draws give distinct numbers.

Collaborators the code calls are parameters:
- the exchange-rate HTTP lookup is `convert: (Currency, Currency, Money) -> Option<Money>`,
  where `None` is the `IOException`;
- `SecureRandom.nextInt(1000000000)` is a `draw: nat` below `Decimal.AccountNumberBound`;
- the password encoder is `encode: string -> string`.

## Model

| member | source | states |
|---|---|---|
| AccountEntity.NewAccount | src/main/java/com/transfer/entity/Account.java:47-49 | an account built without `active` is active (the builder default) |
| AccountEntity.ToDTOKeepsAllButOwner | src/main/java/com/transfer/entity/Account.java:61-74 | two accounts have the same DTO iff they differ at most in the owner reference: toDTO copies every other field |
| AccountEntity.ToDTOSeparatesIds | src/main/java/com/transfer/entity/Account.java:61-74 | accounts with distinct ids have distinct DTOs |
| TransactionEntity.ToDTOKeepsAllButReceiverAccount | src/main/java/com/transfer/entity/Transaction.java:41-50 | two entries have the same DTO iff they agree on everything but the receiver account number and name |
| TransactionEntity.SentBy | src/main/java/com/transfer/repository/TransactionRepository.java:15-21 | the history of an account is no longer than the ledger, and every entry in it was sent by that account |
| TransactionEntity.SentByIsTheSendersEntries | src/main/java/com/transfer/repository/TransactionRepository.java:15-21 | an entry is in an account's history iff it is in the ledger and that account sent it |
| TransactionEntity.SentByAppend | src/main/java/com/transfer/repository/TransactionRepository.java:15-21 | saving one entry extends its sender's history by exactly that entry, at the end, and leaves every other history unchanged |
| FavoriteEntity.ToDTOSeparatesOneCustomer | src/main/java/com/transfer/entity/FavRecipient.java:30-35 | for one customer, two favourites with the same DTO are the same favourite |
| CustomerEntity.NewCustomer | src/main/java/com/transfer/entity/Customer.java:43-45 | a new customer has no accounts and no favourites (the builder default) |
| CustomerEntity.ResponseAndDTOAgree | src/main/java/com/transfer/entity/Customer.java:51-71 | toResponse and toDTO carry the same id, name and email; two customers have the same response iff they agree on those three |
| CustomerEntity.ToDTOListsEveryAccount | src/main/java/com/transfer/entity/Customer.java:61-71 | toDTO lists the DTO of every account and nothing else; when account ids are distinct, one DTO per account |
| Sets.InjectiveImageSize | src/main/java/com/transfer/entity/Customer.java:68-69 | collecting a stream into a set under a one-to-one mapping loses no element |
| Paging.TotalPages | src/main/java/com/transfer/service/AccountServiceImpl.java:144-152 | the page count is the smallest count whose pages hold every element |
| Paging.IsLastIffNothingFollows | src/main/java/com/transfer/service/AccountServiceImpl.java:148 | `pageNo >= totalPages - 1` holds iff no element lies beyond page `pageNo` |
| Paging.PageOf | src/main/java/com/transfer/service/AccountServiceImpl.java:144-145 | a page holds at most `size` elements: the full page, or the rest of the sequence; element i of the page is element `pageNo*size + i` of the sequence; a page past the end is empty |
| Paging.LastPageReachesTheEnd | src/main/java/com/transfer/service/AccountServiceImpl.java:148 | the page flagged last is the one whose elements reach the end of the history |
| Decimal.DecimalString | src/main/java/com/transfer/service/AccountServiceImpl.java:67 | `nextInt(...) + ""` is a non-empty string of decimal digits |
| Decimal.ParseDecimalString | src/main/java/com/transfer/service/AccountServiceImpl.java:67 | the account number reads back as the number drawn |
| Decimal.DecimalStringInjective | src/main/java/com/transfer/service/AccountServiceImpl.java:67 | distinct draws give distinct account numbers |
| Decimal.AccountNumberShape | src/main/java/com/transfer/service/security/AuthServiceImpl.java:54 | a number drawn below 1000000000 renders with one to nine digits |
| Balances.WithBalance | src/main/java/com/transfer/service/AccountServiceImpl.java:102-103 | setting one balance and saving changes that account's balance only, and no other account |
| Balances.TotalSplit | src/main/java/com/transfer/service/AccountServiceImpl.java:102 | the total of all balances is any one account's balance plus the total of the rest |
| Balances.TotalWithBalance | src/main/java/com/transfer/service/AccountServiceImpl.java:102-103 | setting one balance changes the total by exactly the difference |
| Store.DepositedKeepsConsistent | src/main/java/com/transfer/service/AccountServiceImpl.java:102-103 | a balance update keeps every store invariant |
| Store.WithdrawnKeepsConsistent | src/main/java/com/transfer/service/AccountServiceImpl.java:113-118 | a balance update keeps every store invariant |
| Store.AddAccountKeepsConsistent | src/main/java/com/transfer/service/AccountServiceImpl.java:58-71 | saving a new account keeps the invariants when its number is free and its owner holds no account in that currency |
| Store.DropAccountKeepsConsistent | src/main/java/com/transfer/service/AccountServiceImpl.java:87-91 | removing an account from its owner's set and from the table keeps every invariant |
| Store.AddCustomerKeepsConsistent | src/main/java/com/transfer/service/security/AuthServiceImpl.java:42-60 | saving a new customer with a fresh email and the next id keeps every invariant |
| Store.PutFavoriteKeepsConsistent | src/main/java/com/transfer/service/CustomerServiceImpl.java:102-113 | saving a favourite under an existing customer id keeps every invariant |
| Store.DropFavoriteKeepsConsistent | src/main/java/com/transfer/service/CustomerServiceImpl.java:132-136 | removing a stored favourite keeps every invariant |
| Store.LogKeepsConsistent | src/main/java/com/transfer/service/AccountServiceImpl.java:197 | appending the entry numbered by its position keeps every invariant |
| Store.DepositKeepsSolvent | src/main/java/com/transfer/service/AccountServiceImpl.java:102 | when every balance is non-negative, a non-negative deposit keeps them so |
| Store.WithdrawKeepsSolvent | src/main/java/com/transfer/service/AccountServiceImpl.java:112-114 | when every balance is non-negative, a withdrawal the balance covers keeps them so, whatever the amount's sign |
| Store.Bank.Credit | src/main/java/com/transfer/service/AccountServiceImpl.java:102-103 | the balance update keeps Valid and leaves the database as `Deposited`; a non-negative amount keeps the bank solvent |
| Store.Bank.Debit | src/main/java/com/transfer/service/AccountServiceImpl.java:113-118 | the balance update keeps Valid and leaves the database as `Withdrawn`; a covered amount keeps the bank solvent |
| Store.Bank.InsertAccount | src/main/java/com/transfer/service/AccountServiceImpl.java:71 | the save keeps Valid and leaves the database as `AddAccount` |
| Store.Bank.RemoveAccount | src/main/java/com/transfer/service/AccountServiceImpl.java:87-91 | the removal keeps Valid and leaves the database as `DropAccount` |
| Store.Bank.InsertCustomer | src/main/java/com/transfer/service/security/AuthServiceImpl.java:60 | the save keeps Valid and leaves the database as `AddCustomer` |
| Store.Bank.SaveFavorite | src/main/java/com/transfer/service/CustomerServiceImpl.java:113 | the save keeps Valid and leaves the database as `PutFavorite` |
| Store.Bank.RemoveFavorite | src/main/java/com/transfer/service/CustomerServiceImpl.java:135-136 | the removal keeps Valid and leaves the database as `DropFavorite` |
| Store.Bank.AppendTransaction | src/main/java/com/transfer/service/AccountServiceImpl.java:197 | the save keeps Valid and leaves the database as `Log` |
| AccountService.CheckAccountExistence | src/main/java/com/transfer/service/AccountServiceImpl.java:222-226 | succeeds iff the id is indexed and returns the account under that id; otherwise NotFound |
| AccountService.CheckAccountExistenceFindsTheId | src/main/java/com/transfer/service/AccountServiceImpl.java:222-226 | in a consistent store the lookup succeeds iff some account carries the id, and the account found carries it |
| AccountService.HasCurrencyIffOwnsOne | src/main/java/com/transfer/service/AccountServiceImpl.java:58 | the check over the customer's account set agrees with a search of the whole table for an account of that owner and currency |
| AccountService.RequestedAccount | src/main/java/com/transfer/service/AccountServiceImpl.java:61-69 | the new account has the next id, is the caller's, has zero balance, is active, has the requested type, currency, name and description, and its number reads back as the draw |
| AccountService.AddAccountAddsOne | src/main/java/com/transfer/service/AccountServiceImpl.java:71 | saving a new number adds exactly that account: one more row, one more entry in the owner's set, every other account and customer unchanged |
| AccountService.CreateAccount | src/main/java/com/transfer/service/AccountServiceImpl.java:52-74 | NotFound iff the caller is no customer; CurrencyExists iff they hold that currency; DuplicateAccountNumber iff the number is taken; Ok iff none of these; a failure changes nothing; success saves exactly the requested account under a fresh number and returns its DTO |
| AccountService.DropAccountRemovesOne | src/main/java/com/transfer/service/AccountServiceImpl.java:87-91 | closing removes exactly that account, from the table, the id index and its owner's set, and leaves every other account and customer as before |
| AccountService.DeleteLeavesNoDanglingReference | src/main/java/com/transfer/service/AccountServiceImpl.java:91 | when every foreign key resolves, deleting an account keeps them resolving iff no row refers to it: the refusal is exactly what keeps the references intact |
| AccountService.DeleteAccount | src/main/java/com/transfer/service/AccountServiceImpl.java:78-92 | NotFound iff the number is unknown; Unauthorized iff the caller does not own it; AccountReferenced iff a ledger entry or a favourite refers to it (the foreign keys refuse `deleteById`, and the call rolls back); a failure changes nothing; success removes exactly that account |
| AccountService.DepositChangesOneBalance | src/main/java/com/transfer/service/AccountServiceImpl.java:102-103 | a deposit adds the amount to that balance and to the total, changes no other account, debits nobody but the owner, and lowers no balance when the amount is non-negative |
| AccountService.Deposit | src/main/java/com/transfer/service/AccountServiceImpl.java:95-104 | NotFound iff the number is unknown; Unauthorized iff the caller does not own it; a failure changes nothing; success adds the amount to that balance; a non-negative amount keeps the bank solvent |
| AccountService.WithdrawChangesOneBalance | src/main/java/com/transfer/service/AccountServiceImpl.java:112-114 | a withdrawal the balance covers leaves it non-negative, lowers the total by the amount and changes no other account |
| AccountService.Withdraw | src/main/java/com/transfer/service/AccountServiceImpl.java:107-119 | NotFound iff the id lookup fails; Unauthorized iff the caller does not own the account; InsufficientFunds iff the balance is below the amount; a failure changes nothing; success subtracts the amount from that balance; the bank stays solvent |
| AccountService.GetBalance | src/main/java/com/transfer/service/AccountServiceImpl.java:124-132 | NotFound iff the number is unknown; Unauthorized iff the caller does not own it; otherwise the balance |
| AccountService.GetTransactions | src/main/java/com/transfer/service/AccountServiceImpl.java:135-163 | NotFound, Unauthorized, IllegalArgument and Ok as iffs; on success, totalPages is the least page count holding the sender's history; isLast holds iff no entry lies beyond the page; the page holds `min(pageSize, |history| - pageNo*pageSize)` entries, or none past the end, and entry i is the DTO of history entry `pageNo*pageSize + i`, sent by this account; totalElement is the page's length |
| AccountService.PageDTOs | src/main/java/com/transfer/service/AccountServiceImpl.java:156-160 | the page has as many DTOs as the page of the history has entries (`min(pageSize, |history| - pageNo*pageSize)`, or none past the end), and DTO i is the DTO of history entry `pageNo*pageSize + i` |
| AccountService.TransferEntry | src/main/java/com/transfer/service/AccountServiceImpl.java:186-193 | the entry records the sender, its currency, the unconverted amount and the receiver's number and name, and no receiver id |
| AccountService.TransferLogsOneEntry | src/main/java/com/transfer/service/AccountServiceImpl.java:186-197 | a transfer appends exactly one entry, and the sender's history grows by exactly that entry |
| AccountService.TransferMovesMoney | src/main/java/com/transfer/service/AccountServiceImpl.java:182-184 | the sender loses the amount and the receiver gains the converted amount (the two cancel out on one account); no other account changes |
| AccountService.TransferMovesTotal | src/main/java/com/transfer/service/AccountServiceImpl.java:182-184 | the total of all balances changes by `converted - amount`: money is conserved exactly when the conversion returns the amount |
| AccountService.WithdrawOrDeposit | src/main/java/com/transfer/service/AccountServiceImpl.java:102-113 | withdrawing `-x` is depositing `x`, and moves the total by `x` |
| AccountService.TransferKeepsSolvent | src/main/java/com/transfer/service/AccountServiceImpl.java:182-184 | a covered transfer of non-negative amounts keeps every balance non-negative and debits only the sender's owner |
| AccountService.NegativeTransferDebitsTheReceiver | src/main/java/com/transfer/service/AccountServiceImpl.java:182-184 | with a negative amount and converted amount, the checks of `transfer` pass for any sender with a non-negative balance, and the transfer lowers the balance of a receiver the caller does not own: the only-debits-the-owner property fails, and an overdrawn receiver breaks solvency |
| AccountService.CompleteTransfer | src/main/java/com/transfer/service/AccountServiceImpl.java:184-198 | after the withdrawal, the deposit of the converted amount and the logged entry leave the store as `Transferred` from the state before the withdrawal, and the result is the DTO of that entry; a non-negative converted amount keeps the bank solvent |
| AccountService.Transfer | src/main/java/com/transfer/service/AccountServiceImpl.java:170-200 | NotFound iff either number is unknown or the name is wrong; Unauthorized and InsufficientFunds from the withdrawal, as iffs; those failures change nothing; once the checks pass, ConversionFailed iff the conversion fails, leaving only the withdrawal done, and Ok iff it succeeds, applying both legs and logging one entry, returning its DTO; the bank stays solvent after a failed conversion, and after a success with a non-negative converted amount |
| CustomerService.GetCustomerById | src/main/java/com/transfer/service/CustomerServiceImpl.java:41-45 | succeeds iff the id is indexed; otherwise NotFound |
| CustomerService.GetCustomerByIdDescribesTheCustomer | src/main/java/com/transfer/service/CustomerServiceImpl.java:41-45 | in a consistent store, succeeds iff some customer has the id; the DTO has that customer's id, name and email, and lists the DTO of every account they own and no other |
| CustomerService.FindCustomer | src/main/java/com/transfer/service/CustomerServiceImpl.java:78-83 | NotFound iff no customer has the email; Unauthorized iff the one found has another email; otherwise that customer |
| CustomerService.FindCustomerNeverUnauthorized | src/main/java/com/transfer/service/CustomerServiceImpl.java:81-83 | in a consistent store the email check never fails, so the lookup succeeds iff the caller is a customer |
| CustomerService.ByIdEntry | src/main/java/com/transfer/service/CustomerServiceImpl.java:60-66 | the entry records the sender, its currency, the amount and the receiver id, and no receiver number or name |
| CustomerService.TransferByIdConserves | src/main/java/com/transfer/service/CustomerServiceImpl.java:57-58 | the two balances' sum is unchanged for distinct accounts; one account's balance is unchanged when it is both; no other account changes; the total is unchanged |
| CustomerService.TransferByIdLogsOneEntry | src/main/java/com/transfer/service/CustomerServiceImpl.java:60-70 | the transfer appends exactly one entry, and the sender's history grows by exactly that entry |
| CustomerService.TransferByIdKeepsSolvent | src/main/java/com/transfer/service/CustomerServiceImpl.java:57-58 | a covered non-negative transfer keeps every balance non-negative and debits only the sender's owner |
| CustomerService.NegativeTransferByIdDebitsTheReceiver | src/main/java/com/transfer/service/CustomerServiceImpl.java:57-58 | with a negative amount the withdrawal's balance check passes for any sender with a non-negative balance, and the receiver, owned by someone else, loses the amount: the only-debits-the-owner property fails, and an overdrawn receiver breaks solvency |
| CustomerService.TransferById | src/main/java/com/transfer/service/CustomerServiceImpl.java:50-74 | NotFound iff either id lookup fails; Unauthorized and InsufficientFunds from the withdrawal, as iffs; a failure changes nothing; success moves the amount and logs one entry; a non-negative amount keeps the bank solvent |
| CustomerService.GetFavorites | src/main/java/com/transfer/service/CustomerServiceImpl.java:77-88 | NotFound and Unauthorized as iffs; otherwise the image of the caller's favourites under toDTO |
| CustomerService.GetFavoritesListsTheSaved | src/main/java/com/transfer/service/CustomerServiceImpl.java:77-88 | in a consistent store, succeeds iff the caller is a customer; a (name, account id) pair is listed iff the caller saved that account under that name |
| CustomerService.AddFavorite | src/main/java/com/transfer/service/CustomerServiceImpl.java:91-115 | NotFound iff the caller or the account is unknown; Unauthorized iff the email check fails; a failure changes nothing; success saves the favourite keyed by (customer id, account id) and named after the account |
| CustomerService.AddFavoriteStoresIt | src/main/java/com/transfer/service/CustomerServiceImpl.java:102-113 | the favourite is stored under its key and in its customer's set; every other favourite is unchanged; saving it again changes nothing |
| CustomerService.AddedFavoriteIsListed | src/main/java/com/transfer/service/CustomerServiceImpl.java:77-115 | a saved favourite is listed by getFavorites for its customer |
| CustomerService.DeleteFavorite | src/main/java/com/transfer/service/CustomerServiceImpl.java:119-137 | NotFound iff the caller, the account or the favourite is unknown; Unauthorized iff the email check fails; a failure changes nothing; success removes exactly that favourite |
| CustomerService.DeleteFavoriteRemovesIt | src/main/java/com/transfer/service/CustomerServiceImpl.java:135-136 | exactly that favourite leaves the repository and its customer's set; every other favourite, every account and the ledger are unchanged |
| CustomerService.DeletedFavoriteIsNotListed | src/main/java/com/transfer/service/CustomerServiceImpl.java:77-137 | a deleted recipient is no longer listed for that customer, under any name |
| CustomerService.DeleteUndoesAdd | src/main/java/com/transfer/service/CustomerServiceImpl.java:91-137 | deleting a favourite just added to a store that lacked it gives back the store as it was |
| AuthService.DefaultAccount | src/main/java/com/transfer/service/security/AuthServiceImpl.java:48-56 | the default account is empty, active, named after the customer, described "Savings Account", with the requested type and currency |
| AuthService.RegisterKeepsConsistent | src/main/java/com/transfer/service/security/AuthServiceImpl.java:42-60 | a registration with a fresh email and number keeps every store invariant |
| AuthService.RegisterOpensOneAccount | src/main/java/com/transfer/service/security/AuthServiceImpl.java:42-60 | the new customer has the next id, the name and the encoded password; their only account is the default account; every earlier account is unchanged |
| AuthService.Register | src/main/java/com/transfer/service/security/AuthServiceImpl.java:37-63 | EmailExists iff the email is taken; DuplicateAccountNumber iff the drawn number is taken; a failure changes nothing; success saves the customer with `encode(password)` and the default account, and returns the new customer's id, name and email |

## Left out

- The exchange-rate lookup (`convertCurrency`, AccountServiceImpl.java:204-218) is a parameter: the HTTP call, the JSON parsing and `amount * rate` are not modelled. In that code a missing rate reads as 0.0.
- Concurrency is not modelled. Each operation is one atomic step on the store, so interleaved requests and lost balance updates do not arise.
- Money is an exact `real`; the rounding of Java `Double` is not modelled.
- `SecureRandom` and the password encoder are parameters (`draw`, `encode`). The model also says nothing about the encoded password differing from the raw one.
- `@Transactional` rollback is not modelled. A failed conversion (`ConversionFailed`) leaves the sender debited, as the code does when a checked `IOException` escapes.
- The unique constraint on the account number is modelled as an up-front `DuplicateAccountNumber` refusal with no change, not as a failed insert.
- Timestamps (`createdAt`, `updatedAt`) are left out of the entities and the DTOs.
- JPA fetching, cascades and the entity references are left out. Owners are referred to by email, and account and favourite sets are kept equal to the tables by an invariant.
- `addFavorite` only saves the favourite row (CustomerServiceImpl.java:113). The model also adds the key to the customer's favourite set, as a reload of the `mappedBy` collection would show it.
- The `sortBy` argument of `getTransactions` is left out: the history is in ledger order. So are its error paths: `Sort.by` throws `IllegalArgumentException` for an empty property name, and the query fails for a property `Transaction` does not have (AccountServiceImpl.java:143-145).
- AccountService.GetTransactions: `totalElement` is the number of entries on the page, because the code uses `getNumberOfElements` (AccountServiceImpl.java:151). It is not the history's total.
- CustomerService.TransferById: the deposit at CustomerServiceImpl.java:58 passes the receiver's id where `deposit` takes an account number. The model credits the account with that id under its owner's identity.
- The foreign keys from `Transaction.account` and `FavRecipient.recipientAccount` to an account are modelled only at `deleteAccount`, which is refused with `AccountReferenced` when a row refers to the account. `Store.ReferencesResolve`, the property that every such key names an existing account, is not part of `Store.Consistent`. Only the delete is proved to keep it.
- Amounts are not checked for sign anywhere, and the model does not check them either. Store.DepositKeepsSolvent, AccountService.TransferKeepsSolvent and CustomerService.TransferByIdKeepsSolvent state non-negativity only for non-negative amounts, and so do the solvency clauses of Deposit, Transfer and TransferById. The `DebitsOnlyOwnedBy` clauses of AccountService.TransferKeepsSolvent and CustomerService.TransferByIdKeepsSolvent are also conditional on non-negative amounts. The code does not meet them otherwise: a caller who knows another customer's account number and name (or id) can transfer a negative amount and so debit, and overdraw, that account. AccountService.NegativeTransferDebitsTheReceiver and CustomerService.NegativeTransferByIdDebitsTheReceiver prove this.
- AccountService.AddAccountAddsOne asks directly that the new number is in no account set of its owner. In a consistent store that follows from the number being free.
- The login (`AuthServiceImpl.login`), JWT handling, the controllers, the exception handler and the request DTOs' validation annotations are not part of this model.
- The service interfaces (AccountService.java, CustomerService.java, AuthService.java) and the repositories are not modelled separately. Their methods appear only as the store operations above.
