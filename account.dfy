/** The Account entity: one row of the account table and its DTO mapping. */
module AccountEntity {

  /** Amounts and balances. The source stores them as Java `Double`; the
      model uses exact reals, so no rounding is modelled. */
  type Money = real

  /** The name of an `AccountCurrency` constant ("EGP", "USD", ...). */
  type Currency = string

  /** The name of an `AccountType` constant ("SAVINGS", ...). */
  type AccountType = string

  /** An account. `owner` is the email of the owning customer: the model's
      stand-in for the `@ManyToOne` customer reference (emails are unique and
      are never changed by the modelled operations). Timestamps are left out. */
  datatype Account = Account(
    id: nat,
    accountNumber: string,
    accountType: AccountType,
    balance: Money,
    currency: Currency,
    accountName: string,
    accountDescription: string,
    active: bool,
    owner: string)

  /** ReturnAccountDTO without its timestamps. */
  datatype AccountDTO = AccountDTO(
    id: nat,
    accountNumber: string,
    accountType: AccountType,
    balance: Money,
    currency: Currency,
    accountName: string,
    accountDescription: string,
    active: bool)

  /** `Account.builder()...build()` with every field but `active` given:
      the builder default makes a new account active. */
  function NewAccount(id: nat, accountNumber: string, accountType: AccountType, balance: Money,
                      currency: Currency, accountName: string, accountDescription: string,
                      owner: string): (a: Account)
    ensures a.active
  {
    Account(id, accountNumber, accountType, balance, currency, accountName, accountDescription, true, owner)
  }

  /** `Account.toDTO()`. */
  function ToDTO(a: Account): AccountDTO
  {
    AccountDTO(a.id, a.accountNumber, a.accountType, a.balance, a.currency,
               a.accountName, a.accountDescription, a.active)
  }

  /** The DTO keeps every field of the account except the owner reference:
      two accounts have the same DTO exactly when they differ at most in
      their owner. */
  lemma ToDTOKeepsAllButOwner(a: Account, b: Account)
    ensures ToDTO(a) == ToDTO(b) <==> a.(owner := b.owner) == b
  {
  }

  /** Accounts with distinct ids have distinct DTOs. */
  lemma ToDTOSeparatesIds(a: Account, b: Account)
    ensures a.id != b.id ==> ToDTO(a) != ToDTO(b)
  {
  }
}
