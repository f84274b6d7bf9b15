/** The Customer entity and its two mappings, toResponse and toDTO. */
module CustomerEntity {
  import AccountEntity
  import opened FavoriteEntity
  import Sets

  /** A customer. `accounts` holds the numbers of the customer's accounts and
      `favorites` the keys of its favourite recipients: the two `@OneToMany`
      collections, resolved against the stores. Timestamps are left out. */
  datatype Customer = Customer(
    id: nat,
    name: string,
    email: string,
    password: string,
    accounts: set<string>,
    favorites: set<FavKey>)

  /** RegisterCustomerResponse without its timestamps. */
  datatype CustomerResponse = CustomerResponse(id: nat, name: string, email: string)

  /** CustomerDTO without its timestamps. */
  datatype CustomerDTO = CustomerDTO(id: nat, name: string, email: string,
                                     accounts: set<AccountEntity.AccountDTO>)

  /** `Customer.builder()...build()`: the collections default to empty sets. */
  function NewCustomer(id: nat, name: string, email: string, password: string): (c: Customer)
    ensures c.accounts == {} && c.favorites == {}
  {
    Customer(id, name, email, password, {}, {})
  }

  /** `Customer.toResponse()`. */
  function ToResponse(c: Customer): CustomerResponse
  {
    CustomerResponse(c.id, c.name, c.email)
  }

  /** `Customer.toDTO()`, given the customer's account records `owned`:
      the accounts are mapped one by one with `Account.toDTO()`. */
  function ToDTO(c: Customer, owned: set<AccountEntity.Account>): CustomerDTO
  {
    CustomerDTO(c.id, c.name, c.email, set a | a in owned :: AccountEntity.ToDTO(a))
  }

  /** toResponse and toDTO agree on id, name and email, and keep exactly the
      three: two customers have the same response iff they agree on them. */
  lemma ResponseAndDTOAgree(c: Customer, e: Customer, owned: set<AccountEntity.Account>)
    ensures ToResponse(c) == CustomerResponse(ToDTO(c, owned).id, ToDTO(c, owned).name, ToDTO(c, owned).email)
    ensures ToResponse(c) == ToResponse(e) <==> (c.id, c.name, c.email) == (e.id, e.name, e.email)
  {
  }

  /** toDTO lists the DTO of every account and nothing else, and one DTO
      per account when the accounts have distinct ids (as account rows do). */
  lemma ToDTOListsEveryAccount(c: Customer, owned: set<AccountEntity.Account>)
    requires forall a, b | a in owned && b in owned :: a.id == b.id ==> a == b
    ensures |ToDTO(c, owned).accounts| == |owned|
    ensures forall a | a in owned :: AccountEntity.ToDTO(a) in ToDTO(c, owned).accounts
    ensures forall x | x in ToDTO(c, owned).accounts :: exists a | a in owned :: AccountEntity.ToDTO(a) == x
  {
    forall a, b | a in owned && b in owned && AccountEntity.ToDTO(a) == AccountEntity.ToDTO(b)
      ensures a == b
    {
      AccountEntity.ToDTOSeparatesIds(a, b);
    }
    Sets.InjectiveImageSize(owned, AccountEntity.ToDTO);
    assert ToDTO(c, owned).accounts == Sets.Image(owned, AccountEntity.ToDTO);
  }
}
