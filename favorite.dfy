/** The FavRecipient entity: a customer's saved recipient account. */
module FavoriteEntity {

  /** FavRecipientId: the composite key (customer id, recipient account id). */
  datatype FavKey = FavKey(customerId: nat, recipientAccountId: nat)

  /** A favourite recipient with the recipient account's name at the time
      it was saved. */
  datatype FavRecipient = FavRecipient(id: FavKey, recipientName: string)

  /** ReturnFavoritesDTO. */
  datatype FavoriteDTO = FavoriteDTO(recipientName: string, recipientAccountId: nat)

  /** `FavRecipient.toDTO()`. */
  function ToDTO(f: FavRecipient): FavoriteDTO
  {
    FavoriteDTO(f.recipientName, f.id.recipientAccountId)
  }

  /** Favourites of one customer (same customer id) with the same DTO are the
      same favourite: the DTO keeps the recipient account id and the name. */
  lemma ToDTOSeparatesOneCustomer(f: FavRecipient, g: FavRecipient)
    requires f.id.customerId == g.id.customerId
    ensures ToDTO(f) == ToDTO(g) <==> f == g
  {
  }
}
