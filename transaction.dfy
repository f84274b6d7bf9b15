/** The Transaction entity: one ledger entry, attached to its sender account. */
module TransactionEntity {
  import opened Wrappers
  import opened AccountEntity

  /** A ledger entry. The two transfer operations fill different receiver
      fields: the id-based transfer sets `receiverId`, the number-based one
      sets `receiverNumber` and `receiverName`; the model carries all three,
      each as an Option. `sender` is the id of the sender account (the
      `@ManyToOne` account reference). The creation timestamp is left out. */
  datatype Transaction = Transaction(
    id: nat,
    sender: nat,
    currency: Currency,
    amountTransferred: Money,
    receiverId: Option<nat>,
    receiverNumber: Option<string>,
    receiverName: Option<string>)

  /** TransactionResponseDTO without its timestamp. */
  datatype TransactionDTO = TransactionDTO(
    id: nat,
    senderId: nat,
    currency: Currency,
    receiverId: Option<nat>,
    amountTransferred: Money)

  /** `Transaction.toDTO()`: `senderID` is the id of the sender account. */
  function ToDTO(t: Transaction): TransactionDTO
  {
    TransactionDTO(t.id, t.sender, t.currency, t.receiverId, t.amountTransferred)
  }

  /** The DTO keeps id, sender, currency, receiver id and amount, and drops
      exactly the receiver number and name: two entries have the same DTO iff
      they agree on everything else. */
  lemma ToDTOKeepsAllButReceiverAccount(t: Transaction, u: Transaction)
    ensures ToDTO(t) == ToDTO(u) <==>
            t.(receiverNumber := u.receiverNumber, receiverName := u.receiverName) == u
  {
  }

  /** The entries of `ledger` whose sender is account `accountId`, in ledger
      order: the rows `getUserTransactionsHistoryByAccountId` selects. */
  function SentBy(ledger: seq<Transaction>, accountId: nat): (h: seq<Transaction>)
    ensures |h| <= |ledger|
    ensures forall i | 0 <= i < |h| :: h[i].sender == accountId
  {
    if ledger == [] then []
    else (if ledger[0].sender == accountId then [ledger[0]] else []) + SentBy(ledger[1..], accountId)
  }

  /** The history of an account holds exactly the ledger entries it sent. */
  lemma {:induction false} SentByIsTheSendersEntries(ledger: seq<Transaction>, accountId: nat)
    ensures forall t :: t in SentBy(ledger, accountId) <==> t in ledger && t.sender == accountId
  {
    if ledger != [] {
      SentByIsTheSendersEntries(ledger[1..], accountId);
      assert ledger == [ledger[0]] + ledger[1..];
    }
  }

  /** Appending one entry extends the history of its sender by that entry and
      leaves every other account's history as it was. */
  lemma {:induction false} SentByAppend(ledger: seq<Transaction>, t: Transaction, accountId: nat)
    ensures SentBy(ledger + [t], accountId)
            == SentBy(ledger, accountId) + (if t.sender == accountId then [t] else [])
  {
    var tail := if t.sender == accountId then [t] else [];
    if ledger == [] {
      assert ledger + [t] == [t];
      assert [t][1..] == [];
    } else {
      var head := if ledger[0].sender == accountId then [ledger[0]] else [];
      assert (ledger + [t])[0] == ledger[0];
      assert (ledger + [t])[1..] == ledger[1..] + [t];
      SentByAppend(ledger[1..], t, accountId);
      calc {
        SentBy(ledger + [t], accountId);
        head + SentBy(ledger[1..] + [t], accountId);
        head + (SentBy(ledger[1..], accountId) + tail);
        (head + SentBy(ledger[1..], accountId)) + tail;
        SentBy(ledger, accountId) + tail;
      }
    }
  }
}
