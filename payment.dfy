/**
 * /pay: move `amount` from the session's account to `receiver`.
 *
 * Inside one database transaction the server checks, in this order, the
 * sender's PIN, the sender's ledger row and the sender's balance; it then
 * debits the sender and appends a Sent record, reads the receiver's row (so
 * a payment to oneself sees the debit), and credits the receiver and appends
 * a Received record. Any failure rolls the whole transaction back.
 */
module Payment {
  import opened Store
  import opened Queries

  /** The four ways a payment can be refused. */
  datatype PayError = InvalidPin | SenderNotFound | InsufficientBalance | ReceiverNotFound

  datatype Outcome = Success | Failure(error: PayError)

  /** The message the server answers each refusal with. */
  function Message(e: PayError): string
  {
    match e
    case InvalidPin => "Invalid UPI PIN."
    case SenderNotFound => "Sender account not found."
    case InsufficientBalance => "Insufficient balance."
    case ReceiverNotFound => "Receiver account not found."
  }

  /**
   * The PIN check: it fails when the session's account has no user row, and
   * otherwise passes exactly when that row's PIN is `pin`.
   */
  predicate Authorized(users: map<AccountId, UserRow>, sender: Option<AccountId>, pin: Pin)
    ensures Authorized(users, sender, pin) ==> sender.Some? && sender.value in users
    ensures sender.Some? && sender.value in users ==>
              (Authorized(users, sender, pin) <==> users[sender.value].pin == pin)
  {
    sender.Some? && sender.value in users && users[sender.value].pin == pin
  }

  /**
   * The database and the answer after one /pay request. `sentAt` and
   * `receivedAt` are the two timestamps the server takes when it builds the
   * two records.
   */
  function Transfer(t: Tables, sender: Option<AccountId>, receiver: AccountId, amount: int, pin: Pin,
                    sentAt: Date, receivedAt: Date): (r: Reply<Outcome>)
    ensures r.response.Failure? ==> r.tables == t
    ensures r.tables.users == t.users && r.tables.ledger.Keys == t.ledger.Keys
  {
    if !Authorized(t.users, sender, pin) then Reply(t, Failure(InvalidPin))
    else if sender.value !in t.ledger then Reply(t, Failure(SenderNotFound))
    else if t.ledger[sender.value].balance < amount then Reply(t, Failure(InsufficientBalance))
    else
      var debited := t.ledger[sender.value := Append(t.ledger[sender.value], Sent, amount, sentAt)];
      if receiver !in debited then Reply(t, Failure(ReceiverNotFound))
      else
        var credited := debited[receiver := Append(debited[receiver], Received, amount, receivedAt)];
        Reply(Tables(t.users, credited), Success)
  }

  /** Distinct refusals are reported with distinct messages. */
  lemma MessagesDistinct(e1: PayError, e2: PayError)
    ensures Message(e1) == Message(e2) ==> e1 == e2
  {
  }

  /**
   * The checks run in a fixed order and the error reported is the first one
   * that fails: PIN, sender row, balance, receiver row.
   */
  lemma TransferFirstFailingCheck(t: Tables, sender: Option<AccountId>, receiver: AccountId, amount: int,
                                  pin: Pin, sentAt: Date, receivedAt: Date)
    ensures var o := Transfer(t, sender, receiver, amount, pin, sentAt, receivedAt).response;
      && (o == Failure(InvalidPin) <==> !Authorized(t.users, sender, pin))
      && (o == Failure(SenderNotFound) <==>
            Authorized(t.users, sender, pin) && sender.value !in t.ledger)
      && (o == Failure(InsufficientBalance) <==>
            Authorized(t.users, sender, pin) && sender.value in t.ledger &&
            t.ledger[sender.value].balance < amount)
      && (o == Failure(ReceiverNotFound) <==>
            Authorized(t.users, sender, pin) && sender.value in t.ledger &&
            t.ledger[sender.value].balance >= amount && receiver !in t.ledger)
      && (o == Success <==>
            Authorized(t.users, sender, pin) && sender.value in t.ledger &&
            t.ledger[sender.value].balance >= amount && receiver in t.ledger)
  {
  }

  /** The PIN check of /pay accepts exactly the credentials that /submit logs in with. */
  lemma PinCheckIsLogin(t: Tables, sender: AccountId, receiver: AccountId, amount: int, pin: Pin,
                        sentAt: Date, receivedAt: Date)
    ensures Transfer(t, Some(sender), receiver, amount, pin, sentAt, receivedAt).response != Failure(InvalidPin)
            <==> Login(t, sender, pin).Some?
  {
  }

  /** With no session account there is no sender, and the PIN check fails. */
  lemma NoSessionIsInvalidPin(t: Tables, receiver: AccountId, amount: int, pin: Pin, sentAt: Date, receivedAt: Date)
    ensures Transfer(t, None, receiver, amount, pin, sentAt, receivedAt) == Reply(t, Failure(InvalidPin))
  {
  }

  /** In a valid database every user has a ledger row, so "Sender account not found." never happens. */
  lemma ValidHasSenderRow(t: Tables, sender: Option<AccountId>, receiver: AccountId, amount: int, pin: Pin,
                          sentAt: Date, receivedAt: Date)
    requires Valid(t)
    ensures Transfer(t, sender, receiver, amount, pin, sentAt, receivedAt).response != Failure(SenderNotFound)
  {
  }

  /**
   * A successful payment between two accounts lowers the sender's balance by
   * `amount`, raises the receiver's by `amount` (so their sum is unchanged),
   * appends one Sent record to the sender's history and one Received record to
   * the receiver's, each carrying the amount and the new balance, and leaves
   * every other account's row as it was.
   */
  lemma TransferBetweenTwoAccounts(t: Tables, s: AccountId, receiver: AccountId, amount: int, pin: Pin,
                                   sentAt: Date, receivedAt: Date)
    requires s != receiver
    requires Transfer(t, Some(s), receiver, amount, pin, sentAt, receivedAt).response == Success
    ensures var l := t.ledger;
            var l' := Transfer(t, Some(s), receiver, amount, pin, sentAt, receivedAt).tables.ledger;
      && s in l && receiver in l && l'.Keys == l.Keys
      && l'[s].balance == l[s].balance - amount
      && l'[receiver].balance == l[receiver].balance + amount
      && l'[s].balance + l'[receiver].balance == l[s].balance + l[receiver].balance
      && l'[s].history == l[s].history + [Record(Sent, amount, sentAt, l'[s].balance)]
      && l'[receiver].history == l[receiver].history + [Record(Received, amount, receivedAt, l'[receiver].balance)]
      && (forall a :: a in l && a != s && a != receiver ==> l'[a] == l[a])
  {
  }

  /**
   * A successful payment to oneself leaves the balance where it was and
   * appends two records: the Sent record with the debited balance, then the
   * Received record with the restored balance. No other row changes.
   */
  lemma TransferToSelf(t: Tables, s: AccountId, amount: int, pin: Pin, sentAt: Date, receivedAt: Date)
    requires Transfer(t, Some(s), s, amount, pin, sentAt, receivedAt).response == Success
    ensures var l := t.ledger;
            var l' := Transfer(t, Some(s), s, amount, pin, sentAt, receivedAt).tables.ledger;
      && s in l && l'.Keys == l.Keys
      && l'[s].balance == l[s].balance
      && l'[s].history == l[s].history + [Record(Sent, amount, sentAt, l[s].balance - amount),
                                          Record(Received, amount, receivedAt, l[s].balance)]
      && (forall a :: a in l && a != s ==> l'[a] == l[a])
  {
  }

  /** A payment never creates or destroys money: the sum of all balances is unchanged. */
  lemma TransferConservesTotal(t: Tables, sender: Option<AccountId>, receiver: AccountId, amount: int, pin: Pin,
                               sentAt: Date, receivedAt: Date)
    ensures Total(Transfer(t, sender, receiver, amount, pin, sentAt, receivedAt).tables.ledger) == Total(t.ledger)
  {
    var r := Transfer(t, sender, receiver, amount, pin, sentAt, receivedAt);
    if r.response == Success {
      var s := sender.value;
      var debited := t.ledger[s := Append(t.ledger[s], Sent, amount, sentAt)];
      TotalUpdate(t.ledger, s, debited[s]);
      TotalUpdate(debited, receiver, Append(debited[receiver], Received, amount, receivedAt));
    }
  }

  /**
   * A payment keeps the database invariant: users and ledger rows still come
   * in pairs, and every history still replays to its balance with the last
   * balanceAfter equal to the balance.
   */
  lemma TransferPreservesValid(t: Tables, sender: Option<AccountId>, receiver: AccountId, amount: int, pin: Pin,
                               sentAt: Date, receivedAt: Date)
    requires Valid(t)
    ensures Valid(Transfer(t, sender, receiver, amount, pin, sentAt, receivedAt).tables)
  {
    var r := Transfer(t, sender, receiver, amount, pin, sentAt, receivedAt);
    if r.response == Success {
      var s := sender.value;
      AppendKeepsConsistent(t.ledger[s], Sent, amount, sentAt);
      var debited := t.ledger[s := Append(t.ledger[s], Sent, amount, sentAt)];
      AppendKeepsConsistent(debited[receiver], Received, amount, receivedAt);
    }
  }

  /** A payment keeps the total at the opening balance times the number of accounts. */
  lemma TransferPreservesFunded(t: Tables, sender: Option<AccountId>, receiver: AccountId, amount: int, pin: Pin,
                                sentAt: Date, receivedAt: Date)
    requires Funded(t)
    ensures Funded(Transfer(t, sender, receiver, amount, pin, sentAt, receivedAt).tables)
  {
    var l' := Transfer(t, sender, receiver, amount, pin, sentAt, receivedAt).tables.ledger;
    TransferConservesTotal(t, sender, receiver, amount, pin, sentAt, receivedAt);
    assert |l'| == |l'.Keys| == |t.ledger.Keys| == |t.ledger|;
  }

  /** On success the sender's balance after the debit is not negative. */
  lemma SentRecordNonNegative(t: Tables, sender: Option<AccountId>, receiver: AccountId, amount: int, pin: Pin,
                              sentAt: Date, receivedAt: Date)
    requires Transfer(t, sender, receiver, amount, pin, sentAt, receivedAt).response == Success
    ensures var h := Transfer(t, sender, receiver, amount, pin, sentAt, receivedAt).tables.ledger[sender.value].history;
            var sent := h[|t.ledger[sender.value].history|];
            sent.kind == Sent && sent.amount == amount && sent.balanceAfter >= 0
  {
  }

  /**
   * Assuming a non-negative amount (the server does not check it), a payment
   * keeps every balance non-negative.
   */
  lemma TransferPreservesNonNegative(t: Tables, sender: Option<AccountId>, receiver: AccountId, amount: int,
                                     pin: Pin, sentAt: Date, receivedAt: Date)
    requires amount >= 0
    requires NonNegative(t)
    ensures NonNegative(Transfer(t, sender, receiver, amount, pin, sentAt, receivedAt).tables)
  {
  }

  /** Two accounts holding 1000 each; "A" has PIN "1234". */
  function TwoAccounts(date: Date): Tables
  {
    Tables(map["A" := UserRow("1234", "Alice"), "B" := UserRow("5678", "Bob")],
           map["A" := InitialRow(date), "B" := InitialRow(date)])
  }

  /** A pays 300 to B: A ends with 700 and B with 1300, each with one new record. */
  lemma PayThreeHundred(date: Date, sentAt: Date, receivedAt: Date)
    ensures var r := Transfer(TwoAccounts(date), Some("A"), "B", 300, "1234", sentAt, receivedAt);
      && r.response == Success
      && r.tables.ledger["A"] == LedgerRow(700, [Record(Received, 1000, date, 1000), Record(Sent, 300, sentAt, 700)])
      && r.tables.ledger["B"] == LedgerRow(1300, [Record(Received, 1000, date, 1000), Record(Received, 300, receivedAt, 1300)])
  {
  }

  /**
   * The amount is never checked for sign: a "payment" of -1500 from A to B
   * succeeds, raises A's balance and leaves B's negative, without B's PIN.
   */
  lemma NegativeAmountDrainsReceiver(date: Date, sentAt: Date, receivedAt: Date)
    ensures NonNegative(TwoAccounts(date))
    ensures var r := Transfer(TwoAccounts(date), Some("A"), "B", -1500, "1234", sentAt, receivedAt);
      && r.response == Success
      && r.tables.ledger["A"].balance == 2500
      && r.tables.ledger["B"].balance == -500
      && !NonNegative(r.tables)
  {
  }
}
