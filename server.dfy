/**
 * The server's two state-changing requests, written as the step-by-step
 * updates they perform on the two tables. `BEGIN` takes a snapshot of the
 * tables, each INSERT or UPDATE changes a table in place, `ROLLBACK` puts the
 * snapshot back and `COMMIT` keeps the changes.
 */
module Server {
  import opened Store
  import opened Payment
  import opened Registration

  class Bank {
    /** accounts.users */
    var users: map<AccountId, UserRow>
    /** accounts.transactions */
    var ledger: map<AccountId, LedgerRow>

    /** The database as a value. */
    function State(): Tables
      reads this
    {
      Tables(users, ledger)
    }

    /** The invariant every reachable database satisfies. */
    ghost predicate Invariant()
      reads this
    {
      Valid(State()) && Funded(State())
    }

    /** An empty database. */
    constructor ()
      ensures users == map[] && ledger == map[]
      ensures Invariant() && NonNegative(State())
    {
      users := map[];
      ledger := map[];
    }

    /** /signup */
    method Signup(account: AccountId, username: string, pin: Pin, date: Date) returns (success: bool)
      modifies this
      ensures Reply(State(), success) == Register(old(State()), account, username, pin, date)
      ensures !success ==> users == old(users) && ledger == old(ledger)
      ensures old(Invariant()) ==> Invariant()
      ensures old(NonNegative(State())) ==> NonNegative(State())
    {
      var savedUsers, savedLedger := users, ledger;  // BEGIN
      var failed := false;
      if account in users {
        failed := true;
      } else {
        users := users[account := UserRow(pin, username)];
        if account in ledger {
          failed := true;
        } else {
          ledger := ledger[account := LedgerRow(InitialBalance, [Record(Received, InitialBalance, date, InitialBalance)])];
        }
      }
      if failed {
        users, ledger := savedUsers, savedLedger;  // ROLLBACK
        success := false;
      } else {
        success := true;  // COMMIT
      }
      if old(Invariant()) {
        RegisterPreservesValid(old(State()), account, username, pin, date);
        RegisterPreservesFunded(old(State()), account, username, pin, date);
      }
    }

    /**
     * /pay from the session's account `sender` to `receiver`. `sentAt` and
     * `receivedAt` are the timestamps of the two records.
     */
    method Pay(sender: Option<AccountId>, receiver: AccountId, amount: int, pin: Pin,
               sentAt: Date, receivedAt: Date) returns (outcome: Outcome)
      modifies this
      ensures Reply(State(), outcome) == Transfer(old(State()), sender, receiver, amount, pin, sentAt, receivedAt)
      ensures outcome.Failure? ==> users == old(users) && ledger == old(ledger)
      ensures users == old(users) && Total(ledger) == Total(old(ledger))
      ensures old(Invariant()) ==> Invariant() && outcome != Failure(SenderNotFound)
      ensures amount >= 0 && old(NonNegative(State())) ==> NonNegative(State())
    {
      var savedLedger := ledger;  // BEGIN
      var error: Option<PayError> := None;
      if sender.None? || sender.value !in users || users[sender.value].pin != pin {
        error := Some(InvalidPin);
      } else if sender.value !in ledger {
        error := Some(SenderNotFound);
      } else {
        var s := sender.value;
        var senderBalance := ledger[s].balance;
        if senderBalance < amount {
          error := Some(InsufficientBalance);
        } else {
          var senderHistory := ledger[s].history + [Record(Sent, amount, sentAt, senderBalance - amount)];
          ledger := ledger[s := LedgerRow(ledger[s].balance - amount, senderHistory)];
          // the receiver's row is read after the sender's update
          if receiver !in ledger {
            error := Some(ReceiverNotFound);
          } else {
            var receiverBalance := ledger[receiver].balance;
            var receiverHistory := ledger[receiver].history + [Record(Received, amount, receivedAt, receiverBalance + amount)];
            ledger := ledger[receiver := LedgerRow(ledger[receiver].balance + amount, receiverHistory)];
          }
        }
      }
      if error.Some? {
        ledger := savedLedger;  // ROLLBACK
        outcome := Failure(error.value);
      } else {
        outcome := Success;  // COMMIT
      }
      assert Reply(State(), outcome) == Transfer(old(State()), sender, receiver, amount, pin, sentAt, receivedAt);
      TransferConservesTotal(old(State()), sender, receiver, amount, pin, sentAt, receivedAt);
      if old(Invariant()) {
        TransferPreservesValid(old(State()), sender, receiver, amount, pin, sentAt, receivedAt);
        TransferPreservesFunded(old(State()), sender, receiver, amount, pin, sentAt, receivedAt);
        ValidHasSenderRow(old(State()), sender, receiver, amount, pin, sentAt, receivedAt);
      }
      if amount >= 0 && old(NonNegative(State())) {
        TransferPreservesNonNegative(old(State()), sender, receiver, amount, pin, sentAt, receivedAt);
      }
    }
  }
}
