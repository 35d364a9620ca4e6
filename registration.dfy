/**
 * /signup: create an account. Inside one database transaction the server
 * inserts the user row, then a ledger row holding 1000 with a history of one
 * Received record of 1000; if either insert fails both are rolled back.
 *
 * An insert is taken to fail exactly when its table already holds the
 * account number (a uniqueness constraint of the database schema).
 */
module Registration {
  import opened Store
  import opened Queries

  /** The database and the success flag after one /signup request taken at time `date`. */
  function Register(t: Tables, account: AccountId, username: string, pin: Pin, date: Date): (r: Reply<bool>)
    ensures !r.response ==> r.tables == t
    ensures r.response ==> account !in t.users && account !in t.ledger
  {
    if account in t.users then Reply(t, false)
    else
      var users := t.users[account := UserRow(pin, username)];
      if account in t.ledger then Reply(t, false)
      else Reply(Tables(users, t.ledger[account := InitialRow(date)]), true)
  }

  /**
   * A signup succeeds exactly when neither table holds the account number;
   * it then adds one user row and one ledger row with balance 1000 and history
   * [Received 1000, balanceAfter 1000], and changes no other row.
   */
  lemma RegisterCreatesAccount(t: Tables, account: AccountId, username: string, pin: Pin, date: Date)
    ensures var r := Register(t, account, username, pin, date);
      && (r.response <==> account !in t.users && account !in t.ledger)
      && (r.response ==>
            && r.tables.users == t.users[account := UserRow(pin, username)]
            && r.tables.ledger == t.ledger[account := LedgerRow(1000, [Record(Received, 1000, date, 1000)])])
  {
  }

  /**
   * After a successful signup the new account can log in with its PIN, is
   * found by /search, shows a balance of 1000 and a history of the one
   * opening record.
   */
  lemma RegisterThenQueries(t: Tables, account: AccountId, username: string, pin: Pin, date: Date)
    requires Register(t, account, username, pin, date).response
    ensures var t' := Register(t, account, username, pin, date).tables;
      && Login(t', account, pin) == Some(username)
      && Search(t', account) == Some(username)
      && Balance(t', Some(account)) == Some(1000)
      && History(t', Some(account)) == [Statement(account, 1000, [Record(Received, 1000, date, 1000)])]
  {
  }

  /** Signup keeps the database invariant. */
  lemma RegisterPreservesValid(t: Tables, account: AccountId, username: string, pin: Pin, date: Date)
    requires Valid(t)
    ensures Valid(Register(t, account, username, pin, date).tables)
  {
    InitialRowConsistent(date);
  }

  /** Provisioning is the one way money enters the ledger: a signup adds exactly 1000 to the total. */
  lemma RegisterAddsInitialBalance(t: Tables, account: AccountId, username: string, pin: Pin, date: Date)
    requires Register(t, account, username, pin, date).response
    ensures Total(Register(t, account, username, pin, date).tables.ledger) == Total(t.ledger) + InitialBalance
  {
    TotalInsert(t.ledger, account, InitialRow(date));
  }

  /** Signup keeps the total at the opening balance times the number of accounts. */
  lemma RegisterPreservesFunded(t: Tables, account: AccountId, username: string, pin: Pin, date: Date)
    requires Funded(t)
    ensures Funded(Register(t, account, username, pin, date).tables)
  {
    if Register(t, account, username, pin, date).response {
      RegisterAddsInitialBalance(t, account, username, pin, date);
      assert (t.ledger[account := InitialRow(date)]).Keys == t.ledger.Keys + {account};
    }
  }

  /** Signup keeps every balance non-negative. */
  lemma RegisterPreservesNonNegative(t: Tables, account: AccountId, username: string, pin: Pin, date: Date)
    requires NonNegative(t)
    ensures NonNegative(Register(t, account, username, pin, date).tables)
  {
  }
}
