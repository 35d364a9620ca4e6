/**
 * The two tables of the payment system, as values.
 *
 *  - accounts.users:        account number -> (UPI PIN, username)
 *  - accounts.transactions: account number -> (balance, history)
 *
 * A history is the list of transaction records of one account, oldest first.
 * Money is counted in integer minor units.
 */
module Store {

  type AccountId = string
  type Pin = string
  /** An ISO-8601 timestamp, treated as an opaque value supplied by the clock. */
  type Date = string

  datatype Option<T> = None | Some(value: T)

  /** The balance every new account starts with (and the amount of its first record). */
  const InitialBalance: int := 1000

  datatype Kind = Sent | Received

  /** One entry of a history: `{type, amount, date, balanceAfter}`. */
  datatype Record = Record(kind: Kind, amount: int, date: Date, balanceAfter: int)

  /** A row of accounts.users (the fields no logic reads are not kept). */
  datatype UserRow = UserRow(pin: Pin, username: string)

  /** A row of accounts.transactions. */
  datatype LedgerRow = LedgerRow(balance: int, history: seq<Record>)

  /** The whole database: both tables. */
  datatype Tables = Tables(users: map<AccountId, UserRow>, ledger: map<AccountId, LedgerRow>)

  /** What a request leaves behind: the database after it and the answer it gives. */
  datatype Reply<R> = Reply(tables: Tables, response: R)

  /** The change a record of this kind and amount makes to its account's balance. */
  function Effect(kind: Kind, amount: int): int
  {
    match kind
    case Sent => -amount
    case Received => amount
  }

  /** The balance obtained by applying a history, oldest first, to an empty account. */
  function Replay(h: seq<Record>): int
  {
    if h == [] then 0 else Replay(h[..|h| - 1]) + Effect(h[|h| - 1].kind, h[|h| - 1].amount)
  }

  /** Every record's balanceAfter is the balance reached by replaying the history up to it. */
  ghost predicate Tracks(h: seq<Record>)
  {
    forall i :: 0 <= i < |h| ==> h[i].balanceAfter == Replay(h[..i + 1])
  }

  /**
   * A ledger row is consistent when its history is not empty, every record's
   * balanceAfter is the running balance at that record, and replaying the
   * whole history gives the stored balance.
   */
  ghost predicate Consistent(row: LedgerRow)
  {
    |row.history| > 0 && Tracks(row.history) && Replay(row.history) == row.balance
  }

  /**
   * The database invariant: users and ledger rows come in pairs, and every
   * ledger row is consistent.
   */
  ghost predicate Valid(t: Tables)
  {
    t.users.Keys == t.ledger.Keys &&
    forall a :: a in t.ledger ==> Consistent(t.ledger[a])
  }

  /** No account holds a negative balance. */
  ghost predicate NonNegative(t: Tables)
  {
    forall a :: a in t.ledger ==> t.ledger[a].balance >= 0
  }

  /**
   * The row after one record of `kind` and `amount` is applied to it: the
   * balance moves by the record's effect and the record, carrying the new
   * balance as its balanceAfter, goes at the end of the history.
   */
  function Append(row: LedgerRow, kind: Kind, amount: int, date: Date): (r: LedgerRow)
    ensures r.balance == row.balance + Effect(kind, amount)
    ensures r.history == row.history + [Record(kind, amount, date, r.balance)]
    ensures |r.history| == |row.history| + 1 && r.history[..|row.history|] == row.history
  {
    var newBalance := row.balance + Effect(kind, amount);
    LedgerRow(newBalance, row.history + [Record(kind, amount, date, newBalance)])
  }

  /** In a consistent row the last record's balanceAfter is the balance. */
  lemma LastRecordIsBalance(row: LedgerRow)
    requires Consistent(row)
    ensures row.history[|row.history| - 1].balanceAfter == row.balance
  {
    var h := row.history;
    assert h[..|h|] == h;
  }

  /** Replaying a history with one more record adds that record's effect. */
  lemma ReplayAppend(h: seq<Record>, r: Record)
    ensures Replay(h + [r]) == Replay(h) + Effect(r.kind, r.amount)
  {
  }

  /** Applying a record keeps a consistent row consistent. */
  lemma {:induction false} AppendKeepsConsistent(row: LedgerRow, kind: Kind, amount: int, date: Date)
    requires Consistent(row)
    ensures Consistent(Append(row, kind, amount, date))
  {
    var h := row.history;
    var h' := Append(row, kind, amount, date).history;
    ReplayAppend(h, h'[|h|]);
    forall i | 0 <= i < |h'|
      ensures h'[i].balanceAfter == Replay(h'[..i + 1])
    {
      if i < |h| {
        assert h'[..i + 1] == h[..i + 1];
      } else {
        assert h'[..i + 1] == h';
      }
    }
  }

  /** The row a new account is created with: 1000, received once. */
  function InitialRow(date: Date): (row: LedgerRow)
    ensures row.balance == InitialBalance
    ensures row.history == [Record(Received, InitialBalance, date, InitialBalance)]
  {
    LedgerRow(InitialBalance, [Record(Received, InitialBalance, date, InitialBalance)])
  }

  /** A freshly created ledger row satisfies the consistency invariant. */
  lemma InitialRowConsistent(date: Date)
    ensures Consistent(InitialRow(date))
  {
  }

  // ---------------------------------------------------------------------
  // The sum of all balances

  ghost function PickAccount(m: map<AccountId, LedgerRow>): (a: AccountId)
    requires m != map[]
    ensures a in m
  {
    var a :| a in m; a
  }

  /** The sum of the balances of every account in the ledger. */
  ghost function Total(m: map<AccountId, LedgerRow>): int
    decreases |m|
  {
    if m == map[] then 0
    else
      var a := PickAccount(m);
      assert (m - {a}).Keys == m.Keys - {a};
      m[a].balance + Total(m - {a})
  }

  /** Total can be split at any account, not only at the one it picks. */
  lemma {:induction false} TotalRemove(m: map<AccountId, LedgerRow>, k: AccountId)
    requires k in m
    ensures Total(m) == m[k].balance + Total(m - {k})
    decreases |m|
  {
    var a := PickAccount(m);
    if a != k {
      assert (m - {a}).Keys == m.Keys - {a};
      assert (m - {k}).Keys == m.Keys - {k};
      TotalRemove(m - {a}, k);
      TotalRemove(m - {k}, a);
      assert m - {a} - {k} == m - {k} - {a};
    }
  }

  /** Replacing one row changes the total by the difference of the two balances. */
  lemma TotalUpdate(m: map<AccountId, LedgerRow>, k: AccountId, row: LedgerRow)
    requires k in m
    ensures Total(m[k := row]) == Total(m) - m[k].balance + row.balance
  {
    TotalRemove(m[k := row], k);
    TotalRemove(m, k);
    assert m[k := row] - {k} == m - {k};
  }

  /**
   * Money enters only through account creation: the balances add up to the
   * opening balance times the number of accounts.
   */
  ghost predicate Funded(t: Tables)
  {
    Total(t.ledger) == InitialBalance * |t.ledger|
  }

  /** Adding a new row adds its balance to the total. */
  lemma TotalInsert(m: map<AccountId, LedgerRow>, k: AccountId, row: LedgerRow)
    requires k !in m
    ensures Total(m[k := row]) == Total(m) + row.balance
  {
    TotalRemove(m[k := row], k);
    assert m[k := row] - {k} == m;
  }
}
