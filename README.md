# Payment-system ledger, modelled in Dafny

This project models the ledger behind the payment server in `server.js`. The
model leaves out Express, PostgreSQL and the session store and keeps the two
tables they hold as Dafny values:

- `accounts.users`: account number ↦ (UPI PIN, username);
- `accounts.transactions`: account number ↦ (balance, history). A history is
  the list of records `{type: Sent | Received, amount, date, balanceAfter}`,
  oldest first.

The operations are modelled as follows:

- `/pay` moves money from the session's account to a receiver. The checks run
  in this order: the PIN, the sender's ledger row, the sender's balance, the
  receiver's ledger row. The server debits the sender and appends a Sent
  record. It then reads the receiver's row from the post-debit state and
  credits it with a Received record. Any error rolls the transaction back.
- `/signup` inserts a user row, then a ledger row holding 1000 with a one-record
  history. A failure of either insert rolls back both.
- `/submit` (login), `/search`, `/user-balance` and `/user-history` are reads.

Files:

- `store.dfy` (module `Store`): the tables and the history-replay invariant
  `Consistent`. Replaying a history from zero gives the balance, and every
  `balanceAfter` is the running balance at its record. Also holds the sum of
  all balances, `Total`.
- `queries.dfy` (module `Queries`): the four reads, as functions.
- `payment.dfy` (module `Payment`): `Transfer`, the database and the answer
  after one `/pay`, and the properties proved about it.
- `registration.dfy` (module `Registration`): `Register`, the same for
  `/signup`.
- `server.dfy` (module `Server`): class `Bank`, which holds the two tables as
  fields. Its `Pay` and `Signup` methods update them step by step:
  - a snapshot at `BEGIN`;
  - in-place INSERT and UPDATE;
  - the snapshot restored at `ROLLBACK`.

  Each method is proved equal to its specification function. Each also keeps
  the class invariant: rows come in pairs, every history is consistent, and
  the total equals 1000 times the number of accounts.

The model makes these choices:

- Amounts are whole numbers of minor units (`int`).
- The session account is an explicit `Option<AccountId>` argument. `None` fails
  the PIN check, as an empty lookup does in the source.
- The two `new Date()` calls in `/pay` become two opaque date arguments,
  `sentAt` and `receivedAt`.
- An insert at signup is taken to fail exactly when its table already has the
  account number. The database schema is not part of this model, so this is
  an assumption.

The server never checks the amount. A negative amount is accepted; see
`NegativeAmountDrainsReceiver`. A payment to oneself is not refused either.
It runs as the sequential code does: the balance ends where it started, and
two records are appended. The refusals are reported with the messages
"Invalid UPI PIN.", "Sender account not found.", "Insufficient balance." and
"Receiver account not found.".

## Model

| member | source | states |
|---|---|---|
| `Store.InitialRow` | server.js:57-71 | a new ledger row holds 1000 and the single record (Received, 1000, date, balanceAfter 1000) |
| `Store.InitialRowConsistent` | server.js:57-64 | the opening row satisfies the history invariant: its history replays to its balance |
| `Store.AppendKeepsConsistent` | server.js:166-177 | appending a record whose balanceAfter is the old balance plus the record's effect keeps a consistent row consistent |
| `Store.LastRecordIsBalance` | server.js:169-174 | in a consistent row the last record's balanceAfter equals the balance |
| `Store.Append` | server.js:166-179 | applying one record moves the balance by the record's effect and appends exactly one record at the end, carrying the new balance as its balanceAfter; earlier records are kept |
| `Queries.Login` | server.js:90-99 | login yields a username exactly when the account exists and its PIN matches, and the username is that account's |
| `Queries.Search` | server.js:115-123 | search reports existence exactly when the account number is in the users table, with its username |
| `Queries.Balance` | server.js:219-229 | the balance is shown exactly when there is a session account with a ledger row, and it is that row's balance |
| `Queries.History` | server.js:243-263 | at most one statement is returned. It is present exactly when the session account has a ledger row, and it carries that row's balance and history |
| `Queries.HistoryAgreesWithBalance` | server.js:243-262 | in a valid database the last history record shown carries the balance that /user-balance shows |
| `Queries.LoginImpliesFound` | server.js:90-123 | an account that can log in is found by search, with the same username |
| `Payment.Transfer` | server.js:132-212 | a refused payment leaves both tables exactly as they were; no payment touches the users table or adds or removes an account |
| `Payment.Authorized` | server.js:141-148 | the PIN check fails when the session account has no user row, and otherwise passes exactly when the stored PIN equals the given one |
| `Payment.MessagesDistinct` | server.js:146-189 | the four refusals are reported with four different messages |
| `Payment.TransferFirstFailingCheck` | server.js:146-189 | each outcome holds exactly when the earlier checks pass and its own fails, in the order PIN, sender row, balance, receiver row; success exactly when all four pass |
| `Payment.PinCheckIsLogin` | server.js:141-148 | with PINs stored and sent as text and compared exactly, the PIN check of /pay passes exactly when /submit would log the sender in with that PIN |
| `Payment.NoSessionIsInvalidPin` | server.js:134-148 | with no session account the payment fails with "Invalid UPI PIN." and changes nothing |
| `Payment.ValidHasSenderRow` | server.js:151-158 | in a database whose users all have ledger rows, "Sender account not found." never occurs |
| `Payment.TransferBetweenTwoAccounts` | server.js:166-203 | on success between two accounts: the sender loses the amount and the receiver gains it, so their sum is conserved. One Sent and one Received record are appended, each with the amount and the new balance. Earlier records and all other rows are unchanged |
| `Payment.TransferToSelf` | server.js:166-203 | on success to oneself: the balance is unchanged. Two records are appended, Sent with balance minus amount and then Received with the original balance. Other rows are unchanged |
| `Payment.TransferConservesTotal` | server.js:176-203 | the sum of all balances is the same after any payment, successful or not |
| `Payment.TransferPreservesValid` | server.js:166-203 | a payment keeps users and ledger rows paired and every history consistent, so the last balanceAfter stays equal to the balance |
| `Payment.TransferPreservesFunded` | server.js:176-203 | a payment keeps the total equal to 1000 times the number of accounts |
| `Payment.SentRecordNonNegative` | server.js:160-174 | on success the appended Sent record carries the amount and a balanceAfter that is not negative |
| `Payment.TransferPreservesNonNegative` | server.js:160-203 | assuming the amount is not negative, a payment keeps every balance non-negative |
| `Payment.PayThreeHundred` | server.js:166-203 | A pays 300 to B, both starting at 1000: A ends at 700 with a Sent record and B at 1300 with a Received record |
| `Payment.NegativeAmountDrainsReceiver` | server.js:160-203 | a negative amount passes every check: paying -1500 from A to B succeeds and leaves B at -500 |
| `Registration.Register` | server.js:42-82 | a failed signup leaves both tables unchanged; a successful one only happens for an account number absent from both tables |
| `Registration.RegisterCreatesAccount` | server.js:46-75 | signup succeeds exactly when neither table has the account. It then adds exactly the user row and the ledger row (1000, [Received 1000, balanceAfter 1000]) |
| `Registration.RegisterThenQueries` | server.js:57-71 | after signup the account logs in with its PIN, is found by search, shows balance 1000 and a history of the one opening record |
| `Registration.RegisterPreservesValid` | server.js:46-75 | signup keeps users and ledger rows paired and every history consistent |
| `Registration.RegisterAddsInitialBalance` | server.js:68-71 | a successful signup adds exactly 1000 to the sum of all balances |
| `Registration.RegisterPreservesFunded` | server.js:68-71 | signup keeps the total equal to 1000 times the number of accounts |
| `Registration.RegisterPreservesNonNegative` | server.js:68-71 | signup keeps every balance non-negative |
| `Server.Bank.Signup` | server.js:42-82 | the in-place inserts with rollback give exactly the state and answer of `Register`. On failure neither table changes. The class invariant is kept |
| `Server.Bank.Pay` | server.js:132-212 | the in-place debit, post-debit receiver read, credit and rollback give exactly the state and answer of `Transfer`. On failure neither table changes. The users table and the total are unchanged. The class invariant is kept, and under it "Sender account not found." never occurs. Non-negative balances are kept for a non-negative amount |

## Left out

- HTTP routing, body parsing, CORS, static files and page rendering are left
  out. Responses are reduced to the outcome. For `/pay` that is the error
  kind, whose message text is given by `Payment.Message`.
- The session store is left out. The sender is an explicit optional
  argument. The model does not set the session on login; a successful
  `Login` is where the server would record the account in the session.
- The connection pool, SQL text, `FOR UPDATE` row locks and concurrent
  requests are left out. Each request is one atomic step. The model does not
  capture deadlock between opposite payments, nor `BEGIN`/`COMMIT` being sent
  on possibly different pooled connections.
- Store errors are left out: connection loss, and constraint failures other
  than a duplicate account number. In the source these take the rollback path
  and give a message the model does not produce.
- `parseFloat` and floating-point money are left out. Amounts are integers,
  so NaN amounts and rounding are not modelled.
- The JSON encoding of histories is left out, along with the `|| '[]'` and
  parse-failure fallbacks. A history is a sequence of records, and a missing
  history is the empty sequence.
- `new Date().toISOString()` is left out. Dates are opaque arguments.
- The fields `date_of_birth`, `phone_number` and `address` are left out. No
  logic reads them.
- Signup failure on a duplicate account number is an assumption. The
  uniqueness constraints of the schema are not part of this model.
- `Payment.TransferPreservesNonNegative`: proved only under `amount >= 0`,
  because the source never rejects negative amounts (see
  `Payment.NegativeAmountDrainsReceiver`).
- `Payment.PinCheckIsLogin`: assumes PINs are text, sent as strings and
  compared exactly. /submit compares in SQL, converting the request value to
  the column's type (server.js:91). /pay compares in JavaScript with `!==`
  against the value the driver returns (server.js:146). With a numeric or
  padded `char(n)` PIN column, or a PIN sent as a JSON number, the two checks
  disagree: login succeeds and every payment fails with "Invalid UPI PIN.".
  The schema is not part of this model.
