/**
 * The read-only requests: login (/submit), account search (/search),
 * balance (/user-balance) and history (/user-history). Each reads one table
 * and changes nothing.
 */
module Queries {
  import opened Store

  /**
   * /submit: the username of the account whose number and PIN both match.
   * On success the server records `account` as the session's account.
   */
  function Login(t: Tables, account: AccountId, pin: Pin): (r: Option<string>)
    ensures r.Some? <==> account in t.users && t.users[account].pin == pin
    ensures r.Some? ==> r.value == t.users[account].username
  {
    if account in t.users && t.users[account].pin == pin then Some(t.users[account].username) else None
  }

  /** /search: whether an account number exists, and whose it is. */
  function Search(t: Tables, account: AccountId): (r: Option<string>)
    ensures r.Some? <==> account in t.users
    ensures r.Some? ==> r.value == t.users[account].username
  {
    if account in t.users then Some(t.users[account].username) else None
  }

  /**
   * /user-balance: the balance of the session's account; None when there is
   * no session account or it has no ledger row ("Account not found.").
   */
  function Balance(t: Tables, session: Option<AccountId>): (r: Option<int>)
    ensures r.Some? <==> session.Some? && session.value in t.ledger
    ensures r.Some? ==> r.value == t.ledger[session.value].balance
  {
    if session.Some? && session.value in t.ledger then Some(t.ledger[session.value].balance) else None
  }

  /** One row of the /user-history answer. */
  datatype Statement = Statement(account: AccountId, balance: int, history: seq<Record>)

  /**
   * /user-history: the rows of the session's account, each with its balance
   * and its history; at most one row, since account numbers are keys.
   */
  function History(t: Tables, session: Option<AccountId>): (r: seq<Statement>)
    ensures |r| <= 1
    ensures |r| == 1 <==> session.Some? && session.value in t.ledger
    ensures |r| == 1 ==> r[0] == Statement(session.value, t.ledger[session.value].balance, t.ledger[session.value].history)
  {
    if session.Some? && session.value in t.ledger then
      var row := t.ledger[session.value];
      [Statement(session.value, row.balance, row.history)]
    else []
  }

  /**
   * In a consistent database the last record shown by /user-history carries
   * the balance shown by /user-balance.
   */
  lemma HistoryAgreesWithBalance(t: Tables, session: Option<AccountId>)
    requires Valid(t)
    requires Balance(t, session).Some?
    ensures |History(t, session)| == 1
    ensures var h := History(t, session)[0].history;
            |h| > 0 && h[|h| - 1].balanceAfter == Balance(t, session).value
  {
    LastRecordIsBalance(t.ledger[session.value]);
  }

  /** A successful login names an account that /search also finds, with the same username. */
  lemma LoginImpliesFound(t: Tables, account: AccountId, pin: Pin)
    requires Login(t, account, pin).Some?
    ensures Search(t, account) == Login(t, account, pin)
  {
  }
}
