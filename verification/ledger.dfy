/**
 * The persistent state the request handlers read and write: the `users`,
 * `holdings` and `transactions` tables, as one immutable value.
 *
 * Money is counted in cents. The database keeps cash and prices as decimal
 * dollar amounts; cents keep the whole-dollar truncation of the buy handler
 * visible while staying exact.
 */
module Ledger {
  import opened Wrappers

  type UserId = nat

  /** An amount of money in cents. */
  type Cents = int

  /** The date stamped on transactions; the application computes it once at start-up. */
  type Date = string

  /** A row of `users`. */
  datatype User = User(id: UserId, username: string, hash: string, cash: Cents)

  /** The `type` column of `transactions`: 'buy' or 'sell'. */
  datatype Kind = Bought | Sold

  /** A row of `transactions`; rows are only ever appended. */
  datatype Txn = Txn(username: string, symbol: string, quantity: int, price: nat, date: Date, kind: Kind)

  /** A holding is keyed by (username, symbol). */
  type Key = (string, string)

  datatype Ledger = Ledger(users: seq<User>, holdings: map<Key, int>, log: seq<Txn>)

  /** The server-side session: the logged-in user's id, if any. */
  type Session = Option<UserId>

  /** The message of an apology page. */
  datatype Reason =
    | InvalidInput           // "Invalid input"
    | CantAfford             // "Can't afford"
    | NotOwned               // "You don't own any of that stock"
    | NotEnoughShares        // "Not enough shares to complete transaction"
    | MustProvideUsername    // login: "must provide username"
    | MustProvidePassword    // login: "must provide password"
    | InvalidLogin           // login: "invalid username and/or password"
    | MustInsertUsername     // register: "Must insert username"
    | MustInsertPassword     // register: "Must insert password and confirmation"
    | UsernameExists         // register: "Username already exists"
    | PasswordsDontMatch     // register: "Passwords don't match"

  /** A Python exception a handler does not catch. */
  datatype PyError = ValueError | TypeError | IndexError

  /** Why a request changed nothing. */
  datatype Refusal =
    | RedirectToLogin        // the login gate: no user id in the session
    | Apology(reason: Reason)
    | Uncaught(error: PyError)

  /** What a request leaves behind: the ledger, the session and, if it was refused, why. */
  datatype Step = Step(ledger: Ledger, session: Session, failure: Option<Refusal>)

  /** Index of the first row of `SELECT * FROM users WHERE id = ?`. */
  function FindUser(us: seq<User>, id: UserId): (r: Option<nat>)
    ensures r.Some? ==> r.value < |us| && us[r.value].id == id
    ensures r.Some? ==> forall j :: 0 <= j < r.value ==> us[j].id != id
    ensures r.None? <==> forall j :: 0 <= j < |us| ==> us[j].id != id
  {
    if |us| == 0 then None
    else if us[0].id == id then Some(0)
    else match FindUser(us[1..], id)
      case None => None
      case Some(k) => Some(k + 1)
  }

  /** The rows of `SELECT * FROM users WHERE username = ?`, in table order. */
  function UsersNamed(us: seq<User>, name: string): (r: seq<User>)
    ensures |r| <= |us|
    ensures forall u :: u in r <==> u in us && u.username == name
  {
    if |us| == 0 then []
    else
      var last := us[|us| - 1];
      var init := us[..|us| - 1];
      assert us == init + [last];
      UsersNamed(init, name) + (if last.username == name then [last] else [])
  }

  /** The rows of `SELECT * FROM transactions WHERE username = ?`, in log order. */
  function TxnsOf(log: seq<Txn>, name: string): (r: seq<Txn>)
    ensures |r| <= |log|
    ensures forall t :: t in r <==> t in log && t.username == name
    // each row in the name is listed as often as it is logged
    ensures forall t :: multiset(r)[t] == if t.username == name then multiset(log)[t] else 0
  {
    if |log| == 0 then []
    else
      var last := log[|log| - 1];
      var init := log[..|log| - 1];
      assert log == init + [last];
      TxnsOf(init, name) + (if last.username == name then [last] else [])
  }

  /** Selecting from a log with one more row selects that row too, when it matches. */
  lemma {:induction false} TxnsOfAppend(log: seq<Txn>, t: Txn, name: string)
    ensures TxnsOf(log + [t], name) == TxnsOf(log, name) + (if t.username == name then [t] else [])
  {
    assert (log + [t])[..|log|] == log;
  }

  /** `UPDATE users SET cash = ? WHERE id = ?` */
  function SetCashById(us: seq<User>, id: UserId, cash: Cents): (r: seq<User>)
    ensures |r| == |us|
    ensures forall j :: 0 <= j < |us| && us[j].id != id ==> r[j] == us[j]
    ensures forall j :: 0 <= j < |us| && us[j].id == id ==> r[j] == us[j].(cash := cash)
  {
    seq(|us|, j requires 0 <= j < |us| => if us[j].id == id then us[j].(cash := cash) else us[j])
  }

  /** `UPDATE users SET cash = ? WHERE username = ?` */
  function SetCashByName(us: seq<User>, name: string, cash: Cents): (r: seq<User>)
    ensures |r| == |us|
    ensures forall j :: 0 <= j < |us| && us[j].username != name ==> r[j] == us[j]
    ensures forall j :: 0 <= j < |us| && us[j].username == name ==> r[j] == us[j].(cash := cash)
  {
    seq(|us|, j requires 0 <= j < |us| => if us[j].username == name then us[j].(cash := cash) else us[j])
  }

  /** The quantity held under a key; a missing row means nothing is held. */
  function Held(l: Ledger, key: Key): int {
    if key in l.holdings then l.holdings[key] else 0
  }

  /** The largest id in the table, 0 when it is empty. */
  function MaxId(us: seq<User>): (m: nat)
    ensures forall j :: 0 <= j < |us| ==> us[j].id <= m
    ensures |us| > 0 ==> exists j :: 0 <= j < |us| && us[j].id == m
  {
    if |us| == 0 then 0
    else
      var m := MaxId(us[1..]);
      if us[0].id > m then us[0].id else m
  }

  /** The id SQLite gives the next inserted row: one more than the largest. */
  function NextId(us: seq<User>): (id: UserId)
    ensures forall j :: 0 <= j < |us| ==> us[j].id != id
  {
    MaxId(us) + 1
  }

  predicate Registered(us: seq<User>, name: string) {
    exists j :: 0 <= j < |us| && us[j].username == name
  }

  predicate UniqueIds(us: seq<User>) {
    forall i, j :: 0 <= i < j < |us| ==> us[i].id != us[j].id
  }

  predicate UniqueNames(us: seq<User>) {
    forall i, j :: 0 <= i < j < |us| ==> us[i].username != us[j].username
  }

  /**
   * What the handlers keep true together: ids and usernames identify one row,
   * nobody's cash and no holding is negative, and every holding and every
   * transaction belongs to a registered user.
   */
  predicate Valid(l: Ledger) {
    && UniqueIds(l.users)
    && UniqueNames(l.users)
    && (forall j :: 0 <= j < |l.users| ==> l.users[j].cash >= 0)
    && (forall k :: k in l.holdings ==> l.holdings[k] >= 0)
    && (forall k :: k in l.holdings ==> Registered(l.users, k.0))
    && (forall t :: t in l.log ==> Registered(l.users, t.username))
  }

  /** With unique ids, updating by id rewrites exactly the one row with that id. */
  lemma SetCashByIdOneRow(us: seq<User>, i: nat, cash: Cents)
    requires UniqueIds(us) && i < |us|
    ensures SetCashById(us, us[i].id, cash) == us[i := us[i].(cash := cash)]
  {
    var r := SetCashById(us, us[i].id, cash);
    forall j | 0 <= j < |us| ensures r[j] == us[i := us[i].(cash := cash)][j] {
      if j < i {
        assert us[j].id != us[i].id;
      } else if j > i {
        assert us[i].id != us[j].id;
      }
    }
  }

  /** With unique usernames, updating by username rewrites exactly the one row with that name. */
  lemma SetCashByNameOneRow(us: seq<User>, i: nat, cash: Cents)
    requires UniqueNames(us) && i < |us|
    ensures SetCashByName(us, us[i].username, cash) == us[i := us[i].(cash := cash)]
  {
    var r := SetCashByName(us, us[i].username, cash);
    forall j | 0 <= j < |us| ensures r[j] == us[i := us[i].(cash := cash)][j] {
      if j < i {
        assert us[j].username != us[i].username;
      } else if j > i {
        assert us[i].username != us[j].username;
      }
    }
  }

  /** Selecting a username nobody carries returns no rows. */
  lemma {:induction false} NoNamedRows(us: seq<User>, name: string)
    requires forall j :: 0 <= j < |us| ==> us[j].username != name
    ensures UsersNamed(us, name) == []
  {
    if |us| > 0 {
      NoNamedRows(us[..|us| - 1], name);
    }
  }

  /** Row i is the one and only row of the users table that carries the username. */
  predicate SoleHolder(us: seq<User>, name: string, i: nat) {
    i < |us| && us[i].username == name &&
    forall j :: 0 <= j < |us| && us[j].username == name ==> j == i
  }

  /** The one row that carries a username is all that selecting by that username returns. */
  lemma {:induction false} OnlyNamedRow(us: seq<User>, name: string, i: nat)
    requires SoleHolder(us, name, i)
    ensures UsersNamed(us, name) == [us[i]]
  {
    var init := us[..|us| - 1];
    if i < |us| - 1 {
      OnlyNamedRow(init, name, i);
    } else {
      NoNamedRows(init, name);
    }
  }

  /** When selecting by a username returns one row, that row is the only one carrying it. */
  lemma {:induction false} SingleNamedRow(us: seq<User>, name: string) returns (i: nat)
    requires |UsersNamed(us, name)| == 1
    ensures SoleHolder(us, name, i)
  {
    var last := us[|us| - 1];
    var init := us[..|us| - 1];
    if last.username == name {
      i := |us| - 1;
      assert |UsersNamed(init, name)| == 0;
    } else {
      i := SingleNamedRow(init, name);
    }
  }

  /**
   * `len(rows) == 1` for `SELECT * FROM users WHERE username = ?` holds exactly
   * when one row of the table carries that username, and then that row is `rows[0]`.
   */
  lemma OneNamedRow(us: seq<User>, name: string)
    ensures |UsersNamed(us, name)| == 1 <==> exists i: nat :: SoleHolder(us, name, i)
    ensures forall i: nat :: SoleHolder(us, name, i) ==> UsersNamed(us, name) == [us[i]]
  {
    if |UsersNamed(us, name)| == 1 {
      var i := SingleNamedRow(us, name);
    }
    forall i: nat | SoleHolder(us, name, i) ensures UsersNamed(us, name) == [us[i]] {
      OnlyNamedRow(us, name, i);
    }
  }

  /** Rewriting cash keeps every row's id, so finding a row by id gives the same answer. */
  lemma {:induction false} FindUserSameIds(a: seq<User>, b: seq<User>, id: UserId)
    requires |a| == |b| && forall j :: 0 <= j < |a| ==> a[j].id == b[j].id
    ensures FindUser(a, id) == FindUser(b, id)
  {
    if |a| > 0 && a[0].id != id {
      FindUserSameIds(a[1..], b[1..], id);
    }
  }

  /** Table growth: no user row is deleted, renamed or re-keyed, no holding row
      is deleted, and the transaction log only gains rows at its end. */
  predicate Grows(before: Ledger, after: Ledger) {
    && |before.users| <= |after.users|
    && (forall j :: 0 <= j < |before.users| ==>
          && after.users[j].id == before.users[j].id
          && after.users[j].username == before.users[j].username
          && after.users[j].hash == before.users[j].hash)
    && before.holdings.Keys <= after.holdings.Keys
    && before.log <= after.log
  }

  /** A session is sound when the user it names still has a row. */
  predicate SessionOk(l: Ledger, s: Session) {
    s.None? || FindUser(l.users, s.value).Some?
  }

  /** Registered users stay registered and sound sessions stay sound as the tables grow. */
  lemma GrowsKeepsRows(before: Ledger, after: Ledger, s: Session)
    requires Grows(before, after)
    ensures forall name :: Registered(before.users, name) ==> Registered(after.users, name)
    ensures SessionOk(before, s) ==> SessionOk(after, s)
  {
    if s.Some? && FindUser(before.users, s.value).Some? {
      var i := FindUser(before.users, s.value).value;
      assert after.users[i].id == s.value;
    }
    forall name | Registered(before.users, name) ensures Registered(after.users, name) {
      var j :| 0 <= j < |before.users| && before.users[j].username == name;
      assert after.users[j].username == name;
    }
  }
}
