/**
 * The POST branches of `register` and `login`. Both clear the session before
 * anything else; only a login can put a user id into it.
 */
module Auth {
  import opened Wrappers
  import opened Ledger

  /** `len(rows) != 0` for `SELECT * FROM users WHERE username = ?` exactly when the name is taken. */
  lemma NamedRowsIffRegistered(us: seq<User>, name: string)
    ensures |UsersNamed(us, name)| != 0 <==> Registered(us, name)
  {
    if Registered(us, name) {
      var j :| 0 <= j < |us| && us[j].username == name;
      assert us[j] in UsersNamed(us, name);
    }
    if |UsersNamed(us, name)| != 0 {
      assert UsersNamed(us, name)[0] in us;
    }
  }

  /**
   * The POST branch of `register`. `hashOf` stands for the password hashing
   * function and `startCash` for the default the users table gives the cash
   * column, since the insert names only the username and the hash.
   */
  function Register(l: Ledger, hashOf: string -> string, startCash: nat,
                    username: string, password: string, confirmation: string): (r: Step)
    // the session is cleared on every path and never set
    ensures r.session == None
    // a refused registration writes nothing
    ensures r.failure.Some? ==> r.ledger == l
    // the checks, in the order they are made
    ensures username == "" ==> r.failure == Some(Apology(MustInsertUsername))
    ensures username != "" && (password == "" || confirmation == "") ==>
              r.failure == Some(Apology(MustInsertPassword))
    ensures username != "" && password != "" && confirmation != "" && Registered(l.users, username) ==>
              r.failure == Some(Apology(UsernameExists))
    ensures r.failure == Some(Apology(PasswordsDontMatch)) <==>
              username != "" && password != "" && confirmation != "" &&
              !Registered(l.users, username) && password != confirmation
    ensures r.failure.None? <==>
              username != "" && password != "" && password == confirmation && !Registered(l.users, username)
    // an accepted registration appends exactly one user row, with a fresh id
    ensures r.failure.None? ==>
              && |r.ledger.users| == |l.users| + 1
              && r.ledger.users[..|l.users|] == l.users
              && (var u := r.ledger.users[|l.users|];
                  && u.username == username && u.hash == hashOf(password) && u.cash == startCash
                  && (forall j :: 0 <= j < |l.users| ==> l.users[j].id != u.id))
              && r.ledger.holdings == l.holdings
              && r.ledger.log == l.log
  {
    NamedRowsIffRegistered(l.users, username);
    if username == "" then Step(l, None, Some(Apology(MustInsertUsername)))
    else if password == "" || confirmation == "" then Step(l, None, Some(Apology(MustInsertPassword)))
    else if |UsersNamed(l.users, username)| != 0 then Step(l, None, Some(Apology(UsernameExists)))
    else if password != confirmation then Step(l, None, Some(Apology(PasswordsDontMatch)))
    else
      var users := l.users + [User(NextId(l.users), username, hashOf(password), startCash)];
      assert users[..|l.users|] == l.users;
      Step(l.(users := users), None, None)
  }

  /**
   * The POST branch of `login`. `checkHash(hash, password)` stands for the
   * password hash check.
   */
  function Login(l: Ledger, checkHash: (string, string) -> bool, username: string, password: string): (r: Step)
    // logging in never writes to the tables
    ensures r.ledger == l
    ensures r.session.Some? <==> r.failure.None?
    ensures username == "" ==> r.failure == Some(Apology(MustProvideUsername))
    ensures username != "" && password == "" ==> r.failure == Some(Apology(MustProvidePassword))
    ensures username != "" && password != "" && r.failure.Some? ==> r.failure == Some(Apology(InvalidLogin))
    // a session is set exactly when one row has the username and its hash accepts the password
    ensures r.session.Some? <==>
              username != "" && password != "" &&
              exists i: nat :: SoleHolder(l.users, username, i) && checkHash(l.users[i].hash, password)
    ensures r.session.Some? ==>
              exists i: nat :: SoleHolder(l.users, username, i) && l.users[i].id == r.session.value
  {
    if username == "" then Step(l, None, Some(Apology(MustProvideUsername)))
    else if password == "" then Step(l, None, Some(Apology(MustProvidePassword)))
    else
      var rows := UsersNamed(l.users, username);
      OneNamedRow(l.users, username);
      if |rows| != 1 then Step(l, None, Some(Apology(InvalidLogin)))
      else
        if !checkHash(rows[0].hash, password) then Step(l, None, Some(Apology(InvalidLogin)))
        else Step(l, Some(rows[0].id), None)
  }

  /** An accepted registration keeps the ledger invariant and only grows the tables. */
  lemma RegisterKeepsValid(l: Ledger, hashOf: string -> string, startCash: nat,
                           username: string, password: string, confirmation: string)
    requires Valid(l)
    ensures var r := Register(l, hashOf, startCash, username, password, confirmation);
            Valid(r.ledger) && Grows(l, r.ledger)
  {
    var r := Register(l, hashOf, startCash, username, password, confirmation);
    if r.failure.None? {
      var us := r.ledger.users;
      assert us == l.users + [us[|l.users|]];
      assert Grows(l, r.ledger);
      GrowsKeepsRows(l, r.ledger, None);
    }
  }

  /** With unique usernames, a login succeeds exactly when the username is
      registered and the password checks against that user's hash. */
  lemma LoginUnderValid(l: Ledger, checkHash: (string, string) -> bool, username: string, password: string, i: nat)
    requires Valid(l) && i < |l.users| && l.users[i].username == username
    ensures var r := Login(l, checkHash, username, password);
            r.session.Some? <==> password != "" && username != "" && checkHash(l.users[i].hash, password)
    ensures var r := Login(l, checkHash, username, password);
            r.session.Some? ==> r.session.value == l.users[i].id
  {
    assert SoleHolder(l.users, username, i);
  }

  /** An unregistered username never logs in. */
  lemma NoLoginWithoutAccount(l: Ledger, checkHash: (string, string) -> bool, username: string, password: string)
    requires !Registered(l.users, username)
    ensures Login(l, checkHash, username, password).session == None
  {
  }

  /** Registering and then logging in with the same credentials logs in as the new
      user, provided the hash check accepts the hash made of the password. */
  lemma RegisterThenLogin(l: Ledger, hashOf: string -> string, checkHash: (string, string) -> bool,
                          startCash: nat, username: string, password: string)
    requires Register(l, hashOf, startCash, username, password, password).failure.None?
    requires checkHash(hashOf(password), password)
    ensures var r := Register(l, hashOf, startCash, username, password, password);
            Login(r.ledger, checkHash, username, password).session == Some(NextId(l.users))
  {
    var r := Register(l, hashOf, startCash, username, password, password);
    var us := r.ledger.users;
    var k := |l.users|;
    assert SoleHolder(us, username, k);
    OnlyNamedRow(us, username, k);
  }
}
