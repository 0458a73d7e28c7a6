/**
 * The ledger invariant is kept by every ledger handler, and what each
 * handler appends to the log shows up in exactly one user's history.
 */
module Invariants {
  import opened Wrappers
  import opened PyText
  import opened Ledger
  import opened Trading

  /** Rewriting the cash of one row, to a non-negative amount, keeps the invariant
      and grows the tables. */
  lemma CashRewriteKeepsValid(l: Ledger, i: nat, cash: Cents)
    requires Valid(l) && i < |l.users| && cash >= 0
    ensures Valid(l.(users := l.users[i := l.users[i].(cash := cash)]))
    ensures Grows(l, l.(users := l.users[i := l.users[i].(cash := cash)]))
  {
    var l' := l.(users := l.users[i := l.users[i].(cash := cash)]);
    assert Grows(l, l');
    GrowsKeepsRows(l, l', None);
  }

  /** A trade by user i (a new cash amount for its row, a new quantity for one of
      its holdings, one more transaction in its name) keeps the invariant when
      neither amount is negative. */
  lemma TradeKeepsValid(l: Ledger, i: nat, cash: Cents, key: Key, quantity: int, t: Txn)
    requires Valid(l) && i < |l.users| && cash >= 0 && quantity >= 0
    requires key.0 == l.users[i].username && t.username == l.users[i].username
    ensures Valid(Ledger(l.users[i := l.users[i].(cash := cash)], l.holdings[key := quantity], l.log + [t]))
    ensures Grows(l, Ledger(l.users[i := l.users[i].(cash := cash)], l.holdings[key := quantity], l.log + [t]))
  {
    var mid := l.(users := l.users[i := l.users[i].(cash := cash)]);
    CashRewriteKeepsValid(l, i, cash);
    assert Registered(mid.users, l.users[i].username) by {
      assert mid.users[i].username == l.users[i].username;
    }
  }

  /** With unique ids, the writes of a buy rewrite one users row, one holding and
      append one transaction. */
  lemma BuyWritesShape(l: Ledger, i: nat, sym: string, n: nat, price: nat, today: Date)
    requires UniqueIds(l.users) && i < |l.users|
    ensures var u := l.users[i];
            var key := (u.username, sym);
            BuyWrites(l, i, sym, n, price, today) ==
              Ledger(l.users[i := u.(cash := u.cash - Cost(n, price))], l.holdings[key := Held(l, key) + n],
                     l.log + [Txn(u.username, sym, n, price, today, Bought)])
  {
    var u := l.users[i];
    SetCashByIdOneRow(l.users, i, u.cash - Cost(n, price));
  }

  /** With unique usernames, the writes of a sell rewrite one users row, one holding
      and append one transaction. */
  lemma SellWritesShape(l: Ledger, i: nat, symbol: string, n: nat, price: nat, today: Date)
    requires UniqueNames(l.users) && i < |l.users| && (l.users[i].username, symbol) in l.holdings
    ensures var u := l.users[i];
            var key := (u.username, symbol);
            SellWrites(l, i, symbol, n, price, today) ==
              Ledger(l.users[i := u.(cash := u.cash + price * n)], l.holdings[key := l.holdings[key] - n],
                     l.log + [Txn(u.username, symbol, n, price, today, Sold)])
  {
    var u := l.users[i];
    SetCashByNameOneRow(l.users, i, u.cash + price * n);
  }

  /** The writes of an affordable buy keep the invariant; the only change to the
      users table is the buyer's cash, which drops by exactly the truncated cost. */
  lemma BuyWritesKeepValid(l: Ledger, i: nat, sym: string, n: nat, price: nat, today: Date)
    requires Valid(l) && i < |l.users| && Cost(n, price) <= l.users[i].cash
    ensures Valid(BuyWrites(l, i, sym, n, price, today))
    ensures Grows(l, BuyWrites(l, i, sym, n, price, today))
    ensures BuyWrites(l, i, sym, n, price, today).users == l.users[i := l.users[i].(cash := l.users[i].cash - Cost(n, price))]
  {
    var u := l.users[i];
    var key := (u.username, sym);
    BuyWritesShape(l, i, sym, n, price, today);
    TradeKeepsValid(l, i, u.cash - Cost(n, price), key, Held(l, key) + n, Txn(u.username, sym, n, price, today, Bought));
  }

  /** A successful buy keeps the invariant. */
  lemma BuyKeepsValid(l: Ledger, session: Session, quotes: Quotes, today: Date, symbol: string, shares: string)
    requires Valid(l)
    ensures var r := Buy(l, session, quotes, today, symbol, shares);
            r.Success? ==>
              && Valid(r.value) && Grows(l, r.value)
              && var i := Account(l, session).value;
                 var cost := Cost(ParseInt(shares).value, quotes(symbol).value);
                 r.value.users == l.users[i := l.users[i].(cash := l.users[i].cash - cost)]
  {
    var r := Buy(l, session, quotes, today, symbol, shares);
    if r.Success? {
      var i := Account(l, session).value;
      var n := ParseInt(shares).value;
      var price := quotes(symbol).value;
      BuyWritesKeepValid(l, i, Upper(symbol), n, price, today);
    }
  }

  /** The writes of a covered sell keep the invariant; the only change to the users
      table is the seller's cash, which grows by exactly price times shares. */
  lemma SellWritesKeepValid(l: Ledger, i: nat, symbol: string, n: nat, price: nat, today: Date)
    requires Valid(l) && i < |l.users|
    requires (l.users[i].username, symbol) in l.holdings && n <= l.holdings[(l.users[i].username, symbol)]
    ensures Valid(SellWrites(l, i, symbol, n, price, today))
    ensures Grows(l, SellWrites(l, i, symbol, n, price, today))
    ensures SellWrites(l, i, symbol, n, price, today).users == l.users[i := l.users[i].(cash := l.users[i].cash + price * n)]
  {
    var u := l.users[i];
    var key := (u.username, symbol);
    SellWritesShape(l, i, symbol, n, price, today);
    TradeKeepsValid(l, i, u.cash + price * n, key, l.holdings[key] - n, Txn(u.username, symbol, n, price, today, Sold));
  }

  /** A successful sell keeps the invariant. */
  lemma SellKeepsValid(l: Ledger, session: Session, quotes: Quotes, today: Date, symbol: string, shares: string)
    requires Valid(l)
    ensures var r := Sell(l, session, quotes, today, symbol, shares);
            r.Success? ==>
              && Valid(r.value) && Grows(l, r.value)
              && var i := Account(l, session).value;
                 var gain := quotes(symbol).value * ParseInt(shares).value;
                 r.value.users == l.users[i := l.users[i].(cash := l.users[i].cash + gain)]
  {
    var r := Sell(l, session, quotes, today, symbol, shares);
    if r.Success? {
      var i := Account(l, session).value;
      var n := ParseInt(shares).value;
      var price := quotes(symbol).value;
      SellWritesKeepValid(l, i, symbol, n, price, today);
    }
  }

  /** A deposit of a non-negative amount keeps the invariant and changes only the
      depositor's cash, which grows by exactly the amount. */
  lemma DepositWritesKeepValid(l: Ledger, i: nat, dollars: nat)
    requires Valid(l) && i < |l.users|
    ensures Valid(DepositWrites(l, i, dollars))
    ensures Grows(l, DepositWrites(l, i, dollars))
    ensures DepositWrites(l, i, dollars) == l.(users := l.users[i := l.users[i].(cash := l.users[i].cash + dollars * 100)])
  {
    var u := l.users[i];
    SetCashByNameOneRow(l.users, i, u.cash + dollars * 100);
    CashRewriteKeepsValid(l, i, u.cash + dollars * 100);
  }

  /** A successful deposit keeps the invariant. */
  lemma AddCashKeepsValid(l: Ledger, session: Session, amount: string)
    requires Valid(l)
    ensures var r := AddCash(l, session, amount);
            r.Success? ==>
              && Valid(r.value) && Grows(l, r.value)
              && var i := Account(l, session).value;
                 r.value == l.(users := l.users[i := l.users[i].(cash := l.users[i].cash + ParseInt(amount).value * 100)])
  {
    var r := AddCash(l, session, amount);
    if r.Success? {
      var i := Account(l, session).value;
      var n := ParseInt(amount).value;
      DepositWritesKeepValid(l, i, n);
    }
  }

  /** Buying appends to the buyer's history and to nobody else's. */
  lemma BuyShowsInHistory(l: Ledger, session: Session, quotes: Quotes, today: Date, symbol: string, shares: string)
    ensures var r := Buy(l, session, quotes, today, symbol, shares);
            r.Success? ==>
              var u := l.users[Account(l, session).value];
              && TxnsOf(r.value.log, u.username) ==
                   TxnsOf(l.log, u.username) + [Txn(u.username, Upper(symbol), ParseInt(shares).value, quotes(symbol).value, today, Bought)]
              && forall name :: name != u.username ==> TxnsOf(r.value.log, name) == TxnsOf(l.log, name)
  {
    var r := Buy(l, session, quotes, today, symbol, shares);
    if r.Success? {
      var u := l.users[Account(l, session).value];
      var t := Txn(u.username, Upper(symbol), ParseInt(shares).value, quotes(symbol).value, today, Bought);
      assert r.value.log == l.log + [t];
      TxnsOfAppend(l.log, t, u.username);
      forall name | name != u.username ensures TxnsOf(r.value.log, name) == TxnsOf(l.log, name) {
        TxnsOfAppend(l.log, t, name);
      }
    }
  }

  /** Selling appends to the seller's history and to nobody else's. */
  lemma SellShowsInHistory(l: Ledger, session: Session, quotes: Quotes, today: Date, symbol: string, shares: string)
    ensures var r := Sell(l, session, quotes, today, symbol, shares);
            r.Success? ==>
              var u := l.users[Account(l, session).value];
              && TxnsOf(r.value.log, u.username) ==
                   TxnsOf(l.log, u.username) + [Txn(u.username, symbol, ParseInt(shares).value, quotes(symbol).value, today, Sold)]
              && forall name :: name != u.username ==> TxnsOf(r.value.log, name) == TxnsOf(l.log, name)
  {
    var r := Sell(l, session, quotes, today, symbol, shares);
    if r.Success? {
      var u := l.users[Account(l, session).value];
      var t := Txn(u.username, symbol, ParseInt(shares).value, quotes(symbol).value, today, Sold);
      assert r.value.log == l.log + [t];
      TxnsOfAppend(l.log, t, u.username);
      forall name | name != u.username ensures TxnsOf(r.value.log, name) == TxnsOf(l.log, name) {
        TxnsOfAppend(l.log, t, name);
      }
    }
  }

  /** The buy handler files shares under the upper-cased symbol, but the sell
      handler looks them up under the symbol as typed: shares bought as "aapl"
      cannot then be sold as "aapl". */
  lemma BoughtLowercaseCannotBeSoldAsTyped(l: Ledger, session: Session, quotes: Quotes, today: Date, symbol: string, shares: string)
    requires Upper(symbol) != symbol
    requires Account(l, session).Some?
    requires (l.users[Account(l, session).value].username, symbol) !in l.holdings
    ensures var r := Buy(l, session, quotes, today, symbol, shares);
            r.Success? ==> Sell(r.value, session, quotes, today, symbol, shares) == Failure(Apology(NotOwned))
  {
    var r := Buy(l, session, quotes, today, symbol, shares);
    if r.Success? {
      var i := Account(l, session).value;
      var l' := BuyWrites(l, i, Upper(symbol), ParseInt(shares).value, quotes(symbol).value, today);
      assert r.value == l';
      FindUserSameIds(l.users, l'.users, session.value);
      assert Account(l', session) == Some(i);
      assert l'.users[i].username == l.users[i].username;
      assert (l.users[i].username, symbol) !in l'.holdings;
      assert SellFieldsOk(symbol, shares);
    }
  }
}
