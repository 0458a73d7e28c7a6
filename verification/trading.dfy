/**
 * The POST branches of the ledger handlers `buy`, `sell` and `add_cash`, and
 * the read-only `history` view, as pure functions of the ledger, the session
 * and the submitted form fields. A refused request returns `Failure` and so
 * leaves the ledger exactly as it was.
 */
module Trading {
  import opened Wrappers
  import opened PyText
  import opened Ledger

  /** The price lookup: a symbol's current price in cents, or nothing for a symbol it does not know. */
  type Quotes = string -> Option<nat>

  /** A parsed form field that is a whole number of at least 1. */
  predicate IsCount(n: Option<int>) {
    n.Some? && n.value >= 1
  }

  /** The row of the session's user in the users table, if there is a session and a row. */
  function Account(l: Ledger, session: Session): (r: Option<nat>)
    ensures r.Some? ==> session.Some? && r.value < |l.users| && l.users[r.value].id == session.value
    ensures r.None? ==> session.None? || forall j :: 0 <= j < |l.users| ==> l.users[j].id != session.value
  {
    if session.None? then None else FindUser(l.users, session.value)
  }

  /** `int(price)` for a price in cents: the whole dollars in it, in cents. */
  function WholeDollars(price: nat): (c: nat)
    ensures c % 100 == 0 && c <= price < c + 100
  {
    price / 100 * 100
  }

  /** What buying n shares costs: n times the truncated price. It never exceeds
      n times the real price and falls short of it by less than a dollar a share. */
  function Cost(n: nat, price: nat): (c: nat)
    ensures c <= n * price
    ensures n * price - c <= n * 99
  {
    var w := WholeDollars(price);
    ScaleMonotone(n, w, price);
    ScaleMonotone(n, price - w, 99);
    assert n * price - n * w == n * (price - w);
    n * w
  }

  /** Scaling by a natural number keeps order. */
  lemma {:induction false} ScaleMonotone(n: nat, a: int, b: int)
    requires a <= b
    ensures n * a <= n * b
  {
    if n > 0 {
      ScaleMonotone(n - 1, a, b);
      assert n * a == (n - 1) * a + a;
      assert n * b == (n - 1) * b + b;
    }
  }

  /** The POST branch of `buy`. The lookup sees the symbol as typed; the holding
      and the transaction get it upper-cased. */
  function Buy(l: Ledger, session: Session, quotes: Quotes, today: Date, symbol: string, shares: string): (r: Result<Ledger, Refusal>)
    // the login gate comes first
    ensures session.None? ==> r == Failure(RedirectToLogin)
    // then the shares field and the lookup, whatever the user's row holds
    ensures session.Some? && !IsCount(ParseInt(shares)) ==> r == Failure(Apology(InvalidInput))
    ensures session.Some? && quotes(symbol).None? ==> r == Failure(Apology(InvalidInput))
    ensures session.Some? && IsCount(ParseInt(shares)) && quotes(symbol).Some? && Account(l, session).None? ==>
              r == Failure(Uncaught(IndexError))
    // then the price check, which is the only other way to fail
    ensures Account(l, session).Some? && IsCount(ParseInt(shares)) && quotes(symbol).Some? ==>
              && var i := Account(l, session).value;
                 var n := ParseInt(shares).value;
                 var price := quotes(symbol).value;
                 && (Cost(n, price) > l.users[i].cash ==> r == Failure(Apology(CantAfford)))
                 && (Cost(n, price) <= l.users[i].cash ==> r == Success(BuyWrites(l, i, Upper(symbol), n, price, today)))
    // so a buy is accepted only when every check passes
    ensures r.Success? ==>
              && Account(l, session).Some? && IsCount(ParseInt(shares)) && quotes(symbol).Some?
              && Cost(ParseInt(shares).value, quotes(symbol).value) <= l.users[Account(l, session).value].cash
  {
    if session.None? then Failure(RedirectToLogin)
    else
      var result := quotes(symbol);
      var quantity := ParseInt(shares);
      if quantity.None? || result.None? || quantity.value < 1 then Failure(Apology(InvalidInput))
      else match FindUser(l.users, session.value)
        case None => Failure(Uncaught(IndexError))
        case Some(i) =>
          var total := Cost(quantity.value, result.value);
          if total > l.users[i].cash then Failure(Apology(CantAfford))
          else Success(BuyWrites(l, i, Upper(symbol), quantity.value, result.value, today))
  }

  /** The writes of an accepted buy of n shares by the user in row i. */
  function BuyWrites(l: Ledger, i: nat, sym: string, n: nat, price: nat, today: Date): (l': Ledger)
    requires i < |l.users|
    // the rows with the user's id lose the truncated cost, every other row is left alone
    ensures |l'.users| == |l.users|
    ensures forall j :: 0 <= j < |l.users| && l.users[j].id != l.users[i].id ==> l'.users[j] == l.users[j]
    ensures forall j :: 0 <= j < |l.users| && l.users[j].id == l.users[i].id ==>
              l'.users[j] == l.users[j].(cash := l.users[i].cash - Cost(n, price))
    // the holding under (username, sym) grows by n, or is created holding n
    ensures l'.holdings.Keys == l.holdings.Keys + {(l.users[i].username, sym)}
    ensures Held(l', (l.users[i].username, sym)) == Held(l, (l.users[i].username, sym)) + n
    ensures forall k :: k in l.holdings && k != (l.users[i].username, sym) ==> l'.holdings[k] == l.holdings[k]
    // one 'buy' row, with the untruncated price, is appended
    ensures l'.log == l.log + [Txn(l.users[i].username, sym, n, price, today, Bought)]
  {
    var user := l.users[i];
    var key := (user.username, sym);
    var held := if key in l.holdings then l.holdings[key] + n else n;
    Ledger(
      SetCashById(l.users, user.id, user.cash - Cost(n, price)),
      l.holdings[key := held],
      l.log + [Txn(user.username, sym, n, price, today, Bought)])
  }

  /** The fields of a sell form that pass its input check: both filled in, at least one share. */
  predicate SellFieldsOk(symbol: string, shares: string) {
    symbol != "" && shares != "" && IsCount(ParseInt(shares))
  }

  /** The POST branch of `sell`. The symbol is used exactly as typed. */
  function Sell(l: Ledger, session: Session, quotes: Quotes, today: Date, symbol: string, shares: string): (r: Result<Ledger, Refusal>)
    ensures session.None? ==> r == Failure(RedirectToLogin)
    // the user's row is read before the form
    ensures session.Some? && Account(l, session).None? ==> r == Failure(Uncaught(IndexError))
    ensures Account(l, session).Some? ==>
              && var i := Account(l, session).value;
                 var key := (l.users[i].username, symbol);
                 // `int()` on a non-numeric shares field is not caught
                 && (symbol != "" && shares != "" && ParseInt(shares).None? ==> r == Failure(Uncaught(ValueError)))
                 && (symbol == "" || shares == "" || (ParseInt(shares).Some? && ParseInt(shares).value < 1) ==>
                       r == Failure(Apology(InvalidInput)))
                 && (SellFieldsOk(symbol, shares) ==>
                       var n := ParseInt(shares).value;
                       && (key !in l.holdings ==> r == Failure(Apology(NotOwned)))
                       && (key in l.holdings && l.holdings[key] < n ==> r == Failure(Apology(NotEnoughShares)))
                       // a symbol the lookup does not know fails on `stock['price']`
                       && (key in l.holdings && n <= l.holdings[key] && quotes(symbol).None? ==>
                             r == Failure(Uncaught(TypeError)))
                       && (key in l.holdings && n <= l.holdings[key] && quotes(symbol).Some? ==>
                             r == Success(SellWrites(l, i, symbol, n, quotes(symbol).value, today))))
    // so a sell is accepted only when every check passes
    ensures r.Success? ==>
              && Account(l, session).Some? && SellFieldsOk(symbol, shares) && quotes(symbol).Some?
              && var key := (l.users[Account(l, session).value].username, symbol);
                 key in l.holdings && ParseInt(shares).value <= l.holdings[key]
  {
    if session.None? then Failure(RedirectToLogin)
    else match FindUser(l.users, session.value)
      case None => Failure(Uncaught(IndexError))
      case Some(i) =>
        var user := l.users[i];
        var key := (user.username, symbol);
        if symbol != "" && shares != "" && ParseInt(shares).None? then Failure(Uncaught(ValueError))
        else if symbol == "" || shares == "" || ParseInt(shares).value < 1 then Failure(Apology(InvalidInput))
        else
          var n := ParseInt(shares).value;
          if key !in l.holdings then Failure(Apology(NotOwned))
          else if l.holdings[key] < n then Failure(Apology(NotEnoughShares))
          else match quotes(symbol)
            case None => Failure(Uncaught(TypeError))
            case Some(price) => Success(SellWrites(l, i, symbol, n, price, today))
  }

  /** The writes of an accepted sell of n shares by the user in row i. */
  function SellWrites(l: Ledger, i: nat, symbol: string, n: nat, price: nat, today: Date): (l': Ledger)
    requires i < |l.users| && (l.users[i].username, symbol) in l.holdings
    // the rows with the user's name gain price times n, every other row is left alone
    ensures |l'.users| == |l.users|
    ensures forall j :: 0 <= j < |l.users| && l.users[j].username != l.users[i].username ==> l'.users[j] == l.users[j]
    ensures forall j :: 0 <= j < |l.users| && l.users[j].username == l.users[i].username ==>
              l'.users[j] == l.users[j].(cash := l.users[i].cash + price * n)
    // the holding shrinks by n; no row is added or removed
    ensures l'.holdings.Keys == l.holdings.Keys
    ensures l'.holdings[(l.users[i].username, symbol)] == l.holdings[(l.users[i].username, symbol)] - n
    ensures forall k :: k in l.holdings && k != (l.users[i].username, symbol) ==> l'.holdings[k] == l.holdings[k]
    // one 'sell' row is appended
    ensures l'.log == l.log + [Txn(l.users[i].username, symbol, n, price, today, Sold)]
  {
    var user := l.users[i];
    var key := (user.username, symbol);
    Ledger(
      SetCashByName(l.users, user.username, user.cash + price * n),
      l.holdings[key := l.holdings[key] - n],
      l.log + [Txn(user.username, symbol, n, price, today, Sold)])
  }

  /** The POST branch of `add_cash`: the amount is in whole dollars. */
  function AddCash(l: Ledger, session: Session, amount: string): (r: Result<Ledger, Refusal>)
    ensures session.None? ==> r == Failure(RedirectToLogin)
    ensures session.Some? && amount == "" ==> r == Failure(Apology(InvalidInput))
    // `int()` on a non-numeric amount is not caught
    ensures session.Some? && amount != "" && ParseInt(amount).None? ==> r == Failure(Uncaught(ValueError))
    ensures session.Some? && ParseInt(amount).Some? && ParseInt(amount).value < 1 ==> r == Failure(Apology(InvalidInput))
    // the user's row is read only after the amount passes
    ensures session.Some? && IsCount(ParseInt(amount)) && Account(l, session).None? ==> r == Failure(Uncaught(IndexError))
    ensures IsCount(ParseInt(amount)) && Account(l, session).Some? ==>
              r == Success(DepositWrites(l, Account(l, session).value, ParseInt(amount).value))
    // so a deposit is accepted only when every check passes
    ensures r.Success? ==> Account(l, session).Some? && IsCount(ParseInt(amount))
  {
    if session.None? then Failure(RedirectToLogin)
    else if amount == "" then Failure(Apology(InvalidInput))
    else match ParseInt(amount)
      case None => Failure(Uncaught(ValueError))
      case Some(n) =>
        if n < 1 then Failure(Apology(InvalidInput))
        else match FindUser(l.users, session.value)
          case None => Failure(Uncaught(IndexError))
          case Some(i) => Success(DepositWrites(l, i, n))
  }

  /** The write of an accepted deposit of whole dollars by the user in row i. */
  function DepositWrites(l: Ledger, i: nat, dollars: int): (l': Ledger)
    requires i < |l.users|
    // the rows with the user's name gain the amount, every other row is left alone
    ensures |l'.users| == |l.users|
    ensures forall j :: 0 <= j < |l.users| && l.users[j].username != l.users[i].username ==> l'.users[j] == l.users[j]
    ensures forall j :: 0 <= j < |l.users| && l.users[j].username == l.users[i].username ==>
              l'.users[j] == l.users[j].(cash := l.users[i].cash + dollars * 100)
    // holdings and transactions are untouched
    ensures l'.holdings == l.holdings && l'.log == l.log
  {
    var user := l.users[i];
    l.(users := SetCashByName(l.users, user.username, user.cash + dollars * 100))
  }

  /** The `history` view: the session user's transactions, in log order. */
  function History(l: Ledger, session: Session): (r: Result<seq<Txn>, Refusal>)
    ensures session.None? ==> r == Failure(RedirectToLogin)
    ensures session.Some? ==> (r.Success? <==> Account(l, session).Some?)
    ensures r.Failure? && session.Some? ==> r.error == Uncaught(IndexError)
    ensures r.Success? ==>
              && Account(l, session).Some?
              && var name := l.users[Account(l, session).value].username;
                 && (forall t :: t in r.value <==> t in l.log && t.username == name)
                 && (forall t :: multiset(r.value)[t] == if t.username == name then multiset(l.log)[t] else 0)
  {
    if session.None? then Failure(RedirectToLogin)
    else match FindUser(l.users, session.value)
      case None => Failure(Uncaught(IndexError))
      case Some(i) => Success(TxnsOf(l.log, l.users[i].username))
  }
}
