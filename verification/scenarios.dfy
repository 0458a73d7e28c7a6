/**
 * Worked examples: one account that makes a buy, a sell and a deposit,
 * with every amount in cents.
 */
module Scenarios {
  import opened Wrappers
  import opened PyText
  import opened Ledger
  import opened Trading

  const today: Date := "2024-01-02"

  /** A user with $10,000.00 and nothing else. */
  const start: Ledger := Ledger([User(1, "ann", "h", 1000000)], map[], [])

  /** A market in which one symbol trades at a fixed price. */
  function Market(symbol: string, price: nat): Quotes {
    s => if s == symbol then Some(price) else None
  }

  /** After buying 10 shares at $100.00: $9,000.00 and a holding of 10. */
  const afterBuy: Ledger :=
    Ledger([User(1, "ann", "h", 900000)], map[("ann", "AAPL") := 10],
           [Txn("ann", "AAPL", 10, 10000, today, Bought)])

  /** After then selling 4 shares at $120.00: $9,480.00 and a holding of 6. */
  const afterSell: Ledger :=
    Ledger([User(1, "ann", "h", 948000)], map[("ann", "AAPL") := 6],
           [Txn("ann", "AAPL", 10, 10000, today, Bought), Txn("ann", "AAPL", 4, 12000, today, Sold)])


  /** The field "10" reads as ten, as any decimal spelling does. */
  lemma TenReadsAsTen()
    ensures ParseInt("10") == Some(10)
  {
    ParseShowRoundTrip(10);
    assert ShowInt(10) == "10";
  }

  /** The writes of buying 10 shares at $100.00 from the starting ledger. */
  lemma BuyTenWrites()
    ensures BuyWrites(start, 0, "AAPL", 10, 10000, today) == afterBuy
  {
    assert Cost(10, 10000) == 100000;
    var w := BuyWrites(start, 0, "AAPL", 10, 10000, today);
    assert w.users == afterBuy.users;
    assert w.holdings == afterBuy.holdings;
    assert w.log == afterBuy.log;
  }

  /** Buying 10 shares at $100.00 from $10,000.00 leaves $9,000.00 and a holding
      of 10, whichever spelling of ten the form carries. */
  lemma BuyTenAtHundred(shares: string)
    requires ParseInt(shares) == Some(10)
    ensures Buy(start, Some(1), Market("AAPL", 10000), today, "AAPL", shares) == Success(afterBuy)
  {
    assert Cost(10, 10000) == 100000;
    assert Upper("AAPL") == "AAPL";
    assert FindUser(start.users, 1) == Some(0);
    assert Market("AAPL", 10000)("AAPL") == Some(10000);
    BuyTenWrites();
  }

  /** Then selling 4 shares at $120.00 credits $480.00 and leaves a holding of 6. */
  lemma SellFourAtHundredTwenty(shares: string)
    requires ParseInt(shares) == Some(4)
    ensures Sell(afterBuy, Some(1), Market("AAPL", 12000), today, "AAPL", shares) == Success(afterSell)
  {
    assert shares != "";
    assert FindUser(afterBuy.users, 1) == Some(0);
    assert Market("AAPL", 12000)("AAPL") == Some(12000);
    assert afterBuy.holdings[("ann", "AAPL")] == 10;
    var w := SellWrites(afterBuy, 0, "AAPL", 4, 12000, today);
    assert Sell(afterBuy, Some(1), Market("AAPL", 12000), today, "AAPL", shares) == Success(w);
    assert w.users == afterSell.users;
    assert w.holdings == afterSell.holdings;
    assert w.log == afterSell.log;
  }

  /** Then depositing $500 brings the cash to $9,980.00 and touches nothing else. */
  lemma DepositFiveHundred(amount: string)
    requires ParseInt(amount) == Some(500)
    ensures AddCash(afterSell, Some(1), amount) == Success(afterSell.(users := [User(1, "ann", "h", 998000)]))
  {
    assert amount != "";
    assert FindUser(afterSell.users, 1) == Some(0);
    assert DepositWrites(afterSell, 0, 500).users == [User(1, "ann", "h", 998000)];
  }

  /** A share priced under one dollar is charged nothing: the cost uses whole dollars. */
  lemma PennyStockIsFree(shares: string)
    requires ParseInt(shares) == Some(3)
    ensures Buy(start, Some(1), Market("PNNY", 50), today, "PNNY", shares) ==
              Success(Ledger(start.users, map[("ann", "PNNY") := 3], [Txn("ann", "PNNY", 3, 50, today, Bought)]))
  {
    assert Cost(3, 50) == 0;
    assert Upper("PNNY") == "PNNY";
    assert FindUser(start.users, 1) == Some(0);
    assert Market("PNNY", 50)("PNNY") == Some(50);
    var w := BuyWrites(start, 0, "PNNY", 3, 50, today);
    assert Buy(start, Some(1), Market("PNNY", 50), today, "PNNY", shares) == Success(w);
    assert w.users == start.users;
    assert w.holdings == map[("ann", "PNNY") := 3];
    assert w.log == [Txn("ann", "PNNY", 3, 50, today, Bought)];
  }

  /** "ten" is not a number to `int()`. */
  lemma TenIsNotANumber()
    ensures ParseInt("ten") == None
  {
    assert TrimStart("ten") == "ten";
    assert TrimEnd("ten") == "ten";
    assert !IsDigitRun("ten");
  }

  /** A share count `int()` cannot read, such as "ten", is an apology when buying ... */
  lemma NonNumericBuy(shares: string)
    requires ParseInt(shares) == None
    ensures Buy(afterBuy, Some(1), Market("AAPL", 10000), today, "AAPL", shares) == Failure(Apology(InvalidInput))
  {
  }

  /** ... but an uncaught error when selling ... */
  lemma NonNumericSell(shares: string)
    requires shares != "" && ParseInt(shares) == None
    ensures Sell(afterBuy, Some(1), Market("AAPL", 10000), today, "AAPL", shares) == Failure(Uncaught(ValueError))
  {
    assert FindUser(afterBuy.users, 1) == Some(0);
  }

  /** ... and when depositing. */
  lemma NonNumericDeposit(amount: string)
    requires amount != "" && ParseInt(amount) == None
    ensures AddCash(afterBuy, Some(1), amount) == Failure(Uncaught(ValueError))
  {
  }

  /** Selling the shares bought as "aapl" under "aapl" finds no holding. */
  lemma LowercaseSellFindsNothing(shares: string)
    requires ParseInt(shares) == Some(10)
    ensures var bought := Buy(start, Some(1), Market("aapl", 10000), today, "aapl", shares);
            bought.Success? && Sell(bought.value, Some(1), Market("aapl", 10000), today, "aapl", shares) == Failure(Apology(NotOwned))
  {
    assert shares != "";
    assert Cost(10, 10000) == 100000;
    assert Upper("aapl") == "AAPL";
    assert FindUser(start.users, 1) == Some(0);
    assert Market("aapl", 10000)("aapl") == Some(10000);
    var w := BuyWrites(start, 0, "AAPL", 10, 10000, today);
    assert w.holdings == map[("ann", "AAPL") := 10];
    assert FindUser(w.users, 1) == Some(0);
  }
}
