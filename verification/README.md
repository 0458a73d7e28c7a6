# Stock-trading trainer: the account ledger

A small Flask application lets users register, log in, and trade in a
simulated stock market. Each user gets a pot of starting cash. Prices come
from a quote service. Three SQLite tables hold the state:

- `users`: id, username, password hash, cash;
- `holdings`: one quantity per (username, symbol);
- `transactions`: an append-only log of buys and sells.

This project models the request handlers that read and write those tables:

- the POST branches of `buy`, `sell`, `add_cash`, `register` and `login`;
- the `history` view.

Each handler is a pure function. It takes the ledger (all three tables as
one immutable value), the session, and the submitted form fields. It
returns either a new ledger or the reason the request was refused.

Modelling choices:

- **Money.** Money is counted in integer cents.
- **Buy cost.** The buy handler charges `shares * int(price)`, which is the
  price truncated to whole dollars. The model keeps that truncation.
- **Sell and deposit.** Sell credits the exact `price * shares`. `add_cash`
  adds a whole number of dollars.
- **Form fields.** Fields are strings, and a missing field is the empty
  string.
- **`int()` and `upper()`.** `PyText.ParseInt` follows Python's `int()` on
  ASCII strings: it strips surrounding ASCII whitespace (space, and tab
  through carriage return), reads an optional
  sign and decimal digits (single underscores allowed between digits), and
  fails on more than 4300 digits, the default cap of current Python
  releases. `PyText.Upper` follows `str.upper()` on ASCII text.
- **Outcomes.** A refused request is one of three things:
  - a redirect to the login page (the `login_required` gate);
  - an apology page carrying the handler's message;
  - an exception the handler does not catch (`ValueError`, `TypeError` or
    `IndexError`).

  In every one of these cases the ledger is left unchanged.
- **Parameters.** These are passed in as parameters:
  - the quote lookup (`Quotes`, a non-negative price in cents or nothing);
  - the password hash functions;
  - the date stamped on transactions;
  - the starting cash that the `users` table gives a new row by default.

Modules:

- `Wrappers`: `Option` and `Result`.
- `PyText`: `int()` and `upper()` on text, plus a reference decimal spelling of integers used to state that `int()` reads numbers back.
- `Ledger`:
  - the tables;
  - the SQL selects and updates the handlers issue;
  - the invariant `Valid`: ids and usernames are unique, no cash or holding
    is negative, and every holding and transaction belongs to a registered
    user;
  - the growth relation `Grows`: user rows and holding rows are never
    removed, and the log is only appended to.
- `Trading`: `buy`, `sell`, `add_cash` and `history`.
- `Auth`: `register` and `login`.
- `Invariants`: the handlers keep `Valid`, and how each trade shows up in
  the history.
- `Server`: one request dispatched to its handler, and any sequence of
  requests.
- `Scenarios`: worked examples with concrete numbers.

Quirks of the code that the model keeps:

- Registering does not log the new user in. The session stays empty.
- A buy is charged the price truncated to whole dollars. The transaction
  row still records the untruncated price.
- A sell with a non-numeric share count raises `ValueError`; it does not
  produce an apology.
- A sell of a symbol the quote service does not know passes every holdings
  check, then fails on `stock['price']` (`TypeError`).
- A buy stores its symbol upper-cased. A sell looks the holding up by the
  symbol exactly as typed, because `symbol.upper()` at app.py:250 discards
  its result.

## Model

| member | source | states |
|---|---|---|
| PyText.Trim | app.py:84 | the stripped text neither starts nor ends with whitespace, and all-whitespace text strips to nothing |
| PyText.ParseInt | app.py:83-86 | `int()` raises on an empty or all-whitespace field |
| PyText.ParseIntReads | app.py:83-94 | `int()` reads a number exactly when the stripped field is an optional sign and a run of digits with at most 4300 digits; the number is then the value of the digits, negated after a minus; anything else raises |
| PyText.ParseShowRoundTrip | app.py:94 | `int(str(n)) == n` for every integer n of at most 4300 digits |
| PyText.ParseIgnoresLeadingSpace | app.py:251 | whitespace in front of a numeric field never changes the number read |
| PyText.UpperChar | app.py:93 | a lower-case ASCII letter becomes its upper-case partner, and every other character is unchanged |
| PyText.Upper | app.py:93 | `upper()` keeps the length and upper-cases each character in place |
| PyText.UpperIdempotent | app.py:93 | upper-casing an already upper-cased symbol changes nothing |
| PyText.UpperFixesExactlyUppercase | app.py:93 | `upper()` leaves a symbol unchanged exactly when it has no lower-case letter |
| Ledger.FindUser | app.py:76 | `SELECT ... WHERE id=?` finds the first row with the id, and finds nothing exactly when no row carries it |
| Ledger.UsersNamed | app.py:148 | `SELECT ... WHERE username = ?` returns exactly the rows carrying the username |
| Ledger.TxnsOf | app.py:123 | the user's transactions are exactly the log rows in the user's name, each listed as many times as it is logged |
| Ledger.TxnsOfAppend | app.py:123 | one more log row extends the selection by that row when it is in the name, and otherwise leaves it alone |
| Ledger.SetCashById | app.py:110 | `UPDATE users SET cash=? WHERE id=?` rewrites the cash of every row with the id and no other row |
| Ledger.SetCashByName | app.py:266 | `UPDATE users SET cash=? WHERE username=?` rewrites the cash of every row with the name and no other row |
| Ledger.SetCashByIdOneRow | app.py:110 | with unique ids, the update by id rewrites exactly one row |
| Ledger.SetCashByNameOneRow | app.py:294 | with unique usernames, the update by username rewrites exactly one row |
| Ledger.MaxId | app.py:227 | the largest id is at least every id in the table, and is the id of some row |
| Ledger.NextId | app.py:227 | the id the insert gives a new user is carried by no existing row |
| Ledger.NoNamedRows | app.py:216-217 | selecting a username nobody has returns no rows |
| Ledger.OnlyNamedRow | app.py:148-151 | when one row carries the username, the select returns exactly that row |
| Ledger.SingleNamedRow | app.py:148-151 | when the select returns one row, that row is the only one carrying the username |
| Ledger.OneNamedRow | app.py:148-155 | `len(rows) == 1` holds exactly when one row carries the username, and then `rows[0]` is that row |
| Ledger.FindUserSameIds | app.py:102-110 | rewriting cash does not change which row has a given id |
| Ledger.GrowsKeepsRows | app.py:104-110 | as the tables grow, registered users stay registered and a session's user keeps its row |
| Trading.Account | app.py:76 | the session user's row, if any, carries the session's id; no row means no row carries it |
| Trading.WholeDollars | app.py:97 | `int(price)` is a whole number of dollars, at most the price and less than a dollar below it |
| Trading.Cost | app.py:97 | the charge for n shares is at most n times the price, and short of it by less than a dollar a share |
| Trading.Buy | app.py:73-111 | the checks in source order: login, then share count and lookup, then the user row, then affordability; success happens exactly when all pass, and then the buy is written |
| Trading.BuyWrites | app.py:102-110 | an accepted buy debits the buyer's rows by the cost, adds n shares under the upper-cased symbol (creating the holding if absent), appends one buy row, and changes nothing else |
| Trading.Sell | app.py:240-269 | the checks in source order: the user row, the fields (`ValueError` on non-numeric), ownership, share count, then the quote (`TypeError` when unknown); success happens exactly when all pass, and then the sale is written |
| Trading.SellWrites | app.py:262-268 | an accepted sell credits price times n, removes n shares from the holding under the symbol as typed, appends one sell row, and changes nothing else |
| Trading.AddCash | app.py:281-296 | an empty or below-one amount is an apology, a non-numeric one is `ValueError`, and a missing user row is `IndexError`; otherwise the deposit is written |
| Trading.DepositWrites | app.py:294 | an accepted deposit adds the dollars to the user's rows and changes no other row, holding or transaction |
| Trading.History | app.py:122-126 | the history holds exactly the log rows in the session user's name, each as many times as it is logged; a missing user row is `IndexError` |
| Invariants.CashRewriteKeepsValid | app.py:110 | giving one row a non-negative cash amount keeps the invariant and only grows the tables |
| Invariants.TradeKeepsValid | app.py:102-110 | one cash rewrite, one holding write and one appended transaction by the same user keep the invariant when no amount is negative |
| Invariants.BuyWritesShape | app.py:102-110 | with unique ids, a buy rewrites one user row and one holding, and appends one transaction |
| Invariants.SellWritesShape | app.py:262-268 | with unique usernames, a sell rewrites one user row and one holding, and appends one transaction |
| Invariants.BuyWritesKeepValid | app.py:97-110 | an affordable buy keeps cash non-negative and the invariant, and only the buyer's cash changes, by exactly the cost |
| Invariants.BuyKeepsValid | app.py:89-110 | every accepted buy keeps the invariant, grows the tables, and debits exactly the truncated cost from the buyer alone |
| Invariants.SellWritesKeepValid | app.py:258-268 | selling no more than is held keeps holdings non-negative and the invariant, and only the seller's cash changes, by exactly price times shares |
| Invariants.SellKeepsValid | app.py:254-268 | every accepted sell keeps the invariant, grows the tables, and credits exactly price times shares to the seller alone |
| Invariants.DepositWritesKeepValid | app.py:294 | a deposit keeps the invariant and changes only the depositor's cash, by exactly the amount |
| Invariants.AddCashKeepsValid | app.py:290-294 | every accepted deposit keeps the invariant and adds exactly the amount to the depositor alone |
| Invariants.BuyShowsInHistory | app.py:108-109 | after a buy, the buyer's history ends with the new buy row, and every other user's history is unchanged |
| Invariants.SellShowsInHistory | app.py:264-265 | after a sell, the seller's history ends with the new sell row, and every other user's history is unchanged |
| Invariants.BoughtLowercaseCannotBeSoldAsTyped | app.py:246-257 | shares bought under a symbol with lower-case letters cannot then be sold under that symbol as typed: the sale is refused as not owned |
| Auth.NamedRowsIffRegistered | app.py:216-218 | the username check rejects exactly the registered usernames |
| Auth.Register | app.py:201-228 | the checks in source order, with a mismatch rejected exactly when the earlier checks pass; acceptance happens exactly when all pass, and then exactly one user row with a fresh id, the hashed password and the starting cash is appended; the session is always left empty |
| Auth.Login | app.py:134-158 | the ledger is never written; a session is set exactly when both fields are filled and the one row with the username accepts the password, and then the session is that row's id |
| Auth.RegisterKeepsValid | app.py:216-227 | registration keeps usernames and ids unique, keeps the invariant, and only grows the tables |
| Auth.LoginUnderValid | app.py:148-155 | with unique usernames, a registered user logs in exactly when the password checks against that user's hash, and then as that user |
| Auth.NoLoginWithoutAccount | app.py:148-152 | an unregistered username never logs in |
| Auth.RegisterThenLogin | app.py:148-155 | after a registration, logging in with the same credentials logs in as the new user |
| Server.Handle | app.py:68-296 | for every request: a refused request writes nothing, the invariant holds afterwards, the tables only grow, a sound session stays sound, and only a login sets a new user id |
| Server.Run | app.py:26-27 | over any sequence of requests against the shared database, the invariant holds and the tables only grow |
| Scenarios.TenReadsAsTen | app.py:94 | the field "10" reads as ten |
| Scenarios.BuyTenWrites | app.py:102-110 | the writes of buying 10 shares at $100.00 from $10,000.00 leave $9,000.00, a holding of 10, and one buy row |
| Scenarios.BuyTenAtHundred | app.py:97-110 | with any share field that reads as 10, buying at $100.00 from $10,000.00 leaves $9,000.00, a holding of 10, and one buy row |
| Scenarios.SellFourAtHundredTwenty | app.py:262-268 | then, with any share field that reads as 4, selling at $120.00 leaves $9,480.00 and a holding of 6 |
| Scenarios.DepositFiveHundred | app.py:294 | then, with any amount field that reads as 500, the deposit leaves $9,980.00 |
| Scenarios.PennyStockIsFree | app.py:97 | 3 shares priced at 50 cents are bought for nothing |
| Scenarios.TenIsNotANumber | app.py:84 | `int("ten")` raises |
| Scenarios.NonNumericBuy | app.py:83-86 | a share count `int()` cannot read is an apology when buying |
| Scenarios.NonNumericSell | app.py:249-251 | a non-empty share count `int()` cannot read is an uncaught `ValueError` when selling |
| Scenarios.NonNumericDeposit | app.py:290 | a non-empty amount `int()` cannot read is an uncaught `ValueError` when depositing |
| Scenarios.LowercaseSellFindsNothing | app.py:93 | shares bought as "aapl" are held under "AAPL", so selling the same count as "aapl" is refused |

## Left out

- The `index`, `quote` and `logout` handlers, and every GET branch. They only render pages, or clear the session as login does.
- Page rendering, redirects, `after_request` cache headers, and HTTP status codes. An apology is its message; the 403 status of login apologies is not modelled.
- The quote service (`lookup`) and password hashing. They live in helpers.py and werkzeug, which are not part of this model, so they are parameters.
- `login_required`. It lives in helpers.py, which is not part of this model. It is modelled as a redirect whenever the session holds no user id.
- The date. `date.today()` is evaluated once at start-up, so it is a fixed value in the server configuration.
- The default cash of a new user. It comes from the database schema, which is not part of this model, so it is a parameter.
- Floating point. Prices are whole cents; a sell credits `price * shares` exactly, with no float rounding.
- PyText.ParseInt: reads ASCII digits and whitespace only. Python's `int()` also accepts other Unicode decimal digits and whitespace.
- PyText.ParseInt: fixes the digit cap at Python's default of 4300; the cap can be changed by `sys.set_int_max_str_digits` or the environment, and Python releases before 3.11 (and 3.10.7, 3.9.14, 3.8.14, 3.7.14) have none.
- PyText.Upper: upper-cases ASCII letters only. Unicode case mapping is not modelled.
- The difference between a missing field (None) and an empty one: both are the empty string. For the share count, the amount and the login and registration fields the two behave alike, since each handler tests the field for emptiness before `int()` or catches the error. The buy symbol is the exception: a missing symbol goes to the lookup as None, and if the lookup answers, `symbol.upper()` at app.py:93 raises AttributeError, where the model upper-cases the empty string and goes on.
- Integer width. SQLite stores integers in 64 bits and larger values inexactly as REAL; the model's cash, quantities and ids are unbounded, so a buy of, say, 10^20 sub-dollar shares (which costs nothing, as the truncated price is zero) is stored exactly here.
- Trading.History: lists the user's rows in log order. The select at app.py:123 has no `ORDER BY`, so the order SQLite returns is not fixed by the code; the model takes rowid order, SQLite's usual scan order for such a select. The "ends with the new row" half of Invariants.BuyShowsInHistory and Invariants.SellShowsInHistory rests on that choice; the multiset half does not.
- Negative prices. `Quotes` yields a `nat` number of cents, so the model assumes the lookup never answers with a negative price. The sell invariant rests on this: Invariants.SellWritesKeepValid, Invariants.SellKeepsValid and the `Valid` clauses of Server.Handle and Server.Run keep cash non-negative only because the credit `price * shares` is non-negative. A negative price is also where the code's truncation toward zero (`int(result["price"])` at app.py:97) and a floor would differ.
- Concurrent requests. Requests are handled one at a time, in order.
- The `print` of the transactions in `history`. It is output only.
