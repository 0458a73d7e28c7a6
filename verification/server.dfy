/**
 * The application as a whole: requests are handled one at a time, each against
 * the tables and the session the previous one left behind.
 */
module Server {
  import opened Wrappers
  import opened Ledger
  import opened Trading
  import opened Invariants
  import opened Auth

  /** What stays fixed while the process runs: the date computed at start-up,
      the starting cash of a new account, and the password hashing primitives. */
  datatype Config = Config(today: Date, startCash: nat, hashOf: string -> string, checkHash: (string, string) -> bool)

  /** A submitted form. Buy and sell carry the prices the lookup returns while
      they are handled. */
  datatype Request =
    | BuyRequest(symbol: string, shares: string, quotes: Quotes)
    | SellRequest(symbol: string, shares: string, quotes: Quotes)
    | AddCashRequest(amount: string)
    | RegisterRequest(username: string, password: string, confirmation: string)
    | LoginRequest(username: string, password: string)
    | HistoryRequest

  /** Growth of the tables composes. */
  lemma GrowsTransitive(a: Ledger, b: Ledger, c: Ledger)
    requires Grows(a, b) && Grows(b, c)
    ensures Grows(a, c)
  {
  }

  /** A ledger change as a step: on failure nothing is written. */
  function Commit(l: Ledger, s: Session, r: Result<Ledger, Refusal>): Step {
    match r
    case Success(l') => Step(l', s, None)
    case Failure(e) => Step(l, s, Some(e))
  }

  /** Handles one request. */
  function Handle(l: Ledger, s: Session, cfg: Config, req: Request): (r: Step)
    // no partial writes: a refused request leaves every table as it was
    ensures r.failure.Some? ==> r.ledger == l
    // the ledger invariant is kept, and tables only grow
    ensures Valid(l) ==> Valid(r.ledger) && Grows(l, r.ledger)
    // a sound session stays sound
    ensures Valid(l) && SessionOk(l, s) ==> SessionOk(r.ledger, r.session)
    // only logging in can put a user id into the session
    ensures r.session.Some? && r.session != s ==> req.LoginRequest?
  {
    match req
    case BuyRequest(symbol, shares, quotes) =>
      var r := Buy(l, s, quotes, cfg.today, symbol, shares);
      if Valid(l) && r.Success? then
        BuyKeepsValid(l, s, quotes, cfg.today, symbol, shares);
        GrowsKeepsRows(l, r.value, s);
        Commit(l, s, r)
      else Commit(l, s, r)
    case SellRequest(symbol, shares, quotes) =>
      var r := Sell(l, s, quotes, cfg.today, symbol, shares);
      if Valid(l) && r.Success? then
        SellKeepsValid(l, s, quotes, cfg.today, symbol, shares);
        GrowsKeepsRows(l, r.value, s);
        Commit(l, s, r)
      else Commit(l, s, r)
    case AddCashRequest(amount) =>
      var r := AddCash(l, s, amount);
      if Valid(l) && r.Success? then
        AddCashKeepsValid(l, s, amount);
        GrowsKeepsRows(l, r.value, s);
        Commit(l, s, r)
      else Commit(l, s, r)
    case RegisterRequest(username, password, confirmation) =>
      var r := Register(l, cfg.hashOf, cfg.startCash, username, password, confirmation);
      if Valid(l) then
        RegisterKeepsValid(l, cfg.hashOf, cfg.startCash, username, password, confirmation);
        r
      else r
    case LoginRequest(username, password) =>
      Login(l, cfg.checkHash, username, password)
    case HistoryRequest =>
      var r := History(l, s);
      Step(l, s, if r.Success? then None else Some(r.error))
  }

  /** Handles a sequence of requests in order. */
  function Run(l: Ledger, s: Session, cfg: Config, reqs: seq<Request>): (r: (Ledger, Session))
    // across any sequence of requests nobody's cash and no holding goes negative,
    // ids and usernames stay unique, and the log is only appended to
    ensures Valid(l) ==> Valid(r.0) && Grows(l, r.0)
    ensures Valid(l) && SessionOk(l, s) ==> SessionOk(r.0, r.1)
    decreases |reqs|
  {
    if |reqs| == 0 then (l, s)
    else
      var step := Handle(l, s, cfg, reqs[0]);
      var r := Run(step.ledger, step.session, cfg, reqs[1..]);
      if Valid(l) then
        GrowsTransitive(l, step.ledger, r.0);
        r
      else r
  }
}
