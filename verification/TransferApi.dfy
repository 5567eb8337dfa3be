/** POST /transfers: the guards before a transfer, and what whole runs of requests can do. */
module TransferApi {
  import opened Bank
  import opened TransferProtocol
  import opened CommitHistory
  import opened SoloTransfer
  import opened Exchange
  import TransferStore

  datatype Request = Request(fromId: Int64, toId: Int64, amount: Int64, currency: string)

  datatype Refusal = InvalidRequest | AccountNotFound | CurrencyMismatch | NotOwner | RateNotFound

  datatype Result<+T> = Success(value: T) | Failure(refusal: Refusal)

  datatype Response = Done(result: TransferResult) | Refused(refusal: Refusal) | Failed(error: Error)

  /** The HTTP status of each outcome. */
  function Status(r: Response): int {
    match r
    case Done(_) => 200
    case Refused(InvalidRequest) => 400
    case Refused(CurrencyMismatch) => 400
    case Refused(NotOwner) => 401
    case Refused(_) => 404
    case Failed(InsufficientBalance) => 400
    case Failed(_) => 500
  }

  /** The binding rules of the request body. */
  predicate Binds(req: Request) {
    req.fromId >= 1 && req.toId >= 1 && req.amount > 0 && req.currency in {"USD", "EUR", "CAD"}
  }

  type Rates = map<string, Rate>

  function ExchangeResult(rates: Rates, fromCurrency: string, toCurrency: string, amount: Int64, wild: Int64): Result<Int64> {
    if fromCurrency !in rates || toCurrency !in rates then Failure(RateNotFound)
    else Success(Exchanged(rates[fromCurrency], rates[toCurrency], amount, wild))
  }

  /** The guards of createTransfer in their order, down to the arguments of TransferTx. */
  function Admit(db: Database, rates: Rates, user: string, req: Request, wild: Int64): Result<TransferArg> {
    if !Binds(req) then Failure(InvalidRequest)
    else if req.fromId !in db.accounts then Failure(AccountNotFound)
    else if db.accounts[req.fromId].currency != req.currency then Failure(CurrencyMismatch)
    else if db.accounts[req.fromId].owner != user then Failure(NotOwner)
    else if req.toId !in db.accounts then Failure(AccountNotFound)
    else
      match ExchangeResult(rates, db.accounts[req.fromId].currency, db.accounts[req.toId].currency, req.amount, wild)
      case Failure(r) => Failure(r)
      case Success(credit) => Success(TransferArg(req.fromId, req.toId, req.amount, credit))
  }

  /** The tables after one request alone, and its response. */
  ghost function Outcome(db: Database, rates: Rates, user: string, req: Request, wild: Int64): (Database, Response) {
    match Admit(db, rates, user, req, wild)
    case Failure(r) => (db, Refused(r))
    case Success(arg) =>
      match FailureOf(db, arg)
      case Some(e) => (db, Failed(e))
      case None => (Pay(db, arg), Done(Receipt(db, arg)))
  }

  class Server {
    const store: TransferStore.SQLStore
    const rates: Rates

    constructor (store: TransferStore.SQLStore, rates: Rates)
      ensures this.store == store && this.rates == rates
    {
      this.store, this.rates := store, rates;
    }

    method ValidAccount(id: int, currency: string) returns (account: Result<Account>)
      ensures account ==
              if id !in store.db.accounts then Failure(AccountNotFound)
              else if store.db.accounts[id].currency != currency then Failure(CurrencyMismatch)
              else Success(store.db.accounts[id])
    {
      var found := store.GetAccount(id);
      if found.None? { return Failure(AccountNotFound); }
      if found.value.currency != currency { return Failure(CurrencyMismatch); }
      return Success(found.value);
    }

    /** Each accepted request pays in full; each other one leaves the tables alone. */
    method CreateTransfer(user: string, req: Request, wild: Int64) returns (status: int, response: Response)
      requires BalancesInRange(store.db)
      modifies store
      ensures BalancesInRange(store.db)
      ensures (store.db, response) == Outcome(old(store.db), rates, user, req, wild)
      ensures status == Status(response)
      ensures status != 200 ==> store.db == old(store.db)
    {
      if !Binds(req) { return 400, Refused(InvalidRequest); }
      var fromAccount := ValidAccount(req.fromId, req.currency);
      if fromAccount.Failure? {
        return if fromAccount.refusal == AccountNotFound then 404 else 400, Refused(fromAccount.refusal);
      }
      if fromAccount.value.owner != user { return 401, Refused(NotOwner); }
      var toAccount := store.GetAccount(req.toId);
      if toAccount.None? { return 404, Refused(AccountNotFound); }
      var credit := ExchangeResult(rates, fromAccount.value.currency, toAccount.value.currency, req.amount, wild);
      if credit.Failure? { return 404, Refused(credit.refusal); }
      var result, err := store.TransferTx(TransferArg(req.fromId, req.toId, req.amount, credit.value));
      if err.Some? {
        return if err.value == InsufficientBalance then 400 else 500, Failed(err.value);
      }
      return 200, Done(result);
    }
  }

  /** Who asked for a transaction, with the rates it was quoted. */
  datatype Quote = Quote(user: string, req: Request, fromRate: Rate, toRate: Rate, wild: Int64)

  datatype Service = Service(core: System, quotes: map<nat, Quote>)

  /** A request either starts a transaction or changes nothing; the statements then interleave. */
  datatype Action = Submit(txn: nat, user: string, req: Request, wild: Int64) | Step(l: Label)

  function Act(rates: Rates, b: Service, action: Action): Option<Service> {
    match action
    case Submit(t, user, req, wild) =>
      (match Admit(b.core.db, rates, user, req, wild)
       case Failure(_) => Some(b)
       case Success(arg) =>
         var accounts := b.core.db.accounts;
         var quote := Quote(user, req, rates[accounts[req.fromId].currency], rates[accounts[req.toId].currency], wild);
         match Next(b.core, Begin(t, arg))
         case None => None
         case Some(core) => Some(Service(core, b.quotes[t := quote])))
    case Step(l) =>
      if l.Begin? then None
      else
        match Next(b.core, l)
        case None => None
        case Some(core) => Some(Service(core, b.quotes))
  }

  function Serve(rates: Rates, b: Service, actions: seq<Action>): Option<Service>
    decreases |actions|
  {
    if actions == [] then Some(b)
    else
      match Serve(rates, b, actions[..|actions| - 1])
      case None => None
      case Some(m) => Act(rates, m, actions[|actions| - 1])
  }

  function Opening(db: Database): Service {
    Service(Start(db), map[])
  }
}
