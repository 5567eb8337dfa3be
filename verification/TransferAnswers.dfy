/** What a transfer request is answered, and what it pays, as conditions on the tables and the rates. */
module TransferAnswers {
  import opened Bank
  import opened TransferProtocol
  import opened TransferInvariant
  import opened CommitHistory
  import opened SoloTransfer
  import opened Exchange
  import opened TransferApi

  predicate WellFormed(req: Request) {
    && 1 <= req.fromId && 1 <= req.toId && 0 < req.amount
    && (req.currency == "USD" || req.currency == "EUR" || req.currency == "CAD")
  }

  /** The paying account is open, in the currency that the request names, and the user's own. */
  predicate FromOwn(db: Database, user: string, req: Request) {
    && req.fromId in db.accounts
    && db.accounts[req.fromId].currency == req.currency
    && db.accounts[req.fromId].owner == user
  }

  predicate RatesKnown(db: Database, rates: Rates, req: Request)
    requires req.fromId in db.accounts && req.toId in db.accounts
  {
    db.accounts[req.fromId].currency in rates && db.accounts[req.toId].currency in rates
  }

  /** A request that the guards have nothing against. */
  predicate Proper(db: Database, rates: Rates, user: string, req: Request) {
    WellFormed(req) && FromOwn(db, user, req) && req.toId in db.accounts && RatesKnown(db, rates, req)
  }

  /** The credit, in the receiver's currency. */
  function CreditOf(db: Database, rates: Rates, req: Request, wild: Int64): Int64
    requires req.fromId in db.accounts && req.toId in db.accounts && RatesKnown(db, rates, req)
  {
    Exchanged(rates[db.accounts[req.fromId].currency], rates[db.accounts[req.toId].currency], req.amount, wild)
  }

  /** Both new balances fit int64. */
  predicate Room(db: Database, req: Request, credit: int)
    requires req.fromId in db.accounts && req.toId in db.accounts
  {
    && InRange(db.accounts[req.toId].balance + credit)
    && InRange(db.accounts[req.fromId].balance - req.amount + if req.fromId == req.toId then credit else 0)
  }

  /** Exactly the proper requests are admitted, with the amounts to debit and to credit. */
  lemma AdmissionIff(db: Database, rates: Rates, user: string, req: Request, wild: Int64)
    ensures Admit(db, rates, user, req, wild).Success? <==> Proper(db, rates, user, req)
    ensures Proper(db, rates, user, req) ==>
              Admit(db, rates, user, req, wild)
              == Success(TransferArg(req.fromId, req.toId, req.amount, CreditOf(db, rates, req, wild)))
  {
  }

  /** Every response, and exactly when it is given, in the order of the guards. */
  lemma ResponseIff(db: Database, rates: Rates, user: string, req: Request, wild: Int64)
    ensures var r := Outcome(db, rates, user, req, wild).1;
            var fromOpen, toOpen := req.fromId in db.accounts, req.toId in db.accounts;
            && (r == Refused(InvalidRequest) <==> !WellFormed(req))
            && (r == Refused(AccountNotFound) <==> WellFormed(req) && (!fromOpen || (FromOwn(db, user, req) && !toOpen)))
            && (r == Refused(CurrencyMismatch) <==> WellFormed(req) && fromOpen && db.accounts[req.fromId].currency != req.currency)
            && (r == Refused(NotOwner) <==>
                  WellFormed(req) && fromOpen && db.accounts[req.fromId].currency == req.currency && db.accounts[req.fromId].owner != user)
            && (r == Refused(RateNotFound) <==>
                  WellFormed(req) && FromOwn(db, user, req) && toOpen && !RatesKnown(db, rates, req))
            && (r == Failed(InsufficientBalance) <==>
                  Proper(db, rates, user, req) && db.accounts[req.fromId].balance < req.amount)
            && (r == Failed(OutOfRange) <==>
                  && Proper(db, rates, user, req) && req.amount <= db.accounts[req.fromId].balance
                  && !Room(db, req, CreditOf(db, rates, req, wild)))
            && (r.Done? <==>
                  && Proper(db, rates, user, req) && req.amount <= db.accounts[req.fromId].balance
                  && Room(db, req, CreditOf(db, rates, req, wild)))
            && (r.Failed? ==> r.error == InsufficientBalance || r.error == OutOfRange)
  {
    AdmissionIff(db, rates, user, req, wild);
    hide Exchanged;
  }

  /** The HTTP status of every request, from the tables, the rates and the request alone. */
  lemma StatusIff(db: Database, rates: Rates, user: string, req: Request, wild: Int64)
    ensures var status := Status(Outcome(db, rates, user, req, wild).1);
            var fromOpen, toOpen := req.fromId in db.accounts, req.toId in db.accounts;
            && (status == 200 <==>
                  && Proper(db, rates, user, req) && req.amount <= db.accounts[req.fromId].balance
                  && Room(db, req, CreditOf(db, rates, req, wild)))
            && (status == 400 <==>
                  || !WellFormed(req)
                  || (fromOpen && db.accounts[req.fromId].currency != req.currency)
                  || (Proper(db, rates, user, req) && db.accounts[req.fromId].balance < req.amount))
            && (status == 401 <==>
                  WellFormed(req) && fromOpen && db.accounts[req.fromId].currency == req.currency && db.accounts[req.fromId].owner != user)
            && (status == 404 <==>
                  WellFormed(req) && (!fromOpen || (FromOwn(db, user, req) && (!toOpen || !RatesKnown(db, rates, req)))))
            && (status == 500 <==>
                  && Proper(db, rates, user, req) && req.amount <= db.accounts[req.fromId].balance
                  && !Room(db, req, CreditOf(db, rates, req, wild)))
  {
    ResponseIff(db, rates, user, req, wild);
    hide Outcome;
  }

  /** The whole new tables of a request that is paid, and that every other one leaves them alone. */
  lemma PaysExactly(db: Database, rates: Rates, user: string, req: Request, wild: Int64)
    ensures var (after, r) := Outcome(db, rates, user, req, wild);
            if r.Done? then
              && {req.fromId, req.toId} <= db.accounts.Keys && RatesKnown(db, rates, req)
              && var from, to, credit := db.accounts[req.fromId], db.accounts[req.toId], CreditOf(db, rates, req, wild);
                 && after.accounts
                    == (if req.fromId == req.toId
                        then db.accounts[req.fromId := from.(balance := from.balance - req.amount + credit)]
                        else db.accounts[req.fromId := from.(balance := from.balance - req.amount)]
                                        [req.toId := to.(balance := to.balance + credit)])
                 && after.entries == db.entries + [Entry(req.fromId, -req.amount), Entry(req.toId, credit)]
                 && after.transfers == db.transfers + [Transfer(req.fromId, req.toId, req.amount)]
            else after == db
  {
    AdmissionIff(db, rates, user, req, wild);
    if Outcome(db, rates, user, req, wild).1.Done? {
      var from, to, credit := db.accounts[req.fromId], db.accounts[req.toId], CreditOf(db, rates, req, wild);
      PayAccounts(db, TransferArg(req.fromId, req.toId, req.amount, credit));
    }
    hide Exchanged;
  }

  /** A request that is paid returns the rows it wrote; one within an account returns the credited row before the debit. */
  lemma ReturnsRows(db: Database, rates: Rates, user: string, req: Request, wild: Int64)
    ensures var (after, r) := Outcome(db, rates, user, req, wild);
            r.Done? ==>
              && {req.fromId, req.toId} <= db.accounts.Keys && {req.fromId, req.toId} <= after.accounts.Keys && RatesKnown(db, rates, req)
              && var to, credit := db.accounts[req.toId], CreditOf(db, rates, req, wild);
                 && r.result.transfer == Some(Transfer(req.fromId, req.toId, req.amount))
                 && r.result.fromEntry == Some(Entry(req.fromId, -req.amount))
                 && r.result.toEntry == Some(Entry(req.toId, credit))
                 && r.result.fromAccount == Some(after.accounts[req.fromId])
                 && r.result.toAccount
                    == Some(if req.fromId == req.toId then to.(balance := to.balance + credit) else after.accounts[req.toId])
  {
    AdmissionIff(db, rates, user, req, wild);
    hide Exchanged;
  }

  lemma PayAccounts(db: Database, arg: TransferArg)
    requires {arg.fromId, arg.toId} <= db.accounts.Keys && 0 < arg.fromAmount
    ensures var from, to := db.accounts[arg.fromId], db.accounts[arg.toId];
            Pay(db, arg).accounts
            == (if arg.fromId == arg.toId
                then db.accounts[arg.fromId := from.(balance := from.balance - arg.fromAmount + arg.toAmount)]
                else db.accounts[arg.fromId := from.(balance := from.balance - arg.fromAmount)]
                                [arg.toId := to.(balance := to.balance + arg.toAmount)])
  {
    var from, to := db.accounts[arg.fromId], db.accounts[arg.toId];
    var after := if arg.fromId == arg.toId
                 then db.accounts[arg.fromId := from.(balance := from.balance - arg.fromAmount + arg.toAmount)]
                 else db.accounts[arg.fromId := from.(balance := from.balance - arg.fromAmount)]
                                 [arg.toId := to.(balance := to.balance + arg.toAmount)];
    assert after.Keys == db.accounts.Keys;
    forall a | a in db.accounts
      ensures Pay(db, arg).accounts[a] == after[a]
    {
    }
    assert Pay(db, arg).accounts == after;
  }

  /** Between two accounts of one currency a proper request with enough money is paid, and pays exactly the amount. */
  lemma SameCurrencyPays(db: Database, rates: Rates, user: string, req: Request, wild: Int64)
    requires BalancesInRange(db) && Proper(db, rates, user, req)
    requires req.fromId != req.toId && db.accounts[req.toId].currency == db.accounts[req.fromId].currency
    requires req.amount <= db.accounts[req.fromId].balance && db.accounts[req.toId].balance + req.amount <= MAX_INT64
    ensures var (after, r) := Outcome(db, rates, user, req, wild);
            var from, to := db.accounts[req.fromId], db.accounts[req.toId];
            && Status(r) == 200
            && after.accounts == db.accounts[req.fromId := from.(balance := from.balance - req.amount)]
                                            [req.toId := to.(balance := to.balance + req.amount)]
  {
    SameCurrency(rates[req.currency], req.amount);
    assert CreditOf(db, rates, req, wild) == req.amount;
    ResponseIff(db, rates, user, req, wild);
    PaysExactly(db, rates, user, req, wild);
    hide Outcome, CreditOf;
  }

  // ---- the transaction on its own, for any arguments ----

  /** Go's unary minus on the amount that is debited. */
  function Debited(balance: int, amount: Int64): int {
    balance + if amount == -0x8000_0000_0000_0000 then -0x8000_0000_0000_0000 else -amount
  }

  /** With which error TransferTx fails on its own: the checks in their order. */
  lemma ErrorIff(db: Database, arg: TransferArg)
    ensures var known := arg.fromId in db.accounts && arg.toId in db.accounts;
            var balance := if arg.fromId in db.accounts then db.accounts[arg.fromId].balance else 0;
            var fits := known
                        && InRange(db.accounts[arg.toId].balance + arg.toAmount)
                        && InRange(Debited(balance, arg.fromAmount) + if arg.fromId == arg.toId then arg.toAmount else 0);
            && (FailureOf(db, arg) == Some(InsufficientBalance) <==> balance < arg.fromAmount)
            && (FailureOf(db, arg) == Some(ForeignKeyViolation) <==> arg.fromAmount <= balance && !known)
            && (FailureOf(db, arg) == Some(OutOfRange) <==> arg.fromAmount <= balance && known && !fits)
            && (FailureOf(db, arg) == None <==> arg.fromAmount <= balance && fits)
  {
  }

  /** The rows that TransferTx returns together with an error: those of the statements before it. */
  lemma RowsBeforeError(db: Database, arg: TransferArg)
    requires FailureOf(db, arg).Some?
    ensures var r := Drive(db, Fresh(arg)).result;
            if FailureOf(db, arg) != Some(OutOfRange) then r == TransferResult(None, None, None, None, None)
            else
              && {arg.fromId, arg.toId} <= db.accounts.Keys
              && r.transfer == Some(Transfer(arg.fromId, arg.toId, arg.fromAmount))
              && r.fromEntry == Some(Entry(arg.fromId, Debited(0, arg.fromAmount)))
              && r.toEntry == Some(Entry(arg.toId, arg.toAmount))
              && var from, to := db.accounts[arg.fromId], db.accounts[arg.toId];
                 var debit, credit := Debited(from.balance, arg.fromAmount), to.balance + arg.toAmount;
                 if arg.fromId < arg.toId then
                   r.toAccount == None && r.fromAccount == if InRange(debit) then Some(from.(balance := debit)) else None
                 else
                   r.fromAccount == None && r.toAccount == if InRange(credit) then Some(to.(balance := credit)) else None
  {
    var t0 := Fresh(arg);
    var t1 := Statement(db, t0);
    DriveOnce(db, t0);
    if t1.stage.InsertTransfer? {
      var t2 := Statement(db, t1);
      DriveOnce(db, t1);
      if t2.stage.InsertFromEntry? {
        var t3 := Statement(db, t2);
        DriveOnce(db, t2);
        DriveOnce(db, t3);
        UpdatesBeforeError(db, Statement(db, t3));
      }
    }
  }

  lemma UpdatesBeforeError(db: Database, t: Txn)
    requires t.stage.UpdateFirst? && t.pending == map[] && {t.arg.fromId, t.arg.toId} <= db.accounts.Keys
    requires t.result.fromAccount == t.result.toAccount == None && LateFailure(db, t.arg) == Some(OutOfRange)
    ensures var r, arg := Drive(db, t).result, t.arg;
            var from, to := db.accounts[arg.fromId], db.accounts[arg.toId];
            var debit, credit := Debited(from.balance, arg.fromAmount), to.balance + arg.toAmount;
            && r.transfer == t.result.transfer && r.fromEntry == t.result.fromEntry && r.toEntry == t.result.toEntry
            && if arg.fromId < arg.toId then
                 r.toAccount == None && r.fromAccount == if InRange(debit) then Some(from.(balance := debit)) else None
               else
                 r.fromAccount == None && r.toAccount == if InRange(credit) then Some(to.(balance := credit)) else None
  {
    var first := Statement(db, t);
    DriveOnce(db, t);
    if first.stage.UpdateSecond? { DriveOnce(db, first); }
  }
}
