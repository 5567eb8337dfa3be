/** The one way to lower a balance that nobody asked for: a credit that does not fit int64. */
module CreditOverflow {
  import opened Bank
  import opened TransferProtocol
  import opened TransferInvariant
  import opened SoloTransfer
  import opened Exchange
  import opened TransferApi

  /** With this result of the conversion the request is admitted and paid, and its receiver ends up with less. */
  predicate Lowers(db: Database, rates: Rates, user: string, req: Request, wild: Int64) {
    var admitted := Admit(db, rates, user, req, wild);
    && admitted.Success?
    && FailureOf(db, admitted.value) == None
    && Pay(db, admitted.value).accounts[req.toId].balance < db.accounts[req.toId].balance
  }

  /** The guards do not look at the converted amount. */
  lemma AdmitsAnyCredit(db: Database, rates: Rates, user: string, req: Request, wild: Int64, other: Int64)
    requires Admit(db, rates, user, req, wild).Success?
    ensures Admit(db, rates, user, req, other).Success?
  {
  }

  /**
   Exactly when this can happen to another account: the payer can pay, the amount is worth
   at least 2^63 units of the receiver's currency, and the receiver is not at the least
   balance already.
   */
  lemma CreditLowersIff(db: Database, rates: Rates, user: string, req: Request, other: Int64)
    requires BalancesInRange(db) && req.fromId != req.toId && Admit(db, rates, user, req, other).Success?
    ensures var from, to := db.accounts[req.fromId], db.accounts[req.toId];
            (exists wild: Int64 :: Lowers(db, rates, user, req, wild))
            <==> from.balance >= req.amount && to.balance > MIN_INT64
                 && Worth(req.amount, rates[from.currency]) >= Worth(MAX_INT64 + 1, rates[to.currency])
  {
    var from, to := db.accounts[req.fromId], db.accounts[req.toId];
    var fromRate, toRate := rates[from.currency], rates[to.currency];
    FitsIff(fromRate, toRate, req.amount);
    ConversionLoss(fromRate, toRate, req.amount);
    if from.balance >= req.amount && to.balance > MIN_INT64 && !InRange(Converted(fromRate, toRate, req.amount)) {
      AdmitsAnyCredit(db, rates, user, req, other, -1);
      assert Lowers(db, rates, user, req, -1);
    }
  }

  function Steps(ls: seq<Label>): seq<Action> {
    seq(|ls|, i requires 0 <= i < |ls| => Step(ls[i]))
  }

  /** After a request was admitted, the statements of the protocol are those of the service. */
  lemma {:induction false} ServeSteps(rates: Rates, b: Service, action: Action, begun: Service, ls: seq<Label>)
    requires Act(rates, b, action) == Some(begun) && Run(begun.core, ls).Some?
    requires forall i :: 0 <= i < |ls| ==> !ls[i].Begin?
    ensures Serve(rates, b, [action] + Steps(ls)) == Some(Service(Run(begun.core, ls).value, begun.quotes))
    decreases |ls|
  {
    var actions := [action] + Steps(ls);
    if ls == [] {
      assert actions == [action] && [action][..0] == [];
    } else {
      var n := |ls| - 1;
      ServeSteps(rates, b, action, begun, ls[..n]);
      assert actions[..|actions| - 1] == [action] + Steps(ls[..n]);
      assert actions[|actions| - 1] == Step(ls[n]);
    }
  }

  /** Whenever it can happen, a run with this one request does it. */
  lemma LoweringRun(db: Database, rates: Rates, user: string, req: Request, wild: Int64) returns (ls: seq<Label>)
    requires BalancesInRange(db) && Lowers(db, rates, user, req, wild)
    ensures forall i :: 0 <= i < |ls| ==> ls[i] == Exec(0)
    ensures var after := Serve(rates, Opening(db), [Submit(0, user, req, wild)] + Steps(ls));
            && after.Some?
            && after.value.core.db == Pay(db, Admit(db, rates, user, req, wild).value)
            && BalanceRead(after.value.core.db, req.toId) < BalanceRead(db, req.toId)
  {
    var arg := Admit(db, rates, user, req, wild).value;
    StartInv(db);
    ls := BeginAlone(Start(db), 0, arg);
    SoloOutcome(db, arg);
    RunConcat(Start(db), [Begin(0, arg)], ls);
    RunStep(Start(db), Begin(0, arg));
    var submit := Submit(0, user, req, wild);
    ServeSteps(rates, Opening(db), submit, Act(rates, Opening(db), submit).value, ls);
  }

  /** So "payee" can end at the least int64 although only "payer" asked for anything. */
  lemma StrangerDebited() returns (ls: seq<Label>)
    ensures forall i :: 0 <= i < |ls| ==> ls[i] == Exec(0)
    ensures var db := Database(map[1 := Account("payer", "CAD", MAX_INT64), 2 := Account("payee", "USD", 0)], [], []);
            var rates: Rates := map["CAD" := 2.0, "USD" := 1.0];
            var request := Submit(0, "payer", Request(1, 2, MAX_INT64, "CAD"), MIN_INT64);
            var after := Serve(rates, Opening(db), [request] + Steps(ls));
            after.Some? && BalanceRead(after.value.core.db, 2) == MIN_INT64
  {
    var db := Database(map[1 := Account("payer", "CAD", MAX_INT64), 2 := Account("payee", "USD", 0)], [], []);
    var rates: Rates := map["CAD" := 2.0, "USD" := 1.0];
    var req := Request(1, 2, MAX_INT64, "CAD");
    FitsIff(2.0, 1.0, MAX_INT64);
    assert Admit(db, rates, "payer", req, MIN_INT64) == Success(TransferArg(1, 2, MAX_INT64, MIN_INT64));
    ls := LoweringRun(db, rates, "payer", req, MIN_INT64);
  }
}
