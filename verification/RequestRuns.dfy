/** What the results on interleaved transfers say about runs of requests to the service. */
module RequestRuns {
  import opened Bank
  import opened TransferProtocol
  import opened TransferInvariant
  import opened Exchange
  import opened TransferApi
  import opened TransferRuns
  import opened Overdraft
  import opened Ledger
  import Sums

  predicate Turned(rates: Rates, b: Service, action: Action) {
    action.Submit? && Admit(b.core.db, rates, action.user, action.req, action.wild).Failure?
  }

  /** What an action asks of the transfer protocol. */
  function Asked(rates: Rates, b: Service, action: Action): seq<Label> {
    match action
    case Submit(t, user, req, wild) =>
      (match Admit(b.core.db, rates, user, req, wild)
       case Failure(_) => []
       case Success(arg) => [Begin(t, arg)])
    case Step(l) => [l]
  }

  function CoreLabels(db: Database, rates: Rates, actions: seq<Action>): seq<Label>
    requires Serve(rates, Opening(db), actions).Some?
    decreases |actions|
  {
    if actions == [] then []
    else
      var rest := actions[..|actions| - 1];
      CoreLabels(db, rates, rest) + Asked(rates, Serve(rates, Opening(db), rest).value, actions[|actions| - 1])
  }

  lemma AskedRuns(rates: Rates, b: Service, action: Action)
    requires Act(rates, b, action).Some?
    ensures Run(b.core, Asked(rates, b, action)) == Some(Act(rates, b, action).value.core)
  {
    var asked := Asked(rates, b, action);
    if asked != [] { RunStep(b.core, asked[0]); }
  }

  /** Every run of requests is an interleaved run of the transfers that it admits. */
  lemma {:induction false} CoreIsRun(db: Database, rates: Rates, actions: seq<Action>)
    requires Serve(rates, Opening(db), actions).Some?
    ensures Run(Start(db), CoreLabels(db, rates, actions)) == Some(Serve(rates, Opening(db), actions).value.core)
    decreases |actions|
  {
    if actions != [] {
      var rest := actions[..|actions| - 1];
      var m := Serve(rates, Opening(db), rest).value;
      CoreIsRun(db, rates, rest);
      AskedRuns(rates, m, actions[|actions| - 1]);
      RunConcat(Start(db), CoreLabels(db, rates, rest), Asked(rates, m, actions[|actions| - 1]));
    }
  }

  /** At every moment at most `k` transfers out of account `a` are in flight. */
  ghost predicate AtMostServed(db: Database, rates: Rates, actions: seq<Action>, a: int, k: nat)
    decreases |actions|
  {
    && Serve(rates, Opening(db), actions).Some?
    && |Paying(Serve(rates, Opening(db), actions).value.core, a)| <= k
    && (actions != [] ==> AtMostServed(db, rates, actions[..|actions| - 1], a, k))
  }

  lemma {:induction false} ServedIsPaying(db: Database, rates: Rates, actions: seq<Action>, a: int, k: nat)
    requires AtMostServed(db, rates, actions, a, k)
    ensures AtMostPaying(Start(db), CoreLabels(db, rates, actions), a, k)
    decreases |actions|
  {
    CoreIsRun(db, rates, actions);
    if actions != [] {
      var rest := actions[..|actions| - 1];
      ServedIsPaying(db, rates, rest, a, k);
      var ls, asked := CoreLabels(db, rates, rest), Asked(rates, Serve(rates, Opening(db), rest).value, actions[|actions| - 1]);
      if asked == [] {
        assert ls + asked == ls;
      } else {
        assert (ls + asked)[..|ls + asked| - 1] == ls;
      }
    }
  }

  /** Conversions into account `a` fit int64. */
  ghost predicate FitInto(b: Service, a: int) {
    forall t :: t in b.quotes && b.quotes[t].req.toId == a ==> Fits(b.quotes[t])
  }

  ghost predicate AtMostAsked(b: Service, a: int, most: nat) {
    forall t :: t in b.quotes && b.quotes[t].req.fromId == a ==> b.quotes[t].req.amount <= most
  }

  /** The binding rules and the conversion give every transfer the amounts that the bounds need. */
  lemma RequestAmounts(rates: Rates, b: Service, t: nat, a: int)
    requires AllLicensed(rates, b) && FitInto(b, a) && t in b.core.txns
    ensures t in b.quotes && Positive(b.core.txns[t].arg, a)
    ensures b.core.txns[t].arg.fromId == b.quotes[t].req.fromId && b.core.txns[t].arg.fromAmount == b.quotes[t].req.amount
  {
    var q := b.quotes[t];
    assert Licensed(b.core.db, rates, q, b.core.txns[t].arg);
    ConversionLoss(q.fromRate, q.toRate, q.req.amount);
  }

  /**
   Overdrafts by requests. With at most `k` requests of the owner of an account in flight,
   each for at most `most`, and credits to it that fit int64, its balance does not fall
   below -(k - 1) * most.
   */
  lemma RequestOverdraft(db: Database, rates: Rates, actions: seq<Action>, a: int, k: nat, most: nat)
    requires BalancesInRange(db) && k >= 1 && AtMostServed(db, rates, actions, a, k)
    requires var b := Serve(rates, Opening(db), actions).value; FitInto(b, a) && AtMostAsked(b, a, most)
    requires BalanceRead(db, a) >= -((k - 1) * most)
    ensures BalanceRead(Serve(rates, Opening(db), actions).value.core.db, a) >= -((k - 1) * most)
  {
    var b := Serve(rates, Opening(db), actions).value;
    ServeInv(db, rates, actions);
    CoreIsRun(db, rates, actions);
    ServedIsPaying(db, rates, actions, a, k);
    forall t | t in b.core.txns
      ensures Modest(b.core.txns[t].arg, a, most)
    {
      RequestAmounts(rates, b, t, a);
    }
    OverdraftBound(db, CoreLabels(db, rates, actions), a, k, most);
  }

  /** Whatever is requested, an account's negative entries are its outgoing transfers when the credits to it fit. */
  lemma RequestLedger(db: Database, rates: Rates, actions: seq<Action>, a: int)
    requires BalancesInRange(db) && Serve(rates, Opening(db), actions).Some?
    requires FitInto(Serve(rates, Opening(db), actions).value, a)
    requires Debits(db.entries, a) == Outgoing(db.transfers, a)
    ensures var after := Serve(rates, Opening(db), actions).value.core.db;
            && Debits(after.entries, a) == Outgoing(after.transfers, a)
            && Gap(after, a) == Gap(db, a)
  {
    var b := Serve(rates, Opening(db), actions).value;
    ServeInv(db, rates, actions);
    CoreIsRun(db, rates, actions);
    forall t | t in b.core.txns
      ensures Positive(b.core.txns[t].arg, a)
    {
      RequestAmounts(rates, b, t, a);
    }
    DebitsAreTransfers(db, CoreLabels(db, rates, actions), a);
    NoDrift(db, CoreLabels(db, rates, actions), a);
  }

  /** The run without the requests that were refused. */
  function Accepted(db: Database, rates: Rates, actions: seq<Action>): seq<Action>
    requires Serve(rates, Opening(db), actions).Some?
    decreases |actions|
  {
    if actions == [] then []
    else
      var rest, action := actions[..|actions| - 1], actions[|actions| - 1];
      if Turned(rates, Serve(rates, Opening(db), rest).value, action) then Accepted(db, rates, rest)
      else Accepted(db, rates, rest) + [action]
  }

  ghost predicate NoneTurned(db: Database, rates: Rates, actions: seq<Action>)
    decreases |actions|
  {
    actions != [] ==>
      && NoneTurned(db, rates, actions[..|actions| - 1])
      && Serve(rates, Opening(db), actions[..|actions| - 1]).Some?
      && !Turned(rates, Serve(rates, Opening(db), actions[..|actions| - 1]).value, actions[|actions| - 1])
  }

  /** Refused requests can be taken out of any run: the service ends the same, and refuses none of the rest. */
  lemma {:induction false} RefusalsErased(db: Database, rates: Rates, actions: seq<Action>)
    requires Serve(rates, Opening(db), actions).Some?
    ensures Serve(rates, Opening(db), Accepted(db, rates, actions)) == Serve(rates, Opening(db), actions)
    ensures NoneTurned(db, rates, Accepted(db, rates, actions))
    decreases |actions|
  {
    if actions != [] {
      var rest, action := actions[..|actions| - 1], actions[|actions| - 1];
      RefusalsErased(db, rates, rest);
      var kept := Accepted(db, rates, rest);
      assert (kept + [action])[..|kept + [action]| - 1] == kept;
    }
  }
}
