/** Whole interleaved runs of transfer requests: who can lower a balance, and what happens to value. */
module TransferRuns {
  import opened Bank
  import opened TransferProtocol
  import opened TransferInvariant
  import opened Exchange
  import opened TransferApi
  import CommitHistory
  import Sums

  /** The transaction is the transfer that the quote's request asked for, by the owner of the paying account. */
  ghost predicate Licensed(db: Database, rates: Rates, q: Quote, arg: TransferArg) {
    && {arg.fromId, arg.toId} <= db.accounts.Keys
    && arg.fromId == q.req.fromId && arg.toId == q.req.toId && arg.fromAmount == q.req.amount
    && q.req.amount > 0
    && db.accounts[arg.fromId].owner == q.user
    && db.accounts[arg.fromId].currency == q.req.currency
    && db.accounts[arg.fromId].currency in rates && q.fromRate == rates[db.accounts[arg.fromId].currency]
    && db.accounts[arg.toId].currency in rates && q.toRate == rates[db.accounts[arg.toId].currency]
    && arg.toAmount == Exchanged(q.fromRate, q.toRate, q.req.amount, q.wild)
  }

  ghost predicate AllLicensed(rates: Rates, b: Service) {
    forall t :: t in b.core.txns ==> t in b.quotes && Licensed(b.core.db, rates, b.quotes[t], b.core.txns[t].arg)
  }

  /** Accounts keep their owner and currency for ever. */
  predicate SameAccounts(db: Database, db': Database) {
    && db.accounts.Keys <= db'.accounts.Keys
    && forall a :: a in db.accounts ==>
         db'.accounts[a].owner == db.accounts[a].owner && db'.accounts[a].currency == db.accounts[a].currency
  }

  lemma AccountsStay(s: System, l: Label)
    requires Next(s, l).Some?
    ensures SameAccounts(s.db, Next(s, l).value.db)
    ensures s.txns.Keys <= Next(s, l).value.txns.Keys
    ensures forall t :: t in s.txns ==> Next(s, l).value.txns[t].arg == s.txns[t].arg
  {
  }

  lemma ActLicensed(rates: Rates, b: Service, action: Action)
    requires AllLicensed(rates, b) && Act(rates, b, action).Some?
    ensures AllLicensed(rates, Act(rates, b, action).value)
  {
    var b' := Act(rates, b, action).value;
    if action.Step? {
      AccountsStay(b.core, action.l);
      forall t | t in b'.core.txns
        ensures t in b'.quotes && Licensed(b'.core.db, rates, b'.quotes[t], b'.core.txns[t].arg)
      {
        assert t in b.core.txns;
      }
    }
  }

  ghost predicate ServiceInv(rates: Rates, b: Service) {
    Inv(b.core) && AllLicensed(rates, b)
  }

  lemma ActInv(rates: Rates, b: Service, action: Action)
    requires ServiceInv(rates, b) && Act(rates, b, action).Some?
    ensures ServiceInv(rates, Act(rates, b, action).value)
  {
    ActLicensed(rates, b, action);
    match action
    case Submit(t, user, req, wild) =>
      var admitted := Admit(b.core.db, rates, user, req, wild);
      if admitted.Success? { StepInv(b.core, Begin(t, admitted.value)); }
    case Step(l) => StepInv(b.core, l);
  }

  lemma {:induction false} ServeInv(db: Database, rates: Rates, actions: seq<Action>)
    requires BalancesInRange(db) && Serve(rates, Opening(db), actions).Some?
    ensures ServiceInv(rates, Serve(rates, Opening(db), actions).value)
    decreases |actions|
  {
    if actions == [] {
      StartInv(db);
    } else {
      var rest := actions[..|actions| - 1];
      ServeInv(db, rates, rest);
      ActInv(rates, Serve(rates, Opening(db), rest).value, actions[|actions| - 1]);
    }
  }

  /** The converted amount of the request fits int64. */
  predicate Fits(q: Quote) {
    InRange(Converted(q.fromRate, q.toRate, q.req.amount))
  }

  /**
   Main theorem on provenance. In any run, the only step that lowers an account's balance
   is the commit of a transfer that its owner requested, from that account, naming its
   currency, with a positive amount; the one exception is the credit of a conversion that
   does not fit int64.
   */
  lemma DebitProvenance(db: Database, rates: Rates, actions: seq<Action>, action: Action, a: int)
    requires BalancesInRange(db) && Serve(rates, Opening(db), actions).Some?
    requires Act(rates, Serve(rates, Opening(db), actions).value, action).Some?
    requires var b := Serve(rates, Opening(db), actions).value;
             a in b.core.db.accounts
             && BalanceRead(Act(rates, b, action).value.core.db, a) < b.core.db.accounts[a].balance
    ensures var b := Serve(rates, Opening(db), actions).value;
            && action.Step? && action.l.Exec? && action.l.txn in b.core.txns && action.l.txn in b.quotes
            && b.core.txns[action.l.txn].stage.Commit?
            && var q := b.quotes[action.l.txn];
               || (q.req.fromId == a && q.user == b.core.db.accounts[a].owner
                   && q.req.currency == b.core.db.accounts[a].currency && q.req.amount > 0)
               || (q.req.toId == a && !Fits(q))
  {
    ServeInv(db, rates, actions);
    var b := Serve(rates, Opening(db), actions).value;
    if action.Step? && action.l.Exec? && action.l.txn in b.core.txns && b.core.txns[action.l.txn].stage.Commit? {
      var t := b.core.txns[action.l.txn];
      var q := b.quotes[action.l.txn];
      CommitIsPay(b.core.db, t);
      assert Licensed(b.core.db, rates, q, t.arg);
      ConversionLoss(q.fromRate, q.toRate, q.req.amount);
    }
  }

  function RateOf(rates: Rates, currency: string): real {
    if currency in rates then rates[currency] else 0.0
  }

  function Scaled(units: int, rate: real): real {
    units as real * rate
  }

  function Worths(db: Database, rates: Rates): map<int, real> {
    map a | a in db.accounts :: Scaled(db.accounts[a].balance, RateOf(rates, db.accounts[a].currency))
  }

  /** What all accounts together are worth. */
  ghost function Value(db: Database, rates: Rates): real {
    Sums.SumReal(Worths(db, rates))
  }

  /** Two changes of a map, possibly of the same value. */
  lemma TwoChanges(before: map<int, real>, after: map<int, real>, i: int, di: real, j: int, dj: real)
    requires i in before && j in before && after.Keys == before.Keys
    requires forall a :: a in before ==> after[a] == before[a] + (if a == i then di else 0.0) + (if a == j then dj else 0.0)
    ensures Sums.SumReal(after) == Sums.SumReal(before) + di + dj
  {
    var x := before[i] + di;
    var between := before[i := x];
    var y := between[j] + dj;
    var both := between[j := y];
    assert both.Keys == before.Keys;
    forall a | a in before
      ensures after[a] == both[a]
    {
    }
    assert after == both;
    Sums.SumRealUpdate(before, i, x);
    Sums.SumRealUpdate(between, j, y);
  }

  lemma ScaledSum(x: int, y: int, z: int, rate: real)
    ensures Scaled(x + y + z, rate) == Scaled(x, rate) + Scaled(y, rate) + Scaled(z, rate)
  {
  }

  lemma ScaledNothing(rate: real)
    ensures Scaled(0, rate) == 0.0
  {
  }

  /** What a transfer's debit and credit are worth. */
  function DebitWorth(db: Database, rates: Rates, arg: TransferArg): real
    requires arg.fromId in db.accounts
  {
    Scaled(Negate(arg.fromAmount), RateOf(rates, db.accounts[arg.fromId].currency))
  }

  function CreditWorth(db: Database, rates: Rates, arg: TransferArg): real
    requires arg.toId in db.accounts
  {
    Scaled(arg.toAmount, RateOf(rates, db.accounts[arg.toId].currency))
  }

  lemma WorthAfter(db: Database, rates: Rates, arg: TransferArg, a: int)
    requires a in db.accounts && {arg.fromId, arg.toId} <= db.accounts.Keys
    ensures Worths(Pay(db, arg), rates)[a] ==
            Worths(db, rates)[a]
            + (if a == arg.fromId then DebitWorth(db, rates, arg) else 0.0)
            + (if a == arg.toId then CreditWorth(db, rates, arg) else 0.0)
  {
    hide Scaled;
    var before, rate := db.accounts[a].balance, RateOf(rates, db.accounts[a].currency);
    ScaledSum(before,
              if a == arg.fromId then Negate(arg.fromAmount) else 0,
              if a == arg.toId then arg.toAmount else 0,
              rate);
    ScaledNothing(rate);
  }

  lemma WorthsAfter(db: Database, rates: Rates, arg: TransferArg, debit: real, credit: real)
    requires {arg.fromId, arg.toId} <= db.accounts.Keys
    requires debit == DebitWorth(db, rates, arg) && credit == CreditWorth(db, rates, arg)
    ensures Worths(Pay(db, arg), rates).Keys == Worths(db, rates).Keys == db.accounts.Keys
    ensures forall a :: a in Worths(db, rates) ==>
              Worths(Pay(db, arg), rates)[a] ==
              Worths(db, rates)[a] + (if a == arg.fromId then debit else 0.0) + (if a == arg.toId then credit else 0.0)
  {
    forall a | a in db.accounts
      ensures Worths(Pay(db, arg), rates)[a] ==
              Worths(db, rates)[a] + (if a == arg.fromId then debit else 0.0) + (if a == arg.toId then credit else 0.0)
    {
      WorthAfter(db, rates, arg, a);
    }
  }

  /** A transfer changes the value by what it credits less what it debits. */
  lemma PayValue(db: Database, rates: Rates, arg: TransferArg)
    requires {arg.fromId, arg.toId} <= db.accounts.Keys
    ensures Value(Pay(db, arg), rates) ==
            Value(db, rates) + DebitWorth(db, rates, arg) + CreditWorth(db, rates, arg)
  {
    var debit, credit := DebitWorth(db, rates, arg), CreditWorth(db, rates, arg);
    WorthsAfter(db, rates, arg, debit, credit);
    TwoChanges(Worths(db, rates), Worths(Pay(db, arg), rates), arg.fromId, debit, arg.toId, credit);
  }

  /** The destination rates of the committed transfers, summed. */
  function PaidRates(quotes: map<nat, Quote>, h: seq<Event>): real
    decreases |h|
  {
    if h == [] then 0.0
    else
      PaidRates(quotes, h[..|h| - 1])
      + if h[|h| - 1].Paid? && h[|h| - 1].txn in quotes then quotes[h[|h| - 1].txn].toRate else 0.0
  }

  ghost predicate AnyPaid(h: seq<Event>) {
    exists i :: 0 <= i < |h| && h[i].Paid?
  }

  /** A credit that does not fit int64 is more than any value of that type. */
  lemma CreditAtMost(q: Quote)
    requires q.req.amount > 0
    ensures var credit := Exchanged(q.fromRate, q.toRate, q.req.amount, q.wild);
            && Worth(credit, q.toRate) <= Worth(Converted(q.fromRate, q.toRate, q.req.amount), q.toRate)
            && (Fits(q) ==> credit == Converted(q.fromRate, q.toRate, q.req.amount))
  {
    ConversionLoss(q.fromRate, q.toRate, q.req.amount);
    if !Fits(q) {
      WorthOrder(q.wild, Converted(q.fromRate, q.toRate, q.req.amount), q.toRate);
    }
  }

  lemma LicensedLoss(db: Database, rates: Rates, q: Quote, arg: TransferArg)
    requires Licensed(db, rates, q, arg)
    ensures var loss := -(DebitWorth(db, rates, arg) + CreditWorth(db, rates, arg));
            && 0.0 <= loss
            && (Fits(q) ==> loss < q.toRate)
            && (q.fromRate == q.toRate ==> loss == 0.0)
  {
    hide Converted, Exchanged;
    ConversionLoss(q.fromRate, q.toRate, q.req.amount);
    CreditAtMost(q);
    if q.fromRate == q.toRate { SameCurrency(q.fromRate, q.req.amount); }
    assert DebitWorth(db, rates, arg) == -Worth(q.req.amount, q.fromRate);
    assert CreditWorth(db, rates, arg) == Worth(arg.toAmount, q.toRate);
  }

  /** One commit of a licensed transfer gains nothing; if it fits, it loses less than its destination rate. */
  lemma CommitLoss(rates: Rates, b: Service, t: nat)
    requires ServiceInv(rates, b) && t in b.core.txns && b.core.txns[t].stage.Commit?
    ensures var loss := Value(b.core.db, rates) - Value(Install(b.core.db, b.core.txns[t]), rates);
            && 0.0 <= loss
            && (Fits(b.quotes[t]) ==> loss < b.quotes[t].toRate)
            && (b.quotes[t].fromRate == b.quotes[t].toRate ==> loss == 0.0)
  {
    var txn := b.core.txns[t];
    CommitIsPay(b.core.db, txn);
    PayValue(b.core.db, rates, txn.arg);
    LicensedLoss(b.core.db, rates, b.quotes[t], txn.arg);
  }

  ghost predicate AllFit(b: Service) {
    forall t :: t in b.quotes ==> Fits(b.quotes[t])
  }

  lemma OpenValue(db: Database, rates: Rates, id: int, owner: string, currency: string)
    requires id !in db.accounts
    ensures Value(OpenAccount(db, id, owner, currency), rates) == Value(db, rates)
  {
    var db' := OpenAccount(db, id, owner, currency);
    ScaledNothing(RateOf(rates, currency));
    var worths := Worths(db, rates)[id := 0.0];
    assert worths.Keys == Worths(db', rates).Keys;
    forall a | a in db'.accounts
      ensures Worths(db', rates)[a] == worths[a]
    {
      if a != id { assert db'.accounts[a] == db.accounts[a] && worths[a] == Worths(db, rates)[a]; }
    }
    assert Worths(db', rates) == worths;
    Sums.SumRealUpdate(Worths(db, rates), id, 0.0);
  }

  /** How the value and the committed transfers move in one action. */
  lemma ActLoss(rates: Rates, b: Service, action: Action)
    requires ServiceInv(rates, b) && Act(rates, b, action).Some?
    ensures var b' := Act(rates, b, action).value;
            var loss := Value(b.core.db, rates) - Value(b'.core.db, rates);
            if action.Step? && action.l.Exec? && b.core.txns[action.l.txn].stage.Commit? then
              && action.l.txn in b.quotes
              && b'.core.history == b.core.history + [Paid(action.l.txn, b.core.txns[action.l.txn].arg)]
              && 0.0 <= loss
              && (Fits(b.quotes[action.l.txn]) ==> loss < b.quotes[action.l.txn].toRate)
              && (b.quotes[action.l.txn].fromRate == b.quotes[action.l.txn].toRate ==> loss == 0.0)
            else loss == 0.0 && (b'.core.history == b.core.history
                                 || exists id, owner, currency :: b'.core.history == b.core.history + [Opened(id, owner, currency)])
  {
    if action.Step? {
      var l := action.l;
      if l.Exec? && b.core.txns[l.txn].stage.Commit? {
        CommitLoss(rates, b, l.txn);
      } else if l.Open? {
        OpenValue(b.core.db, rates, l.id, l.owner, l.currency);
      }
    }
  }

  lemma PaidRatesSnoc(quotes: map<nat, Quote>, h: seq<Event>, e: Event)
    ensures PaidRates(quotes, h + [e]) ==
            PaidRates(quotes, h) + if e.Paid? && e.txn in quotes then quotes[e.txn].toRate else 0.0
  {
    assert (h + [e])[..|h + [e]| - 1] == h;
  }

  /** Quotes for later transactions do not change what the committed ones add up to. */
  lemma {:induction false} PaidRatesStay(quotes: map<nat, Quote>, t: nat, q: Quote, h: seq<Event>)
    requires forall i :: 0 <= i < |h| && h[i].Paid? ==> h[i].txn != t
    ensures PaidRates(quotes[t := q], h) == PaidRates(quotes, h)
    decreases |h|
  {
    if h != [] {
      PaidRatesStay(quotes, t, q, h[..|h| - 1]);
    }
  }

  /** Only transactions of the system are in its history. */
  ghost predicate KnownHistory(b: Service) {
    forall i :: 0 <= i < |b.core.history| && b.core.history[i].Paid? ==> b.core.history[i].txn in b.core.txns
  }

  /** The account of the whole run so far: value lost against destination rates paid. */
  ghost predicate LossInv(db: Database, rates: Rates, b: Service) {
    var loss := Value(db, rates) - Value(b.core.db, rates);
    && KnownHistory(b)
    && 0.0 <= loss
    && (AnyPaid(b.core.history) && AllFit(b) ==> loss < PaidRates(b.quotes, b.core.history))
    && (!AnyPaid(b.core.history) ==> loss == 0.0 && PaidRates(b.quotes, b.core.history) == 0.0)
  }

  lemma AnyPaidSnoc(h: seq<Event>, e: Event)
    ensures AnyPaid(h + [e]) <==> AnyPaid(h) || e.Paid?
  {
    if AnyPaid(h) {
      var i :| 0 <= i < |h| && h[i].Paid?;
      assert (h + [e])[i].Paid?;
    }
    assert (h + [e])[|h|] == e;
  }

  /** Adding one event to the history, with the value it costs. */
  lemma LossEvent(db: Database, rates: Rates, b: Service, b': Service, e: Event)
    requires LossInv(db, rates, b) && KnownHistory(b')
    requires b'.quotes == b.quotes && b'.core.history == b.core.history + [e]
    requires e.Paid? ==> e.txn in b.quotes
    requires var loss := Value(b.core.db, rates) - Value(b'.core.db, rates);
             if e.Paid? then 0.0 <= loss && (Fits(b.quotes[e.txn]) ==> loss < b.quotes[e.txn].toRate) else loss == 0.0
    ensures LossInv(db, rates, b')
  {
    hide Value, PaidRates, AnyPaid, Fits;
    PaidRatesSnoc(b.quotes, b.core.history, e);
    AnyPaidSnoc(b.core.history, e);
  }

  lemma SubmitLoss(db: Database, rates: Rates, b: Service, action: Action)
    requires LossInv(db, rates, b) && b.quotes.Keys == b.core.txns.Keys
    requires action.Submit? && Act(rates, b, action).Some?
    ensures LossInv(db, rates, Act(rates, b, action).value)
  {
    hide Value, PaidRates, AnyPaid, Fits;
    var b' := Act(rates, b, action).value;
    if b' != b {
      QuotesStay(rates, b, action);
      PaidRatesStay(b.quotes, action.txn, b'.quotes[action.txn], b.core.history);
    }
  }

  lemma ActKnown(rates: Rates, b: Service, action: Action)
    requires KnownHistory(b) && Act(rates, b, action).Some?
    ensures KnownHistory(Act(rates, b, action).value)
    ensures action.Step? ==> Act(rates, b, action).value.quotes == b.quotes
  {
  }

  lemma LossStep(db: Database, rates: Rates, b: Service, action: Action)
    requires ServiceInv(rates, b) && LossInv(db, rates, b) && b.quotes.Keys == b.core.txns.Keys
    requires Act(rates, b, action).Some?
    ensures LossInv(db, rates, Act(rates, b, action).value)
  {
    var b' := Act(rates, b, action).value;
    ActLoss(rates, b, action);
    ActKnown(rates, b, action);
    if action.Submit? {
      SubmitLoss(db, rates, b, action);
    } else if b'.core.history != b.core.history {
      LossEvent(db, rates, b, b', b'.core.history[|b.core.history|]);
    }
  }

  /** Quotes are added and never changed, one for each transaction. */
  lemma QuotesStay(rates: Rates, b: Service, action: Action)
    requires b.quotes.Keys == b.core.txns.Keys && Act(rates, b, action).Some?
    ensures var b' := Act(rates, b, action).value;
            && b'.quotes.Keys == b'.core.txns.Keys
            && forall t :: t in b.quotes ==> t in b'.quotes && b'.quotes[t] == b.quotes[t]
  {
    if action.Step? { AccountsStay(b.core, action.l); }
  }

  lemma {:induction false} QuotedRun(db: Database, rates: Rates, actions: seq<Action>)
    requires BalancesInRange(db) && Serve(rates, Opening(db), actions).Some?
    ensures var b := Serve(rates, Opening(db), actions).value;
            ServiceInv(rates, b) && LossInv(db, rates, b) && b.quotes.Keys == b.core.txns.Keys
    decreases |actions|
  {
    ServeInv(db, rates, actions);
    QuotesForAll(db, rates, actions);
    if actions != [] {
      var rest := actions[..|actions| - 1];
      QuotedRun(db, rates, rest);
      LossStep(db, rates, Serve(rates, Opening(db), rest).value, actions[|actions| - 1]);
    }
  }

  lemma {:induction false} QuotesForAll(db: Database, rates: Rates, actions: seq<Action>)
    requires Serve(rates, Opening(db), actions).Some?
    ensures var b := Serve(rates, Opening(db), actions).value; b.quotes.Keys == b.core.txns.Keys
    decreases |actions|
  {
    if actions != [] {
      QuotesForAll(db, rates, actions[..|actions| - 1]);
      QuotesStay(rates, Serve(rates, Opening(db), actions[..|actions| - 1]).value, actions[|actions| - 1]);
    }
  }

  /**
   Main theorem on value. In any interleaved run the accounts together never gain value;
   with no transfer committed they keep it. When all conversions fit int64, what they lose
   is less than the destination rates of the committed transfers, summed.
   */
  lemma ValueNeverCreated(db: Database, rates: Rates, actions: seq<Action>)
    requires BalancesInRange(db) && Serve(rates, Opening(db), actions).Some?
    ensures var b := Serve(rates, Opening(db), actions).value;
            && Value(b.core.db, rates) <= Value(db, rates)
            && (!AnyPaid(b.core.history) ==> Value(b.core.db, rates) == Value(db, rates))
            && (AnyPaid(b.core.history) && AllFit(b) ==>
                  Value(db, rates) - Value(b.core.db, rates) < PaidRates(b.quotes, b.core.history))
  {
    QuotedRun(db, rates, actions);
  }

  ghost predicate AllSameRate(b: Service) {
    forall t :: t in b.quotes ==> b.quotes[t].fromRate == b.quotes[t].toRate
  }

  /** Transfers within currencies of equal rate, in particular within one, conserve the value exactly. */
  lemma {:induction false} SameCurrencyConserves(db: Database, rates: Rates, actions: seq<Action>)
    requires BalancesInRange(db) && Serve(rates, Opening(db), actions).Some?
    requires AllSameRate(Serve(rates, Opening(db), actions).value)
    ensures Value(Serve(rates, Opening(db), actions).value.core.db, rates) == Value(db, rates)
    decreases |actions|
  {
    if actions != [] {
      var rest, action := actions[..|actions| - 1], actions[|actions| - 1];
      var m := Serve(rates, Opening(db), rest).value;
      ServeInv(db, rates, rest);
      QuotesForAll(db, rates, rest);
      QuotesStay(rates, m, action);
      assert AllSameRate(m) by {
        forall t | t in m.quotes
          ensures m.quotes[t].fromRate == m.quotes[t].toRate
        {
          assert Act(rates, m, action).value.quotes[t] == m.quotes[t];
        }
      }
      SameCurrencyConserves(db, rates, rest);
      ActLoss(rates, m, action);
    }
  }
}
