/**
 The balance is read before the row is locked, so concurrent transfers can overdraw an
 account. By how much is bounded exactly by how many transfers are in flight.
 */
module Overdraft {
  import opened Bank
  import opened TransferProtocol
  import opened TransferInvariant
  import Sums

  ghost function InFlight(s: System): set<nat> {
    set t | t in s.txns && !s.txns[t].stage.Finished()
  }

  /** At every moment of the run at most `k` transactions have begun and not ended. */
  ghost predicate AtMostInFlight(s: System, ls: seq<Label>, k: nat)
    decreases |ls|
  {
    && Run(s, ls).Some?
    && |InFlight(Run(s, ls).value)| <= k
    && (ls != [] ==> AtMostInFlight(s, ls[..|ls| - 1], k))
  }

  /** The transfers out of account `a` that have begun and not ended. */
  ghost function Paying(s: System, a: int): set<nat> {
    set t | t in s.txns && !s.txns[t].stage.Finished() && s.txns[t].arg.fromId == a
  }

  /** At every moment of the run at most `k` transfers out of account `a` are in flight. */
  ghost predicate AtMostPaying(s: System, ls: seq<Label>, a: int, k: nat)
    decreases |ls|
  {
    && Run(s, ls).Some?
    && |Paying(Run(s, ls).value, a)| <= k
    && (ls != [] ==> AtMostPaying(s, ls[..|ls| - 1], a, k))
  }

  /** A bound on all transfers in flight is one on those out of each account. */
  lemma {:induction false} InFlightPays(s: System, ls: seq<Label>, a: int, k: nat)
    requires AtMostInFlight(s, ls, k)
    ensures AtMostPaying(s, ls, a, k)
    decreases |ls|
  {
    Sums.SubsetNotLarger(Paying(Run(s, ls).value, a), InFlight(Run(s, ls).value));
    if ls != [] { InFlightPays(s, ls[..|ls| - 1], a, k); }
  }

  /** On account `a`, the debit takes at most `most`, and the credit adds. */
  predicate Modest(arg: TransferArg, a: int, most: nat) {
    (arg.fromId == a ==> 0 <= arg.fromAmount <= most) && (arg.toId == a ==> 0 <= arg.toAmount)
  }

  ghost predicate AllModest(s: System, a: int, most: nat) {
    forall t :: t in s.txns ==> Modest(s.txns[t].arg, a, most)
  }

  /** The debit on `a` that has passed the balance check and is not committed yet. */
  function Owed(t: Txn, a: int): int {
    if t.arg.fromId == a && Working(t.stage) && !t.stage.ReadBalance? then t.arg.fromAmount else 0
  }

  function OwedMap(s: System, a: int): map<nat, int> {
    map t | t in s.txns :: Owed(s.txns[t], a)
  }

  /** Balance less the checked but uncommitted debits: the quantity that stays bounded. */
  ghost function Free(s: System, a: int): int {
    BalanceRead(s.db, a) - Sums.Sum(OwedMap(s, a))
  }

  /** Only the stepping transaction's debt changes. */
  lemma OwedStep(s: System, l: Label, a: int)
    requires Next(s, l).Some? && !l.Open?
    ensures var s' := Next(s, l).value;
            Sums.Sum(OwedMap(s', a)) ==
            Sums.Sum(OwedMap(s, a)) + Owed(s'.txns[l.txn], a) - if l.txn in s.txns then Owed(s.txns[l.txn], a) else 0
  {
    var s' := Next(s, l).value;
    assert OwedMap(s', a) == OwedMap(s, a)[l.txn := Owed(s'.txns[l.txn], a)];
    Sums.SumUpdate(OwedMap(s, a), l.txn, Owed(s'.txns[l.txn], a));
  }

  /** The other transfers out of `a` owe at most `most` each. */
  lemma OthersOwe(s: System, t: nat, a: int, most: nat)
    requires AllModest(s, a, most) && t in Paying(s, a) && s.txns[t].stage.ReadBalance?
    ensures Sums.Sum(OwedMap(s, a)) <= (|Paying(s, a)| - 1) * most
  {
    var busy := Paying(s, a) - {t};
    assert |busy| == |Paying(s, a)| - 1;
    Sums.SumAtMost(OwedMap(s, a), busy, most);
  }

  lemma Monotone(m: int, n: int, x: nat)
    requires m <= n
    ensures m * x <= n * x
  {
  }

  /** Passing the check: the balance covered the debit, and only the others owe besides. */
  lemma FreeCheck(s: System, t: nat, a: int, k: nat, most: nat)
    requires Next(s, Exec(t)).Some? && s.txns[t].stage.ReadBalance?
    requires AllModest(s, a, most) && |Paying(s, a)| <= k
    requires Free(s, a) >= -((k - 1) * most)
    ensures Free(Next(s, Exec(t)).value, a) >= -((k - 1) * most)
  {
    OwedStep(s, Exec(t), a);
    if s.txns[t].arg.fromId == a {
      OthersOwe(s, t, a, most);
      Monotone(|Paying(s, a)| - 1, k - 1, most);
    }
  }

  /** Committing pays exactly what was owed, and may credit. */
  lemma FreeCommit(s: System, t: nat, a: int, most: nat)
    requires Inv(s) && Next(s, Exec(t)).Some? && s.txns[t].stage.Commit?
    requires Modest(s.txns[t].arg, a, most)
    ensures Free(Next(s, Exec(t)).value, a) >= Free(s, a)
  {
    OwedStep(s, Exec(t), a);
    CommitIsPay(s.db, s.txns[t]);
  }

  /** No other step takes on or pays a debt. */
  lemma FreeOther(s: System, l: Label, a: int, most: nat)
    requires Next(s, l).Some?
    requires AllModest(Next(s, l).value, a, most)
    requires l.Exec? ==> !s.txns[l.txn].stage.ReadBalance? && !s.txns[l.txn].stage.Commit?
    ensures Free(Next(s, l).value, a) >= Free(s, a)
  {
    if l.Open? {
      assert OwedMap(Next(s, l).value, a) == OwedMap(s, a);
    } else {
      OwedStep(s, l, a);
      assert Modest(Next(s, l).value.txns[l.txn].arg, a, most);
    }
  }

  lemma ArgsStay(s: System, l: Label, a: int, most: nat)
    requires Next(s, l).Some? && AllModest(Next(s, l).value, a, most)
    ensures AllModest(s, a, most)
  {
    forall t | t in s.txns
      ensures Modest(s.txns[t].arg, a, most)
    {
      assert Next(s, l).value.txns[t].arg == s.txns[t].arg;
    }
  }

  lemma FreeStep(s: System, l: Label, a: int, k: nat, most: nat)
    requires Inv(s) && Next(s, l).Some? && k >= 1
    requires AllModest(Next(s, l).value, a, most) && |Paying(s, a)| <= k
    requires Free(s, a) >= -((k - 1) * most)
    ensures Free(Next(s, l).value, a) >= -((k - 1) * most)
  {
    ArgsStay(s, l, a, most);
    if l.Exec? && s.txns[l.txn].stage.ReadBalance? {
      FreeCheck(s, l.txn, a, k, most);
    } else if l.Exec? && s.txns[l.txn].stage.Commit? {
      FreeCommit(s, l.txn, a, most);
    } else {
      FreeOther(s, l, a, most);
    }
  }

  lemma OwedNatural(s: System, a: int, most: nat)
    requires AllModest(s, a, most)
    ensures Sums.Sum(OwedMap(s, a)) >= 0
  {
    Sums.SumNatural(OwedMap(s, a));
  }

  lemma {:induction false} FreeRun(s: System, ls: seq<Label>, a: int, k: nat, most: nat)
    requires Inv(s) && k >= 1
    requires AtMostPaying(s, ls, a, k) && AllModest(Run(s, ls).value, a, most)
    requires Free(s, a) >= -((k - 1) * most)
    ensures Free(Run(s, ls).value, a) >= -((k - 1) * most)
    decreases |ls|
  {
    if ls != [] {
      var rest, l := ls[..|ls| - 1], ls[|ls| - 1];
      var m := Run(s, rest).value;
      ArgsStay(m, l, a, most);
      FreeRun(s, rest, a, k, most);
      RunInv(s, rest);
      FreeStep(m, l, a, k, most);
    }
  }

  /**
   Main theorem. With at most `k` transfers out of an account in flight and debits of at
   most `most`, its committed balance does not fall below -(k - 1) * most, whatever other
   accounts do.
   */
  lemma OverdraftBound(db: Database, ls: seq<Label>, a: int, k: nat, most: nat)
    requires BalancesInRange(db) && k >= 1
    requires AtMostPaying(Start(db), ls, a, k) && AllModest(Run(Start(db), ls).value, a, most)
    requires BalanceRead(db, a) >= -((k - 1) * most)
    ensures BalanceRead(Run(Start(db), ls).value.db, a) >= -((k - 1) * most)
  {
    StartInv(db);
    assert OwedMap(Start(db), a) == map[];
    FreeRun(Start(db), ls, a, k, most);
    OwedNatural(Run(Start(db), ls).value, a, most);
  }

  /** One transfer out of the account at a time: a balance that starts non-negative stays so. */
  lemma SerialNeverOverdraws(db: Database, ls: seq<Label>, a: int, most: nat)
    requires BalancesInRange(db)
    requires AtMostPaying(Start(db), ls, a, 1) && AllModest(Run(Start(db), ls).value, a, most)
    requires BalanceRead(db, a) >= 0
    ensures BalanceRead(Run(Start(db), ls).value.db, a) >= 0
  {
    OverdraftBound(db, ls, a, 1, most);
  }

  /** No account has money, and no transfer has got past the balance check. */
  ghost predicate Penniless(s: System) {
    && (forall a :: a in s.db.accounts ==> s.db.accounts[a].balance <= 0)
    && (forall t :: t in s.txns ==> s.txns[t].stage.ReadBalance? || s.txns[t].stage.Rollback? || s.txns[t].stage.Aborted?)
  }

  /**
   Accounts are opened with balance 0 and requests ask for positive amounts, so from tables
   without money no transfer ever commits and no balance ever moves: the first deposit has
   to come from outside these operations.
   */
  lemma {:induction false} NothingFromNothing(db: Database, ls: seq<Label>)
    requires forall a :: a in db.accounts ==> db.accounts[a].balance <= 0
    requires Run(Start(db), ls).Some?
    requires var s := Run(Start(db), ls).value; forall t :: t in s.txns ==> s.txns[t].arg.fromAmount > 0
    ensures var s := Run(Start(db), ls).value;
            && Penniless(s)
            && (forall i :: 0 <= i < |s.history| ==> s.history[i].Opened?)
            && s.db.entries == db.entries && s.db.transfers == db.transfers
    decreases |ls|
  {
    if ls != [] {
      var m, l := Run(Start(db), ls[..|ls| - 1]).value, ls[|ls| - 1];
      forall t | t in m.txns
        ensures m.txns[t].arg.fromAmount > 0
      {
        assert Next(m, l).value.txns[t].arg == m.txns[t].arg;
      }
      NothingFromNothing(db, ls[..|ls| - 1]);
    }
  }
}
