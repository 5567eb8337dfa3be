/** The overdraft bound is exact: for every number of transfers in flight a run reaches it. */
module OverdraftTight {
  import opened Bank
  import opened TransferProtocol
  import opened TransferInvariant
  import opened SoloTransfer
  import opened Overdraft
  import Sums

  /** One account holds `most`, the other nothing. */
  function TwoAccounts(most: int): Database {
    Database(map[1 := Account("payer", "USD", most), 2 := Account("payee", "USD", 0)], [], [])
  }

  function Everything(most: Int64): TransferArg {
    TransferArg(1, 2, most, most)
  }

  ghost predicate UsesNumbers(ls: seq<Label>, k: nat) {
    forall i :: 0 <= i < |ls| ==> !ls[i].Open? && ls[i].txn < k
  }

  /** With `k` transaction numbers in use at most `k` transactions are in flight. */
  lemma {:induction false} NumbersBoundFlight(s: System, ls: seq<Label>, k: nat)
    requires Run(s, ls).Some? && UsesNumbers(ls, k) && s.txns == map[]
    ensures AtMostInFlight(s, ls, k)
    ensures Run(s, ls).value.txns.Keys <= Sums.Numbers(k)
    decreases |ls|
  {
    if ls != [] {
      NumbersBoundFlight(s, ls[..|ls| - 1], k);
    }
    Sums.SubsetNotLarger(InFlight(Run(s, ls).value), Sums.Numbers(k));
  }

  /** The first `begun` transfers have passed the check, `paid` of them are committed, `total` has moved. */
  ghost predicate Standing(s: System, most: Int64, begun: nat, paid: nat, total: int) {
    && (forall t: nat :: t in s.txns <==> t < begun)
    && (forall t :: t in s.txns ==> s.txns[t].arg == Everything(most))
    && (forall t :: t in s.txns && t < paid ==> s.txns[t].stage == Committed && s.txns[t].pending == map[])
    && (forall t :: t in s.txns && paid <= t ==> s.txns[t] == Fresh(Everything(most)).(stage := InsertTransfer))
    && s.db.accounts == map[1 := Account("payer", "USD", most - total), 2 := Account("payee", "USD", total)]
  }

  lemma PassesCheck(s: System, n: nat, arg: TransferArg)
    requires n in s.txns && s.txns[n] == Fresh(arg) && BalanceRead(s.db, arg.fromId) >= arg.fromAmount
    ensures Next(s, Exec(n)) == Some(s.(txns := s.txns[n := Fresh(arg).(stage := InsertTransfer)]))
  {
  }

  lemma CheckOne(s: System, most: Int64, n: nat) returns (ls: seq<Label>)
    requires most >= 0 && Standing(s, most, n, 0, 0)
    ensures UsesNumbers(ls, n + 1) && Run(s, ls).Some?
    ensures Standing(Run(s, ls).value, most, n + 1, 0, 0)
  {
    var arg := Everything(most);
    var s1 := s.(txns := s.txns[n := Fresh(arg)]);
    assert Next(s, Begin(n, arg)) == Some(s1);
    PassesCheck(s1, n, arg);
    ls := [Begin(n, arg)] + [Exec(n)];
    RunConcat(s, [Begin(n, arg)], [Exec(n)]);
    RunStep(s, Begin(n, arg));
    RunStep(s1, Exec(n));
  }

  /** First everyone reads the full balance. */
  lemma {:induction false} CheckAll(most: Int64, k: nat) returns (ls: seq<Label>)
    requires most >= 0
    ensures UsesNumbers(ls, k) && Run(Start(TwoAccounts(most)), ls).Some?
    ensures Standing(Run(Start(TwoAccounts(most)), ls).value, most, k, 0, 0)
  {
    if k == 0 {
      ls := [];
    } else {
      var before := CheckAll(most, k - 1);
      var more := CheckOne(Run(Start(TwoAccounts(most)), before).value, most, k - 1);
      ls := before + more;
      RunConcat(Start(TwoAccounts(most)), before, more);
    }
  }

  /** Each pays in full although the account has long been empty. */
  lemma PayOne(s: System, most: Int64, k: nat, i: nat, total: int) returns (ls: seq<Label>)
    requires Inv(s) && Standing(s, most, k, i, total) && i < k
    requires most >= 0 && total >= 0 && total + most <= MAX_INT64
    ensures UsesNumbers(ls, k) && Run(s, ls).Some?
    ensures Standing(Run(s, ls).value, most, k, i + 1, total + most)
  {
    assert i in s.txns;
    var t := s.txns[i];
    assert t.arg == Everything(most) && t.stage == InsertTransfer;
    PayOneEnds(s.db, t, most, total);
    ls := RunAlone(s, i);
  }

  lemma PayOneEnds(db: Database, t: Txn, most: Int64, total: int)
    requires t == Fresh(Everything(most)).(stage := InsertTransfer)
    requires db.accounts == map[1 := Account("payer", "USD", most - total), 2 := Account("payee", "USD", total)]
    requires most >= 0 && total >= 0 && total + most <= MAX_INT64
    ensures Drive(db, t).stage == Commit && Drive(db, t).arg == t.arg
    ensures Install(db, Drive(db, t)).accounts ==
            map[1 := Account("payer", "USD", most - (total + most)), 2 := Account("payee", "USD", total + most)]
  {
    assert LateFailure(db, t.arg) == None;
    DriveEnds(db, t);
    DriveOk(db, t);
    CommitIsPay(db, Drive(db, t));
  }

  /** Then they pay one after the other. */
  lemma {:induction false} PayUpTo(most: Int64, k: nat, i: nat) returns (ls: seq<Label>, total: int)
    requires most >= 0 && k * most <= MAX_INT64 && i <= k
    ensures UsesNumbers(ls, k) && Run(Start(TwoAccounts(most)), ls).Some?
    ensures Standing(Run(Start(TwoAccounts(most)), ls).value, most, k, i, total)
    ensures total == i * most
    decreases i
  {
    if i == 0 {
      ls := CheckAll(most, k);
      total := 0;
    } else {
      var s0 := Start(TwoAccounts(most));
      ls, total := PayUpTo(most, k, i - 1);
      var s := Run(s0, ls).value;
      ReachableInv(TwoAccounts(most), ls);
      Multiples(most, i - 1, k);
      var more := PayOne(s, most, k, i - 1, total);
      RunConcat(s0, ls, more);
      ls, total := ls + more, total + most;
    }
  }

  lemma Multiples(most: Int64, i: nat, k: nat)
    requires most >= 0 && i < k && k * most <= MAX_INT64
    ensures (i + 1) * most == i * most + most <= MAX_INT64 && 0 <= i * most
  {
    assert (i + 1) * most <= k * most;
  }

  /** For every k and most that bigint can hold, k transfers in flight reach -(k - 1) * most. */
  lemma OverdraftReached(k: nat, most: Int64) returns (ls: seq<Label>)
    requires k >= 1 && most >= 0 && k * most <= MAX_INT64
    ensures AtMostInFlight(Start(TwoAccounts(most)), ls, k)
    ensures AllModest(Run(Start(TwoAccounts(most)), ls).value, 1, most)
    ensures BalanceRead(Run(Start(TwoAccounts(most)), ls).value.db, 1) == -((k - 1) * most)
  {
    var total;
    ls, total := PayUpTo(most, k, k);
    NumbersBoundFlight(Start(TwoAccounts(most)), ls, k);
  }

  /**
   So the check is not serializable: two interleaved transfers end in accounts that no
   one-at-a-time run at all ends in, of transfers in any number and of any size.
   */
  lemma NoSerialRunReaches(most: Int64) returns (ls: seq<Label>)
    requires most > 0 && 2 * most <= MAX_INT64
    ensures AtMostInFlight(Start(TwoAccounts(most)), ls, 2)
    ensures AllModest(Run(Start(TwoAccounts(most)), ls).value, 1, most)
    ensures forall serial, bound: nat ::
              AtMostInFlight(Start(TwoAccounts(most)), serial, 1)
              && AllModest(Run(Start(TwoAccounts(most)), serial).value, 1, bound) ==>
                Run(Start(TwoAccounts(most)), serial).value.db.accounts != Run(Start(TwoAccounts(most)), ls).value.db.accounts
  {
    ls := OverdraftReached(2, most);
    forall serial, bound: nat |
      AtMostInFlight(Start(TwoAccounts(most)), serial, 1)
      && AllModest(Run(Start(TwoAccounts(most)), serial).value, 1, bound)
      ensures Run(Start(TwoAccounts(most)), serial).value.db.accounts != Run(Start(TwoAccounts(most)), ls).value.db.accounts
    {
      InFlightPays(Start(TwoAccounts(most)), serial, 1, 1);
      SerialNeverOverdraws(TwoAccounts(most), serial, 1, bound);
    }
  }
}
