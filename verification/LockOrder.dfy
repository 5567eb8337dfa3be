/** Rows are locked in ascending order of account id: no deadlock, and every transfer ends. */
module LockOrder {
  import opened Bank
  import opened TransferProtocol
  import opened TransferInvariant
  import Sums

  /** A transaction that waits has locked only rows with smaller ids than the one it wants. */
  lemma HeldBelowWanted(s: System, t: nat, a: int)
    requires Inv(s) && t in s.txns && s.txns[t].Updating()
    requires a in s.txns[t].pending && a != s.txns[t].Wanted()
    ensures a < s.txns[t].Wanted()
  {
  }

  /** If `t` waits for `u` and `u` also waits, then `u` wants a row with a greater id. */
  lemma WaitsUpwards(s: System, t: nat, u: nat)
    requires Inv(s) && WaitsFor(s, t, u) && s.txns[u].Updating()
    requires Blocked(s, u)
    ensures s.txns[t].Wanted() < s.txns[u].Wanted()
  {
    var v :| v in s.txns && WaitsFor(s, u, v);
    assert s.txns[u].Wanted() in s.txns[v].pending;
    assert s.txns[t].Wanted() in s.txns[u].pending;
    HeldBelowWanted(s, u, s.txns[t].Wanted());
  }

  ghost predicate WaitChain(s: System, path: seq<nat>) {
    && |path| >= 2
    && forall i :: 0 <= i < |path| - 1 ==> WaitsFor(s, path[i], path[i + 1])
  }

  lemma {:induction false} ChainAscends(s: System, path: seq<nat>)
    requires Inv(s) && WaitChain(s, path)
    requires path[|path| - 1] in s.txns && Blocked(s, path[|path| - 1]) && s.txns[path[|path| - 1]].Updating()
    ensures path[0] in s.txns && s.txns[path[0]].Updating()
    ensures s.txns[path[0]].Wanted() < s.txns[path[|path| - 1]].Wanted()
    decreases |path|
  {
    var n := |path| - 1;
    assert WaitsFor(s, path[n - 1], path[n]);
    WaitsUpwards(s, path[n - 1], path[n]);
    if n >= 2 {
      assert WaitsFor(s, path[n - 2], path[n - 1]);
      ChainAscends(s, path[..n]);
    } else {
      assert path[0] == path[n - 1];
    }
  }

  /** No transactions wait for each other in a circle. */
  lemma NoCircle(s: System, path: seq<nat>)
    requires Inv(s) && WaitChain(s, path)
    ensures path[0] != path[|path| - 1]
  {
    assert WaitsFor(s, path[0], path[1]);
    if path[0] == path[|path| - 1] {
      ChainAscends(s, path);
    }
  }

  /** Ids of accounts above `a`; a wait moves up among them. */
  function Above(s: System, a: int): set<int> {
    set x | x in s.db.accounts && x > a
  }

  /** Following the locks from any active transaction leads to one that can take a step. */
  lemma {:induction false} FindRunnable(s: System, t: nat) returns (u: nat)
    requires Inv(s) && Active(s, t)
    ensures Active(s, u) && Next(s, Exec(u)).Some?
    decreases if s.txns[t].Updating() then |Above(s, s.txns[t].Wanted())| else 0, if Blocked(s, t) then 1 else 0
  {
    if !Blocked(s, t) {
      u := t;
    } else {
      var v :| v in s.txns && WaitsFor(s, t, v);
      var wanted := s.txns[t].Wanted();
      assert TxnOk(s.db, s.txns[v]);
      if Blocked(s, v) {
        WaitsUpwards(s, t, v);
        var w := s.txns[v].Wanted();
        assert w in s.db.accounts.Keys && w in Above(s, wanted);
        assert Above(s, w) < Above(s, wanted);
        Sums.SubsetSmaller(Above(s, w), Above(s, wanted));
        u := FindRunnable(s, v);
      } else {
        u := v;
      }
    }
  }

  /** An upper bound on the steps a transaction still takes. */
  function StepsLeft(st: Stage): nat {
    match st
    case ReadBalance => 8
    case InsertTransfer => 7
    case InsertFromEntry => 6
    case InsertToEntry => 5
    case UpdateFirst => 4
    case UpdateSecond => 3
    case Commit => 2
    case Rollback(_) => 1
    case _ => 0
  }

  function Steps(s: System): map<nat, int> {
    map t | t in s.txns :: StepsLeft(s.txns[t].stage)
  }

  ghost function Remaining(s: System): int {
    Sums.Sum(Steps(s))
  }

  lemma RemainingNatural(s: System)
    ensures Remaining(s) >= 0
  {
    Sums.SumNatural(Steps(s));
  }

  /** Every step of a transaction, successful or not, uses up at least one. */
  lemma StageMovesOn(s: System, l: Label)
    requires (l.Exec? || l.Interrupt?) && Next(s, l).Some?
    ensures l.txn in s.txns && l.txn in Next(s, l).value.txns
    ensures StepsLeft(Next(s, l).value.txns[l.txn].stage) < StepsLeft(s.txns[l.txn].stage)
    ensures Next(s, l).value.txns == s.txns[l.txn := Next(s, l).value.txns[l.txn]]
  {
  }

  lemma StepDecreases(s: System, l: Label)
    requires (l.Exec? || l.Interrupt?) && Next(s, l).Some?
    ensures Remaining(Next(s, l).value) < Remaining(s)
  {
    StageMovesOn(s, l);
    TotalDrops(s, Next(s, l).value, l.txn);
  }

  lemma TotalDrops(s: System, s': System, t: nat)
    requires t in s.txns && t in s'.txns && s'.txns == s.txns[t := s'.txns[t]]
    requires StepsLeft(s'.txns[t].stage) < StepsLeft(s.txns[t].stage)
    ensures Remaining(s') < Remaining(s)
  {
    assert Steps(s') == Steps(s)[t := StepsLeft(s'.txns[t].stage)];
    Sums.SumUpdate(Steps(s), t, StepsLeft(s'.txns[t].stage));
  }

  /** However the transactions are scheduled, they stop within the remaining steps. */
  lemma {:induction false} SchedulesAreShort(s: System, ls: seq<Label>)
    requires forall i :: 0 <= i < |ls| ==> ls[i].Exec? || ls[i].Interrupt?
    requires Run(s, ls).Some?
    ensures |ls| + Remaining(Run(s, ls).value) <= Remaining(s)
    decreases |ls|
  {
    if ls != [] {
      var n := |ls| - 1;
      SchedulesAreShort(s, ls[..n]);
      StepDecreases(Run(s, ls[..n]).value, ls[n]);
    }
  }

  ghost predicate AllFinished(s: System) {
    forall t :: t in s.txns ==> s.txns[t].stage.Finished()
  }

  /** From every state of a run every transaction can be run to its end. */
  lemma {:induction false} EveryTransferEnds(s: System) returns (ls: seq<Label>)
    requires Inv(s)
    ensures forall i :: 0 <= i < |ls| ==> ls[i].Exec?
    ensures Run(s, ls).Some? && AllFinished(Run(s, ls).value)
    ensures |ls| <= Remaining(s)
    decreases Remaining(s)
  {
    RemainingNatural(s);
    if AllFinished(s) {
      ls := [];
    } else {
      var t :| t in s.txns && !s.txns[t].stage.Finished();
      var u := FindRunnable(s, t);
      var s' := Next(s, Exec(u)).value;
      StepInv(s, Exec(u));
      StepDecreases(s, Exec(u));
      RemainingNatural(s');
      var rest := EveryTransferEnds(s');
      ls := [Exec(u)] + rest;
      RunConcat(s, [Exec(u)], rest);
      RunStep(s, Exec(u));
    }
  }

  /**
   Main theorem. In every reachable state the waits-for relation has no cycle, and some
   schedule, no longer than the steps that are left, brings every transaction to its end.
   */
  lemma DeadlockFree(db: Database, ls: seq<Label>)
    requires BalancesInRange(db) && Run(Start(db), ls).Some?
    ensures var s := Run(Start(db), ls).value;
            && (forall path :: WaitChain(s, path) ==> path[0] != path[|path| - 1])
            && exists more :: |more| <= Remaining(s) && Run(s, more).Some? && AllFinished(Run(s, more).value)
  {
    ReachableInv(db, ls);
    var s := Run(Start(db), ls).value;
    forall path | WaitChain(s, path)
      ensures path[0] != path[|path| - 1]
    {
      NoCircle(s, path);
    }
    var more := EveryTransferEnds(s);
  }
}
