/** Atomicity: transfers that never commit can be erased from a run without a trace. */
module Erasure {
  import opened Bank
  import opened TransferProtocol

  predicate Concerns(l: Label, gone: set<nat>) {
    !l.Open? && l.txn in gone
  }

  /** The run without the labels of the erased transactions. */
  function Kept(ls: seq<Label>, gone: set<nat>): seq<Label>
    decreases |ls|
  {
    if ls == [] then []
    else if Concerns(ls[|ls| - 1], gone) then Kept(ls[..|ls| - 1], gone)
    else Kept(ls[..|ls| - 1], gone) + [ls[|ls| - 1]]
  }

  function Erase(s: System, gone: set<nat>): System {
    s.(txns := s.txns - gone)
  }

  ghost predicate NoneCommitted(s: System, gone: set<nat>) {
    forall t :: t in gone && t in s.txns ==> !s.txns[t].stage.Committed?
  }

  /** Another transaction's step is as possible, and does the same, without the erased ones. */
  lemma OtherStep(s: System, l: Label, gone: set<nat>)
    requires Next(s, l).Some? && !Concerns(l, gone)
    ensures Next(Erase(s, gone), l) == Some(Erase(Next(s, l).value, gone))
  {
    var e, s' := Erase(s, gone), Next(s, l).value;
    if !l.Open? {
      assert s'.txns - gone == e.txns[l.txn := s'.txns[l.txn]];
    }
  }

  /** An erased transaction's own steps change nothing that is left, unless it commits. */
  lemma ErasedStep(s: System, l: Label, gone: set<nat>)
    requires Next(s, l).Some? && Concerns(l, gone) && NoneCommitted(Next(s, l).value, gone)
    ensures Erase(Next(s, l).value, gone) == Erase(s, gone)
  {
    var s' := Next(s, l).value;
    assert s'.txns - gone == s.txns - gone;
  }

  lemma CommittedStays(s: System, l: Label, gone: set<nat>)
    requires Next(s, l).Some? && NoneCommitted(Next(s, l).value, gone)
    ensures NoneCommitted(s, gone)
  {
    forall t | t in gone && t in s.txns
      ensures !s.txns[t].stage.Committed?
    {
      assert t in Next(s, l).value.txns;
    }
  }

  /**
   Main theorem. Take any set of transactions of which none commits. The run without
   them is possible, and ends with the same committed rows, the same history and the
   same other transactions.
   */
  lemma {:induction false} ErasedRun(s: System, ls: seq<Label>, gone: set<nat>)
    requires Run(s, ls).Some? && NoneCommitted(Run(s, ls).value, gone)
    ensures Run(Erase(s, gone), Kept(ls, gone)) == Some(Erase(Run(s, ls).value, gone))
    decreases |ls|
  {
    if ls != [] {
      var rest, l := ls[..|ls| - 1], ls[|ls| - 1];
      var m := Run(s, rest).value;
      CommittedStays(m, l, gone);
      ErasedRun(s, rest, gone);
      if Concerns(l, gone) {
        ErasedStep(m, l, gone);
      } else {
        OtherStep(m, l, gone);
        RunConcat(Erase(s, gone), Kept(rest, gone), [l]);
        RunStep(Erase(m, gone), l);
      }
    }
  }

  /** In particular all failed transfers leave the tables as if they had never run. */
  lemma FailedLeaveNoTrace(db: Database, ls: seq<Label>, failed: set<nat>)
    requires Run(Start(db), ls).Some?
    requires var s := Run(Start(db), ls).value;
             failed == set t | t in s.txns && s.txns[t].stage.Aborted?
    ensures var without := Run(Start(db), Kept(ls, failed));
            && without.Some?
            && without.value.db == Run(Start(db), ls).value.db
            && forall t :: t in without.value.txns <==> t in Run(Start(db), ls).value.txns && t !in failed
  {
    ErasedRun(Start(db), ls, failed);
    assert Erase(Start(db), failed) == Start(db);
  }
}
