/** A transfer that meets no lock: which error it ends with, or that it pays. */
module SoloTransfer {
  import opened Bank
  import opened TransferProtocol
  import opened TransferInvariant
  import opened CommitHistory
  import LockOrder

  /** Once the balance check has passed, why a transfer can still fail. */
  function LateFailure(db: Database, arg: TransferArg): Option<Error> {
    if !({arg.fromId, arg.toId} <= db.accounts.Keys) then Some(ForeignKeyViolation)
    else
      var credited := db.accounts[arg.toId].balance + arg.toAmount;
      var debited := db.accounts[arg.fromId].balance + Delta(arg, arg.fromId);
      if InRange(credited) && InRange(debited) then None else Some(OutOfRange)
  }

  /** The error of a transfer that runs alone on these tables; None when it commits. */
  function FailureOf(db: Database, arg: TransferArg): Option<Error> {
    if BalanceRead(db, arg.fromId) < arg.fromAmount then Some(InsufficientBalance) else LateFailure(db, arg)
  }

  /** All statements of a transaction, one after the other, up to commit or rollback. */
  function Drive(db: Database, t: Txn): Txn
    decreases LockOrder.StepsLeft(t.stage)
  {
    if !Working(t.stage) || t.stage.Commit? then t else Drive(db, Statement(db, t))
  }

  lemma DriveOnce(db: Database, t: Txn)
    requires Working(t.stage) && !t.stage.Commit?
    ensures Drive(db, t) == Drive(db, Statement(db, t))
  {
  }

  lemma {:induction false} DriveOk(db: Database, t: Txn)
    requires TxnOk(db, t)
    ensures TxnOk(db, Drive(db, t)) && Drive(db, t).arg == t.arg
    decreases LockOrder.StepsLeft(t.stage)
  {
    if Working(t.stage) && !t.stage.Commit? {
      StatementOk(db, t);
      DriveOk(db, Statement(db, t));
    }
  }

  /** What is left to fail, stage by stage. */
  function Ahead(db: Database, t: Txn): Option<Error>
    requires Working(t.stage)
  {
    match t.stage
    case ReadBalance => FailureOf(db, t.arg)
    case Commit => None
    case _ => LateFailure(db, t.arg)
  }

  lemma AheadStep(db: Database, t: Txn)
    requires TxnOk(db, t) && Working(t.stage) && !t.stage.Commit?
    ensures var next := Statement(db, t);
            if Working(next.stage) then Ahead(db, next) == Ahead(db, t)
            else next.stage.Rollback? && Ahead(db, t) == Some(next.stage.error)
  {
  }

  lemma {:induction false} DriveEnds(db: Database, t: Txn)
    requires TxnOk(db, t) && Working(t.stage)
    ensures var last := Drive(db, t).stage;
            match Ahead(db, t) { case None => last == Commit case Some(e) => last == Rollback(e) }
    decreases LockOrder.StepsLeft(t.stage)
  {
    if !t.stage.Commit? {
      var next := Statement(db, t);
      StatementOk(db, t);
      AheadStep(db, t);
      if Working(next.stage) { DriveEnds(db, next); }
    }
  }

  /** The statements, checks and errors of TransferTx amount to: fail for this reason, or pay. */
  lemma SoloOutcome(db: Database, arg: TransferArg)
    requires BalancesInRange(db)
    ensures match FailureOf(db, arg)
            case Some(e) => Drive(db, Fresh(arg)).stage == Rollback(e)
            case None =>
              var t := Drive(db, Fresh(arg));
              && t.stage == Commit && {arg.fromId, arg.toId} <= db.accounts.Keys
              && Install(db, t) == Pay(db, arg) && t.result == Receipt(db, arg)
  {
    DriveEnds(db, Fresh(arg));
    DriveOk(db, Fresh(arg));
    var t := Drive(db, Fresh(arg));
    if t.stage.Commit? {
      CommitIsPay(db, t);
      ResultIsReceipt(db, t);
    }
  }

  /** No other transaction holds a row version. */
  ghost predicate Alone(s: System, t: nat) {
    forall u :: u in s.txns && u != t ==> s.txns[u].pending == map[]
  }

  /** What a system becomes when one of its transactions runs to its end. */
  function Ended(s: System, t: nat): System
    requires t in s.txns && Working(s.txns[t].stage)
  {
    var last := Drive(s.db, s.txns[t]);
    match last.stage
    case Commit => System(Install(s.db, last), s.txns[t := last.End(Committed)], s.history + [Paid(t, last.arg)])
    case Rollback(e) => s.(txns := s.txns[t := last.End(Aborted(e))])
    case _ => s
  }

  lemma StepsShrink(db: Database, t: Txn)
    requires Working(t.stage) && !t.stage.Commit?
    ensures LockOrder.StepsLeft(Statement(db, t).stage) < LockOrder.StepsLeft(t.stage)
  {
  }

  lemma StepAlone(s: System, t: nat)
    requires Active(s, t) && Working(s.txns[t].stage) && Alone(s, t)
    ensures !s.txns[t].stage.Commit? ==> Next(s, Exec(t)) == Some(s.(txns := s.txns[t := Statement(s.db, s.txns[t])]))
    ensures s.txns[t].stage.Commit? ==> Next(s, Exec(t)) == Some(Ended(s, t))
  {
  }

  /** The last step of a transfer that has failed. */
  lemma FailAlone(s: System, t: nat, next: System)
    requires Active(s, t) && Working(s.txns[t].stage) && !s.txns[t].stage.Commit?
    requires Statement(s.db, s.txns[t]).stage.Rollback?
    requires next == s.(txns := s.txns[t := Statement(s.db, s.txns[t])])
    ensures Next(next, Exec(t)) == Some(Ended(s, t))
  {
    var failed := Statement(s.db, s.txns[t]);
    DriveOnce(s.db, s.txns[t]);
    assert next.txns[t := failed.End(Aborted(failed.stage.error))] == s.txns[t := failed.End(Aborted(failed.stage.error))];
  }

  /** Where a transfer ends does not depend on where along its way it is. */
  lemma EndedStep(s: System, t: nat, next: System)
    requires Active(s, t) && Working(s.txns[t].stage) && !s.txns[t].stage.Commit? && TxnOk(s.db, s.txns[t])
    requires Working(Statement(s.db, s.txns[t]).stage)
    requires next == s.(txns := s.txns[t := Statement(s.db, s.txns[t])])
    ensures Ended(next, t) == Ended(s, t)
  {
    hide Statement, TxnOk;
    DriveOnce(s.db, s.txns[t]);
    DriveEnds(s.db, s.txns[t]);
    var last := Drive(s.db, s.txns[t]);
    assert forall e :: next.txns[t := last.End(e)] == s.txns[t := last.End(e)];
  }

  lemma {:induction false} RunAlone(s: System, t: nat) returns (ls: seq<Label>)
    requires Active(s, t) && Working(s.txns[t].stage) && Alone(s, t) && TxnOk(s.db, s.txns[t])
    ensures forall i :: 0 <= i < |ls| ==> ls[i] == Exec(t)
    ensures Run(s, ls) == Some(Ended(s, t))
    decreases LockOrder.StepsLeft(s.txns[t].stage)
  {
    hide Statement, Ended, Next, Drive, Run;
    var txn := s.txns[t];
    StepAlone(s, t);
    RunStep(s, Exec(t));
    if txn.stage.Commit? {
      ls := [Exec(t)];
    } else {
      var next := s.(txns := s.txns[t := Statement(s.db, txn)]);
      StatementOk(s.db, txn);
      AheadStep(s.db, txn);
      var rest: seq<Label>;
      if Working(Statement(s.db, txn).stage) {
        StepsShrink(s.db, txn);
        rest := RunAlone(next, t);
        EndedStep(s, t, next);
      } else {
        rest := [Exec(t)];
        RunStep(next, Exec(t));
        FailAlone(s, t, next);
      }
      ls := [Exec(t)] + rest;
      RunConcat(s, [Exec(t)], rest);
    }
  }

  lemma BeginAlone(s: System, t: nat, arg: TransferArg) returns (ls: seq<Label>)
    requires Inv(s) && t !in s.txns && forall u :: u in s.txns ==> s.txns[u].pending == map[]
    ensures forall i :: 0 <= i < |ls| ==> ls[i] == Exec(t)
    ensures Run(s, [Begin(t, arg)] + ls) == Some(Ended(s.(txns := s.txns[t := Fresh(arg)]), t))
  {
    StepInv(s, Begin(t, arg));
    ls := RunAlone(s.(txns := s.txns[t := Fresh(arg)]), t);
    RunConcat(s, [Begin(t, arg)], ls);
    RunStep(s, Begin(t, arg));
  }

  /**
   A transfer that begins while no other transaction holds a row runs to its end, and does
   what TransferTx does on its own: it pays, or fails for the same reason and changes nothing.
   */
  lemma SoloRun(s: System, t: nat, arg: TransferArg) returns (ls: seq<Label>)
    requires Inv(s) && t !in s.txns && forall u :: u in s.txns ==> s.txns[u].pending == map[]
    ensures Run(s, [Begin(t, arg)] + ls).Some?
    ensures var s' := Run(s, [Begin(t, arg)] + ls).value;
            && t in s'.txns
            && match FailureOf(s.db, arg)
               case Some(e) => s'.db == s.db && s'.txns[t].stage == Aborted(e)
               case None =>
                 && {arg.fromId, arg.toId} <= s.db.accounts.Keys
                 && s'.db == Pay(s.db, arg) && s'.txns[t].stage == Committed && s'.txns[t].result == Receipt(s.db, arg)
  {
    SoloOutcome(s.db, arg);
    ls := BeginAlone(s, t, arg);
  }
}
