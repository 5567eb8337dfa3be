/** What every step of an interleaved run keeps. */
module TransferInvariant {
  import opened Bank
  import opened TransferProtocol

  predicate Working(st: Stage) {
    !st.Rollback? && !st.Finished()
  }

  /** How many statements have succeeded. */
  function Progress(st: Stage): (n: nat)
    requires Working(st)
  {
    match st
    case ReadBalance => 0
    case InsertTransfer => 1
    case InsertFromEntry => 2
    case InsertToEntry => 3
    case UpdateFirst => 4
    case UpdateSecond => 5
    case Commit => 6
  }

  /** The row versions a transaction holds after `n` statements, all locked by it. */
  ghost predicate VersionsOk(db: Database, t: Txn, n: nat)
    requires {t.arg.fromId, t.arg.toId} <= db.accounts.Keys
  {
    var balance := (a: int) requires a in db.accounts => db.accounts[a].balance;
    if n < 5 then t.pending == map[]
    else if n == 5 then
      && t.pending == map[t.First() := balance(t.First()) + t.FirstAmount()]
      && InRange(t.pending[t.First()])
    else
      && t.pending.Keys == {t.arg.fromId, t.arg.toId}
      && forall a :: a in t.pending ==> InRange(t.pending[a]) && t.pending[a] == balance(a) + Delta(t.arg, a)
  }

  /** The account rows returned so far by the two updates. */
  ghost predicate ReturnedOk(db: Database, t: Txn, n: nat)
    requires {t.arg.fromId, t.arg.toId} <= db.accounts.Keys
  {
    var from, to := db.accounts[t.arg.fromId], db.accounts[t.arg.toId];
    && (n < 5 ==> t.result.fromAccount == t.result.toAccount == None)
    && (n == 5 && t.arg.fromId < t.arg.toId ==>
          t.result.fromAccount == Some(from.(balance := from.balance + Negate(t.arg.fromAmount))) && t.result.toAccount == None)
    && (n >= 5 && t.arg.fromId >= t.arg.toId ==>
          t.result.toAccount == Some(to.(balance := to.balance + t.arg.toAmount)) && (n == 5 ==> t.result.fromAccount == None))
    && (n == 6 ==> t.result.fromAccount == Some(from.(balance := from.balance + Delta(t.arg, t.arg.fromId))))
    && (n == 6 && t.arg.fromId < t.arg.toId ==> t.result.toAccount == Some(to.(balance := to.balance + Delta(t.arg, t.arg.toId))))
  }

  ghost predicate WorkOk(db: Database, t: Txn)
    requires Working(t.stage)
  {
    var n := Progress(t.stage);
    && t.transfers == (if n >= 2 then [TransferRow(t.arg)] else [])
    && t.entries == (if n >= 4 then RowsOf(t.arg) else if n == 3 then [RowsOf(t.arg)[0]] else [])
    && t.result.transfer == (if n >= 2 then Some(TransferRow(t.arg)) else None)
    && t.result.fromEntry == (if n >= 3 then Some(RowsOf(t.arg)[0]) else None)
    && t.result.toEntry == (if n >= 4 then Some(RowsOf(t.arg)[1]) else None)
    && if n < 2 then t.pending == map[] && t.result.fromAccount == t.result.toAccount == None
       else
         && {t.arg.fromId, t.arg.toId} <= db.accounts.Keys
         && VersionsOk(db, t, n)
         && ReturnedOk(db, t, n)
  }

  ghost predicate TxnOk(db: Database, t: Txn) {
    && (Working(t.stage) ==> WorkOk(db, t))
    && (t.stage.Finished() ==> t.pending == map[])
  }

  /** No row has two uncommitted versions. */
  ghost predicate LocksDisjoint(txns: map<nat, Txn>) {
    forall t, u, a :: t in txns && u in txns && t != u && a in txns[t].pending ==> a !in txns[u].pending
  }

  ghost predicate Inv(s: System) {
    && BalancesInRange(s.db)
    && LocksDisjoint(s.txns)
    && forall t :: t in s.txns ==> TxnOk(s.db, s.txns[t])
  }

  lemma StartInv(db: Database)
    requires BalancesInRange(db)
    ensures Inv(Start(db))
  {
  }

  /** A transaction does not notice changes to rows that it has not locked. */
  lemma TxnFrame(db: Database, db': Database, t: Txn)
    requires TxnOk(db, t)
    requires db.accounts.Keys <= db'.accounts.Keys
    requires forall a :: a in t.pending && a in db.accounts ==> db'.accounts[a] == db.accounts[a]
    ensures TxnOk(db', t)
  {
  }

  /** What committing does is exactly the indivisible transfer. */
  lemma CommitIsPay(db: Database, t: Txn)
    requires t.stage.Commit? && TxnOk(db, t)
    ensures Install(db, t) == Pay(db, t.arg)
  {
    assert Install(db, t).accounts.Keys == Pay(db, t.arg).accounts.Keys == db.accounts.Keys;
    forall a | a in db.accounts
      ensures Install(db, t).accounts[a] == Pay(db, t.arg).accounts[a]
    {
    }
  }

  lemma InsertOk(db: Database, t: Txn)
    requires TxnOk(db, t) && Working(t.stage) && Progress(t.stage) < 4
    ensures TxnOk(db, Statement(db, t)) && Statement(db, t).pending == map[]
  {
  }

  lemma UpdateFirstOk(db: Database, t: Txn)
    requires TxnOk(db, t) && t.stage.UpdateFirst?
    ensures TxnOk(db, Statement(db, t)) && Statement(db, t).pending.Keys <= {t.First()}
  {
  }

  lemma UpdateSecondOk(db: Database, t: Txn)
    requires TxnOk(db, t) && t.stage.UpdateSecond?
    ensures TxnOk(db, Statement(db, t)) && Statement(db, t).pending.Keys <= {t.First(), t.Second()}
  {
  }

  /** One statement keeps its transaction well formed, and locks at most the row it waits for. */
  lemma StatementOk(db: Database, t: Txn)
    requires TxnOk(db, t) && Working(t.stage) && !t.stage.Commit?
    ensures TxnOk(db, Statement(db, t))
    ensures Statement(db, t).pending.Keys <= t.pending.Keys + if t.Updating() then {t.Wanted()} else {}
  {
    match t.stage
    case UpdateFirst => UpdateFirstOk(db, t);
    case UpdateSecond => UpdateSecondOk(db, t);
    case _ => InsertOk(db, t);
  }

  lemma CommitInv(s: System, t: nat)
    requires Inv(s) && Next(s, Exec(t)).Some? && s.txns[t].stage.Commit?
    ensures Inv(Next(s, Exec(t)).value)
  {
    var s' := Next(s, Exec(t)).value;
    assert TxnOk(s.db, s.txns[t]);
    assert forall a :: a in s.txns[t].pending ==> InRange(s.txns[t].pending[a]);
    forall u | u in s'.txns
      ensures TxnOk(s'.db, s'.txns[u])
    {
      if u != t { TxnFrame(s.db, s'.db, s.txns[u]); }
    }
  }

  lemma ExecInv(s: System, t: nat)
    requires Inv(s) && Next(s, Exec(t)).Some?
    ensures Inv(Next(s, Exec(t)).value)
  {
    var txn := s.txns[t];
    if txn.stage.Commit? {
      CommitInv(s, t);
    } else if Working(txn.stage) {
      hide Statement, WorkOk;
      StatementOk(s.db, txn);
      assert forall u :: u in s.txns && u != t && txn.Updating() ==> !WaitsFor(s, t, u);
    }
  }

  lemma StepInv(s: System, l: Label)
    requires Inv(s) && Next(s, l).Some?
    ensures Inv(Next(s, l).value)
  {
    match l
    case Open(id, owner, currency) =>
      var s' := Next(s, l).value;
      forall u | u in s'.txns
        ensures TxnOk(s'.db, s'.txns[u])
      {
        TxnFrame(s.db, s'.db, s.txns[u]);
      }
    case Begin(t, arg) =>
    case Exec(t) => ExecInv(s, t);
    case Interrupt(t) =>
  }

  lemma {:induction false} RunInv(s: System, ls: seq<Label>)
    requires Inv(s) && Run(s, ls).Some?
    ensures Inv(Run(s, ls).value)
    decreases |ls|
  {
    if ls != [] {
      RunInv(s, ls[..|ls| - 1]);
      StepInv(Run(s, ls[..|ls| - 1]).value, ls[|ls| - 1]);
    }
  }

  /** Every balance fits bigint in every reachable state, and uncommitted versions do too. */
  lemma ReachableInv(db: Database, ls: seq<Label>)
    requires BalancesInRange(db) && Run(Start(db), ls).Some?
    ensures Inv(Run(Start(db), ls).value)
  {
    StartInv(db);
    RunInv(Start(db), ls);
  }
}
