/** Interleaved runs refine the indivisible transfers, taken in commit order. */
module CommitHistory {
  import opened Bank
  import opened TransferProtocol
  import opened TransferInvariant

  /** One event, indivisibly. */
  function Happen(before: Database, e: Event): Database {
    match e
    case Opened(id, owner, currency) => OpenAccount(before, id, owner, currency)
    case Paid(_, arg) => Pay(before, arg)
  }

  /** The tables after a history of indivisible events. */
  function Replay(db: Database, h: seq<Event>): Database
    decreases |h|
  {
    if h == [] then db else Happen(Replay(db, h[..|h| - 1]), h[|h| - 1])
  }

  /** What TransferTx returns when the transfer is applied to `before` in one step. */
  ghost function Receipt(before: Database, arg: TransferArg): TransferResult
    requires {arg.fromId, arg.toId} <= before.accounts.Keys
  {
    var after := Pay(before, arg);
    var toRow := before.accounts[arg.toId];
    TransferResult(
      Some(TransferRow(arg)),
      Some(after.accounts[arg.fromId]),
      Some(if arg.fromId == arg.toId then toRow.(balance := toRow.balance + arg.toAmount) else after.accounts[arg.toId]),
      Some(RowsOf(arg)[0]),
      Some(RowsOf(arg)[1]))
  }

  ghost predicate Possible(before: Database, e: Event) {
    match e
    case Opened(id, owner, currency) => CanOpen(before, id, owner, currency)
    case Paid(_, arg) => {arg.fromId, arg.toId} <= before.accounts.Keys
  }

  /** Every event was possible on the tables it met. */
  ghost predicate Sound(db: Database, h: seq<Event>)
    decreases |h|
  {
    h != [] ==> Sound(db, h[..|h| - 1]) && Possible(Replay(db, h[..|h| - 1]), h[|h| - 1])
  }

  lemma ReplaySnoc(db: Database, h: seq<Event>, e: Event)
    ensures Replay(db, h + [e]) == Happen(Replay(db, h), e)
    ensures Sound(db, h + [e]) <==> Sound(db, h) && Possible(Replay(db, h), e)
  {
    assert (h + [e])[..|h + [e]| - 1] == h;
  }

  lemma {:induction false} SoundAt(db: Database, h: seq<Event>, i: nat)
    requires Sound(db, h) && i <= |h|
    ensures Sound(db, h[..i])
    decreases |h|
  {
    if i < |h| {
      SoundAt(db, h[..|h| - 1], i);
      assert h[..|h| - 1][..i] == h[..i];
    } else {
      assert h[..i] == h;
    }
  }

  /** The i-th event is a committed transaction, which returned the receipt of that payment. */
  ghost predicate RecordedAt(db: Database, s: System, i: nat)
    requires i < |s.history|
  {
    s.history[i].Paid? ==>
      var Paid(t, arg) := s.history[i];
      var before := Replay(db, s.history[..i]);
      && t in s.txns && s.txns[t].stage.Committed? && s.txns[t].arg == arg
      && {arg.fromId, arg.toId} <= before.accounts.Keys
      && s.txns[t].result == Receipt(before, arg)
  }

  /** The payments of the history are exactly the committed transactions, once each. */
  ghost predicate Recorded(db: Database, s: System) {
    && (forall i :: 0 <= i < |s.history| ==> RecordedAt(db, s, i))
    && (forall i, j :: 0 <= i < j < |s.history| && s.history[i].Paid? && s.history[j].Paid? ==>
          s.history[i].txn != s.history[j].txn)
    && (forall t :: t in s.txns && s.txns[t].stage.Committed? ==> Paid(t, s.txns[t].arg) in s.history)
  }

  ghost predicate HistoryInv(db: Database, s: System) {
    && Inv(s)
    && Sound(db, s.history)
    && s.db == Replay(db, s.history)
    && Recorded(db, s)
  }

  /** A finished transaction is never touched again, and the history only grows. */
  lemma FinishedStays(s: System, l: Label)
    requires Next(s, l).Some?
    ensures s.history <= Next(s, l).value.history
    ensures forall t :: t in s.txns && s.txns[t].stage.Finished() ==>
              t in Next(s, l).value.txns && Next(s, l).value.txns[t] == s.txns[t]
  {
  }

  lemma KeepRecord(db: Database, s: System, s': System, i: nat)
    requires i < |s.history| && s.history <= s'.history && RecordedAt(db, s, i)
    requires forall t :: t in s.txns && s.txns[t].stage.Finished() ==> t in s'.txns && s'.txns[t] == s.txns[t]
    ensures RecordedAt(db, s', i)
  {
    assert s'.history[..i] == s.history[..i];
  }

  /** A transaction that has only its commit left has filled its whole result. */
  lemma ResultIsReceipt(db: Database, t: Txn)
    requires TxnOk(db, t) && t.stage.Commit?
    ensures {t.arg.fromId, t.arg.toId} <= db.accounts.Keys && t.result == Receipt(db, t.arg)
  {
    assert WorkOk(db, t) && Progress(t.stage) == 6;
  }

  lemma NewRecord(db: Database, s: System, t: nat)
    requires HistoryInv(db, s) && Next(s, Exec(t)).Some? && s.txns[t].stage.Commit?
    ensures RecordedAt(db, Next(s, Exec(t)).value, |s.history|)
    ensures Possible(s.db, Paid(t, s.txns[t].arg))
  {
    var s' := Next(s, Exec(t)).value;
    assert s'.history[..|s.history|] == s.history;
    hide Sound, Recorded, Replay, Receipt, WorkOk, Install;
    ResultIsReceipt(s.db, s.txns[t]);
  }

  lemma StepReplay(db: Database, s: System, l: Label)
    requires HistoryInv(db, s) && Next(s, l).Some?
    ensures Sound(db, Next(s, l).value.history)
    ensures Next(s, l).value.db == Replay(db, Next(s, l).value.history)
  {
    if l.Exec? && s.txns[l.txn].stage.Commit? {
      NewRecord(db, s, l.txn);
      CommitIsPay(s.db, s.txns[l.txn]);
      ReplaySnoc(db, s.history, Paid(l.txn, s.txns[l.txn].arg));
    } else if l.Open? {
      ReplaySnoc(db, s.history, Opened(l.id, l.owner, l.currency));
    }
  }

  lemma StepRecorded(db: Database, s: System, l: Label)
    requires HistoryInv(db, s) && Next(s, l).Some?
    ensures Recorded(db, Next(s, l).value)
  {
    var s' := Next(s, l).value;
    FinishedStays(s, l);
    CommittedStep(s, l);
    if Commits(s, l) {
      NewRecord(db, s, l.txn);
    }
    PaidOnce(db, s, l);
    CommittedRecorded(db, s, l);
    hide Next, Replay, Receipt, Sound;
    forall i | 0 <= i < |s'.history|
      ensures RecordedAt(db, s', i)
    {
      if i < |s.history| {
        KeepRecord(db, s, s', i);
      }
    }
  }

  predicate Commits(s: System, l: Label) {
    l.Exec? && l.txn in s.txns && s.txns[l.txn].stage.Commit?
  }

  /** A step that commits records itself; no other step records a payment or commits. */
  lemma CommittedStep(s: System, l: Label)
    requires Next(s, l).Some?
    ensures var s' := Next(s, l).value;
            && |s'.history| <= |s.history| + 1 && s.history <= s'.history
            && (Commits(s, l) ==> s'.history == s.history + [Paid(l.txn, s.txns[l.txn].arg)])
            && (!Commits(s, l) && |s'.history| > |s.history| ==> s'.history[|s.history|].Opened?)
    ensures var s' := Next(s, l).value;
            forall t :: t in s'.txns && s'.txns[t].stage.Committed? ==>
              || (t in s.txns && s.txns[t] == s'.txns[t])
              || (Commits(s, l) && t == l.txn && s'.txns[t].arg == s.txns[t].arg)
  {
    hide Install, Blocked, UpdatedRow;
  }

  lemma PaidOnce(db: Database, s: System, l: Label)
    requires Recorded(db, s) && Next(s, l).Some?
    ensures var s' := Next(s, l).value;
            forall i, j :: 0 <= i < j < |s'.history| && s'.history[i].Paid? && s'.history[j].Paid? ==>
              s'.history[i].txn != s'.history[j].txn
  {
    hide Next, Replay, Receipt;
    CommittedStep(s, l);
    forall i | 0 <= i < |s.history| && s.history[i].Paid?
      ensures s.history[i].txn in s.txns && s.txns[s.history[i].txn].stage.Committed?
    {
      assert RecordedAt(db, s, i);
    }
  }

  lemma CommittedRecorded(db: Database, s: System, l: Label)
    requires Recorded(db, s) && Next(s, l).Some?
    ensures var s' := Next(s, l).value;
            forall t :: t in s'.txns && s'.txns[t].stage.Committed? ==> Paid(t, s'.txns[t].arg) in s'.history
  {
    hide Next, RecordedAt;
    CommittedStep(s, l);
    var s' := Next(s, l).value;
    forall t | t in s'.txns && s'.txns[t].stage.Committed?
      ensures Paid(t, s'.txns[t].arg) in s'.history
    {
      if t in s.txns && s.txns[t] == s'.txns[t] {
        assert Paid(t, s.txns[t].arg) in s.history;
      } else {
        assert s'.history[|s.history|] == Paid(t, s'.txns[t].arg);
      }
    }
  }

  lemma StepHistory(db: Database, s: System, l: Label)
    requires HistoryInv(db, s) && Next(s, l).Some?
    ensures HistoryInv(db, Next(s, l).value)
  {
    StepInv(s, l);
    StepReplay(db, s, l);
    StepRecorded(db, s, l);
  }

  /** Main refinement: the committed tables are those of the history, event by event. */
  lemma {:induction false} CommittedIsReplay(db: Database, ls: seq<Label>)
    requires BalancesInRange(db) && Run(Start(db), ls).Some?
    ensures HistoryInv(db, Run(Start(db), ls).value)
    decreases |ls|
  {
    if ls == [] {
      StartInv(db);
    } else {
      CommittedIsReplay(db, ls[..|ls| - 1]);
      StepHistory(db, Run(Start(db), ls[..|ls| - 1]).value, ls[|ls| - 1]);
    }
  }
}
