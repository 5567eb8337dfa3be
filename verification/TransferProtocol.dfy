/**
 Transfers interleaved one SQL statement at a time under READ COMMITTED.

 A transaction buffers its inserted rows and its row versions until it commits.
 A row of `accounts` is locked exactly while an unfinished transaction holds an
 uncommitted version of it in `pending`.
 */
module TransferProtocol {
  import opened Bank

  datatype Error = InsufficientBalance | ForeignKeyViolation | NoRows | OutOfRange | Interrupted

  /** The next thing a transaction does, or how it ended. */
  datatype Stage =
    | ReadBalance
    | InsertTransfer
    | InsertFromEntry
    | InsertToEntry
    | UpdateFirst
    | UpdateSecond
    | Commit
    | Rollback(error: Error)
    | Committed
    | Aborted(error: Error)
  {
    predicate Finished() { Committed? || Aborted? }
  }

  /** TransferTxResult: each field is filled by the statement that returns it. */
  datatype TransferResult = TransferResult(
    transfer: Option<Transfer>,
    fromAccount: Option<Account>,
    toAccount: Option<Account>,
    fromEntry: Option<Entry>,
    toEntry: Option<Entry>)

  datatype Txn = Txn(
    arg: TransferArg,
    stage: Stage,
    transfers: seq<Transfer>,
    entries: seq<Entry>,
    pending: map<int, int>,
    result: TransferResult)
  {
    /** Balances are updated in ascending order of account id. */
    function First(): int {
      if arg.fromId < arg.toId then arg.fromId else arg.toId
    }

    function Second(): int {
      if arg.fromId < arg.toId then arg.toId else arg.fromId
    }

    function FirstAmount(): int {
      if arg.fromId < arg.toId then Negate(arg.fromAmount) else arg.toAmount
    }

    function SecondAmount(): int {
      if arg.fromId < arg.toId then arg.toAmount else Negate(arg.fromAmount)
    }

    predicate Updating() {
      stage.UpdateFirst? || stage.UpdateSecond?
    }

    function Wanted(): int
      requires Updating()
    {
      if stage.UpdateFirst? then First() else Second()
    }

    function Fail(e: Error): Txn {
      this.(stage := Rollback(e))
    }

    function End(s: Stage): Txn {
      this.(stage := s, transfers := [], entries := [], pending := map[])
    }
  }

  const NOTHING_YET := TransferResult(None, None, None, None, None)

  function Fresh(arg: TransferArg): Txn {
    Txn(arg, ReadBalance, [], [], map[], NOTHING_YET)
  }

  /** A missing account scans into the zero value, whose balance is 0. */
  function BalanceRead(db: Database, id: int): int {
    if id in db.accounts then db.accounts[id].balance else 0
  }

  predicate KnownAccounts(db: Database, ids: set<int>) {
    ids <= db.accounts.Keys
  }

  /** The version of a row that a transaction sees when it updates it. */
  function Visible(db: Database, pending: map<int, int>, id: int): int
    requires id in db.accounts
  {
    if id in pending then pending[id] else db.accounts[id].balance
  }

  /** UPDATE accounts SET balance = balance + amount: the row returned, or an error. */
  function UpdatedRow(db: Database, pending: map<int, int>, id: int, amount: int): (r: (Option<Account>, Option<Error>))
    ensures r.0.Some? <==> r.1.None?
    ensures r.0.Some? ==> id in db.accounts
  {
    if id !in db.accounts then (None, Some(NoRows))
    else
      var b := Visible(db, pending, id) + amount;
      if InRange(b) then (Some(db.accounts[id].(balance := b)), None) else (None, Some(OutOfRange))
  }

  /** Which result field an update fills depends on which end of the transfer it is. */
  function Filled(t: Txn, first: bool, row: Account): TransferResult {
    if (t.arg.fromId < t.arg.toId) == first then t.result.(fromAccount := Some(row)) else t.result.(toAccount := Some(row))
  }

  /** The effect of a transaction's next statement before commit, given the committed tables. */
  function Statement(db: Database, t: Txn): Txn {
    match t.stage
    case ReadBalance =>
      if BalanceRead(db, t.arg.fromId) < t.arg.fromAmount then t.Fail(InsufficientBalance)
      else t.(stage := InsertTransfer)
    case InsertTransfer =>
      if !KnownAccounts(db, {t.arg.fromId, t.arg.toId}) then t.Fail(ForeignKeyViolation)
      else
        var row := Transfer(t.arg.fromId, t.arg.toId, t.arg.fromAmount);
        t.(stage := InsertFromEntry, transfers := t.transfers + [row],
           result := t.result.(transfer := Some(row)))
    case InsertFromEntry =>
      if !KnownAccounts(db, {t.arg.fromId}) then t.Fail(ForeignKeyViolation)
      else
        var row := Entry(t.arg.fromId, Negate(t.arg.fromAmount));
        t.(stage := InsertToEntry, entries := t.entries + [row],
           result := t.result.(fromEntry := Some(row)))
    case InsertToEntry =>
      if !KnownAccounts(db, {t.arg.toId}) then t.Fail(ForeignKeyViolation)
      else
        var row := Entry(t.arg.toId, t.arg.toAmount);
        t.(stage := UpdateFirst, entries := t.entries + [row],
           result := t.result.(toEntry := Some(row)))
    case UpdateFirst =>
      var (row, error) := UpdatedRow(db, t.pending, t.First(), t.FirstAmount());
      if row.None? then t.Fail(error.value)
      else
        t.(stage := UpdateSecond, pending := t.pending[t.First() := row.value.balance],
           result := Filled(t, true, row.value))
    case UpdateSecond =>
      var (row, error) := UpdatedRow(db, t.pending, t.Second(), t.SecondAmount());
      if row.None? then t.Fail(error.value)
      else
        t.(stage := Commit, pending := t.pending[t.Second() := row.value.balance],
           result := Filled(t, false, row.value))
    case _ => t
  }

  /** Commit makes the buffered rows and row versions visible to everyone at once. */
  function Install(db: Database, t: Txn): Database {
    Database(
      map a | a in db.accounts ::
        if a in t.pending then db.accounts[a].(balance := t.pending[a]) else db.accounts[a],
      db.entries + t.entries,
      db.transfers + t.transfers)
  }

  /** What has been committed, in commit order. */
  datatype Event = Opened(id: int, owner: string, currency: string) | Paid(txn: nat, arg: TransferArg)

  datatype System = System(db: Database, txns: map<nat, Txn>, history: seq<Event>)

  datatype Label =
    | Open(id: int, owner: string, currency: string)
    | Begin(txn: nat, arg: TransferArg)
    | Exec(txn: nat)
    | Interrupt(txn: nat)

  function Start(db: Database): System {
    System(db, map[], [])
  }

  predicate Active(s: System, t: nat) {
    t in s.txns && !s.txns[t].stage.Finished()
  }

  /** `t` cannot execute its update because `u` holds an uncommitted version of the row. */
  predicate WaitsFor(s: System, t: nat, u: nat) {
    && t in s.txns && u in s.txns && t != u
    && s.txns[t].Updating()
    && s.txns[t].Wanted() in s.txns[u].pending
  }

  predicate Blocked(s: System, t: nat) {
    exists u :: u in s.txns && WaitsFor(s, t, u)
  }

  function Next(s: System, l: Label): Option<System> {
    match l
    case Open(id, owner, currency) =>
      if !CanOpen(s.db, id, owner, currency) then None
      else Some(System(OpenAccount(s.db, id, owner, currency), s.txns, s.history + [Opened(id, owner, currency)]))
    case Begin(t, arg) =>
      if t in s.txns then None else Some(s.(txns := s.txns[t := Fresh(arg)]))
    case Exec(t) =>
      if !Active(s, t) || Blocked(s, t) then None
      else
        var txn := s.txns[t];
        (match txn.stage
         case Commit =>
           Some(System(Install(s.db, txn), s.txns[t := txn.End(Committed)], s.history + [Paid(t, txn.arg)]))
         case Rollback(e) => Some(s.(txns := s.txns[t := txn.End(Aborted(e))]))
         case _ => Some(s.(txns := s.txns[t := Statement(s.db, txn)])))
    case Interrupt(t) =>
      if !Active(s, t) || s.txns[t].stage.Rollback? then None
      else Some(s.(txns := s.txns[t := s.txns[t].Fail(Interrupted)]))
  }

  /** A run takes the labels in order; it is None as soon as one of them is not possible. */
  function Run(s: System, ls: seq<Label>): Option<System>
    decreases |ls|
  {
    if ls == [] then Some(s)
    else
      match Run(s, ls[..|ls| - 1])
      case None => None
      case Some(m) => Next(m, ls[|ls| - 1])
  }

  lemma {:induction false} RunConcat(s: System, ls: seq<Label>, more: seq<Label>)
    ensures Run(s, ls + more) == if Run(s, ls).None? then None else Run(Run(s, ls).value, more)
    decreases |more|
  {
    if more == [] {
      assert ls + more == ls;
    } else {
      var n := |more| - 1;
      RunConcat(s, ls, more[..n]);
      assert (ls + more)[..|ls + more| - 1] == ls + more[..n];
    }
  }

  lemma RunStep(s: System, l: Label)
    ensures Run(s, [l]) == Next(s, l)
  {
    assert [l][..0] == [];
  }
}
