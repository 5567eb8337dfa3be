/** The store's methods as they are written, for one transfer at a time. */
module TransferStore {
  import opened Bank
  import opened TransferProtocol
  import opened TransferInvariant
  import opened CommitHistory
  import opened SoloTransfer

  /** The queries of one open transaction on the tables `db`. */
  class Queries {
    const db: Database
    var transfers: seq<Transfer>
    var entries: seq<Entry>
    var pending: map<int, int>

    /** The transaction object holds the same uncommitted work as `t`. */
    ghost predicate Holds(t: Txn)
      reads this
    {
      transfers == t.transfers && entries == t.entries && pending == t.pending
    }

    constructor (db: Database)
      ensures this.db == db && transfers == [] && entries == [] && pending == map[]
    {
      this.db := db;
      transfers, entries, pending := [], [], map[];
    }

    method GetAccount(id: int) returns (account: Option<Account>)
      ensures account.Some? <==> id in db.accounts
      ensures account.Some? ==> account.value == db.accounts[id].(balance := if id in pending then pending[id] else db.accounts[id].balance)
    {
      if id !in db.accounts { return None; }
      var balance := if id in pending then pending[id] else db.accounts[id].balance;
      account := Some(db.accounts[id].(balance := balance));
    }

    method CreateTransfer(fromId: int, toId: int, amount: int) returns (row: Option<Transfer>, err: Option<Error>)
      modifies this`transfers
      ensures err == if {fromId, toId} <= db.accounts.Keys then None else Some(ForeignKeyViolation)
      ensures err.None? ==> row == Some(Transfer(fromId, toId, amount)) && transfers == old(transfers) + [row.value]
      ensures err.Some? ==> row == None && transfers == old(transfers)
    {
      if fromId !in db.accounts || toId !in db.accounts { return None, Some(ForeignKeyViolation); }
      var inserted := Transfer(fromId, toId, amount);
      transfers := transfers + [inserted];
      return Some(inserted), None;
    }

    method CreateEntry(accountId: int, amount: int) returns (row: Option<Entry>, err: Option<Error>)
      modifies this`entries
      ensures err == if accountId in db.accounts then None else Some(ForeignKeyViolation)
      ensures err.None? ==> row == Some(Entry(accountId, amount)) && entries == old(entries) + [row.value]
      ensures err.Some? ==> row == None && entries == old(entries)
    {
      if accountId !in db.accounts { return None, Some(ForeignKeyViolation); }
      var inserted := Entry(accountId, amount);
      entries := entries + [inserted];
      return Some(inserted), None;
    }

    method AddAccountBalance(id: int, amount: int) returns (row: Option<Account>, err: Option<Error>)
      modifies this`pending
      ensures err.Some? <==> row.None?
      ensures id !in db.accounts ==> err == Some(NoRows)
      ensures id in db.accounts ==>
                var b := (if id in old(pending) then old(pending)[id] else db.accounts[id].balance) + amount;
                if InRange(b) then row == Some(db.accounts[id].(balance := b)) && pending == old(pending)[id := b]
                else err == Some(OutOfRange)
      ensures err.Some? ==> pending == old(pending)
    {
      var account := GetAccount(id);
      if account.None? { return None, Some(NoRows); }
      var b := account.value.balance + amount;
      if !InRange(b) { return None, Some(OutOfRange); }
      pending := pending[id := b];
      return Some(account.value.(balance := b)), None;
    }

    method AddMoney(id1: int, amount1: int, id2: int, amount2: int)
      returns (account1: Option<Account>, account2: Option<Account>, err: Option<Error>)
      modifies this`pending
      ensures var (row1, error1) := UpdatedRow(db, old(pending), id1, amount1);
              if error1.Some? then
                err == error1 && account1 == account2 == None && pending == old(pending)
              else
                var first := old(pending)[id1 := row1.value.balance];
                var (row2, error2) := UpdatedRow(db, first, id2, amount2);
                && err == error2 && account1 == row1 && account2 == row2
                && pending == if error2.Some? then first else first[id2 := row2.value.balance]
    {
      account2 := None;
      account1, err := AddAccountBalance(id1, amount1);
      if err.Some? { return; }
      account2, err := AddAccountBalance(id2, amount2);
    }
  }

  class SQLStore {
    var db: Database

    constructor (db: Database)
      ensures this.db == db
    {
      this.db := db;
    }

    method GetAccount(id: int) returns (account: Option<Account>)
      ensures account == if id in db.accounts then Some(db.accounts[id]) else None
    {
      if id !in db.accounts { return None; }
      return Some(db.accounts[id]);
    }

    /** The first half of what execTx runs: the balance check and the three inserts. */
    method InsertRows(q: Queries, arg: TransferArg, ghost last: Txn)
      returns (result: TransferResult, err: Option<Error>, ghost t: Txn)
      requires q.Holds(Fresh(arg)) && last == Drive(q.db, Fresh(arg))
      modifies q
      ensures result == t.result && t.arg == arg
      ensures err.Some? ==> t == last && t.stage == Rollback(err.value)
      ensures err.None? ==> t.stage == UpdateFirst && Drive(q.db, t) == last && q.Holds(t) && t.pending == map[]
      ensures err.None? ==> {arg.fromId, arg.toId} <= q.db.accounts.Keys
      ensures err.None? ==> result.fromAccount == result.toAccount == None
    {
      result := NOTHING_YET;
      t := Fresh(arg);

      var fromAccount := q.GetAccount(arg.fromId);
      var balance := if fromAccount.Some? then fromAccount.value.balance else 0;
      DriveOnce(q.db, t);
      t := Statement(q.db, t);
      if balance < arg.fromAmount { err := Some(InsufficientBalance); return; }

      var transfer, fromEntry, toEntry;
      transfer, err := q.CreateTransfer(arg.fromId, arg.toId, arg.fromAmount);
      result := result.(transfer := transfer);
      DriveOnce(q.db, t);
      t := Statement(q.db, t);
      if err.Some? { return; }

      fromEntry, err := q.CreateEntry(arg.fromId, Negate(arg.fromAmount));
      result := result.(fromEntry := fromEntry);
      DriveOnce(q.db, t);
      t := Statement(q.db, t);
      if err.Some? { return; }

      toEntry, err := q.CreateEntry(arg.toId, arg.toAmount);
      result := result.(toEntry := toEntry);
      DriveOnce(q.db, t);
      t := Statement(q.db, t);
    }

    /** The second half: both balances, smaller account id first. */
    method UpdateBalances(q: Queries, arg: TransferArg, inserted: TransferResult, ghost t: Txn)
      returns (result: TransferResult, err: Option<Error>)
      requires t.stage == UpdateFirst && t.arg == arg && t.result == inserted && q.Holds(t)
      requires inserted.fromAccount == inserted.toAccount == None
      modifies q`pending
      ensures var last := Drive(q.db, t);
              && result == last.result
              && (err.None? ==> last.stage == Commit && q.Holds(last))
              && (err.Some? ==> last.stage == Rollback(err.value))
    {
      ghost var second := Statement(q.db, t);
      DriveOnce(q.db, t);
      if second.stage.UpdateSecond? { DriveOnce(q.db, second); }
      var row1, row2;
      if arg.fromId < arg.toId {
        row1, row2, err := q.AddMoney(arg.fromId, Negate(arg.fromAmount), arg.toId, arg.toAmount);
        result := inserted.(fromAccount := row1, toAccount := row2);
      } else {
        row1, row2, err := q.AddMoney(arg.toId, arg.toAmount, arg.fromId, Negate(arg.fromAmount));
        result := inserted.(toAccount := row1, fromAccount := row2);
      }
    }

    /** TransferTx: the tables change by one whole transfer, or not at all. */
    method TransferTx(arg: TransferArg) returns (result: TransferResult, err: Option<Error>)
      requires BalancesInRange(db)
      modifies this
      ensures BalancesInRange(db)
      ensures err == FailureOf(old(db), arg)
      ensures err.Some? ==> db == old(db) && result == Drive(old(db), Fresh(arg)).result
      ensures err.None? ==> {arg.fromId, arg.toId} <= old(db).accounts.Keys
      ensures err.None? ==> db == Pay(old(db), arg) && result == Receipt(old(db), arg)
    {
      SoloOutcome(db, arg);
      var q := new Queries(db);
      ghost var last, t := Drive(db, Fresh(arg)), Fresh(arg);
      result, err, t := InsertRows(q, arg, last);
      if err.Some? { return; }
      result, err := UpdateBalances(q, arg, result, t);
      if err.Some? { return; }
      DriveOk(db, Fresh(arg));
      assert Install(db, last) == Pay(db, arg);
      db := Install(db, Txn(arg, Commit, q.transfers, q.entries, q.pending, result));
    }
  }
}
