/** The tables behind a transfer and the meaning of one transfer on them. */
module Bank {
  const MIN_INT64: int := -0x8000_0000_0000_0000
  const MAX_INT64: int := 0x7fff_ffff_ffff_ffff

  type Int64 = x: int | -0x8000_0000_0000_0000 <= x <= 0x7fff_ffff_ffff_ffff

  predicate InRange(x: int) {
    MIN_INT64 <= x <= MAX_INT64
  }

  /** Go's unary minus on int64: the least value is its own negation. */
  function Negate(x: Int64): Int64 {
    if x == MIN_INT64 then x else -x
  }

  datatype Option<+T> = None | Some(value: T)

  datatype Account = Account(owner: string, currency: string, balance: int)
  datatype Entry = Entry(accountId: int, amount: int)
  datatype Transfer = Transfer(fromId: int, toId: int, amount: int)

  datatype Database = Database(
    accounts: map<int, Account>,
    entries: seq<Entry>,
    transfers: seq<Transfer>)

  /** The arguments of TransferTx. */
  datatype TransferArg = TransferArg(fromId: int, toId: int, fromAmount: Int64, toAmount: Int64)

  predicate BalancesInRange(db: Database) {
    forall a :: a in db.accounts ==> InRange(db.accounts[a].balance)
  }

  /** What a transfer adds to account `a`; both parts when it pays itself. */
  function Delta(arg: TransferArg, a: int): int {
    (if arg.fromId == a then Negate(arg.fromAmount) else 0) + (if arg.toId == a then arg.toAmount else 0)
  }

  function RowsOf(arg: TransferArg): seq<Entry> {
    [Entry(arg.fromId, Negate(arg.fromAmount)), Entry(arg.toId, arg.toAmount)]
  }

  function TransferRow(arg: TransferArg): Transfer {
    Transfer(arg.fromId, arg.toId, arg.fromAmount)
  }

  /** One transfer as a single indivisible change of the tables. */
  function Pay(db: Database, arg: TransferArg): Database {
    Database(
      map a | a in db.accounts :: db.accounts[a].(balance := db.accounts[a].balance + Delta(arg, a)),
      db.entries + RowsOf(arg),
      db.transfers + [TransferRow(arg)])
  }

  /** Opening an account inserts it with balance 0. */
  function OpenAccount(db: Database, id: int, owner: string, currency: string): Database {
    db.(accounts := db.accounts[id := Account(owner, currency, 0)])
  }

  /** bigserial gives an unused id; (owner, currency) is unique. */
  predicate CanOpen(db: Database, id: int, owner: string, currency: string) {
    && id !in db.accounts
    && forall a :: a in db.accounts ==> db.accounts[a].owner != owner || db.accounts[a].currency != currency
  }
}
