/** Balances, entries and transfers tell the same story in every committed state. */
module Ledger {
  import opened Bank
  import opened TransferProtocol
  import opened TransferInvariant
  import opened CommitHistory

  function EntrySum(entries: seq<Entry>, a: int): int
    decreases |entries|
  {
    if entries == [] then 0
    else
      var e := entries[|entries| - 1];
      EntrySum(entries[..|entries| - 1], a) + if e.accountId == a then e.amount else 0
  }

  /** The sizes of an account's negative entries. */
  function Debits(entries: seq<Entry>, a: int): multiset<int>
    decreases |entries|
  {
    if entries == [] then multiset{}
    else
      var e := entries[|entries| - 1];
      Debits(entries[..|entries| - 1], a) + if e.accountId == a && e.amount < 0 then multiset{-e.amount} else multiset{}
  }

  /** The amounts of the transfers that leave an account. */
  function Outgoing(transfers: seq<Transfer>, a: int): multiset<int>
    decreases |transfers|
  {
    if transfers == [] then multiset{}
    else
      var t := transfers[|transfers| - 1];
      Outgoing(transfers[..|transfers| - 1], a) + if t.fromId == a then multiset{t.amount} else multiset{}
  }

  /** What it takes from account `a` is positive, and what it credits to it is not negative. */
  predicate Positive(arg: TransferArg, a: int) {
    (arg.fromId == a ==> 0 < arg.fromAmount) && (arg.toId == a ==> 0 <= arg.toAmount)
  }

  lemma SumSnoc(entries: seq<Entry>, e: Entry, a: int)
    ensures EntrySum(entries + [e], a) == EntrySum(entries, a) + if e.accountId == a then e.amount else 0
    ensures Debits(entries + [e], a) ==
            Debits(entries, a) + if e.accountId == a && e.amount < 0 then multiset{-e.amount} else multiset{}
  {
    assert (entries + [e])[..|entries + [e]| - 1] == entries;
  }

  /** The effect on both totals of the two rows of one transfer. */
  lemma TwoRows(entries: seq<Entry>, arg: TransferArg, a: int)
    ensures EntrySum(entries + RowsOf(arg), a) == EntrySum(entries, a) + Delta(arg, a)
    ensures Positive(arg, a) ==> Debits(entries + RowsOf(arg), a) ==
                                 Debits(entries, a) + if arg.fromId == a then multiset{arg.fromAmount as int} else multiset{}
  {
    var e0, e1 := RowsOf(arg)[0], RowsOf(arg)[1];
    assert entries + RowsOf(arg) == (entries + [e0]) + [e1];
    SumSnoc(entries, e0, a);
    SumSnoc(entries + [e0], e1, a);
  }

  /** How far an account's balance is from the sum of its entries; 0 for no account. */
  function Gap(db: Database, a: int): int {
    (if a in db.accounts then db.accounts[a].balance else 0) - EntrySum(db.entries, a)
  }

  /** A possible event leaves every account's gap alone. */
  lemma HappenKeepsGap(before: Database, e: Event, a: int)
    requires Possible(before, e)
    ensures Gap(Happen(before, e), a) == Gap(before, a)
  {
    if e.Paid? {
      TwoRows(before.entries, e.arg, a);
    }
  }

  lemma {:induction false} ReplayKeepsGap(db: Database, h: seq<Event>, a: int)
    requires Sound(db, h)
    ensures Gap(Replay(db, h), a) == Gap(db, a)
    decreases |h|
  {
    if h != [] {
      ReplayKeepsGap(db, h[..|h| - 1], a);
      HappenKeepsGap(Replay(db, h[..|h| - 1]), h[|h| - 1], a);
    }
  }

  /** In every reachable state no account's balance has drifted from its entries. */
  lemma NoDrift(db: Database, ls: seq<Label>, a: int)
    requires BalancesInRange(db) && Run(Start(db), ls).Some?
    ensures Gap(Run(Start(db), ls).value.db, a) == Gap(db, a)
  {
    CommittedIsReplay(db, ls);
    ReplayKeepsGap(db, Run(Start(db), ls).value.history, a);
  }

  /** Accounts opened with balance 0: each balance is the sum of the account's entries. */
  lemma BalanceIsEntrySum(ls: seq<Label>, a: int)
    requires Run(Start(Database(map[], [], [])), ls).Some?
    requires a in Run(Start(Database(map[], [], [])), ls).value.db.accounts
    ensures var db := Run(Start(Database(map[], [], [])), ls).value.db;
            db.accounts[a].balance == EntrySum(db.entries, a)
  {
    NoDrift(Database(map[], [], []), ls, a);
  }

  lemma HappenMatches(before: Database, e: Event, a: int)
    requires e.Paid? ==> Positive(e.arg, a)
    requires Debits(before.entries, a) == Outgoing(before.transfers, a)
    ensures Debits(Happen(before, e).entries, a) == Outgoing(Happen(before, e).transfers, a)
  {
    if e.Paid? {
      TwoRows(before.entries, e.arg, a);
      var ts := before.transfers + [TransferRow(e.arg)];
      assert ts[..|ts| - 1] == before.transfers;
    }
  }

  lemma {:induction false} ReplayMatches(db: Database, h: seq<Event>, a: int)
    requires forall i :: 0 <= i < |h| && h[i].Paid? ==> Positive(h[i].arg, a)
    requires Debits(db.entries, a) == Outgoing(db.transfers, a)
    ensures Debits(Replay(db, h).entries, a) == Outgoing(Replay(db, h).transfers, a)
    decreases |h|
  {
    if h != [] {
      ReplayMatches(db, h[..|h| - 1], a);
      HappenMatches(Replay(db, h[..|h| - 1]), h[|h| - 1], a);
    }
  }

  /** Each account's negative entries are its outgoing transfers, amount for amount. */
  lemma DebitsAreTransfers(db: Database, ls: seq<Label>, a: int)
    requires BalancesInRange(db) && Run(Start(db), ls).Some?
    requires Debits(db.entries, a) == Outgoing(db.transfers, a)
    requires var s := Run(Start(db), ls).value; forall t :: t in s.txns ==> Positive(s.txns[t].arg, a)
    ensures var s := Run(Start(db), ls).value; Debits(s.db.entries, a) == Outgoing(s.db.transfers, a)
  {
    CommittedIsReplay(db, ls);
    var s := Run(Start(db), ls).value;
    forall i | 0 <= i < |s.history| && s.history[i].Paid?
      ensures Positive(s.history[i].arg, a)
    {
      assert RecordedAt(db, s, i);
    }
    ReplayMatches(db, s.history, a);
  }
}
