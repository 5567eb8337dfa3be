/** No update is lost: the committed transfers can be applied one at a time, in any order. */
module SerialEquivalence {
  import opened Bank
  import opened TransferProtocol
  import opened CommitHistory

  /** The committed transfers in commit order. */
  function Args(h: seq<Event>): seq<TransferArg>
    decreases |h|
  {
    if h == [] then []
    else if h[|h| - 1].Paid? then Args(h[..|h| - 1]) + [h[|h| - 1].arg]
    else Args(h[..|h| - 1])
  }

  /** The tables once every account of the history is opened, and nothing is paid. */
  function Base(db: Database, h: seq<Event>): Database
    decreases |h|
  {
    if h == [] then db
    else
      var before := Base(db, h[..|h| - 1]);
      if h[|h| - 1].Opened? then OpenAccount(before, h[|h| - 1].id, h[|h| - 1].owner, h[|h| - 1].currency) else before
  }

  /** Serial execution: one whole transfer after the other. */
  function PayAll(db: Database, args: seq<TransferArg>): Database
    decreases |args|
  {
    if args == [] then db else Pay(PayAll(db, args[..|args| - 1]), args[|args| - 1])
  }

  /** A total over a sequence of transfers. */
  function Total(args: seq<TransferArg>, f: TransferArg -> int): int
    decreases |args|
  {
    if args == [] then 0 else Total(args[..|args| - 1], f) + f(args[|args| - 1])
  }

  function DeltaOn(a: int): TransferArg -> int {
    arg => Delta(arg, a)
  }

  function DeltaSum(args: seq<TransferArg>, a: int): int {
    Total(args, DeltaOn(a))
  }

  function AllRows(args: seq<TransferArg>): seq<Entry>
    decreases |args|
  {
    if args == [] then [] else AllRows(args[..|args| - 1]) + RowsOf(args[|args| - 1])
  }

  function AllTransfers(args: seq<TransferArg>): seq<Transfer>
    decreases |args|
  {
    if args == [] then [] else AllTransfers(args[..|args| - 1]) + [TransferRow(args[|args| - 1])]
  }

  function InitialBalance(db: Database, a: int): int {
    if a in db.accounts then db.accounts[a].balance else 0
  }

  lemma TotalSnoc(args: seq<TransferArg>, x: TransferArg, f: TransferArg -> int)
    ensures Total(args + [x], f) == Total(args, f) + f(x)
  {
    assert (args + [x])[..|args + [x]| - 1] == args;
  }

  lemma RowsSnoc(args: seq<TransferArg>, x: TransferArg)
    ensures AllRows(args + [x]) == AllRows(args) + RowsOf(x)
    ensures AllTransfers(args + [x]) == AllTransfers(args) + [TransferRow(x)]
  {
    assert (args + [x])[..|args + [x]| - 1] == args;
  }

  lemma ArgsSnoc(h: seq<Event>)
    requires h != [] && h[|h| - 1].Paid?
    ensures Args(h) == Args(h[..|h| - 1]) + [h[|h| - 1].arg]
  {
  }

  lemma {:induction false} TotalTakeOut(args: seq<TransferArg>, i: nat, f: TransferArg -> int)
    requires i < |args|
    ensures Total(args, f) == Total(args[..i] + args[i + 1..], f) + f(args[i])
    decreases |args|
  {
    var n := |args| - 1;
    var rest := args[..i] + args[i + 1..];
    if i == n {
      assert rest == args[..n];
    } else {
      var shorter := args[..n];
      TotalTakeOut(shorter, i, f);
      assert rest == (shorter[..i] + shorter[i + 1..]) + [args[n]];
      TotalSnoc(shorter[..i] + shorter[i + 1..], args[n], f);
    }
  }

  /** Where the last of `xs` is among `ys`; without it the two still have the same elements. */
  lemma SameElement(xs: seq<TransferArg>, ys: seq<TransferArg>) returns (i: nat)
    requires multiset(xs) == multiset(ys) && xs != []
    ensures i < |ys| && ys[i] == xs[|xs| - 1]
    ensures multiset(xs[..|xs| - 1]) == multiset(ys[..i] + ys[i + 1..])
  {
    var n := |xs| - 1;
    var x := xs[n];
    assert xs == xs[..n] + [x];
    assert x in multiset(ys);
    i :| 0 <= i < |ys| && ys[i] == x;
    assert ys == ys[..i] + [x] + ys[i + 1..];
    assert multiset(xs[..n]) == multiset(xs) - multiset{x} == multiset(ys[..i] + ys[i + 1..]);
  }

  /** A total does not depend on the order. */
  lemma {:induction false} TotalAnyOrder(xs: seq<TransferArg>, ys: seq<TransferArg>, f: TransferArg -> int)
    requires multiset(xs) == multiset(ys)
    ensures Total(xs, f) == Total(ys, f)
    decreases |xs|
  {
    if xs == [] {
      assert |multiset(ys)| == |ys| == 0;
    } else {
      var n := |xs| - 1;
      var i := SameElement(xs, ys);
      TotalAnyOrder(xs[..n], ys[..i] + ys[i + 1..], f);
      TotalTakeOut(ys, i, f);
    }
  }

  function RowCount(e: Entry): TransferArg -> int {
    arg => multiset(RowsOf(arg))[e]
  }

  function TransferCount(t: Transfer): TransferArg -> int {
    arg => multiset([TransferRow(arg)])[t]
  }

  lemma {:induction false} RowsCounted(args: seq<TransferArg>, e: Entry)
    ensures multiset(AllRows(args))[e] == Total(args, RowCount(e))
    decreases |args|
  {
    if args != [] {
      RowsCounted(args[..|args| - 1], e);
    }
  }

  lemma {:induction false} TransfersCounted(args: seq<TransferArg>, t: Transfer)
    ensures multiset(AllTransfers(args))[t] == Total(args, TransferCount(t))
    decreases |args|
  {
    if args != [] {
      TransfersCounted(args[..|args| - 1], t);
    }
  }

  lemma RowsAnyOrder(xs: seq<TransferArg>, ys: seq<TransferArg>)
    requires multiset(xs) == multiset(ys)
    ensures multiset(AllRows(xs)) == multiset(AllRows(ys))
    ensures multiset(AllTransfers(xs)) == multiset(AllTransfers(ys))
  {
    forall e: Entry
      ensures multiset(AllRows(xs))[e] == multiset(AllRows(ys))[e]
    {
      RowsCounted(xs, e);
      RowsCounted(ys, e);
      TotalAnyOrder(xs, ys, RowCount(e));
    }
    forall t: Transfer
      ensures multiset(AllTransfers(xs))[t] == multiset(AllTransfers(ys))[t]
    {
      TransfersCounted(xs, t);
      TransfersCounted(ys, t);
      TotalAnyOrder(xs, ys, TransferCount(t));
    }
  }

  /** Serial execution adds every delta and appends every row. */
  lemma {:induction false} PayAllSums(db: Database, args: seq<TransferArg>)
    ensures PayAll(db, args).accounts.Keys == db.accounts.Keys
    ensures forall a :: a in db.accounts ==>
              PayAll(db, args).accounts[a] == db.accounts[a].(balance := db.accounts[a].balance + DeltaSum(args, a))
    ensures PayAll(db, args).entries == db.entries + AllRows(args)
    ensures PayAll(db, args).transfers == db.transfers + AllTransfers(args)
    decreases |args|
  {
    if args != [] {
      PayAllSums(db, args[..|args| - 1]);
    }
  }

  /** An account that is not open yet is in no committed transfer. */
  lemma {:induction false} UnopenedUntouched(db: Database, h: seq<Event>, a: int)
    requires Sound(db, h) && a !in Replay(db, h).accounts
    ensures DeltaSum(Args(h), a) == 0
    decreases |h|
  {
    if h != [] {
      var rest, e := h[..|h| - 1], h[|h| - 1];
      UnopenedUntouched(db, rest, a);
      if e.Paid? {
        ArgsSnoc(h);
        TotalSnoc(Args(rest), e.arg, DeltaOn(a));
      }
    }
  }

  lemma {:induction false} KnownFromStart(db: Database, h: seq<Event>)
    ensures db.accounts.Keys <= Replay(db, h).accounts.Keys
    ensures Replay(db, h).accounts.Keys == Base(db, h).accounts.Keys
    decreases |h|
  {
    if h != [] {
      KnownFromStart(db, h[..|h| - 1]);
    }
  }

  /** The accounts of a history are the opened ones with every committed delta added. */
  lemma {:induction false} ReplaySums(db: Database, h: seq<Event>, a: int)
    requires Sound(db, h) && a in Replay(db, h).accounts
    ensures a in Base(db, h).accounts && Base(db, h).accounts[a].balance == InitialBalance(db, a)
    ensures Replay(db, h).accounts[a] ==
            Base(db, h).accounts[a].(balance := InitialBalance(db, a) + DeltaSum(Args(h), a))
    decreases |h|
  {
    if h != [] {
      var rest, e := h[..|h| - 1], h[|h| - 1];
      KnownFromStart(db, rest);
      if e.Paid? {
        ReplaySums(db, rest, a);
        ArgsSnoc(h);
        TotalSnoc(Args(rest), e.arg, DeltaOn(a));
      } else if a == e.id {
        UnopenedUntouched(db, rest, a);
      } else {
        ReplaySums(db, rest, a);
      }
    }
  }

  lemma PaidRows(before: Database, db: Database, args: seq<TransferArg>, arg: TransferArg)
    requires before.entries == db.entries + AllRows(args) && before.transfers == db.transfers + AllTransfers(args)
    ensures Pay(before, arg).entries == db.entries + (AllRows(args) + RowsOf(arg))
    ensures Pay(before, arg).transfers == db.transfers + (AllTransfers(args) + [TransferRow(arg)])
  {
  }

  lemma {:induction false} ReplayRows(db: Database, h: seq<Event>)
    ensures Base(db, h).entries == db.entries && Replay(db, h).entries == db.entries + AllRows(Args(h))
    ensures Base(db, h).transfers == db.transfers && Replay(db, h).transfers == db.transfers + AllTransfers(Args(h))
    decreases |h|
  {
    if h != [] {
      var rest, e := h[..|h| - 1], h[|h| - 1];
      ReplayRows(db, rest);
      if e.Paid? {
        ArgsSnoc(h);
        RowsSnoc(Args(rest), e.arg);
        PaidRows(Replay(db, rest), db, Args(rest), e.arg);
      }
    }
  }

  /**
   Main theorem. However the statements were interleaved, the final accounts are
   those of any serial order of the committed transfers, and the same rows exist.
   */
  lemma AnySerialOrder(db: Database, ls: seq<Label>, order: seq<TransferArg>)
    requires BalancesInRange(db) && Run(Start(db), ls).Some?
    requires multiset(order) == multiset(Args(Run(Start(db), ls).value.history))
    ensures var s := Run(Start(db), ls).value;
            var serial := PayAll(Base(db, s.history), order);
            && s.db.accounts == serial.accounts
            && multiset(s.db.entries) == multiset(serial.entries)
            && multiset(s.db.transfers) == multiset(serial.transfers)
  {
    CommittedIsReplay(db, ls);
    var s := Run(Start(db), ls).value;
    var base := Base(db, s.history);
    KnownFromStart(db, s.history);
    PayAllSums(base, order);
    forall a | a in s.db.accounts
      ensures s.db.accounts[a] == PayAll(base, order).accounts[a]
    {
      ReplaySums(db, s.history, a);
      TotalAnyOrder(Args(s.history), order, DeltaOn(a));
    }
    ReplayRows(db, s.history);
    RowsAnyOrder(Args(s.history), order);
  }

  /** After the rows of `before` come one transfer and its two entries for each of `args`. */
  ghost predicate RowsFollow(before: Database, after: Database, args: seq<TransferArg>) {
    && |after.transfers| == |before.transfers| + |args| && before.transfers <= after.transfers
    && |after.entries| == |before.entries| + 2 * |args| && before.entries <= after.entries
    && forall j :: 0 <= j < |args| ==>
         && after.transfers[|before.transfers| + j] == Transfer(args[j].fromId, args[j].toId, args[j].fromAmount)
         && after.entries[|before.entries| + 2 * j] == Entry(args[j].fromId, Negate(args[j].fromAmount))
         && after.entries[|before.entries| + 2 * j + 1] == Entry(args[j].toId, args[j].toAmount)
  }

  lemma Follow(before: Database, after: Database, args: seq<TransferArg>)
    requires after.entries == before.entries + AllRows(args) && after.transfers == before.transfers + AllTransfers(args)
    ensures RowsFollow(before, after, args)
  {
    RowsAtAll(args);
    hide AllRows, AllTransfers, Negate;
  }

  /** The committed rows are those of the committed transfers, in commit order. */
  lemma CommittedRows(db: Database, ls: seq<Label>)
    requires BalancesInRange(db) && Run(Start(db), ls).Some?
    ensures RowsFollow(db, Run(Start(db), ls).value.db, Args(Run(Start(db), ls).value.history))
  {
    CommittedIsReplay(db, ls);
    hide Run, Args, Replay, AllRows, AllTransfers, Base, RowsFollow;
    var s := Run(Start(db), ls).value;
    ReplayRows(db, s.history);
    Follow(db, s.db, Args(s.history));
  }

  lemma RowsAtAll(args: seq<TransferArg>)
    ensures |AllTransfers(args)| == |args| && |AllRows(args)| == 2 * |args|
    ensures forall j :: 0 <= j < |args| ==>
              && AllTransfers(args)[j] == Transfer(args[j].fromId, args[j].toId, args[j].fromAmount)
              && AllRows(args)[2 * j] == Entry(args[j].fromId, Negate(args[j].fromAmount))
              && AllRows(args)[2 * j + 1] == Entry(args[j].toId, args[j].toAmount)
  {
    if args != [] { RowsAt(args, 0); }
    forall j | 0 <= j < |args|
      ensures AllTransfers(args)[j] == Transfer(args[j].fromId, args[j].toId, args[j].fromAmount)
      ensures AllRows(args)[2 * j] == Entry(args[j].fromId, Negate(args[j].fromAmount))
      ensures AllRows(args)[2 * j + 1] == Entry(args[j].toId, args[j].toAmount)
    {
      RowsAt(args, j);
    }
  }

  lemma {:induction false} RowsAt(args: seq<TransferArg>, j: nat)
    requires j < |args|
    ensures |AllTransfers(args)| == |args| && |AllRows(args)| == 2 * |args|
    ensures AllTransfers(args)[j] == Transfer(args[j].fromId, args[j].toId, args[j].fromAmount)
    ensures AllRows(args)[2 * j] == Entry(args[j].fromId, Negate(args[j].fromAmount))
    ensures AllRows(args)[2 * j + 1] == Entry(args[j].toId, args[j].toAmount)
    decreases |args|
  {
    var n := |args| - 1;
    if n > 0 { RowsAt(args[..n], if j < n then j else 0); }
  }

  /** The same owner and currency, whatever the balance. */
  predicate SameHolder(x: Account, y: Account) {
    x.owner == y.owner && x.currency == y.currency
  }

  lemma {:induction false} HolderStays(db: Database, h: seq<Event>, i: nat, a: int)
    requires Sound(db, h) && i <= |h| && a in Replay(db, h[..i]).accounts
    ensures a in Replay(db, h).accounts && SameHolder(Replay(db, h[..i]).accounts[a], Replay(db, h).accounts[a])
    decreases |h|
  {
    if i < |h| {
      assert h[..|h| - 1][..i] == h[..i];
      HolderStays(db, h[..|h| - 1], i, a);
    } else {
      assert h[..i] == h;
    }
  }

  /** What the committed payment `arg` returned, when `earlier` had committed before it. */
  ghost predicate ReturnedInOrder(db: Database, result: TransferResult, arg: TransferArg, earlier: seq<TransferArg>) {
    && result.fromAccount.Some? && result.toAccount.Some?
    && result.transfer == Some(Transfer(arg.fromId, arg.toId, arg.fromAmount))
    && result.fromEntry == Some(Entry(arg.fromId, Negate(arg.fromAmount)))
    && result.toEntry == Some(Entry(arg.toId, arg.toAmount))
    && result.toAccount.value.balance == InitialBalance(db, arg.toId) + DeltaSum(earlier, arg.toId) + arg.toAmount
    && result.fromAccount.value.balance ==
       InitialBalance(db, arg.fromId) + DeltaSum(earlier, arg.fromId) + Negate(arg.fromAmount)
       + if arg.fromId == arg.toId then arg.toAmount else 0
  }

  /**
   Returned rows. The i-th committed payment returned, for each of its accounts, the
   initial balance plus the deltas of the transfers committed before it plus its own.
   An account paying itself is credited first, so its debit row also has the credit.
   */
  lemma ReturnedBalances(db: Database, ls: seq<Label>, i: nat)
    requires BalancesInRange(db) && Run(Start(db), ls).Some?
    requires i < |Run(Start(db), ls).value.history| && Run(Start(db), ls).value.history[i].Paid?
    ensures var s := Run(Start(db), ls).value;
            var Paid(t, arg) := s.history[i];
            && t in s.txns && s.txns[t].stage.Committed? && s.txns[t].arg == arg
            && ReturnedInOrder(db, s.txns[t].result, arg, Args(s.history[..i]))
            && arg.fromId in s.db.accounts && SameHolder(s.txns[t].result.fromAccount.value, s.db.accounts[arg.fromId])
            && arg.toId in s.db.accounts && SameHolder(s.txns[t].result.toAccount.value, s.db.accounts[arg.toId])
  {
    CommittedIsReplay(db, ls);
    var s := Run(Start(db), ls).value;
    assert RecordedAt(db, s, i);
    SoundAt(db, s.history, i);
    var arg := s.history[i].arg;
    ReplaySums(db, s.history[..i], arg.fromId);
    ReplaySums(db, s.history[..i], arg.toId);
    HolderStays(db, s.history, i, arg.fromId);
    HolderStays(db, s.history, i, arg.toId);
  }
}
