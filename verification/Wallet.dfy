/** The client end to end: what its accounts did on the pool, what its scanner read of it, and the
    balance it shows. */
module Wallet {
  import opened Wrappers
  import opened EventPaging
  import opened Scanner
  import opened ScannerSync
  import opened ScannerLedger
  import opened LedgerLog
  import Amounts
  import PoolLedger
  import ClientRuns

  /** Everything in the log is of a ledger before `reach`. */
  ghost predicate EndsBelow(log: seq<Event<PoolEvent>>, reach: nat)
  {
    forall k {:trigger log[k]} :: 0 <= k < |log| ==> log[k].Ledger() < reach
  }

  /** The total of the spendable notes. */
  method GetBalance(scanner: NoteScanner, v: Viewer) returns (balance: nat)
    ensures balance == Amounts.Total(AsSpendable(SpendableIn(scanner.State(), v)))
  {
    var notes := scanner.Spendable(v);
    balance := 0;
    for k := 0 to |notes|
      invariant balance == Amounts.Total(AsSpendable(notes[..k]))
    {
      assert notes[..k + 1][..k] == notes[..k];
      Amounts.TotalAppend(AsSpendable(notes[..k]), [Amounts.SpendableNote(notes[k].plain.amount, notes[k].leafIndex)]);
      balance := balance + notes[k].plain.amount;
    }
    assert notes[..|notes|] == notes;
  }

  /** Whatever operations made the book, whatever transactions carried them, and whatever syncs, failed
      stores and restarts the client went through, it shows the total of what its scanner shows; and if its
      last read was answered past the end of the log, that is the balance on the book, provided every leaf
      agrees. */
  method SyncAndReadBalance(
      ghost keys: Keys, ghost txs: seq<Tx>, ghost book: seq<ClientRuns.Entry>, ghost r: Reader, v: Viewer,
      sessions: seq<Session>)
    returns (balance: nat)
    requires Chain(keys, txs) && NullifiersDiffer(keys, txs) && v == ViewerOf(keys, r)
    requires ClientRuns.AgreesWithBook(Steps(txs), book) && AllHonest(LogOf(keys, txs), sessions)
    ensures exists parts {:trigger SessionsDone(sessions, parts)} ::
              SessionsDone(sessions, parts) && ReadsBalance(keys, txs, book, r, sessions, parts, balance)
  {
    ghost var log := LogOf(keys, txs);
    ChainRecords(keys, txs, r);
    var scanner, store := RunSyncs(log, sessions);
    balance := GetBalance(scanner, v);
    ghost var parts :| Synced(log, sessions, parts, scanner.State(), store);
    BalanceIsRead(keys, txs, book, r, sessions, parts, scanner.State(), store);
  }

  lemma {:induction false} BalanceIsRead(
      keys: Keys, txs: seq<Tx>, book: seq<ClientRuns.Entry>, r: Reader, sessions: seq<Session>, parts: seq<seq<Op>>,
      live: ScannerState, store: Option<ScannerSnapshot>)
    requires Chain(keys, txs) && NullifiersDiffer(keys, txs) && ClientRuns.AgreesWithBook(Steps(txs), book)
    requires Synced(LogOf(keys, txs), sessions, parts, live, store)
    ensures SessionsDone(sessions, parts)
    ensures ReadsBalance(keys, txs, book, r, sessions, parts,
              Amounts.Total(AsSpendable(SpendableIn(live, ViewerOf(keys, r)))))
  {
    var log := LogOf(keys, txs);
    if sessions != [] && EndsBelow(log, ReadBy(sessions[|sessions| - 1], LastStart(parts))) && AllAgree(keys, txs, r) {
      BookIsShown(keys, txs, book, OpsOf(parts), r);
    }
  }

  /** What is shown after these sessions, and when it is the balance on the book. */
  ghost predicate ReadsBalance(
      keys: Keys, txs: seq<Tx>, book: seq<ClientRuns.Entry>, r: Reader, sessions: seq<Session>, parts: seq<seq<Op>>,
      balance: nat)
  {
    && balance == Amounts.Total(Spendables(OpsOf(parts), ViewerOf(keys, r)))
    && (sessions != [] && EndsBelow(LogOf(keys, txs), ReadBy(sessions[|sessions| - 1], LastStart(parts))) &&
        AllAgree(keys, txs, r) ==>
          balance == ClientRuns.Balance(book, Some(r.key)))
  }

  /** Who keeps a book of the operations finds its balances in the scanner. */
  lemma {:induction false} BookIsShown(
      keys: Keys, txs: seq<Tx>, book: seq<ClientRuns.Entry>, ops: seq<Op>, r: Reader)
    requires Chain(keys, txs) && NullifiersDiffer(keys, txs) && HasRead(LogOf(keys, txs), ops) && AllAgree(keys, txs, r)
    requires ClientRuns.AgreesWithBook(Steps(txs), book)
    ensures Amounts.Total(Spendables(ops, ViewerOf(keys, r))) == ClientRuns.Balance(book, Some(r.key))
  {
    ScannerFindsTheBalance(keys, txs, ops, r);
    assert PoolLedger.Value(PoolAfter(txs), Some(r.key)) == ClientRuns.Balance(book, Some(r.key));
  }
}
