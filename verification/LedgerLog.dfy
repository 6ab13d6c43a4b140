/** The log that transactions on the pool leave behind, and what a viewing key makes of it.  From it
    follows when the notes a scanner shows are the account's live notes on the ledger. */
module LedgerLog {
  import opened Wrappers
  import opened EventPaging
  import opened Scanner
  import opened ScannerSync
  import opened ScannerLedger
  import Amounts
  import PoolLedger
  import Payments
  import Unshield

  // ----- transactions and their events -----

  /** Sealing, commitments and nullifiers.  A nullifier belongs to a spending key. */
  datatype Keys = Keys(
    open: (int, seq<int>) -> Option<NotePlain>,
    commitmentOf: NotePlain -> int,
    nullifierOf: (int, NotePlain, nat) -> nat)

  /** An output as it is sent: its content, and the viewing key it is sealed to. */
  datatype SealedNote = SealedNote(plain: NotePlain, sealedTo: int, ciphertext: seq<int>, mvkTag: int)

  /** An accepted spend, shield or withdrawal, or one that does nothing to the pool.  `padding` are the
      nullifiers announced besides those of the notes spent: the circuits take two inputs, and a spend of
      one note is filled up with a dummy under a random key.  `others` are the events that are about
      neither leaves nor nullifiers.  The spends of a batch share one operation and one `toid`; `first` is
      the index of this one's first event there. */
  datatype Tx = Tx(
    step: PoolLedger.Step, padding: seq<nat>, notes: seq<SealedNote>, others: seq<PoolEvent>, toid: nat, first: nat,
    closedAt: nat, txHash: int)

  /** What is sealed to a key opens under it, and under no other. */
  ghost predicate WellSealed(keys: Keys, n: SealedNote)
  {
    forall view {:trigger keys.open(view, n.ciphertext)} ::
      keys.open(view, n.ciphertext) == if view == n.sealedTo then Some(n.plain) else None
  }

  function NoteOn(n: SealedNote): PoolLedger.PoolNote
  {
    PoolLedger.PoolNote(n.plain.amount, n.plain.recipientPk)
  }

  function NotesOn(notes: seq<SealedNote>): (r: seq<PoolLedger.PoolNote>)
    ensures |r| == |notes|
  {
    seq(|notes|, k requires 0 <= k < |notes| => NoteOn(notes[k]))
  }

  predicate IsOther(e: PoolEvent)
  {
    !e.NewCommitment? && !e.NewNullifier?
  }

  function Steps(txs: seq<Tx>): seq<PoolLedger.Step>
  {
    if txs == [] then [] else Steps(txs[..|txs| - 1]) + [txs[|txs| - 1].step]
  }

  function AllNotes(txs: seq<Tx>): seq<SealedNote>
  {
    if txs == [] then [] else AllNotes(txs[..|txs| - 1]) + txs[|txs| - 1].notes
  }

  function AllPadding(txs: seq<Tx>): set<nat>
  {
    if txs == [] then {} else AllPadding(txs[..|txs| - 1]) + PoolLedger.AllOf(txs[|txs| - 1].padding)
  }

  /** The pool after these transactions. */
  function PoolAfter(txs: seq<Tx>): PoolLedger.Ledger
  {
    PoolLedger.Run(PoolLedger.Genesis(), Steps(txs))
  }

  /** Everything in the log comes before event `index` of operation `toid`. */
  ghost predicate EndsBefore(log: seq<Event<PoolEvent>>, toid: nat, index: nat)
  {
    forall k {:trigger log[k]} :: 0 <= k < |log| ==> Before(log[k].id, Cursor(toid, index))
  }

  /** None of the padding was announced before, or is announced twice. */
  ghost predicate NewPadding(padding: seq<nat>, before: set<nat>)
  {
    PoolLedger.Distinct(padding) && forall k {:trigger padding[k]} :: 0 <= k < |padding| ==> padding[k] !in before
  }

  ghost predicate Accepted(keys: Keys, before: seq<Tx>, tx: Tx)
  {
    && PoolLedger.Legal(PoolAfter(before), tx.step) && tx.step.outputs == NotesOn(tx.notes)
    && (forall j {:trigger tx.notes[j]} :: 0 <= j < |tx.notes| ==> WellSealed(keys, tx.notes[j]))
    && (forall j {:trigger tx.others[j]} :: 0 <= j < |tx.others| ==> IsOther(tx.others[j]))
    && tx.toid >= LEDGER_SHIFT && EndsBefore(LogOf(keys, before), tx.toid, tx.first)
    && NewPadding(tx.padding, AllPadding(before))
  }

  /** Transactions accepted one after another, from the empty pool on. */
  ghost predicate Chain(keys: Keys, txs: seq<Tx>)
  {
    txs == [] || (Chain(keys, txs[..|txs| - 1]) && Accepted(keys, txs[..|txs| - 1], txs[|txs| - 1]))
  }

  /** The nullifier that spending leaf `i` announces: that of the owner's key. */
  function NullifierAt(keys: Keys, notes: seq<SealedNote>, i: nat): nat
    requires i < |notes|
  {
    keys.nullifierOf(notes[i].plain.recipientPk, notes[i].plain, i)
  }

  /** No two notes have the same nullifier, and no padding is the nullifier of a note. */
  ghost predicate Apart(keys: Keys, notes: seq<SealedNote>, pads: set<nat>)
  {
    && (forall i: nat, j: nat {:trigger NullifierAt(keys, notes, i), NullifierAt(keys, notes, j)} ::
          i < |notes| && j < |notes| && NullifierAt(keys, notes, i) == NullifierAt(keys, notes, j) ==> i == j)
    && forall i: nat {:trigger NullifierAt(keys, notes, i)} :: i < |notes| ==> NullifierAt(keys, notes, i) !in pads
  }

  ghost predicate NullifiersDiffer(keys: Keys, txs: seq<Tx>)
  {
    Apart(keys, AllNotes(txs), AllPadding(txs))
  }

  function Insertion(keys: Keys, n: SealedNote, index: nat): PoolEvent
  {
    NewCommitment(index, keys.commitmentOf(n.plain), n.ciphertext, n.mvkTag)
  }

  function Announcements(keys: Keys, notes: seq<SealedNote>, inputs: seq<nat>): (r: seq<PoolEvent>)
    ensures |r| == |inputs|
  {
    seq(|inputs|, k requires 0 <= k < |inputs| =>
      if inputs[k] < |notes| then NewNullifier(NullifierAt(keys, notes, inputs[k])) else OtherEvent)
  }

  function Paddings(padding: seq<nat>): (r: seq<PoolEvent>)
    ensures |r| == |padding|
  {
    seq(|padding|, k requires 0 <= k < |padding| => NewNullifier(padding[k]))
  }

  function Insertions(keys: Keys, first: nat, more: seq<SealedNote>): (r: seq<PoolEvent>)
    ensures |r| == |more|
  {
    seq(|more|, j requires 0 <= j < |more| => Insertion(keys, more[j], first + j))
  }

  function EventOf(tx: Tx, index: nat, payload: PoolEvent): Event<PoolEvent>
  {
    Event(Cursor(tx.toid, index), tx.closedAt, tx.txHash, payload)
  }

  /** The log with the payloads behind it, as events of `tx` from index `first` on. */
  function Posted(log: seq<Event<PoolEvent>>, tx: Tx, first: nat, payloads: seq<PoolEvent>): seq<Event<PoolEvent>>
  {
    if payloads == [] then log
    else
      var last := |payloads| - 1;
      Posted(log, tx, first, payloads[..last]) + [EventOf(tx, first + last, payloads[last])]
  }

  /** A transaction announces what it spends and its padding, inserts its outputs, and says whatever else
      it says. */
  function AfterTx(keys: Keys, log: seq<Event<PoolEvent>>, notes: seq<SealedNote>, tx: Tx): seq<Event<PoolEvent>>
  {
    var spends, inserts := Announcements(keys, notes, tx.step.inputs), Insertions(keys, |notes|, tx.notes);
    var one := Posted(log, tx, tx.first, spends);
    var two := Posted(one, tx, tx.first + |spends|, Paddings(tx.padding));
    var three := Posted(two, tx, tx.first + |spends| + |tx.padding|, inserts);
    Posted(three, tx, tx.first + |spends| + |tx.padding| + |inserts|, tx.others)
  }

  function LogOf(keys: Keys, txs: seq<Tx>): seq<Event<PoolEvent>>
  {
    if txs == [] then []
    else
      var init := txs[..|txs| - 1];
      AfterTx(keys, LogOf(keys, init), AllNotes(init), txs[|txs| - 1])
  }

  // ----- the log tells the ledger -----

  ghost predicate Nulled(keys: Keys, notes: seq<SealedNote>, spent: set<nat>, x: nat)
  {
    exists i: nat {:trigger i in spent} :: i in spent && i < |notes| && x == NullifierAt(keys, notes, i)
  }

  /** Exactly the nullifiers of the spent leaves and the padding are announced. */
  ghost predicate TellsSpent(keys: Keys, log: seq<Event<PoolEvent>>, notes: seq<SealedNote>, spent: set<nat>,
    pads: set<nat>)
  {
    && (forall i :: i in spent ==> i < |notes|)
    && forall x {:trigger Announced(log, |log|, x)} ::
         Announced(log, |log|, x) <==> Nulled(keys, notes, spent, x) || x in pads
  }

  /** Exactly the notes are inserted, each under its index. */
  ghost predicate TellsNotes(keys: Keys, log: seq<Event<PoolEvent>>, notes: seq<SealedNote>)
  {
    && InsertsInOrder(log) && |LeavesOf(log, |log|)| == |notes|
    && forall k {:trigger log[k]} :: 0 <= k < |log| && log[k].payload.NewCommitment? ==>
         var i := log[k].payload.index; i < |notes| && log[k].payload == Insertion(keys, notes[i], i)
  }

  ghost predicate Tells(keys: Keys, log: seq<Event<PoolEvent>>, notes: seq<SealedNote>, spent: set<nat>, pads: set<nat>)
  {
    OnChain(log) && TellsNotes(keys, log, notes) && TellsSpent(keys, log, notes, spent, pads)
  }

  lemma {:induction false} AppendOnChain(log: seq<Event<PoolEvent>>, e: Event<PoolEvent>)
    requires OnChain(log) && EndsBefore(log, e.id.toid, e.id.index) && e.Ledger() >= 1
    requires forall k {:trigger log[k]} :: 0 <= k < |log| ==> !SameKey(log[k].payload, e.payload)
    ensures OnChain(log + [e])
  {
    var grown := log + [e];
    forall i, j {:trigger SameKey(grown[i].payload, grown[j].payload)} | 0 <= i < j < |grown|
      ensures !SameKey(grown[i].payload, grown[j].payload)
    {
      if j < |log| {
        assert !SameKey(log[i].payload, log[j].payload);
      } else {
        assert log[i] == grown[i];
      }
    }
  }

  lemma {:induction false} LeavesOfPrefix(log: seq<Event<PoolEvent>>, e: Event<PoolEvent>, n: nat)
    requires n <= |log|
    ensures LeavesOf(log + [e], n) == LeavesOf(log, n)
  {
    if n == 0 {
    } else {
      LeavesOfPrefix(log, e, n - 1);
    }
  }

  lemma {:induction false} AppendInOrder(log: seq<Event<PoolEvent>>, e: Event<PoolEvent>)
    requires InsertsInOrder(log) && (e.payload.NewCommitment? ==> e.payload.index == |LeavesOf(log, |log|)|)
    ensures InsertsInOrder(log + [e])
    ensures |LeavesOf(log + [e], |log + [e]|)| == |LeavesOf(log, |log|)| + if e.payload.NewCommitment? then 1 else 0
  {
    var grown := log + [e];
    LeavesOfPrefix(log, e, |log|);
    forall k {:trigger grown[k]} | 0 <= k < |grown| && grown[k].payload.NewCommitment?
      ensures grown[k].payload.index == |LeavesOf(grown, k)|
    {
      LeavesOfPrefix(log, e, k);
      if k < |log| {
        assert grown[k] == log[k];
      }
    }
  }

  lemma {:induction false} AppendAnnounced(log: seq<Event<PoolEvent>>, e: Event<PoolEvent>, x: nat)
    ensures Announced(log + [e], |log + [e]|, x) <==> Announced(log, |log|, x) || e.payload == NewNullifier(x)
  {
    var grown := log + [e];
    assert grown[|log|] == e;
    if Announced(log, |log|, x) {
      var k :| 0 <= k < |log| && log[k].payload == NewNullifier(x);
      assert grown[k] == log[k];
    }
  }

  /** One more leaf is spent. */
  lemma {:induction false} TellSpend(
      keys: Keys, log: seq<Event<PoolEvent>>, notes: seq<SealedNote>, spent: set<nat>, i: nat, e: Event<PoolEvent>,
        pads: set<nat>)
    requires Tells(keys, log, notes, spent, pads) && Apart(keys, notes, pads) && i < |notes| && i !in spent
    requires e.payload == NewNullifier(NullifierAt(keys, notes, i))
    requires EndsBefore(log, e.id.toid, e.id.index) && e.Ledger() >= 1
    ensures Tells(keys, log + [e], notes, spent + {i}, pads)
  {
    NotYetNulled(keys, notes, spent, pads, i);
    assert !Announced(log, |log|, NullifierAt(keys, notes, i));
    AppendOnChain(log, e);
    AppendInOrder(log, e);
    assert TellsNotes(keys, log + [e], notes);
    SpentMore(keys, log, notes, spent, i, e, pads);
  }

  lemma {:induction false} NotYetNulled(
      keys: Keys, notes: seq<SealedNote>, spent: set<nat>, pads: set<nat>, i: nat)
    requires Apart(keys, notes, pads) && i < |notes| && i !in spent
    ensures !Nulled(keys, notes, spent, NullifierAt(keys, notes, i)) && NullifierAt(keys, notes, i) !in pads
  {
  }

  lemma {:induction false} SpentMore(
      keys: Keys, log: seq<Event<PoolEvent>>, notes: seq<SealedNote>, spent: set<nat>, i: nat, e: Event<PoolEvent>,
        pads: set<nat>)
    requires TellsSpent(keys, log, notes, spent, pads) && i < |notes|
    requires e.payload == NewNullifier(NullifierAt(keys, notes, i))
    ensures TellsSpent(keys, log + [e], notes, spent + {i}, pads)
  {
    forall x ensures Announced(log + [e], |log + [e]|, x) <==> Nulled(keys, notes, spent + {i}, x) || x in pads {
      AppendAnnounced(log, e, x);
      NulledMore(keys, notes, spent, i, x);
    }
  }

  lemma {:induction false} NulledMore(keys: Keys, notes: seq<SealedNote>, spent: set<nat>, i: nat, x: nat)
    requires i < |notes|
    ensures Nulled(keys, notes, spent + {i}, x) <==> Nulled(keys, notes, spent, x) || x == NullifierAt(keys, notes, i)
  {
    assert i in spent + {i};
    if Nulled(keys, notes, spent, x) {
      var j: nat :| j in spent && j < |notes| && x == NullifierAt(keys, notes, j);
      assert j in spent + {i};
    }
  }

  /** One more nullifier that is no note's. */
  lemma {:induction false} TellPad(
      keys: Keys, log: seq<Event<PoolEvent>>, notes: seq<SealedNote>, spent: set<nat>, pads: set<nat>, x: nat,
      e: Event<PoolEvent>)
    requires Tells(keys, log, notes, spent, pads) && x !in pads && Apart(keys, notes, pads + {x})
    requires e.payload == NewNullifier(x) && EndsBefore(log, e.id.toid, e.id.index) && e.Ledger() >= 1
    ensures Tells(keys, log + [e], notes, spent, pads + {x})
  {
    NotOfANote(keys, notes, spent, pads, x);
    assert !Announced(log, |log|, x);
    AppendOnChain(log, e);
    AppendInOrder(log, e);
    assert TellsNotes(keys, log + [e], notes);
    forall y ensures Announced(log + [e], |log + [e]|, y) <==> Nulled(keys, notes, spent, y) || y in pads + {x} {
      AppendAnnounced(log, e, y);
    }
  }

  lemma {:induction false} NotOfANote(keys: Keys, notes: seq<SealedNote>, spent: set<nat>, pads: set<nat>, x: nat)
    requires Apart(keys, notes, pads + {x})
    ensures !Nulled(keys, notes, spent, x)
  {
    assert x in pads + {x};
  }

  /** One more note is inserted. */
  lemma {:induction false} TellNote(
      keys: Keys, log: seq<Event<PoolEvent>>, notes: seq<SealedNote>, spent: set<nat>, n: SealedNote,
        e: Event<PoolEvent>, pads: set<nat>)
    requires Tells(keys, log, notes, spent, pads) && e.payload == Insertion(keys, n, |notes|)
    requires EndsBefore(log, e.id.toid, e.id.index) && e.Ledger() >= 1
    ensures Tells(keys, log + [e], notes + [n], spent, pads)
  {
    AppendOnChain(log, e);
    AppendInOrder(log, e);
    NotesMore(keys, log, notes, n, e);
    SpentStays(keys, log, notes, [n], spent, e, pads);
  }

  lemma {:induction false} NotesMore(
      keys: Keys, log: seq<Event<PoolEvent>>, notes: seq<SealedNote>, n: SealedNote, e: Event<PoolEvent>)
    requires TellsNotes(keys, log, notes) && e.payload == Insertion(keys, n, |notes|)
    requires InsertsInOrder(log + [e]) && |LeavesOf(log + [e], |log + [e]|)| == |notes| + 1
    ensures TellsNotes(keys, log + [e], notes + [n])
  {
    var grown := log + [e];
    forall k {:trigger grown[k]} | 0 <= k < |grown| && grown[k].payload.NewCommitment?
      ensures var i := grown[k].payload.index;
              i < |notes + [n]| && grown[k].payload == Insertion(keys, (notes + [n])[i], i)
    {
      if k < |log| {
        assert grown[k] == log[k];
      }
    }
  }

  /** An event that announces nothing leaves the spent leaves as they are. */
  lemma {:induction false} SpentStays(
      keys: Keys, log: seq<Event<PoolEvent>>, notes: seq<SealedNote>, more: seq<SealedNote>, spent: set<nat>,
      e: Event<PoolEvent>, pads: set<nat>)
    requires TellsSpent(keys, log, notes, spent, pads) && !e.payload.NewNullifier?
    ensures TellsSpent(keys, log + [e], notes + more, spent, pads)
  {
    forall x ensures Announced(log + [e], |log + [e]|, x) <==> Nulled(keys, notes + more, spent, x) || x in pads {
      AppendAnnounced(log, e, x);
      NulledPrefix(keys, notes, more, spent, x);
    }
  }

  lemma {:induction false} NulledPrefix(
      keys: Keys, notes: seq<SealedNote>, more: seq<SealedNote>, spent: set<nat>, x: nat)
    requires forall i :: i in spent ==> i < |notes|
    ensures Nulled(keys, notes + more, spent, x) <==> Nulled(keys, notes, spent, x)
  {
    forall i: nat | i < |notes| ensures NullifierAt(keys, notes + more, i) == NullifierAt(keys, notes, i) {
    }
  }

  lemma {:induction false} TellOther(
      keys: Keys, log: seq<Event<PoolEvent>>, notes: seq<SealedNote>, spent: set<nat>, e: Event<PoolEvent>,
        pads: set<nat>)
    requires Tells(keys, log, notes, spent, pads) && IsOther(e.payload)
    requires EndsBefore(log, e.id.toid, e.id.index) && e.Ledger() >= 1
    ensures Tells(keys, log + [e], notes, spent, pads)
  {
    AppendOnChain(log, e);
    AppendInOrder(log, e);
    assert TellsNotes(keys, log + [e], notes);
    SpentStays(keys, log, notes, [], spent, e, pads);
    assert notes + [] == notes;
  }

  // ----- one transaction -----

  lemma {:induction false} PostedEnds(log: seq<Event<PoolEvent>>, tx: Tx, first: nat, payloads: seq<PoolEvent>)
    requires EndsBefore(log, tx.toid, first)
    ensures EndsBefore(Posted(log, tx, first, payloads), tx.toid, first + |payloads|)
    decreases |payloads|
  {
    if payloads == [] {
    } else {
      PostedEnds(log, tx, first, payloads[..|payloads| - 1]);
    }
  }

  lemma {:induction false} PostSpends(
      keys: Keys, log: seq<Event<PoolEvent>>, tx: Tx, notes: seq<SealedNote>, spent: set<nat>, inputs: seq<nat>,
        pads: set<nat>)
    requires Tells(keys, log, notes, spent, pads) && Apart(keys, notes, pads)
    requires EndsBefore(log, tx.toid, tx.first) && tx.toid >= LEDGER_SHIFT && PoolLedger.Distinct(inputs)
    requires forall k {:trigger inputs[k]} :: 0 <= k < |inputs| ==> inputs[k] < |notes| && inputs[k] !in spent
    ensures Tells(keys, Posted(log, tx, tx.first, Announcements(keys, notes, inputs)), notes,
              spent + PoolLedger.AllOf(inputs), pads)
    decreases |inputs|
  {
    if inputs == [] {
      assert spent + PoolLedger.AllOf(inputs) == spent;
    } else {
      var init, i := inputs[..|inputs| - 1], inputs[|inputs| - 1];
      PostSpends(keys, log, tx, notes, spent, init, pads);
      OneMoreInput(spent, init, i);
      assert inputs == init + [i];
      PostSpendMore(keys, log, tx, notes, spent + PoolLedger.AllOf(init), init, i, pads);
    }
  }

  lemma {:induction false} TellSpendAt(
      keys: Keys, log: seq<Event<PoolEvent>>, tx: Tx, index: nat, notes: seq<SealedNote>, spent: set<nat>, i: nat,
        pads: set<nat>)
    requires Tells(keys, log, notes, spent, pads) && Apart(keys, notes, pads) && i < |notes| && i !in spent
    requires EndsBefore(log, tx.toid, index) && tx.toid >= LEDGER_SHIFT
    ensures Tells(keys, log + [EventOf(tx, index, NewNullifier(NullifierAt(keys, notes, i)))], notes, spent + {i}, pads)
  {
    TellSpend(keys, log, notes, spent, i, EventOf(tx, index, NewNullifier(NullifierAt(keys, notes, i))), pads);
  }

  lemma {:induction false} TellSpendNext(
      keys: Keys, log: seq<Event<PoolEvent>>, next: seq<Event<PoolEvent>>, tx: Tx, index: nat, notes: seq<SealedNote>,
      spent: set<nat>, i: nat, pads: set<nat>)
    requires Tells(keys, log, notes, spent, pads) && Apart(keys, notes, pads) && i < |notes| && i !in spent
    requires EndsBefore(log, tx.toid, index) && tx.toid >= LEDGER_SHIFT
    requires next == log + [EventOf(tx, index, NewNullifier(NullifierAt(keys, notes, i)))]
    ensures Tells(keys, next, notes, spent + {i}, pads)
  {
    TellSpendAt(keys, log, tx, index, notes, spent, i, pads);
  }

  lemma {:induction false} OneMoreInput(spent: set<nat>, init: seq<nat>, i: nat)
    requires PoolLedger.Distinct(init + [i]) && i !in spent
    ensures i !in spent + PoolLedger.AllOf(init)
    ensures spent + PoolLedger.AllOf(init + [i]) == spent + PoolLedger.AllOf(init) + {i}
  {
    forall k | 0 <= k < |init| ensures init[k] != i {
      assert (init + [i])[k] != (init + [i])[|init|];
    }
  }

  lemma {:induction false} PostSpendMore(
      keys: Keys, log: seq<Event<PoolEvent>>, tx: Tx, notes: seq<SealedNote>, spent: set<nat>, init: seq<nat>, i: nat,
        pads: set<nat>)
    requires EndsBefore(log, tx.toid, tx.first) && tx.toid >= LEDGER_SHIFT && Apart(keys, notes, pads)
    requires i < |notes| && i !in spent
    requires Tells(keys, Posted(log, tx, tx.first, Announcements(keys, notes, init)), notes, spent, pads)
    ensures Tells(keys, Posted(log, tx, tx.first, Announcements(keys, notes, init + [i])), notes, spent + {i}, pads)
  {
    PostedEnds(log, tx, tx.first, Announcements(keys, notes, init));
    PostSpend(keys, log, tx, notes, init, i);
    TellSpendNext(keys, Posted(log, tx, tx.first, Announcements(keys, notes, init)),
      Posted(log, tx, tx.first, Announcements(keys, notes, init + [i])), tx, tx.first + |init|, notes, spent, i, pads);
  }

  lemma {:induction false} PostSpend(
      keys: Keys, log: seq<Event<PoolEvent>>, tx: Tx, notes: seq<SealedNote>, init: seq<nat>, i: nat)
    requires i < |notes|
    ensures Posted(log, tx, tx.first, Announcements(keys, notes, init + [i]))
            == Posted(log, tx, tx.first, Announcements(keys, notes, init))
               + [EventOf(tx, tx.first + |init|, NewNullifier(NullifierAt(keys, notes, i)))]
  {
    assert Announcements(keys, notes, init + [i])[..|init|] == Announcements(keys, notes, init);
  }

  lemma {:induction false} PostPads(
      keys: Keys, log: seq<Event<PoolEvent>>, tx: Tx, first: nat, notes: seq<SealedNote>, spent: set<nat>,
      padding: seq<nat>, pads: set<nat>)
    requires Tells(keys, log, notes, spent, pads) && EndsBefore(log, tx.toid, first) && tx.toid >= LEDGER_SHIFT
    requires NewPadding(padding, pads) && Apart(keys, notes, pads + PoolLedger.AllOf(padding))
    ensures Tells(keys, Posted(log, tx, first, Paddings(padding)), notes, spent, pads + PoolLedger.AllOf(padding))
    decreases |padding|
  {
    if padding == [] {
      assert pads + PoolLedger.AllOf(padding) == pads;
    } else {
      var init, x := padding[..|padding| - 1], padding[|padding| - 1];
      assert padding == init + [x];
      OneMoreInput(pads, init, x);
      FewerPads(keys, notes, pads + PoolLedger.AllOf(init), {x});
      PostPads(keys, log, tx, first, notes, spent, init, pads);
      PostPadMore(keys, log, tx, first, notes, spent, init, x, pads + PoolLedger.AllOf(init));
    }
  }

  lemma {:induction false} FewerPads(keys: Keys, notes: seq<SealedNote>, pads: set<nat>, more: set<nat>)
    requires Apart(keys, notes, pads + more)
    ensures Apart(keys, notes, pads)
  {
  }

  lemma {:induction false} PostPadMore(
      keys: Keys, log: seq<Event<PoolEvent>>, tx: Tx, first: nat, notes: seq<SealedNote>, spent: set<nat>,
      init: seq<nat>, x: nat, pads: set<nat>)
    requires EndsBefore(log, tx.toid, first) && tx.toid >= LEDGER_SHIFT
    requires x !in pads && Apart(keys, notes, pads + {x})
    requires Tells(keys, Posted(log, tx, first, Paddings(init)), notes, spent, pads)
    ensures Tells(keys, Posted(log, tx, first, Paddings(init + [x])), notes, spent, pads + {x})
  {
    PostedEnds(log, tx, first, Paddings(init));
    PostPad(log, tx, first, init, x);
    TellPadNext(keys, Posted(log, tx, first, Paddings(init)), Posted(log, tx, first, Paddings(init + [x])), tx,
      first + |init|, notes, spent, x, pads);
  }

  lemma {:induction false} TellPadNext(
      keys: Keys, log: seq<Event<PoolEvent>>, next: seq<Event<PoolEvent>>, tx: Tx, index: nat, notes: seq<SealedNote>,
      spent: set<nat>, x: nat, pads: set<nat>)
    requires Tells(keys, log, notes, spent, pads) && x !in pads && Apart(keys, notes, pads + {x})
    requires EndsBefore(log, tx.toid, index) && tx.toid >= LEDGER_SHIFT
    requires next == log + [EventOf(tx, index, NewNullifier(x))]
    ensures Tells(keys, next, notes, spent, pads + {x})
  {
    TellPad(keys, log, notes, spent, pads, x, EventOf(tx, index, NewNullifier(x)));
  }

  lemma {:induction false} PostPad(log: seq<Event<PoolEvent>>, tx: Tx, first: nat, init: seq<nat>, x: nat)
    ensures Posted(log, tx, first, Paddings(init + [x]))
            == Posted(log, tx, first, Paddings(init)) + [EventOf(tx, first + |init|, NewNullifier(x))]
  {
    assert Paddings(init + [x])[..|init|] == Paddings(init);
  }

  lemma {:induction false} TellNoteAt(
      keys: Keys, log: seq<Event<PoolEvent>>, tx: Tx, index: nat, notes: seq<SealedNote>, spent: set<nat>,
      n: SealedNote, pads: set<nat>)
    requires Tells(keys, log, notes, spent, pads) && EndsBefore(log, tx.toid, index) && tx.toid >= LEDGER_SHIFT
    ensures Tells(keys, log + [EventOf(tx, index, Insertion(keys, n, |notes|))], notes + [n], spent, pads)
  {
    TellNote(keys, log, notes, spent, n, EventOf(tx, index, Insertion(keys, n, |notes|)), pads);
  }

  lemma {:induction false} TellNoteNext(
      keys: Keys, log: seq<Event<PoolEvent>>, next: seq<Event<PoolEvent>>, tx: Tx, index: nat, notes: seq<SealedNote>,
      spent: set<nat>, n: SealedNote, pads: set<nat>)
    requires Tells(keys, log, notes, spent, pads) && EndsBefore(log, tx.toid, index) && tx.toid >= LEDGER_SHIFT
    requires next == log + [EventOf(tx, index, Insertion(keys, n, |notes|))]
    ensures Tells(keys, next, notes + [n], spent, pads)
  {
    TellNoteAt(keys, log, tx, index, notes, spent, n, pads);
  }

  lemma {:induction false} PostNotes(
      keys: Keys, log: seq<Event<PoolEvent>>, tx: Tx, first: nat, notes: seq<SealedNote>, spent: set<nat>,
      more: seq<SealedNote>, pads: set<nat>)
    requires Tells(keys, log, notes, spent, pads) && EndsBefore(log, tx.toid, first) && tx.toid >= LEDGER_SHIFT
    ensures Tells(keys, Posted(log, tx, first, Insertions(keys, |notes|, more)), notes + more, spent, pads)
    decreases |more|
  {
    if more == [] {
      assert notes + more == notes;
    } else {
      var init, n := more[..|more| - 1], more[|more| - 1];
      PostNotes(keys, log, tx, first, notes, spent, init, pads);
      assert more == init + [n] && notes + more == notes + init + [n];
      PostNoteMore(keys, log, tx, first, |notes|, notes + init, spent, init, n, pads);
    }
  }

  lemma {:induction false} PostNoteMore(
      keys: Keys, log: seq<Event<PoolEvent>>, tx: Tx, first: nat, at: nat, notes: seq<SealedNote>, spent: set<nat>,
      init: seq<SealedNote>, n: SealedNote, pads: set<nat>)
    requires EndsBefore(log, tx.toid, first) && tx.toid >= LEDGER_SHIFT && |notes| == at + |init|
    requires Tells(keys, Posted(log, tx, first, Insertions(keys, at, init)), notes, spent, pads)
    ensures Tells(keys, Posted(log, tx, first, Insertions(keys, at, init + [n])), notes + [n], spent, pads)
  {
    PostedEnds(log, tx, first, Insertions(keys, at, init));
    PostNote(keys, log, tx, first, at, init, n);
    TellNoteNext(keys, Posted(log, tx, first, Insertions(keys, at, init)),
      Posted(log, tx, first, Insertions(keys, at, init + [n])), tx, first + |init|, notes, spent, n, pads);
  }

  lemma {:induction false} PostNote(
      keys: Keys, log: seq<Event<PoolEvent>>, tx: Tx, first: nat, at: nat, init: seq<SealedNote>, n: SealedNote)
    ensures Posted(log, tx, first, Insertions(keys, at, init + [n]))
            == Posted(log, tx, first, Insertions(keys, at, init))
               + [EventOf(tx, first + |init|, Insertion(keys, n, at + |init|))]
  {
    assert Insertions(keys, at, init + [n])[..|init|] == Insertions(keys, at, init);
  }

  lemma {:induction false} PostOthers(
      keys: Keys, log: seq<Event<PoolEvent>>, tx: Tx, first: nat, notes: seq<SealedNote>, spent: set<nat>,
      others: seq<PoolEvent>, pads: set<nat>)
    requires Tells(keys, log, notes, spent, pads) && EndsBefore(log, tx.toid, first) && tx.toid >= LEDGER_SHIFT
    requires forall j {:trigger others[j]} :: 0 <= j < |others| ==> IsOther(others[j])
    ensures Tells(keys, Posted(log, tx, first, others), notes, spent, pads)
    decreases |others|
  {
    if others == [] {
    } else {
      var last := |others| - 1;
      PostOthers(keys, log, tx, first, notes, spent, others[..last], pads);
      PostedEnds(log, tx, first, others[..last]);
      TellOther(keys, Posted(log, tx, first, others[..last]), notes, spent,
        EventOf(tx, first + last, others[last]), pads);
    }
  }

  /** What the log says once the spends and the padding are announced. */
  lemma {:induction false} PostAnnounced(
      keys: Keys, log: seq<Event<PoolEvent>>, notes: seq<SealedNote>, spent: set<nat>, tx: Tx, pads: set<nat>,
      two: seq<Event<PoolEvent>>)
    requires Tells(keys, log, notes, spent, pads)
    requires Apart(keys, notes, pads + PoolLedger.AllOf(tx.padding)) && NewPadding(tx.padding, pads)
    requires EndsBefore(log, tx.toid, tx.first) && tx.toid >= LEDGER_SHIFT && PoolLedger.Distinct(tx.step.inputs)
    requires forall k {:trigger tx.step.inputs[k]} :: 0 <= k < |tx.step.inputs| ==>
               tx.step.inputs[k] < |notes| && tx.step.inputs[k] !in spent
    requires two == Posted(Posted(log, tx, tx.first, Announcements(keys, notes, tx.step.inputs)), tx,
                      tx.first + |tx.step.inputs|, Paddings(tx.padding))
    ensures EndsBefore(two, tx.toid, tx.first + |tx.step.inputs| + |tx.padding|)
    ensures Tells(keys, two, notes, spent + PoolLedger.AllOf(tx.step.inputs), pads + PoolLedger.AllOf(tx.padding))
  {
    var spends, at := Announcements(keys, notes, tx.step.inputs), tx.first + |tx.step.inputs|;
    var one := Posted(log, tx, tx.first, spends);
    FewerPads(keys, notes, pads, PoolLedger.AllOf(tx.padding));
    PostSpends(keys, log, tx, notes, spent, tx.step.inputs, pads);
    PostedEnds(log, tx, tx.first, spends);
    PostPads(keys, one, tx, at, notes, spent + PoolLedger.AllOf(tx.step.inputs), tx.padding, pads);
    PostedEnds(one, tx, at, Paddings(tx.padding));
  }

  lemma {:induction false} PostTx(
      keys: Keys, log: seq<Event<PoolEvent>>, notes: seq<SealedNote>, spent: set<nat>, tx: Tx, pads: set<nat>)
    requires Tells(keys, log, notes, spent, pads)
    requires Apart(keys, notes + tx.notes, pads + PoolLedger.AllOf(tx.padding)) && NewPadding(tx.padding, pads)
    requires EndsBefore(log, tx.toid, tx.first) && tx.toid >= LEDGER_SHIFT && PoolLedger.Distinct(tx.step.inputs)
    requires forall k {:trigger tx.step.inputs[k]} :: 0 <= k < |tx.step.inputs| ==>
               tx.step.inputs[k] < |notes| && tx.step.inputs[k] !in spent
    requires forall j {:trigger tx.others[j]} :: 0 <= j < |tx.others| ==> IsOther(tx.others[j])
    ensures Tells(keys, AfterTx(keys, log, notes, tx), notes + tx.notes, spent + PoolLedger.AllOf(tx.step.inputs),
              pads + PoolLedger.AllOf(tx.padding))
  {
    var spends, inserts := Announcements(keys, notes, tx.step.inputs), Insertions(keys, |notes|, tx.notes);
    var two := Posted(Posted(log, tx, tx.first, spends), tx, tx.first + |spends|, Paddings(tx.padding));
    var at := tx.first + |spends| + |tx.padding|;
    var three := Posted(two, tx, at, inserts);
    var spent', pads' := spent + PoolLedger.AllOf(tx.step.inputs), pads + PoolLedger.AllOf(tx.padding);
    FewerNotes(keys, notes, tx.notes, pads');
    PostAnnounced(keys, log, notes, spent, tx, pads, two);
    PostNotes(keys, two, tx, at, notes, spent', tx.notes, pads');
    PostedEnds(two, tx, at, inserts);
    PostOthers(keys, three, tx, at + |inserts|, notes + tx.notes, spent', tx.others, pads');
  }

  lemma {:induction false} FewerNotes(keys: Keys, notes: seq<SealedNote>, more: seq<SealedNote>, pads: set<nat>)
    requires Apart(keys, notes + more, pads)
    ensures Apart(keys, notes, pads)
  {
    forall i: nat | i < |notes| ensures NullifierAt(keys, notes, i) == NullifierAt(keys, notes + more, i) {
    }
  }

  // ----- the whole chain -----

  lemma {:induction false} TxAdded(init: seq<Tx>, tx: Tx)
    ensures AllNotes(init + [tx]) == AllNotes(init) + tx.notes
    ensures AllPadding(init + [tx]) == AllPadding(init) + PoolLedger.AllOf(tx.padding)
    ensures PoolAfter(init + [tx]) == PoolLedger.Apply(PoolAfter(init), tx.step)
  {
    assert (init + [tx])[..|init|] == init;
    PoolLedger.RunSnoc(PoolLedger.Genesis(), Steps(init), tx.step);
  }

  lemma {:induction false} ChainSnoc(keys: Keys, init: seq<Tx>, tx: Tx)
    ensures Chain(keys, init + [tx]) <==> Chain(keys, init) && Accepted(keys, init, tx)
    ensures AllNotes(init + [tx]) == AllNotes(init) + tx.notes
    ensures AllPadding(init + [tx]) == AllPadding(init) + PoolLedger.AllOf(tx.padding)
    ensures LogOf(keys, init + [tx]) == AfterTx(keys, LogOf(keys, init), AllNotes(init), tx)
    ensures PoolAfter(init + [tx]) == PoolLedger.Apply(PoolAfter(init), tx.step)
  {
    assert (init + [tx])[..|init|] == init;
    TxAdded(init, tx);
  }

  /** The pool's leaves are the notes that were sent. */
  lemma {:induction false} ChainLeaves(keys: Keys, txs: seq<Tx>)
    requires Chain(keys, txs)
    ensures PoolAfter(txs).leaves == NotesOn(AllNotes(txs))
    decreases |txs|
  {
    if txs == [] {
    } else {
      var init, tx := txs[..|txs| - 1], txs[|txs| - 1];
      ChainLeaves(keys, init);
      LeavesMore(init, tx);
      assert txs == init + [tx];
    }
  }

  lemma {:induction false} LeavesMore(init: seq<Tx>, tx: Tx)
    requires PoolAfter(init).leaves == NotesOn(AllNotes(init)) && tx.step.outputs == NotesOn(tx.notes)
    ensures PoolAfter(init + [tx]).leaves == NotesOn(AllNotes(init + [tx]))
  {
    TxAdded(init, tx);
    NotesOnAppend(AllNotes(init), tx.notes);
  }

  lemma {:induction false} NotesOnAppend(a: seq<SealedNote>, b: seq<SealedNote>)
    ensures NotesOn(a + b) == NotesOn(a) + NotesOn(b)
  {
  }

  /** The log of a chain tells the pool's notes and spent leaves, the padding, and nothing else. */
  lemma {:induction false} ChainTells(keys: Keys, txs: seq<Tx>)
    requires Chain(keys, txs) && NullifiersDiffer(keys, txs)
    ensures Tells(keys, LogOf(keys, txs), AllNotes(txs), PoolAfter(txs).spent, AllPadding(txs))
    decreases |txs|
  {
    if txs == [] {
      EmptyLogTells(keys);
    } else {
      var init, tx := txs[..|txs| - 1], txs[|txs| - 1];
      assert txs == init + [tx];
      ChainSnoc(keys, init, tx);
      DifferBefore(keys, init, tx);
      ChainTells(keys, init);
      TxTells(keys, init, tx);
    }
  }

  lemma {:induction false} DifferBefore(keys: Keys, init: seq<Tx>, tx: Tx)
    requires Apart(keys, AllNotes(init) + tx.notes, AllPadding(init) + PoolLedger.AllOf(tx.padding))
    ensures NullifiersDiffer(keys, init)
  {
    FewerNotes(keys, AllNotes(init), tx.notes, AllPadding(init) + PoolLedger.AllOf(tx.padding));
    FewerPads(keys, AllNotes(init), AllPadding(init), PoolLedger.AllOf(tx.padding));
  }

  lemma {:induction false} TxTells(keys: Keys, init: seq<Tx>, tx: Tx)
    requires Chain(keys, init) && Accepted(keys, init, tx)
    requires Apart(keys, AllNotes(init) + tx.notes, AllPadding(init) + PoolLedger.AllOf(tx.padding))
    requires Tells(keys, LogOf(keys, init), AllNotes(init), PoolAfter(init).spent, AllPadding(init))
    ensures Tells(keys, AfterTx(keys, LogOf(keys, init), AllNotes(init), tx), AllNotes(init) + tx.notes,
              PoolLedger.Apply(PoolAfter(init), tx.step).spent, AllPadding(init) + PoolLedger.AllOf(tx.padding))
  {
    ChainLeaves(keys, init);
    InputsLive(PoolAfter(init), tx.step);
    PostTx(keys, LogOf(keys, init), AllNotes(init), PoolAfter(init).spent, tx, AllPadding(init));
  }

  lemma {:induction false} EmptyLogTells(keys: Keys)
    ensures Tells(keys, [], [], {}, {})
  {
    assert forall x :: !Announced([], 0, x);
  }

  lemma {:induction false} InputsLive(l: PoolLedger.Ledger, s: PoolLedger.Step)
    requires PoolLedger.Legal(l, s)
    ensures PoolLedger.Distinct(s.inputs)
    ensures forall k {:trigger s.inputs[k]} :: 0 <= k < |s.inputs| ==>
            s.inputs[k] < |l.leaves| && s.inputs[k] !in l.spent
  {
    forall k {:trigger s.inputs[k]} | 0 <= k < |s.inputs|
      ensures s.inputs[k] < |l.leaves| && s.inputs[k] !in l.spent
    {
      assert PoolLedger.Live(l, s.inputs[k]);
    }
  }

  lemma {:induction false} ChainSeals(keys: Keys, txs: seq<Tx>)
    requires Chain(keys, txs)
    ensures forall i {:trigger AllNotes(txs)[i]} :: 0 <= i < |AllNotes(txs)| ==> WellSealed(keys, AllNotes(txs)[i])
    decreases |txs|
  {
    if txs == [] {
    } else {
      var init, tx := txs[..|txs| - 1], txs[|txs| - 1];
      ChainSeals(keys, init);
      forall i | 0 <= i < |AllNotes(txs)| ensures WellSealed(keys, AllNotes(txs)[i]) {
        if i < |AllNotes(init)| {
          assert AllNotes(txs)[i] == AllNotes(init)[i];
        } else {
          assert AllNotes(txs)[i] == tx.notes[i - |AllNotes(init)|];
        }
      }
    }
  }

  // ----- what a key makes of it -----

  /** A viewing key and a spending key.  `ownOnly`: notes for another recipient are filtered out, as for
      an organisation; without it whatever opens counts as the account's, as for a person. */
  datatype Reader = Reader(view: int, key: int, ownOnly: bool)

  function ViewerOf(keys: Keys, r: Reader): Viewer
  {
    Viewer(c => keys.open(r.view, c), keys.commitmentOf, (p: NotePlain) => !r.ownOnly || p.recipientPk == r.key,
           (p: NotePlain, i: nat) => keys.nullifierOf(r.key, p, i))
  }

  /** The chain announces a nullifier: by spending a leaf, or as padding. */
  ghost predicate Announces(keys: Keys, txs: seq<Tx>, x: nat)
  {
    Nulled(keys, AllNotes(txs), PoolAfter(txs).spent, x) || x in AllPadding(txs)
  }

  /** A transaction that pays `p` out of the one note `input`, padded with `dummy`, as it can be sent. */
  ghost predicate PaysOutOfOne(
      keys: Keys, before: seq<Tx>, tx: Tx, payer: int, input: Amounts.SpendableNote, p: Payments.Payout,
      changeFirst: bool, dummy: nat)
  {
    && PoolLedger.Genuine(PoolAfter(before), payer, input) && Amounts.Total([input]) >= p.amount
    && tx.step == Payments.PaymentStep([input], p, payer, changeFirst) && tx.step.outputs == NotesOn(tx.notes)
    && (forall j {:trigger tx.notes[j]} :: 0 <= j < |tx.notes| ==> WellSealed(keys, tx.notes[j]))
    && tx.padding == [dummy] && dummy !in AllPadding(before) && tx.others == []
    && tx.toid >= LEDGER_SHIFT && EndsBefore(LogOf(keys, before), tx.toid, tx.first)
  }

  lemma {:induction false} OneNoteAccepted(
      keys: Keys, before: seq<Tx>, tx: Tx, payer: int, input: Amounts.SpendableNote, p: Payments.Payout,
      changeFirst: bool, dummy: nat)
    requires Chain(keys, before) && PaysOutOfOne(keys, before, tx, payer, input, p, changeFirst, dummy)
    ensures Accepted(keys, before, tx) && input.leafIndex < |AllNotes(before)|
    ensures tx.step.inputs == [input.leafIndex] && tx.padding == [dummy]
  {
    ChainWellFormed(keys, before);
    assert PoolLedger.AllGenuine(PoolAfter(before), payer, [input]);
    Payments.PaymentMoves(PoolAfter(before), [input], p, payer, changeFirst);
    assert Payments.LeavesOf([input]) == [input.leafIndex];
    ChainLeaves(keys, before);
  }

  lemma {:induction false} OneSpentOnePad(keys: Keys, before: seq<Tx>, tx: Tx, i: nat, dummy: nat, pads: set<nat>)
    requires Chain(keys, before) && Accepted(keys, before, tx) && pads == AllPadding(before) + {dummy}
    requires Apart(keys, AllNotes(before) + tx.notes, pads)
    requires i < |AllNotes(before)| && tx.step.inputs == [i] && tx.padding == [dummy]
    ensures TellsSpent(keys, LogOf(keys, before), AllNotes(before), PoolAfter(before).spent, AllPadding(before))
    ensures TellsSpent(keys, AfterTx(keys, LogOf(keys, before), AllNotes(before), tx), AllNotes(before) + tx.notes,
              PoolAfter(before).spent + {i}, pads)
  {
    assert PoolLedger.AllOf([i]) == {i} && PoolLedger.AllOf([dummy]) == {dummy};
    DifferBefore(keys, before, tx);
    ChainTells(keys, before);
    TxTells(keys, before, tx);
  }

  /** It is accepted, and two more nullifiers are in the log: the note's and the dummy's. */
  lemma {:induction false} OneNotePayment(
      keys: Keys, before: seq<Tx>, tx: Tx, payer: int, input: Amounts.SpendableNote, p: Payments.Payout,
      changeFirst: bool, dummy: nat)
    requires Chain(keys, before) && PaysOutOfOne(keys, before, tx, payer, input, p, changeFirst, dummy)
    ensures Chain(keys, before + [tx]) && input.leafIndex < |AllNotes(before)|
    ensures NullifiersDiffer(keys, before + [tx]) ==>
              TwoMore(LogOf(keys, before), LogOf(keys, before + [tx]),
                NullifierAt(keys, AllNotes(before), input.leafIndex), dummy)
  {
    OneNoteAccepted(keys, before, tx, payer, input, p, changeFirst, dummy);
    ChainSnoc(keys, before, tx);
    if NullifiersDiffer(keys, before + [tx]) {
      TwoMoreInLog(keys, before, tx, input.leafIndex, dummy, LogOf(keys, before + [tx]));
    }
  }

  lemma {:induction false} TwoMoreInLog(
      keys: Keys, before: seq<Tx>, tx: Tx, i: nat, dummy: nat, grown: seq<Event<PoolEvent>>)
    requires Chain(keys, before) && Accepted(keys, before, tx) && i < |AllNotes(before)|
    requires Apart(keys, AllNotes(before) + tx.notes, AllPadding(before) + PoolLedger.AllOf(tx.padding))
    requires tx.step.inputs == [i] && tx.padding == [dummy]
    requires grown == AfterTx(keys, LogOf(keys, before), AllNotes(before), tx)
    ensures TwoMore(LogOf(keys, before), grown, NullifierAt(keys, AllNotes(before), i), dummy)
  {
    assert PoolLedger.AllOf([dummy]) == {dummy};
    OneSpentOnePad(keys, before, tx, i, dummy, AllPadding(before) + {dummy});
    ToldTwoMore(keys, LogOf(keys, before), grown, AllNotes(before), tx.notes, PoolAfter(before).spent,
      AllPadding(before), i, dummy);
  }

  /** The longer log announces `a` and `b` besides what the other one announces, and no more. */
  ghost predicate TwoMore(log: seq<Event<PoolEvent>>, grown: seq<Event<PoolEvent>>, a: nat, b: nat)
  {
    forall x {:trigger Announced(grown, |grown|, x)} ::
      Announced(grown, |grown|, x) <==> Announced(log, |log|, x) || x == a || x == b
  }

  lemma {:induction false} ToldTwoMore(
      keys: Keys, log: seq<Event<PoolEvent>>, grown: seq<Event<PoolEvent>>, notes: seq<SealedNote>,
      more: seq<SealedNote>, spent: set<nat>, pads: set<nat>, i: nat, dummy: nat)
    requires TellsSpent(keys, log, notes, spent, pads) && i < |notes|
    requires TellsSpent(keys, grown, notes + more, spent + {i}, pads + {dummy})
    ensures TwoMore(log, grown, NullifierAt(keys, notes, i), dummy)
  {
    forall x ensures Announced(grown, |grown|, x) <==>
                       Announced(log, |log|, x) || x == NullifierAt(keys, notes, i) || x == dummy {
      NulledPrefix(keys, notes, more, spent + {i}, x);
      NulledMore(keys, notes, spent, i, x);
    }
  }

  lemma {:induction false} ChainWellFormed(keys: Keys, txs: seq<Tx>)
    requires Chain(keys, txs)
    ensures PoolLedger.WellFormed(PoolAfter(txs))
    decreases |txs|
  {
    if txs == [] {
    } else {
      var init, tx := txs[..|txs| - 1], txs[|txs| - 1];
      assert txs == init + [tx];
      ChainWellFormed(keys, init);
      ChainSnoc(keys, init, tx);
      PoolLedger.StepMovesValue(PoolAfter(init), tx.step, None);
    }
  }

  /** The nullifier that the reader's key gives to leaf `i` has been announced. */
  ghost predicate SeenBy(keys: Keys, txs: seq<Tx>, r: Reader, i: nat)
    requires i < |AllNotes(txs)|
  {
    Announces(keys, txs, keys.nullifierOf(r.key, AllNotes(txs)[i].plain, i))
  }

  /** Whether the reader is shown a leaf: it opens, it is not filtered out, and its nullifier under the
      reader's key has not been seen. */
  predicate ShowsLeaf(n: SealedNote, seen: bool, r: Reader)
  {
    n.sealedTo == r.view && (r.ownOnly ==> n.plain.recipientPk == r.key) && !seen
  }

  ghost function ShownTo(keys: Keys, txs: seq<Tx>, r: Reader): set<nat>
  {
    set i: nat | i < |AllNotes(txs)| && ShowsLeaf(AllNotes(txs)[i], SeenBy(keys, txs, r, i), r)
  }

  /** The log of a chain records for each reader exactly the leaves it is shown. */
  lemma {:induction false} ChainRecords(keys: Keys, txs: seq<Tx>, r: Reader)
    requires Chain(keys, txs) && NullifiersDiffer(keys, txs)
    ensures OnChain(LogOf(keys, txs))
    ensures Records(LogOf(keys, txs), ViewerOf(keys, r), PoolAfter(txs), ShownTo(keys, txs, r))
  {
    var log, notes, l := LogOf(keys, txs), AllNotes(txs), PoolAfter(txs);
    ChainLeaves(keys, txs);
    ChainTells(keys, txs);
    ChainSeals(keys, txs);
    forall k {:trigger log[k]} | 0 <= k < |log| && log[k].payload.NewCommitment?
      ensures Reveals(log, RecordOf(log[k]), ViewerOf(keys, r), l, ShownTo(keys, txs, r))
    {
      LeafRevealed(keys, txs, r, RecordOf(log[k]));
    }
  }

  lemma {:induction false} LeafRevealed(keys: Keys, txs: seq<Tx>, r: Reader, rec: CommitmentRecord)
    requires PoolAfter(txs).leaves == NotesOn(AllNotes(txs))
    requires TellsSpent(keys, LogOf(keys, txs), AllNotes(txs), PoolAfter(txs).spent, AllPadding(txs))
    requires var i, notes := rec.leafIndex, AllNotes(txs);
             && i < |notes| && WellSealed(keys, notes[i])
             && rec.commitment == keys.commitmentOf(notes[i].plain) && rec.ciphertext == notes[i].ciphertext
    ensures Reveals(LogOf(keys, txs), rec, ViewerOf(keys, r), PoolAfter(txs), ShownTo(keys, txs, r))
  {
    var i, n, v, log := rec.leafIndex, AllNotes(txs)[rec.leafIndex], ViewerOf(keys, r), LogOf(keys, txs);
    assert Opened(rec, v) == if r.view == n.sealedTo then Some(n.plain) else None;
    assert Announced(log, |log|, keys.nullifierOf(r.key, n.plain, i)) <==> SeenBy(keys, txs, r, i);
    assert PoolAfter(txs).leaves[i] == NoteOn(n);
  }

  /** The reader has seen the nullifier of a leaf of its own exactly if the leaf is spent. */
  lemma {:induction false} OwnLeafSeen(keys: Keys, txs: seq<Tx>, r: Reader, i: nat)
    requires NullifiersDiffer(keys, txs) && i < |AllNotes(txs)| && AllNotes(txs)[i].plain.recipientPk == r.key
    ensures SeenBy(keys, txs, r, i) <==> i in PoolAfter(txs).spent
  {
    var notes, spent := AllNotes(txs), PoolAfter(txs).spent;
    assert keys.nullifierOf(r.key, notes[i].plain, i) == NullifierAt(keys, notes, i);
    if i in spent {
      assert Nulled(keys, notes, spent, NullifierAt(keys, notes, i));
    } else {
      NotYetNulled(keys, notes, spent, AllPadding(txs), i);
    }
  }

  // ----- when what is shown is the balance -----

  /** A leaf on which the scanner and the ledger agree: an own leaf must be sealed to the reader unless it
      is spent, and a foreign one must not be, unless it is filtered out or was seen. */
  predicate LeafAgrees(n: SealedNote, spent: bool, seen: bool, r: Reader)
  {
    if n.plain.recipientPk == r.key then n.sealedTo == r.view || spent else r.ownOnly || n.sealedTo != r.view || seen
  }

  ghost predicate AllAgree(keys: Keys, txs: seq<Tx>, r: Reader)
  {
    forall i: nat {:trigger AllNotes(txs)[i]} ::
      i < |AllNotes(txs)| ==> LeafAgrees(AllNotes(txs)[i], i in PoolAfter(txs).spent, SeenBy(keys, txs, r, i), r)
  }

  /** A run that has read past the end of the log. */
  ghost predicate HasRead(log: seq<Event<PoolEvent>>, ops: seq<Op>)
  {
    && PlausibleRun(log, ops)
    && forall k {:trigger log[k]} :: 0 <= k < |log| ==> log[k].Ledger() < ReachOf(ops).live
  }

  function Spendables(ops: seq<Op>, v: Viewer): seq<Amounts.SpendableNote>
  {
    AsSpendable(SpendableIn(After(ops).live, v))
  }

  /** One leaf is shown exactly if it is the reader's and unspent, if and only if they agree on it. */
  lemma {:induction false} LeafShownIff(keys: Keys, txs: seq<Tx>, r: Reader, i: nat)
    requires NullifiersDiffer(keys, txs) && i < |AllNotes(txs)|
    ensures var n, spent, seen := AllNotes(txs)[i], i in PoolAfter(txs).spent, SeenBy(keys, txs, r, i);
            (ShowsLeaf(n, seen, r) <==> n.plain.recipientPk == r.key && !spent) <==> LeafAgrees(n, spent, seen, r)
  {
    if AllNotes(txs)[i].plain.recipientPk == r.key {
      OwnLeafSeen(keys, txs, r, i);
    }
  }

  /** Once a run has read a chain to its end, whatever crashes, restarts and recoveries were on the
      way, the scanner shows exactly the leaves shown to the reader; and they are the account's live
      notes on the ledger, each once and with its amount, if and only if every leaf agrees. */
  lemma {:induction false} ScannerFindsTheBalance(keys: Keys, txs: seq<Tx>, ops: seq<Op>, r: Reader)
    requires Chain(keys, txs) && NullifiersDiffer(keys, txs) && HasRead(LogOf(keys, txs), ops)
    ensures var l, shown := PoolAfter(txs), Spendables(ops, ViewerOf(keys, r));
            && shown == PoolLedger.Listed(l, ShownTo(keys, txs, r), |l.leaves|)
            && (shown == PoolLedger.SpendableNotes(l, r.key) <==> AllAgree(keys, txs, r))
            && (AllAgree(keys, txs, r) ==> Amounts.Total(shown) == PoolLedger.Value(l, Some(r.key)))
  {
    var l := PoolAfter(txs);
    ChainLeaves(keys, txs);
    ChainRecords(keys, txs, r);
    ScannerShows(LogOf(keys, txs), ops, ViewerOf(keys, r), l, ShownTo(keys, txs, r));
    PoolLedger.SpendableIsListed(l, r.key, |l.leaves|);
    PoolLedger.ListedIff(l, ShownTo(keys, txs, r), PoolLedger.LiveLeaves(l, r.key), |l.leaves|);
    AgreeingLeaves(keys, txs, r);
    PoolLedger.SpendableFacts(l, r.key);
  }

  lemma {:induction false} AgreeingLeaves(keys: Keys, txs: seq<Tx>, r: Reader)
    requires PoolAfter(txs).leaves == NotesOn(AllNotes(txs)) && NullifiersDiffer(keys, txs)
    ensures var l := PoolAfter(txs);
            (forall i: nat :: i < |l.leaves| ==> (i in ShownTo(keys, txs, r) <==> i in PoolLedger.LiveLeaves(l, r.key)))
            <==> AllAgree(keys, txs, r)
  {
    var l, notes := PoolAfter(txs), AllNotes(txs);
    forall i: nat | i < |notes|
      ensures LeafAgrees(notes[i], i in l.spent, SeenBy(keys, txs, r, i), r)
              <==> (i in ShownTo(keys, txs, r) <==> i in PoolLedger.LiveLeaves(l, r.key))
    {
      LeafShownIff(keys, txs, r, i);
      assert l.leaves[i] == NoteOn(notes[i]);
    }
  }

  /** The filter makes it right whatever else the key opens: an organisation is shown its balance as
      soon as its own notes are sealed to the key it reads with. */
  lemma {:induction false} OrganisationIsShownItsBalance(keys: Keys, txs: seq<Tx>, r: Reader)
    requires r.ownOnly
    requires forall i: nat {:trigger AllNotes(txs)[i]} ::
               i < |AllNotes(txs)| && AllNotes(txs)[i].plain.recipientPk == r.key ==>
                 AllNotes(txs)[i].sealedTo == r.view
    ensures AllAgree(keys, txs, r)
  {
  }

  /** Without the filter a foreign note that the key opens is shown for good, spent by its owner or not,
      as long as its nullifier under the reader's own key is not announced; and it is never one of the
      account's. */
  lemma {:induction false} ForeignNoteStaysShown(keys: Keys, txs: seq<Tx>, r: Reader, i: nat)
    requires !r.ownOnly && i < |AllNotes(txs)| && AllNotes(txs)[i].sealedTo == r.view && !SeenBy(keys, txs, r, i)
    requires AllNotes(txs)[i].plain.recipientPk != r.key && PoolAfter(txs).leaves == NotesOn(AllNotes(txs))
    ensures i in ShownTo(keys, txs, r) && !AllAgree(keys, txs, r)
    ensures forall n :: n in PoolLedger.SpendableNotes(PoolAfter(txs), r.key) ==> n.leafIndex != i
  {
    assert !LeafAgrees(AllNotes(txs)[i], i in PoolAfter(txs).spent, SeenBy(keys, txs, r, i), r);
    PoolLedger.SpendableFacts(PoolAfter(txs), r.key);
    assert PoolAfter(txs).leaves[i] == NoteOn(AllNotes(txs)[i]);
  }

  // ----- a treasury under an account's own viewing key -----

  /** The treasury is funded and the account shields for itself, both sealed to the account's key. */
  ghost predicate FundsThenShields(txs: seq<Tx>, treasury: SealedNote, own: SealedNote, r: Reader)
  {
    && |txs| == 2 && txs[0].step == PoolLedger.ShieldStep(NoteOn(treasury)) && txs[0].notes == [treasury]
    && txs[1].step == PoolLedger.ShieldStep(NoteOn(own)) && txs[1].notes == [own]
    && txs[0].padding == txs[1].padding == []
    && treasury.sealedTo == own.sealedTo == r.view && treasury.plain.recipientPk != r.key == own.plain.recipientPk
  }

  /** Fund the treasury, say with 4, and shield more, say 5: the scanner shows both notes, although only
      the second is the account's. */
  lemma {:induction false} TreasuryNoteIsShown(
      keys: Keys, txs: seq<Tx>, treasury: SealedNote, own: SealedNote, ops: seq<Op>, r: Reader)
    requires Chain(keys, txs) && NullifiersDiffer(keys, txs) && HasRead(LogOf(keys, txs), ops)
    requires !r.ownOnly && FundsThenShields(txs, treasury, own, r)
    ensures Spendables(ops, ViewerOf(keys, r))
            == [Amounts.SpendableNote(treasury.plain.amount, 0), Amounts.SpendableNote(own.plain.amount, 1)]
    ensures PoolLedger.SpendableNotes(PoolAfter(txs), r.key) == [Amounts.SpendableNote(own.plain.amount, 1)]
  {
    ScannerFindsTheBalance(keys, txs, ops, r);
    TwoShields(txs, treasury, own, r);
    BothShown(keys, txs, treasury, own, r);
    OneOwned(PoolAfter(txs), treasury, own, r);
  }

  lemma {:induction false} BothShown(keys: Keys, txs: seq<Tx>, treasury: SealedNote, own: SealedNote, r: Reader)
    requires !r.ownOnly && treasury.sealedTo == own.sealedTo == r.view && AllNotes(txs) == [treasury, own]
    requires AllPadding(txs) == {}
    requires PoolAfter(txs) == PoolLedger.Ledger([NoteOn(treasury), NoteOn(own)], {})
    ensures PoolLedger.Listed(PoolAfter(txs), ShownTo(keys, txs, r), 2)
            == [Amounts.SpendableNote(treasury.plain.amount, 0), Amounts.SpendableNote(own.plain.amount, 1)]
  {
    assert !SeenBy(keys, txs, r, 0) && !SeenBy(keys, txs, r, 1);
    assert 0 in ShownTo(keys, txs, r) && 1 in ShownTo(keys, txs, r);
    ListedTwo(PoolAfter(txs), ShownTo(keys, txs, r));
  }

  lemma {:induction false} OneOwned(l: PoolLedger.Ledger, treasury: SealedNote, own: SealedNote, r: Reader)
    requires l == PoolLedger.Ledger([NoteOn(treasury), NoteOn(own)], {})
    requires treasury.plain.recipientPk != r.key == own.plain.recipientPk
    ensures PoolLedger.SpendableNotes(l, r.key) == [Amounts.SpendableNote(own.plain.amount, 1)]
  {
    PoolLedger.SpendableIsListed(l, r.key, 2);
    ListedTwo(l, PoolLedger.LiveLeaves(l, r.key));
  }

  /** Then take out 4: the smallest note shown that covers it is the treasury's, which the account's
      key does not own. */
  lemma {:induction false} TreasuryNoteIsTaken(
      keys: Keys, txs: seq<Tx>, treasury: SealedNote, own: SealedNote, ops: seq<Op>, r: Reader,
      amount: nat, taken: Amounts.SpendableNote)
    requires Chain(keys, txs) && NullifiersDiffer(keys, txs) && HasRead(LogOf(keys, txs), ops)
    requires !r.ownOnly && FundsThenShields(txs, treasury, own, r)
    requires amount <= treasury.plain.amount < own.plain.amount
    requires Unshield.SmallestCovering(Spendables(ops, ViewerOf(keys, r)), amount, taken)
    ensures taken == Amounts.SpendableNote(treasury.plain.amount, 0) &&
            !PoolLedger.Genuine(PoolAfter(txs), r.key, taken)
  {
    TreasuryNoteIsShown(keys, txs, treasury, own, ops, r);
    TwoShields(txs, treasury, own, r);
    assert Spendables(ops, ViewerOf(keys, r))[0] == Amounts.SpendableNote(treasury.plain.amount, 0);
  }

  /** So the unshield fails, although the account's own balance suffices. */
  method UnshieldPastTheTreasury(
      ghost keys: Keys, ghost txs: seq<Tx>, ghost treasury: SealedNote, ghost own: SealedNote, ghost ops: seq<Op>,
      ghost r: Reader, l: PoolLedger.Ledger, owner: int, amount: nat, shown: seq<Amounts.SpendableNote>,
      can: PoolLedger.Prover)
    returns (steps: seq<PoolLedger.Step>, result: Result<Unshield.UnshieldReceipt, Unshield.FlowError>)
    requires Chain(keys, txs) && NullifiersDiffer(keys, txs) && HasRead(LogOf(keys, txs), ops)
    requires !r.ownOnly && FundsThenShields(txs, treasury, own, r) && amount <= treasury.plain.amount < own.plain.amount
    requires l == PoolAfter(txs) && owner == r.key && shown == Spendables(ops, ViewerOf(keys, r))
    requires PoolLedger.SoundFor(can, owner)
    ensures steps == [] && result == Failure(Unshield.CannotSpend)
    ensures PoolLedger.Value(l, Some(owner)) == own.plain.amount > amount
  {
    TreasuryBlocks(keys, txs, treasury, own, ops, r, amount, shown, can);
    Unshield.OneSuffices(shown, amount);
    steps, result := Unshield.Unshield(l, owner, amount, shown, can);
  }

  lemma {:induction false} TreasuryBlocks(
      keys: Keys, txs: seq<Tx>, treasury: SealedNote, own: SealedNote, ops: seq<Op>, r: Reader, amount: nat,
      shown: seq<Amounts.SpendableNote>, can: PoolLedger.Prover)
    requires Chain(keys, txs) && NullifiersDiffer(keys, txs) && HasRead(LogOf(keys, txs), ops)
    requires !r.ownOnly && FundsThenShields(txs, treasury, own, r) && amount <= treasury.plain.amount < own.plain.amount
    requires shown == Spendables(ops, ViewerOf(keys, r)) && PoolLedger.SoundFor(can, r.key)
    ensures PoolLedger.WellFormed(PoolAfter(txs)) && PoolLedger.OnLeaves(PoolAfter(txs), shown)
    ensures exists n :: n in shown && n.amount >= amount
    ensures forall n {:trigger Unshield.SmallestCovering(shown, amount, n)} ::
              Unshield.SmallestCovering(shown, amount, n) ==> !can(PoolAfter(txs), n)
    ensures PoolLedger.Value(PoolAfter(txs), Some(r.key)) == own.plain.amount
  {
    TreasuryNoteIsShown(keys, txs, treasury, own, ops, r);
    TwoShields(txs, treasury, own, r);
    ShownTwo(PoolAfter(txs), shown, treasury, own, r.key, amount);
    forall n | Unshield.SmallestCovering(shown, amount, n) ensures !can(PoolAfter(txs), n) {
      TreasuryNoteIsTaken(keys, txs, treasury, own, ops, r, amount, n);
    }
  }

  lemma {:induction false} ShownTwo(
      l: PoolLedger.Ledger, shown: seq<Amounts.SpendableNote>, treasury: SealedNote, own: SealedNote, key: int,
      amount: nat)
    requires l == PoolLedger.Ledger([NoteOn(treasury), NoteOn(own)], {}) && amount <= treasury.plain.amount
    requires shown == [Amounts.SpendableNote(treasury.plain.amount, 0), Amounts.SpendableNote(own.plain.amount, 1)]
    requires PoolLedger.SpendableNotes(l, key) == [Amounts.SpendableNote(own.plain.amount, 1)]
    ensures PoolLedger.WellFormed(l) && PoolLedger.OnLeaves(l, shown)
    ensures exists n :: n in shown && n.amount >= amount
    ensures PoolLedger.Value(l, Some(key)) == own.plain.amount
  {
    assert shown[0].amount >= amount && shown[0] in shown;
    PoolLedger.DistinctCons(shown[0], [shown[1]]);
    assert shown == [shown[0]] + [shown[1]];
    PoolLedger.SpendableFacts(l, key);
    OneNoteTotal(Amounts.SpendableNote(own.plain.amount, 1));
  }

  lemma {:induction false} OneNoteTotal(n: Amounts.SpendableNote)
    ensures Amounts.Total([n]) == n.amount
  {
  }

  lemma {:induction false} ShieldAdded(init: seq<Tx>, tx: Tx, n: SealedNote)
    requires tx.step == PoolLedger.ShieldStep(NoteOn(n)) && tx.notes == [n] && tx.padding == []
    ensures AllNotes(init + [tx]) == AllNotes(init) + [n] && AllPadding(init + [tx]) == AllPadding(init)
    ensures PoolAfter(init + [tx])
            == PoolLedger.Ledger(PoolAfter(init).leaves + [NoteOn(n)], PoolAfter(init).spent)
  {
    TxAdded(init, tx);
    assert PoolLedger.AllOf([]) == {};
  }

  lemma {:induction false} OneShield(txs: seq<Tx>, n: SealedNote)
    requires |txs| == 1 && txs[0].step == PoolLedger.ShieldStep(NoteOn(n)) && txs[0].notes == [n] &&
             txs[0].padding == []
    ensures AllNotes(txs) == [n] && AllPadding(txs) == {}
    ensures PoolAfter(txs) == PoolLedger.Ledger([NoteOn(n)], {})
  {
    var none := txs[..0];
    assert txs == none + [txs[0]];
    NothingYet(none);
    ShieldAdded(none, txs[0], n);
  }

  lemma {:induction false} NothingYet(none: seq<Tx>)
    requires none == []
    ensures AllNotes(none) == [] && AllPadding(none) == {} && PoolAfter(none) == PoolLedger.Ledger([], {})
  {
  }

  lemma {:induction false} TwoShields(txs: seq<Tx>, treasury: SealedNote, own: SealedNote, r: Reader)
    requires FundsThenShields(txs, treasury, own, r)
    ensures AllNotes(txs) == [treasury, own] && AllPadding(txs) == {}
    ensures PoolAfter(txs) == PoolLedger.Ledger([NoteOn(treasury), NoteOn(own)], {})
  {
    var funded := txs[..1];
    assert txs == funded + [txs[1]];
    OneShield(funded, treasury);
    ShieldAdded(funded, txs[1], own);
  }

  lemma {:induction false} ListedTwo(l: PoolLedger.Ledger, keep: set<nat>)
    requires |l.leaves| == 2
    ensures PoolLedger.Listed(l, keep, 2)
            == (if 0 in keep then [Amounts.SpendableNote(l.leaves[0].amount, 0)] else [])
               + (if 1 in keep then [Amounts.SpendableNote(l.leaves[1].amount, 1)] else [])
  {
    assert PoolLedger.Listed(l, keep, 0) == [];
    assert PoolLedger.Listed(l, keep, 1) == if 0 in keep then [Amounts.SpendableNote(l.leaves[0].amount, 0)] else [];
  }
}
