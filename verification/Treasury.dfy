/** What an account's notes are worth, note by note, and how one payment changes them. */
module Treasury {
  import opened Amounts
  import opened PoolLedger
  import opened Payments
  import opened PayrollAmounts

  /** The amounts of the account's spendable notes, in leaf order. */
  function Holdings(l: Ledger, owner: int): seq<nat>
  {
    AmountsOf(SpendableNotes(l, owner))
  }

  /** `avail` is `notes` with the largest first. */
  ghost predicate LargestFirst(notes: seq<SpendableNote>, avail: seq<SpendableNote>)
  {
    multiset(avail) == multiset(notes) && Descending(avail)
  }

  /** Whatever order equal amounts come in, the amounts of the notes largest first are the same. */
  lemma {:induction false} LargestFirstAmounts(notes: seq<SpendableNote>, avail: seq<SpendableNote>)
    requires LargestFirst(notes, avail)
    ensures AmountsOf(avail) == SortDown(AmountsOf(notes))
  {
    AmountsOfPermutation(avail, notes);
    SortedDown(AmountsOf(notes));
    SortedOnce(AmountsOf(avail), SortDown(AmountsOf(notes)));
  }

  // ----- one payment -----

  /** Spending `x` on `p`: the note is gone, its change has come in, and so has `p` if it was to the payer. */
  function Exchange(held: multiset<nat>, x: nat, p: Payout, payer: int): multiset<nat>
    requires x >= p.amount
  {
    held - multiset{x} + multiset(PaidBack(p, payer)) + multiset([x - p.amount])
  }

  /** What leaf `i` was worth, if it is among the first `n`. */
  function Gone(leaves: seq<PoolNote>, i: nat, n: nat): seq<nat>
    requires i < |leaves|
  {
    if i < n then [leaves[i].amount] else []
  }

  lemma {:induction false} LastSpent(leaves: seq<PoolNote>, spent: set<nat>, i: nat, owner: int, n: nat)
    requires 0 < n <= |leaves| && i < |leaves| && i !in spent && leaves[i].owner == owner
    ensures multiset(Last(Ledger(leaves, spent), owner, n)) + multiset(Gone(leaves, i, n - 1))
            == multiset(Last(Ledger(leaves, spent + {i}), owner, n)) + multiset(Gone(leaves, i, n))
  {
  }

  lemma {:induction false} AmountSpent(leaves: seq<PoolNote>, spent: set<nat>, i: nat, owner: int, n: nat)
    requires n <= |leaves| && i < |leaves| && i !in spent && leaves[i].owner == owner
    ensures multiset(AmountsOf(SpendableUpTo(Ledger(leaves, spent), owner, n)))
         == multiset(AmountsOf(SpendableUpTo(Ledger(leaves, spent + {i}), owner, n)))
            + multiset(Gone(leaves, i, n))
  {
    if n == 0 {
    } else {
      AmountSpent(leaves, spent, i, owner, n - 1);
      var before, after := Ledger(leaves, spent), Ledger(leaves, spent + {i});
      LastAmount(before, owner, n);
      LastAmount(after, owner, n);
      LastSpent(leaves, spent, i, owner, n);
      BagStep(AmountsOf(SpendableUpTo(before, owner, n - 1)), AmountsOf(SpendableUpTo(after, owner, n - 1)),
        Last(before, owner, n), Last(after, owner, n), Gone(leaves, i, n - 1), Gone(leaves, i, n));
    }
  }

  /** What the last of the first `n` leaves adds. */
  function Last(l: Ledger, owner: int, n: nat): seq<nat>
    requires 0 < n <= |l.leaves|
  {
    if n - 1 !in l.spent && l.leaves[n - 1].owner == owner then [l.leaves[n - 1].amount] else []
  }

  lemma {:induction false} BagStep(a: seq<nat>, b: seq<nat>, x: seq<nat>, y: seq<nat>, gone: seq<nat>, gone': seq<nat>)
    requires multiset(a) == multiset(b) + multiset(gone) &&
             multiset(x) + multiset(gone) == multiset(y) + multiset(gone')
    ensures multiset(a + x) == multiset(b + y) + multiset(gone')
  {
    assert multiset(a + x) == multiset(b) + (multiset(x) + multiset(gone));
    assert multiset(b + y) + multiset(gone') == multiset(b) + (multiset(y) + multiset(gone'));
  }

  /** One more leaf adds its amount if it is the owner's and unspent. */
  lemma {:induction false} LastAmount(l: Ledger, owner: int, n: nat)
    requires 0 < n <= |l.leaves|
    ensures AmountsOf(SpendableUpTo(l, owner, n)) == AmountsOf(SpendableUpTo(l, owner, n - 1)) + Last(l, owner, n)
  {
    if n - 1 !in l.spent && l.leaves[n - 1].owner == owner {
      var last := [SpendableNote(l.leaves[n - 1].amount, n - 1)];
      AmountsOfConcat(SpendableUpTo(l, owner, n - 1), last);
      assert AmountsOf(last) == [l.leaves[n - 1].amount];
    }
  }

  lemma {:induction false} LeafAdded(l: Ledger, owner: int, note: PoolNote)
    requires WellFormed(l)
    ensures Holdings(Ledger(l.leaves + [note], l.spent), owner)
         == Holdings(l, owner) + if note.owner == owner then [note.amount] else []
  {
    SpendableOfPrefix(l, [note], owner, |l.leaves|);
    LastAmount(Ledger(l.leaves + [note], l.spent), owner, |l.leaves| + 1);
  }

  lemma {:induction false} OutputsAdded(l: Ledger, payer: int, p: Payout, change: nat)
    requires WellFormed(l)
    ensures multiset(Holdings(Ledger(l.leaves + PaymentOutputs(p, payer, change, false), l.spent), payer))
            == multiset(Holdings(l, payer)) + multiset(PaidBack(p, payer)) + multiset([change])
  {
    var paid, rest := PoolNote(p.amount, p.to), PoolNote(change, payer);
    LeafAdded(l, payer, paid);
    LeafAdded(Ledger(l.leaves + [paid], l.spent), payer, rest);
    assert l.leaves + [paid, rest] == l.leaves + [paid] + [rest];
  }

  lemma {:induction false} NoteSpent(l: Ledger, payer: int, n: SpendableNote)
    requires Genuine(l, payer, n)
    ensures multiset(Holdings(Ledger(l.leaves, l.spent + {n.leafIndex}), payer))
            == multiset(Holdings(l, payer)) - multiset{n.amount}
  {
    AmountSpent(l.leaves, l.spent, n.leafIndex, payer, |l.leaves|);
    TakenOut(multiset(Holdings(l, payer)),
      multiset(Holdings(Ledger(l.leaves, l.spent + {n.leafIndex}), payer)), n.amount);
  }

  lemma {:induction false} TakenOut(a: multiset<nat>, b: multiset<nat>, x: nat)
    requires a == b + multiset{x}
    ensures b == a - multiset{x}
  {
  }

  lemma {:induction false} LedgerAfterPayment(l: Ledger, payer: int, input: SpendableNote, p: Payout)
    requires input.amount >= p.amount
    ensures Total([input]) == input.amount
    ensures Apply(l, PaymentStep([input], p, payer, false))
            == Ledger(l.leaves + PaymentOutputs(p, payer, input.amount - p.amount, false), l.spent + {input.leafIndex})
  {
    assert [input][1..] == [];
    assert Total([input]) == input.amount;
    assert LeavesOf([input]) == [input.leafIndex];
    assert AllOf([input.leafIndex]) == {input.leafIndex};
  }

  lemma {:induction false} HoldingsAfterSpend(
      l: Ledger, payer: int, input: SpendableNote, p: Payout, change: nat, after: Ledger)
    requires WellFormed(l) && Genuine(l, payer, input) && input.amount == p.amount + change
    requires after == Ledger(l.leaves + PaymentOutputs(p, payer, change, false), l.spent + {input.leafIndex})
    ensures multiset(Holdings(after, payer))
            == multiset(Holdings(l, payer)) - multiset{input.amount} + multiset(PaidBack(p, payer)) + multiset([change])
  {
    NoteSpent(l, payer, input);
    OutputsAdded(Ledger(l.leaves, l.spent + {input.leafIndex}), payer, p, change);
  }

  lemma {:induction false} ExchangeIs(held: multiset<nat>, after: multiset<nat>, x: nat, p: Payout, payer: int,
      change: nat)
    requires x == p.amount + change
    requires after == held - multiset{x} + multiset(PaidBack(p, payer)) + multiset([change])
    ensures after == Exchange(held, x, p, payer)
  {
  }

  /** What one payment out of one note does to the payer's holdings. */
  lemma {:induction false} HoldingsAfterPayment(l: Ledger, payer: int, input: SpendableNote, p: Payout)
    requires WellFormed(l) && Genuine(l, payer, input) && input.amount >= p.amount
    ensures Total([input]) == input.amount
    ensures multiset(Holdings(Apply(l, PaymentStep([input], p, payer, false)), payer))
            == Exchange(multiset(Holdings(l, payer)), input.amount, p, payer)
  {
    LedgerAfterPayment(l, payer, input, p);
    var after, change := Apply(l, PaymentStep([input], p, payer, false)), input.amount - p.amount;
    HoldingsAfterSpend(l, payer, input, p, change, after);
    ExchangeIs(multiset(Holdings(l, payer)), multiset(Holdings(after, payer)), input.amount, p, payer, change);
  }
}
