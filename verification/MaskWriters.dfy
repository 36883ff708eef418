/**
  What concurrent writers leave in the mask cell, said without composing their updates: the values the cell
  goes through, and the outcome for writers that set bits and for writers that clear them.
 */
module MaskWriters {
  import opened ErrorMask
  import opened MaskCell

  ghost predicate NoneDone(s: State) {
    forall i :: 0 <= i < |s.phases| ==> !s.phases[i].Done?
  }

  /** The cell goes from the seed to its value through one update for each success. */
  ghost predicate History(fs: seq<Update>, seed: Mask, s: State, values: seq<Mask>) {
    && |values| == |s.log| + 1 && Schedule(|fs|, s.log)
    && values[0] == seed && values[|s.log|] == s.cell
    && forall k :: 0 <= k < |s.log| ==> values[k + 1] == fs[s.log[k]](values[k])
  }

  lemma {:induction false} NextValue(fs: seq<Update>, seed: Mask, s: State, values: seq<Mask>, i: nat)
    returns (next: seq<Mask>)
    requires Inv(fs, seed, s) && History(fs, seed, s, values) && i < |fs|
    ensures History(fs, seed, Next(fs, s, i), next)
  {
    assert WriterInv(fs, seed, s, i);
    next := values;
    if s.phases[i].Swapping? && s.cell == s.phases[i].prev {
      next := values + [fs[i](s.cell)];
      assert Next(fs, s, i).log == s.log + [i] && Next(fs, s, i).cell == fs[i](s.cell);
    }
  }

  lemma {:induction false} HistoryOfRun(fs: seq<Update>, seed: Mask, s: State, values: seq<Mask>, order: seq<nat>)
    returns (all: seq<Mask>)
    requires Inv(fs, seed, s) && History(fs, seed, s, values) && Schedule(|fs|, order)
    ensures History(fs, seed, Run(fs, s, order), all)
    decreases |order|
  {
    if order == [] {
      all := values;
    } else {
      NextKeepsInv(fs, seed, s, order[0]);
      var next := NextValue(fs, seed, s, values, order[0]);
      all := HistoryOfRun(fs, seed, Next(fs, s, order[0]), next, order[1..]);
    }
  }

  /** In every interleaving the cell takes the values that the successful writers computed, each from the
      one before, starting with the seed. */
  lemma {:induction false} CellHistory(fs: seq<Update>, seed: Mask, order: seq<nat>) returns (values: seq<Mask>)
    requires Schedule(|fs|, order)
    ensures History(fs, seed, Run(fs, Start(|fs|, seed), order), values)
  {
    StartSatisfiesInv(fs, seed);
    values := HistoryOfRun(fs, seed, Start(|fs|, seed), [seed], order);
  }

  /** While no writer has succeeded the cell holds the seed. */
  lemma {:induction false} SeedUntilFirstSuccess(fs: seq<Update>, seed: Mask, order: seq<nat>)
    requires Schedule(|fs|, order) && NoneDone(Run(fs, Start(|fs|, seed), order))
    ensures Run(fs, Start(|fs|, seed), order).cell == seed
  {
    var s := Run(fs, Start(|fs|, seed), order);
    EveryReachableStateSatisfiesInv(fs, seed, order);
    var values := CellHistory(fs, seed, order);
    forall i | 0 <= i < |fs| ensures i !in s.log {
      assert WriterInv(fs, seed, s, i);
    }
    assert forall k :: 0 <= k < |s.log| ==> s.log[k] in s.log;
    assert s.log == [];
  }

  // ---------------------------------------------------------------------------
  // Setting and clearing
  // ---------------------------------------------------------------------------

  /** Every writer sets its own bits. */
  ghost predicate Setters(fs: seq<Update>, bits: seq<Mask>) {
    |bits| == |fs| && forall i, m: Mask :: 0 <= i < |fs| ==> fs[i](m) == m + bits[i]
  }

  /** Every writer clears its own bits. */
  ghost predicate Clearers(fs: seq<Update>, bits: seq<Mask>) {
    |bits| == |fs| && forall i, m: Mask :: 0 <= i < |fs| ==> fs[i](m) == m - bits[i]
  }

  ghost predicate Touched(bits: seq<Mask>, log: seq<nat>, b: Bit) {
    exists k :: 0 <= k < |log| && log[k] < |bits| && b in bits[log[k]]
  }

  lemma {:induction false} TouchedByNext(bits: seq<Mask>, log: seq<nat>, n: nat, b: Bit)
    requires n < |log| && log[n] < |bits|
    ensures Touched(bits, log[..n + 1], b) <==> Touched(bits, log[..n], b) || b in bits[log[n]]
  {
    var longer := log[..n + 1];
    if Touched(bits, log[..n], b) {
      var k :| 0 <= k < n && log[..n][k] < |bits| && b in bits[log[..n][k]];
      assert longer[k] == log[k];
    }
    if b in bits[log[n]] {
      assert longer[n] == log[n];
    }
    if Touched(bits, longer, b) {
      var k :| 0 <= k <= n && longer[k] < |bits| && b in bits[longer[k]];
      assert k < n ==> log[..n][k] == longer[k];
    }
  }

  lemma {:induction false} BitAfterLog(
    fs: seq<Update>, bits: seq<Mask>, seed: Mask, s: State, values: seq<Mask>, b: Bit)
    requires |bits| == |fs| && History(fs, seed, s, values)
    ensures Setters(fs, bits) ==> (b in s.cell <==> b in seed || Touched(bits, s.log, b))
    ensures Clearers(fs, bits) ==> (b in s.cell <==> b in seed && !Touched(bits, s.log, b))
  {
    for n := 0 to |s.log|
      invariant Setters(fs, bits) ==> (b in values[n] <==> b in seed || Touched(bits, s.log[..n], b))
      invariant Clearers(fs, bits) ==> (b in values[n] <==> b in seed && !Touched(bits, s.log[..n], b))
    {
      TouchedByNext(bits, s.log, n, b);
    }
    assert s.log[..|s.log|] == s.log;
  }

  /** Some writer with the bit has finished. */
  ghost predicate Finished(bits: seq<Mask>, s: State, b: Bit) {
    exists i :: 0 <= i < |s.phases| && i < |bits| && s.phases[i].Done? && b in bits[i]
  }

  lemma {:induction false} TouchedMeansFinished(fs: seq<Update>, bits: seq<Mask>, seed: Mask, s: State, b: Bit)
    requires |bits| == |fs| && Inv(fs, seed, s)
    ensures Touched(bits, s.log, b) <==> Finished(bits, s, b)
  {
    forall i | 0 <= i < |fs| ensures s.phases[i].Done? <==> i in s.log {
      assert WriterInv(fs, seed, s, i);
    }
    if Touched(bits, s.log, b) {
      var k :| 0 <= k < |s.log| && s.log[k] < |bits| && b in bits[s.log[k]];
      assert s.log[k] in s.log;
    }
    if i :| 0 <= i < |s.phases| && i < |bits| && s.phases[i].Done? && b in bits[i] {
      var k :| 0 <= k < |s.log| && s.log[k] == i;
    }
  }

  /** At every moment of every interleaving the cell of setting writers is the seed plus the bits of those
      that have finished. */
  lemma {:induction false} SettersAddUp(fs: seq<Update>, bits: seq<Mask>, seed: Mask, order: seq<nat>, b: Bit)
    requires Schedule(|fs|, order) && Setters(fs, bits)
    ensures var s := Run(fs, Start(|fs|, seed), order);
            && (b in s.cell <==> b in seed || Finished(bits, s, b))
            && (AllDone(s) ==> (b in s.cell <==> b in seed || exists i :: 0 <= i < |bits| && b in bits[i]))
  {
    var s := Run(fs, Start(|fs|, seed), order);
    EveryReachableStateSatisfiesInv(fs, seed, order);
    var values := CellHistory(fs, seed, order);
    BitAfterLog(fs, bits, seed, s, values, b);
    TouchedMeansFinished(fs, bits, seed, s, b);
  }

  /** And that of clearing writers is the seed without them. */
  lemma {:induction false} ClearersAddUp(fs: seq<Update>, bits: seq<Mask>, seed: Mask, order: seq<nat>, b: Bit)
    requires Schedule(|fs|, order) && Clearers(fs, bits)
    ensures var s := Run(fs, Start(|fs|, seed), order);
            && (b in s.cell <==> b in seed && !Finished(bits, s, b))
            && (AllDone(s) ==> (b in s.cell <==> b in seed && forall i :: 0 <= i < |bits| ==> b !in bits[i]))
  {
    var s := Run(fs, Start(|fs|, seed), order);
    EveryReachableStateSatisfiesInv(fs, seed, order);
    var values := CellHistory(fs, seed, order);
    BitAfterLog(fs, bits, seed, s, values, b);
    TouchedMeansFinished(fs, bits, seed, s, b);
  }
}
