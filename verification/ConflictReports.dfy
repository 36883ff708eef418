/**
  What the error of a failed SetErrorMask can name. The expected value comes from the writer's first load,
  the actual one from a load after the failed swap, so other writers can move in between. The reports of
  all interleavings are characterised by the updates and the seed alone.
 */
module ConflictReports {
  import opened ErrorMask
  import opened MaskCell

  /** The updates of `log` pass through `prev` after `a` of them and are elsewhere after `b`. */
  ghost predicate Leaves(fs: seq<Update>, seed: Mask, log: seq<nat>, prev: Mask, a: nat, b: nat) {
    && Schedule(|fs|, log) && a < b <= |log|
    && Compose(fs, seed, log[..a]) == prev != Compose(fs, seed, log[..b])
  }

  /** Some writers, each at most once and writer `i` not among them, take the mask from the seed through
      `r.expected`, away from it, and finally to `r.actual`. */
  ghost predicate Explains(
    fs: seq<Update>, seed: Mask, r: Conflict, log: seq<nat>, i: nat, a: nat, b: nat) {
    && Leaves(fs, seed, log, r.expected, a, b)
    && Distinct(log) && i < |fs| && i !in log
    && Compose(fs, seed, log) == r.actual
  }

  ghost predicate Reportable(fs: seq<Update>, seed: Mask, r: Conflict) {
    exists log: seq<nat>, i: nat, a: nat, b: nat :: Explains(fs, seed, r, log, i, a, b)
  }

  /** Some interleaving has the report. */
  ghost predicate Reported(fs: seq<Update>, seed: Mask, r: Conflict) {
    exists order: seq<nat> :: Schedule(|fs|, order) && r in Run(fs, Start(|fs|, seed), order).reports
  }

  // ---------------------------------------------------------------------------
  // Every report is explained by its run
  // ---------------------------------------------------------------------------

  ghost predicate HasLeft(fs: seq<Update>, seed: Mask, log: seq<nat>, prev: Mask) {
    exists a: nat, b: nat :: Leaves(fs, seed, log, prev, a, b)
  }

  ghost predicate ReportInv(fs: seq<Update>, seed: Mask, s: State) {
    && Inv(fs, seed, s)
    && (forall i :: 0 <= i < |fs| && s.phases[i].Conflicted? ==> HasLeft(fs, seed, s.log, s.phases[i].prev))
    && (forall r :: r in s.reports ==> Reportable(fs, seed, r))
  }

  lemma {:induction false} HasLeftOfAppend(fs: seq<Update>, seed: Mask, log: seq<nat>, prev: Mask, i: nat)
    requires HasLeft(fs, seed, log, prev) && i < |fs|
    ensures HasLeft(fs, seed, log + [i], prev)
  {
    var a: nat, b: nat :| Leaves(fs, seed, log, prev, a, b);
    assert (log + [i])[..a] == log[..a] && (log + [i])[..b] == log[..b];
    assert Leaves(fs, seed, log + [i], prev, a, b);
  }

  /** A failed swap: the value the writer read has been left since. */
  lemma {:induction false} FailedSwapHasLeft(fs: seq<Update>, seed: Mask, s: State, i: nat)
    requires Inv(fs, seed, s) && i < |fs|
    requires s.phases[i].Swapping? && s.cell != s.phases[i].prev
    ensures HasLeft(fs, seed, s.log, s.phases[i].prev)
  {
    assert WriterInv(fs, seed, s, i);
    assert s.log[..|s.log|] == s.log;
    assert Leaves(fs, seed, s.log, s.phases[i].prev, s.seen[i], |s.log|);
  }

  lemma {:induction false} NewReportIsReportable(fs: seq<Update>, seed: Mask, s: State, i: nat)
    requires ReportInv(fs, seed, s) && i < |fs| && s.phases[i].Conflicted?
    ensures Reportable(fs, seed, Conflict(s.phases[i].prev, s.cell))
  {
    assert WriterInv(fs, seed, s, i);
    var a: nat, b: nat :| Leaves(fs, seed, s.log, s.phases[i].prev, a, b);
    assert Explains(fs, seed, Conflict(s.phases[i].prev, s.cell), s.log, i, a, b);
  }

  lemma {:induction false} NextKeepsReportInv(fs: seq<Update>, seed: Mask, s: State, i: nat)
    requires ReportInv(fs, seed, s) && i < |fs|
    ensures ReportInv(fs, seed, Next(fs, s, i))
  {
    var s' := Next(fs, s, i);
    NextKeepsInv(fs, seed, s, i);
    forall k | 0 <= k < |fs| && s'.phases[k].Conflicted?
      ensures HasLeft(fs, seed, s'.log, s'.phases[k].prev)
    {
      if k == i {
        FailedSwapHasLeft(fs, seed, s, i);
      } else if s'.log != s.log {
        HasLeftOfAppend(fs, seed, s.log, s.phases[k].prev, i);
      }
    }
    if s.phases[i].Conflicted? {
      NewReportIsReportable(fs, seed, s, i);
    }
  }

  lemma {:induction false} RunKeepsReportInv(fs: seq<Update>, seed: Mask, s: State, order: seq<nat>)
    requires ReportInv(fs, seed, s) && Schedule(|fs|, order)
    ensures ReportInv(fs, seed, Run(fs, s, order))
    decreases |order|
  {
    if order != [] {
      NextKeepsReportInv(fs, seed, s, order[0]);
      RunKeepsReportInv(fs, seed, Next(fs, s, order[0]), order[1..]);
    }
  }

  // ---------------------------------------------------------------------------
  // Every explanation is a run
  // ---------------------------------------------------------------------------

  /** The first `k` writers of the log have finished and the others have not started. */
  ghost predicate Through(fs: seq<Update>, seed: Mask, log: seq<nat>, k: nat, s: State, order: seq<nat>) {
    && Schedule(|fs|, log) && k <= |log|
    && Schedule(|fs|, order) && s == Run(fs, Start(|fs|, seed), order)
    && s.cell == Compose(fs, seed, log[..k])
    && forall j :: k <= j < |log| ==> s.phases[log[j]].Reading?
  }

  /** The next writer of the log reads and swaps, undisturbed. */
  lemma {:induction false} TakeTurn(
    fs: seq<Update>, seed: Mask, log: seq<nat>, i: nat, k: nat, s0: State, order0: seq<nat>)
    returns (s: State, order: seq<nat>)
    requires k < |log| && Through(fs, seed, log, k, s0, order0)
    requires Distinct(log) && i < |fs| && i !in log
    ensures Through(fs, seed, log, k + 1, s, order) && s.phases[i] == s0.phases[i]
  {
    assert log[..k + 1] == log[..k] + [log[k]];
    ComposeOfAppend(fs, seed, log[..k], log[k]);
    s, order := Extend(fs, seed, s0, order0, log[k]);
    assert s.phases == s0.phases[log[k] := Swapping(s0.cell)];
    s, order := Extend(fs, seed, s, order, log[k]);
    assert s.phases == s0.phases[log[k] := Done];
  }

  lemma {:induction false} RunAlone(
    fs: seq<Update>, seed: Mask, log: seq<nat>, i: nat, from: nat, to: nat, s0: State, order0: seq<nat>)
    returns (s: State, order: seq<nat>)
    requires from <= to <= |log| && Through(fs, seed, log, from, s0, order0)
    requires Distinct(log) && i < |fs| && i !in log
    ensures Through(fs, seed, log, to, s, order) && s.phases[i] == s0.phases[i]
  {
    s, order := s0, order0;
    for k := from to to
      invariant Through(fs, seed, log, k, s, order) && s.phases[i] == s0.phases[i]
    {
      s, order := TakeTurn(fs, seed, log, i, k, s, order);
    }
  }

  /** Writer `i` takes one step between two writers of the log. */
  lemma {:induction false} StepAside(
    fs: seq<Update>, seed: Mask, log: seq<nat>, i: nat, k: nat, s0: State, order0: seq<nat>)
    returns (s: State, order: seq<nat>)
    requires Through(fs, seed, log, k, s0, order0) && i < |fs| && i !in log
    requires !s0.phases[i].Done? && (s0.phases[i].Swapping? ==> s0.cell != s0.phases[i].prev)
    ensures Through(fs, seed, log, k, s, order) && s == Next(fs, s0, i)
  {
    s, order := Extend(fs, seed, s0, order0, i);
  }

  lemma {:induction false} ExplainedIsReported(
    fs: seq<Update>, seed: Mask, r: Conflict, log: seq<nat>, i: nat, a: nat, b: nat)
    requires Explains(fs, seed, r, log, i, a, b)
    ensures Reported(fs, seed, r)
  {
    var s, order := RunAlone(fs, seed, log, i, 0, a, Start(|fs|, seed), []);
    s, order := StepAside(fs, seed, log, i, a, s, order);
    s, order := RunAlone(fs, seed, log, i, a, b, s, order);
    s, order := StepAside(fs, seed, log, i, b, s, order);
    assert s.phases[i] == Conflicted(r.expected);
    s, order := RunAlone(fs, seed, log, i, b, |log|, s, order);
    assert log[..|log|] == log;
    s, order := StepAside(fs, seed, log, i, |log|, s, order);
    assert r == s.reports[|s.reports| - 1];
  }

  // ---------------------------------------------------------------------------
  // The exact condition
  // ---------------------------------------------------------------------------

  /** The reports of all interleavings: `expected` and `actual` are reported by some interleaving exactly
      when other writers can take the mask through `expected`, away from it, and on to `actual`. */
  lemma {:induction false} ReportsAreExactly(fs: seq<Update>, seed: Mask, r: Conflict)
    ensures Reported(fs, seed, r) <==> Reportable(fs, seed, r)
  {
    if order: seq<nat> :| Schedule(|fs|, order) && r in Run(fs, Start(|fs|, seed), order).reports {
      StartSatisfiesInv(fs, seed);
      RunKeepsReportInv(fs, seed, Start(|fs|, seed), order);
    }
    if log: seq<nat>, i: nat, a: nat, b: nat :| Explains(fs, seed, r, log, i, a, b) {
      ExplainedIsReported(fs, seed, r, log, i, a, b);
    }
  }

  /** Writers other than `i` leave a value and come back to it. */
  ghost predicate Returns(fs: seq<Update>, seed: Mask, log: seq<nat>, i: nat, a: nat, b: nat) {
    && Schedule(|fs|, log) && Distinct(log) && i < |fs| && i !in log && a < b < |log|
    && Compose(fs, seed, log[..a]) == Compose(fs, seed, log) != Compose(fs, seed, log[..b])
  }

  ghost predicate Restorable(fs: seq<Update>, seed: Mask) {
    exists log: seq<nat>, i: nat, a: nat, b: nat :: Returns(fs, seed, log, i, a, b)
  }

  /** Every conflict error of every interleaving names two different values. */
  ghost predicate ReportsAlwaysDiffer(fs: seq<Update>, seed: Mask) {
    forall order: seq<nat>, r ::
      Schedule(|fs|, order) && r in Run(fs, Start(|fs|, seed), order).reports ==> r.expected != r.actual
  }

  lemma {:induction false} RestorableIsReportable(fs: seq<Update>, seed: Mask)
    ensures Restorable(fs, seed) <==> exists m: Mask :: Reportable(fs, seed, Conflict(m, m))
  {
    if log: seq<nat>, i: nat, a: nat, b: nat :| Returns(fs, seed, log, i, a, b) {
      var m := Compose(fs, seed, log);
      assert Explains(fs, seed, Conflict(m, m), log, i, a, b);
      assert Reportable(fs, seed, Conflict(m, m));
    }
    if m: Mask :| Reportable(fs, seed, Conflict(m, m)) {
      var log: seq<nat>, i: nat, a: nat, b: nat :| Explains(fs, seed, Conflict(m, m), log, i, a, b);
      assert log[..|log|] == log;
      assert Returns(fs, seed, log, i, a, b);
    }
  }

  /** The documented promise, that the observed value did not match the expected one, holds of all
      interleavings exactly when no value can be restored. */
  lemma {:induction false} ReportsDifferIffNotRestorable(fs: seq<Update>, seed: Mask)
    ensures ReportsAlwaysDiffer(fs, seed) <==> !Restorable(fs, seed)
  {
    RestorableIsReportable(fs, seed);
    if m: Mask :| Reportable(fs, seed, Conflict(m, m)) {
      ReportsAreExactly(fs, seed, Conflict(m, m));
    }
    if !ReportsAlwaysDiffer(fs, seed) {
      var order: seq<nat>, r :|
        Schedule(|fs|, order) && r in Run(fs, Start(|fs|, seed), order).reports && r.expected == r.actual;
      ReportsAreExactly(fs, seed, r);
      assert r == Conflict(r.actual, r.actual);
    }
  }

  // ---------------------------------------------------------------------------
  // What a caller can check
  // ---------------------------------------------------------------------------

  ghost predicate OnlyAdd(fs: seq<Update>) {
    forall i, m: Mask :: 0 <= i < |fs| ==> m <= fs[i](m)
  }

  ghost predicate OnlyClear(fs: seq<Update>) {
    forall i, m: Mask :: 0 <= i < |fs| ==> fs[i](m) <= m
  }

  lemma {:induction false} ComposeIsMonotone(fs: seq<Update>, seed: Mask, log: seq<nat>, a: nat, b: nat)
    requires Schedule(|fs|, log) && a <= b <= |log|
    ensures OnlyAdd(fs) ==> Compose(fs, seed, log[..a]) <= Compose(fs, seed, log[..b])
    ensures OnlyClear(fs) ==> Compose(fs, seed, log[..b]) <= Compose(fs, seed, log[..a])
    decreases b
  {
    if a < b {
      ComposeIsMonotone(fs, seed, log, a, b - 1);
      assert log[..b] == log[..b - 1] + [log[b - 1]];
      ComposeOfAppend(fs, seed, log[..b - 1], log[b - 1]);
    }
  }

  /** Writers that all only mask categories, or all only report them, never see a confusing error; nor do
      fewer than three writers, whatever they do. */
  lemma {:induction false} OneSidedWritersAreReportedTruly(fs: seq<Update>, seed: Mask)
    requires OnlyAdd(fs) || OnlyClear(fs) || |fs| < 3
    ensures ReportsAlwaysDiffer(fs, seed)
  {
    if log: seq<nat>, i: nat, a: nat, b: nat :| Returns(fs, seed, log, i, a, b) {
      assert log[..|log|] == log;
      ComposeIsMonotone(fs, seed, log, a, b);
      ComposeIsMonotone(fs, seed, log, b, |log|);
      DistinctAppend(log, i);
      MissingClosedForm(log + [i], |fs|);
      assert false;
    }
    ReportsDifferIffNotRestorable(fs, seed);
  }

  lemma {:induction false} CellChangesOnlyBySuccess(fs: seq<Update>, s: State, order: seq<nat>)
    requires Shaped(|fs|, s) && Schedule(|fs|, order)
    ensures |s.log| <= |Run(fs, s, order).log|
    ensures |s.log| == |Run(fs, s, order).log| ==> Run(fs, s, order).cell == s.cell
    decreases |order|
  {
    if order != [] {
      CellChangesOnlyBySuccess(fs, Next(fs, s, order[0]), order[1..]);
    }
  }

  lemma {:induction false} OthersLeavePhase(fs: seq<Update>, s: State, order: seq<nat>, i: nat)
    requires Shaped(|fs|, s) && Schedule(|fs|, order) && i < |fs| && i !in order
    ensures Run(fs, s, order).phases[i] == s.phases[i]
    decreases |order|
  {
    if order != [] {
      assert order[0] in order;
      OthersLeavePhase(fs, Next(fs, s, order[0]), order[1..], i);
    }
  }

  /** Within one run, a report can name the expected value only if another writer succeeded between the
      failed swap and the second load. */
  lemma {:induction false} QuietReportDiffers(fs: seq<Update>, s: State, i: nat, between: seq<nat>)
    requires Shaped(|fs|, s) && i < |fs| && Schedule(|fs|, between) && i !in between
    requires s.phases[i].Swapping? && s.cell != s.phases[i].prev
    requires |Run(fs, Next(fs, s, i), between).log| == |s.log|
    ensures var before := Run(fs, Next(fs, s, i), between);
            Next(fs, before, i).reports == before.reports + [Conflict(s.phases[i].prev, s.cell)]
  {
    CellChangesOnlyBySuccess(fs, Next(fs, s, i), between);
    OthersLeavePhase(fs, Next(fs, s, i), between, i);
  }

  /** Three writers are enough: writer 0 masks bulk items and writer 2 reports them again, so writer 1 can
      be told that it expected zero and found zero. */
  lemma {:induction false} ReportMayNameTheExpectedValue()
    ensures Reported([m => m + {0}, m => m + {1}, m => m - {0}], EMPTY, Conflict(EMPTY, EMPTY))
  {
    var fs: seq<Update> := [m => m + {0}, m => m + {1}, m => m - {0}];
    var log: seq<nat> := [0, 2];
    assert log[..0] == [] && log[..1] == [] + [0 as nat] && log[..2] == [0 as nat] + [2];
    ComposeOfAppend(fs, EMPTY, [], 0);
    ComposeOfAppend(fs, EMPTY, [0], 2);
    assert Explains(fs, EMPTY, Conflict(EMPTY, EMPTY), log, 1, 0, 1);
    ReportsAreExactly(fs, EMPTY, Conflict(EMPTY, EMPTY));
  }
}
