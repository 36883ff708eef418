/**
  The live mask cell under concurrent writers. Every atomic load and compare-and-swap is one step of
  an interleaving: each writer reads the mask, computes its update from what it read, calls
  SetErrorMask, and on a conflict starts over. The conflict report loads the cell a second time, as
  its own step; `ConflictReports` says what it can name. A schedule names which writer moves next, so a
  statement about every schedule is a statement about every interleaving.
 */
module MaskCell {
  import opened ErrorMask

  type Update = Mask -> Mask

  datatype Phase =
    | Reading                   // about to load the mask
    | Swapping(prev: Mask)      // about to compare-and-swap from the value it read
    | Conflicted(prev: Mask)    // the swap failed; about to load the value to report
    | Done

  datatype Conflict = Conflict(expected: Mask, actual: Mask)

  /** `log` lists the writers in the order their swaps succeeded, `seen[i]` is how long the log was
      when writer `i` last loaded, `retries[i]` counts its failed swaps, `moves` all steps taken. */
  datatype State = State(
    cell: Mask,
    phases: seq<Phase>,
    log: seq<nat>,
    seen: seq<nat>,
    retries: seq<nat>,
    reports: seq<Conflict>,
    moves: nat)

  predicate Shaped(n: nat, s: State) {
    |s.phases| == |s.seen| == |s.retries| == n
  }

  function Start(n: nat, seed: Mask): (s: State)
    ensures Shaped(n, s)
  {
    State(seed, seq(n, _ => Reading), [], seq(n, _ => 0), seq(n, _ => 0), [], 0)
  }

  /** One atomic step of writer `i`; a writer that has finished does not move. */
  function Next(fs: seq<Update>, s: State, i: nat): (s': State)
    requires Shaped(|fs|, s) && i < |fs|
    ensures Shaped(|fs|, s')
  {
    match s.phases[i]
    case Reading =>
      s.(phases := s.phases[i := Swapping(s.cell)], seen := s.seen[i := |s.log|], moves := s.moves + 1)
    case Swapping(prev) =>
      if s.cell == prev then
        s.(cell := fs[i](prev), phases := s.phases[i := Done], log := s.log + [i], moves := s.moves + 1)
      else
        s.(phases := s.phases[i := Conflicted(prev)], retries := s.retries[i := s.retries[i] + 1], moves := s.moves + 1)
    case Conflicted(prev) =>
      s.(phases := s.phases[i := Reading], reports := s.reports + [Conflict(prev, s.cell)], moves := s.moves + 1)
    case Done => s
  }

  predicate Schedule(n: nat, order: seq<nat>) {
    forall k :: 0 <= k < |order| ==> order[k] < n
  }

  function Run(fs: seq<Update>, s: State, order: seq<nat>): (s': State)
    requires Shaped(|fs|, s) && Schedule(|fs|, order)
    ensures Shaped(|fs|, s')
    decreases |order|
  {
    if order == [] then s else Run(fs, Next(fs, s, order[0]), order[1..])
  }

  /** The updates of the listed writers, applied in order to the seed. */
  function Compose(fs: seq<Update>, seed: Mask, log: seq<nat>): Mask
    requires Schedule(|fs|, log)
  {
    if log == [] then seed
    else fs[log[|log| - 1]](Compose(fs, seed, log[..|log| - 1]))
  }

  function Sum(xs: seq<nat>): nat {
    if xs == [] then 0 else Sum(xs[..|xs| - 1]) + xs[|xs| - 1]
  }

  ghost predicate Distinct(log: seq<nat>) {
    forall j, k :: 0 <= j < k < |log| ==> log[j] != log[k]
  }

  ghost predicate AllDone(s: State) {
    forall i :: 0 <= i < |s.phases| ==> s.phases[i].Done?
  }

  // ---------------------------------------------------------------------------
  // The invariant
  // ---------------------------------------------------------------------------

  /** What is true of one writer: how many successes can have cost it a retry so far. */
  ghost predicate WriterInv(fs: seq<Update>, seed: Mask, s: State, i: nat)
    requires Shaped(|fs|, s) && i < |fs| && Schedule(|fs|, s.log)
  {
    && (s.phases[i].Done? <==> i in s.log)
    && s.retries[i] <= Room(s.log, i)
    && (s.phases[i].Swapping? ==>
          && s.retries[i] <= s.seen[i] <= |s.log|
          && s.phases[i].prev == Compose(fs, seed, s.log[..s.seen[i]]))
  }

  ghost predicate Inv(fs: seq<Update>, seed: Mask, s: State) {
    && Shaped(|fs|, s) && CellInv(fs, seed, s)
    && forall i :: 0 <= i < |fs| ==> WriterInv(fs, seed, s, i)
  }

  function Position(log: seq<nat>, i: nat): (k: nat)
    requires i in log
    ensures k < |log| && log[k] == i
  {
    if log[|log| - 1] == i then |log| - 1 else Position(log[..|log| - 1], i)
  }

  /** Successes that precede writer `i`'s own: its place in the log, or the whole log if it is still
      trying. */
  function Room(log: seq<nat>, i: nat): nat {
    if i in log then Position(log, i) else |log|
  }

  lemma {:induction false} RoomOfAppend(log: seq<nat>, j: nat, i: nat)
    requires j !in log
    ensures Room(log + [j], i) == Room(log, i) + if i in log + [j] then 0 else 1
  {
    assert (log + [j])[..|log|] == log;
  }

  lemma {:induction false} ComposeOfAppend(fs: seq<Update>, seed: Mask, log: seq<nat>, i: nat)
    requires Schedule(|fs|, log) && i < |fs|
    ensures Compose(fs, seed, log + [i]) == fs[i](Compose(fs, seed, log))
  {
    assert (log + [i])[..|log|] == log;
  }

  lemma {:induction false} StartSatisfiesInv(fs: seq<Update>, seed: Mask)
    ensures Inv(fs, seed, Start(|fs|, seed))
  {
  }

  /** A successful swap of writer `i` keeps what is true of writer `k`. */
  lemma {:induction false} SuccessKeepsWriter(fs: seq<Update>, seed: Mask, s: State, s': State, i: nat, k: nat)
    requires Inv(fs, seed, s) && i < |fs| && k < |fs|
    requires s.phases[i].Swapping?
    requires s' == s.(cell := s'.cell, phases := s.phases[i := Done], log := s.log + [i], moves := s'.moves)
    ensures WriterInv(fs, seed, s', k)
  {
    assert WriterInv(fs, seed, s, i) && WriterInv(fs, seed, s, k);
    RoomOfAppend(s.log, i, k);
    if k != i && s.phases[k].Swapping? {
      assert s'.log[..s.seen[k]] == s.log[..s.seen[k]];
    }
  }

  /** So does every other step. */
  lemma {:induction false} OtherStepKeepsWriter(fs: seq<Update>, seed: Mask, s: State, i: nat, k: nat)
    requires Inv(fs, seed, s) && i < |fs| && k < |fs|
    requires !(s.phases[i].Swapping? && s.cell == s.phases[i].prev)
    ensures WriterInv(fs, seed, Next(fs, s, i), k)
  {
    assert WriterInv(fs, seed, s, i) && WriterInv(fs, seed, s, k);
    if k == i {
      assert s.log[..|s.log|] == s.log;
    }
  }

  lemma {:induction false} NextKeepsWriter(fs: seq<Update>, seed: Mask, s: State, i: nat, k: nat)
    requires Inv(fs, seed, s) && i < |fs| && k < |fs|
    ensures Schedule(|fs|, Next(fs, s, i).log)
    ensures WriterInv(fs, seed, Next(fs, s, i), k)
  {
    if s.phases[i].Swapping? && s.cell == s.phases[i].prev {
      SuccessKeepsWriter(fs, seed, s, Next(fs, s, i), i, k);
    } else {
      OtherStepKeepsWriter(fs, seed, s, i, k);
    }
  }

  /** The log has no repetitions and the cell holds the logged updates. */
  ghost predicate CellInv(fs: seq<Update>, seed: Mask, s: State) {
    Schedule(|fs|, s.log) && Distinct(s.log) && s.cell == Compose(fs, seed, s.log)
  }

  lemma {:induction false} NextKeepsCell(fs: seq<Update>, seed: Mask, s: State, i: nat)
    requires Shaped(|fs|, s) && i < |fs| && CellInv(fs, seed, s)
    requires s.phases[i].Swapping? ==> i !in s.log
    ensures CellInv(fs, seed, Next(fs, s, i))
  {
    var s' := Next(fs, s, i);
    if s.phases[i].Swapping? && s.cell == s.phases[i].prev {
      assert s'.log == s.log + [i] && s'.cell == fs[i](s.cell);
      assert s'.cell == Compose(fs, seed, s'.log) by {
        ComposeOfAppend(fs, seed, s.log, i);
      }
      DistinctAppend(s.log, i);
    } else {
      assert s'.log == s.log && s'.cell == s.cell;
    }
  }

  lemma {:induction false} DistinctAppend(log: seq<nat>, i: nat)
    requires Distinct(log) && i !in log
    ensures Distinct(log + [i])
  {
  }

  lemma {:induction false} NextKeepsInv(fs: seq<Update>, seed: Mask, s: State, i: nat)
    requires Inv(fs, seed, s) && i < |fs|
    ensures Inv(fs, seed, Next(fs, s, i))
  {
    assert WriterInv(fs, seed, s, i);
    NextKeepsCell(fs, seed, s, i);
    var s' := Next(fs, s, i);
    forall k | 0 <= k < |fs| ensures WriterInv(fs, seed, s', k) {
      NextKeepsWriter(fs, seed, s, i, k);
    }
  }

  lemma {:induction false} RunKeepsInv(fs: seq<Update>, seed: Mask, s: State, order: seq<nat>)
    requires Inv(fs, seed, s) && Schedule(|fs|, order)
    ensures Inv(fs, seed, Run(fs, s, order))
    decreases |order|
  {
    if order != [] {
      NextKeepsInv(fs, seed, s, order[0]);
      RunKeepsInv(fs, seed, Next(fs, s, order[0]), order[1..]);
    }
  }

  // ---------------------------------------------------------------------------
  // Counting conflicts
  // ---------------------------------------------------------------------------

  /** How many of the first `n` writers are not in the log. */
  function Missing(log: seq<nat>, n: nat): nat {
    if n == 0 then 0 else Missing(log, n - 1) + if n - 1 in log then 0 else 1
  }

  function RoomSum(log: seq<nat>, n: nat): nat {
    if n == 0 then 0 else RoomSum(log, n - 1) + Room(log, n - 1)
  }

  lemma {:induction false} MissingOfAppend(log: seq<nat>, j: nat, n: nat)
    requires j !in log
    ensures Missing(log + [j], n) == Missing(log, n) - if j < n then 1 else 0
  {
    if n > 0 {
      MissingOfAppend(log, j, n - 1);
    }
  }

  lemma {:induction false} MissingOfNone(n: nat)
    ensures Missing([], n) == n
  {
    if n > 0 {
      MissingOfNone(n - 1);
    }
  }

  lemma {:induction false} RoomSumOfNone(n: nat)
    ensures RoomSum([], n) == 0
  {
    if n > 0 {
      RoomSumOfNone(n - 1);
    }
  }

  lemma {:induction false} RoomSumOfAppend(log: seq<nat>, j: nat, n: nat)
    requires j !in log
    ensures RoomSum(log + [j], n) == RoomSum(log, n) + Missing(log + [j], n)
  {
    if n > 0 {
      RoomSumOfAppend(log, j, n - 1);
      RoomOfAppend(log, j, n - 1);
    }
  }

  lemma {:induction false} MissingClosedForm(log: seq<nat>, n: nat)
    requires Distinct(log) && Schedule(n, log)
    ensures Missing(log, n) == n - |log|
  {
    if log == [] {
      MissingOfNone(n);
    } else {
      var front, j := log[..|log| - 1], log[|log| - 1];
      assert log == front + [j];
      MissingClosedForm(front, n);
      MissingOfAppend(front, j, n);
    }
  }

  /** With `k` of `n` writers finished, at most `k(2n-k-1)/2` retries fit. */
  lemma {:induction false} RoomSumClosedForm(log: seq<nat>, n: nat)
    requires Distinct(log) && Schedule(n, log)
    ensures 2 * RoomSum(log, n) == |log| * (2 * n - |log| - 1)
  {
    if log == [] {
      RoomSumOfNone(n);
    } else {
      var front, j := log[..|log| - 1], log[|log| - 1];
      assert log == front + [j];
      RoomSumClosedForm(front, n);
      RoomSumOfAppend(front, j, n);
      MissingClosedForm(log, n);
      StepOfClosedForm(|front|, n);
    }
  }

  lemma {:induction false} StepOfClosedForm(k: int, n: int)
    ensures (k + 1) * (2 * n - (k + 1) - 1) == k * (2 * n - k - 1) + 2 * (n - k - 1)
  {
  }

  lemma {:induction false} RetriesFitRoom(log: seq<nat>, retries: seq<nat>)
    requires forall i :: 0 <= i < |retries| ==> retries[i] <= Room(log, i)
    ensures Sum(retries) <= RoomSum(log, |retries|)
  {
    if retries != [] {
      RetriesFitRoom(log, retries[..|retries| - 1]);
    }
  }

  lemma {:induction false} ClosedFormIsLargestAtTheEnd(k: int, n: int)
    requires k <= n
    ensures k * (2 * n - k - 1) <= n * (n - 1)
  {
    var d := n - k;
    calc {
      n * (n - 1) - k * (2 * n - k - 1);
    ==
      d * (d - 1);
    }
  }

  lemma {:induction false} ConflictBound(fs: seq<Update>, seed: Mask, s: State)
    requires Inv(fs, seed, s)
    ensures 2 * Sum(s.retries) <= |fs| * (|fs| - 1)
  {
    forall i | 0 <= i < |fs| ensures s.retries[i] <= Room(s.log, i) {
      assert WriterInv(fs, seed, s, i);
    }
    RetriesFitRoom(s.log, s.retries);
    RoomSumClosedForm(s.log, |fs|);
    MissingClosedForm(s.log, |fs|);
    ClosedFormIsLargestAtTheEnd(|s.log|, |fs|);
  }

  // ---------------------------------------------------------------------------
  // Whole runs
  // ---------------------------------------------------------------------------

  lemma {:induction false} EveryReachableStateSatisfiesInv(fs: seq<Update>, seed: Mask, order: seq<nat>)
    requires Schedule(|fs|, order)
    ensures Inv(fs, seed, Run(fs, Start(|fs|, seed), order))
  {
    StartSatisfiesInv(fs, seed);
    RunKeepsInv(fs, seed, Start(|fs|, seed), order);
  }

  /** No lost update: in every interleaving the mask is the seed with the successful updates applied
      in the order they succeeded, and no writer succeeds twice. */
  lemma {:induction false} NoLostUpdate(fs: seq<Update>, seed: Mask, order: seq<nat>)
    requires Schedule(|fs|, order)
    ensures var s := Run(fs, Start(|fs|, seed), order);
            Schedule(|fs|, s.log) && Distinct(s.log) && s.cell == Compose(fs, seed, s.log)
  {
    EveryReachableStateSatisfiesInv(fs, seed, order);
  }

  lemma {:induction false} EveryWriterIsLogged(fs: seq<Update>, seed: Mask, s: State)
    requires Inv(fs, seed, s) && AllDone(s)
    ensures |s.log| == |fs| && forall i :: 0 <= i < |fs| ==> i in s.log
  {
    assert forall i :: 0 <= i < |fs| ==> i in s.log by {
      forall i | 0 <= i < |fs| ensures i in s.log {
        assert WriterInv(fs, seed, s, i);
      }
    }
    NoneMissing(s.log, |fs|);
    MissingClosedForm(s.log, |fs|);
  }

  /** Once every writer has finished, each of them is in the log exactly once. */
  lemma {:induction false} EveryUpdateIsApplied(fs: seq<Update>, seed: Mask, order: seq<nat>, s: State)
    requires Schedule(|fs|, order) && s == Run(fs, Start(|fs|, seed), order)
    requires AllDone(s)
    ensures |s.log| == |fs| && forall i :: 0 <= i < |fs| ==> i in s.log
  {
    assert Inv(fs, seed, s) by {
      EveryReachableStateSatisfiesInv(fs, seed, order);
    }
    EveryWriterIsLogged(fs, seed, s);
  }

  lemma {:induction false} NoneMissing(log: seq<nat>, n: nat)
    requires forall i :: 0 <= i < n ==> i in log
    ensures Missing(log, n) == 0
  {
    if n > 0 {
      NoneMissing(log, n - 1);
    }
  }

  /** In every interleaving of `n` writers there are at most `n(n-1)/2` conflicts. */
  lemma {:induction false} ConflictsAreBounded(fs: seq<Update>, seed: Mask, order: seq<nat>)
    requires Schedule(|fs|, order)
    ensures 2 * Sum(Run(fs, Start(|fs|, seed), order).retries) <= |fs| * (|fs| - 1)
  {
    EveryReachableStateSatisfiesInv(fs, seed, order);
    ConflictBound(fs, seed, Run(fs, Start(|fs|, seed), order));
  }

  // ---------------------------------------------------------------------------
  // The retry loops terminate
  // ---------------------------------------------------------------------------

  /** Steps a writer has taken beyond three for each failed swap. */
  function Extra(p: Phase): int {
    match p
    case Reading => 0
    case Swapping(_) => 1
    case Conflicted(_) => -1
    case Done => 2
  }

  function ExtraSum(ps: seq<Phase>): int {
    if ps == [] then 0 else ExtraSum(ps[..|ps| - 1]) + Extra(ps[|ps| - 1])
  }

  lemma {:induction false} SumOfUpdate(xs: seq<nat>, i: nat, v: nat)
    requires i < |xs|
    ensures Sum(xs[i := v]) == Sum(xs) - xs[i] + v
  {
    var last := |xs| - 1;
    if i < last {
      assert xs[i := v][..last] == xs[..last][i := v];
      SumOfUpdate(xs[..last], i, v);
    } else {
      assert xs[i := v][..last] == xs[..last];
    }
  }

  lemma {:induction false} ExtraSumOfUpdate(ps: seq<Phase>, i: nat, p: Phase)
    requires i < |ps|
    ensures ExtraSum(ps[i := p]) == ExtraSum(ps) - Extra(ps[i]) + Extra(p)
  {
    var last := |ps| - 1;
    if i < last {
      assert ps[i := p][..last] == ps[..last][i := p];
      ExtraSumOfUpdate(ps[..last], i, p);
    } else {
      assert ps[i := p][..last] == ps[..last];
    }
  }

  lemma {:induction false} ExtraSumBound(ps: seq<Phase>)
    ensures ExtraSum(ps) <= 2 * |ps|
  {
    if ps != [] {
      ExtraSumBound(ps[..|ps| - 1]);
    }
  }

  lemma {:induction false} SumsAtStart(n: nat, seed: Mask)
    ensures Sum(Start(n, seed).retries) == 0 && ExtraSum(Start(n, seed).phases) == 0
  {
    if n > 0 {
      SumsAtStart(n - 1, seed);
      assert Start(n, seed).retries[..n - 1] == Start(n - 1, seed).retries;
      assert Start(n, seed).phases[..n - 1] == Start(n - 1, seed).phases;
    }
  }

  ghost predicate MovesAccounted(s: State) {
    s.moves == 3 * Sum(s.retries) + ExtraSum(s.phases)
  }

  lemma {:induction false} RunAccountsForMoves(fs: seq<Update>, s: State, order: seq<nat>)
    requires Shaped(|fs|, s) && Schedule(|fs|, order) && MovesAccounted(s)
    ensures MovesAccounted(Run(fs, s, order))
    decreases |order|
  {
    if order != [] {
      NextAccountsForMoves(fs, s, order[0]);
      RunAccountsForMoves(fs, Next(fs, s, order[0]), order[1..]);
    }
  }

  lemma {:induction false} NextAccountsForMoves(fs: seq<Update>, s: State, i: nat)
    requires Shaped(|fs|, s) && i < |fs| && MovesAccounted(s)
    ensures MovesAccounted(Next(fs, s, i))
  {
    var s' := Next(fs, s, i);
    assert s'.phases == s.phases[i := s'.phases[i]];
    assert s'.retries == s.retries[i := s'.retries[i]];
    ExtraSumOfUpdate(s.phases, i, s'.phases[i]);
    SumOfUpdate(s.retries, i, s'.retries[i]);
  }

  /** However the writers are scheduled, `n` of them take at most `3n(n-1)/2 + 2n` atomic steps. */
  lemma {:induction false} StepsAreBounded(fs: seq<Update>, seed: Mask, order: seq<nat>)
    requires Schedule(|fs|, order)
    ensures 2 * Run(fs, Start(|fs|, seed), order).moves <= 3 * (|fs| * (|fs| - 1)) + 4 * |fs|
  {
    SumsAtStart(|fs|, seed);
    RunAccountsForMoves(fs, Start(|fs|, seed), order);
    ExtraSumBound(Run(fs, Start(|fs|, seed), order).phases);
    ConflictsAreBounded(fs, seed, order);
  }

  /** How often a schedule lets writer `i` move. */
  function Turns(order: seq<nat>, i: nat): nat {
    if order == [] then 0 else Turns(order[1..], i) + if order[0] == i then 1 else 0
  }

  /** Steps writer `i` has behind it. */
  function Spent(s: State, i: nat): int
    requires i < |s.phases| && i < |s.retries|
  {
    3 * s.retries[i] + Extra(s.phases[i])
  }

  lemma {:induction false} DoneStaysDone(fs: seq<Update>, s: State, order: seq<nat>, i: nat)
    requires Shaped(|fs|, s) && Schedule(|fs|, order) && i < |fs| && s.phases[i].Done?
    ensures Run(fs, s, order).phases[i].Done?
    decreases |order|
  {
    if order != [] {
      DoneStaysDone(fs, Next(fs, s, order[0]), order[1..], i);
    }
  }

  /** A writer that has not finished used every one of its turns. */
  lemma {:induction false} UnfinishedWriterUsesItsTurns(fs: seq<Update>, s: State, order: seq<nat>, i: nat)
    requires Shaped(|fs|, s) && Schedule(|fs|, order) && i < |fs|
    requires !Run(fs, s, order).phases[i].Done?
    ensures Spent(Run(fs, s, order), i) == Spent(s, i) + Turns(order, i)
    decreases |order|
  {
    if order != [] {
      var s1 := Next(fs, s, order[0]);
      UnfinishedWriterUsesItsTurns(fs, s1, order[1..], i);
      if s.phases[i].Done? {
        DoneStaysDone(fs, s, order, i);
        assert false;
      }
      if s1.phases[i].Done? {
        DoneStaysDone(fs, s1, order[1..], i);
        assert false;
      }
    }
  }

  /** The retry loop is wait-free: among `n` writers, a writer that gets `3n-1` turns has finished, however
      the turns of the others fall. */
  lemma {:induction false} WriterFinishes(fs: seq<Update>, seed: Mask, order: seq<nat>, i: nat)
    requires Schedule(|fs|, order) && i < |fs| && Turns(order, i) >= 3 * |fs| - 1
    ensures Run(fs, Start(|fs|, seed), order).phases[i].Done?
  {
    var s := Run(fs, Start(|fs|, seed), order);
    if !s.phases[i].Done? {
      EveryReachableStateSatisfiesInv(fs, seed, order);
      UnfinishedWriterUsesItsTurns(fs, Start(|fs|, seed), order, i);
      assert WriterInv(fs, seed, s, i);
      DistinctAppend(s.log, i);
      MissingClosedForm(s.log + [i], |fs|);
    }
  }

  /** A schedule that gives every writer `3n-1` turns ends with every update applied exactly once. */
  lemma {:induction false} RetryLoopsEnd(fs: seq<Update>, seed: Mask, order: seq<nat>)
    requires Schedule(|fs|, order) && forall i :: 0 <= i < |fs| ==> Turns(order, i) >= 3 * |fs| - 1
    ensures var s := Run(fs, Start(|fs|, seed), order);
            && AllDone(s) && Schedule(|fs|, s.log) && s.cell == Compose(fs, seed, s.log)
            && |s.log| == |fs| && forall i :: 0 <= i < |fs| ==> i in s.log
  {
    var s := Run(fs, Start(|fs|, seed), order);
    forall i | 0 <= i < |fs| ensures s.phases[i].Done? {
      WriterFinishes(fs, seed, order, i);
    }
    NoLostUpdate(fs, seed, order);
    EveryUpdateIsApplied(fs, seed, order, s);
  }

  lemma {:induction false} RunOfAppend(fs: seq<Update>, s: State, order: seq<nat>, i: nat)
    requires Shaped(|fs|, s) && Schedule(|fs|, order) && i < |fs|
    ensures Run(fs, s, order + [i]) == Next(fs, Run(fs, s, order), i)
    decreases |order|
  {
    var longer := order + [i];
    if order == [] {
      assert longer[1..] == [];
    } else {
      assert longer[1..] == order[1..] + [i];
      RunOfAppend(fs, Next(fs, s, order[0]), order[1..], i);
    }
  }

  /** Lets one more writer move at the end of a run. */
  lemma {:induction false} Extend(fs: seq<Update>, seed: Mask, s: State, order: seq<nat>, i: nat)
    returns (s': State, order': seq<nat>)
    requires i < |fs| && Schedule(|fs|, order) && s == Run(fs, Start(|fs|, seed), order)
    ensures Schedule(|fs|, order') && s' == Run(fs, Start(|fs|, seed), order')
    ensures s' == Next(fs, s, i)
  {
    RunOfAppend(fs, Start(|fs|, seed), order, i);
    s', order' := Next(fs, s, i), order + [i];
  }

  // ---------------------------------------------------------------------------
  // The bound on conflicts is exact
  // ---------------------------------------------------------------------------

  function Flip(m: Mask): (r: Mask)
    ensures r != m
  {
    if 0 in m then m - {0} else m + {0}
  }

  function Flippers(n: nat): (fs: seq<Update>)
    ensures |fs| == n
  {
    seq(n, _ => (m: Mask) => Flip(m))
  }

  ghost predicate Reached(n: nat, s: State, order: seq<nat>) {
    Schedule(n, order) && s == Run(Flippers(n), Start(n, EMPTY), order)
  }

  lemma {:induction false} LoadAll(n: nat, r: nat, s0: State, order0: seq<nat>)
    returns (s: State, order: seq<nat>)
    requires r <= n && Reached(n, s0, order0)
    requires forall i :: 0 <= i < n ==> s0.phases[i] == if i < r then Done else Reading
    ensures Reached(n, s, order) && s.cell == s0.cell && s.retries == s0.retries
    ensures forall i :: 0 <= i < n ==> s.phases[i] == if i < r then Done else Swapping(s.cell)
  {
    s, order := s0, order0;
    for k := r to n
      invariant Reached(n, s, order) && s.cell == s0.cell && s.retries == s0.retries
      invariant forall i :: 0 <= i < n ==>
        s.phases[i] == if i < r then Done else if i < k then Swapping(s.cell) else Reading
    {
      s, order := Extend(Flippers(n), EMPTY, s, order, k);
    }
  }

  /** The first swap of a round succeeds and makes all the others fail. */
  lemma {:induction false} SwapAll(n: nat, r: nat, s0: State, order0: seq<nat>)
    returns (s: State, order: seq<nat>)
    requires r < n && Reached(n, s0, order0)
    requires forall i :: 0 <= i < n ==> s0.phases[i] == if i < r then Done else Swapping(s0.cell)
    ensures Reached(n, s, order)
    ensures forall i :: 0 <= i < n ==> s.phases[i] == if i <= r then Done else Conflicted(s0.cell)
    ensures forall i :: 0 <= i < n ==> s.retries[i] == s0.retries[i] + if i <= r then 0 else 1
  {
    s, order := Extend(Flippers(n), EMPTY, s0, order0, r);
    assert s.cell == Flip(s0.cell);
    for k := r + 1 to n
      invariant Reached(n, s, order) && s.cell != s0.cell
      invariant forall i :: 0 <= i < n ==>
        s.phases[i] == if i <= r then Done else if i < k then Conflicted(s0.cell) else Swapping(s0.cell)
      invariant forall i :: 0 <= i < n ==> s.retries[i] == s0.retries[i] + if r < i < k then 1 else 0
    {
      s, order := Extend(Flippers(n), EMPTY, s, order, k);
    }
  }

  lemma {:induction false} ReportAll(n: nat, r: nat, s0: State, order0: seq<nat>)
    returns (s: State, order: seq<nat>)
    requires r < n && Reached(n, s0, order0)
    requires forall i :: 0 <= i < n ==> if i <= r then s0.phases[i].Done? else s0.phases[i].Conflicted?
    ensures Reached(n, s, order) && s.retries == s0.retries
    ensures forall i :: 0 <= i < n ==> s.phases[i] == if i <= r then Done else Reading
  {
    s, order := s0, order0;
    for k := r + 1 to n
      invariant Reached(n, s, order) && s.retries == s0.retries
      invariant forall i :: 0 <= i < n ==>
        if i <= r then s.phases[i].Done? else if i < k then s.phases[i].Reading? else s.phases[i].Conflicted?
    {
      s, order := Extend(Flippers(n), EMPTY, s, order, k);
    }
  }

  lemma {:induction false} SumOfIota(xs: seq<nat>)
    requires forall i :: 0 <= i < |xs| ==> xs[i] == i
    ensures 2 * Sum(xs) == |xs| * (|xs| - 1)
  {
    if xs != [] {
      var front := xs[..|xs| - 1];
      SumOfIota(front);
      assert |front| * (|front| - 1) + 2 * |front| == (|front| + 1) * |front|;
    }
  }

  /** For every `n` some interleaving of `n` writers that all finish has `n(n-1)/2` conflicts. */
  lemma {:induction false} ConflictBoundIsExact(n: nat) returns (order: seq<nat>)
    ensures Schedule(n, order)
    ensures AllDone(Run(Flippers(n), Start(n, EMPTY), order))
    ensures 2 * Sum(Run(Flippers(n), Start(n, EMPTY), order).retries) == n * (n - 1)
  {
    order := [];
    var s := Start(n, EMPTY);
    for r := 0 to n
      invariant Reached(n, s, order)
      invariant forall i :: 0 <= i < n ==> s.phases[i] == if i < r then Done else Reading
      invariant forall i :: 0 <= i < n ==> s.retries[i] == if i < r then i else r
    {
      s, order := LoadAll(n, r, s, order);
      s, order := SwapAll(n, r, s, order);
      s, order := ReportAll(n, r, s, order);
    }
    SumOfIota(s.retries);
  }
}
