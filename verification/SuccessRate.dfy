/** RequireSuccessRate: which errors clear a success-rate threshold. Rates are exact reals. */
module SuccessRate {
  import opened Options
  import opened ErrorTree

  const BELOW_THRESHOLD := "below threshold"

  /** `part` of a non-zero `total` is at least the given share. */
  predicate Reaches(part: int, total: int, threshold: real) {
    total != 0 && part as real / total as real >= threshold
  }

  predicate Clears(c: Counts, threshold: real) {
    Reaches(c.succeeded, c.total, threshold)
  }

  /** What the remaining sub-errors decide, given whether an earlier one carried counts. */
  function Judge(err: Error, subs: seq<Error>, threshold: real, matched: bool): Option<Error> {
    if subs == [] then
      if matched then None else Some(err)
    else
      match PartialSuccessCounts(subs[0])
      case None => Judge(err, subs[1..], threshold, matched)
      case Some(c) =>
        if c.total == 0 then Some(err)
        else if !Clears(c, threshold) then Some(Wrap(BELOW_THRESHOLD, err))
        else Judge(err, subs[1..], threshold, true)
  }

  function Required(err: Option<Error>, threshold: real): Option<Error> {
    if err.None? then None else Judge(err.value, PartialSubErrors(err.value), threshold, false)
  }

  /** No error in the tree is one of the four categories. */
  ghost predicate NoCategory(e: Error) {
    forall n :: n in Nodes(e) ==> !n.Bulk? && !n.Search? && !n.Shard? && !n.MultiSearch?
  }

  lemma {:induction false} NoCategoryBelow(e: Error, i: nat)
    requires NoCategory(e) && i < |PartialSubErrors(e)|
    ensures PartialSuccessCounts(PartialSubErrors(e)[i]) == None
  {
    var sub := PartialSubErrors(e)[i];
    forall n | n in Nodes(sub) ensures n in Nodes(e) {
      SubErrorNodes(e, i, n);
    }
    AsFindsNode(BulkType, sub);
    AsFindsNode(SearchType, sub);
    AsFindsNode(ShardType, sub);
    AsFindsNode(MultiSearchType, sub);
  }

  lemma {:induction false} SubErrorNodes(e: Error, i: nat, n: Error)
    requires i < |PartialSubErrors(e)| && n in Nodes(PartialSubErrors(e)[i])
    ensures n in Nodes(e)
  {
    if PartialSubErrors(e) != [e] {
      MultiNodes(e, i, n);
    }
  }

  lemma {:induction false} MultiNodes(e: Error, i: nat, n: Error)
    requires As(MultiUnwrap, e).Some?
    requires i < |As(MultiUnwrap, e).value.errs| && n in Nodes(As(MultiUnwrap, e).value.errs[i])
    ensures n in Nodes(e)
    decreases e
  {
    if e.Wrap? {
      MultiNodes(e.inner, i, n);
    } else {
      NodesOfMember(e.errs, i, n);
    }
  }

  lemma {:induction false} JudgeNothing(err: Error, subs: seq<Error>, threshold: real)
    requires forall i :: 0 <= i < |subs| ==> PartialSuccessCounts(subs[i]) == None
    ensures Judge(err, subs, threshold, false) == Some(err)
  {
    if subs != [] {
      assert PartialSuccessCounts(subs[0]) == None;
      JudgeNothing(err, subs[1..], threshold);
    }
  }

  lemma {:induction false} PassedThrough(e: Error, threshold: real)
    requires NoCategory(e)
    ensures Required(Some(e), threshold) == Some(e)
  {
    forall i | 0 <= i < |PartialSubErrors(e)| ensures PartialSuccessCounts(PartialSubErrors(e)[i]) == None {
      NoCategoryBelow(e, i);
    }
    JudgeNothing(e, PartialSubErrors(e), threshold);
  }

  /** An error without a category in its tree, a non-partial one in particular, is returned unchanged. */
  method RequireSuccessRate(err: Option<Error>, threshold: real) returns (r: Option<Error>)
    ensures r == Required(err, threshold)
    ensures err.None? ==> r == None
    ensures err.Some? && NoCategory(err.value) ==> r == err
  {
    if err.Some? && NoCategory(err.value) {
      PassedThrough(err.value, threshold);
    }
    if err.None? {
      return None;
    }
    var matched := false;
    var subs := PartialSubErrors(err.value);
    assert subs[0..] == subs;
    for i := 0 to |subs|
      invariant Required(err, threshold) == Judge(err.value, subs[i..], threshold, matched)
    {
      assert subs[i..][1..] == subs[i + 1..];
      var counts := PartialSuccessCounts(subs[i]);
      if counts.None? {
        continue;
      }
      matched := true;
      if counts.value.total == 0 {
        return err;
      }
      if counts.value.succeeded as real / counts.value.total as real < threshold {
        return Some(Wrap(BELOW_THRESHOLD, err.value));
      }
    }
    if !matched {
      return err;
    }
    return None;
  }

  // ---------------------------------------------------------------------------
  // The verdict
  // ---------------------------------------------------------------------------

  predicate Counted(e: Error) {
    PartialSuccessCounts(e).Some?
  }

  ghost predicate AllClear(subs: seq<Error>, threshold: real) {
    forall i :: 0 <= i < |subs| && Counted(subs[i]) ==> Clears(PartialSuccessCounts(subs[i]).value, threshold)
  }

  lemma {:induction false} JudgeVerdict(err: Error, subs: seq<Error>, threshold: real, matched: bool)
    ensures Judge(err, subs, threshold, matched).None?
       <==> (matched || exists i :: 0 <= i < |subs| && Counted(subs[i])) && AllClear(subs, threshold)
    ensures Judge(err, subs, threshold, matched) in {None, Some(err), Some(Wrap(BELOW_THRESHOLD, err))}
  {
    if subs != [] {
      var rest := subs[1..];
      JudgeVerdict(err, rest, threshold, matched || Counted(subs[0]));
      if AllClear(subs, threshold) {
        forall i | 0 <= i < |rest| && Counted(rest[i])
          ensures Clears(PartialSuccessCounts(rest[i]).value, threshold)
        {
          assert rest[i] == subs[i + 1];
        }
      }
      if i :| 0 < i < |subs| && Counted(subs[i]) {
        assert Counted(rest[i - 1]);
      }
    }
  }

  /** The first category that does not clear decides what is returned: the error itself when it has no
      total to take a rate of, the error with the rate added otherwise. */
  lemma {:induction false} FirstFailureDecides(err: Error, subs: seq<Error>, threshold: real, matched: bool, i: nat)
    requires i < |subs| && Counted(subs[i]) && !Clears(PartialSuccessCounts(subs[i]).value, threshold)
    requires AllClear(subs[..i], threshold)
    ensures Judge(err, subs, threshold, matched)
         == Some(if PartialSuccessCounts(subs[i]).value.total == 0 then err else Wrap(BELOW_THRESHOLD, err))
  {
    if i > 0 {
      var rest := subs[1..];
      assert subs[..i][0] == subs[0];
      var head := rest[..i - 1];
      forall j | 0 <= j < |head| && Counted(head[j])
        ensures Clears(PartialSuccessCounts(head[j]).value, threshold)
      {
        assert head[j] == subs[..i][j + 1];
      }
      FirstFailureDecides(err, rest, threshold, matched || Counted(subs[0]), i - 1);
    }
  }

  /** Raising the threshold never turns a failure into a pass, whatever the tree. */
  lemma Antitone(err: Option<Error>, low: real, high: real)
    requires low <= high
    ensures Required(err, high).None? ==> Required(err, low).None?
  {
    if err.Some? {
      var subs := PartialSubErrors(err.value);
      JudgeVerdict(err.value, subs, low, false);
      JudgeVerdict(err.value, subs, high, false);
    }
  }

  // ---------------------------------------------------------------------------
  // Wrapping
  // ---------------------------------------------------------------------------

  function WrapIn(texts: seq<string>, e: Error): Error {
    if texts == [] then e else Wrap(texts[0], WrapIn(texts[1..], e))
  }

  lemma {:induction false} AsThroughWrappers(t: Target, texts: seq<string>, e: Error)
    ensures As(t, WrapIn(texts, e)) == As(t, e)
  {
    if texts != [] {
      AsThroughWrappers(t, texts[1..], e);
    }
  }

  lemma CountsThroughWrappers(texts: seq<string>, e: Error)
    ensures PartialSuccessCounts(WrapIn(texts, e)) == PartialSuccessCounts(e)
  {
    AsThroughWrappers(BulkType, texts, e);
    AsThroughWrappers(SearchType, texts, e);
    AsThroughWrappers(ShardType, texts, e);
    AsThroughWrappers(MultiSearchType, texts, e);
  }

  lemma AllClearSingle(e: Error, threshold: real)
    ensures AllClear([e], threshold) <==> Counted(e) ==> Clears(PartialSuccessCounts(e).value, threshold)
  {
    assert [e][0] == e;
  }

  /** Any chain of single-error wrappers leaves the verdict on any tree unchanged. */
  lemma VerdictThroughWrappers(texts: seq<string>, e: Error, threshold: real)
    ensures Required(Some(WrapIn(texts, e)), threshold).None? <==> Required(Some(e), threshold).None?
  {
    var w := WrapIn(texts, e);
    AsThroughWrappers(PartialFailure, texts, e);
    AsThroughWrappers(MultiUnwrap, texts, e);
    CountsThroughWrappers(texts, e);
    JudgeVerdict(w, PartialSubErrors(w), threshold, false);
    JudgeVerdict(e, PartialSubErrors(e), threshold, false);
    if PartialSubErrors(w) != PartialSubErrors(e) {
      AllClearSingle(w, threshold);
      AllClearSingle(e, threshold);
      assert [w][0] == w && [e][0] == e;
    }
  }

  /** Checking against two thresholds in turn is checking once against the lower one. */
  lemma TwoThresholds(err: Option<Error>, t1: real, t2: real)
    ensures Required(Required(err, t1), t2).None? <==> Required(err, if t1 <= t2 then t1 else t2).None?
  {
    var low, high := if t1 <= t2 then t1 else t2, if t1 <= t2 then t2 else t1;
    Antitone(err, low, high);
    if err.Some? && Required(err, t1).Some? {
      JudgeVerdict(err.value, PartialSubErrors(err.value), t1, false);
      VerdictThroughWrappers([BELOW_THRESHOLD], err.value, t2);
      assert WrapIn([BELOW_THRESHOLD], err.value) == Wrap(BELOW_THRESHOLD, err.value) by {
        assert [BELOW_THRESHOLD][1..] == [];
      }
    }
  }

  // ---------------------------------------------------------------------------
  // Errors the client itself produces
  // ---------------------------------------------------------------------------

  /** Requests of the category that succeeded: shards for the shard categories, items for the others. */
  function SucceededOf(e: Error): int
    requires IsCategory(e)
  {
    match e
    case Bulk(_, succeeded) => succeeded
    case MultiSearch(_, succeeded) => succeeded
    case Search(failedShards, totalShards, _) => totalShards - failedShards
    case Shard(_, failedShards, totalShards) => totalShards - failedShards
  }

  function FailedOf(e: Error): int
    requires IsCategory(e)
  {
    match e
    case Bulk(failed, _) => |failed|
    case MultiSearch(items, _) => |items|
    case Search(failedShards, _, _) => failedShards
    case Shard(_, failedShards, _) => failedShards
  }

  /** At least the given part of a non-empty category succeeded. */
  predicate Healthy(e: Error, threshold: real)
    requires IsCategory(e)
  {
    Reaches(SucceededOf(e), SucceededOf(e) + FailedOf(e), threshold)
  }

  lemma CountsOfLeaf(e: Error)
    requires IsLeaf(e)
    ensures PartialSuccessCounts(e)
         == if IsCategory(e) then Some(Counts(SucceededOf(e), SucceededOf(e) + FailedOf(e))) else None
  {
  }

  /** The categories in the order in which a tree is searched for them. */
  datatype Kind = BulkKind | SearchKind | ShardKind | MultiSearchKind

  function Rank(k: Kind): nat {
    match k case BulkKind => 0 case SearchKind => 1 case ShardKind => 2 case MultiSearchKind => 3
  }

  predicate OfKind(k: Kind, n: Error) {
    match k
    case BulkKind => n.Bulk?
    case SearchKind => n.Search?
    case ShardKind => n.Shard?
    case MultiSearchKind => n.MultiSearch?
  }

  function TargetOf(k: Kind): Target {
    match k
    case BulkKind => BulkType
    case SearchKind => SearchType
    case ShardKind => ShardType
    case MultiSearchKind => MultiSearchType
  }

  /** The first error of that kind in the tree. */
  ghost predicate FirstOf(e: Error, k: Kind, i: nat) {
    i < |Nodes(e)| && OfKind(k, Nodes(e)[i]) && forall j :: 0 <= j < i ==> !OfKind(k, Nodes(e)[j])
  }

  ghost predicate HasNo(e: Error, k: Kind) {
    forall n :: n in Nodes(e) ==> !OfKind(k, n)
  }

  lemma {:induction false} FirstMatchAt(t: Target, nodes: seq<Error>, i: nat)
    requires i < |nodes| && Matches(t, nodes[i]) && forall j :: 0 <= j < i ==> !Matches(t, nodes[j])
    ensures FirstMatch(t, nodes) == Some(nodes[i])
  {
    if i > 0 {
      FirstMatchAt(t, nodes[1..], i - 1);
    }
  }

  lemma {:induction false} AsIsFirstOf(e: Error, k: Kind, i: nat)
    requires FirstOf(e, k, i)
    ensures As(TargetOf(k), e) == Some(Nodes(e)[i])
  {
    AsIsFirstInPreOrder(TargetOf(k), e);
    FirstMatchAt(TargetOf(k), Nodes(e), i);
  }

  lemma {:induction false} AsFindsNone(e: Error, k: Kind)
    requires HasNo(e, k)
    ensures As(TargetOf(k), e) == None
  {
    AsFindsNode(TargetOf(k), e);
  }

  /** For every tree, the counts are those of its first bulk failure; without one, of its first search
      failure; then of its first shard failure; then of its first failed multi-search. */
  lemma {:induction false} CountsOfTree(e: Error, k: Kind, i: nat)
    requires FirstOf(e, k, i)
    requires forall k' :: Rank(k') < Rank(k) ==> HasNo(e, k')
    ensures PartialSuccessCounts(e)
         == match Nodes(e)[i]
            case Bulk(failed, succeeded) => Some(Counts(succeeded, succeeded + |failed|))
            case MultiSearch(items, succeeded) => Some(Counts(succeeded, succeeded + |items|))
            case Search(failed, total, _) => Some(Counts(total - failed, total))
            case Shard(_, failed, total) => Some(Counts(total - failed, total))
            case _ => None
  {
    AsIsFirstOf(e, k, i);
    if !k.BulkKind? {
      AsFindsNone(e, BulkKind);
    }
    if k.ShardKind? || k.MultiSearchKind? {
      AsFindsNone(e, SearchKind);
    }
    if k.MultiSearchKind? {
      AsFindsNone(e, ShardKind);
    }
  }

  /** The verdict on each bare category, in its own numbers. */
  lemma {:induction false} BareCategoryVerdicts(threshold: real, failed: int, total: int, operation: string,
                           failures: seq<ShardSearchFailure>, bulk: seq<BulkRespItem>,
                           items: seq<MultiSearchItemFailure>, succeeded: int)
    ensures Required(Some(Search(failed, total, failures)), threshold).None?
       <==> total != 0 && (total - failed) as real / total as real >= threshold
    ensures Required(Some(Shard(operation, failed, total)), threshold).None?
       <==> total != 0 && (total - failed) as real / total as real >= threshold
    ensures Required(Some(Bulk(bulk, succeeded)), threshold).None?
       <==> succeeded + |bulk| != 0 && succeeded as real / (succeeded + |bulk|) as real >= threshold
    ensures Required(Some(MultiSearch(items, succeeded)), threshold).None?
       <==> succeeded + |items| != 0 && succeeded as real / (succeeded + |items|) as real >= threshold
  {
    CategoryVerdict(Search(failed, total, failures), threshold);
    CategoryVerdict(Shard(operation, failed, total), threshold);
    CategoryVerdict(Bulk(bulk, succeeded), threshold);
    CategoryVerdict(MultiSearch(items, succeeded), threshold);
  }

  /** A joined or per-operation list of leaf errors passes exactly when it holds some category and
      every category in it is healthy; other errors in the list are not looked at. */
  lemma LeafListVerdict(e: Error, threshold: real)
    requires e.Join? || e.PerOpErrors?
    requires forall i :: 0 <= i < |e.errs| ==> IsLeaf(e.errs[i])
    ensures Required(Some(e), threshold).None?
       <==> && (exists i :: 0 <= i < |e.errs| && IsCategory(e.errs[i]))
            && (forall i :: 0 <= i < |e.errs| && IsCategory(e.errs[i]) ==> Healthy(e.errs[i], threshold))
  {
    forall i | 0 <= i < |e.errs|
      ensures Counted(e.errs[i]) <==> IsCategory(e.errs[i])
      ensures IsCategory(e.errs[i]) ==>
        (Clears(PartialSuccessCounts(e.errs[i]).value, threshold) <==> Healthy(e.errs[i], threshold))
    {
      CountsOfLeaf(e.errs[i]);
    }
    if IsPartialFailure(Some(e)) {
      JudgeVerdict(e, e.errs, threshold, false);
    } else {
      AsInFindsSome(PartialFailure, e.errs);
      assert forall i :: 0 <= i < |e.errs| ==> As(PartialFailure, e.errs[i]).None?;
      NothingCounted(e);
      JudgeVerdict(e, [e], threshold, false);
    }
  }

  lemma NothingCounted(e: Error)
    requires e.Join?
    requires forall i :: 0 <= i < |e.errs| ==> IsLeaf(e.errs[i]) && !IsCategory(e.errs[i])
    ensures !Counted(e)
  {
    AsInFindsSome(BulkType, e.errs);
    AsInFindsSome(SearchType, e.errs);
    AsInFindsSome(ShardType, e.errs);
    AsInFindsSome(MultiSearchType, e.errs);
  }

  /** A bare category. */
  lemma CategoryVerdict(e: Error, threshold: real)
    requires IsCategory(e)
    ensures Required(Some(e), threshold).None? <==> Healthy(e, threshold)
  {
    CountsOfLeaf(e);
    assert PartialSubErrors(e) == [e];
    JudgeVerdict(e, [e], threshold, false);
    AllClearSingle(e, threshold);
    assert Counted([e][0]);
  }

  /** The verdict on what a dispatch returns: nil passes, and any number of categories, bare, joined or
      in a per-operation wrapper, passes exactly when every one of them is healthy. */
  lemma DispatchVerdict(categories: seq<Error>, wrap: Option<PerOp>, threshold: real)
    requires forall i :: 0 <= i < |categories| ==> IsCategory(categories[i])
    ensures Required(CollapsePerOpErrors(categories, wrap), threshold).None?
       <==> forall i :: 0 <= i < |categories| ==> Healthy(categories[i], threshold)
  {
    if |categories| == 1 {
      var e := categories[0];
      CategoryVerdict(e, threshold);
      assert (forall i :: 0 <= i < |categories| ==> Healthy(categories[i], threshold)) <==> Healthy(e, threshold);
    } else if |categories| > 1 {
      LeafListVerdict(CollapsePerOpErrors(categories, wrap).value, threshold);
      assert IsCategory(categories[0]);
    }
  }
}
