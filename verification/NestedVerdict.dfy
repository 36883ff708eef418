/**
  The success-rate verdict on arbitrary error trees. The documentation promises that an error passes only
  when every failure category it carries clears the threshold. Of each sub-error of the outermost
  multi-error the code looks at one category, so the promise holds exactly of the trees whose other
  categories are no worse than one it looked at.
 */
module NestedVerdict {
  import opened Options
  import opened ErrorTree
  import opened SuccessRate

  // ---------------------------------------------------------------------------
  // Which categories a tree carries, and which are looked at
  // ---------------------------------------------------------------------------

  predicate Carries(e: Error, c: Error) {
    c in Nodes(e) && IsCategory(c)
  }

  /** What the documentation promises to check. */
  ghost predicate AllHealthy(e: Error, threshold: real) {
    && (exists c :: Carries(e, c))
    && (forall c :: Carries(e, c) ==> Healthy(c, threshold))
  }

  /** The category whose counts decide for a sub-error: the first of the first kind it carries. */
  function Pick(e: Error): Option<Error> {
    if As(BulkType, e).Some? then As(BulkType, e)
    else if As(SearchType, e).Some? then As(SearchType, e)
    else if As(ShardType, e).Some? then As(ShardType, e)
    else As(MultiSearchType, e)
  }

  lemma {:induction false} PickIsCarried(e: Error)
    ensures Counted(e) <==> Pick(e).Some?
    ensures Pick(e).Some? ==>
      Carries(e, Pick(e).value) && PartialSuccessCounts(e) == PartialSuccessCounts(Pick(e).value)
    ensures Pick(e).None? ==> forall c :: !Carries(e, c)
  {
    AsFindsNode(BulkType, e);
    AsFindsNode(SearchType, e);
    AsFindsNode(ShardType, e);
    AsFindsNode(MultiSearchType, e);
  }

  /** A sub-error clears exactly when the category picked for it is healthy. */
  lemma {:induction false} ClearsIffPickHealthy(e: Error, threshold: real)
    requires Counted(e)
    ensures Pick(e).Some? && Carries(e, Pick(e).value)
    ensures Clears(PartialSuccessCounts(e).value, threshold) <==> Healthy(Pick(e).value, threshold)
  {
    PickIsCarried(e);
    CountsOfLeaf(Pick(e).value);
  }

  /** Below the outermost multi-error there is everything but wrappers. */
  lemma {:induction false} CarriedByMulti(e: Error, c: Error)
    requires As(MultiUnwrap, e).Some?
    ensures Carries(e, c) <==> IsCategory(c) && c in NodesOf(As(MultiUnwrap, e).value.errs)
    decreases e
  {
    if e.Wrap? {
      CarriedByMulti(e.inner, c);
    }
  }

  /** A category of the tree is carried by one of the sub-errors that are judged. */
  lemma {:induction false} CarriedBySubError(e: Error, c: Error)
    ensures Carries(e, c) <==> exists i :: 0 <= i < |PartialSubErrors(e)| && Carries(PartialSubErrors(e)[i], c)
  {
    var subs := PartialSubErrors(e);
    if IsPartialFailure(Some(e)) && As(MultiUnwrap, e).Some? {
      CarriedByMulti(e, c);
      if Carries(e, c) {
        var i := MemberOfNodes(subs, c);
        assert Carries(subs[i], c);
      } else if i :| 0 <= i < |subs| && Carries(subs[i], c) {
        NodesOfMember(subs, i, c);
      }
    } else {
      assert subs == [e];
      assert Carries(e, c) ==> Carries(subs[0], c);
    }
  }

  // ---------------------------------------------------------------------------
  // The verdict
  // ---------------------------------------------------------------------------

  /** `p` is looked at. */
  ghost predicate Judged(e: Error, p: Error) {
    exists i :: 0 <= i < |PartialSubErrors(e)| && Pick(PartialSubErrors(e)[i]) == Some(p)
  }

  lemma {:induction false} JudgedIsCarried(e: Error, p: Error)
    requires Judged(e, p)
    ensures Carries(e, p)
  {
    var i :| 0 <= i < |PartialSubErrors(e)| && Pick(PartialSubErrors(e)[i]) == Some(p);
    PickIsCarried(PartialSubErrors(e)[i]);
    CarriedBySubError(e, p);
  }

  /** Something is looked at whenever there is something to look at. */
  lemma {:induction false} SomeJudgedIffSomeCarried(e: Error)
    ensures (exists p :: Judged(e, p)) <==> (exists c :: Carries(e, c))
  {
    if p :| Judged(e, p) {
      JudgedIsCarried(e, p);
    }
    if c :| Carries(e, c) {
      CarriedBySubError(e, c);
      var i :| 0 <= i < |PartialSubErrors(e)| && Carries(PartialSubErrors(e)[i], c);
      PickIsCarried(PartialSubErrors(e)[i]);
      assert Judged(e, Pick(PartialSubErrors(e)[i]).value);
    }
  }

  /** For every tree, the check passes exactly when some category is looked at and all of those are
      healthy. */
  lemma {:induction false} VerdictOfJudged(e: Error, threshold: real)
    ensures Required(Some(e), threshold).None?
       <==> && (exists p :: Judged(e, p))
            && (forall p :: Judged(e, p) ==> IsCategory(p) && Healthy(p, threshold))
  {
    var subs := PartialSubErrors(e);
    JudgeVerdict(e, subs, threshold, false);
    forall i | 0 <= i < |subs| && Counted(subs[i])
      ensures Pick(subs[i]).Some? && IsCategory(Pick(subs[i]).value) && Judged(e, Pick(subs[i]).value)
      ensures Clears(PartialSuccessCounts(subs[i]).value, threshold) <==> Healthy(Pick(subs[i]).value, threshold)
    {
      ClearsIffPickHealthy(subs[i], threshold);
    }
    forall i | 0 <= i < |subs| ensures Counted(subs[i]) <==> Pick(subs[i]).Some? {
      PickIsCarried(subs[i]);
    }
    forall p | Judged(e, p) ensures exists i :: 0 <= i < |subs| && Counted(subs[i]) && Pick(subs[i]) == Some(p) {
      var i :| 0 <= i < |subs| && Pick(subs[i]) == Some(p);
      assert Counted(subs[i]);
    }
  }

  /** For every tree: what is healthy throughout passes. */
  lemma {:induction false} HealthyTreesPass(e: Error, threshold: real)
    requires AllHealthy(e, threshold)
    ensures Required(Some(e), threshold).None?
  {
    VerdictOfJudged(e, threshold);
    SomeJudgedIffSomeCarried(e);
    forall p | Judged(e, p) ensures IsCategory(p) && Healthy(p, threshold) {
      JudgedIsCarried(e, p);
    }
  }

  // ---------------------------------------------------------------------------
  // When the verdict is the promised one
  // ---------------------------------------------------------------------------

  function Total(c: Error): int
    requires IsCategory(c)
  {
    SucceededOf(c) + FailedOf(c)
  }

  function Rate(c: Error): real
    requires IsCategory(c) && Total(c) != 0
  {
    SucceededOf(c) as real / Total(c) as real
  }

  /** `p` is looked at and has a rate that is no better than that of `c`. */
  ghost predicate Covers(e: Error, p: Error, c: Error) {
    && Judged(e, p) && IsCategory(p) && IsCategory(c)
    && Total(p) != 0 && Total(c) != 0 && Rate(p) <= Rate(c)
  }

  /** A category without a total is looked at, so the error never passes; or every category of the tree is
      covered. */
  ghost predicate Covered(e: Error) {
    || (exists p :: Judged(e, p) && IsCategory(p) && Total(p) == 0)
    || (forall c :: Carries(e, c) ==> exists p :: Covers(e, p, c))
  }

  lemma {:induction false} NoTotalNeverPasses(e: Error, p: Error, threshold: real)
    requires Judged(e, p) && IsCategory(p) && Total(p) == 0
    ensures Required(Some(e), threshold).Some? && !AllHealthy(e, threshold)
  {
    VerdictOfJudged(e, threshold);
    JudgedIsCarried(e, p);
    assert !Healthy(p, threshold);
  }

  lemma {:induction false} CoveredIsHealthy(e: Error, c: Error, threshold: real)
    requires Required(Some(e), threshold).None? && Carries(e, c) && exists p :: Covers(e, p, c)
    ensures Healthy(c, threshold)
  {
    VerdictOfJudged(e, threshold);
    var p :| Covers(e, p, c);
    assert Healthy(p, threshold);
  }

  lemma {:induction false} CoveredVerdict(e: Error, threshold: real)
    requires Covered(e)
    ensures Required(Some(e), threshold).None? <==> AllHealthy(e, threshold)
  {
    if p :| Judged(e, p) && IsCategory(p) && Total(p) == 0 {
      NoTotalNeverPasses(e, p, threshold);
    } else {
      if Required(Some(e), threshold).None? {
        VerdictOfJudged(e, threshold);
        SomeJudgedIffSomeCarried(e);
        forall c | Carries(e, c) ensures Healthy(c, threshold) {
          CoveredIsHealthy(e, c, threshold);
        }
      }
      if AllHealthy(e, threshold) {
        HealthyTreesPass(e, threshold);
      }
    }
  }

  /** The worst rate among the first `n` sub-errors that are looked at. */
  lemma {:induction false} WorstJudged(e: Error, n: nat) returns (worst: Option<Error>)
    requires n <= |PartialSubErrors(e)|
    requires forall p :: Judged(e, p) ==> IsCategory(p) && Total(p) != 0
    ensures worst.Some? ==> Judged(e, worst.value)
    ensures forall i :: 0 <= i < n && Pick(PartialSubErrors(e)[i]).Some? ==>
      && worst.Some? && Judged(e, Pick(PartialSubErrors(e)[i]).value)
      && Rate(worst.value) <= Rate(Pick(PartialSubErrors(e)[i]).value)
  {
    worst := None;
    if n > 0 {
      worst := WorstJudged(e, n - 1);
      var pick := Pick(PartialSubErrors(e)[n - 1]);
      if pick.Some? {
        assert Judged(e, pick.value);
        if worst.None? || Rate(pick.value) < Rate(worst.value) {
          worst := pick;
        }
      }
    }
  }

  /** At the worst rate that is looked at the check passes, so an uncovered category is let through. */
  lemma {:induction false} UncoveredPasses(e: Error) returns (threshold: real)
    requires !Covered(e)
    ensures Required(Some(e), threshold).None? && !AllHealthy(e, threshold)
  {
    var subs := PartialSubErrors(e);
    var c :| Carries(e, c) && !exists p :: Covers(e, p, c);
    SomeJudgedIffSomeCarried(e);
    forall p | Judged(e, p) ensures IsCategory(p) && Total(p) != 0 {
      JudgedIsCarried(e, p);
    }
    var worst := WorstJudged(e, |subs|);
    var q :| Judged(e, q);
    assert worst.Some?;
    threshold := Rate(worst.value);
    forall p | Judged(e, p) ensures Healthy(p, threshold) {
      var i :| 0 <= i < |subs| && Pick(subs[i]) == Some(p);
    }
    VerdictOfJudged(e, threshold);
    if Healthy(c, threshold) {
      assert Covers(e, worst.value, c);
    }
  }

  /** For every tree: the check gives the promised verdict at every threshold exactly when the categories
      it does not look at are covered by those it does. */
  lemma {:induction false} VerdictIsPromisedIffCovered(e: Error)
    ensures (forall t: real :: Required(Some(e), t).None? <==> AllHealthy(e, t)) <==> Covered(e)
  {
    if Covered(e) {
      forall t: real ensures Required(Some(e), t).None? <==> AllHealthy(e, t) {
        CoveredVerdict(e, t);
      }
    } else {
      var t := UncoveredPasses(e);
    }
  }

  /** No sub-error of the outermost multi-error carries two different categories. */
  ghost predicate OneCategoryEach(e: Error) {
    forall i, c, d ::
      0 <= i < |PartialSubErrors(e)| && Carries(PartialSubErrors(e)[i], c) && Carries(PartialSubErrors(e)[i], d)
      ==> c == d
  }

  /** Then the verdict is the promised one, however deep the wrappers and joins are nested. */
  lemma {:induction false} OneCategoryEachIsCovered(e: Error)
    requires OneCategoryEach(e)
    ensures Covered(e)
  {
    var subs := PartialSubErrors(e);
    forall c | Carries(e, c) ensures Judged(e, c) {
      CarriedBySubError(e, c);
      var i :| 0 <= i < |subs| && Carries(subs[i], c);
      PickIsCarried(subs[i]);
      assert Pick(subs[i]) == Some(c);
    }
    if forall p :: Judged(e, p) && IsCategory(p) ==> Total(p) != 0 {
      forall c | Carries(e, c) ensures exists p :: Covers(e, p, c) {
        assert Covers(e, c, c);
      }
    }
  }

  lemma {:induction false} WrappedCarries(texts: seq<string>, e: Error, c: Error)
    ensures Carries(WrapIn(texts, e), c) <==> Carries(e, c)
  {
    if texts != [] {
      WrappedCarries(texts[1..], e, c);
    }
  }

  /** What a dispatch returns, inside any chain of single-error wrappers, is such a tree. */
  lemma {:induction false} DispatchIsCovered(categories: seq<Error>, wrap: Option<PerOp>, texts: seq<string>)
    requires categories != [] && forall i :: 0 <= i < |categories| ==> IsCategory(categories[i])
    ensures Covered(WrapIn(texts, CollapsePerOpErrors(categories, wrap).value))
  {
    var e := CollapsePerOpErrors(categories, wrap).value;
    var w := WrapIn(texts, e);
    CategoriesSurviveCollapse(categories, wrap);
    AsThroughWrappers(PartialFailure, texts, e);
    AsThroughWrappers(MultiUnwrap, texts, e);
    var subs := PartialSubErrors(w);
    assert subs == categories || (|categories| == 1 && subs == [w]);
    forall i, c | 0 <= i < |subs| && Carries(subs[i], c)
      ensures c == categories[i]
    {
      if subs != categories {
        WrappedCarries(texts, e, c);
      }
      assert Nodes(categories[i]) == [categories[i]];
    }
    OneCategoryEachIsCovered(w);
  }

  /** A multi-error inside a join of its own is judged by one category. */
  lemma {:induction false} JoinedVerdict(inner: Error, threshold: real)
    requires Counted(inner)
    ensures Required(Some(Join([inner])), threshold).None? <==> Clears(PartialSuccessCounts(inner).value, threshold)
  {
    PickIsCarried(inner);
    AsFindsNode(PartialFailure, inner);
    assert [inner][0] == inner && Matches(PartialFailure, Pick(inner).value);
    AsInFindsSome(PartialFailure, [inner]);
    assert PartialSubErrors(Join([inner])) == [inner];
    JudgeVerdict(Join([inner]), [inner], threshold, false);
    AllClearSingle(inner, threshold);
    assert Counted([inner][0]);
  }

  lemma {:induction false} CarriedInside(errs: seq<Error>, i: nat, op: PerOp)
    requires i < |errs| && IsCategory(errs[i])
    ensures Carries(PerOpErrors(op, errs), errs[i]) && Carries(Join([PerOpErrors(op, errs)]), errs[i])
  {
    var inner := PerOpErrors(op, errs);
    assert errs[i] in Nodes(errs[i]);
    NodesOfMember(errs, i, errs[i]);
    NodesOfMember([inner], 0, errs[i]);
  }

  lemma {:induction false} CountsOfPair(op: PerOp, search: Error, failed: Error)
    requires search.Search? && failed.MultiSearch?
    ensures PartialSuccessCounts(PerOpErrors(op, [search, failed])) == PartialSuccessCounts(search)
  {
    var errs := [search, failed];
    assert As(BulkType, errs[0]).None? && As(BulkType, errs[1]).None?;
    AsInFindsSome(BulkType, errs);
    assert AsIn(SearchType, errs) == As(SearchType, errs[0]);
  }

  /** Joining a multi-search error once more hides one of its categories: nine of ten shards answered, all
      sub-queries failed, and the joined error passes a threshold of one half. */
  lemma {:induction false} NestedFailureIsHidden(items: seq<MultiSearchItemFailure>)
    requires items != []
    ensures var inner := PerOpErrors(MSearch, [Search(1, 10, []), MultiSearch(items, 0)]);
            && Required(Some(inner), 0.5).Some?
            && Required(Some(Join([inner])), 0.5).None? && !AllHealthy(Join([inner]), 0.5)
  {
    var search, failed := Search(1, 10, []), MultiSearch(items, 0);
    var errs := [search, failed];
    LeafListVerdict(PerOpErrors(MSearch, errs), 0.5);
    assert errs[1] == failed && !Healthy(failed, 0.5);
    CarriedInside(errs, 1, MSearch);
    CountsOfPair(MSearch, search, failed);
    CountsOfLeaf(search);
    JoinedVerdict(PerOpErrors(MSearch, errs), 0.5);
  }
}
