/**
  The partial-failure error algebra: trees of Go errors searched the way errors.As searches them, the
  rule that collapses a list of sub-errors, and the helpers that flatten and judge them.
 */
module ErrorTree {
  import opened Options

  datatype BulkRespItem = BulkRespItem(index: string, status: int, error: Option<string>)

  /** Why a shard or a sub-query failed, carried through as it was decoded. */
  datatype ErrorCause = ErrorCause(text: string)

  datatype ShardSearchFailure = ShardSearchFailure(
    index: Option<string>, node: Option<string>, reason: ErrorCause, shard: int)

  datatype ErrorRespBase = ErrorRespBase(error: ErrorCause, status: int)

  datatype MultiSearchItemFailure = MultiSearchItemFailure(index: nat, envelope: ErrorRespBase)

  datatype PerOp = MSearch | MSearchTemplate

  datatype Error =
    | Opaque(id: nat)                                        // transport, HTTP or decode error
    | OtherPartial(id: nat)                                  // some other type with an IsPartial method
    | Bulk(failed: seq<BulkRespItem>, succeeded: int)
    | Search(failedShards: int, totalShards: int, failures: seq<ShardSearchFailure>)
    | Shard(operation: string, failedShards: int, totalShards: int)
    | MultiSearch(items: seq<MultiSearchItemFailure>, succeeded: int)
    | Wrap(text: string, inner: Error)                       // one error wrapped with more text
    | Join(errs: seq<Error>)                                 // errors.Join
    | PerOpErrors(op: PerOp, errs: seq<Error>)               // MSearchErrors, MSearchTemplateErrors

  // ---------------------------------------------------------------------------
  // errors.As
  // ---------------------------------------------------------------------------

  /** The types the helpers ask errors.As for. */
  datatype Target = PartialFailure | MultiUnwrap | BulkType | SearchType | ShardType | MultiSearchType

  predicate Matches(t: Target, e: Error) {
    match t
    case PartialFailure => e.OtherPartial? || IsCategory(e) || e.PerOpErrors?
    case MultiUnwrap => e.Join? || e.PerOpErrors?
    case BulkType => e.Bulk?
    case SearchType => e.Search?
    case ShardType => e.Shard?
    case MultiSearchType => e.MultiSearch?
  }

  /** One of the four concrete failure categories. */
  predicate IsCategory(e: Error) {
    e.Bulk? || e.Search? || e.Shard? || e.MultiSearch?
  }

  /** No error inside. */
  predicate IsLeaf(e: Error) {
    !e.Wrap? && !e.Join? && !e.PerOpErrors?
  }

  /** errors.As: the error itself, then what it wraps, depth first and left to right. */
  function As(t: Target, e: Error): (r: Option<Error>)
    ensures r.Some? ==> Matches(t, r.value)
    decreases e, 1
  {
    if Matches(t, e) then Some(e)
    else
      match e
      case Wrap(_, inner) => As(t, inner)
      case Join(errs) => AsIn(t, errs)
      case PerOpErrors(_, errs) => AsIn(t, errs)
      case _ => None
  }

  function AsIn(t: Target, errs: seq<Error>): (r: Option<Error>)
    ensures r.Some? ==> Matches(t, r.value)
    decreases errs, 0
  {
    if errs == [] then None
    else
      var first := As(t, errs[0]);
      if first.Some? then first else AsIn(t, errs[1..])
  }

  /** Every error of the tree, in pre-order. */
  function Nodes(e: Error): seq<Error>
    decreases e, 1
  {
    [e] + match e
          case Wrap(_, inner) => Nodes(inner)
          case Join(errs) => NodesOf(errs)
          case PerOpErrors(_, errs) => NodesOf(errs)
          case _ => []
  }

  function NodesOf(errs: seq<Error>): seq<Error>
    decreases errs, 0
  {
    if errs == [] then [] else Nodes(errs[0]) + NodesOf(errs[1..])
  }

  function FirstMatch(t: Target, nodes: seq<Error>): Option<Error> {
    if nodes == [] then None
    else if Matches(t, nodes[0]) then Some(nodes[0])
    else FirstMatch(t, nodes[1..])
  }

  lemma {:induction false} FirstMatchOfConcat(t: Target, a: seq<Error>, b: seq<Error>)
    ensures FirstMatch(t, a + b) == if FirstMatch(t, a).Some? then FirstMatch(t, a) else FirstMatch(t, b)
  {
    if a == [] {
      assert a + b == b;
    } else {
      assert (a + b)[1..] == a[1..] + b;
      FirstMatchOfConcat(t, a[1..], b);
    }
  }

  /** The search finds the first match of the pre-order listing. */
  lemma {:induction false} AsIsFirstInPreOrder(t: Target, e: Error)
    ensures As(t, e) == FirstMatch(t, Nodes(e))
    decreases e, 1
  {
    assert Nodes(e)[0] == e;
    var below := Nodes(e)[1..];
    match e
    case Wrap(_, inner) =>
      AsIsFirstInPreOrder(t, inner);
      assert below == Nodes(inner);
    case Join(errs) =>
      AsInIsFirstInPreOrder(t, errs);
      assert below == NodesOf(errs);
    case PerOpErrors(_, errs) =>
      AsInIsFirstInPreOrder(t, errs);
      assert below == NodesOf(errs);
    case _ =>
      assert below == [];
  }

  lemma {:induction false} AsInIsFirstInPreOrder(t: Target, errs: seq<Error>)
    ensures AsIn(t, errs) == FirstMatch(t, NodesOf(errs))
    decreases errs, 0
  {
    if errs != [] {
      AsIsFirstInPreOrder(t, errs[0]);
      AsInIsFirstInPreOrder(t, errs[1..]);
      FirstMatchOfConcat(t, Nodes(errs[0]), NodesOf(errs[1..]));
    }
  }

  /** The search takes the error itself if it matches; otherwise it looks below, and of several branches into
      the leftmost one with a match. */
  lemma {:induction false} AsGoesLeft(t: Target, e: Error, errs: seq<Error>, i: nat)
    requires i < |errs| && As(t, errs[i]).Some? && forall j :: 0 <= j < i ==> As(t, errs[j]).None?
    ensures Matches(t, e) ==> As(t, e) == Some(e)
    ensures !Matches(t, e) && (e.Join? || e.PerOpErrors?) && e.errs == errs ==> As(t, e) == As(t, errs[i])
    ensures !Matches(t, e) && e.Wrap? ==> As(t, e) == As(t, e.inner)
  {
    AsInGoesLeft(t, errs, i);
  }

  lemma {:induction false} AsInGoesLeft(t: Target, errs: seq<Error>, i: nat)
    requires i < |errs| && As(t, errs[i]).Some? && forall j :: 0 <= j < i ==> As(t, errs[j]).None?
    ensures AsIn(t, errs) == As(t, errs[i])
  {
    if i > 0 {
      AsInGoesLeft(t, errs[1..], i - 1);
    }
  }

  lemma {:induction false} FirstMatchExists(t: Target, nodes: seq<Error>)
    ensures FirstMatch(t, nodes).Some? <==> exists i :: 0 <= i < |nodes| && Matches(t, nodes[i])
  {
    if nodes != [] {
      FirstMatchExists(t, nodes[1..]);
      if i :| 0 < i < |nodes| && Matches(t, nodes[i]) {
        assert Matches(t, nodes[1..][i - 1]);
      }
    }
  }

  lemma {:induction false} FirstMatchIsNode(t: Target, nodes: seq<Error>)
    ensures FirstMatch(t, nodes).Some? ==> FirstMatch(t, nodes).value in nodes
    ensures FirstMatch(t, nodes).None? ==> forall c :: c in nodes ==> !Matches(t, c)
  {
    if nodes != [] {
      FirstMatchIsNode(t, nodes[1..]);
    }
  }

  lemma {:induction false} AsFindsNode(t: Target, e: Error)
    ensures As(t, e).Some? ==> As(t, e).value in Nodes(e)
    ensures As(t, e).None? ==> forall c :: c in Nodes(e) ==> !Matches(t, c)
  {
    AsIsFirstInPreOrder(t, e);
    FirstMatchIsNode(t, Nodes(e));
  }

  lemma {:induction false} NodesOfMember(errs: seq<Error>, i: nat, c: Error)
    requires i < |errs| && c in Nodes(errs[i])
    ensures c in NodesOf(errs)
  {
    if i > 0 {
      NodesOfMember(errs[1..], i - 1, c);
    }
  }

  lemma {:induction false} MemberOfNodes(errs: seq<Error>, c: Error) returns (i: nat)
    requires c in NodesOf(errs)
    ensures i < |errs| && c in Nodes(errs[i])
  {
    i := 0;
    if c !in Nodes(errs[0]) {
      var k := MemberOfNodes(errs[1..], c);
      i := k + 1;
    }
  }

  // ---------------------------------------------------------------------------
  // The helpers
  // ---------------------------------------------------------------------------

  function CollapsePerOpErrors(errs: seq<Error>, wrap: Option<PerOp>): Option<Error> {
    if |errs| == 0 then None
    else if |errs| == 1 then Some(errs[0])
    else if wrap.Some? then Some(PerOpErrors(wrap.value, errs))
    else Some(Join(errs))
  }

  predicate IsPartialFailure(err: Option<Error>) {
    err.Some? && As(PartialFailure, err.value).Some?
  }

  function PartialSubErrors(e: Error): seq<Error> {
    if IsPartialFailure(Some(e)) && As(MultiUnwrap, e).Some? then As(MultiUnwrap, e).value.errs
    else [e]
  }

  function Errors(err: Option<Error>): seq<Error> {
    if err.None? then [] else PartialSubErrors(err.value)
  }

  function ToleratePartialFailures(err: Option<Error>): Option<Error> {
    if IsPartialFailure(err) then None else err
  }

  datatype Counts = Counts(succeeded: int, total: int)

  function PartialSuccessCounts(e: Error): Option<Counts> {
    if As(BulkType, e).Some? then
      var b := As(BulkType, e).value;
      Some(Counts(b.succeeded, b.succeeded + |b.failed|))
    else if As(SearchType, e).Some? then
      var s := As(SearchType, e).value;
      Some(Counts(s.totalShards - s.failedShards, s.totalShards))
    else if As(ShardType, e).Some? then
      var s := As(ShardType, e).value;
      Some(Counts(s.totalShards - s.failedShards, s.totalShards))
    else if As(MultiSearchType, e).Some? then
      var m := As(MultiSearchType, e).value;
      Some(Counts(m.succeeded, m.succeeded + |m.items|))
    else None
  }

  /** The tolerated outcome is nil exactly when some error in the tree is a partial failure, even if
      a transport error is joined beside it. */
  lemma ToleratedIffSomePartialNode(e: Error)
    ensures ToleratePartialFailures(Some(e)).None?
       <==> exists i :: 0 <= i < |Nodes(e)| && Matches(PartialFailure, Nodes(e)[i])
    ensures ToleratePartialFailures(Some(e)).Some? ==> ToleratePartialFailures(Some(e)).value == e
  {
    AsIsFirstInPreOrder(PartialFailure, e);
    FirstMatchExists(PartialFailure, Nodes(e));
  }

  /** The partial failures are the four categories, the per-operation errors, and foreign types that say so. */
  predicate SaysPartial(e: Error) {
    match e
    case Bulk(_, _) => true
    case Search(_, _, _) => true
    case Shard(_, _, _) => true
    case MultiSearch(_, _) => true
    case PerOpErrors(_, _) => true
    case OtherPartial(_) => true
    case Opaque(_) => false
    case Wrap(_, _) => false
    case Join(_) => false
  }

  /** An error is partial exactly when some error in its tree says so; nil is not. */
  lemma PartialIffSomeNodeSaysSo(e: Error)
    ensures IsPartialFailure(Some(e)) <==> exists n :: n in Nodes(e) && SaysPartial(n)
    ensures !IsPartialFailure(None) && ToleratePartialFailures(None) == None
  {
    AsFindsNode(PartialFailure, e);
    assert forall n :: SaysPartial(n) <==> Matches(PartialFailure, n);
  }

  // ---------------------------------------------------------------------------
  // Flattening undoes collapsing
  // ---------------------------------------------------------------------------

  lemma AsInFindsSome(t: Target, errs: seq<Error>)
    ensures AsIn(t, errs).Some? <==> exists i :: 0 <= i < |errs| && As(t, errs[i]).Some?
  {
    if errs != [] {
      AsInFindsSome(t, errs[1..]);
      if i :| 0 < i < |errs| && As(t, errs[i]).Some? {
        assert As(t, errs[1..][i - 1]).Some?;
      }
    }
  }

  /** `Errors` gives back the list that was collapsed exactly when the list is empty, or has one
      error that does not itself carry a partial failure inside a multi-error, or has several errors
      and either a per-operation wrapper or a partial failure among them. */
  lemma FlattenUndoesCollapse(errs: seq<Error>, wrap: Option<PerOp>)
    ensures Errors(CollapsePerOpErrors(errs, wrap)) == errs
       <==> || |errs| == 0
            || (|errs| == 1 && !(IsPartialFailure(Some(errs[0])) && As(MultiUnwrap, errs[0]).Some?))
            || (|errs| > 1 && (wrap.Some? || exists i :: 0 <= i < |errs| && IsPartialFailure(Some(errs[i]))))
  {
    if |errs| == 1 {
      assert errs == [errs[0]];
      SubErrorsAreSmaller(errs[0]);
    } else if |errs| > 1 && wrap.None? {
      AsInFindsSome(PartialFailure, errs);
    }
  }

  /** Collapsing keeps the sub-errors as they are, under the operation they came from. */
  lemma CollapsedShape(errs: seq<Error>, op: PerOp)
    ensures errs == [] ==> CollapsePerOpErrors(errs, None) == None == CollapsePerOpErrors(errs, Some(op))
    ensures |errs| == 1 ==> CollapsePerOpErrors(errs, None) == Some(errs[0]) == CollapsePerOpErrors(errs, Some(op))
    ensures |errs| > 1 ==> CollapsePerOpErrors(errs, Some(op)) == Some(PerOpErrors(op, errs))
    ensures |errs| > 1 ==> CollapsePerOpErrors(errs, None) == Some(Join(errs))
  {
  }

  /** A multi-error is never one of its own sub-errors. */
  lemma SubErrorsAreSmaller(e: Error)
    ensures As(MultiUnwrap, e).Some? ==> As(MultiUnwrap, e).value.errs != [e]
  {
    FoundIsMultiInside(e);
    assert [e][1..] == [];
    assert SizeOf([e]) == Size(e) + SizeOf([]);
  }

  function Size(e: Error): nat
    decreases e, 1
  {
    1 + match e
        case Wrap(_, inner) => Size(inner)
        case Join(errs) => SizeOf(errs)
        case PerOpErrors(_, errs) => SizeOf(errs)
        case _ => 0
  }

  function SizeOf(errs: seq<Error>): nat
    decreases errs, 0
  {
    if errs == [] then 0 else Size(errs[0]) + SizeOf(errs[1..])
  }

  lemma {:induction false} FoundIsMultiInside(e: Error)
    ensures As(MultiUnwrap, e).Some? ==> SizeOf(As(MultiUnwrap, e).value.errs) < Size(e)
    decreases e, 1
  {
    if e.Wrap? {
      FoundIsMultiInside(e.inner);
    }
  }

  /** The documented case: several categories of one response always come back as they were. */
  lemma CategoriesSurviveCollapse(errs: seq<Error>, wrap: Option<PerOp>)
    requires forall i :: 0 <= i < |errs| ==> IsCategory(errs[i])
    ensures Errors(CollapsePerOpErrors(errs, wrap)) == errs
  {
    FlattenUndoesCollapse(errs, wrap);
    if |errs| > 1 {
      assert IsPartialFailure(Some(errs[0]));
    }
  }

  /** Under single-error wrappers a multi-error that carries a partial failure is still flattened to its
      sub-errors; an error that carries none, or holds no multi-error, is kept whole. */
  lemma {:induction false} ErrorsThroughWrap(text: string, e: Error)
    ensures IsPartialFailure(Some(e)) && As(MultiUnwrap, e).Some? ==> Errors(Some(Wrap(text, e))) == Errors(Some(e))
    ensures IsPartialFailure(Some(e)) && (e.Join? || e.PerOpErrors?) ==> Errors(Some(e)) == e.errs
    ensures !IsPartialFailure(Some(e)) || As(MultiUnwrap, e).None? ==> Errors(Some(e)) == [e]
    ensures Errors(None) == []
  {
  }
}
