/**
  How a response's failures become the returned error: the bulk and multi-search detectors, the mask
  that gates them, and the verdict of a success-rate check on the result, end to end.
 */
module PartialFailures {
  import opened Options
  import opened Text
  import opened ErrorMask
  import opened MaskLaws
  import opened MaskTable
  import opened ErrorTree
  import opened SuccessRate

  // ---------------------------------------------------------------------------
  // Bulk
  // ---------------------------------------------------------------------------

  datatype BulkItem = BulkItem(
    create: Option<BulkRespItem>,
    delete: Option<BulkRespItem>,
    index: Option<BulkRespItem>,
    update: Option<BulkRespItem>)

  datatype BulkResp = BulkResp(errors: bool, items: seq<BulkItem>)

  /** The filled slots of a list, in order. */
  function Filled(ops: seq<Option<BulkRespItem>>): seq<BulkRespItem> {
    if ops == [] then []
    else if ops[|ops| - 1].None? then Filled(ops[..|ops| - 1])
    else Filled(ops[..|ops| - 1]) + [ops[|ops| - 1].value]
  }

  /** The operation slots of an item, in the order they are scanned. */
  function Ops(item: BulkItem): seq<Option<BulkRespItem>> {
    [item.create, item.delete, item.index, item.update]
  }

  function Slots(items: seq<BulkItem>): seq<BulkRespItem> {
    if items == [] then [] else Slots(items[..|items| - 1]) + Filled(Ops(items[|items| - 1]))
  }

  /** The sub-sequence of slots that carry an error. */
  function Failing(slots: seq<BulkRespItem>): seq<BulkRespItem> {
    if slots == [] then []
    else if slots[|slots| - 1].error.Some? then Failing(slots[..|slots| - 1]) + [slots[|slots| - 1]]
    else Failing(slots[..|slots| - 1])
  }

  lemma FailingOfAppend(slots: seq<BulkRespItem>, slot: BulkRespItem)
    ensures Failing(slots + [slot]) == if slot.error.Some? then Failing(slots) + [slot] else Failing(slots)
  {
    assert (slots + [slot])[..|slots|] == slots;
  }

  /** The failed slots in order, and how many slots did not fail. */
  function BulkFailures(r: Option<BulkResp>): Option<Error> {
    if r.None? || !r.value.errors then None
    else
      var slots := Slots(r.value.items);
      if Failing(slots) == [] then None else Some(Bulk(Failing(slots), |slots| - |Failing(slots)|))
  }

  lemma NextSlot(before: seq<BulkRespItem>, ops: seq<Option<BulkRespItem>>, j: nat)
    requires j < |ops|
    ensures before + Filled(ops[..j + 1])
         == if ops[j].None? then before + Filled(ops[..j]) else before + Filled(ops[..j]) + [ops[j].value]
  {
    assert ops[..j + 1][..j] == ops[..j];
  }

  lemma NextItem(items: seq<BulkItem>, i: nat)
    requires i < |items|
    ensures Slots(items[..i + 1]) == Slots(items[..i]) + Filled(Ops(items[i]))
  {
    assert items[..i + 1][..i] == items[..i];
  }

  // The same said on the four fields of the items.

  predicate Failed(slot: Option<BulkRespItem>) {
    slot.Some? && slot.value.error.Some?
  }

  predicate ItemFailed(item: BulkItem) {
    Failed(item.create) || Failed(item.delete) || Failed(item.index) || Failed(item.update)
  }

  function IfFailed(slot: Option<BulkRespItem>): seq<BulkRespItem> {
    if Failed(slot) then [slot.value] else []
  }

  /** Item by item, and within an item in the order create, delete, index, update. */
  function FailedFields(items: seq<BulkItem>): seq<BulkRespItem> {
    if items == [] then []
    else
      var first := items[0];
      IfFailed(first.create) + IfFailed(first.delete) + IfFailed(first.index) + IfFailed(first.update)
      + FailedFields(items[1..])
  }

  function IfFilled(slot: Option<BulkRespItem>): nat {
    if slot.Some? then 1 else 0
  }

  function FilledFields(items: seq<BulkItem>): nat {
    if items == [] then 0
    else
      var first := items[0];
      IfFilled(first.create) + IfFilled(first.delete) + IfFilled(first.index) + IfFilled(first.update)
      + FilledFields(items[1..])
  }

  lemma {:induction false} FailingOfConcat(a: seq<BulkRespItem>, b: seq<BulkRespItem>)
    ensures Failing(a + b) == Failing(a) + Failing(b)
  {
    if b == [] {
      assert a + b == a;
    } else {
      assert (a + b)[..|a + b| - 1] == a + b[..|b| - 1];
      FailingOfConcat(a, b[..|b| - 1]);
    }
  }

  lemma {:induction false} FilledOfAppend(ops: seq<Option<BulkRespItem>>, op: Option<BulkRespItem>)
    ensures Filled(ops + [op]) == if op.None? then Filled(ops) else Filled(ops) + [op.value]
  {
    assert (ops + [op])[..|ops|] == ops;
  }

  lemma {:induction false} OneSlot(ops: seq<Option<BulkRespItem>>, op: Option<BulkRespItem>)
    ensures Failing(Filled(ops + [op])) == Failing(Filled(ops)) + IfFailed(op)
    ensures |Filled(ops + [op])| == |Filled(ops)| + IfFilled(op)
  {
    FilledOfAppend(ops, op);
    if op.Some? {
      FailingOfAppend(Filled(ops), op.value);
    }
  }

  lemma {:induction false} TwoSlots(ops: seq<Option<BulkRespItem>>, x: Option<BulkRespItem>, y: Option<BulkRespItem>)
    ensures Failing(Filled(ops + [x, y])) == Failing(Filled(ops)) + IfFailed(x) + IfFailed(y)
    ensures |Filled(ops + [x, y])| == |Filled(ops)| + IfFilled(x) + IfFilled(y)
  {
    OneSlot(ops, x);
    OneSlot(ops + [x], y);
    assert ops + [x] + [y] == ops + [x, y];
  }

  lemma {:induction false} ItemFields(item: BulkItem)
    ensures Failing(Filled(Ops(item)))
         == IfFailed(item.create) + IfFailed(item.delete) + IfFailed(item.index) + IfFailed(item.update)
    ensures |Filled(Ops(item))|
         == IfFilled(item.create) + IfFilled(item.delete) + IfFilled(item.index) + IfFilled(item.update)
  {
    TwoSlots([], item.create, item.delete);
    assert [] + [item.create, item.delete] == [item.create, item.delete];
    TwoSlots([item.create, item.delete], item.index, item.update);
    assert [item.create, item.delete] + [item.index, item.update] == Ops(item);
  }

  lemma {:induction false} SlotsOfAppend(items: seq<BulkItem>, item: BulkItem)
    ensures Slots(items + [item]) == Slots(items) + Filled(Ops(item))
  {
    assert (items + [item])[..|items|] == items;
  }

  lemma {:induction false} SlotsOfConcat(a: seq<BulkItem>, b: seq<BulkItem>)
    ensures Slots(a + b) == Slots(a) + Slots(b)
  {
    if b == [] {
      assert a + b == a;
    } else {
      var front, last := b[..|b| - 1], b[|b| - 1];
      assert b == front + [last] && a + b == (a + front) + [last];
      SlotsOfAppend(front, last);
      SlotsOfAppend(a + front, last);
      SlotsOfConcat(a, front);
    }
  }

  lemma {:induction false} SlotsAreFields(items: seq<BulkItem>)
    ensures Failing(Slots(items)) == FailedFields(items)
    ensures |Slots(items)| == FilledFields(items)
  {
    if items != [] {
      var first := [items[0]];
      assert items == first + items[1..];
      SlotsOfConcat(first, items[1..]);
      assert Slots(first) == Filled(Ops(items[0])) by {
        assert first[..0] == [];
      }
      FailingOfConcat(Slots(first), Slots(items[1..]));
      ItemFields(items[0]);
      SlotsAreFields(items[1..]);
    }
  }

  lemma {:induction false} NothingFailed(items: seq<BulkItem>)
    ensures FailedFields(items) == [] <==> forall i :: 0 <= i < |items| ==> !ItemFailed(items[i])
  {
    if items != [] {
      NothingFailed(items[1..]);
      if forall i :: 0 <= i < |items[1..]| ==> !ItemFailed(items[1..][i]) {
        assert forall i :: 0 < i < |items| ==> items[i] == items[1..][i - 1];
      }
      if forall i :: 0 <= i < |items| ==> !ItemFailed(items[i]) {
        assert !ItemFailed(items[0]);
        forall i | 0 <= i < |items[1..]| ensures !ItemFailed(items[1..][i]) {
          assert items[1..][i] == items[i + 1];
        }
      }
    }
  }

  /** Nil without a response, without the top-level flag, or when no field of any item carries an error;
      otherwise the failed fields in order, and all other filled fields counted as succeeded. */
  ghost predicate ReportsFields(r: Option<BulkResp>, e: Option<Error>) {
    && (e.None? <==>
          r.None? || !r.value.errors || forall i :: 0 <= i < |r.value.items| ==> !ItemFailed(r.value.items[i]))
    && (e.Some? ==>
          && e.value.Bulk? && e.value.failed == FailedFields(r.value.items)
          && |e.value.failed| + e.value.succeeded == FilledFields(r.value.items))
  }

  /** For every response the detector's result is that. */
  lemma {:induction false} BulkFailuresOnFields(r: Option<BulkResp>)
    ensures ReportsFields(r, BulkFailures(r))
  {
    if r.Some? {
      SlotsAreFields(r.value.items);
      NothingFailed(r.value.items);
    }
  }

  method BulkItemFailures(r: Option<BulkResp>) returns (e: Option<Error>)
    ensures e == BulkFailures(r)
  {
    if r.None? || !r.value.errors {
      return None;
    }
    var items := r.value.items;
    var failed: seq<BulkRespItem> := [];
    var succeeded := 0;
    ghost var seen: seq<BulkRespItem> := [];
    for i := 0 to |items|
      invariant seen == Slots(items[..i])
      invariant failed == Failing(seen) && |failed| + succeeded == |seen|
    {
      NextItem(items, i);
      var ops := Ops(items[i]);
      ghost var before := seen;
      for j := 0 to |ops|
        invariant seen == before + Filled(ops[..j])
        invariant failed == Failing(seen) && |failed| + succeeded == |seen|
      {
        var v := ops[j];
        NextSlot(before, ops, j);
        if v.None? {
          continue;
        }
        FailingOfAppend(seen, v.value);
        seen := seen + [v.value];
        if v.value.error.Some? {
          failed := failed + [v.value];
        } else {
          succeeded := succeeded + 1;
        }
      }
      assert ops[..|ops|] == ops;
    }
    assert items[..|items|] == items;
    if |failed| == 0 {
      return None;
    }
    return Some(Bulk(failed, succeeded));
  }

  /** Where the failing slots are. */
  function FailingAt(slots: seq<BulkRespItem>): seq<nat> {
    if slots == [] then []
    else if slots[|slots| - 1].error.Some? then FailingAt(slots[..|slots| - 1]) + [|slots| - 1]
    else FailingAt(slots[..|slots| - 1])
  }

  lemma {:induction false} FailingAtAscends(slots: seq<BulkRespItem>)
    ensures forall k :: 0 <= k < |FailingAt(slots)| ==> FailingAt(slots)[k] < |slots|
    ensures forall j, k :: 0 <= j < k < |FailingAt(slots)| ==> FailingAt(slots)[j] < FailingAt(slots)[k]
  {
    if slots != [] {
      FailingAtAscends(slots[..|slots| - 1]);
    }
  }

  lemma {:induction false} FailingAtHas(slots: seq<BulkRespItem>, i: nat)
    requires i < |slots|
    ensures i in FailingAt(slots) <==> slots[i].error.Some?
  {
    var front := slots[..|slots| - 1];
    if i < |front| {
      FailingAtHas(front, i);
    } else {
      FailingAtAscends(front);
    }
  }

  /** The reported items are the slots that carry an error, each once and in scan order. */
  lemma {:induction false} FailingIsOrderedSubsequence(slots: seq<BulkRespItem>)
    ensures |FailingAt(slots)| == |Failing(slots)|
    ensures forall k :: 0 <= k < |FailingAt(slots)| ==>
      FailingAt(slots)[k] < |slots| && slots[FailingAt(slots)[k]] == Failing(slots)[k]
  {
    FailingAtAscends(slots);
    if slots != [] {
      var front := slots[..|slots| - 1];
      FailingAtAscends(front);
      FailingIsOrderedSubsequence(front);
    }
  }

  /** Failed and succeeded slots together are all the filled slots. */
  lemma BulkConservation(r: BulkResp)
    requires BulkFailures(Some(r)).Some?
    ensures var e := BulkFailures(Some(r)).value;
            && e.Bulk? && 0 < |e.failed| && 0 <= e.succeeded && |e.failed| + e.succeeded == |Slots(r.items)|
            && |Slots(r.items)| == FilledFields(r.items) && Failing(Slots(r.items)) == FailedFields(r.items)
  {
    SlotsAreFields(r.items);
    FailingIsOrderedSubsequence(Slots(r.items));
    FailingAtAscends(Slots(r.items));
    AscendingFits(FailingAt(Slots(r.items)), |Slots(r.items)|);
  }

  lemma {:induction false} AscendingFits(at: seq<nat>, n: nat)
    requires forall k :: 0 <= k < |at| ==> at[k] < n
    requires forall j, k :: 0 <= j < k < |at| ==> at[j] < at[k]
    ensures |at| <= n
  {
    if at != [] {
      AscendingFits(at[..|at| - 1], at[|at| - 1]);
    }
  }

  /** The failures of the categories the mask does not suppress. */
  function BulkReported(r: Option<BulkResp>, mask: Mask): seq<Error> {
    if !Has(mask, {BULK_ITEMS}) && BulkFailures(r).Some? then [BulkFailures(r).value] else []
  }

  /** The error the bulk call returns beside the response. */
  function BulkReturned(r: Option<BulkResp>, mask: Mask): Option<Error> {
    CollapsePerOpErrors(BulkReported(r, mask), None)
  }

  /** From the environment to the call: if the last token of OPENSEARCH_GO_ERROR_MASK that mentions bulk
      items masks them, no bulk call returns a partial failure; if it reports them, every flagged failure
      is returned, whatever the configuration says. */
  lemma EnvironmentDecidesBulkErrors(r: BulkResp, configured: Option<Mask>, env: string, last: nat)
    requires last < |Split(env, ',')| && Decides(Interpret(TOKEN_ORDER, Split(env, ',')[last]), BULK_ITEMS)
    requires forall i :: last < i < |Split(env, ',')| ==>
      !Decides(Interpret(TOKEN_ORDER, Split(env, ',')[i]), BULK_ITEMS)
    ensures var a := Interpret(TOKEN_ORDER, Split(env, ',')[last]);
            BulkReturned(Some(r), ResolveErrorMask(TOKEN_ORDER, configured, Some(env)))
            == if a.Turn? && a.on then None else BulkFailures(Some(r))
  {
    var base := if configured.None? then EMPTY else configured.value;
    LastMentionDecides(TOKEN_ORDER, env, base, BULK_ITEMS, last);
  }

  /** What a bulk call returns is nothing or its one category. */
  lemma {:induction false} BulkReturnedShape(r: BulkResp, mask: Mask)
    ensures BULK_ITEMS in mask || !r.errors || FailedFields(r.items) == [] ==> BulkReturned(Some(r), mask) == None
    ensures BULK_ITEMS !in mask && r.errors && FailedFields(r.items) != [] ==>
      BulkFailures(Some(r)).Some? && BulkReturned(Some(r), mask) == BulkFailures(Some(r))
  {
    SlotsAreFields(r.items);
  }

  lemma {:induction false} BulkErrorVerdict(e: Error, filled: int, failed: int, threshold: real)
    requires e.Bulk? && |e.failed| == failed && e.succeeded == filled - failed
    ensures Required(Some(e), threshold).None? <==> Reaches(filled - failed, filled, threshold)
  {
    CategoryVerdict(e, threshold);
  }

  /** End to end: a success-rate check on what a bulk call returns passes exactly when the category is
      masked, or the response does not flag errors, or no field failed, or the share of filled fields
      that did not fail reaches the threshold. */
  lemma {:induction false} BulkVerdict(r: BulkResp, mask: Mask, threshold: real)
    ensures Required(BulkReturned(Some(r), mask), threshold).None?
       <==> || BULK_ITEMS in mask || !r.errors || FailedFields(r.items) == []
            || Reaches(FilledFields(r.items) - |FailedFields(r.items)|, FilledFields(r.items), threshold)
  {
    BulkReturnedShape(r, mask);
    if BULK_ITEMS !in mask && r.errors && FailedFields(r.items) != [] {
      BulkConservation(r);
      var e := BulkFailures(Some(r)).value;
      assert e.failed == FailedFields(r.items) by {
        BulkFailuresOnFields(Some(r));
      }
      BulkErrorVerdict(e, FilledFields(r.items), |FailedFields(r.items)|, threshold);
    }
  }

  // ---------------------------------------------------------------------------
  // Multi-search: two categories on one response
  // ---------------------------------------------------------------------------

  /** A sub-response: hits with a shard envelope, an error envelope, or neither branch decoded. */
  datatype SubResponse =
    | Answered(total: int, failed: int, failures: seq<ShardSearchFailure>)
    | Refused(envelope: ErrorRespBase)
    | Undecoded

  function TotalShards(rs: seq<SubResponse>): int {
    if rs == [] then 0
    else TotalShards(rs[..|rs| - 1]) + if rs[|rs| - 1].Answered? then rs[|rs| - 1].total else 0
  }

  function FailedShards(rs: seq<SubResponse>): int {
    if rs == [] then 0
    else FailedShards(rs[..|rs| - 1]) + if rs[|rs| - 1].Answered? then rs[|rs| - 1].failed else 0
  }

  /** The shard failures of all answered sub-responses, in order. */
  function ShardFailures(rs: seq<SubResponse>): seq<ShardSearchFailure> {
    if rs == [] then []
    else ShardFailures(rs[..|rs| - 1]) + if rs[|rs| - 1].Answered? then rs[|rs| - 1].failures else []
  }

  function Refusals(rs: seq<SubResponse>): seq<MultiSearchItemFailure> {
    if rs == [] then []
    else
      var last := |rs| - 1;
      if rs[last].Refused? then Refusals(rs[..last]) + [MultiSearchItemFailure(last, rs[last].envelope)]
      else Refusals(rs[..last])
  }

  function SearchFailed(rs: seq<SubResponse>): Error {
    Search(FailedShards(rs), TotalShards(rs), ShardFailures(rs))
  }

  function ItemsFailed(rs: seq<SubResponse>): Error {
    MultiSearch(Refusals(rs), |rs| - |Refusals(rs)|)
  }

  method SearchShardFailures(rs: seq<SubResponse>) returns (e: Option<Error>)
    ensures e == if FailedShards(rs) == 0 then None else Some(SearchFailed(rs))
  {
    var totalShards, failedShards := 0, 0;
    var failures: seq<ShardSearchFailure> := [];
    for i := 0 to |rs|
      invariant totalShards == TotalShards(rs[..i]) && failedShards == FailedShards(rs[..i])
      invariant failures == ShardFailures(rs[..i])
    {
      assert rs[..i + 1][..i] == rs[..i];
      if rs[i].Answered? {
        totalShards := totalShards + rs[i].total;
        failedShards := failedShards + rs[i].failed;
        failures := failures + rs[i].failures;
      }
    }
    assert rs[..|rs|] == rs;
    if failedShards == 0 {
      return None;
    }
    return Some(Search(failedShards, totalShards, failures));
  }

  method MultiSearchItemFailures(rs: seq<SubResponse>) returns (e: Option<Error>)
    ensures e == if Refusals(rs) == [] then None else Some(ItemsFailed(rs))
  {
    var failed: seq<MultiSearchItemFailure> := [];
    var succeeded := 0;
    for i := 0 to |rs|
      invariant failed == Refusals(rs[..i]) && |failed| + succeeded == i
    {
      assert rs[..i + 1][..i] == rs[..i];
      if rs[i].Refused? {
        failed := failed + [MultiSearchItemFailure(i, rs[i].envelope)];
      } else {
        succeeded := succeeded + 1;
      }
    }
    assert rs[..|rs|] == rs;
    if |failed| == 0 {
      return None;
    }
    return Some(MultiSearch(failed, succeeded));
  }

  function MSearchReported(rs: seq<SubResponse>, mask: Mask): seq<Error> {
    (if !Has(mask, {SEARCH_SHARDS}) && FailedShards(rs) != 0 then [SearchFailed(rs)] else [])
    + (if !Has(mask, {MULTI_SEARCH_ITEMS}) && Refusals(rs) != [] then [ItemsFailed(rs)] else [])
  }

  method MSearchPartialFailures(rs: seq<SubResponse>, mask: Mask) returns (errs: seq<Error>)
    ensures errs == MSearchReported(rs, mask)
  {
    errs := [];
    if !Has(mask, {SEARCH_SHARDS}) {
      var e := SearchShardFailures(rs);
      if e.Some? {
        errs := errs + [e.value];
      }
    }
    if !Has(mask, {MULTI_SEARCH_ITEMS}) {
      var e := MultiSearchItemFailures(rs);
      if e.Some? {
        errs := errs + [e.value];
      }
    }
  }

  lemma {:induction false} CountsOfAppend(rs: seq<SubResponse>, r: SubResponse)
    ensures TotalShards(rs + [r]) == TotalShards(rs) + if r.Answered? then r.total else 0
    ensures FailedShards(rs + [r]) == FailedShards(rs) + if r.Answered? then r.failed else 0
    ensures ShardFailures(rs + [r]) == ShardFailures(rs) + if r.Answered? then r.failures else []
  {
    assert (rs + [r])[..|rs|] == rs;
  }

  /** Sums and lists go through a list of sub-responses piece by piece. */
  lemma {:induction false} CountsAdd(a: seq<SubResponse>, b: seq<SubResponse>)
    ensures TotalShards(a + b) == TotalShards(a) + TotalShards(b)
    ensures FailedShards(a + b) == FailedShards(a) + FailedShards(b)
    ensures ShardFailures(a + b) == ShardFailures(a) + ShardFailures(b)
  {
    if b == [] {
      assert a + b == a;
    } else {
      var front, last := b[..|b| - 1], b[|b| - 1];
      assert b == front + [last] && a + b == (a + front) + [last];
      CountsOfAppend(front, last);
      CountsOfAppend(a + front, last);
      CountsAdd(a, front);
    }
  }

  /** Of one sub-response: an answer counts with its own numbers and failures, anything else not at all. */
  lemma {:induction false} CountsOfOne(total: int, failed: int, failures: seq<ShardSearchFailure>, e: ErrorRespBase)
    ensures SearchFailed([Answered(total, failed, failures)]) == Search(failed, total, failures)
    ensures SearchFailed([Refused(e)]) == SearchFailed([Undecoded]) == SearchFailed([]) == Search(0, 0, [])
  {
    CountsOfAppend([], Answered(total, failed, failures));
    CountsOfAppend([], Refused(e));
    CountsOfAppend([], Undecoded);
    assert [] + [Answered(total, failed, failures)] == [Answered(total, failed, failures)];
    assert [] + [Refused(e)] == [Refused(e)];
    assert [] + [Undecoded] == [Undecoded];
  }

  /** Where the refused sub-responses are. */
  function RefusedAt(rs: seq<SubResponse>): seq<nat> {
    if rs == [] then []
    else if rs[|rs| - 1].Refused? then RefusedAt(rs[..|rs| - 1]) + [|rs| - 1]
    else RefusedAt(rs[..|rs| - 1])
  }

  lemma {:induction false} RefusedAtHas(rs: seq<SubResponse>, i: nat)
    requires i < |rs|
    ensures i in RefusedAt(rs) <==> rs[i].Refused?
  {
    var front := rs[..|rs| - 1];
    if i < |front| {
      RefusedAtHas(front, i);
    } else {
      RefusedAtAscends(front);
    }
  }

  lemma {:induction false} RefusedAtAscends(rs: seq<SubResponse>)
    ensures |RefusedAt(rs)| == |Refusals(rs)|
    ensures forall k :: 0 <= k < |RefusedAt(rs)| ==> RefusedAt(rs)[k] < |rs|
    ensures forall j, k :: 0 <= j < k < |RefusedAt(rs)| ==> RefusedAt(rs)[j] < RefusedAt(rs)[k]
  {
    if rs != [] {
      RefusedAtAscends(rs[..|rs| - 1]);
    }
  }

  /** The listed failures are the refused sub-responses in order, each with its own position. */
  lemma {:induction false} RefusalsAreThePositions(rs: seq<SubResponse>, k: nat)
    requires k < |Refusals(rs)|
    ensures |RefusedAt(rs)| == |Refusals(rs)| && RefusedAt(rs)[k] < |rs|
    ensures var i := RefusedAt(rs)[k];
            rs[i].Refused? && Refusals(rs)[k] == MultiSearchItemFailure(i, rs[i].envelope)
  {
    RefusedAtAscends(rs);
    var front := rs[..|rs| - 1];
    RefusedAtAscends(front);
    if k < |Refusals(front)| {
      RefusalsAreThePositions(front, k);
      assert rs[RefusedAt(front)[k]] == front[RefusedAt(front)[k]];
    }
  }

  function MSearchReturned(rs: seq<SubResponse>, mask: Mask): Option<Error> {
    CollapsePerOpErrors(MSearchReported(rs, mask), Some(MSearch))
  }

  /** What a multi-search returns: each category that occurred and is not masked, bare if it is the only one,
      otherwise the shard failures first, under the operation's own multi-error. */
  lemma {:induction false} MSearchReturns(rs: seq<SubResponse>, mask: Mask)
    ensures var search := Search(FailedShards(rs), TotalShards(rs), ShardFailures(rs));
            var items := MultiSearch(Refusals(rs), |rs| - |Refusals(rs)|);
            var hasSearch := SEARCH_SHARDS !in mask && FailedShards(rs) != 0;
            var hasItems := MULTI_SEARCH_ITEMS !in mask && Refusals(rs) != [];
            && (!hasSearch && !hasItems ==> MSearchReturned(rs, mask) == None)
            && (hasSearch && !hasItems ==> MSearchReturned(rs, mask) == Some(search))
            && (!hasSearch && hasItems ==> MSearchReturned(rs, mask) == Some(items))
            && (hasSearch && hasItems ==> MSearchReturned(rs, mask) == Some(PerOpErrors(MSearch, [search, items])))
  {
    assert SEARCH_SHARDS !in mask && FailedShards(rs) != 0 && MULTI_SEARCH_ITEMS !in mask && Refusals(rs) != [] ==>
        MSearchReported(rs, mask) == [SearchFailed(rs), ItemsFailed(rs)];
  }

  predicate ShardsHealthy(rs: seq<SubResponse>, threshold: real) {
    || FailedShards(rs) == 0
    || Reaches(TotalShards(rs) - FailedShards(rs), TotalShards(rs), threshold)
  }

  predicate SubQueriesHealthy(rs: seq<SubResponse>, threshold: real) {
    Refusals(rs) == [] || Reaches(|rs| - |Refusals(rs)|, |rs|, threshold)
  }

  lemma {:induction false} RefusalsFit(rs: seq<SubResponse>)
    ensures |Refusals(rs)| <= |rs|
  {
    if rs != [] {
      RefusalsFit(rs[..|rs| - 1]);
    }
  }

  /** End to end: a healthy shard rate cannot hide failed sub-queries, nor the other way round. Each
      category must be masked or healthy on its own. */
  lemma MSearchVerdict(rs: seq<SubResponse>, mask: Mask, threshold: real)
    ensures Required(MSearchReturned(rs, mask), threshold).None?
       <==> && (SEARCH_SHARDS in mask || ShardsHealthy(rs, threshold))
            && (MULTI_SEARCH_ITEMS in mask || SubQueriesHealthy(rs, threshold))
  {
    RefusalsFit(rs);
    var errs := MSearchReported(rs, mask);
    DispatchVerdict(errs, Some(MSearch), threshold);
    assert !Has(mask, {SEARCH_SHARDS}) && FailedShards(rs) != 0 ==> errs[0] == SearchFailed(rs);
    assert !Has(mask, {MULTI_SEARCH_ITEMS}) && Refusals(rs) != [] ==> errs[|errs| - 1] == ItemsFailed(rs);
  }
}
