/** sort.Strings: byte-wise lexicographic order has exactly one ascending arrangement of any multiset. */
module Sorting {
  import opened KeyBuilder

  predicate LessEq(a: seq<Byte>, b: seq<Byte>) {
    a == [] || (b != [] && (a[0] < b[0] || (a[0] == b[0] && LessEq(a[1..], b[1..]))))
  }

  lemma {:induction false} LessEqReflexive(a: seq<Byte>)
    ensures LessEq(a, a)
  {
    if a != [] {
      LessEqReflexive(a[1..]);
    }
  }

  lemma {:induction false} LessEqAntisymmetric(a: seq<Byte>, b: seq<Byte>)
    requires LessEq(a, b) && LessEq(b, a)
    ensures a == b
  {
    if a != [] && b != [] {
      LessEqAntisymmetric(a[1..], b[1..]);
      assert a == [a[0]] + a[1..] && b == [b[0]] + b[1..];
    }
  }

  lemma {:induction false} LessEqTransitive(a: seq<Byte>, b: seq<Byte>, c: seq<Byte>)
    requires LessEq(a, b) && LessEq(b, c)
    ensures LessEq(a, c)
  {
    if a != [] && a[0] == b[0] == c[0] {
      LessEqTransitive(a[1..], b[1..], c[1..]);
    }
  }

  lemma {:induction false} LessEqTotal(a: seq<Byte>, b: seq<Byte>)
    ensures LessEq(a, b) || LessEq(b, a)
  {
    if a != [] && b != [] && a[0] == b[0] {
      LessEqTotal(a[1..], b[1..]);
    }
  }

  /** The strings agree up to `i`, where the first has the smaller byte. */
  ghost predicate LessAt(a: seq<Byte>, b: seq<Byte>, i: nat) {
    i < |a| && i < |b| && a[i] < b[i] && forall j :: 0 <= j < i ==> a[j] == b[j]
  }

  /** Byte-wise lexicographic: a prefix comes first, otherwise the first different byte decides. */
  lemma {:induction false} LessEqIsLexicographic(a: seq<Byte>, b: seq<Byte>)
    ensures LessEq(a, b) <==> a <= b || exists i: nat :: LessAt(a, b, i)
  {
    if a != [] && b != [] && a[0] == b[0] {
      var x, y := a[1..], b[1..];
      LessEqIsLexicographic(x, y);
      assert a == [a[0]] + x && b == [b[0]] + y;
      if i: nat :| LessAt(x, y, i) {
        assert LessAt(a, b, i + 1);
      }
      if i: nat :| LessAt(a, b, i) {
        assert LessAt(x, y, i - 1);
      }
    } else if a != [] && b != [] && a[0] < b[0] {
      assert LessAt(a, b, 0);
    }
  }

  ghost predicate Ascending(s: seq<Bytes>) {
    forall i, j :: 0 <= i < j < |s| ==> LessEq(s[i], s[j])
  }

  function Insert(x: Bytes, s: seq<Bytes>): seq<Bytes> {
    if s == [] || LessEq(x, s[0]) then [x] + s else [s[0]] + Insert(x, s[1..])
  }

  function Sort(s: seq<Bytes>): seq<Bytes> {
    if s == [] then [] else Insert(s[0], Sort(s[1..]))
  }

  lemma {:induction false} InsertKeepsElements(x: Bytes, s: seq<Bytes>)
    ensures multiset(Insert(x, s)) == multiset{x} + multiset(s)
  {
    if s != [] {
      InsertKeepsElements(x, s[1..]);
      assert s == [s[0]] + s[1..];
    }
  }

  lemma {:induction false} SortKeepsElements(s: seq<Bytes>)
    ensures multiset(Sort(s)) == multiset(s)
  {
    if s != [] {
      SortKeepsElements(s[1..]);
      InsertKeepsElements(s[0], Sort(s[1..]));
      assert s == [s[0]] + s[1..];
    }
  }

  ghost predicate Bounds(x: Bytes, s: seq<Bytes>) {
    forall y :: y in multiset(s) ==> LessEq(x, y)
  }

  lemma AscendingCons(x: Bytes, s: seq<Bytes>)
    requires Ascending(s) && Bounds(x, s)
    ensures Ascending([x] + s)
  {
    forall j | 0 <= j < |s| ensures LessEq(x, s[j]) {
      assert s[j] in multiset(s);
    }
  }

  lemma {:induction false} InsertKeepsOrder(x: Bytes, s: seq<Bytes>)
    requires Ascending(s)
    ensures Ascending(Insert(x, s))
  {
    if s == [] || LessEq(x, s[0]) {
      forall y | y in multiset(s) ensures LessEq(x, y) {
        var k :| 0 <= k < |s| && s[k] == y;
        LessEqReflexive(s[0]);
        LessEqTransitive(x, s[0], y);
      }
      AscendingCons(x, s);
    } else {
      InsertKeepsOrder(x, s[1..]);
      InsertKeepsElements(x, s[1..]);
      LessEqTotal(x, s[0]);
      forall y | y in multiset(Insert(x, s[1..])) ensures LessEq(s[0], y) {
        if y != x {
          assert y in multiset(s[1..]);
          var k :| 0 <= k < |s[1..]| && s[1..][k] == y;
          assert s[k + 1] == y;
        }
      }
      AscendingCons(s[0], Insert(x, s[1..]));
    }
  }

  lemma {:induction false} SortIsAscending(s: seq<Bytes>)
    ensures Ascending(Sort(s))
  {
    if s != [] {
      SortIsAscending(s[1..]);
      InsertKeepsOrder(s[0], Sort(s[1..]));
    }
  }

  lemma FirstIsLeast(s: seq<Bytes>, x: Bytes)
    requires Ascending(s) && x in multiset(s)
    ensures LessEq(s[0], x)
  {
    var k :| 0 <= k < |s| && s[k] == x;
    LessEqReflexive(x);
  }

  lemma SameFirst(a: seq<Bytes>, b: seq<Bytes>)
    requires Ascending(a) && Ascending(b) && multiset(a) == multiset(b)
    requires a != [] && b != []
    ensures a[0] == b[0]
  {
    assert a[0] in multiset(a) && b[0] in multiset(b);
    FirstIsLeast(a, b[0]);
    FirstIsLeast(b, a[0]);
    LessEqAntisymmetric(a[0], b[0]);
  }

  lemma ElementsOfTail(s: seq<Bytes>)
    requires s != []
    ensures multiset(s[1..]) == multiset(s) - multiset{s[0]}
  {
    assert s == [s[0]] + s[1..];
  }

  /** Two ascending arrangements of the same elements are equal. */
  lemma {:induction false} AscendingIsUnique(a: seq<Bytes>, b: seq<Bytes>)
    requires Ascending(a) && Ascending(b) && multiset(a) == multiset(b)
    ensures a == b
  {
    assert |multiset(a)| == |a| && |multiset(b)| == |b|;
    if a != [] {
      SameFirst(a, b);
      ElementsOfTail(a);
      ElementsOfTail(b);
      AscendingIsUnique(a[1..], b[1..]);
      assert a == [a[0]] + a[1..];
      assert b == [b[0]] + b[1..];
    }
  }

  /** Sorting forgets the order it was given and nothing else. */
  lemma {:induction false} SortIsCanonical(a: seq<Bytes>, b: seq<Bytes>)
    ensures Sort(a) == Sort(b) <==> multiset(a) == multiset(b)
  {
    SortKeepsElements(a);
    SortKeepsElements(b);
    if multiset(a) == multiset(b) {
      SortIsAscending(a);
      SortIsAscending(b);
      AscendingIsUnique(Sort(a), Sort(b));
    }
  }
}
