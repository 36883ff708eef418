/** The string operations the client builds on: splitting and joining on one separator, and trimming. */
module Text {

  /** strings.Split on a one-element separator: always at least one part. */
  function Split<T(==)>(s: seq<T>, sep: T): (parts: seq<seq<T>>)
    ensures |parts| > 0
  {
    if s == [] then [[]] else Push(s[0], Split(s[1..], sep), sep)
  }

  /** Adds an element in front: it either opens a new part or lengthens the first one. */
  function Push<T(==)>(c: T, parts: seq<seq<T>>, sep: T): (r: seq<seq<T>>)
    requires |parts| > 0
    ensures |r| > 0
  {
    if c == sep then [[]] + parts else [[c] + parts[0]] + parts[1..]
  }

  /** strings.Join with a one-element separator. */
  function Join<T>(parts: seq<seq<T>>, sep: T): seq<T> {
    if parts == [] then []
    else if |parts| == 1 then parts[0]
    else parts[0] + [sep] + Join(parts[1..], sep)
  }

  lemma {:induction false} JoinOfPush<T>(c: T, parts: seq<seq<T>>, sep: T)
    requires |parts| > 0
    ensures Join(Push(c, parts, sep), sep) == [c] + Join(parts, sep)
  {
    if c == sep {
      assert ([[]] + parts)[1..] == parts;
    } else {
      assert ([[c] + parts[0]] + parts[1..])[1..] == parts[1..];
    }
  }

  /** Joining the parts gives the string back. */
  lemma {:induction false} JoinOfSplit<T>(s: seq<T>, sep: T)
    ensures Join(Split(s, sep), sep) == s
  {
    if s != [] {
      JoinOfSplit(s[1..], sep);
      JoinOfPush(s[0], Split(s[1..], sep), sep);
    }
  }

  /** No part contains the separator. */
  lemma {:induction false} SplitPartsAreFree<T>(s: seq<T>, sep: T)
    ensures forall p :: p in Split(s, sep) ==> sep !in p
  {
    if s != [] {
      SplitPartsAreFree(s[1..], sep);
    }
  }

  lemma {:induction false} SplitOfFree<T>(s: seq<T>, sep: T)
    requires sep !in s
    ensures Split(s, sep) == [s]
  {
    if s != [] {
      SplitOfFree(s[1..], sep);
      assert [s[0]] + s[1..] == s;
    }
  }

  lemma {:induction false} PushDistributes<T>(c: T, front: seq<seq<T>>, back: seq<seq<T>>, sep: T)
    requires |front| > 0
    ensures Push(c, front + back, sep) == Push(c, front, sep) + back
  {
    assert (front + back)[1..] == front[1..] + back;
  }

  /** Splitting distributes over a separator. */
  lemma {:induction false} SplitOfConcat<T>(a: seq<T>, b: seq<T>, sep: T)
    ensures Split(a + [sep] + b, sep) == Split(a, sep) + Split(b, sep)
  {
    var s := a + [sep] + b;
    if a == [] {
      assert s[0] == sep && s[1..] == b;
    } else {
      assert s[0] == a[0] && s[1..] == a[1..] + [sep] + b;
      SplitOfConcat(a[1..], b, sep);
      PushDistributes(a[0], Split(a[1..], sep), Split(b, sep), sep);
    }
  }

  /** Joining separator-free parts loses nothing. */
  lemma {:induction false} SplitOfJoin<T>(parts: seq<seq<T>>, sep: T)
    requires parts != []
    requires forall p :: p in parts ==> sep !in p
    ensures Split(Join(parts, sep), sep) == parts
  {
    SplitOfFree(parts[0], sep);
    if |parts| > 1 {
      SplitOfJoin(parts[1..], sep);
      SplitOfConcat(parts[0], Join(parts[1..], sep), sep);
    }
  }

  /** Go's unicode.IsSpace. */
  predicate IsSpace(c: char) {
    || '\t' <= c <= '\r' || c == ' ' || c == '\U{85}' || c == '\U{A0}' || c == '\U{1680}'
    || '\U{2000}' <= c <= '\U{200a}' || c == '\U{2028}' || c == '\U{2029}'
    || c == '\U{202f}' || c == '\U{205f}' || c == '\U{3000}'
  }

  function TrimLeft(s: string): (r: string)
    ensures r == "" || !IsSpace(r[0])
  {
    if s != "" && IsSpace(s[0]) then TrimLeft(s[1..]) else s
  }

  function TrimRight(s: string): (r: string)
    ensures r <= s
    ensures r == "" || !IsSpace(r[|r| - 1])
  {
    if s != "" && IsSpace(s[|s| - 1]) then TrimRight(s[..|s| - 1]) else s
  }

  /** strings.TrimSpace: no white space at either end of the result. */
  function TrimSpace(s: string): (r: string)
    ensures r == "" || (!IsSpace(r[0]) && !IsSpace(r[|r| - 1]))
  {
    TrimRight(TrimLeft(s))
  }

  /** A string that neither starts nor ends with white space. */
  predicate Trimmed(s: string) {
    s == "" || (!IsSpace(s[0]) && !IsSpace(s[|s| - 1]))
  }

  /** Trimming changes exactly the strings that have white space at an end. */
  lemma TrimSpaceFixes(s: string)
    ensures TrimSpace(s) == s <==> Trimmed(s)
  {
  }

  lemma {:induction false} TrimLeftStrips(a: string, core: string)
    requires forall i :: 0 <= i < |a| ==> IsSpace(a[i])
    requires core == "" || !IsSpace(core[0])
    ensures TrimLeft(a + core) == core
  {
    if a == "" {
      assert a + core == core;
    } else {
      assert (a + core)[1..] == a[1..] + core;
      TrimLeftStrips(a[1..], core);
    }
  }

  lemma {:induction false} TrimRightStrips(core: string, b: string)
    requires forall i :: 0 <= i < |b| ==> IsSpace(b[i])
    requires core == "" || !IsSpace(core[|core| - 1])
    ensures TrimRight(core + b) == core
  {
    if b == "" {
      assert core + b == core;
    } else {
      assert (core + b)[..|core + b| - 1] == core + b[..|b| - 1];
      TrimRightStrips(core, b[..|b| - 1]);
    }
  }

  /** Trimming removes the white space around a text and nothing else. */
  lemma {:induction false} TrimSpaceStrips(a: string, core: string, b: string)
    requires forall i :: 0 <= i < |a| ==> IsSpace(a[i])
    requires forall i :: 0 <= i < |b| ==> IsSpace(b[i])
    requires Trimmed(core)
    ensures TrimSpace(a + core + b) == core
  {
    if core == "" {
      TrimLeftStrips(a + b, "");
      assert a + core + b == a + b + "";
    } else {
      assert a + core + b == a + (core + b);
      TrimLeftStrips(a, core + b);
      TrimRightStrips(core, b);
    }
  }

  // ---------------------------------------------------------------------------
  // Sub-sequences
  // ---------------------------------------------------------------------------

  /** `ys` are the elements of `xs` at the positions `at`, which ascend: each at most once, in order. */
  ghost predicate Selects<T(!new)>(xs: seq<T>, ys: seq<T>, at: seq<nat>) {
    && |at| == |ys|
    && (forall k :: 0 <= k < |at| ==> at[k] < |xs| && ys[k] == xs[at[k]])
    && (forall j, k :: 0 <= j < k < |at| ==> at[j] < at[k])
  }

  /** Going on by one element, taken or not. */
  lemma {:induction false} SelectsNext<T(!new)>(xs: seq<T>, n: nat, ys: seq<T>, at: seq<nat>)
    requires n < |xs| && Selects(xs[..n], ys, at)
    ensures Selects(xs[..n + 1], ys, at) && Selects(xs[..n + 1], ys + [xs[n]], at + [n])
    ensures n !in at
  {
  }
}
