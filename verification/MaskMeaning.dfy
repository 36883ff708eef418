/**
  What mask text means, said about the text and the table alone: which pieces are rejected, which piece
  decides a bit, and which tokens are printed.
 */
module MaskMeaning {
  import opened Text
  import opened ErrorMask
  import opened MaskLaws

  // ---------------------------------------------------------------------------
  // Pieces
  // ---------------------------------------------------------------------------

  /** What is left of a trimmed piece after one optional sign. */
  function Name(tok: string): string {
    if tok != "" && (tok[0] == '+' || tok[0] == '-') then tok[1..] else tok
  }

  predicate NamesReset(name: string) {
    name in {"empty", "none", "unknown"}
  }

  /** The table's first entry under that name. */
  ghost predicate FirstEntry(t: TokenTable, name: string, i: nat) {
    i < |t| && t[i].token == name && forall j :: 0 <= j < i ==> t[j].token != name
  }

  ghost predicate Known(t: TokenTable, name: string) {
    name == "all" || NamesReset(name) || exists i :: 0 <= i < |t| && t[i].token == name
  }

  /** The piece is not blank, and names neither a reserved word nor a category. */
  ghost predicate Unrecognised(t: TokenTable, raw: string) {
    TrimSpace(raw) != "" && !Known(t, Name(TrimSpace(raw)))
  }

  ghost predicate Defined(t: TokenTable, b: Bit) {
    exists i :: 0 <= i < |t| && t[i].bit == b
  }

  /** The piece names the bit's category, all categories, or a reset. */
  ghost predicate Mentions(t: TokenTable, raw: string, b: Bit) {
    var name := Name(TrimSpace(raw));
    && TrimSpace(raw) != ""
    && (|| NamesReset(name)
        || (name == "all" && Defined(t, b))
        || (name != "all" && exists i: nat :: FirstEntry(t, name, i) && t[i].bit == b))
  }

  /** The piece sets what it mentions: it has no minus sign and is not a reset. */
  predicate Sets(raw: string) {
    var tok := TrimSpace(raw);
    tok != "" && tok[0] != '-' && !NamesReset(Name(tok))
  }

  lemma {:induction false} LookupFinds(t: TokenTable, name: string)
    ensures Lookup(t, name) == NotFound <==> forall i :: 0 <= i < |t| ==> t[i].token != name
    ensures forall i: nat :: FirstEntry(t, name, i) ==> Lookup(t, name) == Bits({t[i].bit})
    ensures Lookup(t, name) != NotFound ==> exists i: nat :: FirstEntry(t, name, i)
    ensures !Lookup(t, name).ResetAll?
  {
    if t != [] {
      var rest := t[1..];
      LookupFinds(rest, name);
      if t[0].token == name {
        assert FirstEntry(t, name, 0);
      } else {
        forall i: nat | FirstEntry(t, name, i) ensures FirstEntry(rest, name, i - 1) {
          assert forall j :: 0 <= j < i - 1 ==> rest[j] == t[j + 1];
        }
        if i: nat :| FirstEntry(rest, name, i) {
          assert FirstEntry(t, name, i + 1);
        }
        assert forall i :: 0 < i < |t| ==> t[i] == rest[i - 1];
      }
    }
  }

  lemma {:induction false} ReservedIs(name: string)
    ensures Reserved(name) <==> name == "all" || NamesReset(name)
    ensures ResetName(name) <==> NamesReset(name)
    ensures TOKEN_ALL == "all" && !NamesReset("all")
  {
  }

  /** What the table says of a name. */
  lemma {:induction false} ResolveMeans(t: TokenTable, name: string)
    ensures Resolve(t, name) == NotFound <==> !Known(t, name)
    ensures Resolve(t, name) == ResetAll <==> NamesReset(name)
    ensures name == "all" ==> Resolve(t, name) == Bits(AllBits(t))
    ensures forall i: nat :: FirstEntry(t, name, i) && name != "all" && !NamesReset(name) ==>
      Resolve(t, name) == Bits({t[i].bit})
    ensures Resolve(t, name).Bits? && name != "all" ==> exists i: nat :: FirstEntry(t, name, i)
  {
    ReservedIs(name);
    LookupFinds(t, name);
  }

  lemma {:induction false} RejectsUnrecognised(t: TokenTable, raw: string)
    ensures Interpret(t, raw).Reject? <==> Unrecognised(t, raw)
  {
    ResolveMeans(t, Name(TrimSpace(raw)));
  }

  lemma {:induction false} DecidesMentioned(t: TokenTable, raw: string, b: Bit)
    ensures Decides(Interpret(t, raw), b) <==> Mentions(t, raw, b)
    ensures Mentions(t, raw, b) ==> (Interpret(t, raw).Turn? && Interpret(t, raw).on <==> Sets(raw))
  {
    var name := Name(TrimSpace(raw));
    ResolveMeans(t, name);
    AllBitsHolds(t, b);
    if i: nat :| FirstEntry(t, name, i) {
      assert forall j: nat :: FirstEntry(t, name, j) ==> j == i;
    }
  }

  // ---------------------------------------------------------------------------
  // The rejected pieces
  // ---------------------------------------------------------------------------

  /** `at` are the positions of the unrecognised pieces among the first `n`. */
  ghost predicate UnknownAt(t: TokenTable, raws: seq<string>, n: nat, at: seq<nat>) {
    && n <= |raws| && Selects(raws[..n], Rejected(t, raws[..n]), at)
    && forall i :: 0 <= i < n ==> (i in at <==> Unrecognised(t, raws[i]))
  }

  lemma {:induction false} UnknownNext(t: TokenTable, raws: seq<string>, n: nat, at: seq<nat>) returns (next: seq<nat>)
    requires n < |raws| && UnknownAt(t, raws, n, at)
    ensures UnknownAt(t, raws, n + 1, next)
  {
    NextPiece(t, raws, n, EMPTY);
    RejectsUnrecognised(t, raws[n]);
    SelectsNext(raws, n, Rejected(t, raws[..n]), at);
    next := at;
    if Interpret(t, raws[n]).Reject? {
      next := at + [n];
      assert forall i :: i in next <==> i in at || i == n;
    }
  }

  /** The rejected list is, in order and untrimmed, exactly the unrecognised pieces of the text. */
  lemma {:induction false} UnknownPieces(t: TokenTable, s: string, base: Mask) returns (at: seq<nat>)
    ensures Selects(Split(s, ','), ParseSpec(t, s, base).unknown, at)
    ensures forall i :: 0 <= i < |Split(s, ',')| ==> (i in at <==> Unrecognised(t, Split(s, ',')[i]))
  {
    var raws := Split(s, ',');
    ParseIsFold(t, s, base);
    at := [];
    for n := 0 to |raws|
      invariant UnknownAt(t, raws, n, at)
    {
      at := UnknownNext(t, raws, n, at);
    }
    assert raws[..|raws|] == raws;
  }

  /** An unknown name leaves the mask alone and is given back as it was written, under either sign. */
  lemma {:induction false} UnknownNames(t: TokenTable, name: string, base: Mask)
    requires PlainName(name) && !Known(t, name)
    ensures ParseSpec(t, name, base) == Parsed(base, [name])
    ensures ParseSpec(t, "+" + name, base) == Parsed(base, ["+" + name])
    ensures ParseSpec(t, "-" + name, base) == Parsed(base, ["-" + name])
  {
    TrimSpaceFixes(name);
    UnknownPiece(t, name, base);
    TrimSpaceFixes("+" + name);
    assert Name("+" + name) == name == Name("-" + name);
    UnknownPiece(t, "+" + name, base);
    TrimSpaceFixes("-" + name);
    UnknownPiece(t, "-" + name, base);
  }

  lemma {:induction false} UnknownPiece(t: TokenTable, raw: string, base: Mask)
    requires ',' !in raw && Unrecognised(t, raw)
    ensures ParseSpec(t, raw, base) == Parsed(base, [raw])
  {
    RejectsUnrecognised(t, raw);
    ParseIsFold(t, raw, base);
    SplitOfFree(raw, ',');
    NextPiece(t, [raw], 0, base);
    assert [raw][..1] == [raw] && [raw][..0] == [];
  }

  // ---------------------------------------------------------------------------
  // The mask, bit by bit
  // ---------------------------------------------------------------------------

  /** For every text, table and base: a bit is set exactly when the last piece that mentions it sets it, or
      no piece mentions it and it was set before. */
  lemma {:induction false} LastNamingDecides(t: TokenTable, s: string, base: Mask, b: Bit)
    ensures var raws := Split(s, ',');
            b in ParseSpec(t, s, base).mask
            <==> || (b in base && forall i :: 0 <= i < |raws| ==> !Mentions(t, raws[i], b))
                 || exists last :: 0 <= last < |raws| && LastMention(t, raws, b, last) && Sets(raws[last])
  {
    var raws := Split(s, ',');
    forall i | 0 <= i < |raws| ensures Decides(Interpret(t, raws[i]), b) <==> Mentions(t, raws[i], b) {
      DecidesMentioned(t, raws[i], b);
    }
    if forall i :: 0 <= i < |raws| ==> !Mentions(t, raws[i], b) {
      UnmentionedBitIsKept(t, s, base, b);
    } else {
      var some :| 0 <= some < |raws| && Mentions(t, raws[some], b);
      var last := FindLastMention(t, raws, b, |raws|, some);
      LastMentionDecides(t, s, base, b, last);
      DecidesMentioned(t, raws[last], b);
      assert forall l :: 0 <= l < |raws| && LastMention(t, raws, b, l) ==> l == last;
    }
  }

  ghost predicate LastMention(t: TokenTable, raws: seq<string>, b: Bit, last: int)
    requires 0 <= last < |raws|
  {
    Mentions(t, raws[last], b) && forall i :: last < i < |raws| ==> !Mentions(t, raws[i], b)
  }

  lemma {:induction false} FindLastMention(t: TokenTable, raws: seq<string>, b: Bit, n: nat, some: nat)
    returns (last: nat)
    requires some < n <= |raws| && Mentions(t, raws[some], b)
    requires forall i :: n <= i < |raws| ==> !Mentions(t, raws[i], b)
    ensures last < |raws| && LastMention(t, raws, b, last)
    decreases n
  {
    if Mentions(t, raws[n - 1], b) {
      last := n - 1;
    } else {
      last := FindLastMention(t, raws, b, n - 1, some);
    }
  }

  // ---------------------------------------------------------------------------
  // Printing
  // ---------------------------------------------------------------------------

  function Names(t: TokenTable): (names: seq<string>)
    ensures |names| == |t| && forall i :: 0 <= i < |t| ==> names[i] == t[i].token
  {
    seq(|t|, i requires 0 <= i < |t| => t[i].token)
  }

  /** `at` are the positions of the set categories among the first `n` entries. */
  ghost predicate PrintedAt(t: TokenTable, m: Mask, n: nat, tokens: seq<string>, at: seq<nat>) {
    && n <= |t| && Selects(Names(t)[..n], tokens, at)
    && (forall i :: 0 <= i < n ==> (i in at <==> t[i].bit in m))
    && TokensOf(t, m) == tokens + TokensOf(t[n..], m)
  }

  lemma {:induction false} PrintedNext(t: TokenTable, m: Mask, n: nat, tokens: seq<string>, at: seq<nat>)
    returns (tokens': seq<string>, at': seq<nat>)
    requires n < |t| && PrintedAt(t, m, n, tokens, at)
    ensures PrintedAt(t, m, n + 1, tokens', at')
  {
    assert t[n..][1..] == t[n + 1..];
    SelectsNext(Names(t), n, tokens, at);
    tokens', at' := tokens, at;
    if t[n].bit in m {
      tokens', at' := tokens + [t[n].token], at + [n];
      assert forall i :: i in at' <==> i in at || i == n;
      assert tokens' + TokensOf(t[n + 1..], m) == tokens + ([t[n].token] + TokensOf(t[n + 1..], m));
    }
  }

  /** The printed text has the token of each set category once, in table order, joined by commas; zero is
      printed as `empty`, and a mask without a defined bit as the empty text. */
  lemma {:induction false} PrintedInTableOrder(t: TokenTable, m: Mask) returns (tokens: seq<string>, at: seq<nat>)
    ensures Selects(Names(t), tokens, at)
    ensures forall i :: 0 <= i < |t| ==> (i in at <==> t[i].bit in m)
    ensures Print(t, m) == if m == {} then "empty" else if tokens == [] then "" else Join(tokens, ',')
  {
    tokens, at := [], [];
    assert t[0..] == t;
    for n := 0 to |t|
      invariant PrintedAt(t, m, n, tokens, at)
    {
      tokens, at := PrintedNext(t, m, n, tokens, at);
    }
    assert t[|t|..] == [] && tokens + [] == tokens;
    assert Names(t)[..|t|] == Names(t);
  }
}
