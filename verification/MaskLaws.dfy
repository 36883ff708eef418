/**
  The laws of the token language, for every token table: parsing is an action of comma-separated
  text on masks, it is decided bit by bit by the last token that mentions the bit, and an older
  table agrees with a newer one on the old bits.
 */
module MaskLaws {
  import opened Options
  import opened Text
  import opened ErrorMask

  const FULL: Mask := set b: Bit | 0 <= b < 32

  /** The early return on the empty string is not a special case: its only piece is skipped. */
  lemma ParseIsFold(t: TokenTable, s: string, base: Mask)
    ensures ParseSpec(t, s, base).mask == ApplyAll(t, Split(s, ','), base)
    ensures ParseSpec(t, s, base).unknown == Rejected(t, Split(s, ','))
  {
    if s == "" {
      var raws := [""];
      assert Split(s, ',') == raws && raws[1..] == [];
      assert Interpret(t, "") == Skip;
      assert ApplyAll(t, raws, base) == ApplyAll(t, [], Apply(Skip, base));
    }
  }

  /** Parsing text joined by a comma is parsing its halves in turn; rejected pieces concatenate. */
  lemma ParseOfConcat(t: TokenTable, s1: string, s2: string, base: Mask)
    ensures var first := ParseSpec(t, s1, base);
            var second := ParseSpec(t, s2, first.mask);
            ParseSpec(t, s1 + "," + s2, base) == Parsed(second.mask, first.unknown + second.unknown)
  {
    ParseIsFold(t, s1, base);
    ParseIsFold(t, s2, ParseSpec(t, s1, base).mask);
    ParseIsFold(t, s1 + "," + s2, base);
    SplitOfConcat(s1, s2, ',');
    ApplyAllOfConcat(t, Split(s1, ','), Split(s2, ','), base);
    RejectedOfConcat(t, Split(s1, ','), Split(s2, ','));
  }

  // ---------------------------------------------------------------------------
  // Bit by bit
  // ---------------------------------------------------------------------------

  /** The action fixes bit `b`, whatever the mask was. */
  predicate Decides(a: Action, b: Bit) {
    a.Reset? || (a.Turn? && b in a.bits)
  }

  lemma {:induction false} UntouchedBit(t: TokenTable, raws: seq<string>, m: Mask, b: Bit)
    requires forall i :: 0 <= i < |raws| ==> !Decides(Interpret(t, raws[i]), b)
    ensures b in ApplyAll(t, raws, m) <==> b in m
  {
    if raws != [] {
      assert !Decides(Interpret(t, raws[0]), b);
      UntouchedBit(t, raws[1..], Apply(Interpret(t, raws[0]), m), b);
    }
  }

  /** A bit no token mentions keeps its value. */
  lemma UnmentionedBitIsKept(t: TokenTable, s: string, base: Mask, b: Bit)
    requires forall i :: 0 <= i < |Split(s, ',')| ==> !Decides(Interpret(t, Split(s, ',')[i]), b)
    ensures b in ParseSpec(t, s, base).mask <==> b in base
  {
    ParseIsFold(t, s, base);
    UntouchedBit(t, Split(s, ','), base, b);
  }

  /** A bit is set exactly when the last token that mentions it turns it on. */
  lemma LastMentionDecides(t: TokenTable, s: string, base: Mask, b: Bit, last: nat)
    requires last < |Split(s, ',')| && Decides(Interpret(t, Split(s, ',')[last]), b)
    requires forall i :: last < i < |Split(s, ',')| ==> !Decides(Interpret(t, Split(s, ',')[i]), b)
    ensures b in ParseSpec(t, s, base).mask
       <==> Interpret(t, Split(s, ',')[last]).Turn? && Interpret(t, Split(s, ',')[last]).on
  {
    var raws := Split(s, ',');
    var before, after := raws[..last + 1], raws[last + 1..];
    ParseIsFold(t, s, base);
    assert raws == before + after;
    ApplyAllOfConcat(t, before, after, base);
    NextPiece(t, raws, last, base);
    UntouchedBit(t, after, ApplyAll(t, before, base), b);
  }

  lemma {:induction false} BitsAreIndependent(t: TokenTable, raws: seq<string>, m: Mask, n: Mask, b: Bit)
    ensures (b in m ==> b in n) ==> b in ApplyAll(t, raws, m) ==> b in ApplyAll(t, raws, n)
  {
    if raws != [] {
      var a := Interpret(t, raws[0]);
      BitsAreIndependent(t, raws[1..], Apply(a, m), Apply(a, n), b);
    }
  }

  /** Two probes determine the whole function: for every base, `Parse(s, base)` is
      `(base & keep) | set`, where `set` is `Parse(s, 0)` and `keep` is `Parse(s, ^0)`. The list of
      rejected pieces does not depend on the base at all. */
  lemma ParseIsAffine(t: TokenTable, s: string, base: Mask)
    ensures ParseSpec(t, s, base).mask
         == base * ParseSpec(t, s, FULL).mask + ParseSpec(t, s, EMPTY).mask
    ensures ParseSpec(t, s, base).unknown == ParseSpec(t, s, EMPTY).unknown
  {
    var raws := Split(s, ',');
    ParseIsFold(t, s, base);
    ParseIsFold(t, s, FULL);
    ParseIsFold(t, s, EMPTY);
    forall b: Bit
      ensures b in ApplyAll(t, raws, base)
         <==> (b in base && b in ApplyAll(t, raws, FULL)) || b in ApplyAll(t, raws, EMPTY)
    {
      BitsAreIndependent(t, raws, base, FULL, b);
      BitsAreIndependent(t, raws, EMPTY, base, b);
      if b in base {
        BitsAreIndependent(t, raws, FULL, base, b);
      } else {
        BitsAreIndependent(t, raws, base, EMPTY, b);
      }
    }
  }

  // ---------------------------------------------------------------------------
  // Old and new tables
  // ---------------------------------------------------------------------------

  lemma {:induction false} AllBitsHolds(t: TokenTable, b: Bit)
    ensures b in AllBits(t) <==> exists i :: 0 <= i < |t| && t[i].bit == b
  {
    if t != [] {
      AllBitsHolds(t[1..], b);
      if i :| 0 <= i < |t| && t[i].bit == b && i > 0 {
        assert t[1..][i - 1].bit == b;
      }
    }
  }

  lemma {:induction false} LookupOfConcat(front: TokenTable, back: TokenTable, name: string)
    ensures Lookup(front + back, name)
         == if Lookup(front, name).Bits? then Lookup(front, name) else Lookup(back, name)
  {
    if front == [] {
      assert front + back == back;
    } else {
      assert (front + back)[1..] == front[1..] + back;
      LookupOfConcat(front[1..], back, name);
    }
  }

  /** A name found in a table stands for one of its bits. */
  lemma {:induction false} LookupIsDefined(t: TokenTable, name: string)
    ensures !Lookup(t, name).ResetAll?
    ensures Lookup(t, name).Bits? ==> Lookup(t, name).bits <= AllBits(t)
  {
    if t != [] {
      LookupIsDefined(t[1..], name);
    }
  }

  lemma {:induction false} AllBitsOfConcat(front: TokenTable, back: TokenTable)
    ensures AllBits(front + back) == AllBits(front) + AllBits(back)
  {
    if front == [] {
      assert front + back == back;
    } else {
      assert (front + back)[1..] == front[1..] + back;
      AllBitsOfConcat(front[1..], back);
    }
  }

  /** The newer table keeps the old entries in place and appends entries under new bits and names. */
  ghost predicate Extends(newer: TokenTable, older: TokenTable) {
    older <= newer && WellFormed(newer)
  }

  lemma AppendedBitsAreNew(older: TokenTable, newer: TokenTable)
    requires Extends(newer, older)
    ensures AllBits(newer[|older|..]) !! AllBits(older)
  {
    var added := newer[|older|..];
    forall b: Bit | b in AllBits(older) ensures b !in AllBits(added) {
      AllBitsHolds(older, b);
      AllBitsHolds(added, b);
    }
  }

  predicate Mentions(meaning: Meaning, b: Bit) {
    meaning.Bits? && b in meaning.bits
  }

  /** On the old bits a name means the same in both tables. */
  lemma SameMeaningOnOldBits(older: TokenTable, newer: TokenTable, name: string, b: Bit)
    requires Extends(newer, older) && b in AllBits(older)
    ensures Resolve(older, name).ResetAll? <==> Resolve(newer, name).ResetAll?
    ensures Mentions(Resolve(older, name), b) <==> Mentions(Resolve(newer, name), b)
  {
    var added := newer[|older|..];
    assert newer == older + added;
    AppendedBitsAreNew(older, newer);
    AllBitsOfConcat(older, added);
    LookupOfConcat(older, added, name);
    LookupIsDefined(older, name);
    LookupIsDefined(added, name);
  }

  lemma RecognisedStaysRecognised(older: TokenTable, newer: TokenTable, raw: string)
    requires Extends(newer, older)
    ensures Interpret(newer, raw).Reject? ==> Interpret(older, raw).Reject?
  {
    var tok := TrimSpace(raw);
    if tok != "" {
      var name := if tok[0] == '+' || tok[0] == '-' then tok[1..] else tok;
      assert newer == older + newer[|older|..];
      LookupOfConcat(older, newer[|older|..], name);
      LookupIsDefined(older, name);
    }
  }

  lemma SameEffectOnOldBits(older: TokenTable, newer: TokenTable, raw: string, m: Mask, n: Mask, b: Bit)
    requires Extends(newer, older) && b in AllBits(older)
    requires b in m <==> b in n
    ensures b in Apply(Interpret(older, raw), m) <==> b in Apply(Interpret(newer, raw), n)
  {
    var tok := TrimSpace(raw);
    if tok != "" {
      var name := if tok[0] == '+' || tok[0] == '-' then tok[1..] else tok;
      SameMeaningOnOldBits(older, newer, name, b);
    }
  }

  lemma {:induction false} FoldAgreesOnOldBits(
    older: TokenTable, newer: TokenTable, raws: seq<string>, m: Mask, n: Mask, b: Bit)
    requires Extends(newer, older) && b in AllBits(older)
    requires b in m <==> b in n
    ensures b in ApplyAll(older, raws, m) <==> b in ApplyAll(newer, raws, n)
  {
    if raws != [] {
      SameEffectOnOldBits(older, newer, raws[0], m, n, b);
      FoldAgreesOnOldBits(older, newer, raws[1..],
                          Apply(Interpret(older, raws[0]), m), Apply(Interpret(newer, raws[0]), n), b);
    }
  }

  lemma {:induction false} RejectedByNewer(older: TokenTable, newer: TokenTable, raws: seq<string>)
    requires Extends(newer, older)
    ensures Rejected(newer, raws) == Rejected(newer, Rejected(older, raws))
  {
    if raws != [] {
      RecognisedStaysRecognised(older, newer, raws[0]);
      RejectedByNewer(older, newer, raws[1..]);
      if Interpret(older, raws[0]).Reject? {
        var rejected := [raws[0]] + Rejected(older, raws[1..]);
        assert rejected[1..] == Rejected(older, raws[1..]);
      }
    }
  }

  /** A client built with an older table reads every mask text, including `all`, `-all` and the reset
      tokens, as a newer client does on the bits both know; the newer client rejects only pieces
      the older one rejected. */
  lemma ForwardCompatible(older: TokenTable, newer: TokenTable, s: string, base: Mask)
    requires Extends(newer, older)
    ensures ParseSpec(older, s, base).mask * AllBits(older) == ParseSpec(newer, s, base).mask * AllBits(older)
    ensures ParseSpec(newer, s, base).unknown == Rejected(newer, ParseSpec(older, s, base).unknown)
  {
    ParseIsFold(older, s, base);
    ParseIsFold(newer, s, base);
    RejectedByNewer(older, newer, Split(s, ','));
    forall b: Bit | b in AllBits(older)
      ensures b in ParseSpec(older, s, base).mask <==> b in ParseSpec(newer, s, base).mask
    {
      FoldAgreesOnOldBits(older, newer, Split(s, ','), base, base, b);
    }
  }

  /** The same at the configuration boundary, for every configured mask and environment value. */
  lemma ResolvedMaskIsForwardCompatible(
    older: TokenTable, newer: TokenTable, configured: Option<Mask>, env: Option<string>)
    requires Extends(newer, older)
    ensures ResolveErrorMask(older, configured, env) * AllBits(older)
         == ResolveErrorMask(newer, configured, env) * AllBits(older)
  {
    if env.Some? {
      ForwardCompatible(older, newer, env.value, if configured.None? then EMPTY else configured.value);
    }
  }

  /** A nil mask and an unset or empty environment variable leave every category reported; a configured
      mask is honoured as it is, and the environment acts on top of it. */
  lemma ResolvedMaskDefaults(t: TokenTable, m: Mask, s: string)
    ensures ResolveErrorMask(t, None, None) == ResolveErrorMask(t, None, Some("")) == EMPTY
    ensures ResolveErrorMask(t, Some(m), None) == ResolveErrorMask(t, Some(m), Some("")) == m
    ensures ResolveErrorMask(t, None, Some(s)) == ParseSpec(t, s, {}).mask
    ensures ResolveErrorMask(t, Some(m), Some(s)) == ParseSpec(t, s, m).mask
    ensures ResolveErrorMask(t, Some(m), Some(s))
         == m * ParseSpec(t, s, FULL).mask + ResolveErrorMask(t, None, Some(s))
  {
    ParseIsAffine(t, s, m);
    ParseIsAffine(t, s, EMPTY);
  }
}
