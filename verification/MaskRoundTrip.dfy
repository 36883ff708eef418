/** Printing and parsing are inverse on the defined bits, for every well-formed token table. */
module MaskRoundTrip {
  import opened Text
  import opened ErrorMask
  import opened MaskLaws

  lemma {:induction false} LookupOfEntry(t: TokenTable, i: nat)
    requires WellFormed(t) && i < |t|
    ensures Lookup(t, t[i].token) == Bits({t[i].bit})
  {
    if i > 0 {
      LookupOfEntry(t[1..], i - 1);
    }
  }

  /** One piece with no comma in it. */
  lemma ParseOfPiece(t: TokenTable, raw: string, m: Mask)
    requires ',' !in raw
    ensures ParseSpec(t, raw, m) == Parsed(Apply(Interpret(t, raw), m), if Interpret(t, raw).Reject? then [raw] else [])
  {
    ParseIsFold(t, raw, m);
    SplitOfFree(raw, ',');
    NextPiece(t, [raw], 0, m);
    assert [raw][..1] == [raw] && [raw][..0] == [];
  }

  /** A sign only chooses between setting and clearing; no sign sets. */
  lemma SignedName(t: TokenTable, name: string)
    requires PlainName(name)
    ensures Interpret(t, name) == Interpret(t, "+" + name) == ActionOf(Resolve(t, name), true)
    ensures Interpret(t, "-" + name) == ActionOf(Resolve(t, name), false)
  {
    TrimSpaceFixes(name);
    TrimSpaceFixes("+" + name);
    TrimSpaceFixes("-" + name);
    assert ("+" + name)[1..] == name && ("-" + name)[1..] == name;
  }

  lemma ParseOfSignedName(t: TokenTable, name: string, m: Mask)
    requires PlainName(name)
    requires !Resolve(t, name).NotFound?
    ensures ParseSpec(t, name, m) == ParseSpec(t, "+" + name, m)
         == Parsed(Apply(ActionOf(Resolve(t, name), true), m), [])
    ensures ParseSpec(t, "-" + name, m) == Parsed(Apply(ActionOf(Resolve(t, name), false), m), [])
  {
    SignedName(t, name);
    ParseOfPiece(t, name, m);
    ParseOfPiece(t, "+" + name, m);
    ParseOfPiece(t, "-" + name, m);
  }

  /** `name` and `+name` mask exactly that category; `-name` reports exactly that category. */
  lemma CategoryNames(t: TokenTable, i: nat, m: Mask)
    requires WellFormed(t) && i < |t|
    ensures ParseSpec(t, t[i].token, m) == ParseSpec(t, "+" + t[i].token, m) == Parsed(m + {t[i].bit}, [])
    ensures ParseSpec(t, "-" + t[i].token, m) == Parsed(m - {t[i].bit}, [])
  {
    assert ProperName(t[i].token);
    LookupOfEntry(t, i);
    ParseOfSignedName(t, t[i].token, m);
  }

  lemma ReservedNamesArePlain(name: string)
    requires Reserved(name)
    ensures PlainName(name)
  {
  }

  /** `all` and `-all` reach every defined bit and no other; a reset name clears even undefined
      bits, under either sign. */
  lemma {:induction false} ReservedNames(t: TokenTable, name: string, m: Mask)
    requires Reserved(name)
    ensures name == TOKEN_ALL ==> ParseSpec(t, name, m) == ParseSpec(t, "+" + name, m) == Parsed(m + AllBits(t), [])
    ensures name == TOKEN_ALL ==> ParseSpec(t, "-" + name, m) == Parsed(m - AllBits(t), [])
    ensures ResetName(name) ==> ParseSpec(t, name, m) == ParseSpec(t, "+" + name, m) == Parsed(EMPTY, [])
    ensures ResetName(name) ==> ParseSpec(t, "-" + name, m) == Parsed(EMPTY, [])
  {
    ReservedNamesArePlain(name);
    ParseOfSignedName(t, name, m);
  }

  // ---------------------------------------------------------------------------
  // The round trip
  // ---------------------------------------------------------------------------

  lemma {:induction false} TokensAreProper(t: TokenTable, m: Mask)
    requires WellFormed(t)
    ensures forall p :: p in TokensOf(t, m) ==> p != "" && ',' !in p
  {
    if t != [] {
      TokensAreProper(t[1..], m);
      assert ProperName(t[0].token);
    }
  }

  lemma ApplyPrintedToken(t: TokenTable, i: nat, rest: seq<string>, acc: Mask)
    requires WellFormed(t) && i < |t|
    ensures ApplyAll(t, [t[i].token] + rest, acc) == ApplyAll(t, rest, acc + {t[i].bit})
    ensures Rejected(t, [t[i].token] + rest) == Rejected(t, rest)
  {
    assert ProperName(t[i].token);
    LookupOfEntry(t, i);
    SignedName(t, t[i].token);
    assert ([t[i].token] + rest)[1..] == rest;
  }

  /** Applying the printed tokens of a suffix of the table adds exactly the set bits of that suffix. */
  lemma {:induction false} ApplyTokens(t: TokenTable, from: nat, m: Mask, acc: Mask)
    requires WellFormed(t) && from <= |t|
    ensures ApplyAll(t, TokensOf(t[from..], m), acc) == acc + m * AllBits(t[from..])
    ensures Rejected(t, TokensOf(t[from..], m)) == []
    decreases |t| - from
  {
    if from < |t| {
      var b := t[from].bit;
      assert t[from..][1..] == t[from + 1..];
      if b in m {
        ApplyTokens(t, from + 1, m, acc + {b});
        ApplyPrintedToken(t, from, TokensOf(t[from + 1..], m), acc);
      } else {
        ApplyTokens(t, from + 1, m, acc);
      }
    }
  }

  /** Parsing what was printed gives the mask back, restricted to the defined bits, and rejects
      nothing. */
  lemma RoundTrip(t: TokenTable, m: Mask)
    requires WellFormed(t)
    ensures ParseSpec(t, Print(t, m), EMPTY) == Parsed(m * AllBits(t), [])
  {
    var tokens := TokensOf(t, m);
    assert t[0..] == t;
    ApplyTokens(t, 0, m, EMPTY);
    if m == EMPTY {
      ReservedNames(t, TOKEN_EMPTY, EMPTY);
    } else if tokens != [] {
      TokensAreProper(t, m);
      SplitOfJoin(tokens, ',');
      ParseIsFold(t, Join(tokens, ','), EMPTY);
    }
  }

  /** Parsing from zero never produces an undefined bit. */
  lemma {:induction false} StaysDefined(t: TokenTable, raws: seq<string>, m: Mask)
    requires m <= AllBits(t)
    ensures ApplyAll(t, raws, m) <= AllBits(t)
  {
    if raws != [] {
      var tok := TrimSpace(raws[0]);
      if tok != "" {
        LookupIsDefined(t, if tok[0] == '+' || tok[0] == '-' then tok[1..] else tok);
      }
      StaysDefined(t, raws[1..], Apply(Interpret(t, raws[0]), m));
    }
  }

  /** Normalisation: for every text, printing its mask and parsing again is stable. */
  lemma PrintedTextIsCanonical(t: TokenTable, s: string)
    requires WellFormed(t)
    ensures var m := ParseSpec(t, s, EMPTY).mask;
            ParseSpec(t, Print(t, m), EMPTY) == Parsed(m, [])
  {
    var m := ParseSpec(t, s, EMPTY).mask;
    ParseIsFold(t, s, EMPTY);
    StaysDefined(t, Split(s, ','), EMPTY);
    RoundTrip(t, m);
    assert m * AllBits(t) == m;
  }

  lemma {:induction false} TokensOfDefinedBits(t: TokenTable, from: nat, m: Mask)
    requires from <= |t|
    ensures TokensOf(t[from..], m * AllBits(t)) == TokensOf(t[from..], m)
    decreases |t| - from
  {
    if from < |t| {
      var rest := t[from..];
      assert rest[1..] == t[from + 1..] && rest[0] == t[from];
      TokensOfDefinedBits(t, from + 1, m);
      AllBitsHolds(t, t[from].bit);
    }
  }

  lemma {:induction false} NoTokens(t: TokenTable, m: Mask)
    ensures TokensOf(t, m) == [] <==> m * AllBits(t) == EMPTY
  {
    if t != [] {
      NoTokens(t[1..], m);
      assert m * AllBits(t) == m * {t[0].bit} + m * AllBits(t[1..]);
      assert m * {t[0].bit} == if t[0].bit in m then {t[0].bit} else EMPTY;
    }
  }

  /** Printing is idempotent through the parser exactly when the mask is zero or has a defined bit:
      a mask of undefined bits only prints as the empty text, which reads back as zero, and zero
      prints as `empty`. */
  lemma ReprintIsStable(t: TokenTable, m: Mask)
    requires WellFormed(t)
    ensures Print(t, ParseSpec(t, Print(t, m), EMPTY).mask) == Print(t, m)
       <==> m == EMPTY || m * AllBits(t) != EMPTY
  {
    RoundTrip(t, m);
    NoTokens(t, m);
    assert t[0..] == t;
    TokensOfDefinedBits(t, 0, m);
  }
}
