/**
  The partial-failure mask: a 32-bit field with one bit per failure category, its printer and its
  token interpreter. Everything is stated over an arbitrary token table; `MaskTable` holds the
  table the client ships.
 */
module ErrorMask {
  import opened Options
  import opened Text

  /** A bit position of the 32-bit word. */
  type Bit = n: nat | n < 32

  /** A 32-bit word, as the set of its one bits: `|` is union, `&` intersection, `&^` difference. */
  type Mask = set<Bit>

  const EMPTY: Mask := {}
  const TOKEN_ALL := "all"
  const TOKEN_EMPTY := "empty"
  const TOKEN_NONE := "none"
  const TOKEN_UNKNOWN := "unknown"

  /** The category `1 << bit` and its name. */
  datatype TokenEntry = TokenEntry(bit: Bit, token: string)

  type TokenTable = seq<TokenEntry>

  /** Every bit of `bits` is set on `m`. */
  predicate Has(m: Mask, bits: Mask) {
    bits <= m
  }

  predicate Reserved(name: string) {
    name == TOKEN_ALL || ResetName(name)
  }

  predicate ResetName(name: string) {
    name == TOKEN_EMPTY || name == TOKEN_NONE || name == TOKEN_UNKNOWN
  }

  /** A name that survives splitting, trimming and sign removal unchanged. */
  predicate PlainName(name: string) {
    name != "" && Trimmed(name) && ',' !in name && name[0] != '+' && name[0] != '-'
  }

  predicate ProperName(name: string) {
    PlainName(name) && !Reserved(name)
  }

  /** Distinct bits under proper, distinct names. */
  ghost predicate WellFormed(t: TokenTable) {
    && (forall i :: 0 <= i < |t| ==> ProperName(t[i].token))
    && (forall i, j :: 0 <= i < j < |t| ==> t[i].bit != t[j].bit && t[i].token != t[j].token)
  }

  /** The union of every defined bit. */
  function AllBits(t: TokenTable): Mask {
    if t == [] then EMPTY else {t[0].bit} + AllBits(t[1..])
  }

  // ---------------------------------------------------------------------------
  // What a name and a token mean
  // ---------------------------------------------------------------------------

  datatype Meaning = Bits(bits: Mask) | ResetAll | NotFound

  function Lookup(t: TokenTable, name: string): Meaning {
    if t == [] then NotFound
    else if name == t[0].token then Bits({t[0].bit})
    else Lookup(t[1..], name)
  }

  function Resolve(t: TokenTable, name: string): Meaning {
    if name == TOKEN_ALL then Bits(AllBits(t))
    else if ResetName(name) then ResetAll
    else Lookup(t, name)
  }

  /** The effect of one comma-separated piece of the input on the mask. */
  datatype Action = Skip | Reject | Reset | Turn(bits: Mask, on: bool)

  function Interpret(t: TokenTable, raw: string): Action {
    var tok := TrimSpace(raw);
    if tok == "" then Skip
    else
      var on := tok[0] != '-';
      var name := if tok[0] == '+' || tok[0] == '-' then tok[1..] else tok;
      ActionOf(Resolve(t, name), on)
  }

  function ActionOf(meaning: Meaning, on: bool): Action {
    match meaning
    case NotFound => Reject
    case ResetAll => Reset
    case Bits(bits) => Turn(bits, on)
  }

  function Apply(a: Action, m: Mask): Mask {
    match a
    case Skip => m
    case Reject => m
    case Reset => EMPTY
    case Turn(bits, on) => if on then m + bits else m - bits
  }

  /** Left-to-right application of a list of pieces. */
  function ApplyAll(t: TokenTable, raws: seq<string>, m: Mask): Mask {
    if raws == [] then m else ApplyAll(t, raws[1..], Apply(Interpret(t, raws[0]), m))
  }

  /** The pieces no rule recognises, untrimmed and in order. */
  function Rejected(t: TokenTable, raws: seq<string>): seq<string> {
    if raws == [] then []
    else if Interpret(t, raws[0]).Reject? then [raws[0]] + Rejected(t, raws[1..])
    else Rejected(t, raws[1..])
  }

  datatype Parsed = Parsed(mask: Mask, unknown: seq<string>)

  function ParseSpec(t: TokenTable, s: string, base: Mask): Parsed {
    if s == "" then Parsed(base, [])
    else Parsed(ApplyAll(t, Split(s, ','), base), Rejected(t, Split(s, ',')))
  }

  // ---------------------------------------------------------------------------
  // Printing
  // ---------------------------------------------------------------------------

  /** The tokens of the set categories, in table order. */
  function TokensOf(t: TokenTable, m: Mask): seq<string> {
    if t == [] then []
    else if Has(m, {t[0].bit}) then [t[0].token] + TokensOf(t[1..], m)
    else TokensOf(t[1..], m)
  }

  function Print(t: TokenTable, m: Mask): string {
    if m == EMPTY then TOKEN_EMPTY else Join(TokensOf(t, m), ',')
  }

  // ---------------------------------------------------------------------------
  // The loops
  // ---------------------------------------------------------------------------

  function UnionOf(bits: seq<Mask>): Mask {
    if bits == [] then EMPTY else UnionOf(bits[..|bits| - 1]) + bits[|bits| - 1]
  }

  method New(bits: seq<Mask>) returns (m: Mask)
    ensures m == UnionOf(bits)
  {
    m := EMPTY;
    for i := 0 to |bits|
      invariant m == UnionOf(bits[..i])
    {
      assert bits[..i + 1][..i] == bits[..i];
      m := m + bits[i];
    }
    assert bits[..|bits|] == bits;
  }

  /** The union is the least mask that has every listed bit. */
  lemma {:induction false} UnionIsLeast(bits: seq<Mask>, other: Mask)
    ensures Has(other, UnionOf(bits)) <==> forall i :: 0 <= i < |bits| ==> Has(other, bits[i])
  {
    if bits != [] {
      UnionIsLeast(bits[..|bits| - 1], other);
    }
  }

  method NameToBit(t: TokenTable, name: string) returns (bit: Mask, isReset: bool, ok: bool)
    ensures match Resolve(t, name)
            case NotFound => !ok && !isReset && bit == EMPTY
            case ResetAll => ok && isReset && bit == EMPTY
            case Bits(bits) => ok && !isReset && bit == bits
  {
    if name == TOKEN_ALL {
      return AllBits(t), false, true;
    }
    if name == TOKEN_EMPTY || name == TOKEN_NONE || name == TOKEN_UNKNOWN {
      return EMPTY, true, true;
    }
    for i := 0 to |t|
      invariant Lookup(t, name) == Lookup(t[i..], name)
    {
      if name == t[i].token {
        return {t[i].bit}, false, true;
      }
      assert t[i..][1..] == t[i + 1..];
    }
    assert t[|t|..] == [];
    return EMPTY, false, false;
  }

  /** Applying two lists in turn is applying their concatenation. */
  lemma {:induction false} ApplyAllOfConcat(t: TokenTable, a: seq<string>, b: seq<string>, m: Mask)
    ensures ApplyAll(t, a + b, m) == ApplyAll(t, b, ApplyAll(t, a, m))
  {
    if a == [] {
      assert a + b == b;
    } else {
      assert (a + b)[1..] == a[1..] + b;
      ApplyAllOfConcat(t, a[1..], b, Apply(Interpret(t, a[0]), m));
    }
  }

  lemma {:induction false} RejectedOfConcat(t: TokenTable, a: seq<string>, b: seq<string>)
    ensures Rejected(t, a + b) == Rejected(t, a) + Rejected(t, b)
  {
    if a == [] {
      assert a + b == b;
    } else {
      assert (a + b)[1..] == a[1..] + b;
      RejectedOfConcat(t, a[1..], b);
    }
  }

  /** One more piece of the input. */
  lemma NextPiece(t: TokenTable, raws: seq<string>, i: nat, base: Mask)
    requires i < |raws|
    ensures ApplyAll(t, raws[..i + 1], base) == Apply(Interpret(t, raws[i]), ApplyAll(t, raws[..i], base))
    ensures Rejected(t, raws[..i + 1])
         == if Interpret(t, raws[i]).Reject? then Rejected(t, raws[..i]) + [raws[i]] else Rejected(t, raws[..i])
  {
    assert raws[..i + 1] == raws[..i] + [raws[i]];
    ApplyAllOfConcat(t, raws[..i], [raws[i]], base);
    RejectedOfConcat(t, raws[..i], [raws[i]]);
    assert [raws[i]][1..] == [];
  }

  method Parse(t: TokenTable, s: string, base: Mask) returns (out: Mask, unknown: seq<string>)
    ensures Parsed(out, unknown) == ParseSpec(t, s, base)
  {
    out, unknown := base, [];
    if s == "" {
      return;
    }
    var raws := Split(s, ',');
    for i := 0 to |raws|
      invariant out == ApplyAll(t, raws[..i], base)
      invariant unknown == Rejected(t, raws[..i])
    {
      var raw := raws[i];
      NextPiece(t, raws, i, base);
      var tok := TrimSpace(raw);
      if tok == "" {
        continue;
      }
      var on := true;
      if tok[0] == '+' {
        tok := tok[1..];
      } else if tok[0] == '-' {
        on := false;
        tok := tok[1..];
      }
      var bit, isReset, ok := NameToBit(t, tok);
      if !ok {
        unknown := unknown + [raw];
        continue;
      }
      if isReset {
        out := EMPTY;
      } else if on {
        out := out + bit;
      } else {
        out := out - bit;
      }
    }
    assert raws[..|raws|] == raws;
  }

  method ToString(t: TokenTable, m: Mask) returns (s: string)
    ensures s == Print(t, m)
  {
    if m == EMPTY {
      return TOKEN_EMPTY;
    }
    var parts: seq<string> := [];
    assert t[0..] == t;
    for i := 0 to |t|
      invariant TokensOf(t, m) == parts + TokensOf(t[i..], m)
    {
      assert t[i..][1..] == t[i + 1..];
      if Has(m, {t[i].bit}) {
        parts := parts + [t[i].token];
      }
    }
    assert t[|t|..] == [];
    assert parts + [] == parts;
    s := Join(parts, ',');
  }

  /** The mask a new client starts from: nil means "report everything", and a set environment
      variable is applied on top. */
  function ResolveErrorMask(t: TokenTable, configured: Option<Mask>, env: Option<string>): Mask {
    var base := if configured.None? then EMPTY else configured.value;
    if env.Some? && env.value != "" then ParseSpec(t, env.value, base).mask else base
  }
}
