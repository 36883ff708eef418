/** ParseVersion: three dot-separated decimal numbers at the start of a string. */
module Version {
  import opened Options

  const INT_LIMIT: int := 0x8000_0000_0000_0000

  predicate IsDigit(c: char) {
    '0' <= c <= '9'
  }

  predicate AllDigits(s: string) {
    forall i :: 0 <= i < |s| ==> IsDigit(s[i])
  }

  function Value(digits: string): nat
    requires AllDigits(digits)
  {
    if digits == "" then 0
    else 10 * Value(digits[..|digits| - 1]) + (digits[|digits| - 1] as int - '0' as int)
  }

  /** The longest run of digits at the start. */
  function Digits(s: string): (d: string)
    ensures AllDigits(d) && d <= s
    ensures |d| < |s| ==> !IsDigit(s[|d|])
  {
    if s != "" && IsDigit(s[0]) then [s[0]] + Digits(s[1..]) else ""
  }

  /** A non-empty digit string not followed by a further digit. */
  predicate Number(d: string, rest: string) {
    d != "" && AllDigits(d) && (rest == "" || !IsDigit(rest[0]))
  }

  /** [0-9]+\. at the start: the digits and what follows the dot. */
  function NumberAndDot(s: string): (r: Option<(string, string)>)
    ensures r.Some? ==> Number(r.value.0, ".") && s == r.value.0 + "." + r.value.1
  {
    var x := Digits(s);
    if x == "" || |x| == |s| || s[|x|] != '.' then None
    else
      assert s == x + "." + s[|x| + 1..];
      Some((x, s[|x| + 1..]))
  }

  datatype Groups = Groups(major: string, minor: string, patch: string)

  /** The three submatches of ^([0-9]+)\.([0-9]+)\.([0-9]+). */
  function Match(s: string): (r: Option<Groups>)
    ensures r.Some? ==> AllDigits(r.value.major) && AllDigits(r.value.minor) && AllDigits(r.value.patch)
  {
    var (x, s1) :- NumberAndDot(s);
    var (y, s2) :- NumberAndDot(s1);
    var z := Digits(s2);
    if z == "" then None else Some(Groups(x, y, z))
  }

  /** strconv.ParseInt in base ten, on a 64-bit platform, of a non-empty digit string. */
  function ParseInt(digits: string): Option<int>
    requires AllDigits(digits)
  {
    if Value(digits) < INT_LIMIT then Some(Value(digits)) else None
  }

  function ParseVersion(s: string): Option<(int, int, int)> {
    var g :- Match(s);
    var major :- ParseInt(g.major);
    var minor :- ParseInt(g.minor);
    var patch :- ParseInt(g.patch);
    Some((major, minor, patch))
  }

  // ---------------------------------------------------------------------------
  // What is accepted
  // ---------------------------------------------------------------------------

  /** `s` starts with three numbers separated by dots. */
  predicate Dotted(s: string, x: string, y: string, z: string, rest: string) {
    && s == x + "." + (y + "." + (z + rest))
    && Number(x, ".") && Number(y, ".") && Number(z, rest)
  }

  lemma {:induction false} DigitsOfNumber(d: string, rest: string)
    requires AllDigits(d) && (rest == "" || !IsDigit(rest[0]))
    ensures Digits(d + rest) == d
  {
    if d == "" {
      assert d + rest == rest;
    } else {
      assert (d + rest)[1..] == d[1..] + rest;
      DigitsOfNumber(d[1..], rest);
    }
  }

  /** The match finds the three numbers whenever they are there. */
  lemma {:induction false} MatchFinds(s: string, x: string, y: string, z: string, rest: string)
    requires Dotted(s, x, y, z, rest)
    ensures Match(s) == Some(Groups(x, y, z))
  {
    var s2 := z + rest;
    var s1 := y + "." + s2;
    NumberAndDotFinds(s, x, s1);
    NumberAndDotFinds(s1, y, s2);
    DigitsOfNumber(z, rest);
  }

  lemma {:induction false} NumberAndDotFinds(s: string, x: string, rest: string)
    requires s == x + "." + rest && Number(x, ".")
    ensures NumberAndDot(s) == Some((x, rest))
  {
    assert s == x + ("." + rest);
    DigitsOfNumber(x, "." + rest);
    assert s[|x| + 1..] == rest;
  }

  /** And only then. */
  lemma {:induction false} MatchIsDotted(s: string)
    requires Match(s).Some?
    ensures exists rest :: Dotted(s, Match(s).value.major, Match(s).value.minor, Match(s).value.patch, rest)
  {
    var g := Match(s).value;
    var s1 := NumberAndDot(s).value.1;
    var s2 := NumberAndDot(s1).value.1;
    PrefixAndRest(g.patch, s2);
    Assemble(s, s1, s2, g, s2[|g.patch|..]);
  }

  lemma PrefixAndRest(d: string, s: string)
    requires d <= s
    ensures s == d + s[|d|..]
  {
  }

  lemma Assemble(s: string, s1: string, s2: string, g: Groups, rest: string)
    requires s == g.major + "." + s1 && s1 == g.minor + "." + s2 && s2 == g.patch + rest
    requires Number(g.major, ".") && Number(g.minor, ".") && Number(g.patch, rest)
    ensures Dotted(s, g.major, g.minor, g.patch, rest)
  {
  }

  lemma {:induction false} VersionOfDotted(s: string, x: string, y: string, z: string, rest: string)
    requires Dotted(s, x, y, z, rest)
    ensures ParseVersion(s)
         == if Value(x) < INT_LIMIT && Value(y) < INT_LIMIT && Value(z) < INT_LIMIT
            then Some((Value(x), Value(y), Value(z)))
            else None
  {
    MatchFinds(s, x, y, z, rest);
  }

  /** A version is returned exactly when the string starts with three dotted numbers, each below 2^63,
      and then it is their values. */
  lemma {:induction false} ParseVersionAccepts(s: string, v: (int, int, int))
    ensures ParseVersion(s) == Some(v)
       <==> exists x, y, z, rest :: Dotted(s, x, y, z, rest) && v == (Value(x), Value(y), Value(z))
              && v.0 < 0x8000_0000_0000_0000 && v.1 < 0x8000_0000_0000_0000 && v.2 < 0x8000_0000_0000_0000
  {
    if ParseVersion(s) == Some(v) {
      MatchIsDotted(s);
      var g := Match(s).value;
      var rest :| Dotted(s, g.major, g.minor, g.patch, rest);
      VersionOfDotted(s, g.major, g.minor, g.patch, rest);
    }
    if x, y, z, rest :| Dotted(s, x, y, z, rest) && v == (Value(x), Value(y), Value(z)) {
      VersionOfDotted(s, x, y, z, rest);
    }
  }

  // ---------------------------------------------------------------------------
  // Printing
  // ---------------------------------------------------------------------------

  function Decimal(n: nat): (s: string)
    ensures s != "" && AllDigits(s)
  {
    if n < 10 then ['0' + n as char] else Decimal(n / 10) + ['0' + (n % 10) as char]
  }

  lemma {:induction false} ValueOfDecimal(n: nat)
    ensures Value(Decimal(n)) == n
  {
    var s := Decimal(n);
    if n < 10 {
      assert s[..|s| - 1] == "";
    } else {
      ValueOfDecimal(n / 10);
      assert s[..|s| - 1] == Decimal(n / 10);
    }
  }

  function Printed(a: nat, b: nat, c: nat, suffix: string): string {
    Decimal(a) + "." + (Decimal(b) + "." + (Decimal(c) + suffix))
  }

  /** Parsing inverts printing, whatever follows the third number, as long as it is not a digit; a
      component that does not fit an int makes it fail. */
  lemma {:induction false} ParseOfPrinted(a: nat, b: nat, c: nat, suffix: string)
    requires suffix == "" || !IsDigit(suffix[0])
    ensures ParseVersion(Printed(a, b, c, suffix))
         == if a < INT_LIMIT && b < INT_LIMIT && c < INT_LIMIT then Some((a, b, c)) else None
  {
    ValueOfDecimal(a);
    ValueOfDecimal(b);
    ValueOfDecimal(c);
    VersionOfDotted(Printed(a, b, c, suffix), Decimal(a), Decimal(b), Decimal(c), suffix);
  }

  function Pow10(n: nat): nat {
    if n == 0 then 1 else 10 * Pow10(n - 1)
  }

  lemma {:induction false} ValueOfNext(d: string, c: char)
    requires AllDigits(d) && IsDigit(c)
    ensures AllDigits(d + [c]) && Value(d + [c]) == 10 * Value(d) + (c as int - '0' as int)
  {
    assert (d + [c])[..|d|] == d;
  }

  lemma TimesTen(v: nat, p: nat)
    ensures v * (10 * p) == 10 * (v * p)
  {
  }

  lemma {:induction false} ValueOfDigit(c: char)
    requires IsDigit(c)
    ensures Value([c]) == c as int - '0' as int
  {
    ValueOfNext("", c);
    assert "" + [c] == [c];
  }

  /** Digits count in tens: what stands before `b` counts ten times for each digit of `b`. */
  lemma {:induction false} ValueOfConcat(a: string, b: string)
    requires AllDigits(a) && AllDigits(b)
    ensures AllDigits(a + b) && Value(a + b) == Value(a) * Pow10(|b|) + Value(b)
  {
    if b == "" {
      assert a + b == a;
    } else {
      var front, c := b[..|b| - 1], b[|b| - 1];
      ValueOfConcat(a, front);
      ValueOfNext(front, c);
      ValueOfNext(a + front, c);
      assert b == front + [c] && a + b == (a + front) + [c];
      TimesTen(Value(a), Pow10(|front|));
    }
  }
}
