/** The behaviour of the Go standard-library text routines that the scoring
    pipeline relies on: strings.TrimSpace, strings.Split, strconv.Atoi,
    strconv.ParseFloat (decimal input) and fmt's "%0Nd" verb.  Strings are
    sequences of Unicode code points, as Go's rune-based helpers see them. */
module Text {
  import opened Results

  // ---------------------------------------------------------------------------
  // strings.TrimSpace
  // ---------------------------------------------------------------------------

  /** unicode.IsSpace: the Latin-1 spaces and the Unicode White_Space characters. */
  predicate IsSpace(c: char) {
    || c == ' ' || c == '\t' || c == '\n' || c == '\r' || c == '\U{0B}' || c == '\U{0C}'
    || c == '\U{85}' || c == '\U{A0}' || c == '\U{1680}'
    || ('\U{2000}' <= c <= '\U{200A}')
    || c == '\U{2028}' || c == '\U{2029}' || c == '\U{202F}' || c == '\U{205F}' || c == '\U{3000}'
  }

  /** Neither end of `s` is a space. */
  predicate IsTrimmed(s: string) {
    s == [] || (!IsSpace(s[0]) && !IsSpace(s[|s| - 1]))
  }

  predicate AllSpaces(s: string) {
    forall i :: 0 <= i < |s| ==> IsSpace(s[i])
  }

  /** `s` without its leading spaces. */
  function TrimLeft(s: string): string {
    if |s| > 0 && IsSpace(s[0]) then TrimLeft(s[1..]) else s
  }

  /** `s` without its trailing spaces. */
  function TrimRight(s: string): string {
    if |s| > 0 && IsSpace(s[|s| - 1]) then TrimRight(s[..|s| - 1]) else s
  }

  /** TrimLeft removes a run of spaces from the front, and stops at a non-space. */
  lemma {:induction false} TrimLeftFacts(s: string)
    ensures var r := TrimLeft(s); |r| <= |s| && r == s[|s| - |r|..] && (r == [] || !IsSpace(r[0]))
    ensures AllSpaces(s[..|s| - |TrimLeft(s)|])
  {
    if |s| > 0 && IsSpace(s[0]) {
      TrimLeftFacts(s[1..]);
      var r := TrimLeft(s[1..]);
      assert s[1..][|s| - 1 - |r|..] == s[|s| - |r|..];
      assert s[..|s| - |r|] == [s[0]] + s[1..][..|s| - 1 - |r|];
    } else {
      assert s[..0] == [];
    }
  }

  /** TrimRight removes a run of spaces from the back, and stops at a non-space. */
  lemma {:induction false} TrimRightFacts(s: string)
    ensures var r := TrimRight(s); |r| <= |s| && r == s[..|r|] && (r == [] || !IsSpace(r[|r| - 1]))
    ensures AllSpaces(s[|TrimRight(s)|..])
  {
    if |s| > 0 && IsSpace(s[|s| - 1]) {
      TrimRightFacts(s[..|s| - 1]);
      var r := TrimRight(s[..|s| - 1]);
      assert s[..|s| - 1][..|r|] == s[..|r|];
      assert s[|r|..] == s[..|s| - 1][|r|..] + [s[|s| - 1]];
    } else {
      assert s[|s|..] == [];
    }
  }

  /** strings.TrimSpace: `s` without its leading and trailing spaces. */
  function TrimSpace(s: string): (r: string)
    ensures IsTrimmed(r)
    ensures |r| <= |s|
  {
    TrimLeftFacts(s);
    TrimRightFacts(TrimLeft(s));
    TrimRight(TrimLeft(s))
  }

  /** What TrimSpace removes is spaces only: `s` is its result with nothing
      but spaces on either side. */
  lemma TrimSpaceSlice(s: string) returns (pre: string, post: string)
    ensures s == pre + TrimSpace(s) + post && AllSpaces(pre) && AllSpaces(post)
  {
    var left := TrimLeft(s);
    var r := TrimRight(left);
    TrimLeftFacts(s);
    TrimRightFacts(left);
    pre := s[..|s| - |left|];
    post := left[|r|..];
    SliceThree(s, pre, left, r, post);
  }

  lemma SliceThree(s: string, pre: string, left: string, r: string, post: string)
    requires |pre| <= |s| && pre == s[..|pre|] && left == s[|pre|..]
    requires |r| <= |left| && r == left[..|r|] && post == left[|r|..]
    ensures s == pre + r + post
  {
    assert s == pre + left;
    assert left == r + post;
  }

  /** TrimSpace removes exactly the surrounding spaces: whatever text with no
      space at either end is padded by spaces comes back unchanged. */
  lemma {:induction false} TrimSpaceOfPadded(pre: string, t: string, post: string)
    requires AllSpaces(pre) && AllSpaces(post) && IsTrimmed(t)
    ensures TrimSpace(pre + t + post) == t
  {
    if t == [] {
      assert pre + t + post == (pre + post) + [];
      TrimLeftOfPadded(pre + post, []);
      assert TrimLeft(pre + t + post) == [];
    } else {
      assert pre + t + post == pre + (t + post);
      TrimLeftOfPadded(pre, t + post);
      TrimRightOfPadded(t, post);
    }
  }

  /** Text with no space at either end is left alone. */
  lemma TrimSpaceOfTrimmed(t: string)
    requires IsTrimmed(t)
    ensures TrimSpace(t) == t
  {
    TrimSpaceOfPadded([], t, []);
    assert [] + t + [] == t;
  }

  lemma {:induction false} TrimLeftOfPadded(pre: string, rest: string)
    requires AllSpaces(pre) && (rest == [] || !IsSpace(rest[0]))
    ensures TrimLeft(pre + rest) == rest
  {
    if pre != [] {
      assert (pre + rest)[1..] == pre[1..] + rest;
      TrimLeftOfPadded(pre[1..], rest);
    }
  }

  lemma {:induction false} TrimRightOfPadded(t: string, post: string)
    requires AllSpaces(post) && t != [] && !IsSpace(t[|t| - 1])
    ensures TrimRight(t + post) == t
  {
    if post != [] {
      assert (t + post)[..|t + post| - 1] == t + post[..|post| - 1];
      TrimRightOfPadded(t, post[..|post| - 1]);
    } else {
      assert t + post == t;
    }
  }

  // ---------------------------------------------------------------------------
  // strings.Split with a one-character separator, and its inverse
  // ---------------------------------------------------------------------------

  /** strings.Join: the parts with `sep` between neighbours. */
  function Join(parts: seq<string>, sep: char): string
    requires |parts| >= 1
  {
    if |parts| == 1 then parts[0] else parts[0] + [sep] + Join(parts[1..], sep)
  }

  /** strings.Split(s, sep): the maximal separator-free pieces of `s`; the empty
      string gives one empty piece. */
  function Split(s: string, sep: char): (parts: seq<string>)
    ensures |parts| >= 1
  {
    if s == [] then [[]]
    else
      var rest := Split(s[1..], sep);
      if s[0] == sep then [[]] + rest
      else [[s[0]] + rest[0]] + rest[1..]
  }

  /** The pieces Split returns hold no separator, and joining them with the
      separator gives back the input. */
  lemma SplitPieces(s: string, sep: char)
    ensures forall i :: 0 <= i < |Split(s, sep)| ==> sep !in Split(s, sep)[i]
    ensures Join(Split(s, sep), sep) == s
  {
    SplitPiecesFree(s, sep);
    SplitRejoins(s, sep);
  }

  lemma {:induction false} SplitPiecesFree(s: string, sep: char)
    ensures forall i :: 0 <= i < |Split(s, sep)| ==> sep !in Split(s, sep)[i]
  {
    if s != [] {
      var rest := Split(s[1..], sep);
      SplitPiecesFree(s[1..], sep);
      if s[0] == sep {
        assert ([[]] + rest)[1..] == rest;
      } else {
        var parts := [[s[0]] + rest[0]] + rest[1..];
        assert parts[1..] == rest[1..];
      }
    }
  }

  lemma {:induction false} SplitRejoins(s: string, sep: char)
    ensures Join(Split(s, sep), sep) == s
  {
    if s != [] {
      var rest := Split(s[1..], sep);
      SplitRejoins(s[1..], sep);
      assert s == [s[0]] + s[1..];
      if s[0] == sep {
        assert ([[]] + rest)[1..] == rest;
      } else {
        var parts := [[s[0]] + rest[0]] + rest[1..];
        assert parts[1..] == rest[1..];
        if |rest| > 1 {
          assert Join(rest, sep) == rest[0] + [sep] + Join(rest[1..], sep);
        }
      }
    }
  }

  /** Splitting a joined list of separator-free pieces gives the pieces back. */
  lemma {:induction false} SplitJoin(parts: seq<string>, sep: char)
    requires |parts| >= 1
    requires forall i :: 0 <= i < |parts| ==> sep !in parts[i]
    ensures Split(Join(parts, sep), sep) == parts
  {
    if |parts| == 1 {
      SplitWithoutSeparator(parts[0], sep);
    } else {
      SplitJoin(parts[1..], sep);
      SplitAfterPiece(parts[0], Join(parts[1..], sep), sep);
      assert parts == [parts[0]] + parts[1..];
    }
  }

  lemma {:induction false} SplitWithoutSeparator(w: string, sep: char)
    requires sep !in w
    ensures Split(w, sep) == [w]
  {
    if w != [] {
      SplitWithoutSeparator(w[1..], sep);
      assert [w[0]] + w[1..] == w;
    }
  }

  lemma {:induction false} SplitAfterPiece(w: string, t: string, sep: char)
    requires sep !in w
    ensures Split(w + [sep] + t, sep) == [w] + Split(t, sep)
  {
    var s := w + [sep] + t;
    if w == [] {
      assert s[0] == sep && s[1..] == t;
    } else {
      assert s[0] == w[0] && s[1..] == w[1..] + [sep] + t;
      SplitAfterPiece(w[1..], t, sep);
      assert [w[0]] + w[1..] == w;
    }
  }

  // ---------------------------------------------------------------------------
  // Decimal digits
  // ---------------------------------------------------------------------------

  predicate IsDigit(c: char) {
    '0' <= c <= '9'
  }

  predicate AllDigits(s: string) {
    forall i :: 0 <= i < |s| ==> IsDigit(s[i])
  }

  function DigitValue(c: char): nat
    requires IsDigit(c)
  {
    c as int - '0' as int
  }

  function DigitChar(d: nat): (c: char)
    requires d < 10
    ensures IsDigit(c) && DigitValue(c) == d
  {
    ('0' as int + d) as char
  }

  /** The number a string of decimal digits denotes (leading zeros allowed). */
  function DigitsValue(s: string): nat
    requires AllDigits(s)
  {
    if s == [] then 0 else DigitsValue(s[..|s| - 1]) * 10 + DigitValue(s[|s| - 1])
  }

  function Pow10(n: nat): (p: nat)
    ensures p >= 1
  {
    if n == 0 then 1 else 10 * Pow10(n - 1)
  }

  /** The decimal digits of `n`, zero-padded on the left to at least `width`
      digits (and at least one digit). */
  function PadDigits(n: nat, width: nat): (s: string)
    ensures AllDigits(s) && DigitsValue(s) == n
    ensures |s| >= width && |s| >= 1
    ensures width >= 1 ==> (|s| == width <==> n < Pow10(width))
    decreases n, width
  {
    if n < 10 && width <= 1 then
      [DigitChar(n)]
    else
      var prefix := PadDigits(n / 10, if width == 0 then 0 else width - 1);
      var s := prefix + [DigitChar(n % 10)];
      assert s[..|s| - 1] == prefix;
      assert width >= 2 ==> Pow10(width) == 10 * Pow10(width - 1);
      s
  }

  /** Every digit string is the zero-padded rendering of its own value at its
      own width: PadDigits is the inverse of DigitsValue. */
  lemma {:induction false} PadDigitsOfDigits(s: string)
    requires AllDigits(s) && |s| >= 1
    ensures PadDigits(DigitsValue(s), |s|) == s
  {
    var p := s[..|s| - 1];
    if |s| > 1 {
      PadDigitsOfDigits(p);
      var n := DigitsValue(s);
      assert n / 10 == DigitsValue(p) && n % 10 == DigitValue(s[|s| - 1]);
      assert DigitChar(n % 10) == s[|s| - 1];
      assert p + [s[|s| - 1]] == s;
    }
  }

  // ---------------------------------------------------------------------------
  // fmt.Sprintf("%0<width>d", n)
  // ---------------------------------------------------------------------------

  /** fmt's "%0<width>d": the zero-padded decimal rendering of `n`; for a
      negative `n` the sign takes one of the `width` places. */
  function FormatPadded(n: int, width: nat): (s: string)
  {
    if n >= 0 then PadDigits(n, width)
    else "-" + PadDigits(-n, if width == 0 then 0 else width - 1)
  }

  /** "%0Nd" never writes fewer than N characters, and writes exactly N
      digits precisely for the numbers 0 .. 10^N - 1. */
  lemma FormatPaddedWidth(n: int, width: nat)
    requires width >= 1
    ensures |FormatPadded(n, width)| >= width
    ensures (|FormatPadded(n, width)| == width && AllDigits(FormatPadded(n, width)))
            <==> 0 <= n < Pow10(width)
    ensures 0 <= n ==> DigitsValue(FormatPadded(n, width)) == n
  {
    if n < 0 {
      var s := FormatPadded(n, width);
      assert s[0] == '-' && !IsDigit(s[0]);
    }
  }

  // ---------------------------------------------------------------------------
  // strconv.Atoi (64-bit int)
  // ---------------------------------------------------------------------------

  const MinInt64: int := -0x8000_0000_0000_0000
  const MaxInt64: int := 0x7FFF_FFFF_FFFF_FFFF

  /** Go's `int` addition on a 64-bit platform: the sum wraps around. */
  function AddInt64(a: int, b: int): (r: int)
    requires MinInt64 <= a <= MaxInt64 && MinInt64 <= b <= MaxInt64
    ensures MinInt64 <= r <= MaxInt64
    ensures MinInt64 <= a + b <= MaxInt64 ==> r == a + b
    ensures (r - (a + b)) % 0x1_0000_0000_0000_0000 == 0
  {
    var s := a + b;
    if s > MaxInt64 then s - 0x1_0000_0000_0000_0000
    else if s < MinInt64 then s + 0x1_0000_0000_0000_0000
    else s
  }

  /** strconv.Atoi: an optional sign followed by one or more decimal digits,
      whose value fits a 64-bit int; anything else is an error. */
  function Atoi(s: string): (r: Option<int>)
    ensures r.Some? ==> MinInt64 <= r.value <= MaxInt64
  {
    var signed := |s| > 0 && (s[0] == '+' || s[0] == '-');
    var digits := if signed then s[1..] else s;
    if digits == [] || !AllDigits(digits) then None
    else
      var magnitude: int := DigitsValue(digits);
      var v := if s[0] == '-' then -magnitude else magnitude;
      if MinInt64 <= v <= MaxInt64 then Some(v) else None
  }

  /** What Atoi accepts: an optional sign, then nothing but digits, at least
      one of them; the sign decides the sign of the value. */
  lemma AtoiShape(s: string)
    requires Atoi(s).Some?
    ensures |s| >= 1 && AllDigits(s[1..])
    ensures IsDigit(s[0]) || (|s| >= 2 && (s[0] == '+' || s[0] == '-'))
    ensures s[0] == '-' ==> Atoi(s).value <= 0
    ensures s[0] != '-' ==> Atoi(s).value >= 0
  {
    var signed := s[0] == '+' || s[0] == '-';
    var digits := if signed then s[1..] else s;
    if !signed {
      assert forall i :: 1 <= i < |s| ==> s[1..][i - 1] == s[i];
    }
  }

  /** Atoi reads back every 64-bit integer that "%0Nd" writes. */
  lemma AtoiFormatPadded(n: int, width: nat)
    requires MinInt64 <= n <= MaxInt64
    ensures Atoi(FormatPadded(n, width)) == Some(n)
  {
    var s := FormatPadded(n, width);
    if n < 0 {
      assert s[1..] == PadDigits(-n, if width == 0 then 0 else width - 1);
    }
  }

  /** Atoi reads back every unpadded or zero-padded non-negative 64-bit integer. */
  lemma AtoiPadDigits(n: nat, width: nat)
    requires n <= MaxInt64
    ensures Atoi(PadDigits(n, width)) == Some(n)
  {
    AtoiFormatPadded(n, width);
  }

  // ---------------------------------------------------------------------------
  // strconv.ParseFloat(s, 64), decimal syntax
  // ---------------------------------------------------------------------------

  /** strconv's underscore rule for a decimal literal: an underscore may only
      stand between two digits. */
  predicate UnderscoresBetweenDigits(s: string) {
    && (|s| > 0 ==> s[0] != '_' && s[|s| - 1] != '_')
    && forall i, j {:trigger s[i], s[j]} :: 0 <= i < |s| && 0 <= j < |s| && j == i + 1 ==>
         (s[i] == '_' ==> IsDigit(s[j])) && (s[j] == '_' ==> IsDigit(s[i]))
  }

  function RemoveUnderscores(s: string): (r: string)
    ensures '_' !in s ==> r == s
  {
    if s == [] then []
    else if s[|s| - 1] == '_' then RemoveUnderscores(s[..|s| - 1])
    else RemoveUnderscores(s[..|s| - 1]) + [s[|s| - 1]]
  }

  /** The length of the run of digits that starts `s`. */
  function LeadingDigits(s: string): (n: nat)
    ensures n <= |s| && AllDigits(s[..n]) && (n == |s| || !IsDigit(s[n]))
  {
    if s != [] && IsDigit(s[0]) then
      var n := 1 + LeadingDigits(s[1..]);
      assert s[..n] == [s[0]] + s[1..][..n - 1];
      n
    else 0
  }

  /** 10 raised to an integer power, exactly. */
  function Scale(e: int): (r: real)
    ensures r > 0.0
  {
    if e >= 0 then Pow10(e) as real else 1.0 / Pow10(-e) as real
  }

  /** The value of the digits after a decimal point. */
  function FractionValue(digits: string): real
    requires AllDigits(digits)
  {
    DigitsValue(digits) as real / Pow10(|digits|) as real
  }

  /** Digits, an optional fraction after '.', at least one digit in all:
      the value and the text that follows. */
  function ParseMantissa(body: string): Option<(real, string)>
  {
    var i := LeadingDigits(body);
    var whole := DigitsValue(body[..i]) as real;
    if i < |body| && body[i] == '.' then
      var fraction := body[i + 1..];
      var j := LeadingDigits(fraction);
      if i + j == 0 then None
      else Some((whole + FractionValue(fraction[..j]), fraction[j..]))
    else if i == 0 then None
    else Some((whole, body[i..]))
  }

  /** Nothing, or 'e'/'E', an optional sign and one or more digits. */
  function ParseExponent(rest: string): Option<int>
  {
    if rest == [] then Some(0)
    else if rest[0] != 'e' && rest[0] != 'E' then None
    else
      var signed := |rest| > 1 && (rest[1] == '+' || rest[1] == '-');
      var digits := if signed then rest[2..] else rest[1..];
      if digits == [] || !AllDigits(digits) then None
      else if signed && rest[1] == '-' then Some(0 - DigitsValue(digits))
      else Some(DigitsValue(digits))
  }

  function ParseDecimal(t: string): Option<real>
  {
    var signed := |t| > 0 && (t[0] == '+' || t[0] == '-');
    var body := if signed then t[1..] else t;
    match ParseMantissa(body)
    case None => None
    case Some((m, rest)) =>
      match ParseExponent(rest)
      case None => None
      case Some(e) =>
        var magnitude := m * Scale(e);
        Some(if signed && t[0] == '-' then -magnitude else magnitude)
  }

  /** strconv.ParseFloat(s, 64) on decimal input, with exact arithmetic. */
  function ParseFloat(s: string): (r: Option<real>)
    ensures r.Some? ==> exists i :: 0 <= i < |s| && IsDigit(s[i])
  {
    if UnderscoresBetweenDigits(s) then
      var r := ParseDecimal(RemoveUnderscores(s));
      if r.Some? then RemoveUnderscoresKeepsDigits(s); r else r
    else None
  }

  lemma {:induction false} RemoveUnderscoresKeepsDigits(s: string)
    requires ParseDecimal(RemoveUnderscores(s)).Some?
    ensures exists i :: 0 <= i < |s| && IsDigit(s[i])
  {
    var t := RemoveUnderscores(s);
    var k := DigitInParsed(t);
    DigitSurvives(s, k);
  }

  lemma DigitInParsed(t: string) returns (k: nat)
    requires ParseDecimal(t).Some?
    ensures k < |t| && IsDigit(t[k])
  {
    var signed := |t| > 0 && (t[0] == '+' || t[0] == '-');
    var body := if signed then t[1..] else t;
    var off := if signed then 1 else 0;
    var i := LeadingDigits(body);
    if i > 0 {
      k := off;
      assert body[0] == t[k];
    } else {
      var fraction := body[i + 1..];
      assert LeadingDigits(fraction) > 0;
      k := off + 1;
      assert fraction[0] == t[k];
    }
  }

  lemma {:induction false} DigitSurvives(s: string, k: nat)
    requires k < |RemoveUnderscores(s)| && IsDigit(RemoveUnderscores(s)[k])
    ensures exists i :: 0 <= i < |s| && IsDigit(s[i])
  {
    var p := s[..|s| - 1];
    if s[|s| - 1] == '_' {
      DigitSurvives(p, k);
      assert forall i :: 0 <= i < |p| ==> p[i] == s[i];
    } else if k < |RemoveUnderscores(p)| {
      DigitSurvives(p, k);
      assert forall i :: 0 <= i < |p| ==> p[i] == s[i];
    } else {
      assert IsDigit(s[|s| - 1]);
    }
  }

  /** ParseFloat reads a plain digit string (as "%d" writes it) as that integer. */
  lemma ParseFloatInteger(n: nat, width: nat)
    ensures ParseFloat(PadDigits(n, width)) == Some(n as real)
  {
    var s := PadDigits(n, width);
    NoUnderscoreInDigits(s);
    LeadingDigitsOfDigits(s);
    assert s[..|s|] == s && s[|s|..] == [];
    assert ParseMantissa(s) == Some((n as real, []));
    ParseUnsignedPlain(s, n as real);
  }

  /** ParseFloat reads digits, a point and digits (as "%.Nf" writes them) as
      the whole part plus the fraction's digits over 10^N. */
  lemma ParseFloatPointed(s: string, i: nat)
    requires 1 <= i < |s| && s[i] == '.' && AllDigits(s[..i]) && AllDigits(s[i + 1..])
    ensures ParseFloat(s) == Some(DigitsValue(s[..i]) as real + FractionValue(s[i + 1..]))
  {
    PointedMantissa(s, i);
    NoUnderscoreAroundPoint(s, i);
    ParseUnsignedPlain(s, DigitsValue(s[..i]) as real + FractionValue(s[i + 1..]));
  }

  lemma PointedMantissa(s: string, i: nat)
    requires 1 <= i < |s| && s[i] == '.' && AllDigits(s[..i]) && AllDigits(s[i + 1..])
    ensures ParseMantissa(s) == Some((DigitsValue(s[..i]) as real + FractionValue(s[i + 1..]), []))
  {
    var frac := s[i + 1..];
    LeadingDigitsUntil(s, i);
    LeadingDigitsOfDigits(frac);
    assert frac[..|frac|] == frac && frac[|frac|..] == [];
    MantissaWithPoint(s, i, s[..i], frac, []);
  }

  lemma NoUnderscoreAroundPoint(s: string, i: nat)
    requires 1 <= i < |s| && s[i] == '.' && AllDigits(s[..i]) && AllDigits(s[i + 1..])
    ensures '_' !in s && IsDigit(s[0])
  {
    assert s[0] == s[..i][0];
    forall k | 0 <= k < |s|
      ensures s[k] != '_'
    {
      if k < i {
        assert s[k] == s[..i][k];
      } else if k > i {
        assert s[k] == s[i + 1..][k - i - 1];
      }
    }
  }

  lemma {:induction false} LeadingDigitsUntil(s: string, i: nat)
    requires i < |s| && AllDigits(s[..i]) && !IsDigit(s[i])
    ensures LeadingDigits(s) == i
  {
    if i > 0 {
      assert s[1..][..i - 1] == s[..i][1..];
      LeadingDigitsUntil(s[1..], i - 1);
    }
  }

  lemma MantissaWithPoint(s: string, i: nat, whole: string, frac: string, rest: string)
    requires i < |s| && LeadingDigits(s) == i && s[i] == '.' && s[..i] == whole
    requires var fraction := s[i + 1..];
             fraction[..LeadingDigits(fraction)] == frac && fraction[LeadingDigits(fraction)..] == rest
    requires |whole| + |frac| > 0
    ensures AllDigits(whole) && AllDigits(frac)
    ensures ParseMantissa(s) == Some((DigitsValue(whole) as real + FractionValue(frac), rest))
  {
  }

  /** An unsigned, underscore-free mantissa with nothing after it is read as is. */
  lemma ParseUnsignedPlain(s: string, m: real)
    requires '_' !in s && s != [] && IsDigit(s[0])
    requires ParseMantissa(s) == Some((m, []))
    ensures ParseFloat(s) == Some(m)
  {
    assert ParseExponent([]) == Some(0);
    assert ParseDecimal(s) == Some(m * Scale(0));
    assert RemoveUnderscores(s) == s;
  }

  lemma NoUnderscoreInDigits(s: string)
    requires AllDigits(s)
    ensures '_' !in s
  {
  }

  lemma {:induction false} LeadingDigitsOfDigits(s: string)
    requires AllDigits(s)
    ensures LeadingDigits(s) == |s|
  {
    if s != [] {
      LeadingDigitsOfDigits(s[1..]);
    }
  }
}
