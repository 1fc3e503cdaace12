/** The pieces of Go's `strings` and `strconv` packages the client relies on,
    over strings in which each char stands for one octet. */
module Text {
  import opened Base

  /** A stretch of a byte stream: each char is one octet, so `|b|` is Go's `len`. */
  type Bytes = seq<char>

  /** ASCII white space as `strings.TrimSpace` sees it: tab, newline, vertical tab,
      form feed, carriage return and space. */
  predicate IsSpace(c: char) {
    c == ' ' || '\t' <= c <= '\r'
  }

  predicate IsDigit(c: char) {
    '0' <= c <= '9'
  }

  predicate AllSpace(s: string) {
    forall i | 0 <= i < |s| :: IsSpace(s[i])
  }

  predicate AllDigits(s: string) {
    forall i | 0 <= i < |s| :: IsDigit(s[i])
  }

  // ---------------------------------------------------------------------------
  // strings.TrimSpace, TrimPrefix, TrimSuffix, SplitN(_, _, 2) and IndexByte

  /** Drops leading white space: the result is the suffix of `s` that starts at
      the first non-space char. */
  function TrimLeft(s: string): (r: string)
    ensures |r| <= |s| && r == s[|s| - |r|..]
    ensures AllSpace(s[..|s| - |r|])
    ensures r == [] || !IsSpace(r[0])
    decreases |s|
  {
    if |s| > 0 && IsSpace(s[0]) then
      var r := TrimLeft(s[1..]);
      assert s[..|s| - |r|] == [s[0]] + s[1..][..|s| - 1 - |r|];
      assert s[1..][|s| - 1 - |r|..] == s[|s| - |r|..];
      r
    else s
  }

  /** Drops trailing white space: the result is the prefix of `s` that ends at
      the last non-space char. */
  function TrimRight(s: string): (r: string)
    ensures |r| <= |s| && r == s[..|r|]
    ensures AllSpace(s[|r|..])
    ensures r == [] || !IsSpace(r[|r| - 1])
    ensures |s| > 0 && !IsSpace(s[0]) ==> |r| > 0 && r[0] == s[0]
    decreases |s|
  {
    if |s| > 0 && IsSpace(s[|s| - 1]) then
      var r := TrimRight(s[..|s| - 1]);
      assert s[|r|..] == s[..|s| - 1][|r|..] + [s[|s| - 1]];
      assert s[..|s| - 1][..|r|] == s[..|r|];
      r
    else s
  }

  /** strings.TrimSpace restricted to ASCII white space: the result has none
      at either end, and `s` is the result with white space around it
      (`TrimSpaceInfix`). */
  function TrimSpace(s: string): (r: string)
    ensures |r| <= |s|
    ensures r == [] <==> AllSpace(s)
    ensures r == [] || (!IsSpace(r[0]) && !IsSpace(r[|r| - 1]))
    ensures |s| == 0 || (!IsSpace(s[0]) && !IsSpace(s[|s| - 1])) ==> r == s
  {
    TrimmedEmpty(s);
    TrimmedUnchanged(s);
    TrimRight(TrimLeft(s))
  }

  /** What TrimSpace drops is white space on either side of what it keeps. */
  lemma TrimSpaceInfix(s: string)
    ensures exists a, b | AllSpace(a) && AllSpace(b) :: s == a + TrimSpace(s) + b
  {
    var a, b := TrimSpaceParts(s);
    assert s == a + TrimSpace(s) + b;
  }

  lemma TrimSpaceParts(s: string) returns (a: string, b: string)
    ensures AllSpace(a) && AllSpace(b) && s == a + TrimSpace(s) + b
  {
    var l := TrimLeft(s);
    var r := TrimRight(l);
    a := s[..|s| - |l|];
    b := l[|r|..];
    Split(l, |r|);
    Split(s, |s| - |l|);
    Regroup3(a, r, b);
  }

  lemma Regroup3<T>(a: seq<T>, r: seq<T>, b: seq<T>)
    ensures a + (r + b) == a + r + b
  {
  }

  lemma Split<T>(s: seq<T>, k: nat)
    requires k <= |s|
    ensures s == s[..k] + s[k..]
  {
  }

  /** Both trims leave nothing exactly when `s` is all white space. */
  lemma TrimmedEmpty(s: string)
    ensures TrimRight(TrimLeft(s)) == [] <==> AllSpace(s)
  {
    var l := TrimLeft(s);
    if |l| == 0 {
      assert s[..|s| - |l|] == s;
    } else {
      assert s[|s| - |l|] == l[0];
    }
  }

  /** Text with no white space at either end is left as it is. */
  lemma TrimmedUnchanged(s: string)
    ensures |s| == 0 || (!IsSpace(s[0]) && !IsSpace(s[|s| - 1])) ==> TrimRight(TrimLeft(s)) == s
  {
    if |s| > 0 && !IsSpace(s[0]) {
      assert TrimLeft(s) == s;
    }
  }

  lemma {:induction false} TrimLeftPadded(a: string, y: string)
    requires AllSpace(a)
    requires y == [] || !IsSpace(y[0])
    ensures TrimLeft(a + y) == y
    decreases |a|
  {
    if |a| > 0 {
      assert (a + y)[1..] == a[1..] + y;
      TrimLeftPadded(a[1..], y);
    } else {
      assert a + y == y;
    }
  }

  lemma {:induction false} TrimRightPadded(y: string, b: string)
    requires AllSpace(b)
    requires y == [] || !IsSpace(y[|y| - 1])
    ensures TrimRight(y + b) == y
    decreases |b|
  {
    if |b| > 0 {
      assert (y + b)[..|y + b| - 1] == y + b[..|b| - 1];
      TrimRightPadded(y, b[..|b| - 1]);
    } else {
      assert y + b == y;
    }
  }

  /** Trimming a block padded with white space on both sides gives the block back. */
  lemma TrimSpacePadded(a: string, x: string, b: string)
    requires AllSpace(a) && AllSpace(b)
    requires |x| > 0 && !IsSpace(x[0]) && !IsSpace(x[|x| - 1])
    ensures TrimSpace(a + x + b) == x
  {
    assert a + x + b == a + (x + b);
    TrimLeftPadded(a, x + b);
    TrimRightPadded(x, b);
  }

  function TrimPrefix(s: string, prefix: string): (r: string)
    ensures prefix <= s ==> prefix + r == s
    ensures !(prefix <= s) ==> r == s
  {
    if prefix <= s then s[|prefix|..] else s
  }

  predicate HasSuffix(s: string, suffix: string) {
    |suffix| <= |s| && s[|s| - |suffix|..] == suffix
  }

  function TrimSuffix(s: string, suffix: string): (r: string)
    ensures HasSuffix(s, suffix) ==> r + suffix == s
    ensures !HasSuffix(s, suffix) ==> r == s
  {
    if HasSuffix(s, suffix) then s[..|s| - |suffix|] else s
  }

  /** The index of the first occurrence of `c` in `s`, if any. */
  function IndexOf(s: string, c: char): (r: Option<nat>)
    ensures r.None? <==> c !in s
    ensures r.Some? ==> r.value < |s| && s[r.value] == c && c !in s[..r.value]
    decreases |s|
  {
    if |s| == 0 then None
    else if s[0] == c then Some(0)
    else match IndexOf(s[1..], c)
      case None => None
      case Some(i) =>
        assert s[..i + 1] == [s[0]] + s[1..][..i];
        Some(i + 1)
  }

  /** strings.SplitN(s, [sep], 2): the whole string when `sep` does not occur,
      otherwise the parts before and after its first occurrence. */
  function SplitOnce(s: string, sep: char): (parts: seq<string>)
    ensures sep !in s ==> parts == [s]
    ensures sep in s ==> |parts| == 2 && parts[0] + [sep] + parts[1] == s && sep !in parts[0]
  {
    match IndexOf(s, sep)
    case None => [s]
    case Some(i) =>
      assert s == s[..i] + [sep] + s[i + 1..];
      [s[..i], s[i + 1..]]
  }

  // ---------------------------------------------------------------------------
  // Decimal numerals: fmt's %d and strconv.Atoi

  function DigitValue(c: char): nat
    requires IsDigit(c)
  {
    c as int - '0' as int
  }

  function DigitChar(d: nat): (c: char)
    requires d < 10
    ensures IsDigit(c) && DigitValue(c) == d
  {
    ('0' as int + d) as char
  }

  /** The value of the numeral `d` read left to right after the digits already
      read gave `n`. */
  function Accum(n: nat, d: string): nat
    requires AllDigits(d)
    decreases |d|
  {
    if |d| == 0 then n else Accum(n * 10 + DigitValue(d[0]), d[1..])
  }

  lemma {:induction false} AccumSnoc(n: nat, d: string, c: char)
    requires AllDigits(d) && IsDigit(c)
    ensures AllDigits(d + [c])
    ensures Accum(n, d + [c]) == Accum(n, d) * 10 + DigitValue(c)
    decreases |d|
  {
    if |d| > 0 {
      assert (d + [c])[1..] == d[1..] + [c];
      AccumSnoc(n * 10 + DigitValue(d[0]), d[1..], c);
    }
  }

  lemma {:induction false} AccumGrows(n: nat, d: string)
    requires AllDigits(d)
    ensures Accum(n, d) >= n
    ensures |d| > 0 ==> Accum(n, d) >= n * 10 + DigitValue(d[0])
    decreases |d|
  {
    if |d| > 0 {
      AccumGrows(n * 10 + DigitValue(d[0]), d[1..]);
    }
  }

  /** fmt's %d of a non-negative integer: shortest decimal numeral. */
  function Decimal(n: nat): (r: string)
    ensures |r| > 0 && AllDigits(r)
    ensures Accum(0, r) == n
    ensures r[0] == '0' ==> r == "0"
    decreases n
  {
    if n < 10 then
      [DigitChar(n)]
    else
      var prefix := Decimal(n / 10);
      AccumSnoc(0, prefix, DigitChar(n % 10));
      prefix + [DigitChar(n % 10)]
  }

  /** fmt's %d of any integer: a decimal literal of the value, signed only
      when negative, without leading zeros. */
  function FormatInt(v: int): (r: string)
    ensures IsIntLiteral(r) && LiteralValue(r) == v
    ensures r[0] == '-' <==> v < 0
    ensures v >= 0 ==> AllDigits(r)
    ensures SignedBody(r)[0] == '0' ==> r == "0"
  {
    if v < 0 then
      var d := Decimal(-v);
      assert SignedBody("-" + d) == d;
      "-" + d
    else Decimal(v)
  }

  /** The length of the run of digits at the front of `s`. */
  function DigitRun(s: string): (k: nat)
    ensures k <= |s| && AllDigits(s[..k])
    ensures k < |s| ==> !IsDigit(s[k])
    decreases |s|
  {
    if |s| > 0 && IsDigit(s[0]) then
      var k := 1 + DigitRun(s[1..]);
      assert s[..k] == [s[0]] + s[1..][..k - 1];
      k
    else 0
  }

  /** The two ways strconv reports a bad numeral. */
  datatype NumError = BadSyntax | OutOfRange

  /** What strconv returns: a value together with an optional error; the value
      is meaningful to callers that ignore the error. */
  datatype Parsed = Parsed(value: int, err: Option<NumError>)

  /** The cut-off strconv.ParseUint uses (base 10): multiplying a value at or
      above it by 10 overflows 64 bits. */
  const UintCutoff: int := MaxUint64 / 10 + 1

  /** The digit loop of strconv.ParseUint (base 10, 64 bits) after the digits
      before `s` gave `n`. An overflow is reported the moment the run of digits
      exceeds 64 bits, before any later non-digit is looked at. */
  function ScanDigits(s: string, n: nat): (r: Parsed)
    requires n <= MaxUint64
    ensures var k := DigitRun(s);
      if Accum(n, s[..k]) > MaxUint64 then r == Parsed(MaxUint64, Some(OutOfRange))
      else if k < |s| then r == Parsed(0, Some(BadSyntax))
      else r == Parsed(Accum(n, s), None)
    decreases |s|
  {
    if |s| == 0 then Parsed(n, None)
    else if !IsDigit(s[0]) then Parsed(0, Some(BadSyntax))
    else
      var k := DigitRun(s);
      assert s[..k][1..] == s[1..][..k - 1];
      if n >= UintCutoff then
        AccumGrows(n, s[..k]);
        Parsed(MaxUint64, Some(OutOfRange))
      else
        var n1 := n * 10 + DigitValue(s[0]);
        if n1 > MaxUint64 then
          AccumGrows(n, s[..k]);
          Parsed(MaxUint64, Some(OutOfRange))
        else
          assert k == |s| ==> s[..k] == s;
          ScanDigits(s[1..], n1)
  }

  /** The body of a numeral: what follows an optional leading sign. */
  function SignedBody(s: string): string {
    if |s| > 0 && (s[0] == '+' || s[0] == '-') then s[1..] else s
  }

  /** A decimal integer literal as strconv accepts it in base 10: an optional
      sign and at least one digit, nothing else (no spaces, no underscores). */
  predicate IsIntLiteral(s: string) {
    |SignedBody(s)| > 0 && AllDigits(SignedBody(s))
  }

  function LiteralValue(s: string): int
    requires IsIntLiteral(s)
  {
    var magnitude: int := Accum(0, SignedBody(s));
    if s[0] == '-' then -magnitude else magnitude
  }

  /** strconv.Atoi on a 64-bit platform (Go's short-input fast path returns the
      same results as this general path): the literal's value when it is
      well-formed and fits; value 0 with a syntax error when it is malformed;
      the bound on the literal's side with a range error when its digits run
      past the bound. */
  function Atoi(s: string): (r: Parsed)
    ensures r.err.None? <==> IsIntLiteral(s) && InInt64(LiteralValue(s))
    ensures r.err.None? ==> r.value == LiteralValue(s)
    ensures r.err == Some(BadSyntax) ==> r.value == 0
    ensures r.err == Some(OutOfRange) ==> r.value == (if |s| > 0 && s[0] == '-' then MinInt64 else MaxInt64)
    ensures InInt64(r.value)
    ensures IsIntLiteral(s) ==> r.err != Some(BadSyntax)
    ensures DigitRun(SignedBody(s)) == 0 ==> r == Parsed(0, Some(BadSyntax))
    ensures var b := SignedBody(s);
      Accum(0, b[..DigitRun(b)]) > MaxUint64 ==> r.err == Some(OutOfRange)
    ensures var b := SignedBody(s);
      !IsIntLiteral(s) && Accum(0, b[..DigitRun(b)]) <= MaxUint64 ==> r == Parsed(0, Some(BadSyntax))
  {
    if |s| == 0 then Parsed(0, Some(BadSyntax))
    else
      var neg := s[0] == '-';
      var body := SignedBody(s);
      var u := if |body| == 0 then Parsed(0, Some(BadSyntax)) else ScanDigits(body, 0);
      assert AllDigits(body) ==> body[..|body|] == body && DigitRun(body) == |body|;
      if u.err == Some(BadSyntax) then Parsed(0, Some(BadSyntax))
      else if !neg && u.value > MaxInt64 then Parsed(MaxInt64, Some(OutOfRange))
      else if neg && u.value > -MinInt64 then Parsed(MinInt64, Some(OutOfRange))
      else Parsed(if neg then -u.value else u.value, None)
  }

  /** An unsigned numeral too large for Go's `int` reads as the largest `int`. */
  lemma AtoiOverflow(d: string)
    requires |d| > 0 && AllDigits(d) && Accum(0, d) > MaxInt64
    ensures Atoi(d) == Parsed(MaxInt64, Some(OutOfRange))
  {
    assert IsDigit(d[0]) && SignedBody(d) == d;
    assert IsIntLiteral(d) && LiteralValue(d) == Accum(0, d);
  }

  /** Printing an integer with %d and reading it back with Atoi is lossless. */
  lemma AtoiFormatInt(v: int)
    requires InInt64(v)
    ensures Atoi(FormatInt(v)) == Parsed(v, None)
  {
    var s := FormatInt(v);
    if v < 0 {
      assert SignedBody(s) == Decimal(-v);
    } else {
      assert SignedBody(s) == Decimal(v);
    }
  }

  /** The scheme the client puts in front of a path to make a URI, and strips
      from a URI to show it as a path. */
  const FileScheme: string := "file://"
}
