/** Content-Length framing (the base protocol of the Language Server Protocol):
    the writer side of `sendMessage` and the header/body parse of `readLoop`. */
module Framing {
  import opened Base
  import opened Text

  /** The header name the reader looks for, colon included. */
  const LengthField: string := "Content-Length:"

  /** The single header line a frame of `n` payload bytes carries, as it reads
      once trimmed. */
  function LengthHeader(n: nat): string {
    LengthField + " " + Decimal(n)
  }

  /** The largest allocation Go's runtime grants on 64-bit Linux (48-bit heap
      addresses): `make` of a longer byte slice panics, and no byte slice the
      client holds, a payload it writes included, is longer. */
  const MaxAlloc: int := 0x1_0000_0000_0000

  /** One message on the wire: the length header, an empty line, the payload.
      The header is a single `Content-Length:` line that declares the
      payload's length (`EncodeFrameDeclaresLength`). */
  function EncodeFrame(payload: Bytes): (r: Bytes)
    ensures LengthField <= r && HasSuffix(r, "\r\n\r\n" + payload)
    ensures '\n' !in r[..|r| - |payload| - 4]
    ensures r[..|r| - |payload| - 4] == LengthField + " " + Decimal(|payload|)
  {
    var h := LengthHeader(|payload|);
    LengthHeaderShape(|payload|);
    var r := h + "\r\n\r\n" + payload;
    assert r[..|r| - |payload| - 4] == h;
    assert r[|r| - |payload| - 4..] == "\r\n\r\n" + payload;
    r
  }

  // ---------------------------------------------------------------------------
  // Reading

  /** bufio.Reader.ReadString('\n'): the bytes up to and including the first
      newline, and what follows; nothing when the stream has no newline left. */
  function ReadLine(s: Bytes): (r: Option<(Bytes, Bytes)>)
    ensures r.None? <==> '\n' !in s
    ensures r.Some? ==> var (line, rest) := r.value;
      && line + rest == s
      && |line| > 0 && line[|line| - 1] == '\n'
      && '\n' !in line[..|line| - 1]
  {
    match IndexOf(s, '\n')
    case None => None
    case Some(i) =>
      assert s[..i + 1][..i] == s[..i];
      Some((s[..i + 1], s[i + 1..]))
  }

  /** How one trimmed header line changes the length read so far: a line that
      starts with `Content-Length:` sets it to whatever Atoi makes of the text
      after the first colon (its error is ignored); any other line leaves it. */
  function UpdateLength(line: Bytes, length: int): (r: int)
    ensures r == if LengthField <= line then LengthValue(line) else length
  {
    if LengthField <= line then
      assert line[..14] == LengthField[..14];
      assert line[14] == ':';
      IndexOfFirst(line, ':', 14);
      var parts := SplitOnce(line, ':');
      if |parts| == 2 then Atoi(TrimSpace(parts[1])).value else length
    else length
  }

  /** The header loop of readLoop: read lines, trim each, stop at the first
      empty one and return the length gathered and the stream after it;
      nothing when the stream ends first. */
  function ReadHeader(s: Bytes, length: int): (r: Option<(int, Bytes)>)
    ensures r == match HeaderBlock(s)
      case None => None
      case Some((lines, body)) => Some((LastLength(lines).GetOr(length), body))
    decreases |s|
  {
    match ReadLine(s)
    case None => None
    case Some((raw, rest)) =>
      var line := TrimSpace(raw);
      if line == [] then Some((length, rest))
      else
        LastLengthCons(line, match HeaderBlock(rest) case None => [] case Some((lines, _)) => lines);
        ReadHeader(rest, UpdateLength(line, length))
  }

  /** What the reader gets from the front of a stream. */
  datatype ReadOutcome =
    | Frame(payload: Bytes, rest: Bytes)  // a whole message and the stream after it
    | Closed                              // the stream ended inside a frame: the reader stops
    | Panicked                            // make([]byte, n) with n < 0 or n > MaxAlloc: the process dies

  /** One pass of readLoop over the front of a stream: the length starts at 0
      for every frame, and exactly that many bytes after the blank line are
      the payload. */
  function ReadFrame(s: Bytes): (r: ReadOutcome)
    ensures r.Frame? ==> |r.payload| + |r.rest| < |s|
    ensures r.Frame? ==> s[|s| - |r.payload| - |r.rest|..] == r.payload + r.rest
    ensures match HeaderBlock(s)
      case None => r == Closed
      case Some((lines, body)) =>
        var n := DeclaredLength(lines);
        r == if n < 0 || n > MaxAlloc then Panicked else if n > |body| then Closed else Frame(body[..n], body[n..])
  {
    match ReadHeader(s, 0)
    case None => Closed
    case Some((n, body)) =>
      assert body == HeaderBlock(s).value.1 && n == DeclaredLength(HeaderBlock(s).value.0);
      HeaderBlockSuffix(s);
      if n < 0 || n > MaxAlloc then Panicked
      else if |body| < n then Closed
      else
        Split(body, n);
        Frame(body[..n], body[n..])
  }

  // ---------------------------------------------------------------------------
  // Reference reading of the header block

  /** The header block at the front of `s`: its lines, trimmed, up to the first
      line that trims to nothing, and the stream after that line; nothing when
      the stream ends first. */
  function HeaderBlock(s: Bytes): (r: Option<(seq<Bytes>, Bytes)>)
    ensures r.Some? ==> |r.value.1| < |s|
    decreases |s|
  {
    match ReadLine(s)
    case None => None
    case Some((raw, rest)) =>
      var line := TrimSpace(raw);
      assert rest == s[|raw|..];
      if line == [] then Some(([], rest))
      else match HeaderBlock(rest)
        case None => None
        case Some((lines, body)) => Some(([line] + lines, body))
  }

  /** What follows the header block is the rest of the stream it came from. */
  lemma {:induction false} HeaderBlockSuffix(s: Bytes)
    ensures HeaderBlock(s).Some? ==> var body := HeaderBlock(s).value.1; body == s[|s| - |body|..]
    decreases |s|
  {
    if HeaderBlock(s).Some? {
      var (raw, rest) := ReadLine(s).value;
      var body := HeaderBlock(s).value.1;
      assert |raw| == |s| - |rest| && rest == s[|raw|..];
      if TrimSpace(raw) == [] {
        assert body == rest;
      } else {
        assert body == HeaderBlock(rest).value.1;
        HeaderBlockSuffix(rest);
        SuffixOfSuffix(s, |raw|, body);
      }
    }
  }

  lemma SuffixOfSuffix(s: Bytes, k: nat, b: Bytes)
    requires k <= |s| && |b| <= |s| - k && b == s[k..][|s| - k - |b|..]
    ensures b == s[|s| - |b|..]
  {
    assert s[k..][|s| - k - |b|..] == s[|s| - |b|..];
  }

  /** The value a `Content-Length:` line declares: Atoi of the trimmed text after
      the field name, error ignored. */
  function LengthValue(line: Bytes): int
    requires LengthField <= line
  {
    Atoi(TrimSpace(line[|LengthField|..])).value
  }

  /** The value of the last `Content-Length:` line among `lines`, if any. */
  function LastLength(lines: seq<Bytes>): Option<int>
    decreases |lines|
  {
    if |lines| == 0 then None
    else
      var last := lines[|lines| - 1];
      if LengthField <= last then Some(LengthValue(last))
      else LastLength(lines[..|lines| - 1])
  }

  /** The length a header block declares: its last `Content-Length:` line, or 0. */
  function DeclaredLength(lines: seq<Bytes>): int {
    LastLength(lines).GetOr(0)
  }

  lemma {:induction false} LastLengthCons(line: Bytes, lines: seq<Bytes>)
    ensures LastLength([line] + lines) ==
      if LastLength(lines).Some? then LastLength(lines)
      else if LengthField <= line then Some(LengthValue(line))
      else None
    decreases |lines|
  {
    if |lines| > 0 {
      var all := [line] + lines;
      assert all[|all| - 1] == lines[|lines| - 1];
      assert all[..|all| - 1] == [line] + lines[..|lines| - 1];
      LastLengthCons(line, lines[..|lines| - 1]);
    } else {
      assert [line] + lines == [line];
    }
  }

  /** `i` is where IndexOf finds `c` when `c` sits there and not before. */
  lemma IndexOfFirst(s: string, c: char, i: nat)
    requires i < |s| && s[i] == c && c !in s[..i]
    ensures IndexOf(s, c) == Some(i)
  {
    var j := IndexOf(s, c).value;
    assert forall k | 0 <= k < i :: s[..i][k] == s[k];
    assert forall k | 0 <= k < j :: s[..j][k] == s[k];
  }

  // ---------------------------------------------------------------------------
  // Properties of the framing

  /** A header line as the encoder writes it: nothing to trim at either end and
      no newline inside. */
  predicate IsHeaderLine(h: Bytes) {
    '\n' !in h && |h| > 0 && !IsSpace(h[0]) && !IsSpace(h[|h| - 1])
  }

  /** The header line of a frame is such a line. */
  lemma LengthHeaderShape(n: nat)
    ensures IsHeaderLine(LengthHeader(n)) && LengthField <= LengthHeader(n)
  {
    DigitsHeaderShape(Decimal(n));
  }

  /** A `Content-Length:` line whose value is a run of digits is a header line. */
  lemma DigitsHeaderShape(d: Bytes)
    requires |d| > 0 && AllDigits(d)
    ensures IsHeaderLine(LengthField + " " + d) && LengthField <= LengthField + " " + d
  {
    var h := LengthField + " " + d;
    assert forall k | |LengthField| + 1 <= k < |h| :: h[k] == d[k - |LengthField| - 1];
    assert h[|h| - 1] == d[|d| - 1];
  }

  /** The header of an encoded frame, the part before the blank line,
      declares the payload's length. */
  lemma EncodeFrameDeclaresLength(payload: Bytes)
    requires |payload| <= MaxInt64
    ensures var r := EncodeFrame(payload);
      LengthField <= r[..|r| - |payload| - 4] && LengthValue(r[..|r| - |payload| - 4]) == |payload|
  {
    var r := EncodeFrame(payload);
    assert r[..|r| - |payload| - 4] == LengthHeader(|payload|);
    LengthHeaderValue(|payload|);
  }

  /** The header line of a frame declares the payload length. */
  lemma LengthHeaderValue(n: nat)
    requires n <= MaxInt64
    ensures LengthField <= LengthHeader(n) && LengthValue(LengthHeader(n)) == n
  {
    LengthHeaderTail(n);
    TrimmedDecimal(n);
    AtoiFormatInt(n);
  }

  lemma LengthHeaderTail(n: nat)
    ensures LengthField <= LengthHeader(n) && LengthHeader(n)[|LengthField|..] == " " + Decimal(n)
  {
  }

  lemma TrimmedDecimal(n: nat)
    ensures TrimSpace(" " + Decimal(n)) == FormatInt(n)
  {
    var d := Decimal(n);
    assert !IsSpace(d[0]) && !IsSpace(d[|d| - 1]);
    TrimSpacePadded(" ", d, []);
    assert " " + d + [] == " " + d;
  }

  lemma ReadLineAt(s: Bytes, i: nat)
    requires i < |s| && s[i] == '\n' && '\n' !in s[..i]
    ensures ReadLine(s) == Some((s[..i + 1], s[i + 1..]))
  {
    IndexOfFirst(s, '\n', i);
  }

  /** A line that is blank once trimmed ends the header block. */
  lemma BlankLineEndsHeader(t: Bytes)
    ensures HeaderBlock("\r\n" + t) == Some(([], t))
  {
    var s := "\r\n" + t;
    assert s[..1] == "\r";
    ReadLineAt(s, 1);
    assert s[..2] == "\r\n" && s[2..] == t;
    assert AllSpace("\r\n");
  }

  /** A header line `h` (nothing to trim, no newline inside) followed by CR LF
      joins the header block that follows it. */
  lemma HeaderLineThen(h: Bytes, t: Bytes)
    requires IsHeaderLine(h)
    ensures HeaderBlock(h + "\r\n" + t) == match HeaderBlock(t)
      case None => None
      case Some((lines, body)) => Some(([h] + lines, body))
  {
    var s := h + "\r\n" + t;
    assert s[..|h| + 1] == h + "\r";
    assert '\n' !in h + "\r";
    ReadLineAt(s, |h| + 1);
    assert s[..|h| + 2] == h + "\r\n" && s[|h| + 2..] == t;
    TrimSpacePadded([], h, "\r\n");
    assert [] + h + "\r\n" == h + "\r\n";
  }

  /** Input without a newline holds no complete header line. */
  lemma NoNewlineNoHeader(s: Bytes)
    requires '\n' !in s
    ensures HeaderBlock(s) == None
  {
  }

  /** A single header line and the blank line form a header block of their own;
      what follows is left as it was. */
  lemma SingleLineBlock(h: Bytes, t: Bytes)
    requires IsHeaderLine(h)
    ensures HeaderBlock(h + "\r\n\r\n" + t) == Some(([h], t))
  {
    Regroup(h, t);
    BlankLineEndsHeader(t);
    HeaderLineThen(h, "\r\n" + t);
    assert [h] + [] == [h];
  }

  lemma Regroup(h: Bytes, t: Bytes)
    ensures h + "\r\n\r\n" + t == h + "\r\n" + ("\r\n" + t)
  {
  }

  /** A frame's header block is the length line alone, and what follows the
      blank line is left as it was. */
  lemma EncodedHeaderBlock(n: nat, t: Bytes)
    ensures HeaderBlock(LengthHeader(n) + "\r\n\r\n" + t) == Some(([LengthHeader(n)], t))
  {
    LengthHeaderShape(n);
    SingleLineBlock(LengthHeader(n), t);
  }

  /** Decoding an encoded frame gives the payload back and leaves whatever
      follows the frame untouched, for every payload a Go byte slice can hold,
      the empty one included. */
  lemma DecodeEncode(p: Bytes, rest: Bytes)
    requires |p| <= MaxAlloc
    ensures ReadFrame(EncodeFrame(p) + rest) == Frame(p, rest)
  {
    var h := LengthHeader(|p|);
    var body := p + rest;
    assert EncodeFrame(p) + rest == h + "\r\n\r\n" + body;
    LengthHeaderShape(|p|);
    LengthHeaderValue(|p|);
    SingleLineFrame(h, body);
    assert body[..|p|] == p && body[|p|..] == rest;
  }

  /** How a frame whose header is the single line `h` is read: by the value
      of `h` alone. */
  lemma SingleLineFrame(h: Bytes, body: Bytes)
    requires IsHeaderLine(h) && LengthField <= h
    ensures var n := LengthValue(h);
      ReadFrame(h + "\r\n\r\n" + body) ==
        if n < 0 || n > MaxAlloc then Panicked else if n > |body| then Closed else Frame(body[..n], body[n..])
  {
    SingleLineBlock(h, body);
    SingleLengthLine(h);
  }

  lemma SingleLengthLine(h: Bytes)
    requires LengthField <= h
    ensures DeclaredLength([h]) == LengthValue(h)
  {
    assert [h][|[h]| - 1] == h;
  }

  /** A `Content-Length:` value that is not an integer literal (`12x`, `1.5`,
      `abc`, nothing at all) is read as 0: the frame is an empty payload, and
      the bytes after the blank line stay in the stream. Only when its leading
      digits already overflow 64 bits is it read as a bound instead, and the
      reader panics. */
  lemma UnparsableLength(v: Bytes, rest: Bytes)
    requires IsHeaderLine(LengthField + v)
    requires !IsIntLiteral(TrimSpace(v))
    ensures var b := SignedBody(TrimSpace(v));
      ReadFrame(LengthField + v + "\r\n\r\n" + rest) ==
        if Accum(0, b[..DigitRun(b)]) > MaxUint64 then Panicked else Frame([], rest)
  {
    var h := LengthField + v;
    assert h[|LengthField|..] == v;
    var t := TrimSpace(v);
    var b := SignedBody(t);
    assert LengthValue(h) == Atoi(t).value;
    if Accum(0, b[..DigitRun(b)]) > MaxUint64 {
      assert Atoi(t).value == MinInt64 || Atoi(t).value == MaxInt64;
    } else {
      assert Atoi(t).value == 0;
      assert rest[..0] == [] && rest[0..] == rest;
    }
    SingleLineFrame(h, rest);
  }

  /** A `Content-Length:` value whose digits exceed Go's `int` is read as the
      largest `int`, which no allocation can meet: the reader panics. */
  lemma OverflowingLengthPanics(d: Bytes, rest: Bytes)
    requires |d| > 0 && AllDigits(d) && Accum(0, d) > MaxInt64
    ensures ReadFrame(LengthField + " " + d + "\r\n\r\n" + rest) == Panicked
  {
    DigitsHeaderShape(d);
    OverflowingValue(d);
    SingleLineFrame(LengthField + " " + d, rest);
  }

  lemma OverflowingValue(d: Bytes)
    requires |d| > 0 && AllDigits(d) && Accum(0, d) > MaxInt64
    ensures LengthField <= LengthField + " " + d && LengthValue(LengthField + " " + d) == MaxInt64
  {
    DigitsValueText(d);
    AtoiOverflow(d);
  }

  /** The text a digits-valued `Content-Length:` line hands to Atoi. */
  lemma DigitsValueText(d: Bytes)
    requires |d| > 0 && AllDigits(d)
    ensures LengthField <= LengthField + " " + d
    ensures TrimSpace((LengthField + " " + d)[|LengthField|..]) == d
  {
    var h := LengthField + " " + d;
    assert h[|LengthField|..] == " " + d;
    TrimSpacePadded(" ", d, []);
    assert " " + d + [] == " " + d;
  }

  /** A header block with no `Content-Length:` line declares 0, so the frame has
      an empty payload rather than failing. */
  lemma {:induction false} NoLengthLine(lines: seq<Bytes>)
    requires forall i | 0 <= i < |lines| :: !(LengthField <= lines[i])
    ensures DeclaredLength(lines) == 0
    decreases |lines|
  {
    if |lines| > 0 {
      NoLengthLine(lines[..|lines| - 1]);
    }
  }

  /** Of several `Content-Length:` lines the last one decides: once the line at
      `i` declares a length and no later line does, that value is the one used. */
  lemma {:induction false} LastLengthLineWins(lines: seq<Bytes>, i: nat)
    requires i < |lines| && LengthField <= lines[i]
    requires forall j | i < j < |lines| :: !(LengthField <= lines[j])
    ensures DeclaredLength(lines) == LengthValue(lines[i])
    decreases |lines|
  {
    if i < |lines| - 1 {
      LastLengthLineWins(lines[..|lines| - 1], i);
    }
  }

  /** Every proper prefix of a frame leaves the reader without a message: it
      stops because the stream ended inside the header or inside the body. */
  lemma CutFrameIsClosed(p: Bytes, k: nat)
    requires |p| <= MaxAlloc
    requires k < |EncodeFrame(p)|
    ensures ReadFrame(EncodeFrame(p)[..k]) == Closed
  {
    var h := LengthHeader(|p|);
    if k < |h| + 4 {
      CutInHeader(p, k);
    } else {
      CutInBody(p, k);
    }
  }

  lemma CutInHeader(p: Bytes, k: nat)
    requires k < |LengthHeader(|p|)| + 4
    ensures HeaderBlock(EncodeFrame(p)[..k]) == None
  {
    LengthHeaderShape(|p|);
    CutHeaderLine(LengthHeader(|p|), p, k);
  }

  /** Cutting `h` CR LF CR LF `t` anywhere before the blank line leaves no
      complete header block. */
  lemma CutHeaderLine(h: Bytes, t: Bytes, k: nat)
    requires IsHeaderLine(h)
    requires k < |h| + 4
    ensures HeaderBlock((h + "\r\n\r\n" + t)[..k]) == None
  {
    if k <= |h| + 1 {
      CutFirstLine(h, t, k);
    } else {
      CutBlankLine(h, t, k);
    }
  }

  /** Cut before the first line feed: no line is complete. */
  lemma CutFirstLine(h: Bytes, t: Bytes, k: nat)
    requires IsHeaderLine(h)
    requires k <= |h| + 1
    ensures HeaderBlock((h + "\r\n\r\n" + t)[..k]) == None
  {
    var s := (h + "\r\n\r\n" + t)[..k];
    assert forall j | 0 <= j < k :: s[j] == (h + "\r")[j];
    assert '\n' !in h + "\r";
    assert forall j | 0 <= j < |s| :: s[j] != '\n';
    NoNewlineNoHeader(s);
  }

  /** Cut inside the blank line: the header line is complete but the blank
      line is not. */
  lemma CutBlankLine(h: Bytes, t: Bytes, k: nat)
    requires IsHeaderLine(h)
    requires |h| + 2 <= k < |h| + 4
    ensures HeaderBlock((h + "\r\n\r\n" + t)[..k]) == None
  {
    var f := h + "\r\n\r\n" + t;
    var u := f[|h| + 2..k];
    assert f[..k] == h + "\r\n" + u;
    assert forall j | 0 <= j < |u| :: u[j] == f[|h| + 2 + j] == '\r';
    NoNewlineNoHeader(u);
    HeaderLineThen(h, u);
  }

  lemma CutInBody(p: Bytes, k: nat)
    requires |p| <= MaxAlloc
    requires |LengthHeader(|p|)| + 4 <= k < |EncodeFrame(p)|
    ensures ReadFrame(EncodeFrame(p)[..k]) == Closed
  {
    var h := LengthHeader(|p|);
    var body := p[..k - |h| - 4];
    assert EncodeFrame(p)[..k] == h + "\r\n\r\n" + body;
    LengthHeaderValue(|p|);
    ShortBody(|p|, body);
  }

  /** A frame whose body is shorter than its header declares is not read: the
      reader stops, or panics first when the length is beyond the allocation
      limit. */
  lemma ShortBody(n: nat, body: Bytes)
    requires n <= MaxInt64 && |body| < n
    ensures ReadFrame(LengthHeader(n) + "\r\n\r\n" + body) == if n > MaxAlloc then Panicked else Closed
  {
    LengthHeaderShape(n);
    LengthHeaderValue(n);
    SingleLineFrame(LengthHeader(n), body);
  }
}
