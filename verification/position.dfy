/** Positions: the command line and the output count lines and columns from 1,
    the protocol counts them from 0. The arithmetic is Go's 64-bit `int`. */
module Position {
  import opened Base

  datatype Pos = Pos(line: int, character: int)

  /** A position both of whose coordinates are valid 1-based numbers that fit
      Go's `int`, as `parsePosition` produces them. */
  predicate IsUserPos(p: Pos) {
    1 <= p.line <= MaxInt64 && 1 <= p.character <= MaxInt64
  }

  /** The outbound conversion every query applies (`line - 1`, `col - 1`).
      For positions the command line can produce it is exact and undone by
      `FromWire`; the result is never negative. */
  function ToWire(p: Pos): (w: Pos)
    ensures IsUserPos(p) ==> w == Pos(p.line - 1, p.character - 1)
    ensures IsUserPos(p) ==> 0 <= w.line && 0 <= w.character
    ensures IsUserPos(p) ==> FromWire(w) == p
  {
    Pos(Wrap64(p.line - 1), Wrap64(p.character - 1))
  }

  /** The inbound conversion applied to a location's start before it is shown
      (`Line + 1`, `Character + 1`), wrapping as Go's `int` does. */
  function FromWire(w: Pos): (p: Pos)
    ensures MinInt64 <= w.line < MaxInt64 ==> p.line == w.line + 1
    ensures w.line == MaxInt64 ==> p.line == MinInt64
    ensures MinInt64 <= w.character < MaxInt64 ==> p.character == w.character + 1
    ensures w.character == MaxInt64 ==> p.character == MinInt64
    ensures 0 <= w.line < MaxInt64 && 0 <= w.character < MaxInt64 ==> IsUserPos(p)
  {
    Pos(Wrap64(w.line + 1), Wrap64(w.character + 1))
  }

  /** Showing a non-negative wire position and converting it back gives the
      same wire position. */
  lemma WireRoundTrip(w: Pos)
    requires 0 <= w.line < MaxInt64 && 0 <= w.character < MaxInt64
    ensures ToWire(FromWire(w)) == w
  {
  }
}
