/** The result formatters `displayHoverInfo` and `displayLocations`: each maps
    a decoded response to the lines the client prints, one per Println. */
module Format {
  import opened Base
  import opened Text
  import opened Position

  const NoHover: string := "No hover information available"
  const NoLocations: string := "No locations found"

  // ---------------------------------------------------------------------------
  // Hover

  /** One element of a hover `contents` array, by its JSON shape: a string, an
      object (with its `value` when that is a string), or anything else. */
  datatype Item = StrItem(text: string) | ObjItem(value: Option<string>) | OtherItem

  /** A hover result's `contents`, by its JSON shape: null (also when the whole
      result is null), a string, an object (with its `value` when that is a
      string), an array, or any other JSON value. */
  datatype HoverContents =
    | Null
    | Str(text: string)
    | Obj(value: Option<string>)
    | Arr(items: seq<Item>)
    | Other

  /** The markdown clean-up of an object's `value`: an opening fence tagged go,
      then an untagged opening fence, then a closing fence are each removed
      when present. By which opening fences the value starts with: */
  function StripFences(v: string): (r: string)
    // none: only a closing fence, if there is one, is removed
    ensures !("```go\n" <= v) && !("```\n" <= v) ==> r == TrimSuffix(v, "\n```")
    // an untagged fence: it is removed, and then a closing fence
    ensures "```\n" <= v ==> r == TrimSuffix(v[4..], "\n```")
    // a go-tagged fence alone: it is removed, and then a closing fence
    ensures "```go\n" <= v && !("```\n" <= v[6..]) ==> r == TrimSuffix(v[6..], "\n```")
    // a go-tagged fence directly followed by an untagged one: both are removed
    ensures "```go\n" <= v && "```\n" <= v[6..] ==> r == TrimSuffix(v[10..], "\n```")
    ensures !("```" <= v) && !HasSuffix(v, "\n```") ==> r == v
    ensures |r| <= |v|
  {
    assert "```\n" <= v ==> v[3] == '\n' && !("```go\n" <= v);
    assert "```go\n" <= v && "```\n" <= v[6..] ==> v[6..][4..] == v[10..];
    TrimSuffix(TrimPrefix(TrimPrefix(v, "```go\n"), "```\n"), "\n```")
  }

  /** Unwrapping a go-tagged code block gives its text back, unless the text
      itself would be taken for a second opening fence. */
  lemma UnfenceGoBlock(x: string)
    requires !("```\n" <= x + "\n```")
    ensures StripFences("```go\n" + x + "\n```") == x
  {
    var v := "```go\n" + x + "\n```";
    assert "```go\n" <= v;
    assert v[|"```go\n"|..] == x + "\n```";
    assert HasSuffix(x + "\n```", "\n```");
    assert (x + "\n```")[..|x|] == x;
  }

  /** Unwrapping an untagged code block always gives its text back. */
  lemma UnfenceBareBlock(x: string)
    ensures StripFences("```\n" + x + "\n```") == x
  {
    var v := "```\n" + x + "\n```";
    assert v[3] == '\n';
    assert !("```go\n" <= v);
    assert "```\n" <= v;
    assert v[|"```\n"|..] == x + "\n```";
    assert HasSuffix(x + "\n```", "\n```");
    assert (x + "\n```")[..|x|] == x;
  }

  /** The line an array element contributes: strings verbatim, objects' string
      values verbatim (no fence stripping), nothing for anything else. */
  function ItemLine(it: Item): Option<string> {
    match it
    case StrItem(t) => Some(t)
    case ObjItem(v) => v
    case OtherItem => None
  }

  /** The lines of a hover `contents` array: at most one per element, each
      the line of some element; when every element has a line, line `i` is
      element `i`'s. */
  function FormatItems(items: seq<Item>): (lines: seq<string>)
    ensures |lines| <= |items|
    ensures forall l | l in lines :: exists i | 0 <= i < |items| :: ItemLine(items[i]) == Some(l)
    ensures (forall i | 0 <= i < |items| :: ItemLine(items[i]).Some?) ==>
      |lines| == |items| && forall i | 0 <= i < |items| :: lines[i] == ItemLine(items[i]).value
    decreases |items|
  {
    if |items| == 0 then []
    else
      var tail := FormatItems(items[1..]);
      assert forall i | 0 <= i < |items| - 1 :: items[1..][i] == items[i + 1];
      (match ItemLine(items[0]) case Some(l) => [l] case None => []) + tail
  }

  /** Array elements are printed in order: the lines of a concatenation are the
      lines of its parts, one after the other. */
  lemma {:induction false} FormatItemsAppend(a: seq<Item>, b: seq<Item>)
    ensures FormatItems(a + b) == FormatItems(a) + FormatItems(b)
    decreases |a|
  {
    if |a| == 0 {
      assert a + b == b;
    } else {
      assert (a + b)[1..] == a[1..] + b;
      FormatItemsAppend(a[1..], b);
    }
  }

  /** Every element that has a line contributes exactly that one line. */
  lemma FormatItemsSingle(it: Item)
    ensures FormatItems([it]) == match ItemLine(it) case Some(l) => [l] case None => []
  {
    assert [it][1..] == [];
  }

  /** displayHoverInfo as the list of lines it prints. */
  function FormatHover(c: HoverContents): (lines: seq<string>)
    ensures c.Null? ==> lines == [NoHover]
    ensures c.Str? ==> lines == [c.text]
    ensures c.Obj? ==> lines == match c.value case Some(v) => [StripFences(v)] case None => []
    ensures c.Arr? ==> lines == FormatItems(c.items)
    ensures !c.Arr? ==> |lines| <= 1
    ensures c.Other? ==> lines == []
  {
    match c
    case Null => [NoHover]
    case Str(t) => [t]
    case Obj(v) => (match v case Some(s) => [StripFences(s)] case None => [])
    case Arr(items) => FormatItems(items)
    case Other => []
  }

  /** A go-fenced value is shown without its fences; an array of a string and
      an object gives two lines in order, the object's value unstripped; null
      contents give the no-hover message. */
  lemma HoverExamples()
    ensures FormatHover(Obj(Some("```go\n" + "foo" + "\n```"))) == ["foo"]
    ensures FormatHover(Arr([StrItem("a"), ObjItem(Some("```go\nb\n```"))])) == ["a", "```go\nb\n```"]
    ensures FormatHover(Null) == [NoHover]
  {
    assert ("foo" + "\n```")[0] == 'f';
    UnfenceGoBlock("foo");
    FormatItemsAppend([StrItem("a")], [ObjItem(Some("```go\nb\n```"))]);
    FormatItemsSingle(StrItem("a"));
    FormatItemsSingle(ObjItem(Some("```go\nb\n```")));
  }

  // ---------------------------------------------------------------------------
  // Locations

  /** A definition or reference result entry: its URI and its start, 0-based. */
  datatype Location = Location(uri: string, start: Pos)

  /** `path:line:col` with the file scheme removed and the start made 1-based.
      The line determines the path and the shown position, whatever colons the
      path itself contains. */
  function LocationLine(loc: Location): (line: string)
    ensures ParseLocationLine(line) == Some((TrimPrefix(loc.uri, FileScheme), FromWire(loc.start)))
    ensures line == TrimPrefix(loc.uri, FileScheme) + ":" + FormatInt(FromWire(loc.start).line)
                    + ":" + FormatInt(FromWire(loc.start).character)
  {
    var path := TrimPrefix(loc.uri, FileScheme);
    var p := FromWire(loc.start);
    PrintedLocationParses(path, p);
    path + ":" + FormatInt(p.line) + ":" + FormatInt(p.character)
  }

  /** displayLocations as the list of lines it prints. */
  function FormatLocations(locs: seq<Location>): (lines: seq<string>)
    ensures |locs| == 0 ==> lines == [NoLocations]
    ensures |locs| > 0 ==> |lines| == |locs|
    ensures |locs| > 0 ==> forall i | 0 <= i < |locs| :: lines[i] == LocationLine(locs[i])
  {
    if |locs| == 0 then [NoLocations]
    else seq(|locs|, i requires 0 <= i < |locs| => LocationLine(locs[i]))
  }

  /** The index of the last occurrence of `c` in `s`, if any. */
  function LastIndexOf(s: string, c: char): (r: Option<nat>)
    ensures r.None? <==> c !in s
    ensures r.Some? ==> r.value < |s| && s[r.value] == c && c !in s[r.value + 1..]
    decreases |s|
  {
    if |s| == 0 then None
    else if s[|s| - 1] == c then Some(|s| - 1)
    else
      var r := LastIndexOf(s[..|s| - 1], c);
      assert r.Some? ==> s[r.value + 1..] == s[..|s| - 1][r.value + 1..] + [s[|s| - 1]];
      r
  }

  lemma LastIndexOfAt(s: string, c: char, i: nat)
    requires i < |s| && s[i] == c && c !in s[i + 1..]
    ensures LastIndexOf(s, c) == Some(i)
  {
    var j := LastIndexOf(s, c).value;
    assert forall k | i < k < |s| :: s[i + 1..][k - i - 1] == s[k];
    assert forall k | j < k < |s| :: s[j + 1..][k - j - 1] == s[k];
  }

  /** Reads a printed location line back: the last two colon-separated fields
      are the line and column, everything before them is the path. */
  function ParseLocationLine(line: string): Option<(string, Pos)> {
    match LastIndexOf(line, ':')
    case None => None
    case Some(j) =>
      var front := line[..j];
      match LastIndexOf(front, ':')
      case None => None
      case Some(i) =>
        var l := Atoi(front[i + 1..]);
        var c := Atoi(line[j + 1..]);
        if l.err.Some? || c.err.Some? then None
        else Some((front[..i], Pos(l.value, c.value)))
  }

  lemma FormatIntNoColon(v: int)
    ensures ':' !in FormatInt(v)
  {
  }

  /** Splitting `a:b` at its last colon when `b` has none. */
  lemma SplitAtLastColon(a: string, b: string)
    requires ':' !in b
    ensures var s := a + ":" + b;
      LastIndexOf(s, ':') == Some(|a|) && s[..|a|] == a && s[|a| + 1..] == b
  {
    var s := a + ":" + b;
    assert s[|a| + 1..] == b;
    LastIndexOfAt(s, ':', |a|);
  }

  /** `path:line:col` is read back as the path and the position it was
      printed from. */
  lemma PrintedLocationParses(path: string, p: Pos)
    requires InInt64(p.line) && InInt64(p.character)
    ensures ParseLocationLine(path + ":" + FormatInt(p.line) + ":" + FormatInt(p.character)) == Some((path, p))
  {
    var ls := FormatInt(p.line);
    var cs := FormatInt(p.character);
    FormatIntNoColon(p.line);
    FormatIntNoColon(p.character);
    var front := path + ":" + ls;
    SplitAtLastColon(front, cs);
    SplitAtLastColon(path, ls);
    AtoiFormatInt(p.line);
    AtoiFormatInt(p.character);
  }

  // ---------------------------------------------------------------------------
  // From response to printed lines

  /** What json.Unmarshal makes of a response's raw result. */
  datatype Decoded<T> = DecodeFailed | Decoded(value: T)

  /** Hover's last step: a result that does not decode is an error (an error
      response, whose result is empty, included); otherwise its contents are
      formatted. */
  function HoverReport(d: Decoded<HoverContents>): (r: Result<seq<string>, string>)
    ensures r.Err? <==> d.DecodeFailed?
    ensures r.Ok? ==> r.value == FormatHover(d.value)
  {
    match d
    case DecodeFailed => Err("failed to parse hover response")
    case Decoded(c) => Ok(FormatHover(c))
  }

  /** Definition's and References' last step: a null result decodes to no
      locations, which is reported as such and is not an error. */
  function LocationsReport(d: Decoded<seq<Location>>, what: string): (r: Result<seq<string>, string>)
    ensures r.Err? <==> d.DecodeFailed?
    ensures r.Ok? ==> r.value == FormatLocations(d.value) && |r.value| >= 1
  {
    match d
    case DecodeFailed => Err("failed to parse " + what + " response")
    case Decoded(locs) => Ok(FormatLocations(locs))
  }
}
