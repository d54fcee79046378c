/** The shape model of src/Shape.java: the three shape kinds, their construction rules, `move`,
    `getCenter`, `recalculateCenter`, and the one-line text encoding of `toString` and
    `Shape.fromString`. Geometry and colour are values; a `Shape` object holds the geometry
    that `move` updates in place. */
module Shapes {
  import opened Text

  datatype Point = Point(x: int, y: int)

  /** A colour component accepted by `java.awt.Color(int, int, int)`. */
  type Channel = c: int | 0 <= c <= 255

  datatype Color = Color(r: Channel, g: Channel, b: Channel)

  const Black := Color(0, 0, 0)

  /** The tool selected in the editor (enum `ShapeType`). */
  datatype ShapeType = LINE | RECTANGLE | CIRCLE

  /** The stored geometry of each kind. A line keeps a cached centre, a rectangle keeps its
      `java.awt.Rectangle` (top-left corner, width, height) and a cached centre. */
  datatype Geometry =
    | Line(start: Point, end: Point, center: Point)
    | Rect(x: int, y: int, width: int, height: int, center: Point)
    | Circle(center: Point, radius: int)

  datatype ShapeValue = ShapeValue(geometry: Geometry, color: Color)

  function Abs(n: int): nat {
    if n < 0 then -n else n
  }

  function Min(a: int, b: int): int {
    if a <= b then a else b
  }

  // ---------------------------------------------------------------------------
  // Construction rules

  /** Java's `a / 2` on `int`: half of `a`, rounded toward zero (Dafny's `/` rounds down). */
  function JavaHalf(a: int): (q: int)
    ensures 2 * Abs(q) <= Abs(a) <= 2 * Abs(q) + 1
    ensures (q > 0 ==> a > 0) && (q < 0 ==> a < 0)
  {
    if a >= 0 then a / 2 else -((-a) / 2)
  }

  /** `c` is one of the two integers nearest to half of `a`. */
  predicate NearHalf(c: int, a: int) {
    a - 1 <= 2 * c <= a + 1
  }

  function Midpoint(start: Point, end: Point): Point {
    Point(JavaHalf(start.x + end.x), JavaHalf(start.y + end.y))
  }

  /** `new Line(start, end, color)`: the centre is the midpoint, each coordinate rounded toward
      zero. */
  function MakeLine(start: Point, end: Point): (g: Geometry)
    ensures g.Line? && g.start == start && g.end == end
    ensures NearHalf(g.center.x, start.x + end.x) && Abs(2 * g.center.x) <= Abs(start.x + end.x)
    ensures NearHalf(g.center.y, start.y + end.y) && Abs(2 * g.center.y) <= Abs(start.y + end.y)
  {
    Line(start, end, Midpoint(start, end))
  }

  /** `new Rect(start, end, color)`: the rectangle spanned by two opposite corners, whichever
      two they are, with its centre cached. */
  function MakeRect(start: Point, end: Point): (g: Geometry)
    ensures g.Rect? && g.width >= 0 && g.height >= 0
    ensures {g.x, g.x + g.width} == {start.x, end.x}
    ensures {g.y, g.y + g.height} == {start.y, end.y}
    ensures g.center == Point(g.x + g.width / 2, g.y + g.height / 2)
  {
    var x := Min(start.x, end.x);
    var y := Min(start.y, end.y);
    var width := Abs(start.x - end.x);
    var height := Abs(start.y - end.y);
    Rect(x, y, width, height, Point(x + JavaHalf(width), y + JavaHalf(height)))
  }

  function FloorSqrtFrom(n: nat, r: nat): (s: nat)
    requires r * r <= n
    ensures r <= s && s * s <= n < (s + 1) * (s + 1)
    decreases n - r * r
  {
    if (r + 1) * (r + 1) <= n then FloorSqrtFrom(n, r + 1) else r
  }

  /** `(int) Math.sqrt(n)`: the integer square root, rounded down. */
  function FloorSqrt(n: nat): (s: nat)
    ensures s * s <= n < (s + 1) * (s + 1)
  {
    FloorSqrtFrom(n, 0)
  }

  function SquaredDistance(p: Point, q: Point): nat {
    (p.x - q.x) * (p.x - q.x) + (p.y - q.y) * (p.y - q.y)
  }

  /** `new Circle(center, edge, color)`: the radius is the distance to the edge point, rounded
      down. */
  function MakeCircle(center: Point, edge: Point): (g: Geometry)
    ensures g.Circle? && g.center == center && g.radius >= 0
    ensures g.radius * g.radius <= SquaredDistance(edge, center) < (g.radius + 1) * (g.radius + 1)
  {
    Circle(center, FloorSqrt(SquaredDistance(edge, center)))
  }

  /** The shape the editor builds while the pointer is dragged from `anchor` to `pointer`: the
      kind the tool names, anchored at the press point, well-formed and exactly what the
      constructor builds. */
  function MakeGeometry(tool: ShapeType, anchor: Point, pointer: Point): (g: Geometry)
    ensures g.Line? <==> tool == LINE
    ensures g.Rect? <==> tool == RECTANGLE
    ensures g.Circle? <==> tool == CIRCLE
    ensures g.Line? ==> g.start == anchor && g.end == pointer
    ensures g.Circle? ==> g.center == anchor
    ensures WellFormed(g) && Canonical(g)
  {
    match tool
    case LINE => MakeLine(anchor, pointer)
    case RECTANGLE => MakeRect(anchor, pointer)
    case CIRCLE => MakeCircle(anchor, pointer)
  }

  /** What every constructor establishes and `move` keeps: a rectangle is normalised and centred,
      a line's cached centre is within half a unit of the true midpoint on each axis. */
  predicate WellFormed(g: Geometry) {
    match g
    case Line(start, end, center) =>
      NearHalf(center.x, start.x + end.x) && NearHalf(center.y, start.y + end.y)
    case Rect(x, y, width, height, center) =>
      width >= 0 && height >= 0 && center == Point(x + width / 2, y + height / 2)
    case Circle(_, _) => true
  }

  /** Exactly what a constructor would build from the fields that the encoding prints. */
  predicate Canonical(g: Geometry) {
    match g
    case Line(start, end, center) => center == Midpoint(start, end)
    case Rect(_, _, _, _, _) => WellFormed(g)
    case Circle(_, _) => true
  }

  /** A rectangle is the same whichever pair of opposite corners it is dragged between, and in
      whichever direction. */
  lemma MakeRectCornerOrder(a: Point, b: Point)
    ensures MakeRect(a, b) == MakeRect(b, a)
    ensures MakeRect(a, b) == MakeRect(Point(a.x, b.y), Point(b.x, a.y))
    ensures MakeRect(a, b) == MakeRect(Point(b.x, a.y), Point(a.x, b.y))
  {
    MakeRectSwap(a, b);
    MakeRectSwap(Point(a.x, b.y), Point(b.x, a.y));
  }

  lemma MakeRectSwap(a: Point, b: Point)
    ensures MakeRect(a, b) == MakeRect(b, a)
  {
    assert Min(a.x, b.x) == Min(b.x, a.x) && Abs(a.x - b.x) == Abs(b.x - a.x);
    assert Min(a.y, b.y) == Min(b.y, a.y) && Abs(a.y - b.y) == Abs(b.y - a.y);
  }

  /** The radius is the only natural number whose square brackets the squared distance. */
  lemma FloorSqrtUnique(n: nat, s: nat)
    requires s * s <= n < (s + 1) * (s + 1)
    ensures s == FloorSqrt(n)
  {
    var t := FloorSqrt(n);
    if s < t {
      SquareMonotone(s + 1, t);
    } else if t < s {
      SquareMonotone(t + 1, s);
    }
  }

  lemma SquareMonotone(a: nat, b: nat)
    requires a <= b
    ensures a * a <= b * b
  {
    assert a * a <= a * b by {
      assert a * b - a * a == a * (b - a);
    }
    assert a * b <= b * b by {
      assert b * b - a * b == b * (b - a);
    }
  }

  // ---------------------------------------------------------------------------
  // Moving

  function TranslatePoint(p: Point, dx: int, dy: int): Point {
    Point(p.x + dx, p.y + dy)
  }

  /** `move(dx, dy)`: every stored point, the cached centre included, shifts by (dx, dy). */
  function Translate(g: Geometry, dx: int, dy: int): (t: Geometry)
    ensures t.center == TranslatePoint(g.center, dx, dy)
    ensures t.Line? == g.Line? && t.Rect? == g.Rect? && t.Circle? == g.Circle?
    ensures t.Rect? ==> t.width == g.width && t.height == g.height
    ensures t.Circle? ==> t.radius == g.radius
  {
    match g
    case Line(start, end, center) =>
      Line(TranslatePoint(start, dx, dy), TranslatePoint(end, dx, dy), TranslatePoint(center, dx, dy))
    case Rect(x, y, width, height, center) =>
      Rect(x + dx, y + dy, width, height, TranslatePoint(center, dx, dy))
    case Circle(center, radius) =>
      Circle(TranslatePoint(center, dx, dy), radius)
  }

  /** Moving back by the opposite offset restores the geometry exactly. */
  lemma TranslateUndo(g: Geometry, dx: int, dy: int)
    ensures Translate(Translate(g, dx, dy), -dx, -dy) == g
  {
  }

  /** Two moves add up to one move by the sum of the offsets. */
  lemma TranslateCompose(g: Geometry, dx1: int, dy1: int, dx2: int, dy2: int)
    ensures Translate(Translate(g, dx1, dy1), dx2, dy2) == Translate(g, dx1 + dx2, dy1 + dy2)
  {
  }

  /** Moving keeps a shape well-formed. */
  lemma TranslateWellFormed(g: Geometry, dx: int, dy: int)
    requires WellFormed(g)
    ensures WellFormed(Translate(g, dx, dy))
  {
  }

  /** Moving a line shifts its cached centre instead of recomputing it, so the centre can end
      up one unit away from what `recalculateCenter` would give: the line from (0, 0) to
      (-1, 0) has centre (0, 0); moved by (1, 0) it has centre (1, 0), while the recomputed
      midpoint of (1, 0) and (0, 0) is (0, 0). */
  lemma MovedLineCentreDrifts()
    ensures Translate(MakeLine(Point(0, 0), Point(-1, 0)), 1, 0) == Line(Point(1, 0), Point(0, 0), Point(1, 0))
    ensures Midpoint(Point(1, 0), Point(0, 0)) == Point(0, 0)
  {
    var line := MakeLine(Point(0, 0), Point(-1, 0));
    assert line == Line(Point(0, 0), Point(-1, 0), Point(0, 0)) by {
      assert JavaHalf(-1) == 0 && JavaHalf(0) == 0;
    }
    assert JavaHalf(1) == 0;
  }

  // ---------------------------------------------------------------------------
  // Text encoding

  function Keyword(g: Geometry): string {
    match g
    case Line(_, _, _) => "LINE"
    case Rect(_, _, _, _, _) => "RECTANGLE"
    case Circle(_, _) => "CIRCLE"
  }

  /** The integers `toString` prints after the keyword: the geometry fields, then r g b. */
  function Numbers(v: ShapeValue): seq<int> {
    var c := v.color;
    match v.geometry
    case Line(start, end, _) => [start.x, start.y, end.x, end.y, c.r, c.g, c.b]
    case Rect(x, y, width, height, _) => [x, y, width, height, c.r, c.g, c.b]
    case Circle(center, radius) => [center.x, center.y, radius, c.r, c.g, c.b]
  }

  function Numerals(ns: seq<int>): seq<string> {
    seq(|ns|, i requires 0 <= i < |ns| => IntToString(ns[i]))
  }

  function Fields(v: ShapeValue): seq<string> {
    [Keyword(v.geometry)] + Numerals(Numbers(v))
  }

  /** Every field `toString` prints is one non-empty token without a line break. */
  lemma FieldsClean(v: ShapeValue)
    ensures forall i :: 0 <= i < |Fields(v)| ==> ' ' !in Fields(v)[i] && '\n' !in Fields(v)[i] && Fields(v)[i] != []
  {
    var fs := Fields(v);
    forall i | 0 < i < |fs| ensures ' ' !in fs[i] && '\n' !in fs[i] && fs[i] != [] {
      PrintedToken(Numbers(v)[i - 1]);
    }
  }

  /** `toString`: the keyword and the numbers, separated by single spaces; a single line that
      starts with the keyword and a space. */
  function Encode(v: ShapeValue): (s: string)
    ensures '\n' !in s
    ensures var k := Keyword(v.geometry);
            |s| > |k| && s[..|k|] == k && s[|k|] == ' '
  {
    FieldsClean(v);
    JoinAvoids(Fields(v), ' ', '\n');
    Join(Fields(v), ' ')
  }

  /** Every number the encoding prints fits in a Java `int`. */
  predicate Printable(v: ShapeValue) {
    forall i :: 0 <= i < |Numbers(v)| ==> IsInt32(Numbers(v)[i])
  }

  /** The encoding is exactly the keyword followed by the printed fields, each a single token:
      splitting it on spaces gives them back. */
  lemma EncodeTokens(v: ShapeValue)
    requires Printable(v)
    ensures JavaSplit(Encode(v), ' ') == Fields(v)
  {
    FieldsClean(v);
    JavaSplitJoin(Fields(v), ' ');
  }

  lemma {:induction false} JoinAvoids(parts: seq<string>, sep: char, c: char)
    requires c != sep
    requires forall i :: 0 <= i < |parts| ==> c !in parts[i]
    ensures c !in Join(parts, sep)
  {
    if |parts| > 1 {
      JoinAvoids(parts[1..], sep, c);
    }
  }

  /** What `fromString` reads from the tokens before it calls a constructor. */
  datatype Parsed =
    | LineArgs(start: Point, end: Point, color: Color)
    | RectArgs(corner: Point, opposite: Point, color: Color)
    | CircleArgs(center: Point, radius: int, color: Color)

  /** `new Color(r, g, b)` from three decimal texts: `None` when a text is not an `int` or a
      component is outside 0..255. */
  function ParseColor(red: string, green: string, blue: string): (c: Option<Color>)
    ensures c.Some? ==> && ParseInt(red) == Some(c.value.r as int)
                        && ParseInt(green) == Some(c.value.g as int)
                        && ParseInt(blue) == Some(c.value.b as int)
  {
    var r, g, b := ParseInt(red), ParseInt(green), ParseInt(blue);
    if r.Some? && g.Some? && b.Some? && 0 <= r.value <= 255 && 0 <= g.value <= 255 && 0 <= b.value <= 255
    then Some(Color(r.value, g.value, b.value))
    else None
  }

  /** `ParseColor` accepts exactly three `int` texts in 0..255, and gives the colour they name. */
  lemma ParseColorIff(red: string, green: string, blue: string, c: Color)
    ensures ParseColor(red, green, blue) == Some(c) <==>
              ParseInt(red) == Some(c.r as int) && ParseInt(green) == Some(c.g as int) && ParseInt(blue) == Some(c.b as int)
    ensures ParseColor(red, green, blue).None? <==>
              exists text :: text in [red, green, blue] && (ParseInt(text).None? || !(0 <= ParseInt(text).value <= 255))
  {
    var r, g, b := ParseInt(red), ParseInt(green), ParseInt(blue);
    if ParseColor(red, green, blue).None? {
      if r.Some? && 0 <= r.value <= 255 && g.Some? && 0 <= g.value <= 255 {
        assert [red, green, blue][2] == blue;
      } else if r.Some? && 0 <= r.value <= 255 {
        assert [red, green, blue][1] == green;
      } else {
        assert [red, green, blue][0] == red;
      }
    }
  }

  /** The indices `fromString` reads for a keyword from `n` tokens: x and y at 1 and 2, the rest
      of the geometry at 3 (and 4), and the colour at the last three. */
  function ReadIndices(keyword: string, n: int): (idx: seq<int>)
    ensures |idx| == (if keyword == "CIRCLE" then 6 else 7)
  {
    if keyword == "CIRCLE" then [1, 2, 3, n - 3, n - 2, n - 1]
    else [1, 2, 3, 4, n - 3, n - 2, n - 1]
  }

  /** The integers at the given token indices, in that order; `None` if an index is outside
      the tokens or its token is not the text of an `int`. */
  function ReadInts(t: seq<string>, idx: seq<int>): (r: Option<seq<int>>)
    ensures r.Some? ==> |r.value| == |idx|
  {
    if idx == [] then Some([])
    else if !(0 <= idx[0] < |t|) || ParseInt(t[idx[0]]).None? then None
    else
      var rest := ReadInts(t, idx[1..]);
      if rest.None? then None else Some([ParseInt(t[idx[0]]).value] + rest.value)
  }

  /** Token `i` exists and is the text of an `int`. */
  predicate IntAt(t: seq<string>, i: int) {
    0 <= i < |t| && ParseInt(t[i]).Some?
  }

  /** `ReadInts` succeeds exactly when every index holds an `int`. */
  lemma {:induction false} ReadIntsSome(t: seq<string>, idx: seq<int>)
    ensures ReadInts(t, idx).Some? <==> forall j :: 0 <= j < |idx| ==> IntAt(t, idx[j])
  {
    if idx != [] {
      ReadIntsSome(t, idx[1..]);
      if ReadInts(t, idx).None? && IntAt(t, idx[0]) {
        var j :| 0 <= j < |idx[1..]| && !IntAt(t, idx[1..][j]);
        assert !IntAt(t, idx[j + 1]);
      }
    }
  }

  /** When `ReadInts` succeeds, its `j`-th number is the `int` at the `j`-th index. */
  lemma {:induction false} ReadIntsAt(t: seq<string>, idx: seq<int>, j: nat)
    requires ReadInts(t, idx).Some? && j < |idx|
    ensures 0 <= idx[j] < |t| && ParseInt(t[idx[j]]) == Some(ReadInts(t, idx).value[j])
  {
    if j > 0 {
      ReadIntsAt(t, idx[1..], j - 1);
      assert idx[1..][j - 1] == idx[j];
    }
  }

  /** The last three of the numbers read are colour components in 0..255. */
  predicate ChannelsInRange(ns: seq<int>) {
    forall i :: 0 <= i < |ns| && |ns| - 3 <= i ==> 0 <= ns[i] <= 255
  }

  lemma ChannelsInRangeIff(ns: seq<int>)
    requires |ns| >= 3
    ensures ChannelsInRange(ns) <==>
              && 0 <= ns[|ns| - 3] <= 255 && 0 <= ns[|ns| - 2] <= 255 && 0 <= ns[|ns| - 1] <= 255
  {
    if 0 <= ns[|ns| - 3] <= 255 && 0 <= ns[|ns| - 2] <= 255 && 0 <= ns[|ns| - 1] <= 255 {
      forall i | 0 <= i < |ns| && |ns| - 3 <= i ensures 0 <= ns[i] <= 255 {
        assert i == |ns| - 3 || i == |ns| - 2 || i == |ns| - 1;
      }
    }
  }

  /** What `fromString` takes from the numbers after a keyword: the first point, then the
      second point, the width and height, or the radius, and the colour from the last three. */
  function ReadBack(keyword: string, ns: seq<int>): Parsed
    requires |ns| >= 6 && ChannelsInRange(ns)
  {
    var n := |ns|;
    var c := Color(ns[n - 3], ns[n - 2], ns[n - 1]);
    if keyword == "LINE" then LineArgs(Point(ns[0], ns[1]), Point(ns[2], ns[3]), c)
    else if keyword == "RECTANGLE" then RectArgs(Point(ns[0], ns[1]), Point(ns[0] + ns[2], ns[1] + ns[3]), c)
    else CircleArgs(Point(ns[0], ns[1]), ns[2], c)
  }

  /** The tokens of `fromString`: a known keyword, the integers at the indices it reads, and a
      colour in range. The token count is never checked, so the geometry and colour indices may
      overlap; an index past the end is a failure like any other. */
  function ParseTokens(t: seq<string>): Option<Parsed> {
    if |t| == 0 || t[0] !in {"LINE", "RECTANGLE", "CIRCLE"} then None
    else
      var ns := ReadInts(t, ReadIndices(t[0], |t|));
      if ns.None? || !ChannelsInRange(ns.value) then None
      else Some(ReadBack(t[0], ns.value))
  }

  /** The constructor `fromString` calls for each kind. */
  function Build(p: Parsed): ShapeValue {
    match p
    case LineArgs(start, end, color) => ShapeValue(MakeLine(start, end), color)
    case RectArgs(corner, opposite, color) => ShapeValue(MakeRect(corner, opposite), color)
    case CircleArgs(center, radius, color) => ShapeValue(Circle(center, radius), color)
  }

  /** `Shape.fromString`, with `None` for `null`. */
  function Decode(s: string): (r: Option<ShapeValue>)
    ensures r.Some? ==> WellFormed(r.value.geometry) && Canonical(r.value.geometry)
  {
    var parsed := ParseTokens(JavaSplit(s, ' '));
    if parsed.None? then None else Some(Build(parsed.value))
  }

  /** Token `i` exists and is the text of an `int` in 0..255. */
  predicate ChannelAt(t: seq<string>, i: int) {
    IntAt(t, i) && 0 <= ParseInt(t[i]).value <= 255
  }

  /** The conditions under which `fromString` gives a shape rather than `null`, token by token:
      a known keyword, integers at indices 1, 2, 3 (and 4 unless the keyword is CIRCLE), and
      colour components in the last three tokens, which may be some of the same tokens. */
  predicate AcceptedTokens(t: seq<string>) {
    && |t| > 0
    && t[0] in {"LINE", "RECTANGLE", "CIRCLE"}
    && IntAt(t, 1) && IntAt(t, 2) && IntAt(t, 3) && (t[0] != "CIRCLE" ==> IntAt(t, 4))
    && ChannelAt(t, |t| - 3) && ChannelAt(t, |t| - 2) && ChannelAt(t, |t| - 1)
  }

  /** `fromString` returns `null` exactly for an unknown keyword, too few tokens for the indices
      it reads, a token it reads that is not an `int`, or a colour component outside 0..255. */
  lemma DecodeSucceedsIff(s: string)
    ensures Decode(s).Some? <==> AcceptedTokens(JavaSplit(s, ' '))
  {
    ParseTokensIff(JavaSplit(s, ' '));
  }

  lemma ParseTokensIff(t: seq<string>)
    ensures ParseTokens(t).Some? <==> AcceptedTokens(t)
  {
    if AcceptedTokens(t) {
      AcceptedParses(t);
    }
    if ParseTokens(t).Some? {
      ParsedAccepted(t);
    }
  }

  lemma AcceptedParses(t: seq<string>)
    requires AcceptedTokens(t)
    ensures ParseTokens(t).Some?
  {
    var idx := ReadIndices(t[0], |t|);
    AcceptedIndices(t);
    ReadIntsSome(t, idx);
    AcceptedChannels(t, idx);
  }

  /** Colour tokens in range give colour components in range among the numbers read. */
  lemma AcceptedChannels(t: seq<string>, idx: seq<int>)
    requires |idx| >= 3 && ReadInts(t, idx).Some?
    requires idx[|idx| - 3] == |t| - 3 && idx[|idx| - 2] == |t| - 2 && idx[|idx| - 1] == |t| - 1
    requires ChannelAt(t, |t| - 3) && ChannelAt(t, |t| - 2) && ChannelAt(t, |t| - 1)
    ensures ChannelsInRange(ReadInts(t, idx).value)
  {
    var k := |idx|;
    ReadChannel(t, idx, k - 3, |t| - 3);
    ReadChannel(t, idx, k - 2, |t| - 2);
    ReadChannel(t, idx, k - 1, |t| - 1);
    ChannelsInRangeIff(ReadInts(t, idx).value);
  }

  lemma ReadChannel(t: seq<string>, idx: seq<int>, j: nat, i: int)
    requires ReadInts(t, idx).Some? && j < |idx| && idx[j] == i && ChannelAt(t, i)
    ensures 0 <= ReadInts(t, idx).value[j] <= 255
  {
    ReadIntsAt(t, idx, j);
  }

  /** Accepted tokens hold an `int` at every index `fromString` reads. */
  lemma AcceptedIndices(t: seq<string>)
    requires AcceptedTokens(t)
    ensures var idx := ReadIndices(t[0], |t|);
            forall j :: 0 <= j < |idx| ==> IntAt(t, idx[j])
  {
    var n, idx := |t|, ReadIndices(t[0], |t|);
    var k := |idx|;
    forall j | 0 <= j < k ensures IntAt(t, idx[j]) {
      if j == 0 {
      } else if j == 1 {
      } else if j == 2 {
      } else if j < k - 3 {
        assert j == 3 && idx[j] == 4;
      } else if j == k - 3 {
        assert idx[j] == n - 3;
      } else if j == k - 2 {
        assert idx[j] == n - 2;
      } else {
        assert idx[j] == n - 1;
      }
    }
  }

  lemma ParsedAccepted(t: seq<string>)
    requires ParseTokens(t).Some?
    ensures AcceptedTokens(t)
  {
    var n, idx := |t|, ReadIndices(t[0], |t|);
    var k := |idx|;
    ReadIntsSome(t, idx);
    assert IntAt(t, idx[0]) && IntAt(t, idx[1]) && IntAt(t, idx[2]);
    assert t[0] != "CIRCLE" ==> IntAt(t, idx[3]);
    assert IntAt(t, idx[k - 3]) && IntAt(t, idx[k - 2]) && IntAt(t, idx[k - 1]);
    ReadIntsAt(t, idx, k - 3);
    ReadIntsAt(t, idx, k - 2);
    ReadIntsAt(t, idx, k - 1);
    ChannelsInRangeIff(ReadInts(t, idx).value);
  }

  /** Parsing the printed numbers gives each of them back. */
  lemma ParseNumerals(keyword: string, ns: seq<int>)
    requires forall i :: 0 <= i < |ns| ==> IsInt32(ns[i])
    ensures forall i :: 0 <= i < |ns| ==> ParseInt(([keyword] + Numerals(ns))[i + 1]) == Some(ns[i])
  {
    var t := [keyword] + Numerals(ns);
    forall i | 0 <= i < |ns| ensures ParseInt(t[i + 1]) == Some(ns[i]) {
      assert t[i + 1] == IntToString(ns[i]);
      ParsePrinted(ns[i]);
    }
  }

  /** Tokens that hold a keyword and exactly the numbers it needs parse to those numbers. */
  lemma ParseNumberTokens(t: seq<string>, ns: seq<int>)
    requires |t| == |ns| + 1 && t[0] in {"LINE", "RECTANGLE", "CIRCLE"}
    requires |ns| == (if t[0] == "CIRCLE" then 6 else 7)
    requires forall i :: 0 <= i < |ns| ==> ParseInt(t[i + 1]) == Some(ns[i])
    requires ChannelsInRange(ns)
    ensures ParseTokens(t) == Some(ReadBack(t[0], ns))
  {
    var idx := ReadIndices(t[0], |t|);
    assert forall j :: 0 <= j < |idx| ==> idx[j] == j + 1;
    ReadIntsSome(t, idx);
    forall j | 0 <= j < |idx| ensures IntAt(t, idx[j]) {
      assert ParseInt(t[j + 1]) == Some(ns[j]);
    }
    forall j | 0 <= j < |idx| ensures ReadInts(t, idx).value[j] == ns[j] {
      ReadIntsAt(t, idx, j);
    }
  }

  /** The keywords `fromString` knows, each with the count of numbers `toString` prints after it. */
  predicate NumbersFit(keyword: string, ns: seq<int>) {
    && keyword in {"LINE", "RECTANGLE", "CIRCLE"}
    && |ns| == (if keyword == "CIRCLE" then 6 else 7)
    && (forall i :: 0 <= i < |ns| ==> IsInt32(ns[i]))
    && ChannelsInRange(ns)
  }

  /** A line of a keyword and printed numbers decodes to what the keyword's constructor builds
      from those numbers. */
  lemma DecodeNumerals(keyword: string, ns: seq<int>)
    requires NumbersFit(keyword, ns)
    ensures Decode(Join([keyword] + Numerals(ns), ' ')) == Some(Build(ReadBack(keyword, ns)))
  {
    var t := [keyword] + Numerals(ns);
    forall i | 0 <= i < |t| ensures ' ' !in t[i] && t[i] != [] {
      if i > 0 {
        PrintedToken(ns[i - 1]);
      }
    }
    JavaSplitJoin(t, ' ');
    ParseNumerals(keyword, ns);
    ParseNumberTokens(t, ns);
  }

  /** The shape a constructor builds from the fields of `v` prints the same fields, and it is
      `v` itself exactly when `v` is what that constructor builds. */
  lemma RebuildFields(v: ShapeValue)
    requires v.geometry.Rect? ==> v.geometry.width >= 0 && v.geometry.height >= 0
    ensures Fields(Build(ReadBack(Keyword(v.geometry), Numbers(v)))) == Fields(v)
    ensures Build(ReadBack(Keyword(v.geometry), Numbers(v))) == v <==> Canonical(v.geometry)
  {
    var w := Build(ReadBack(Keyword(v.geometry), Numbers(v)));
    assert Numbers(w) == Numbers(v);
  }

  /** Parsing an encoded shape gives a shape with the same encoding; when the shape is exactly
      what a constructor builds from its printed fields, parsing gives that very shape back. */
  lemma DecodeEncode(v: ShapeValue)
    requires Printable(v)
    requires v.geometry.Rect? ==> v.geometry.width >= 0 && v.geometry.height >= 0
    ensures Decode(Encode(v)).Some?
    ensures Encode(Decode(Encode(v)).value) == Encode(v)
    ensures Decode(Encode(v)) == Some(v) <==> Canonical(v.geometry)
  {
    var ns := Numbers(v);
    assert NumbersFit(Keyword(v.geometry), ns);
    DecodeNumerals(Keyword(v.geometry), ns);
    RebuildFields(v);
  }

  /** A RECTANGLE line with a negative width or height describes the same rectangle as its
      normalised form: parsing takes (x, y) and (x + width, y + height) as opposite corners. */
  lemma DecodeNormalisesRect(ns: seq<int>)
    requires NumbersFit("RECTANGLE", ns)
    ensures var v := Decode(Join(["RECTANGLE"] + Numerals(ns), ' '));
            && v == Some(ShapeValue(MakeRect(Point(ns[0], ns[1]), Point(ns[0] + ns[2], ns[1] + ns[3])),
                                    Color(ns[4], ns[5], ns[6])))
            && v.value.geometry.width == Abs(ns[2]) && v.value.geometry.height == Abs(ns[3])
  {
    DecodeNumerals("RECTANGLE", ns);
  }

  // ---------------------------------------------------------------------------
  // Shape objects

  /** A shape as the editor holds it: `move` and `recalculateCenter` change its geometry in
      place; its colour is fixed at construction. */
  class Shape {
    var geometry: Geometry
    const color: Color

    /** `new Line(start, end, color)` */
    constructor Line(start: Point, end: Point, color: Color)
      ensures geometry == MakeLine(start, end) && this.color == color
    {
      geometry := MakeLine(start, end);
      this.color := color;
    }

    /** `new Rect(start, end, color)` */
    constructor Rect(start: Point, end: Point, color: Color)
      ensures geometry == MakeRect(start, end) && this.color == color
    {
      geometry := MakeRect(start, end);
      this.color := color;
    }

    /** `new Circle(center, edge, color)` */
    constructor CircleFromEdge(center: Point, edge: Point, color: Color)
      ensures geometry == MakeCircle(center, edge) && this.color == color
    {
      geometry := MakeCircle(center, edge);
      this.color := color;
    }

    /** `new Circle(center, radius, color)`: the radius is stored as given. */
    constructor CircleWithRadius(center: Point, radius: int, color: Color)
      ensures geometry == Geometry.Circle(center, radius) && this.color == color
    {
      geometry := Geometry.Circle(center, radius);
      this.color := color;
    }

    function Value(): ShapeValue
      reads this
    {
      ShapeValue(geometry, color)
    }

    /** `getCenter()`: the point the hit test measures from. For a well-formed shape it is the
        middle of a rectangle, within half a unit of a line's midpoint on each axis, and a
        circle's centre. */
    function GetCenter(): (c: Point)
      reads this
      ensures WellFormed(geometry) && geometry.Rect? ==>
                c == Point(geometry.x + geometry.width / 2, geometry.y + geometry.height / 2)
      ensures WellFormed(geometry) && geometry.Line? ==>
                NearHalf(c.x, geometry.start.x + geometry.end.x) && NearHalf(c.y, geometry.start.y + geometry.end.y)
      ensures geometry.Circle? ==> c == geometry.center
    {
      geometry.center
    }

    /** `move(dx, dy)` */
    method Move(dx: int, dy: int)
      modifies this
      ensures geometry == Translate(old(geometry), dx, dy)
    {
      geometry := Translate(geometry, dx, dy);
    }

    /** `recalculateCenter()` of a line: the cached centre becomes the midpoint again. */
    method RecalculateCenter()
      requires geometry.Line?
      modifies this
      ensures geometry == MakeLine(old(geometry).start, old(geometry).end)
      ensures Canonical(geometry) && WellFormed(geometry)
    {
      geometry := Geometry.Line(geometry.start, geometry.end, Midpoint(geometry.start, geometry.end));
    }
  }

  /** `Shape.fromString(s)`: a new shape built by the constructor of its kind, or `null`. */
  method FromString(s: string) returns (shape: Shape?)
    ensures shape == null <==> Decode(s).None?
    ensures shape != null ==> fresh(shape) && shape.Value() == Decode(s).value
  {
    var parsed := ParseTokens(JavaSplit(s, ' '));
    if parsed.None? {
      shape := null;
    } else if parsed.value.LineArgs? {
      shape := new Shape.Line(parsed.value.start, parsed.value.end, parsed.value.color);
    } else if parsed.value.RectArgs? {
      shape := new Shape.Rect(parsed.value.corner, parsed.value.opposite, parsed.value.color);
    } else {
      shape := new Shape.CircleWithRadius(parsed.value.center, parsed.value.radius, parsed.value.color);
    }
  }
}
