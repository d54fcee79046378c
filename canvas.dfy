/** The drawing canvas of src/Main.java (`DrawPanel`): the ordered list of finished shapes, the
    shape being drawn or moved, and the point of the last press, with the pointer handlers that
    change them. The editor's settings (mode, tool and colour) are passed to each handler. */
module Canvas {
  import opened Text
  import opened Shapes

  /** The editor's mode (enum `OperationType`). */
  datatype OperationType = DRAW | EDIT

  /** The pointer button of an event. */
  datatype Button = LeftButton | MiddleButton | RightButton

  /** `CLICK_RADIUS`: a press selects a shape whose centre is at most this far away. */
  const ClickRadius: nat := 40

  /** `center.distance(p) <= CLICK_RADIUS`, compared on squared integer distances. */
  predicate Within(center: Point, p: Point) {
    SquaredDistance(center, p) <= ClickRadius * ClickRadius
  }

  // ---------------------------------------------------------------------------
  // Hit test and removal, on values

  /** The index of the first centre within reach of `p`, or `|centres|` if there is none. */
  function FirstHit(centres: seq<Point>, p: Point): (k: nat)
    ensures k <= |centres|
    ensures k < |centres| ==> Within(centres[k], p)
    ensures forall i :: 0 <= i < k ==> !Within(centres[i], p)
  {
    if centres == [] then 0
    else if Within(centres[0], p) then 0
    else 1 + FirstHit(centres[1..], p)
  }

  /** Any index that is within reach, with nothing within reach before it, is the first hit. */
  lemma FirstHitUnique(centres: seq<Point>, p: Point, k: nat)
    requires k <= |centres|
    requires k < |centres| ==> Within(centres[k], p)
    requires forall i :: 0 <= i < k ==> !Within(centres[i], p)
    ensures FirstHit(centres, p) == k
  {
  }

  /** The centre of every shape, in list order. */
  function Centres(shapes: seq<Shape>): (cs: seq<Point>)
    reads shapes
    ensures |cs| == |shapes|
    ensures forall i :: 0 <= i < |shapes| ==> cs[i] == shapes[i].geometry.center
  {
    if shapes == [] then [] else [shapes[0].geometry.center] + Centres(shapes[1..])
  }

  /** The values of the shapes, in list order. */
  function Values(shapes: seq<Shape>): (vs: seq<ShapeValue>)
    reads shapes
    ensures |vs| == |shapes|
    ensures forall i :: 0 <= i < |shapes| ==> vs[i] == shapes[i].Value()
  {
    if shapes == [] then [] else [shapes[0].Value()] + Values(shapes[1..])
  }

  lemma ValuesSnoc(shapes: seq<Shape>, s: Shape)
    ensures Values(shapes + [s]) == Values(shapes) + [s.Value()]
  {
  }

  /** The position of the first occurrence of `x`, or `|s|` if it does not occur. */
  function IndexOf<T(==)>(s: seq<T>, x: T): (k: nat)
    ensures k <= |s|
    ensures k < |s| ==> s[k] == x
    ensures forall i :: 0 <= i < k ==> s[i] != x
  {
    if s == [] then 0
    else if s[0] == x then 0
    else 1 + IndexOf(s[1..], x)
  }

  /** `ArrayList.remove(Object)`: drop the first occurrence of `x`, if there is one. */
  function RemoveFirst<T(==)>(s: seq<T>, x: T): (r: seq<T>)
    ensures x in s ==> |r| == |s| - 1
    ensures x !in s ==> r == s
  {
    var k := IndexOf(s, x);
    if k < |s| then s[..k] + s[k + 1..] else s
  }

  /** Removal takes away exactly one copy of `x` and nothing else. */
  lemma RemoveFirstCount<T>(s: seq<T>, x: T)
    requires x in s
    ensures multiset(RemoveFirst(s, x)) + multiset{x} == multiset(s)
  {
    var k := IndexOf(s, x);
    assert s == s[..k] + [x] + s[k + 1..];
  }

  /** Removing the first occurrence keeps every other element in its relative order: what was
      before it stays in place, and what was after it moves down by one. */
  lemma RemoveFirstOrder<T>(s: seq<T>, x: T)
    requires x in s
    ensures var r, k := RemoveFirst(s, x), IndexOf(s, x);
            && (forall i :: 0 <= i < k ==> r[i] == s[i])
            && (forall i :: k <= i < |r| ==> r[i] == s[i + 1])
  {
    var k := IndexOf(s, x);
    assert RemoveFirst(s, x) == s[..k] + s[k + 1..];
  }

  /** An element with no copy before position `k` has its first occurrence at `k`. */
  lemma RemoveAt<T>(s: seq<T>, k: nat)
    requires k < |s|
    requires forall i :: 0 <= i < k ==> s[i] != s[k]
    ensures RemoveFirst(s, s[k]) == s[..k] + s[k + 1..]
  {
    assert IndexOf(s, s[k]) == k;
  }

  /** The first hit is also the first occurrence of that shape in the list: an earlier
      occurrence would have the same centre and would have been hit first. So removing the hit
      shape removes exactly the entry at the hit index. */
  lemma RemoveHit(shapes: seq<Shape>, p: Point)
    requires FirstHit(Centres(shapes), p) < |shapes|
    ensures var k := FirstHit(Centres(shapes), p);
            RemoveFirst(shapes, shapes[k]) == shapes[..k] + shapes[k + 1..]
  {
    var cs := Centres(shapes);
    var k := FirstHit(cs, p);
    forall i | 0 <= i < k ensures shapes[i] != shapes[k] {
      assert !Within(cs[i], p) && Within(cs[k], p);
    }
    RemoveAt(shapes, k);
  }

  // ---------------------------------------------------------------------------
  // Saving and loading, on values

  /** `toString` of each shape, in order. */
  function Encodings(vs: seq<ShapeValue>): (es: seq<string>)
    ensures |es| == |vs|
    ensures forall i :: 0 <= i < |vs| ==> es[i] == Encode(vs[i])
  {
    if vs == [] then [] else [Encode(vs[0])] + Encodings(vs[1..])
  }

  /** What `saveShapes` writes: read back line by line, the file holds one line per shape, its
      `toString`, in list order. */
  function SaveText(vs: seq<ShapeValue>): (text: string)
    ensures ReadLines(text) == Encodings(vs)
  {
    var es := Encodings(vs);
    assert forall i :: 0 <= i < |es| ==> '\n' !in es[i];
    ReadTerminated(es);
    Terminated(es)
  }

  /** What `f` gives for each element it accepts, in order; the elements it rejects are
      skipped. */
  function Kept<A, B>(f: A -> Option<B>, xs: seq<A>): (ys: seq<B>)
    ensures |ys| <= |xs|
  {
    if xs == [] then []
    else
      var init := Kept(f, xs[..|xs| - 1]);
      var last := f(xs[|xs| - 1]);
      if last.Some? then init + [last.value] else init
  }

  lemma KeptSnoc<A, B>(f: A -> Option<B>, xs: seq<A>, i: nat)
    requires i < |xs|
    ensures Kept(f, xs[..i + 1]) == Kept(f, xs[..i]) + (if f(xs[i]).Some? then [f(xs[i]).value] else [])
  {
    assert xs[..i + 1][..i] == xs[..i];
  }

  /** Only rejected elements are dropped: nothing is lost exactly when `f` accepts every
      element. */
  lemma {:induction false} KeptEverything<A, B>(f: A -> Option<B>, xs: seq<A>)
    ensures |Kept(f, xs)| == |xs| <==> forall i :: 0 <= i < |xs| ==> f(xs[i]).Some?
  {
    if xs != [] {
      var init := xs[..|xs| - 1];
      KeptEverything(f, init);
      assert forall i :: 0 <= i < |init| ==> init[i] == xs[i];
    }
  }

  /** Everything kept satisfies `P` when every value `f` gives satisfies it. */
  lemma {:induction false} KeptSatisfies<A, B>(f: A -> Option<B>, xs: seq<A>, P: B -> bool)
    requires forall i :: 0 <= i < |xs| && f(xs[i]).Some? ==> P(f(xs[i]).value)
    ensures forall j :: 0 <= j < |Kept(f, xs)| ==> P(Kept(f, xs)[j])
  {
    if xs != [] {
      var init := xs[..|xs| - 1];
      assert forall i :: 0 <= i < |init| ==> init[i] == xs[i];
      KeptSatisfies(f, init, P);
    }
  }

  /** When `f` accepts every element, the result lists `f`'s value for each, in order. */
  lemma {:induction false} KeptTotal<A, B>(f: A -> Option<B>, xs: seq<A>)
    requires forall i :: 0 <= i < |xs| ==> f(xs[i]).Some?
    ensures |Kept(f, xs)| == |xs|
    ensures forall i :: 0 <= i < |xs| ==> Some(Kept(f, xs)[i]) == f(xs[i])
  {
    if xs != [] {
      KeptTotal(f, xs[..|xs| - 1]);
    }
  }

  /** The shapes `loadShapes` keeps from the lines of a file: each line that `fromString` turns
      into a shape, in line order; the others are skipped. */
  function DecodeAll(lines: seq<string>): (vs: seq<ShapeValue>)
    ensures |vs| <= |lines|
    ensures forall i :: 0 <= i < |vs| ==> WellFormed(vs[i].geometry) && Canonical(vs[i].geometry)
  {
    KeptSatisfies(Decode, lines, (v: ShapeValue) => WellFormed(v.geometry) && Canonical(v.geometry));
    Kept(Decode, lines)
  }

  /** A line is dropped only when `fromString` rejects it. */
  lemma DecodeAllKeepsDecodable(lines: seq<string>)
    ensures |DecodeAll(lines)| == |lines| <==> forall i :: 0 <= i < |lines| ==> Decode(lines[i]).Some?
  {
    KeptEverything(Decode, lines);
  }

  /** A shape that `toString` can print without overflow and that a constructor or `move` made. */
  predicate Storable(v: ShapeValue) {
    Printable(v) && WellFormed(v.geometry)
  }

  /** Decoding the encodings of well-formed printable shapes keeps every shape, each with the
      same encoding as before; it gives back the very same shapes exactly when each is what a
      constructor builds. */
  lemma DecodeEncodings(vs: seq<ShapeValue>)
    requires forall i :: 0 <= i < |vs| ==> Storable(vs[i])
    ensures |DecodeAll(Encodings(vs))| == |vs|
    ensures Encodings(DecodeAll(Encodings(vs))) == Encodings(vs)
    ensures (forall i :: 0 <= i < |vs| ==> Canonical(vs[i].geometry)) ==> DecodeAll(Encodings(vs)) == vs
  {
    var es := Encodings(vs);
    forall i | 0 <= i < |vs|
      ensures Decode(es[i]).Some? && Encode(Decode(es[i]).value) == es[i]
      ensures Canonical(vs[i].geometry) ==> Decode(es[i]) == Some(vs[i])
    {
      DecodeEncode(vs[i]);
    }
    KeptTotal(Decode, es);
  }

  /** Loading a saved file gives back as many shapes, in the same order, each saving to the
      same line as before. */
  lemma LoadSaveRoundTrip(vs: seq<ShapeValue>)
    requires forall i :: 0 <= i < |vs| ==> Storable(vs[i])
    ensures |DecodeAll(ReadLines(SaveText(vs)))| == |vs|
    ensures SaveText(DecodeAll(ReadLines(SaveText(vs)))) == SaveText(vs)
  {
    DecodeEncodings(vs);
  }

  /** No object occurs twice. */
  predicate Distinct<T(==)>(s: seq<T>) {
    forall a, b :: 0 <= a < b < |s| ==> s[a] != s[b]
  }

  lemma SnocDistinct<T>(s: seq<T>, x: T)
    requires Distinct(s) && x !in s
    ensures Distinct(s + [x])
  {
  }

  // ---------------------------------------------------------------------------
  // The canvas

  class DrawPanel {
    /** The finished shapes, in drawing order (`shapes`). */
    var shapes: seq<Shape>
    /** The shape being drawn or moved, if any (`currentShape`). */
    var currentShape: Shape?
    /** Where the pointer was last pressed, or last moved a shape to (`lastClickPoint`). */
    var lastClickPoint: Point

    /** Every shape on the canvas, and the one in hand, is well-formed geometry. */
    ghost predicate Valid()
      reads this`shapes, this`currentShape, shapes, currentShape
    {
      && (forall i :: 0 <= i < |shapes| ==> WellFormed(shapes[i].geometry))
      && (currentShape != null ==> WellFormed(currentShape.geometry))
    }

    /** An empty canvas with nothing in hand. The press point is unset in the program and is
        written by every press before a drag reads it; here it starts at the origin. */
    constructor()
      ensures shapes == [] && currentShape == null && lastClickPoint == Point(0, 0)
      ensures Valid()
    {
      shapes := [];
      currentShape := null;
      lastClickPoint := Point(0, 0);
    }

    /** The shape a press at `p` takes: the first one in list order whose centre is within
        reach, else whatever was already in hand. */
    function Target(p: Point): (t: Shape?)
      reads this`shapes, this`currentShape, shapes
      ensures t != currentShape ==> t != null && t in shapes && Within(t.geometry.center, p)
    {
      var k := FirstHit(Centres(shapes), p);
      if k < |shapes| then shapes[k] else currentShape
    }

    /** The shape a press takes is the first one in list order within reach of the press; with
        none in reach it is the shape already in hand. */
    lemma TargetIsFirstHit(p: Point)
      ensures (forall i :: 0 <= i < |shapes| ==> !Within(shapes[i].geometry.center, p)) ==> Target(p) == currentShape
      ensures forall i :: 0 <= i < |shapes| && Within(shapes[i].geometry.center, p) ==>
                Target(p) in shapes[..i + 1] && Within(Target(p).geometry.center, p)
    {
      var k := FirstHit(Centres(shapes), p);
      forall i | 0 <= i < |shapes| && Within(shapes[i].geometry.center, p)
        ensures Target(p) in shapes[..i + 1] && Within(Target(p).geometry.center, p)
      {
        assert k <= i && shapes[..i + 1][k] == shapes[k];
      }
    }

    /** `selectShape()`: take the first shape whose centre is within reach of the last click
        point; with none in reach, keep whatever was in hand. */
    method SelectShape()
      requires Valid()
      modifies this`currentShape
      ensures Valid()
      ensures currentShape == old(Target(lastClickPoint))
      ensures var k := FirstHit(Centres(shapes), lastClickPoint);
              k < |shapes| ==> currentShape == shapes[k]
    {
      var i := 0;
      while i < |shapes|
        invariant 0 <= i <= |shapes|
        invariant currentShape == old(currentShape)
        invariant forall j :: 0 <= j < i ==> !Within(shapes[j].geometry.center, lastClickPoint)
      {
        if Within(shapes[i].GetCenter(), lastClickPoint) {
          currentShape := shapes[i];
          FirstHitUnique(Centres(shapes), lastClickPoint, i);
          return;
        }
        i := i + 1;
      }
      FirstHitUnique(Centres(shapes), lastClickPoint, |shapes|);
    }

    /** Deleting the shape in hand: its first occurrence leaves the list, and the hand is
        emptied. */
    method RemoveSelected()
      requires Valid() && currentShape != null
      modifies this`shapes, this`currentShape
      ensures Valid()
      ensures shapes == RemoveFirst(old(shapes), old(currentShape)) && currentShape == null
    {
      if currentShape in shapes {
        RemoveFirstOrder(shapes, currentShape);
      }
      shapes := RemoveFirst(shapes, currentShape);
      currentShape := null;
    }

    /** The right-press part of `mousePressed`: take the shape at the last click point and,
        when there is one, delete its first occurrence and empty the hand (`RemoveHit` shows
        that this is exactly the entry at the hit index). */
    method DeleteTarget()
      requires Valid()
      modifies this`shapes, this`currentShape
      ensures Valid() && currentShape == null
      ensures var target := old(Target(lastClickPoint));
              shapes == (if target == null then old(shapes) else RemoveFirst(old(shapes), target))
    {
      SelectShape();
      if currentShape != null {
        RemoveSelected();
      }
    }

    /** `mousePressed`: record the point; a right press removes the shape it takes and drops
        it from hand; a left press in EDIT mode takes the shape to move. */
    method MousePressed(p: Point, button: Button, mode: OperationType)
      requires Valid()
      modifies this
      ensures Valid()
      ensures lastClickPoint == p
      ensures button == RightButton ==>
                var target := old(Target(p));
                && currentShape == null
                && shapes == (if target == null then old(shapes) else RemoveFirst(old(shapes), target))
      ensures button == LeftButton && mode == EDIT ==>
                shapes == old(shapes) && currentShape == old(Target(p))
      ensures button == MiddleButton || (button == LeftButton && mode == DRAW) ==>
                shapes == old(shapes) && currentShape == old(currentShape)
    {
      ghost var target := Target(p);
      lastClickPoint := p;
      assert Target(lastClickPoint) == target;
      if button == RightButton {
        DeleteTarget();
      } else if button == LeftButton && mode == EDIT {
        SelectShape();
      }
    }

    /** `mouseDragged` with `dynamicDrawing` and `dynamicMoving`: in DRAW mode a left drag puts
        in hand a new shape of the selected tool and colour, spanned from the press point to the
        pointer; in EDIT mode it moves the shape in hand by the pointer's offset from the last
        point and makes the pointer the last point. The list itself never changes. */
    method MouseDragged(p: Point, button: Button, mode: OperationType, tool: ShapeType, color: Color)
      requires Valid()
      modifies this, currentShape
      ensures Valid()
      ensures shapes == old(shapes)
      ensures button == LeftButton && mode == DRAW ==>
                && currentShape != null && fresh(currentShape)
                && currentShape.geometry == MakeGeometry(tool, old(lastClickPoint), p)
                && currentShape.color == color
                && lastClickPoint == old(lastClickPoint)
      ensures button == LeftButton && mode == EDIT && old(currentShape) != null ==>
                && currentShape == old(currentShape)
                && currentShape.geometry == Translate(old(currentShape.geometry),
                                                      p.x - old(lastClickPoint).x, p.y - old(lastClickPoint).y)
                && lastClickPoint == p
      ensures button != LeftButton || (mode == EDIT && old(currentShape) == null) ==>
                currentShape == old(currentShape) && lastClickPoint == old(lastClickPoint)
      ensures forall s :: s in old(shapes) && s != old(currentShape) ==> s.geometry == old(s.geometry)
      ensures old(currentShape) != null && !(button == LeftButton && mode == EDIT) ==>
                old(currentShape).geometry == old(currentShape.geometry)
    {
      if button == LeftButton {
        if mode == DRAW {
          var anchor := lastClickPoint;
          if tool == LINE {
            currentShape := new Shape.Line(anchor, p, color);
          } else if tool == RECTANGLE {
            currentShape := new Shape.Rect(anchor, p, color);
          } else {
            currentShape := new Shape.CircleFromEdge(anchor, p, color);
          }
        } else if currentShape != null {
          var dx := p.x - lastClickPoint.x;
          var dy := p.y - lastClickPoint.y;
          lastClickPoint := p;
          TranslateWellFormed(currentShape.geometry, dx, dy);
          currentShape.Move(dx, dy);
        }
      }
    }

    /** `mouseReleased`: a left release in DRAW mode appends the shape in hand to the list and
        empties the hand; in EDIT mode it only empties the hand. A release with nothing in hand
        appends nothing (see the finding about `ReleaseAsWritten`). */
    method MouseReleased(button: Button, mode: OperationType)
      requires Valid()
      modifies this
      ensures Valid()
      ensures lastClickPoint == old(lastClickPoint)
      ensures button == LeftButton && mode == DRAW ==>
                && shapes == old(shapes) + (if old(currentShape) == null then [] else [old(currentShape)])
                && currentShape == null
      ensures button == LeftButton && mode == EDIT ==>
                shapes == old(shapes) && currentShape == null
      ensures button != LeftButton ==>
                shapes == old(shapes) && currentShape == old(currentShape)
    {
      if button == LeftButton {
        if mode == DRAW && currentShape != null {
          shapes := shapes + [currentShape];
        }
        currentShape := null;
      }
    }

    /** `clear()`: the list becomes empty; the hand and the last point stay as they were. */
    method Clear()
      requires Valid()
      modifies this
      ensures Valid()
      ensures shapes == []
      ensures currentShape == old(currentShape) && lastClickPoint == old(lastClickPoint)
    {
      shapes := [];
    }

    /** `saveShapes()`: the file text, one `toString` line per shape in list order. */
    method SaveShapes() returns (text: string)
      ensures text == SaveText(Values(shapes))
    {
      var vs := Values(shapes);
      ghost var es := Encodings(vs);
      text := [];
      var i := 0;
      while i < |vs|
        invariant 0 <= i <= |vs|
        invariant text == Terminated(es[..i])
      {
        var line := Encode(vs[i]);
        TerminatedPrefix(es, i);
        text := text + line + "\n";
        i := i + 1;
      }
      assert es[..i] == es;
    }

    /** `shapes.add(shape)` */
    method Append(shape: Shape)
      requires Valid() && WellFormed(shape.geometry)
      modifies this`shapes
      ensures Valid()
      ensures Values(shapes) == old(Values(shapes)) + [shape.Value()]
      ensures shapes == old(shapes) + [shape]
    {
      ValuesSnoc(shapes, shape);
      shapes := shapes + [shape];
    }

    /** One turn of the loop in `loadShapes()`: the shape `fromString` makes of the line, if
        any, is appended. */
    method LoadLine(line: string)
      requires Valid()
      modifies this`shapes
      ensures Valid()
      ensures var d := Decode(line);
              Values(shapes) == old(Values(shapes)) + (if d.Some? then [d.value] else [])
      ensures |old(shapes)| <= |shapes| <= |old(shapes)| + 1 && shapes[..|old(shapes)|] == old(shapes)
      ensures |shapes| > |old(shapes)| ==> fresh(shapes[|old(shapes)|])
      ensures forall s :: s in shapes ==> s in old(shapes) || fresh(s)
      ensures Distinct(old(shapes)) ==> Distinct(shapes)
    {
      var shape := FromString(line);
      if shape != null {
        if Distinct(shapes) {
          SnocDistinct(shapes, shape);
        }
        Append(shape);
      }
    }

    /** Loading line `i` extends the shapes loaded from the lines before it. */
    method LoadNext(lines: seq<string>, i: nat)
      requires i < |lines| && Valid() && Distinct(shapes)
      requires Values(shapes) == Kept(Decode, lines[..i])
      modifies this`shapes
      ensures Valid() && Distinct(shapes)
      ensures Values(shapes) == Kept(Decode, lines[..i + 1])
      ensures forall s :: s in shapes ==> s in old(shapes) || fresh(s)
    {
      LoadLine(lines[i]);
      KeptSnoc(Decode, lines, i);
    }

    /** The loop of `loadShapes()`: each line in turn, appending what `fromString` makes of it. */
    method LoadLines(lines: seq<string>)
      requires Valid() && shapes == []
      modifies this`shapes
      ensures Valid()
      ensures Values(shapes) == DecodeAll(lines)
      ensures forall s :: s in shapes ==> fresh(s)
      ensures Distinct(shapes)
    {
      var i := 0;
      while i < |lines|
        invariant 0 <= i <= |lines|
        invariant Valid()
        invariant Values(shapes) == Kept(Decode, lines[..i])
        invariant forall s :: s in shapes ==> fresh(s)
        invariant Distinct(shapes)
      {
        LoadNext(lines, i);
        i := i + 1;
      }
      assert lines[..i] == lines;
    }

    /** `loadShapes()`: the list is emptied, then every line of the file that `fromString`
        accepts is appended as a new shape, in line order. `None` stands for a file that cannot
        be opened, which leaves the list empty. */
    method LoadShapes(file: Option<string>)
      requires Valid()
      modifies this
      ensures Valid()
      ensures file.None? ==> shapes == []
      ensures file.Some? ==> Values(shapes) == DecodeAll(ReadLines(file.value))
      ensures forall s :: s in shapes ==> fresh(s)
      ensures Distinct(shapes)
      ensures currentShape == old(currentShape) && lastClickPoint == old(lastClickPoint)
    {
      shapes := [];
      if file.Some? {
        LoadLines(ReadLines(file.value));
      }
    }
  }

  // ---------------------------------------------------------------------------
  // Gestures made of several events

  /** Dragging the shape in hand along a path of pointer positions in EDIT mode moves it by the
      offset from the press point to the last position, whatever the path. */
  method DragAlong(panel: DrawPanel, path: seq<Point>, tool: ShapeType, color: Color)
    requires panel.Valid() && panel.currentShape != null && path != []
    modifies panel, panel.currentShape
    ensures panel.Valid()
    ensures panel.shapes == old(panel.shapes) && panel.currentShape == old(panel.currentShape)
    ensures panel.lastClickPoint == path[|path| - 1]
    ensures panel.currentShape.geometry == Translate(old(panel.currentShape.geometry),
              path[|path| - 1].x - old(panel.lastClickPoint).x, path[|path| - 1].y - old(panel.lastClickPoint).y)
  {
    var start := panel.lastClickPoint;
    var shape := panel.currentShape;
    var g := shape.geometry;
    var i := 0;
    while i < |path|
      invariant 0 <= i <= |path|
      invariant panel.Valid()
      invariant panel.shapes == old(panel.shapes) && panel.currentShape == shape
      invariant i > 0 ==> panel.lastClickPoint == path[i - 1]
      invariant i == 0 ==> panel.lastClickPoint == start
      invariant shape.geometry == Translate(g, panel.lastClickPoint.x - start.x, panel.lastClickPoint.y - start.y)
    {
      var before := panel.lastClickPoint;
      panel.MouseDragged(path[i], LeftButton, EDIT, tool, color);
      TranslateCompose(g, before.x - start.x, before.y - start.y, path[i].x - before.x, path[i].y - before.y);
      i := i + 1;
    }
  }

  /** A click without a drag in DRAW mode leaves the list as it was. */
  method ClickInDrawMode(panel: DrawPanel, p: Point)
    requires panel.Valid() && panel.currentShape == null
    modifies panel
    ensures panel.Valid()
    ensures panel.shapes == old(panel.shapes) && panel.currentShape == null
  {
    panel.MousePressed(p, LeftButton, DRAW);
    panel.MouseReleased(LeftButton, DRAW);
  }

  // ---------------------------------------------------------------------------
  // The release handler as written

  /** `mouseReleased` in DRAW mode as written: the shape in hand is appended even when there is
      none, so the list can hold `null`. */
  function ReleaseAsWritten(shapes: seq<Shape?>, current: Shape?): (r: seq<Shape?>)
    ensures |r| == |shapes| + 1 && r[..|shapes|] == shapes && r[|shapes|] == current
  {
    shapes + [current]
  }

  /** Every entry is a shape, which the hit test and painting need: both call a method of
      every entry. */
  predicate NoNull(shapes: seq<Shape?>) {
    forall i :: 0 <= i < |shapes| ==> shapes[i] != null
  }

  /** A left click in DRAW mode with no drag in between, which leaves nothing in hand, puts
      `null` into the list as written; the next hit test or repaint then fails on it. */
  lemma ClickAppendsNull(shapes: seq<Shape?>)
    ensures !NoNull(ReleaseAsWritten(shapes, null))
    ensures null in ReleaseAsWritten(shapes, null)
  {
    assert ReleaseAsWritten(shapes, null)[|shapes|] == null;
  }
}
