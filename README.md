# Vector graphics editor: shapes and canvas

This project models the core of a small Swing vector-graphics editor in Dafny.

- **Shapes.** The three shape kinds of `src/Shape.java` are lines, rectangles and circles. The model covers their construction rules (a normalised rectangle, a line centre rounded toward zero, a circle radius that is the integer square root of the squared edge distance), `move`, `getCenter`, `recalculateCenter`, and the one-line text encoding written by `toString` and read back by `Shape.fromString`.
- **Canvas.** The drawing canvas `DrawPanel` of `src/Main.java` holds an ordered list of shapes, the shape in hand, and the last press point. Its pointer handlers change these by mode (DRAW or EDIT) and by button. The model also covers the first-match hit test within radius 40, right-press deletion, commit on release, moving by increments, `clear`, and saving and loading as text.
- **Editor settings.** The editor window holds the tool, the mode and the colour. `setColor` parses the colour from three text fields.

The files are:

- `text.dfy` (module `Text`): the Java library behaviour the encoding depends on. This covers `Integer.parseInt` with an optional sign and the `int` range, `Integer.toString`, `String.split(" ")` (which drops trailing empty pieces and returns the whole string when there is no separator), the lines `BufferedReader.readLine` yields, and what a loop of `println` writes.
- `shapes.dfy` (module `Shapes`): geometry and colour as values, and the class `Shape`, whose geometry `move` and `recalculateCenter` update in place. It also holds the encoding, the decoding and the lemmas that connect them.
- `canvas.dfy` (module `Canvas`): the class `DrawPanel` and its handlers, and list removal as `ArrayList.remove(Object)` does it. It also holds save and load as functions on text, and gestures made of several events.
- `editor.dfy` (module `Editor`): the class `VectorGraphicsEditor`, which holds the tool, the mode and the colour, with `setColor` and the forwarding of presses, drags and releases to the canvas.

Some parameters stand in for things outside the model:

- The handlers of `DrawPanel` receive the editor's mode, tool and colour as parameters. In the program they read them from the enclosing window.
- `saveShapes` returns the file text.
- `loadShapes` receives the file text, or `None` when the file cannot be opened.

Behaviour of the code worth knowing:

- `clear()` empties the list but leaves the shape in hand as it was.
- `loadShapes()` empties the list before it opens the file, so a file that cannot be opened leaves the list empty, not unchanged.
- The token count in `fromString` is never checked. The geometry indices and the last-three colour indices may overlap: `CIRCLE 1 2 3 4` reads x=1, y=2, radius=3 and colour (2, 3, 4).
- `move` shifts a line's cached centre instead of recomputing it. The centre may therefore drift one unit from the rounded midpoint (`MovedLineCentreDrifts`). The invariant that survives is that twice the centre is within one of the sum of the endpoints (`WellFormed`).

## Model

| member | source | states |
|---|---|---|
| Text.ParseInt | src/Shape.java:12-13 | `Integer.parseInt` succeeds only with a value in the Java `int` range |
| Text.DigitsValueSome | src/Shape.java:12-13 | a digit string has a value exactly when every character is a decimal digit |
| Text.NatToString | src/Shape.java:68 | the printed digits of a natural number are non-empty, all digits, and denote that number |
| Text.ParsePrinted | src/Shape.java:63-68 | every `int` that `toString` prints parses back to itself |
| Text.IntToString | src/Shape.java:68 | the printed number is non-empty and starts with a minus sign exactly when it is negative |
| Text.PrintedToken | src/Shape.java:63-68 | a printed number is one non-empty token with no space or line break |
| Text.JavaSplitJoin | src/Shape.java:10 | `split(" ")` of non-empty space-free pieces joined by single spaces gives those pieces back |
| Text.JavaSplit | src/Shape.java:10 | `split(" ")` gives the whole string when it has no separator; no piece contains the separator; when it splits, the last piece is non-empty |
| Text.ReadTerminated | src/Main.java:318-320 | reading lines back from what `println` wrote line by line gives the same lines |
| Text.ReadLines | src/Main.java:318-320 | empty text yields no lines, and no line contains a line break |
| Text.Terminated | src/Main.java:307-308 | the text is empty exactly when there are no lines, and otherwise ends with a line break |
| Shapes.JavaHalf | src/Shape.java:51 | `a / 2` rounds toward zero: the half is at most half of `a` in magnitude, by less than one, with the sign of `a` |
| Shapes.MakeLine | src/Shape.java:48-53 | a line keeps its endpoints, and each coordinate of its centre is within half a unit of the midpoint, rounded toward zero |
| Shapes.MakeRect | src/Shape.java:97-104 | width and height are non-negative, the x extent is exactly {start.x, end.x} and the y extent {start.y, end.y}, and the centre is (x + width/2, y + height/2) |
| Shapes.MakeRectCornerOrder | src/Shape.java:97-102 | the rectangle is the same for either order of the two corners and for the other diagonal |
| Shapes.FloorSqrt | src/Shape.java:139 | the result r satisfies r*r <= n < (r+1)*(r+1) |
| Shapes.FloorSqrtUnique | src/Shape.java:139 | that bracket determines the radius uniquely |
| Shapes.MakeCircle | src/Shape.java:136-142 | the circle keeps its centre, and its radius is non-negative with r*r <= dx*dx+dy*dy < (r+1)*(r+1) |
| Shapes.MakeGeometry | src/Main.java:245-255 | the DRAW drag builds a line, rectangle or circle exactly as the tool says; a line runs from the press point to the pointer, a circle is centred on the press point; the shape is well-formed and canonical |
| Shapes.Translate | src/Shape.java:82-86 | moving shifts every stored point and the cached centre by (dx, dy) (likewise Shape.java:124-128 and 168-171), keeps the kind, and keeps width, height and radius |
| Shapes.TranslateUndo | src/Shape.java:82-86 | `move(dx, dy)` then `move(-dx, -dy)` restores the geometry exactly |
| Shapes.TranslateCompose | src/Main.java:274-279 | two moves equal one move by the summed offsets |
| Shapes.TranslateWellFormed | src/Shape.java:124-128 | moving keeps a rectangle normalised and centred, and a line's centre within half a unit of its midpoint |
| Shapes.MovedLineCentreDrifts | src/Shape.java:82-89 | after a move, a line's cached centre can differ from what `recalculateCenter` computes |
| Shapes.EncodeTokens | src/Shape.java:63-68 | `toString` splits on spaces into the keyword, then the geometry fields, then r g b (likewise Shape.java:113-118 and 156-161) |
| Shapes.Encode | src/Shape.java:63-68 | `toString` is one line: it contains no line break and starts with the keyword and a space (likewise Shape.java:113-118 and 156-161) |
| Shapes.ParseColorIff | src/Main.java:143-152 | three texts give a colour exactly when each is an `int` in 0..255, and that colour has those components; otherwise some text is not an `int` or is out of range |
| Shapes.ParseColor | src/Main.java:143-152 | a colour it gives has as components the parsed values of the three texts |
| Shapes.ReadIntsSome | src/Shape.java:12-17 | the tokens at the indices `fromString` reads all parse exactly when each exists and is an `int` |
| Shapes.ReadIntsAt | src/Shape.java:12-17 | each value read is the parse of the token at its index |
| Shapes.ChannelsInRangeIff | src/Shape.java:18 | the colour is accepted exactly when the last three numbers read are in 0..255 |
| Shapes.Decode | src/Shape.java:7-38 | every shape `fromString` returns is well-formed and is exactly what its constructor builds |
| Shapes.DecodeSucceedsIff | src/Shape.java:7-38 | `fromString` gives a shape exactly when the keyword is known, the tokens at 1, 2, 3 (and 4 unless CIRCLE) exist and are `int`s, and the last three tokens are `int`s in 0..255; otherwise null |
| Shapes.ParseTokensIff | src/Shape.java:11-33 | the same condition, stated on the token list |
| Shapes.DecodeNumerals | src/Shape.java:19-30 | a keyword followed by printed numbers decodes to what that keyword's constructor builds from them |
| Shapes.DecodeEncode | src/Shape.java:7-38 | parsing what `toString` printed succeeds and prints the same text again; it gives the very same shape exactly when the shape is what a constructor builds from its fields |
| Shapes.DecodeNormalisesRect | src/Shape.java:24-27 | a RECTANGLE line with negative width or height is re-normalised: the corners (x, y) and (x+w, y+h) span it, with width \|w\| and height \|h\| |
| Shapes.Shape.Line | src/Shape.java:48-53 | the new line's geometry is `MakeLine(start, end)`, with the given colour |
| Shapes.Shape.Rect | src/Shape.java:97-105 | the new rectangle's geometry is `MakeRect(start, end)`, with the given colour |
| Shapes.Shape.CircleFromEdge | src/Shape.java:136-142 | the new circle's geometry is `MakeCircle(center, edge)`, with the given colour |
| Shapes.Shape.CircleWithRadius | src/Shape.java:144-148 | the radius is stored unchanged |
| Shapes.Shape.Move | src/Shape.java:82-86 | the shape's geometry becomes its translate by (dx, dy); the colour is constant |
| Shapes.Shape.RecalculateCenter | src/Shape.java:87-89 | the line's centre becomes the rounded midpoint again, with the endpoints unchanged |
| Shapes.Shape.GetCenter | src/Shape.java:71-73 | the centre of a well-formed rectangle is (x + width/2, y + height/2), of a well-formed line within half a unit of the midpoint of its endpoints, of a circle its centre (likewise Shape.java:121-123 and 165-167) |
| Shapes.FromString | src/Shape.java:7-38 | returns null exactly when decoding fails; otherwise a new shape whose value is the decoded one |
| Canvas.FirstHit | src/Main.java:287-295 | the index of the first centre within 40 of the point (squared distance at most 1600), or the list length if none is within reach |
| Canvas.FirstHitUnique | src/Main.java:287-295 | an index within reach, with nothing within reach before it, is the first hit |
| Canvas.DrawPanel.SelectShape | src/Main.java:287-295 | the shape in hand becomes the first shape within reach of the last click point; with none in reach it stays as it was; the list is unchanged and the canvas stays consistent |
| Canvas.DrawPanel.Target | src/Main.java:287-295 | any result other than the shape in hand is a shape of the list within reach of the point |
| Canvas.DrawPanel.TargetIsFirstHit | src/Main.java:287-295 | with no shape in reach the hand is kept; otherwise the result is within reach and no later in the list than any shape in reach |
| Canvas.IndexOf | src/Main.java:179 | the first position holding the element, or the length if there is none |
| Canvas.RemoveFirst | src/Main.java:179 | `remove(Object)` shortens the list by one when the element is present and leaves it unchanged otherwise |
| Canvas.RemoveFirstCount | src/Main.java:179 | removal takes away exactly one copy of the element (multiset) |
| Canvas.RemoveFirstOrder | src/Main.java:179 | the elements before the removed one stay in place, and those after it move down by one, in order |
| Canvas.RemoveHit | src/Main.java:175-182 | the first occurrence of the hit shape is the entry at the hit index, so a right press removes exactly that entry |
| Canvas.DrawPanel.RemoveSelected | src/Main.java:178-181 | the shape in hand leaves the list by its first occurrence, and the hand empties |
| Canvas.DrawPanel.DeleteTarget | src/Main.java:175-182 | a right press removes the shape it takes, if any, and empties the hand |
| Canvas.DrawPanel.MousePressed | src/Main.java:171-192 | records the point; a right press removes the shape hit and empties the hand; a left press in EDIT takes the shape hit (or keeps the hand); other presses change nothing else |
| Canvas.DrawPanel.MouseDragged | src/Main.java:217-284 | a left drag in DRAW puts in hand a fresh shape of the tool and colour from the press point to the pointer; a left drag in EDIT moves the shape in hand by the pointer's offset and makes the pointer the last point; any other drag leaves the shape in hand unmoved; the list and the other shapes never change |
| Canvas.DragAlong | src/Main.java:263-284 | a sequence of EDIT drags moves the shape by the total displacement from the press point |
| Canvas.DrawPanel.MouseReleased | src/Main.java:197-212 | a left release in DRAW appends the shape in hand and empties the hand; in EDIT it only empties the hand; other buttons change nothing |
| Canvas.ClickInDrawMode | src/Main.java:184-203 | a DRAW click with no drag leaves the list unchanged |
| Canvas.DrawPanel.Clear | src/Main.java:332-335 | the list becomes empty |
| Canvas.DrawPanel.constructor | src/Main.java:161-163 | a new canvas has no shapes and nothing in hand |
| Canvas.Encodings | src/Main.java:307-308 | one `toString` per shape, in list order |
| Canvas.SaveText | src/Main.java:305-313 | reading the saved text back line by line gives one `toString` per shape, in list order |
| Canvas.DrawPanel.SaveShapes | src/Main.java:305-313 | the text written is each shape's `toString` followed by a line end, in list order |
| Canvas.KeptEverything | src/Main.java:320-324 | a line is dropped on load only when `fromString` rejects it |
| Canvas.KeptTotal | src/Main.java:320-324 | when every line parses, the loaded list has each line's shape, in line order |
| Canvas.DecodeAllKeepsDecodable | src/Main.java:320-324 | loading keeps every line exactly when every line parses |
| Canvas.DecodeAll | src/Main.java:320-324 | loading gives at most one shape per line, each well-formed and canonical |
| Canvas.DecodeEncodings | src/Main.java:305-325 | decoding the saved lines of printable well-formed shapes keeps them all with the same encodings; it gives back the same shapes when they are canonical |
| Canvas.LoadSaveRoundTrip | src/Main.java:305-330 | loading a saved file gives as many shapes, in order, which save to the same text |
| Canvas.DrawPanel.Append | src/Main.java:323 | the shape is appended at the end of the list |
| Canvas.DrawPanel.LoadLine | src/Main.java:321-324 | the shape `fromString` makes of the line, if any, is appended as a new object after the existing list, which is kept; a list of distinct objects stays distinct |
| Canvas.DrawPanel.LoadNext | src/Main.java:320-324 | one more pass of the read loop: the list holds the shapes of the lines read so far, distinct objects |
| Canvas.DrawPanel.LoadLines | src/Main.java:319-325 | the list becomes the parsed shapes of the lines, in line order, each a new object and no object twice |
| Canvas.DrawPanel.LoadShapes | src/Main.java:315-330 | the list is emptied, then holds the non-null `fromString` results of the file's lines in order, as distinct new objects; if the file cannot be opened it stays empty |
| Canvas.ReleaseAsWritten | src/Main.java:199-203 | as written, a DRAW left release appends the hand, null included |
| Canvas.ClickAppendsNull | src/Main.java:199-203 | a DRAW click with no drag puts null into the list as written |
| Editor.VectorGraphicsEditor.constructor | src/Main.java:41-55 | a new editor has an empty canvas, the LINE tool, DRAW mode and black |
| Editor.VectorGraphicsEditor.SelectTool | src/Main.java:69-71 | the tool becomes the one chosen |
| Editor.VectorGraphicsEditor.SelectOperation | src/Main.java:116-117 | the mode becomes the one chosen |
| Editor.VectorGraphicsEditor.SetColor | src/Main.java:141-158 | the colour becomes the parsed one when all three fields are `int`s in 0..255, and stays unchanged otherwise |
| Editor.VectorGraphicsEditor.Press | src/Main.java:171-192 | a canvas press in the current mode, with the effects of `MousePressed` |
| Editor.VectorGraphicsEditor.Drag | src/Main.java:217-284 | a DRAW drag builds a new shape with the current tool and colour; an EDIT left drag moves the shape in hand by the pointer's offset and makes the pointer the last point; a drag with another button, or in EDIT with nothing in hand, changes neither the hand nor the last point; the list and the other shapes are unchanged |
| Editor.VectorGraphicsEditor.Release | src/Main.java:197-212 | a canvas release in the current mode, with the effects of `MouseReleased`: a left release in DRAW appends the shape in hand (if any) and empties the hand, in EDIT only empties the hand; other buttons change nothing |

## Left out

- Rendering is not modelled: Swing and AWT, `paintComponent`, every `draw(Graphics)`, the XOR drawing in `dynamicDrawing` and `dynamicMoving`, `repaint`, and the message dialogs. These are calls into libraries outside the model.
- File access is replaced by parameters. `saveShapes` returns the text. `loadShapes` receives the file's text, or `None` when the file cannot be opened. An `IOException` part-way through reading or writing is not modelled.
- `println` writes the platform line separator; the model writes `\n`, and lines are read on `\n` only (no `\r`).
- Java's 32-bit overflow is not modelled: integers are unbounded. That leaves out the wrap-around in `dx*dx + dy*dy`, `x + width`, the midpoint sum and `Point.translate` (used by `move` of lines and circles), and the clamping at the `int` bounds in `Rectangle.translate` (used by `move` of rectangles). The round trip assumes every printed number is an `int` (`Printable`). The `int` range of `Integer.parseInt` itself is modelled.
- Floating point is replaced by integers. `Point.distance(p) <= 40` becomes a squared distance of at most 1600. `(int) Math.sqrt` becomes the integer square root. Both agree for `int` inputs.
- `Integer.parseInt` accepts only ASCII digits here; Java also accepts other Unicode decimal digits.
- Point objects are values here. In the program a line's start and a circle's centre are the very `Point` of the press that made them, shared with `lastClickPoint` until the next press. No handler mutates `lastClickPoint` in place, so the sharing is not observable.
- `lastClickPoint` is `null` until the first press in the program; here it starts at (0, 0). Every drag follows a press.
- `getStart` and `getEnd` are not modelled; no handler calls them.
- Events with several buttons held at once are not modelled. Each event carries one button.
- The older `Shape`, `Line`, `Rect` and `Circle` classes at src/Main.java:339-483 are not part of this model. The classes of src/Shape.java supersede them.
- Canvas.DrawPanel.MousePressed: states the right-press removal through the taken shape (`RemoveFirst` of it). That this is exactly the entry at the hit index, with the rest in order, is proved separately by `Canvas.RemoveHit` and `Canvas.RemoveFirstOrder`, not in the method's own contract.
- Canvas.DrawPanel.MouseReleased: models the corrected commit (see Findings). The as-written behaviour is `Canvas.ReleaseAsWritten`.
- Editor.VectorGraphicsEditor.Release: passes on the corrected commit of `Canvas.DrawPanel.MouseReleased`, so an empty hand is not appended (see Findings).

## Findings

| source | as written | input that shows it | evidently intended | confidence | as-written member | corrected member |
|---|---|---|---|---|---|---|
| src/Main.java:199-203 | a left release in DRAW mode calls `shapes.add(currentShape)` even when no drag has built a shape, so `null` enters the list; the next `selectShape` or repaint calls a method on it and fails | in DRAW mode, press and release the left button without moving (a plain click) | append only when a shape is in hand | not executed | Canvas.ClickAppendsNull | Canvas.DrawPanel.MouseReleased |
