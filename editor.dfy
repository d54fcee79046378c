/** The editor window's own state: the drawing tool and mode the radio buttons choose, and the
    colour the R, G and B fields set. The canvas reads all three when it handles the pointer. */
module Editor {
  import opened Text
  import opened Shapes
  import opened Canvas

  class VectorGraphicsEditor {
    const panel: DrawPanel
    /** The tool a DRAW drag builds (`selectedShape`). */
    var selectedShape: ShapeType
    /** DRAW or EDIT (`selectedOperation`). */
    var selectedOperation: OperationType
    /** The colour new shapes get (`currentColor`). */
    var currentColor: Color

    /** A new editor: an empty canvas, the line tool, DRAW mode and black. */
    constructor()
      ensures fresh(panel) && panel.Valid()
      ensures panel.shapes == [] && panel.currentShape == null
      ensures selectedShape == LINE && selectedOperation == DRAW && currentColor == Black
    {
      panel := new DrawPanel();
      selectedShape := LINE;
      selectedOperation := DRAW;
      currentColor := Black;
    }

    /** The tool radio buttons. */
    method SelectTool(tool: ShapeType)
      modifies this`selectedShape
      ensures selectedShape == tool
    {
      selectedShape := tool;
    }

    /** The mode radio buttons. */
    method SelectOperation(mode: OperationType)
      modifies this`selectedOperation
      ensures selectedOperation == mode
    {
      selectedOperation := mode;
    }

    /** `setColor()`: parse the three fields and build the colour; a field that is not the text
        of an `int`, or a component outside 0..255, leaves the colour as it was (the program
        shows a message instead). */
    method SetColor(red: string, green: string, blue: string)
      modifies this`currentColor
      ensures var c := ParseColor(red, green, blue);
              currentColor == if c.Some? then c.value else old(currentColor)
    {
      var c := ParseColor(red, green, blue);
      if c.Some? {
        currentColor := c.value;
      }
    }

    /** A pointer press on the canvas, handled in the current mode. */
    method Press(p: Point, button: Button)
      requires panel.Valid()
      modifies panel
      ensures panel.Valid() && panel.lastClickPoint == p
      ensures button == RightButton ==>
                var target := old(panel.Target(p));
                && panel.currentShape == null
                && panel.shapes == (if target == null then old(panel.shapes) else RemoveFirst(old(panel.shapes), target))
      ensures button == LeftButton && selectedOperation == EDIT ==>
                panel.shapes == old(panel.shapes) && panel.currentShape == old(panel.Target(p))
      ensures button == MiddleButton || (button == LeftButton && selectedOperation == DRAW) ==>
                panel.shapes == old(panel.shapes) && panel.currentShape == old(panel.currentShape)
    {
      panel.MousePressed(p, button, selectedOperation);
    }

    /** A drag on the canvas: in DRAW mode the shape in hand is rebuilt with the current tool and
        colour; in EDIT mode it is moved; a drag with another button changes nothing. */
    method Drag(p: Point, button: Button)
      requires panel.Valid()
      modifies panel, panel.currentShape
      ensures panel.Valid() && panel.shapes == old(panel.shapes)
      ensures button == LeftButton && selectedOperation == DRAW ==>
                && panel.currentShape != null && fresh(panel.currentShape)
                && panel.currentShape.geometry == MakeGeometry(selectedShape, old(panel.lastClickPoint), p)
                && panel.currentShape.color == currentColor
                && panel.lastClickPoint == old(panel.lastClickPoint)
      ensures button == LeftButton && selectedOperation == EDIT && old(panel.currentShape) != null ==>
                && panel.currentShape == old(panel.currentShape)
                && panel.currentShape.geometry == Translate(old(panel.currentShape.geometry),
                     p.x - old(panel.lastClickPoint).x, p.y - old(panel.lastClickPoint).y)
                && panel.lastClickPoint == p
      ensures button != LeftButton || (selectedOperation == EDIT && old(panel.currentShape) == null) ==>
                panel.currentShape == old(panel.currentShape) && panel.lastClickPoint == old(panel.lastClickPoint)
      ensures forall s :: s in old(panel.shapes) && s != old(panel.currentShape) ==> s.geometry == old(s.geometry)
      ensures old(panel.currentShape) != null && !(button == LeftButton && selectedOperation == EDIT) ==>
                old(panel.currentShape).geometry == old(panel.currentShape.geometry)
    {
      panel.MouseDragged(p, button, selectedOperation, selectedShape, currentColor);
    }

    /** A pointer release on the canvas, handled in the current mode: a left release commits the
        shape in hand in DRAW mode and empties the hand in either mode. */
    method Release(button: Button)
      requires panel.Valid()
      modifies panel
      ensures panel.Valid() && panel.lastClickPoint == old(panel.lastClickPoint)
      ensures button == LeftButton && selectedOperation == DRAW ==>
                && panel.shapes == old(panel.shapes) + (if old(panel.currentShape) == null then [] else [old(panel.currentShape)])
                && panel.currentShape == null
      ensures button == LeftButton && selectedOperation == EDIT ==>
                panel.shapes == old(panel.shapes) && panel.currentShape == null
      ensures button != LeftButton ==>
                panel.shapes == old(panel.shapes) && panel.currentShape == old(panel.currentShape)
    {
      panel.MouseReleased(button, selectedOperation);
    }
  }
}
