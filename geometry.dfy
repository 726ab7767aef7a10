/** Integer rectangles and the neighbour test between detected cells
    (table_extraction.py, lines 18-29, 51-55, 72-75, 93-94 and 112-154).

    A contour is the bounding box of one cell of a ruled table, in pixels.
    Two cells are neighbours when an edge of one faces an edge of the other:
    the two edges lie less than the proximity threshold apart, and their
    extents overlap or leave a gap of at most one pixel. */
module Geometry {
  import opened Outcome
  import opened Builtins

  /** _PROXIMITY_THRESHOLD: the tolerance, in pixels, of every fuzzy comparison. */
  const ProximityThreshold: int := 10

  /** The x range [x0, x1] and the y range [y0, y1] of a rectangle. */
  datatype Contour = Contour(x0: int, x1: int, y0: int, y1: int) {
    /** What construction checks: neither range is inverted by more than one unit. */
    predicate Valid() {
      x0 <= x1 + 1 && y0 <= y1 + 1
    }
  }

  /** The text read inside a contour. */
  datatype DetectedCell = DetectedCell(text: string, contour: Contour)

  /** An edge of a rectangle: it runs from `from` to `to` along one axis at
      coordinate `level` on the other (the tuple (x_0, x_1, y) of the source). */
  datatype Line = Line(from: int, to: int, level: int)

  /** Contour(x_0, x_1, y_0, y_1): the construction fails when a range is
      inverted by more than one unit. */
  function MakeContour(x0: int, x1: int, y0: int, y1: int): (r: Result<Contour>)
    ensures r.Ok? <==> x0 <= x1 + 1 && y0 <= y1 + 1
    ensures r.Ok? ==> r.value.x0 == x0 && r.value.x1 == x1 && r.value.y0 == y0 && r.value.y1 == y1
    ensures r.Ok? ==> r.value.Valid()
    ensures r.Err? ==> r.error == InvalidContour(x0, x1, y0, y1)
  {
    if x0 > x1 + 1 then Err(InvalidContour(x0, x1, y0, y1))
    else if y0 > y1 + 1 then Err(InvalidContour(x0, x1, y0, y1))
    else Ok(Contour(x0, x1, y0, y1))
  }

  /** _is_empty: the rectangle is at most four thresholds wide or high. */
  predicate IsEmpty(c: Contour) {
    Abs(c.x0 - c.x1) <= 4 * ProximityThreshold || Abs(c.y0 - c.y1) <= 4 * ProximityThreshold
  }

  /** _area */
  function Area(c: Contour): int {
    (c.x1 - c.x0) * (c.y1 - c.y0)
  }

  /** A valid contour that _is_empty does not discard is more than 40 pixels
      wide and high, so its area is at least 41 * 41. */
  lemma KeptContourArea(c: Contour)
    requires c.Valid() && !IsEmpty(c)
    ensures c.x1 - c.x0 > 4 * ProximityThreshold && c.y1 - c.y0 > 4 * ProximityThreshold
    ensures Area(c) >= 1681
  {
    var w, h := c.x1 - c.x0, c.y1 - c.y0;
    assert w >= 41 && h >= 41;
    assert w * h >= 41 * h by {
      assert (w - 41) * h >= 0;
    }
  }

  /** _left_line, _right_line, _upper_line, _lower_line: the vertical edges
      run along y and sit at an x coordinate, the horizontal ones the reverse. */
  function LeftLine(c: Contour): Line {
    Line(c.y0, c.y1, c.x0)
  }

  function RightLine(c: Contour): Line {
    Line(c.y0, c.y1, c.x1)
  }

  function UpperLine(c: Contour): Line {
    Line(c.x0, c.x1, c.y1)
  }

  function LowerLine(c: Contour): Line {
    Line(c.x0, c.x1, c.y0)
  }

  /** Two coordinates closer than the threshold. */
  predicate Near(a: int, b: int) {
    Abs(a - b) < ProximityThreshold
  }

  /** The ranges [from, to] and [from', to'] overlap or are one unit apart. */
  predicate Touch(from: int, to: int, from': int, to': int) {
    from - 1 <= to' && from' - 1 <= to
  }

  /** _lines_are_neighbor: the levels are closer than the threshold and an end
      of one range lies in the other range widened by one.  For ordered ranges
      this is exactly: the ranges touch. */
  function LinesAreNeighbor(l: Line, l': Line): (r: bool)
    ensures r ==> Near(l.level, l'.level)
    ensures l.from <= l.to && l'.from <= l'.to ==>
      (r <==> Near(l.level, l'.level) && Touch(l.from, l.to, l'.from, l'.to))
  {
    if Abs(l.level - l'.level) >= ProximityThreshold then false
    else
      || l.from - 1 <= l'.from <= l.to + 1
      || l.from - 1 <= l'.to <= l.to + 1
      || l'.from - 1 <= l.from <= l'.to + 1
      || l'.from - 1 <= l.to <= l'.to + 1
  }

  /** _are_neighbor: the left edge of one cell faces the right edge of the
      other, or the upper edge of one faces the lower edge of the other.  For
      contours whose ranges are ordered: a vertical edge of each lies within
      the threshold and their y ranges touch, or a horizontal edge of each
      lies within the threshold and their x ranges touch. */
  function AreNeighbor(cell: DetectedCell, cell': DetectedCell): (r: bool)
    ensures var c, c' := cell.contour, cell'.contour;
      c.x0 <= c.x1 && c.y0 <= c.y1 && c'.x0 <= c'.x1 && c'.y0 <= c'.y1 ==>
        (r <==> || ((Near(c.x0, c'.x1) || Near(c'.x0, c.x1)) && Touch(c.y0, c.y1, c'.y0, c'.y1))
                || ((Near(c.y1, c'.y0) || Near(c'.y1, c.y0)) && Touch(c.x0, c.x1, c'.x0, c'.x1)))
  {
    var c, c' := cell.contour, cell'.contour;
    || LinesAreNeighbor(LeftLine(c), RightLine(c'))
    || LinesAreNeighbor(LeftLine(c'), RightLine(c))
    || LinesAreNeighbor(UpperLine(c), LowerLine(c'))
    || LinesAreNeighbor(UpperLine(c'), LowerLine(c))
  }

  /** The cells that reach the neighbour test have passed _is_empty (line 69
      keeps only valid contours it does not discard), so their ranges are
      ordered and the characterisation of AreNeighbor applies to them. */
  lemma KeptCellsNeighbor(cell: DetectedCell, cell': DetectedCell)
    requires cell.contour.Valid() && !IsEmpty(cell.contour)
    requires cell'.contour.Valid() && !IsEmpty(cell'.contour)
    ensures var c, c' := cell.contour, cell'.contour;
      AreNeighbor(cell, cell') <==>
        || ((Near(c.x0, c'.x1) || Near(c'.x0, c.x1)) && Touch(c.y0, c.y1, c'.y0, c'.y1))
        || ((Near(c.y1, c'.y0) || Near(c'.y1, c.y0)) && Touch(c.x0, c.x1, c'.x0, c'.x1))
  {
    KeptContourArea(cell.contour);
    KeptContourArea(cell'.contour);
  }

  /** Outside ordered ranges the edge test is not "the ranges touch": a range
      inverted by one unit, which construction accepts, neighbours a range it
      does not touch, because its end 4 lies in [0 - 1, 3 + 1]. */
  lemma InvertedRangeNeighbor()
    ensures Contour(0, 100, 5, 4).Valid()
    ensures LinesAreNeighbor(Line(5, 4, 0), Line(0, 3, 0))
    ensures !Touch(5, 4, 0, 3)
  {
  }

  lemma LinesAreNeighborSymmetric(l: Line, l': Line)
    ensures LinesAreNeighbor(l, l') == LinesAreNeighbor(l', l)
  {
  }

  /** The neighbour relation does not depend on the order of the cells. */
  lemma AreNeighborSymmetric(cell: DetectedCell, cell': DetectedCell)
    ensures AreNeighbor(cell, cell') == AreNeighbor(cell', cell)
  {
  }

  /** The ten cases of tests/test_table_extraction.py, lines 32-42. */
  lemma LinesAreNeighborExamples()
    ensures LinesAreNeighbor(Line(0, 100, 1), Line(0, 100, 1))
    ensures LinesAreNeighbor(Line(0, 100, 1), Line(0, 100, 0))
    ensures LinesAreNeighbor(Line(0, 100, 1), Line(0, 100, -1))
    ensures LinesAreNeighbor(Line(0, 100, 1), Line(0, 101, -1))
    ensures LinesAreNeighbor(Line(1, 100, 1), Line(0, 101, -1))
    ensures LinesAreNeighbor(Line(-1, 100, 1), Line(0, 101, -1))
    ensures LinesAreNeighbor(Line(0, 100, 5), Line(40, 60, 2))
    ensures !LinesAreNeighbor(Line(-1, 100, 10), Line(0, 101, -1))
    ensures !LinesAreNeighbor(Line(0, 100, 10), Line(0, 100, -1))
    ensures !LinesAreNeighbor(Line(0, 100, 100), Line(103, 200, 103))
  {
  }

  /** The nine cases of tests/test_table_extraction.py, lines 61-88. */
  lemma AreNeighborExamples()
    ensures AreNeighbor(DetectedCell("", Contour(0, 100, 0, 100)), DetectedCell("", Contour(100, 200, 0, 100)))
    ensures AreNeighbor(DetectedCell("", Contour(0, 100, 0, 100)), DetectedCell("", Contour(102, 200, 0, 100)))
    ensures AreNeighbor(DetectedCell("", Contour(0, 100, 0, 100)), DetectedCell("", Contour(102, 200, 0, 400)))
    ensures AreNeighbor(DetectedCell("", Contour(0, 100, 0, 400)), DetectedCell("", Contour(102, 200, -2, 100)))
    ensures AreNeighbor(DetectedCell("", Contour(0, 100, 0, 400)), DetectedCell("", Contour(1, 99, 401, 700)))
    ensures !AreNeighbor(DetectedCell("", Contour(0, 100, 0, 100)), DetectedCell("", Contour(200, 300, 0, 100)))
    ensures !AreNeighbor(DetectedCell("", Contour(0, 100, 0, 100)), DetectedCell("", Contour(103, 200, 103, 200)))
    ensures !AreNeighbor(DetectedCell("", Contour(0, 100, 0, 100)), DetectedCell("", Contour(0, 100, 200, 300)))
    ensures AreNeighbor(DetectedCell("", Contour(259, 373, 1586, 1631)), DetectedCell("", Contour(259, 373, 1519, 1581)))
  {
  }
}
