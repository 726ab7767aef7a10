/** Placing a cell on the grid of border levels (table_extraction.py, lines
    227-257): a coordinate's rank is the index of the first level within the
    threshold of it; a cell's row and column are the ranks of its upper-left
    corner, its spans the difference between the ranks of its two edges. */
module Grid {
  import opened Outcome
  import opened Builtins
  import opened Geometry
  import opened Borders

  /** _assert_positive: only a negative number is refused; zero passes. */
  function AssertPositive(n: int): (r: Result<int>)
    ensures r.Ok? <==> n >= 0
    ensures r.Ok? ==> r.value == n
    ensures r.Err? ==> r.error == NegativeSpan(n)
  {
    if n < 0 then Err(NegativeSpan(n)) else Ok(n)
  }

  /** _find_fuzzy_rank: the least index whose border is close to the
      candidate; it fails when no border is. */
  function FindFuzzyRank(candidate: int, borders: seq<int>): (r: Result<nat>)
    ensures r.Ok? <==> exists k :: 0 <= k < |borders| && AreClose(borders[k], candidate)
    ensures r.Ok? ==> r.value < |borders| && AreClose(borders[r.value], candidate)
    ensures r.Ok? ==> forall k :: 0 <= k < r.value ==> !AreClose(borders[k], candidate)
    ensures r.Err? ==> r.error == NoCloseBorder(candidate, borders)
  {
    FindFuzzyRankFrom(candidate, borders, 0)
  }

  /** The scan of _find_fuzzy_rank from index start on. */
  function FindFuzzyRankFrom(candidate: int, borders: seq<int>, start: nat): (r: Result<nat>)
    requires start <= |borders|
    ensures r.Ok? <==> exists k :: start <= k < |borders| && AreClose(borders[k], candidate)
    ensures r.Ok? ==> start <= r.value < |borders| && AreClose(borders[r.value], candidate)
    ensures r.Ok? ==> forall k :: start <= k < r.value ==> !AreClose(borders[k], candidate)
    ensures r.Err? ==> r.error == NoCloseBorder(candidate, borders)
    decreases |borders| - start
  {
    if start == |borders| then Err(NoCloseBorder(candidate, borders))
    else if AreClose(borders[start], candidate) then Ok(start)
    else FindFuzzyRankFrom(candidate, borders, start + 1)
  }

  /** _extract_row_rank: the rank of the upper edge y_0. */
  function ExtractRowRank(c: Contour, horizontalBorders: seq<int>): Result<nat> {
    FindFuzzyRank(c.y0, horizontalBorders)
  }

  /** _extract_col_rank: the rank of the left edge x_0. */
  function ExtractColRank(c: Contour, verticalBorders: seq<int>): Result<nat> {
    FindFuzzyRank(c.x0, verticalBorders)
  }

  /** The body shared by _extract_colspan and _extract_rowspan: the rank of
      the far edge minus the rank of the near edge, refused when negative. */
  function RankSpan(near: int, far: int, borders: seq<int>): Result<int> {
    var nearRank :- FindFuzzyRank(near, borders);
    var farRank :- FindFuzzyRank(far, borders);
    AssertPositive(farRank - nearRank)
  }

  /** _extract_colspan: rank of x_1 minus rank of x_0, refused when negative. */
  function ExtractColspan(c: Contour, verticalBorders: seq<int>): Result<int> {
    RankSpan(c.x0, c.x1, verticalBorders)
  }

  /** _extract_rowspan: rank of y_1 minus rank of y_0, refused when negative. */
  function ExtractRowspan(c: Contour, horizontalBorders: seq<int>): Result<int> {
    RankSpan(c.y0, c.y1, horizontalBorders)
  }

  /** On ascending borders, a coordinate is never ranked after a larger one. */
  lemma RankMonotone(lo: int, hi: int, borders: seq<int>)
    requires Ascending(borders, Identity) && lo <= hi
    requires FindFuzzyRank(lo, borders).Ok? && FindFuzzyRank(hi, borders).Ok?
    ensures FindFuzzyRank(lo, borders).value <= FindFuzzyRank(hi, borders).value
  {
  }

  /** So when both edges of an ordered contour find a border, neither span is
      refused: each is the number of levels from one edge to the other. */
  lemma SpansOfOrderedContour(c: Contour, horizontalBorders: seq<int>, verticalBorders: seq<int>)
    requires Ascending(horizontalBorders, Identity) && Ascending(verticalBorders, Identity)
    requires c.x0 <= c.x1 && c.y0 <= c.y1
    requires FindFuzzyRank(c.y0, horizontalBorders).Ok? && FindFuzzyRank(c.y1, horizontalBorders).Ok?
    requires FindFuzzyRank(c.x0, verticalBorders).Ok? && FindFuzzyRank(c.x1, verticalBorders).Ok?
    ensures ExtractRowspan(c, horizontalBorders)
      == Ok(FindFuzzyRank(c.y1, horizontalBorders).value - ExtractRowRank(c, horizontalBorders).value)
    ensures ExtractColspan(c, verticalBorders)
      == Ok(FindFuzzyRank(c.x1, verticalBorders).value - ExtractColRank(c, verticalBorders).value)
  {
    OrderedSpan(c.y0, c.y1, horizontalBorders);
    OrderedSpan(c.x0, c.x1, verticalBorders);
  }

  /** The rank difference of two ordered coordinates is never refused. */
  lemma OrderedSpan(lo: int, hi: int, borders: seq<int>)
    requires Ascending(borders, Identity) && lo <= hi
    requires FindFuzzyRank(lo, borders).Ok? && FindFuzzyRank(hi, borders).Ok?
    ensures RankSpan(lo, hi, borders) == Ok(FindFuzzyRank(hi, borders).value - FindFuzzyRank(lo, borders).value)
  {
    RankMonotone(lo, hi, borders);
  }

  /** A contour inverted by one unit, which construction accepts, can still
      get a negative span: here y_1 = 10 finds level 0 and y_0 = 11 only
      level 11. */
  lemma NegativeSpanExample()
    ensures Contour(0, 100, 11, 10).Valid()
    ensures ExtractRowspan(Contour(0, 100, 11, 10), [0, 11]) == Err(NegativeSpan(-1))
  {
    assert AreClose([0, 11][0], 10);
    assert AreClose([0, 11][1], 11);
  }

  /** The ranks the row tests below look up on the levels [0, 100, 200, 300]. */
  lemma RowBorderRanks()
    ensures FindFuzzyRank(0, [0, 100, 200, 300]) == Ok(0)
    ensures FindFuzzyRank(100, [0, 100, 200, 300]) == Ok(1)
    ensures FindFuzzyRank(301, [0, 100, 200, 300]) == Ok(3)
  {
    assert AreClose([0, 100, 200, 300][0], 0);
    assert AreClose([0, 100, 200, 300][1], 100);
    assert AreClose([0, 100, 200, 300][3], 301);
  }

  /** The ranks the column tests below look up on the levels [0, 100, 201, 303, 400]. */
  lemma ColumnBorderRanks()
    ensures FindFuzzyRank(100, [0, 100, 201, 303, 400]) == Ok(1)
    ensures FindFuzzyRank(200, [0, 100, 201, 303, 400]) == Ok(2)
    ensures FindFuzzyRank(300, [0, 100, 201, 303, 400]) == Ok(3)
  {
    assert AreClose([0, 100, 201, 303, 400][1], 100);
    assert AreClose([0, 100, 201, 303, 400][2], 200);
    assert AreClose([0, 100, 201, 303, 400][3], 300);
  }

  /** test_find_fuzzy_rank, tests/test_table_extraction.py lines 148-155,
      together with the unreached second call of its pytest.raises block. */
  lemma FuzzyRankExamples()
    ensures FindFuzzyRank(100, [0, 100, 200, 400]) == Ok(1)
    ensures FindFuzzyRank(100, [0, 101, 200, 400]) == Ok(1)
    ensures FindFuzzyRank(100, [0, 99, 200, 400]) == Ok(1)
    ensures FindFuzzyRank(100, [101]) == Ok(0)
    ensures FindFuzzyRank(100, []) == Err(NoCloseBorder(100, []))
    ensures FindFuzzyRank(100, [1000]) == Err(NoCloseBorder(100, [1000]))
  {
    assert AreClose([0, 100, 200, 400][1], 100);
    assert AreClose([0, 101, 200, 400][1], 100);
    assert AreClose([0, 99, 200, 400][1], 100);
    assert AreClose([101][0], 100);
  }

  /** test_extract_row_rank, lines 158-161. */
  lemma RowRankExamples()
    ensures ExtractRowRank(Contour(100, 300, 0, 100), [0, 100, 200, 300]) == Ok(0)
    ensures ExtractRowRank(Contour(100, 200, 0, 100), [0, 100, 200, 300]) == Ok(0)
    ensures ExtractRowRank(Contour(100, 200, 100, 301), [0, 100, 200, 300]) == Ok(1)
  {
    RowBorderRanks();
  }

  /** test_extract_col_rank, lines 164-167. */
  lemma ColRankExamples()
    ensures ExtractColRank(Contour(100, 300, 0, 100), [0, 100, 201, 303, 400]) == Ok(1)
    ensures ExtractColRank(Contour(100, 200, 0, 100), [0, 100, 201, 303, 400]) == Ok(1)
    ensures ExtractColRank(Contour(100, 200, 100, 301), [0, 100, 201, 303, 400]) == Ok(1)
  {
    ColumnBorderRanks();
  }

  /** test_extract_colspan, lines 170-173. */
  lemma ColspanExamples()
    ensures ExtractColspan(Contour(100, 300, 0, 100), [0, 100, 201, 303, 400]) == Ok(2)
    ensures ExtractColspan(Contour(100, 200, 0, 100), [0, 100, 201, 303, 400]) == Ok(1)
    ensures ExtractColspan(Contour(100, 200, 100, 301), [0, 100, 201, 303, 400]) == Ok(1)
  {
    ColumnBorderRanks();
  }

  /** test_extract_rowspan, lines 176-179. */
  lemma RowspanExamples()
    ensures ExtractRowspan(Contour(100, 300, 0, 100), [0, 100, 200, 300]) == Ok(1)
    ensures ExtractRowspan(Contour(100, 200, 0, 100), [0, 100, 200, 300]) == Ok(1)
    ensures ExtractRowspan(Contour(100, 200, 100, 301), [0, 100, 200, 300]) == Ok(2)
  {
    RowBorderRanks();
  }
}
