# Table reconstruction of pdf_ocr_app, in Dafny

This project models the table-reconstruction engine of pdf_ocr_app and proves
properties of it. The engine turns the cells found on a scanned page into
tables. Each detected cell is a text plus an integer rectangle, its `Contour`.
The engine works in four steps:

1. It clusters the cells into tables with `group_by_proximity`. Two cells are
   linked when an edge of one faces an edge of the other (`_are_neighbor`).
2. For each table, it clusters the x and y edge coordinates of the cells into
   border levels. Each level is the mean of one cluster, truncated toward zero.
3. It gives every cell a row rank, a column rank and two spans. They come from
   the first border level within 10 pixels of each edge.
4. It assembles the `Row`s and the `Table`, plus the table's bounding box, into
   a `LocatedTable`.

The model also covers the record conversions of `Cell`, `Row`, `Table` and
`LocatedTable`. It also covers three small string functions:

- `safely_replace_path_suffix`;
- `generate_id`;
- the two section-name converters of the configuration.

## Modules

- `Outcome` (outcome.dfy): `Result`, `Option` and one `Error` constructor per
  exception the source raises.
- `Builtins` (builtins.dfy): the Python builtins the source uses:
  - `abs`, `sum`;
  - `min`/`max`, which fail on an empty list;
  - `sorted` with a key, modelled as a stable insertion sort;
  - list comprehensions: `Map`, and `MapAll`, which stops at the first error.
- `PyStr` (pystr.dfy): `str.endswith`, `str.replace` (every non-overlapping
  occurrence, left to right, and interleaving for an empty pattern), the first
  and last pieces of `str.split`, and ASCII `upper`/`lower`.
- `PyDict` (pydict.dfy): an insertion-ordered dictionary.
- `Geometry` (geometry.dfy): contours, edges and the neighbour test.
- `ParentForest`, `Connectivity`, `Scan`, `Partition` and `Grouping`:
  `group_by_proximity`, proved against a connected-components specification.
  - The parent map is a forest. A ghost height map shows this, so the walk to
    a root ends.
  - The groups are exactly the connected components of the graph of pairs the
    scan tests and accepts.
  - Each group is in input order. The groups are ordered by their first
    element.
- `Borders` (borders.dfy): `_mean`, `_group_ints` and the border detectors.
- `Grid` (grid.dfy): fuzzy ranks and spans.
- `Models` (models.dfy): `Cell`, `Row`, `Table` and their records.
- `TableBuilder` (table_builder.dfy): `LocatedTable`, `_radius` and
  `_build_table`.
  - The loop over the cells fills an array of row slots in place, as the
    source fills its list of lists.
- `Extraction` (extraction.dfy): the cell-level part of
  `extract_and_remove_tables`.
- `PathUtils`, `AppUtils`, `ConfigNames`: the three string functions.
- `GroupingExamples` (grouping_examples.dfy): the test cases of the grouping
  helpers, `group_by_proximity`, `_mean` and `_group_ints`, evaluated on the
  specification functions that the methods are proved to compute.

Python's exceptions become `Err` values. A Python dictionary passed to a
dataclass becomes a `Value.Record`.

## Model

| member | source | states |
|---|---|---|
| Geometry.MakeContour | pdf_ocr_app/compute/table_extraction.py:18-29 | Construction fails exactly when x_0 > x_1 + 1 or y_0 > y_1 + 1, with that error; otherwise the fields are the arguments and the contour is valid |
| Geometry.KeptContourArea | pdf_ocr_app/compute/table_extraction.py:51-55 | A valid contour that `_is_empty` keeps is more than 40 pixels wide and high, so `_area` is at least 41 * 41 |
| Geometry.IsEmpty | pdf_ocr_app/compute/table_extraction.py:51-55 | Definition, no contract: the rectangle is at most 40 pixels (four times the threshold) wide or high; Geometry.KeptContourArea states what passing it implies |
| Geometry.Area | pdf_ocr_app/compute/table_extraction.py:93-94 | Definition, no contract: width times height; Geometry.KeptContourArea bounds it for the contours `_is_empty` keeps |
| Geometry.LeftLine | pdf_ocr_app/compute/table_extraction.py:130-131 | Definition, no contract: the left edge, from y_0 to y_1 at x_0 |
| Geometry.RightLine | pdf_ocr_app/compute/table_extraction.py:134-135 | Definition, no contract: the right edge, from y_0 to y_1 at x_1 |
| Geometry.UpperLine | pdf_ocr_app/compute/table_extraction.py:138-139 | Definition, no contract: the edge from x_0 to x_1 at y_1 |
| Geometry.LowerLine | pdf_ocr_app/compute/table_extraction.py:142-143 | Definition, no contract: the edge from x_0 to x_1 at y_0 |
| Geometry.LinesAreNeighbor | pdf_ocr_app/compute/table_extraction.py:115-127 | Never true when the levels are 10 or more apart; for ordered ranges, true exactly when the levels are closer than 10 and the ranges overlap or are one unit apart |
| Geometry.AreNeighbor | pdf_ocr_app/compute/table_extraction.py:130-154 | For ordered contours: true exactly when a left edge lies within 10 of the other cell's right edge and the y ranges touch, or an upper edge lies within 10 of the other's lower edge and the x ranges touch |
| Geometry.KeptCellsNeighbor | pdf_ocr_app/compute/table_extraction.py:146-154 | For two cells whose contours are valid and not discarded by `_is_empty` (only those reach the neighbour test, line 69), the test is true exactly when a left edge lies within 10 of the other right edge and the y ranges touch, or an upper edge within 10 of the other lower edge and the x ranges touch |
| Geometry.InvertedRangeNeighbor | pdf_ocr_app/compute/table_extraction.py:115-127 | A range inverted by one unit, which construction accepts, is a neighbour of a range it does not touch: (5, 4) at level 0 and (0, 3) at level 0 |
| Geometry.AreNeighborSymmetric | pdf_ocr_app/compute/table_extraction.py:146-154 | The neighbour test gives the same answer for both orders of the two cells |
| Geometry.LinesAreNeighborExamples | tests/test_table_extraction.py:32-42 | All ten assertions of test_lines_are_neighbor: the seven neighbour pairs and the three non-neighbour pairs |
| Geometry.AreNeighborExamples | tests/test_table_extraction.py:61-88 | All nine cases of test_are_neighbor: the six neighbour pairs and the three non-neighbour pairs |
| Grouping.GetHighestAscendant | pdf_ocr_app/compute/table_extraction.py:160-166 | On a forest, the walk ends and returns the root of the element, a key that is its own parent |
| Grouping.RevertDict | pdf_ocr_app/compute/table_extraction.py:169-175 | One group per distinct value, in order of first appearance; the group of a value holds the keys mapped to it, in dict order |
| Grouping.RootOfEach | pdf_ocr_app/compute/table_extraction.py:178-179 | Every key of the parent map, in dict order, mapped to its root |
| Grouping.BuildGroups | pdf_ocr_app/compute/table_extraction.py:178-180 | The keys grouped by root, in dict order of first appearance of each root |
| Grouping.LinkToEarlier | pdf_ocr_app/compute/table_extraction.py:188-194 | The inner loop keeps the parent map a forest whose roots are exactly the components of the pairs tested so far |
| Grouping.GroupByProximity | pdf_ocr_app/compute/table_extraction.py:183-199 | The result is exactly the connected components of the accepted pairs, projected onto the elements |
| Grouping.ProximityIndexGroupsShape | pdf_ocr_app/compute/table_extraction.py:183-199 | No groups exactly for no elements; no group is empty; each group ascends; groups are ordered by first index; together they hold every index once |
| Grouping.ProximityIndexGroupsApart | pdf_ocr_app/compute/table_extraction.py:187-197 | Two indices in different groups are distinct, and the pair between them was never accepted |
| Grouping.ProximityGroupsPermute | pdf_ocr_app/compute/table_extraction.py:183-199 | `[]` gives `[]`; no group is empty; the concatenated groups are a permutation of the elements |
| Grouping.ProximityGroupsApart | pdf_ocr_app/compute/table_extraction.py:187-197 | For a symmetric test, an element is no neighbour of any element of another group |
| Connectivity.NotConnectedAcross | pdf_ocr_app/compute/table_extraction.py:183-199 | When no accepted pair joins a set of indices to the rest, no index of the set is connected to an index outside it |
| GroupingExamples.HighestAscendantExample1 | tests/test_table_extraction.py:92 | The walk from key 1 on `{0: 0, 1: 2, 2: 3, 3: 0}` ends at 0, with heights that make the map a forest |
| GroupingExamples.HighestAscendantExample2 | tests/test_table_extraction.py:93 | The walk from key 1 on `{0: 0, 1: 2, 2: 3, 3: 3}` ends at 3 |
| GroupingExamples.HighestAscendantExample3 | tests/test_table_extraction.py:94 | The walk from key 1 on `{0: 0, 1: 1, 2: 3, 3: 3}` ends at 1 |
| GroupingExamples.HighestAscendantExample4 | tests/test_table_extraction.py:95 | The walk from key 1 on `{0: 0, 1: 0, 2: 3, 3: 3}` ends at 0 |
| GroupingExamples.RevertDictExample1 | tests/test_table_extraction.py:99 | Reverting `{1: 1, 2: 1, 3: 3}` gives keys 1, 3 holding `[1, 2]` and `[3]` |
| GroupingExamples.RevertDictExample2 | tests/test_table_extraction.py:100 | Reverting `{}` gives `{}` |
| GroupingExamples.RevertDictExample3 | tests/test_table_extraction.py:101 | Reverting `{1: 1, 2: 2}` gives keys 1, 2 holding `[1]` and `[2]` |
| GroupingExamples.RevertDictExample4 | tests/test_table_extraction.py:102 | Reverting `{1: 1, 2: 1, 3: 1}` gives key 1 holding `[1, 2, 3]` |
| GroupingExamples.BuildGroupsExample1 | tests/test_table_extraction.py:106 | `{0: 1, 1: 1, 2: 1}` is a forest and its groups are `[[0, 1, 2]]` |
| GroupingExamples.BuildGroupsExample2 | tests/test_table_extraction.py:107 | `{0: 1, 1: 1, 2: 2}` gives `[[0, 1], [2]]` |
| GroupingExamples.BuildGroupsExample3 | tests/test_table_extraction.py:108 | `{0: 1, 1: 1, 2: 0}` gives `[[0, 1, 2]]`, key 2 reaching root 1 through 0 |
| GroupingExamples.BuildGroupsExample4 | tests/test_table_extraction.py:109 | `{0: 0, 1: 1, 2: 2, 3: 3}` gives `[[0], [1], [2], [3]]` |
| GroupingExamples.GroupByProximitySample | tests/test_table_extraction.py:117-118 | The components of `[0, 1, 2, 3, 4, 5, 6, 100, 200, 1000, 1001, 1002]` under `_are_close` are `[[0, ..., 6], [100], [200], [1000, 1001, 1002]]`, connectivity shown by explicit edges and separation by the gaps above 50, 150 and 500 |
| GroupingExamples.RepeatedClusters | tests/test_table_extraction.py:126-127 | `[0, 0, 0, 0]` is one cluster |
| GroupingExamples.ChainClusters | tests/test_table_extraction.py:129-130 | Coordinates each close to the one before form one cluster, in input order |
| GroupingExamples.RangeClusters | tests/test_table_extraction.py:130 | `list(range(n))` is one cluster, for every positive n |
| GroupingExamples.SpreadClusters | tests/test_table_extraction.py:132-133 | Coordinates pairwise more than 10 apart, ascending, are each a cluster of their own |
| GroupingExamples.HundredsClusters | tests/test_table_extraction.py:132-133 | `[x * 100 for x in range(n)]` gives `[[x * 100] for x in range(n)]`, for every n |
| Borders.Mean | pdf_ocr_app/compute/table_extraction.py:206-209 | Fails exactly on the empty list; otherwise the average truncated toward zero: its magnitude times the length is within one length of the magnitude of the sum, and it has the sum's sign |
| Borders.MeanWithin | pdf_ocr_app/compute/table_extraction.py:206-209 | The mean lies between the least and the greatest element |
| Borders.MeanExamples | tests/test_table_extraction.py:136-138 | `_mean([1, 2, 3]) == 2` and `_mean([1, 5, 11]) == 5`; a negative mean is truncated toward zero; the empty list fails |
| GroupingExamples.MeanOfAlternating | tests/test_table_extraction.py:139 | `_mean([2, 10] * 100) == 6` |
| GroupingExamples.AlternatingSum | tests/test_table_extraction.py:139 | k copies of `[2, 10]` sum to 12 k |
| Borders.ClusterMeansWithin | pdf_ocr_app/compute/table_extraction.py:212-214 | One level per cluster of close coordinates, equal to the cluster's mean and lying within the cluster; no coordinates give no level |
| Borders.GroupInts | pdf_ocr_app/compute/table_extraction.py:212-214 | Returns the cluster means of the coordinates |
| Borders.AreClose | pdf_ocr_app/compute/table_extraction.py:202-203 | Definition, no contract: the coordinates differ by at most 10, bound included (the neighbour test's `Near` excludes it) |
| GroupingExamples.GroupIntsSample | tests/test_table_extraction.py:143 | `_group_ints` of the twelve sample coordinates gives `[3, 100, 200, 1001]` |
| GroupingExamples.RangeGroupInts | tests/test_table_extraction.py:144 | `_group_ints(list(range(51))) == [25]` |
| GroupingExamples.HundredsGroupInts | tests/test_table_extraction.py:145 | `_group_ints([x * 100 for x in range(n)])` gives the coordinates back, for every n |
| Borders.HorizontalEdges | pdf_ocr_app/compute/table_extraction.py:218 | y_0 and y_1 of every cell, in cell order |
| Borders.VerticalEdges | pdf_ocr_app/compute/table_extraction.py:223 | x_0 and x_1 of every cell, in cell order |
| Borders.BorderLevelsSorted | pdf_ocr_app/compute/table_extraction.py:217-224 | The border levels ascend, are a permutation of the cluster means (duplicates kept), and are empty exactly when there are no coordinates |
| Borders.DetectHorizontalBorderLevels | pdf_ocr_app/compute/table_extraction.py:217-219 | The sorted cluster means of the y edges |
| Borders.DetectVerticalBorderLevels | pdf_ocr_app/compute/table_extraction.py:222-224 | The sorted cluster means of the x edges |
| Grid.AssertPositive | pdf_ocr_app/compute/table_extraction.py:227-230 | Refuses exactly the negative numbers, zero included among the accepted, and returns the number unchanged |
| Grid.FindFuzzyRank | pdf_ocr_app/compute/table_extraction.py:233-237 | Succeeds exactly when some border is within 10 of the candidate, and then returns the least such index; otherwise fails with that error |
| Grid.RankMonotone | pdf_ocr_app/compute/table_extraction.py:233-245 | On ascending borders, a smaller coordinate never gets a larger rank |
| Grid.ExtractRowRank | pdf_ocr_app/compute/table_extraction.py:240-241 | Definition, no contract: the fuzzy rank of y_0; Grid.FindFuzzyRank states when it succeeds and what it returns |
| Grid.ExtractColRank | pdf_ocr_app/compute/table_extraction.py:244-245 | Definition, no contract: the fuzzy rank of x_0 |
| Grid.RankSpan | pdf_ocr_app/compute/table_extraction.py:248-257 | Definition, no contract: the body both span functions share, the far rank minus the near rank, refused when negative |
| Grid.ExtractColspan | pdf_ocr_app/compute/table_extraction.py:248-251 | Definition, no contract: RankSpan of x_0 and x_1; Grid.SpansOfOrderedContour and Grid.NegativeSpanExample state when it is refused |
| Grid.ExtractRowspan | pdf_ocr_app/compute/table_extraction.py:254-257 | Definition, no contract: RankSpan of y_0 and y_1 |
| Grid.OrderedSpan | pdf_ocr_app/compute/table_extraction.py:248-257 | On ascending borders, two ordered coordinates whose ranks succeed give the rank difference, never refused |
| Grid.SpansOfOrderedContour | pdf_ocr_app/compute/table_extraction.py:240-257 | For an ordered contour on ascending borders, rowspan and colspan are the rank of the far edge minus the row and column rank, never refused |
| Grid.NegativeSpanExample | pdf_ocr_app/compute/table_extraction.py:25-29 | A contour inverted by one unit, which construction accepts, can get a negative span and be refused |
| Grid.FuzzyRankExamples | tests/test_table_extraction.py:148-155 | All four ranks of test_find_fuzzy_rank, and `NoCloseBorder` for both calls of its `pytest.raises` block (the empty list and `[1000]`) |
| Grid.RowRankExamples | tests/test_table_extraction.py:158-161 | The three row ranks of test_extract_row_rank |
| Grid.ColRankExamples | tests/test_table_extraction.py:164-167 | The three column ranks of test_extract_col_rank |
| Grid.ColspanExamples | tests/test_table_extraction.py:170-173 | The three column spans of test_extract_colspan |
| Grid.RowspanExamples | tests/test_table_extraction.py:176-179 | The three row spans of test_extract_rowspan |
| Models.ArgumentError | pdf_ocr_app/models.py:14 | The keyword call succeeds exactly when every field is a parameter and every required parameter is given |
| Models.CellToRecord | pdf_ocr_app/models.py:5-9 | Definition, no contract: `asdict` of a cell, its three fields; Models.CellRoundTrip proves `Cell.from_dict` inverts it |
| Models.RowToRecord | pdf_ocr_app/models.py:17-21 | Definition, no contract: `asdict` of a row, cells converted in order, a missing text as null; Models.RowRoundTrip proves the inverse |
| Models.TableToRecord | pdf_ocr_app/models.py:34-35 | Definition, no contract: `Table.to_dict`; Models.TableRoundTrip proves the inverse |
| Models.CellFromRecord | pdf_ocr_app/models.py:5-14 | A successful conversion gives back the record with colspan and rowspan defaulting to 1; unknown fields and a missing content are refused |
| Models.RowFromRecord | pdf_ocr_app/models.py:17-27 | On success: every cell record is converted by `Cell.from_dict`, same count and order; the record has no field outside the three parameters; `is_header` is present and is the row's header flag; the inspection-sheet text is None exactly when the field is absent or null, and otherwise is the given string. A missing `cells` is a missing key. Once the cells convert, an unknown field is refused first, then a missing `is_header` |
| Models.TableFromRecord | pdf_ocr_app/models.py:37-39 | One row per row record, same order; a missing `rows` is a missing key |
| Models.CellRoundTrip | pdf_ocr_app/models.py:5-14 | Converting a cell to its record and back gives the cell |
| Models.RowRoundTrip | pdf_ocr_app/models.py:17-27 | Converting a row to its record and back gives the row |
| Models.TableRoundTrip | pdf_ocr_app/models.py:34-39 | `Table.from_dict(t.to_dict()) == t` |
| Models.RecordDefaults | pdf_ocr_app/models.py:5-21 | The defaults of `Cell` and `Row`, and the errors for a missing content, an unknown field and a missing `is_header` |
| TableBuilder.LocatedTableFromRecord | pdf_ocr_app/compute/table_extraction.py:273-277 | The table field goes through `Table.from_dict`; all five fields are required and no other; the result converts back to the record with its table normalised |
| TableBuilder.LocatedTableToRecord | pdf_ocr_app/compute/table_extraction.py:268-271 | Definition, no contract: `asdict` with the table replaced by `Table.to_dict`; TableBuilder.LocatedTableRoundTrip proves the inverse |
| TableBuilder.LocatedTableRoundTrip | pdf_ocr_app/compute/table_extraction.py:268-277 | `LocatedTable.from_dict(t.to_dict()) == t` |
| TableBuilder.Radius | pdf_ocr_app/compute/table_extraction.py:280-281 | Fails exactly on the empty list; otherwise the least width that covers every difference of two elements, reached by one pair |
| TableBuilder.Place | pdf_ocr_app/compute/table_extraction.py:289-293 | A cell is placed exactly when its four ranks and spans succeed; it then keeps its text, sits at its row and column rank within the levels, and has both spans non-negative |
| TableBuilder.FillSlots | pdf_ocr_app/compute/table_extraction.py:287-293 | The loop stops at the first cell that cannot be placed, with its error; otherwise each slot holds the column rank and cell of the placements in its row, in input order |
| TableBuilder.SlotsToRows | pdf_ocr_app/compute/table_extraction.py:294-296 | The non-empty slots become the rows, in rank order |
| TableBuilder.AssembleTable | pdf_ocr_app/compute/table_extraction.py:287-303 | Given the border levels, the result is the assembled table |
| TableBuilder.Assemble | pdf_ocr_app/compute/table_extraction.py:287-303 | Definition, no contract: the placements, the rows, then v_pos, h_pos, width and height in source order; TableBuilder.AssembleKeepsEveryCell, TableBuilder.AssembleRowsOrder and TableBuilder.AssembleBox state its properties |
| TableBuilder.BuiltTable | pdf_ocr_app/compute/table_extraction.py:284-303 | Definition, no contract: Assemble on the detected border levels; TableBuilder.BuildTable is proved to return it |
| TableBuilder.BuildTable | pdf_ocr_app/compute/table_extraction.py:284-303 | The assembled table on the detected border levels |
| TableBuilder.AssembleKeepsEveryCell | pdf_ocr_app/compute/table_extraction.py:284-303 | The cells of the rows are the placed cells reordered: as many as input cells, with the input texts |
| TableBuilder.OccupiedRanksAscending | pdf_ocr_app/compute/table_extraction.py:294-296 | The ranks of the non-empty slots are below the number of levels and strictly ascend |
| TableBuilder.OccupiedRanksMembers | pdf_ocr_app/compute/table_extraction.py:294-296 | A rank is occupied exactly when its slot holds a cell |
| TableBuilder.AssembleRowsOrder | pdf_ocr_app/compute/table_extraction.py:294-296 | Row j is the slot of the j-th occupied rank |
| TableBuilder.SlotRowOrder | pdf_ocr_app/compute/table_extraction.py:295 | Within a row, cells are sorted by column rank, stably, none added or lost; no row is empty or a header |
| TableBuilder.AssembleBox | pdf_ocr_app/compute/table_extraction.py:297-303 | v_pos and v_pos + height are the least and the greatest horizontal level, h_pos and h_pos + width those of the vertical levels |
| TableBuilder.BuiltTableEmpty | pdf_ocr_app/compute/table_extraction.py:297-303 | No cells give no levels, and `min` of the empty list fails |
| TableBuilder.RowSlotEmpty | pdf_ocr_app/compute/table_extraction.py:287-293 | A row rank that no cell has keeps an empty slot |
| TableBuilder.SinglePlacement | tests/test_table_extraction.py:185 | The single cell is placed at rank 0 on both axes with both spans 1 |
| TableBuilder.SingleCellExample | tests/test_table_extraction.py:182-185 | A single cell makes a table of one row holding `Cell('a', 1, 1)` |
| TableBuilder.GridPlacements | tests/test_table_extraction.py:187-192 | Each cell of the 2 x 2 grid is placed at its corner with spans 1 |
| TableBuilder.AssembleGridExample | tests/test_table_extraction.py:187-197 | The 2 x 2 grid gives rows a, c and b, d, at (0, 0), 200 by 200 |
| TableBuilder.PlaceMergedExample | tests/test_table_extraction.py:211-220 | The merged cell 'b' becomes `Cell('b', 2, 1)`: two columns wide, one row high |
| Extraction.ExtractTables | pdf_ocr_app/compute/table_extraction.py:315-319 | The groups of neighbouring cells, each built into a table, stopping at the first failure |
| Extraction.BuildTables | pdf_ocr_app/compute/table_extraction.py:318 | One table per group, in order, until a group fails |
| Extraction.ExtractedTablesPerGroup | pdf_ocr_app/compute/table_extraction.py:317-318 | No cells give no tables; otherwise there is one table per group, built from that group |
| Extraction.ExtractedTablesKeepEveryCell | pdf_ocr_app/compute/table_extraction.py:315-319 | The texts of all tables' cells are the texts of the input cells, reordered |
| Extraction.SeparateTables | pdf_ocr_app/compute/table_extraction.py:317 | Two cells in different tables are not neighbours |
| Builtins.MapAll | pdf_ocr_app/compute/table_extraction.py:318 | On success, one result per item, each the item's own result; on failure, the error of the first failing item |
| Builtins.SortByCorrect | pdf_ocr_app/compute/table_extraction.py:295 | The sort by key ascends, is a permutation, and keeps the input order of equal keys |
| PathUtils.SafelyReplacePathSuffix | pdf_ocr_app/utils.py:5-8 | Fails exactly when the path does not end with the suffix, with that error; otherwise replaces every occurrence |
| PathUtils.ReplacePathSuffix | pdf_ocr_app/utils.py:5-8 | Same failure; otherwise keeps the path up to the suffix and ends with the replacement, at the expected length |
| PathUtils.ReplacePathSuffixUndo | pdf_ocr_app/utils.py:5-8 | Swapping the suffix back gives the path |
| PathUtils.AgreeOnLoneSuffix | pdf_ocr_app/utils.py:8 | When the suffix text does not occur earlier in the path, both versions give the same result |
| PathUtils.SuffixExamples | pdf_ocr_app/tests/test_utils.py:5-6 | `('', '', '')` gives `''` and `('a/b/c', 'c', 'd')` gives `'a/b/d'` in both versions; a wrong suffix fails |
| PathUtils.EveryOccurrenceReplaced | pdf_ocr_app/utils.py:8 | `('a/c/c', 'c', 'd')` gives `'a/d/d'` as written, `'a/c/d'` as a suffix swap |
| PyStr.Replace | pdf_ocr_app/utils.py:8 | Definition, no contract: every non-overlapping occurrence, left to right, and interleaving for an empty pattern; PathUtils.SafelyReplacePathSuffix and PathUtils.EveryOccurrenceReplaced state its effect |
| PyStr.LastPiece | pdf_ocr_app/app/utils.py:2 | Holds no separator, ends the text, and is preceded by the separator when shorter than the text |
| PyStr.FirstPiece | pdf_ocr_app/config.py:29 | Starts the text, contains no start of the separator, and is followed by the separator when shorter than the text |
| AppUtils.IdPrefix | pdf_ocr_app/app/utils.py:2 | The prefix holds no '/' and no '_' |
| AppUtils.GenerateId | pdf_ocr_app/app/utils.py:1-3 | The id ends with '-' + suffix, after the prefix of the file name, which holds no '/' and no '_' |
| AppUtils.PlainNameIsPrefix | pdf_ocr_app/app/utils.py:2 | A file name without '/', '_' or '.py' is its own prefix |
| AppUtils.ModuleFileId | pdf_ocr_app/app/pages/parse.py:26-30 | For a module file dir/name.py with a plain name, the id is name-suffix |
| ConfigNames.KeyToClassName | pdf_ocr_app/config.py:24-25 | The empty key fails; otherwise the first character upper-cased, the rest of the key, then 'Config' |
| ConfigNames.ClassNameToKey | pdf_ocr_app/config.py:28-29 | The lower-cased text before the first 'Config', or all of the name when there is none |
| ConfigNames.KeyRoundTrip | pdf_ocr_app/config.py:24-29 | A non-empty key without capitals that does not start with 'config' comes back from its class name |
| ConfigNames.SectionClassNames | pdf_ocr_app/config.py:64-71 | 'tesseract' names TesseractConfig and 'environment' names EnvironmentConfig; the empty key fails |
| ConfigNames.SectionKeys | pdf_ocr_app/config.py:36-61 | TesseractConfig and EnvironmentConfig give back their keys |

## Left out

- Image work: inverting the image, finding lines and contours with cv2, `_build_contour` and `_hide_tables`. These are foreign image-library calls. `extract_and_remove_tables` is modelled from its detected cells on.
- `_is_full_page` and `_image_area`: they need a numpy image and compare a float ratio.
- OCR with pytesseract in `_extract_string` and `_extract_cells`, the progress bar and the `__main__` block.
- Borders.Mean: `int(sum(ints) / len(ints))` divides in floating point. The model divides exactly and truncates toward zero, so it ignores rounding on very large sums.
- Models.CellFromRecord: a field holding the wrong kind of value is refused with `WrongType`. Python dataclasses accept any value there.
- Models.RowFromRecord: the same `WrongType` refusal, for its fields and for the cells list.
- TableBuilder.LocatedTableFromRecord: the same `WrongType` refusal, for the four integer fields.
- Models.ArgumentError: it reports the whole set of unexpected field names. Python names only the first one.
- The copy that each `from_dict` makes before rewriting its record is not modelled. Records are values here, so the caller's record cannot change anyway.
- PyStr upper and lower case cover ASCII letters only. There is no Unicode case mapping.
- Geometry.LinesAreNeighbor: its touch characterisation is stated for ordered ranges only. A range inverted by one unit, which construction accepts, can be a neighbour of a range it does not touch (Geometry.InvertedRangeNeighbor).
- Geometry.AreNeighbor: the same limit. `_is_empty` (table_extraction.py:69) drops such contours before any neighbour test, and Geometry.KeptCellsNeighbor states the characterisation for every pair of kept cells.
- GroupingExamples: the two shuffled inputs of test_group_by_proximity (lines 120-124) are not evaluated. Their groups are compared only after sorting, and Grouping.ProximityGroupsPermute states the general fact behind them.
- TableBuilder.AssembleGridExample: it uses the border levels written out. The clustering is evaluated on the clustering tests (GroupingExamples), not on these cells' edges.
- TableBuilder.SingleCellExample: the same, with the levels of the single cell written out.
- TableBuilder.PlaceMergedExample: the same, and it places only the merged cell.
- Config loading (config.ini, environment variables, `lru_cache`, `globals()` lookup), `write_json` and `create_folder_if_inexistent`. These are I/O or reflection. Only the two name converters are modelled.
- `OCRProcessingStep`, the processing pipeline, the database and download code, and the Dash user interface. These are I/O, subprocesses, randomness and UI.

## Findings

| source | as written | input that shows it | evidently intended | confidence | as-written member | corrected member |
|---|---|---|---|---|---|---|
| pdf_ocr_app/utils.py:8 | after checking that the path ends with `to_replace`, `path.replace(to_replace, with_)` rewrites every occurrence of `to_replace`, not just the suffix | `('a/c/c', 'c', 'd')` gives `'a/d/d'` | swap only the suffix: `'a/c/d'` | medium, not executed | PathUtils.SafelyReplacePathSuffix (shown by PathUtils.EveryOccurrenceReplaced) | PathUtils.ReplacePathSuffix (proved by PathUtils.ReplacePathSuffixUndo) |
