/** Assembling one table from its cells (table_extraction.py, lines 260-303)
    and the cell-level part of extract_and_remove_tables (lines 315-319).

    _build_table computes the horizontal and vertical border levels of the
    cells, prepares one empty slot per horizontal level, and appends every
    cell, with its column rank, to the slot of its row rank.  The non-empty
    slots become the rows, in order of rank, each with its cells sorted by
    column rank; the bounding box of the table comes from the least and
    greatest levels. */
module TableBuilder {
  import opened Outcome
  import opened Builtins
  import opened Geometry
  import opened Borders
  import opened Grid
  import opened Models
  import opened Connectivity
  import opened Partition
  import opened Grouping

  /** A table and the box it occupies on the page: h_pos and v_pos are its
      left and upper coordinates. */
  datatype LocatedTable = LocatedTable(table: Table, hPos: int, vPos: int, height: int, width: int)

  const LocatedTableParams: set<string> := {"table", "h_pos", "v_pos", "height", "width"}

  /** LocatedTable.to_dict: asdict, with the table replaced by Table.to_dict. */
  function LocatedTableToRecord(t: LocatedTable): Value {
    Record(map[
      "table" := TableToRecord(t.table),
      "h_pos" := Int(t.hPos),
      "v_pos" := Int(t.vPos),
      "height" := Int(t.height),
      "width" := Int(t.width)])
  }

  /** LocatedTable.from_dict: the table field is converted by Table.from_dict
      and the record is then passed to the class, which needs all five fields
      and no other; converting the result back gives the record with its table
      field normalised. */
  function LocatedTableFromRecord(v: Value): (r: Result<LocatedTable>)
    ensures r.Ok? ==> && v.Record? && "table" in v.fields
                      && TableFromRecord(v.fields["table"]) == Ok(r.value.table)
                      && LocatedTableToRecord(r.value) == Record(v.fields["table" := TableToRecord(r.value.table)])
    ensures v.Record? && "table" !in v.fields ==> r == Err(MissingKey("table"))
    ensures v.Record? && "table" in v.fields && TableFromRecord(v.fields["table"]).Ok?
            && !(v.fields.Keys <= LocatedTableParams) ==>
              r == Err(UnexpectedArguments(v.fields.Keys - LocatedTableParams))
  {
    if !v.Record? then Err(WrongType("located table"))
    else if "table" !in v.fields then Err(MissingKey("table"))
    else
      var table :- TableFromRecord(v.fields["table"]);
      var fields := v.fields;
      var e := ArgumentError(fields, LocatedTableParams, ["table", "h_pos", "v_pos", "height", "width"]);
      if e.Some? then Err(e.value)
      else
        var hPos :- AsInt(fields["h_pos"], "h_pos");
        var vPos :- AsInt(fields["v_pos"], "v_pos");
        var height :- AsInt(fields["height"], "height");
        var width :- AsInt(fields["width"], "width");
        LocatedRecordFields(fields, table, hPos, vPos, height, width);
        Ok(LocatedTable(table, hPos, vPos, height, width))
  }

  /** A record holding exactly the five fields, with these integers, is the
      record of the located table once its table field is normalised. */
  lemma LocatedRecordFields(fields: map<string, Value>, table: Table, hPos: int, vPos: int, height: int, width: int)
    requires fields.Keys <= LocatedTableParams && "table" in fields
    requires "h_pos" in fields && fields["h_pos"] == Int(hPos)
    requires "v_pos" in fields && fields["v_pos"] == Int(vPos)
    requires "height" in fields && fields["height"] == Int(height)
    requires "width" in fields && fields["width"] == Int(width)
    ensures LocatedTableToRecord(LocatedTable(table, hPos, vPos, height, width)).fields
         == fields["table" := TableToRecord(table)]
  {
    assert fields.Keys == LocatedTableParams;
  }

  /** LocatedTable.from_dict(t.to_dict()) == t */
  lemma LocatedTableRoundTrip(t: LocatedTable)
    ensures LocatedTableFromRecord(LocatedTableToRecord(t)) == Ok(t)
  {
    TableRoundTrip(t.table);
    var fields := LocatedTableToRecord(t).fields;
    assert ArgumentError(fields, LocatedTableParams, ["table", "h_pos", "v_pos", "height", "width"]) == None;
  }

  /** _radius: the greatest minus the least element, so the least width that
      spans them all; an empty list is an error. */
  function Radius(ints: seq<int>): (r: Result<int>)
    ensures r.Ok? <==> ints != []
    ensures r.Err? ==> r.error == EmptySequence
    ensures r.Ok? ==> && r.value >= 0
                      && (forall a, b :: a in ints && b in ints ==> a - b <= r.value)
                      && exists a, b :: a in ints && b in ints && a - b == r.value
  {
    if ints == [] then Err(EmptySequence) else Ok(Max(ints).value - Min(ints).value)
  }

  /** Where one cell goes: its row and column ranks, and the cell itself. */
  datatype Placement = Placement(row: nat, col: nat, cell: Cell)

  /** One pass of _build_table's loop: the row rank, the column rank, the
      rowspan and the colspan of the cell, in that order, the first failure
      ending it; the cell keeps its text. */
  function Place(d: DetectedCell, horizontalBorders: seq<int>, verticalBorders: seq<int>): (r: Result<Placement>)
    ensures r.Ok? <==> && ExtractRowRank(d.contour, horizontalBorders).Ok?
                       && ExtractColRank(d.contour, verticalBorders).Ok?
                       && ExtractRowspan(d.contour, horizontalBorders).Ok?
                       && ExtractColspan(d.contour, verticalBorders).Ok?
    ensures r.Ok? ==> && r.value.row < |horizontalBorders| && r.value.col < |verticalBorders|
                      && ExtractRowRank(d.contour, horizontalBorders) == Ok(r.value.row)
                      && ExtractColRank(d.contour, verticalBorders) == Ok(r.value.col)
                      && r.value.cell.content == d.text
                      && ExtractRowspan(d.contour, horizontalBorders) == Ok(r.value.cell.rowspan)
                      && ExtractColspan(d.contour, verticalBorders) == Ok(r.value.cell.colspan)
                      && r.value.cell.rowspan >= 0 && r.value.cell.colspan >= 0
  {
    var row :- ExtractRowRank(d.contour, horizontalBorders);
    var col :- ExtractColRank(d.contour, verticalBorders);
    var rowspan :- ExtractRowspan(d.contour, horizontalBorders);
    var colspan :- ExtractColspan(d.contour, verticalBorders);
    Ok(Placement(row, col, Cell(d.text, colspan, rowspan)))
  }

  /** Place with the border levels fixed. */
  function PlaceIn(horizontalBorders: seq<int>, verticalBorders: seq<int>): DetectedCell -> Result<Placement> {
    d => Place(d, horizontalBorders, verticalBorders)
  }

  /** The placements of all cells, in input order; the first cell that cannot
      be placed stops the loop with its error. */
  function Placements(cells: seq<DetectedCell>, horizontalBorders: seq<int>, verticalBorders: seq<int>)
    : Result<seq<Placement>>
  {
    MapAll(PlaceIn(horizontalBorders, verticalBorders), cells)
  }

  /** The slot of row rank k: the column rank and cell of every placement in
      that row, in input order. */
  function RowSlot(ps: seq<Placement>, k: nat): seq<(nat, Cell)> {
    if ps == [] then []
    else
      var p := ps[|ps| - 1];
      RowSlot(ps[..|ps| - 1], k) + (if p.row == k then [(p.col, p.cell)] else [])
  }

  /** A row in which nothing was placed has an empty slot. */
  lemma {:induction false} RowSlotEmpty(ps: seq<Placement>, k: nat)
    requires forall i :: 0 <= i < |ps| ==> ps[i].row != k
    ensures RowSlot(ps, k) == []
  {
    if ps != [] {
      RowSlotEmpty(ps[..|ps| - 1], k);
    }
  }

  function ColOf(entry: (nat, Cell)): int {
    entry.0
  }

  function CellOf(entry: (nat, Cell)): Cell {
    entry.1
  }

  /** A non-empty slot as a row: its cells sorted by column rank, not a header. */
  function SlotRow(slot: seq<(nat, Cell)>): Row {
    Row(Map(CellOf, SortBy(slot, ColOf)), false, None)
  }

  /** The rows of the slots of ranks 0 to n - 1, the empty ones dropped. */
  function AssembleRows(ps: seq<Placement>, n: nat): seq<Row> {
    if n == 0 then []
    else AssembleRows(ps, n - 1) + (if RowSlot(ps, n - 1) == [] then [] else [SlotRow(RowSlot(ps, n - 1))])
  }

  /** _build_table for given border levels: every cell placed, then the rows,
      then v_pos, h_pos, width and height, in the order the source computes
      them. */
  function Assemble(cells: seq<DetectedCell>, horizontalBorders: seq<int>, verticalBorders: seq<int>)
    : Result<LocatedTable>
  {
    var ps :- Placements(cells, horizontalBorders, verticalBorders);
    var rows := AssembleRows(ps, |horizontalBorders|);
    var vPos :- Min(horizontalBorders);
    var hPos :- Min(verticalBorders);
    // both lists are non-empty now, so _radius cannot fail
    var width := Radius(verticalBorders).value;
    var height := Radius(horizontalBorders).value;
    Ok(LocatedTable(Table(rows), hPos, vPos, height, width))
  }

  /** The table _build_table builds from some cells. */
  ghost function BuiltTable(cells: seq<DetectedCell>): Result<LocatedTable> {
    Assemble(cells, BorderLevels(HorizontalEdges(cells)), BorderLevels(VerticalEdges(cells)))
  }

  lemma RowSlotSnoc(ps: seq<Placement>, p: Placement, k: nat)
    ensures RowSlot(ps + [p], k) == RowSlot(ps, k) + (if p.row == k then [(p.col, p.cell)] else [])
  {
    assert (ps + [p])[..|ps|] == ps;
  }

  /** _build_table */
  method BuildTable(cells: seq<DetectedCell>) returns (r: Result<LocatedTable>)
    ensures r == BuiltTable(cells)
  {
    var horizontalBorders := DetectHorizontalBorderLevels(cells);
    var verticalBorders := DetectVerticalBorderLevels(cells);
    r := AssembleTable(cells, horizontalBorders, verticalBorders);
  }

  /** The body of _build_table once the border levels are known: one empty
      slot per horizontal level, the slots filled cell by cell, then the rows
      and the box. */
  method AssembleTable(cells: seq<DetectedCell>, horizontalBorders: seq<int>, verticalBorders: seq<int>)
    returns (r: Result<LocatedTable>)
    ensures r == Assemble(cells, horizontalBorders, verticalBorders)
  {
    var rows := new seq<(nat, Cell)>[|horizontalBorders|](_ => []);
    var failure, placed := FillSlots(cells, PlaceIn(horizontalBorders, verticalBorders), rows);
    if failure.Some? {
      return Err(failure.value);
    }
    var finalRows := SlotsToRows(rows, placed);
    var vPos :- Min(horizontalBorders);
    var hPos :- Min(verticalBorders);
    // both lists are non-empty now, so _radius cannot fail
    var width := Radius(verticalBorders).value;
    var height := Radius(horizontalBorders).value;
    r := Ok(LocatedTable(Table(finalRows), hPos, vPos, height, width));
  }

  /** The loop of _build_table over the cells: each cell, with its column
      rank, is appended to the slot of its row rank, until a cell cannot be
      placed.  `place` computes the ranks and the cell. */
  method FillSlots(cells: seq<DetectedCell>, place: DetectedCell -> Result<Placement>,
                   rows: array<seq<(nat, Cell)>>)
    returns (failure: Option<Error>, ghost placed: seq<Placement>)
    requires forall k :: 0 <= k < rows.Length ==> rows[k] == []
    requires forall d :: place(d).Ok? ==> place(d).value.row < rows.Length
    modifies rows
    ensures failure.None? ==> MapAll(place, cells) == Ok(placed)
    ensures failure.Some? ==> MapAll(place, cells) == Err(failure.value)
    ensures failure.None? ==> forall k :: 0 <= k < rows.Length ==> rows[k] == RowSlot(placed, k)
  {
    placed := [];
    for t := 0 to |cells|
      invariant MapAll(place, cells[..t]) == Ok(placed)
      invariant forall k :: 0 <= k < rows.Length ==> rows[k] == RowSlot(placed, k)
    {
      assert cells[..t + 1] == cells[..t] + [cells[t]];
      MapAllSnoc(place, cells[..t], cells[t]);
      var placement := place(cells[t]);
      if placement.Err? {
        MapAllPrefixError(place, cells, t + 1);
        return Some(placement.error), placed;
      }
      var p := placement.value;
      rows[p.row] := rows[p.row] + [(p.col, p.cell)];
      forall k | 0 <= k < rows.Length ensures rows[k] == RowSlot(placed + [p], k) {
        RowSlotSnoc(placed, p, k);
      }
      placed := placed + [p];
    }
    assert cells[..|cells|] == cells;
    failure := None;
  }

  /** The comprehension that keeps the non-empty slots, in order, as rows. */
  method SlotsToRows(rows: array<seq<(nat, Cell)>>, ghost placed: seq<Placement>) returns (finalRows: seq<Row>)
    requires forall k :: 0 <= k < rows.Length ==> rows[k] == RowSlot(placed, k)
    ensures finalRows == AssembleRows(placed, rows.Length)
  {
    finalRows := [];
    for k := 0 to rows.Length
      invariant finalRows == AssembleRows(placed, k)
    {
      if rows[k] != [] {
        finalRows := finalRows + [SlotRow(rows[k])];
      }
    }
  }

  // Every cell exactly once

  function RowCells(row: Row): seq<Cell> {
    row.cells
  }

  /** The cells of some rows, row after row. */
  function TableCells(rows: seq<Row>): seq<Cell> {
    Flatten(Map(RowCells, rows))
  }

  function PlacedCell(p: Placement): Cell {
    p.cell
  }

  function CellContent(c: Cell): string {
    c.content
  }

  function CellText(d: DetectedCell): string {
    d.text
  }

  /** The cells placed in row k. */
  ghost function CellsInRow(ps: seq<Placement>, k: nat): multiset<Cell> {
    if ps == [] then multiset{}
    else CellsInRow(ps[..|ps| - 1], k) + (if ps[|ps| - 1].row == k then multiset{ps[|ps| - 1].cell} else multiset{})
  }

  /** The cells placed in rows 0 to n - 1. */
  ghost function SlotsUpTo(ps: seq<Placement>, n: nat): multiset<Cell> {
    if n == 0 then multiset{} else SlotsUpTo(ps, n - 1) + CellsInRow(ps, n - 1)
  }

  lemma MapConcat<A, B>(f: A -> B, a: seq<A>, b: seq<A>)
    ensures Map(f, a + b) == Map(f, a) + Map(f, b)
  {
  }

  /** The slot of row k holds the cells placed in row k. */
  lemma {:induction false} SlotHoldsRow(ps: seq<Placement>, k: nat)
    ensures multiset(Map(CellOf, RowSlot(ps, k))) == CellsInRow(ps, k)
  {
    if ps != [] {
      var init, p := ps[..|ps| - 1], ps[|ps| - 1];
      SlotHoldsRow(init, k);
      MapConcat(CellOf, RowSlot(init, k), if p.row == k then [(p.col, p.cell)] else []);
    }
  }

  lemma {:induction false} SlotsUpToSnoc(ps: seq<Placement>, p: Placement, n: nat)
    ensures SlotsUpTo(ps + [p], n) == SlotsUpTo(ps, n) + (if p.row < n then multiset{p.cell} else multiset{})
  {
    if n > 0 {
      SlotsUpToSnoc(ps, p, n - 1);
      CellsInRowSnoc(ps, p, n - 1);
      var earlier := if p.row < n - 1 then multiset{p.cell} else multiset{};
      var here := if p.row == n - 1 then multiset{p.cell} else multiset{};
      assert earlier + here == if p.row < n then multiset{p.cell} else multiset{};
      MultisetSwapMiddle(SlotsUpTo(ps, n - 1), earlier, CellsInRow(ps, n - 1), here);
    }
  }

  /** (a + b) + (c + d) == (a + c) + (b + d) */
  lemma MultisetSwapMiddle<T>(a: multiset<T>, b: multiset<T>, c: multiset<T>, d: multiset<T>)
    ensures (a + b) + (c + d) == (a + c) + (b + d)
  {
    assert forall o :: ((a + b) + (c + d))[o] == ((a + c) + (b + d))[o];
  }

  lemma CellsInRowSnoc(ps: seq<Placement>, p: Placement, k: nat)
    ensures CellsInRow(ps + [p], k) == CellsInRow(ps, k) + (if p.row == k then multiset{p.cell} else multiset{})
  {
    assert (ps + [p])[..|ps|] == ps;
  }

  lemma {:induction false} NoPlacementsNoCells(n: nat)
    ensures SlotsUpTo([], n) == multiset{}
  {
    if n > 0 {
      NoPlacementsNoCells(n - 1);
    }
  }

  /** When every row rank is below n, the rows below n hold every placed cell. */
  lemma {:induction false} SlotsCover(ps: seq<Placement>, n: nat)
    requires forall i :: 0 <= i < |ps| ==> ps[i].row < n
    ensures SlotsUpTo(ps, n) == multiset(Map(PlacedCell, ps))
  {
    if ps == [] {
      NoPlacementsNoCells(n);
    } else {
      var init, p := ps[..|ps| - 1], ps[|ps| - 1];
      assert ps == init + [p];
      SlotsCover(init, n);
      SlotsUpToSnoc(init, p, n);
      MapConcat(PlacedCell, init, [p]);
    }
  }

  /** A slot's row holds the cells of the slot, reordered. */
  lemma SlotRowPermutes(slot: seq<(nat, Cell)>)
    ensures multiset(SlotRow(slot).cells) == multiset(Map(CellOf, slot))
  {
    SortByCorrect(slot, ColOf);
    MapPermutation(CellOf, SortBy(slot, ColOf), slot);
  }

  lemma TableCellsSnoc(rows: seq<Row>, row: Row)
    ensures TableCells(rows + [row]) == TableCells(rows) + row.cells
  {
    MapConcat(RowCells, rows, [row]);
    assert Map(RowCells, [row]) == [row.cells];
    FlattenSnoc(Map(RowCells, rows), row.cells);
  }

  /** The assembled rows hold the cells of the slots below n. */
  lemma {:induction false} RowsHoldSlots(ps: seq<Placement>, n: nat)
    ensures multiset(TableCells(AssembleRows(ps, n))) == SlotsUpTo(ps, n)
  {
    if n > 0 {
      RowsHoldSlots(ps, n - 1);
      RowsHoldNextSlot(ps, n);
      assert SlotsUpTo(ps, n) == SlotsUpTo(ps, n - 1) + CellsInRow(ps, n - 1);
    } else {
      NoRowsNoCells(ps);
    }
  }

  lemma NoRowsNoCells(ps: seq<Placement>)
    ensures multiset(TableCells(AssembleRows(ps, 0))) == SlotsUpTo(ps, 0)
  {
    assert Map(RowCells, []) == [];
  }

  /** The row of slot n - 1, if any, adds the cells placed in row n - 1. */
  lemma RowsHoldNextSlot(ps: seq<Placement>, n: nat)
    requires n > 0
    ensures multiset(TableCells(AssembleRows(ps, n)))
         == multiset(TableCells(AssembleRows(ps, n - 1))) + CellsInRow(ps, n - 1)
  {
    SlotHoldsRow(ps, n - 1);
    if RowSlot(ps, n - 1) == [] {
      RowsHoldEmptySlot(ps, n);
    } else {
      RowsHoldFilledSlot(ps, n);
    }
  }

  /** An empty slot adds no row. */
  lemma RowsHoldEmptySlot(ps: seq<Placement>, n: nat)
    requires n > 0 && RowSlot(ps, n - 1) == []
    ensures AssembleRows(ps, n) == AssembleRows(ps, n - 1)
    ensures multiset(Map(CellOf, RowSlot(ps, n - 1))) == multiset{}
  {
  }

  /** A non-empty slot adds its row after the others. */
  lemma RowsHoldFilledSlot(ps: seq<Placement>, n: nat)
    requires n > 0 && RowSlot(ps, n - 1) != []
    ensures multiset(TableCells(AssembleRows(ps, n)))
         == multiset(TableCells(AssembleRows(ps, n - 1))) + multiset(Map(CellOf, RowSlot(ps, n - 1)))
  {
    var rows, slot := AssembleRows(ps, n - 1), RowSlot(ps, n - 1);
    assert AssembleRows(ps, n) == rows + [SlotRow(slot)];
    TableCellsSnoc(rows, SlotRow(slot));
    SlotRowPermutes(slot);
  }

  /** _build_table emits every input cell exactly once: the cells of its rows
      are the placed cells reordered, so there are as many as input cells and
      their texts are the input texts. */
  lemma AssembleKeepsEveryCell(cells: seq<DetectedCell>, horizontalBorders: seq<int>, verticalBorders: seq<int>)
    requires Assemble(cells, horizontalBorders, verticalBorders).Ok?
    ensures var ps := Placements(cells, horizontalBorders, verticalBorders).value;
      var emitted := TableCells(Assemble(cells, horizontalBorders, verticalBorders).value.table.rows);
      && multiset(emitted) == multiset(Map(PlacedCell, ps))
      && |emitted| == |cells|
      && multiset(Map(CellContent, emitted)) == multiset(Map(CellText, cells))
  {
    var ps := Placements(cells, horizontalBorders, verticalBorders).value;
    var emitted := TableCells(AssembleRows(ps, |horizontalBorders|));
    RowsHoldSlots(ps, |horizontalBorders|);
    SlotsCover(ps, |horizontalBorders|);
    assert |multiset(emitted)| == |multiset(Map(PlacedCell, ps))|;
    MapPermutation(CellContent, emitted, Map(PlacedCell, ps));
    assert Map(CellContent, Map(PlacedCell, ps)) == Map(CellText, cells);
  }

  // Row order

  /** The ranks below n whose slot is not empty, ascending. */
  function OccupiedRanks(ps: seq<Placement>, n: nat): seq<nat> {
    if n == 0 then [] else OccupiedRanks(ps, n - 1) + (if RowSlot(ps, n - 1) == [] then [] else [n - 1])
  }

  /** The occupied ranks below n are strictly ascending. */
  lemma {:induction false} OccupiedRanksAscending(ps: seq<Placement>, n: nat)
    ensures forall j :: 0 <= j < |OccupiedRanks(ps, n)| ==> OccupiedRanks(ps, n)[j] < n
    ensures forall j, j' :: 0 <= j < j' < |OccupiedRanks(ps, n)| ==> OccupiedRanks(ps, n)[j] < OccupiedRanks(ps, n)[j']
  {
    if n > 0 {
      OccupiedRanksAscending(ps, n - 1);
      var init := OccupiedRanks(ps, n - 1);
      if RowSlot(ps, n - 1) != [] {
        var ranks := init + [n - 1];
        assert OccupiedRanks(ps, n) == ranks;
        forall j, j' | 0 <= j < j' < |ranks| ensures ranks[j] < ranks[j'] {
          assert ranks[j] == init[j];
        }
      } else {
        assert OccupiedRanks(ps, n) == init;
      }
    }
  }

  /** A rank below n is occupied exactly when its slot is not empty. */
  lemma {:induction false} OccupiedRanksMembers(ps: seq<Placement>, n: nat)
    ensures forall k: nat :: k in OccupiedRanks(ps, n) <==> k < n && RowSlot(ps, k) != []
  {
    if n > 0 {
      OccupiedRanksMembers(ps, n - 1);
    }
  }

  /** The rows are the non-empty slots in ascending order of row rank: row j
      is the slot of the j-th occupied rank. */
  lemma {:induction false} AssembleRowsOrder(ps: seq<Placement>, n: nat)
    ensures var rows, ranks := AssembleRows(ps, n), OccupiedRanks(ps, n);
      && |rows| == |ranks|
      && forall j :: 0 <= j < |ranks| ==>
           ranks[j] < n && RowSlot(ps, ranks[j]) != [] && rows[j] == SlotRow(RowSlot(ps, ranks[j]))
  {
    if n > 0 {
      AssembleRowsOrder(ps, n - 1);
    }
  }

  /** Within a row, the cells are sorted by column rank, those of equal rank
      in input order, none added or lost; no row is empty or a header, and
      none has an inspection-sheet text. */
  lemma SlotRowOrder(slot: seq<(nat, Cell)>)
    ensures var sorted := SortBy(slot, ColOf);
      && SlotRow(slot).cells == Map(CellOf, sorted)
      && Ascending(sorted, ColOf)
      && multiset(sorted) == multiset(slot)
      && (forall k :: KeyFilter(sorted, ColOf, k) == KeyFilter(slot, ColOf, k))
      && (slot != [] ==> SlotRow(slot).cells != [])
      && !SlotRow(slot).isHeader && SlotRow(slot).textInInspectionSheet == None
  {
    SortByCorrect(slot, ColOf);
    if slot != [] {
      assert slot[0] in multiset(slot);
    }
  }

  /** The box of the table: v_pos and v_pos + height are the least and the
      greatest horizontal level, h_pos and h_pos + width the least and the
      greatest vertical level, so every level lies within the box. */
  lemma AssembleBox(cells: seq<DetectedCell>, horizontalBorders: seq<int>, verticalBorders: seq<int>)
    requires Assemble(cells, horizontalBorders, verticalBorders).Ok?
    ensures var t := Assemble(cells, horizontalBorders, verticalBorders).value;
      && t.vPos in horizontalBorders && t.vPos + t.height in horizontalBorders
      && (forall y :: y in horizontalBorders ==> t.vPos <= y <= t.vPos + t.height)
      && t.hPos in verticalBorders && t.hPos + t.width in verticalBorders
      && (forall x :: x in verticalBorders ==> t.hPos <= x <= t.hPos + t.width)
  {
  }

  /** Without cells there are no border levels, and min() of the empty list fails. */
  lemma BuiltTableEmpty()
    ensures BuiltTable([]) == Err(EmptySequence)
  {
    BorderLevelsSorted(HorizontalEdges([]));
    BorderLevelsSorted(VerticalEdges([]));
  }

  /** The single cell of tests/test_table_extraction.py, line 185, is placed
      at rank 0 on both axes, one row high and one column wide. */
  lemma SinglePlacement()
    ensures Placements([DetectedCell("a", Contour(100, 200, 0, 100))], [0, 100], [100, 200])
         == Ok([Placement(0, 0, Cell("a", 1, 1))])
  {
    var d, p := DetectedCell("a", Contour(100, 200, 0, 100)), Placement(0, 0, Cell("a", 1, 1));
    assert AreClose([0, 100][0], 0) && AreClose([0, 100][1], 100);
    assert AreClose([100, 200][0], 100) && AreClose([100, 200][1], 200);
    assert Place(d, [0, 100], [100, 200]) == Ok(p);
    MapAllAllOk(PlaceIn([0, 100], [100, 200]), [d], [p]);
  }

  /** Its one row. */
  lemma SingleRow(p: Placement)
    requires p == Placement(0, 0, Cell("a", 1, 1))
    ensures AssembleRows([p], 2) == [Row([Cell("a", 1, 1)], false, None)]
  {
    assert RowSlot([p], 0) == [(0, Cell("a", 1, 1))] by {
      assert [p][..0] == [];
    }
    RowSlotEmpty([p], 1);
    assert SortBy([(0, Cell("a", 1, 1))], ColOf) == [(0, Cell("a", 1, 1))] by {
      assert [(0, Cell("a", 1, 1))][..0] == [];
    }
    assert Map(CellOf, [(0, Cell("a", 1, 1))]) == [Cell("a", 1, 1)];
    assert AssembleRows([p], 1) == [Row([Cell("a", 1, 1)], false, None)];
  }

  /** tests/test_table_extraction.py, lines 182-185: a single cell makes a
      table of one row holding one cell, on the levels 0 and 100 of its y
      edges and 100 and 200 of its x edges. */
  lemma SingleCellExample()
    ensures Assemble([DetectedCell("a", Contour(100, 200, 0, 100))], [0, 100], [100, 200])
         == Ok(LocatedTable(Table([Row([Cell("a", 1, 1)], false, None)]), 100, 0, 100, 100))
  {
    SinglePlacement();
    SingleRow(Placement(0, 0, Cell("a", 1, 1)));
    assert [0, 100][1..] == [100] && [100, 200][1..] == [200];
  }

  /** The cells of tests/test_table_extraction.py, lines 187-192: a 2 x 2 grid. */
  function GridCells(): seq<DetectedCell> {
    [DetectedCell("a", Contour(0, 100, 0, 100)),
     DetectedCell("b", Contour(0, 100, 100, 200)),
     DetectedCell("c", Contour(100, 200, 0, 100)),
     DetectedCell("d", Contour(100, 200, 100, 200))]
  }

  /** Each cell of the grid is placed at its corner, spanning one row and one
      column, on the levels 0, 100 and 200 of both axes. */
  lemma GridPlacements()
    ensures Placements(GridCells(), [0, 100, 200], [0, 100, 200]) == Ok([
      Placement(0, 0, Cell("a", 1, 1)), Placement(1, 0, Cell("b", 1, 1)),
      Placement(0, 1, Cell("c", 1, 1)), Placement(1, 1, Cell("d", 1, 1))])
  {
    var cells, levels := GridCells(), [0, 100, 200];
    GridRanks();
    var ps := [Placement(0, 0, Cell("a", 1, 1)), Placement(1, 0, Cell("b", 1, 1)),
               Placement(0, 1, Cell("c", 1, 1)), Placement(1, 1, Cell("d", 1, 1))];
    var place := PlaceIn(levels, levels);
    PlaceUnitCell(DetectedCell("a", Contour(0, 100, 0, 100)), levels, 0, 0);
    PlaceUnitCell(DetectedCell("b", Contour(0, 100, 100, 200)), levels, 1, 0);
    PlaceUnitCell(DetectedCell("c", Contour(100, 200, 0, 100)), levels, 0, 1);
    PlaceUnitCell(DetectedCell("d", Contour(100, 200, 100, 200)), levels, 1, 1);
    forall i | 0 <= i < |cells|
      ensures place(cells[i]) == Ok(ps[i])
    {
      assert i == 0 || i == 1 || i == 2 || i == 3;
    }
    MapAllAllOk(place, cells, ps);
  }

  /** The ranks of the grid's coordinates on the levels 0, 100 and 200. */
  lemma GridRanks()
    ensures FindFuzzyRank(0, [0, 100, 200]) == Ok(0)
    ensures FindFuzzyRank(100, [0, 100, 200]) == Ok(1)
    ensures FindFuzzyRank(200, [0, 100, 200]) == Ok(2)
  {
    var levels := [0, 100, 200];
    assert AreClose(levels[0], 0) && AreClose(levels[1], 100) && AreClose(levels[2], 200);
  }

  /** A cell whose far edges rank one after its near edges, on the same
      levels for both axes, is placed with both spans 1. */
  lemma PlaceUnitCell(d: DetectedCell, levels: seq<int>, row: nat, col: nat)
    requires FindFuzzyRank(d.contour.y0, levels) == Ok(row) && FindFuzzyRank(d.contour.y1, levels) == Ok(row + 1)
    requires FindFuzzyRank(d.contour.x0, levels) == Ok(col) && FindFuzzyRank(d.contour.x1, levels) == Ok(col + 1)
    ensures Place(d, levels, levels) == Ok(Placement(row, col, Cell(d.text, 1, 1)))
  {
  }

  /** The slots of those placements: a and c in row 0, b and d in row 1. */
  lemma GridSlots(ps: seq<Placement>)
    requires ps == [Placement(0, 0, Cell("a", 1, 1)), Placement(1, 0, Cell("b", 1, 1)),
                    Placement(0, 1, Cell("c", 1, 1)), Placement(1, 1, Cell("d", 1, 1))]
    ensures RowSlot(ps, 0) == [(0, Cell("a", 1, 1)), (1, Cell("c", 1, 1))]
    ensures RowSlot(ps, 1) == [(0, Cell("b", 1, 1)), (1, Cell("d", 1, 1))]
    ensures RowSlot(ps, 2) == []
  {
    var p1, p2, p3 := ps[..1], ps[..2], ps[..3];
    assert p3[..2] == p2 && p2[..1] == p1 && p1[..0] == [] && ps[..3] == p3;
    RowSlotEmpty(p1, 1);
    assert RowSlot(p1, 0) == [(0, Cell("a", 1, 1))];
    assert RowSlot(p2, 0) == [(0, Cell("a", 1, 1))] && RowSlot(p2, 1) == [(0, Cell("b", 1, 1))];
    assert RowSlot(p3, 0) == [(0, Cell("a", 1, 1)), (1, Cell("c", 1, 1))];
    assert RowSlot(p3, 1) == [(0, Cell("b", 1, 1))];
    RowSlotEmpty(ps, 2);
  }

  /** Two entries already in column order stay in that order. */
  lemma SortTwo(x: (nat, Cell), y: (nat, Cell))
    requires x.0 <= y.0
    ensures SortBy([x, y], ColOf) == [x, y]
  {
    assert [x, y][..1] == [x] && [x][..0] == [];
    assert SortBy([x], ColOf) == InsertBy([], x, ColOf) == [x];
    assert SortBy([x, y], ColOf) == InsertBy(SortBy([x], ColOf), y, ColOf);
    assert ColOf([x][0]) <= ColOf(y);
    assert InsertBy([x], y, ColOf) == [x] + [y] == [x, y];
  }

  /** The rows of those placements on three horizontal levels. */
  lemma GridRows(ps: seq<Placement>)
    requires ps == [Placement(0, 0, Cell("a", 1, 1)), Placement(1, 0, Cell("b", 1, 1)),
                    Placement(0, 1, Cell("c", 1, 1)), Placement(1, 1, Cell("d", 1, 1))]
    ensures AssembleRows(ps, 3) == [Row([Cell("a", 1, 1), Cell("c", 1, 1)], false, None),
                                    Row([Cell("b", 1, 1), Cell("d", 1, 1)], false, None)]
  {
    var a, b, c, d := Cell("a", 1, 1), Cell("b", 1, 1), Cell("c", 1, 1), Cell("d", 1, 1);
    GridSlots(ps);
    SortTwo((0, a), (1, c));
    SortTwo((0, b), (1, d));
    assert Map(CellOf, [(0, a), (1, c)]) == [a, c];
    assert Map(CellOf, [(0, b), (1, d)]) == [b, d];
    assert AssembleRows(ps, 1) == [Row([a, c], false, None)];
    assert AssembleRows(ps, 2) == [Row([a, c], false, None), Row([b, d], false, None)];
  }

  /** The box of the levels 0, 100 and 200: it starts at 0 and spans 200. */
  lemma GridBox()
    ensures Min([0, 100, 200]) == Ok(0) && Radius([0, 100, 200]) == Ok(200)
  {
    assert [0, 100, 200][1..] == [100, 200] && [100, 200][1..] == [200];
  }

  /** tests/test_table_extraction.py, lines 187-197, with the border levels
      the three clusters of each axis give written out. */
  lemma AssembleGridExample()
    ensures Assemble(GridCells(), [0, 100, 200], [0, 100, 200])
        == Ok(LocatedTable(Table([
             Row([Cell("a", 1, 1), Cell("c", 1, 1)], false, None),
             Row([Cell("b", 1, 1), Cell("d", 1, 1)], false, None)]), 0, 0, 200, 200))
  {
    var ps := [Placement(0, 0, Cell("a", 1, 1)), Placement(1, 0, Cell("b", 1, 1)),
               Placement(0, 1, Cell("c", 1, 1)), Placement(1, 1, Cell("d", 1, 1))];
    GridPlacements();
    GridRows(ps);
    GridBox();
  }

  /** tests/test_table_extraction.py, lines 211-220: the cell 'b' spans the
      first two of the levels 0, 100 and 199, so it is Cell('b', 2, 1), two
      columns wide and one row high, on the levels 1, 100 and 200. */
  lemma PlaceMergedExample()
    ensures Place(DetectedCell("b", Contour(0, 199, 100, 200)), [1, 100, 200], [0, 100, 199])
         == Ok(Placement(1, 0, Cell("b", 2, 1)))
  {
    assert AreClose([1, 100, 200][1], 100) && AreClose([1, 100, 200][2], 200);
    assert AreClose([0, 100, 199][0], 0) && AreClose([0, 100, 199][2], 199);
  }
}
