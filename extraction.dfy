/** The cell-level part of extract_and_remove_tables (table_extraction.py,
    lines 315-319): the detected cells are grouped into tables with
    group_by_proximity and _are_neighbor, and one table is built per group,
    in the order of the groups. */
module Extraction {
  import opened Outcome
  import opened Builtins
  import opened Geometry
  import opened Borders
  import opened Connectivity
  import opened Grouping
  import opened Partition
  import opened TableBuilder

  /** _are_neighbor as the value handed to group_by_proximity. */
  function NeighborTest(): (DetectedCell, DetectedCell) -> bool {
    (cell, cell') => AreNeighbor(cell, cell')
  }

  /** The groups of cells that make up one table each. */
  ghost function TableGroups(cells: seq<DetectedCell>): seq<seq<DetectedCell>> {
    ProximityGroups(cells, NeighborTest())
  }

  /** _build_table as a value. */
  ghost function BuildOne(): seq<DetectedCell> -> Result<LocatedTable> {
    group => BuiltTable(group)
  }

  /** [_build_table(group) for group in grouped_cells]: the first group whose
      table cannot be built stops the extraction. */
  ghost function ExtractedTables(cells: seq<DetectedCell>): Result<seq<LocatedTable>> {
    MapAll(BuildOne(), TableGroups(cells))
  }

  /** The cell-level part of extract_and_remove_tables. */
  method ExtractTables(cells: seq<DetectedCell>) returns (r: Result<seq<LocatedTable>>)
    ensures r == ExtractedTables(cells)
  {
    var groups := GroupByProximity(cells, NeighborTest());
    r := BuildTables(groups);
  }

  /** The comprehension over the groups: one table per group, in order, until
      a group fails. */
  method BuildTables(groups: seq<seq<DetectedCell>>) returns (r: Result<seq<LocatedTable>>)
    ensures r == MapAll(BuildOne(), groups)
  {
    var tables := [];
    for u := 0 to |groups|
      invariant MapAll(BuildOne(), groups[..u]) == Ok(tables)
    {
      var table := BuildTable(groups[u]);
      if table.Err? {
        MapAllStepErr(BuildOne(), groups, u, tables);
        return Err(table.error);
      }
      MapAllStepOk(BuildOne(), groups, u, tables, table.value);
      tables := tables + [table.value];
    }
    assert groups[..|groups|] == groups;
    r := Ok(tables);
  }

  /** The texts of the cells of one table, row after row. */
  function TableTexts(t: LocatedTable): seq<string> {
    Map(CellContent, TableCells(t.table.rows))
  }

  /** The texts of a group of detected cells, in order. */
  function GroupTexts(group: seq<DetectedCell>): seq<string> {
    Map(CellText, group)
  }

  /** Lists that hold the same elements pointwise flatten to lists that hold
      the same elements. */
  lemma {:induction false} FlattenPointwise<T>(xs: seq<seq<T>>, ys: seq<seq<T>>)
    requires |xs| == |ys| && forall u :: 0 <= u < |xs| ==> multiset(xs[u]) == multiset(ys[u])
    ensures multiset(Flatten(xs)) == multiset(Flatten(ys))
  {
    if xs != [] {
      FlattenPointwise(xs[1..], ys[1..]);
    }
  }

  /** The texts of the groups, one group after the other, are the texts of
      the cells of all groups. */
  lemma {:induction false} GroupTextsFlatten(groups: seq<seq<DetectedCell>>)
    ensures Flatten(Map(GroupTexts, groups)) == Map(CellText, Flatten(groups))
  {
    if groups != [] {
      GroupTextsFlatten(groups[1..]);
      assert Map(GroupTexts, groups)[1..] == Map(GroupTexts, groups[1..]);
      MapConcat(CellText, groups[0], Flatten(groups[1..]));
    }
  }

  /** There is one table per group, each the table _build_table builds from
      that group; no cells give no tables. */
  lemma ExtractedTablesPerGroup(cells: seq<DetectedCell>)
    ensures cells == [] ==> ExtractedTables(cells) == Ok([])
    ensures ExtractedTables(cells).Ok? ==>
      && |ExtractedTables(cells).value| == |TableGroups(cells)|
      && forall u :: 0 <= u < |TableGroups(cells)| ==>
           BuiltTable(TableGroups(cells)[u]) == Ok(ExtractedTables(cells).value[u])
  {
    ProximityGroupsPermute(cells, NeighborTest());
  }

  /** Every detected cell ends up in exactly one table: the texts of all the
      tables' cells are the texts of the input cells, reordered. */
  lemma ExtractedTablesKeepEveryCell(cells: seq<DetectedCell>)
    requires ExtractedTables(cells).Ok?
    ensures multiset(Flatten(Map(TableTexts, ExtractedTables(cells).value))) == multiset(Map(CellText, cells))
  {
    var groups, tables := TableGroups(cells), ExtractedTables(cells).value;
    forall u | 0 <= u < |groups|
      ensures multiset(Map(TableTexts, tables)[u]) == multiset(Map(GroupTexts, groups)[u])
    {
      assert BuildOne()(groups[u]) == Ok(tables[u]);
      AssembleKeepsEveryCell(groups[u], BorderLevels(HorizontalEdges(groups[u])),
                             BorderLevels(VerticalEdges(groups[u])));
    }
    FlattenPointwise(Map(TableTexts, tables), Map(GroupTexts, groups));
    GroupTextsFlatten(groups);
    ProximityGroupsPermute(cells, NeighborTest());
    MapPermutation(CellText, Flatten(groups), cells);
  }

  /** Two cells that end up in different tables are not neighbours. */
  lemma SeparateTables(cells: seq<DetectedCell>, u: nat, w: nat, i: nat, j: nat)
    requires u < |TableGroups(cells)| && w < |TableGroups(cells)| && u != w
    requires i < |TableGroups(cells)[u]| && j < |TableGroups(cells)[w]|
    ensures !AreNeighbor(TableGroups(cells)[u][i], TableGroups(cells)[w][j])
  {
    var indexGroups := ProximityIndexGroups(|cells|, Links(cells, NeighborTest()));
    forall x, y ensures NeighborTest()(x, y) == NeighborTest()(y, x) {
      AreNeighborSymmetric(x, y);
    }
    assert indexGroups[u][i] in indexGroups[u] && indexGroups[w][j] in indexGroups[w];
    ProximityGroupsApart(cells, NeighborTest(), u, w, indexGroups[u][i], indexGroups[w][j]);
  }
}
