/** The tables the engine emits (models.py) and their conversion to and from
    plain records, the dictionaries dataclasses.asdict produces and JSON
    stores.

    A record is a map from field name to value: Python compares dictionaries
    without regard to key order.  from_dict passes a record's fields as
    keyword arguments to the class, so an unknown field is refused, a field
    without a default must be present, and the others fall back to their
    defaults. */
module Models {
  import opened Outcome
  import opened Builtins

  /** A cell: its text, then the number of columns and of rows it covers. */
  datatype Cell = Cell(content: string, colspan: int, rowspan: int)

  datatype Row = Row(cells: seq<Cell>, isHeader: bool, textInInspectionSheet: Option<string>)

  datatype Table = Table(rows: seq<Row>)

  /** The values a record can hold. */
  datatype Value =
    | Null
    | Bool(b: bool)
    | Int(i: int)
    | Str(s: string)
    | List(items: seq<Value>)
    | Record(fields: map<string, Value>)

  /** Calling a class with the fields of a record as keyword arguments: a
      keyword that is not a parameter is refused first, then a parameter
      without a default that is not given. */
  function ArgumentError(fields: map<string, Value>, params: set<string>, required: seq<string>): (e: Option<Error>)
    ensures e == None <==> fields.Keys <= params && forall k :: k in required ==> k in fields
  {
    if !(fields.Keys <= params) then Some(UnexpectedArguments(fields.Keys - params))
    else if required == [] then None
    else if required[0] !in fields then Some(MissingArgument(required[0]))
    else ArgumentError(fields, params, required[1..])
  }

  function AsString(v: Value, name: string): Result<string> {
    if v.Str? then Ok(v.s) else Err(WrongType(name))
  }

  function AsInt(v: Value, name: string): Result<int> {
    if v.Int? then Ok(v.i) else Err(WrongType(name))
  }

  function AsBool(v: Value, name: string): Result<bool> {
    if v.Bool? then Ok(v.b) else Err(WrongType(name))
  }

  /** An optional field: None by default, and None or a string when given. */
  function AsOptionalString(fields: map<string, Value>, name: string): Result<Option<string>> {
    if name !in fields || fields[name] == Null then Ok(None)
    else if fields[name].Str? then Ok(Some(fields[name].s))
    else Err(WrongType(name))
  }

  /** An int field with a default. */
  function IntOr(fields: map<string, Value>, name: string, default: int): Result<int> {
    if name in fields then AsInt(fields[name], name) else Ok(default)
  }

  const CellParams: set<string> := {"content", "colspan", "rowspan"}
  const RowParams: set<string> := {"cells", "is_header", "text_in_inspection_sheet"}

  /** What from_dict followed by asdict gives for a cell record: its fields,
      with colspan and rowspan at 1 where absent. */
  function CellDefaults(): map<string, Value> {
    map["colspan" := Int(1), "rowspan" := Int(1)]
  }

  /** asdict(cell) */
  function CellToRecord(c: Cell): Value {
    Record(map["content" := Str(c.content), "colspan" := Int(c.colspan), "rowspan" := Int(c.rowspan)])
  }

  /** Cell.from_dict: content is required, colspan and rowspan default to 1,
      and converting the cell back gives the record with those defaults
      filled in. */
  function CellFromRecord(v: Value): (r: Result<Cell>)
    ensures r.Ok? ==> v.Record? && CellToRecord(r.value) == Record(CellDefaults() + v.fields)
    ensures v.Record? && !(v.fields.Keys <= CellParams) ==>
      r == Err(UnexpectedArguments(v.fields.Keys - CellParams))
    ensures v.Record? && v.fields.Keys <= CellParams && "content" !in v.fields ==>
      r == Err(MissingArgument("content"))
  {
    if !v.Record? then Err(WrongType("cell"))
    else
      var fields := v.fields;
      var e := ArgumentError(fields, CellParams, ["content"]);
      if e.Some? then Err(e.value)
      else
        var content :- AsString(fields["content"], "content");
        var colspan :- IntOr(fields, "colspan", 1);
        var rowspan :- IntOr(fields, "rowspan", 1);
        assert CellToRecord(Cell(content, colspan, rowspan)).fields == CellDefaults() + fields;
        Ok(Cell(content, colspan, rowspan))
  }

  /** asdict(row) */
  function RowToRecord(row: Row): Value {
    Record(map[
      "cells" := List(Map(CellToRecord, row.cells)),
      "is_header" := Bool(row.isHeader),
      "text_in_inspection_sheet" := match row.textInInspectionSheet
        case None => Null
        case Some(s) => Str(s)])
  }

  /** Row.from_dict: every cell record converted by Cell.from_dict, in order
      and none dropped; is_header is required and text_in_inspection_sheet
      defaults to None. */
  function RowFromRecord(v: Value): (r: Result<Row>)
    ensures r.Ok? ==> && v.Record? && "cells" in v.fields && v.fields["cells"].List?
                      && |r.value.cells| == |v.fields["cells"].items|
                      && (forall i :: 0 <= i < |r.value.cells| ==>
                            CellFromRecord(v.fields["cells"].items[i]) == Ok(r.value.cells[i]))
                      && v.fields.Keys <= RowParams
                      && "is_header" in v.fields && v.fields["is_header"] == Bool(r.value.isHeader)
                      && (r.value.textInInspectionSheet == None <==>
                            "text_in_inspection_sheet" !in v.fields || v.fields["text_in_inspection_sheet"] == Null)
                      && (r.value.textInInspectionSheet.Some? ==>
                            v.fields["text_in_inspection_sheet"] == Str(r.value.textInInspectionSheet.value))
    ensures v.Record? && "cells" !in v.fields ==> r == Err(MissingKey("cells"))
    // The cells are converted before the class is called, so the argument
    // errors surface only once every cell record has converted.
    ensures v.Record? && "cells" in v.fields && v.fields["cells"].List?
            && MapAll(CellFromRecord, v.fields["cells"].items).Ok? ==>
              && (!(v.fields.Keys <= RowParams) ==> r == Err(UnexpectedArguments(v.fields.Keys - RowParams)))
              && (v.fields.Keys <= RowParams && "is_header" !in v.fields ==> r == Err(MissingArgument("is_header")))
  {
    if !v.Record? then Err(WrongType("row"))
    else if "cells" !in v.fields then Err(MissingKey("cells"))
    else if !v.fields["cells"].List? then Err(WrongType("cells"))
    else
      var cells :- MapAll(CellFromRecord, v.fields["cells"].items);
      var fields := v.fields;
      var e := ArgumentError(fields, RowParams, ["cells", "is_header"]);
      if e.Some? then
        assert fields.Keys <= RowParams ==> e == ArgumentError(fields, RowParams, ["is_header"]) by {
          assert ["cells", "is_header"][1..] == ["is_header"];
        }
        Err(e.value)
      else
        var isHeader :- AsBool(fields["is_header"], "is_header");
        var text :- AsOptionalString(fields, "text_in_inspection_sheet");
        Ok(Row(cells, isHeader, text))
  }

  /** Table.to_dict */
  function TableToRecord(t: Table): Value {
    Record(map["rows" := List(Map(RowToRecord, t.rows))])
  }

  /** Table.from_dict: one row per row record, in order; the table record's
      other fields are ignored. */
  function TableFromRecord(v: Value): (r: Result<Table>)
    ensures r.Ok? ==> && v.Record? && "rows" in v.fields && v.fields["rows"].List?
                      && |r.value.rows| == |v.fields["rows"].items|
                      && forall i :: 0 <= i < |r.value.rows| ==>
                           RowFromRecord(v.fields["rows"].items[i]) == Ok(r.value.rows[i])
    ensures v.Record? && "rows" !in v.fields ==> r == Err(MissingKey("rows"))
  {
    if !v.Record? then Err(WrongType("table"))
    else if "rows" !in v.fields then Err(MissingKey("rows"))
    else if !v.fields["rows"].List? then Err(WrongType("rows"))
    else
      var rows :- MapAll(RowFromRecord, v.fields["rows"].items);
      Ok(Table(rows))
  }

  lemma CellRoundTrip(c: Cell)
    ensures CellFromRecord(CellToRecord(c)) == Ok(c)
  {
    var fields := CellToRecord(c).fields;
    assert ArgumentError(fields, CellParams, ["content"]) == None;
  }

  lemma RowRoundTrip(row: Row)
    ensures RowFromRecord(RowToRecord(row)) == Ok(row)
  {
    forall c | c in row.cells ensures CellFromRecord(CellToRecord(c)) == Ok(c) {
      CellRoundTrip(c);
    }
    MapAllInverse(CellFromRecord, CellToRecord, row.cells);
    RowRecordFields(row);
  }

  /** The fields of a row's record give back its header flag and its
      inspection-sheet text. */
  lemma RowRecordFields(row: Row)
    ensures var fields := RowToRecord(row).fields;
      && "cells" in fields && fields["cells"] == List(Map(CellToRecord, row.cells))
      && ArgumentError(fields, RowParams, ["cells", "is_header"]) == None
      && AsBool(fields["is_header"], "is_header") == Ok(row.isHeader)
      && AsOptionalString(fields, "text_in_inspection_sheet") == Ok(row.textInInspectionSheet)
  {
    var fields := RowToRecord(row).fields;
    assert fields.Keys == RowParams;
  }

  /** Table.from_dict(t.to_dict()) == t */
  lemma TableRoundTrip(t: Table)
    ensures TableFromRecord(TableToRecord(t)) == Ok(t)
  {
    forall row | row in t.rows ensures RowFromRecord(RowToRecord(row)) == Ok(row) {
      RowRoundTrip(row);
    }
    MapAllInverse(RowFromRecord, RowToRecord, t.rows);
  }

  /** The defaults of the dataclasses, and the errors of a record that lacks
      a required field or has an unknown one. */
  lemma RecordDefaults(content: string, cells: seq<Cell>)
    ensures CellFromRecord(Record(map["content" := Str(content)])) == Ok(Cell(content, 1, 1))
    ensures CellFromRecord(Record(map["colspan" := Int(2)])) == Err(MissingArgument("content"))
    ensures CellFromRecord(Record(map["content" := Str(content), "width" := Int(2)]))
      == Err(UnexpectedArguments({"width"}))
    ensures RowFromRecord(Record(map["cells" := List([]), "is_header" := Bool(false)])) == Ok(Row([], false, None))
    ensures RowFromRecord(Record(map["cells" := List([])])) == Err(MissingArgument("is_header"))
  {
    var f1 := map["content" := Str(content)];
    assert ArgumentError(f1, CellParams, ["content"]) == None;
    var f2: map<string, Value> := map["colspan" := Int(2)];
    assert f2.Keys - CellParams == {};
    var f3 := map["content" := Str(content), "width" := Int(2)];
    assert f3.Keys - CellParams == {"width"};
    var f4 := map["cells" := List([]), "is_header" := Bool(false)];
    assert ArgumentError(f4, RowParams, ["cells", "is_header"]) == None;
    var f5: map<string, Value> := map["cells" := List([])];
    assert f5.Keys - RowParams == {};
  }
}
