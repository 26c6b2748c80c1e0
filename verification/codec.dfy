/**
 * The spreadsheet import/export (`data_to_excel` / `excel_to_data`), stated on
 * the sheet's cell table rather than on xlsx bytes: a header row of column
 * names and data rows of cells. A cell is a number, a text, or blank (what
 * pandas reads as NaN).
 */
module ExcelCodec {
  import opened Wrappers
  import opened Strings
  import opened Grid
  import opened TimeAxis

  datatype Cell = Num(num: real) | Text(text: string) | Empty

  /** One sheet: column names, then one sequence of cells per data row. */
  datatype Table = Table(header: seq<string>, rows: seq<seq<Cell>>)

  const TimeHeader: string := "时间点"
  const Sep: string := " - "
  const ScoreField: string := "得分"
  const NoteField: string := "说明"

  function ScoreHeader(item: string): string {
    item + Sep + ScoreField
  }

  function NoteHeader(item: string): string {
    item + Sep + NoteField
  }

  /**
   * The strings `read_excel` reads as NaN under pandas' default `na_values`:
   * a text cell holding one of them comes back blank.
   */
  const NaStrings: set<string> := {
    "", "#N/A", "#N/A N/A", "#NA", "-1.#IND", "-1.#QNAN", "-NaN", "-nan", "1.#IND", "1.#QNAN",
    "<NA>", "N/A", "NA", "NULL", "NaN", "None", "n/a", "nan", "null"
  }

  predicate ReadsAsBlank(s: string) {
    s in NaStrings
  }

  /** Every time point reads back as itself rather than as a blank cell. */
  predicate ReadableLabels(tps: seq<string>) {
    forall tp :: tp in tps ==> !ReadsAsBlank(tp)
  }

  /** How a written string reads back: one of the NA strings comes back as a blank cell, any other as itself. */
  function TextCell(s: string): Cell {
    if ReadsAsBlank(s) then Empty else Text(s)
  }

  /** The entry the importer makes of an exported one: the same score, and `""` for a note that reads as blank. */
  function ReadBack(e: Entry): Entry {
    if ReadsAsBlank(e.note) then Entry(e.score, "") else e
  }

  // ----- data_to_excel -----

  /** The exporter's value for a missing (item, time point): score 0.0, empty note. */
  const ExportDefault: Entry := Entry(0.0, "")

  /** `data.get(item, {}).get(tp, {})` with the exporter's defaults filled in. */
  function Lookup(data: Data, item: string, tp: string): Entry {
    if item in data && tp in data[item] then data[item][tp] else ExportDefault
  }

  /**
   * The items in order of first occurrence. The exporter builds each row as a
   * dict keyed by column name, so a repeated item adds no second pair of columns.
   */
  function Dedup(items: seq<string>): (d: seq<string>)
    ensures Distinct(d)
    ensures SetOf(d) == SetOf(items)
    ensures Distinct(items) ==> d == items
    decreases |items|
  {
    if |items| == 0 then []
    else
      var init := items[..|items| - 1];
      var prefix := Dedup(init);
      var last := items[|items| - 1];
      assert items == init + [last];
      assert SetOf(items) == SetOf(init) + {last};
      var d := if last in prefix then prefix else prefix + [last];
      assert SetOf(d) == SetOf(prefix) + {last};
      d
  }

  /** The position of the first occurrence of `x` in `xs`: the column `ColumnIndex` finds. */
  function FirstIndex(xs: seq<string>, x: string): (r: nat)
    requires x in xs
    ensures r < |xs| && xs[r] == x && x !in xs[..r]
  {
    var r := ColumnIndex(xs, x).value;
    assert forall j :: 0 <= j < r ==> xs[..r][j] == xs[j];
    r
  }

  /** A position holding `x` with no `x` before it is the first occurrence. */
  lemma FirstIndexUnique(xs: seq<string>, x: string, r: nat)
    requires r < |xs| && xs[r] == x && x !in xs[..r]
    ensures FirstIndex(xs, x) == r
  {
  }

  /** Appending keeps the first occurrence of anything already present. */
  lemma FirstIndexAppend(xs: seq<string>, last: string, x: string)
    requires x in xs
    ensures FirstIndex(xs + [last], x) == FirstIndex(xs, x)
  {
    var r := FirstIndex(xs, x);
    assert (xs + [last])[..r] == xs[..r];
    FirstIndexUnique(xs + [last], x, r);
  }

  /**
   * `Dedup` keeps the items in the order of their first occurrence, which is the
   * order in which the exporter's row dict first sees each column.
   */
  lemma {:induction false} DedupOrder(items: seq<string>)
    ensures forall i :: 0 <= i < |Dedup(items)| ==> Dedup(items)[i] in items
    ensures forall i, j :: 0 <= i < j < |Dedup(items)| ==>
              FirstIndex(items, Dedup(items)[i]) < FirstIndex(items, Dedup(items)[j])
    decreases |items|
  {
    var d := Dedup(items);
    if |items| > 0 {
      var init := items[..|items| - 1];
      var last := items[|items| - 1];
      var prefix := Dedup(init);
      assert items == init + [last];
      DedupOrder(init);
      forall i | 0 <= i < |prefix|
        ensures prefix[i] in items && FirstIndex(items, prefix[i]) == FirstIndex(init, prefix[i])
      {
        FirstIndexAppend(init, last, prefix[i]);
      }
      if last in prefix {
        assert d == prefix;
      } else {
        assert d == prefix + [last];
        assert last !in init by {
          assert last !in SetOf(prefix);
          assert SetOf(prefix) == SetOf(init);
          assert last !in SetOf(init);
        }
        assert items[..|init|] == init;
        FirstIndexUnique(items, last, |init|);
        forall i, j | 0 <= i < j < |d|
          ensures FirstIndex(items, d[i]) < FirstIndex(items, d[j])
        {
          if j == |prefix| {
            assert d[i] == prefix[i];
          } else {
            assert d[i] == prefix[i] && d[j] == prefix[j];
          }
        }
      }
    }
  }

  /** The item columns: each item's score column immediately followed by its note column. */
  function ItemColumns(items: seq<string>): (cols: seq<string>)
    ensures |cols| == 2 * |items|
    ensures forall j :: 0 <= j < |items| ==> cols[2 * j] == ScoreHeader(items[j]) && cols[2 * j + 1] == NoteHeader(items[j])
    decreases |items|
  {
    if |items| == 0 then []
    else [ScoreHeader(items[0]), NoteHeader(items[0])] + ItemColumns(items[1..])
  }

  /** The column names: `时间点`, then column `1 + 2j` is item `j`'s score, column `2 + 2j` its note. */
  function Header(items: seq<string>): seq<string> {
    [TimeHeader] + ItemColumns(items)
  }

  /** The score and note cells of one row, in the order of `ItemColumns`. */
  function ItemCells(data: Data, items: seq<string>, tp: string): (cells: seq<Cell>)
    ensures |cells| == 2 * |items|
    ensures forall j :: 0 <= j < |items| ==>
              && cells[2 * j] == Num(Lookup(data, items[j], tp).score)
              && cells[2 * j + 1] == TextCell(Lookup(data, items[j], tp).note)
    decreases |items|
  {
    if |items| == 0 then []
    else
      var e := Lookup(data, items[0], tp);
      [Num(e.score), TextCell(e.note)] + ItemCells(data, items[1..], tp)
  }

  /** The row written for time point `tp`: its label, then the cells under `ItemColumns(items)`. */
  function Row(data: Data, items: seq<string>, tp: string): seq<Cell> {
    [TextCell(tp)] + ItemCells(data, items, tp)
  }

  /** The sheet the exporter writes: `时间点` first, then each item's score and note, one row per time point. */
  function EncodeTable(data: Data, items: seq<string>, tps: seq<string>): (t: Table)
    ensures t.header == Header(Dedup(items))
    ensures |t.rows| == |tps|
    ensures forall i :: 0 <= i < |tps| ==> t.rows[i] == Row(data, Dedup(items), tps[i])
    ensures |t.header| == 1 + 2 * |Dedup(items)| && t.header[0] == TimeHeader
    ensures forall m :: 0 <= m < |Dedup(items)| ==>
              t.header[1 + 2 * m] == ScoreHeader(Dedup(items)[m]) && t.header[2 + 2 * m] == NoteHeader(Dedup(items)[m])
    ensures forall i :: 0 <= i < |tps| ==> |t.rows[i]| == |t.header| && t.rows[i][0] == TextCell(tps[i])
    ensures forall i, m :: 0 <= i < |tps| && 0 <= m < |Dedup(items)| ==>
              && t.rows[i][1 + 2 * m] == Num(Lookup(data, Dedup(items)[m], tps[i]).score)
              && t.rows[i][2 + 2 * m] == TextCell(Lookup(data, Dedup(items)[m], tps[i]).note)
  {
    var d := Dedup(items);
    HeaderLayout(d);
    RowsLayout(data, d, tps);
    Table(Header(d), seq(|tps|, i requires 0 <= i < |tps| => Row(data, d, tps[i])))
  }

  /** Every item's two columns, as `HeaderAt` places them. */
  lemma HeaderLayout(items: seq<string>)
    ensures forall m :: 0 <= m < |items| ==>
              Header(items)[1 + 2 * m] == ScoreHeader(items[m]) && Header(items)[2 + 2 * m] == NoteHeader(items[m])
  {
    forall m | 0 <= m < |items|
      ensures Header(items)[1 + 2 * m] == ScoreHeader(items[m]) && Header(items)[2 + 2 * m] == NoteHeader(items[m])
    {
      HeaderAt(items, m);
    }
  }

  /** Every row's cells, as `RowAt` places them. */
  lemma RowsLayout(data: Data, items: seq<string>, tps: seq<string>)
    ensures forall i, m :: 0 <= i < |tps| && 0 <= m < |items| ==>
              && Row(data, items, tps[i])[1 + 2 * m] == Num(Lookup(data, items[m], tps[i]).score)
              && Row(data, items, tps[i])[2 + 2 * m] == TextCell(Lookup(data, items[m], tps[i]).note)
  {
    forall i, m | 0 <= i < |tps| && 0 <= m < |items|
      ensures && Row(data, items, tps[i])[1 + 2 * m] == Num(Lookup(data, items[m], tps[i]).score)
              && Row(data, items, tps[i])[2 + 2 * m] == TextCell(Lookup(data, items[m], tps[i]).note)
    {
      RowAt(data, items, tps[i], m);
    }
  }

  /** The exception the exporter raises: selecting `['时间点']` from a frame with no columns. */
  datatype EncodeError = NoTimeColumn

  /**
   * `data_to_excel` as written. With no time points there are no rows, the
   * frame built from them has no columns, and selecting the `时间点` column
   * raises; otherwise the sheet is `EncodeTable`.
   */
  function DataToExcel(data: Data, items: seq<string>, tps: seq<string>): (r: Result<Table, EncodeError>)
    ensures r.Failure? <==> |tps| == 0
    ensures r.Success? ==> r.value == EncodeTable(data, items, tps)
  {
    if |tps| == 0 then Failure(NoTimeColumn) else Success(EncodeTable(data, items, tps))
  }

  /** An export of an empty time axis fails, whatever the items and data. */
  lemma EmptyAxisExportFails(data: Data, items: seq<string>)
    ensures DataToExcel(data, items, []) == Failure(NoTimeColumn)
    ensures EncodeTable(data, items, []).rows == []
  {
  }

  // ----- excel_to_data -----

  /** How the importer turns cell values into Python values it cannot see into here. */
  datatype Coercions = Coercions(
    /** `str(x)` of a number read from the sheet. */
    showNum: real -> string,
    /** `float(s)` of a text cell; `None` where Python raises `ValueError`. */
    parseNum: string -> Option<real>)

  /** The exceptions the importer raises. */
  datatype DecodeError = MissingTimeColumn | MalformedScore

  /** The importer's result: the item-to-entries map and the item set. */
  datatype Decoded = Decoded(data: Data, items: set<string>)

  /** The first column with this name; pandas' `row[name]` reads that one. */
  function ColumnIndex(header: seq<string>, name: string): (r: Option<nat>)
    ensures r.Some? ==> r.value < |header| && header[r.value] == name
    ensures r.Some? ==> forall j :: 0 <= j < r.value ==> header[j] != name
    ensures r.None? <==> name !in header
    decreases |header|
  {
    if |header| == 0 then None
    else if header[0] == name then Some(0)
    else match ColumnIndex(header[1..], name)
      case None => None
      case Some(j) => Some(j + 1)
  }

  /** A row's cell in column `j`; pandas fills a short row with NaN. */
  function CellAt(row: seq<Cell>, j: nat): Cell {
    if j < |row| then row[j] else Empty
  }

  /** `row.get(name)`: the cell under that column, or `None` when there is no such column. */
  function Field(header: seq<string>, row: seq<Cell>, name: string): (r: Option<Cell>)
    ensures r.None? <==> name !in header
  {
    match ColumnIndex(header, name)
    case None => None
    case Some(j) => Some(CellAt(row, j))
  }

  /** A column that names an item: not `时间点`, and containing `" - "`. */
  predicate IsItemColumn(h: string) {
    h != TimeHeader && Contains(h, Sep)
  }

  /** `h.rsplit(" - ", 1)[0]`: what precedes the last `" - "`. */
  function ItemOfColumn(h: string): string
    requires Contains(h, Sep)
  {
    h[..LastOccurrence(h, Sep).value]
  }

  /** The item set the importer extracts from the column names. */
  function ItemsOf(header: seq<string>): (items: set<string>)
    ensures forall item :: item in items <==>
              exists j :: 0 <= j < |header| && IsItemColumn(header[j]) && ItemOfColumn(header[j]) == item
  {
    var items := set h | h in header && IsItemColumn(h) :: ItemOfColumn(h);
    assert forall j :: 0 <= j < |header| && IsItemColumn(header[j]) ==> ItemOfColumn(header[j]) in items;
    items
  }

  /** `str(cell)`: a blank cell is NaN, which prints as `nan`. */
  function Stringify(c: Cell, co: Coercions): string {
    match c
    case Empty => "nan"
    case Text(s) => s
    case Num(x) => co.showNum(x)
  }

  /** `float(row.get(score_col, 0.0))` after the NaN check; `None` where `float` raises. */
  function ScoreOf(field: Option<Cell>, co: Coercions): Option<real> {
    match field
    case None => Some(0.0)
    case Some(Empty) => Some(0.0)
    case Some(Num(x)) => Some(x)
    case Some(Text(s)) => co.parseNum(s)
  }

  /** `str(row.get(note_col, ""))` after the NaN check. */
  function NoteOf(field: Option<Cell>, co: Coercions): string {
    match field
    case None => ""
    case Some(Empty) => ""
    case Some(c) => Stringify(c, co)
  }

  /** The time point key of a row: `str(row['时间点'])`. */
  function RowLabel(header: seq<string>, row: seq<Cell>, co: Coercions): string
    requires TimeHeader in header
  {
    Stringify(CellAt(row, ColumnIndex(header, TimeHeader).value), co)
  }

  /** The entry one row gives one item; `None` where the score cannot be read as a number. */
  function RowEntry(header: seq<string>, row: seq<Cell>, item: string, co: Coercions): Option<Entry> {
    match ScoreOf(Field(header, row, ScoreHeader(item)), co)
    case None => None
    case Some(score) => Some(Entry(score, NoteOf(Field(header, row, NoteHeader(item)), co)))
  }

  /** Row `k` is the last one with its time point label. */
  predicate LastWithLabel(header: seq<string>, rows: seq<seq<Cell>>, k: int, co: Coercions)
    requires TimeHeader in header
    requires 0 <= k < |rows|
  {
    forall k' :: k < k' < |rows| ==> RowLabel(header, rows[k'], co) != RowLabel(header, rows[k], co)
  }

  /**
   * The importer's row loop for one item: each row stores its entry under its
   * label, a later row overwriting an earlier one with the same label.
   */
  function ItemEntries(header: seq<string>, rows: seq<seq<Cell>>, item: string, co: Coercions): Option<ItemData>
    requires |rows| == 0 || TimeHeader in header
    decreases |rows|
  {
    if |rows| == 0 then Some(map[])
    else
      match ItemEntries(header, rows[..|rows| - 1], item, co)
      case None => None
      case Some(m) =>
        match RowEntry(header, rows[|rows| - 1], item, co)
        case None => None
        case Some(e) => Some(m[RowLabel(header, rows[|rows| - 1], co) := e])
  }

  /** The labels of all rows. */
  function RowLabels(header: seq<string>, rows: seq<seq<Cell>>, co: Coercions): set<string>
    requires |rows| == 0 || TimeHeader in header
  {
    set k | 0 <= k < |rows| :: RowLabel(header, rows[k], co)
  }

  /** The row loop succeeds exactly when every row's score reads as a number. */
  lemma {:induction false} ItemEntriesSucceeds(header: seq<string>, rows: seq<seq<Cell>>, item: string, co: Coercions)
    requires |rows| == 0 || TimeHeader in header
    ensures ItemEntries(header, rows, item, co).Some? <==>
              forall k :: 0 <= k < |rows| ==> RowEntry(header, rows[k], item, co).Some?
    decreases |rows|
  {
    if |rows| > 0 {
      var init := rows[..|rows| - 1];
      ItemEntriesSucceeds(header, init, item, co);
      assert forall k :: 0 <= k < |init| ==> init[k] == rows[k];
    }
  }

  /** On success the loop holds one key per distinct row label. */
  lemma {:induction false} ItemEntriesKeys(header: seq<string>, rows: seq<seq<Cell>>, item: string, co: Coercions)
    requires |rows| == 0 || TimeHeader in header
    requires ItemEntries(header, rows, item, co).Some?
    ensures ItemEntries(header, rows, item, co).value.Keys == RowLabels(header, rows, co)
    decreases |rows|
  {
    if |rows| > 0 {
      var init := rows[..|rows| - 1];
      ItemEntriesKeys(header, init, item, co);
      assert forall k :: 0 <= k < |init| ==> init[k] == rows[k];
      assert RowLabels(header, rows, co) == RowLabels(header, init, co) + {RowLabel(header, rows[|rows| - 1], co)};
    }
  }

  /** On success each label holds the entry of the last row carrying it: later rows overwrite earlier ones. */
  lemma {:induction false} ItemEntriesLastRowWins(header: seq<string>, rows: seq<seq<Cell>>, item: string, co: Coercions, k: nat)
    requires TimeHeader in header
    requires ItemEntries(header, rows, item, co).Some?
    requires k < |rows| && LastWithLabel(header, rows, k, co)
    ensures RowEntry(header, rows[k], item, co).Some?
    ensures var m := ItemEntries(header, rows, item, co).value;
            RowLabel(header, rows[k], co) in m && m[RowLabel(header, rows[k], co)] == RowEntry(header, rows[k], item, co).value
    decreases |rows|
  {
    var init := rows[..|rows| - 1];
    if k < |rows| - 1 {
      assert forall j :: 0 <= j < |init| ==> init[j] == rows[j];
      assert LastWithLabel(header, init, k, co);
      ItemEntriesLastRowWins(header, init, item, co, k);
    }
  }

  /**
   * `excel_to_data`: the items are the column-name prefixes and each one gets
   * the row loop's entries. A sheet with rows but no `时间点` column raises, and so
   * does a score cell `float` cannot read.
   */
  function ExcelToData(t: Table, co: Coercions): (r: Result<Decoded, DecodeError>)
    ensures r == Failure(MissingTimeColumn) <==> |t.rows| > 0 && TimeHeader !in t.header
    ensures r.Success? ==> r.value.items == ItemsOf(t.header) && r.value.data.Keys == r.value.items
    ensures r.Success? ==> forall item :: item in r.value.items ==>
              ItemEntries(t.header, t.rows, item, co) == Some(r.value.data[item])
    ensures r.Failure? && r.error == MalformedScore ==>
              exists item :: item in ItemsOf(t.header) && ItemEntries(t.header, t.rows, item, co).None?
  {
    var items := ItemsOf(t.header);
    if |t.rows| > 0 && TimeHeader !in t.header then Failure(MissingTimeColumn)
    else
      if exists item | item in items :: ItemEntries(t.header, t.rows, item, co).None? then Failure(MalformedScore)
      else Success(Decoded(map item | item in items :: ItemEntries(t.header, t.rows, item, co).value, items))
  }

  // ----- The round trip -----

  /**
   * In `item + " - " + field` with a two-character field not starting with `-`,
   * the last `" - "` is the one the exporter put there, so `rsplit` gives back
   * the item even when the item itself contains `" - "`.
   */
  lemma ItemOfExportedColumn(item: string, field: string)
    requires |field| == 2 && field[0] != '-'
    ensures IsItemColumn(item + Sep + field)
    ensures ItemOfColumn(item + Sep + field) == item
  {
    var h := item + Sep + field;
    assert h[|item|..|item| + 3] == Sep;
    assert OccursAt(h, Sep, |item|);
    var p := LastOccurrence(h, Sep).value;
    assert h[|item| + 1] == '-' && h[|item| + 2] == ' ' && h[|item| + 3] == field[0];
    assert h[..p] == item;
  }

  lemma ExportedColumnsNamed(item: string)
    ensures IsItemColumn(ScoreHeader(item)) && ItemOfColumn(ScoreHeader(item)) == item
    ensures IsItemColumn(NoteHeader(item)) && ItemOfColumn(NoteHeader(item)) == item
  {
    ItemOfExportedColumn(item, ScoreField);
    ItemOfExportedColumn(item, NoteField);
  }

  /** The exporter's column names are pairwise different when its items are. */
  lemma HeaderDistinct(items: seq<string>)
    requires Distinct(items)
    ensures Distinct(Header(items))
  {
    var h := Header(items);
    forall a, b | 0 <= a < b < |h|
      ensures h[a] != h[b]
    {
      ExportedColumn(items, b);
      var jb := (b - 1) / 2;
      assert b - 1 == 2 * jb || b - 1 == 2 * jb + 1;
      assert h[b] == (if (b - 1) % 2 == 0 then ScoreHeader(items[jb]) else NoteHeader(items[jb]));
      if a == 0 {
        assert |h[b]| >= 5;
      } else {
        ExportedColumn(items, a);
        var ja := (a - 1) / 2;
        assert a - 1 == 2 * ja || a - 1 == 2 * ja + 1;
        assert h[a] == (if (a - 1) % 2 == 0 then ScoreHeader(items[ja]) else NoteHeader(items[ja]));
        if ja != jb {
          assert ItemOfColumn(h[a]) != ItemOfColumn(h[b]);
        } else {
          assert (a - 1) % 2 == 0 && (b - 1) % 2 == 1;
          assert h[a][|h[a]| - 1] == '分' && h[b][|h[b]| - 1] == '明';
        }
      }
    }
  }

  /** In a header with no repeated name, the column a name is read from is the one carrying it. */
  lemma ColumnIndexOfDistinct(header: seq<string>, p: nat)
    requires Distinct(header) && p < |header|
    ensures ColumnIndex(header, header[p]) == Some(p)
  {
  }

  /** Every exported column after `时间点` names the item it was written for. */
  lemma ExportedColumn(items: seq<string>, j: nat)
    requires 1 <= j < |Header(items)|
    ensures (j - 1) / 2 < |items|
    ensures IsItemColumn(Header(items)[j]) && ItemOfColumn(Header(items)[j]) == items[(j - 1) / 2]
  {
    var m := (j - 1) / 2;
    assert j - 1 == 2 * m || j - 1 == 2 * m + 1;
    ExportedColumnsNamed(items[m]);
    assert Header(items)[j] == ScoreHeader(items[m]) || Header(items)[j] == NoteHeader(items[m]);
  }

  /** The importer recovers exactly the exported items from the exporter's column names. */
  lemma ItemsOfHeader(items: seq<string>)
    ensures ItemsOf(Header(items)) == SetOf(items)
  {
    var h := Header(items);
    forall x | x in ItemsOf(h)
      ensures x in SetOf(items)
    {
      var j :| 0 <= j < |h| && IsItemColumn(h[j]) && ItemOfColumn(h[j]) == x;
      assert j != 0;
      ExportedColumn(items, j);
    }
    forall x | x in SetOf(items)
      ensures x in ItemsOf(h)
    {
      var m :| 0 <= m < |items| && items[m] == x;
      ExportedColumnsNamed(x);
      assert h[1 + 2 * m] == ScoreHeader(x);
    }
  }

  /** An exported row reads back to its own time point. */
  lemma ExportedRowLabel(data: Data, items: seq<string>, tp: string, co: Coercions)
    requires !ReadsAsBlank(tp)
    ensures TimeHeader in Header(items)
    ensures RowLabel(Header(items), Row(data, items, tp), co) == tp
  {
    assert ColumnIndex(Header(items), TimeHeader) == Some(0);
  }

  /** Column `1 + 2m` of the exporter's header is item `m`'s score column, column `2 + 2m` its note column. */
  lemma HeaderAt(items: seq<string>, m: nat)
    requires m < |items|
    ensures 2 + 2 * m < |Header(items)|
    ensures Header(items)[1 + 2 * m] == ScoreHeader(items[m])
    ensures Header(items)[2 + 2 * m] == NoteHeader(items[m])
  {
    var cols := ItemColumns(items);
    assert cols[2 * m] == ScoreHeader(items[m]) && cols[2 * m + 1] == NoteHeader(items[m]);
    assert Header(items)[1 + 2 * m] == cols[2 * m];
    assert Header(items)[2 + 2 * m] == cols[2 * m + 1];
  }

  /** Cells `1 + 2m` and `2 + 2m` of an exported row hold item `m`'s score and note. */
  lemma RowAt(data: Data, items: seq<string>, tp: string, m: nat)
    requires m < |items|
    ensures 2 + 2 * m < |Row(data, items, tp)|
    ensures Row(data, items, tp)[1 + 2 * m] == Num(Lookup(data, items[m], tp).score)
    ensures Row(data, items, tp)[2 + 2 * m] == TextCell(Lookup(data, items[m], tp).note)
  {
    var cells := ItemCells(data, items, tp);
    assert cells[2 * m] == Num(Lookup(data, items[m], tp).score);
    assert cells[2 * m + 1] == TextCell(Lookup(data, items[m], tp).note);
    assert Row(data, items, tp)[1 + 2 * m] == cells[2 * m];
    assert Row(data, items, tp)[2 + 2 * m] == cells[2 * m + 1];
  }

  /** In an exported row, item `m`'s score and note columns read back the cells written for it. */
  lemma ExportedCells(data: Data, items: seq<string>, tp: string, m: nat)
    requires Distinct(items) && m < |items|
    ensures Field(Header(items), Row(data, items, tp), ScoreHeader(items[m])) == Some(Num(Lookup(data, items[m], tp).score))
    ensures Field(Header(items), Row(data, items, tp), NoteHeader(items[m])) == Some(TextCell(Lookup(data, items[m], tp).note))
  {
    var h := Header(items);
    HeaderDistinct(items);
    HeaderAt(items, m);
    RowAt(data, items, tp, m);
    ColumnIndexOfDistinct(h, 1 + 2 * m);
    ColumnIndexOfDistinct(h, 2 + 2 * m);
  }

  /** An exported row reads back, for each exported item, to the entry it was written from. */
  lemma ExportedRowEntry(data: Data, items: seq<string>, tp: string, m: nat, co: Coercions)
    requires Distinct(items) && m < |items|
    ensures RowEntry(Header(items), Row(data, items, tp), items[m], co) == Some(ReadBack(Lookup(data, items[m], tp)))
  {
    ExportedCells(data, items, tp, m);
  }

  /** The position of the last occurrence of `x` in `xs`. */
  function LastIndex(xs: seq<string>, x: string): (k: nat)
    requires x in xs
    ensures k < |xs| && xs[k] == x
    ensures forall j :: k < j < |xs| ==> xs[j] != x
    decreases |xs|
  {
    if xs[|xs| - 1] == x then |xs| - 1
    else
      assert x in xs[..|xs| - 1] by {
        var i :| 0 <= i < |xs| && xs[i] == x;
        assert xs[..|xs| - 1][i] == x;
      }
      LastIndex(xs[..|xs| - 1], x)
  }

  /** The exported rows carry exactly the exported time points as labels. */
  lemma ExportedLabels(data: Data, items: seq<string>, tps: seq<string>, co: Coercions)
    requires ReadableLabels(tps)
    ensures TimeHeader in EncodeTable(data, items, tps).header
    ensures RowLabels(EncodeTable(data, items, tps).header, EncodeTable(data, items, tps).rows, co) == SetOf(tps)
    ensures forall k :: 0 <= k < |tps| ==>
              RowLabel(EncodeTable(data, items, tps).header, EncodeTable(data, items, tps).rows[k], co) == tps[k]
  {
    var d := Dedup(items);
    var t := EncodeTable(data, items, tps);
    assert t.header[0] == TimeHeader;
    forall k | 0 <= k < |tps|
      ensures RowLabel(t.header, t.rows[k], co) == tps[k]
    {
      ExportedRowLabel(data, d, tps[k], co);
    }
    var labels := RowLabels(t.header, t.rows, co);
    forall tp | tp in SetOf(tps)
      ensures tp in labels
    {
      var k :| 0 <= k < |tps| && tps[k] == tp;
      assert RowLabel(t.header, t.rows[k], co) == tp;
    }
  }

  /** The row loop for one exported item reads back one entry per time point, the one the exporter wrote. */
  lemma ExportedItemEntries(data: Data, items: seq<string>, tps: seq<string>, x: string, co: Coercions)
    requires ReadableLabels(tps) && x in items
    ensures TimeHeader in EncodeTable(data, items, tps).header
    ensures var t := EncodeTable(data, items, tps);
            && ItemEntries(t.header, t.rows, x, co).Some?
            && ItemEntries(t.header, t.rows, x, co).value.Keys == SetOf(tps)
            && forall tp :: tp in tps ==> ItemEntries(t.header, t.rows, x, co).value[tp] == ReadBack(Lookup(data, x, tp))
  {
    var d := Dedup(items);
    var t := EncodeTable(data, items, tps);
    ExportedLabels(data, items, tps, co);
    assert x in SetOf(d);
    var m :| 0 <= m < |d| && d[m] == x;
    forall k | 0 <= k < |tps|
      ensures RowEntry(t.header, t.rows[k], x, co) == Some(ReadBack(Lookup(data, x, tps[k])))
    {
      ExportedRowEntry(data, d, tps[k], m, co);
    }
    ItemEntriesSucceeds(t.header, t.rows, x, co);
    ItemEntriesKeys(t.header, t.rows, x, co);
    forall tp | tp in tps
      ensures ItemEntries(t.header, t.rows, x, co).value[tp] == ReadBack(Lookup(data, x, tp))
    {
      var k := LastIndex(tps, tp);
      ItemEntriesLastRowWins(t.header, t.rows, x, co, k);
    }
  }

  /**
   * Importing an export gives back the exported items as a set, each with an
   * entry for every exported time point, equal to what the exporter wrote
   * (the stored entry, or score 0.0 and an empty note where there was none)
   * as it reads back: a note among the NA strings becomes `""`. A label among
   * the NA strings would be read back as `nan`, hence the requirement on `tps`.
   */
  lemma RoundTrip(data: Data, items: seq<string>, tps: seq<string>, co: Coercions)
    requires ReadableLabels(tps)
    ensures var r := ExcelToData(EncodeTable(data, items, tps), co);
            && r.Success?
            && r.value.items == SetOf(items)
            && (forall item :: item in r.value.items ==> r.value.data[item].Keys == SetOf(tps))
            && (forall item, tp :: item in items && tp in tps ==> r.value.data[item][tp] == ReadBack(Lookup(data, item, tp)))
  {
    ItemsOfHeader(Dedup(items));
    forall x | x in SetOf(items)
      ensures var t := EncodeTable(data, items, tps);
              && ItemEntries(t.header, t.rows, x, co).Some?
              && ItemEntries(t.header, t.rows, x, co).value.Keys == SetOf(tps)
              && forall tp :: tp in tps ==> ItemEntries(t.header, t.rows, x, co).value[tp] == ReadBack(Lookup(data, x, tp))
    {
      ExportedItemEntries(data, items, tps, x, co);
    }
  }

  /**
   * The law the source's round-trip test checks: with an entry for every
   * (item, time point), the import returns the same item set and, for every
   * pair, the same score, and the same note unless the note is one of the NA
   * strings, which comes back as `""`.
   */
  lemma RoundTripCovered(data: Data, items: seq<string>, tps: seq<string>, co: Coercions)
    requires ReadableLabels(tps)
    requires Covered(data, items, tps)
    ensures var r := ExcelToData(EncodeTable(data, items, tps), co);
            && r.Success?
            && r.value.items == SetOf(items)
            && (forall item :: item in items ==> r.value.data[item].Keys == SetOf(tps))
            && (forall item, tp :: item in items && tp in tps ==> r.value.data[item][tp].score == data[item][tp].score)
            && (forall item, tp :: item in items && tp in tps && !ReadsAsBlank(data[item][tp].note) ==>
                  r.value.data[item][tp] == data[item][tp])
            && (forall item, tp :: item in items && tp in tps && ReadsAsBlank(data[item][tp].note) ==>
                  r.value.data[item][tp].note == "")
  {
    RoundTrip(data, items, tps, co);
    forall item, tp | item in items && tp in tps
      ensures Lookup(data, item, tp) == data[item][tp]
      ensures ReadBack(data[item][tp]).score == data[item][tp].score
    {
    }
  }

  /** A generated time axis never holds an NA string, so its labels read back as themselves. */
  lemma GeneratedAxisReadable(start: Date, end: Date, granularity: string)
    ensures ReadableLabels(TimePoints(start, end, granularity))
  {
    TimePointsShaped(start, end, granularity);
    forall tp | tp in TimePoints(start, end, granularity)
      ensures !ReadsAsBlank(tp)
    {
      LabelShapedReadable(tp);
    }
  }

  /** No NA string is made of label characters only. */
  lemma LabelShapedReadable(s: string)
    requires LabelShaped(s)
    ensures !ReadsAsBlank(s)
  {
    assert LabelChar(s[0]);
    if |s| > 1 {
      assert LabelChar(s[1]);
    }
    if |s| > 2 {
      assert LabelChar(s[2]);
    }
  }
}
