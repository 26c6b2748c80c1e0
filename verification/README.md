# MyDataTrace core in Dafny

MyDataTrace is a Streamlit app. It records a score (a real number) and a note
for each question ("题项") at each point of a time axis, draws the scores as
trajectories, and moves the grid to and from an Excel sheet. This project
models the parts of the app that are not UI:

- **Time axis** (`timeaxis.dfy`, module `TimeAxis`). `generate_time_points`
  turns a start date, an end date and a granularity name (`季度`, `月份`,
  `年度`) into the labels `"YYYYQn"`, `"YYYY-MM"` or `"YYYY"`. The source's
  while loops with year rollover are written as methods. They are proved equal
  to a reference definition that numbers periods consecutively (`Ordinal`) and
  takes the integer interval between the start's period and the end's.
- **Score grid** (`grid.dfy`, module `Grid`). The session's item list, the
  item → time point → entry map and the time configuration form one `State`.
  `add_item`, `delete_item`, `update_item_name` and `update_data_structure`
  are pure transitions between states. List positions follow Python indexing:
  negative indices count from the back, and an index out of range is an
  `IndexError` result.
- **Colour palette** (`palette.dfy`, module `Palette`). This is
  `generate_color_palette`, with the session's custom colour list passed in.
- **Note wrapping** (`notewrap.dfy`, module `NoteWrap`). The chart puts a line
  break after every five characters of a note.
- **Excel import/export** (`codec.dfy`, module `ExcelCodec`). `data_to_excel`
  and `excel_to_data` are stated on the sheet's cell table: a header of column
  names, then rows of cells, each a number, a text or blank. Two Python
  conversions the model cannot see are parameters (`Coercions`): `str()` of a
  number and `float()` of a text.
- **Support modules**. `wrappers.dfy` holds `Option` and `Result`;
  `strings.dfy` holds decimal formatting (`str(int)`, `:02d`) and the search
  for the last `" - "` that `rsplit` performs.

Behaviour of the code that the model keeps:

- `generate_time_points` with an unknown granularity name returns `[]`; it
  raises nothing (`TimeAxis.TimePointsEmpty`).
- Start and end are compared by period, not by date. Reversed dates inside one
  period still give one label.
- `update_data_structure` only adds entries. Items that are no longer listed
  and time points that left the axis keep their entries
  (`Grid.Reconcile`).
- `excel_to_data` raises for a missing `时间点` column only when the sheet has
  rows. A sheet with no rows yields the items with empty maps.

## Model

| member | source | states |
|---|---|---|
| TimeAxis.GenerateTimePoints | app.py:69-112 | The three branches of the generator. The result equals the reference run of labels from the start's period to the end's; an unknown name gives `[]` |
| TimeAxis.RolloverLabels | app.py:80-88 | The quarter/month while loop (also app.py:97-105) yields exactly the labels of the consecutive periods from `s` to `e`, rolling over to period 1 of the next year |
| TimeAxis.YearLabels | app.py:107-110 | The year loop `range(start.year, end.year + 1)` yields the labels of the consecutive years |
| TimeAxis.ParseGranularity | app.py:73-107 | Each of the three names selects its granularity (both directions); every other name selects none |
| TimeAxis.QuarterOfMonth | app.py:76 | `(month - 1) // 3 + 1` lies in 1..4, and the month falls inside that quarter's three months |
| TimeAxis.PeriodOf | app.py:75-78 | The period computed from a date is valid and contains the date |
| TimeAxis.Next | app.py:85-88 | One loop step gives a valid period numbered one more, rolling over after the year's last period |
| TimeAxis.FromOrdinal | app.py:83 | Inverse of the period numbering: it gives back a valid period with the requested number |
| TimeAxis.FromOrdinalOfOrdinal | app.py:83 | Numbering a valid period and converting back gives the same period |
| TimeAxis.NotAfterIsOrdinalOrder | app.py:83 | The loop guard (year first, then period) is exactly the order of the period numbers |
| TimeAxis.Periods | app.py:83-88 | The run has one period per number from the start's to the end's, in order, all valid |
| TimeAxis.PeriodsEnds | app.py:83 | The run is non-empty iff the start is not after the end; then it starts at the start period and ends at the end period |
| TimeAxis.PeriodsContiguous | app.py:84-88 | Each period of the run is followed by its successor: no gaps, with rollover |
| TimeAxis.PeriodsStrictlyIncreasing | app.py:83-88 | Later periods of the run come strictly later in (year, period) order |
| TimeAxis.PeriodsMembership | app.py:83-88 | A period is in the run iff it is valid and lies between start and end inclusive |
| TimeAxis.LabelInjective | app.py:84 | Different periods get different labels (`f"{y}Q{q}"`, `f"{y}-{m:02d}"`, `f"{y}"`) |
| TimeAxis.QuarterCount | app.py:73-88 | Quarter mode returns `4*(ey-sy) + (eq-sq) + 1` labels, or none when that is not positive |
| TimeAxis.MonthCount | app.py:90-105 | Month mode returns `12*(ey-sy) + (em-sm) + 1` labels, or none when that is not positive |
| TimeAxis.YearAxis | app.py:107-110 | Year mode returns one label per year from `start.year` to `end.year`, the i-th being `str(start.year + i)` |
| TimeAxis.TimePointsShape | app.py:83-105 | The first label is the start's period, the last the end's, and each next label is that of the successor period |
| TimeAxis.TimePointsEmpty | app.py:69-112 | The result is empty iff the name is unknown or the start's period is after the end's; equal periods give one label |
| TimeAxis.TimePointsDistinct | app.py:69-112 | No label appears twice and none is empty |
| TimeAxis.QuarterScenario | tests/test_core_functions.py:14-19 | 2025-01-01 to 2025-12-31 by quarter gives `2025Q1` to `2025Q4` |
| TimeAxis.MonthScenario | tests/test_core_functions.py:21-23 | 2025-01-01 to 2025-03-31 by month gives `2025-01`, `2025-02`, `2025-03` |
| TimeAxis.YearScenario | tests/test_core_functions.py:25-27 | 2025-01-01 to 2025-12-31 by year gives `2025` |
| TimeAxis.CrossYearQuarterScenario | tests/test_core_functions.py:29-31 | 2024-11-01 to 2025-02-01 by quarter rolls over: `2024Q4`, `2025Q1` |
| TimeAxis.CrossYearMonthScenario | tests/test_core_functions.py:33-35 | 2024-11-01 to 2025-02-01 by month rolls over: `2024-11` to `2025-02` |
| Strings.DecimalString | app.py:84 | `str(n)` of a natural number: digits only, no leading zero, a single digit iff `n < 10` |
| Strings.DecimalStringValue | app.py:84 | The decimal string reads back as the number it was made from |
| Strings.IntStringInjective | app.py:84 | Different integers print differently, so year labels identify the year |
| Strings.Pad2 | app.py:101 | `:02d` gives at least two digits, exactly two below 100, reading back as the number |
| Strings.Pad2Injective | app.py:101 | Different months print differently |
| Strings.LastOccurrence | tests/test_excel_utils.py:84 | The position `rsplit(' - ', 1)` splits at: an occurrence of the separator with none later, absent iff the separator does not occur |
| Grid.PyIndex | app.py:126 | A list position is valid iff `-n <= i < n`; a negative one counts from the back |
| Grid.FillItem | app.py:153-155 | The inner backfill loop: every listed time point gets a key, existing entries are kept, new ones are `{得分: 70.0, 说明: ''}` |
| Grid.Backfill | app.py:148-155 | The outer loop: all listed items covered, unlisted items untouched, existing entries kept, new entries default and on the axis |
| Grid.Reconcile | app.py:139-155 | `update_data_structure`: the state covers its generated axis afterwards, nothing is removed or changed, and every added entry is the default |
| Grid.ReconcileFixesCovered | app.py:148-155 | A state that already covers its axis is left exactly as it is |
| Grid.ReconcileIdempotent | app.py:139-155 | Running the backfill twice is the same as once |
| Grid.AddItem | app.py:115-122 | The list grows by `题项{n+1}`; that item's map is reset and holds exactly the axis's time points, all default; the grid covers the axis. The frame for the other items is stated by `Grid.AddItemKeeps`, `Grid.AddItemKeys` and `Grid.AddItemOnlyAdds` |
| Grid.AddItemKeeps | app.py:120-122 | Every other item's existing entries survive the add |
| Grid.AddItemKeys | app.py:118-122 | After the add, the maps are the old ones plus one per listed item |
| Grid.AddItemOnlyAdds | app.py:115-122 | Nothing else changes: an unlisted item's map is kept exactly, and every entry the add creates (including the new item's whole map) is the default one, on the axis |
| Grid.DeleteItem | app.py:124-128 | Succeeds iff the index is in range; pops that position and drops exactly that name's map, leaving all other maps equal |
| Grid.DeleteKeepsCoverage | app.py:124-128 | With distinct items, a covered grid stays covered after a delete |
| Grid.DeleteDuplicateDropsData | app.py:126-128 | A name listed twice loses its map when one copy is deleted, while the other copy stays listed |
| Grid.RenameItem | app.py:130-136 | Succeeds iff the index is in range; writes the name and moves the old map to the new key, replacing any map there; no map means no change to the data |
| Grid.RenameBack | app.py:130-136 | Renaming back undoes a rename whose new name held no map |
| Grid.RenameKeepsCoverage | app.py:130-136 | With distinct items, a covered grid stays covered after a rename |
| Palette.GenerateColorPalette | app.py:158-175 | `n` colours; the default palette name cycles the ten colours; any other name uses the custom colours first, then the palette at the same positions |
| Palette.NoCustomColoursIsDefault | app.py:170-175 | With no custom colours, every palette name gives the default cycling |
| Palette.DefaultPaletteCycle | app.py:167 | Default colours repeat with period ten |
| Palette.DefaultPaletteDistinct | app.py:160-167 | The first ten default colours are pairwise different |
| Palette.PaletteExtends | app.py:165-175 | Asking for more colours extends the list asked for with fewer |
| NoteWrap.Chunks | app.py:509 | `note[k:k+5]` pieces: `ceil(len/5)` pieces, all non-empty, all but the last exactly five long |
| NoteWrap.ChunksConcat | app.py:509 | The pieces joined back without separators are the note |
| NoteWrap.WrapRemoveNewlines | app.py:509 | Wrapping only inserts line breaks: for every note, removing the breaks from the wrapped text and from the note gives the same text; for a note without line breaks, that is the note itself |
| NoteWrap.BreakInNoteSurvives | app.py:509 | A note's own line break is kept by the wrap, so `"ab\ncd"` does not come back once breaks are removed: the no-break condition above is needed |
| NoteWrap.WrapLayout | app.py:509 | For every note (a text area may hold line breaks): the wrapped length is `len + (len-1)//5`, every sixth position is a break, and the others hold the note's characters in order; for a note without breaks of its own, the breaks are exactly at every sixth position |
| ExcelCodec.Dedup | tests/test_excel_utils.py:52-56 | The exporter's dict keys: items without repeats, the same set, unchanged when already distinct |
| ExcelCodec.DedupOrder | tests/test_excel_utils.py:52-56 | The dict keeps insertion order: the kept items come in the order of their first occurrence in the item list, which fixes the column order when an item repeats |
| ExcelCodec.ItemColumns | tests/test_excel_utils.py:55-56 | Item `j`'s score column then its note column, at positions `2j` and `2j+1` |
| ExcelCodec.ItemCells | tests/test_excel_utils.py:54-56 | Each item's cells hold its stored score and note, or `0.0` and `''` where there is no entry |
| ExcelCodec.EncodeTable | tests/test_excel_utils.py:50-62 | The sheet: column 0 is `时间点`, columns `1+2m` and `2+2m` are item `m`'s `得分` and `说明`; row `i` holds time point `i`'s label, then `Num` of each item's looked-up score and the text cell of its note. Total, also for an empty axis |
| ExcelCodec.DataToExcel | tests/test_excel_utils.py:50-62 | As written: fails iff there are no time points (the column selection raises); otherwise it gives `EncodeTable` |
| ExcelCodec.EmptyAxisExportFails | tests/test_excel_utils.py:59-62 | An export with an empty time axis raises, whatever the data and items, although the sheet it means to write (no rows) is well defined |
| ExcelCodec.ColumnIndex | tests/test_excel_utils.py:97-103 | The column read for a name is the first carrying it, absent iff the name is not in the header |
| ExcelCodec.ItemsOf | tests/test_excel_utils.py:81-89 | An item is imported iff it is what precedes the last `" - "` in some column other than `时间点` that contains `" - "` |
| ExcelCodec.ItemEntriesSucceeds | tests/test_excel_utils.py:96-115 | The row loop for one item succeeds iff every row's score reads as a number |
| ExcelCodec.ItemEntriesKeys | tests/test_excel_utils.py:96-115 | On success the item's keys are exactly the rows' labels |
| ExcelCodec.ItemEntriesLastRowWins | tests/test_excel_utils.py:112-115 | A label repeated over rows keeps the entry of its last row |
| ExcelCodec.ExcelToData | tests/test_excel_utils.py:70-117 | Rows without a `时间点` column raise (both directions); on success the items are the column prefixes, each with its row loop's entries; an unreadable score raises |
| ExcelCodec.ItemOfExportedColumn | tests/test_excel_utils.py:84 | `rsplit` recovers the item from `item + " - " + field`, also when the item contains `" - "` |
| ExcelCodec.HeaderDistinct | tests/test_excel_utils.py:52-61 | With distinct items the exported column names are pairwise different |
| ExcelCodec.ItemsOfHeader | tests/test_excel_utils.py:81-89 | Reading the exported header gives back exactly the exported item set |
| ExcelCodec.ExportedRowLabel | tests/test_excel_utils.py:97 | An exported row reads back to its own time point |
| ExcelCodec.ExportedCells | tests/test_excel_utils.py:99-103 | Item `m`'s score and note columns are read from the cells written for item `m` |
| ExcelCodec.ExportedRowEntry | tests/test_excel_utils.py:99-115 | Each exported row reads back, per item, to the entry it was written from: the importer keeps the score and the note, except that a note that is an NA string (pandas' default `na_values`, read back blank) comes back `""` |
| ExcelCodec.ExportedLabels | tests/test_excel_utils.py:96-97 | The exported rows' labels are exactly the exported time points |
| ExcelCodec.ExportedItemEntries | tests/test_excel_utils.py:96-115 | An exported item reads back with one entry per time point: the written score, and the written note unless it is an NA string, which comes back `""` |
| ExcelCodec.RoundTrip | tests/test_excel_utils.py:135-152 | For time points that are not NA strings: import after export succeeds, gives back the item set, every time point for each item, and the written entries, with an NA-string note turned into `""` |
| ExcelCodec.RoundTripCovered | tests/test_excel_utils.py:135-152 | With an entry for every (item, time point), the round trip returns the same item set, exactly the axis for each item, the same score for every pair, and the same note unless it is an NA string, which comes back `""` |
| ExcelCodec.GeneratedAxisReadable | app.py:69-112 | No label the time axis generates is an NA string, so the model's round-trip condition holds for every generated axis (on the modelled cell table; see "## Left out" for the year column) |
| ExcelCodec.LabelShapedReadable | tests/test_excel_utils.py:74 | A non-empty string of digits, `Q` and `-` is never an NA string |
| TimeAxis.LabelAlphabet | app.py:84-110 | Every label of a valid period is non-empty and made of digits, `Q` and `-` only |
| TimeAxis.TimePointsShaped | app.py:69-112 | Every generated label is non-empty and made of digits, `Q` and `-` only |
| Grid.BackfillLoopIsBackfill | app.py:148-155 | The outer loop run item by item, each step filling the map built so far, ends in the same map as `Backfill`, which fills all items at once |
| Grid.BackfillStep | app.py:148-155 | One more iteration of the outer loop on top of the map for the earlier items gives the map for the longer item list |

## Left out

- The Streamlit page layout, widgets, session bootstrap and plotting (matplotlib figures, fonts, image export). These are UI and I/O, not logic. `generate_time_points` is modelled because the page calls it when the time configuration changes.
- Score and note edits made through the page's inputs. They are plain dictionary writes from widgets.
- The xlsx byte format, openpyxl and the `BytesIO` buffer. The codec works on a cell table in which a written text reads back as written, except the NA strings, which read back blank. The conversions of openpyxl and `read_excel` that this table does not capture, as far as they are known here, are listed below.
- Floating point. Scores are `real`. `str()` of a number and `float()` of a text are parameters. NaN is modelled as a blank cell. In the model it arises from an empty or NA-string text only; the formula case below is a further source the model does not cover.
- pandas' renaming of repeated column names (`x.1`). The exporter builds its columns from dict keys, so its own sheets never repeat a name; for other sheets the model reads the first column of a name.
- The `day` of a date. The generator never reads it.
- Palette.GenerateColorPalette: the custom colour list is a parameter standing for `st.session_state.style_config.get('custom_colors', [])`. The source's tests pass the name `'default'`, which is not `默认配色` and so takes the custom branch; the model keeps that.
- Grid.Reconcile: the backfill writes a map with all of the outer loop's results at once, instead of in place item by item. `Grid.BackfillLoopIsBackfill` proves the item-by-item loop ends in the same map.
- ExcelCodec.RoundTrip: requires that no time point is an NA string. Such a label is read back as NaN, and `str()` makes it `"nan"`. Generated labels never are (`ExcelCodec.GeneratedAxisReadable`).
- ExcelCodec.RoundTrip: does not model pandas' type inference for a column whose cells all look like numbers or booleans. A note column of such texts comes back converted, so the note `"007"` returns as `"7"` or `"7.0"`, and a note column holding only `"true"`/`"FALSE"` and blanks returns `"True"`/`"False"`. The model reads every text back as itself.
- ExcelCodec.RoundTrip: the same inference turns a year-mode time column into integers, and `df.iterrows()` gives each row the common type of its cells. When every other cell of a row is a number or blank (for instance, all notes empty, as right after a backfill), the label comes back as a float and `str()` makes `"2025"` into `"2025.0"`, so the item's keys change. The model's round trip, and `ExcelCodec.GeneratedAxisReadable`, hold of the modelled cell table only, not of this behaviour.
- ExcelCodec.RoundTrip: openpyxl stores a text of two or more characters that starts with `=` as a formula, and `read_excel` reads it back blank. A note, label or item name of that form is not modelled.
- ExcelCodec.DataToExcel: openpyxl raises `IllegalCharacterError` for a text holding a control character (U+0000 to U+0008, U+000B, U+000C, U+000E to U+001F), so such an export fails. The model lets it succeed.
- ExcelCodec.ExcelToData: the header is a list of texts. In an uploaded sheet whose header row holds a number, that column name stays a number and `' - ' in c` raises `TypeError`; this error is not modelled.
- ExcelCodec.ExcelToData: the `current_items` argument is ignored by the source and is not modelled. The order of the returned item list (Python set order) is not modelled; the items are a set.

## Findings

| source | as written | input that shows it | evidently intended | confidence | as-written member | corrected member |
|---|---|---|---|---|---|---|
| tests/test_excel_utils.py:59-62 | With no time points, `pd.DataFrame([])` has no columns, so `df[['时间点']]` raises `KeyError` | `data_to_excel({'A': {}}, ['A'], [])`; the app yields `[]` whenever the start's period is after the end's | A sheet with the header row and no data rows, which imports back to the items with empty maps | medium, not executed | ExcelCodec.DataToExcel (with ExcelCodec.EmptyAxisExportFails) | ExcelCodec.EncodeTable (with ExcelCodec.RoundTrip, proved for every axis including the empty one) |
