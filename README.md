# Periodic table page: layout and search

This project models the browser script of a small periodic-table web
application. The page fetches the element records (atomic number, symbol,
name, category, optional Group and Period), draws them on a CSS grid, and
narrows the view as the user types into a search box.

The script `static/js/script.js` is checked in as an unresolved merge, so it
holds two competing versions of the same module. The model keeps both, in
separate modules, because they disagree: where the f-block rows start, how
records are chosen for them, and how a search works.

- **Second version** (lines 216-343):
  - `LowerLayout`: where `renderTable` puts each record's cell. The position
    comes from Group/Period, is remapped by atomic-number range into rows 8 and
    9 from column 3, or is pinned for La and Ac.
  - `LowerSearch`: the search filter, which lower-cases and trims the query and
    keeps, in order, the records whose name, symbol or decimal atomic number
    includes it.
  - `LowerPage`: the page state (`allElements` and the table's cells). It has
    the `renderTable` loop and the load and `input` handlers.
- **First version** (lines 1-214):
  - `HeadLayout`: the specification of what `renderTable(data)` draws. The
    records fall into three groups: the f-block (category lanthanide/actinide,
    or Lu/Lr), the main table (not f-block, Period 1..7), and the rest (not
    f-block, Period missing or outside 1..7), which `renderTable` draws only
    through its lookups of H and He over the whole data (script.js:27, 30).
    The periods come row by row with their gap cells. The two series
    stand-ins follow, then rows 8 and 9 with each series sorted by atomic
    number from column 4.
  - `HeadSearch`: the search predicate. It reads each drawn cell's symbol and
    atomic-number text and looks the record up by symbol; the stand-ins are
    matched on their "57-71"/"89-103" label.
  - `HeadPage`: the page state (`elementsData`, the drawn cells and each cell's
    `hidden` class). Its methods are `renderTable`, `appendEmptyCells`,
    `createElement` and the per-series `forEach` with its running column
    counter, plus the `input` handler that toggles `hidden` in place.
- **Shared**: `Seqs` (`Array.filter`, `Array.find`) and `Text` (`toLowerCase`,
  `trim`, `includes`, integer `toString`). `Elements` holds the element record.

DOM nodes are modelled as abstract cell descriptors: a kind, a grid row and a
grid column.

### Where the code falls short of what a periodic table should do

The model follows the code in each case.

- **Collisions.** A periodic table should never put two elements in one grid
  cell. The code does not ensure it: main-table positions come straight from the data.
  The model proves it only where the arithmetic guarantees it, for the f-block
  rows of the second version (`LowerLayout.FBlockCollisionFree`,
  `LowerLayout.FBlockRowsReserved`).
- **Dropped records.** Every record should be drawn in exactly one cell.
  - In the first version, a record outside the f-block whose Period is
    missing or outside 2..7 is drawn only if its symbol is H or He, as the
    first record found with that symbol (`HeadLayout.LayoutCellsDrawn` lists
    every way a record can be drawn). Any other such record, a period-1
    record among them, is dropped.
  - The second version leaves records without Group or Period, other than La
    and Ac, unpositioned.
- **First-version search.**
  - A search box should ignore surrounding spaces in the query and should keep
    the structural stand-ins of the f-block visible.
  - The first version does not trim. It hides a stand-in whose label does not
    include the query (`HeadSearch.PlaceholderRule`).

## Model

| member | source | states |
|---|---|---|
| LowerLayout.GridPosition | static/js/script.js:259-282 | A record with a truthy Group and Period is placed at (Period, Group), unless its atomic number is in 57..71 or 89..103; those go to row 8 or 9 at column n-54 or n-86, always within 3..17. Without Group/Period, 57 is pinned to (6,3), 89 to (7,3), and any other record gets no position. |
| LowerLayout.FBlockCollisionFree | static/js/script.js:265-270 | Two f-block records with different atomic numbers never get the same grid position. |
| LowerLayout.FBlockContiguous | static/js/script.js:265-270 | Consecutive atomic numbers of one series sit side by side in the same row. |
| LowerLayout.FBlockRowsReserved | static/js/script.js:259-282 | While main-table Periods stay within 1..7, no other record shares a position with an f-block record, the La/Ac stand-in positions (6,3) and (7,3) included. |
| LowerLayout.RenderedCells | static/js/script.js:222-287 | The drawn table is the two gap cells followed by exactly one cell per record, in input order, each at the position `GridPosition` gives. |
| LowerLayout.ElementCellsAt | static/js/script.js:236-287 | Cell i of the `forEach` output shows record i at its computed position. |
| LowerSearch.Search | static/js/script.js:307-321 | An empty query (after lower-casing and trimming) returns the collection unchanged. Otherwise a record is in the result if and only if it is in the collection and matches the query. |
| LowerSearch.BlankQueryShowsAll | static/js/script.js:308-313 | An input made only of whitespace, the empty input included, shows the whole collection unchanged. |
| LowerSearch.NonBlankQueryFilters | static/js/script.js:308-316 | An input with any non-whitespace character takes the filtering branch. |
| LowerSearch.SearchKeepsOrder | static/js/script.js:316-320 | Searching a concatenation gives the concatenation of the searches, so the result is the matching subsequence in original order. |
| LowerSearch.SearchIdempotent | static/js/script.js:316-320 | Searching the result again with the same input changes nothing. |
| LowerSearch.FoundBySymbol | static/js/script.js:318 | A record is found by its own symbol in any letter case and with surrounding whitespace. |
| LowerSearch.FoundByAtomicNumber | static/js/script.js:319 | A record with a non-zero atomic number is found by the decimal text of that number. |
| LowerPage.Page.constructor | static/js/script.js:216 | The collection and the table start empty. |
| LowerPage.Page.RenderTable | static/js/script.js:222-288 | The loop clears the table and leaves exactly `Rendered(elementsToRender)` in it. |
| LowerPage.Page.OnLoad | static/js/script.js:335-338 | After a successful fetch the data is stored and drawn in full. |
| LowerPage.Page.OnSearchInput | static/js/script.js:307-323 | The table is redrawn from `Search(allElements, value)`; only the cells change and `allElements` is untouched. |
| LowerPage.NoMatchDrawsOnlyGaps | static/js/script.js:316-322 | A query no record matches leaves only the two gap cells drawn. |
| LowerPage.ClearingQueryRestoresTable | static/js/script.js:311-322 | Clearing the query after any search redraws exactly the table the initial load drew. |
| HeadLayout.MainTableAndFBlockDisjoint | static/js/script.js:33-45 | `mainTableElements` and `fBlockElements` are disjoint. Every main-table record is a record of the data with Period in 1..7, and every such record that is not f-block is in the main table. |
| HeadLayout.SortByAtomicNumber | static/js/script.js:97 | The result is sorted by ascending atomic number and is a permutation of the input. |
| HeadLayout.InsertSorted | static/js/script.js:97 | One insertion step keeps a sorted sequence sorted and adds exactly the inserted record. |
| HeadLayout.InsertAdds | static/js/script.js:97 | Insertion adds exactly one occurrence of the record. |
| HeadLayout.LanthanideSeriesMembers | static/js/script.js:95-97 | Row 8 holds exactly the records whose category is lanthanide or whose symbol is Lu, ascending by atomic number. |
| HeadLayout.ActinideSeriesMembers | static/js/script.js:107-109 | Row 9 holds exactly the records whose category is actinide or whose symbol is Lr, ascending by atomic number. |
| HeadLayout.EmptyCells | static/js/script.js:117-126 | `appendEmptyCells(row, count, s)` produces `count` gap cells (none for a negative count), all in row `row`. |
| HeadLayout.EmptyCellsColumns | static/js/script.js:118-125 | A gap cell sits at column c of the row exactly when s <= c < s+count; period 1 gets columns 2..17. |
| HeadLayout.SeriesCellsColumns | static/js/script.js:96-114 | The running column counter gives series record i the cell at column 4+i of its row, one cell per record, in series order. |
| HeadLayout.LayoutCellsDrawn | static/js/script.js:21-115 | Every element cell drawn shows a record of the data, drawn in one of four ways: as H or He at its own position; as a main-table record of periods 2..7 at (Period, Group); as a lanthanide in row 8 from column 4; or as an actinide in row 9 from column 4. |
| HeadLayout.PeriodRowsDrawn | static/js/script.js:59-62 | Every cell drawn by the loop over periods `lo` to `hi - 1` shows a main-table record whose Period lies in that range, at its own (Period, Group). |
| HeadLayout.PeriodCellsDrawn | static/js/script.js:47-62 | Every cell drawn for main-table period `p` (2 to 7) shows a main-table record of Period `p` at its own (Period, Group). |
| HeadLayout.MainTablePlaced | static/js/script.js:41-62 | Every record that is not f-block and has Period 2..7 is drawn at its (Period, Group). |
| HeadLayout.PeriodRowsContain | static/js/script.js:60-62 | Each period of the loop's range has its cells in the loop's output. |
| HeadLayout.ShortPeriodCellsContain | static/js/script.js:47-57 | The cells of periods 2 and 3 are in the drawn short periods. |
| HeadLayout.FBlockPlaced | static/js/script.js:93-114 | A lanthanide-series record of rank i (by atomic number) is drawn at row 8, column 4+i, and an actinide-series record likewise at row 9. |
| HeadSearch.PlaceholderRule | static/js/script.js:176-185 | A stand-in is shown exactly when its lower-cased label includes the term; the empty-term branch adds nothing. |
| HeadSearch.HiddenAfterSearch | static/js/script.js:167-209 | Gap cells, which are not `.element` cells, keep their flag; every other cell is hidden exactly when it is not shown for the term. |
| HeadSearch.RecordForOwnSymbol | static/js/script.js:196 | With symbols unique up to case, a cell's symbol text finds its own record. |
| HeadSearch.EmptyTermShowsRecords | static/js/script.js:193-205 | An empty term shows every drawn record that has a symbol. |
| HeadSearch.AgreesWithFilter | static/js/script.js:193-202 | For an input without surrounding whitespace, with unique symbols and a record with a symbol and a non-zero atomic number, the first version shows the cell exactly when the second version's filter keeps the record. |
| HeadPage.Page.constructor | static/js/script.js:6 | The data and the table start empty and nothing is hidden. |
| HeadPage.Page.Append | static/js/script.js:147 | One cell is appended, not hidden. |
| HeadPage.Page.AppendEmptyCells | static/js/script.js:118-126 | The loop appends exactly `EmptyCells(row, count, startColumn)`; earlier flags are kept and the new cells are visible. |
| HeadPage.Page.CreateElement | static/js/script.js:143-148 | Appends the record's cell at (Period, Group). |
| HeadPage.Page.CreateElements | static/js/script.js:48-50 | The `forEach` appends one main-table cell per record, in order. |
| HeadPage.Page.AppendSeries | static/js/script.js:96-102 | The `forEach` with the post-incremented column counter appends exactly `SeriesCells(series, row, 4)`. |
| HeadPage.Page.DrawPeriod1 | static/js/script.js:26-31 | Appends H if found, the 16 gap cells of row 1 from column 2, then He if found. |
| HeadPage.Page.DrawShortPeriods | static/js/script.js:47-57 | Appends periods 2 and 3, each followed by 10 gap cells from column 3. |
| HeadPage.Page.DrawLongPeriods | static/js/script.js:59-62 | The `for (p = 4; p <= 7)` loop appends the main-table records of periods 4 to 7, period by period. |
| HeadPage.Page.DrawSeriesRow | static/js/script.js:92-102 | Appends three gap cells at columns 1..3, then the series from column 4. |
| HeadPage.Page.DrawFBlock | static/js/script.js:92-114 | Appends row 8 (lanthanides) and then row 9 (actinides). |
| HeadPage.Page.RenderTable | static/js/script.js:21-115 | Clears the table and leaves exactly `Layout(data)`, every cell visible. |
| HeadPage.Page.OnLoad | static/js/script.js:9-13 | After a successful fetch the data is stored and the table drawn with every cell visible. |
| HeadPage.Page.OnSearchInput | static/js/script.js:167-210 | Sets `hidden` to `HiddenAfterSearch(cells, old hidden, toLowerCase(value), elementsData)`; the cells and the data are untouched. |
| HeadPage.ClearingSearchShowsTable | static/js/script.js:176-205 | On the freshly drawn table, emptying the search box after any search makes every element cell and both stand-ins visible, provided every record has a symbol. |
| Seqs.Filter | static/js/script.js:316-320 | `filter` returns only elements of the input that satisfy the predicate, and every such element; no element passing means an empty result. |
| Seqs.FilterConcat | static/js/script.js:316-320 | `filter` distributes over concatenation, so it keeps the input order. |
| Seqs.FilterKeepsAll | static/js/script.js:316-320 | When every element passes, `filter` returns the input unchanged. |
| Seqs.FilterIdempotent | static/js/script.js:316-320 | Filtering twice is filtering once. |
| Seqs.Find | static/js/script.js:27 | `find` returns nothing exactly when no element passes; otherwise it returns an element of the input that passes and has no passing element before it. |
| Text.ToLower | static/js/script.js:308 | Lower-casing keeps the length, turns each upper-case ASCII letter into its lower-case letter (code point + 32), and changes no other character. |
| Text.TrimSlice | static/js/script.js:308 | `trim` returns a slice of its input, and everything cut from either end is whitespace. |
| Text.TrimEdges | static/js/script.js:308 | What `trim` returns neither starts nor ends with whitespace. |
| Text.TrimEmptyIffBlank | static/js/script.js:308-311 | A string trims to "" if and only if it is all whitespace. |
| Text.ToLowerKeepsBlank | static/js/script.js:308 | Lower-casing keeps a whitespace-only string whitespace-only. |
| Text.ContainsIffOccurs | static/js/script.js:317-319 | `includes` holds exactly when the query occurs at some index of the string. |
| Text.ContainsSelfAndEmpty | static/js/script.js:177 | Every string includes itself and the empty string. |
| Text.EmptyContainsOnlyEmpty | static/js/script.js:198-202 | The empty string includes only the empty string. |
| Text.NatToDecimal | static/js/script.js:319 | The decimal text of a natural number is non-empty, all digits, and has a leading '0' only for 0 itself. |
| Text.NatToDecimalRoundTrip | static/js/script.js:319 | Reading back the digits of n gives n. |
| Text.IntToDecimalRoundTrip | static/js/script.js:194 | The text of an integer is well formed and parses back to the same integer, so equal texts mean equal atomic numbers. |

## Left out

- Fetching and start-up (static/js/script.js:9-18, 212-213, 326-343): network I/O and event plumbing. `OnLoad` models the successful path only; the error message paths are not modelled.
- The detail panels and click handlers (static/js/script.js:72-74, 83-85, 138, 150-164, 285, 290-304): HTML templating and floating-point formatting (`toFixed`).
- DOM details: `innerHTML`, the category CSS class strings, tooltips and data attributes. Cells are abstract descriptors (kind, row, column); the CSS rules that place the second version's two gap cells are not part of this model.
- Browser auto-placement: a second-version cell without a position is recorded as having none; where CSS grid then puts it is not modelled.
- main.py (the HTTP routes and CSV parsing) is not part of this model; records arrive as values with integer atomic number, optional integer Group and Period, and string fields.
- Text.ToLower: maps only the ASCII letters; the full Unicode case mapping of `toLowerCase` is not modelled.
- Numbers are integers: fractional, NaN or non-numeric field values and their JavaScript comparisons and `toString` are not modelled.
- `includes(el)` (static/js/script.js:44) compares object identity; the model compares records by value. Records with equal values have the same f-block status, so the main-table set is the same.
- The first version's "unexpected structure" branch (static/js/script.js:188-191): every element cell the model draws has both a symbol and an atomic-number text, so the branch never runs.
- HeadLayout.SortByAtomicNumber: stability of `Array.prototype.sort` (equal atomic numbers keep their order) holds for the insertion sort but is not stated.
- HeadPage.ClearingSearchShowsTable: states restoration only for data in which every record has a symbol, since a cell whose symbol finds no record stays hidden even for an empty query.
- HeadSearch.AgreesWithFilter: relates the two versions only for inputs without surrounding whitespace and symbols unique up to case, because the first version neither trims nor searches records other than the one its symbol text finds.
