// The table layout of the first version of the script. `renderTable` draws
// H and He by symbol, the main-table periods 2 to 7 by Group and Period,
// gap cells that keep the classic shape, two series stand-ins, and the
// lanthanide and actinide rows 8 and 9 with a running column from 4.
module HeadLayout {
  import opened Seqs
  import opened Elements

  datatype CellKind =
    | Gap                     // an `empty-cell` div
    | Element(e: ElementRecord)
    | LanthanidePlaceholder   // the "57-71" stand-in
    | ActinidePlaceholder     // the "89-103" stand-in

  /** A cell with the grid row and column written into its style; `None`
      where the script writes the text of a missing value, which the grid
      ignores. */
  datatype Cell = Cell(kind: CellKind, row: Option<int>, col: Option<int>)

  /** The column the first member of each f-block series is drawn in. */
  const SeriesFirstColumn := 4

  const LanthanidePlaceholderCell := Cell(LanthanidePlaceholder, Some(6), Some(3))
  const ActinidePlaceholderCell := Cell(ActinidePlaceholder, Some(7), Some(3))

  /** Drawn in the f-block rows whatever its Group and Period. */
  predicate IsFBlock(e: ElementRecord) {
    e.category == "lanthanide" || e.category == "actinide" || e.symbol == "Lu" || e.symbol == "Lr"
  }

  predicate InLanthanideSeries(e: ElementRecord) {
    e.category == "lanthanide" || e.symbol == "Lu"
  }

  predicate InActinideSeries(e: ElementRecord) {
    e.category == "actinide" || e.symbol == "Lr"
  }

  predicate InMainPeriods(e: ElementRecord) {
    e.period.Some? && 1 <= e.period.value <= 7
  }

  /** `fBlockElements`. */
  function FBlock(data: seq<ElementRecord>): seq<ElementRecord> {
    Filter(data, IsFBlock)
  }

  /** `mainTableElements`: records of periods 1 to 7 not in `fBlockElements`. */
  function MainTable(data: seq<ElementRecord>): seq<ElementRecord> {
    var fBlockElements := FBlock(data);
    Filter(data, e => InMainPeriods(e) && e !in fBlockElements)
  }

  /** The main-table records and the f-block records never overlap, and every
      main-table record has a Period between 1 and 7. */
  lemma MainTableAndFBlockDisjoint(data: seq<ElementRecord>)
    ensures forall e :: e in MainTable(data) ==> e in data && !IsFBlock(e) && InMainPeriods(e)
    ensures forall e :: e in FBlock(data) ==> e in data && IsFBlock(e) && e !in MainTable(data)
    ensures forall e :: e in data && !IsFBlock(e) && InMainPeriods(e) ==> e in MainTable(data)
  {
  }

  /** `find(el => el.Symbol === symbol)`. */
  function FindSymbol(data: seq<ElementRecord>, symbol: string): Option<ElementRecord> {
    Find(data, (e: ElementRecord) => e.symbol == symbol)
  }

  /** `filter(el => el.Period === p)`. */
  function PeriodMembers(main: seq<ElementRecord>, p: int): seq<ElementRecord> {
    Filter(main, (e: ElementRecord) => e.period == Some(p))
  }

  predicate SortedByAtomicNumber(s: seq<ElementRecord>) {
    forall i, j :: 0 <= i < j < |s| ==> s[i].atomicNumber <= s[j].atomicNumber
  }

  /** Inserts `x` ahead of the first record whose atomic number is equal or
      larger. */
  function Insert(x: ElementRecord, s: seq<ElementRecord>): seq<ElementRecord> {
    if s == [] || x.atomicNumber <= s[0].atomicNumber then [x] + s
    else [s[0]] + Insert(x, s[1..])
  }

  /** Inserting adds exactly `x`. */
  lemma {:induction false} InsertAdds(x: ElementRecord, s: seq<ElementRecord>)
    ensures multiset(Insert(x, s)) == multiset(s) + multiset{x}
  {
    if !(s == [] || x.atomicNumber <= s[0].atomicNumber) {
      InsertAdds(x, s[1..]);
      assert s == [s[0]] + s[1..];
    }
  }

  /** A record no larger than every record of a sorted sequence can go first. */
  lemma SortedCons(h: ElementRecord, t: seq<ElementRecord>)
    requires SortedByAtomicNumber(t)
    requires forall k :: 0 <= k < |t| ==> h.atomicNumber <= t[k].atomicNumber
    ensures SortedByAtomicNumber([h] + t)
  {
    var s := [h] + t;
    forall i, j | 0 <= i < j < |s| ensures s[i].atomicNumber <= s[j].atomicNumber {
      if i > 0 {
        assert s[i] == t[i - 1] && s[j] == t[j - 1];
      } else {
        assert s[j] == t[j - 1];
      }
    }
  }

  /** Inserting into a sorted sequence keeps it sorted and adds exactly `x`. */
  lemma {:induction false} InsertSorted(x: ElementRecord, s: seq<ElementRecord>)
    requires SortedByAtomicNumber(s)
    ensures SortedByAtomicNumber(Insert(x, s))
    ensures multiset(Insert(x, s)) == multiset(s) + multiset{x}
  {
    InsertAdds(x, s);
    if s == [] || x.atomicNumber <= s[0].atomicNumber {
      forall k | 0 <= k < |s| ensures x.atomicNumber <= s[k].atomicNumber {
        if k > 0 { assert s[0].atomicNumber <= s[k].atomicNumber; }
      }
      SortedCons(x, s);
    } else {
      var rest := s[1..];
      var t := Insert(x, rest);
      InsertSorted(x, rest);
      assert s == [s[0]] + rest;
      forall k | 0 <= k < |t| ensures s[0].atomicNumber <= t[k].atomicNumber {
        assert t[k] in multiset(t);
        assert t[k] == x || t[k] in multiset(rest);
        if t[k] != x {
          var m :| 0 <= m < |rest| && rest[m] == t[k];
          assert s[m + 1] == t[k];
        }
      }
      SortedCons(s[0], t);
    }
  }

  /** `sort((a, b) => a.AtomicNumber - b.AtomicNumber)`: ascending by atomic
      number; records with equal numbers keep their order. */
  function SortByAtomicNumber(s: seq<ElementRecord>): (r: seq<ElementRecord>)
    ensures SortedByAtomicNumber(r)
    ensures multiset(r) == multiset(s)
  {
    if s == [] then []
    else
      var rest := SortByAtomicNumber(s[1..]);
      InsertSorted(s[0], rest);
      assert s == [s[0]] + s[1..];
      Insert(s[0], rest)
  }

  /** The lanthanides drawn in row 8, in drawing order. */
  function LanthanideSeries(data: seq<ElementRecord>): seq<ElementRecord> {
    SortByAtomicNumber(Filter(FBlock(data), InLanthanideSeries))
  }

  /** The actinides drawn in row 9, in drawing order. */
  function ActinideSeries(data: seq<ElementRecord>): seq<ElementRecord> {
    SortByAtomicNumber(Filter(FBlock(data), InActinideSeries))
  }

  /** Row 8 holds exactly the records in the lanthanide series (category
      lanthanide, or Lu), ascending by atomic number. */
  lemma LanthanideSeriesMembers(data: seq<ElementRecord>)
    ensures SortedByAtomicNumber(LanthanideSeries(data))
    ensures forall e :: e in LanthanideSeries(data) ==> e in data && InLanthanideSeries(e)
    ensures forall e :: e in data && InLanthanideSeries(e) ==> e in LanthanideSeries(data)
  {
    var s := LanthanideSeries(data);
    var f := Filter(FBlock(data), InLanthanideSeries);
    assert forall e :: e in s <==> e in multiset(s);
    assert forall e :: e in f <==> e in multiset(f);
  }

  /** Row 9 holds exactly the records in the actinide series (category
      actinide, or Lr), ascending by atomic number. */
  lemma ActinideSeriesMembers(data: seq<ElementRecord>)
    ensures SortedByAtomicNumber(ActinideSeries(data))
    ensures forall e :: e in ActinideSeries(data) ==> e in data && InActinideSeries(e)
    ensures forall e :: e in data && InActinideSeries(e) ==> e in ActinideSeries(data)
  {
    var s := ActinideSeries(data);
    var f := Filter(FBlock(data), InActinideSeries);
    assert forall e :: e in s <==> e in multiset(s);
    assert forall e :: e in f <==> e in multiset(f);
  }

  /** The cells `appendEmptyCells(row, count, start)` appends: `count` gap
      cells (none for a negative `count`) in row `row`, at columns
      start, start+1, ..., start+count-1. */
  function EmptyCells(row: int, count: int, start: int): (r: seq<Cell>)
    ensures |r| == if count < 0 then 0 else count
    ensures forall c :: c in r ==> c.kind == Gap && c.row == Some(row)
  {
    seq(if count < 0 then 0 else count, i => Cell(Gap, Some(row), Some(start + i)))
  }

  /** A gap cell sits at column `c` of the row exactly when `c` lies in the
      span; in period 1 the gap fills columns 2 to 17, between H and He. */
  lemma EmptyCellsColumns(row: int, count: int, start: int, c: int)
    ensures Cell(Gap, Some(row), Some(c)) in EmptyCells(row, count, start) <==> start <= c < start + count
  {
    if start <= c < start + count {
      assert EmptyCells(row, count, start)[c - start] == Cell(Gap, Some(row), Some(c));
    }
  }

  /** The cells the f-block `forEach` appends: `series[i]` in row `row` at
      column `firstCol + i`. */
  function SeriesCells(series: seq<ElementRecord>, row: int, firstCol: int): seq<Cell>
  {
    if series == [] then []
    else
      SeriesCells(series[..|series| - 1], row, firstCol)
      + [Cell(Element(series[|series| - 1]), Some(row), Some(firstCol + |series| - 1))]
  }

  /** The running column gives consecutive columns in one row, one record per
      cell, in series order. */
  lemma {:induction false} SeriesCellsColumns(series: seq<ElementRecord>, row: int, firstCol: int)
    ensures |SeriesCells(series, row, firstCol)| == |series|
    ensures forall i :: 0 <= i < |series| ==>
              SeriesCells(series, row, firstCol)[i] == Cell(Element(series[i]), Some(row), Some(firstCol + i))
  {
    if series != [] {
      SeriesCellsColumns(series[..|series| - 1], row, firstCol);
    }
  }

  /** `createElement(el)`: a cell at (Period, Group) as the record gives them. */
  function MainCell(e: ElementRecord): Cell {
    Cell(Element(e), e.period, e.group)
  }

  function MainCells(es: seq<ElementRecord>): seq<Cell> {
    seq(|es|, i requires 0 <= i < |es| => MainCell(es[i]))
  }

  /** The cells of main-table periods `lo` to `hi - 1`, drawn period by period. */
  function PeriodRows(main: seq<ElementRecord>, lo: int, hi: int): seq<Cell>
    decreases hi - lo
  {
    if hi <= lo then []
    else PeriodRows(main, lo, hi - 1) + MainCells(PeriodMembers(main, hi - 1))
  }

  function OptionalCell(found: Option<ElementRecord>): seq<Cell> {
    if found.Some? then [MainCell(found.value)] else []
  }

  /** Period 1: H, the gap over columns 2 to 17, He. */
  function Period1Cells(data: seq<ElementRecord>): seq<Cell> {
    OptionalCell(FindSymbol(data, "H")) + EmptyCells(1, 16, 2) + OptionalCell(FindSymbol(data, "He"))
  }

  /** Periods 2 and 3, each followed by its gap over groups 3 to 12. */
  function ShortPeriodCells(main: seq<ElementRecord>): seq<Cell> {
    MainCells(PeriodMembers(main, 2)) + EmptyCells(2, 10, 3)
    + MainCells(PeriodMembers(main, 3)) + EmptyCells(3, 10, 3)
  }

  /** One f-block row: three leading gaps, then the series from column 4. */
  function SeriesRow(series: seq<ElementRecord>, row: int): seq<Cell> {
    EmptyCells(row, 3, 1) + SeriesCells(series, row, SeriesFirstColumn)
  }

  /** Rows 8 and 9: the lanthanides, then the actinides. */
  function FBlockCells(data: seq<ElementRecord>): seq<Cell> {
    SeriesRow(LanthanideSeries(data), 8) + SeriesRow(ActinideSeries(data), 9)
  }

  /** Every cell `renderTable(data)` draws, in drawing order. */
  function Layout(data: seq<ElementRecord>): seq<Cell> {
    var main := MainTable(data);
    Period1Cells(data) + ShortPeriodCells(main) + PeriodRows(main, 4, 8)
    + [LanthanidePlaceholderCell, ActinidePlaceholderCell] + FBlockCells(data)
  }

  /** How a record comes to be drawn: looked up as H or He, as a main-table
      record of periods 2 to 7 at its (Period, Group), or as a series member
      in row 8 or 9 from column 4 on. */
  predicate DrawnAs(data: seq<ElementRecord>, c: Cell) {
    c.kind.Element? &&
    var e := c.kind.e;
    e in data &&
    (|| ((e.symbol == "H" || e.symbol == "He") && c == MainCell(e))
     || (!IsFBlock(e) && e.period.Some? && 2 <= e.period.value <= 7 && c == MainCell(e))
     || (InLanthanideSeries(e) && c.row == Some(8) && c.col.Some? && c.col.value >= SeriesFirstColumn)
     || (InActinideSeries(e) && c.row == Some(9) && c.col.Some? && c.col.value >= SeriesFirstColumn))
  }

  lemma PeriodRowsDrawn(data: seq<ElementRecord>, lo: int, hi: int)
    requires 2 <= lo
    requires hi <= 8
    decreases hi - lo
    ensures forall c :: c in PeriodRows(MainTable(data), lo, hi) ==>
      c.kind.Element? && c.kind.e in MainTable(data) && c == MainCell(c.kind.e) &&
      c.kind.e.period.Some? && lo <= c.kind.e.period.value < hi && DrawnAs(data, c)
  {
    if lo < hi {
      PeriodRowsDrawn(data, lo, hi - 1);
      PeriodCellsDrawn(data, hi - 1);
    }
  }

  /** The cells of one main-table period of 2 to 7 are drawn at their records'
      (Period, Group). */
  lemma PeriodCellsDrawn(data: seq<ElementRecord>, p: int)
    requires 2 <= p <= 7
    ensures forall c :: c in MainCells(PeriodMembers(MainTable(data), p)) ==>
      c.kind.Element? && c.kind.e in MainTable(data) && c == MainCell(c.kind.e) &&
      c.kind.e.period == Some(p) && DrawnAs(data, c)
  {
    var members := PeriodMembers(MainTable(data), p);
    MainTableAndFBlockDisjoint(data);
    forall c | c in MainCells(members)
      ensures c.kind.Element? && c.kind.e in MainTable(data) && c == MainCell(c.kind.e)
      ensures c.kind.e.period == Some(p) && DrawnAs(data, c)
    {
      var i :| 0 <= i < |members| && c == MainCell(members[i]);
      assert members[i] in members;
    }
  }

  lemma SeriesCellsDrawn(data: seq<ElementRecord>, series: seq<ElementRecord>, row: int)
    requires row == 8 || row == 9
    requires forall e :: e in series ==> e in data
    requires forall e :: e in series ==> if row == 8 then InLanthanideSeries(e) else InActinideSeries(e)
    ensures forall c :: c in SeriesCells(series, row, SeriesFirstColumn) ==> DrawnAs(data, c)
  {
    SeriesCellsColumns(series, row, SeriesFirstColumn);
    var cs := SeriesCells(series, row, SeriesFirstColumn);
    forall c | c in cs ensures DrawnAs(data, c) {
      var i :| 0 <= i < |cs| && cs[i] == c;
      assert series[i] in series;
    }
  }

  lemma FBlockCellsDrawn(data: seq<ElementRecord>)
    ensures forall c :: c in FBlockCells(data) && c.kind.Element? ==> DrawnAs(data, c)
  {
    LanthanideSeriesMembers(data);
    ActinideSeriesMembers(data);
    SeriesCellsDrawn(data, LanthanideSeries(data), 8);
    SeriesCellsDrawn(data, ActinideSeries(data), 9);
  }

  lemma Period1CellsDrawn(data: seq<ElementRecord>)
    ensures forall c :: c in Period1Cells(data) && c.kind.Element? ==> DrawnAs(data, c)
  {
  }

  lemma ShortPeriodCellsDrawn(data: seq<ElementRecord>)
    ensures forall c :: c in ShortPeriodCells(MainTable(data)) && c.kind.Element? ==> DrawnAs(data, c)
  {
    var main := MainTable(data);
    var a := MainCells(PeriodMembers(main, 2));
    var b := MainCells(PeriodMembers(main, 3));
    PeriodCellsDrawn(data, 2);
    PeriodCellsDrawn(data, 3);
    forall c | c in ShortPeriodCells(main) && c.kind.Element? ensures DrawnAs(data, c) {
      assert c in a || c in EmptyCells(2, 10, 3) || c in b || c in EmptyCells(3, 10, 3);
    }
  }

  /** Every element cell of the table is drawn in one of the ways `DrawnAs`
      lists; in particular no cell shows a record that is not in the data,
      and a record outside the f-block whose Period is missing or outside
      2..7 is drawn only when its symbol is H or He. */
  lemma LayoutCellsDrawn(data: seq<ElementRecord>)
    ensures forall c :: c in Layout(data) && c.kind.Element? ==> DrawnAs(data, c)
  {
    Period1CellsDrawn(data);
    ShortPeriodCellsDrawn(data);
    PeriodRowsDrawn(data, 4, 8);
    FBlockCellsDrawn(data);
    var main := MainTable(data);
    forall c | c in Layout(data) && c.kind.Element? ensures DrawnAs(data, c) {
      assert || c in Period1Cells(data) || c in ShortPeriodCells(main) || c in PeriodRows(main, 4, 8)
             || c in [LanthanidePlaceholderCell, ActinidePlaceholderCell] || c in FBlockCells(data);
    }
  }

  lemma MainCellsContain(es: seq<ElementRecord>, e: ElementRecord)
    requires e in es
    ensures MainCell(e) in MainCells(es)
  {
    var i :| 0 <= i < |es| && es[i] == e;
    assert MainCells(es)[i] == MainCell(e);
  }

  /** Every main-table record of periods 2 to 7 is drawn at its (Period, Group). */
  lemma MainTablePlaced(data: seq<ElementRecord>, e: ElementRecord)
    requires e in data && !IsFBlock(e)
    requires e.period.Some? && 2 <= e.period.value <= 7
    ensures MainCell(e) in Layout(data)
  {
    var main := MainTable(data);
    MainTableAndFBlockDisjoint(data);
    var p := e.period.value;
    assert e in main;
    assert e in PeriodMembers(main, p);
    MainCellsContain(PeriodMembers(main, p), e);
    if p >= 4 {
      PeriodRowsContain(main, 4, 8, p);
    } else {
      ShortPeriodCellsContain(main, p);
    }
    InLayout(data, MainCell(e));
  }

  lemma ShortPeriodCellsContain(main: seq<ElementRecord>, p: int)
    requires p == 2 || p == 3
    ensures forall c :: c in MainCells(PeriodMembers(main, p)) ==> c in ShortPeriodCells(main)
  {
    var a := MainCells(PeriodMembers(main, 2));
    var b := MainCells(PeriodMembers(main, 3));
    assert ShortPeriodCells(main) == a + EmptyCells(2, 10, 3) + b + EmptyCells(3, 10, 3);
  }

  /** A cell of any of the table's parts is a cell of the table. */
  lemma InLayout(data: seq<ElementRecord>, c: Cell)
    requires || c in Period1Cells(data)
             || c in ShortPeriodCells(MainTable(data))
             || c in PeriodRows(MainTable(data), 4, 8)
             || c in FBlockCells(data)
    ensures c in Layout(data)
  {
  }

  lemma {:induction false} PeriodRowsContain(main: seq<ElementRecord>, lo: int, hi: int, p: int)
    requires lo <= p < hi
    decreases hi - lo
    ensures forall c :: c in MainCells(PeriodMembers(main, p)) ==> c in PeriodRows(main, lo, hi)
  {
    if p < hi - 1 {
      PeriodRowsContain(main, lo, hi - 1, p);
    }
  }

  /** Each lanthanide-series record is drawn in row 8 at column 4 + its rank
      by atomic number; each actinide-series record likewise in row 9. */
  lemma FBlockPlaced(data: seq<ElementRecord>, e: ElementRecord)
    requires e in data
    ensures InLanthanideSeries(e) ==>
              exists i :: 0 <= i < |LanthanideSeries(data)| && LanthanideSeries(data)[i] == e
                          && Cell(Element(e), Some(8), Some(SeriesFirstColumn + i)) in Layout(data)
    ensures InActinideSeries(e) ==>
              exists i :: 0 <= i < |ActinideSeries(data)| && ActinideSeries(data)[i] == e
                          && Cell(Element(e), Some(9), Some(SeriesFirstColumn + i)) in Layout(data)
  {
    LanthanideSeriesMembers(data);
    ActinideSeriesMembers(data);
    SeriesCellsColumns(LanthanideSeries(data), 8, SeriesFirstColumn);
    SeriesCellsColumns(ActinideSeries(data), 9, SeriesFirstColumn);
    if InLanthanideSeries(e) {
      var i :| 0 <= i < |LanthanideSeries(data)| && LanthanideSeries(data)[i] == e;
      var c := Cell(Element(e), Some(8), Some(SeriesFirstColumn + i));
      assert SeriesCells(LanthanideSeries(data), 8, SeriesFirstColumn)[i] == c;
      assert c in SeriesRow(LanthanideSeries(data), 8);
      assert c in FBlockCells(data);
    }
    if InActinideSeries(e) {
      var i :| 0 <= i < |ActinideSeries(data)| && ActinideSeries(data)[i] == e;
      var c := Cell(Element(e), Some(9), Some(SeriesFirstColumn + i));
      assert SeriesCells(ActinideSeries(data), 9, SeriesFirstColumn)[i] == c;
      assert c in SeriesRow(ActinideSeries(data), 9);
      assert c in FBlockCells(data);
    }
  }
}
