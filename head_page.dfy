// The page state of the first version of the script: the fetched
// `elementsData`, the cells of the table container in document order, and
// each cell's `hidden` class, which the search toggles in place.
module HeadPage {
  import opened Seqs
  import opened Text
  import opened Elements
  import opened HeadLayout
  import opened HeadSearch

  class Page {
    var elementsData: seq<ElementRecord>
    var cells: seq<Cell>
    /** `hidden[k]`: cell `k` carries the `hidden` class. */
    var hidden: seq<bool>

    ghost predicate Valid()
      reads this
    {
      |hidden| == |cells|
    }

    /** No cell is hidden. */
    ghost predicate AllVisible()
      reads this
    {
      Valid() && forall k :: 0 <= k < |hidden| ==> !hidden[k]
    }

    /** The flags of the cells present in `before` are kept, and every cell
        appended since is visible. */
    ghost predicate AppendedVisible(before: seq<bool>)
      reads this
    {
      Valid() && |before| <= |hidden| && hidden[..|before|] == before
      && forall k :: |before| <= k < |hidden| ==> !hidden[k]
    }

    constructor ()
      ensures AllVisible() && elementsData == [] && cells == []
    {
      elementsData := [];
      cells := [];
      hidden := [];
    }

    /** `tableDiv.appendChild`: a freshly made cell, not hidden. */
    method Append(c: Cell)
      requires Valid()
      modifies this`cells, this`hidden
      ensures Valid()
      ensures cells == old(cells) + [c] && hidden == old(hidden) + [false]
      ensures old(AllVisible()) ==> AllVisible()
    {
      cells := cells + [c];
      hidden := hidden + [false];
    }

    /** `appendEmptyCells(row, count, startColumn)`. */
    method AppendEmptyCells(row: int, count: int, startColumn: int)
      requires Valid()
      modifies this`cells, this`hidden
      ensures Valid()
      ensures cells == old(cells) + EmptyCells(row, count, startColumn)
      ensures AppendedVisible(old(hidden))
      ensures old(AllVisible()) ==> AllVisible()
    {
      var i := 0;
      while i < count
        invariant Valid()
        invariant 0 <= i <= if count < 0 then 0 else count
        invariant cells == old(cells) + EmptyCells(row, i, startColumn)
        invariant AppendedVisible(old(hidden))
      {
        assert EmptyCells(row, i + 1, startColumn)
               == EmptyCells(row, i, startColumn) + [Cell(Gap, Some(row), Some(startColumn + i))];
        Append(Cell(Gap, Some(row), Some(startColumn + i)));
        i := i + 1;
      }
    }

    /** `createElement(el)` for the main table. */
    method CreateElement(el: ElementRecord)
      requires Valid()
      modifies this`cells, this`hidden
      ensures Valid()
      ensures cells == old(cells) + [MainCell(el)] && hidden == old(hidden) + [false]
      ensures old(AllVisible()) ==> AllVisible()
    {
      Append(MainCell(el));
    }

    /** `es.forEach(el => createElement(el))`. */
    method CreateElements(es: seq<ElementRecord>)
      requires Valid()
      modifies this`cells, this`hidden
      ensures Valid()
      ensures cells == old(cells) + MainCells(es)
      ensures AppendedVisible(old(hidden))
      ensures old(AllVisible()) ==> AllVisible()
    {
      var i := 0;
      while i < |es|
        invariant Valid()
        invariant 0 <= i <= |es|
        invariant cells == old(cells) + MainCells(es[..i])
        invariant AppendedVisible(old(hidden))
      {
        assert MainCells(es[..i + 1]) == MainCells(es[..i]) + [MainCell(es[i])];
        CreateElement(es[i]);
        i := i + 1;
      }
      assert es[..i] == es;
    }

    /** The f-block `forEach`: each record of `series` in row `row`, at a
        column counter that starts at 4 and is incremented after each use. */
    method AppendSeries(series: seq<ElementRecord>, row: int)
      requires Valid()
      modifies this`cells, this`hidden
      ensures Valid()
      ensures cells == old(cells) + SeriesCells(series, row, SeriesFirstColumn)
      ensures AppendedVisible(old(hidden))
      ensures old(AllVisible()) ==> AllVisible()
    {
      var currentCol := SeriesFirstColumn;
      var i := 0;
      while i < |series|
        invariant Valid()
        invariant 0 <= i <= |series|
        invariant currentCol == SeriesFirstColumn + i
        invariant cells == old(cells) + SeriesCells(series[..i], row, SeriesFirstColumn)
        invariant AppendedVisible(old(hidden))
      {
        var el := series[i];
        assert series[..i + 1][..i] == series[..i];
        Append(Cell(Element(el), Some(row), Some(currentCol)));
        currentCol := currentCol + 1;
        i := i + 1;
      }
      assert series[..i] == series;
    }

    /** Period 1: H, the gap over columns 2 to 17, He. */
    method DrawPeriod1(data: seq<ElementRecord>)
      requires AllVisible()
      modifies this`cells, this`hidden
      ensures AllVisible()
      ensures cells == old(cells) + Period1Cells(data)
    {
      ghost var before := cells;
      var h := FindSymbol(data, "H");
      if h.Some? { CreateElement(h.value); }
      assert cells == before + OptionalCell(h);
      AppendEmptyCells(1, 16, 2);
      ConcatAssoc(before, OptionalCell(h), EmptyCells(1, 16, 2));
      ghost var gapDrawn := cells;
      var he := FindSymbol(data, "He");
      if he.Some? { CreateElement(he.value); }
      assert cells == gapDrawn + OptionalCell(he);
      ConcatAssoc(before, OptionalCell(h) + EmptyCells(1, 16, 2), OptionalCell(he));
    }

    /** Periods 2 and 3, each followed by its gap over groups 3 to 12. */
    method DrawShortPeriods(mainTableElements: seq<ElementRecord>)
      requires AllVisible()
      modifies this`cells, this`hidden
      ensures AllVisible()
      ensures cells == old(cells) + ShortPeriodCells(mainTableElements)
    {
      ghost var before := cells;
      ghost var period2 := MainCells(PeriodMembers(mainTableElements, 2));
      ghost var period3 := MainCells(PeriodMembers(mainTableElements, 3));
      CreateElements(PeriodMembers(mainTableElements, 2));
      AppendEmptyCells(2, 10, 3);
      ConcatAssoc(before, period2, EmptyCells(2, 10, 3));
      CreateElements(PeriodMembers(mainTableElements, 3));
      ConcatAssoc(before, period2 + EmptyCells(2, 10, 3), period3);
      AppendEmptyCells(3, 10, 3);
      ConcatAssoc(before, period2 + EmptyCells(2, 10, 3) + period3, EmptyCells(3, 10, 3));
    }

    /** `for (let p = 4; p <= 7; p++)`: periods 4 to 7. */
    method DrawLongPeriods(mainTableElements: seq<ElementRecord>)
      requires AllVisible()
      modifies this`cells, this`hidden
      ensures AllVisible()
      ensures cells == old(cells) + PeriodRows(mainTableElements, 4, 8)
    {
      var p := 4;
      while p <= 7
        invariant 4 <= p <= 8
        invariant AllVisible()
        invariant cells == old(cells) + PeriodRows(mainTableElements, 4, p)
      {
        ghost var drawn := cells;
        CreateElements(PeriodMembers(mainTableElements, p));
        assert cells == drawn + MainCells(PeriodMembers(mainTableElements, p));
        assert PeriodRows(mainTableElements, 4, p + 1)
               == PeriodRows(mainTableElements, 4, p) + MainCells(PeriodMembers(mainTableElements, p));
        ConcatAssoc(old(cells), PeriodRows(mainTableElements, 4, p), MainCells(PeriodMembers(mainTableElements, p)));
        p := p + 1;
      }
      assert p == 8;
    }

    /** One f-block row: three leading gaps, then the series from column 4. */
    method DrawSeriesRow(series: seq<ElementRecord>, row: int)
      requires AllVisible()
      modifies this`cells, this`hidden
      ensures AllVisible()
      ensures cells == old(cells) + SeriesRow(series, row)
    {
      ghost var before := cells;
      AppendEmptyCells(row, 3, 1);
      AppendSeries(series, row);
      ConcatAssoc(before, EmptyCells(row, 3, 1), SeriesCells(series, row, SeriesFirstColumn));
    }

    /** Rows 8 and 9: the lanthanides, then the actinides. */
    method DrawFBlock(data: seq<ElementRecord>)
      requires AllVisible()
      modifies this`cells, this`hidden
      ensures AllVisible()
      ensures cells == old(cells) + FBlockCells(data)
    {
      ghost var before := cells;
      var lanthanides := LanthanideSeries(data);
      var actinides := ActinideSeries(data);
      DrawSeriesRow(lanthanides, 8);
      DrawSeriesRow(actinides, 9);
      ConcatAssoc(before, SeriesRow(lanthanides, 8), SeriesRow(actinides, 9));
    }

    /** `renderTable(data)`: clears the table and draws it afresh, every cell
        visible. */
    method RenderTable(data: seq<ElementRecord>)
      modifies this`cells, this`hidden
      ensures AllVisible()
      ensures cells == Layout(data)
    {
      cells, hidden := [], [];
      DrawPeriod1(data);
      assert cells == Period1Cells(data);
      var mainTableElements := MainTable(data);
      DrawShortPeriods(mainTableElements);
      DrawLongPeriods(mainTableElements);
      ghost var mainRows := cells;
      assert mainRows == Period1Cells(data) + ShortPeriodCells(mainTableElements)
                         + PeriodRows(mainTableElements, 4, 8);
      Append(LanthanidePlaceholderCell);
      Append(ActinidePlaceholderCell);
      ConcatAssoc(mainRows, [LanthanidePlaceholderCell], [ActinidePlaceholderCell]);
      assert cells == mainRows + [LanthanidePlaceholderCell, ActinidePlaceholderCell];
      DrawFBlock(data);
      assert cells == mainRows + [LanthanidePlaceholderCell, ActinidePlaceholderCell] + FBlockCells(data);
    }

    /** A successful fetch: the data is stored and the table drawn. */
    method OnLoad(data: seq<ElementRecord>)
      modifies this
      ensures elementsData == data && cells == Layout(data) && AllVisible()
    {
      elementsData := data;
      RenderTable(data);
    }

    /** The search box's `input` handler: every `.element` cell (element cells
        and the two stand-ins) is shown or hidden by the lower-cased input;
        gap cells, the table and the data are left as they were. */
    method OnSearchInput(value: string)
      requires Valid()
      modifies this`hidden
      ensures Valid()
      ensures hidden == HiddenAfterSearch(cells, old(hidden), ToLower(value), elementsData)
    {
      var searchTerm := ToLower(value);
      var k := 0;
      while k < |cells|
        invariant 0 <= k <= |cells|
        invariant |hidden| == |cells|
        invariant forall j :: k <= j < |cells| ==> hidden[j] == old(hidden)[j]
        invariant forall j :: 0 <= j < k ==>
                    hidden[j] == HiddenAfterSearch(cells, old(hidden), searchTerm, elementsData)[j]
      {
        if !cells[k].kind.Gap? {
          hidden := hidden[k := !Shown(cells[k].kind, searchTerm, elementsData)];
        }
        k := k + 1;
      }
    }
  }

  lemma ConcatAssoc<T>(a: seq<T>, b: seq<T>, c: seq<T>)
    ensures a + b + c == a + (b + c)
  {
  }

  /** Emptying the search box after any search makes every cell of the
      freshly drawn table visible again, as long as every record has a symbol. */
  lemma ClearingSearchShowsTable(data: seq<ElementRecord>, hidden: seq<bool>)
    requires |hidden| == |Layout(data)|
    requires forall e :: e in data ==> e.symbol != ""
    ensures forall k :: 0 <= k < |hidden| && !Layout(data)[k].kind.Gap? ==>
              !HiddenAfterSearch(Layout(data), hidden, ToLower(""), data)[k]
  {
    var cells := Layout(data);
    LayoutCellsDrawn(data);
    forall k | 0 <= k < |hidden| && !cells[k].kind.Gap?
      ensures Shown(cells[k].kind, "", data)
    {
      assert cells[k] in cells;
      match cells[k].kind {
        case Element(e) => EmptyTermShowsRecords(data, e);
        case LanthanidePlaceholder => ContainsSelfAndEmpty(ToLower("57-71"));
        case ActinidePlaceholder => ContainsSelfAndEmpty(ToLower("89-103"));
      }
    }
  }
}
