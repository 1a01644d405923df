// The page state of the second version of the script: the module-level
// `allElements` collection and the table container, which `renderTable`
// clears and refills on every load and every search keystroke.
module LowerPage {
  import opened Elements
  import opened LowerLayout
  import opened LowerSearch

  class Page {
    /** Every record fetched at start-up. */
    var allElements: seq<ElementRecord>
    /** The cells of the table container, in document order. */
    var cells: seq<Cell>

    constructor ()
      ensures allElements == [] && cells == []
    {
      allElements := [];
      cells := [];
    }

    /** `renderTable(elementsToRender)`: empties the table, appends the two gap
        cells, then one cell per record in the order given. */
    method RenderTable(elementsToRender: seq<ElementRecord>)
      modifies this`cells
      ensures cells == Rendered(elementsToRender)
    {
      cells := [];
      cells := cells + [GapCell(2)];
      cells := cells + [GapCell(3)];
      var i := 0;
      while i < |elementsToRender|
        invariant 0 <= i <= |elementsToRender|
        invariant cells == [GapCell(2), GapCell(3)] + ElementCells(elementsToRender[..i])
      {
        var el := elementsToRender[i];
        assert elementsToRender[..i + 1][..i] == elementsToRender[..i];
        cells := cells + [ElementCell(el, GridPosition(el))];
        i := i + 1;
      }
      assert elementsToRender[..i] == elementsToRender;
    }

    /** The fetch succeeded: the dataset is stored and drawn in full. */
    method OnLoad(data: seq<ElementRecord>)
      modifies this
      ensures allElements == data && cells == Rendered(data)
    {
      allElements := data;
      RenderTable(allElements);
    }

    /** The search box's `input` handler: redraws the table from the records
        matching `value`; the stored collection is left as it was. */
    method OnSearchInput(value: string)
      modifies this`cells
      ensures cells == Rendered(Search(allElements, value))
    {
      var q := Query(value);
      var filteredElements: seq<ElementRecord>;
      if q == "" {
        filteredElements := allElements;
      } else {
        filteredElements := Seqs.Filter(allElements, e => Matches(e, q));
      }
      RenderTable(filteredElements);
    }
  }

  /** A query no record matches leaves only the two gap cells on screen. */
  lemma NoMatchDrawsOnlyGaps(allElements: seq<ElementRecord>, value: string)
    requires Query(value) != ""
    requires forall e :: e in allElements ==> !Matches(e, Query(value))
    ensures Rendered(Search(allElements, value)) == [GapCell(2), GapCell(3)]
  {
  }

  /** Clearing the query after any search redraws exactly the table the
      initial load drew. */
  lemma ClearingQueryRestoresTable(allElements: seq<ElementRecord>, value: string)
    requires Text.AllWhitespace(value)
    ensures Rendered(Search(allElements, value)) == Rendered(allElements)
  {
    BlankQueryShowsAll(allElements, value);
  }
}
