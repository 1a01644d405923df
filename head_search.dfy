// The search of the first version of the script, which hides and shows the
// already drawn cells. For each `.element` cell it reads the symbol and
// atomic-number texts back out of the cell; the two series stand-ins are
// matched on their "57-71" / "89-103" label instead.
module HeadSearch {
  import opened Seqs
  import opened Text
  import opened Elements
  import opened HeadLayout
  import LowerSearch

  /** A stand-in stays visible when its label includes the search term, or
      when the term is empty. */
  predicate PlaceholderShown(labelText: string, searchTerm: string) {
    Contains(ToLower(labelText), searchTerm) || searchTerm == ""
  }

  /** The empty-term branch adds nothing: every label includes "". */
  lemma PlaceholderRule(labelText: string, searchTerm: string)
    ensures PlaceholderShown(labelText, searchTerm) <==> Contains(ToLower(labelText), searchTerm)
  {
    ContainsSelfAndEmpty(ToLower(labelText));
  }

  /** `elementsData.find(d => d.Symbol && d.Symbol.toLowerCase() === symbol)`. */
  function RecordForSymbol(elementsData: seq<ElementRecord>, symbol: string): Option<ElementRecord> {
    Find(elementsData, (d: ElementRecord) => d.symbol != "" && ToLower(d.symbol) == symbol)
  }

  /** The test applied to a drawn element cell showing record `e`: the record
      found by the cell's lower-cased symbol text has a name including the
      term, or the symbol text or the atomic-number text includes it. A cell
      whose symbol finds no record is hidden. */
  predicate ElementShown(e: ElementRecord, searchTerm: string, elementsData: seq<ElementRecord>) {
    var symbol := ToLower(e.symbol);
    var atomicNumber := IntToDecimal(e.atomicNumber);
    match RecordForSymbol(elementsData, symbol)
    case None => false
    case Some(d) =>
      Contains(ToLower(d.name), searchTerm) || Contains(symbol, searchTerm) || Contains(atomicNumber, searchTerm)
  }

  /** Whether a searched cell (anything but a gap) stays visible. */
  predicate Shown(kind: CellKind, searchTerm: string, elementsData: seq<ElementRecord>)
    requires !kind.Gap?
  {
    match kind
    case Element(e) => ElementShown(e, searchTerm, elementsData)
    case LanthanidePlaceholder => PlaceholderShown("57-71", searchTerm)
    case ActinidePlaceholder => PlaceholderShown("89-103", searchTerm)
  }

  /** The `hidden` flags after a search for `searchTerm`: gap cells are not
      `.element` cells and keep their flag; every other cell is hidden
      exactly when it is not shown. */
  function HiddenAfterSearch(cells: seq<Cell>, hidden: seq<bool>, searchTerm: string,
                             elementsData: seq<ElementRecord>): (r: seq<bool>)
    requires |hidden| == |cells|
    ensures |r| == |cells|
    ensures forall k :: 0 <= k < |cells| && cells[k].kind.Gap? ==> r[k] == hidden[k]
    ensures forall k :: 0 <= k < |cells| && !cells[k].kind.Gap? ==>
              r[k] == !Shown(cells[k].kind, searchTerm, elementsData)
  {
    seq(|cells|, k requires 0 <= k < |cells| =>
      if cells[k].kind.Gap? then hidden[k] else !Shown(cells[k].kind, searchTerm, elementsData))
  }

  /** Symbols are unique up to letter case. */
  predicate UniqueSymbols(elementsData: seq<ElementRecord>) {
    forall i, j ::
      (0 <= i < |elementsData| && 0 <= j < |elementsData|
       && ToLower(elementsData[i].symbol) == ToLower(elementsData[j].symbol)) ==> i == j
  }

  /** With unique symbols, the cell of record `e` is tested against `e` itself. */
  lemma RecordForOwnSymbol(elementsData: seq<ElementRecord>, e: ElementRecord)
    requires UniqueSymbols(elementsData)
    requires e in elementsData && e.symbol != ""
    ensures RecordForSymbol(elementsData, ToLower(e.symbol)) == Some(e)
  {
    var r := RecordForSymbol(elementsData, ToLower(e.symbol));
    var ie :| 0 <= ie < |elementsData| && elementsData[ie] == e;
    var id :| 0 <= id < |elementsData| && elementsData[id] == r.value;
  }

  /** An empty search term shows every drawn record whose symbol is present. */
  lemma EmptyTermShowsRecords(elementsData: seq<ElementRecord>, e: ElementRecord)
    requires e in elementsData && e.symbol != ""
    ensures ElementShown(e, "", elementsData)
  {
    var d := RecordForSymbol(elementsData, ToLower(e.symbol));
    assert d.Some?;
    ContainsSelfAndEmpty(ToLower(d.value.name));
  }

  /** The two versions agree on which records a query keeps: for a query
      without surrounding whitespace, symbols unique up to case, and a record
      with a symbol and a non-zero atomic number, the first version shows the
      record's cell exactly when the second version's filter keeps it. */
  lemma AgreesWithFilter(elementsData: seq<ElementRecord>, e: ElementRecord, value: string)
    requires UniqueSymbols(elementsData)
    requires e in elementsData && e.symbol != "" && e.atomicNumber != 0
    requires LowerSearch.Query(value) == ToLower(value) != ""
    ensures ElementShown(e, ToLower(value), elementsData) <==> LowerSearch.Matches(e, LowerSearch.Query(value))
  {
    RecordForOwnSymbol(elementsData, e);
    EmptyContainsOnlyEmpty(ToLower(value));
  }
}
