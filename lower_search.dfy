// The search of the second version of the script: the query is lower-cased
// and trimmed, and the table is redrawn from the records that match it.
module LowerSearch {
  import opened Seqs
  import opened Text
  import opened Elements

  /** The query text the handler works with: `value.toLowerCase().trim()`. */
  function Query(value: string): string {
    Trim(ToLower(value))
  }

  /** The filter callback: the lower-cased name, the lower-cased symbol or the
      decimal atomic number includes the query. An empty name or symbol and
      the atomic number 0 are falsy and never match. */
  predicate Matches(e: ElementRecord, q: string) {
    || (e.name != "" && Contains(ToLower(e.name), q))
    || (e.symbol != "" && Contains(ToLower(e.symbol), q))
    || (e.atomicNumber != 0 && Contains(IntToDecimal(e.atomicNumber), q))
  }

  /** The records the handler hands to `renderTable` for the input `value`. */
  function Search(allElements: seq<ElementRecord>, value: string): (r: seq<ElementRecord>)
    ensures Query(value) == "" ==> r == allElements
    ensures Query(value) != "" ==> forall e :: e in r ==> e in allElements && Matches(e, Query(value))
    ensures Query(value) != "" ==> forall e :: e in allElements && Matches(e, Query(value)) ==> e in r
  {
    var q := Query(value);
    if q == "" then allElements else Filter(allElements, e => Matches(e, q))
  }

  /** A query of whitespace only (the empty one included) shows the whole
      collection unchanged. */
  lemma BlankQueryShowsAll(allElements: seq<ElementRecord>, value: string)
    requires AllWhitespace(value)
    ensures Search(allElements, value) == allElements
  {
    ToLowerKeepsBlank(value);
    TrimEmptyIffBlank(ToLower(value));
  }

  /** A query with any non-whitespace character filters. */
  lemma NonBlankQueryFilters(value: string)
    requires !AllWhitespace(value)
    ensures Query(value) != ""
  {
    TrimEmptyIffBlank(ToLower(value));
    var i :| 0 <= i < |value| && !IsWhitespace(value[i]);
    assert !IsWhitespace(ToLower(value)[i]);
  }

  /** Searching keeps the order of the collection: the result for a
      concatenation is the concatenation of the results. Together with
      `Search`'s membership clauses this makes the result exactly the
      subsequence of matching records. */
  lemma SearchKeepsOrder(a: seq<ElementRecord>, b: seq<ElementRecord>, value: string)
    ensures Search(a + b, value) == Search(a, value) + Search(b, value)
  {
    var q := Query(value);
    if q != "" {
      FilterConcat(a, b, e => Matches(e, q));
    }
  }

  /** Searching the result again with the same input changes nothing. */
  lemma SearchIdempotent(allElements: seq<ElementRecord>, value: string)
    ensures Search(Search(allElements, value), value) == Search(allElements, value)
  {
    var q := Query(value);
    if q != "" {
      FilterIdempotent(allElements, e => Matches(e, q));
    }
  }

  /** A record is found by its own symbol, in any letter case and with any
      surrounding whitespace: searching "h" or " H " finds hydrogen. */
  lemma FoundBySymbol(allElements: seq<ElementRecord>, e: ElementRecord, value: string)
    requires e in allElements && e.symbol != ""
    requires Query(value) == ToLower(e.symbol)
    ensures e in Search(allElements, value)
  {
    ContainsSelfAndEmpty(ToLower(e.symbol));
  }

  /** A record is found by its own atomic number. */
  lemma FoundByAtomicNumber(allElements: seq<ElementRecord>, e: ElementRecord, value: string)
    requires e in allElements && e.atomicNumber != 0
    requires Query(value) == IntToDecimal(e.atomicNumber)
    ensures e in Search(allElements, value)
  {
    ContainsSelfAndEmpty(IntToDecimal(e.atomicNumber));
  }
}
