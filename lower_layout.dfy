// Grid placement in the second version of the script: every record is
// drawn as one cell whose grid row and column are computed from its
// Group, Period and atomic number; f-block members are found by
// atomic-number range and laid out from column 3.
module LowerLayout {
  import opened Seqs
  import opened Elements

  datatype Position = Position(row: int, col: int)

  const LanthanumNumber := 57
  const LutetiumNumber := 71
  const ActiniumNumber := 89
  const LawrenciumNumber := 103
  /** The column the first member of each f-block series is drawn in. */
  const SeriesFirstColumn := 3

  /** JavaScript truthiness of a number that may be `null`: `null` and 0 are false. */
  predicate Truthy(v: Option<int>) {
    v.Some? && v.value != 0
  }

  predicate InLanthanideRange(n: int) {
    LanthanumNumber <= n <= LutetiumNumber
  }

  predicate InActinideRange(n: int) {
    ActiniumNumber <= n <= LawrenciumNumber
  }

  predicate HasGroupAndPeriod(e: ElementRecord) {
    Truthy(e.period) && Truthy(e.group)
  }

  /** The grid position `renderTable` gives a record's cell, or `None` when
      it sets no position and leaves the cell to automatic placement. */
  function GridPosition(e: ElementRecord): (r: Option<Position>)
    ensures HasGroupAndPeriod(e) && !InLanthanideRange(e.atomicNumber) && !InActinideRange(e.atomicNumber)
            ==> r == Some(Position(e.period.value, e.group.value))
    ensures HasGroupAndPeriod(e) && InLanthanideRange(e.atomicNumber)
            ==> r == Some(Position(8, e.atomicNumber - 54)) && 3 <= r.value.col <= 17
    ensures HasGroupAndPeriod(e) && InActinideRange(e.atomicNumber)
            ==> r == Some(Position(9, e.atomicNumber - 86)) && 3 <= r.value.col <= 17
    ensures !HasGroupAndPeriod(e) && e.atomicNumber == 57 ==> r == Some(Position(6, 3))
    ensures !HasGroupAndPeriod(e) && e.atomicNumber == 89 ==> r == Some(Position(7, 3))
    ensures !HasGroupAndPeriod(e) && e.atomicNumber != 57 && e.atomicNumber != 89 ==> r == None
  {
    if HasGroupAndPeriod(e) then
      var n := e.atomicNumber;
      if InLanthanideRange(n) then
        Some(Position(8, (n - LanthanumNumber) + SeriesFirstColumn))
      else if InActinideRange(n) then
        Some(Position(9, (n - ActiniumNumber) + SeriesFirstColumn))
      else
        Some(Position(e.period.value, e.group.value))
    else if e.atomicNumber == LanthanumNumber then
      Some(Position(6, 3))
    else if e.atomicNumber == ActiniumNumber then
      Some(Position(7, 3))
    else
      None
  }

  /** A record placed in the f-block rows with its Group and Period present. */
  predicate InFBlockRows(e: ElementRecord) {
    HasGroupAndPeriod(e) && (InLanthanideRange(e.atomicNumber) || InActinideRange(e.atomicNumber))
  }

  /** Two f-block records with different atomic numbers never share a cell. */
  lemma FBlockCollisionFree(a: ElementRecord, b: ElementRecord)
    requires InFBlockRows(a) && InFBlockRows(b)
    requires a.atomicNumber != b.atomicNumber
    ensures GridPosition(a) != GridPosition(b)
  {
  }

  /** Consecutive atomic numbers of one series sit side by side in one row. */
  lemma FBlockContiguous(a: ElementRecord, b: ElementRecord)
    requires InFBlockRows(a) && InFBlockRows(b)
    requires b.atomicNumber == a.atomicNumber + 1
    requires InLanthanideRange(a.atomicNumber) == InLanthanideRange(b.atomicNumber)
    ensures GridPosition(b).value.row == GridPosition(a).value.row
    ensures GridPosition(b).value.col == GridPosition(a).value.col + 1
  {
  }

  /** The f-block rows hold only f-block records as long as the main table's
      periods stay within 1..7: they never collide with a main-table cell,
      nor with the La and Ac stand-ins at (6,3) and (7,3). */
  lemma FBlockRowsReserved(a: ElementRecord, b: ElementRecord)
    requires InFBlockRows(a) && !InFBlockRows(b)
    requires b.period.Some? ==> 1 <= b.period.value <= 7
    ensures GridPosition(a) != GridPosition(b)
  {
  }

  /** A cell of the rendered table. The two gap cells carry no position of
      their own: their CSS class places them over groups 3-12 of periods 2
      and 3. */
  datatype Cell =
    | GapCell(period: int)
    | ElementCell(e: ElementRecord, pos: Option<Position>)

  /** The cells drawn for `elementsToRender`, in drawing order. */
  function ElementCells(elementsToRender: seq<ElementRecord>): seq<Cell>
  {
    if elementsToRender == [] then []
    else
      var last := elementsToRender[|elementsToRender| - 1];
      ElementCells(elementsToRender[..|elementsToRender| - 1]) + [ElementCell(last, GridPosition(last))]
  }

  /** The whole table `renderTable` draws: the two gaps, then one cell per record. */
  function Rendered(elementsToRender: seq<ElementRecord>): seq<Cell> {
    [GapCell(2), GapCell(3)] + ElementCells(elementsToRender)
  }

  /** Every record gets exactly one cell, in the order given, at the position
      `GridPosition` computes; nothing else but the two gaps is drawn. */
  lemma {:induction false} RenderedCells(elementsToRender: seq<ElementRecord>)
    ensures |Rendered(elementsToRender)| == |elementsToRender| + 2
    ensures Rendered(elementsToRender)[..2] == [GapCell(2), GapCell(3)]
    ensures forall i :: 0 <= i < |elementsToRender| ==>
              Rendered(elementsToRender)[i + 2]
              == ElementCell(elementsToRender[i], GridPosition(elementsToRender[i]))
  {
    ElementCellsAt(elementsToRender);
  }

  lemma {:induction false} ElementCellsAt(es: seq<ElementRecord>)
    ensures |ElementCells(es)| == |es|
    ensures forall i :: 0 <= i < |es| ==> ElementCells(es)[i] == ElementCell(es[i], GridPosition(es[i]))
  {
    if es != [] {
      ElementCellsAt(es[..|es| - 1]);
    }
  }
}
