/** Area-of-interest index: a sparse uniform grid over entity positions, with circular queries
    that scan only the cells of their bounding box. Coordinates are exact reals. */
module AoiGrids {
  import opened Common

  const I32_MIN: int := -0x8000_0000
  const I32_MAX: int := 0x7FFF_FFFF
  const USIZE_MAX: nat := 0xFFFF_FFFF_FFFF_FFFF

  datatype Point = Point(x: Float, y: Float)

  datatype Cell = Cell(x: int, y: int)

  datatype AoiConfig = AoiConfig(cellSize: real, maxQueryCells: nat)

  datatype AoiError = InvalidConfig | InvalidPosition | InvalidRadius | AlreadyExists | NotFound
      | QueryTooLarge(cells: nat, maximum: nat)

  predicate ValidConfig(c: AoiConfig) {
    0.0 < c.cellSize && 0 < c.maxQueryCells
  }

  predicate FinitePoint(p: Point) {
    p.x.Finite? && p.y.Finite?
  }

  // ---------------------------------------------------------------- cells

  function Column(c: AoiConfig, v: real): int
    requires ValidConfig(c)
  {
    (v / c.cellSize).Floor
  }

  function CellOf(c: AoiConfig, p: Point): Result<Cell, AoiError>
    requires ValidConfig(c)
  {
    if !FinitePoint(p) then Err(InvalidPosition)
    else
      var x, y := Column(c, p.x.value), Column(c, p.y.value);
      if x < I32_MIN || x > I32_MAX || y < I32_MIN || y > I32_MAX then Err(InvalidPosition) else Ok(Cell(x, y))
  }

  lemma ScaleGrows(q: real, r: real, d: real)
    ensures 0.0 < d && q > r ==> q * d > r * d
  {
  }

  lemma DivideMonotone(a: real, b: real, d: real)
    requires 0.0 < d && a <= b
    ensures a / d <= b / d
  {
    var q, r := a / d, b / d;
    assert q * d == a && r * d == b;
    ScaleGrows(q, r, d);
  }

  lemma ColumnMonotone(c: AoiConfig, a: real, b: real)
    requires ValidConfig(c) && a <= b
    ensures Column(c, a) <= Column(c, b)
  {
    DivideMonotone(a, b, c.cellSize);
  }

  /** Where a column begins. */
  function Edge(c: AoiConfig, x: int): real {
    x as real * c.cellSize
  }

  /** A column holds exactly the coordinates from its edge up to the next one's. */
  lemma ColumnExactly(c: AoiConfig, v: real, x: int)
    requires ValidConfig(c)
    ensures Column(c, v) == x <==> Edge(c, x) <= v < Edge(c, x + 1)
  {
    var q := v / c.cellSize;
    EdgeAfter(c, v, x);
    EdgeAfter(c, v, x + 1);
    Floors(q, x);
    hide Edge;
  }

  lemma EdgeAfter(c: AoiConfig, v: real, x: int)
    requires ValidConfig(c)
    ensures v / c.cellSize < x as real <==> v < Edge(c, x)
  {
    var q, r, d := v / c.cellSize, x as real, c.cellSize;
    assert q * d == v;
    ScaleGrows(q, r, d);
    ScaleGrows(r, q, d);
    if q == r {
      assert q * d == r * d;
    }
  }

  lemma Floors(q: real, x: int)
    ensures q.Floor == x <==> x as real <= q < (x + 1) as real
  {
  }

  /** A position is filed under the cell whose square it lies in, and refused exactly when it is
      not finite or no representable cell has it. */
  lemma CellExactly(c: AoiConfig, p: Point, k: Cell)
    requires ValidConfig(c)
    ensures CellOf(c, p) == Ok(k) <==>
            && FinitePoint(p)
            && I32_MIN <= k.x <= I32_MAX && I32_MIN <= k.y <= I32_MAX
            && Edge(c, k.x) <= p.x.value < Edge(c, k.x + 1)
            && Edge(c, k.y) <= p.y.value < Edge(c, k.y + 1)
  {
    if FinitePoint(p) {
      ColumnExactly(c, p.x.value, k.x);
      ColumnExactly(c, p.y.value, k.y);
    }
    hide Column, Edge;
  }

  // ---------------------------------------------------------------- the index

  /** Every entity is filed under the cell of its position, under no other, and no cell is kept empty. */
  ghost predicate Filed<K>(c: AoiConfig, positions: map<K, Point>, cells: map<Cell, set<K>>)
    requires ValidConfig(c)
  {
    && (forall e :: e in positions ==> CellOf(c, positions[e]).Ok?)
    && (forall e :: e in positions ==>
        CellOf(c, positions[e]).value in cells && e in cells[CellOf(c, positions[e]).value])
    && (forall k :: k in cells ==> cells[k] != {})
    && (forall k, e :: k in cells && e in cells[k] ==> e in positions && CellOf(c, positions[e]) == Ok(k))
  }

  function Contents<K>(cells: map<Cell, set<K>>, k: Cell): set<K> {
    if k in cells then cells[k] else {}
  }

  function AddToCell<K>(cells: map<Cell, set<K>>, k: Cell, e: K): map<Cell, set<K>> {
    cells[k := Contents(cells, k) + {e}]
  }

  function RemoveFromCell<K(==)>(cells: map<Cell, set<K>>, k: Cell, e: K): map<Cell, set<K>> {
    if k in cells then
      if cells[k] - {e} == {} then cells - {k} else cells[k := cells[k] - {e}]
    else cells
  }

  lemma FiledAt<K>(c: AoiConfig, positions: map<K, Point>, cells: map<Cell, set<K>>, e: K, k: Cell)
    requires ValidConfig(c) && Filed(c, positions, cells)
    ensures e in Contents(cells, k) <==> e in positions && CellOf(c, positions[e]) == Ok(k)
  {
  }

  /** The cell table holds nothing of its own: the positions determine it. */
  lemma CellsAreDetermined<K(!new)>(
      c: AoiConfig, positions: map<K, Point>, cells: map<Cell, set<K>>, other: map<Cell, set<K>>)
    requires ValidConfig(c) && Filed(c, positions, cells) && Filed(c, positions, other)
    ensures cells == other
  {
    forall k
      ensures Contents(cells, k) == Contents(other, k)
    {
      forall e
        ensures e in Contents(cells, k) <==> e in Contents(other, k)
      {
        FiledAt(c, positions, cells, e, k);
        FiledAt(c, positions, other, e, k);
      }
    }
    forall k
      ensures k in cells <==> k in other
    {
      assert Contents(cells, k) == Contents(other, k);
    }
    forall k | k in cells
      ensures cells[k] == other[k]
    {
      assert Contents(cells, k) == Contents(other, k);
    }
  }

  lemma AddFiles<K>(c: AoiConfig, positions: map<K, Point>, cells: map<Cell, set<K>>, e: K, p: Point)
    requires ValidConfig(c) && Filed(c, positions, cells)
    requires e !in positions && CellOf(c, p).Ok?
    ensures Filed(c, positions[e := p], AddToCell(cells, CellOf(c, p).value, e))
  {
    hide CellOf;
  }

  lemma RemoveFiles<K>(c: AoiConfig, positions: map<K, Point>, cells: map<Cell, set<K>>, e: K)
    requires ValidConfig(c) && Filed(c, positions, cells)
    requires e in positions
    ensures Filed(c, positions - {e}, RemoveFromCell(cells, CellOf(c, positions[e]).value, e))
  {
    hide CellOf;
    var k := CellOf(c, positions[e]).value;
    var after := RemoveFromCell(cells, k, e);
    forall f | f in positions - {e}
      ensures CellOf(c, positions[f]).value in after && f in after[CellOf(c, positions[f]).value]
    {
      assert f in cells[CellOf(c, positions[f]).value];
    }
  }

  /** Filing under the old cell and then the new one, as a move does, is filing at the new position. */
  lemma MoveFiles<K>(c: AoiConfig, positions: map<K, Point>, cells: map<Cell, set<K>>, e: K, p: Point)
    requires ValidConfig(c) && Filed(c, positions, cells)
    requires e in positions && CellOf(c, p).Ok?
    ensures var from, to := CellOf(c, positions[e]).value, CellOf(c, p).value;
            Filed(c, positions[e := p], if from != to then AddToCell(RemoveFromCell(cells, from, e), to, e) else cells)
  {
    hide CellOf;
    var from, to := CellOf(c, positions[e]).value, CellOf(c, p).value;
    if from != to {
      RemoveFiles(c, positions, cells, e);
      AddFiles(c, positions - {e}, RemoveFromCell(cells, from, e), e, p);
      assert (positions - {e})[e := p] == positions[e := p];
    }
  }

  // ---------------------------------------------------------------- queries

  function DistanceSquared(a: Point, b: Point): real
    requires FinitePoint(a) && FinitePoint(b)
  {
    var x, y := a.x.value - b.x.value, a.y.value - b.y.value;
    x * x + y * y
  }

  predicate InDisc(center: Point, radius: real, p: Point) {
    FinitePoint(center) && FinitePoint(p) && DistanceSquared(center, p) <= radius * radius
  }

  function Corner(center: Point, offset: real): Point
    requires FinitePoint(center)
  {
    Point(Finite(center.x.value + offset), Finite(center.y.value + offset))
  }

  function BoxCells(low: Cell, high: Cell): int {
    (high.x - low.x + 1) * (high.y - low.y + 1)
  }

  /** Why a query is refused, if it is. */
  function QueryFault(c: AoiConfig, center: Point, radius: Float): Option<AoiError>
    requires ValidConfig(c)
  {
    if !FinitePoint(center) then Some(InvalidPosition)
    else if radius.NonFinite? || radius.value < 0.0 then Some(InvalidRadius)
    else
      var low, high := CellOf(c, Corner(center, -radius.value)), CellOf(c, Corner(center, radius.value));
      if low.Err? || high.Err? then Some(InvalidPosition)
      else
        var cells := BoxCells(low.value, high.value);
        if cells < 0 || cells > USIZE_MAX then Some(QueryTooLarge(USIZE_MAX, c.maxQueryCells))
        else if cells > c.maxQueryCells then Some(QueryTooLarge(cells, c.maxQueryCells))
        else None
  }

  predicate InBox(low: Cell, high: Cell, k: Cell) {
    low.x <= k.x <= high.x && low.y <= k.y <= high.y
  }

  /** The cells of a box. */
  ghost function Box(low: Cell, high: Cell): set<Cell> {
    set x: int, y: int | low.x <= x <= high.x && low.y <= y <= high.y :: Cell(x, y)
  }

  ghost function BoxColumn(x: int, low: int, high: int): set<Cell> {
    set y: int | low <= y <= high :: Cell(x, y)
  }

  lemma {:induction false} ColumnSize(x: int, low: int, high: int)
    requires low <= high + 1
    ensures |BoxColumn(x, low, high)| == high - low + 1
    decreases high - low + 1
  {
    if low <= high {
      ColumnSize(x, low, high - 1);
      assert BoxColumn(x, low, high) == BoxColumn(x, low, high - 1) + {Cell(x, high)};
    } else {
      assert BoxColumn(x, low, high) == {};
    }
  }

  /** The product the query compares with its limit is the number of cells it would visit. */
  lemma {:induction false} BoxSize(low: Cell, high: Cell)
    requires low.x <= high.x + 1 && low.y <= high.y
    ensures |Box(low, high)| == BoxCells(low, high)
    decreases high.x - low.x + 1
  {
    var columns, rows := high.x - low.x, high.y - low.y + 1;
    if low.x <= high.x {
      var less := Cell(high.x - 1, high.y);
      BoxSize(low, less);
      ColumnSize(high.x, low.y, high.y);
      BoxSplit(low, high);
      assert (columns + 1) * rows == columns * rows + rows;
    } else {
      assert Box(low, high) == {};
    }
  }

  lemma BoxSplit(low: Cell, high: Cell)
    requires low.x <= high.x
    ensures |Box(low, high)| == |Box(low, Cell(high.x - 1, high.y))| + |BoxColumn(high.x, low.y, high.y)|
  {
    var less, column := Box(low, Cell(high.x - 1, high.y)), BoxColumn(high.x, low.y, high.y);
    assert Box(low, high) == less + column;
    assert less !! column;
  }

  lemma CornersOrdered(c: AoiConfig, center: Point, radius: real)
    requires ValidConfig(c) && FinitePoint(center) && 0.0 <= radius
    requires CellOf(c, Corner(center, -radius)).Ok? && CellOf(c, Corner(center, radius)).Ok?
    ensures var low, high := CellOf(c, Corner(center, -radius)).value, CellOf(c, Corner(center, radius)).value;
            low.x <= high.x && low.y <= high.y
  {
    ColumnMonotone(c, center.x.value - radius, center.x.value + radius);
    ColumnMonotone(c, center.y.value - radius, center.y.value + radius);
    hide Column;
  }

  /** A query is answered if and only if its centre is finite, its radius is finite and not
      negative, both corners of its bounding box have cells, and the box is within the limit. */
  lemma QueryExactly(c: AoiConfig, center: Point, radius: Float)
    requires ValidConfig(c) && c.maxQueryCells <= USIZE_MAX
    ensures var fault := QueryFault(c, center, radius);
            var sound := FinitePoint(center) && radius.Finite? && 0.0 <= radius.value;
            var placed := sound && CellOf(c, Corner(center, -radius.value)).Ok?
                          && CellOf(c, Corner(center, radius.value)).Ok?;
            && (fault == Some(InvalidRadius) <==> FinitePoint(center) && !sound)
            && (fault == Some(InvalidPosition) <==> !FinitePoint(center) || (sound && !placed))
            && (fault.None? ==> placed)
            && (placed ==>
                  var low, high := CellOf(c, Corner(center, -radius.value)), CellOf(c, Corner(center, radius.value));
                  var cells := |Box(low.value, high.value)|;
                  fault == if cells <= c.maxQueryCells then None
                           else Some(QueryTooLarge(if cells > USIZE_MAX then USIZE_MAX else cells, c.maxQueryCells)))
  {
    hide Box, BoxCells, CellOf, Corner;
    if FinitePoint(center) && radius.Finite? && 0.0 <= radius.value {
      var low, high := CellOf(c, Corner(center, -radius.value)), CellOf(c, Corner(center, radius.value));
      if low.Ok? && high.Ok? {
        CornersOrdered(c, center, radius.value);
        BoxSize(low.value, high.value);
      } else {
        OnlyInvalidPosition(c, Corner(center, -radius.value));
        OnlyInvalidPosition(c, Corner(center, radius.value));
      }
    }
  }

  lemma OnlyInvalidPosition(c: AoiConfig, p: Point)
    requires ValidConfig(c)
    ensures CellOf(c, p).Err? ==> CellOf(c, p).error == InvalidPosition
  {
    hide Column;
  }

  lemma SquareGrows(x: real, r: real)
    ensures 0.0 <= r && x > r ==> x * x > r * r
  {
    if 0.0 <= r && x > r {
      var d := x - r;
      assert 0.0 < d * d;
      assert x * x == (r + d) * (r + d) == r * r + 2.0 * (r * d) + d * d;
    }
  }

  lemma SquareBound(x: real, y: real, r: real)
    requires 0.0 <= r && x * x + y * y <= r * r
    ensures -r <= x <= r
  {
    assert 0.0 <= y * y;
    SquareGrows(x, r);
    SquareGrows(-x, r);
    assert (-x) * (-x) == x * x;
  }

  /** Nothing in the disc is filed outside the bounding box the query scans. */
  lemma DiscInBox(c: AoiConfig, center: Point, radius: real, p: Point)
    requires ValidConfig(c) && 0.0 <= radius && FinitePoint(center)
    requires CellOf(c, Corner(center, -radius)).Ok? && CellOf(c, Corner(center, radius)).Ok?
    requires InDisc(center, radius, p)
    ensures CellOf(c, p).Ok?
    ensures InBox(CellOf(c, Corner(center, -radius)).value, CellOf(c, Corner(center, radius)).value, CellOf(c, p).value)
  {
    var x, y := center.x.value - p.x.value, center.y.value - p.y.value;
    SquareBound(x, y, radius);
    SquareBound(y, x, radius);
    ColumnMonotone(c, center.x.value - radius, p.x.value);
    ColumnMonotone(c, p.x.value, center.x.value + radius);
    ColumnMonotone(c, center.y.value - radius, p.y.value);
    ColumnMonotone(c, p.y.value, center.y.value + radius);
    hide Column;
  }

  ghost predicate NoRepeats<K>(s: seq<K>) {
    forall i, j :: 0 <= i < j < |s| ==> s[i] != s[j]
  }

  /** The cells scanned before column `x`, row `y`. */
  predicate Scanned(low: Cell, high: Cell, x: int, y: int, k: Cell) {
    InBox(low, high, k) && (k.x < x || (k.x == x && k.y < y))
  }

  /** `visible` lists, once each, the entities in the disc that are filed under a cell scanned so far. */
  ghost predicate Collected<K>(
      c: AoiConfig, positions: map<K, Point>, center: Point, radius: real, low: Cell, high: Cell, x: int, y: int,
      visible: seq<K>)
    requires ValidConfig(c)
  {
    && NoRepeats(visible)
    && (forall e :: e in visible ==> e in positions)
    && (forall e :: e in positions ==>
          (e in visible <==>
              InDisc(center, radius, positions[e]) && CellOf(c, positions[e]).Ok?
              && Scanned(low, high, x, y, CellOf(c, positions[e]).value)))
  }

  lemma CollectCell<K(!new)>(
      c: AoiConfig, positions: map<K, Point>, cells: map<Cell, set<K>>, center: Point, radius: real, low: Cell,
      high: Cell, k: Cell, visible: seq<K>, found: seq<K>)
    requires ValidConfig(c) && Filed(c, positions, cells) && InBox(low, high, k)
    requires Collected(c, positions, center, radius, low, high, k.x, k.y, visible)
    requires NoRepeats(found)
    requires forall e :: e in found <==>
        e in Contents(cells, k) && e in positions && InDisc(center, radius, positions[e])
    ensures Collected(c, positions, center, radius, low, high, k.x, k.y + 1, visible + found)
  {
    hide CellOf, InDisc;
    forall e | e in positions
      ensures e in visible + found <==>
          InDisc(center, radius, positions[e]) && CellOf(c, positions[e]).Ok?
          && Scanned(low, high, k.x, k.y + 1, CellOf(c, positions[e]).value)
      ensures !(e in visible && e in found)
    {
      FiledAt(c, positions, cells, e, k);
    }
    Disjoined(visible, found);
  }

  lemma Disjoined<K(!new)>(a: seq<K>, b: seq<K>)
    requires NoRepeats(a) && NoRepeats(b)
    requires forall e :: !(e in a && e in b)
    ensures NoRepeats(a + b)
  {
    forall i, j | 0 <= i < j < |a + b|
      ensures (a + b)[i] != (a + b)[j]
    {
      if i < |a| <= j {
        assert a[i] in a && b[j - |a|] in b;
      }
    }
  }

  lemma CollectColumn<K>(
      c: AoiConfig, positions: map<K, Point>, center: Point, radius: real, low: Cell, high: Cell, x: int,
      visible: seq<K>)
    requires ValidConfig(c)
    requires Collected(c, positions, center, radius, low, high, x, high.y + 1, visible)
    ensures Collected(c, positions, center, radius, low, high, x + 1, low.y, visible)
  {
    hide CellOf, InDisc;
  }

  /** The entities a query must report. */
  ghost predicate Reports<K(!new)>(positions: map<K, Point>, center: Point, radius: real, visible: seq<K>) {
    && NoRepeats(visible)
    && (forall e :: e in visible <==> e in positions && InDisc(center, radius, positions[e]))
  }

  lemma CollectedIsReport<K(!new)>(
      c: AoiConfig, positions: map<K, Point>, cells: map<Cell, set<K>>, center: Point, radius: real, visible: seq<K>)
    requires ValidConfig(c) && Filed(c, positions, cells) && FinitePoint(center) && 0.0 <= radius
    requires CellOf(c, Corner(center, -radius)).Ok? && CellOf(c, Corner(center, radius)).Ok?
    requires var low, high := CellOf(c, Corner(center, -radius)).value, CellOf(c, Corner(center, radius)).value;
             Collected(c, positions, center, radius, low, high, high.x + 1, low.y, visible)
    ensures Reports(positions, center, radius, visible)
  {
    hide CellOf, InDisc, Corner;
    forall e | e in positions && InDisc(center, radius, positions[e])
      ensures e in visible
    {
      DiscInBox(c, center, radius, positions[e]);
    }
  }

  /** A query that is not refused has its centre in a cell of its own. */
  lemma CentreHasCell(c: AoiConfig, center: Point, radius: Float)
    requires ValidConfig(c)
    requires QueryFault(c, center, radius).None?
    ensures CellOf(c, center).Ok?
  {
    assert DistanceSquared(center, center) == 0.0;
    assert 0.0 <= radius.value * radius.value;
    DiscInBox(c, center, radius.value, center);
  }

  /** Why a relocation is refused: either view may be too large or out of range. */
  function RelocateFault<K>(c: AoiConfig, positions: map<K, Point>, e: K, p: Point, radius: Float): Option<AoiError>
    requires ValidConfig(c)
  {
    if e !in positions then Some(NotFound)
    else if !FinitePoint(p) then Some(InvalidPosition)
    else if QueryFault(c, positions[e], radius).Some? then QueryFault(c, positions[e], radius)
    else QueryFault(c, p, radius)
  }

  datatype VisibilityDelta<K> = VisibilityDelta(entered: set<K>, left: set<K>)

  // ---------------------------------------------------------------- the grid

  class AoiGrid<K(==, !new)> {
    const config: AoiConfig
    var positions: map<K, Point>
    var cells: map<Cell, set<K>>

    ghost predicate Valid()
      reads this
    {
      ValidConfig(config) && Filed(config, positions, cells)
    }

    constructor (c: AoiConfig)
      requires ValidConfig(c)
      ensures Valid() && config == c && positions == map[]
    {
      config, positions, cells := c, map[], map[];
    }

    method Insert(e: K, p: Point) returns (r: Result<(), AoiError>)
      requires Valid()
      modifies this
      ensures Valid()
      ensures e in old(positions) ==> r == Err(AlreadyExists)
      ensures e !in old(positions) && CellOf(config, p).Err? ==> r == Err(InvalidPosition)
      ensures r.Ok? <==> e !in old(positions) && CellOf(config, p).Ok?
      ensures positions == if r.Ok? then old(positions)[e := p] else old(positions)
    {
      if e in positions {
        return Err(AlreadyExists);
      }
      var cell := CellOf(config, p);
      if cell.Err? {
        return Err(cell.error);
      }
      AddFiles(config, positions, cells, e, p);
      cells := AddToCell(cells, cell.value, e);
      positions := positions[e := p];
      r := Ok(());
    }

    method MoveEntity(e: K, p: Point) returns (r: Result<Point, AoiError>)
      requires Valid()
      modifies this
      ensures Valid()
      ensures e !in old(positions) ==> r == Err(NotFound)
      ensures e in old(positions) ==> r == if CellOf(config, p).Ok? then Ok(old(positions)[e]) else Err(InvalidPosition)
      ensures positions == if r.Ok? then old(positions)[e := p] else old(positions)
    {
      if e !in positions {
        return Err(NotFound);
      }
      var previous := positions[e];
      var to := CellOf(config, p);
      if to.Err? {
        return Err(to.error);
      }
      MoveFiles(config, positions, cells, e, p);
      var from := CellOf(config, previous).value;
      if from != to.value {
        cells := RemoveFromCell(cells, from, e);
        cells := AddToCell(cells, to.value, e);
      }
      positions := positions[e := p];
      r := Ok(previous);
    }

    method Upsert(e: K, p: Point) returns (r: Result<Option<Point>, AoiError>)
      requires Valid()
      modifies this
      ensures Valid()
      ensures r.Ok? <==> CellOf(config, p).Ok?
      ensures r.Err? ==> r.error == InvalidPosition && positions == old(positions)
      ensures r.Ok? ==> positions == old(positions)[e := p]
      ensures r.Ok? ==> r.value == if e in old(positions) then Some(old(positions)[e]) else None
    {
      if e in positions {
        var moved := MoveEntity(e, p);
        r := if moved.Ok? then Ok(Some(moved.value)) else Err(moved.error);
      } else {
        var inserted := Insert(e, p);
        r := if inserted.Ok? then Ok(None) else Err(inserted.error);
      }
    }

    method Remove(e: K) returns (r: Result<Point, AoiError>)
      requires Valid()
      modifies this
      ensures Valid()
      ensures r == if e in old(positions) then Ok(old(positions)[e]) else Err(NotFound)
      ensures positions == old(positions) - {e}
    {
      if e !in positions {
        assert positions - {e} == positions;
        return Err(NotFound);
      }
      RemoveFiles(config, positions, cells, e);
      var p := positions[e];
      positions := positions - {e};
      cells := RemoveFromCell(cells, CellOf(config, p).value, e);
      r := Ok(p);
    }

    /** The entities of one cell that lie in the disc. */
    method ScanCell(center: Point, radius: real, k: Cell) returns (found: seq<K>)
      requires Valid()
      ensures NoRepeats(found)
      ensures forall e :: e in found <==>
          e in Contents(cells, k) && e in positions && InDisc(center, radius, positions[e])
    {
      hide CellOf, InDisc;
      found := [];
      var todo := Contents(cells, k);
      while todo != {}
        invariant todo <= Contents(cells, k)
        invariant NoRepeats(found)
        invariant forall e :: e in found ==> e !in todo
        invariant forall e :: e in found <==>
            e in Contents(cells, k) && e !in todo && e in positions && InDisc(center, radius, positions[e])
        decreases |todo|
      {
        var e :| e in todo;
        todo := todo - {e};
        if e in positions && InDisc(center, radius, positions[e]) {
          found := found + [e];
        }
      }
    }

    method ScanBox(center: Point, radius: real, low: Cell, high: Cell) returns (visible: seq<K>)
      requires Valid() && low.x <= high.x && low.y <= high.y
      ensures Collected(config, positions, center, radius, low, high, high.x + 1, low.y, visible)
    {
      hide CellOf, InDisc, Filed, Contents;
      visible := [];
      var x := low.x;
      while x <= high.x
        invariant low.x <= x <= high.x + 1
        invariant Collected(config, positions, center, radius, low, high, x, low.y, visible)
      {
        var y := low.y;
        while y <= high.y
          invariant low.y <= y <= high.y + 1
          invariant Collected(config, positions, center, radius, low, high, x, y, visible)
        {
          var found := ScanCell(center, radius, Cell(x, y));
          CollectCell(config, positions, cells, center, radius, low, high, Cell(x, y), visible, found);
          visible := visible + found;
          y := y + 1;
        }
        CollectColumn(config, positions, center, radius, low, high, x, visible);
        x := x + 1;
      }
    }

    /** Reports exactly the entities a scan of every position would, each once. */
    method Query(center: Point, radius: Float) returns (r: Result<seq<K>, AoiError>)
      requires Valid()
      ensures r.Err? ==> QueryFault(config, center, radius) == Some(r.error)
      ensures r.Ok? ==> QueryFault(config, center, radius).None? && Reports(positions, center, radius.value, r.value)
    {
      if !FinitePoint(center) {
        return Err(InvalidPosition);
      }
      if radius.NonFinite? || radius.value < 0.0 {
        return Err(InvalidRadius);
      }
      var low := CellOf(config, Corner(center, -radius.value));
      if low.Err? {
        return Err(low.error);
      }
      var high := CellOf(config, Corner(center, radius.value));
      if high.Err? {
        return Err(high.error);
      }
      var count := BoxCells(low.value, high.value);
      if count < 0 || count > USIZE_MAX {
        return Err(QueryTooLarge(USIZE_MAX, config.maxQueryCells));
      }
      if count > config.maxQueryCells {
        return Err(QueryTooLarge(count, config.maxQueryCells));
      }
      ColumnMonotone(config, center.x.value - radius.value, center.x.value + radius.value);
      ColumnMonotone(config, center.y.value - radius.value, center.y.value + radius.value);
      var visible := ScanBox(center, radius.value, low.value, high.value);
      CollectedIsReport(config, positions, cells, center, radius.value, visible);
      r := Ok(visible);
    }

    method VisibleTo(e: K, radius: Float) returns (r: Result<seq<K>, AoiError>)
      requires Valid()
      ensures e !in positions ==> r == Err(NotFound)
      ensures e in positions && r.Err? ==> QueryFault(config, positions[e], radius) == Some(r.error)
      ensures r.Ok? ==> e in positions && QueryFault(config, positions[e], radius).None? && NoRepeats(r.value)
      ensures r.Ok? ==> forall f :: f in r.value <==>
          f in positions && f != e && InDisc(positions[e], radius.value, positions[f])
    {
      hide CellOf, InDisc, QueryFault;
      if e !in positions {
        return Err(NotFound);
      }
      var seen := Query(positions[e], radius);
      if seen.Err? {
        return seen;
      }
      var others := Except(seen.value, e);
      r := Ok(others);
    }

    /** Moves an entity and tells exactly who came into and who went out of its view; refused,
        it changes nothing. */
    method Relocate(e: K, p: Point, radius: Float) returns (r: Result<VisibilityDelta<K>, AoiError>)
      requires Valid()
      modifies this
      ensures Valid()
      ensures r.Err? ==> positions == old(positions)
      ensures RelocateFault(config, old(positions), e, p, radius) == if r.Err? then Some(r.error) else None
      ensures r.Ok? ==> e in old(positions) && positions == old(positions)[e := p]
      ensures r.Ok? ==> radius.Finite? && forall f :: f in r.value.entered <==>
                f in positions && f != e && InDisc(p, radius.value, positions[f])
                    && !InDisc(old(positions)[e], radius.value, positions[f])
      ensures r.Ok? ==> radius.Finite? && forall f :: f in r.value.left <==>
                f in positions && f != e && InDisc(old(positions)[e], radius.value, positions[f])
                    && !InDisc(p, radius.value, positions[f])
    {
      hide InDisc, CellOf;
      if e !in positions {
        return Err(NotFound);
      }
      var previous := positions[e];
      if !FinitePoint(p) {
        return Err(InvalidPosition);
      }
      var seen := Query(previous, radius);
      if seen.Err? {
        return Err(seen.error);
      }
      var sees := Query(p, radius);
      if sees.Err? {
        return Err(sees.error);
      }
      assert radius.Finite?;
      CentreHasCell(config, p, radius);
      hide QueryFault;
      var before := (set f | f in seen.value) - {e};
      var after := (set f | f in sees.value) - {e};
      var moved := MoveEntity(e, p);
      r := Ok(VisibilityDelta(after - before, before - after));
    }
  }

  method Except<K(==, !new)>(s: seq<K>, e: K) returns (r: seq<K>)
    requires NoRepeats(s)
    ensures NoRepeats(r)
    ensures forall f :: f in r <==> f in s && f != e
  {
    r := [];
    var i := 0;
    while i < |s|
      invariant 0 <= i <= |s|
      invariant NoRepeats(r)
      invariant forall f :: f in r <==> f in s[..i] && f != e
    {
      assert s[i] !in s[..i];
      if s[i] != e {
        r := r + [s[i]];
      }
      i := i + 1;
    }
  }
}
