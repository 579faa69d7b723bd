/** Which cells of a map are visited around a point: a rectangle for a small area and an octagon for a large
    one.  Coordinates are `uint32`, so every sum and difference below is proved not to wrap around. */
module CellVisits {
  import opened Machine
  import opened Ordering

  const MAX_NUMBER_OF_GRIDS: uint32 := 64
  const MAX_NUMBER_OF_CELLS: uint32 := 8
  const TOTAL_NUMBER_OF_CELLS_PER_MAP: uint32 := MAX_NUMBER_OF_GRIDS * MAX_NUMBER_OF_CELLS
  const CENTER_GRID_CELL_ID := 256
  const SIZE_OF_GRIDS := 533.33333
  const SIZE_OF_GRID_CELL := SIZE_OF_GRIDS / 8.0
  const CENTER_GRID_CELL_OFFSET := SIZE_OF_GRID_CELL / 2.0
  const MAP_HALFSIZE := SIZE_OF_GRIDS * 32.0
  const MAX_VISIBILITY_DISTANCE := 500.0

  datatype CellPair = CellPair(x: uint32, y: uint32)
  {
    predicate OnMap() { x < TOTAL_NUMBER_OF_CELLS_PER_MAP && y < TOTAL_NUMBER_OF_CELLS_PER_MAP }
  }

  /** Four coordinates of six bits and the flag. */
  datatype Cell = Cell(gridX: uint32, gridY: uint32, cellX: uint32, cellY: uint32, nocreate: bool)
  {
    function Pair(): CellPair
      requires gridX < 64 && gridY < 64 && cellX < 64 && cellY < 64
    {
      CellPair(gridX * MAX_NUMBER_OF_CELLS + cellX, gridY * MAX_NUMBER_OF_CELLS + cellY)
    }
  }

  function Bits6(x: uint32): (r: uint32)
    ensures r < 64
  {
    x % 64
  }

  function CellAt(p: CellPair, nocreate: bool): (c: Cell)
    ensures c.gridX < 64 && c.gridY < 64 && c.cellX < 64 && c.cellY < 64
  {
    Cell(Bits6(p.x / MAX_NUMBER_OF_CELLS), Bits6(p.y / MAX_NUMBER_OF_CELLS),
         Bits6(p.x % MAX_NUMBER_OF_CELLS), Bits6(p.y % MAX_NUMBER_OF_CELLS), nocreate)
  }

  lemma PackOne(x: uint32)
    ensures Bits6(x / MAX_NUMBER_OF_CELLS) * MAX_NUMBER_OF_CELLS + Bits6(x % MAX_NUMBER_OF_CELLS) == x <==>
            x < TOTAL_NUMBER_OF_CELLS_PER_MAP
  {
    if x < TOTAL_NUMBER_OF_CELLS_PER_MAP {
      assert x / 8 < 64;
    }
  }

  /** Packing a coordinate pair into a cell loses nothing exactly for the pairs on the map. */
  lemma PackingIsExact(p: CellPair, nocreate: bool)
    ensures CellAt(p, nocreate).Pair() == p <==> p.OnMap()
  {
    hide Bits6;
    PackOne(p.x);
    PackOne(p.y);
  }

  // ---------------------------------------------------------------- coordinates

  /** A conversion to int drops the fraction. */
  function Trunc(v: real): int { if v >= 0.0 then v.Floor else -((-v).Floor) }

  function ToUint32(v: int): uint32 { v % UINT32_LIMIT }

  function Raw(c: real): real { (c - CENTER_GRID_CELL_OFFSET) / SIZE_OF_GRID_CELL + CENTER_GRID_CELL_ID as real + 0.5 }

  function Normalized(i: uint32): uint32 {
    if i < TOTAL_NUMBER_OF_CELLS_PER_MAP - 1 then i else TOTAL_NUMBER_OF_CELLS_PER_MAP - 1
  }

  /** The cell of a coordinate; an index below 0 turns into a huge one and ends up as the last cell. */
  function Index(c: real): uint32 { Normalized(ToUint32(Trunc(Raw(c)))) }

  function ComputeCellPair(x: real, y: real): CellPair { CellPair(Index(x), Index(y)) }

  datatype CellArea = CellArea(low: CellPair, high: CellPair)

  function CalculateCellArea(x: real, y: real, radius: real): CellArea {
    if radius <= 0.0 then CellArea(ComputeCellPair(x, y), ComputeCellPair(x, y))
    else CellArea(ComputeCellPair(x - radius, y - radius), ComputeCellPair(x + radius, y + radius))
  }

  predicate OnMap(c: real) { -(MAP_HALFSIZE - 0.5) <= c <= MAP_HALFSIZE - 0.5 }

  lemma RawBounds(c: real)
    requires OnMap(c)
    ensures 0.0 <= Raw(c) < 512.0
  {
  }

  lemma RawShift(c: real, d: real)
    ensures Raw(c + d) == Raw(c) + d / SIZE_OF_GRID_CELL
  {
  }

  /** For a raw index that is not below the map, the cell is its whole part, at most the last one. */
  lemma IndexOnMap(c: real)
    requires -1.0 < Raw(c) < 1000.0
    ensures Index(c) == if Raw(c) < 0.0 then 0 else if Raw(c) >= 511.0 then 511 else Raw(c).Floor
  {
  }

  lemma IndexBelow(c: real)
    requires -1000.0 < Raw(c) <= -1.0
    ensures Index(c) == 511
  {
    assert Trunc(Raw(c)) <= -1 && Trunc(Raw(c)) > -1001;
  }

  /** Around a place on the map the columns from low to high hold every column within the radius exactly when the
      low side does not fall a whole cell below the map; otherwise low comes out as the last column and, being
      past high, stops the visit. */
  lemma ColumnsCover(c: real, radius: real)
    requires OnMap(c) && 0.0 < radius <= MAX_VISIBILITY_DISTANCE
    ensures Index(c - radius) <= Index(c + radius) <==> Raw(c - radius) > -1.0
    ensures Raw(c - radius) > -1.0 <==>
            (forall d :: OnMap(d) && c - radius <= d <= c + radius ==>
                           Index(c - radius) <= Index(d) <= Index(c + radius))
    ensures Raw(c - radius) > -1.0 ==> Index(c + radius) - Index(c - radius) <= 16
  {
    RawAround(c, radius);
    hide Raw, OnMap;
    IndexOnMap(c + radius);
    if Raw(c - radius) > -1.0 {
      IndexOnMap(c - radius);
      hide Index;
      forall d | OnMap(d) && c - radius <= d <= c + radius
        ensures Index(c - radius) <= Index(d) <= Index(c + radius)
      {
        RawBetween(c - radius, d, c + radius);
        IndexOnMap(d);
      }
    } else {
      IndexBelow(c - radius);
      IndexOnMap(c);
      hide Index;
      assert c - radius <= c <= c + radius;
    }
  }

  lemma RawAround(c: real, radius: real)
    requires OnMap(c) && 0.0 < radius <= MAX_VISIBILITY_DISTANCE
    ensures -8.0 < Raw(c - radius) < Raw(c) < Raw(c + radius) < 520.0 && 0.0 <= Raw(c) < 512.0
    ensures Raw(c + radius) - Raw(c - radius) < 15.01
    ensures Raw(c - radius) <= -1.0 ==> Raw(c + radius) < 15.0
  {
    RawBounds(c);
    RawShift(c, radius);
    RawShift(c, -radius);
  }

  lemma RawBetween(a: real, d: real, b: real)
    requires a <= d <= b && OnMap(d)
    ensures Raw(a) <= Raw(d) <= Raw(b) && 0.0 <= Raw(d) < 512.0
  {
    RawBounds(d);
  }

  /** Such a place exists on the map: less than a unit from its low edge, with the largest radius. */
  lemma LowEdgeIsReached()
    ensures OnMap(-17066.0) && Raw(-17066.0 - MAX_VISIBILITY_DISTANCE) <= -1.0
    ensures var area := CalculateCellArea(-17066.0, 0.0, MAX_VISIBILITY_DISTANCE);
            area.low.x == 511 && area.low.x > area.high.x
  {
    ColumnsCover(-17066.0, MAX_VISIBILITY_DISTANCE);
    IndexBelow(-17066.0 - MAX_VISIBILITY_DISTANCE);
  }

  /** Where the conversion to int is defined. */
  predicate Convertible(c: real) {
    -2147483648.0 < Raw(c - MAX_VISIBILITY_DISTANCE) && Raw(c + MAX_VISIBILITY_DISTANCE) < 2147483647.0
  }

  lemma IndexWrapped(c: real)
    requires -2147483648.0 < Raw(c) < 2147483647.0
    ensures Raw(c) > -1.0 ==>
              Index(c) == if Raw(c) < 0.0 then 0 else if Raw(c) >= 511.0 then 511 else Raw(c).Floor
    ensures Raw(c) <= -1.0 ==> Index(c) == 511
  {
    hide Raw;
    if Raw(c) <= -1.0 {
      assert -2147483648 <= Trunc(Raw(c)) <= -1;
    }
  }

  /** On or off the map, an area is never more than 17 columns wide. */
  lemma AreaWidth(c: real, radius: real)
    requires Convertible(c) && 0.0 < radius <= MAX_VISIBILITY_DISTANCE
    ensures Index(c + radius) - Index(c - radius) <= 16
  {
    assert -2147483648.0 < Raw(c - radius) && Raw(c + radius) < 2147483647.0;
    assert 0.0 < Raw(c + radius) - Raw(c - radius) < 15.01;
    hide Raw;
    IndexWrapped(c - radius);
    IndexWrapped(c + radius);
    hide Index;
  }

  /** Cell k of an axis is the k-th piece of the map from its low edge, one cell long and open above. */
  lemma IndexIsPiece(c: real)
    requires OnMap(c)
    ensures 0 <= Index(c) <= 511
    ensures (Index(c) as real - 256.0) * (533.33333 / 8.0) <= c
    ensures c < (Index(c) as real - 255.0) * (533.33333 / 8.0)
  {
    RawBounds(c);
    IndexOnMap(c);
    RawIs(c);
    hide Raw, Index;
  }

  lemma RawIs(c: real)
    ensures c == (Raw(c) - 256.0) * (533.33333 / 8.0)
  {
  }

  /** A place on the map, at most `radius` away along each axis. */
  ghost predicate Near(x: real, y: real, radius: real, px: real, py: real) {
    OnMap(px) && OnMap(py) && x - radius <= px <= x + radius && y - radius <= py <= y + radius
  }

  /** The low side does not fall a whole cell below the map. */
  ghost predicate LowSideFits(c: real, radius: real) { c - radius > -257.0 * SIZE_OF_GRID_CELL }

  lemma LowSideRaw(c: real, radius: real)
    ensures LowSideFits(c, radius) <==> Raw(c - radius) > -1.0
  {
  }

  /** The cells of places nearby are between those of the low and of the high side. */
  lemma NearColumns(c: real, radius: real, d: real)
    requires Convertible(c) && 0.0 < radius <= MAX_VISIBILITY_DISTANCE && LowSideFits(c, radius)
    requires OnMap(d) && c - radius <= d <= c + radius
    ensures Index(c - radius) <= Index(d) <= Index(c + radius)
  {
    LowSideRaw(c, radius);
    RawBetween(c - radius, d, c + radius);
    assert -2147483648.0 < Raw(c - radius) && Raw(c + radius) < 2147483647.0;
    hide Raw, Convertible, LowSideFits;
    IndexWrapped(c - radius);
    IndexWrapped(c + radius);
    IndexOnMap(d);
    hide Index;
  }

  lemma CenterColumns(c: real, radius: real)
    requires Convertible(c) && 0.0 < radius <= MAX_VISIBILITY_DISTANCE && LowSideFits(c, radius)
    ensures Index(c - radius) <= Index(c) <= Index(c + radius)
  {
    LowSideRaw(c, radius);
    assert -2147483648.0 < Raw(c - radius) <= Raw(c) <= Raw(c + radius) < 2147483647.0;
    hide Raw, Convertible, LowSideFits;
    IndexWrapped(c - radius);
    IndexWrapped(c);
    IndexWrapped(c + radius);
    hide Index;
  }

  /** A cell that the corner cuts of the octagon leave: counted along the axes it is at least 0.3 times the width
      less half a cell away from each corner. */
  ghost predicate OffCorners(p: CellPair, l: int, b: int, r: int, t: int) {
    && 10 * (p.x - l + p.y - b) >= 3 * (r - l) - 5
    && 10 * (p.x - l + t - p.y) >= 3 * (r - l) - 5
    && 10 * (r - p.x + p.y - b) >= 3 * (r - l) - 5
    && 10 * (r - p.x + t - p.y) >= 3 * (r - l) - 5
  }

  // ---------------------------------------------------------------- regions

  ghost predicate InBox(p: CellPair, x0: int, x1: int, y0: int, y1: int) {
    x0 <= p.x <= x1 && y0 <= p.y <= y1
  }

  ghost function Box(x0: int, x1: int, y0: int, y1: int): iset<CellPair> { iset p | InBox(p, x0, x1, y0, y1) }

  /** The cells of the rectangle that are, counted along the axes, at least `shift` away from each corner. */
  ghost predicate InOctagon(p: CellPair, begin: CellPair, end: CellPair, shift: int) {
    && InBox(p, begin.x, end.x, begin.y, end.y)
    && (p.x - begin.x) + (p.y - begin.y) >= shift
    && (p.x - begin.x) + (end.y - p.y) >= shift
    && (end.x - p.x) + (p.y - begin.y) >= shift
    && (end.x - p.x) + (end.y - p.y) >= shift
  }

  ghost function Octagon(begin: CellPair, end: CellPair, shift: int): iset<CellPair> {
    iset p | InOctagon(p, begin, end, shift)
  }

  /** The least whole number that is at least 0.3 * width - 0.5. */
  function Shift(width: int): int { -((5 - 3 * width) / 10) }

  lemma ShiftIsCeiling(width: int)
    ensures 10 * (Shift(width) - 1) < 3 * width - 5 <= 10 * Shift(width)
    ensures width >= 0 ==> 0 <= 2 * Shift(width) <= width
  {
  }

  // ---------------------------------------------------------------- visits

  /** The list has every cell of the region once and no other. */
  ghost predicate Lists(order: seq<CellPair>, region: iset<CellPair>) {
    NoRepeats(order) && forall p :: p in order <==> p in region
  }

  lemma ListsTogether(a: seq<CellPair>, r: iset<CellPair>, b: seq<CellPair>, s: iset<CellPair>)
    requires Lists(a, r) && Lists(b, s) && r !! s
    ensures Lists(a + b, r + s)
  {
    forall i, j | 0 <= i < j < |a + b| ensures (a + b)[i] != (a + b)[j] {
      if i < |a| <= j {
        assert a[i] in a && b[j - |a|] in b;
      }
    }
  }

  lemma ListsNothing()
    ensures Lists([], iset{})
  {
  }

  lemma ListsOne(p: CellPair)
    ensures Lists([p], iset{p})
  {
  }

  function Cells(order: seq<CellPair>, nocreate: bool): (cells: seq<Cell>)
    ensures |cells| == |order|
    ensures forall i :: 0 <= i < |order| ==> cells[i] == CellAt(order[i], nocreate)
  {
    seq(|order|, i requires 0 <= i < |order| => CellAt(order[i], nocreate))
  }

  lemma CellsTogether(a: seq<CellPair>, b: seq<CellPair>, nocreate: bool)
    ensures Cells(a + b, nocreate) == Cells(a, nocreate) + Cells(b, nocreate)
  {
  }

  lemma BoxGrows(x: int, y0: int, y: int)
    requires y0 <= y && 0 <= x < UINT32_LIMIT && 0 <= y < UINT32_LIMIT
    ensures Box(x, x, y0, y) == Box(x, x, y0, y - 1) + iset{CellPair(x, y)}
    ensures CellPair(x, y) !in Box(x, x, y0, y - 1)
  {
  }

  lemma BoxGrowsDown(x: int, y: int, y1: int)
    requires y <= y1 && 0 <= x < UINT32_LIMIT && 0 <= y < UINT32_LIMIT
    ensures Box(x, x, y, y1) == Box(x, x, y + 1, y1) + iset{CellPair(x, y)}
    ensures CellPair(x, y) !in Box(x, x, y + 1, y1)
  {
  }

  lemma BoxWidens(x0: int, x: int, y0: int, y1: int)
    requires x0 <= x
    ensures Box(x0, x, y0, y1) == Box(x0, x - 1, y0, y1) + Box(x, x, y0, y1)
    ensures Box(x0, x - 1, y0, y1) !! Box(x, x, y0, y1)
  {
  }

  lemma BoxEmpty(x0: int, x1: int, y0: int, y1: int)
    requires x1 < x0 || y1 < y0
    ensures Box(x0, x1, y0, y1) == iset{}
  {
  }

  /** The octagon without the outer columns, after `step` columns on either side of the strip. */
  ghost function Filled(begin: CellPair, end: CellPair, shift: int, step: int): iset<CellPair> {
    iset p | InOctagon(p, begin, end, shift) &&
             begin.x + shift - step <= p.x <= end.x - shift + step
  }

  lemma StripFilled(begin: CellPair, end: CellPair, shift: int)
    requires 0 <= 2 * shift <= end.x - begin.x
    ensures Filled(begin, end, shift, 0) ==
            Box(begin.x + shift, end.x - shift, begin.y, end.y)
    ensures Filled(begin, end, shift, shift) == Octagon(begin, end, shift)
  {
  }

  lemma SidesFilled(begin: CellPair, end: CellPair, shift: int, step: int)
    requires 0 <= 2 * shift <= end.x - begin.x && 1 <= step <= shift
    ensures var l, r := begin.x + shift - step, end.x - shift + step;
            var y0, y1 := begin.y + step, end.y - step;
            && Filled(begin, end, shift, step) ==
                 Filled(begin, end, shift, step - 1) + (Box(l, l, y0, y1) + Box(r, r, y0, y1))
            && Filled(begin, end, shift, step - 1) !! Box(l, l, y0, y1) + Box(r, r, y0, y1)
            && l < r
  {
  }

  class Map {
    var visited: seq<Cell>

    method Visit(cell: Cell)
      modifies this`visited
      ensures visited == old(visited) + [cell]
    {
      visited := visited + [cell];
    }

    method VisitPair(p: CellPair, nocreate: bool)
      modifies this`visited
      ensures visited == old(visited) + Cells([p], nocreate)
    {
      var zone := CellAt(p, nocreate);
      Visit(zone);
    }

    /** One column of the central strip, from low to high. */
    method VisitColumn(x: uint32, y0: uint32, y1: uint32, nocreate: bool) returns (ghost order: seq<CellPair>)
      requires y1 < TOTAL_NUMBER_OF_CELLS_PER_MAP
      modifies this`visited
      ensures visited == old(visited) + Cells(order, nocreate)
      ensures Lists(order, Box(x, x, y0, y1))
    {
      hide *;
      order := [];
      ListsNothing();
      BoxEmpty(x, x, y0, y0 - 1);
      var y: uint32 := y0;
      while y <= y1
        invariant y0 <= y && (y <= y1 || y == y0 || y == y1 + 1)
        invariant visited == old(visited) + Cells(order, nocreate)
        invariant Lists(order, Box(x, x, y0, y - 1))
        decreases y1 + 1 - y
      {
        var p := CellPair(x, y);
        BoxGrows(x, y0, y);
        ListsOne(p);
        ListsTogether(order, Box(x, x, y0, y - 1), [p], iset{p});
        CellsTogether(order, [p], nocreate);
        VisitPair(p, nocreate);
        order := order + [p];
        y := y + 1;
      }
      if y0 > y1 {
        BoxEmpty(x, x, y0, y1);
      }
    }

    /** The central strip, column by column. */
    method VisitStrip(x0: uint32, x1: uint32, y0: uint32, y1: uint32, nocreate: bool)
      returns (ghost order: seq<CellPair>)
      requires x1 < TOTAL_NUMBER_OF_CELLS_PER_MAP && y1 < TOTAL_NUMBER_OF_CELLS_PER_MAP
      modifies this`visited
      ensures visited == old(visited) + Cells(order, nocreate)
      ensures Lists(order, Box(x0, x1, y0, y1))
    {
      hide *;
      order := [];
      ListsNothing();
      BoxEmpty(x0, x0 - 1, y0, y1);
      var x: uint32 := x0;
      while x <= x1
        invariant x0 <= x && (x <= x1 || x == x0 || x == x1 + 1)
        invariant visited == old(visited) + Cells(order, nocreate)
        invariant Lists(order, Box(x0, x - 1, y0, y1))
        decreases x1 + 1 - x
      {
        ghost var column := VisitColumn(x, y0, y1, nocreate);
        BoxWidens(x0, x, y0, y1);
        ListsTogether(order, Box(x0, x - 1, y0, y1),
                      column, Box(x, x, y0, y1));
        CellsTogether(order, column, nocreate);
        order := order + column;
        x := x + 1;
      }
      if x0 > x1 {
        BoxEmpty(x0, x1, y0, y1);
      }
    }

    /** A pair of outer columns, from high to low and alternating left and right. */
    method VisitSides(left: uint32, right: uint32, y_start: uint32, y_end: uint32, nocreate: bool)
        returns (ghost order: seq<CellPair>)
      requires left < right < TOTAL_NUMBER_OF_CELLS_PER_MAP && 1 <= y_end
      modifies this`visited
      ensures visited == old(visited) + Cells(order, nocreate)
      ensures Lists(order, Box(left, left, y_end, y_start) +
                           Box(right, right, y_end, y_start))
    {
      hide *;
      ghost var l: int, r: int, y0: int, y1: int := left, right, y_end, y_start;
      order := [];
      ListsNothing();
      BoxEmpty(l, l, y1 + 1, y1);
      BoxEmpty(r, r, y1 + 1, y1);
      ghost var none: iset<CellPair> := iset{};
      assert none + none == none;
      var y: uint32 := y_start;
      while y >= y_end
        invariant y <= y_start && (y >= y_end || y == y_start || y == y_end - 1)
        invariant visited == old(visited) + Cells(order, nocreate)
        invariant Lists(order, Box(l, l, y + 1, y1) + Box(r, r, y + 1, y1))
        decreases y + 1 - y_end
      {
        var pairLeft, pairRight := CellPair(left, y), CellPair(right, y);
        TwoMore(order, left, right, y, y1);
        CellsTogether(order, [pairLeft], nocreate);
        CellsTogether(order + [pairLeft], [pairRight], nocreate);
        VisitPair(pairLeft, nocreate);
        VisitPair(pairRight, nocreate);
        order := order + [pairLeft] + [pairRight];
        y := y - 1;
      }
      if y_start < y_end {
        BoxEmpty(l, l, y0, y1);
        BoxEmpty(r, r, y0, y1);
      }
    }

    lemma TwoMore(order: seq<CellPair>, left: uint32, right: uint32, y: uint32, y1: int)
      requires left < right && y <= y1
      requires Lists(order, Box(left, left, y + 1, y1) +
                            Box(right, right, y + 1, y1))
      ensures Lists(order + [CellPair(left, y)] + [CellPair(right, y)],
                    Box(left, left, y, y1) + Box(right, right, y, y1))
    {
      hide Lists, InBox, Box;
      var p, q := CellPair(left, y), CellPair(right, y);
      var a, b := Box(left, left, y + 1, y1), Box(right, right, y + 1, y1);
      BoxGrowsDown(left, y, y1);
      BoxGrowsDown(right, y, y1);
      NotAside(left, right, y, y1);
      ListsOne(p);
      ListsOne(q);
      ListsTogether(order, a + b, [p], iset{p});
      ListsTogether(order + [p], a + b + iset{p}, [q], iset{q});
      assert a + b + iset{p} + iset{q} == (a + iset{p}) + (b + iset{q});
    }

    lemma NotAside(left: uint32, right: uint32, y: uint32, y1: int)
      requires left < right
      ensures CellPair(left, y) !in Box(right, right, y + 1, y1)
      ensures CellPair(right, y) !in Box(left, left, y + 1, y1)
    {
    }

    /** The octagon is filled strip first and then outwards; each of its cells is visited once and no other. */
    method VisitCircle(begin: CellPair, end: CellPair, nocreate: bool) returns (ghost order: seq<CellPair>)
      requires begin.x <= end.x && begin.y <= end.y && end.OnMap()
      requires Shift(end.x - begin.x) <= end.y
      modifies this`visited
      ensures visited == old(visited) + Cells(order, nocreate)
      ensures Lists(order, Octagon(begin, end, Shift(end.x - begin.x)))
    {
      ghost var shift := Shift(end.x - begin.x);
      ShiftIsCeiling(end.x - begin.x);
      StripFilled(begin, end, shift);
      assert end.x < TOTAL_NUMBER_OF_CELLS_PER_MAP == 512 && end.y < TOTAL_NUMBER_OF_CELLS_PER_MAP;
      hide *;
      var x_shift := Shift(end.x - begin.x);
      if x_shift < 0 {
        assert false;
      }
      var x_start: uint32 := begin.x + x_shift;
      var x_end: uint32 := end.x - x_shift;

      // central strip with constant height
      order := VisitStrip(x_start, x_end, begin.y, end.y, nocreate);
      if x_shift == 0 {
        return;
      }

      ghost var borders := VisitBorders(begin, end, x_start, x_end, shift, nocreate);
      StripOnly(begin, end, shift, order, borders);
      CellsTogether(order, borders, nocreate);
      order := order + borders;
    }

    lemma StripOnly(begin: CellPair, end: CellPair, shift: int, strip: seq<CellPair>, borders: seq<CellPair>)
      requires Lists(strip, Filled(begin, end, shift, 0))
      requires Lists(borders, Octagon(begin, end, shift) - Filled(begin, end, shift, 0))
      ensures Lists(strip + borders, Octagon(begin, end, shift))
    {
      var octagon, core := Octagon(begin, end, shift), Filled(begin, end, shift, 0);
      ListsTogether(strip, core, borders, octagon - core);
      hide Lists;
      assert core + (octagon - core) == octagon;
    }

    lemma BordersGrow(begin: CellPair, end: CellPair, shift: int, step: int, order: seq<CellPair>, sides: seq<CellPair>)
      requires 0 <= 2 * shift <= end.x - begin.x && 1 <= step <= shift
      requires Lists(order, Filled(begin, end, shift, step - 1) - Filled(begin, end, shift, 0))
      requires var l, r := begin.x + shift - step, end.x - shift + step;
               var y0, y1 := begin.y + step, end.y - step;
               Lists(sides, Box(l, l, y0, y1) + Box(r, r, y0, y1))
      ensures Lists(order + sides, Filled(begin, end, shift, step) - Filled(begin, end, shift, 0))
    {
      var l, r := begin.x + shift - step, end.x - shift + step;
      var y0, y1 := begin.y + step, end.y - step;
      var core, before := Filled(begin, end, shift, 0), Filled(begin, end, shift, step - 1);
      SidesFilled(begin, end, shift, step);
      assert core <= before;
      hide *;
      ListsTogether(order, before - core, sides, Box(l, l, y0, y1) + Box(r, r, y0, y1));
      assert before - core + (Box(l, l, y0, y1) + Box(r, r, y0, y1)) == Filled(begin, end, shift, step) - core;
    }

    /** The trapezoids on both sides, shrinking by two cells a step. */
    method VisitBorders(begin: CellPair, end: CellPair, x_start: uint32, x_end: uint32, ghost shift: int,
                        nocreate: bool)
        returns (ghost order: seq<CellPair>)
      requires begin.x <= end.x < 512 && begin.y <= end.y < 512
      requires 0 <= 2 * shift <= end.x - begin.x && shift <= end.y
      requires x_start == begin.x + shift && x_end == end.x - shift
      modifies this`visited
      ensures visited == old(visited) + Cells(order, nocreate)
      ensures Lists(order, Octagon(begin, end, shift) - Filled(begin, end, shift, 0))
    {
      StripFilled(begin, end, shift);
      assert TOTAL_NUMBER_OF_CELLS_PER_MAP == 512;
      hide *;
      order := [];
      ListsNothing();
      assert Filled(begin, end, shift, 0) - Filled(begin, end, shift, 0) == iset{};
      var y_start: uint32 := end.y;
      var y_end: uint32 := begin.y;
      var step: uint32 := 1;
      while step <= x_start - begin.x
        invariant 1 <= step <= x_start - begin.x + 1
        invariant y_start == end.y - step + 1 && y_end == begin.y + step - 1
        invariant visited == old(visited) + Cells(order, nocreate)
        invariant Lists(order, Filled(begin, end, shift, step - 1) - Filled(begin, end, shift, 0))
        decreases x_start + 1 - step
      {
        y_end := y_end + 1;
        y_start := y_start - 1;
        var left: uint32, right: uint32 := x_start - step, x_end + step;
        ghost var sides := VisitSides(left, right, y_start, y_end, nocreate);
        assert left == begin.x + shift - step && right == end.x - shift + step;
        assert y_start == end.y - step && y_end == begin.y + step;
        BordersGrow(begin, end, shift, step, order, sides);
        CellsTogether(order, sides, nocreate);
        order := order + sides;
        step := step + 1;
      }
    }

    // -------------------------------------------------------------- the visit

    /** The standing cell first, then the other cells of the rectangle column by column. */
    method VisitOthers(cell: Cell, standing: CellPair, begin: CellPair, end: CellPair)
      returns (ghost order: seq<CellPair>)
      requires begin.x <= end.x && end.OnMap()
      modifies this`visited
      ensures visited == old(visited) + [cell] + Cells(order, cell.nocreate)
      ensures Lists(order, Box(begin.x, end.x, begin.y, end.y) - iset{standing})
    {
      assert end.x < TOTAL_NUMBER_OF_CELLS_PER_MAP && end.y < TOTAL_NUMBER_OF_CELLS_PER_MAP;
      hide *;
      ghost var y0, y1 := begin.y, end.y;
      Visit(cell);
      order := [];
      ListsNothing();
      BoxEmpty(begin.x, begin.x - 1, y0, y1);
      assert Box(begin.x, begin.x - 1, y0, y1) - iset{standing} == iset{};
      var x: uint32 := begin.x;
      while x <= end.x
        invariant begin.x <= x <= end.x + 1
        invariant visited == old(visited) + [cell] + Cells(order, cell.nocreate)
        invariant Lists(order, Box(begin.x, x - 1, y0, y1) - iset{standing})
        decreases end.x + 1 - x
      {
        ghost var column := VisitColumnBut(standing, x, begin.y, end.y, cell.nocreate);
        BoxWidens(begin.x, x, y0, y1);
        ghost var before, more := Box(begin.x, x - 1, y0, y1), Box(x, x, y0, y1);
        ListsTogether(order, before - iset{standing}, column, more - iset{standing});
        assert (before - iset{standing}) + (more - iset{standing}) == (before + more) - iset{standing};
        CellsTogether(order, column, cell.nocreate);
        order := order + column;
        x := x + 1;
      }
    }

    /** One column without the standing cell. */
    method VisitColumnBut(standing: CellPair, x: uint32, y0: uint32, y1: uint32, nocreate: bool)
        returns (ghost order: seq<CellPair>)
      requires y1 < TOTAL_NUMBER_OF_CELLS_PER_MAP
      modifies this`visited
      ensures visited == old(visited) + Cells(order, nocreate)
      ensures Lists(order, Box(x, x, y0, y1) - iset{standing})
    {
      hide *;
      ghost var c := x;
      order := [];
      ListsNothing();
      BoxEmpty(c, c, y0, y0 - 1);
      assert Box(c, c, y0, y0 - 1) - iset{standing} == iset{};
      var y: uint32 := y0;
      while y <= y1
        invariant y0 <= y && (y <= y1 || y == y0 || y == y1 + 1)
        invariant visited == old(visited) + Cells(order, nocreate)
        invariant Lists(order, Box(c, c, y0, y - 1) - iset{standing})
        decreases y1 + 1 - y
      {
        var p := CellPair(x, y);
        BoxGrows(c, y0, y);
        ghost var before := Box(c, c, y0, y - 1);
        if p != standing {
          ListsOne(p);
          ListsTogether(order, before - iset{standing}, [p], iset{p});
          assert (before - iset{standing}) + iset{p} == (before + iset{p}) - iset{standing};
          CellsTogether(order, [p], nocreate);
          VisitPair(p, nocreate);
          order := order + [p];
        } else {
          assert (before + iset{p}) - iset{standing} == before - iset{standing};
        }
        y := y + 1;
      }
      if y0 > y1 {
        BoxEmpty(c, c, y0, y1);
        assert Box(c, c, y0, y1) - iset{standing} == iset{};
      }
    }

    /** The visit around a point: nothing for a standing cell off the map or an area that starts past its end, the
        own cell for a radius that stays inside it, an octagon for an area more than 4 cells wide and high, and the
        own cell followed by the rest of the rectangle otherwise. */
    method VisitAround(cell: Cell, standing: CellPair, x: real, y: real, distance: real)
      returns (ghost order: seq<CellPair>)
      requires Convertible(x) && Convertible(y)
      modifies this`visited
      ensures var radius := if distance > MAX_VISIBILITY_DISTANCE then MAX_VISIBILITY_DISTANCE else distance;
              var area := CalculateCellArea(x, y, radius);
              var width, height := area.high.x - area.low.x, area.high.y - area.low.y;
              if !standing.OnMap() then visited == old(visited)
              else if distance <= 0.0 || area.low == area.high then visited == old(visited) + [cell]
              else if area.low.x > area.high.x then visited == old(visited)
              else if width > 4 && height > 4 then
                && visited == old(visited) + Cells(order, cell.nocreate)
                && Lists(order, Octagon(area.low, area.high, Shift(width)))
              else
                && visited == old(visited) + [cell] + Cells(order, cell.nocreate)
                && Lists(order, Box(area.low.x, area.high.x,
                                    area.low.y, area.high.y) - iset{standing})
      ensures var radius := if distance > 500.0 then 500.0 else distance;
              standing.OnMap() && 0.0 < distance && LowSideFits(x, radius) && LowSideFits(y, radius) &&
              standing == CellPair(Index(x), Index(y)) ==>
                && old(visited) <= visited
                && AllReached(visited[|old(visited)|..], order, cell, standing, x, y, radius)
    {
      order := [];
      if standing.x >= TOTAL_NUMBER_OF_CELLS_PER_MAP || standing.y >= TOTAL_NUMBER_OF_CELLS_PER_MAP {
        return;
      }
      hide Lists, Octagon, Box, Cells, Raw, Index, Convertible, AllReached, LowSideFits, Shift, CellPair.OnMap;
      if distance <= 0.0 {
        Visit(cell);
        return;
      }
      var radius := distance;
      if radius > MAX_VISIBILITY_DISTANCE {
        radius := MAX_VISIBILITY_DISTANCE;
      }
      var area := CalculateCellArea(x, y, radius);
      AreaFits(x, y, radius);
      ghost var fits := LowSideFits(x, radius) && LowSideFits(y, radius) && standing == CellPair(Index(x), Index(y));
      if fits {
        CenterColumns(x, radius);
        CenterColumns(y, radius);
      }
      if area.low == area.high {
        Visit(cell);
        if fits { OwnCell(visited[|old(visited)|..], cell, standing, x, y, radius); }
        return;
      }
      if area.low.x > area.high.x {
        return;
      }
      if area.high.x - area.low.x > 4 && area.high.y - area.low.y > 4 {
        order := VisitCircle(area.low, area.high, cell.nocreate);
        assert visited[|old(visited)|..] == Cells(order, cell.nocreate);
        if fits { CircleReaches(visited[|old(visited)|..], order, cell, standing, x, y, radius); }
        return;
      }
      order := VisitOthers(cell, standing, area.low, area.high);
      assert visited[|old(visited)|..] == [cell] + Cells(order, cell.nocreate);
      if fits { OthersReach(visited[|old(visited)|..], order, cell, standing, x, y, radius); }
    }

    /** The cell is visited; in a large area this is promised off the corners only. */
    ghost predicate Reached(seen: seq<Cell>, cell: Cell, standing: CellPair, x: real, y: real, radius: real,
                            p: CellPair)
    {
      var l, b, r, t := Index(x - radius), Index(y - radius), Index(x + radius), Index(y + radius);
      if r - l > 4 && t - b > 4 then OffCorners(p, l, b, r, t) ==> CellAt(p, cell.nocreate) in seen
      else if p == standing then cell in seen else CellAt(p, cell.nocreate) in seen
    }

    /** Every cell that holds a place nearby, and no other than those of the area. */
    ghost predicate AllReached(seen: seq<Cell>, order: seq<CellPair>, cell: Cell, standing: CellPair, x: real, y: real,
                               radius: real)
    {
      && (forall px, py :: Near(x, y, radius, px, py) ==>
            Reached(seen, cell, standing, x, y, radius, CellPair(Index(px), Index(py))))
      && (forall p :: p in order ==>
            Index(x - radius) <= p.x <= Index(x + radius) && Index(y - radius) <= p.y <= Index(y + radius))
    }

    lemma OwnCell(seen: seq<Cell>, cell: Cell, standing: CellPair, x: real, y: real, radius: real)
      requires Convertible(x) && Convertible(y) && 0.0 < radius <= MAX_VISIBILITY_DISTANCE
      requires LowSideFits(x, radius) && LowSideFits(y, radius) && standing == CellPair(Index(x), Index(y))
      requires Index(x - radius) == Index(x + radius) && Index(y - radius) == Index(y + radius) && cell in seen
      ensures AllReached(seen, [], cell, standing, x, y, radius)
    {
      CenterColumns(x, radius);
      CenterColumns(y, radius);
      forall px, py | Near(x, y, radius, px, py)
        ensures Reached(seen, cell, standing, x, y, radius, CellPair(Index(px), Index(py)))
      {
        NearColumns(x, radius, px);
        NearColumns(y, radius, py);
        hide Index, OnMap, Convertible, LowSideFits;
      }
    }

    lemma OthersReach(seen: seq<Cell>, order: seq<CellPair>, cell: Cell, standing: CellPair, x: real, y: real,
                      radius: real)
      requires Convertible(x) && Convertible(y) && 0.0 < radius <= MAX_VISIBILITY_DISTANCE
      requires LowSideFits(x, radius) && LowSideFits(y, radius)
      requires seen == [cell] + Cells(order, cell.nocreate)
      requires var l, b, r, t := Index(x - radius), Index(y - radius), Index(x + radius), Index(y + radius);
               !(r - l > 4 && t - b > 4) && Lists(order, Box(l, r, b, t) - iset{standing})
      ensures AllReached(seen, order, cell, standing, x, y, radius)
    {
      forall px, py | Near(x, y, radius, px, py)
        ensures Reached(seen, cell, standing, x, y, radius, CellPair(Index(px), Index(py)))
      {
        NearColumns(x, radius, px);
        NearColumns(y, radius, py);
        hide Index, OnMap, Convertible, LowSideFits, CellAt;
        var p := CellPair(Index(px), Index(py));
        if p != standing {
          InCells(order, p, cell.nocreate);
        }
        assert cell == seen[0];
      }
      hide Index, OnMap, Convertible, LowSideFits, CellAt;
    }

    lemma CircleReaches(seen: seq<Cell>, order: seq<CellPair>, cell: Cell, standing: CellPair, x: real, y: real,
                        radius: real)
      requires Convertible(x) && Convertible(y) && 0.0 < radius <= MAX_VISIBILITY_DISTANCE
      requires LowSideFits(x, radius) && LowSideFits(y, radius)
      requires seen == Cells(order, cell.nocreate)
      requires var low := CellPair(Index(x - radius), Index(y - radius));
               var high := CellPair(Index(x + radius), Index(y + radius));
               && high.x - low.x > 4 && high.y - low.y > 4
               && Lists(order, Octagon(low, high, Shift(high.x - low.x)))
      ensures AllReached(seen, order, cell, standing, x, y, radius)
    {
      ShiftIsCeiling(Index(x + radius) - Index(x - radius));
      forall px, py | Near(x, y, radius, px, py)
        ensures Reached(seen, cell, standing, x, y, radius, CellPair(Index(px), Index(py)))
      {
        NearColumns(x, radius, px);
        NearColumns(y, radius, py);
        hide Index, OnMap, Convertible, LowSideFits, CellAt, Shift;
        var p := CellPair(Index(px), Index(py));
        if OffCorners(p, Index(x - radius), Index(y - radius), Index(x + radius), Index(y + radius)) {
          InCells(order, p, cell.nocreate);
        }
      }
      hide Index, OnMap, Convertible, LowSideFits, CellAt, Shift;
    }

    lemma InCells(order: seq<CellPair>, p: CellPair, nocreate: bool)
      requires p in order
      ensures CellAt(p, nocreate) in Cells(order, nocreate)
    {
      hide CellAt;
      var i :| 0 <= i < |order| && order[i] == p;
      assert Cells(order, nocreate)[i] == CellAt(p, nocreate);
    }

    /** The corners of the octagon are smaller than the area is high. */
    lemma AreaFits(x: real, y: real, radius: real)
      requires Convertible(x) && Convertible(y) && 0.0 < radius <= MAX_VISIBILITY_DISTANCE
      ensures var area := CalculateCellArea(x, y, radius);
              && area.high.OnMap()
              && (area.high.y - area.low.y > 4 ==>
                    Shift(area.high.x - area.low.x) <= area.high.y)
    {
      AreaWidth(x, radius);
      var area := CalculateCellArea(x, y, radius);
      assert area.high.OnMap();
      hide Index, Raw, Convertible;
      ShiftIsCeiling(area.high.x - area.low.x);
    }

    /** For the cell that stands at its own place the small visit is the rectangle and this cell, each once. */
    lemma StandingFirst(standing: CellPair, begin: CellPair, end: CellPair, others: seq<CellPair>, nocreate: bool)
      requires Lists(others, Box(begin.x, end.x, begin.y, end.y) - iset{standing})
      ensures [CellAt(standing, nocreate)] + Cells(others, nocreate) == Cells([standing] + others, nocreate)
      ensures Lists([standing] + others,
                    Box(begin.x, end.x, begin.y, end.y) + iset{standing})
    {
      hide Lists, Box, CellAt;
      var box := Box(begin.x, end.x, begin.y, end.y);
      ListsOne(standing);
      ListsTogether([standing], iset{standing}, others, box - iset{standing});
      CellsTogether([standing], others, nocreate);
      assert iset{standing} + (box - iset{standing}) == box + iset{standing};
    }
  }
}
