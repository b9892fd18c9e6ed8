/** The grid part of shape2wire in src/common/shipshape.c: the outline of a ship is drawn on a 31 by 31
    grid and flooded from the border, so that every point can be told to be outside the ship or not. */
module ShipGrid {
  import opened Counting
  import opened Numbers

  const LIMIT := 15
  const GRID_SIZE := 32
  const CELLS := 961

  datatype Cell = Cell(x: int, y: int)

  predicate InGrid(c: Cell) { -LIMIT <= c.x <= LIMIT && -LIMIT <= c.y <= LIMIT }

  predicate OnBorder(c: Cell) {
    InGrid(c) && (c.x == -LIMIT || c.x == LIMIT || c.y == -LIMIT || c.y == LIMIT)
  }

  // ----- Integer interpolation -----

  /** C's division: truncation toward zero. */
  function TDiv(a: int, b: int): int
    requires b != 0
  {
    if a >= 0 then a / b else -(-a / b)
  }

  lemma TDivFlip(a: int, b: int)
    requires b > 0
    ensures TDiv(-a, -b) == TDiv(a, b)
  {
    if a > 0 { DivFlip(a, b); } else { DivFlip(-a, b); }
  }

  lemma DivFlip(a: nat, b: int)
    requires b > 0
    ensures a / -b == -(a / b)
  {
  }

  lemma MulGap(x: int, y: int, d: int)
    requires d > 0
    ensures x < y ==> x * d + d <= y * d
  {
    if x < y {
      var k := y - x - 1;
      assert k * d >= 0;
      assert (x + 1 + k) * d == x * d + d + k * d;
    }
  }

  /** a / d is the largest q with q * d <= a. */
  lemma DivLargest(a: nat, d: int, q: int)
    requires d > 0
    ensures q * d <= a <==> q <= a / d
  {
    MulGap(a / d, q, d);
    MulGap(q, a / d, d);
  }

  lemma DivMonotone(a: nat, b: nat, d: int)
    requires d > 0 && a <= b
    ensures a / d <= b / d
  {
    DivLargest(b, d, a / d);
  }

  lemma DivStep(a: nat, n: nat, d: int)
    requires d > 0 && n <= d
    ensures a / d <= (a + n) / d <= a / d + 1
  {
    DivMonotone(a, a + n, d);
    MulGap(a / d + 1, (a + n) / d, d);
  }

  // ----- One edge -----

  /** The minor coordinate of the cell t steps along an edge whose minor extent is n and major extent d. */
  function Along(n: int, d: int, t: int): int
    requires d != 0
  {
    TDiv(n * t, d)
  }

  /** Interpolated cells stay between the end points. */
  lemma AlongBetween(n: int, d: int, t: int)
    requires 0 <= t <= d && d > 0
    ensures if n >= 0 then 0 <= Along(n, d, t) <= n else n <= Along(n, d, t) <= 0
    ensures t == 0 ==> Along(n, d, t) == 0
    ensures t == d ==> Along(n, d, t) == n
  {
    var m := Abs(n);
    AlongAbs(n, d, t);
    hide Along;
    ProductBetween(m, t, d);
    ghost var p, q := m * t, m * d;
    DivMonotone(p, q, d);
    DivMonotone(0, p, d);
    DivExact(m, d);
    DivExact(0, d);
  }

  lemma ProductBetween(m: nat, t: nat, d: nat)
    requires t <= d
    ensures 0 <= m * t <= m * d && (t == 0 ==> m * t == 0)
  {
    assert m * (d - t) >= 0;
  }

  lemma AlongAbs(n: int, d: int, t: int)
    requires 0 <= t && d > 0
    ensures Abs(n) * t >= 0
    ensures Along(n, d, t) == if n >= 0 then (Abs(n) * t) / d else -((Abs(n) * t) / d)
  {
    var m := Abs(n);
    assert m * t >= 0;
    if n < 0 {
      assert n * t == -(m * t);
      if m * t == 0 { DivExact(0, d); }
    }
  }

  lemma DivExact(m: nat, d: int)
    requires d > 0
    ensures m * d / d == m
  {
    DivLargest(m * d, d, m);
    DivLargest(m * d, d, m * d / d);
    MulGap(m, m * d / d, d);
  }

  /** Neighbouring cells along an edge differ by at most one in the minor coordinate. */
  lemma AlongStep(n: int, d: int, t: int)
    requires 0 <= t < d && Abs(n) <= d
    ensures Abs(Along(n, d, t + 1) - Along(n, d, t)) <= 1
  {
    var m := Abs(n);
    AlongAbs(n, d, t);
    AlongAbs(n, d, t + 1);
    hide Along;
    assert m * (t + 1) == m * t + m;
    DivStep(m * t, m, d);
  }

  function Swap(c: Cell): Cell { Cell(c.y, c.x) }

  predicate Steep(p: Cell, q: Cell) { Abs(q.x - p.x) < Abs(q.y - p.y) }

  /** Strictly between the end points of an edge that is not steep, as the loops over x compute it. */
  predicate OnShallow(p: Cell, q: Cell, c: Cell) {
    var dx, dy := q.x - p.x, q.y - p.y;
    if dx > 0 then p.x < c.x < q.x && c.y == p.y + TDiv(dy * (c.x - p.x), dx)
    else q.x < c.x < p.x && c.y == q.y + TDiv(dy * (c.x - q.x), dx)
  }

  /** The one cell of column x, and that there are none in the columns of the end points and beyond. */
  lemma ShallowColumn(p: Cell, q: Cell, x: int)
    ensures var b, last := if q.x - p.x > 0 then p else q, if q.x - p.x > 0 then q.x else p.x;
            && (b.x < x < last ==>
                  var d := Cell(x, b.y + TDiv((q.y - p.y) * (x - b.x), q.x - p.x));
                  OnShallow(p, q, d) && forall c :: OnShallow(p, q, c) && c.x == x ==> c == d)
            && forall c :: OnShallow(p, q, c) ==> b.x < c.x < last
  {
  }

  /** The same for a steep edge and the loops over y. */
  predicate OnSteep(p: Cell, q: Cell, c: Cell) { OnShallow(Swap(p), Swap(q), Swap(c)) }

  /** The cells drawn for the edge from p to q; q itself is drawn with the next edge. */
  predicate OnEdge(p: Cell, q: Cell, c: Cell) {
    c == p || (if Steep(p, q) then OnShallow(Swap(p), Swap(q), Swap(c)) else OnShallow(p, q, c))
  }

  /** The t-th cell of a shallow edge, counted from its lower end. */
  function ShallowCell(p: Cell, q: Cell, t: int): Cell
    requires p.x != q.x
  {
    var b, f := if q.x > p.x then p else q, if q.x > p.x then q else p;
    Cell(b.x + t, b.y + Along(f.y - b.y, f.x - b.x, t))
  }

  lemma ShallowIsChain(p: Cell, q: Cell, c: Cell)
    requires p.x != q.x
    ensures OnShallow(p, q, c) <==>
            (var t := c.x - (if q.x > p.x then p.x else q.x); 0 < t < Abs(q.x - p.x) && c == ShallowCell(p, q, t))
  {
    if q.x < p.x {
      var t := c.x - q.x;
      assert (q.y - p.y) * t == -((p.y - q.y) * t);
      TDivFlip((p.y - q.y) * t, p.x - q.x);
    }
  }

  /** A shallow edge is a chain from one end point to the other whose neighbours differ by at most one in
      each coordinate. */
  lemma ShallowConnected(p: Cell, q: Cell, t: int)
    requires p.x != q.x && !Steep(p, q) && 0 <= t < Abs(q.x - p.x)
    ensures ShallowCell(p, q, t + 1).x - ShallowCell(p, q, t).x == 1
    ensures Abs(ShallowCell(p, q, t + 1).y - ShallowCell(p, q, t).y) <= 1
    ensures ShallowCell(p, q, 0) == (if q.x > p.x then p else q)
    ensures ShallowCell(p, q, Abs(q.x - p.x)) == (if q.x > p.x then q else p)
  {
    var b, f := if q.x > p.x then p else q, if q.x > p.x then q else p;
    AlongStep(f.y - b.y, f.x - b.x, t);
    AlongBetween(f.y - b.y, f.x - b.x, 0);
    AlongBetween(f.y - b.y, f.x - b.x, f.x - b.x);
  }

  // ----- What an edge is -----

  /** Truncation toward zero, without a division: the remainder has the sign of the dividend and is smaller than the
      divisor. */
  lemma AlongExactly(n: int, d: int, t: int, y: int)
    requires d > 0 && t >= 0
    ensures y == Along(n, d, t) <==> if n >= 0 then 0 <= n * t - d * y < d else -d < n * t - d * y <= 0
  {
    var m := Abs(n);
    AlongAbs(n, d, t);
    hide Along;
    var z := if n >= 0 then y else -y;
    assert n * t - d * y == if n >= 0 then m * t - d * z else -(m * t - d * z) by {
      if n < 0 { assert n * t == -(m * t) && d * y == -(d * z); }
    }
    DivExactly(m * t, d, z);
  }

  lemma DivExactly(a: nat, d: int, z: int)
    requires d > 0
    ensures z == a / d <==> 0 <= a - d * z < d
  {
    DivLargest(a, d, z);
    DivLargest(a, d, z + 1);
    assert (z + 1) * d == z * d + d && z * d == d * z;
  }

  /** Cell c lies strictly between b and f, whose x is larger, on the last cell before the line from b to f or on it,
      counted from the height of b. */
  predicate BesideLine(b: Cell, f: Cell, c: Cell) {
    b.x < c.x < f.x
    && var e := (f.y - b.y) * (c.x - b.x) - (f.x - b.x) * (c.y - b.y);
       if f.y >= b.y then 0 <= e < f.x - b.x else -(f.x - b.x) < e <= 0
  }

  lemma ShallowExactly(p: Cell, q: Cell, c: Cell)
    ensures OnShallow(p, q, c) <==> if q.x > p.x then BesideLine(p, q, c) else BesideLine(q, p, c)
  {
    if p.x != q.x {
      var b, f := if q.x > p.x then p else q, if q.x > p.x then q else p;
      ShallowIsChain(p, q, c);
      if b.x < c.x { AlongExactly(f.y - b.y, f.x - b.x, c.x - b.x, c.y - b.y); }
    }
  }

  /** The cells drawn for an edge: its first point, and those beside the line, column by column if the edge is at least
      as wide as it is high, and row by row if it is higher than wide. */
  lemma EdgeExactly(p: Cell, q: Cell, c: Cell)
    ensures Abs(q.x - p.x) >= Abs(q.y - p.y) ==>
              (OnEdge(p, q, c) <==> c == p || (if q.x > p.x then BesideLine(p, q, c) else BesideLine(q, p, c)))
    ensures Abs(q.x - p.x) < Abs(q.y - p.y) ==>
              (OnEdge(p, q, c) <==> c == p || (if q.y > p.y then BesideLine(Swap(p), Swap(q), Swap(c))
                                               else BesideLine(Swap(q), Swap(p), Swap(c))))
  {
    ShallowExactly(p, q, c);
    ShallowExactly(Swap(p), Swap(q), Swap(c));
    hide OnShallow, BesideLine;
  }

  /** The number of steps along an edge. */
  function Extent(p: Cell, q: Cell): nat { Max(Abs(q.x - p.x), Abs(q.y - p.y)) }

  /** The t-th cell of an edge that is not steep, from p to q. */
  function ShallowStep(p: Cell, q: Cell, t: nat): Cell
    requires t <= Abs(q.x - p.x)
  {
    if p.x == q.x then p else ShallowCell(p, q, if q.x > p.x then t else p.x - q.x - t)
  }

  /** The t-th cell of an edge from p to q. */
  function EdgeCell(p: Cell, q: Cell, t: nat): Cell
    requires t <= Extent(p, q)
  {
    if Steep(p, q) then Swap(ShallowStep(Swap(p), Swap(q), t)) else ShallowStep(p, q, t)
  }

  /** A step of a king: to one of the eight cells around, or none. */
  predicate King(a: Cell, b: Cell) { Abs(a.x - b.x) <= 1 && Abs(a.y - b.y) <= 1 }

  lemma ShallowSteps(p: Cell, q: Cell, t: nat)
    requires !Steep(p, q) && t < Abs(q.x - p.x)
    ensures ShallowStep(p, q, 0) == p && ShallowStep(p, q, Abs(q.x - p.x)) == q
    ensures King(ShallowStep(p, q, t), ShallowStep(p, q, t + 1))
    ensures ShallowStep(p, q, t).x == if q.x > p.x then p.x + t else p.x - t
    ensures t > 0 ==> OnShallow(p, q, ShallowStep(p, q, t))
  {
    var n := Abs(q.x - p.x);
    ShallowConnected(p, q, if q.x > p.x then t else n - t - 1);
    ShallowConnected(p, q, 0);
    ShallowIsChain(p, q, ShallowStep(p, q, t));
    hide ShallowCell, OnShallow;
  }

  /** An edge is a chain from its first point to one beside its last.  Each step goes one cell on along the longer axis,
      and at most one along the other. */
  lemma EdgeChain(p: Cell, q: Cell, t: nat)
    requires t < Extent(p, q)
    ensures EdgeCell(p, q, 0) == p && EdgeCell(p, q, Extent(p, q)) == q
    ensures King(EdgeCell(p, q, t), EdgeCell(p, q, t + 1)) && OnEdge(p, q, EdgeCell(p, q, t))
    ensures if Steep(p, q) then EdgeCell(p, q, t).y == (if q.y > p.y then p.y + t else p.y - t)
            else EdgeCell(p, q, t).x == (if q.x > p.x then p.x + t else p.x - t)
  {
    if Steep(p, q) { ShallowSteps(Swap(p), Swap(q), t); } else { ShallowSteps(p, q, t); }
    hide ShallowStep, OnShallow;
  }

  /** How many steps along the longer axis c is away from p, in the direction of q. */
  function StepsTo(p: Cell, q: Cell, c: Cell): int {
    if Steep(p, q) then if q.y > p.y then c.y - p.y else p.y - c.y else if q.x > p.x then c.x - p.x else p.x - c.x
  }

  lemma ShallowOnce(p: Cell, q: Cell, c: Cell)
    requires OnShallow(p, q, c)
    ensures var t := if q.x > p.x then c.x - p.x else p.x - c.x; 0 < t < Abs(q.x - p.x) && c == ShallowStep(p, q, t)
  {
    ShallowIsChain(p, q, c);
    hide ShallowCell, OnShallow;
  }

  /** And these are all of its cells: for each step along the longer axis exactly one. */
  lemma EdgeOnce(p: Cell, q: Cell, c: Cell)
    ensures OnEdge(p, q, c) <==>
            (c == p || (0 < StepsTo(p, q, c) < Extent(p, q) && c == EdgeCell(p, q, StepsTo(p, q, c))))
  {
    var t := StepsTo(p, q, c);
    if OnEdge(p, q, c) && c != p {
      if Steep(p, q) { ShallowOnce(Swap(p), Swap(q), Swap(c)); } else { ShallowOnce(p, q, c); }
    }
    if 0 < t < Extent(p, q) { EdgeChain(p, q, t); }
    hide OnShallow, ShallowStep;
  }

  // ----- The two sides of an edge -----

  /** Cell c is in a column (or row, if the edge is steep) of the edge. */
  predicate Within(p: Cell, q: Cell, c: Cell) { 0 <= StepsTo(p, q, c) <= Extent(p, q) }

  /** Cell c lies above the edge (or to its right, if it is steep). */
  predicate Above(p: Cell, q: Cell, c: Cell)
    requires Within(p, q, c)
  {
    var e := EdgeCell(p, q, StepsTo(p, q, c));
    if Steep(p, q) then c.x > e.x else c.y > e.y
  }

  /** The cells right above and right below a cell of the chain (or to its right and left) are on different sides of it. */
  lemma BothSides(p: Cell, q: Cell, t: nat)
    requires p != q && t <= Extent(p, q)
    ensures var e := EdgeCell(p, q, t);
            var up := if Steep(p, q) then Cell(e.x + 1, e.y) else Cell(e.x, e.y + 1);
            var down := if Steep(p, q) then Cell(e.x - 1, e.y) else Cell(e.x, e.y - 1);
            Within(p, q, up) && Above(p, q, up) && Within(p, q, down) && !Above(p, q, down)
  {
    if t < Extent(p, q) { EdgeChain(p, q, t); } else { EdgeChain(p, q, 0); }
  }

  /** A step between neighbours that are not drawn does not change sides. */
  lemma SideKept(p: Cell, q: Cell, a: Cell, b: Cell)
    requires p != q && Neighbours(a, b) && Within(p, q, a) && Within(p, q, b)
    requires !OnEdge(p, q, a) && !OnEdge(p, q, b) && a != q && b != q
    ensures Above(p, q, a) <==> Above(p, q, b)
  {
    NotOnChain(p, q, a);
    NotOnChain(p, q, b);
    var t, u := StepsTo(p, q, a), StepsTo(p, q, b);
    if u == t + 1 { EdgeChain(p, q, t); }
    if t == u + 1 { EdgeChain(p, q, u); }
    CellOfStep(p, q, a);
    CellOfStep(p, q, b);
    hide EdgeCell, OnEdge;
  }

  lemma NotOnChain(p: Cell, q: Cell, c: Cell)
    requires Within(p, q, c) && !OnEdge(p, q, c) && c != q && p != q
    ensures c != EdgeCell(p, q, StepsTo(p, q, c))
  {
    var t := StepsTo(p, q, c);
    EdgeChain(p, q, 0);
    if t < Extent(p, q) { EdgeChain(p, q, t); }
    hide EdgeCell, OnEdge;
  }

  lemma CellOfStep(p: Cell, q: Cell, c: Cell)
    requires Within(p, q, c) && p != q
    ensures var e := EdgeCell(p, q, StepsTo(p, q, c)); if Steep(p, q) then e.y == c.y else e.x == c.x
  {
    var t := StepsTo(p, q, c);
    if t < Extent(p, q) { EdgeChain(p, q, t); } else { EdgeChain(p, q, 0); }
    hide EdgeCell, OnEdge;
  }

  /** No walk from neighbour to neighbour gets from one side of an edge to the other, as long as it stays beside the edge
      and clear of its cells. */
  lemma {:induction false} EdgeSeparates(p: Cell, q: Cell, w: seq<Cell>)
    requires p != q && w != []
    requires forall i :: 0 <= i < |w| ==> Within(p, q, w[i]) && !OnEdge(p, q, w[i]) && w[i] != q
    requires forall i :: 0 <= i < |w| - 1 ==> Neighbours(w[i], w[i + 1])
    ensures Above(p, q, w[0]) <==> Above(p, q, w[|w| - 1])
    decreases |w|
  {
    hide Above, OnEdge, Within;
    if |w| > 1 {
      var v := w[..|w| - 1];
      EdgeSeparates(p, q, v);
      SideKept(p, q, w[|w| - 2], w[|w| - 1]);
    }
  }

  /** c lies in the box spanned by p and q. */
  predicate InBox(p: Cell, q: Cell, c: Cell) {
    Min(p.x, q.x) <= c.x <= Max(p.x, q.x) && Min(p.y, q.y) <= c.y <= Max(p.y, q.y)
  }

  lemma ShallowInBox(p: Cell, q: Cell, c: Cell)
    requires OnShallow(p, q, c)
    ensures InBox(p, q, c)
  {
    var b, f := if q.x > p.x then p else q, if q.x > p.x then q else p;
    ShallowIsChain(p, q, c);
    AlongBetween(f.y - b.y, f.x - b.x, c.x - b.x);
  }

  /** The same for a row of a steep edge as ShallowColumn for a column; the cell lies between the end points. */
  lemma SteepRow(p: Cell, q: Cell, y: int)
    ensures var b, last := if q.y - p.y > 0 then p else q, if q.y - p.y > 0 then q.y else p.y;
            && (b.y < y < last ==>
                  var d := Cell(b.x + TDiv((q.x - p.x) * (y - b.y), q.y - p.y), y);
                  OnSteep(p, q, d) && InBox(p, q, d) && forall c :: OnSteep(p, q, c) && c.y == y ==> c == d)
            && forall c :: OnSteep(p, q, c) ==> b.y < c.y < last
  {
    ShallowColumn(Swap(p), Swap(q), y);
    var b, last := if q.y - p.y > 0 then p else q, if q.y - p.y > 0 then q.y else p.y;
    if b.y < y < last {
      var d := Cell(b.x + TDiv((q.x - p.x) * (y - b.y), q.y - p.y), y);
      ShallowInBox(Swap(p), Swap(q), Swap(d));
      hide OnShallow, TDiv;
      forall c | OnSteep(p, q, c) && c.y == y ensures c == d {
        assert Swap(c) == Swap(d);
      }
    }
  }

  /** Drawing an edge never leaves the box spanned by its end points. */
  lemma EdgeInBox(p: Cell, q: Cell, c: Cell)
    requires OnEdge(p, q, c)
    ensures InBox(p, q, c)
  {
    if c != p {
      if Steep(p, q) { ShallowInBox(Swap(p), Swap(q), Swap(c)); } else { ShallowInBox(p, q, c); }
    }
  }

  // ----- The outline -----

  function NextPoint(pts: seq<Cell>, i: nat): Cell
    requires i < |pts|
  {
    if i + 1 == |pts| then pts[0] else pts[i + 1]
  }

  /** Drawn by one of the first n edges of the closed outline. */
  ghost predicate DrawnBy(pts: seq<Cell>, n: nat, c: Cell)
    requires n <= |pts|
  {
    exists i :: 0 <= i < n && OnEdge(pts[i], NextPoint(pts, i), c)
  }

  ghost predicate Blank(pts: seq<Cell>, c: Cell) { InGrid(c) && !DrawnBy(pts, |pts|, c) }

  // ----- Reachability -----

  predicate Neighbours(a: Cell, b: Cell) {
    (a.x == b.x && Abs(a.y - b.y) == 1) || (a.y == b.y && Abs(a.x - b.x) == 1)
  }

  /** A walk through blank cells from the border of the grid to c. */
  ghost predicate Walk(pts: seq<Cell>, w: seq<Cell>, c: Cell) {
    && w != [] && OnBorder(w[0]) && w[|w| - 1] == c
    && (forall i :: 0 <= i < |w| ==> Blank(pts, w[i]))
    && (forall i :: 0 <= i < |w| - 1 ==> Neighbours(w[i], w[i + 1]))
  }

  ghost predicate Outside(pts: seq<Cell>, c: Cell) { exists w :: Walk(pts, w, c) }

  lemma OutsideBorder(pts: seq<Cell>, c: Cell)
    requires Blank(pts, c) && OnBorder(c)
    ensures Outside(pts, c)
  {
    assert Walk(pts, [c], c);
  }

  lemma OutsideStep(pts: seq<Cell>, a: Cell, b: Cell)
    requires Outside(pts, a) && Blank(pts, b) && Neighbours(a, b)
    ensures Outside(pts, b)
  {
    var w :| Walk(pts, w, a);
    assert Walk(pts, w + [b], b);
  }

  /** A cell is outside exactly if no edge is drawn over it and it is at the border of the grid or beside a cell that is
      outside: to its left or right, below or above. */
  lemma OutsideExactly(pts: seq<Cell>, c: Cell)
    ensures Outside(pts, c)
            <==> -15 <= c.x <= 15 && -15 <= c.y <= 15
                 && (forall i :: 0 <= i < |pts| ==> !OnEdge(pts[i], NextPoint(pts, i), c))
                 && (c.x == -15 || c.x == 15 || c.y == -15 || c.y == 15
                     || Outside(pts, Cell(c.x - 1, c.y)) || Outside(pts, Cell(c.x + 1, c.y))
                     || Outside(pts, Cell(c.x, c.y - 1)) || Outside(pts, Cell(c.x, c.y + 1)))
  {
    if Outside(pts, c) {
      var w :| Walk(pts, w, c);
      assert Blank(pts, c);
      if !OnBorder(c) {
        var v := w[..|w| - 1];
        assert Walk(pts, v, v[|v| - 1]);
        assert Neighbours(w[|w| - 2], c);
      }
    } else if Blank(pts, c) {
      if OnBorder(c) { OutsideBorder(pts, c); }
      forall d | Neighbours(d, c) ensures !Outside(pts, d) {
        if Outside(pts, d) { OutsideStep(pts, d, c); }
      }
    }
  }

  /** A set of blank cells that holds the blank border and is closed under blank neighbours holds every
      outside cell. */
  lemma {:induction false} ClosedHoldsWalk(pts: seq<Cell>, inside: set<Cell>, w: seq<Cell>, c: Cell)
    requires Walk(pts, w, c)
    requires forall d :: OnBorder(d) && Blank(pts, d) ==> d in inside
    requires forall a, b :: a in inside && Blank(pts, b) && Neighbours(a, b) ==> b in inside
    ensures c in inside
    decreases |w|
  {
    if |w| > 1 {
      var v := w[..|w| - 1];
      assert Walk(pts, v, v[|v| - 1]);
      ClosedHoldsWalk(pts, inside, v, v[|v| - 1]);
    }
  }

  /** c lies beyond all outline points in direction (dx, dy), one of the four axis directions. */
  ghost predicate Beyond(pts: seq<Cell>, c: Cell, dx: int, dy: int) {
    forall i :: 0 <= i < |pts| ==> pts[i].x * dx + pts[i].y * dy < c.x * dx + c.y * dy
  }

  lemma BeyondIsBlank(pts: seq<Cell>, c: Cell, dx: int, dy: int)
    requires (dx, dy) in {(1, 0), (-1, 0), (0, 1), (0, -1)} && InGrid(c) && Beyond(pts, c, dx, dy)
    ensures Blank(pts, c)
  {
    if DrawnBy(pts, |pts|, c) {
      var i :| 0 <= i < |pts| && OnEdge(pts[i], NextPoint(pts, i), c);
      EdgeInBox(pts[i], NextPoint(pts, i), c);
    }
  }

  /** Every grid cell outside the outline's bounding box is outside the ship. */
  lemma {:induction false} BeyondIsOutside(pts: seq<Cell>, c: Cell, dx: int, dy: int)
    requires (dx, dy) in {(1, 0), (-1, 0), (0, 1), (0, -1)} && InGrid(c) && Beyond(pts, c, dx, dy)
    ensures Outside(pts, c)
    decreases LIMIT - (c.x * dx + c.y * dy)
  {
    BeyondIsBlank(pts, c, dx, dy);
    if OnBorder(c) {
      OutsideBorder(pts, c);
    } else {
      var further := Cell(c.x + dx, c.y + dy);
      BeyondIsOutside(pts, further, dx, dy);
      OutsideStep(pts, further, c);
    }
  }

  // ----- The outline as one closed chain -----

  /** The cells of an edge in order, without its last point unless it is the only one. */
  function EdgeCells(p: Cell, q: Cell): (s: seq<Cell>)
    ensures |s| == Max(Extent(p, q), 1)
    ensures forall t :: 0 <= t < |s| ==> s[t] == EdgeCell(p, q, t)
  {
    seq(Max(Extent(p, q), 1), t requires 0 <= t < Max(Extent(p, q), 1) => EdgeCell(p, q, t))
  }

  /** The cells of the first n edges in order. */
  function Chain(pts: seq<Cell>, n: nat): seq<Cell>
    requires n <= |pts|
  {
    if n == 0 then [] else Chain(pts, n - 1) + EdgeCells(pts[n - 1], NextPoint(pts, n - 1))
  }

  /** The whole outline, back to its first point. */
  function Loop(pts: seq<Cell>): seq<Cell>
    requires pts != []
  {
    Chain(pts, |pts|) + [pts[0]]
  }

  predicate KingWalk(s: seq<Cell>) { forall k :: 0 <= k < |s| - 1 ==> King(s[k], s[k + 1]) }

  lemma EdgeWalks(p: Cell, q: Cell)
    ensures KingWalk(EdgeCells(p, q) + [q]) && EdgeCells(p, q)[0] == p
  {
    var s, n := EdgeCells(p, q) + [q], Extent(p, q);
    if n > 0 { EdgeChain(p, q, 0); }
    forall k | 0 <= k < |s| - 1 ensures King(s[k], s[k + 1]) {
      if n > 0 { EdgeChain(p, q, k); }
      hide EdgeCell;
    }
  }

  lemma WalksJoin(a: seq<Cell>, c: Cell, b: seq<Cell>)
    requires KingWalk(a + [c]) && KingWalk(b) && b != [] && b[0] == c
    ensures KingWalk(a + b)
  {
    var s := a + b;
    forall k | 0 <= k < |s| - 1 ensures King(s[k], s[k + 1]) {
      if k < |a| {
        assert s[k] == (a + [c])[k] && s[k + 1] == (a + [c])[k + 1];
      } else {
        assert s[k] == b[k - |a|] && s[k + 1] == b[k + 1 - |a|];
      }
    }
  }

  lemma {:induction false} ChainWalks(pts: seq<Cell>, n: nat)
    requires 0 < n <= |pts|
    ensures KingWalk(Chain(pts, n) + [NextPoint(pts, n - 1)]) && Chain(pts, n) != [] && Chain(pts, n)[0] == pts[0]
    decreases n
  {
    var p, q := pts[n - 1], NextPoint(pts, n - 1);
    EdgeWalks(p, q);
    hide KingWalk, EdgeCells;
    if n == 1 {
      assert Chain(pts, 0) == [] && Chain(pts, 1) == EdgeCells(p, q);
    } else {
      ChainWalks(pts, n - 1);
      WalksJoin(Chain(pts, n - 1), p, EdgeCells(p, q) + [q]);
      assert Chain(pts, n) + [q] == Chain(pts, n - 1) + (EdgeCells(p, q) + [q]);
    }
  }

  /** The outline is a closed walk of a king. */
  lemma LoopCloses(pts: seq<Cell>)
    requires pts != []
    ensures var s := Loop(pts); KingWalk(s) && |s| > 1 && s[0] == s[|s| - 1] == pts[0]
  {
    ChainWalks(pts, |pts|);
    hide KingWalk;
  }

  lemma InEdgeCells(p: Cell, q: Cell, c: Cell)
    ensures c in EdgeCells(p, q) <==> OnEdge(p, q, c)
  {
    var s := EdgeCells(p, q);
    if Extent(p, q) > 0 { EdgeChain(p, q, 0); }
    assert s[0] == p;
    EdgeOnce(p, q, c);
    hide EdgeCell, OnEdge;
    if OnEdge(p, q, c) && c != p { assert s[StepsTo(p, q, c)] == c; }
    if c in s {
      var t :| 0 <= t < |s| && s[t] == c;
      if Extent(p, q) > 0 { EdgeChain(p, q, t); }
    }
  }

  /** Its cells are those that are drawn. */
  lemma {:induction false} ChainIsDrawn(pts: seq<Cell>, n: nat, c: Cell)
    requires n <= |pts|
    ensures c in Chain(pts, n) <==> DrawnBy(pts, n, c)
    decreases n
  {
    hide EdgeCells, OnEdge;
    if n > 0 {
      ChainIsDrawn(pts, n - 1, c);
      InEdgeCells(pts[n - 1], NextPoint(pts, n - 1), c);
      DrawnNext(pts, n - 1, c);
      hide DrawnBy;
    }
  }

  lemma LoopIsDrawn(pts: seq<Cell>, c: Cell)
    requires pts != []
    ensures c in Loop(pts) <==> DrawnBy(pts, |pts|, c)
  {
    ChainIsDrawn(pts, |pts|, c);
    ChainWalks(pts, |pts|);
    hide DrawnBy, Chain, KingWalk;
    assert Chain(pts, |pts|)[0] in Chain(pts, |pts|);
  }

  // ----- Inside and outside -----

  /** The step from a to b passes the line behind column c.x above cell c. */
  predicate Passes(a: Cell, b: Cell, c: Cell) {
    Min(a.x, b.x) == c.x && Max(a.x, b.x) == c.x + 1 && a.y + b.y > 2 * c.y
  }

  /** How many of the first n steps of a walk do. */
  function Passed(s: seq<Cell>, n: nat, c: Cell): nat
    requires n < |s|
  {
    if n == 0 then 0 else Passed(s, n - 1, c) + if Passes(s[n - 1], s[n], c) then 1 else 0
  }

  /** The outline passes above c an odd number of times. */
  predicate Enclosed(pts: seq<Cell>, c: Cell) {
    pts != [] && Passed(Loop(pts), |Loop(pts)| - 1, c) % 2 == 1
  }

  /** Going up or down clear of the walk changes nothing. */
  lemma {:induction false} UpChangesNothing(s: seq<Cell>, n: nat, c: Cell)
    requires n < |s| && KingWalk(s) && c !in s && Cell(c.x, c.y + 1) !in s
    ensures Passed(s, n, c) == Passed(s, n, Cell(c.x, c.y + 1))
    decreases n
  {
    if n > 0 {
      UpChangesNothing(s, n - 1, c);
      var a, b := s[n - 1], s[n];
      assert King(a, b) && a in s && b in s;
    }
  }

  predicate InUpper(a: Cell, c: Cell) { a.x == c.x && a.y > c.y }

  /** How many of the first n steps enter or leave the part of column c.x above c. */
  function Changes(s: seq<Cell>, n: nat, c: Cell): nat
    requires n < |s|
  {
    if n == 0 then 0 else Changes(s, n - 1, c) + if InUpper(s[n - 1], c) != InUpper(s[n], c) then 1 else 0
  }

  lemma {:induction false} ChangesParity(s: seq<Cell>, n: nat, c: Cell)
    requires n < |s|
    ensures Changes(s, n, c) % 2 == if InUpper(s[0], c) != InUpper(s[n], c) then 1 else 0
    decreases n
  {
    if n > 0 { ChangesParity(s, n - 1, c); }
  }

  /** A walk clear of a cell enters and leaves the part of its column above it only from the sides. */
  lemma {:induction false} PassedBeside(s: seq<Cell>, n: nat, c: Cell)
    requires n < |s| && KingWalk(s) && c !in s
    ensures Passed(s, n, Cell(c.x - 1, c.y)) + Passed(s, n, c) == Changes(s, n, c)
    decreases n
  {
    if n > 0 {
      PassedBeside(s, n - 1, c);
      var a, b := s[n - 1], s[n];
      assert King(a, b) && a in s && b in s;
    }
  }

  /** Neighbouring cells clear of a closed walk are passed above equally often, to within an even number. */
  lemma NeighboursAlike(s: seq<Cell>, a: Cell, b: Cell)
    requires s != [] && KingWalk(s) && s[0] == s[|s| - 1] && a !in s && b !in s && Neighbours(a, b)
    ensures Passed(s, |s| - 1, a) % 2 == Passed(s, |s| - 1, b) % 2
  {
    var n := |s| - 1;
    hide KingWalk, Passed, Changes;
    if a.x == b.x {
      if b.y == a.y + 1 { UpChangesNothing(s, n, a); } else { UpChangesNothing(s, n, b); }
    } else {
      var c := if a.x < b.x then b else a;
      PassedBeside(s, n, c);
      ChangesParity(s, n, c);
    }
  }

  /** Above the last row and behind the last column nothing passes. */
  lemma {:induction false} NothingBeyond(s: seq<Cell>, n: nat, c: Cell)
    requires n < |s| && forall k :: 0 <= k < |s| ==> InGrid(s[k])
    requires c.x >= LIMIT || c.y >= LIMIT || c.x < -LIMIT
    ensures Passed(s, n, c) == 0
    decreases n
  {
    if n > 0 { NothingBeyond(s, n - 1, c); }
  }

  lemma {:induction false} LowRowEven(s: seq<Cell>, c: Cell)
    requires s != [] && KingWalk(s) && s[0] == s[|s| - 1] && (forall k :: 0 <= k < |s| ==> InGrid(s[k]))
    requires c.y == -LIMIT - 1 && c.x <= LIMIT
    ensures Passed(s, |s| - 1, c) % 2 == 0
    decreases LIMIT - c.x
  {
    if c.x == LIMIT {
      NothingBeyond(s, |s| - 1, c);
    } else {
      var d := Cell(c.x + 1, c.y);
      LowRowEven(s, d);
      NeighboursAlike(s, c, d);
    }
  }

  /** A border cell clear of a closed walk within the grid is passed above an even number of times. */
  lemma BorderEven(s: seq<Cell>, c: Cell)
    requires s != [] && KingWalk(s) && s[0] == s[|s| - 1] && (forall k :: 0 <= k < |s| ==> InGrid(s[k]))
    requires OnBorder(c) && c !in s
    ensures Passed(s, |s| - 1, c) % 2 == 0
  {
    hide Passed, KingWalk;
    if c.x == -LIMIT {
      var d := Cell(c.x - 1, c.y);
      NothingBeyond(s, |s| - 1, d);
      NeighboursAlike(s, d, c);
    } else if c.y == -LIMIT {
      var d := Cell(c.x, c.y - 1);
      LowRowEven(s, d);
      NeighboursAlike(s, d, c);
    } else {
      NothingBeyond(s, |s| - 1, c);
    }
  }

  lemma DrawnInGrid(pts: seq<Cell>, c: Cell)
    requires (forall i :: 0 <= i < |pts| ==> InGrid(pts[i])) && DrawnBy(pts, |pts|, c)
    ensures InGrid(c)
  {
    var i :| 0 <= i < |pts| && OnEdge(pts[i], NextPoint(pts, i), c);
    EdgeInBox(pts[i], NextPoint(pts, i), c);
  }

  lemma LoopInGrid(pts: seq<Cell>)
    requires pts != [] && forall i :: 0 <= i < |pts| ==> InGrid(pts[i])
    ensures forall k :: 0 <= k < |Loop(pts)| ==> InGrid(Loop(pts)[k])
  {
    hide Loop, DrawnBy;
    forall k | 0 <= k < |Loop(pts)| ensures InGrid(Loop(pts)[k]) {
      LoopIsDrawn(pts, Loop(pts)[k]);
      DrawnInGrid(pts, Loop(pts)[k]);
    }
  }

  lemma {:induction false} WalkEven(pts: seq<Cell>, w: seq<Cell>, c: Cell)
    requires pts != [] && (forall i :: 0 <= i < |pts| ==> InGrid(pts[i])) && Walk(pts, w, c)
    ensures !Enclosed(pts, c)
    decreases |w|
  {
    var s := Loop(pts);
    LoopCloses(pts);
    LoopInGrid(pts);
    LoopIsDrawn(pts, c);
    hide Loop, KingWalk, DrawnBy, Passed;
    if |w| == 1 {
      BorderEven(s, c);
    } else {
      var v, d := w[..|w| - 1], w[|w| - 2];
      assert Walk(pts, v, d);
      WalkEven(pts, v, d);
      LoopIsDrawn(pts, d);
      NeighboursAlike(s, d, c);
    }
  }

  /** What the outline encloses is never outside: the fill does not get through it anywhere. */
  lemma EnclosedIsInside(pts: seq<Cell>, c: Cell)
    requires (forall i :: 0 <= i < |pts| ==> InGrid(pts[i])) && Enclosed(pts, c)
    ensures !Outside(pts, c)
  {
    hide Enclosed, Walk;
    if Outside(pts, c) {
      var w :| Walk(pts, w, c);
      assert pts != [] by { EnclosedHasPoints(pts, c); }
      WalkEven(pts, w, c);
    }
  }

  lemma EnclosedHasPoints(pts: seq<Cell>, c: Cell)
    requires Enclosed(pts, c)
    ensures pts != []
  {
  }

  const TRIANGLE := [Cell(2, 0), Cell(-2, 2), Cell(-2, -2)]

  const TRIANGLE_LOOP := [Cell(2, 0), Cell(1, 1), Cell(0, 1), Cell(-1, 2), Cell(-2, 2), Cell(-2, 1), Cell(-2, 0),
                          Cell(-2, -1), Cell(-2, -2), Cell(-1, -2), Cell(0, -1), Cell(1, -1), Cell(2, 0)]

  lemma TriangleEdges()
    ensures EdgeCells(TRIANGLE[0], TRIANGLE[1]) == TRIANGLE_LOOP[..4]
    ensures EdgeCells(TRIANGLE[1], TRIANGLE[2]) == TRIANGLE_LOOP[4..8]
    ensures EdgeCells(TRIANGLE[2], TRIANGLE[0]) == TRIANGLE_LOOP[8..12]
  {
  }

  lemma TriangleLoop()
    ensures Loop(TRIANGLE) == TRIANGLE_LOOP
  {
    hide EdgeCells;
    TriangleEdges();
    assert Chain(TRIANGLE, 1) == TRIANGLE_LOOP[..4];
    assert Chain(TRIANGLE, 2) == TRIANGLE_LOOP[..8];
    assert Chain(TRIANGLE, 3) == TRIANGLE_LOOP[..12];
  }

  lemma OneMoreStep(s: seq<Cell>, n: nat, c: Cell)
    requires 0 < n < |s|
    ensures Passed(s, n, c) == Passed(s, n - 1, c) + if Passes(s[n - 1], s[n], c) then 1 else 0
  {
  }

  lemma TrianglePasses(n: nat)
    requires 0 < n < |TRIANGLE_LOOP|
    ensures Passes(TRIANGLE_LOOP[n - 1], TRIANGLE_LOOP[n], Cell(0, 0)) <==> n == 2
  {
  }

  /** A triangle with a steep back edge encloses its middle. */
  lemma TriangleEncloses()
    ensures Enclosed(TRIANGLE, Cell(0, 0))
  {
    TriangleLoop();
    var s, o := TRIANGLE_LOOP, Cell(0, 0);
    assert Passed(s, 0, o) == 0;
    hide Loop, Passed, Passes;
    for n := 1 to |s|
      invariant Passed(s, n - 1, o) == if n - 1 < 2 then 0 else 1
    {
      OneMoreStep(s, n, o);
      TrianglePasses(n);
    }
  }

  // ----- The grid itself -----

  class Grid {
    const pt: array2<int>
    const chk: array<(int, int)>
    var todo: nat
    var done: nat
    ghost var queue: seq<Cell>   // the cells ever put on the work list

    ghost predicate Sizes()
      reads this
    {
      pt.Length0 == GRID_SIZE && pt.Length1 == GRID_SIZE && chk.Length == GRID_SIZE * GRID_SIZE
    }

    function Pt(c: Cell): int
      requires Sizes() && InGrid(c)
      reads this, pt
    {
      pt[c.x + LIMIT, c.y + LIMIT]
    }

    constructor ()
      ensures Sizes() && fresh(pt) && fresh(chk)
    {
      pt := new int[GRID_SIZE, GRID_SIZE]((i, j) => 0);
      chk := new (int, int)[GRID_SIZE * GRID_SIZE](i => (0, 0));
      todo, done, queue := 0, 0, [];
    }

    /** GRID_RESET. */
    method Reset()
      requires Sizes()
      modifies this, pt
      ensures Sizes() && todo == 0 && done == 0 && queue == []
      ensures forall c :: InGrid(c) ==> Pt(c) == 0
    {
      forall i, j | 0 <= i < GRID_SIZE && 0 <= j < GRID_SIZE { pt[i, j] := 0; }
      todo, done, queue := 0, 0, [];
    }

    method Mark(c: Cell, v: int)
      requires Sizes() && InGrid(c)
      modifies pt
      ensures forall d :: InGrid(d) ==> Pt(d) == if d == c then v else old(Pt(d))
    {
      pt[c.x + LIMIT, c.y + LIMIT] := v;
    }

    /** The loops over x between the end points of an edge that is not steep. */
    method DrawColumns(p: Cell, q: Cell)
      requires Sizes() && InGrid(p) && InGrid(q)
      modifies pt
      ensures forall c :: InGrid(c) ==> Pt(c) == if OnShallow(p, q, c) then 1 else old(Pt(c))
    {
      hide OnShallow, TDiv;
      var dx, dy := q.x - p.x, q.y - p.y;
      var b, last := if dx > 0 then p else q, if dx > 0 then q.x else p.x;
      var x := b.x + 1;
      ShallowColumn(p, q, x);
      while x < last
        invariant b.x < x && (x <= last || x == b.x + 1)
        invariant forall c :: InGrid(c) ==> Pt(c) == if OnShallow(p, q, c) && c.x < x then 1 else old(Pt(c))
      {
        var y := b.y + TDiv(dy * (x - b.x), dx);
        ShallowColumn(p, q, x);
        ShallowInBox(p, q, Cell(x, y));
        Mark(Cell(x, y), 1);
        x := x + 1;
      }
    }

    /** The loops over y of a steep edge. */
    method DrawRows(p: Cell, q: Cell)
      requires Sizes() && InGrid(p) && InGrid(q)
      modifies pt
      ensures forall c :: InGrid(c) ==> Pt(c) == if OnSteep(p, q, c) then 1 else old(Pt(c))
    {
      hide OnSteep, TDiv;
      var dx, dy := q.x - p.x, q.y - p.y;
      var b, last := if dy > 0 then p else q, if dy > 0 then q.y else p.y;
      var y := b.y + 1;
      SteepRow(p, q, y);
      while y < last
        invariant b.y < y && (y <= last || y == b.y + 1)
        invariant forall c :: InGrid(c) ==> Pt(c) == if OnSteep(p, q, c) && c.y < y then 1 else old(Pt(c))
      {
        var x := b.x + TDiv(dx * (y - b.y), dy);
        SteepRow(p, q, y);
        Mark(Cell(x, y), 1);
        y := y + 1;
      }
    }

    /** Draws the closed outline. */
    method DrawOutline(pts: seq<Cell>)
      requires Sizes() && forall i :: 0 <= i < |pts| ==> InGrid(pts[i])
      requires forall c :: InGrid(c) ==> Pt(c) == 0
      modifies pt
      ensures forall c :: InGrid(c) ==> Pt(c) == if Blank(pts, c) then 0 else 1
    {
      for i := 0 to |pts|
        invariant forall c :: InGrid(c) ==> Pt(c) == if DrawnBy(pts, i, c) then 1 else 0
      {
        var p, q := pts[i], NextPoint(pts, i);
        Mark(p, 1);
        if Steep(p, q) {
          DrawRows(p, q);
        } else {
          DrawColumns(p, q);
        }
        forall c | InGrid(c) ensures Pt(c) == if DrawnBy(pts, i + 1, c) then 1 else 0 {
          DrawnNext(pts, i, c);
        }
      }
    }

    /** The work list holds distinct outside cells; they are the cells marked 2, the other blank cells are
        still 0, and drawn cells are 1. */
    ghost predicate Flooding(pts: seq<Cell>)
      reads this, pt, chk
    {
      && Sizes() && done <= todo == |queue| <= CELLS && Distinct(queue)
      && (forall i :: 0 <= i < todo ==> InGrid(queue[i]) && chk[i] == (queue[i].x + LIMIT, queue[i].y + LIMIT))
      && (forall i :: 0 <= i < todo ==> Outside(pts, queue[i]))
      && (forall c :: InGrid(c) ==> Pt(c) == if !Blank(pts, c) then 1 else if c in queue then 2 else 0)
    }

    /** Every blank neighbour of the first n cells of the work list is on it too. */
    ghost predicate Closed(pts: seq<Cell>, n: nat)
      reads this
    {
      forall i, b :: 0 <= i < n <= |queue| && Blank(pts, b) && Neighbours(queue[i], b) ==> b in queue
    }

    /** GRID_ADD. */
    method Add(ghost pts: seq<Cell>, c: Cell)
      requires Flooding(pts) && InGrid(c) && Pt(c) == 0 && Outside(pts, c)
      modifies this`todo, this`queue, pt, chk
      ensures Flooding(pts) && queue == old(queue) + [c]
    {
      hide Blank, Outside, Number;
      CellsDistinct(queue + [c]);
      Mark(c, 2);
      chk[todo] := (c.x + LIMIT, c.y + LIMIT);
      queue := queue + [c];
      todo := todo + 1;
    }

    method AddIfBlank(ghost pts: seq<Cell>, c: Cell)
      requires Flooding(pts) && InGrid(c) && (Blank(pts, c) ==> Outside(pts, c))
      modifies this`todo, this`queue, pt, chk
      ensures Flooding(pts) && old(queue) <= queue && (Blank(pts, c) ==> c in queue)
    {
      if Pt(c) == 0 {
        Add(pts, c);
      }
    }

    /** Puts the blank cells of the border on the work list. */
    method SeedBorder(ghost pts: seq<Cell>)
      requires Flooding(pts) && queue == [] && done == 0
      modifies this`todo, this`queue, pt, chk
      ensures Flooding(pts)
      ensures forall d :: OnBorder(d) && Blank(pts, d) ==> d in queue
    {
      var y := -LIMIT;
      while y <= LIMIT
        invariant -LIMIT <= y <= LIMIT + 1 && Flooding(pts)
        invariant forall d :: OnBorder(d) && Blank(pts, d) && d.y < y ==> d in queue
      {
        var x := -LIMIT;
        while x <= LIMIT
          invariant -LIMIT <= x && Flooding(pts)
          invariant x <= LIMIT && y != -LIMIT && y != LIMIT ==> x == -LIMIT || x == LIMIT
          invariant forall d :: OnBorder(d) && Blank(pts, d) && (d.y < y || (d.y == y && d.x < x)) ==> d in queue
          decreases LIMIT - x
        {
          var c := Cell(x, y);
          if Blank(pts, c) { OutsideBorder(pts, c); }
          AddIfBlank(pts, c);
          x := x + if y == -LIMIT || y == LIMIT then 1 else 2 * LIMIT;
        }
        y := y + 1;
      }
    }

    method AddNeighbours(ghost pts: seq<Cell>, x: int, y: int)
      requires Flooding(pts) && InGrid(Cell(x, y))
      requires forall b :: Blank(pts, b) && Neighbours(Cell(x, y), b) ==> Outside(pts, b)
      modifies this`todo, this`queue, pt, chk
      ensures Flooding(pts) && old(queue) <= queue
      ensures forall b :: Blank(pts, b) && Neighbours(Cell(x, y), b) ==> b in queue
    {
      hide Flooding, Outside, Blank;
      if x < LIMIT { AddIfBlank(pts, Cell(x + 1, y)); }
      if x > -LIMIT { AddIfBlank(pts, Cell(x - 1, y)); }
      if y < LIMIT { AddIfBlank(pts, Cell(x, y + 1)); }
      if y > -LIMIT { AddIfBlank(pts, Cell(x, y - 1)); }
      forall b | Blank(pts, b) && Neighbours(Cell(x, y), b) ensures b in queue {
        BlankInGrid(pts, b);
      }
    }

    /** One turn of the fill loop: takes the next cell from the work list and adds its blank neighbours. */
    method Spread(ghost pts: seq<Cell>)
      requires Flooding(pts) && done < todo && Closed(pts, done)
      modifies this, pt, chk
      ensures Flooding(pts) && done == old(done) + 1 && old(queue) <= queue && Closed(pts, done)
    {
      hide Blank, Outside;
      var x, y := chk[done].0 - LIMIT, chk[done].1 - LIMIT;
      assert queue[done] == Cell(x, y);
      done := done + 1;
      forall b | Blank(pts, b) && Neighbours(Cell(x, y), b) ensures Outside(pts, b) {
        OutsideStep(pts, Cell(x, y), b);
      }
      AddNeighbours(pts, x, y);
    }

    /** The finished grid: drawn cells are 1, and the blank ones that can be reached from the border are 2. */
    ghost predicate Flooded(pts: seq<Cell>)
      requires Sizes()
      reads this, pt
    {
      forall c :: InGrid(c) ==> Pt(c) == if Outside(pts, c) then 2 else if Blank(pts, c) then 0 else 1
    }

    /** The whole grid computation: afterwards exactly the blank cells that can be reached from the border
        are marked 2, and drawn cells are marked 1. */
    method Flood(pts: seq<Cell>)
      requires Sizes() && forall i :: 0 <= i < |pts| ==> InGrid(pts[i])
      modifies this, pt, chk
      ensures Sizes() && Flooded(pts)
    {
      Reset();
      DrawOutline(pts);
      SeedBorder(pts);
      while done < todo
        invariant Flooding(pts) && Closed(pts, done)
        invariant forall d :: OnBorder(d) && Blank(pts, d) ==> d in queue
        decreases CELLS - done
      {
        Spread(pts);
      }
      forall c | InGrid(c) ensures Outside(pts, c) <==> c in queue {
        if Outside(pts, c) {
          var w :| Walk(pts, w, c);
          ClosedHoldsWalk(pts, (set d | d in queue), w, c);
        }
      }
      forall c | InGrid(c) && Outside(pts, c) ensures Blank(pts, c) {
        OutsideIsBlank(pts, c);
      }
    }

    /** GRID_CHK: whether a special point lies outside the ship. */
    method IsOutside(ghost pts: seq<Cell>, c: Cell) returns (outside: bool)
      requires Sizes() && InGrid(c) && Flooded(pts)
      ensures outside <==> Outside(pts, c)
      ensures (forall i :: 0 <= i < |pts| ==> InGrid(pts[i])) && Enclosed(pts, c) ==> !outside
    {
      if (forall i :: 0 <= i < |pts| ==> InGrid(pts[i])) && Enclosed(pts, c) { EnclosedIsInside(pts, c); }
      outside := Pt(c) == 2;
    }
  }

  lemma BlankInGrid(pts: seq<Cell>, c: Cell)
    requires Blank(pts, c)
    ensures InGrid(c)
  {
  }

  lemma OutsideIsBlank(pts: seq<Cell>, c: Cell)
    requires Outside(pts, c)
    ensures Blank(pts, c)
  {
    var w :| Walk(pts, w, c);
    assert Blank(pts, w[|w| - 1]);
  }

  // ----- The work list never outgrows the grid -----

  function Number(c: Cell): int { (c.x + LIMIT) * 31 + c.y + LIMIT }

  lemma CellsDistinct(q: seq<Cell>)
    requires Distinct(q) && forall i :: 0 <= i < |q| ==> InGrid(q[i])
    ensures |q| <= CELLS
  {
    var ns := seq(|q|, i requires 0 <= i < |q| => Number(q[i]));
    forall i, j | 0 <= i < j < |ns| ensures ns[i] != ns[j] {
      assert q[i] != q[j];
    }
    DistinctBelow(ns, CELLS);
  }

  lemma DrawnNext(pts: seq<Cell>, i: nat, c: Cell)
    requires i < |pts|
    ensures DrawnBy(pts, i + 1, c) <==> DrawnBy(pts, i, c) || OnEdge(pts[i], NextPoint(pts, i), c)
  {
  }
}
