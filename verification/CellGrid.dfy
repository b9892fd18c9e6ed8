/** The spatial grid of src/server/collision.c: every block of the map heads a chain of the objects in it, so
    that the objects near a point are found without looking at all of them. */
module CellGrid {
  import opened CollisionRound
  import opened Counting
  import opened Entities
  import opened MapCollision
  import opened MapPosition
  import opened Numbers
  import opened PlayerHits
  import opened SweptCollision

  /** How many blocks around a player are searched for objects that may hit him. */
  const CHECK_RADIUS := 4

  datatype Block = Block(x: int, y: int)

  /** Where an object counts: expired objects are left out of the grid. */
  datatype Place = Gone | In(block: Block)

  // ----- Chains by index -----

  /** The last of the first n objects that lies in block b, or -1. */
  function Last(at: seq<Place>, n: nat, b: Block): (k: int)
    requires n <= |at|
    ensures -1 <= k < n
  {
    if n == 0 then -1 else if at[n - 1] == In(b) then n - 1 else Last(at, n - 1, b)
  }

  lemma LastNext(at: seq<Place>, n: nat)
    requires n < |at|
    ensures forall b :: Last(at, n + 1, b) == if at[n] == In(b) then n else Last(at, n, b)
  {
  }

  lemma {:induction false} LastIsAdjacent(at: seq<Place>, n: nat, b: Block)
    requires n <= |at|
    ensures Last(at, n, b) >= 0 ==> at[Last(at, n, b)] == In(b)
    ensures forall j :: Last(at, n, b) < j < n ==> at[j] != In(b)
    decreases n
  {
    if n > 0 { LastIsAdjacent(at, n - 1, b); }
  }

  function ObjectAt(objs: seq<GameObject>, k: int): GameObject?
    requires -1 <= k < |objs|
  {
    if k == -1 then null else objs[k]
  }

  // ----- Which objects a query visits -----

  /** The objects of block b from the last to the first. */
  function Chain(at: seq<Place>, n: nat, b: Block): seq<nat>
    requires n <= |at|
    decreases n
  {
    var k := Last(at, n, b);
    if k == -1 then [] else [k] + Chain(at, k, b)
  }

  /** Columns and rows beyond the edge continue at the other side. */
  function Wrapped(t: int, size: int): int { if t >= size then t - size else t }

  /** The objects in `count` blocks of column x, from row lo on. */
  function InColumn(at: seq<Place>, x: int, lo: int, count: nat, height: int): seq<nat>
  {
    if count == 0 then []
    else InColumn(at, x, lo, count - 1, height) + Chain(at, |at|, Block(x, Wrapped(lo + count - 1, height)))
  }

  function InColumns(at: seq<Place>, xlo: int, xcount: nat, width: int, ylo: int, ycount: nat, height: int): seq<nat>
  {
    if xcount == 0 then []
    else InColumns(at, xlo, xcount - 1, width, ylo, ycount, height)
         + InColumn(at, Wrapped(xlo + xcount - 1, width), ylo, ycount, height)
  }

  datatype Span = Span(lo: int, count: nat)

  /** The radius the code really uses. */
  function Radius(r: nat, width: nat, height: nat, wrap: bool): nat {
    if wrap then
      var r1 := if 2 * r > width then width / 2 else r;
      if 2 * r1 > height then height / 2 else r1
    else Min(Min(r, width), height)
  }

  function SpanOf(x: nat, r: nat, size: nat, wrap: bool): Span
    requires x < size && (wrap ==> 2 * r <= size)
  {
    if wrap then Span(if x - r < 0 then x - r + size else x - r, 2 * r + 1)
    else Span(Max(0, x - r), Min(size - 1, x + r) - Max(0, x - r) + 1)
  }

  /** All the objects a query for radius r around (x, y) comes across, in order. */
  function Nearby(at: seq<Place>, x: nat, y: nat, r: nat, width: nat, height: nat, wrap: bool): seq<nat>
    requires x < width && y < height
  {
    var q := Radius(r, width, height, wrap);
    var xs, ys := SpanOf(x, q, width, wrap), SpanOf(y, q, height, wrap);
    InColumns(at, xs.lo, xs.count, width, ys.lo, ys.count, height)
  }

  // ----- How often each object is visited -----

  lemma CountFirst(k: nat, s: seq<nat>, i: nat)
    ensures Count([k] + s, i) == (if k == i then 1 else 0) + Count(s, i)
  {
    CountConcat([k], s, i);
    assert [k][..0] == [];
  }

  lemma {:induction false} ChainOnce(at: seq<Place>, n: nat, b: Block, i: nat)
    requires n <= |at| && i < |at|
    ensures Count(Chain(at, n, b), i) == if i < n && at[i] == In(b) then 1 else 0
    decreases n
  {
    var k := Last(at, n, b);
    LastIsAdjacent(at, n, b);
    hide Last;
    if k != -1 {
      ChainOnce(at, k, b, i);
      CountFirst(k, Chain(at, k, b), i);
    }
  }

  /** The sum of h over those of `count` consecutive columns (or rows) from lo on that are column v. */
  function Hits(lo: int, count: nat, size: int, v: int, h: nat): nat {
    if count == 0 then 0 else Hits(lo, count - 1, size, v, h) + if Wrapped(lo + count - 1, size) == v then h else 0
  }

  lemma HitsNext(lo: int, count: nat, size: int, v: int, h: nat)
    requires count > 0
    ensures Hits(lo, count, size, v, h) == Hits(lo, count - 1, size, v, h) + if Wrapped(lo + count - 1, size) == v then h else 0
  {
  }

  lemma {:induction false} HitsExact(lo: int, count: nat, size: int, v: int, h: nat)
    requires 0 <= lo < size && 0 <= v < size && lo + count <= 2 * size
    ensures Hits(lo, count, size, v, h)
            == (if lo <= v < lo + count then h else 0) + (if lo <= v + size < lo + count then h else 0)
    decreases count
  {
    if count > 0 { HitsExact(lo, count - 1, size, v, h); }
  }

  lemma {:induction false} ColumnVisits(at: seq<Place>, x: int, lo: int, count: nat, height: int, i: nat)
    requires i < |at|
    ensures Count(InColumn(at, x, lo, count, height), i)
            == if at[i].In? && at[i].block.x == x then Hits(lo, count, height, at[i].block.y, 1) else 0
    decreases count
  {
    if count == 0 { return; }
    var b := Block(x, Wrapped(lo + count - 1, height));
    ColumnVisits(at, x, lo, count - 1, height, i);
    ChainOnce(at, |at|, b, i);
    hide Chain, Count, Wrapped;
    CountConcat(InColumn(at, x, lo, count - 1, height), Chain(at, |at|, b), i);
  }

  lemma {:induction false} ColumnsVisits(at: seq<Place>, xlo: int, xcount: nat, width: int,
                                         ylo: int, ycount: nat, height: int, i: nat)
    requires i < |at|
    ensures Count(InColumns(at, xlo, xcount, width, ylo, ycount, height), i)
            == if at[i].In? then Hits(xlo, xcount, width, at[i].block.x, Hits(ylo, ycount, height, at[i].block.y, 1)) else 0
    decreases xcount
  {
    if xcount == 0 { return; }
    var x := Wrapped(xlo + xcount - 1, width);
    var before, column := InColumns(at, xlo, xcount - 1, width, ylo, ycount, height), InColumn(at, x, ylo, ycount, height);
    assert InColumns(at, xlo, xcount, width, ylo, ycount, height) == before + column;
    if at[i].In? { HitsNext(xlo, xcount, width, at[i].block.x, Hits(ylo, ycount, height, at[i].block.y, 1)); }
    hide InColumn, InColumns, Count, Hits, Wrapped;
    ColumnsVisits(at, xlo, xcount - 1, width, ylo, ycount, height, i);
    ColumnVisits(at, x, ylo, ycount, height, i);
    CountConcat(before, column, i);
  }

  /** A column is visited once if it lies within the radius.  Only when the radius is exactly half the map
      is the column at that distance visited twice. */
  lemma SpanHits(x: nat, r: nat, size: nat, wrap: bool, v: nat, h: nat)
    requires x < size && v < size && (wrap ==> 2 * r <= size)
    ensures var s := SpanOf(x, r, size, wrap);
            Hits(s.lo, s.count, size, v, h) == Visits(x, r, size, wrap, v, h)
  {
    var s := SpanOf(x, r, size, wrap);
    HitsExact(s.lo, s.count, size, v, h);
  }

  function Visits(x: nat, r: nat, size: nat, wrap: bool, v: int, h: nat): nat {
    var d := Distance(x, v, size, wrap);
    if d > r then 0 else if wrap && 2 * d == size then h + h else h
  }

  /** How often a query reports object i: zero times if it is expired or farther away than the radius used,
      otherwise once, doubled for each direction in which it is exactly half a map away. */
  function Reports(p: Place, x: nat, y: nat, r: nat, width: nat, height: nat, wrap: bool): nat {
    if p.Gone? then 0 else
    var q := Radius(r, width, height, wrap);
    Visits(x, q, width, wrap, p.block.x, Visits(y, q, height, wrap, p.block.y, 1))
  }

  lemma NearbyVisits(at: seq<Place>, x: nat, y: nat, r: nat, width: nat, height: nat, wrap: bool, i: nat)
    requires x < width && y < height && i < |at|
    requires at[i].In? ==> 0 <= at[i].block.x < width && 0 <= at[i].block.y < height
    ensures Count(Nearby(at, x, y, r, width, height, wrap), i) == Reports(at[i], x, y, r, width, height, wrap)
  {
    var q := Radius(r, width, height, wrap);
    var xs, ys := SpanOf(x, q, width, wrap), SpanOf(y, q, height, wrap);
    ColumnsVisits(at, xs.lo, xs.count, width, ys.lo, ys.count, height, i);
    if at[i].Gone? { return; }
    SpanHits(y, q, height, wrap, at[i].block.y, 1);
    SpanHits(x, q, width, wrap, at[i].block.x, Visits(y, q, height, wrap, at[i].block.y, 1));
    hide Hits, Visits, SpanOf, Distance;
  }

  /** Block b is within the radius of block (x, y). */
  predicate Within(b: Block, x: nat, y: nat, r: nat, width: nat, height: nat, wrap: bool) {
    Distance(x, b.x, width, wrap) <= r && Distance(y, b.y, height, wrap) <= r
  }

  /** Object i can be asked for from block (x, y): both are on the map. */
  predicate Asked(at: seq<Place>, x: nat, y: nat, width: nat, height: nat, i: nat) {
    x < width && y < height && i < |at| && (at[i].In? ==> 0 <= at[i].block.x < width && 0 <= at[i].block.y < height)
  }

  /** The query agrees with a scan of all objects: it reports object i once if it is unexpired and within the
      radius, and not at all otherwise. */
  predicate AgreesOn(at: seq<Place>, x: nat, y: nat, r: nat, width: nat, height: nat, wrap: bool, i: nat)
    requires Asked(at, x, y, width, height, i)
  {
    Count(Nearby(at, x, y, r, width, height, wrap), i)
    == if at[i].In? && Within(at[i].block, x, y, r, width, height, wrap) then 1 else 0
  }

  ghost predicate AlwaysAgrees(r: nat, width: nat, height: nat, wrap: bool) {
    forall at: seq<Place>, x: nat, y: nat, i: nat ::
      Asked(at, x, y, width, height, i) ==> AgreesOn(at, x, y, r, width, height, wrap, i)
  }

  /** The maps on which a query of radius r can be trusted: with wrapping play those larger than twice the radius
      in both directions, without it those at least as large as the radius; and maps that are as high as they
      are wide (to within a block without wrapping, and of an odd number of blocks with it). */
  predicate Trusted(r: nat, width: nat, height: nat, wrap: bool) {
    if wrap then (2 * r < width && 2 * r < height) || (width == height && width % 2 == 1)
    else (r <= width && r <= height) || Gap(width, height) <= 1
  }

  /** On such a map the query agrees with a scan, whatever the objects are and wherever it is made. */
  lemma AgreesWithScan(at: seq<Place>, x: nat, y: nat, r: nat, width: nat, height: nat, wrap: bool, i: nat)
    requires Asked(at, x, y, width, height, i) && Trusted(r, width, height, wrap)
    ensures AgreesOn(at, x, y, r, width, height, wrap, i)
  {
    NearbyVisits(at, x, y, r, width, height, wrap, i);
  }

  /** Somewhere an object is seen from (0, 0) twice, or within the radius and not at all. */
  predicate Witness(a: nat, b: nat, r: nat, width: nat, height: nat, wrap: bool) {
    a < width && b < height
    && Reports(In(Block(a, b)), 0, 0, r, width, height, wrap)
       != if Within(Block(a, b), 0, 0, r, width, height, wrap) then 1 else 0
  }

  lemma Untrusted(r: nat, width: nat, height: nat, wrap: bool) returns (a: nat, b: nat)
    requires width > 0 && height > 0 && !Trusted(r, width, height, wrap)
    ensures Witness(a, b, r, width, height, wrap)
  {
    var q := Radius(r, width, height, wrap);
    if wrap && 2 * q == width {
      a, b := q, 0;
    } else if wrap && 2 * q == height {
      a, b := 0, q;
    } else if width > height {
      a, b := q + 1, 0;
    } else {
      a, b := 0, q + 1;
    }
  }

  /** On every other map some query reports an object twice or misses one. */
  lemma AgreesExactly(r: nat, width: nat, height: nat, wrap: bool)
    requires width > 0 && height > 0
    ensures AlwaysAgrees(r, width, height, wrap) <==> Trusted(r, width, height, wrap)
  {
    hide Reports, Trusted, Nearby, Count, Within;
    if Trusted(r, width, height, wrap) {
      forall at: seq<Place>, x: nat, y: nat, i: nat | Asked(at, x, y, width, height, i)
        ensures AgreesOn(at, x, y, r, width, height, wrap, i)
      {
        AgreesWithScan(at, x, y, r, width, height, wrap, i);
      }
    } else {
      var a, b := Untrusted(r, width, height, wrap);
      var at := [In(Block(a, b))];
      NearbyVisits(at, 0, 0, r, width, height, wrap, 0);
      assert Asked(at, 0, 0, width, height, 0) && !AgreesOn(at, 0, 0, r, width, height, wrap, 0);
    }
  }

  lemma {:induction false} ChainBelow(at: seq<Place>, n: nat, b: Block)
    requires n <= |at|
    ensures forall k :: 0 <= k < |Chain(at, n, b)| ==> Chain(at, n, b)[k] < n
    decreases n
  {
    if Last(at, n, b) != -1 { ChainBelow(at, Last(at, n, b), b); }
  }

  predicate Below(s: seq<nat>, n: nat) { forall k :: 0 <= k < |s| ==> s[k] < n }

  lemma {:induction false} ColumnBelow(at: seq<Place>, x: int, lo: int, count: nat, height: int)
    ensures Below(InColumn(at, x, lo, count, height), |at|)
    decreases count
  {
    if count == 0 { return; }
    ColumnBelow(at, x, lo, count - 1, height);
    ChainBelow(at, |at|, Block(x, Wrapped(lo + count - 1, height)));
    hide Chain, Wrapped;
  }

  lemma {:induction false} ColumnsBelow(at: seq<Place>, xlo: int, xcount: nat, width: int, ylo: int, ycount: nat, height: int)
    ensures Below(InColumns(at, xlo, xcount, width, ylo, ycount, height), |at|)
    decreases xcount
  {
    if xcount == 0 { return; }
    ColumnsBelow(at, xlo, xcount - 1, width, ylo, ycount, height);
    ColumnBelow(at, Wrapped(xlo + xcount - 1, width), ylo, ycount, height);
    hide InColumn, Wrapped;
  }

  lemma {:induction false} CountAtLeast(s: seq<nat>, j: nat)
    requires j < |s|
    ensures Count(s, s[j]) >= 1
    decreases |s|
  {
    if j < |s| - 1 { CountAtLeast(s[..|s| - 1], j); }
  }

  lemma {:induction false} OnceIsDistinct(s: seq<nat>)
    requires forall i: nat :: Count(s, i) <= 1
    ensures Distinct(s)
    decreases |s|
  {
    if s == [] { return; }
    var rest := s[..|s| - 1];
    forall i: nat ensures Count(rest, i) <= 1 {
      assert Count(s, i) <= 1;
    }
    OnceIsDistinct(rest);
    forall j | 0 <= j < |rest| ensures s[j] != s[|s| - 1] {
      CountAtLeast(rest, j);
      assert Count(s, s[j]) <= 1;
    }
  }

  lemma {:induction false} NeverCount(s: seq<nat>, n: nat, i: nat)
    requires Below(s, n) && i >= n
    ensures Count(s, i) == 0
    decreases |s|
  {
    if s != [] { NeverCount(s[..|s| - 1], n, i); }
  }

  /** On a map where it can be trusted a query never reports more objects than there are, so that its result
      array, one element longer than the object table, cannot overflow. */
  lemma QueryFits(at: seq<Place>, x: nat, y: nat, r: nat, width: nat, height: nat, wrap: bool)
    requires x < width && y < height
    requires forall i :: 0 <= i < |at| && at[i].In? ==> 0 <= at[i].block.x < width && 0 <= at[i].block.y < height
    requires Trusted(r, width, height, wrap)
    ensures |Nearby(at, x, y, r, width, height, wrap)| <= |at| && Distinct(Nearby(at, x, y, r, width, height, wrap))
  {
    var near := Nearby(at, x, y, r, width, height, wrap);
    NearbyBelow(at, x, y, r, width, height, wrap);
    hide Nearby;
    forall i: nat ensures Count(near, i) <= 1 {
      if i < |at| { AgreesWithScan(at, x, y, r, width, height, wrap, i); } else { NeverCount(near, |at|, i); }
    }
    OnceIsDistinct(near);
    DistinctBelow(near, |at|);
  }

  lemma NearbyBelow(at: seq<Place>, x: nat, y: nat, r: nat, width: nat, height: nat, wrap: bool)
    requires x < width && y < height
    ensures Below(Nearby(at, x, y, r, width, height, wrap), |at|)
  {
    var q := Radius(r, width, height, wrap);
    var xs, ys := SpanOf(x, q, width, wrap), SpanOf(y, q, height, wrap);
    ColumnsBelow(at, xs.lo, xs.count, width, ys.lo, ys.count, height);
  }

  /** The radius is cut down to fit the smaller dimension in both directions: on a map 3 blocks high a player's query
      misses an object 4 columns away, with wrapping and without. */
  lemma LowMapMisses(wrap: bool)
    ensures Count(Nearby([In(Block(4, 1))], 0, 1, CHECK_RADIUS, 20, 3, wrap), 0) == 0
  {
    NearbyVisits([In(Block(4, 1))], 0, 1, CHECK_RADIUS, 20, 3, wrap, 0);
  }

  /** On a map of 8 by 20 blocks a player's query reports an object 4 columns away twice. */
  lemma HalfMapReportsTwice()
    ensures Count(Nearby([In(Block(4, 7))], 0, 7, CHECK_RADIUS, 8, 20, true), 0) == 2
  {
    NearbyVisits([In(Block(4, 7))], 0, 7, CHECK_RADIUS, 8, 20, true, 0);
  }

  // ----- The objects near a player -----

  function BlockOf(m: Move): Block { Block(m.x2 / BLOCK_SZ, m.y2 / BLOCK_SZ) }

  /** The players and the unexpired objects are on the map. */
  predicate Positioned(sc: Scene, lives: seq<int>) {
    && |lives| == |sc.bodies|
    && (forall p :: 0 <= p < |sc.pilots| ==> OnMap(sc.pilots[p].move, sc.width * BLOCK_SZ, sc.height * BLOCK_SZ))
    && (forall i :: 0 <= i < |lives| && lives[i] > 0 ==> OnMap(sc.bodies[i].move, sc.width * BLOCK_SZ, sc.height * BLOCK_SZ))
  }

  /** The blocks of the unexpired objects are those of their positions. */
  predicate Pictured(sc: Scene, lives: seq<int>, blocks: seq<Block>) {
    && Positioned(sc, lives) && |blocks| == |lives|
    && (forall i :: 0 <= i < |lives| && lives[i] > 0 ==> blocks[i] == BlockOf(sc.bodies[i].move))
  }

  lemma StillPictured(sc: Scene, a: seq<int>, b: seq<int>, blocks: seq<Block>)
    requires Pictured(sc, a, blocks) && Later(a, b)
    ensures Pictured(sc, b, blocks)
  {
  }

  /** Where the objects count when the chains are built. */
  function Places(sc: Scene, lives: seq<int>): (at: seq<Place>)
    requires |lives| == |sc.bodies|
    ensures |at| == |lives|
    ensures forall i :: 0 <= i < |at| ==> at[i] == if lives[i] <= 0 then Gone else In(BlockOf(sc.bodies[i].move))
  {
    seq(|lives|, i requires 0 <= i < |lives| => if lives[i] <= 0 then Gone else In(BlockOf(sc.bodies[i].move)))
  }

  lemma OnGrid(m: Move, width: nat, height: nat)
    requires OnMap(m, width * BLOCK_SZ, height * BLOCK_SZ)
    ensures 0 <= BlockOf(m).x < width && 0 <= BlockOf(m).y < height
  {
  }

  /** What a query around player p reports. */
  function NearList(sc: Scene, at: seq<Place>, p: nat): (s: seq<nat>)
    requires p < |sc.pilots| && OnMap(sc.pilots[p].move, sc.width * BLOCK_SZ, sc.height * BLOCK_SZ)
  {
    OnGrid(sc.pilots[p].move, sc.width, sc.height);
    var b := BlockOf(sc.pilots[p].move);
    var s := Nearby(at, b.x, b.y, CHECK_RADIUS, sc.width, sc.height, sc.wrap);
    s[..Min(|s|, MAX_TOTAL_OBJECTS)]
  }

  lemma NearListIs(sc: Scene, at: seq<Place>, p: nat)
    requires p < |sc.pilots| && OnMap(sc.pilots[p].move, sc.width * BLOCK_SZ, sc.height * BLOCK_SZ)
    ensures var b := BlockOf(sc.pilots[p].move);
            0 <= b.x < sc.width && 0 <= b.y < sc.height
            && var s := Nearby(at, b.x, b.y, CHECK_RADIUS, sc.width, sc.height, sc.wrap);
               NearList(sc, at, p) == s[..Min(|s|, MAX_TOTAL_OBJECTS)]
  {
    OnGrid(sc.pilots[p].move, sc.width, sc.height);
  }

  lemma NearListBelow(sc: Scene, at: seq<Place>, p: nat)
    requires p < |sc.pilots| && OnMap(sc.pilots[p].move, sc.width * BLOCK_SZ, sc.height * BLOCK_SZ)
    ensures InTable(NearList(sc, at, p), |at|)
  {
    OnGrid(sc.pilots[p].move, sc.width, sc.height);
    var b := BlockOf(sc.pilots[p].move);
    NearbyBelow(at, b.x, b.y, CHECK_RADIUS, sc.width, sc.height, sc.wrap);
    hide Nearby;
  }

  /** What the queries of a whole round report. */
  function NearLists(sc: Scene, lives: seq<int>): (r: seq<seq<nat>>)
    requires Positioned(sc, lives)
    ensures |r| == |sc.pilots| && forall p :: 0 <= p < |r| ==> r[p] == NearList(sc, Places(sc, lives), p)
  {
    seq(|sc.pilots|, p requires 0 <= p < |sc.pilots| => NearList(sc, Places(sc, lives), p))
  }

  /** The living players and the unexpired objects are slow enough for the search: those that collide in a frame end it at
      most four blocks apart. */
  predicate AllSlow(sc: Scene, g: Game)
    requires |g.ships| == |sc.pilots| && |g.lives| == |sc.bodies|
  {
    forall p, i :: 0 <= p < |g.ships| && 0 <= i < |g.lives| && g.ships[p].state == ALIVE && g.lives[i] > 0 ==>
      SlowPair(sc, sc.pilots[p].move, sc.bodies[i])
  }

  predicate SlowPair(sc: Scene, m: Move, b: Body) {
    var width, height := sc.width * BLOCK_SZ, sc.height * BLOCK_SZ;
    Slow(First(m, b.move, width, height, sc.wrap), Second(m, b.move, width, height, sc.wrap), SHIP_SZ + b.range, CHECK_RADIUS)
  }

  /** On a trusted map a query around a player reports every object that strikes him, if it is slow enough. */
  lemma StrikerIsNear(sc: Scene, lives: seq<int>, p: nat, i: nat)
    requires Positioned(sc, lives) && Trusted(CHECK_RADIUS, sc.width, sc.height, sc.wrap) && |lives| <= MAX_TOTAL_OBJECTS
    requires p < |sc.pilots| && i < |lives| && Strikes(sc, p, i, lives[i]) && SlowPair(sc, sc.pilots[p].move, sc.bodies[i])
    ensures i in NearList(sc, Places(sc, lives), p)
  {
    var at, m, b := Places(sc, lives), sc.pilots[p].move, sc.bodies[i];
    CollisionIsNear(m, b.move, SHIP_SZ + b.range, sc.width, sc.height, sc.wrap, CHECK_RADIUS);
    OnGrid(m, sc.width, sc.height);
    OnGrid(b.move, sc.width, sc.height);
    var c := BlockOf(m);
    NearListWhole(sc, lives, p);
    hide Nearby, Trusted, Collide, First, Second, Slow;
    AgreesWithScan(at, c.x, c.y, CHECK_RADIUS, sc.width, sc.height, sc.wrap, i);
    CountNone<nat>(Nearby(at, c.x, c.y, CHECK_RADIUS, sc.width, sc.height, sc.wrap), i);
  }

  /** On a trusted map the result has room for everything, and names each object once. */
  lemma NearListWhole(sc: Scene, lives: seq<int>, p: nat)
    requires Positioned(sc, lives) && Trusted(CHECK_RADIUS, sc.width, sc.height, sc.wrap) && |lives| <= MAX_TOTAL_OBJECTS
    requires p < |sc.pilots|
    ensures var c := BlockOf(sc.pilots[p].move);
            && 0 <= c.x < sc.width && 0 <= c.y < sc.height
            && NearList(sc, Places(sc, lives), p) == Nearby(Places(sc, lives), c.x, c.y, CHECK_RADIUS, sc.width, sc.height, sc.wrap)
    ensures Distinct(NearList(sc, Places(sc, lives), p))
  {
    var at, c := Places(sc, lives), BlockOf(sc.pilots[p].move);
    OnGrid(sc.pilots[p].move, sc.width, sc.height);
    forall i | 0 <= i < |at| && at[i].In? ensures 0 <= at[i].block.x < sc.width && 0 <= at[i].block.y < sc.height {
      OnGrid(sc.bodies[i].move, sc.width, sc.height);
    }
    hide Nearby, Trusted;
    QueryFits(at, c.x, c.y, CHECK_RADIUS, sc.width, sc.height, sc.wrap);
  }

  lemma NearListsFit(sc: Scene, g: Game)
    requires Positioned(sc, g.lives) && |g.ships| == |sc.pilots| && forall p :: 0 <= p < |g.ships| ==> g.ships[p].Sound()
    ensures Fits(sc, NearLists(sc, g.lives), g)
  {
    hide NearList, Places;
    forall p | 0 <= p < |sc.pilots| ensures InTable(NearList(sc, Places(sc, g.lives), p), |g.lives|) {
      NearListBelow(sc, Places(sc, g.lives), p);
    }
  }

  /** On a trusted map, if everything is slow enough, the queries report each object once and miss none that strikes
      anybody: the turns over their results are as good as turns over all objects. */
  lemma NearListsServe(sc: Scene, g: Game)
    requires Positioned(sc, g.lives) && Fits(sc, NearLists(sc, g.lives), g)
    requires Trusted(CHECK_RADIUS, sc.width, sc.height, sc.wrap) && |g.lives| <= MAX_TOTAL_OBJECTS && AllSlow(sc, g)
    ensures Listed(sc, NearLists(sc, g.lives), g)
  {
    hide NearList, Places, Strikes, SlowPair, Trusted, Distinct;
    forall p: nat | p < |sc.pilots|
      ensures Distinct(NearList(sc, Places(sc, g.lives), p))
      ensures g.ships[p].state == ALIVE ==> Complete(sc, p, NearList(sc, Places(sc, g.lives), p), g.lives)
    {
      NearListWhole(sc, g.lives, p);
      if g.ships[p].state == ALIVE {
        forall i: nat | i < |g.lives| && Strikes(sc, p, i, g.lives[i]) ensures i in NearList(sc, Places(sc, g.lives), p) {
          assert g.lives[i] > 0 by { DeadNever(sc, p, i, g.lives[i]); }
          StrikerIsNear(sc, g.lives, p, i);
        }
      }
    }
  }

  lemma DeadNever(sc: Scene, p: nat, i: nat, life: int)
    requires p < |sc.pilots| && i < |sc.bodies| && Strikes(sc, p, i, life)
    ensures life > 0
  {
  }

  /** Game h is what the turns of the first n players over the results of their queries make of game g. */
  ghost predicate Played(sc: Scene, g: Game, h: Game, n: nat) {
    && Positioned(sc, g.lives) && n <= |sc.pilots| && Fits(sc, NearLists(sc, g.lives), g)
    && h == Turns(sc, NearLists(sc, g.lives), g, n)
  }

  lemma NonePlayed(sc: Scene, g: Game)
    requires Positioned(sc, g.lives) && |g.ships| == |sc.pilots| && forall p :: 0 <= p < |g.ships| ==> g.ships[p].Sound()
    ensures Played(sc, g, g, 0)
  {
    hide NearLists;
    NearListsFit(sc, g);
  }

  lemma StillSound(sc: Scene, g: Game, h: Game, p: nat)
    requires Played(sc, g, h, p) && p < |sc.pilots|
    ensures p < |h.ships| && h.ships[p].Sound()
  {
    hide NearLists, Turns;
  }

  lemma OneMorePlayed(sc: Scene, g: Game, h: Game, p: nat)
    requires Played(sc, g, h, p) && p < |sc.pilots|
    ensures |g.lives| == |sc.bodies| == |h.lives| && |h.ships| == |sc.pilots|
    ensures var at := Places(sc, g.lives);
            OnMap(sc.pilots[p].move, sc.width * BLOCK_SZ, sc.height * BLOCK_SZ)
            && InTable(NearList(sc, at, p), |at|) && Played(sc, g, TurnOf(sc, p, NearList(sc, at, p), h), p + 1)
  {
    hide NearList;
    NearListBelow(sc, Places(sc, g.lives), p);
  }

  /** On a trusted map, if everything is slow enough, a round is as good as turns over all objects. */
  lemma RoundExact(sc: Scene, g: Game, h: Game)
    requires Played(sc, g, h, |sc.pilots|) && |g.lives| <= MAX_TOTAL_OBJECTS
    requires Trusted(CHECK_RADIUS, sc.width, sc.height, sc.wrap) && AllSlow(sc, g)
    ensures ExactRound(sc, NearLists(sc, g.lives), g)
    ensures h.lives == Scan(sc, g, |sc.pilots|) <==> Redeemed(sc, NearLists(sc, g.lives), g, |sc.pilots|)
  {
    hide Turns, Listed, Scan, Redeemed, Faithful, NeverSpares, NobodyDies, KilledByAll, Trusted, AllSlow;
    NearListsServe(sc, g);
    RoundIsExact(sc, NearLists(sc, g.lives), g);
  }

  ghost predicate AgreesIfRedeemed(sc: Scene, g: Game, lives: seq<int>) {
    Positioned(sc, g.lives) && Fits(sc, NearLists(sc, g.lives), g)
    && (Trusted(CHECK_RADIUS, sc.width, sc.height, sc.wrap) && AllSlow(sc, g) ==>
          (lives == Scan(sc, g, |sc.pilots|) <==> Redeemed(sc, NearLists(sc, g.lives), g, |sc.pilots|)))
  }

  lemma RoundAgainstScan(sc: Scene, g: Game, h: Game)
    requires Played(sc, g, h, |sc.pilots|) && |g.lives| <= MAX_TOTAL_OBJECTS
    ensures AgreesIfRedeemed(sc, g, h.lives)
  {
    hide Turns, Scan, Redeemed, Trusted, AllSlow, ExactRound, NearLists;
    if Trusted(CHECK_RADIUS, sc.width, sc.height, sc.wrap) && AllSlow(sc, g) { RoundExact(sc, g, h); }
  }

  // ----- One step of each of the three loops of a query -----

  lemma ChainNext(at: seq<Place>, n: nat, b: Block, seen: seq<nat>)
    requires n <= |at|
    ensures var k := Last(at, n, b);
            seen + Chain(at, n, b) == if k == -1 then seen else (seen + [k]) + Chain(at, k, b)
  {
  }

  lemma ColumnNext(at: seq<Place>, sofar: seq<nat>, x: int, lo: int, count: nat, height: int)
    ensures sofar + InColumn(at, x, lo, count, height) + Chain(at, |at|, Block(x, Wrapped(lo + count, height)))
            == sofar + InColumn(at, x, lo, count + 1, height)
  {
    hide Chain;
  }

  lemma ColumnsNext(at: seq<Place>, xlo: int, xcount: nat, width: int, ylo: int, ycount: nat, height: int)
    ensures InColumns(at, xlo, xcount, width, ylo, ycount, height)
            + InColumn(at, Wrapped(xlo + xcount, width), ylo, ycount, height)
            == InColumns(at, xlo, xcount + 1, width, ylo, ycount, height)
  {
    hide InColumn;
  }

  lemma WrapStep(lo: int, done: nat, w: int, size: int)
    requires 0 <= lo < size && done <= size && w == if done == 0 then lo else Wrapped(lo + done - 1, size) + 1
    ensures (if w >= size then w - size else w) == Wrapped(lo + done, size) && 0 <= Wrapped(lo + done, size) < size
  {
  }

  class Cells {
    const width: nat
    const height: nat
    const cells: array2<GameObject?>
    const found: array<GameObject?>
    var used: seq<Block>
    ghost var at: seq<Place>

    predicate InMap(b: Block) { 0 <= b.x < width && 0 <= b.y < height }

    ghost predicate Sizes() {
      cells.Length0 == width && cells.Length1 == height && found.Length == MAX_TOTAL_OBJECTS + 1
    }

    constructor (width: nat, height: nat)
      ensures Sizes() && this.width == width && this.height == height && fresh(cells) && fresh(found)
      ensures forall b :: InMap(b) ==> cells[b.x, b.y] == null
      ensures used == []
    {
      this.width, this.height := width, height;
      cells := new GameObject?[width, height]((i, j) => null);
      found := new GameObject?[MAX_TOTAL_OBJECTS + 1](_ => null);
      used, at := [], [];
    }

    /** Every object knows its index in the object table, as Object_add and Object_remove keep it. */
    ghost predicate Numbered(objs: seq<GameObject>)
      reads objs`id
    {
      forall i :: 0 <= i < |objs| ==> objs[i].id == i
    }

    /** `at` says where each object is. */
    ghost predicate Located(objs: seq<GameObject>)
      reads this`at, objs`id, objs`life, objs`blockX, objs`blockY
    {
      && |at| == |objs| && Numbered(objs)
      && (forall i :: 0 <= i < |objs| ==>
            at[i] == (if objs[i].life <= 0 then Gone else In(Block(objs[i].blockX, objs[i].blockY))))
      && (forall i :: 0 <= i < |objs| && at[i].In? ==> InMap(at[i].block))
    }

    /** Every block holds the last of the first n objects in it. */
    ghost predicate Headed(objs: seq<GameObject>, n: nat)
      reads this`at, cells
    {
      && Sizes() && n <= |objs| == |at|
      && forall b :: InMap(b) ==> cells[b.x, b.y] == ObjectAt(objs, Last(at, n, b))
    }

    /** Each of the first n objects is linked to the one before it in its block. */
    ghost predicate Backed(objs: seq<GameObject>, n: nat)
      reads this`at, objs`cellPrev
    {
      && n <= |objs| == |at|
      && (forall i :: 0 <= i < n && at[i].In? ==> objs[i].cellPrev == ObjectAt(objs, Last(at, i, at[i].block)))
      && (forall i :: 0 <= i < |objs| && (i >= n || at[i].Gone?) ==> objs[i].cellPrev == null)
    }

    /** The forward links mirror the backward ones. */
    ghost predicate Mirrored(objs: seq<GameObject>, n: nat)
      reads this`at, objs`cellNext
    {
      && n <= |objs| == |at|
      && (forall j :: 0 <= j < n && at[j].In? && Last(at, j, at[j].block) >= 0 ==>
            objs[Last(at, j, at[j].block)].cellNext == objs[j])
      && (forall i :: 0 <= i < n && at[i].In? && Last(at, n, at[i].block) == i ==> objs[i].cellNext == null)
      && (forall i :: 0 <= i < |objs| && (i >= n || at[i].Gone?) ==> objs[i].cellNext == null)
    }

    /** The list of used blocks names exactly the occupied ones, each once. */
    ghost predicate UsedExact(n: nat)
      reads this`at, this`used
    {
      && n <= |at| && Distinct(used) && (forall b :: b in used ==> InMap(b))
      && (forall b :: InMap(b) ==> (b in used <==> Last(at, n, b) >= 0))
    }

    ghost predicate Built(objs: seq<GameObject>, n: nat)
      reads this, cells, objs
    {
      Located(objs) && Headed(objs, n) && Backed(objs, n) && Mirrored(objs, n) && UsedExact(n)
    }

    /** The chains stand as they were built, whatever has become of the objects in them since. */
    ghost predicate Standing(objs: seq<GameObject>)
      reads this, cells, objs`id, objs`cellPrev, objs`cellNext
    {
      && |at| == |objs| && Numbered(objs) && (forall i :: 0 <= i < |objs| && at[i].In? ==> InMap(at[i].block))
      && Headed(objs, |objs|) && Backed(objs, |objs|) && Mirrored(objs, |objs|) && UsedExact(|objs|)
    }

    /** Since the chains were built objects may have expired, but none has moved or come to life. */
    ghost predicate Current(objs: seq<GameObject>)
      reads this`at, objs`life, objs`blockX, objs`blockY
    {
      |at| == |objs| && forall i :: 0 <= i < |objs| ==>
        && (objs[i].life > 0 ==> at[i].In?) && (at[i].In? ==> at[i].block == Block(objs[i].blockX, objs[i].blockY))
    }

    /** Nothing is linked: the state between two rounds of collision checks. */
    ghost predicate Clean(objs: seq<GameObject>)
      reads this, cells, objs
    {
      && Sizes() && used == []
      && (forall b :: InMap(b) ==> cells[b.x, b.y] == null)
      && (forall i :: 0 <= i < |objs| ==> objs[i].cellPrev == null && objs[i].cellNext == null)
    }

    // ----- Collision_cells_init -----

    method LinkBack(ghost objs: seq<GameObject>, ghost n: nat, obj: GameObject)
      requires n < |objs| && objs[n] == obj && Located(objs) && at[n].In? && Headed(objs, n) && Backed(objs, n)
      modifies obj`cellPrev
      ensures Backed(objs, n + 1) && obj.cellPrev == ObjectAt(objs, Last(at, n, at[n].block))
    {
      hide Last;
      obj.cellPrev := cells[obj.blockX, obj.blockY];
    }

    method LinkForward(ghost objs: seq<GameObject>, ghost n: nat, obj: GameObject)
      requires n < |objs| && objs[n] == obj && Located(objs) && at[n].In? && Mirrored(objs, n)
      requires obj.cellPrev != null && obj.cellPrev == ObjectAt(objs, Last(at, n, at[n].block))
      modifies objs`cellNext
      ensures Mirrored(objs, n + 1)
    {
      ghost var b := at[n].block;
      ghost var p := Last(at, n, b);
      LastNext(at, n);
      LastIsAdjacent(at, n, b);
      hide Last;
      obj.cellPrev.cellNext := obj;
      assert obj.cellPrev == objs[p];
      forall j | 0 <= j < n + 1 && at[j].In? && Last(at, j, at[j].block) >= 0
        ensures objs[Last(at, j, at[j].block)].cellNext == objs[j]
      {
        if j < n { LastIsAdjacent(at, j, at[j].block); }
      }
    }

    lemma FirstNeedsNoLink(objs: seq<GameObject>, n: nat)
      requires n < |objs| && Mirrored(objs, n) && (at[n].In? ==> Last(at, n, at[n].block) == -1)
      ensures Mirrored(objs, n + 1)
    {
      LastNext(at, n);
      if at[n].In? { LastIsAdjacent(at, n, at[n].block); }
      hide Last;
    }

    method NoteUsed(ghost n: nat, b: Block)
      requires n < |at| && at[n] == In(b) && InMap(b) && UsedExact(n) && Last(at, n, b) == -1
      modifies this`used
      ensures UsedExact(n + 1)
    {
      used := used + [b];
    }

    lemma StillUsed(n: nat)
      requires n < |at| && UsedExact(n) && (at[n].In? ==> Last(at, n, at[n].block) >= 0)
      ensures UsedExact(n + 1)
    {
    }

    method SetHead(ghost objs: seq<GameObject>, ghost n: nat, obj: GameObject)
      requires n < |objs| && objs[n] == obj && Located(objs) && at[n].In? && Headed(objs, n)
      modifies cells
      ensures Headed(objs, n + 1)
    {
      LastNext(at, n);
      hide Last;
      cells[obj.blockX, obj.blockY] := obj;
    }

    /** Links object n into the chain of its block, unless it is expired. */
    method Insert(ghost objs: seq<GameObject>, ghost n: nat, obj: GameObject)
      requires n < |objs| && objs[n] == obj && Built(objs, n)
      modifies this`used, cells, objs`cellPrev, objs`cellNext
      ensures Built(objs, n + 1)
    {
      hide Headed, Backed, Mirrored, UsedExact, Last;
      if obj.life <= 0 {
        SkipExpired(objs, n);
        return;
      }
      LinkBack(objs, n, obj);
      if obj.cellPrev != null {
        StillUsed(n);
        LinkForward(objs, n, obj);
      } else {
        FirstNeedsNoLink(objs, n);
        NoteUsed(n, Block(obj.blockX, obj.blockY));
      }
      SetHead(objs, n, obj);
    }

    lemma SkipHeaded(objs: seq<GameObject>, n: nat)
      requires n < |objs| == |at| && at[n].Gone? && Headed(objs, n)
      ensures Headed(objs, n + 1)
    {
      LastNext(at, n);
      hide Last;
    }

    lemma SkipLinks(objs: seq<GameObject>, n: nat)
      requires n < |objs| == |at| && at[n].Gone? && Backed(objs, n) && Mirrored(objs, n)
      ensures Backed(objs, n + 1) && Mirrored(objs, n + 1)
    {
      forall i | 0 <= i < n + 1 && at[i].In? && Last(at, n + 1, at[i].block) == i ensures objs[i].cellNext == null {
        assert Last(at, n, at[i].block) == i;
      }
      hide Last;
    }

    lemma SkipExpired(objs: seq<GameObject>, n: nat)
      requires n < |objs| == |at| && at[n].Gone? && Built(objs, n)
      ensures Built(objs, n + 1)
    {
      hide Headed, Backed, Mirrored;
      SkipHeaded(objs, n);
      SkipLinks(objs, n);
      LastNext(at, n);
      hide Last;
    }

    lemma NothingBuilt(objs: seq<GameObject>)
      requires Located(objs) && Clean(objs)
      ensures Built(objs, 0)
    {
    }

    /** Collision_cells_init: afterwards every block heads the chain of all unexpired objects in it. */
    method Init(objs: seq<GameObject>)
      requires Numbered(objs) && Clean(objs)
      requires forall i :: 0 <= i < |objs| && objs[i].life > 0 ==> InMap(Block(objs[i].blockX, objs[i].blockY))
      modifies this, cells, objs`cellPrev, objs`cellNext
      ensures Standing(objs) && Current(objs) && Located(objs)
    {
      at := seq(|objs|, i requires 0 <= i < |objs| reads objs =>
        if objs[i].life <= 0 then Gone else In(Block(objs[i].blockX, objs[i].blockY)));
      assert Located(objs);
      NothingBuilt(objs);
      hide Built;
      for n := 0 to |objs|
        invariant Built(objs, n)
      {
        Insert(objs, n, objs[n]);
      }
      BuiltStands(objs);
    }

    lemma BuiltStands(objs: seq<GameObject>)
      requires Built(objs, |objs|)
      ensures Standing(objs) && Current(objs) && Located(objs)
    {
      hide Headed, Backed, Mirrored, UsedExact;
    }

    /** Object_expire, between two queries: the object's time is up, but it stays in its chain until the clean-up. */
    method Expire(ghost objs: seq<GameObject>, obj: GameObject)
      requires Standing(objs) && Current(objs)
      modifies obj`life
      ensures Standing(objs) && Current(objs) && obj.life == 0
    {
      hide Standing;
      obj.life := 0;
    }

    // ----- Collision_cells_cleanup -----

    /** Whether the link from object i to the one before it is still there: chains of live blocks are whole,
        the chain of block b only up to object k. */
    ghost predicate Whole(i: nat, live: set<Block>, b: Block, k: int)
      requires i < |at|
      reads this`at
    {
      at[i].In? && if at[i].block == b then i <= k else at[i].block in live
    }

    ghost predicate BackLinks(objs: seq<GameObject>, live: set<Block>, b: Block, k: int)
      reads this`at, objs`cellPrev
    {
      |objs| == |at| && forall i :: 0 <= i < |objs| ==>
        objs[i].cellPrev == if Whole(i, live, b, k) then ObjectAt(objs, Last(at, i, at[i].block)) else null
    }

    /** Whether object i has nothing behind it in its chain, or has been cut off. */
    ghost predicate Ends(i: nat, live: set<Block>, b: Block, k: int)
      requires i < |at|
      reads this`at
    {
      at[i].In? ==> if at[i].block == b then i >= k else (at[i].block in live ==> Last(at, |at|, at[i].block) == i)
    }

    /** Objects at the end of a whole chain, and all objects cut off, have no forward link. */
    ghost predicate ForwardGone(objs: seq<GameObject>, live: set<Block>, b: Block, k: int)
      reads this`at, objs`cellNext
    {
      |objs| == |at| && forall i :: 0 <= i < |objs| && Ends(i, live, b, k) ==> objs[i].cellNext == null
    }

    /** Cuts the link between object k of block b and the one before it, object p. */
    method CutLink(ghost objs: seq<GameObject>, ghost live: set<Block>, ghost b: Block, ghost k: nat, obj: GameObject)
      requires Numbered(objs) && BackLinks(objs, live, b, k) && ForwardGone(objs, live, b, k)
      requires k < |objs| && objs[k] == obj && at[k] == In(b) && obj.cellPrev != null
      modifies objs`cellPrev, objs`cellNext
      ensures var p := Last(at, k, b);
              p >= 0 && BackLinks(objs, live, b, p) && ForwardGone(objs, live, b, p) && old(obj.cellPrev) == objs[p]
    {
      ghost var p := Last(at, k, b);
      assert obj.cellPrev == objs[p];
      LastIsAdjacent(at, k, b);
      hide Last;
      obj.cellPrev.cellNext := null;
      obj.cellPrev := null;
    }

    /** Chains of live blocks are whole, all other objects are unlinked. */
    ghost predicate Intact(objs: seq<GameObject>, live: set<Block>)
      reads this`at, objs`cellPrev, objs`cellNext
    {
      && |objs| == |at|
      && (forall i :: 0 <= i < |objs| ==>
            objs[i].cellPrev == if at[i].In? && at[i].block in live then ObjectAt(objs, Last(at, i, at[i].block)) else null)
      && (forall i :: 0 <= i < |objs| && (at[i].In? && at[i].block in live ==> Last(at, |at|, at[i].block) == i)
            ==> objs[i].cellNext == null)
    }

    lemma StartChain(objs: seq<GameObject>, live: set<Block>, b: Block)
      requires Intact(objs, live) && b in live
      ensures BackLinks(objs, live, b, Last(at, |at|, b)) && ForwardGone(objs, live, b, Last(at, |at|, b))
    {
      LastIsAdjacent(at, |at|, b);
      hide Last;
    }

    lemma EndChain(objs: seq<GameObject>, live: set<Block>, b: Block, k: nat)
      requires k < |at| && at[k] == In(b) && Last(at, k, b) == -1
      requires BackLinks(objs, live, b, k) && ForwardGone(objs, live, b, k)
      ensures Intact(objs, live - {b})
    {
      LastIsAdjacent(at, k, b);
      hide Last;
    }

    /** Walks the chain of a block from its head and cuts every link. */
    method ClearChain(ghost objs: seq<GameObject>, ghost live: set<Block>, ghost b: Block, head: GameObject)
      requires Numbered(objs) && Intact(objs, live) && b in live
      requires Last(at, |at|, b) >= 0 && head == objs[Last(at, |at|, b)]
      modifies objs`cellPrev, objs`cellNext
      ensures Intact(objs, live - {b})
    {
      var obj := head;
      ghost var k: nat := Last(at, |at|, b);
      StartChain(objs, live, b);
      LastIsAdjacent(at, |at|, b);
      hide Last, Intact, BackLinks, ForwardGone;
      while obj.cellPrev != null
        invariant k < |objs| == |at| && obj == objs[k] && at[k] == In(b)
        invariant BackLinks(objs, live, b, k) && ForwardGone(objs, live, b, k)
        decreases k
      {
        var tmp := obj.cellPrev;
        LastIsAdjacent(at, k, b);
        CutLink(objs, live, b, k, obj);
        obj := tmp;
        k := Last(at, k, b);
      }
      ChainStart(objs, live, b, k);
      EndChain(objs, live, b, k);
    }

    lemma ChainStart(objs: seq<GameObject>, live: set<Block>, b: Block, k: nat)
      requires k < |objs| == |at| && at[k] == In(b) && BackLinks(objs, live, b, k) && objs[k].cellPrev == null
      ensures Last(at, k, b) == -1
    {
      hide Last;
    }

    /** Blocks still listed as used hold their last object; all others hold nothing. */
    ghost predicate LiveHeads(objs: seq<GameObject>)
      reads this`at, this`used, cells
    {
      && Sizes() && |objs| == |at|
      && (forall b :: b in used ==> InMap(b) && Last(at, |at|, b) >= 0)
      && (forall b :: InMap(b) ==> cells[b.x, b.y] == if b in used then objs[Last(at, |at|, b)] else null)
    }

    method DropUsed(ghost objs: seq<GameObject>, b: Block)
      requires used != [] && used[|used| - 1] == b && Distinct(used) && LiveHeads(objs)
      modifies this`used, cells
      ensures used == old(used)[..|old(used)| - 1] && Distinct(used) && LiveHeads(objs)
      ensures (set c | c in used) == (set c | c in old(used)) - {b}
    {
      hide Last;
      ghost var before := used;
      used := used[..|used| - 1];
      assert before == used + [b];
      assert b !in used;
      cells[b.x, b.y] := null;
    }

    /** Collision_cells_cleanup: every link and every block is empty again, whichever objects have expired. */
    method Cleanup(ghost objs: seq<GameObject>)
      requires Standing(objs)
      modifies this`used, cells, objs`cellPrev, objs`cellNext
      ensures Clean(objs)
    {
      hide Last, Intact, Distinct, Standing;
      ghost var live := set b | b in used;
      StandingIsIntact(objs);
      while used != []
        invariant Distinct(used) && live == (set b | b in used)
        invariant Numbered(objs) && LiveHeads(objs) && Intact(objs, live)
        decreases |used|
      {
        var b := used[|used| - 1];
        var obj := cells[b.x, b.y];
        if obj != null {
          ClearChain(objs, live, b, obj);
        }
        DropUsed(objs, b);
        live := live - {b};
      }
      AllCleared(objs, live);
    }

    lemma StandingIsIntact(objs: seq<GameObject>)
      requires Standing(objs)
      ensures Intact(objs, set b | b in used) && LiveHeads(objs) && Distinct(used) && Numbered(objs)
    {
      forall i | 0 <= i < |objs| && at[i].In? ensures at[i].block in used {
        LastIsAdjacent(at, |at|, at[i].block);
      }
      hide Last;
    }

    lemma AllCleared(objs: seq<GameObject>, live: set<Block>)
      requires live == {} && used == [] && LiveHeads(objs) && Intact(objs, live)
      ensures Clean(objs)
    {
    }

    // ----- Collision_cells_objects_get -----

    /** What a query needs of the grid. */
    ghost predicate Chained(objs: seq<GameObject>)
      reads this`at, cells, objs`cellPrev
    {
      Sizes() && Headed(objs, |objs|) && Backed(objs, |objs|)
    }

    /** The result array holds the first `count` objects of s, all of them unless it is full. */
    ghost predicate Lists(objs: seq<GameObject>, s: seq<nat>, count: nat)
      reads found
    {
      && found.Length == MAX_TOTAL_OBJECTS + 1 && count == Min(|s|, MAX_TOTAL_OBJECTS)
      && forall k :: 0 <= k < count ==> s[k] < |objs| && found[k] == objs[s[k]]
    }

    /** Puts object k after those of s, if there is room. */
    method Record(ghost objs: seq<GameObject>, ghost s: seq<nat>, ghost k: nat, obj: GameObject, count: nat)
      requires Lists(objs, s, count) && count < MAX_TOTAL_OBJECTS && k < |objs| && obj == objs[k]
      modifies found
      ensures Lists(objs, s + [k], count + 1)
    {
      found[count] := obj;
    }

    lemma NothingListed(objs: seq<GameObject>, xlo: int, ylo: int, rows: nat)
      requires Chained(objs)
      ensures Lists(objs, InColumns(at, xlo, 0, width, ylo, rows, height), 0)
    {
    }

    lemma StandingLinks(objs: seq<GameObject>)
      requires Standing(objs)
      ensures Chained(objs)
    {
    }

    method Terminate(ghost objs: seq<GameObject>, ghost s: seq<nat>, count: nat)
      requires Lists(objs, s, count)
      modifies found
      ensures Lists(objs, s, count) && count < found.Length && found[count] == null
    {
      found[count] := null;
    }

    /** A full array lists every continuation of what it lists. */
    lemma FullLists(objs: seq<GameObject>, s: seq<nat>, more: seq<nat>, count: nat)
      requires Lists(objs, s, count) && count >= MAX_TOTAL_OBJECTS
      ensures Lists(objs, s + more, count)
    {
    }

    /** Appends the chain of one block. */
    method ReadChain(ghost objs: seq<GameObject>, ghost sofar: seq<nat>, b: Block, count0: nat) returns (count: nat)
      requires InMap(b) && Chained(objs) && Lists(objs, sofar, count0)
      modifies found
      ensures Lists(objs, sofar + Chain(at, |at|, b), count)
    {
      count := count0;
      var obj := cells[b.x, b.y];
      ghost var seen: seq<nat>, n: nat := sofar, |at|;
      hide Last, Lists, Chain;
      while obj != null
        invariant n <= |at| == |objs| && obj == ObjectAt(objs, Last(at, n, b))
        invariant Lists(objs, seen, count)
        invariant seen + Chain(at, n, b) == sofar + Chain(at, |at|, b)
        decreases n
      {
        if count >= MAX_TOTAL_OBJECTS {
          FullLists(objs, seen, Chain(at, n, b), count);
          return;
        }
        ghost var k := Last(at, n, b);
        LastIsAdjacent(at, n, b);
        Record(objs, seen, k, obj, count);
        count := count + 1;
        ChainNext(at, n, b, seen);
        seen, n := seen + [k], k;
        obj := obj.cellPrev;
      }
      ChainNext(at, n, b, seen);
    }

    method ReadColumn(ghost objs: seq<GameObject>, ghost sofar: seq<nat>, x: nat, lo: nat, hi: int, ghost rows: nat,
                      count0: nat)
      returns (count: nat)
      requires Chained(objs) && Lists(objs, sofar, count0)
      requires x < width && lo < height && rows <= height + 1 && hi == lo + rows - 1
      modifies found
      ensures Lists(objs, sofar + InColumn(at, x, lo, rows, height), count)
    {
      hide Chained, Lists, Chain, Wrapped;
      count := count0;
      assert sofar + InColumn(at, x, lo, 0, height) == sofar;
      hide InColumn;
      var yr, yw := lo, lo;
      ghost var done: nat := 0;
      while yr <= hi
        invariant yr == lo + done <= hi + 1
        invariant yw == if done == 0 then lo else Wrapped(lo + done - 1, height) + 1
        invariant Lists(objs, sofar + InColumn(at, x, lo, done, height), count)
      {
        WrapStep(lo, done, yw, height);
        if yw >= height { yw := yw - height; }
        ColumnNext(at, sofar, x, lo, done, height);
        count := ReadChain(objs, sofar + InColumn(at, x, lo, done, height), Block(x, yw), count);
        yr, yw, done := yr + 1, yw + 1, done + 1;
      }
    }

    method ReadNextColumn(ghost objs: seq<GameObject>, ghost xlo: nat, ghost done: nat, xw: nat, ylo: nat, yhi: int,
                          ghost rows: nat, count0: nat)
      returns (count: nat)
      requires Chained(objs) && Lists(objs, InColumns(at, xlo, done, width, ylo, rows, height), count0)
      requires xw == Wrapped(xlo + done, width) < width && ylo < height && rows <= height + 1 && yhi == ylo + rows - 1
      modifies found
      ensures Lists(objs, InColumns(at, xlo, done + 1, width, ylo, rows, height), count)
    {
      hide Chained, Lists, InColumn, InColumns, Wrapped;
      ColumnsNext(at, xlo, done, width, ylo, rows, height);
      count := ReadColumn(objs, InColumns(at, xlo, done, width, ylo, rows, height), xw, ylo, yhi, rows, count0);
    }

    method ReadColumns(ghost objs: seq<GameObject>, xlo: nat, xhi: int, ylo: nat, yhi: int) returns (count: nat)
      requires Chained(objs)
      requires xlo < width && xlo <= xhi + 1 <= xlo + width + 1
      requires ylo < height && ylo <= yhi + 1 <= ylo + height + 1
      modifies found
      ensures Lists(objs, InColumns(at, xlo, xhi + 1 - xlo, width, ylo, yhi + 1 - ylo, height), count)
    {
      hide Chained, Lists, InColumn, InColumns, Wrapped;
      count := 0;
      NothingListed(objs, xlo, ylo, yhi + 1 - ylo);
      var xr, xw := xlo, xlo;
      ghost var rows: nat, done: nat := yhi + 1 - ylo, 0;
      while xr <= xhi
        invariant xr == xlo + done <= xhi + 1
        invariant xw == if done == 0 then xlo else Wrapped(xlo + done - 1, width) + 1
        invariant Lists(objs, InColumns(at, xlo, done, width, ylo, rows, height), count)
      {
        WrapStep(xlo, done, xw, width);
        if xw >= width { xw := xw - width; }
        count := ReadNextColumn(objs, xlo, done, xw, ylo, yhi, rows, count);
        xr, xw, done := xr + 1, xw + 1, done + 1;
      }
    }

    /** The radius cut down to what fits on the map. */
    method QueryRadius(r0: nat, wrap: bool) returns (r: nat)
      ensures r == Radius(r0, width, height, wrap) && (wrap ==> 2 * r <= width && 2 * r <= height)
    {
      r := r0;
      if wrap {
        if 2 * r > width { r := width / 2; }
        if 2 * r > height { r := height / 2; }
      } else {
        if r > width { r := width; }
        if r > height { r := height; }
      }
    }

    /** The columns and rows a query looks at. */
    method Range(x: nat, y: nat, r: nat, wrap: bool) returns (minx: int, maxx: int, miny: int, maxy: int)
      requires x < width && y < height && (wrap ==> 2 * r <= width && 2 * r <= height)
      ensures 0 <= minx < width && minx <= maxx + 1 <= minx + width + 1
      ensures 0 <= miny < height && miny <= maxy + 1 <= miny + height + 1
      ensures Span(minx, maxx + 1 - minx) == SpanOf(x, r, width, wrap)
      ensures Span(miny, maxy + 1 - miny) == SpanOf(y, r, height, wrap)
    {
      minx, maxx, miny, maxy := x - r, x + r, y - r, y + r;
      if wrap {
        if minx < 0 { minx, maxx := minx + width, maxx + width; }
        if miny < 0 { miny, maxy := miny + height, maxy + height; }
      } else {
        if minx < 0 { minx := 0; }
        if miny < 0 { miny := 0; }
        if maxx >= width { maxx := width - 1; }
        if maxy >= height { maxy := height - 1; }
      }
    }

    /** Collision_cells_objects_get: the objects within r blocks of block (x, y). */
    method ObjectsGet(ghost objs: seq<GameObject>, x: nat, y: nat, r: nat, wrap: bool) returns (count: nat)
      requires Standing(objs) && x < width && y < height
      modifies found
      ensures Lists(objs, Nearby(at, x, y, r, width, height, wrap), count) && count < found.Length && found[count] == null
    {
      hide Chained, Standing, InColumns, SpanOf, Radius, Lists;
      StandingLinks(objs);
      var q := QueryRadius(r, wrap);
      var minx, maxx, miny, maxy := Range(x, y, q, wrap);
      count := ReadColumns(objs, minx, maxx, miny, maxy);
      Terminate(objs, Nearby(at, x, y, r, width, height, wrap), count);
    }

    // ----- What a query finds -----

    /** Object i is listed as often as its number. */
    static lemma {:induction false} CountListed(objs: seq<GameObject>, s: seq<nat>, f: seq<GameObject?>, i: nat)
      requires (forall k :: 0 <= k < |objs| ==> objs[k].id == k) && i < |objs| && |f| == |s|
      requires forall k :: 0 <= k < |s| ==> s[k] < |objs| && f[k] == objs[s[k]]
      ensures Count(f, objs[i]) == Count(s, i)
      decreases |s|
    {
      if s == [] { return; }
      var n := |s| - 1;
      CountListed(objs, s[..n], f[..n], i);
      assert f[n] == objs[s[n]] && objs[s[n]].id == s[n] && objs[i].id == i;
    }

    /** On a trusted map the result has each object that was unexpired when the chains were built and is within the
        radius once, and no other. */
    lemma QueryFinds(objs: seq<GameObject>, x: nat, y: nat, r: nat, wrap: bool, count: nat)
      requires Standing(objs) && x < width && y < height && |objs| <= MAX_TOTAL_OBJECTS && Trusted(r, width, height, wrap)
      requires Lists(objs, Nearby(at, x, y, r, width, height, wrap), count)
      ensures count <= |objs| && count == |Nearby(at, x, y, r, width, height, wrap)|
      ensures forall i :: 0 <= i < |objs| ==>
        Count(found[..count], objs[i]) == if at[i].In? && Within(at[i].block, x, y, r, width, height, wrap) then 1 else 0
    {
      hide Nearby, Trusted, Headed, Backed, Mirrored, UsedExact, Count, Within;
      var s := Nearby(at, x, y, r, width, height, wrap);
      QueryFits(at, x, y, r, width, height, wrap);
      forall i | 0 <= i < |objs|
        ensures Count(found[..count], objs[i]) == if at[i].In? && Within(at[i].block, x, y, r, width, height, wrap) then 1 else 0
      {
        CountListed(objs, s, found[..count], i);
        AgreesWithScan(at, x, y, r, width, height, wrap, i);
      }
    }

    /** The query agrees with a scan made at the same moment: each object unexpired now and within the radius is
        listed once, and no other. */
    ghost predicate AgreesNow(objs: seq<GameObject>, x: nat, y: nat, r: nat, wrap: bool, count: nat)
      requires count <= found.Length
      reads found, objs`life, objs`blockX, objs`blockY
    {
      forall i :: 0 <= i < |objs| ==>
        Count(found[..count], objs[i])
        == if objs[i].life > 0 && Within(Block(objs[i].blockX, objs[i].blockY), x, y, r, width, height, wrap) then 1 else 0
    }

    /** An object within the radius was alive when the chains were built and has expired since. */
    ghost predicate ExpiredNearby(objs: seq<GameObject>, x: nat, y: nat, r: nat, wrap: bool)
      reads this`at, objs`life
    {
      |at| == |objs| && exists i :: 0 <= i < |objs| && at[i].In? && objs[i].life <= 0
                                    && Within(at[i].block, x, y, r, width, height, wrap)
    }

    /** In the middle of the collision checks, on a trusted map, each object unexpired now and within the radius is
        still reported once; the query agrees with a scan of all objects unless one within the radius has expired
        since the chains were built, which is reported too. */
    lemma QueryNow(objs: seq<GameObject>, x: nat, y: nat, r: nat, wrap: bool, count: nat)
      requires Standing(objs) && Current(objs) && x < width && y < height
      requires |objs| <= MAX_TOTAL_OBJECTS && Trusted(r, width, height, wrap)
      requires Lists(objs, Nearby(at, x, y, r, width, height, wrap), count)
      ensures count <= found.Length
      ensures forall i :: 0 <= i < |objs| && objs[i].life > 0 ==>
        Count(found[..count], objs[i])
        == if Within(Block(objs[i].blockX, objs[i].blockY), x, y, r, width, height, wrap) then 1 else 0
      ensures AgreesNow(objs, x, y, r, wrap, count) <==> !ExpiredNearby(objs, x, y, r, wrap)
    {
      QueryFinds(objs, x, y, r, wrap, count);
      hide Nearby, Trusted, Headed, Backed, Mirrored, UsedExact, Count, Within;
    }

    lemma OnlyObject(o: GameObject)
      requires Located([o]) && o.life > 0
      ensures at == [In(Block(o.blockX, o.blockY))]
    {
      assert [o][0] == o;
    }

    lemma OneFound(o: GameObject, count: nat)
      requires count <= 1 && count <= found.Length && Count(found[..count], o) == 1
      ensures count == 1 && found.Length > 0 && found[0] == o
    {
      CountNone(found[..count], o);
    }

    // ----- One round of collision checks -----

    static function Lives(objs: seq<GameObject>): (r: seq<int>)
      reads objs`life
      ensures |r| == |objs| && forall i :: 0 <= i < |r| ==> r[i] == objs[i].life
    {
      if objs == [] then [] else Lives(objs[..|objs| - 1]) + [objs[|objs| - 1].life]
    }

    lemma StandingNumbers(objs: seq<GameObject>)
      requires Standing(objs)
      ensures Numbered(objs) && |at| == |objs|
    {
    }

    /** One object of the result. */
    method HitOne(ghost objs: seq<GameObject>, obj: GameObject, sc: Scene, p: nat, pl: Player) returns (killed: bool)
      requires Standing(objs) && Current(objs) && obj in objs
      requires p < |sc.pilots| && |sc.bodies| == |objs| && Condition(pl).Sound()
      modifies obj`life, pl`fuel, pl`usesShield, pl`state
      ensures Standing(objs) && Current(objs)
      ensures var b, ship := sc.bodies[obj.id], old(Condition(pl));
              if Strikes(sc, p, obj.id, old(obj.life)) then
                && Condition(pl) == Struck(sc.rules, ship, b) && killed == Kills(sc.rules, ship, b)
                && Lives(objs) == if UsedUp(sc.rules, ship, b) then old(Lives(objs))[obj.id := 0] else old(Lives(objs))
              else Condition(pl) == ship && !killed && Lives(objs) == old(Lives(objs))
    {
      hide Strikes, Kills, UsedUp, Struck, Headed, Backed, Mirrored, UsedExact;
      var b := sc.bodies[obj.id];
      var hit := Threatens(sc, p, obj, b);
      if !hit { return false; }
      killed := Strike(sc.rules, pl, obj, b);
    }

    /** The first object of a turn. */
    static lemma WalkStep(sc: Scene, p: nat, s: seq<nat>, j: nat, count: nat, ship: Ship, lives: seq<int>)
      requires p < |sc.pilots| && |lives| == |sc.bodies| && j < count <= |s| && forall k :: 0 <= k < count ==> s[k] < |lives|
      ensures var b := sc.bodies[s[j]];
              var after := if UsedUp(sc.rules, ship, b) then lives[s[j] := 0] else lives;
              Walk(sc, p, s[j..count], ship, lives)
              == if !Strikes(sc, p, s[j], lives[s[j]]) then Walk(sc, p, s[j + 1..count], ship, lives)
                 else if Kills(sc.rules, ship, b) then Turn(Struck(sc.rules, ship, b), after)
                 else Walk(sc, p, s[j + 1..count], Struck(sc.rules, ship, b), after)
    {
      hide Strikes, Kills, UsedUp, Struck;
      assert s[j..count][0] == s[j] && s[j..count][1..] == s[j + 1..count];
    }

    /** The loop over the result of a query: the player's turn over the objects listed. */
    method HitObjects(ghost objs: seq<GameObject>, ghost s: seq<nat>, count: nat, sc: Scene, p: nat, pl: Player)
      requires Standing(objs) && Current(objs) && Lists(objs, s, count)
      requires p < |sc.pilots| && |sc.bodies| == |objs| && Condition(pl).Sound()
      modifies objs`life, pl`fuel, pl`usesShield, pl`state
      ensures Standing(objs) && Current(objs)
      ensures Turn(Condition(pl), Lives(objs)) == Walk(sc, p, s[..count], old(Condition(pl)), old(Lives(objs)))
    {
      hide Standing, Current, Strikes, Kills, UsedUp, Struck, Walk, Lives, Condition;
      StandingNumbers(objs);
      ghost var t := Walk(sc, p, s[..count], Condition(pl), Lives(objs));
      assert s[0..count] == s[..count];
      for j := 0 to count
        invariant Standing(objs) && Current(objs) && Condition(pl).Sound()
        invariant t == Walk(sc, p, s[j..count], Condition(pl), Lives(objs))
      {
        var obj := found[j];
        WalkStep(sc, p, s, j, count, Condition(pl), Lives(objs));
        var killed := HitOne(objs, obj, sc, p, pl);
        if killed { return; }
      }
      assert s[count..count] == [];
      WalkNothing(sc, p, Condition(pl), Lives(objs));
    }

    static lemma WalkNothing(sc: Scene, p: nat, ship: Ship, lives: seq<int>)
      requires p < |sc.pilots| && |lives| == |sc.bodies|
      ensures Walk(sc, p, [], ship, lives) == Turn(ship, lives)
    {
    }

    /** What Within says of a query that can be trusted. */
    lemma QueryHas(objs: seq<GameObject>, x: nat, y: nat, r: nat, wrap: bool, count: nat)
      requires Standing(objs) && Current(objs) && x < width && y < height
      requires |objs| <= MAX_TOTAL_OBJECTS && Trusted(r, width, height, wrap)
      requires Lists(objs, Nearby(at, x, y, r, width, height, wrap), count)
      ensures forall i :: 0 <= i < |objs| && objs[i].life > 0 ==>
        (i in Nearby(at, x, y, r, width, height, wrap)[..count]
         <==> Within(Block(objs[i].blockX, objs[i].blockY), x, y, r, width, height, wrap))
    {
      hide Nearby, Trusted, Headed, Backed, Mirrored, UsedExact, Count, Within;
      var s := Nearby(at, x, y, r, width, height, wrap);
      QueryFits(at, x, y, r, width, height, wrap);
      assert s[..count] == s;
      forall i | 0 <= i < |objs| && objs[i].life > 0
        ensures i in s <==> Within(Block(objs[i].blockX, objs[i].blockY), x, y, r, width, height, wrap)
      {
        CountNone<nat>(s, i);
        assert i in s <==> Count<nat>(s, i) != 0;
        AgreesWithScan(at, x, y, r, width, height, wrap, i);
      }
    }

    /** The fields of the objects that the checks only read are those of the scene. */
    ghost predicate Depicts(objs: seq<GameObject>, sc: Scene)
      reads objs`life, objs`blockX, objs`blockY
    {
      && sc.width == width && sc.height == height && |objs| == |sc.bodies| <= MAX_TOTAL_OBJECTS
      && Pictured(sc, Lives(objs), Blocks(objs))
    }

    static function Blocks(objs: seq<GameObject>): (r: seq<Block>)
      reads objs`blockX, objs`blockY
      ensures |r| == |objs| && forall i :: 0 <= i < |r| ==> r[i] == Block(objs[i].blockX, objs[i].blockY)
    {
      if objs == [] then []
      else Blocks(objs[..|objs| - 1]) + [Block(objs[|objs| - 1].blockX, objs[|objs| - 1].blockY)]
    }

    /** One player's turn: he asks for the objects near him and meets one after the other. */
    method CheckPlayer(ghost objs: seq<GameObject>, sc: Scene, p: nat, pl: Player)
      requires Standing(objs) && Current(objs) && Depicts(objs, sc) && p < |sc.pilots| && Condition(pl).Sound()
      modifies found, objs`life, pl`fuel, pl`usesShield, pl`state
      ensures Standing(objs) && Current(objs) && Depicts(objs, sc)
      ensures InTable(NearList(sc, at, p), |at|)
      ensures Turn(Condition(pl), Lives(objs)) == Walk(sc, p, NearList(sc, at, p), old(Condition(pl)), old(Lives(objs)))
    {
      hide Standing, Current, Lists, Nearby, Walk, Strikes, Pictured, Later, Lives, Blocks, Condition, NearList;
      StandingNumbers(objs);
      ghost var ship, lives, blocks := Condition(pl), Lives(objs), Blocks(objs);
      DepictedOnGrid(objs, sc, p);
      NearListBelow(sc, at, p);
      var b := BlockOf(sc.pilots[p].move);
      var count := ObjectsGet(objs, b.x, b.y, CHECK_RADIUS, sc.wrap);
      ghost var s := Nearby(at, b.x, b.y, CHECK_RADIUS, width, height, sc.wrap);
      ListsCount(objs, s, count);
      NearListIs(sc, at, p);
      WalkIsLater(sc, p, s[..count], ship, lives);
      HitObjects(objs, s, count, sc, p, pl);
      assert Turn(Condition(pl), Lives(objs)) == Walk(sc, p, s[..count], ship, lives);
      assert Blocks(objs) == blocks;
      StillPictured(sc, lives, Lives(objs), blocks);
    }

    lemma DepictedOnGrid(objs: seq<GameObject>, sc: Scene, p: nat)
      requires Depicts(objs, sc) && p < |sc.pilots|
      ensures OnMap(sc.pilots[p].move, width * BLOCK_SZ, height * BLOCK_SZ)
      ensures 0 <= BlockOf(sc.pilots[p].move).x < width && 0 <= BlockOf(sc.pilots[p].move).y < height
    {
      OnGrid(sc.pilots[p].move, width, height);
    }

    lemma ListsCount(objs: seq<GameObject>, s: seq<nat>, count: nat)
      requires Lists(objs, s, count)
      ensures count == Min(|s|, MAX_TOTAL_OBJECTS)
    {
    }

    static function Ships(players: seq<Player>): (r: seq<Ship>)
      reads players`fuel, players`fuelMax, players`usesShield, players`state
      ensures |r| == |players| && forall p :: 0 <= p < |r| ==> r[p] == Condition(players[p])
    {
      if players == [] then [] else Ships(players[..|players| - 1]) + [Condition(players[|players| - 1])]
    }

    /** The turn of player p, if he is alive. */
    method TakeTurn(ghost objs: seq<GameObject>, ghost players: seq<Player>, sc: Scene, p: nat, pl: Player)
      requires Standing(objs) && Current(objs) && Depicts(objs, sc) && p < |players| == |sc.pilots| && Distinct(players)
      requires players[p] == pl && Condition(pl).Sound() && InTable(NearList(sc, at, p), |at|)
      modifies found, objs`life, pl`fuel, pl`usesShield, pl`state
      ensures Standing(objs) && Current(objs) && Depicts(objs, sc)
      ensures Game(Ships(players), Lives(objs))
              == TurnOf(sc, p, NearList(sc, at, p), old(Game(Ships(players), Lives(objs))))
    {
      hide Standing, Current, NearList, Walk, Depicts, Lives, Ships;
      StandingNumbers(objs);
      if pl.state == ALIVE {
        CheckPlayer(objs, sc, p, pl);
      }
    }

    /** The chains are built from the positions of the unexpired objects. */
    method Build(objs: seq<GameObject>, ghost sc: Scene)
      requires Numbered(objs) && Clean(objs) && Depicts(objs, sc)
      modifies this, cells, objs`cellPrev, objs`cellNext
      ensures Standing(objs) && Current(objs) && Depicts(objs, sc) && at == Places(sc, Lives(objs))
    {
      hide Standing, Current, Clean;
      DepictedInMap(objs, sc);
      Init(objs);
      hide Lives, Blocks;
      LocatedPlaces(objs, sc);
    }

    lemma DepictedInMap(objs: seq<GameObject>, sc: Scene)
      requires Depicts(objs, sc)
      ensures forall i :: 0 <= i < |objs| && objs[i].life > 0 ==> InMap(Block(objs[i].blockX, objs[i].blockY))
    {
      forall i | 0 <= i < |objs| && objs[i].life > 0 ensures InMap(Block(objs[i].blockX, objs[i].blockY)) {
        OnGrid(sc.bodies[i].move, width, height);
      }
    }

    lemma LocatedPlaces(objs: seq<GameObject>, sc: Scene)
      requires Depicts(objs, sc) && Located(objs)
      ensures at == Places(sc, Lives(objs))
    {
    }

    /** Collision_players_check: every living player has his turn. */
    method CheckPlayers(ghost objs: seq<GameObject>, players: seq<Player>, sc: Scene, ghost g: Game)
      requires Standing(objs) && Current(objs) && Depicts(objs, sc) && |players| == |sc.pilots| && Distinct(players)
      requires |g.lives| == |sc.bodies| && at == Places(sc, g.lives) && Played(sc, g, Game(Ships(players), Lives(objs)), 0)
      modifies found, objs`life, players`fuel, players`usesShield, players`state
      ensures Standing(objs) && Played(sc, g, Game(Ships(players), Lives(objs)), |players|)
    {
      hide Standing, Current, NearList, Walk, TurnOf, Places, Lives, Ships, Condition, Numbered, Distinct, Played, Depicts;
      for p := 0 to |players|
        invariant Standing(objs) && Current(objs) && Depicts(objs, sc) && at == Places(sc, g.lives)
        invariant Played(sc, g, Game(Ships(players), Lives(objs)), p)
      {
        StillSound(sc, g, Game(Ships(players), Lives(objs)), p);
        OneMorePlayed(sc, g, Game(Ships(players), Lives(objs)), p);
        TakeTurn(objs, players, sc, p, players[p]);
      }
    }

    /** A whole round: the chains are built, every living player has his turn, and the chains are taken down.  The game
        afterwards is that of the turns over what the queries report.  On a trusted map, if everything is slow enough, the
        same objects are used up as by comparing all players with all objects, if and only if what a dying player leaves
        behind is used up in a later turn. */
    method Round(objs: seq<GameObject>, players: seq<Player>, sc: Scene)
      requires Numbered(objs) && Clean(objs) && Depicts(objs, sc)
      requires |players| == |sc.pilots| && Distinct(players) && forall p :: 0 <= p < |players| ==> Condition(players[p]).Sound()
      modifies this, cells, found, objs`cellPrev, objs`cellNext, objs`life, players`fuel, players`usesShield, players`state
      ensures Clean(objs)
      ensures Played(sc, old(Game(Ships(players), Lives(objs))), Game(Ships(players), Lives(objs)), |players|)
      ensures AgreesIfRedeemed(sc, old(Game(Ships(players), Lives(objs))), Lives(objs))
    {
      hide AgreesIfRedeemed, Standing, Current, Clean, NearList, Places, Lives, Ships, Condition, Numbered, Distinct, Played;
      ghost var g := Game(Ships(players), Lives(objs));
      NonePlayed(sc, g);
      hide Depicts;
      Build(objs, sc);
      CheckPlayers(objs, players, sc, g);
      RoundAgainstScan(sc, g, Game(Ships(players), Lives(objs)));
      Cleanup(objs);
    }
  }

  /** An object is found in its own block although it has expired since the chains were built. */
  method ExpiredIsReported() returns (cells: Cells, o: GameObject, count: nat)
    ensures count == 1 && cells.found.Length > 0 && cells.found[0] == o && o.life == 0
  {
    hide Cells.Standing, Cells.Current, Cells.Located, Nearby, Count;
    cells := new Cells(20, 20);
    o := new GameObject(0);
    o.life, o.blockX, o.blockY := 5, 0, 0;
    cells.Init([o]);
    cells.OnlyObject(o);
    cells.Expire([o], o);
    count := cells.ObjectsGet([o], 0, 0, 4, true);
    cells.QueryFinds([o], 0, 0, 4, true, count);
    assert [o][0] == o;
    cells.OneFound(o, count);
  }

  // ----- Inputs on which a round does not agree with comparing all players with all objects -----

  const SHOT_RULES := Rules(false, false, true, false, false, false)

  /** A shot that nobody owns, at rest. */
  function ShotAt(x: int, y: int): Body { Body(Shot, -1, -1, false, false, 0, Move(x, y, x, y), 0, 0) }

  /** A player at rest whom two shots have reached from different blocks. */
  const TWO_SHOTS := Scene(SHOT_RULES, 70, 70, true, [Pilot(0, Move(1049, 500, 1049, 500))], [ShotAt(1049, 500), ShotAt(1050, 500)])

  const BARE_SHIP := Ship(1000, 2600, false, ALIVE)

  lemma BothStrike(life: int)
    ensures |TWO_SHOTS.pilots| == 1 && |TWO_SHOTS.bodies| == 2
    ensures Strikes(TWO_SHOTS, 0, 0, life) == Strikes(TWO_SHOTS, 0, 1, life) == (life > 0)
  {
    var p, q, r := Move(1049, 500, 1049, 500), Move(1049, 500, 1049, 500), Move(1050, 500, 1050, 500);
    assert First(p, q, 70 * BLOCK_SZ, 70 * BLOCK_SZ, true) == p && Second(p, q, 70 * BLOCK_SZ, 70 * BLOCK_SZ, true) == q;
    assert First(p, r, 70 * BLOCK_SZ, 70 * BLOCK_SZ, true) == p && Second(p, r, 70 * BLOCK_SZ, 70 * BLOCK_SZ, true) == r;
    assert EndSquared(p, q) == 0 && EndSquared(p, r) == 1;
    hide First, Second, Back, TopOf, BotOf, EndSquared;
  }

  /** The shot listed first kills the player and is used up; the other one is not. */
  lemma OneShotStays(s: seq<nat>)
    requires s == [0, 1] || s == [1, 0]
    ensures |TWO_SHOTS.pilots| == 1 && |TWO_SHOTS.bodies| == 2
    ensures Walk(TWO_SHOTS, 0, s, BARE_SHIP, [5, 5])
            == Turn(BARE_SHIP.(state := KILLED), if s[0] == 0 then [0, 5] else [5, 0])
  {
    BothStrike(5);
    hide Strikes;
    assert TWO_SHOTS.bodies[s[0]].kind == Shot;
  }

  /** On the grid as on any other list of the objects one of the two shots stays, which comparing the player with all
      objects would have used up. */
  lemma TwoShots(h: Game)
    requires Played(TWO_SHOTS, Game([BARE_SHIP], [5, 5]), h, 1)
    ensures |TWO_SHOTS.pilots| == 1 && |TWO_SHOTS.bodies| == 2 && |h.ships| == 1 && h.ships[0].state == KILLED
    ensures (h.lives == [0, 5] || h.lives == [5, 0]) && Scan(TWO_SHOTS, Game([BARE_SHIP], [5, 5]), 1) == [0, 0]
  {
    hide Strikes, Walk, NearLists, Turns, Played;
    var sc, g := TWO_SHOTS, Game([BARE_SHIP], [5, 5]);
    var s := TwoListed(h);
    OneTurn(sc, g, h);
    OneShotStays(s);
    ScanOfTwo();
  }

  lemma ScanOfTwo()
    ensures |TWO_SHOTS.pilots| == 1 && |TWO_SHOTS.bodies| == 2 && Scan(TWO_SHOTS, Game([BARE_SHIP], [5, 5]), 1) == [0, 0]
  {
    BothStrike(5);
    hide Strikes;
    assert Scan(TWO_SHOTS, Game([BARE_SHIP], [5, 5]), 0) == [5, 5];
  }

  /** A round with one living player. */
  lemma OneTurn(sc: Scene, g: Game, h: Game)
    requires Played(sc, g, h, 1) && |sc.pilots| == |g.ships| == 1 && g.ships[0].state == ALIVE
    ensures Positioned(sc, g.lives) && InTable(NearLists(sc, g.lives)[0], |g.lives|) && |g.lives| == |sc.bodies|
    ensures var t := Walk(sc, 0, NearLists(sc, g.lives)[0], g.ships[0], g.lives); h == Game([t.ship], t.lives)
  {
    hide Walk, NearLists;
    assert Turns(sc, NearLists(sc, g.lives), g, 0) == g;
  }

  lemma TwoListed(h: Game) returns (s: seq<nat>)
    requires Played(TWO_SHOTS, Game([BARE_SHIP], [5, 5]), h, 1)
    ensures |TWO_SHOTS.pilots| == 1 && |TWO_SHOTS.bodies| == 2 && Positioned(TWO_SHOTS, [5, 5])
    ensures s == NearLists(TWO_SHOTS, [5, 5])[0] && (s == [0, 1] || s == [1, 0])
  {
    hide Strikes, Turns, AllSlow, NearList;
    var sc, g := TWO_SHOTS, Game([BARE_SHIP], [5, 5]);
    BothStrike(5);
    BothSlow();
    NearListsServe(sc, g);
    s := NearLists(sc, g.lives)[0];
    assert Distinct(s) && InTable(s, 2) && Complete(sc, 0, s, g.lives);
    hide NearLists, Played;
    assert Strikes(sc, 0, 0, g.lives[0]) && Strikes(sc, 0, 1, g.lives[1]);
    TwoOnly(s);
  }

  lemma BothSlow()
    ensures AllSlow(TWO_SHOTS, Game([BARE_SHIP], [5, 5]))
  {
    var p, q, r := Move(1049, 500, 1049, 500), Move(1049, 500, 1049, 500), Move(1050, 500, 1050, 500);
    SpeedLimitIsSlow(p, q, 16);
    SpeedLimitIsSlow(p, r, 16);
    assert First(p, q, 70 * BLOCK_SZ, 70 * BLOCK_SZ, true) == p && Second(p, q, 70 * BLOCK_SZ, 70 * BLOCK_SZ, true) == q;
    assert First(p, r, 70 * BLOCK_SZ, 70 * BLOCK_SZ, true) == p && Second(p, r, 70 * BLOCK_SZ, 70 * BLOCK_SZ, true) == r;
    hide First, Second, Slow;
  }

  lemma TwoOnly(s: seq<nat>)
    requires Distinct(s) && InTable(s, 2) && 0 in s && 1 in s
    ensures s == [0, 1] || s == [1, 0]
  {
    DistinctBelow(s, 2);
    var a :| 0 <= a < |s| && s[a] == 0;
    var b :| 0 <= b < |s| && s[b] == 1;
  }

  /** A ship and a ball that fly past each other at 75 pixels a frame. */
  const FAST_BALL := Scene(SHOT_RULES.(treasureCollisionDestroys := true), 70, 70, true, [Pilot(0, Move(1010, 500, 1085, 500))],
                           [Body(Ball, -1, -1, false, false, 10, Move(1010, 525, 935, 525), 0, 0)])

  /** They collide, but end the frame too far from each other: the ball is not found, and nothing happens. */
  lemma FastIsMissed(h: Game)
    requires Played(FAST_BALL, Game([BARE_SHIP], [5]), h, 1)
    ensures |FAST_BALL.pilots| == 1 && |FAST_BALL.bodies| == 1 && Strikes(FAST_BALL, 0, 0, 5)
    ensures h == Game([BARE_SHIP], [5])
  {
    hide Collide, NearLists, Turns, Played;
    var sc, g := FAST_BALL, Game([BARE_SHIP], [5]);
    FastEndsFar();
    NotListed();
    OneTurn(sc, g, h);
    assert NearLists(sc, g.lives)[0] == [];
  }

  lemma NotListed()
    ensures |FAST_BALL.pilots| == 1 && Positioned(FAST_BALL, [5]) && 0 !in NearLists(FAST_BALL, [5])[0]
  {
    var at := Places(FAST_BALL, [5]);
    assert BlockOf(Move(1010, 500, 1085, 500)) == Block(31, 14) && BlockOf(Move(1010, 525, 935, 525)) == Block(26, 15);
    NearbyVisits(at, 31, 14, CHECK_RADIUS, 70, 70, true, 0);
    hide Nearby;
    CountNone<nat>(Nearby(at, 31, 14, CHECK_RADIUS, 70, 70, true), 0);
  }
}
