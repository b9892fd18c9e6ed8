/** The collision test of src/server/collision.c on a map whose edges may be joined: the coordinates of two objects are
    straightened before they are compared. */
module MapCollision {
  import opened Numbers
  import opened MapPosition
  import opened SweptCollision

  // ----- Straightened coordinates -----

  /** Where an object begins and ends the frame along one axis. */
  datatype Leg = Leg(a: int, b: int)

  predicate Crosses(l: Leg, size: int) { Abs(l.b - l.a) > size / 2 }

  predicate FarHalf(l: Leg, size: int) { l.b > size / 2 || l.a > size / 2 }

  /** An object that crosses the edge has its higher end taken to the other side of 0. */
  function Unfolded(l: Leg, size: int): Leg {
    if !Crosses(l, size) then l else if l.a > l.b then Leg(l.a - size, l.b) else Leg(l.a, l.b - size)
  }

  /** An object that does not cross the edge is taken there as a whole if the other one does and it is in the upper half
      of the map. */
  function Straightened(l: Leg, other: Leg, size: int): Leg {
    if Crosses(other, size) && !Crosses(l, size) && FarHalf(l, size) then Leg(l.a - size, l.b - size) else Unfolded(l, size)
  }

  /** Along y the code asks of the second object whether it crosses the edge itself and the first one does not. */
  function SecondAlongY(q: Leg, p: Leg, size: int): Leg {
    var u := Unfolded(q, size);
    if Crosses(q, size) && !Crosses(p, size) && FarHalf(u, size) then Leg(u.a - size, u.b - size) else u
  }

  function LegX(p: Move): Leg { Leg(p.x1, p.x2) }
  function LegY(p: Move): Leg { Leg(p.y1, p.y2) }

  /** The move p of the first object as the code sees it beside that of the second one, q. */
  function First(p: Move, q: Move, width: int, height: int, wrap: bool): Move {
    if wrap then
      var x, y := Straightened(LegX(p), LegX(q), width), Straightened(LegY(p), LegY(q), height);
      Move(x.a, y.a, x.b, y.b)
    else p
  }

  /** The move q of the second object as the code sees it beside that of the first one, p. */
  function Second(p: Move, q: Move, width: int, height: int, wrap: bool): Move {
    if wrap then
      var x, y := Straightened(LegX(q), LegX(p), width), SecondAlongY(LegY(q), LegY(p), height);
      Move(x.a, y.a, x.b, y.b)
    else q
  }

  /** What Collision_occured answers. */
  predicate Collide(p: Move, q: Move, r: int, width: int, height: int, wrap: bool) {
    Hit(First(p, q, width, height, wrap), Second(p, q, width, height, wrap), r)
  }

  /** One axis of one object: whether it crosses the edge, and its coordinates then. */
  method Unfold(l: Leg, size: int) returns (a: int, b: int, crosses: bool)
    ensures crosses == Crosses(l, size) && Leg(a, b) == Unfolded(l, size) && (crosses || Leg(a, b) == l)
  {
    a, b := l.a, l.b;
    crosses := Abs(b - a) > size / 2;
    if crosses {
      if a > b { a := a - size; } else { b := b - size; }
    }
  }

  /** The coordinates of two objects, straightened in place. */
  method Straighten(p: Move, q: Move, width: int, height: int) returns (u: Move, v: Move)
    ensures u == First(p, q, width, height, true) && v == Second(p, q, width, height, true)
  {
    hide Crosses, Unfolded;
    var p1x, p2x, mpx := Unfold(LegX(p), width);
    var p1y, p2y, mpy := Unfold(LegY(p), height);
    var q1x, q2x, mqx := Unfold(LegX(q), width);
    var q1y, q2y, mqy := Unfold(LegY(q), height);
    if mpx && !mqx && (q2x > width / 2 || q1x > width / 2) { q1x, q2x := q1x - width, q2x - width; }
    if mqy && !mpy && (q2y > height / 2 || q1y > height / 2) { q1y, q2y := q1y - height, q2y - height; }
    if mqx && !mpx && (p2x > width / 2 || p1x > width / 2) { p1x, p2x := p1x - width, p2x - width; }
    if mqy && !mpy && (p2y > height / 2 || p1y > height / 2) { p1y, p2y := p1y - height, p2y - height; }
    u, v := Move(p1x, p1y, p2x, p2y), Move(q1x, q1y, q2x, q2y);
  }

  /** Collision_occured on a map of width by height pixels. */
  method CollisionOccurred(p: Move, q: Move, r: int, width: int, height: int, wrap: bool) returns (hit: bool)
    ensures hit == Collide(p, q, r, width, height, wrap)
  {
    hide Hit, Straightened, SecondAlongY, Meet, MovingApart;
    var u, v := p, q;
    if wrap { u, v := Straighten(p, q, width, height); }
    hit := Occurred(u, v, r);
    Exact(u, v, r);
  }

  /** A move along the shortest way, which may lead over the edge of the map. */
  function Rolled(p: Move, width: int, height: int): Move {
    Move(p.x1, p.y1, p.x1 + WrapDelta(p.x2 - p.x1, width, true), p.y1 + WrapDelta(p.y2 - p.y1, height, true))
  }

  function Shifted(p: Move, dx: int, dy: int): Move { Move(p.x1 + dx, p.y1 + dy, p.x2 + dx, p.y2 + dy) }

  /** On a map whose edges are joined the objects come closer than r at some moment of the frame, whichever way
      round their distance is taken. */
  ghost predicate MeetAround(p: Move, q: Move, r: int, width: int, height: int) {
    exists k: int, l: int :: MeetRounds(p, q, r, width, height, k, l)
  }

  ghost predicate MeetRounds(p: Move, q: Move, r: int, width: int, height: int, k: int, l: int) {
    Meet(Rolled(p, width, height), Shifted(Rolled(q, width, height), k * width, l * height), r)
  }

  /** The object is on the map and moves at most m pixels along the axis. */
  predicate Short(l: Leg, size: int, m: int) {
    0 <= l.a < size && 0 <= l.b < size && Abs(WrapDelta(l.b - l.a, size, true)) <= m
  }

  predicate ShortMove(p: Move, width: int, height: int, m: int) {
    Short(LegX(p), width, m) && Short(LegY(p), height, m)
  }

  /** One of the objects crosses the edge, or they are not nearer to each other across it. */
  predicate SameSide(p: Leg, q: Leg, size: int) {
    Crosses(p, size) || Crosses(q, size) || Abs(p.b - q.b) <= size / 2
  }

  /** Only the first object crosses the edge, and the second one is in the upper half of the map. */
  predicate LeftBehind(p: Leg, q: Leg, size: int) {
    Crosses(p, size) && !Crosses(q, size) && FarHalf(q, size)
  }

  /** Along this axis the objects stay at least r apart. */
  predicate Apart(p: Leg, q: Leg, r: int) {
    (q.a - p.a >= r && q.b - p.b >= r) || (q.a - p.a <= -r && q.b - p.b <= -r)
  }

  function ShiftedLeg(l: Leg, d: int): Leg { Leg(l.a + d, l.b + d) }

  lemma Between(a: int, b: int, s: real, r: int)
    requires 0.0 <= s <= 1.0
    ensures a >= r && b >= r ==> a as real + s * (b - a) as real >= r as real
    ensures a <= -r && b <= -r ==> a as real + s * (b - a) as real <= -(r as real)
  {
    var part := PartOf((b - a) as real, s);
    assert a as real + (b - a) as real == b as real;
  }

  /** A part of d lies between 0 and d. */
  lemma PartOf(d: real, s: real) returns (part: real)
    requires 0.0 <= s <= 1.0
    ensures part == s * d && (0.0 <= part <= d || d <= part <= 0.0)
  {
    part := s * d;
    Remainder(d, s);
  }

  lemma Weighed(s: real, x: real, y: real)
    requires s >= 0.0 && x <= y
    ensures s * x <= s * y
  {
  }

  lemma Outside(x: real, y: real, r: int)
    requires r >= 0 && (x >= r as real || x <= -(r as real) || y >= r as real || y <= -(r as real))
    ensures Square(x) + Square(y) >= (r * r) as real
  {
    Larger(x, r);
    Larger(y, r);
  }

  lemma Larger(x: real, r: int)
    requires r >= 0
    ensures Square(x) >= 0.0
    ensures x >= r as real || x <= -(r as real) ==> Square(x) >= (r * r) as real
  {
    var v := r as real;
    assert (r * r) as real == v * v;
    assert x * x >= 0.0;
    if x >= v || x <= -v { assert x * x >= v * v; }
  }

  /** Along one axis: the distance of the objects at moment s is at least r. */
  lemma ApartOnWay(p: Leg, q: Leg, s: real, r: int)
    requires 0.0 <= s <= 1.0 && Apart(p, q, r)
    ensures var x := (q.a - p.a) as real + s * ((q.b - q.a) - (p.b - p.a)) as real; x >= r as real || x <= -(r as real)
  {
    Between(q.a - p.a, q.b - p.b, s, r);
    assert (q.b - q.a) - (p.b - p.a) == (q.b - p.b) - (q.a - p.a);
  }

  lemma ApartNeverMeet(p: Move, q: Move, r: int)
    requires r >= 0
    ensures Apart(LegX(p), LegX(q), r) || Apart(LegY(p), LegY(q), r) ==> !Meet(p, q, r)
  {
    if Apart(LegX(p), LegX(q), r) || Apart(LegY(p), LegY(q), r) {
      hide Apart, Square;
      forall s | 0.0 <= s <= 1.0 ensures DistanceSquared(p, q, s) >= (r * r) as real {
        if Apart(LegX(p), LegX(q), r) {
          ApartOnWay(LegX(p), LegX(q), s, r);
        } else {
          ApartOnWay(LegY(p), LegY(q), s, r);
        }
        Outside(OffsetX(p, q, s), OffsetY(p, q, s), r);
      }
    }
  }

  /** Straightened coordinates show the way round on which the objects can meet, if one of them crosses the edge or
      they are not nearer to each other across it; otherwise they show the way on which they cannot. */
  lemma OneWayOnly(p: Leg, q: Leg, size: int, m: int, r: int, d: int)
    requires r >= 0 && m >= 0 && r + 2 * m <= size / 2 && Short(p, size, m) && Short(q, size, m)
    requires d == 0 || d >= size || d <= -size
    ensures var u, v := Straightened(p, q, size), Straightened(q, p, size);
            && (SameSide(p, q, size) && d != 0 ==> Apart(u, ShiftedLeg(v, d), r))
            && (!SameSide(p, q, size) ==> Apart(u, v, r))
  {
    if Crosses(p, size) && Crosses(q, size) {
      BothCross(p, q, size, m, r, d);
    } else if Crosses(p, size) {
      OneCrosses(p, q, size, m, r, d);
    } else if Crosses(q, size) {
      OneCrosses(q, p, size, m, r, -d);
      MirroredApart(Straightened(q, p, size), Straightened(p, q, size), d, r);
    } else {
      NoneCrosses(p, q, size, m, r, d);
    }
    hide Straightened, Apart, Crosses, Short;
  }

  lemma MirroredApart(u: Leg, v: Leg, d: int, r: int)
    ensures Apart(v, ShiftedLeg(u, d), r) <==> Apart(u, ShiftedLeg(v, -d), r)
  {
  }

  lemma NoneCrosses(p: Leg, q: Leg, size: int, m: int, r: int, d: int)
    requires r >= 0 && m >= 0 && r + 2 * m <= size / 2 && Short(p, size, m) && Short(q, size, m)
    requires (d >= size || d <= -size || d == 0) && !Crosses(p, size) && !Crosses(q, size)
    ensures SameSide(p, q, size) && d != 0 ==> Apart(p, ShiftedLeg(q, d), r)
    ensures !SameSide(p, q, size) ==> Apart(p, q, r)
  {
    assert Abs(p.b - p.a) <= m && Abs(q.b - q.a) <= m;
    hide Short, WrapDelta;
  }

  lemma BothCross(p: Leg, q: Leg, size: int, m: int, r: int, d: int)
    requires r >= 0 && m >= 0 && r + 2 * m <= size / 2 && Short(p, size, m) && Short(q, size, m)
    requires (d >= size || d <= -size || d == 0) && Crosses(p, size) && Crosses(q, size)
    ensures d != 0 ==> Apart(Straightened(p, q, size), ShiftedLeg(Straightened(q, p, size), d), r)
  {
    var u, v := Straightened(p, q, size), Straightened(q, p, size);
    assert -m <= u.a <= m && -m <= u.b <= m;
    assert -m <= v.a <= m && -m <= v.b <= m;
    hide Straightened, Crosses, Short;
  }

  lemma OneCrosses(p: Leg, q: Leg, size: int, m: int, r: int, d: int)
    requires r >= 0 && m >= 0 && r + 2 * m <= size / 2 && Short(p, size, m) && Short(q, size, m)
    requires (d >= size || d <= -size || d == 0) && Crosses(p, size) && !Crosses(q, size)
    ensures var u, v := Straightened(p, q, size), Straightened(q, p, size);
            d != 0 ==> Apart(u, ShiftedLeg(v, d), r)
  {
    var u, v := Straightened(p, q, size), Straightened(q, p, size);
    assert -m <= u.a <= m && -m <= u.b <= m;
    assert FarHalf(q, size) ==> size / 2 - m - size <= v.a < 0 && size / 2 - m - size <= v.b < 0;
    assert !FarHalf(q, size) ==> 0 <= v.a <= size / 2 && 0 <= v.b <= size / 2;
    hide Straightened, Crosses, Short, FarHalf;
  }

  /** Coordinates u are those of l, taken as a whole to this or the next round, along the shortest way. */
  predicate Lifted(l: Leg, u: Leg, size: int) {
    (u.a == l.a || u.a == l.a - size) && u.b - u.a == WrapDelta(l.b - l.a, size, true)
  }

  predicate LiftedMove(p: Move, u: Move, width: int, height: int) {
    Lifted(LegX(p), LegX(u), width) && Lifted(LegY(p), LegY(u), height)
  }

  lemma StraightIsLifted(l: Leg, other: Leg, size: int)
    requires 0 <= l.a < size && 0 <= l.b < size
    ensures Lifted(l, Straightened(l, other, size), size)
  {
  }

  /** On the map the second object is never taken to another round along y, and so is seen like the first one unless it
      is left behind. */
  lemma SecondIsLifted(l: Leg, other: Leg, size: int)
    requires 0 <= l.a < size && 0 <= l.b < size
    ensures SecondAlongY(l, other, size) == Unfolded(l, size) && Lifted(l, Unfolded(l, size), size)
    ensures !LeftBehind(other, l, size) ==> SecondAlongY(l, other, size) == Straightened(l, other, size)
  {
  }

  /** Only the distances of the objects matter. */
  lemma SameOffsets(p: Move, q: Move, u: Move, v: Move, r: int)
    requires q.x1 - p.x1 == v.x1 - u.x1 && q.y1 - p.y1 == v.y1 - u.y1
    requires q.x2 - p.x2 == v.x2 - u.x2 && q.y2 - p.y2 == v.y2 - u.y2
    ensures Meet(p, q, r) <==> Meet(u, v, r)
  {
    forall s: real ensures DistanceSquared(p, q, s) == DistanceSquared(u, v, s) {
      assert (q.x2 - q.x1) - (p.x2 - p.x1) == (v.x2 - v.x1) - (u.x2 - u.x1);
      assert (q.y2 - q.y1) - (p.y2 - p.y1) == (v.y2 - v.y1) - (u.y2 - u.y1);
    }
  }

  predicate OnMap(p: Move, width: int, height: int) {
    0 <= p.x1 < width && 0 <= p.x2 < width && 0 <= p.y1 < height && 0 <= p.y2 < height
  }

  lemma BothLifted(p: Move, q: Move, width: int, height: int)
    requires OnMap(p, width, height) && OnMap(q, width, height)
    ensures LiftedMove(p, First(p, q, width, height, true), width, height)
    ensures LiftedMove(q, Second(p, q, width, height, true), width, height)
  {
    hide Straightened, SecondAlongY, Lifted, Unfolded;
    StraightIsLifted(LegX(p), LegX(q), width);
    StraightIsLifted(LegY(p), LegY(q), height);
    StraightIsLifted(LegX(q), LegX(p), width);
    SecondIsLifted(LegY(q), LegY(p), height);
  }

  /** The same way round before and after straightening. */
  lemma SameWay(p: Move, q: Move, u: Move, v: Move, r: int, width: int, height: int, dx: int, dy: int)
    requires LiftedMove(p, u, width, height) && LiftedMove(q, v, width, height)
    ensures var ex, ey := dx + (v.x1 - q.x1) - (u.x1 - p.x1), dy + (v.y1 - q.y1) - (u.y1 - p.y1);
            Meet(u, Shifted(v, dx, dy), r) <==> Meet(Rolled(p, width, height), Shifted(Rolled(q, width, height), ex, ey), r)
  {
    hide Meet, WrapDelta;
    var ex, ey := dx + (v.x1 - q.x1) - (u.x1 - p.x1), dy + (v.y1 - q.y1) - (u.y1 - p.y1);
    SameOffsets(u, Shifted(v, dx, dy), Rolled(p, width, height), Shifted(Rolled(q, width, height), ex, ey), r);
  }

  lemma RoundOfLift(k: int, size: int, a: int, b: int) returns (i: int)
    requires size > 0 && (a == 0 || a == -size) && (b == 0 || b == -size)
    ensures i * size == k * size + b - a
  {
    i := k + (if b == 0 then 0 else -1) - (if a == 0 then 0 else -1);
    assert i * size == k * size + (if b == 0 then 0 else -1) * size - (if a == 0 then 0 else -1) * size;
  }

  lemma LiftedMeetAround(p: Move, q: Move, u: Move, v: Move, r: int, width: int, height: int)
    requires width > 0 && height > 0 && LiftedMove(p, u, width, height) && LiftedMove(q, v, width, height) && Meet(u, v, r)
    ensures MeetAround(p, q, r, width, height)
  {
    hide Meet, WrapDelta;
    var i := RoundOfLift(0, width, u.x1 - p.x1, v.x1 - q.x1);
    var j := RoundOfLift(0, height, u.y1 - p.y1, v.y1 - q.y1);
    SameWay(p, q, u, v, r, width, height, 0, 0);
    assert Shifted(v, 0, 0) == v;
    assert MeetRounds(p, q, r, width, height, i, j);
  }

  /** Objects that meet as the code sees them do meet, some way round. */
  lemma SeenMeetsAround(p: Move, q: Move, r: int, width: int, height: int)
    requires OnMap(p, width, height) && OnMap(q, width, height)
    requires Meet(First(p, q, width, height, true), Second(p, q, width, height, true), r)
    ensures MeetAround(p, q, r, width, height)
  {
    hide Meet, First, Second, Lifted, MeetAround;
    BothLifted(p, q, width, height);
    LiftedMeetAround(p, q, First(p, q, width, height, true), Second(p, q, width, height, true), r, width, height);
  }

  /** On the map, unless the second object is left behind along y, both are straightened alike. */
  lemma SeenAlike(p: Move, q: Move, width: int, height: int)
    requires OnMap(p, width, height) && OnMap(q, width, height) && !LeftBehind(LegY(p), LegY(q), height)
    ensures Second(p, q, width, height, true) == First(q, p, width, height, true)
  {
    SecondIsLifted(LegY(q), LegY(p), height);
    hide Straightened, SecondAlongY;
  }

  /** Objects that meet some way round meet as the code sees them, if along each axis one of them crosses the edge or
      they are not nearer to each other across it, and along y the second one is not left behind. */
  lemma AroundIsSeen(p: Move, q: Move, r: int, width: int, height: int, m: int)
    requires r >= 0 && m >= 0 && r + 2 * m <= width / 2 && r + 2 * m <= height / 2
    requires ShortMove(p, width, height, m) && ShortMove(q, width, height, m)
    requires SameSide(LegX(p), LegX(q), width) && SameSide(LegY(p), LegY(q), height) && !LeftBehind(LegY(p), LegY(q), height)
    requires MeetAround(p, q, r, width, height)
    ensures Meet(First(p, q, width, height, true), Second(p, q, width, height, true), r)
  {
    BothLifted(p, q, width, height);
    SeenAlike(p, q, width, height);
    hide Meet, First, Second, WrapDelta, SameSide, LeftBehind;
    var u, v := First(p, q, width, height, true), Second(p, q, width, height, true);
    var k, l :| MeetRounds(p, q, r, width, height, k, l);
    var i := RoundOfLift(k, width, v.x1 - q.x1, u.x1 - p.x1);
    var j := RoundOfLift(l, height, v.y1 - q.y1, u.y1 - p.y1);
    SameWay(p, q, u, v, r, width, height, i * width, j * height);
    OnlyRound(p, q, r, width, height, m, i, j);
  }

  lemma OnlyRound(p: Move, q: Move, r: int, width: int, height: int, m: int, i: int, j: int)
    requires width > 0 && height > 0 && r >= 0 && m >= 0 && r + 2 * m <= width / 2 && r + 2 * m <= height / 2
    requires ShortMove(p, width, height, m) && ShortMove(q, width, height, m)
    requires SameSide(LegX(p), LegX(q), width) && SameSide(LegY(p), LegY(q), height)
    requires Meet(First(p, q, width, height, true), Shifted(First(q, p, width, height, true), i * width, j * height), r)
    ensures Meet(First(p, q, width, height, true), First(q, p, width, height, true), r)
  {
    hide Meet, Straightened, WrapDelta, SameSide, Apart, Short;
    var u, v := First(p, q, width, height, true), First(q, p, width, height, true);
    var dx, dy := i * width, j * height;
    WholeRounds(i, width);
    WholeRounds(j, height);
    OneWayOnly(LegX(p), LegX(q), width, m, r, dx);
    OneWayOnly(LegY(p), LegY(q), height, m, r, dy);
    ApartNeverMeet(u, Shifted(v, dx, dy), r);
    assert Shifted(v, 0, 0) == v;
  }

  /** A second object that is left behind stays on the far side of the map. */
  lemma LeftBehindIsApart(p: Leg, q: Leg, size: int, m: int, r: int)
    requires r >= 0 && m >= 0 && r + 2 * m <= size / 2 && Short(p, size, m) && Short(q, size, m)
    requires LeftBehind(p, q, size)
    ensures Apart(Straightened(p, q, size), SecondAlongY(q, p, size), r)
  {
    var u := Straightened(p, q, size);
    assert -m <= u.a <= m && -m <= u.b <= m;
    assert q.a >= size / 2 - m && q.b >= size / 2 - m;
  }

  /** As the code sees them, objects on different sides of an axis, or of which the second one is left behind, never
      meet. */
  lemma SeenIsSameSide(p: Move, q: Move, r: int, width: int, height: int, m: int)
    requires r >= 0 && m >= 0 && r + 2 * m <= width / 2 && r + 2 * m <= height / 2
    requires ShortMove(p, width, height, m) && ShortMove(q, width, height, m)
    requires Meet(First(p, q, width, height, true), Second(p, q, width, height, true), r)
    ensures SameSide(LegX(p), LegX(q), width) && SameSide(LegY(p), LegY(q), height) && !LeftBehind(LegY(p), LegY(q), height)
  {
    ApartNeverMeet(First(p, q, width, height, true), Second(p, q, width, height, true), r);
    hide Meet, Apart, Straightened, SecondAlongY, SameSide, LeftBehind, WrapDelta;
    if LeftBehind(LegY(p), LegY(q), height) { LeftBehindIsApart(LegY(p), LegY(q), height, m, r); }
    SecondIsLifted(LegY(q), LegY(p), height);
    OneWayOnly(LegX(p), LegX(q), width, m, r, 0);
    OneWayOnly(LegY(p), LegY(q), height, m, r, 0);
  }

  /** On a map whose edges are joined, objects that do not move too far for its size meet as the code sees them if and
      only if they meet, along each axis one of them crosses the edge or they are not nearer to each other across it, and
      along y the second one is not in the upper half of the map when only the first one crosses the edge. */
  lemma StraightExact(p: Move, q: Move, r: int, width: int, height: int, m: int)
    requires r >= 0 && m >= 0 && r + 2 * m <= width / 2 && r + 2 * m <= height / 2
    requires ShortMove(p, width, height, m) && ShortMove(q, width, height, m)
    ensures Meet(First(p, q, width, height, true), Second(p, q, width, height, true), r)
            <==> MeetAround(p, q, r, width, height)
                 && SameSide(LegX(p), LegX(q), width) && SameSide(LegY(p), LegY(q), height)
                 && !LeftBehind(LegY(p), LegY(q), height)
  {
    hide Meet, First, Second, WrapDelta, SameSide, LeftBehind, MeetAround;
    if Meet(First(p, q, width, height, true), Second(p, q, width, height, true), r) {
      SeenMeetsAround(p, q, r, width, height);
      SeenIsSameSide(p, q, r, width, height, m);
    } else if MeetAround(p, q, r, width, height) && SameSide(LegX(p), LegX(q), width)
              && SameSide(LegY(p), LegY(q), height) && !LeftBehind(LegY(p), LegY(q), height) {
      AroundIsSeen(p, q, r, width, height, m);
    }
  }

  /** So the code reports exactly those objects that meet under these conditions, and were not only too close at the
      beginning and have been moving apart since. */
  lemma CollideExact(p: Move, q: Move, r: int, width: int, height: int, m: int)
    requires r >= 0 && m >= 0 && r + 2 * m <= width / 2 && r + 2 * m <= height / 2
    requires ShortMove(p, width, height, m) && ShortMove(q, width, height, m)
    ensures Collide(p, q, r, width, height, true)
            <==> MeetAround(p, q, r, width, height)
                 && SameSide(LegX(p), LegX(q), width) && SameSide(LegY(p), LegY(q), height)
                 && !LeftBehind(LegY(p), LegY(q), height)
                 && !MovingApart(First(p, q, width, height, true), Second(p, q, width, height, true), r)
  {
    hide Meet, Hit, First, Second, SameSide, LeftBehind, MeetAround, MovingApart;
    StraightExact(p, q, r, width, height, m);
    Exact(First(p, q, width, height, true), Second(p, q, width, height, true), r);
  }

  /** Two objects at rest five pixels from each other, one on either side of the edge, are not reported. */
  lemma EdgeIsMissed()
    ensures var p, q := Move(2, 100, 2, 100), Move(697, 100, 697, 100);
            MeetAround(p, q, 16, 700, 700) && !Collide(p, q, 16, 700, 700, true)
  {
    hide Meet, Hit, MovingApart, First, Second, MeetRounds, LeftBehind;
    var p, q := Move(2, 100, 2, 100), Move(697, 100, 697, 100);
    StraightExact(p, q, 16, 700, 700, 0);
    Exact(First(p, q, 700, 700, true), Second(p, q, 700, 700, true), 16);
    FivePixels();
    assert MeetRounds(p, q, 16, 700, 700, -1, 0);
  }

  /** A player who flies over the y edge past an object at rest beside it, never more than 15 pixels away, is not reported
      to hit it.  If the two are exchanged, they are. */
  lemma YEdgeIsMissed()
    ensures var p, q := Move(100, 690, 100, 10), Move(100, 695, 100, 695);
            && ShortMove(p, 700, 700, 20) && ShortMove(q, 700, 700, 20)
            && SameSide(LegX(p), LegX(q), 700) && SameSide(LegY(p), LegY(q), 700)
            && MeetAround(p, q, 16, 700, 700)
            && !Collide(p, q, 16, 700, 700, true) && Collide(q, p, 16, 700, 700, true)
  {
    hide Meet, Back, TopOf, BotOf, MovingApart;
    var p, q := Move(100, 690, 100, 10), Move(100, 695, 100, 695);
    var u, v := First(q, p, 700, 700, true), Second(q, p, 700, 700, true);
    assert u == Move(100, -5, 100, -5) && v == Move(100, -10, 100, 10);
    assert EndSquared(u, v) == 225;
    Exact(u, v, 16);
    SeenMeetsAround(q, p, 16, 700, 700);
    MeetAroundExchanged(q, p, 16, 700, 700);
    StraightExact(p, q, 16, 700, 700, 20);
    Exact(First(p, q, 700, 700, true), Second(p, q, 700, 700, true), 16);
    hide Hit, First, Second, EndSquared;
  }

  /** Whether objects meet does not depend on which of them comes first. */
  lemma MeetAroundExchanged(p: Move, q: Move, r: int, width: int, height: int)
    requires MeetAround(p, q, r, width, height)
    ensures MeetAround(q, p, r, width, height)
  {
    hide Meet;
    var k, l :| MeetRounds(p, q, r, width, height, k, l);
    var u, v := Rolled(p, width, height), Rolled(q, width, height);
    MeetExchanged(u, Shifted(v, k * width, l * height), r);
    assert -k * width == -(k * width) && -l * height == -(l * height);
    SameOffsets(Shifted(v, k * width, l * height), u, v, Shifted(u, -k * width, -l * height), r);
    assert MeetRounds(q, p, r, width, height, -k, -l);
  }

  lemma MeetExchanged(p: Move, q: Move, r: int)
    requires Meet(p, q, r)
    ensures Meet(q, p, r)
  {
    var s :| 0.0 <= s <= 1.0 && DistanceSquared(p, q, s) < (r * r) as real;
    OffsetsExchanged(p, q, s);
    assert DistanceSquared(q, p, s) == DistanceSquared(p, q, s);
  }

  lemma OffsetsExchanged(p: Move, q: Move, s: real)
    ensures Square(OffsetX(q, p, s)) == Square(OffsetX(p, q, s)) && Square(OffsetY(q, p, s)) == Square(OffsetY(p, q, s))
  {
    assert OffsetX(q, p, s) == -OffsetX(p, q, s) && OffsetY(q, p, s) == -OffsetY(p, q, s);
  }

  lemma FivePixels()
    ensures MeetRounds(Move(2, 100, 2, 100), Move(697, 100, 697, 100), 16, 700, 700, -1, 0)
  {
    hide Meet, Rolled;
    AtRest(2, 100, 700, 700);
    AtRest(697, 100, 700, 700);
    RestClose();
  }

  lemma AtRest(x: int, y: int, width: nat, height: nat)
    ensures Rolled(Move(x, y, x, y), width, height) == Move(x, y, x, y)
  {
  }

  lemma RestClose()
    ensures Meet(Move(2, 100, 2, 100), Move(-3, 100, -3, 100), 16)
  {
    assert DistanceSquared(Move(2, 100, 2, 100), Move(-3, 100, -3, 100), 0.0) == 25.0;
  }

  // ----- How far apart objects are that have hit each other -----

  lemma Share(top: real, bot: real, v: real)
    requires 0.0 <= top <= bot && bot > 0.0 && v == top / bot
    ensures v * v * bot == v * top <= bot
  {
    assert v * bot == top;
    assert v * v * bot == v * (v * bot);
    Remainder(top, v);
  }

  /** Objects that hit each other during the frame end it at a distance below the range and the whole relative move,
      taken at right angles. */
  lemma HitEndsNear(p: Move, q: Move, r: int)
    requires Hit(p, q, r)
    ensures EndSquared(p, q) < r * r + BotOf(p, q)
  {
    hide EndSquared, TopOf, BotOf, Back;
    NoMotion(p, q);
    if EndSquared(p, q) >= r * r {
      var top, bot := TopOf(p, q) as real, BotOf(p, q) as real;
      var v := top / bot;
      Parabola(p, q, v);
      Share(top, bot, v);
    }
  }

  /** Objects that are near each other after straightening are as near by the shorter way. */
  lemma LiftedCoversDistance(p: Leg, q: Leg, u: Leg, v: Leg, size: nat)
    requires 0 <= p.a < size && 0 <= p.b < size && 0 <= q.a < size && 0 <= q.b < size
    requires Lifted(p, u, size) && Lifted(q, v, size)
    ensures Distance(p.b, q.b, size, true) <= Gap(u.b, v.b)
  {
  }

  /** The blocks in which two objects end the frame are at most n apart along each axis. */
  predicate BlocksNear(p: Move, q: Move, columns: nat, rows: nat, wrap: bool, n: nat) {
    && Distance(p.x2 / BLOCK_SZ, q.x2 / BLOCK_SZ, columns, wrap) <= n
    && Distance(p.y2 / BLOCK_SZ, q.y2 / BLOCK_SZ, rows, wrap) <= n
  }

  lemma PixelsToBlocks(p: Move, q: Move, columns: nat, rows: nat, wrap: bool, n: nat)
    requires OnMap(p, columns * BLOCK_SZ, rows * BLOCK_SZ) && OnMap(q, columns * BLOCK_SZ, rows * BLOCK_SZ)
    requires var u, v := First(p, q, columns * BLOCK_SZ, rows * BLOCK_SZ, wrap), Second(p, q, columns * BLOCK_SZ, rows * BLOCK_SZ, wrap);
             Gap(u.x2, v.x2) <= n * BLOCK_SZ && Gap(u.y2, v.y2) <= n * BLOCK_SZ
    ensures BlocksNear(p, q, columns, rows, wrap, n)
  {
    if wrap {
      var u, v := First(p, q, columns * BLOCK_SZ, rows * BLOCK_SZ, true), Second(p, q, columns * BLOCK_SZ, rows * BLOCK_SZ, true);
      BothLifted(p, q, columns * BLOCK_SZ, rows * BLOCK_SZ);
      LiftedCoversDistance(LegX(p), LegX(q), LegX(u), LegX(v), columns * BLOCK_SZ);
      LiftedCoversDistance(LegY(p), LegY(q), LegY(u), LegY(v), rows * BLOCK_SZ);
    }
    hide Straightened, SecondAlongY, Lifted;
    BlocksCoverPixels(p.x2, q.x2, columns, n, wrap);
    BlocksCoverPixels(p.y2, q.y2, rows, n, wrap);
  }

  lemma RootBelow(x: int, y: int, b: nat)
    requires x * x + y * y < b * b
    ensures Gap(x, 0) <= b && Gap(y, 0) <= b
  {
    assert x * x >= 0 && y * y >= 0;
    SquareGrows(x, b);
    SquareGrows(y, b);
  }

  lemma SquareGrows(x: int, b: nat)
    ensures Gap(x, 0) >= b ==> x * x >= b * b
  {
    if x >= b { assert x * x >= b * b; }
    if -x >= b { assert -x * -x >= b * b; }
  }

  /** Objects whose range and relative move are small enough: together at most n blocks, taken at right angles or along
      each axis. */
  predicate Slow(p: Move, q: Move, r: int, n: nat) {
    || r * r + BotOf(p, q) <= n * BLOCK_SZ * (n * BLOCK_SZ)
    || (Abs(r) + Abs(Fac1(p, q)) <= n * BLOCK_SZ && Abs(r) + Abs(Fac2(p, q)) <= n * BLOCK_SZ)
  }

  lemma DriftBound(x: real, a: int, f: int, s: real, r: int, bound: int)
    requires 0.0 <= s <= 1.0 && Abs(r) + Abs(f) <= bound
    requires x == a as real + s * (-f) as real && Square(x) < (r * r) as real
    ensures Gap(a - f, 0) <= bound
  {
    assert (r * r) as real == (Abs(r) * Abs(r)) as real by { assert Abs(r) * Abs(r) == r * r; }
    Larger(x, Abs(r));
    Remainder(f as real, 1.0 - s);
    assert (a - f) as real == x - (1.0 - s) * f as real;
  }

  lemma Remainder(f: real, t: real)
    requires 0.0 <= t <= 1.0
    ensures f >= 0.0 ==> 0.0 <= t * f <= f
    ensures f <= 0.0 ==> f <= t * f <= 0.0
  {
  }

  /** At some moment of the frame the objects are closer than r along each axis. */
  lemma MeetingMoment(p: Move, q: Move, r: int) returns (s: real)
    requires Meet(p, q, r)
    ensures 0.0 <= s <= 1.0
    ensures Square(OffsetX(p, q, s)) < (r * r) as real && Square(OffsetY(p, q, s)) < (r * r) as real
  {
    s :| 0.0 <= s <= 1.0 && DistanceSquared(p, q, s) < (r * r) as real;
    Larger(OffsetX(p, q, s), 0);
    Larger(OffsetY(p, q, s), 0);
    hide Square, OffsetX, OffsetY;
  }

  lemma OffsetsByFactors(p: Move, q: Move, s: real)
    ensures OffsetX(p, q, s) == (q.x1 - p.x1) as real + s * (-Fac1(p, q)) as real
    ensures OffsetY(p, q, s) == (q.y1 - p.y1) as real + s * (-Fac2(p, q)) as real
    ensures q.x1 - p.x1 - Fac1(p, q) == q.x2 - p.x2 && q.y1 - p.y1 - Fac2(p, q) == q.y2 - p.y2
  {
    assert (q.x2 - q.x1) - (p.x2 - p.x1) == -Fac1(p, q) && (q.y2 - q.y1) - (p.y2 - p.y1) == -Fac2(p, q);
  }

  lemma MeetEndsNear(p: Move, q: Move, r: int, bound: int)
    requires Meet(p, q, r) && Abs(r) + Abs(Fac1(p, q)) <= bound && Abs(r) + Abs(Fac2(p, q)) <= bound
    ensures Gap(p.x2, q.x2) <= bound && Gap(p.y2, q.y2) <= bound
  {
    hide Square, Meet;
    var s := MeetingMoment(p, q, r);
    OffsetsByFactors(p, q, s);
    hide OffsetX, OffsetY, Fac1, Fac2;
    DriftBound(OffsetX(p, q, s), q.x1 - p.x1, Fac1(p, q), s, r, bound);
    DriftBound(OffsetY(p, q, s), q.y1 - p.y1, Fac2(p, q), s, r, bound);
  }

  /** Objects that come closer than r during the frame end it at most n blocks apart if, along each axis, r and their
      relative move together are at most n blocks. */
  lemma MeetIsNear(p: Move, q: Move, r: int, columns: nat, rows: nat, wrap: bool, n: nat)
    requires OnMap(p, columns * BLOCK_SZ, rows * BLOCK_SZ) && OnMap(q, columns * BLOCK_SZ, rows * BLOCK_SZ)
    requires var u, v := First(p, q, columns * BLOCK_SZ, rows * BLOCK_SZ, wrap), Second(p, q, columns * BLOCK_SZ, rows * BLOCK_SZ, wrap);
             && Meet(u, v, r)
             && Abs(r) + Abs(Fac1(u, v)) <= n * BLOCK_SZ && Abs(r) + Abs(Fac2(u, v)) <= n * BLOCK_SZ
    ensures BlocksNear(p, q, columns, rows, wrap, n)
  {
    hide Meet, First, Second, Fac1, Fac2, BlocksNear;
    var u, v := First(p, q, columns * BLOCK_SZ, rows * BLOCK_SZ, wrap), Second(p, q, columns * BLOCK_SZ, rows * BLOCK_SZ, wrap);
    MeetEndsNear(u, v, r, n * BLOCK_SZ);
    PixelsToBlocks(p, q, columns, rows, wrap, n);
  }

  /** Slow objects that are reported to collide end the frame at most n blocks apart. */
  lemma CollisionIsNear(p: Move, q: Move, r: int, columns: nat, rows: nat, wrap: bool, n: nat)
    requires OnMap(p, columns * BLOCK_SZ, rows * BLOCK_SZ) && OnMap(q, columns * BLOCK_SZ, rows * BLOCK_SZ)
    requires Collide(p, q, r, columns * BLOCK_SZ, rows * BLOCK_SZ, wrap)
    requires Slow(First(p, q, columns * BLOCK_SZ, rows * BLOCK_SZ, wrap), Second(p, q, columns * BLOCK_SZ, rows * BLOCK_SZ, wrap), r, n)
    ensures BlocksNear(p, q, columns, rows, wrap, n)
  {
    hide Meet, Hit, First, Second, Fac1, Fac2, BlocksNear, BotOf;
    var u, v := First(p, q, columns * BLOCK_SZ, rows * BLOCK_SZ, wrap), Second(p, q, columns * BLOCK_SZ, rows * BLOCK_SZ, wrap);
    if r * r + BotOf(u, v) <= n * BLOCK_SZ * (n * BLOCK_SZ) {
      HitEndsNear(u, v, r);
      RootBelow(u.x2 - v.x2, u.y2 - v.y2, n * BLOCK_SZ);
      PixelsToBlocks(p, q, columns, rows, wrap, n);
    } else {
      Exact(u, v, r);
      MeetIsNear(p, q, r, columns, rows, wrap, n);
    }
  }

  /** An object moves at most v pixels. */
  predicate Speed(p: Move, v: nat) {
    (p.x2 - p.x1) * (p.x2 - p.x1) + (p.y2 - p.y1) * (p.y2 - p.y1) <= v * v
  }

  lemma RelativeSpeed(p: Move, q: Move, v: nat)
    requires Speed(p, v) && Speed(q, v)
    ensures BotOf(p, q) <= 4 * (v * v)
  {
    var a, b, c, d := p.x2 - p.x1, p.y2 - p.y1, q.x2 - q.x1, q.y2 - q.y1;
    assert Fac1(p, q) == a - c && Fac2(p, q) == b - d;
    ParallelogramLaw(a, c);
    ParallelogramLaw(b, d);
  }

  lemma RangeSquared(r: int, bound: int)
    requires 0 <= r <= bound
    ensures r * r <= bound * bound
  {
    assert r * r <= bound * r;
  }

  /** At speeds up to 65 pixels a frame, and with ranges up to 51 pixels, everything is slow enough for four blocks. */
  lemma SpeedLimitIsSlow(p: Move, q: Move, r: int)
    requires Speed(p, 65) && Speed(q, 65) && 0 <= r <= 51
    ensures Slow(p, q, r, 4)
  {
    RelativeSpeed(p, q, 65);
    hide BotOf, Speed, Fac1, Fac2;
    RangeSquared(r, 51);
  }

  lemma ParallelogramLaw(a: int, b: int)
    ensures (a - b) * (a - b) <= 2 * (a * a) + 2 * (b * b)
  {
    assert (a + b) * (a + b) >= 0;
    assert (a - b) * (a - b) + (a + b) * (a + b) == 2 * (a * a) + 2 * (b * b);
  }

  /** A ball and a ship that fly past each other at 75 pixels a frame collide, and end the frame five blocks apart. */
  lemma FastEndsFar()
    ensures var p, q := Move(1010, 500, 1085, 500), Move(1010, 525, 935, 525);
            Collide(p, q, 26, 70 * BLOCK_SZ, 70 * BLOCK_SZ, true) && !BlocksNear(p, q, 70, 70, true, 4)
  {
    var p, q := Move(1010, 500, 1085, 500), Move(1010, 525, 935, 525);
    assert First(p, q, 70 * BLOCK_SZ, 70 * BLOCK_SZ, true) == p && Second(p, q, 70 * BLOCK_SZ, 70 * BLOCK_SZ, true) == q;
    assert TopOf(p, q) == BotOf(p, q) == 150 * 150;
    assert Back(p, q, 1.0) == 625.0;
  }

  /** At 65 pixels a frame they can come as near to each other as 20 pixels and end the frame five blocks apart. */
  lemma MeetingEndsFar()
    ensures var p, q := Move(1020, 500, 1085, 500), Move(1000, 500, 935, 500);
            Meet(p, q, 26) && !BlocksNear(p, q, 70, 70, true, 4)
  {
    var p, q := Move(1020, 500, 1085, 500), Move(1000, 500, 935, 500);
    assert DistanceSquared(p, q, 0.0) == 400.0;
  }
}
