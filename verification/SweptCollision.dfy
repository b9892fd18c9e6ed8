/** The collision test of src/server/collision.c for two objects that move during a frame, in coordinates that do not
    cross the edge of the map.  The code computes in double precision where this model computes in reals. */
module SweptCollision {

  /** Where an object was at the beginning of the frame and where it is at its end. */
  datatype Move = Move(x1: int, y1: int, x2: int, y2: int)

  function Square(v: real): real { v * v }

  /** Position of q as seen from p at moment s of the frame, from 0.0 to 1.0. */
  function OffsetX(p: Move, q: Move, s: real): real {
    (q.x1 - p.x1) as real + s * ((q.x2 - q.x1) - (p.x2 - p.x1)) as real
  }

  function OffsetY(p: Move, q: Move, s: real): real {
    (q.y1 - p.y1) as real + s * ((q.y2 - q.y1) - (p.y2 - p.y1)) as real
  }

  function DistanceSquared(p: Move, q: Move, s: real): real {
    Square(OffsetX(p, q, s)) + Square(OffsetY(p, q, s))
  }

  /** The objects come closer than r at some moment of the frame. */
  ghost predicate Meet(p: Move, q: Move, r: int) {
    exists s :: 0.0 <= s <= 1.0 && DistanceSquared(p, q, s) < (r * r) as real
  }

  // ----- What the code computes -----

  function Fac1(p: Move, q: Move): int { -p.x1 + p.x2 + q.x1 - q.x2 }
  function Fac2(p: Move, q: Move): int { -p.y1 + p.y2 + q.y1 - q.y2 }

  function EndSquared(p: Move, q: Move): int {
    (p.x2 - q.x2) * (p.x2 - q.x2) + (p.y2 - q.y2) * (p.y2 - q.y2)
  }

  function TopOf(p: Move, q: Move): int {
    -(Fac1(p, q) * (-p.x2 + q.x2) + Fac2(p, q) * (-p.y2 + q.y2))
  }

  function BotOf(p: Move, q: Move): int { Fac1(p, q) * Fac1(p, q) + Fac2(p, q) * Fac2(p, q) }

  /** The unwrapped part of Collision_occured. */
  method Occurred(p: Move, q: Move, r: int) returns (hit: bool)
    ensures hit ==> Meet(p, q, r)
    ensures Meet(p, q, r) ==> hit || MovingApart(p, q, r)
    ensures MovingApart(p, q, r) ==> Meet(p, q, r) && !hit
  {
    hide Meet, MovingApart, Hit, Back, EndSquared, TopOf, BotOf, Fac1, Fac2;
    Exact(p, q, r);
    Spelled(p, q, r);
    if (p.x2 - q.x2) * (p.x2 - q.x2) + (p.y2 - q.y2) * (p.y2 - q.y2) < r * r { return true; }
    var fac1 := -p.x1 + p.x2 + q.x1 - q.x2;
    var fac2 := -p.y1 + p.y2 + q.y1 - q.y2;
    var top := -(fac1 * (-p.x2 + q.x2) + fac2 * (-p.y2 + q.y2));
    var bot := fac1 * fac1 + fac2 * fac2;
    if top < 0 || bot < 1 || top > bot { return false; }
    var tmin := top as real / bot as real;
    BackSpelled(p, q, tmin);
    var fminx := (-p.x2 + q.x2) as real + fac1 as real * tmin;
    var fminy := (-p.y2 + q.y2) as real + fac2 as real * tmin;
    hit := fminx * fminx + fminy * fminy < (r * r) as real;
  }

  /** The parts of the test as the code spells them. */
  lemma Spelled(p: Move, q: Move, r: int)
    ensures EndSquared(p, q) == (p.x2 - q.x2) * (p.x2 - q.x2) + (p.y2 - q.y2) * (p.y2 - q.y2)
    ensures Fac1(p, q) == -p.x1 + p.x2 + q.x1 - q.x2 && Fac2(p, q) == -p.y1 + p.y2 + q.y1 - q.y2
    ensures TopOf(p, q) == -(Fac1(p, q) * (-p.x2 + q.x2) + Fac2(p, q) * (-p.y2 + q.y2))
    ensures BotOf(p, q) == Fac1(p, q) * Fac1(p, q) + Fac2(p, q) * Fac2(p, q)
    ensures Hit(p, q, r) <==>
      || EndSquared(p, q) < r * r
      || (0 <= TopOf(p, q) <= BotOf(p, q) && BotOf(p, q) >= 1
          && Back(p, q, TopOf(p, q) as real / BotOf(p, q) as real) < (r * r) as real)
  {
    hide Back;
  }

  lemma BackSpelled(p: Move, q: Move, t: real)
    ensures var x, y := (-p.x2 + q.x2) as real + Fac1(p, q) as real * t, (-p.y2 + q.y2) as real + Fac2(p, q) as real * t;
            Back(p, q, t) == x * x + y * y
  {
  }

  /** Squared distance at the moment t before the end of the frame, as the code computes it. */
  function Back(p: Move, q: Move, t: real): real {
    Square((-p.x2 + q.x2) as real + Fac1(p, q) as real * t) + Square((-p.y2 + q.y2) as real + Fac2(p, q) as real * t)
  }

  predicate Hit(p: Move, q: Move, r: int) {
    || EndSquared(p, q) < r * r
    || (0 <= TopOf(p, q) <= BotOf(p, q) && BotOf(p, q) >= 1
        && Back(p, q, TopOf(p, q) as real / BotOf(p, q) as real) < (r * r) as real)
  }

  /** The objects were closer than r only at the beginning and have been moving apart ever since: the distance
      at the beginning is below r, at the end it is not, and going back from the end the closest approach lies
      before the beginning of the frame. */
  predicate MovingApart(p: Move, q: Move, r: int) {
    && EndSquared(p, q) >= r * r && TopOf(p, q) > BotOf(p, q)
    && (p.x1 - q.x1) * (p.x1 - q.x1) + (p.y1 - q.y1) * (p.y1 - q.y1) < r * r
  }

  // ----- The distance as a parabola -----

  lemma BackIsDistance(p: Move, q: Move, s: real)
    ensures DistanceSquared(p, q, s) == Back(p, q, 1.0 - s)
  {
    Reverse((q.x1 - p.x1) as real, Fac1(p, q) as real, s);
    Reverse((q.y1 - p.y1) as real, Fac2(p, q) as real, s);
  }

  lemma Reverse(a: real, f: real, s: real)
    ensures a + s * -f == a - f + f * (1.0 - s)
  {
  }

  lemma Expand(e: real, f: real, t: real)
    ensures Square(-e + f * t) == e * e - 2.0 * (t * (f * e)) + t * t * (f * f)
  {
    var g := f * t;
    assert Square(-e + g) == e * e - 2.0 * (e * g) + g * g;
    assert e * g == t * (f * e);
    assert g * g == t * t * (f * f);
  }

  lemma Parabola(p: Move, q: Move, t: real)
    ensures Back(p, q, t) == EndSquared(p, q) as real - 2.0 * (t * TopOf(p, q) as real) + t * t * BotOf(p, q) as real
  {
    var ex, ey, fx, fy := p.x2 - q.x2, p.y2 - q.y2, Fac1(p, q), Fac2(p, q);
    Expand(ex as real, fx as real, t);
    Expand(ey as real, fy as real, t);
    Pairs(ex as real, ey as real, fx as real, fy as real, t);
    assert (ex * ex + ey * ey) as real == ex as real * ex as real + ey as real * ey as real;
    assert TopOf(p, q) == fx * ex + fy * ey;
    assert (fx * ex + fy * ey) as real == fx as real * ex as real + fy as real * ey as real;
    assert (fx * fx + fy * fy) as real == fx as real * fx as real + fy as real * fy as real;
  }

  lemma Pairs(ex: real, ey: real, fx: real, fy: real, t: real)
    ensures t * (fx * ex + fy * ey) == t * (fx * ex) + t * (fy * ey)
    ensures t * t * (fx * fx + fy * fy) == t * t * (fx * fx) + t * t * (fy * fy)
  {
  }

  /** A parabola seen from its lowest point. */
  lemma FromVertex(a: real, b: real, c: real, v: real, t: real)
    requires b == c * v
    ensures a - 2.0 * (t * b) + t * t * c == a - v * v * c + (t - v) * (t - v) * c
  {
    assert t * b == t * v * c;
    var u := t - v;
    assert u * u == t * t - 2.0 * (t * v) + v * v;
    assert (t * t - 2.0 * (t * v) + v * v) * c == t * t * c - 2.0 * (t * v) * c + v * v * c;
  }

  lemma SquaresOrdered(c: real, x: real, y: real)
    requires c > 0.0
    ensures 0.0 <= x <= y ==> x * x * c <= y * y * c
    ensures y <= x <= 0.0 ==> x * x * c <= y * y * c
    ensures x * x * c >= 0.0
  {
    if 0.0 <= x <= y || y <= x <= 0.0 { assert x * x <= y * y; }
    Monotone(x * x, y * y, c);
    assert x * x >= 0.0;
  }

  lemma Monotone(x: real, y: real, c: real)
    requires c > 0.0
    ensures x <= y ==> x * c <= y * c
    ensures x >= 0.0 ==> x * c >= 0.0
  {
  }

  /** On the way back from the end of the frame the distance is a parabola: if it goes below some level between
      its two ends, and both ends are at or above that level, its lowest point lies between them. */
  lemma Dip(a: real, b: real, c: real, t: real, level: real)
    requires c > 0.0 && 0.0 <= t <= 1.0
    requires a >= level && a - 2.0 * (t * b) + t * t * c < level
    ensures b > 0.0 && a - 2.0 * (b / c * b) + b / c * (b / c) * c < level
    ensures a - 2.0 * b + c >= level ==> b < c
  {
    var v := b / c;
    assert b == c * v;
    FromVertex(a, b, c, v, t);
    FromVertex(a, b, c, v, 0.0);
    FromVertex(a, b, c, v, 1.0);
    FromVertex(a, b, c, v, v);
    SquaresOrdered(c, t - v, 0.0);
    if v <= 0.0 { SquaresOrdered(c, 0.0 - v, t - v); }
    if v >= 1.0 { SquaresOrdered(c, 1.0 - v, t - v); }
    Sign(c, v);
  }

  lemma Sign(c: real, v: real)
    requires c > 0.0
    ensures v > 0.0 ==> c * v > 0.0
    ensures v < 1.0 ==> c * v < c
  {
  }

  // ----- Exactness -----

  lemma MeetBack(p: Move, q: Move, r: int, t: real)
    requires 0.0 <= t <= 1.0 && Back(p, q, t) < (r * r) as real
    ensures Meet(p, q, r)
  {
    BackIsDistance(p, q, 1.0 - t);
    assert DistanceSquared(p, q, 1.0 - t) < (r * r) as real;
  }

  lemma AtEnd(p: Move, q: Move)
    ensures Back(p, q, 0.0) == EndSquared(p, q) as real
  {
    Parabola(p, q, 0.0);
  }

  lemma AtStart(p: Move, q: Move)
    ensures Back(p, q, 1.0) == ((p.x1 - q.x1) * (p.x1 - q.x1) + (p.y1 - q.y1) * (p.y1 - q.y1)) as real
    ensures Back(p, q, 1.0) == EndSquared(p, q) as real - 2.0 * TopOf(p, q) as real + BotOf(p, q) as real
  {
    Parabola(p, q, 1.0);
    var dx, dy := p.x1 - q.x1, p.y1 - q.y1;
    assert (-p.x2 + q.x2) as real + Fac1(p, q) as real * 1.0 == (-dx) as real;
    assert (-p.y2 + q.y2) as real + Fac2(p, q) as real * 1.0 == (-dy) as real;
    assert Square((-dx) as real) == (dx * dx) as real;
    assert Square((-dy) as real) == (dy * dy) as real;
  }

  lemma Fraction(top: int, bot: int)
    requires 0 <= top <= bot && bot >= 1
    ensures 0.0 <= top as real / bot as real <= 1.0
  {
  }

  lemma HitsMeet(p: Move, q: Move, r: int)
    requires Hit(p, q, r)
    ensures Meet(p, q, r)
  {
    AtEnd(p, q);
    if EndSquared(p, q) < r * r {
      MeetBack(p, q, r, 0.0);
    } else {
      Fraction(TopOf(p, q), BotOf(p, q));
      MeetBack(p, q, r, TopOf(p, q) as real / BotOf(p, q) as real);
    }
  }

  lemma NoMotion(p: Move, q: Move)
    ensures BotOf(p, q) >= 0
    ensures BotOf(p, q) == 0 ==> TopOf(p, q) == 0
  {
    var f1, f2 := Fac1(p, q), Fac2(p, q);
    assert f1 * f1 >= 0 && f2 * f2 >= 0;
    if f1 != 0 { assert f1 * f1 >= 1; }
    if f2 != 0 { assert f2 * f2 >= 1; }
  }

  lemma Still(p: Move, q: Move, t: real)
    ensures BotOf(p, q) == 0 ==> Back(p, q, t) == EndSquared(p, q) as real
  {
    NoMotion(p, q);
    Parabola(p, q, t);
    if BotOf(p, q) == 0 {
      var zero := BotOf(p, q) as real;
      assert t * zero == 0.0;
    }
  }

  lemma MeetingsAreHits(p: Move, q: Move, r: int)
    requires Meet(p, q, r) && !Hit(p, q, r)
    ensures MovingApart(p, q, r)
  {
    var s :| 0.0 <= s <= 1.0 && DistanceSquared(p, q, s) < (r * r) as real;
    var t := 1.0 - s;
    BackIsDistance(p, q, s);
    Parabola(p, q, t);
    NoMotion(p, q);
    Still(p, q, t);
    var a, b, c, level := EndSquared(p, q) as real, TopOf(p, q) as real, BotOf(p, q) as real, (r * r) as real;
    if BotOf(p, q) == 0 { assert false; }
    Dip(a, b, c, t, level);
    Parabola(p, q, b / c);
    AtStart(p, q);
  }

  lemma LeavingMeets(p: Move, q: Move, r: int)
    requires MovingApart(p, q, r)
    ensures Meet(p, q, r) && !Hit(p, q, r)
  {
    hide Back, Meet;
    AtStart(p, q);
    MeetBack(p, q, r, 1.0);
  }

  /** The test says yes exactly if the objects meet during the frame, except when they only begin it too close to
      each other and move apart.  In particular, objects that begin the frame at least r apart are found exactly
      when they meet. */
  lemma Exact(p: Move, q: Move, r: int)
    ensures Hit(p, q, r) ==> Meet(p, q, r)
    ensures Meet(p, q, r) ==> Hit(p, q, r) || MovingApart(p, q, r)
    ensures MovingApart(p, q, r) ==> Meet(p, q, r) && !Hit(p, q, r)
  {
    hide Hit, Meet, MovingApart;
    if Hit(p, q, r) { HitsMeet(p, q, r); }
    if Meet(p, q, r) && !Hit(p, q, r) { MeetingsAreHits(p, q, r); }
    if MovingApart(p, q, r) { LeavingMeets(p, q, r); }
  }

  /** An object that starts one pixel away from another at rest and leaves it by ten pixels is not reported, although
      the two begin the frame closer than 5 pixels. */
  lemma LeavingIsMissed()
    ensures Meet(Move(1, 0, 11, 0), Move(0, 0, 0, 0), 5) && !Hit(Move(1, 0, 11, 0), Move(0, 0, 0, 0), 5)
  {
    hide Meet, Hit;
    LeavingMeets(Move(1, 0, 11, 0), Move(0, 0, 0, 0), 5);
  }
}
