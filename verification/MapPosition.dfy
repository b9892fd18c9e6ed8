/** Positions on the map: wrapping of coordinates (src/server/map.h) and the position record that keeps the
    same place in clicks, pixels and blocks (src/server/objpos.c). */
module MapPosition {
  import opened Numbers

  const CLICKS_IN_PIXEL := 64
  const BLOCK_SZ := 35

  function Gap(a: int, b: int): int { Abs(a - b) }

  // ----- Map_wrap_base -----

  /** The place on a ring of `limit` places that `val` comes round to. */
  function Around(val: int, limit: int): int
    requires limit > 0
  {
    val % limit
  }

  lemma WholeRounds(k: int, size: int)
    requires size > 0
    ensures k >= 1 ==> k * size >= size
    ensures k <= -1 ==> k * size <= 0 - size
    ensures k == 0 ==> k * size == 0
  {
    if k >= 1 { assert (k - 1) * size >= 0; }
    if k <= -1 { assert (-1 - k) * size >= 0; }
  }

  /** The residue of a number is the only representative of its class in range. */
  lemma Residue(val: int, q: int, m: int, limit: int)
    requires 0 <= m < limit && val == q * limit + m
    ensures Around(val, limit) == m
  {
    var k := val / limit - q;
    assert k * limit == m - val % limit;
    WholeRounds(k, limit);
  }

  lemma OneRound(val: int, limit: int)
    requires limit > 0
    ensures Around(val - limit, limit) == Around(val, limit) == Around(val + limit, limit)
  {
    var q, m := val / limit, val % limit;
    assert val == q * limit + m;
    Residue(val - limit, q - 1, m, limit);
    Residue(val + limit, q + 1, m, limit);
  }

  lemma InRange(val: int, limit: int)
    requires limit > 0
    ensures 0 <= Around(val, limit) < limit
    ensures 0 <= val < limit ==> Around(val, limit) == val
  {
    if 0 <= val < limit { Residue(val, 0, val, limit); }
  }

  /** With wrapping play the result is the place on the map that `val` comes round to; without it, the place
      on the map closest to `val`. */
  method WrapBase(val: int, limit: int, wrap: bool) returns (r: int)
    requires limit > 0
    ensures 0 <= r < limit
    ensures wrap ==> r == Around(val, limit)
    ensures !wrap ==> forall v :: 0 <= v < limit ==> Gap(r, val) <= Gap(v, val)
    ensures 0 <= val < limit ==> r == val
  {
    hide Around;
    r := val;
    if wrap {
      while r >= limit
        invariant Around(r, limit) == Around(val, limit)
        invariant r <= val && (val >= 0 ==> r >= 0) && (r < val ==> r >= 0)
      {
        OneRound(r, limit);
        r := r - limit;
      }
      while r < 0
        invariant r < limit && Around(r, limit) == Around(val, limit)
      {
        OneRound(r, limit);
        r := r + limit;
      }
      InRange(r, limit);
      InRange(val, limit);
    } else {
      if r >= limit { r := limit - 1; }
      if r < 0 { r := 0; }
    }
  }

  // ----- WRAP_DX, WRAP_DY -----

  /** A difference of two coordinates, taken the short way round. */
  function WrapDelta(d: int, size: int, wrap: bool): int {
    if wrap then
      if d < -(size / 2) then d + size else if d > size / 2 then d - size else d
    else d
  }

  /** The wrapped difference leads to the same place, and no other way of going there is shorter. */
  lemma ShortestWay(d: int, size: int, rounds: int)
    requires -size < d < size
    ensures var w := WrapDelta(d, size, true);
            w in {d - size, d, d + size} && Abs(w) <= Abs(d + rounds * size)
  {
    WholeRounds(rounds, size);
    ghost var way := rounds * size;
    assert way == 0 || way >= size || way <= 0 - size;
  }

  /** Distance between two coordinates, around the edge of the map if play wraps. */
  function Distance(a: int, b: int, size: int, wrap: bool): int {
    if wrap then Min(Gap(a, b), size - Gap(a, b)) else Gap(a, b)
  }

  lemma DeltaIsDistance(a: nat, b: nat, size: nat, wrap: bool)
    requires a < size && b < size
    ensures Abs(WrapDelta(a - b, size, wrap)) == Distance(a, b, size, wrap)
  {
  }

  // ----- Blocks and pixels -----

  /** Objects at most 35 r pixels apart along an axis are at most r blocks apart along it, also across the
      edge of the map: a query over r blocks in each direction misses nobody that close. */
  lemma BlocksCoverPixels(a: nat, b: nat, blocks: nat, r: nat, wrap: bool)
    requires a < blocks * BLOCK_SZ && b < blocks * BLOCK_SZ
    requires Distance(a, b, blocks * BLOCK_SZ, wrap) <= r * BLOCK_SZ
    ensures Distance(a / BLOCK_SZ, b / BLOCK_SZ, blocks, wrap) <= r
  {
  }

  /** A position in clicks, pixels and blocks. */
  class Position {
    var cx: nat
    var cy: nat
    var x: nat
    var y: nat
    var blockX: nat
    var blockY: nat

    /** The three units agree: a click lies in its pixel and the pixel in its block. */
    ghost predicate Agree()
      reads this
    {
      && x * CLICKS_IN_PIXEL <= cx < (x + 1) * CLICKS_IN_PIXEL && blockX * BLOCK_SZ <= x < (blockX + 1) * BLOCK_SZ
      && y * CLICKS_IN_PIXEL <= cy < (y + 1) * CLICKS_IN_PIXEL && blockY * BLOCK_SZ <= y < (blockY + 1) * BLOCK_SZ
    }

    /** Position_set on a map of width times height blocks, which is cwidth times cheight clicks: the block of
        the result is on the map. */
    method Set(clickX: int, clickY: int, width: int, height: int, cwidth: int, cheight: int, wrap: bool)
      requires width > 0 && height > 0
      requires cwidth == width * BLOCK_SZ * CLICKS_IN_PIXEL && cheight == height * BLOCK_SZ * CLICKS_IN_PIXEL
      modifies this
      ensures Agree() && blockX < width && blockY < height
      ensures wrap ==> cx == Around(clickX, cwidth) && cy == Around(clickY, cheight)
      ensures 0 <= clickX < cwidth ==> cx == clickX
      ensures 0 <= clickY < cheight ==> cy == clickY
    {
      hide Around, Gap;
      cx := WrapBase(clickX, cwidth, wrap);
      x := cx / CLICKS_IN_PIXEL;
      blockX := x / BLOCK_SZ;
      cy := WrapBase(clickY, cheight, wrap);
      y := cy / CLICKS_IN_PIXEL;
      blockY := y / BLOCK_SZ;
    }
  }
}
