/** Player identifiers (src/server/id.c): a ring of free identifiers with 32-bit counters that wrap around. */
module IdRing {
  import opened Counting

  const NUM_IDS := 256
  const WORD := 0x1_0000_0000

  /** Distinct identifiers without x among them are fewer than NUM_IDS. */
  lemma RoomFor(q: seq<int>, x: int)
    requires Distinct(q) && (forall k :: 0 <= k < |q| ==> 1 <= q[k] <= NUM_IDS) && 1 <= x <= NUM_IDS && x !in q
    ensures |q| < NUM_IDS
  {
    var shifted := seq(|q| + 1, k requires 0 <= k <= |q| => if k < |q| then q[k] - 1 else x - 1);
    forall i, j | 0 <= i < j < |shifted| ensures shifted[i] != shifted[j] {
      assert j == |q| ==> q[i] in q;
    }
    DistinctBelow(shifted, NUM_IDS);
  }

  /** Place k after counter c in the ring. */
  function Slot(c: int, k: int): int { (c + k) % NUM_IDS }

  /** The counters wrap at a multiple of the ring size, so that wrapping does not move the ring. */
  lemma AdvanceGet(get: int, put: int, next: int)
    requires 0 <= get < WORD && 0 <= put < WORD && get != put && next == (get + 1) % WORD
    ensures (put - next) % WORD == (put - get) % WORD - 1
    ensures forall k :: Slot(next, k) == Slot(get, k + 1)
  {
    assert next == get + 1 || (next == 0 && get + 1 == WORD);
    forall k ensures Slot(next, k) == Slot(get, k + 1) {
      if next == 0 { assert (get + k + 1) - (next + k) == 16777216 * NUM_IDS; }
    }
  }

  lemma AdvancePut(get: int, put: int)
    requires 0 <= get < WORD && 0 <= put < WORD && (put - get) % WORD < NUM_IDS
    ensures ((put + 1) % WORD - get) % WORD == (put - get) % WORD + 1
    ensures put % NUM_IDS == Slot(get, (put - get) % WORD)
    ensures forall k :: 0 <= k < (put - get) % WORD ==> Slot(get, k) != put % NUM_IDS
  {
    var c := (put - get) % WORD;
    assert put == get + c || put == get + c - WORD;
    assert put % NUM_IDS == Slot(get, c) by {
      if put == get + c - WORD { assert (get + c) - put == 16777216 * NUM_IDS; }
    }
    forall k | 0 <= k < c ensures Slot(get, k) != Slot(get, c) {
      assert 0 < (get + c) - (get + k) < NUM_IDS;
    }
  }

  class Ids {
    const queue: array<int>
    const inUse: array<int>
    var getId: nat
    var putId: nat
    /** The free identifiers in the order in which they will be handed out. */
    ghost var free: seq<int>

    ghost predicate Placed()
      reads this, queue
    {
      && queue.Length == NUM_IDS && getId < WORD && putId < WORD
      && |free| == (putId - getId) % WORD
      && forall k :: 0 <= k < |free| ==> queue[Slot(getId, k)] == free[k]
    }

    /** Every identifier is either free or in use, and no free one is listed twice. */
    ghost predicate Partition()
      reads this, inUse
    {
      && inUse.Length == NUM_IDS + 1 && Distinct(free)
      && (forall k :: 0 <= k < |free| ==> 1 <= free[k] <= NUM_IDS)
      && (forall id :: 1 <= id <= NUM_IDS ==> inUse[id] == if id in free then 0 else 1)
    }

    ghost predicate Valid()
      reads this, queue, inUse
    {
      Placed() && Partition() && |free| <= NUM_IDS && queue != inUse
    }

    /** The first call of init_ID. */
    constructor ()
      ensures Valid() && fresh(queue) && fresh(inUse)
      ensures |free| == NUM_IDS && forall k :: 0 <= k < NUM_IDS ==> free[k] == k + 1
    {
      queue := new int[NUM_IDS](i => i + 1);
      inUse := new int[NUM_IDS + 1](_ => 0);
      getId, putId := 0, NUM_IDS;
      free := seq(NUM_IDS, k => k + 1);
      new;
      forall id | 1 <= id <= NUM_IDS ensures id in free {
        assert free[id - 1] == id;
      }
    }

    /** The next identifier, or 0 if all are in use. */
    method Peek() returns (id: int)
      requires Valid()
      ensures id == if free == [] then 0 else free[0]
    {
      if getId == putId { return 0; }
      id := queue[getId % NUM_IDS];
      assert Slot(getId, 0) == getId % NUM_IDS;
    }

    method Request() returns (id: int)
      requires Valid()
      modifies this, inUse
      ensures Valid()
      ensures old(free) == [] ==> id == 0 && free == []
      ensures old(free) != [] ==> id == old(free[0]) && free == old(free)[1..] && inUse[id] == 1
      ensures forall k :: 0 <= k < inUse.Length && k != id ==> inUse[k] == old(inUse[k])
    {
      id := Peek();
      if id != 0 {
        AdvanceGet(getId, putId, (getId + 1) % WORD);
        hide Slot;
        getId := (getId + 1) % WORD;
        inUse[id] := 1;
        free := free[1..];
      }
    }

    lemma FreeFits(id: int)
      requires Valid() && 1 <= id <= NUM_IDS && inUse[id] == 1
      ensures |free| < NUM_IDS
    {
      RoomFor(free, id);
    }

    /** Gives an identifier back.  The server ends with an error unless the identifier is in use. */
    method Release(id: int) returns (ok: bool)
      requires Valid()
      modifies this, inUse, queue
      ensures Valid()
      ensures ok <==> 1 <= id <= NUM_IDS && old(inUse[id] == 1)
      ensures ok ==> free == old(free) + [id] && inUse[id] == 0
      ensures !ok ==> free == old(free)
      ensures forall k :: 0 <= k < inUse.Length && (!ok || k != id) ==> inUse[k] == old(inUse[k])
    {
      if (putId - getId) % WORD == NUM_IDS || id <= 0 || id > NUM_IDS || inUse[id] != 1 {
        if 1 <= id <= NUM_IDS && inUse[id] == 1 { FreeFits(id); }
        return false;
      }
      FreeFits(id);
      AdvancePut(getId, putId);
      hide Slot;
      queue[putId % NUM_IDS] := id;
      putId := (putId + 1) % WORD;
      inUse[id] := 0;
      free := free + [id];
      ok := true;
    }
  }
}
