/** The object table of src/server/object.c with the operations of src/server/shot.c and src/server/collision.c
    that fire shots and that add, attach, detach and time out balls.  Treasures are numbered. */
module ObjectPool {
  import opened Entities
  import opened Counting

  const MAX_OBJECT_LIFE := 2147483647

  /** The conversion of a distance to an integer. */
  function Truncated(r: real): int { if r >= 0.0 then r.Floor else -(-r).Floor }

  /** The sequence with its last element moved to place ind. */
  function SwapOutAt<T>(s: seq<T>, ind: nat): seq<T>
    requires ind < |s|
  {
    s[ind := s[|s| - 1]][..|s| - 1]
  }

  lemma SwapOutPlayer<T>(s: seq<T>, ind: nat)
    requires Distinct(s) && ind < |s|
    ensures var r := SwapOutAt(s, ind);
            s[ind] !in r && (forall x :: x in r ==> x in s) && forall x :: x in s && x != s[ind] ==> x in r
  {
    var r := SwapOutAt(s, ind);
    forall x | x in s && x != s[ind] ensures x in r {
      var k :| 0 <= k < |s| && s[k] == x;
      assert r[if k == |s| - 1 then ind else k] == x;
    }
  }

  // ----- What a timeout sweep does -----

  /** Everything about an object but its place in the table. */
  datatype Look = Out
                | InUse(kind: ObjectType, life: int, owner: Player?, treasure: int, attached: bool,
                        looseCount: int, looseTicks: int, boxed: bool)

  /** Sparks and debris age only in real frames (`tick`), not in interpolated ones. */
  predicate Ages(kind: ObjectType, tick: bool) { tick || (kind != Spark && kind != Debris) }

  /** What one sweep does to an object: if it ages, its life gets shorter by one; when its time is up it goes
      out of use, but a ball comes back as a new ball in the box of the same treasure. */
  ghost predicate Turned(a: Look, b: Look, tick: bool) {
    if a.Out? then b.Out?
    else if !Ages(a.kind, tick) then b == a
    else if a.life > 1 then
      var loose := a.kind == Ball && !a.boxed;
      b == a.(life := a.life - 1,
              looseCount := a.looseCount + (if loose then 1 else 0),
              looseTicks := a.looseTicks + (if loose && tick then 1 else 0))
    else if a.kind == Ball then
      b == InUse(Ball, MAX_OBJECT_LIFE, null, a.treasure, false, 0, 0, true)
    else b.Out?
  }

  /** How many of the sweeps count for an object: all of them, but for sparks and debris only those in real frames. */
  function Counted(kind: ObjectType, ticks: seq<bool>): nat {
    if ticks == [] then 0
    else Counted(kind, ticks[..|ticks| - 1]) + if ticks[|ticks| - 1] || (kind != Spark && kind != Debris) then 1 else 0
  }

  /** looks[k + 1] is what the k-th sweep makes of looks[k]. */
  ghost predicate SweepRun(looks: seq<Look>, ticks: seq<bool>) {
    |looks| == |ticks| + 1 && forall k :: 0 <= k < |ticks| ==> Turned(looks[k], looks[k + 1], ticks[k])
  }

  /** An object that nothing else touches lives for exactly as many sweeps that count as its life says, and is then out of
      use for good.  Nothing but its life changes. */
  lemma {:induction false} LivesItsLife(looks: seq<Look>, ticks: seq<bool>)
    requires SweepRun(looks, ticks) && looks[0].InUse? && looks[0].kind != Ball && looks[0].life > 0
    ensures var n := Counted(looks[0].kind, ticks);
            looks[|ticks|] == if n < looks[0].life then looks[0].(life := looks[0].life - n) else Out
    decreases |ticks|
  {
    if ticks != [] {
      var n := |ticks| - 1;
      var before := looks[..n + 1];
      assert SweepRun(before, ticks[..n]);
      LivesItsLife(before, ticks[..n]);
      assert before[n] == looks[n];
    }
  }

  /** A ball lives on: when its time is up there is a new one in the box of the same treasure, which nobody owns and which
      is as good as everlasting.  While it is out of its box the sweeps are counted, those in real frames apart. */
  lemma {:induction false} BallsLiveOn(looks: seq<Look>, ticks: seq<bool>)
    requires SweepRun(looks, ticks) && looks[0].InUse? && looks[0].kind == Ball && looks[0].life > |ticks|
    ensures looks[|ticks|] == looks[0].(life := looks[0].life - |ticks|,
                                        looseCount := looks[0].looseCount + (if looks[0].boxed then 0 else |ticks|),
                                        looseTicks := looks[0].looseTicks + (if looks[0].boxed then 0 else Counted(Spark, ticks)))
    ensures forall after, tick :: looks[0].life == |ticks| + 1 && Turned(looks[|ticks|], after, tick) ==>
              after == InUse(Ball, 2147483647, null, looks[0].treasure, false, 0, 0, true)
    decreases |ticks|
  {
    if ticks != [] {
      var n := |ticks| - 1;
      var before := looks[..n + 1];
      assert SweepRun(before, ticks[..n]);
      BallsLiveOn(before, ticks[..n]);
      assert before[n] == looks[n];
    }
  }

  lemma OutStaysOut(tick: bool)
    ensures Turned(Out, Out, tick)
  {
  }

  /** The ball a player reaches for, and whether his connector is on. */
  datatype Hand = Hand(ball: GameObject?, connector: bool)

  datatype Parting = Stays | Parts(place: int, attached: bool)

  class Pool {
    const obj: array<GameObject>
    const have: array<bool>
    const teamOf: seq<int>
    var numObjs: nat
    var players: seq<Player>

    /** All objects, in use or not. */
    ghost const objects: set<GameObject>
    /** The treasures that own a ball, and their balls. */
    ghost var kept: set<nat>
    ghost var ballOf: map<nat, GameObject>

    /** The table is a permutation of the objects, and every object knows its place in it. */
    ghost predicate Sound()
      reads this`numObjs, obj, objects`id
    {
      && obj.Length == MAX_TOTAL_OBJECTS && numObjs <= MAX_TOTAL_OBJECTS && have.Length == |teamOf|
      && (forall i :: 0 <= i < obj.Length ==> obj[i] in objects && obj[i].id == i)
      && (forall o :: o in objects ==> 0 <= o.id < MAX_TOTAL_OBJECTS && obj[o.id] == o)
    }

    /** The objects in use are those before position numObjs. */
    ghost predicate Live(o: GameObject)
      reads this`numObjs, o`id
    {
      o.id < numObjs
    }

    ghost predicate IsBall(o: GameObject)
      reads this`numObjs, o`id, o`kind
    {
      o in objects && Live(o) && o.kind == Ball
    }

    /** Every treasure in `kept` has exactly one ball, and there are no other balls. */
    ghost predicate BallsKept()
      reads this`numObjs, this`kept, this`ballOf, objects`id, objects`kind, objects`treasure
    {
      && ballOf.Keys == kept
      && (forall t :: t in kept ==> t < |teamOf| && ballOf[t] in objects && IsBall(ballOf[t]) && ballOf[t].treasure == t)
      && (forall o :: o in objects && IsBall(o) ==> o.treasure in kept && ballOf[o.treasure] == o)
    }

    /** A ball in its box is not attached. */
    ghost predicate BoxedFree()
      reads this`kept, this`ballOf, have, objects`attached
    {
      have.Length == |teamOf| && ballOf.Keys == kept && forall t :: t in kept && t < have.Length && have[t] ==>
        ballOf[t] in objects && !ballOf[t].attached
    }

    ghost predicate CarriedBy(o: GameObject, pl: Player)
      reads this`numObjs, o`id, o`kind, o`attached, o`owner
    {
      IsBall(o) && o.attached && o.owner == pl
    }

    /** Every attached ball has a player, and exactly the players with an attached ball have HAS_BALL. */
    ghost predicate Carried()
      reads this`numObjs, this`players, objects`id, objects`kind, objects`attached, objects`owner, players`hasBall
    {
      && (forall o :: o in objects && IsBall(o) && o.attached ==> o.owner != null && o.owner in players)
      && (forall pl :: pl in players ==> (pl.hasBall <==> exists o :: o in objects && CarriedBy(o, pl)))
    }

    /** A player who is about to attach a ball points at a ball in use, or at `except`. */
    ghost predicate Reaching(except: GameObject?)
      reads this`numObjs, this`players, objects`id, objects`kind, players`ballTmp
    {
      forall pl :: pl in players && pl.ballTmp != null && pl.ballTmp != except ==>
        pl.ballTmp in objects && IsBall(pl.ballTmp)
    }

    /** Owners of objects in use are in the game. */
    ghost predicate Owned()
      reads this`numObjs, this`players, objects`id, objects`owner
    {
      forall o :: o in objects && Live(o) && o.owner != null ==> o.owner in players
    }

    ghost function ShotsOf(pl: Player): set<GameObject>
      reads this`numObjs, objects`id, objects`kind, objects`owner
    {
      set o | o in objects && Live(o) && o.kind == Shot && o.owner == pl
    }

    /** The shot counter of a player is the number of shots of his in use. */
    ghost predicate ShotsCounted()
      reads this`numObjs, this`players, objects`id, objects`kind, objects`owner, players`shots
    {
      forall pl :: pl in players ==> pl.shots == |ShotsOf(pl)|
    }

    /** Everything except that one player may be reaching for the unused object `except`. */
    ghost predicate ValidBut(except: GameObject?)
      reads this, obj, have, objects`id, objects`kind, objects`attached, objects`owner, objects`treasure
      reads players`hasBall, players`ballTmp, players`shots
    {
      Sound() && BallsKept() && BoxedFree() && Carried() && Owned() && Reaching(except) && ShotsCounted()
    }

    ghost predicate Valid()
      reads this, obj, have, objects`id, objects`kind, objects`attached, objects`owner, objects`treasure
      reads players`hasBall, players`ballTmp, players`shots
    {
      ValidBut(null)
    }

    twostate predicate Same(o: GameObject)
      reads this`numObjs, o
    {
      && (Live(o) <==> old(Live(o))) && o.kind == old(o.kind) && o.life == old(o.life) && o.owner == old(o.owner)
      && o.treasure == old(o.treasure) && o.attached == old(o.attached)
      && o.looseCount == old(o.looseCount) && o.looseTicks == old(o.looseTicks)
    }

    /** All objects except o are as before, up to their place in the table. */
    twostate predicate OnlyTouched(o: GameObject)
      reads this`numObjs, objects
    {
      forall p :: p in objects && p != o ==> Same(p)
    }

    // ----- Shots_allocate -----

    /** A new table has all its objects unused. */
    constructor (teamOf: seq<int>)
      ensures Valid() && numObjs == 0 && players == [] && kept == {} && this.teamOf == teamOf
      ensures fresh(obj) && fresh(have) && fresh(objects)
    {
      var first := new GameObject(0);
      var table := new GameObject[MAX_TOTAL_OBJECTS](_ => first);
      ghost var made: set<GameObject> := {first};
      for i := 1 to MAX_TOTAL_OBJECTS
        invariant fresh(table) && fresh(made) && table.Length == MAX_TOTAL_OBJECTS
        invariant forall k :: 0 <= k < i ==> table[k] in made && table[k].id == k
        invariant forall o :: o in made ==> 0 <= o.id < i && table[o.id] == o
      {
        var o := new GameObject(i);
        table[i] := o;
        made := made + {o};
      }
      obj, objects, have, numObjs, players := table, made, new bool[|teamOf|](_ => false), 0, [];
      this.teamOf, kept, ballOf := teamOf, {}, map[];
    }

    /** At the start of a team game every treasure with a team gets its ball. */
    method PlaceBalls()
      requires Valid() && numObjs == 0 && kept == {}
      modifies this`numObjs, this`kept, this`ballOf, have
      modifies objects`life, objects`owner, objects`kind, objects`attached, objects`treasure
      ensures Valid()
      ensures |teamOf| <= MAX_TOTAL_OBJECTS ==> kept == set t: nat | t < |teamOf| && teamOf[t] >= 0
    {
      hide ValidBut;
      for i := 0 to |teamOf|
        invariant Valid() && numObjs <= i
        invariant |teamOf| <= MAX_TOTAL_OBJECTS ==> kept == set t: nat | t < i && teamOf[t] >= 0
        invariant forall t :: t in kept ==> t < i
      {
        if teamOf[i] >= 0 {
          ReachAny(if obj.Length > numObjs then obj[numObjs] else null);
          var ball := BallTreasureAdd(i);
        }
      }
    }

    lemma ReachAny(except: GameObject?)
      requires Valid()
      ensures ValidBut(except)
    {
    }

    lemma ReachMore(except: GameObject)
      ensures Valid() || ValidBut(except) ==> ValidBut(except)
    {
    }

    // ----- Object_add -----

    /** Hands out the first unused object. */
    method ObjectAdd() returns (o: GameObject?)
      requires Sound()
      modifies this`numObjs
      ensures Sound()
      ensures o == null <==> old(numObjs) == MAX_TOTAL_OBJECTS
      ensures o == null ==> numObjs == old(numObjs)
      ensures o != null ==> o in objects && o == obj[old(numObjs)] && o.id == old(numObjs) && numObjs == old(numObjs) + 1
    {
      if numObjs >= MAX_TOTAL_OBJECTS { return null; }
      o := obj[numObjs];
      numObjs := numObjs + 1;
    }

    // ----- Ball_detach -----

    /** The balls that Ball_detach lets go of. */
    ghost predicate LetGo(o: GameObject, pl: Player, ball: GameObject?)
      reads this`numObjs, o`id, o`kind, o`attached, o`owner
    {
      CarriedBy(o, pl) && (ball == null || ball == o)
    }

    ghost predicate HoldsOne(pl: Player)
      reads this`numObjs, objects`id, objects`kind, objects`attached, objects`owner
    {
      exists o :: o in objects && CarriedBy(o, pl)
    }

    /** Detaches balls, and counts those the player still holds. */
    method DetachBalls(pl: Player, ball: GameObject?) returns (cnt: nat)
      requires Sound()
      modifies objects`attached
      ensures forall o :: o in objects ==> o.attached == (old(o.attached) && !old(LetGo(o, pl, ball)))
      ensures cnt > 0 <==> HoldsOne(pl)
    {
      cnt := 0;
      for i := 0 to numObjs
        invariant forall o :: o in objects ==> o.attached == (old(o.attached) && !(o.id < i && old(LetGo(o, pl, ball))))
        invariant cnt > 0 <==> exists o :: o in objects && o.id < i && CarriedBy(o, pl)
      {
        if obj[i].kind == Ball && obj[i].attached && obj[i].owner == pl {
          if ball == null || ball == obj[i] {
            obj[i].attached := false;
          } else {
            cnt := cnt + 1;
          }
        }
      }
    }

    /** Lets go of one ball, or of all balls if `ball` is null.  The owner is kept so that balls can be thrown. */
    method BallDetach(pl: Player, ball: GameObject?)
      requires Sound() && Carried() && pl in players
      modifies pl`ballTmp, pl`usesConnector, pl`hasBall, objects`attached
      ensures Carried()
      ensures forall o :: o in objects ==> o.attached == (old(o.attached) && !old(LetGo(o, pl, ball)))
      ensures old(ball == null || ball == pl.ballTmp) ==> pl.ballTmp == null && !pl.usesConnector
      ensures old(ball != null && ball != pl.ballTmp) ==> pl.ballTmp == old(pl.ballTmp) && pl.usesConnector == old(pl.usesConnector)
      ensures ball == null ==> !pl.hasBall
      ensures old(Valid()) ==> Valid()
    {
      hide Sound, Carried, HoldsOne, ValidBut;
      if ball == null || ball == pl.ballTmp {
        pl.ballTmp := null;
        pl.usesConnector := false;
      }
      HoldsFlag(pl);
      if pl.hasBall {
        var cnt := DetachBalls(pl, ball);
        if cnt == 0 {
          pl.hasBall := false;
        }
      }
      DetachedCarried(pl);
      if ball == null { HoldsNothing(pl); }
      if old(Valid()) { DetachedValid(); }
    }

    twostate lemma DetachedValid()
      requires old(Valid()) && Carried() && players == old(players) && numObjs == old(numObjs)
      requires kept == old(kept) && ballOf == old(ballOf)
      requires forall k :: 0 <= k < obj.Length ==> obj[k] == old(obj[k])
      requires forall t :: 0 <= t < have.Length ==> have[t] == old(have[t])
      requires forall o :: o in objects ==> o.id == old(o.id) && o.kind == old(o.kind) && o.owner == old(o.owner)
      requires forall o :: o in objects ==> o.treasure == old(o.treasure) && (o.attached ==> old(o.attached))
      requires forall p :: p in players ==> p.shots == old(p.shots) && (p.ballTmp == null || p.ballTmp == old(p.ballTmp))
      ensures Valid()
    {
      hide Carried;
      forall pl | pl in players ensures ShotsOf(pl) == old(ShotsOf(pl)) {
      }
    }

    lemma HoldsFlag(pl: Player)
      requires Carried() && pl in players
      ensures pl.hasBall <==> HoldsOne(pl)
      ensures !pl.hasBall ==> forall o :: o in objects ==> !CarriedBy(o, pl)
    {
    }

    lemma HoldsNothing(pl: Player)
      requires forall o :: o in objects ==> !CarriedBy(o, pl)
      ensures !HoldsOne(pl)
    {
    }

    twostate lemma DetachedCarried(pl: Player)
      requires old(Carried()) && players == old(players) && numObjs == old(numObjs) && pl in players
      requires forall o :: o in objects ==> o.id == old(o.id) && o.kind == old(o.kind) && o.owner == old(o.owner)
      requires forall o :: o in objects && o.attached != old(o.attached) ==> old(CarriedBy(o, pl)) && !o.attached
      requires forall p :: p in players && p != pl ==> p.hasBall == old(p.hasBall)
      requires pl.hasBall == HoldsOne(pl)
      ensures Carried()
    {
      forall p | p in players && p.hasBall && p != pl ensures exists o :: o in objects && CarriedBy(o, p) {
        var o :| o in objects && old(CarriedBy(o, p));
        assert CarriedBy(o, p);
      }
      forall p, o | p in players && o in objects && CarriedBy(o, p) ensures p.hasBall {
        assert old(CarriedBy(o, p));
      }
    }

    // ----- Object_remove -----

    /** Exactly the players who were reaching for o have stopped, but if it was attached only its owner, whose
        connector is off then; with null, nobody. */
    twostate predicate StringsCut(o: GameObject?)
      reads this`players, players`ballTmp, players`usesConnector
    {
      players == old(players) && forall pl :: pl in players ==>
        && pl.ballTmp == (if o != null && old(pl.ballTmp == o && (!o.attached || o.owner == pl)) then null else old(pl.ballTmp))
        && pl.usesConnector == (old(pl.usesConnector) && !(o != null && old(pl.ballTmp == o && o.attached && o.owner == pl)))
    }

    /** Another player is reaching for an attached ball. */
    ghost predicate Contested(o: GameObject)
      reads this`players, players`ballTmp, o`attached, o`owner
    {
      o.attached && exists pl :: pl in players && pl != o.owner && pl.ballTmp == o
    }

    ghost predicate NobodyReaches(o: GameObject)
      reads this`players, players`ballTmp
    {
      forall pl :: pl in players ==> pl.ballTmp != o
    }

    /** Whoever was reaching for the object stops. */
    method StopReaching(o: GameObject)
      requires Reaching(null)
      modifies players`ballTmp
      ensures Reaching(null) && forall pl :: pl in players ==> pl.ballTmp == if old(pl.ballTmp) == o then null else old(pl.ballTmp)
    {
      for i := 0 to |players|
        invariant forall pl :: pl in players ==>
          pl.ballTmp == old(pl.ballTmp) || (pl.ballTmp == null && old(pl.ballTmp) == o)
        invariant forall k :: 0 <= k < i ==> players[k].ballTmp != o
      {
        if players[i].ballTmp == o {
          players[i].ballTmp := null;
        }
      }
    }

    /** Nobody holds the ball or the string to it any more, except other players still reaching for a ball
        that its owner held. */
    method ForgetBall(o: GameObject)
      requires Sound() && Carried() && Reaching(null) && o in objects && IsBall(o) && 0 <= o.treasure < have.Length
      modifies players`ballTmp, players`usesConnector, players`hasBall, objects`attached, have
      ensures Carried() && Reaching(null)
      ensures StringsCut(o) && (NobodyReaches(o) <==> !old(Contested(o)))
      ensures !o.attached && OnlyTouched(o) && Live(o)
      ensures !have[o.treasure]
      ensures forall t :: 0 <= t < have.Length && t != o.treasure ==> have[t] == old(have[t])
    {
      hide Sound, Carried, Reaching, HoldsOne;
      if o.attached {
        CarriedOwner(o);
        BallDetach(o.owner, o);
        ReachingLess();
      } else {
        StopReaching(o);
      }
      have[o.treasure] := false;
    }

    lemma CarriedOwner(o: GameObject)
      requires Carried() && o in objects && IsBall(o) && o.attached
      ensures o.owner != null && o.owner in players
    {
    }

    twostate lemma ReachingLess()
      requires old(Reaching(null)) && players == old(players) && numObjs == old(numObjs)
      requires forall o :: o in objects ==> o.id == old(o.id) && o.kind == old(o.kind)
      requires forall pl :: pl in players ==> pl.ballTmp == null || pl.ballTmp == old(pl.ballTmp)
      ensures Reaching(null)
    {
    }

    /** The swap with the last object in use. */
    method SwapOut(o: GameObject)
      requires Sound() && o in objects && Live(o)
      modifies this`numObjs, obj, objects`id
      ensures Sound() && numObjs == old(numObjs) - 1 && obj[numObjs] == o
      ensures forall p :: p in objects && p != o ==> (Live(p) <==> old(Live(p)))
      ensures forall k :: 0 <= k < old(o.id) ==> obj[k] == old(obj[k])
    {
      numObjs := numObjs - 1;
      var last := obj[numObjs];
      obj[o.id] := obj[numObjs];
      obj[numObjs] := o;
      obj[o.id].id := o.id;
      obj[numObjs].id := numObjs;
    }

    method Wipe(o: GameObject)
      modifies o
      ensures o.id == old(o.id)
      ensures o.kind == NoType && o.life == 0 && o.owner == null && !o.attached && o.treasure == -1
      ensures o.looseCount == o.looseTicks == 0
    {
      o.kind, o.life, o.owner, o.attached, o.treasure := NoType, 0, null, false, -1;
      o.looseCount, o.looseTicks, o.blockX, o.blockY, o.cellPrev, o.cellNext := 0, 0, 0, 0, null, null;
    }

    /** Swaps o with the last object in use and wipes it. */
    method Unlink(o: GameObject)
      requires Sound() && o in objects && Live(o)
      modifies this`numObjs, obj, objects`id, o
      ensures Sound() && OnlyTouched(o) && numObjs == old(numObjs) - 1
      ensures obj[numObjs] == o && !Live(o)
      ensures forall k :: 0 <= k < old(o.id) ==> obj[k] == old(obj[k])
      ensures o.kind == NoType && o.life == 0 && o.owner == null && !o.attached && o.treasure == -1
      ensures o.looseCount == o.looseTicks == 0
    {
      SwapOut(o);
      assert OnlyTouched(o);
      hide Sound, OnlyTouched;
      Wipe(o);
    }

    /** Object o has gone out of use, all others are as before. */
    twostate predicate Dropped(o: GameObject)
      reads this`numObjs, objects
    {
      o in objects && OnlyTouched(o) && old(Live(o)) && !Live(o)
    }

    twostate lemma DroppedBalls(o: GameObject)
      requires old(BallsKept()) && Dropped(o)
      requires old(o.kind) != Ball ==> kept == old(kept) && ballOf == old(ballOf)
      requires old(o.kind) == Ball ==> kept == old(kept) - {old(o.treasure)} && ballOf == old(ballOf) - {old(o.treasure)}
      ensures BallsKept()
    {
    }

    twostate lemma DroppedBoxed(o: GameObject)
      requires old(BoxedFree()) && old(BallsKept()) && Dropped(o)
      requires forall t :: 0 <= t < have.Length && old(have[t]) != have[t] ==> old(o.kind) == Ball && t == old(o.treasure)
      requires old(o.kind) != Ball ==> kept == old(kept) && ballOf == old(ballOf)
      requires old(o.kind) == Ball ==> kept == old(kept) - {old(o.treasure)} && ballOf == old(ballOf) - {old(o.treasure)}
      ensures BoxedFree()
    {
    }

    twostate lemma DroppedCarried(o: GameObject)
      requires old(Carried()) && Dropped(o) && old(!o.attached || o.kind != Ball)
      requires players == old(players) && forall pl :: pl in players ==> pl.hasBall == old(pl.hasBall)
      ensures Carried()
    {
      forall pl | pl in players && pl.hasBall ensures exists p :: p in objects && CarriedBy(p, pl) {
        var p :| p in objects && old(CarriedBy(p, pl));
        assert CarriedBy(p, pl);
      }
    }

    twostate lemma DroppedReaching(o: GameObject)
      requires old(Reaching(null)) && Dropped(o)
      requires players == old(players) && forall pl :: pl in players ==> pl.ballTmp == old(pl.ballTmp)
      ensures Reaching(o) && (old(o.kind) != Ball || old(NobodyReaches(o)) ==> Reaching(null))
    {
    }

    twostate lemma DroppedOwned(o: GameObject)
      requires old(Owned()) && Dropped(o) && players == old(players)
      ensures Owned()
    {
    }

    /** The shot counter of the owner goes down, but not below zero. */
    method CountDown(pl: Player)
      modifies pl`shots
      ensures pl.shots == if old(pl.shots) >= 1 then old(pl.shots) - 1 else 0
    {
      pl.shots := pl.shots - 1;
      if pl.shots <= 0 {
        pl.shots := 0;
      }
    }

    /** The player's counter has followed the removal of o. */
    twostate predicate CountedDown(o: GameObject, pl: Player)
      reads pl`shots
    {
      pl.shots == if !old(o.kind == Shot && o.owner == pl) then old(pl.shots) else if old(pl.shots) >= 1 then old(pl.shots) - 1 else 0
    }

    twostate lemma ShotsAfterDrop(o: GameObject)
      requires old(ShotsCounted()) && Dropped(o) && players == old(players)
      requires forall pl :: pl in players ==> CountedDown(o, pl)
      ensures ShotsCounted()
    {
      forall pl | pl in players ensures pl.shots == |ShotsOf(pl)| {
        assert CountedDown(o, pl);
        assert old(ShotsOf(pl)) == ShotsOf(pl) + if old(o.kind == Shot && o.owner == pl) then {o} else {};
      }
    }

    lemma BallPlace(o: GameObject)
      requires Sound() && BallsKept() && o in objects && IsBall(o)
      ensures 0 <= o.treasure < have.Length
    {
    }

    lemma OwnerPlays(o: GameObject)
      requires Owned() && o in objects && Live(o) && o.owner != null
      ensures o.owner in players
    {
    }

    twostate lemma DroppedIs(o: GameObject)
      requires o in objects && OnlyTouched(o) && old(Live(o)) && !Live(o)
      ensures Dropped(o)
    {
    }

    /** Takes an object that is about to go out of use away from the players. */
    method TakeAway(o: GameObject)
      requires Sound() && BallsKept() && Carried() && Owned() && Reaching(null) && o in objects && Live(o)
      modifies objects`attached, have, players`ballTmp, players`usesConnector, players`hasBall, players`shots
      ensures Carried() && Reaching(null) && OnlyTouched(o) && Live(o) && (o.kind == Ball ==> !o.attached)
      ensures StringsCut(o) && (NobodyReaches(o) <==> !old(o.kind == Ball && Contested(o)))
      ensures forall pl :: pl in players ==> CountedDown(o, pl)
      ensures forall t :: 0 <= t < have.Length ==> have[t] == (old(have[t]) && !(o.kind == Ball && t == o.treasure))
    {
      hide Sound, BallsKept, Carried, Owned, Reaching, NobodyReaches, Contested;
      BallsReached(o);
      if o.kind == Ball {
        BallPlace(o);
        ForgetBall(o);
      } else if o.kind == Shot && o.owner != null {
        OwnerPlays(o);
        CountDown(o.owner);
      }
    }

    /** Takes o out of the table; with a ball the treasure it belongs to has none any more. */
    method Erase(o: GameObject)
      requires Sound() && o in objects && Live(o)
      modifies this`numObjs, this`kept, this`ballOf, obj, objects`id, o
      ensures Sound() && OnlyTouched(o) && Dropped(o) && !Live(o) && numObjs == old(numObjs) - 1 && obj[numObjs] == o
      ensures o.kind == NoType && o.looseCount == o.looseTicks == 0
      ensures forall k :: 0 <= k < old(o.id) ==> obj[k] == old(obj[k])
      ensures old(o.kind) == Ball ==> kept == old(kept) - {old(o.treasure)} && ballOf == old(ballOf) - {old(o.treasure)}
      ensures old(o.kind) != Ball ==> kept == old(kept) && ballOf == old(ballOf)
    {
      hide Sound;
      if o.kind == Ball {
        kept, ballOf := kept - {o.treasure}, ballOf - {o.treasure};
      }
      Unlink(o);
      DroppedIs(o);
    }

    /** Removes an object in use: o ends up at the first unused place of the table.  The state is valid again exactly
        unless o was an attached ball that another player was reaching for: he still is. */
    method ObjectRemove(o: GameObject)
      requires Valid() && o in objects && Live(o)
      modifies this`numObjs, this`kept, this`ballOf, obj, have, o, objects`id, objects`attached
      modifies players`ballTmp, players`usesConnector, players`hasBall, players`shots
      ensures ValidBut(o) && (Valid() <==> !old(o.kind == Ball && Contested(o)))
      ensures Dropped(o) && numObjs == old(numObjs) - 1 && obj[numObjs] == o && o.kind == NoType && o.looseCount == o.looseTicks == 0
      ensures forall k :: 0 <= k < old(o.id) ==> obj[k] == old(obj[k])
      ensures kept == if old(o.kind) == Ball then old(kept) - {old(o.treasure)} else old(kept)
      ensures forall t :: 0 <= t < have.Length ==> have[t] == (old(have[t]) && !(old(o.kind) == Ball && t == old(o.treasure)))
      ensures StringsCut(o)
    {
      hide Sound, BallsKept, BoxedFree, Carried, Owned, Reaching, ShotsCounted, Dropped, NobodyReaches, Contested, ValidBut;
      ValidWhole();
      TakeAway(o);
      label Forgotten:
      Erase(o);
      DroppedIs(o);
      hide OnlyTouched;
      DroppedCounts(o);
      DroppedHands@Forgotten(o);
      ValidAgain(o);
    }

    lemma ValidWhole()
      requires Valid()
      ensures Sound() && BallsKept() && BoxedFree() && Carried() && Owned() && ShotsCounted() && Reaching(null)
    {
    }

    /** Only balls are reached for. */
    lemma BallsReached(o: GameObject)
      requires Reaching(null)
      ensures o.kind != Ball ==> NobodyReaches(o) && forall pl :: pl in players ==> pl.ballTmp != o
    {
    }

    lemma ValidAgain(o: GameObject)
      requires Sound() && BallsKept() && BoxedFree() && Carried() && Owned() && ShotsCounted() && Reaching(o) && !Live(o)
      ensures ValidBut(o) && (Valid() <==> NobodyReaches(o))
    {
      hide Sound, BallsKept, BoxedFree, Carried, Owned, ShotsCounted;
    }

    twostate lemma DroppedCounts(o: GameObject)
      requires old(BallsKept() && BoxedFree() && Owned() && ShotsCounted()) && Dropped(o) && players == old(players)
      requires forall t :: 0 <= t < have.Length && old(have[t]) != have[t] ==> old(o.kind) == Ball && t == old(o.treasure)
      requires old(o.kind) != Ball ==> kept == old(kept) && ballOf == old(ballOf)
      requires old(o.kind) == Ball ==> kept == old(kept) - {old(o.treasure)} && ballOf == old(ballOf) - {old(o.treasure)}
      requires forall pl :: pl in players ==> CountedDown(o, pl)
      ensures BallsKept() && BoxedFree() && Owned() && ShotsCounted()
    {
      hide BallsKept, BoxedFree, Owned, ShotsCounted, OnlyTouched, Dropped;
      DroppedBalls(o);
      DroppedBoxed(o);
      DroppedOwned(o);
      ShotsAfterDrop(o);
    }

    twostate lemma DroppedHands(o: GameObject)
      requires old(Carried() && Reaching(null)) && Dropped(o) && old(!o.attached || o.kind != Ball)
      requires players == old(players) && forall pl :: pl in players ==> pl.hasBall == old(pl.hasBall) && pl.ballTmp == old(pl.ballTmp)
      ensures Carried() && Reaching(o) && (old(o.kind) != Ball || old(NobodyReaches(o)) ==> Reaching(null))
    {
      hide Carried, Reaching, OnlyTouched, Dropped;
      DroppedCarried(o);
      DroppedReaching(o);
    }

    // ----- Objects coming into use -----

    /** Object o has come into use, all others are as before. */
    twostate predicate Raised(o: GameObject)
      reads this`numObjs, objects
    {
      o in objects && OnlyTouched(o) && !old(Live(o)) && Live(o)
    }

    twostate lemma RaisedBalls(o: GameObject)
      requires old(BallsKept()) && Raised(o)
      requires o.kind != Ball ==> kept == old(kept) && ballOf == old(ballOf)
      requires o.kind == Ball ==> 0 <= o.treasure < |teamOf| && o.treasure !in old(kept)
      requires o.kind == Ball ==> kept == old(kept) + {o.treasure} && ballOf == old(ballOf)[o.treasure := o]
      ensures BallsKept()
    {
    }

    twostate lemma RaisedBoxed(o: GameObject)
      requires old(BoxedFree()) && old(BallsKept()) && Raised(o) && !o.attached
      requires forall t :: 0 <= t < have.Length && old(have[t]) != have[t] ==> o.kind == Ball && t == o.treasure
      requires o.kind != Ball ==> kept == old(kept) && ballOf == old(ballOf)
      requires o.kind == Ball ==> 0 <= o.treasure && kept == old(kept) + {o.treasure} && ballOf == old(ballOf)[o.treasure := o]
      ensures BoxedFree()
    {
    }

    twostate lemma RaisedCarried(o: GameObject)
      requires old(Carried()) && Raised(o) && !o.attached
      requires players == old(players) && forall pl :: pl in players ==> pl.hasBall == old(pl.hasBall)
      ensures Carried()
    {
      forall pl | pl in players && pl.hasBall ensures exists p :: p in objects && CarriedBy(p, pl) {
        var p :| p in objects && old(CarriedBy(p, pl));
        assert CarriedBy(p, pl);
      }
    }

    twostate lemma RaisedOwned(o: GameObject)
      requires old(Owned()) && Raised(o) && players == old(players) && (o.owner != null ==> o.owner in players)
      ensures Owned()
    {
    }

    twostate lemma RaisedReaching(o: GameObject)
      requires old(Reaching(o)) && Raised(o) && (o.kind == Ball || old(Reaching(null)))
      requires players == old(players) && forall pl :: pl in players ==> pl.ballTmp == old(pl.ballTmp)
      ensures Reaching(null)
    {
    }

    twostate predicate CountedUp(o: GameObject, pl: Player)
      reads pl`shots, o`kind, o`owner
    {
      pl.shots == old(pl.shots) + if o.kind == Shot && o.owner == pl then 1 else 0
    }

    twostate lemma ShotsAfterRaise(o: GameObject)
      requires old(ShotsCounted()) && Raised(o) && players == old(players)
      requires forall pl :: pl in players ==> CountedUp(o, pl)
      ensures ShotsCounted()
    {
      forall pl | pl in players ensures pl.shots == |ShotsOf(pl)| {
        assert CountedUp(o, pl);
        assert ShotsOf(pl) == old(ShotsOf(pl)) + if o.kind == Shot && o.owner == pl then {o} else {};
      }
    }

    // ----- Ball_treasure_add -----

    method FillBall(ball: GameObject, t: nat)
      modifies ball`life, ball`owner, ball`kind, ball`attached, ball`treasure
      ensures ball.kind == Ball && ball.treasure == t && ball.life == MAX_OBJECT_LIFE && ball.owner == null && !ball.attached
    {
      ball.life := MAX_OBJECT_LIFE;
      ball.owner := null;
      ball.kind := Ball;
      ball.attached := false;
      ball.treasure := t;
    }

    /** Puts a new ball into box t, unless the table is full.  The object it takes may be one that a player is
        still reaching for. */
    method BallTreasureAdd(t: nat) returns (ball: GameObject?)
      requires t < |teamOf| && t !in kept
      requires ValidBut(if obj.Length > numObjs then obj[numObjs] else null)
      modifies this`numObjs, this`kept, this`ballOf, have
      modifies objects`life, objects`owner, objects`kind, objects`attached, objects`treasure
      ensures ball == null <==> old(numObjs) == MAX_TOTAL_OBJECTS
      ensures ball == null ==> kept == old(kept) && numObjs == old(numObjs) && (old(Valid()) ==> Valid())
      ensures ball != null ==> Valid() && numObjs == old(numObjs) + 1
      ensures old(numObjs) < MAX_TOTAL_OBJECTS ==> ball == old(obj[numObjs]) && Raised(old(obj[numObjs]))
      ensures ball != null ==> kept == old(kept) + {t} && ballOf[t] == ball && have[t]
      ensures ball != null ==> ball.kind == Ball && ball.treasure == t && ball.life == MAX_OBJECT_LIFE && ball.owner == null
      ensures ball != null ==> !ball.attached
      ensures forall k :: 0 <= k < have.Length && k != t ==> have[k] == old(have[k])
    {
      hide ValidBut, Raised;
      ValidIsSound(if obj.Length > numObjs then obj[numObjs] else null);
      ball := ObjectAdd();
      if ball == null { return; }
      hide Sound;
      have[t] := true;
      FillBall(ball, t);
      kept, ballOf := kept + {t}, ballOf[t := ball];
      RaisedIs(ball);
      hide OnlyTouched;
      BallRaised(ball);
    }

    lemma ValidIsSound(except: GameObject?)
      requires ValidBut(except)
      ensures Sound()
    {
    }

    twostate lemma BallRaised(o: GameObject)
      requires old(ValidBut(o)) && Sound() && Raised(o) && !o.attached && o.owner == null
      requires o.kind == Ball && 0 <= o.treasure < |teamOf| && o.treasure !in old(kept)
      requires kept == old(kept) + {o.treasure} && ballOf == old(ballOf)[o.treasure := o]
      requires forall t :: 0 <= t < have.Length && old(have[t]) != have[t] ==> t == o.treasure
      requires players == old(players)
      requires forall pl :: pl in players ==> pl.ballTmp == old(pl.ballTmp) && pl.hasBall == old(pl.hasBall) && pl.shots == old(pl.shots)
      ensures Valid()
    {
      hide BallsKept, BoxedFree, Carried, Owned, Reaching, ShotsCounted, Raised, OnlyTouched, Sound;
      RaisedBalls(o);
      RaisedBoxed(o);
      RaisedCarried(o);
      RaisedOwned(o);
      RaisedReaching(o);
      ShotsAfterRaise(o);
    }

    twostate lemma RaisedIs(o: GameObject)
      requires o in objects && OnlyTouched(o) && !old(Live(o)) && Live(o)
      ensures Raised(o)
    {
    }

    // ----- Shots, debris and wreckage -----

    method FillShot(shot: GameObject, pl: Player, life: int)
      modifies shot`life, shot`kind, shot`owner, shot`attached
      ensures shot.kind == Shot && shot.owner == pl && shot.life == life && !shot.attached
    {
      shot.life := life;
      shot.kind := Shot;
      shot.owner := pl;
      shot.attached := false;
    }

    /** A player fires, if his gun is ready, he has shots left, his shield is down and the table has room. */
    method ShotAdd(pl: Player, now: int, repeatRate: int, shotLife: int) returns (shot: GameObject?)
      requires Valid() && pl in players
      modifies this`numObjs, pl`shots, pl`shotTime, objects`life, objects`kind, objects`owner, objects`attached
      ensures Valid()
      ensures shot != null <==> old(now >= pl.shotTime + repeatRate && pl.shots < pl.shotMax && !pl.usesShield
                                    && numObjs < MAX_TOTAL_OBJECTS)
      ensures shot == null ==> numObjs == old(numObjs) && pl.shots == old(pl.shots) && pl.shotTime == old(pl.shotTime)
      ensures shot != null ==> old(numObjs) < MAX_TOTAL_OBJECTS && shot == old(obj[numObjs]) && Raised(old(obj[numObjs]))
      ensures shot != null ==> shot.kind == Shot && shot.owner == pl && shot.life == shotLife
      ensures shot != null ==> pl.shots == old(pl.shots) + 1 <= pl.shotMax && pl.shotTime == now
    {
      hide ValidBut, Raised;
      ValidIsSound(null);
      if now < pl.shotTime + repeatRate { return null; }
      if pl.shots >= pl.shotMax || pl.usesShield { return null; }
      shot := ObjectAdd();
      if shot == null { return; }
      hide Sound;
      pl.shotTime := now;
      FillShot(shot, pl, shotLife);
      pl.shots := pl.shots + 1;
      RaisedIs(shot);
      hide OnlyTouched;
      OtherRaised(shot);
    }

    twostate lemma OtherRaised(o: GameObject)
      requires old(Valid()) && Sound() && Raised(o) && !o.attached && (o.owner != null ==> o.owner in players)
      requires o.kind != Ball && kept == old(kept) && ballOf == old(ballOf) && players == old(players)
      requires forall t :: 0 <= t < have.Length ==> old(have[t]) == have[t]
      requires forall pl :: pl in players ==> pl.ballTmp == old(pl.ballTmp) && pl.hasBall == old(pl.hasBall) && CountedUp(o, pl)
      ensures Valid()
    {
      hide BallsKept, BoxedFree, Carried, Owned, Reaching, ShotsCounted, Raised, OnlyTouched, Sound;
      RaisedBalls(o);
      RaisedBoxed(o);
      RaisedCarried(o);
      RaisedOwned(o);
      ReachingAny(o);
      RaisedReaching(o);
      ShotsAfterRaise(o);
    }

    twostate lemma ReachingAny(o: GameObject)
      requires old(Reaching(null))
      ensures old(Reaching(o))
    {
    }

    method FillParticle(o: GameObject, kind: ObjectType, pl: Player?, life: int)
      modifies o`life, o`kind, o`owner, o`attached
      ensures o.kind == kind && o.owner == pl && o.life == life && !o.attached
    {
      o.owner := pl;
      o.kind := kind;
      o.life := life;
      o.attached := false;
    }

    /** One particle of debris, a spark or a piece of wreckage. */
    method ParticleAdd(kind: ObjectType, pl: Player?, life: int) returns (o: GameObject?)
      requires Valid() && kind in {Debris, Spark, Wreckage} && (pl != null ==> pl in players)
      modifies this`numObjs, objects`life, objects`kind, objects`owner, objects`attached
      ensures Valid()
      ensures o == null <==> old(numObjs) == MAX_TOTAL_OBJECTS
      ensures o != null ==> old(numObjs) < MAX_TOTAL_OBJECTS && o == old(obj[numObjs]) && Raised(old(obj[numObjs]))
      ensures o != null ==> o.kind == kind && o.owner == pl && o.life == life
      ensures o == null ==> numObjs == old(numObjs)
    {
      hide ValidBut, Raised;
      ValidIsSound(null);
      o := ObjectAdd();
      if o == null { return; }
      hide Sound;
      FillParticle(o, kind, pl, life);
      RaisedIs(o);
      hide OnlyTouched;
      OtherRaised(o);
    }

    // ----- Collision_player_attach_ball -----

    /** A ball that a player within reach may start to connect to: not his own team's ball in its box. */
    ghost predicate Tempting(o: GameObject, team: int)
      reads this`numObjs, have, o`id, o`kind, o`life, o`attached, o`treasure
    {
      && o in objects && Live(o) && o.life > 0 && o.kind == Ball && !o.attached
      && 0 <= o.treasure < |teamOf| == have.Length && !(teamOf[o.treasure] == team && have[o.treasure])
    }

    /** The tempting ball closest to the player, if one is closer than the connector is long. */
    method NearestBall(pl: Player, distance: GameObject -> real, connectorLength: real) returns (best: GameObject?)
      requires Sound() && BallsKept()
      ensures best != null ==> Tempting(best, pl.team) && Truncated(distance(best)) < Truncated(connectorLength)
      ensures forall o :: o in objects && Tempting(o, pl.team) && Truncated(distance(o)) < Truncated(connectorLength) ==>
                best != null && Truncated(distance(best)) <= Truncated(distance(o))
    {
      hide Truncated;
      best := null;
      var mindist := Truncated(connectorLength);
      for j := 0 to numObjs
        invariant mindist == if best == null then Truncated(connectorLength) else Truncated(distance(best))
        invariant best != null ==> Tempting(best, pl.team) && mindist < Truncated(connectorLength)
        invariant forall o :: o in objects && o.id < j && Tempting(o, pl.team) ==> mindist <= Truncated(distance(o))
      {
        var ball := obj[j];
        if ball.life > 0 && ball.kind == Ball && !ball.attached {
          var dist := Truncated(distance(ball));
          if dist < mindist {
            assert ball.treasure in kept;
            if !(teamOf[ball.treasure] == pl.team && have[ball.treasure]) {
              best := ball;
              mindist := dist;
            }
          }
        }
      }
    }

    method TakeBall(pl: Player, ball: GameObject)
      requires 0 <= ball.treasure < have.Length
      modifies have, ball`attached, ball`owner, ball`life, pl`hasBall, pl`ballTmp
      ensures ball.attached && ball.owner == pl && !have[ball.treasure] && pl.hasBall && pl.ballTmp == null
      ensures forall t :: 0 <= t < have.Length && t != ball.treasure ==> have[t] == old(have[t])
      ensures ball.life == if old(have[ball.treasure]) then MAX_OBJECT_LIFE else old(ball.life)
    {
      ball.attached := true;
      ball.owner := pl;
      if have[ball.treasure] {
        ball.life := MAX_OBJECT_LIFE;
        have[ball.treasure] := false;
      }
      pl.hasBall := true;
      pl.ballTmp := null;
    }

    /** A player with the connector switched on first picks a ball to reach for, and attaches it once he has
        pulled the connector to its full length. */
    method AttachBall(pl: Player, distance: GameObject -> real, connectorLength: real) returns (done: bool)
      requires Valid() && pl in players
      modifies have, objects`attached, objects`owner, objects`life, pl`hasBall, pl`ballTmp
      ensures Valid()
      ensures done <==> old(pl.usesConnector && pl.ballTmp != null && !pl.ballTmp.attached && distance(pl.ballTmp) >= connectorLength)
      ensures done ==> pl.ballTmp == null && pl.hasBall && old(pl.ballTmp) != null && CarriedBy(old(pl.ballTmp), pl)
      ensures done ==> var b := old(pl.ballTmp); b != null && !Boxed(b) && b.life == if old(Boxed(b)) then MAX_OBJECT_LIFE else old(b.life)
      ensures forall o :: o in objects && !(done && o == old(pl.ballTmp)) ==> Same(o)
      ensures forall t :: 0 <= t < have.Length ==> have[t] == (old(have[t]) && !(done && old(pl.ballTmp != null && pl.ballTmp.treasure == t)))
      ensures !done ==> pl.hasBall == old(pl.hasBall)
      ensures old(pl.usesConnector && pl.ballTmp != null && !pl.ballTmp.attached && distance(pl.ballTmp) < connectorLength) ==>
                pl.ballTmp == old(pl.ballTmp)
      ensures !pl.usesConnector || old(pl.ballTmp != null && pl.ballTmp.attached) ==> pl.ballTmp == null
      ensures old(pl.usesConnector && pl.ballTmp == null) ==>
                (pl.ballTmp != null ==> Tempting(pl.ballTmp, pl.team) && Truncated(distance(pl.ballTmp)) < Truncated(connectorLength))
      ensures old(pl.usesConnector && pl.ballTmp == null) ==>
                forall o :: o in objects && Tempting(o, pl.team) && Truncated(distance(o)) < Truncated(connectorLength) ==>
                  pl.ballTmp != null && Truncated(distance(pl.ballTmp)) <= Truncated(distance(o))
    {
      hide Truncated, ValidBut, BallsKept;
      ValidParts();
      done := false;
      if !pl.usesConnector {
        pl.ballTmp := null;
        StringMoved();
      } else if pl.ballTmp != null {
        var ball := pl.ballTmp;
        ReachedBall(pl);
        if ball.attached {
          pl.ballTmp := null;
          StringMoved();
        } else if distance(ball) >= connectorLength {
          TakeBall(pl, ball);
          done := true;
          BallTaken(ball);
        }
      } else {
        var best := NearestBall(pl, distance, connectorLength);
        if best != null { pl.ballTmp := best; }
        StringMoved();
      }
    }

    lemma ValidParts()
      requires Valid()
      ensures Sound() && BallsKept()
    {
    }

    lemma ReachedBall(pl: Player)
      requires Valid() && pl in players && pl.ballTmp != null
      ensures pl.ballTmp in objects && IsBall(pl.ballTmp) && 0 <= pl.ballTmp.treasure < have.Length
    {
    }

    /** Only players' strings have moved, and only to balls in use. */
    twostate lemma StringMoved()
      requires old(Valid()) && numObjs == old(numObjs) && players == old(players) && kept == old(kept) && ballOf == old(ballOf)
      requires forall o :: o in objects ==> o.id == old(o.id) && Same(o)
      requires forall t :: 0 <= t < have.Length ==> have[t] == old(have[t])
      requires forall k :: 0 <= k < obj.Length ==> obj[k] == old(obj[k])
      requires forall pl :: pl in players ==> pl.hasBall == old(pl.hasBall) && pl.shots == old(pl.shots)
      requires forall pl :: pl in players && pl.ballTmp != null && pl.ballTmp != old(pl.ballTmp) ==>
                 pl.ballTmp in objects && IsBall(pl.ballTmp)
      ensures Valid()
    {
    }

    /** Ball o has changed hands, everything else about the objects is as before. */
    twostate predicate Taken(o: GameObject)
      reads this`numObjs, objects
    {
      && o in objects && numObjs == old(numObjs)
      && (forall p :: p in objects ==> p.id == old(p.id) && p.kind == old(p.kind) && p.treasure == old(p.treasure))
      && (forall p :: p in objects && p != o ==> p.attached == old(p.attached) && p.owner == old(p.owner))
      && IsBall(o) && old(!o.attached) && o.attached && o.owner != null
    }

    twostate lemma TakenCarried(o: GameObject)
      requires old(Carried()) && Taken(o) && players == old(players) && o.owner in players && o.owner.hasBall
      requires forall pl :: pl in players && pl != o.owner ==> pl.hasBall == old(pl.hasBall)
      ensures Carried()
    {
      assert CarriedBy(o, o.owner);
      forall pl | pl in players && pl.hasBall ensures exists p :: p in objects && CarriedBy(p, pl) {
        if pl != o.owner {
          var p :| p in objects && old(CarriedBy(p, pl));
          assert CarriedBy(p, pl);
        }
      }
      forall pl, p | pl in players && p in objects && p != o && CarriedBy(p, pl) ensures pl.hasBall {
        assert old(CarriedBy(p, pl));
      }
    }

    twostate lemma TakenShots(o: GameObject)
      requires old(ShotsCounted()) && Taken(o) && players == old(players)
      requires forall pl :: pl in players ==> pl.shots == old(pl.shots)
      ensures ShotsCounted()
    {
      forall pl | pl in players ensures pl.shots == |ShotsOf(pl)| {
        assert ShotsOf(pl) == old(ShotsOf(pl));
      }
    }

    twostate lemma TakenBalls(o: GameObject)
      requires old(Sound() && BallsKept() && BoxedFree() && Owned() && Reaching(null)) && Taken(o)
      requires players == old(players) && kept == old(kept) && ballOf == old(ballOf) && o.owner in players
      requires 0 <= o.treasure < have.Length && !have[o.treasure] && forall t :: 0 <= t < have.Length && have[t] ==> old(have[t])
      requires forall pl :: pl in players ==> pl.ballTmp == null || pl.ballTmp == old(pl.ballTmp)
      requires forall k :: 0 <= k < obj.Length ==> obj[k] == old(obj[k])
      ensures Sound() && BallsKept() && BoxedFree() && Owned() && Reaching(null)
    {
    }

    twostate lemma BallTaken(o: GameObject)
      requires old(Valid()) && Taken(o) && players == old(players) && kept == old(kept) && ballOf == old(ballOf)
      requires o.owner in players && o.owner.hasBall && 0 <= o.treasure < have.Length && !have[o.treasure]
      requires forall t :: 0 <= t < have.Length && have[t] ==> old(have[t])
      requires forall pl :: pl in players ==> pl.shots == old(pl.shots) && (pl.ballTmp == null || pl.ballTmp == old(pl.ballTmp))
      requires forall pl :: pl in players && pl != o.owner ==> pl.hasBall == old(pl.hasBall)
      requires forall k :: 0 <= k < obj.Length ==> obj[k] == old(obj[k])
      ensures Valid()
    {
      hide Sound, BallsKept, BoxedFree, Carried, Owned, Reaching, ShotsCounted, Taken;
      TakenCarried(o);
      TakenShots(o);
      TakenBalls(o);
    }

    // ----- Objects_remove_timed_out -----

    ghost function LookOf(o: GameObject): Look
      reads this`numObjs, have, o
    {
      if Live(o) then InUse(o.kind, o.life, o.owner, o.treasure, o.attached, o.looseCount, o.looseTicks, Boxed(o)) else Out
    }

    ghost predicate Boxed(o: GameObject)
      reads have, o`treasure, o`kind
    {
      o.kind == Ball && 0 <= o.treasure < have.Length && have[o.treasure]
    }

    twostate predicate Swept(o: GameObject, tick: bool)
      reads this`numObjs, have, o
    {
      Turned(old(LookOf(o)), LookOf(o), tick)
    }

    predicate TimeUp(o: GameObject, tick: bool)
      reads o`life, o`kind
    {
      o.life <= 1 && Ages(o.kind, tick)
    }

    function HandOf(pl: Player): Hand
      reads pl`ballTmp, pl`usesConnector
    {
      Hand(pl.ballTmp, pl.usesConnector)
    }

    /** Whether, at which place of the table, and from which kind of ball the sweep parts the player. */
    function PartingOf(pl: Player, tick: bool): Parting
      reads pl`ballTmp, pl.ballTmp
    {
      if pl.ballTmp != null && TimeUp(pl.ballTmp, tick) && (!pl.ballTmp.attached || pl.ballTmp.owner == pl)
      then Parts(pl.ballTmp.id, pl.ballTmp.attached) else Stays
    }

    /** A player lets go in the sweep exactly if what he reaches for or holds has no more than one turn to live, ages in it,
        and is not attached to somebody else. */
    lemma PartingMeans(pl: Player, tick: bool)
      ensures PartingOf(pl, tick).Parts?
              <==> pl.ballTmp != null && pl.ballTmp.life <= 1
                   && (tick || (pl.ballTmp.kind != Spark && pl.ballTmp.kind != Debris))
                   && (pl.ballTmp.attached ==> pl.ballTmp.owner == pl)
      ensures PartingOf(pl, tick).Parts? ==> PartingOf(pl, tick) == Parts(pl.ballTmp.id, pl.ballTmp.attached)
    {
    }

    /** The sweep has parted the players from exactly the balls from place i on whose time is up; from an attached one
        only its owner. */
    ghost predicate Parted(hands: map<Player, Hand>, partings: map<Player, Parting>, i: int)
      reads this`players, players`ballTmp, players`usesConnector
    {
      forall pl :: pl in players ==>
        pl in hands && pl in partings
        && HandOf(pl) == if partings[pl].Parts? && partings[pl].place >= i then Hand(null, hands[pl].connector && !partings[pl].attached)
                         else hands[pl]
    }

    /** The players parted at place i are those who hold or reach for the object there. */
    ghost predicate PartingsAt(hands: map<Player, Hand>, partings: map<Player, Parting>, i: nat, o: GameObject, tick: bool)
      reads this`players, o`life, o`kind, o`attached, o`owner
    {
      forall pl :: pl in players ==>
        && pl in hands && pl in partings
        && (partings[pl].Parts? && partings[pl].place == i <==>
              hands[pl].ball == o && TimeUp(o, tick) && (!o.attached || o.owner == pl))
        && (partings[pl].Parts? && partings[pl].place == i ==> partings[pl].attached == o.attached)
    }

    ghost predicate PartingsBelow(hands: map<Player, Hand>, partings: map<Player, Parting>, i: nat, tick: bool)
      reads this`players, obj, objects`life, objects`kind, objects`attached, objects`owner
    {
      i <= obj.Length && forall k :: 0 <= k < i ==> obj[k] in objects && PartingsAt(hands, partings, k, obj[k], tick)
    }

    lemma StartSweep(tick: bool)
      requires Valid()
      ensures Parted(Hands(), Partings(tick), numObjs) && PartingsBelow(Hands(), Partings(tick), numObjs, tick)
    {
      ReachedAreLive();
      hide TimeUp;
    }

    ghost function Hands(): map<Player, Hand>
      reads this`players, players`ballTmp, players`usesConnector
    {
      map pl | pl in players :: HandOf(pl)
    }

    ghost function Partings(tick: bool): map<Player, Parting>
      reads this`players, players`ballTmp, set pl | pl in players && pl.ballTmp != null :: pl.ballTmp
    {
      map pl | pl in players :: PartingOf(pl, tick)
    }

    /** Ages the object and, if it is a loose ball, counts how long it has been loose. */
    method Age(o: GameObject, tick: bool)
      requires Valid() && o in objects && Live(o)
      modifies o`life, o`looseCount, o`looseTicks
      ensures Valid() && o.life == old(o.life) - 1
      ensures o.looseCount == old(o.looseCount) + if old(o.kind == Ball && !Boxed(o)) then 1 else 0
      ensures o.looseTicks == old(o.looseTicks) + if old(o.kind == Ball && !Boxed(o)) && tick then 1 else 0
    {
      hide ValidBut;
      if o.kind == Ball { BallInBounds(o); }
      o.life := o.life - 1;
      if o.kind == Ball {
        if !have[o.treasure] {
          o.looseCount := o.looseCount + 1;
          if tick { o.looseTicks := o.looseTicks + 1; }
        }
      }
    }

    lemma BallInBounds(o: GameObject)
      requires Valid() && o in objects && IsBall(o)
      ensures 0 <= o.treasure < have.Length == |teamOf| && o.treasure in kept
    {
    }

    lemma OtherTreasures(o: GameObject)
      requires Valid() && o in objects && IsBall(o)
      ensures forall p :: p in objects && p != o && IsBall(p) ==> p.treasure != o.treasure
    {
    }

    /** Takes an object out of use; a ball comes back as a new ball in its box. */
    method Replace(o: GameObject)
      requires Valid() && o in objects && Live(o)
      modifies this`numObjs, this`kept, this`ballOf, obj, have, objects
      modifies players`ballTmp, players`usesConnector, players`hasBall, players`shots
      ensures Valid() && old(o.id) <= numObjs && kept == old(kept)
      ensures forall t :: 0 <= t < have.Length && t !in kept ==> have[t] == old(have[t])
      ensures LookOf(o) == if old(o.kind) == Ball then InUse(Ball, MAX_OBJECT_LIFE, null, old(o.treasure), false, 0, 0, true) else Out
      ensures forall p :: p in objects && p != o ==> LookOf(p) == old(LookOf(p))
      ensures StringsCut(o)
      ensures forall k :: 0 <= k < old(o.id) ==> obj[k] == old(obj[k])
    {
      hide ValidBut;
      if o.kind == Ball { BallInBounds(o); OtherTreasures(o); }
      ValidIsSound(null);
      var isBall, t := o.kind == Ball, o.treasure;
      ObjectRemove(o);
      if isBall {
        ReachMore(o);
        ValidIsSound(o);
        var ball := BallTreasureAdd(t);
      }
    }

    /** One turn of the sweep: object i ages, and if its time is up it is replaced.  The other objects, and all
        places before i, stay as they are. */
    method SweepOne(i: nat, tick: bool)
      requires Valid() && i < numObjs
      modifies this`numObjs, this`kept, this`ballOf, obj, have, objects
      modifies players`ballTmp, players`usesConnector, players`hasBall, players`shots
      ensures Valid() && i <= numObjs && kept == old(kept)
      ensures old(obj[i]) in objects && Swept(old(obj[i]), tick)
      ensures forall t :: 0 <= t < have.Length && t !in kept ==> have[t] == old(have[t])
      ensures StringsCut(if old(TimeUp(obj[i], tick)) then old(obj[i]) else null)
      ensures forall p :: p in objects && p != old(obj[i]) ==> LookOf(p) == old(LookOf(p))
      ensures forall k :: 0 <= k < i ==> obj[k] == old(obj[k])
    {
      hide ValidBut, Sound;
      Placed();
      var o := obj[i];
      if !Ages(o.kind, tick) { return; }
      Age(o, tick);
      if o.life > 0 { return; }
      Replace(o);
    }

    /** The same with an eye to the players. */
    method SweepTurn(i: nat, tick: bool, ghost hands: map<Player, Hand>, ghost partings: map<Player, Parting>)
      requires Valid() && i < numObjs && Parted(hands, partings, i + 1) && PartingsBelow(hands, partings, i + 1, tick)
      modifies this`numObjs, this`kept, this`ballOf, obj, have, objects
      modifies players`ballTmp, players`usesConnector, players`hasBall, players`shots
      ensures Valid() && i <= numObjs && kept == old(kept) && players == old(players)
      ensures old(obj[i]) in objects && Swept(old(obj[i]), tick) && Parted(hands, partings, i) && PartingsBelow(hands, partings, i, tick)
      ensures forall p :: p in objects && p != old(obj[i]) ==> LookOf(p) == old(LookOf(p))
      ensures forall k :: 0 <= k < i ==> obj[k] == old(obj[k])
      ensures forall t :: 0 <= t < have.Length && t !in kept ==> have[t] == old(have[t])
    {
      hide ValidBut, Swept;
      Placed();
      SweepOne(i, tick);
      assert forall k :: 0 <= k < i ==> obj[k] in objects && obj[k] != old(obj[i]) && LookOf(obj[k]) == old(LookOf(obj[k]));
    }

    /** Objects before place i have not been visited yet. */
    twostate predicate Unvisited(i: nat)
      reads this`numObjs, obj, have, objects
    {
      && i <= numObjs <= obj.Length
      && (forall k :: 0 <= k < i ==> obj[k] == old(obj[k]))
      && (forall o :: o in objects && old(o.id) < i ==> LookOf(o) == old(LookOf(o)))
    }

    twostate predicate Visited(i: nat, tick: bool)
      reads this`numObjs, have, objects
    {
      forall o :: o in objects && old(o.id) >= i ==> Swept(o, tick)
    }

    /** Objects_remove_timed_out: every object in use that ages does so exactly once, exactly those whose time is
        up go out of use, and every ball among them is replaced by a new one in its box.  Exactly the players who reach
        for such a ball, or hold it, have to let go. */
    method RemoveTimedOut(tick: bool)
      requires Valid()
      modifies this`numObjs, this`kept, this`ballOf, obj, have, objects
      modifies players`ballTmp, players`usesConnector, players`hasBall, players`shots
      ensures Valid() && kept == old(kept) && players == old(players)
      ensures forall o :: o in objects ==> Swept(o, tick)
      ensures Parted(old(Hands()), old(Partings(tick)), 0)
      ensures forall t :: 0 <= t < have.Length && t !in kept ==> have[t] == old(have[t])
    {
      hide ValidBut, Sound, Turned, Parted, PartingsBelow, Hands, Partings;
      Placed();
      OutStaysOut(tick);
      StartSweep(tick);
      ghost var hands, partings := Hands(), Partings(tick);
      for i := numObjs downto 0
        invariant Valid() && kept == old(kept) && players == old(players)
        invariant Unvisited(i) && Visited(i, tick) && Parted(hands, partings, i) && PartingsBelow(hands, partings, i, tick)
        invariant forall t :: 0 <= t < have.Length && t !in kept ==> have[t] == old(have[t])
      {
        SweepTurn(i, tick, hands, partings);
        Fits();
      }
    }

    lemma ReachedAreLive()
      requires Valid()
      ensures forall pl :: pl in players && pl.ballTmp != null ==> pl.ballTmp in objects && pl.ballTmp.id < numObjs
    {
    }

    lemma Fits()
      requires Valid()
      ensures numObjs <= obj.Length
    {
    }

    lemma Placed()
      requires Valid()
      ensures numObjs <= obj.Length && forall i :: 0 <= i < obj.Length ==> obj[i] in objects && obj[i].id == i
      ensures forall o :: o in objects ==> 0 <= o.id < obj.Length && obj[o.id] == o
    {
    }

    /** Objects_time_out: at the end of a round everything has had its time. */
    method TimeOut()
      requires Valid()
      modifies objects`life
      ensures Valid() && forall o :: o in objects ==> o.life == if Live(o) then 0 else old(o.life)
    {
      hide ValidBut;
      ValidIsSound(null);
      for i := 0 to numObjs
        invariant forall o :: o in objects ==> o.life == if o.id < i then 0 else old(o.life)
      {
        obj[i].life := 0;
      }
    }

    ghost predicate BallIn(i: nat, t: int)
      requires i < obj.Length
      reads obj, obj[i]
    {
      obj[i].kind == Ball && obj[i].treasure == t
    }

    /** No ball is lost or doubled: whenever the state is valid, each treasure in `kept` has exactly one ball in
        the table. */
    lemma ExactlyOneBall(t: nat)
      requires Valid() && t in kept
      ensures numObjs <= obj.Length && exists i: nat :: i < numObjs && BallIn(i, t)
      ensures forall i: nat, j: nat :: i < numObjs && j < numObjs && BallIn(i, t) && BallIn(j, t) ==> i == j
    {
      var at := ballOf[t].id;
      assert BallIn(at, t);
      forall i: nat, j: nat | i < numObjs && j < numObjs && BallIn(i, t) && BallIn(j, t) ensures i == j {
        assert obj[i] == ballOf[t] == obj[j];
      }
    }

    /** Object_count_treasures_missing, for one team or for all of them. */
    method CountMissing(everyone: bool, team: int) returns (count: nat)
      requires have.Length == |teamOf|
      ensures count == |set t: nat | t < |teamOf| && !have[t] && (everyone || teamOf[t] == team)|
    {
      count := 0;
      ghost var missing: set<nat> := {};
      for i := 0 to |teamOf|
        invariant missing == (set t: nat | t < i && !have[t] && (everyone || teamOf[t] == team)) && count == |missing|
      {
        if !have[i] {
          if everyone || teamOf[i] == team {
            count := count + 1;
            missing := missing + {i};
          }
        }
      }
    }

    // ----- A player joins or leaves -----

    /** A newcomer without balls, shots or strings leaves the table consistent. */
    method Join(pl: Player)
      requires Valid() && pl !in players && !pl.hasBall && pl.ballTmp == null && pl.shots == 0
      modifies this`players
      ensures Valid() && players == old(players) + [pl]
    {
      hide Sound, BallsKept, BoxedFree;
      players := players + [pl];
      NewHands(pl);
      NewShots(pl);
    }

    twostate lemma NewHands(pl: Player)
      requires old(Carried() && Owned() && Reaching(null)) && players == old(players) + [pl] && pl !in old(players)
      requires !pl.hasBall && pl.ballTmp == null && numObjs == old(numObjs)
      requires forall o :: o in objects ==> o.id == old(o.id) && o.kind == old(o.kind) && o.owner == old(o.owner) && o.attached == old(o.attached)
      requires forall p :: p in old(players) ==> p.hasBall == old(p.hasBall) && p.ballTmp == old(p.ballTmp)
      ensures Carried() && Owned() && Reaching(null)
    {
      forall p, o | p in players && o in objects ensures CarriedBy(o, p) == old(CarriedBy(o, p)) {
      }
    }

    twostate lemma NewShots(pl: Player)
      requires old(ShotsCounted() && Owned()) && players == old(players) + [pl] && pl !in old(players)
      requires pl.shots == 0 && numObjs == old(numObjs)
      requires forall o :: o in objects ==> o.id == old(o.id) && o.kind == old(o.kind) && o.owner == old(o.owner)
      requires forall p :: p in old(players) ==> p.shots == old(p.shots)
      ensures ShotsCounted()
    {
      forall p | p in players ensures p.shots == |ShotsOf(p)| {
        assert ShotsOf(p) == old(ShotsOf(p));
        if p == pl { assert ShotsOf(p) == {}; }
      }
    }

    /** The objects whose time is up when their owner leaves. */
    predicate EndsWithOwner(kind: ObjectType, attached: bool, keepShots: bool) {
      (kind == Ball && attached) || (kind == Shot && !keepShots)
    }

    method DisownOne(pl: Player, o: GameObject, keepShots: bool)
      requires Sound() && Carried() && pl in players && o in objects && Live(o) && o.owner == pl
      modifies o`owner, o`life, objects`attached, pl`ballTmp, pl`usesConnector, pl`hasBall
      ensures Carried() && o.owner == null
      ensures forall p :: p in objects ==> p.attached == (old(p.attached) && !(p == o && o.kind == Ball))
      ensures o.life == if old(EndsWithOwner(o.kind, o.attached, keepShots)) then 0 else old(o.life)
      ensures pl.ballTmp == null || pl.ballTmp == old(pl.ballTmp)
    {
      hide Sound, Carried;
      if o.kind == Ball {
        if o.attached {
          BallDetach(pl, o);
          o.life := 0;
        }
      } else if o.kind == Shot {
        if !keepShots { o.life := 0; }
      }
      label Free:
      o.owner := null;
      OwnerGone@Free(o);
    }

    twostate lemma OwnerGone(o: GameObject)
      requires old(Carried()) && players == old(players) && numObjs == old(numObjs) && o in objects && !(IsBall(o) && o.attached)
      requires forall p :: p in objects ==> p.id == old(p.id) && p.kind == old(p.kind) && p.attached == old(p.attached)
      requires forall p :: p in objects && p != o ==> p.owner == old(p.owner)
      requires forall p :: p in players ==> p.hasBall == old(p.hasBall)
      ensures Carried()
    {
      forall pl | pl in players && pl.hasBall ensures exists p :: p in objects && CarriedBy(p, pl) {
        var p :| p in objects && old(CarriedBy(p, pl));
        assert CarriedBy(p, pl);
      }
      forall pl, p | pl in players && p in objects && CarriedBy(p, pl) ensures pl.hasBall {
        assert old(CarriedBy(p, pl));
      }
    }

    /** What becomes of an object in use when a player leaves. */
    twostate predicate Released(o: GameObject, pl: Player, keepShots: bool)
      reads o
    {
      && o.owner == (if old(o.owner) == pl then null else old(o.owner))
      && o.attached == (old(o.attached) && !(old(o.owner) == pl && o.kind == Ball))
      && o.life == (if old(o.owner == pl && EndsWithOwner(o.kind, o.attached, keepShots)) then 0 else old(o.life))
    }

    twostate predicate Untouched(o: GameObject)
      reads o
    {
      o.owner == old(o.owner) && o.attached == old(o.attached) && o.life == old(o.life)
    }

    method Disown(pl: Player, keepShots: bool)
      requires Sound() && Carried() && pl in players
      modifies objects`owner, objects`life, objects`attached, pl`ballTmp, pl`usesConnector, pl`hasBall
      ensures Carried() && (pl.ballTmp == null || pl.ballTmp == old(pl.ballTmp))
      ensures forall o :: o in objects ==> if Live(o) then Released(o, pl, keepShots) else Untouched(o)
    {
      hide Carried;
      for i := numObjs downto 0
        invariant Carried() && (pl.ballTmp == null || pl.ballTmp == old(pl.ballTmp))
        invariant forall o :: o in objects ==> if i <= o.id < numObjs then Released(o, pl, keepShots) else Untouched(o)
      {
        if obj[i].owner == pl {
          DisownOne(pl, obj[i], keepShots);
        }
      }
    }

    /** The object part of Player_remove: nothing in use belongs to the player any more, and the table is
        consistent with the remaining players.  The last player takes the place of the one who leaves. */
    method Leave(ind: nat, keepShots: bool)
      requires Valid() && ind < |players| && Distinct(players)
      modifies this`players, objects`owner, objects`life, objects`attached
      modifies players`ballTmp, players`usesConnector, players`hasBall
      ensures Valid() && players == SwapOutAt(old(players), ind)
      ensures forall o :: o in objects && Live(o) ==> Released(o, old(players[ind]), keepShots) && o.owner != old(players[ind])
      ensures old(players[ind]) !in players
      ensures forall p :: p in players ==> p.ballTmp == old(p.ballTmp) && p.usesConnector == old(p.usesConnector)
    {
      hide ValidBut, Sound, Carried;
      HandsOfValid();
      var pl := players[ind];
      Disown(pl, keepShots);
      DisownedRest(pl);
      SwapOutPlayer(players, ind);
      label Disowned:
      players := SwapOutAt(players, ind);
      PlayerGone@Disowned(pl);
    }

    lemma HandsOfValid()
      requires Valid()
      ensures Sound() && Carried()
    {
    }

    /** Nothing in use belongs to the player, and the counters of the others are right. */
    ghost predicate ValidWithout(pl: Player)
      reads this, obj, have, objects`id, objects`kind, objects`attached, objects`owner, objects`treasure
      reads players`hasBall, players`ballTmp, players`shots
    {
      && Sound() && BallsKept() && BoxedFree() && Carried() && Owned() && Reaching(null)
      && (forall o :: o in objects && Live(o) ==> o.owner != pl)
      && (forall p :: p in players && p != pl ==> p.shots == |ShotsOf(p)|)
    }

    twostate lemma DisownedRest(pl: Player)
      requires old(Valid()) && Carried() && players == old(players) && numObjs == old(numObjs) && pl in players
      requires kept == old(kept) && ballOf == old(ballOf)
      requires forall k :: 0 <= k < obj.Length ==> obj[k] == old(obj[k])
      requires forall t :: 0 <= t < have.Length ==> have[t] == old(have[t])
      requires forall o :: o in objects ==> o.id == old(o.id) && o.kind == old(o.kind) && o.treasure == old(o.treasure)
      requires forall o :: o in objects ==> o.attached ==> old(o.attached)
      requires forall o :: o in objects && Live(o) ==> o.owner == if old(o.owner) == pl then null else old(o.owner)
      requires forall p :: p in players ==> p.shots == old(p.shots) && (p.ballTmp == null || p.ballTmp == old(p.ballTmp))
      ensures ValidWithout(pl) && forall o :: o in objects && Live(o) ==> o.owner != pl
    {
      hide Carried;
      forall p | p in players && p != pl ensures ShotsOf(p) == old(ShotsOf(p)) {
      }
    }

    twostate lemma PlayerGone(pl: Player)
      requires old(ValidWithout(pl)) && pl !in players
      requires forall p :: p in players ==> p in old(players)
      requires forall p :: p in old(players) && p != pl ==> p in players
      requires numObjs == old(numObjs) && kept == old(kept) && ballOf == old(ballOf)
      requires forall k :: 0 <= k < obj.Length ==> obj[k] == old(obj[k])
      requires forall t :: 0 <= t < have.Length ==> have[t] == old(have[t])
      requires forall o :: o in objects ==> o.id == old(o.id) && o.kind == old(o.kind) && o.treasure == old(o.treasure)
      requires forall o :: o in objects ==> o.owner == old(o.owner) && o.attached == old(o.attached)
      requires forall p :: p in players ==> p.shots == old(p.shots) && p.ballTmp == old(p.ballTmp) && p.hasBall == old(p.hasBall)
      ensures Valid()
    {
      forall p | p in players ensures ShotsOf(p) == old(ShotsOf(p)) {
      }
      forall p, o | p in players && o in objects ensures CarriedBy(o, p) == old(CarriedBy(o, p)) {
      }
    }
  }

  lemma NearEnough()
    ensures Truncated(1.0) < Truncated(100.0)
  {
  }

  /** The state of a game in which ball b is the only one, in which players without a team may reach for it. */
  ghost predicate OneLooseBall(pool: Pool, b: GameObject)
    reads pool, pool.objects
  {
    && pool.kept == {0} && pool.ballOf == map[0 := b] && pool.teamOf == [1]
    && b in pool.objects && pool.IsBall(b) && b.life > 0 && b.treasure == 0
  }

  lemma SoleBall(pool: Pool, b: GameObject)
    requires pool.Valid() && pool.kept == {0} && 0 in pool.ballOf && pool.ballOf[0] == b && pool.teamOf == [1] && b.life > 0
    ensures OneLooseBall(pool, b)
  {
  }

  lemma OnlyBall(pool: Pool, b: GameObject, o: GameObject)
    requires pool.Valid() && OneLooseBall(pool, b) && o in pool.objects && pool.IsBall(o)
    ensures o == b
  {
  }

  lemma BallTempts(pool: Pool, b: GameObject)
    requires pool.Valid() && OneLooseBall(pool, b) && !b.attached
    ensures pool.Tempting(b, -1)
  {
  }

  /** A player close to the ball begins to reach for it. */
  method ReachFor(pool: Pool, pl: Player, b: GameObject)
    requires pool.Valid() && OneLooseBall(pool, b) && !b.attached
    requires pl in pool.players && pl.usesConnector && pl.ballTmp == null && pl.team == -1
    modifies pool.have, pool.objects`attached, pool.objects`owner, pool.objects`life, pl`hasBall, pl`ballTmp
    ensures pool.Valid() && OneLooseBall(pool, b) && !b.attached && pl.ballTmp == b
  {
    NearEnough();
    hide Truncated, Pool.ValidBut, Pool.Tempting;
    var done := pool.AttachBall(pl, _ => 1.0, 100.0);
    assert pool.Same(b);
    BallTempts(pool, b);
    TemptingIsBall(pool, pl.ballTmp);
    OnlyBall(pool, b, pl.ballTmp);
  }

  lemma TemptingIsBall(pool: Pool, o: GameObject?)
    ensures o != null && pool.Tempting(o, -1) ==> o in pool.objects && pool.IsBall(o)
  {
  }

  /** A game with two players and without balls. */
  method TwoPlayers() returns (pool: Pool, p: Player, q: Player)
    ensures pool.Valid() && pool.players == [p, q] && p != q && pool.kept == {} && pool.numObjs == 0 && pool.teamOf == [1]
    ensures p.usesConnector && q.usesConnector && p.ballTmp == q.ballTmp == null && p.team == q.team == -1
    ensures fresh(pool) && fresh(pool.obj) && fresh(pool.have) && fresh(pool.objects) && fresh(p) && fresh(q)
  {
    hide Pool.Valid, Pool.ValidBut;
    pool := new Pool([1]);
    p := new Player();
    q := new Player();
    pool.Join(p);
    pool.Join(q);
    p.usesConnector, q.usesConnector := true, true;
  }

  lemma KeysKept(pool: Pool)
    requires pool.Valid()
    ensures pool.ballOf.Keys == pool.kept && pool.obj.Length == MAX_TOTAL_OBJECTS
  {
  }

  /** The same with one ball in its box. */
  method OneBallGame() returns (pool: Pool, p: Player, q: Player, b: GameObject)
    ensures pool.Valid() && OneLooseBall(pool, b) && !b.attached && pool.players == [p, q] && p != q
    ensures p.usesConnector && q.usesConnector && p.ballTmp == q.ballTmp == null && p.team == q.team == -1
    ensures fresh(pool) && fresh(pool.obj) && fresh(pool.have) && fresh(pool.objects) && fresh(p) && fresh(q)
  {
    hide Pool.Valid, Pool.ValidBut, Pool.Raised, OneLooseBall;
    pool, p, q := TwoPlayers();
    KeysKept(pool);
    pool.ReachAny(pool.obj[0]);
    var ball := pool.BallTreasureAdd(0);
    b := ball;
    KeysKept(pool);
    SoleBall(pool, b);
  }

  /** Two players reach for a ball, and the first one pulls it out of its box.  When it is then removed the second
      one still reaches for it, until the sweep has put a new ball into its place. */
  method ContestedBall() returns (pool: Pool, q: Player, b: GameObject)
    ensures pool.ValidBut(b) && !pool.Valid() && q in pool.players && q.ballTmp == b && !pool.Live(b)
  {
    hide Pool.ValidBut, Pool.Valid, Truncated, Pool.OnlyTouched, Pool.Same;
    var p;
    pool, p, q, b := OneBallGame();
    ReachFor(pool, p, b);
    ReachFor(pool, q, b);
    var done := pool.AttachBall(p, _ => 100.0, 100.0);
    pool.ObjectRemove(b);
  }
}
