/** What objects do to a player who runs into them: the loop of Collision_player_object_check in
    src/server/collision.c.  The objects are taken one after the other, and his death ends the loop. */
module PlayerHits {
  import opened Counting
  import opened Entities
  import opened MapCollision
  import opened MapPosition
  import opened Numbers
  import opened SweptCollision

  const SHIP_SZ := 16

  /** The fuel that running into a ball costs. */
  const BALL_HIT := 50 * 256

  /** The settings that matter here. */
  datatype Rules = Rules(teamPlay: bool, teamImmunity: bool, playerKillings: bool,
                         treasureCollisionDestroys: bool, treasureCollisionMayKill: bool, wreckageCollisionMayKill: bool)

  /** What the checks only read of an object: its owner, if any, by index in the table of players, its team, if any, its
      range and motion, the life left when it is fused, and the fuel that running into it costs, which follows from its
      mass and velocity. */
  datatype Body = Body(kind: ObjectType, owner: int, team: int, attached: bool, ownerImmune: bool,
                       range: nat, move: Move, fuse: int, impact: nat)

  /** What the checks only read of a player. */
  datatype Pilot = Pilot(team: int, move: Move)

  /** What the checks change about a player. */
  datatype Ship = Ship(fuel: int, tank: int, shield: bool, state: PlayerState)
  {
    predicate Sound() { 0 <= fuel <= tank }
  }

  /** Everything that stays the same during a round of checks, on a map of width by height blocks. */
  datatype Scene = Scene(rules: Rules, width: nat, height: nat, wrap: bool, pilots: seq<Pilot>, bodies: seq<Body>)

  // ----- One object -----

  /** Object b is harmless to player p. */
  predicate Immune(rules: Rules, p: nat, pilot: Pilot, b: Body) {
    b.owner >= 0
    && if b.owner == p then b.kind.Spark? && b.ownerImmune
       else rules.teamPlay && rules.teamImmunity && (b.kind.Ball? ==> b.attached) && b.team == pilot.team
  }

  /** Object i, with so much life left, strikes player p. */
  predicate Strikes(sc: Scene, p: nat, i: nat, life: int)
    requires p < |sc.pilots| && i < |sc.bodies|
  {
    var pilot, b := sc.pilots[p], sc.bodies[i];
    && life > 0
    && Collide(pilot.move, b.move, SHIP_SZ + b.range, sc.width * BLOCK_SZ, sc.height * BLOCK_SZ, sc.wrap)
    && !Immune(sc.rules, p, pilot, b)
    && !(b.kind.Shot? && b.owner == p && life > b.fuse)
  }

  /** The fuel that a strike costs. */
  function Cost(shield: bool, b: Body): nat {
    match b.kind
    case Ball => BALL_HIT
    case Debris | Wreckage => if shield then 0 else b.impact
    case _ => 0
  }

  predicate Kills(rules: Rules, ship: Ship, b: Body) {
    match b.kind
    case Ball => ship.fuel <= BALL_HIT || (rules.treasureCollisionMayKill && !ship.shield)
    case Debris => ship.fuel <= Cost(ship.shield, b)
    case Wreckage => ship.fuel <= Cost(ship.shield, b) || (rules.wreckageCollisionMayKill && !ship.shield)
    case Shot => rules.playerKillings && !ship.shield
    case _ => false
  }

  /** The ship after a strike: fuel is spent as far as there is any, and a deadly shot that hits a shield without fuel
      behind it lowers the shield. */
  function Struck(rules: Rules, ship: Ship, b: Body): (r: Ship)
    ensures ship.Sound() ==> r.Sound()
  {
    Ship(Max(0, ship.fuel - Cost(ship.shield, b)), ship.tank,
         ship.shield && !(b.kind.Shot? && rules.playerKillings && ship.fuel == 0),
         if Kills(rules, ship, b) then KILLED else ship.state)
  }

  /** An object is used up by a strike, unless it is a ball that may not burst or wreckage or debris that kills. */
  predicate Wears(rules: Rules, b: Body) { b.kind.Ball? ==> rules.treasureCollisionDestroys }

  predicate Hard(b: Body) { b.kind.Debris? || b.kind.Wreckage? }

  predicate UsedUp(rules: Rules, ship: Ship, b: Body) {
    Wears(rules, b) && !(Hard(b) && Kills(rules, ship, b))
  }

  // ----- The loop over the objects -----

  datatype Turn = Turn(ship: Ship, lives: seq<int>)

  /** The turn of player p over the objects of s. */
  function Walk(sc: Scene, p: nat, s: seq<nat>, ship: Ship, lives: seq<int>): (t: Turn)
    requires p < |sc.pilots| && |lives| == |sc.bodies| && forall k :: 0 <= k < |s| ==> s[k] < |lives|
    ensures |t.lives| == |lives| && (ship.Sound() ==> t.ship.Sound())
    decreases |s|
  {
    if s == [] then Turn(ship, lives)
    else if !Strikes(sc, p, s[0], lives[s[0]]) then Walk(sc, p, s[1..], ship, lives)
    else
      var b := sc.bodies[s[0]];
      var after := if UsedUp(sc.rules, ship, b) then lives[s[0] := 0] else lives;
      if Kills(sc.rules, ship, b) then Turn(Struck(sc.rules, ship, b), after)
      else Walk(sc, p, s[1..], Struck(sc.rules, ship, b), after)
  }

  // ----- What a number of objects do together -----

  /** What objects amount to, whatever their order: those that cost fuel, the fuel that they cost behind a shield and
      without one, the deadly shots, and those that are deadly without shields whatever the fuel. */
  datatype Load = Load(takers: nat, behind: nat, cost: nat, shots: nat, deadly: nat)

  const NOTHING := Load(0, 0, 0, 0, 0)

  function Plus(a: Load, b: Load): Load {
    Load(a.takers + b.takers, a.behind + b.behind, a.cost + b.cost, a.shots + b.shots, a.deadly + b.deadly)
  }

  /** What any number of objects can amount to. */
  predicate Possible(a: Load) { a.behind <= a.cost && a.shots <= a.deadly <= a.takers + a.shots && (a.cost > 0 ==> a.takers > 0) }

  function LoadOf(rules: Rules, b: Body): (r: Load)
    ensures Possible(r)
  {
    match b.kind
    case Ball => Load(1, BALL_HIT, BALL_HIT, 0, if rules.treasureCollisionMayKill then 1 else 0)
    case Debris => Load(1, 0, b.impact, 0, 0)
    case Wreckage => Load(1, 0, b.impact, 0, if rules.wreckageCollisionMayKill then 1 else 0)
    case Shot => if rules.playerKillings then Load(0, 0, 0, 1, 1) else NOTHING
    case _ => NOTHING
  }

  /** What object i amounts to for player p. */
  function Part(sc: Scene, p: nat, i: nat, lives: seq<int>): Load
    requires p < |sc.pilots| && |lives| == |sc.bodies| && i < |lives|
  {
    if Strikes(sc, p, i, lives[i]) then LoadOf(sc.rules, sc.bodies[i]) else NOTHING
  }

  function Total(sc: Scene, p: nat, s: seq<nat>, lives: seq<int>): (r: Load)
    requires p < |sc.pilots| && |lives| == |sc.bodies| && forall k :: 0 <= k < |s| ==> s[k] < |lives|
    ensures Possible(r)
    decreases |s|
  {
    if s == [] then NOTHING else Plus(Part(sc, p, s[0], lives), Total(sc, p, s[1..], lives))
  }

  /** Whether objects kill the ship.  Behind a shield only balls cost fuel, and when it is used up they kill.  A shield
      without fuel withstands one deadly shot, and nothing that costs fuel. */
  predicate Doomed(ship: Ship, load: Load) {
    if ship.shield then
      if ship.fuel > 0 then load.behind >= ship.fuel else load.takers > 0 || load.shots >= 2
    else load.deadly > 0 || (load.takers > 0 && load.cost >= ship.fuel)
  }

  /** The ship if they do not. */
  function Survivor(ship: Ship, load: Load): Ship {
    if ship.shield then ship.(fuel := Max(0, ship.fuel - load.behind), shield := ship.fuel > 0 || load.shots == 0)
    else ship.(fuel := Max(0, ship.fuel - load.cost))
  }

  /** The object b first and then others that amount to `rest` are the same as all of them together. */
  predicate Agree(rules: Rules, ship: Ship, b: Body, rest: Load) {
    var all := Plus(LoadOf(rules, b), rest);
    if Kills(rules, ship, b) then Doomed(ship, all)
    else
      && (Doomed(ship, all) <==> Doomed(Struck(rules, ship, b), rest))
      && (!Doomed(ship, all) ==> Survivor(ship, all) == Survivor(Struck(rules, ship, b), rest))
  }

  lemma OneMore(rules: Rules, ship: Ship, b: Body, rest: Load)
    requires ship.Sound() && Possible(rest)
    ensures Agree(rules, ship, b, rest)
  {
  }

  // ----- A turn in closed form -----

  lemma TotalFirst(sc: Scene, p: nat, s: seq<nat>, k: nat, lives: seq<int>)
    requires p < |sc.pilots| && |lives| == |sc.bodies| && InTable(s, |lives|) && 0 < k <= |s|
    ensures Total(sc, p, s[..k], lives) == Plus(Part(sc, p, s[0], lives), Total(sc, p, s[1..][..k - 1], lives))
  {
    assert s[..k][1..] == s[1..][..k - 1];
  }

  /** An object that has been used up does not matter for those listed behind it. */
  lemma {:induction false} TotalFrame(sc: Scene, p: nat, s: seq<nat>, lives: seq<int>, i: nat, v: int)
    requires p < |sc.pilots| && |lives| == |sc.bodies| && InTable(s, |lives|) && i < |lives| && i !in s
    ensures Total(sc, p, s, lives[i := v]) == Total(sc, p, s, lives)
    decreases |s|
  {
    if s != [] { TotalFrame(sc, p, s[1..], lives, i, v); }
  }

  ghost predicate InTable(s: seq<nat>, n: nat) { forall k :: 0 <= k < |s| ==> s[k] < n }

  /** Object s[k] is used up in the turn: it strikes the player, wears, and those listed before it leave him alive; if it
      is wreckage or debris it leaves him alive as well. */
  predicate Taken(sc: Scene, p: nat, s: seq<nat>, ship: Ship, lives: seq<int>, k: nat)
    requires p < |sc.pilots| && |lives| == |sc.bodies| && (forall j :: 0 <= j < |s| ==> s[j] < |lives|) && k < |s|
  {
    && Strikes(sc, p, s[k], lives[s[k]]) && Wears(sc.rules, sc.bodies[s[k]])
    && !Doomed(ship, Total(sc, p, s[..k], lives))
    && (Hard(sc.bodies[s[k]]) ==> !Doomed(ship, Total(sc, p, s[..k + 1], lives)))
  }

  /** The turn kills the player exactly if all the objects that strike him together are too much for his ship, and costs a
      survivor what they cost together. */
  lemma {:induction false} TurnShip(sc: Scene, p: nat, s: seq<nat>, ship: Ship, lives: seq<int>)
    requires p < |sc.pilots| && |lives| == |sc.bodies| && InTable(s, |lives|) && Distinct(s)
    requires ship.Sound() && ship.state == ALIVE
    ensures var t, all := Walk(sc, p, s, ship, lives), Total(sc, p, s, lives);
            && (t.ship.state == KILLED <==> Doomed(ship, all))
            && (!Doomed(ship, all) ==> t.ship == Survivor(ship, all))
    decreases |s|
  {
    if s == [] { return; }
    var i, rest := s[0], s[1..];
    assert InTable(rest, |lives|) && Distinct(rest) && i !in rest;
    hide Strikes, Distinct, InTable, Struck, Kills, UsedUp, LoadOf, Doomed, Survivor, Plus;
    if !Strikes(sc, p, i, lives[i]) {
      TurnShip(sc, p, rest, ship, lives);
      return;
    }
    var b := sc.bodies[i];
    var after := if UsedUp(sc.rules, ship, b) then lives[i := 0] else lives;
    TotalFrame(sc, p, rest, lives, i, 0);
    OneMore(sc.rules, ship, b, Total(sc, p, rest, lives));
    if !Kills(sc.rules, ship, b) { TurnShip(sc, p, rest, Struck(sc.rules, ship, b), after); }
  }

  lemma {:induction false} OthersKept(sc: Scene, p: nat, s: seq<nat>, ship: Ship, lives: seq<int>, i: nat)
    requires p < |sc.pilots| && |lives| == |sc.bodies| && InTable(s, |lives|) && i < |lives| && i !in s
    ensures Walk(sc, p, s, ship, lives).lives[i] == lives[i]
    decreases |s|
  {
    if s == [] || !Strikes(sc, p, s[0], lives[s[0]]) {
      if s != [] { OthersKept(sc, p, s[1..], ship, lives, i); }
      return;
    }
    var b := sc.bodies[s[0]];
    var after := if UsedUp(sc.rules, ship, b) then lives[s[0] := 0] else lives;
    if !Kills(sc.rules, ship, b) { OthersKept(sc, p, s[1..], Struck(sc.rules, ship, b), after, i); }
  }

  /** The first object of a turn. */
  lemma FirstTaken(sc: Scene, p: nat, s: seq<nat>, ship: Ship, lives: seq<int>)
    requires p < |sc.pilots| && |lives| == |sc.bodies| && InTable(s, |lives|) && s != [] && ship.Sound()
    requires ship.state == ALIVE
    requires Strikes(sc, p, s[0], lives[s[0]])
    ensures Taken(sc, p, s, ship, lives, 0) <==> UsedUp(sc.rules, ship, sc.bodies[s[0]])
  {
    assert s[..0] == [] && s[..1] == [s[0]] && s[..1][1..] == [];
  }

  lemma PassedOver(sc: Scene, p: nat, s: seq<nat>, ship: Ship, lives: seq<int>, k: nat)
    requires p < |sc.pilots| && |lives| == |sc.bodies| && InTable(s, |lives|) && 0 < k < |s|
    requires !Strikes(sc, p, s[0], lives[s[0]])
    ensures Taken(sc, p, s, ship, lives, k) <==> Taken(sc, p, s[1..], ship, lives, k - 1)
  {
    hide Total, Strikes, Doomed, Plus;
    TotalFirst(sc, p, s, k, lives);
    TotalFirst(sc, p, s, k + 1, lives);
    PlusNothing(Total(sc, p, s[1..][..k - 1], lives));
    PlusNothing(Total(sc, p, s[1..][..k], lives));
  }

  lemma PlusNothing(a: Load)
    ensures Plus(NOTHING, a) == a
  {
  }

  lemma FirstOnce(s: seq<nat>, k: nat)
    requires Distinct(s) && 0 < k <= |s|
    ensures s[0] !in s[1..][..k - 1]
  {
  }

  /** The first k objects after a strike that the player survives. */
  lemma DoomAfter(sc: Scene, p: nat, s: seq<nat>, ship: Ship, lives: seq<int>, after: seq<int>, k: nat)
    requires p < |sc.pilots| && |lives| == |sc.bodies| && InTable(s, |lives|) && Distinct(s) && 0 < k <= |s|
    requires ship.Sound() && Strikes(sc, p, s[0], lives[s[0]]) && !Kills(sc.rules, ship, sc.bodies[s[0]])
    requires after == lives || after == lives[s[0] := 0]
    ensures Doomed(ship, Total(sc, p, s[..k], lives))
            <==> Doomed(Struck(sc.rules, ship, sc.bodies[s[0]]), Total(sc, p, s[1..][..k - 1], after))
  {
    hide Total, Strikes, Doomed, LoadOf, Struck, Plus, Kills, Distinct;
    var few := s[1..][..k - 1];
    FirstOnce(s, k);
    TotalFirst(sc, p, s, k, lives);
    TotalFrame(sc, p, few, lives, s[0], 0);
    OneMore(sc.rules, ship, sc.bodies[s[0]], Total(sc, p, few, lives));
  }

  lemma Survived(sc: Scene, p: nat, s: seq<nat>, ship: Ship, lives: seq<int>, after: seq<int>, k: nat)
    requires p < |sc.pilots| && |lives| == |sc.bodies| && InTable(s, |lives|) && Distinct(s) && 0 < k < |s|
    requires ship.Sound() && Strikes(sc, p, s[0], lives[s[0]]) && !Kills(sc.rules, ship, sc.bodies[s[0]])
    requires after == lives || after == lives[s[0] := 0]
    ensures Taken(sc, p, s, ship, lives, k)
            <==> Taken(sc, p, s[1..], Struck(sc.rules, ship, sc.bodies[s[0]]), after, k - 1)
  {
    DoomAfter(sc, p, s, ship, lives, after, k);
    DoomAfter(sc, p, s, ship, lives, after, k + 1);
    assert s[k] != s[0];
    hide Total, Strikes, Doomed, Distinct, Struck, Kills;
  }

  lemma NoneAfterDeath(sc: Scene, p: nat, s: seq<nat>, ship: Ship, lives: seq<int>, k: nat)
    requires p < |sc.pilots| && |lives| == |sc.bodies| && InTable(s, |lives|) && 0 < k < |s|
    requires ship.Sound() && Strikes(sc, p, s[0], lives[s[0]]) && Kills(sc.rules, ship, sc.bodies[s[0]])
    ensures !Taken(sc, p, s, ship, lives, k)
  {
    TotalFirst(sc, p, s, k, lives);
    hide Total, Strikes, Doomed;
    OneMore(sc.rules, ship, sc.bodies[s[0]], Total(sc, p, s[1..][..k - 1], lives));
  }

  /** The turn uses up exactly the objects taken in it. */
  lemma {:induction false} TurnLives(sc: Scene, p: nat, s: seq<nat>, ship: Ship, lives: seq<int>, k: nat)
    requires p < |sc.pilots| && |lives| == |sc.bodies| && InTable(s, |lives|) && Distinct(s) && k < |s|
    requires ship.Sound() && ship.state == ALIVE
    ensures Walk(sc, p, s, ship, lives).lives[s[k]] == if Taken(sc, p, s, ship, lives, k) then 0 else lives[s[k]]
    decreases |s|
  {
    var i, rest := s[0], s[1..];
    assert InTable(rest, |lives|) && Distinct(rest) && i !in rest;
    if !Strikes(sc, p, i, lives[i]) {
      if k > 0 {
        PassedOver(sc, p, s, ship, lives, k);
        TurnLives(sc, p, rest, ship, lives, k - 1);
      } else {
        OthersKept(sc, p, rest, ship, lives, i);
      }
      return;
    }
    var b := sc.bodies[i];
    var after := if UsedUp(sc.rules, ship, b) then lives[i := 0] else lives;
    var next := Struck(sc.rules, ship, b);
    FirstTaken(sc, p, s, ship, lives);
    hide Strikes, Distinct, InTable, LoadOf, Doomed, Survivor, Plus, Taken, UsedUp;
    if Kills(sc.rules, ship, b) {
      if k > 0 { NoneAfterDeath(sc, p, s, ship, lives, k); }
    } else if k > 0 {
      Survived(sc, p, s, ship, lives, after, k);
      TurnLives(sc, p, rest, next, after, k - 1);
    } else {
      OthersKept(sc, p, rest, next, after, i);
    }
  }

  // ----- The order of the objects -----

  /** Objects of s and t that strike the player are the same. */
  ghost predicate SameStrikes(sc: Scene, p: nat, s: seq<nat>, t: seq<nat>, lives: seq<int>)
    requires p < |sc.pilots| && |lives| == |sc.bodies|
  {
    forall i: nat :: i < |lives| && Strikes(sc, p, i, lives[i]) ==> (i in s <==> i in t)
  }

  lemma {:induction false} TotalMiddle(sc: Scene, p: nat, t: seq<nat>, j: nat, lives: seq<int>)
    requires p < |sc.pilots| && |lives| == |sc.bodies| && InTable(t, |lives|) && j < |t|
    ensures InTable(t[..j] + t[j + 1..], |lives|)
    ensures Total(sc, p, t, lives) == Plus(Part(sc, p, t[j], lives), Total(sc, p, t[..j] + t[j + 1..], lives))
    decreases j
  {
    if j == 0 {
      assert t[..0] + t[1..] == t[1..];
    } else {
      var u := t[..j] + t[j + 1..];
      assert t[1..][..j - 1] + t[1..][j..] == u[1..];
      TotalMiddle(sc, p, t[1..], j - 1, lives);
    }
  }

  lemma {:induction false} NoStrikesNothing(sc: Scene, p: nat, t: seq<nat>, lives: seq<int>)
    requires p < |sc.pilots| && |lives| == |sc.bodies| && InTable(t, |lives|)
    requires forall i: nat :: i < |lives| && Strikes(sc, p, i, lives[i]) ==> i !in t
    ensures Total(sc, p, t, lives) == NOTHING
    decreases |t|
  {
    if t != [] { NoStrikesNothing(sc, p, t[1..], lives); }
  }

  lemma WithoutOne(t: seq<nat>, j: nat)
    requires Distinct(t) && j < |t|
    ensures var u := t[..j] + t[j + 1..]; Distinct(u) && forall i: nat :: i in u <==> i in t && i != t[j]
  {
    LeftOut(t, j);
    var u := t[..j] + t[j + 1..];
    assert t == t[..j] + [t[j]] + t[j + 1..];
    forall i: nat ensures i in u <==> i in t && i != t[j] {
      assert i in u <==> i in t[..j] || i in t[j + 1..];
    }
  }

  lemma WithoutFirst(s: seq<nat>)
    requires Distinct(s) && s != []
    ensures Distinct(s[1..]) && forall i: nat :: i in s[1..] <==> i in s && i != s[0]
  {
    assert s[..0] + s[1..] == s[1..];
    WithoutOne(s, 0);
  }

  lemma SameWithoutOne(sc: Scene, p: nat, s: seq<nat>, t: seq<nat>, j: nat, lives: seq<int>)
    requires p < |sc.pilots| && |lives| == |sc.bodies| && SameStrikes(sc, p, s, t, lives)
    requires Distinct(s) && Distinct(t) && s != [] && j < |t| && t[j] == s[0]
    ensures SameStrikes(sc, p, s[1..], t[..j] + t[j + 1..], lives)
  {
    hide Strikes, Distinct;
    WithoutFirst(s);
    WithoutOne(t, j);
  }

  lemma SameWithoutFirst(sc: Scene, p: nat, s: seq<nat>, t: seq<nat>, lives: seq<int>)
    requires p < |sc.pilots| && |lives| == |sc.bodies| && SameStrikes(sc, p, s, t, lives)
    requires Distinct(s) && s != [] && s[0] < |lives| && !Strikes(sc, p, s[0], lives[s[0]])
    ensures SameStrikes(sc, p, s[1..], t, lives)
  {
    hide Strikes, Distinct;
    WithoutFirst(s);
  }

  /** In whatever order the objects are taken, they amount to the same. */
  lemma {:induction false} TotalIgnoresOrder(sc: Scene, p: nat, s: seq<nat>, t: seq<nat>, lives: seq<int>)
    requires p < |sc.pilots| && |lives| == |sc.bodies| && InTable(s, |lives|) && InTable(t, |lives|)
    requires Distinct(s) && Distinct(t) && SameStrikes(sc, p, s, t, lives)
    ensures Total(sc, p, s, lives) == Total(sc, p, t, lives)
    decreases |s|
  {
    if s == [] {
      NoStrikesNothing(sc, p, t, lives);
      return;
    }
    assert Strikes(sc, p, s[0], lives[s[0]]) ==> s[0] in t;
    hide Strikes, LoadOf, Distinct, SameStrikes;
    WithoutFirst(s);
    if Strikes(sc, p, s[0], lives[s[0]]) {
      var j :| 0 <= j < |t| && t[j] == s[0];
      WithoutOne(t, j);
      TotalMiddle(sc, p, t, j, lives);
      SameWithoutOne(sc, p, s, t, j, lives);
      TotalIgnoresOrder(sc, p, s[1..], t[..j] + t[j + 1..], lives);
    } else {
      SameWithoutFirst(sc, p, s, t, lives);
      TotalIgnoresOrder(sc, p, s[1..], t, lives);
    }
  }

  /** The objects in the order of their table. */
  function Table(n: nat): (s: seq<nat>)
    ensures |s| == n && forall k :: 0 <= k < n ==> s[k] == k
  {
    seq(n, k requires 0 <= k < n => k)
  }

  lemma TotalOfTable(sc: Scene, p: nat, s: seq<nat>, lives: seq<int>)
    requires p < |sc.pilots| && |lives| == |sc.bodies| && InTable(s, |lives|) && Distinct(s) && Complete(sc, p, s, lives)
    ensures Total(sc, p, s, lives) == Total(sc, p, Table(|lives|), lives)
  {
    hide Strikes, Total;
    var t := Table(|lives|);
    forall i: nat | i < |lives| ensures i in t { assert t[i] == i; }
    TotalIgnoresOrder(sc, p, s, t, lives);
  }

  /** Every object that strikes the player is listed. */
  ghost predicate Complete(sc: Scene, p: nat, s: seq<nat>, lives: seq<int>)
    requires p < |sc.pilots| && |lives| == |sc.bodies|
  {
    forall i: nat :: i < |lives| && Strikes(sc, p, i, lives[i]) ==> i in s
  }

  /** A comparison of player p with every object, which takes no notice of his death. */
  function Compared(sc: Scene, p: nat, lives: seq<int>): (r: seq<int>)
    requires p < |sc.pilots| && |lives| == |sc.bodies|
    ensures |r| == |lives|
    ensures forall i: nat :: i < |lives| ==>
      r[i] == if Strikes(sc, p, i, lives[i]) && Wears(sc.rules, sc.bodies[i]) then 0 else lives[i]
  {
    seq(|lives|, i requires 0 <= i < |lives| => if Strikes(sc, p, i, lives[i]) && Wears(sc.rules, sc.bodies[i]) then 0 else lives[i])
  }

  /** Object s[k] strikes the player and would be used up, but is listed behind those that kill him, or is the wreckage
      or debris that does. */
  ghost predicate Spared(sc: Scene, p: nat, s: seq<nat>, ship: Ship, lives: seq<int>, k: nat)
    requires p < |sc.pilots| && |lives| == |sc.bodies| && InTable(s, |lives|) && k < |s|
  {
    && Strikes(sc, p, s[k], lives[s[k]]) && Wears(sc.rules, sc.bodies[s[k]])
    && Doomed(ship, Total(sc, p, s[..if Hard(sc.bodies[s[k]]) then k + 1 else k], lives))
  }

  ghost predicate NoneSpared(sc: Scene, p: nat, s: seq<nat>, ship: Ship, lives: seq<int>)
    requires p < |sc.pilots| && |lives| == |sc.bodies| && InTable(s, |lives|)
  {
    forall k: nat :: k < |s| ==> !Spared(sc, p, s, ship, lives, k)
  }

  /** More objects do not save a player. */
  lemma {:induction false} DoomStays(sc: Scene, p: nat, s: seq<nat>, ship: Ship, lives: seq<int>, k: nat)
    requires p < |sc.pilots| && |lives| == |sc.bodies| && InTable(s, |lives|) && k <= |s|
    requires Doomed(ship, Total(sc, p, s[..k], lives))
    ensures Doomed(ship, Total(sc, p, s, lives))
    decreases |s| - k
  {
    hide Total, Strikes, Part, Doomed, Plus;
    if k == |s| {
      assert s[..k] == s;
    } else {
      var u := s[..k + 1];
      assert u[..k] + u[k + 1..] == s[..k];
      TotalMiddle(sc, p, u, k, lives);
      DoomGrows(ship, Part(sc, p, s[k], lives), Total(sc, p, s[..k], lives));
      DoomStays(sc, p, s, ship, lives, k + 1);
    }
  }

  lemma DoomGrows(ship: Ship, a: Load, b: Load)
    requires Doomed(ship, b)
    ensures Doomed(ship, Plus(a, b))
  {
  }

  lemma TakenOrSpared(sc: Scene, p: nat, s: seq<nat>, ship: Ship, lives: seq<int>, k: nat)
    requires p < |sc.pilots| && |lives| == |sc.bodies| && InTable(s, |lives|) && k < |s|
    ensures Taken(sc, p, s, ship, lives, k)
            <==> Strikes(sc, p, s[k], lives[s[k]]) && Wears(sc.rules, sc.bodies[s[k]]) && !Spared(sc, p, s, ship, lives, k)
  {
    hide Strikes, Doomed, Total;
    if Doomed(ship, Total(sc, p, s[..k], lives)) {
      assert s[..k + 1][..k] == s[..k];
      DoomStays(sc, p, s[..k + 1], ship, lives, k);
    }
  }

  /** A turn uses up what comparing the player with every object uses up if and only if none of that is spared. */
  lemma TurnAgrees(sc: Scene, p: nat, s: seq<nat>, ship: Ship, lives: seq<int>)
    requires p < |sc.pilots| && |lives| == |sc.bodies| && InTable(s, |lives|) && Distinct(s)
    requires ship.Sound() && ship.state == ALIVE && Complete(sc, p, s, lives)
    ensures Walk(sc, p, s, ship, lives).lives == Compared(sc, p, lives) <==> NoneSpared(sc, p, s, ship, lives)
  {
    var t, all := Walk(sc, p, s, ship, lives).lives, Compared(sc, p, lives);
    hide Walk, Compared, Strikes, Doomed, Total, Distinct;
    forall k: nat | k < |s|
      ensures t[s[k]] == if Strikes(sc, p, s[k], lives[s[k]]) && Wears(sc.rules, sc.bodies[s[k]])
                            && !Spared(sc, p, s, ship, lives, k) then 0 else lives[s[k]]
    {
      TakenOrSpared(sc, p, s, ship, lives, k);
      TurnLives(sc, p, s, ship, lives, k);
    }
    forall i: nat | i < |lives| && i !in s ensures t[i] == lives[i] { OthersKept(sc, p, s, ship, lives, i); }
    hide Taken, Spared;
    if NoneSpared(sc, p, s, ship, lives) {
      forall i: nat | i < |lives| ensures t[i] == all[i] {
        if i in s { var k :| 0 <= k < |s| && s[k] == i; }
      }
      assert t == all;
    }
  }

  /** In whatever order the objects are listed, the player is killed or not, and a survivor's ship and all lives are the
      same. */
  lemma OutcomeIgnoresOrder(sc: Scene, p: nat, s: seq<nat>, t: seq<nat>, ship: Ship, lives: seq<int>)
    requires p < |sc.pilots| && |lives| == |sc.bodies| && InTable(s, |lives|) && InTable(t, |lives|)
    requires Distinct(s) && Distinct(t) && Complete(sc, p, s, lives) && Complete(sc, p, t, lives)
    requires ship.Sound() && ship.state == ALIVE
    ensures var u, v := Walk(sc, p, s, ship, lives), Walk(sc, p, t, ship, lives);
            && (u.ship.state == KILLED <==> v.ship.state == KILLED)
            && (u.ship.state != KILLED ==> u == v && u.lives == Compared(sc, p, lives))
  {
    hide Walk, Compared, Strikes, Distinct, Total, Doomed;
    TotalIgnoresOrder(sc, p, s, t, lives);
    TurnShip(sc, p, s, ship, lives);
    TurnShip(sc, p, t, ship, lives);
    if !Doomed(ship, Total(sc, p, s, lives)) {
      SurvivorSparesNone(sc, p, s, ship, lives);
      SurvivorSparesNone(sc, p, t, ship, lives);
      TurnAgrees(sc, p, s, ship, lives);
      TurnAgrees(sc, p, t, ship, lives);
    }
  }

  lemma SurvivorSparesNone(sc: Scene, p: nat, s: seq<nat>, ship: Ship, lives: seq<int>)
    requires p < |sc.pilots| && |lives| == |sc.bodies| && InTable(s, |lives|)
    requires !Doomed(ship, Total(sc, p, s, lives))
    ensures NoneSpared(sc, p, s, ship, lives)
  {
    hide Total, Strikes, Doomed;
    forall k: nat | k <= |s| ensures !Doomed(ship, Total(sc, p, s[..k], lives)) {
      if Doomed(ship, Total(sc, p, s[..k], lives)) { DoomStays(sc, p, s, ship, lives, k); }
    }
  }

  // ----- What the code does -----

  function Condition(pl: Player): Ship
    reads pl`fuel, pl`fuelMax, pl`usesShield, pl`state
  {
    Ship(pl.fuel, pl.fuelMax, pl.usesShield, pl.state)
  }

  /** Player_fuel_add: the fuel stays between nothing and a full tank. */
  method FuelAdd(pl: Player, amount: int)
    requires Condition(pl).Sound()
    modifies pl`fuel
    ensures pl.fuel == Max(0, Min(pl.fuelMax, old(pl.fuel) + amount))
  {
    var fuel := amount;
    if pl.fuel + fuel > pl.fuelMax {
      fuel := pl.fuelMax - pl.fuel;
    } else if pl.fuel + fuel < 0 {
      fuel := -pl.fuel;
    }
    pl.fuel := pl.fuel + fuel;
  }

  /** The object collides with the ship: it comes closer than its range and the ship's size of 16 pixels. */
  predicate Meeting(sc: Scene, pilot: Pilot, b: Body) {
    Collide(pilot.move, b.move, 16 + b.range, sc.width * 35, sc.height * 35, sc.wrap)
  }

  /** The tests before an object does anything to a player. */
  method Threatens(sc: Scene, p: nat, obj: GameObject, b: Body) returns (hit: bool)
    requires p < |sc.pilots| && 0 <= obj.id < |sc.bodies| && b == sc.bodies[obj.id]
    ensures hit == Strikes(sc, p, obj.id, obj.life)
    // Nothing but an unexpired object that collides with him strikes.
    ensures hit ==> obj.life > 0 && Meeting(sc, sc.pilots[p], b)
    // Of such objects, those that nobody owns strike, and those of others unless team immunity protects him.
    ensures obj.life > 0 && Meeting(sc, sc.pilots[p], b) && b.owner < 0 ==> hit
    ensures obj.life > 0 && Meeting(sc, sc.pilots[p], b) && b.owner >= 0 && b.owner != p ==>
              (hit <==> !sc.rules.teamPlay || !sc.rules.teamImmunity || b.team != sc.pilots[p].team || (b.kind == Ball && !b.attached))
    // His own strike him too, but for sparks that are made not to and shots that are not fused yet.
    ensures obj.life > 0 && Meeting(sc, sc.pilots[p], b) && b.owner == p ==>
              (hit <==> !(b.kind == Spark && b.ownerImmune) && !(b.kind == Shot && obj.life > b.fuse))
  {
    hide Collide;
    if obj.life <= 0 { return false; }
    var range := SHIP_SZ + b.range;
    var met := CollisionOccurred(sc.pilots[p].move, b.move, range, sc.width * BLOCK_SZ, sc.height * BLOCK_SZ, sc.wrap);
    if !met { return false; }
    if b.owner >= 0 {
      if b.owner == p {
        if b.kind.Spark? && b.ownerImmune { return false; }
      } else if sc.rules.teamPlay && sc.rules.teamImmunity && !(b.kind.Ball? && !b.attached) && b.team == sc.pilots[p].team {
        return false;
      }
    }
    if b.kind.Shot? {
      if b.owner == p && obj.life > b.fuse { return false; }
    }
    return true;
  }

  /** What a strike does, kind by kind, to ship s, which is ship t afterwards, and to an object with this life. */
  predicate StrikeMeans(rules: Rules, b: Body, s: Ship, t: Ship, killed: bool, before: int, life: int) {
    && t.tank == s.tank && t.state == (if killed then KILLED else s.state)
    && match b.kind
       case Ball =>
         && t.fuel == (if s.fuel > 12800 then s.fuel - 12800 else 0) && t.shield == s.shield
         && (killed <==> t.fuel == 0 || (rules.treasureCollisionMayKill && !s.shield))
         && life == (if rules.treasureCollisionDestroys then 0 else before)
       case Debris =>
         && t.fuel == (if s.shield then s.fuel else if s.fuel > b.impact then s.fuel - b.impact else 0) && t.shield == s.shield
         && (killed <==> t.fuel == 0) && life == (if killed then before else 0)
       case Wreckage =>
         && t.fuel == (if s.shield then s.fuel else if s.fuel > b.impact then s.fuel - b.impact else 0) && t.shield == s.shield
         && (killed <==> t.fuel == 0 || (rules.wreckageCollisionMayKill && !s.shield)) && life == (if killed then before else 0)
       case Shot =>
         && t.fuel == s.fuel && life == 0 && (killed <==> rules.playerKillings && !s.shield)
         && (t.shield <==> s.shield && (s.fuel > 0 || !rules.playerKillings))
       case _ => t.fuel == s.fuel && t.shield == s.shield && !killed && life == 0
  }

  method StrikeByBall(rules: Rules, pl: Player, obj: GameObject, b: Body) returns (killed: bool)
    requires Condition(pl).Sound() && b.kind.Ball?
    modifies pl`fuel, pl`state, obj`life
    ensures Condition(pl) == Struck(rules, old(Condition(pl)), b) && killed == Kills(rules, old(Condition(pl)), b)
    ensures obj.life == if UsedUp(rules, old(Condition(pl)), b) then 0 else old(obj.life)
  {
    FuelAdd(pl, -BALL_HIT);
    if rules.treasureCollisionDestroys { obj.life := 0; }
    if pl.fuel > 0 {
      if !rules.treasureCollisionMayKill || pl.usesShield { return false; }
    }
    pl.state := KILLED;
    return true;
  }

  method StrikeByDebris(rules: Rules, pl: Player, b: Body) returns (killed: bool)
    requires Condition(pl).Sound() && Hard(b)
    modifies pl`fuel, pl`state
    ensures Condition(pl) == Struck(rules, old(Condition(pl)), b) && killed == Kills(rules, old(Condition(pl)), b)
  {
    if !pl.usesShield { FuelAdd(pl, 0 - b.impact); }
    if pl.fuel == 0 || (b.kind.Wreckage? && rules.wreckageCollisionMayKill && !pl.usesShield) {
      pl.state := KILLED;
      return true;
    }
    return false;
  }

  /** The effects of an object that strikes a player on both. */
  method Strike(rules: Rules, pl: Player, obj: GameObject, b: Body) returns (killed: bool)
    requires Condition(pl).Sound()
    modifies pl`fuel, pl`usesShield, pl`state, obj`life
    ensures Condition(pl) == Struck(rules, old(Condition(pl)), b) && killed == Kills(rules, old(Condition(pl)), b)
    ensures obj.life == if UsedUp(rules, old(Condition(pl)), b) then 0 else old(obj.life)
    ensures StrikeMeans(rules, b, old(Condition(pl)), Condition(pl), killed, old(obj.life), obj.life)
  {
    if b.kind.Ball? {
      killed := StrikeByBall(rules, pl, obj, b);
      return;
    }
    if Hard(b) {
      killed := StrikeByDebris(rules, pl, b);
      if killed { return; }
    }
    obj.life := 0;
    if !(b.kind.Shot? && rules.playerKillings) { return false; }
    if pl.usesShield {
      if pl.fuel <= 0 { pl.usesShield := false; }
    } else {
      pl.state := KILLED;
      return true;
    }
    return false;
  }
}
