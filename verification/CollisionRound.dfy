/** A round of collision checks between players and objects, src/server/collision.c: the living players have their turns one
    after the other. */
module CollisionRound {
  import opened Counting
  import opened Entities
  import opened PlayerHits

  datatype Game = Game(ships: seq<Ship>, lives: seq<int>)

  /** The lists of the objects near each player fit the game. */
  ghost predicate Fits(sc: Scene, lists: seq<seq<nat>>, g: Game) {
    && |lists| == |sc.pilots| == |g.ships| && |g.lives| == |sc.bodies|
    && (forall p :: 0 <= p < |lists| ==> InTable(lists[p], |g.lives|))
    && (forall p :: 0 <= p < |lists| ==> g.ships[p].Sound())
  }

  /** The game after the turn of player p, who has none unless he is alive. */
  ghost function TurnOf(sc: Scene, p: nat, s: seq<nat>, g: Game): Game
    requires p < |sc.pilots| == |g.ships| && |g.lives| == |sc.bodies| && InTable(s, |g.lives|)
  {
    if g.ships[p].state != ALIVE then g else
    var t := Walk(sc, p, s, g.ships[p], g.lives);
    Game(g.ships[p := t.ship], t.lives)
  }

  /** The game after the turns of the first n players. */
  ghost function Turns(sc: Scene, lists: seq<seq<nat>>, g: Game, n: nat): (r: Game)
    requires n <= |lists| && Fits(sc, lists, g)
    ensures Fits(sc, lists, r) && forall q :: n <= q < |lists| ==> r.ships[q] == g.ships[q]
  {
    if n == 0 then g else TurnOf(sc, n - 1, lists[n - 1], Turns(sc, lists, g, n - 1))
  }

  /** The lives after comparing the first n living players with all objects. */
  ghost function Scan(sc: Scene, g: Game, n: nat): (r: seq<int>)
    requires n <= |sc.pilots| == |g.ships| && |g.lives| == |sc.bodies|
    ensures |r| == |g.lives|
  {
    if n == 0 then g.lives
    else if g.ships[n - 1].state == ALIVE then Compared(sc, n - 1, Scan(sc, g, n - 1))
    else Scan(sc, g, n - 1)
  }

  lemma {:induction false} ScanIsPairs(sc: Scene, g: Game, n: nat, i: nat)
    requires n <= |sc.pilots| == |g.ships| && |g.lives| == |sc.bodies| && i < |g.lives|
    ensures Scan(sc, g, n)[i]
            == if Wears(sc.rules, sc.bodies[i])
                  && (exists p: nat :: p < n && g.ships[p].state == ALIVE && Strikes(sc, p, i, g.lives[i]))
               then 0 else g.lives[i]
    decreases n
  {
    hide Strikes, Wears;
    if n > 0 {
      ScanIsPairs(sc, g, n - 1, i);
      DeadNeverStrikes(sc, n - 1, i);
    }
  }

  lemma DeadNeverStrikes(sc: Scene, p: nat, i: nat)
    requires p < |sc.pilots| && i < |sc.bodies|
    ensures !Strikes(sc, p, i, 0)
  {
  }

  /** The lists name each object once, and all that can strike their player. */
  ghost predicate Listed(sc: Scene, lists: seq<seq<nat>>, g: Game)
    requires Fits(sc, lists, g)
  {
    forall p: nat :: p < |lists| ==> Distinct(lists[p]) && (g.ships[p].state == ALIVE ==> Complete(sc, p, lists[p], g.lives))
  }

  /** In a game in which some objects have been used up since, the lists are as good. */
  ghost predicate Later(a: seq<int>, b: seq<int>) { |a| == |b| && forall i :: 0 <= i < |a| ==> b[i] == a[i] || b[i] == 0 }

  lemma StillComplete(sc: Scene, p: nat, s: seq<nat>, a: seq<int>, b: seq<int>)
    requires p < |sc.pilots| && |a| == |sc.bodies| && Later(a, b) && Complete(sc, p, s, a)
    ensures Complete(sc, p, s, b)
  {
    forall i: nat | i < |b| && Strikes(sc, p, i, b[i]) ensures i in s {
      DeadNeverStrikes(sc, p, i);
      hide Strikes;
    }
  }

  lemma {:induction false} ScanIsLater(sc: Scene, g: Game, n: nat)
    requires n <= |sc.pilots| == |g.ships| && |g.lives| == |sc.bodies|
    ensures Later(g.lives, Scan(sc, g, n))
    decreases n
  {
    hide Strikes, Wears;
    if n > 0 { ScanIsLater(sc, g, n - 1); }
  }

  /** After each of the first n turns the lives are those of a comparison of the players so far with all objects. */
  ghost predicate Faithful(sc: Scene, lists: seq<seq<nat>>, g: Game, n: nat)
    requires n <= |lists| && Fits(sc, lists, g)
  {
    forall m: nat :: m <= n ==> Turns(sc, lists, g, m).lives == Scan(sc, g, m)
  }

  /** In none of the first n turns an object is spared. */
  ghost predicate NeverSpares(sc: Scene, lists: seq<seq<nat>>, g: Game, n: nat)
    requires n <= |lists| && Fits(sc, lists, g)
  {
    forall p: nat :: p < n && g.ships[p].state == ALIVE ==> NoneSpared(sc, p, lists[p], g.ships[p], Scan(sc, g, p))
  }

  /** The turns agree with comparing all players with all objects if and only if no object is spared. */
  lemma {:induction false} RoundAgrees(sc: Scene, lists: seq<seq<nat>>, g: Game, n: nat)
    requires n <= |lists| && Fits(sc, lists, g) && Listed(sc, lists, g)
    ensures Faithful(sc, lists, g, n) <==> NeverSpares(sc, lists, g, n)
    decreases n
  {
    if n == 0 { return; }
    var p := n - 1;
    OneTurnFurther(sc, lists, g, p);
    hide Fits, Listed, NoneSpared, Faithful, NeverSpares, Turns, Scan;
    RoundAgrees(sc, lists, g, p);
    if Faithful(sc, lists, g, p) {
      FaithfulSoFar(sc, lists, g, p);
      NextTurnAgrees(sc, lists, g, p);
    }
  }

  lemma FaithfulSoFar(sc: Scene, lists: seq<seq<nat>>, g: Game, n: nat)
    requires n <= |lists| && Fits(sc, lists, g) && Faithful(sc, lists, g, n)
    ensures Turns(sc, lists, g, n).lives == Scan(sc, g, n)
  {
    hide Fits, Turns, Scan;
  }

  lemma OneTurnFurther(sc: Scene, lists: seq<seq<nat>>, g: Game, p: nat)
    requires p < |lists| && Fits(sc, lists, g)
    ensures Faithful(sc, lists, g, p + 1)
            <==> Faithful(sc, lists, g, p) && Turns(sc, lists, g, p + 1).lives == Scan(sc, g, p + 1)
    ensures NeverSpares(sc, lists, g, p + 1)
            <==> NeverSpares(sc, lists, g, p)
                 && (g.ships[p].state == ALIVE ==> NoneSpared(sc, p, lists[p], g.ships[p], Scan(sc, g, p)))
  {
    hide Turns, Scan, NoneSpared;
  }

  lemma NextTurnAgrees(sc: Scene, lists: seq<seq<nat>>, g: Game, p: nat)
    requires p < |lists| && Fits(sc, lists, g) && Listed(sc, lists, g)
    requires Turns(sc, lists, g, p).lives == Scan(sc, g, p)
    ensures Turns(sc, lists, g, p + 1).lives == Scan(sc, g, p + 1)
            <==> (g.ships[p].state == ALIVE ==> NoneSpared(sc, p, lists[p], g.ships[p], Scan(sc, g, p)))
  {
    hide Distinct, Complete, NoneSpared, Walk, Compared;
    if g.ships[p].state == ALIVE {
      ScanIsLater(sc, g, p);
      StillComplete(sc, p, lists[p], g.lives, Scan(sc, g, p));
      TurnAgrees(sc, p, lists[p], g.ships[p], Scan(sc, g, p));
    }
  }

  // ----- The end of a round -----

  lemma {:induction false} WalkIsLater(sc: Scene, p: nat, s: seq<nat>, ship: Ship, lives: seq<int>)
    requires p < |sc.pilots| && |lives| == |sc.bodies| && InTable(s, |lives|)
    ensures Later(lives, Walk(sc, p, s, ship, lives).lives)
    decreases |s|
  {
    hide Strikes, UsedUp, Struck, Kills;
    if s == [] { return; }
    var b := sc.bodies[s[0]];
    if !Strikes(sc, p, s[0], lives[s[0]]) {
      WalkIsLater(sc, p, s[1..], ship, lives);
    } else if !Kills(sc.rules, ship, b) {
      WalkIsLater(sc, p, s[1..], Struck(sc.rules, ship, b), if UsedUp(sc.rules, ship, b) then lives[s[0] := 0] else lives);
    }
  }

  lemma TurnIsLater(sc: Scene, lists: seq<seq<nat>>, g: Game, p: nat)
    requires p < |lists| && Fits(sc, lists, g)
    ensures Later(Turns(sc, lists, g, p).lives, Turns(sc, lists, g, p + 1).lives)
  {
    var h := Turns(sc, lists, g, p);
    hide Walk;
    WalkIsLater(sc, p, lists[p], h.ships[p], h.lives);
  }

  /** In the course of a round lives only end. */
  lemma {:induction false} TurnsAreLater(sc: Scene, lists: seq<seq<nat>>, g: Game, m: nat, n: nat)
    requires m <= n <= |lists| && Fits(sc, lists, g)
    ensures Later(Turns(sc, lists, g, m).lives, Turns(sc, lists, g, n).lives)
    decreases n
  {
    hide Fits, Turns;
    if m < n {
      TurnsAreLater(sc, lists, g, m, n - 1);
      TurnIsLater(sc, lists, g, n - 1);
    }
  }

  /** A player's ship is changed in his own turn only. */
  lemma {:induction false} OwnTurnOnly(sc: Scene, lists: seq<seq<nat>>, g: Game, p: nat, n: nat)
    requires p < n <= |lists| && Fits(sc, lists, g)
    ensures Turns(sc, lists, g, n).ships[p] == Turns(sc, lists, g, p + 1).ships[p]
    decreases n
  {
    hide Walk;
    if p + 1 < n { OwnTurnOnly(sc, lists, g, p, n - 1); }
  }

  /** Who is killed in a round, and what the ships of the others are like, depends on how the objects are found only as
      far as earlier players have used some up: all the objects that strike him, in any order, are too much for him. */
  lemma RoundShips(sc: Scene, lists: seq<seq<nat>>, g: Game, p: nat, n: nat)
    requires p < n <= |lists| && Fits(sc, lists, g) && Listed(sc, lists, g) && g.ships[p].state == ALIVE
    ensures var lives, ship := Turns(sc, lists, g, p).lives, Turns(sc, lists, g, n).ships[p];
            var all := Total(sc, p, Table(|lives|), lives);
            && (ship.state == KILLED <==> Doomed(g.ships[p], all))
            && (!Doomed(g.ships[p], all) ==> ship == Survivor(g.ships[p], all))
  {
    var h, s := Turns(sc, lists, g, p), lists[p];
    TurnsAreLater(sc, lists, g, 0, p);
    StillComplete(sc, p, s, g.lives, h.lives);
    OwnTurnOnly(sc, lists, g, p, n);
    hide Walk, Total, Strikes, Doomed, Survivor, Later, Distinct, Complete, InTable;
    TurnShip(sc, p, s, g.ships[p], h.lives);
    TotalOfTable(sc, p, s, h.lives);
  }

  lemma {:induction false} NotStruckKept(sc: Scene, p: nat, s: seq<nat>, ship: Ship, lives: seq<int>, i: nat)
    requires p < |sc.pilots| && |lives| == |sc.bodies| && InTable(s, |lives|) && i < |lives|
    requires !(Strikes(sc, p, i, lives[i]) && Wears(sc.rules, sc.bodies[i]))
    ensures Walk(sc, p, s, ship, lives).lives[i] == lives[i]
    decreases |s|
  {
    hide Strikes, Struck, Kills;
    if s == [] { return; }
    var b := sc.bodies[s[0]];
    if !Strikes(sc, p, s[0], lives[s[0]]) {
      NotStruckKept(sc, p, s[1..], ship, lives, i);
    } else if !Kills(sc.rules, ship, b) {
      NotStruckKept(sc, p, s[1..], Struck(sc.rules, ship, b), if UsedUp(sc.rules, ship, b) then lives[s[0] := 0] else lives, i);
    }
  }

  /** Object i strikes a living player among the first n and would be used up. */
  ghost predicate Paired(sc: Scene, g: Game, n: nat, i: nat)
    requires n <= |sc.pilots| == |g.ships| && |g.lives| == |sc.bodies| && i < |g.lives|
  {
    Wears(sc.rules, sc.bodies[i]) && exists p: nat :: p < n && g.ships[p].state == ALIVE && Strikes(sc, p, i, g.lives[i])
  }

  lemma {:induction false} UnpairedKept(sc: Scene, lists: seq<seq<nat>>, g: Game, n: nat, i: nat)
    requires n <= |lists| && Fits(sc, lists, g) && i < |g.lives| && !Paired(sc, g, n, i)
    ensures Turns(sc, lists, g, n).lives[i] == g.lives[i]
    decreases n
  {
    hide Walk, Strikes, Wears;
    if n > 0 {
      var h := Turns(sc, lists, g, n - 1);
      UnpairedKept(sc, lists, g, n - 1, i);
      if h.ships[n - 1].state == ALIVE { NotStruckKept(sc, n - 1, lists[n - 1], h.ships[n - 1], h.lives, i); }
    }
  }

  /** What a player leaves behind in one of the first n turns is used up in a later one. */
  ghost predicate Redeemed(sc: Scene, lists: seq<seq<nat>>, g: Game, n: nat)
    requires n <= |lists| && Fits(sc, lists, g)
  {
    forall p: nat, k: nat :: p < n && k < |lists[p]| ==> RedeemedOne(sc, lists, g, n, p, k)
  }

  ghost predicate RedeemedOne(sc: Scene, lists: seq<seq<nat>>, g: Game, n: nat, p: nat, k: nat)
    requires p < n <= |lists| && Fits(sc, lists, g) && k < |lists[p]|
  {
    g.ships[p].state == ALIVE && Spared(sc, p, lists[p], g.ships[p], Turns(sc, lists, g, p).lives, k)
    ==> Turns(sc, lists, g, n).lives[lists[p][k]] == 0
  }

  lemma UsedUpInTime(sc: Scene, lists: seq<seq<nat>>, g: Game, n: nat, p: nat, i: nat)
    requires p < n <= |lists| && Fits(sc, lists, g) && Listed(sc, lists, g) && Redeemed(sc, lists, g, n)
    requires g.ships[p].state == ALIVE && i < |g.lives| && Strikes(sc, p, i, g.lives[i]) && Wears(sc.rules, sc.bodies[i])
    ensures Turns(sc, lists, g, n).lives[i] == 0
  {
    hide Listed, Strikes, Wears, Spared, Turns;
    var k := ListedAt(sc, lists, g, p, i);
    assert RedeemedOne(sc, lists, g, n, p, k);
    TakenOrSparedInTurn(sc, lists, g, p, k);
    hide Redeemed, RedeemedOne, Fits;
    InCourse(sc, lists, g, p, n, i);
  }

  lemma ListedAt(sc: Scene, lists: seq<seq<nat>>, g: Game, p: nat, i: nat) returns (k: nat)
    requires p < |lists| && Fits(sc, lists, g) && Listed(sc, lists, g) && g.ships[p].state == ALIVE
    requires i < |g.lives| && Strikes(sc, p, i, g.lives[i])
    ensures k < |lists[p]| && lists[p][k] == i
  {
    hide Strikes, Distinct;
    k :| 0 <= k < |lists[p]| && lists[p][k] == i;
  }

  /** The life of object i in the course of a round. */
  lemma InCourse(sc: Scene, lists: seq<seq<nat>>, g: Game, p: nat, n: nat, i: nat)
    requires p < n <= |lists| && Fits(sc, lists, g) && i < |g.lives|
    ensures var a, b, c := Turns(sc, lists, g, p).lives[i], Turns(sc, lists, g, p + 1).lives[i], Turns(sc, lists, g, n).lives[i];
            && (a == g.lives[i] || a == 0) && (a == 0 || b == 0 ==> c == 0)
  {
    TurnsAreLater(sc, lists, g, 0, p);
    TurnsAreLater(sc, lists, g, p, n);
    TurnsAreLater(sc, lists, g, p + 1, n);
  }

  lemma TakenOrSparedInTurn(sc: Scene, lists: seq<seq<nat>>, g: Game, p: nat, k: nat)
    requires p < |lists| && Fits(sc, lists, g) && Listed(sc, lists, g) && g.ships[p].state == ALIVE && k < |lists[p]|
    ensures var lives, i := Turns(sc, lists, g, p).lives, lists[p][k];
            Strikes(sc, p, i, lives[i]) && Wears(sc.rules, sc.bodies[i]) && !Spared(sc, p, lists[p], g.ships[p], lives, k)
            ==> Turns(sc, lists, g, p + 1).lives[i] == 0
  {
    var h := Turns(sc, lists, g, p);
    hide Walk, Strikes, Wears, Taken, Spared, Complete;
    TakenOrSpared(sc, p, lists[p], g.ships[p], h.lives, k);
    TurnLives(sc, p, lists[p], g.ships[p], h.lives, k);
  }

  lemma RedeemedIfAlike(sc: Scene, lists: seq<seq<nat>>, g: Game, n: nat, p: nat, k: nat)
    requires p < n <= |lists| && Fits(sc, lists, g) && k < |lists[p]|
    requires Turns(sc, lists, g, n).lives == Scan(sc, g, n)
    ensures RedeemedOne(sc, lists, g, n, p, k)
  {
    var h, i := Turns(sc, lists, g, p), lists[p][k];
    TurnsAreLater(sc, lists, g, 0, p);
    DeadNeverStrikes(sc, p, i);
    ScanIsPairs(sc, g, n, i);
    hide Strikes, Wears;
  }

  /** At the end of the round the lives are those of comparing all players with all objects if and only if every object
      that a player leaves behind is used up in a later turn. */
  lemma RoundEndsAlike(sc: Scene, lists: seq<seq<nat>>, g: Game, n: nat)
    requires n <= |lists| && Fits(sc, lists, g) && Listed(sc, lists, g)
    ensures Turns(sc, lists, g, n).lives == Scan(sc, g, n) <==> Redeemed(sc, lists, g, n)
  {
    hide Listed, RedeemedOne, Turns, Scan, Strikes, Wears;
    if Turns(sc, lists, g, n).lives == Scan(sc, g, n) {
      forall p: nat, k: nat | p < n && k < |lists[p]| ensures RedeemedOne(sc, lists, g, n, p, k) {
        RedeemedIfAlike(sc, lists, g, n, p, k);
      }
    }
    if Redeemed(sc, lists, g, n) {
      forall i: nat | i < |g.lives| ensures Turns(sc, lists, g, n).lives[i] == Scan(sc, g, n)[i] {
        ScanIsPairs(sc, g, n, i);
        if Paired(sc, g, n, i) {
          var p: nat :| p < n && g.ships[p].state == ALIVE && Strikes(sc, p, i, g.lives[i]);
          UsedUpInTime(sc, lists, g, n, p, i);
        } else {
          UnpairedKept(sc, lists, g, n, i);
        }
      }
    }
  }

  /** A round in which nobody is killed ends like comparing all players with all objects. */
  lemma NobodyKilled(sc: Scene, lists: seq<seq<nat>>, g: Game, n: nat)
    requires n <= |lists| && Fits(sc, lists, g) && Listed(sc, lists, g)
    requires forall p: nat :: p < n && g.ships[p].state == ALIVE ==> Turns(sc, lists, g, n).ships[p].state != KILLED
    ensures Turns(sc, lists, g, n).lives == Scan(sc, g, n)
  {
    hide Listed, Turns, Scan, Spared;
    forall p: nat, k: nat | p < n && k < |lists[p]| && g.ships[p].state == ALIVE
      ensures !Spared(sc, p, lists[p], g.ships[p], Turns(sc, lists, g, p).lives, k)
    {
      if Spared(sc, p, lists[p], g.ships[p], Turns(sc, lists, g, p).lives, k) { SparedIsKilled(sc, lists, g, n, p, k); }
    }
    RoundEndsAlike(sc, lists, g, n);
  }

  lemma SparedIsKilled(sc: Scene, lists: seq<seq<nat>>, g: Game, n: nat, p: nat, k: nat)
    requires p < n <= |lists| && Fits(sc, lists, g) && Listed(sc, lists, g) && g.ships[p].state == ALIVE && k < |lists[p]|
    requires Spared(sc, p, lists[p], g.ships[p], Turns(sc, lists, g, p).lives, k)
    ensures Turns(sc, lists, g, n).ships[p].state == KILLED
  {
    var h, s := Turns(sc, lists, g, p), lists[p];
    OwnTurnOnly(sc, lists, g, p, n);
    hide Walk, Strikes, Doomed, Total, Complete;
    DoomStays(sc, p, s, g.ships[p], h.lives, if Hard(sc.bodies[s[k]]) then k + 1 else k);
    TurnShip(sc, p, s, g.ships[p], h.lives);
  }

  /** Player p is killed exactly if all the objects that strike him in his turn are too much for him, and a survivor's
      ship is what they leave of it. */
  ghost predicate KilledByAll(sc: Scene, lists: seq<seq<nat>>, g: Game, p: nat)
    requires Fits(sc, lists, g) && p < |lists|
  {
    var lives, ship := Turns(sc, lists, g, p).lives, Turns(sc, lists, g, |lists|).ships[p];
    var all := Total(sc, p, Table(|lives|), lives);
    && (ship.state == KILLED <==> Doomed(g.ships[p], all))
    && (!Doomed(g.ships[p], all) ==> ship == Survivor(g.ships[p], all))
  }

  ghost predicate NobodyDies(sc: Scene, lists: seq<seq<nat>>, g: Game)
    requires Fits(sc, lists, g)
  {
    forall p: nat :: p < |lists| && g.ships[p].state == ALIVE ==> Turns(sc, lists, g, |lists|).ships[p].state != KILLED
  }

  /** How a round is related to a comparison of all players with all objects: it agrees with it in every turn if and only
      if no turn spares an object, at its end if and only if every object spared is used up in a later turn, and whenever
      nobody is killed; and who is killed follows from all the objects that strike him. */
  ghost predicate ExactRound(sc: Scene, lists: seq<seq<nat>>, g: Game)
    requires Fits(sc, lists, g)
  {
    var n := |lists|;
    && (Faithful(sc, lists, g, n) <==> NeverSpares(sc, lists, g, n))
    && (Turns(sc, lists, g, n).lives == Scan(sc, g, n) <==> Redeemed(sc, lists, g, n))
    && (NobodyDies(sc, lists, g) ==> Turns(sc, lists, g, n).lives == Scan(sc, g, n))
    && (forall p: nat :: p < n && g.ships[p].state == ALIVE ==> KilledByAll(sc, lists, g, p))
  }

  lemma RoundIsExact(sc: Scene, lists: seq<seq<nat>>, g: Game)
    requires Fits(sc, lists, g) && Listed(sc, lists, g)
    ensures ExactRound(sc, lists, g)
  {
    hide Listed, Turns, Faithful, NeverSpares, Redeemed, Scan, Total, Doomed, Survivor;
    var n := |lists|;
    RoundAgrees(sc, lists, g, n);
    RoundEndsAlike(sc, lists, g, n);
    if NobodyDies(sc, lists, g) { NobodyKilled(sc, lists, g, n); }
    forall p: nat | p < n && g.ships[p].state == ALIVE ensures KilledByAll(sc, lists, g, p) {
      RoundShips(sc, lists, g, p, n);
    }
  }
}
