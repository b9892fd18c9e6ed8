/** The player table of src/server/player.c: identifiers, the index of every player, and the references that
    players hold to each other.  Teams, home bases and objects are kept by the other modules. */
module Registry {
  import opened Counting
  import opened Entities
  import IdRing
  import ObjectPool
  import TeamRules
  import Teams

  // ----- References between players -----

  ghost predicate AllIn(a: array<Player?>, group: set<Player>)
    reads a
  {
    forall j :: 0 <= j < a.Length && a[j] != null ==> a[j] in group
  }

  /** All that p refers to is in the group: the target of an active lock, the target of a robot's war, the lock
      bank, and those who pushed him. */
  ghost predicate RefersTo(p: Player, group: set<Player>)
    reads p`lockPlayer, p`lockVisible, p`lockObject, p`isRobot, p`war, p.lockbank, p.shovers
  {
    && ((p.lockPlayer || p.lockVisible) && p.lockObject != null ==> p.lockObject in group)
    && (p.isRobot && p.war != null ==> p.war in group)
    && AllIn(p.lockbank, group) && AllIn(p.shovers, group)
  }

  /** Only entries equal to q may have been emptied. */
  twostate predicate OnlyEmptied(a: array<Player?>, q: Player)
    reads a
  {
    forall j :: 0 <= j < a.Length ==> a[j] == old(a[j]) || (old(a[j]) == q && a[j] == null)
  }

  /** A player's lock and, for a robot, his war. */
  datatype Ties = Ties(lockPlayer: bool, lockVisible: bool, lockObject: Player?, isRobot: bool, war: Player?)

  function TiesOf(p: Player): Ties
    reads p`lockPlayer, p`lockVisible, p`lockObject, p`isRobot, p`war
  {
    Ties(p.lockPlayer, p.lockVisible, p.lockObject, p.isRobot, p.war)
  }

  /** A lock on q is dropped, with `few` players left any lock, and a robot ends its war on q. */
  function WithoutTies(t: Ties, q: Player, few: bool): Ties {
    var drop := few || t.lockObject == q;
    t.(lockPlayer := t.lockPlayer && !drop, lockVisible := t.lockVisible && !drop,
       war := if t.isRobot && t.war == q then null else t.war)
  }

  /** All that a player remembers of others. */
  datatype Memory = Memory(ties: Ties, lockbank: seq<Player?>, shovers: seq<Player?>)

  function MemoryOf(p: Player): Memory
    reads p`lockPlayer, p`lockVisible, p`lockObject, p`isRobot, p`war, p.lockbank, p.shovers
  {
    Memory(TiesOf(p), p.lockbank[..], p.shovers[..])
  }

  ghost function Memories(ps: seq<Player>): seq<Memory>
    reads ps
    reads set p | p in ps :: p.lockbank, set p | p in ps :: p.shovers
  {
    seq(|ps|, k requires 0 <= k < |ps| reads ps, set p | p in ps :: p.lockbank, set p | p in ps :: p.shovers => MemoryOf(ps[k]))
  }

  /** The entries of a list that name q, and no others, are empty afterwards. */
  function WithoutEntry(a: seq<Player?>, q: Player): seq<Player?> {
    seq(|a|, k requires 0 <= k < |a| => if a[k] == q then null else a[k])
  }

  /** Every player has forgotten q, and nothing else except that the last one left drops his lock. */
  ghost predicate AllForget(before: seq<Memory>, now: seq<Memory>, q: Player) {
    |now| == |before| && forall k :: 0 <= k < |now| ==>
      now[k] == Memory(WithoutTies(before[k].ties, q, |now| <= 1), WithoutEntry(before[k].lockbank, q), WithoutEntry(before[k].shovers, q))
  }

  /** Forgetting q, field by field: no list names him any more and only his entries are gone, whoever was locked on q has no
      lock, nor has the last player left, and of the wars only those of robots against q are over. */
  lemma ForgetMeans(before: seq<Memory>, now: seq<Memory>, q: Player, k: nat)
    requires AllForget(before, now, q) && k < |now|
    ensures var was, left := before[k], now[k];
            && |left.lockbank| == |was.lockbank|
            && (forall j :: 0 <= j < |was.lockbank| ==> left.lockbank[j] == if was.lockbank[j] == q then null else was.lockbank[j])
            && |left.shovers| == |was.shovers|
            && (forall j :: 0 <= j < |was.shovers| ==> left.shovers[j] == if was.shovers[j] == q then null else was.shovers[j])
            && (left.ties.lockPlayer <==> was.ties.lockPlayer && was.ties.lockObject != q && |now| > 1)
            && (left.ties.lockVisible <==> was.ties.lockVisible && was.ties.lockObject != q && |now| > 1)
            && left.ties.lockObject == was.ties.lockObject && left.ties.isRobot == was.ties.isRobot
            && left.ties.war == if was.ties.isRobot && was.ties.war == q then null else was.ties.war
  {
  }

  method Empty(a: array<Player?>, q: Player, ghost all: set<array<Player?>>)
    requires a in all
    modifies a
    ensures q !in a[..] && forall b :: b in all ==> OnlyEmptied(b, q)
  {
    for j := 0 to a.Length
      invariant OnlyEmptied(a, q) && forall k :: 0 <= k < j ==> a[k] != q
    {
      if a[j] == q { a[j] := null; }
    }
  }

  /** Player p forgets about player q; with `few` players left he drops any lock. */
  method Forget(p: Player, q: Player, few: bool, ghost group: set<Player>, ghost all: set<array<Player?>>)
    requires p.lockbank in all && p.shovers in all && RefersTo(p, group)
    modifies p`lockPlayer, p`lockVisible, p`war, p.lockbank, p.shovers
    ensures forall b :: b in all ==> OnlyEmptied(b, q)
    ensures RefersTo(p, group - {q})
    ensures TiesOf(p) == WithoutTies(old(TiesOf(p)), q, few)
  {
    if (p.lockPlayer || p.lockVisible) && (p.lockObject == q || few) {
      p.lockPlayer, p.lockVisible := false, false;
    }
    if p.isRobot && p.war == q {
      p.war := null;
    }
    Empty(p.lockbank, q, all);
    Empty(p.shovers, q, all);
  }

  predicate ArraysApart(p: Player, q: Player) {
    p.lockbank != q.lockbank && p.lockbank != q.shovers && p.shovers != q.lockbank && p.shovers != q.shovers
  }

  ghost function BanksOf(ps: seq<Player>): set<array<Player?>> {
    (set p | p in ps :: p.lockbank) + (set p | p in ps :: p.shovers)
  }

  /** Swapping with the last of the players in the game, seen from the whole table. */
  lemma TailSwap(before: seq<Player>, now: seq<Player>, last: nat, ind: nat)
    requires ind <= last < |before| && now == before[ind := before[last]][last := before[ind]]
    ensures now[..last] == ObjectPool.SwapOutAt(before[..last + 1], ind) && now[ind] == before[last]
    ensures forall p :: p in now ==> p in before
  {
  }

  class Registry {
    const teams: Teams.TeamPlay
    const pool: ObjectPool.Pool
    const ids: IdRing.Ids
    const getInd: array<int>
    const swapper: array<Player?>
    /** The lock banks and shove records of all players. */
    ghost const banks: set<array<Player?>>
    /** All players, in the game or not. */
    ghost const everyone: set<Player>

    ghost predicate Apart()
      reads teams.players
    {
      && getInd.Length == IdRing.NUM_IDS + 1 && swapper.Length == TeamRules.MAX_TEAMS && swapper !in banks
      && getInd !in {ids.queue, ids.inUse, teams.numMembers} && teams.numMembers !in {ids.queue, ids.inUse}
      && (forall i :: 0 <= i < teams.players.Length ==> teams.players[i] in everyone)
      && (forall p :: p in everyone ==> p.lockbank in banks && p.shovers in banks)
      && (forall p, q :: p in everyone && q in everyone && p != q ==> ArraysApart(p, q))
    }

    /** The players in the game. */
    ghost function Players(): seq<Player>
      requires teams.numPlayers <= teams.players.Length
      reads teams`numPlayers, teams.players
    {
      teams.players[..teams.numPlayers]
    }

    /** The identifiers in use are exactly those of the players listed, and lead to their places in the list; only
        `extra` may be in use without a player. */
    ghost predicate NumberedList(ps: seq<Player>, extra: int)
      reads ps`id, getInd, ids.inUse
    {
      && getInd.Length == ids.inUse.Length == IdRing.NUM_IDS + 1
      && (forall i :: 0 <= i < |ps| ==>
            1 <= ps[i].id <= IdRing.NUM_IDS && ps[i].id != extra && ids.inUse[ps[i].id] == 1 && getInd[ps[i].id] == i)
      && (forall id :: 1 <= id <= IdRing.NUM_IDS && id != extra && ids.inUse[id] == 1 ==>
            0 <= getInd[id] < |ps| && ps[getInd[id]].id == id)
    }

    ghost predicate Numbered()
      reads teams`numPlayers, teams.players, teams.players[..]`id, getInd, ids.inUse
    {
      teams.numPlayers <= teams.players.Length && NumberedList(Players(), 0)
    }

    ghost predicate AllRefer(ps: seq<Player>, group: set<Player>)
      reads ps`lockPlayer, ps`lockVisible, ps`lockObject, ps`isRobot, ps`war, banks
    {
      forall p :: p in ps ==> p.lockbank in banks && p.shovers in banks && RefersTo(p, group)
    }

    /** Players, and the lists of those who want to swap teams, refer only to players in the game. */
    ghost predicate Acquainted()
      reads teams`numPlayers, teams.players, swapper
      reads teams.players[..]`lockPlayer, teams.players[..]`lockVisible, teams.players[..]`lockObject
      reads teams.players[..]`isRobot, teams.players[..]`war, banks
    {
      && teams.numPlayers <= teams.players.Length
      && AllRefer(Players(), set p | p in Players()) && AllIn(swapper, set p | p in Players())
    }

    ghost predicate Valid()
      reads this, teams, teams.players, teams.players[..], teams.numMembers
      reads pool, pool.obj, pool.have, pool.objects, pool.players
      reads ids, ids.queue, ids.inUse, getInd, swapper, banks
    {
      && Apart() && teams.Linked() && pool.Valid() && ids.Valid() && Numbered() && Acquainted()
      && pool.players == Players()
    }

    /** A game without players yet. */
    constructor (teams: Teams.TeamPlay, pool: ObjectPool.Pool)
      requires teams.Linked() && pool.Valid() && teams.numPlayers == 0 && pool.players == []
      requires forall p, q :: p in teams.players[..] && q in teams.players[..] && p != q ==> ArraysApart(p, q)
      ensures Valid() && this.teams == teams && this.pool == pool && fresh(getInd) && fresh(swapper) && fresh(ids) && fresh(ids.inUse)
    {
      hide Teams.TeamPlay.Linked, ObjectPool.Pool.Valid, ObjectPool.Pool.ValidBut, IdRing.Ids.Valid, ArraysApart, Apart, Numbered, Acquainted;
      hide Valid;
      ghost var lists := BanksOf(teams.players[..]);
      this.teams, this.pool := teams, pool;
      ids := new IdRing.Ids();
      getInd := new int[IdRing.NUM_IDS + 1](_ => 0);
      swapper := new Player?[TeamRules.MAX_TEAMS](_ => null);
      everyone := set p | p in teams.players[..];
      banks := lists;
      new;
      EmptyGame();
    }

    lemma EmptyGame()
      requires teams.Linked() && pool.Valid() && ids.Valid() && teams.numPlayers == 0 && pool.players == []
      requires |ids.free| == IdRing.NUM_IDS && forall k :: 0 <= k < IdRing.NUM_IDS ==> ids.free[k] == k + 1
      requires getInd.Length == IdRing.NUM_IDS + 1 && swapper.Length == TeamRules.MAX_TEAMS && swapper !in banks
      requires getInd !in {ids.queue, ids.inUse, teams.numMembers} && teams.numMembers !in {ids.queue, ids.inUse}
      requires banks == BanksOf(teams.players[..]) && everyone == set p | p in teams.players[..]
      requires forall p, q :: p in teams.players[..] && q in teams.players[..] && p != q ==> ArraysApart(p, q)
      requires forall j :: 0 <= j < swapper.Length ==> swapper[j] == null
      ensures Valid()
    {
      hide ArraysApart, Teams.TeamPlay.Linked, ObjectPool.Pool.Valid, ObjectPool.Pool.ValidBut, IdRing.Ids.Placed;
      forall id | 1 <= id <= IdRing.NUM_IDS ensures ids.inUse[id] == 0 {
        assert ids.free[id - 1] == id;
      }
    }

    // ----- Identifiers run out with the 257th player -----

    /** An identifier is free exactly as long as fewer than 256 players are in the game. */
    lemma IdsLeft(ps: seq<Player>)
      requires NumberedList(ps, 0) && ids.Valid()
      ensures |ps| <= IdRing.NUM_IDS && (ids.free == [] <==> |ps| == IdRing.NUM_IDS)
    {
      var n := |ps|;
      var taken := seq(n, i requires 0 <= i < n reads ps => ps[i].id - 1);
      forall i, j | 0 <= i < j < n ensures taken[i] != taken[j] {
        assert getInd[ps[i].id] == i && getInd[ps[j].id] == j;
      }
      DistinctBelow(taken, IdRing.NUM_IDS);
      if ids.free == [] {
        var places := seq(IdRing.NUM_IDS, k requires 0 <= k < IdRing.NUM_IDS reads getInd => getInd[k + 1]);
        assert forall k :: 0 <= k < IdRing.NUM_IDS ==> ids.inUse[k + 1] == 1 && ps[places[k]].id == k + 1;
        DistinctBelow(places, n);
      } else {
        var x := ids.free[0];
        var more := taken + [x - 1];
        assert x in ids.free && ids.inUse[x] == 0;
        DistinctBelow(more, IdRing.NUM_IDS);
      }
    }

    // ----- Player_remove -----

    /** Nobody on a team list wants to swap with the player any more. */
    method DropSwapper(pl: Player, ghost group: set<Player>)
      requires swapper.Length == TeamRules.MAX_TEAMS && AllIn(swapper, group)
      modifies swapper
      ensures AllIn(swapper, group - {pl})
      ensures forall j :: 0 <= j < swapper.Length ==> swapper[j] == if old(swapper[j]) == pl then null else old(swapper[j])
    {
      for i := TeamRules.MAX_TEAMS downto 0
        invariant forall j :: 0 <= j < i ==> swapper[j] == old(swapper[j])
        invariant forall j :: i <= j < swapper.Length ==> swapper[j] == if old(swapper[j]) == pl then null else old(swapper[j])
      {
        if swapper[i] == pl { swapper[i] := null; }
      }
    }

    /** The players in the game, from place i on without q, refer only to the group. */
    ghost predicate Forgotten(group: set<Player>, q: Player, i: nat)
      reads teams`numPlayers, teams.players
      reads teams.players[..]`lockPlayer, teams.players[..]`lockVisible, teams.players[..]`lockObject
      reads teams.players[..]`isRobot, teams.players[..]`war, banks
    {
      && teams.numPlayers <= teams.players.Length
      && forall k :: 0 <= k < teams.numPlayers ==>
        && teams.players[k].lockbank in banks && teams.players[k].shovers in banks
        && RefersTo(teams.players[k], if k < i then group else group - {q})
    }

    /** What was in the lists at some earlier moment. */
    ghost function Lists(): map<array<Player?>, seq<Player?>>
      reads banks
    {
      map b | b in banks :: b[..]
    }

    /** Since then, only entries equal to q have been emptied. */
    ghost predicate EmptiedSince(before: map<array<Player?>, seq<Player?>>, q: Player)
      reads banks
    {
      before.Keys == banks && forall b :: b in banks ==> ListKept(b, before, q)
    }

    static ghost function AllTies(ps: seq<Player>): seq<Ties>
      reads ps
    {
      seq(|ps|, k requires 0 <= k < |ps| reads ps => TiesOf(ps[k]))
    }

    /** Since then, the players from place i on have ended their ties to q, and nobody else any. */
    static ghost predicate EndedSince(ps: seq<Player>, before: seq<Ties>, q: Player, i: nat)
      reads ps`lockPlayer, ps`lockVisible, ps`lockObject, ps`isRobot, ps`war
    {
      |ps| == |before| && forall k :: 0 <= k < |ps| ==>
        TiesOf(ps[k]) == if k < i then before[k] else WithoutTies(before[k], q, |ps| <= 1)
    }

    static ghost predicate ListKept(b: array<Player?>, before: map<array<Player?>, seq<Player?>>, q: Player)
      reads b
    {
      b in before && |before[b]| == b.Length
      && forall j :: 0 <= j < b.Length ==> b[j] == before[b][j] || (before[b][j] == q && b[j] == null)
    }

    method ForgetAt(ghost i: nat, p: Player, pl: Player, ghost group: set<Player>, ghost lists: map<array<Player?>, seq<Player?>>,
                    ghost ties: seq<Ties>)
      requires i < teams.numPlayers && Forgotten(group, pl, i + 1) && Distinct(Players()) && teams.players[i] == p
      requires EmptiedSince(lists, pl) && EndedSince(Players(), ties, pl, i + 1)
      modifies p`lockPlayer, p`lockVisible, p`war, banks
      ensures Forgotten(group, pl, i) && EmptiedSince(lists, pl) && EndedSince(Players(), ties, pl, i)
    {
      hide TiesOf, WithoutTies;
      OtherPlayers(i);
      Forget(p, pl, teams.numPlayers <= 1, group, banks);
    }

    /** Every player in the game forgets about a player who is not. */
    method ForgetAll(pl: Player, ghost group: set<Player>)
      requires Apart() && teams.numPlayers <= teams.players.Length && AllRefer(Players(), group) && Distinct(Players())
      modifies everyone`lockPlayer, everyone`lockVisible, everyone`war, banks
      ensures AllRefer(Players(), group - {pl}) && AllForget(old(Memories(Players())), Memories(Players()), pl)
    {
      hide Forgotten, AllRefer, Distinct, RefersTo, AllIn, EmptiedSince, EndedSince, Lists, AllTies, Memories, AllForget, Recalls;
      StartForgetting(group, pl);
      ghost var lists, ties, was := Lists(), AllTies(Players()), Memories(Players());
      Recall(Players(), group);
      for i := teams.numPlayers downto 0
        invariant Forgotten(group, pl, i) && EmptiedSince(lists, pl) && EndedSince(Players(), ties, pl, i)
      {
        ForgetAt(i, teams.players[i], pl, group, lists, ties);
      }
      EndForgetting(group, pl);
      ExactlyForgotten(was, lists, ties, pl, group);
    }

    /** What the players remember is their ties and what their lists hold. */
    ghost predicate Recalls(ps: seq<Player>, was: seq<Memory>, lists: map<array<Player?>, seq<Player?>>, ties: seq<Ties>) {
      |was| == |ties| == |ps| && forall k :: 0 <= k < |ps| ==>
        && ps[k].lockbank in lists && ps[k].shovers in lists
        && was[k] == Memory(ties[k], lists[ps[k].lockbank], lists[ps[k].shovers])
    }

    lemma Recall(ps: seq<Player>, group: set<Player>)
      requires AllRefer(ps, group)
      ensures Recalls(ps, Memories(ps), Lists(), AllTies(ps))
    {
      hide RefersTo;
      assert forall k :: 0 <= k < |ps| ==> ps[k] in ps;
    }

    lemma ExactlyForgotten(was: seq<Memory>, lists: map<array<Player?>, seq<Player?>>, ties: seq<Ties>, q: Player, group: set<Player>)
      requires teams.numPlayers <= teams.players.Length && Recalls(Players(), was, lists, ties)
      requires EmptiedSince(lists, q) && EndedSince(Players(), ties, q, 0) && AllRefer(Players(), group - {q})
      ensures AllForget(was, Memories(Players()), q)
    {
      hide WithoutTies, TiesOf;
      var ps := Players();
      forall k | 0 <= k < |ps|
        ensures ps[k].lockbank[..] == WithoutEntry(was[k].lockbank, q) && ps[k].shovers[..] == WithoutEntry(was[k].shovers, q)
      {
        assert ps[k] in ps && RefersTo(ps[k], group - {q});
        ListForgotten(ps[k].lockbank, lists, q, group);
        ListForgotten(ps[k].shovers, lists, q, group);
      }
    }

    static lemma ListForgotten(b: array<Player?>, before: map<array<Player?>, seq<Player?>>, q: Player, group: set<Player>)
      requires ListKept(b, before, q) && AllIn(b, group - {q})
      ensures b[..] == WithoutEntry(before[b], q)
    {
    }

    lemma OtherPlayers(i: nat)
      requires i < teams.numPlayers <= teams.players.Length && Distinct(Players())
      ensures forall k :: 0 <= k < teams.numPlayers && k != i ==> teams.players[k] != teams.players[i]
    {
      forall k | 0 <= k < teams.numPlayers && k != i ensures teams.players[k] != teams.players[i] {
        assert Players()[k] != Players()[i];
      }
    }

    lemma StartForgetting(group: set<Player>, pl: Player)
      requires teams.numPlayers <= teams.players.Length && AllRefer(Players(), group)
      ensures Forgotten(group, pl, teams.numPlayers) && EmptiedSince(Lists(), pl) && EndedSince(Players(), AllTies(Players()), pl, teams.numPlayers)
    {
      assert forall k :: 0 <= k < teams.numPlayers ==> teams.players[k] in Players();
    }

    lemma EndForgetting(group: set<Player>, pl: Player)
      requires Forgotten(group, pl, 0)
      ensures teams.numPlayers <= teams.players.Length && AllRefer(Players(), group - {pl})
    {
    }

    /** The player who has moved up, and the one who leaves, get their new places. */
    method Reindex(ghost before: seq<Player>, ind: nat, pl: Player, pl2: Player, last: nat)
      requires NumberedList(before, 0) && ind < |before| && before[ind] == pl && last == |before| - 1 && before[last] == pl2
      requires getInd != ids.inUse
      modifies getInd
      ensures NumberedList(ObjectPool.SwapOutAt(before, ind), pl.id)
      ensures 1 <= pl.id <= IdRing.NUM_IDS && ids.inUse[pl.id] == 1
    {
      getInd[pl2.id] := ind;
      getInd[pl.id] := last;
    }

    /** The player at place ind leaves the player table and his team. */
    method LeaveTable(pl: Player, ind: nat)
      requires Apart() && teams.Linked() && Numbered()
      requires ind < teams.numPlayers && teams.players[ind] == pl && TeamRules.IsTeam(teams.roster.teams[ind])
      modifies teams`numPlayers, teams`roster, pl`team, pl`homeBase, teams.players, teams.numMembers, getInd
      ensures Apart() && teams.Linked() && teams.numPlayers <= teams.players.Length
      ensures NumberedList(Players(), pl.id) && 1 <= pl.id <= IdRing.NUM_IDS && ids.inUse[pl.id] == 1
      ensures teams.numPlayers == old(teams.numPlayers) - 1 && old(teams.numPlayers <= teams.players.Length)
      ensures Players() == ObjectPool.SwapOutAt(old(Players()), ind)
      ensures teams.roster == TeamRules.Leave(old(teams.roster), ind)
      ensures ind < |old(Memories(Players()))| && Memories(Players()) == ObjectPool.SwapOutAt(old(Memories(Players())), ind)
    {
      hide Teams.TeamPlay.Linked, Apart, NumberedList, ObjectPool.SwapOutAt, Memories, MemoryOf;
      ApartFacts();
      DistinctPlayers();
      ghost var before, table := Players(), teams.players[..];
      teams.Leave(pl, ind);
      TailSwap(table, teams.players[..], teams.numPlayers, ind);
      StillApart();
      Reindex(before, ind, pl, teams.players[ind], teams.numPlayers);
      SameMemories(before);
      MemoriesLess(before, ind);
    }

    twostate lemma StillApart()
      requires old(Apart()) && forall p :: p in teams.players[..] ==> p in old(teams.players[..])
      ensures Apart()
    {
      forall i | 0 <= i < teams.players.Length ensures teams.players[i] in everyone {
        assert teams.players[i] in teams.players[..];
      }
    }

    lemma ApartFacts()
      requires Apart()
      ensures getInd !in {ids.queue, ids.inUse, teams.numMembers} && teams.numMembers !in {ids.queue, ids.inUse}
      ensures swapper !in banks && swapper.Length == TeamRules.MAX_TEAMS
      ensures forall p :: p in everyone ==> p.lockbank in banks && p.shovers in banks
      ensures forall p :: p in teams.players[..] ==> p in everyone
    {
    }

    lemma DistinctPlayers()
      requires teams.Linked()
      ensures teams.numPlayers <= teams.players.Length && Distinct(Players())
      ensures |teams.roster.teams| == |teams.roster.homes| == teams.numPlayers
    {
    }

    method ClearFields(pl: Player)
      modifies pl
      ensures pl.id == 0 && !pl.hasBall && pl.ballTmp == null && pl.shots == 0 && pl.war == null
      ensures pl.state == UNDEFINED && !pl.isRobot && pl.team == TeamRules.NO_TEAM && pl.homeBase == TeamRules.NO_BASE
      ensures !pl.lockPlayer && !pl.lockVisible && pl.lockObject == null && !pl.usesConnector
    {
      pl.id, pl.state, pl.isRobot, pl.score, pl.team, pl.homeBase := 0, UNDEFINED, false, 0, TeamRules.NO_TEAM, TeamRules.NO_BASE;
      pl.lockPlayer, pl.lockVisible, pl.lockObject, pl.war := false, false, null, null;
      pl.ballTmp, pl.hasBall, pl.usesConnector, pl.usesShield := null, false, false, false;
      pl.shots, pl.shotMax, pl.shotTime := 0, 0, 0;
    }

    method ClearArray(a: array<Player?>, ghost other: array<Player?>)
      modifies a
      ensures AllIn(a, {})
      ensures other != a && old(AllIn(other, {})) ==> AllIn(other, {})
    {
      forall j | 0 <= j < a.Length { a[j] := null; }
    }

    /** memset of a player record. */
    method ClearRecord(pl: Player)
      modifies pl, pl.lockbank, pl.shovers
      ensures pl.id == 0 && !pl.hasBall && pl.ballTmp == null && pl.shots == 0 && RefersTo(pl, {})
      ensures pl.state == UNDEFINED && !pl.isRobot && pl.team == TeamRules.NO_TEAM && pl.homeBase == TeamRules.NO_BASE
      ensures !pl.lockPlayer && !pl.lockVisible && pl.lockObject == null && !pl.usesConnector
    {
      hide AllIn;
      ClearFields(pl);
      ClearArray(pl.lockbank, pl.lockbank);
      ClearArray(pl.shovers, pl.lockbank);
    }

    /** The record of a player who is out of the game is cleared; the others keep theirs. */
    method Wipe(pl: Player, ghost ps: seq<Player>, ghost group: set<Player>)
      requires Apart() && AllRefer(ps, group) && pl !in ps && pl in everyone && forall p :: p in ps ==> p in everyone
      modifies pl, pl.lockbank, pl.shovers
      ensures AllRefer(ps, group)
      ensures pl.id == 0 && !pl.hasBall && pl.ballTmp == null && pl.shots == 0 && RefersTo(pl, {})
      ensures pl.state == UNDEFINED && !pl.isRobot && pl.team == TeamRules.NO_TEAM && pl.homeBase == TeamRules.NO_BASE
      ensures !pl.lockPlayer && !pl.lockVisible && pl.lockObject == null && !pl.usesConnector
      ensures Memories(ps) == old(Memories(ps))
    {
      hide RefersTo, AllIn;
      assert forall p :: p in ps ==> ArraysApart(p, pl) && RefersTo(p, group);
      ClearRecord(pl);
    }

    /** Player pl has left place ind to the last player, in the player table as in the team roster. */
    twostate predicate Left(pl: Player, ind: nat)
      reads teams`numPlayers, teams`roster, teams.players
    {
      && teams.numPlayers <= teams.players.Length && old(teams.numPlayers <= teams.players.Length)
      && ind < |old(Players())| && old(Players())[ind] == pl && Players() == ObjectPool.SwapOutAt(old(Players()), ind)
      && old(|teams.roster.teams| == |teams.roster.homes| > ind) && teams.roster == TeamRules.Leave(old(teams.roster), ind)
    }

    /** The players left in the game remember what they did before, except for pl, who was at place ind. */
    twostate predicate ForgottenBy(pl: Player, ind: nat)
      reads teams`numPlayers, teams.players, teams.players[..]
      reads set p | p in teams.players[..] :: p.lockbank, set p | p in teams.players[..] :: p.shovers
    {
      && teams.numPlayers <= teams.players.Length && old(teams.numPlayers <= teams.players.Length)
      && ind < |old(Memories(Players()))|
      && AllForget(ObjectPool.SwapOutAt(old(Memories(Players())), ind), Memories(Players()), pl)
    }

    /** The player has been taken off the swap lists of the teams, and nobody else has. */
    twostate predicate SwapsKept(pl: Player)
      reads swapper
    {
      forall j :: 0 <= j < swapper.Length ==> swapper[j] == if old(swapper[j]) == pl then null else old(swapper[j])
    }

    /** What becomes of the objects in use: those of the player have no owner any more, the balls he held are let
        go and have had their time, as have, unless they are kept, his shots.  The others are as they were. */
    twostate predicate BelongingsLeft(pl: Player, keepShots: bool)
      reads pool`numObjs, pool.objects
    {
      pool.numObjs == old(pool.numObjs)
      && forall o :: o in pool.objects && pool.Live(o) ==> pool.Released(o, pl, keepShots) && o.owner != pl
    }

    /** The state after the first half of Player_remove: the player is in no table, but others may still refer to
        him and his identifier is still in use. */
    ghost predicate Vanished(pl: Player, group: set<Player>)
      reads this, teams, teams.players, teams.players[..], teams.numMembers
      reads pool, pool.obj, pool.have, pool.objects, pool.players
      reads ids, ids.queue, ids.inUse, getInd, swapper, banks, pl
    {
      && Apart() && teams.Linked() && pool.Valid() && ids.Valid() && teams.numPlayers <= teams.players.Length
      && NumberedList(Players(), pl.id) && 1 <= pl.id <= IdRing.NUM_IDS && ids.inUse[pl.id] == 1
      && AllRefer(Players(), group) && pl !in Players() && pl in everyone && pool.players == Players()
      && AllIn(swapper, group - {pl}) && (set p | p in Players()) == group - {pl}
    }

    /** The player's place on the swap lists, and all he owns, are given up. */
    method Dispossess(pl: Player, ind: nat, keepShots: bool, ghost group: set<Player>)
      requires Apart() && teams.Linked() && pool.Valid() && pool.players == Players() && AllRefer(Players(), group)
      requires ind < teams.numPlayers && teams.players[ind] == pl && AllIn(swapper, group)
      modifies swapper, pool`players, pool.objects`owner, pool.objects`life, pool.objects`attached
      modifies pool.players`ballTmp, pool.players`usesConnector, pool.players`hasBall
      ensures teams.Linked() && pool.Valid() && teams.numPlayers <= teams.players.Length && ind < |Players()|
      ensures pool.players == ObjectPool.SwapOutAt(Players(), ind)
      ensures AllIn(swapper, group - {pl}) && SwapsKept(pl) && BelongingsLeft(pl, keepShots)
      ensures AllRefer(Players(), group) && Memories(Players()) == old(Memories(Players()))
    {
      hide Teams.TeamPlay.Linked, ObjectPool.Pool.Valid, ObjectPool.Pool.ValidBut, Apart, AllRefer, AllIn, ObjectPool.SwapOutAt;
      hide Memories, MemoryOf, Distinct;
      ApartFacts();
      DistinctPlayers();
      KnownLists(Players(), group);
      DropSwapper(pl, group);
      pool.Leave(ind, keepShots);
      SameMemories(Players());
    }

    /** The first half of Player_remove: the player is taken out of the tables. */
    method Vanish(pl: Player, keepShots: bool, ghost group: set<Player>) returns (ghost ind: nat)
      requires Valid() && pl in Players() && TeamRules.IsTeam(pl.team) && group == set p | p in Players()
      modifies teams`numPlayers, teams`roster, pl`team, pl`homeBase, teams.players, teams.numMembers, getInd, swapper
      modifies pool`players, pool.objects`owner, pool.objects`life, pool.objects`attached
      modifies pool.players`ballTmp, pool.players`usesConnector, pool.players`hasBall
      ensures teams.numPlayers <= teams.players.Length && Vanished(pl, group)
      ensures Left(pl, ind) && ind < |old(Memories(Players()))| && Memories(Players()) == ObjectPool.SwapOutAt(old(Memories(Players())), ind)
      ensures SwapsKept(pl) && BelongingsLeft(pl, keepShots)
    {
      hide Memories, MemoryOf, SwapsKept, BelongingsLeft;
      hide Teams.TeamPlay.Linked, ObjectPool.Pool.Valid, ObjectPool.Pool.ValidBut, IdRing.Ids.Valid;
      hide Apart, NumberedList, AllRefer, AllIn, ObjectPool.SwapOutAt, Distinct;
      FindPlayer(pl);
      ApartFacts();
      DistinctPlayers();
      ghost var before := Players();
      KnownLists(before, group);
      var at := getInd[pl.id];
      ind := at;
      Dispossess(pl, at, keepShots, group);
      LeaveTable(pl, at);
      ghost var untouched := ids.Valid() && pool.Valid() && AllIn(swapper, group - {pl}) && AllRefer(before, group);
      assert untouched;
      AllReferLess(before, ind, group);
      GroupLeft(before, ind, pl, group);
    }

    twostate lemma SameMemories(ps: seq<Player>)
      requires forall p :: p in ps ==> MemoryOf(p) == old(MemoryOf(p))
      ensures Memories(ps) == old(Memories(ps))
    {
      hide MemoryOf;
      assert forall k :: 0 <= k < |ps| ==> ps[k] in ps;
    }

    static lemma MemoriesLess(ps: seq<Player>, ind: nat)
      requires ind < |ps|
      ensures |Memories(ps)| == |ps| && Memories(ObjectPool.SwapOutAt(ps, ind)) == ObjectPool.SwapOutAt(Memories(ps), ind)
    {
      hide MemoryOf;
    }

    /** Clears the record of a player who is in no table, and changes nothing else. */
    method ClearOut(pl: Player, ghost group: set<Player>)
      requires Apart() && teams.Linked() && teams.numPlayers <= teams.players.Length
      requires NumberedList(Players(), 0) && AllRefer(Players(), group) && pl !in Players() && pl in everyone
      modifies pl, pl.lockbank, pl.shovers
      ensures Apart() && teams.Linked() && NumberedList(Players(), 0) && AllRefer(Players(), group)
      ensures !pl.hasBall && pl.ballTmp == null && pl.shots == 0 && RefersTo(pl, {})
      ensures Memories(Players()) == old(Memories(Players()))
    {
      hide Teams.TeamPlay.Linked, Apart, NumberedList, AllRefer, RefersTo;
      ApartFacts();
      Wipe(pl, Players(), group);
      StillLinked();
    }

    /** The second half: the others forget him, and his identifier and his record are given back. */
    method Bury(pl: Player, ghost group: set<Player>)
      requires Apart() && teams.Linked() && ids.Valid() && teams.numPlayers <= teams.players.Length
      requires NumberedList(Players(), pl.id) && 1 <= pl.id <= IdRing.NUM_IDS && ids.inUse[pl.id] == 1
      requires AllRefer(Players(), group) && pl !in Players() && pl in everyone
      modifies everyone`lockPlayer, everyone`lockVisible, everyone`war, banks, ids, ids.queue, ids.inUse, pl
      ensures Apart() && teams.Linked() && ids.Valid() && NumberedList(Players(), 0) && AllRefer(Players(), group - {pl})
      ensures ids.free == old(ids.free) + [old(pl.id)]
      ensures AllForget(old(Memories(Players())), Memories(Players()), pl)
    {
      hide Teams.TeamPlay.Linked, IdRing.Ids.Valid, Apart, NumberedList, AllRefer, RefersTo, Distinct;
      hide Memories, AllForget;
      ApartFacts();
      DistinctPlayers();
      ForgetAll(pl, group);
      Known(group - {pl});
      var id := pl.id;
      label Unnumbered:
      var ok := ids.Release(id);
      FreedNumber@Unnumbered(id);
      ClearOut(pl, group - {pl});
    }

    lemma KnownLists(ps: seq<Player>, group: set<Player>)
      requires AllRefer(ps, group)
      ensures forall p :: p in ps ==> p.lockbank in banks && p.shovers in banks
    {
    }

    lemma Known(group: set<Player>)
      requires teams.numPlayers <= teams.players.Length && AllRefer(Players(), group)
      ensures forall p :: p in Players() ==> p.lockbank in banks && p.shovers in banks
    {
    }

    method Settle(pl: Player, ghost group: set<Player>)
      requires teams.numPlayers <= teams.players.Length && Vanished(pl, group)
      modifies everyone`lockPlayer, everyone`lockVisible, everyone`war, banks, ids, ids.queue, ids.inUse, pl
      ensures Valid() && pl !in Players() && ids.free == old(ids.free) + [old(pl.id)]
      ensures AllForget(old(Memories(Players())), Memories(Players()), pl)
    {
      hide Memories, AllForget;
      hide Teams.TeamPlay.Linked, ObjectPool.Pool.Valid, ObjectPool.Pool.ValidBut, IdRing.Ids.Valid;
      hide Apart, NumberedList, AllRefer, AllIn, Valid, OnlyEmptied;
      ApartFacts();
      Bury(pl, group);
      ghost var untouched := pool.Valid() && pool.players == Players() && AllIn(swapper, group - {pl});
      assert untouched;
      Assembled();
    }

    /** Player_remove: the player is out of every table; nobody and nothing refers to him any more. */
    method PlayerRemove(pl: Player, keepShots: bool) returns (ghost ind: nat)
      requires Valid() && pl in Players() && TeamRules.IsTeam(pl.team)
      modifies teams`numPlayers, teams`roster, teams.players, teams.numMembers, getInd, swapper
      modifies pool`players, pool.objects`owner, pool.objects`life, pool.objects`attached
      modifies pool.players`ballTmp, pool.players`usesConnector, pool.players`hasBall
      modifies everyone`lockPlayer, everyone`lockVisible, everyone`war, banks
      modifies ids, ids.queue, ids.inUse, pl
      ensures Valid() && pl !in Players()
      ensures Left(pl, ind) && ForgottenBy(pl, ind) && SwapsKept(pl) && BelongingsLeft(pl, keepShots)
      ensures ids.free == old(ids.free) + [old(pl.id)]
    {
      hide SwapsKept, BelongingsLeft;
      hide Memories, AllForget;
      hide Teams.TeamPlay.Linked, ObjectPool.Pool.Valid, ObjectPool.Pool.ValidBut, ObjectPool.Pool.Released, IdRing.Ids.Valid;
      hide Apart, NumberedList, AllRefer, AllIn, ObjectPool.SwapOutAt, Valid, Vanished, Left;
      ValidApart();
      ghost var group := set p | p in Players();
      ind := Vanish(pl, keepShots, group);
      Settle(pl, group);
    }

    /** Whenever the tables are valid, nothing refers to a player who is not in the game: no object in use, no
        lock, no robot at war, no lock bank, no record of a shove and no team list. */
    lemma NothingRefers(pl: Player)
      requires Valid() && pl !in Players()
      ensures forall o :: o in pool.objects && pool.Live(o) ==> o.owner != pl
      ensures forall p :: p in Players() ==>
        && ((p.lockPlayer || p.lockVisible) ==> p.lockObject != pl) && (p.isRobot ==> p.war != pl)
        && pl !in p.lockbank[..] && pl !in p.shovers[..]
      ensures pl !in swapper[..]
    {
    }

    lemma ValidApart()
      requires Valid()
      ensures swapper !in banks && teams.numPlayers <= teams.players.Length
    {
    }

    lemma FindPlayer(pl: Player)
      requires teams.Linked() && Numbered() && pl in Players()
      ensures 1 <= pl.id <= IdRing.NUM_IDS < getInd.Length && 0 <= getInd[pl.id] < teams.numPlayers && teams.players[getInd[pl.id]] == pl
      ensures teams.roster.teams[getInd[pl.id]] == pl.team
    {
      var i :| 0 <= i < teams.numPlayers && teams.players[i] == pl;
    }

    lemma AllReferLess(ps: seq<Player>, ind: nat, group: set<Player>)
      requires AllRefer(ps, group) && Distinct(ps) && ind < |ps|
      ensures AllRefer(ObjectPool.SwapOutAt(ps, ind), group) && ps[ind] !in ObjectPool.SwapOutAt(ps, ind)
    {
      ObjectPool.SwapOutPlayer(ps, ind);
    }

    twostate lemma FreedNumber(id: int)
      requires teams.numPlayers == old(teams.numPlayers) <= teams.players.Length && Players() == old(Players())
      requires old(NumberedList(Players(), id)) && 1 <= id <= IdRing.NUM_IDS && ids.inUse[id] == 0
      requires forall k :: 0 <= k < ids.inUse.Length && k != id ==> ids.inUse[k] == old(ids.inUse[k])
      requires forall k :: 0 <= k < getInd.Length ==> getInd[k] == old(getInd[k])
      requires forall p :: p in Players() ==> p.id == old(p.id)
      ensures NumberedList(Players(), 0)
    {
      forall i | 0 <= i < teams.numPlayers ensures Players()[i].id == old(Players()[i].id) {
        assert Players()[i] in Players();
      }
    }

    twostate lemma StillLinked()
      requires old(teams.Linked()) && teams.numPlayers == old(teams.numPlayers) && teams.roster == old(teams.roster)
      requires teams.players[..] == old(teams.players[..]) && teams.numMembers[..] == old(teams.numMembers[..])
      requires forall p :: p in teams.players[..teams.numPlayers] ==> p.team == old(p.team) && p.homeBase == old(p.homeBase)
      ensures teams.Linked()
    {
      forall i | 0 <= i < teams.numPlayers ensures teams.players[i] in teams.players[..teams.numPlayers] {
      }
    }

    lemma GroupLeft(before: seq<Player>, ind: nat, pl: Player, group: set<Player>)
      requires ind < |before| && Distinct(before) && before[ind] == pl && group == set p | p in before
      ensures (set p | p in ObjectPool.SwapOutAt(before, ind)) == group - {pl}
    {
      ObjectPool.SwapOutPlayer(before, ind);
    }

    lemma Assembled()
      requires Apart() && teams.Linked() && pool.Valid() && ids.Valid() && teams.numPlayers <= teams.players.Length
      requires NumberedList(Players(), 0) && pool.players == Players()
      requires AllRefer(Players(), set p | p in Players()) && AllIn(swapper, set p | p in Players())
      ensures Valid()
    {
    }

    // ----- Player_add -----

    /** The newcomer's identifier and his place in the table. */
    method Number(pl: Player, ghost ps: seq<Player>, n: nat)
      requires ids.Valid() && NumberedList(ps, 0) && n == |ps| && pl !in ps && getInd !in {ids.queue, ids.inUse}
      modifies pl`id, ids, ids.inUse, getInd
      ensures ids.Valid()
      ensures pl.id == 0 <==> n == IdRing.NUM_IDS
      ensures pl.id != 0 ==> old(ids.free) != [] && pl.id == old(ids.free)[0] && ids.free == old(ids.free)[1..]
      ensures pl.id != 0 ==> NumberedList(ps + [pl], 0)
    {
      IdsLeft(ps);
      FreeIsUnused();
      hide IdRing.Ids.Valid;
      pl.id := ids.Request();
      getInd[pl.id] := n;
    }

    lemma FreeIsUnused()
      requires ids.Valid()
      ensures ids.free != [] ==> 1 <= ids.free[0] <= IdRing.NUM_IDS && ids.inUse[ids.free[0]] == 0
    {
      if ids.free != [] { assert ids.free[0] in ids.free; }
    }

    /** A player who refers to nobody, has no team and no base, and neither holds nor owns anything. */
    static ghost predicate Blank(pl: Player)
      reads pl, pl.lockbank, pl.shovers
    {
      && RefersTo(pl, {}) && pl.team == TeamRules.NO_TEAM && pl.homeBase == TeamRules.NO_BASE
      && !pl.hasBall && pl.ballTmp == null && pl.shots == 0
    }

    /** He enters the player table and the tables that follow it. */
    method EnterTables(pl: Player, ghost group: set<Player>)
      requires teams.Linked() && pool.Valid() && teams.numPlayers < teams.players.Length && pl == teams.players[teams.numPlayers]
      requires pl !in Players() && pool.players == Players() && AllRefer(Players(), group) && AllIn(swapper, group)
      requires group == set p | p in Players()
      requires !pl.hasBall && pl.ballTmp == null && pl.shots == 0 && RefersTo(pl, {}) && pl.lockbank in banks && pl.shovers in banks
      modifies teams`numPlayers, teams`roster, pl`team, pl`homeBase, pool`players
      ensures Blank(pl) && teams.Linked() && pool.Valid() && teams.numPlayers == old(teams.numPlayers) + 1 <= teams.players.Length
      ensures Players() == old(Players()) + [pl] && pool.players == Players()
      ensures teams.roster == TeamRules.Join(old(teams.roster), TeamRules.NO_TEAM, TeamRules.NO_BASE)
      ensures AllRefer(Players(), set p | p in Players()) && AllIn(swapper, set p | p in Players())
    {
      hide Teams.TeamPlay.Linked, ObjectPool.Pool.Valid, ObjectPool.Pool.ValidBut, AllRefer, AllIn, RefersTo;
      ghost var ps := Players();
      teams.Enter(pl);
      pool.Join(pl);
      MoreFriends(ps, pl, group);
    }

    lemma MoreFriends(ps: seq<Player>, pl: Player, group: set<Player>)
      requires AllRefer(ps, group) && AllIn(swapper, group) && group == (set p | p in ps)
      requires RefersTo(pl, {}) && pl.lockbank in banks && pl.shovers in banks
      ensures AllRefer(ps + [pl], set p | p in ps + [pl]) && AllIn(swapper, set p | p in ps + [pl])
    {
      assert (set p | p in ps + [pl]) == group + {pl};
    }

    lemma NotInGame(n: nat)
      requires Apart() && teams.Linked() && teams.numPlayers == n < teams.players.Length
      ensures teams.players[n] !in teams.players[..n] && teams.players[n] in everyone
    {
    }

    /** Player_add: the newcomer goes to the end of the table, without team, base, balls, shots or references.
        Only with 256 players in the game does he get no identifier; the tables are valid otherwise. */
    method PlayerAdd() returns (pl: Player)
      requires Valid() && teams.numPlayers < teams.players.Length
      modifies teams`numPlayers, teams`roster, ids, ids.inUse, getInd, pool`players, teams.players[teams.numPlayers]
      modifies teams.players[teams.numPlayers].lockbank, teams.players[teams.numPlayers].shovers
      ensures pl == old(teams.players[teams.numPlayers])
      ensures teams.numPlayers == old(teams.numPlayers) + 1 <= teams.players.Length && Players() == old(Players()) + [pl]
      ensures teams.roster == TeamRules.Join(old(teams.roster), TeamRules.NO_TEAM, TeamRules.NO_BASE)
      ensures pl.id == 0 <==> old(teams.numPlayers) == IdRing.NUM_IDS
      ensures Blank(pl) && Memories(old(Players())) == old(Memories(Players()))
      ensures pl.id != 0 ==> Valid()
      ensures pl.id != 0 ==> old(ids.free) != [] && pl.id == old(ids.free[0]) && ids.free == old(ids.free)[1..]
    {
      hide Teams.TeamPlay.Linked, ObjectPool.Pool.Valid, ObjectPool.Pool.ValidBut, IdRing.Ids.Valid;
      hide Apart, NumberedList, AllRefer, AllIn, RefersTo, Memories, Blank;
      ApartFacts();
      DistinctPlayers();
      ghost var group := set p | p in Players();
      var n := teams.numPlayers;
      pl := teams.players[n];
      NotInGame(n);
      ClearOut(pl, group);
      Number(pl, Players(), n);
      ghost var untouched := pool.Valid() && AllIn(swapper, group) && AllRefer(Players(), group) && RefersTo(pl, {});
      assert untouched;
      EnterTables(pl, group);
      if pl.id != 0 { Assembled(); }
    }
  }

  /** A table of new players. */
  method NewPlayers(n: nat) returns (players: array<Player>)
    requires n > 0
    ensures players.Length == n && fresh(players)
    ensures forall k :: 0 <= k < n ==> fresh(players[k]) && fresh(players[k].lockbank) && fresh(players[k].shovers)
    ensures forall j, k :: 0 <= j < k < n ==> players[j] != players[k] && ArraysApart(players[j], players[k])
  {
    var first := new Player();
    players := new Player[n](_ => first);
    for i := 1 to n
      invariant fresh(players)
      invariant forall k :: 0 <= k < i ==> fresh(players[k]) && fresh(players[k].lockbank) && fresh(players[k].shovers)
      invariant forall j, k :: 0 <= j < k < i ==> players[j] != players[k] && ArraysApart(players[j], players[k])
    {
      var p := new Player();
      players[i] := p;
    }
  }

  lemma AllApart(players: array<Player>)
    requires forall j, k :: 0 <= j < k < players.Length ==> ArraysApart(players[j], players[k])
    ensures forall p, q :: p in players[..] && q in players[..] && p != q ==> ArraysApart(p, q)
  {
    forall p, q | p in players[..] && q in players[..] && p != q ensures ArraysApart(p, q) {
      var j, k :| 0 <= j < players.Length && players[j] == p && 0 <= k < players.Length && players[k] == q;
      assert ArraysApart(if j < k then p else q, if j < k then q else p);
    }
  }

  /** Everything that the joining of a player changes was made by the caller. */
  twostate predicate Own(new registry: Registry)
    reads registry.teams.players
  {
    && fresh(registry.teams) && fresh(registry.pool) && fresh(registry.ids) && fresh(registry.ids.inUse) && fresh(registry.getInd)
    && forall k :: 0 <= k < registry.teams.players.Length ==>
      var p := registry.teams.players[k]; fresh(p) && fresh(p.lockbank) && fresh(p.shovers)
  }

  /** A game without players that has room for n. */
  method NewGame(n: nat) returns (registry: Registry)
    requires n > Teams.MAX_PAUSED_PLAYERS
    ensures registry.Valid() && registry.teams.numPlayers == 0 && registry.teams.players.Length == n && Own(registry)
  {
    hide ArraysApart, Registry.Valid, ObjectPool.Pool.Valid, Teams.TeamPlay.Linked;
    var players := NewPlayers(n);
    AllApart(players);
    var teams := new Teams.TeamPlay(seq(n - Teams.MAX_PAUSED_PLAYERS, _ => 0), players);
    var pool := new ObjectPool.Pool([]);
    registry := new Registry(teams, pool);
  }

  /** A game that 256 players have entered: the next one gets the identifier 0. */
  method FullGame() returns (registry: Registry, last: Player)
    ensures registry.teams.numPlayers == IdRing.NUM_IDS + 1 && last.id == 0
  {
    hide Registry.Valid, Registry.Players, RefersTo, Memories;
    registry := NewGame(IdRing.NUM_IDS + 1);
    for i := 0 to IdRing.NUM_IDS
      invariant registry.Valid() && registry.teams.numPlayers == i && registry.teams.players.Length == IdRing.NUM_IDS + 1 && Own(registry)
    {
      var pl := registry.PlayerAdd();
    }
    last := registry.PlayerAdd();
  }
}
