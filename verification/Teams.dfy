/** Team membership and home bases as src/server/team.c and src/server/player.c keep them. */
module Teams {
  import opened Counting
  import opened Entities
  import opened TeamRules

  const MAX_PAUSED_PLAYERS := 8

  lemma CountDrop(s: seq<int>, i: nat, t: int)
    requires i < |s|
    ensures Count(DropEntry(s, i), t) == Count(s, t) - if s[i] == t then 1 else 0
  {
    var n := |s| - 1;
    CountUpdate(s, i, s[n], t);
    assert s[i := s[n]][n] == s[n];
  }

  /** A random number below 1 picks one of n things. */
  function Pick(frac: real, n: nat): nat
    requires 0.0 <= frac < 1.0
    ensures n > 0 ==> Pick(frac, n) < n
    ensures n == 0 ==> Pick(frac, n) == 0
  {
    PickBelow(frac, n);
    (frac * n as real).Floor
  }

  lemma PickBelow(frac: real, n: nat)
    requires 0.0 <= frac < 1.0
    ensures 0.0 <= frac * n as real && (n > 0 ==> frac * n as real < n as real)
    ensures n == 0 ==> frac * n as real == 0.0
  {
  }

  class TeamPlay {
    const players: array<Player>
    var numPlayers: nat
    const baseTeam: seq<int>
    const numMembers: array<int>
    var freeBases: array<bool>
    ghost var roster: Roster

    /** The arrays hold what the roster says. */
    ghost predicate Linked()
      reads this, players, players[..]`team, players[..]`homeBase, numMembers
    {
      && numPlayers <= players.Length && |baseTeam| + MAX_PAUSED_PLAYERS <= players.Length
      && BasesOwned(baseTeam) && numMembers.Length == MAX_TEAMS
      && (forall i, j :: 0 <= i < j < players.Length ==> players[i] != players[j])
      && |roster.teams| == |roster.homes| == numPlayers
      && (forall i :: 0 <= i < numPlayers ==>
            players[i].team == roster.teams[i] && players[i].homeBase == roster.homes[i])
      && (forall i :: 0 <= i < numPlayers ==> NO_BASE <= roster.homes[i] < |baseTeam|)
      && (forall t :: 0 <= t < MAX_TEAMS ==> numMembers[t] == Count(roster.teams, t))
    }

    ghost predicate Valid()
      reads this, players, players[..]`team, players[..]`homeBase, numMembers
    {
      Linked() && Fair(roster, baseTeam)
    }

    /** An empty game on a map whose bases belong to the given teams. */
    constructor (baseTeam: seq<int>, players: array<Player>)
      requires BasesOwned(baseTeam) && |baseTeam| + MAX_PAUSED_PLAYERS <= players.Length
      requires forall i, j :: 0 <= i < j < players.Length ==> players[i] != players[j]
      ensures Valid() && roster == Roster([], []) && numPlayers == 0 && this.baseTeam == baseTeam && this.players == players
      ensures fresh(numMembers) && fresh(freeBases)
    {
      this.baseTeam, this.players := baseTeam, players;
      numPlayers := 0;
      numMembers := new int[MAX_TEAMS](_ => 0);
      freeBases := new bool[0];
      roster := Roster([], []);
    }

    ghost predicate Flags(s: seq<bool>, t: int)
      reads this
    {
      |s| == |baseTeam| && forall b :: 0 <= b < |s| ==> s[b] == Free(roster, baseTeam, b, t)
    }

    /** Marks the bases of a team and counts them. */
    method MarkTeamBases(t: int) returns (numFree: nat)
      modifies this`freeBases, freeBases
      ensures freeBases == old(freeBases) || fresh(freeBases)
      ensures freeBases.Length == |baseTeam| && forall c :: 0 <= c < |baseTeam| ==> freeBases[c] == (baseTeam[c] == t)
      ensures numFree == Count(freeBases[..], true)
    {
      if freeBases.Length != |baseTeam| {
        freeBases := new bool[|baseTeam|];
      }
      numFree := 0;
      for b := 0 to |baseTeam|
        invariant freeBases.Length == |baseTeam| && (freeBases == old(freeBases) || fresh(freeBases))
        invariant forall c :: 0 <= c < b ==> freeBases[c] == (baseTeam[c] == t)
        invariant numFree == Count(freeBases[..b], true)
      {
        freeBases[b] := baseTeam[b] == t;
        if baseTeam[b] == t {
          numFree := numFree + 1;
        }
        assert freeBases[..b + 1] == freeBases[..b] + [freeBases[b]];
      }
      assert freeBases[..] == freeBases[..|baseTeam|];
    }

    /** Takes the mark off one base. */
    method Unmark(h: int, count: nat) returns (left: nat)
      requires 0 <= h < freeBases.Length && count == Count(freeBases[..], true)
      modifies freeBases
      ensures freeBases[..] == old(freeBases[..])[h := false] && left == Count(freeBases[..], true)
    {
      left := count;
      if freeBases[h] {
        CountUpdate(freeBases[..], h, false, true);
        ghost var before := freeBases[..];
        freeBases[h] := false;
        assert freeBases[..] == before[h := false];
        left := left - 1;
      }
    }

    /** Marks the free bases of a team and counts them. */
    method MarkFreeBases(t: int) returns (numFree: nat)
      requires Linked()
      modifies this`freeBases, freeBases
      ensures Linked() && (freeBases == old(freeBases) || fresh(freeBases))
      ensures Flags(freeBases[..], t) && numFree == Count(freeBases[..], true)
      ensures freeBases.Length == |baseTeam| && forall b :: 0 <= b < |baseTeam| ==>
                (freeBases[b] <==> baseTeam[b] == t && forall k :: 0 <= k < numPlayers ==> players[k].homeBase != b)
    {
      hide Count;
      numFree := MarkTeamBases(t);
      for i := 0 to numPlayers
        invariant freeBases.Length == |baseTeam| && (freeBases == old(freeBases) || fresh(freeBases))
        invariant Linked()
        invariant forall c :: 0 <= c < |baseTeam| ==> freeBases[c] == (baseTeam[c] == t && c !in roster.homes[..i])
        invariant numFree == Count(freeBases[..], true)
      {
        var h := players[i].homeBase;
        assert roster.homes[..i + 1] == roster.homes[..i] + [h];
        if h != NO_BASE {
          ghost var before := freeBases[..];
          numFree := Unmark(h, numFree);
          assert forall c :: 0 <= c < |baseTeam| ==> freeBases[c] == freeBases[..][c] && before[c] == (baseTeam[c] == t && c !in roster.homes[..i]);
        }
      }
      assert roster.homes[..numPlayers] == roster.homes;
    }

    /** Team_pick_free_base: the free base of the team that the random number points at, or none. */
    method PickFreeBase(t: int, frac: real) returns (b: int)
      requires Linked() && 0.0 <= frac < 1.0
      modifies this`freeBases, freeBases
      ensures Linked() && (freeBases == old(freeBases) || fresh(freeBases))
      ensures Flags(freeBases[..], t)
      ensures b == NO_BASE <==> !AnyFree(roster, baseTeam, t)
      ensures b != NO_BASE ==> Free(roster, baseTeam, b, t) && Count(freeBases[..b], true) == Pick(frac, Count(freeBases[..], true))
    {
      hide Free, Pick, Linked;
      var numFree := MarkFreeBases(t);
      ghost var flags := freeBases[..];
      var pick := Pick(frac, numFree);
      var seen := 0;
      var i := 0;
      assert flags[..0] == [];
      while i < |baseTeam|
        invariant i <= |baseTeam| && freeBases[..] == flags && seen <= pick && seen == Count(flags[..i], true)
        modifies {}
      {
        CountNext(flags, i);
        assert freeBases[i] == flags[i];
        if freeBases[i] {
          if seen < pick {
            seen := seen + 1;
          } else {
            assert freeBases[..i] == flags[..i];
            return i;
          }
        }
        i := i + 1;
      }
      assert flags[..i] == flags;
      CountNone(flags, true);
      forall c ensures !Free(roster, baseTeam, c, t) {
        if Free(roster, baseTeam, c, t) {
          FreeInRange(roster, baseTeam, c, t);
        }
      }
      b := NO_BASE;
    }

    /** The part of Player_add that makes room for a player: he has no team and no base yet. */
    method Enter(pl: Player)
      requires Linked() && numPlayers < players.Length && pl == players[numPlayers]
      modifies this`numPlayers, this`roster, pl`team, pl`homeBase
      ensures Linked() && numPlayers == old(numPlayers) + 1
      ensures roster == Join(old(roster), NO_TEAM, NO_BASE) && pl.team == NO_TEAM && pl.homeBase == NO_BASE
    {
      pl.team, pl.homeBase := NO_TEAM, NO_BASE;
      forall t ensures Count(roster.teams + [NO_TEAM], t) == Count(roster.teams, t) + if NO_TEAM == t then 1 else 0 {
        CountAppend(roster.teams, NO_TEAM, t);
      }
      numPlayers := numPlayers + 1;
      roster := Join(roster, NO_TEAM, NO_BASE);
    }

    /** Player_add_to_team. */
    method AddToTeam(pl: Player, ghost i: nat, t: int)
      requires Linked() && i < numPlayers && players[i] == pl && roster.teams[i] == NO_TEAM && IsTeam(t)
      modifies this`roster, pl`team, numMembers
      ensures Linked() && roster == old(roster).(teams := old(roster).teams[i := t])
    {
      forall u ensures Count(roster.teams[i := t], u)
                       == Count(roster.teams, u) - (if NO_TEAM == u then 1 else 0) + (if t == u then 1 else 0) {
        CountUpdate(roster.teams, i, t, u);
      }
      pl.team := t;
      numMembers[t] := numMembers[t] + 1;
      roster := roster.(teams := roster.teams[i := t]);
    }

    /** Player_remove_from_team. */
    method RemoveFromTeam(pl: Player, ghost i: nat)
      requires Linked() && i < numPlayers && players[i] == pl && IsTeam(roster.teams[i])
      modifies this`roster, pl`team, numMembers
      ensures Linked() && roster == old(roster).(teams := old(roster).teams[i := NO_TEAM])
    {
      forall u ensures Count(roster.teams[i := NO_TEAM], u)
                       == Count(roster.teams, u) - (if roster.teams[i] == u then 1 else 0) + (if NO_TEAM == u then 1 else 0) {
        CountUpdate(roster.teams, i, NO_TEAM, u);
      }
      numMembers[pl.team] := numMembers[pl.team] - 1;
      pl.team := NO_TEAM;
      roster := roster.(teams := roster.teams[i := NO_TEAM]);
    }

    method SetHome(pl: Player, ghost i: nat, b: int)
      requires Linked() && i < numPlayers && players[i] == pl && NO_BASE <= b < |baseTeam|
      modifies this`roster, pl`homeBase
      ensures Linked() && roster == old(roster).(homes := old(roster).homes[i := b])
    {
      pl.homeBase := b;
      roster := roster.(homes := roster.homes[i := b]);
    }

    /** The part of Player_remove that concerns the player table: the leaving player is taken out of his team
        and changes places with the last one. */
    method Leave(pl: Player, i: nat)
      requires Linked() && i < numPlayers && players[i] == pl && IsTeam(roster.teams[i])
      modifies this`numPlayers, this`roster, pl`team, pl`homeBase, players, numMembers
      ensures Linked() && numPlayers == old(numPlayers) - 1
      ensures roster == TeamRules.Leave(old(roster), i)
      ensures players[..] == old(players[..][i := players[numPlayers - 1]][numPlayers - 1 := players[i]])
    {
      ghost var before, last := roster, numPlayers - 1;
      RemoveFromTeam(pl, i);
      forall t ensures Count(DropEntry(roster.teams, i), t) == Count(roster.teams, t) - if NO_TEAM == t then 1 else 0 {
        CountDrop(roster.teams, i, t);
      }
      numPlayers := numPlayers - 1;
      var pl2 := players[numPlayers];
      players[numPlayers] := pl;
      players[i] := pl2;
      assert DropEntry(roster.teams, i) == DropEntry(before.teams, i);
      pl.homeBase := NO_BASE;
      roster := TeamRules.Leave(before, i);
    }

    /** A new player becomes a member of team t; he has no base yet. */
    method Admit(t: int) returns (pl: Player)
      requires Linked() && numPlayers < players.Length && IsTeam(t)
      modifies this`numPlayers, this`roster, players[numPlayers], numMembers
      ensures Linked() && numPlayers == old(numPlayers) + 1 && pl == players[old(numPlayers)]
      ensures roster == Join(old(roster), t, NO_BASE)
    {
      hide Count;
      ghost var i := numPlayers;
      pl := players[numPlayers];
      Enter(pl);
      AddToTeam(pl, i, t);
    }

    /** Handle_login and Robot_add, as far as team and base are concerned: the newcomer gets a free base of his
        team or is thrown out again. */
    method Login(t: int, frac: real) returns (home: int)
      requires Valid() && IsTeam(t) && 0.0 <= frac < 1.0
      modifies this`numPlayers, this`roster, this`freeBases, freeBases, players, players[..], numMembers
      ensures Valid()
      ensures home == NO_BASE <==> old(numPlayers) >= |baseTeam| + MAX_PAUSED_PLAYERS || !AnyFree(old(roster), baseTeam, t)
      ensures home == NO_BASE ==> roster == old(roster)
      ensures home != NO_BASE ==> Free(old(roster), baseTeam, home, t) && roster == Join(old(roster), t, home)
    {
      hide Free, Fair, AnyFree;
      if numPlayers >= |baseTeam| + MAX_PAUSED_PLAYERS {
        return NO_BASE;
      }
      assert numPlayers < players.Length && |roster.teams| == |roster.homes| == numPlayers;
      hide Linked;
      ghost var before := roster;
      var i := numPlayers;
      JoinUndone(before, t);
      var pl := Admit(t);
      NewcomerTakesNothing(before, baseTeam, t);
      home := PickFreeBase(t, frac);
      if home == NO_BASE {
        Leave(pl, i);
        return NO_BASE;
      }
      FreeInRange(before, baseTeam, home, t);
      JoinSettled(before, t, home);
      SetHome(pl, i, home);
      JoinKeeps(before, baseTeam, t, home);
    }

    /** Player_swap_team: to the pausers' team without a base, to any other team with a free base of it; a
        player for whom there is none is removed from the game. */
    method SwapTeam(pl: Player, i: nat, t: int, frac: real) returns (stays: bool)
      requires Valid() && i < numPlayers && players[i] == pl && IsTeam(t) && 0.0 <= frac < 1.0
      modifies this`numPlayers, this`roster, this`freeBases, freeBases, players, pl`team, pl`homeBase, numMembers
      ensures Valid()
      ensures stays <==> t == PAUSE_TEAM || AnyFree(old(roster), baseTeam, t)
      ensures !stays ==> roster == TeamRules.Leave(old(roster), i)
      ensures stays ==> players[..] == old(players[..]) && i < |roster.homes| && roster == Move(old(roster), i, t, roster.homes[i])
      ensures stays ==> if t == PAUSE_TEAM then roster.homes[i] == NO_BASE
                        else Free(old(roster), baseTeam, roster.homes[i], t)
    {
      hide Free, Fair;
      ghost var before := roster;
      assert IsTeam(roster.teams[i]) by { TeamKnown(roster, baseTeam, i); }
      var b := NO_BASE;
      if t != PAUSE_TEAM {
        b := PickFreeBase(t, frac);
        if b == NO_BASE {
          Leave(pl, i);
          LeaveKeeps(before, baseTeam, i);
          return false;
        }
        FreeInRange(before, baseTeam, b, t);
      }
      MoveKeeps(before, baseTeam, i, t, b);
      SetHome(pl, i, b);
      RemoveFromTeam(pl, i);
      AddToTeam(pl, i, t);
      assert roster == Move(before, i, t, b);
      stays := true;
    }

    /** Players_swap_teams: two players change places. */
    method SwapTeams(pl1: Player, pl2: Player, ghost i: nat, ghost j: nat)
      requires Valid() && i < numPlayers && players[i] == pl1 && j < numPlayers && players[j] == pl2
      modifies this`roster, pl1`team, pl1`homeBase, pl2`team, pl2`homeBase
      ensures Valid() && roster == Exchange(old(roster), i, j)
    {
      var tmpBase, tmpTeam := pl2.homeBase, pl2.team;
      pl2.team := pl1.team;
      pl1.team := tmpTeam;
      pl2.homeBase := pl1.homeBase;
      pl1.homeBase := tmpBase;
      ExchangeKeeps(roster, baseTeam, i, j);
      forall t ensures Count(Exchange(roster, i, j).teams, t) == Count(roster.teams, t) {
        CountUpdate(roster.teams, i, roster.teams[j], t);
        CountUpdate(roster.teams[i := roster.teams[j]], j, roster.teams[i], t);
      }
      roster := Exchange(roster, i, j);
    }

    /** Player_owns_base: the first player living at base b. */
    method OwnerOf(b: int) returns (k: int)
      requires Linked() && 0 <= b < |baseTeam|
      ensures k == Owner(roster.homes, b)
    {
      k := 0;
      while k < numPlayers
        invariant 0 <= k <= numPlayers && b !in roster.homes[..k]
      {
        if players[k].homeBase == b {
          OwnerUnique(roster.homes, b, k);
          return;
        }
        k := k + 1;
      }
      assert roster.homes[..numPlayers] == roster.homes;
      k := -1;
    }

    /** Player_change_home: a team mate living at the base gets the old home in exchange. */
    method ChangeHome(pl: Player, ghost i: nat, b: int)
      requires Valid() && i < numPlayers && players[i] == pl && 0 <= b < |baseTeam|
      modifies this`roster, players[..]
      ensures Valid() && roster == TakeHome(old(roster), baseTeam, i, b)
    {
      if b == pl.homeBase || baseTeam[b] != pl.team {
        return;
      }
      TakeHomeKeeps(roster, baseTeam, i, b);
      hide Fair;
      ghost var before := roster;
      var j := OwnerOf(b);
      if j >= 0 && players[j] != pl {
        SetHome(players[j], j, pl.homeBase);
      }
      SetHome(pl, i, b);
      assert roster == TakeHome(before, baseTeam, i, b);
    }

    /** No playing team has more members than bases. */
    lemma MembersFit(t: int)
      requires Valid() && IsTeam(t) && t != PAUSE_TEAM
      ensures numMembers[t] <= Count(baseTeam, t)
    {
      MembersWithinBases(roster, baseTeam, t);
    }
  }

  lemma TeamKnown(r: Roster, bt: seq<int>, i: nat)
    requires Fair(r, bt) && i < |r.teams|
    ensures IsTeam(r.teams[i])
  {
  }

  /** Before he has a base, a new team member does not change which bases are free. */
  lemma NewcomerTakesNothing(r: Roster, bt: seq<int>, t: int)
    requires |r.teams| == |r.homes|
    ensures forall b :: Free(Join(r, t, NO_BASE), bt, b, t) <==> Free(r, bt, b, t)
    ensures AnyFree(Join(r, t, NO_BASE), bt, t) <==> AnyFree(r, bt, t)
  {
    assert forall b :: Free(Join(r, t, NO_BASE), bt, b, t) <==> Free(r, bt, b, t);
  }

  lemma JoinUndone(r: Roster, t: int)
    requires |r.teams| == |r.homes|
    ensures TeamRules.Leave(Join(r, t, NO_BASE), |r.teams|) == r
    ensures Join(r, t, NO_BASE).teams[|r.teams|] == t
  {
  }

  lemma JoinSettled(r: Roster, t: int, b: int)
    requires |r.teams| == |r.homes|
    ensures Join(r, t, NO_BASE).(homes := Join(r, t, NO_BASE).homes[|r.homes| := b]) == Join(r, t, b)
  {
  }

  lemma OwnerUnique(homes: seq<int>, b: int, k: nat)
    requires k < |homes| && homes[k] == b && b !in homes[..k]
    ensures Owner(homes, b) == k
  {
    var o := Owner(homes, b);
    assert homes[k] == b && (o >= 0 ==> homes[o] == b);
  }

  lemma CountNext(s: seq<bool>, i: nat)
    requires i < |s|
    ensures Count(s[..i + 1], true) == Count(s[..i], true) + if s[i] then 1 else 0
  {
    assert s[..i + 1][..i] == s[..i];
  }

  lemma FreeInRange(r: Roster, bt: seq<int>, b: int, t: int)
    requires Free(r, bt, b, t)
    ensures 0 <= b < |bt|
  {
  }
}
