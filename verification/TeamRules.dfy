/** Who is on which team and owns which home base (team play), as a function of the joins, leaves, team
    swaps and home changes that happened.  Teams and bases are named by their index. */
module TeamRules {
  import opened Counting

  const MAX_TEAMS := 10
  const PAUSE_TEAM := 0
  const NO_TEAM := -1
  const NO_BASE := -1

  /** Entry i describes Players[i]. */
  datatype Roster = Roster(teams: seq<int>, homes: seq<int>)

  predicate IsTeam(t: int) { 0 <= t < MAX_TEAMS }

  /** bt[b] is the team that owns base b. */
  predicate BasesOwned(bt: seq<int>) { forall b :: 0 <= b < |bt| ==> IsTeam(bt[b]) }

  predicate IsBaseOf(bt: seq<int>, b: int, t: int) { 0 <= b < |bt| && bt[b] == t }

  /** Home bases are pairwise distinct, belong to their owner's team, and only pausers lack one. */
  predicate Fair(r: Roster, bt: seq<int>) {
    && |r.teams| == |r.homes|
    && (forall i :: 0 <= i < |r.teams| ==> IsTeam(r.teams[i]))
    && (forall i :: 0 <= i < |r.homes| ==>
          if r.homes[i] == NO_BASE then r.teams[i] == PAUSE_TEAM else IsBaseOf(bt, r.homes[i], r.teams[i]))
    && (forall i, j :: 0 <= i < j < |r.homes| && r.homes[i] == r.homes[j] ==> r.homes[i] == NO_BASE)
  }

  predicate Free(r: Roster, bt: seq<int>, b: int, t: int) { IsBaseOf(bt, b, t) && b !in r.homes }

  ghost predicate AnyFree(r: Roster, bt: seq<int>, t: int) { exists b :: Free(r, bt, b, t) }

  // ----- What the operations do -----

  function Join(r: Roster, t: int, b: int): Roster { Roster(r.teams + [t], r.homes + [b]) }

  /** The leaving player's entry is filled with the last one. */
  function DropEntry(s: seq<int>, i: nat): seq<int>
    requires i < |s|
  {
    s[i := s[|s| - 1]][..|s| - 1]
  }

  function Leave(r: Roster, i: nat): Roster
    requires |r.teams| == |r.homes| && i < |r.teams|
  {
    Roster(DropEntry(r.teams, i), DropEntry(r.homes, i))
  }

  function Move(r: Roster, i: nat, t: int, b: int): Roster
    requires |r.teams| == |r.homes| && i < |r.teams|
  {
    Roster(r.teams[i := t], r.homes[i := b])
  }

  function Exchange(r: Roster, i: nat, j: nat): Roster
    requires |r.teams| == |r.homes| && i < |r.teams| && j < |r.teams|
  {
    Roster(r.teams[i := r.teams[j]][j := r.teams[i]], r.homes[i := r.homes[j]][j := r.homes[i]])
  }

  /** The first player living at b, or -1. */
  function Owner(homes: seq<int>, b: int): (i: int)
    ensures -1 <= i < |homes|
    ensures i >= 0 ==> homes[i] == b && b !in homes[..i]
    ensures i == -1 ==> b !in homes
  {
    if homes == [] then -1
    else if homes[0] == b then 0
    else
      var k := Owner(homes[1..], b);
      assert homes == [homes[0]] + homes[1..];
      if k == -1 then -1 else
      assert homes[..k + 1] == [homes[0]] + homes[1..][..k];
      k + 1
  }

  /** Taking over a base; a team mate who lives there gets the old home in return. */
  function TakeHome(r: Roster, bt: seq<int>, i: nat, b: int): Roster
    requires |r.teams| == |r.homes| && i < |r.teams| && 0 <= b < |bt|
  {
    if r.homes[i] == b || bt[b] != r.teams[i] then r else
    var j := Owner(r.homes, b);
    Roster(r.teams, (if j >= 0 then r.homes[j := r.homes[i]] else r.homes)[i := b])
  }

  /** Taking over a base of his team makes it the player's home; a team mate who lived there has the player's old home
      then, and everybody else stays where he is.  With a base of another team nothing happens.  Teams never change. */
  lemma TakeHomeMeans(r: Roster, bt: seq<int>, i: nat, b: int)
    requires Fair(r, bt) && i < |r.teams| && 0 <= b < |bt|
    ensures var r' := TakeHome(r, bt, i, b);
            && r'.teams == r.teams && |r'.homes| == |r.homes|
            && r'.homes[i] == (if bt[b] == r.teams[i] then b else r.homes[i])
            && forall k :: 0 <= k < |r.homes| && k != i ==>
                 r'.homes[k] == if bt[b] == r.teams[i] && r.homes[k] == b then r.homes[i] else r.homes[k]
  {
    var j := Owner(r.homes, b);
    assert j >= 0 ==> forall k :: 0 <= k < |r.homes| && k != j ==> r.homes[k] != b;
  }

  /** Who leaves is replaced by the last player, who joins comes last, who moves gets team and base, and two who exchange get
      each other's. */
  lemma EntriesMean(r: Roster, i: nat, j: nat, t: int, b: int)
    requires |r.teams| == |r.homes| && i < |r.teams| && j < |r.teams|
    ensures var n := |r.teams| - 1;
            && |Leave(r, i).teams| == |Leave(r, i).homes| == n
            && forall k :: 0 <= k < n ==>
                 var from := if k == i then n else k; Leave(r, i).teams[k] == r.teams[from] && Leave(r, i).homes[k] == r.homes[from]
    ensures |Join(r, t, b).teams| == |Join(r, t, b).homes| == |r.teams| + 1
    ensures Join(r, t, b).teams[|r.teams|] == t && Join(r, t, b).homes[|r.teams|] == b
    ensures forall k :: 0 <= k < |r.teams| ==>
              && Join(r, t, b).teams[k] == r.teams[k] && Join(r, t, b).homes[k] == r.homes[k]
              && Move(r, i, t, b).teams[k] == (if k == i then t else r.teams[k])
              && Move(r, i, t, b).homes[k] == (if k == i then b else r.homes[k])
              && var from := if k == i then j else if k == j then i else k;
                 Exchange(r, i, j).teams[k] == r.teams[from] && Exchange(r, i, j).homes[k] == r.homes[from]
  {
  }

  datatype Step =
    | Joins(t: int, b: int)
    | Leaves(i: nat)
    | Moves(i: nat, t: int, b: int)
    | Exchanges(i: nat, j: nat)
    | TakesHome(i: nat, b: int)

  predicate Enabled(r: Roster, bt: seq<int>, step: Step) {
    |r.teams| == |r.homes| &&
    match step
    case Joins(t, b) => IsTeam(t) && Free(r, bt, b, t)
    case Leaves(i) => i < |r.teams|
    case Moves(i, t, b) => i < |r.teams| && IsTeam(t) && (if t == PAUSE_TEAM then b == NO_BASE else Free(r, bt, b, t))
    case Exchanges(i, j) => i < |r.teams| && j < |r.teams|
    case TakesHome(i, b) => i < |r.teams| && 0 <= b < |bt|
  }

  function Next(r: Roster, bt: seq<int>, step: Step): Roster
    requires Enabled(r, bt, step)
  {
    match step
    case Joins(t, b) => Join(r, t, b)
    case Leaves(i) => Leave(r, i)
    case Moves(i, t, b) => Move(r, i, t, b)
    case Exchanges(i, j) => Exchange(r, i, j)
    case TakesHome(i, b) => TakeHome(r, bt, i, b)
  }

  // ----- Every operation keeps the assignment fair -----

  lemma JoinKeeps(r: Roster, bt: seq<int>, t: int, b: int)
    requires Fair(r, bt) && IsTeam(t) && Free(r, bt, b, t)
    ensures Fair(Join(r, t, b), bt)
  {
  }

  lemma LeaveKeeps(r: Roster, bt: seq<int>, i: nat)
    requires Fair(r, bt) && i < |r.teams|
    ensures Fair(Leave(r, i), bt)
  {
  }

  lemma MoveKeeps(r: Roster, bt: seq<int>, i: nat, t: int, b: int)
    requires Fair(r, bt) && i < |r.teams| && IsTeam(t)
    requires if t == PAUSE_TEAM then b == NO_BASE else Free(r, bt, b, t)
    ensures Fair(Move(r, i, t, b), bt)
  {
  }

  lemma ExchangeKeeps(r: Roster, bt: seq<int>, i: nat, j: nat)
    requires Fair(r, bt) && i < |r.teams| && j < |r.teams|
    ensures Fair(Exchange(r, i, j), bt)
  {
  }

  lemma TakeHomeKeeps(r: Roster, bt: seq<int>, i: nat, b: int)
    requires Fair(r, bt) && i < |r.teams| && 0 <= b < |bt|
    ensures Fair(TakeHome(r, bt, i, b), bt)
  {
    var j := Owner(r.homes, b);
    if j >= 0 && r.homes[i] != b && bt[b] == r.teams[i] {
      assert bt[b] == r.teams[j];
    }
  }

  predicate Runs(r: Roster, bt: seq<int>, steps: seq<Step>)
    decreases steps
  {
    steps == [] || (Enabled(r, bt, steps[0]) && Runs(Next(r, bt, steps[0]), bt, steps[1..]))
  }

  function After(r: Roster, bt: seq<int>, steps: seq<Step>): Roster
    requires Runs(r, bt, steps)
    decreases steps
  {
    if steps == [] then r else After(Next(r, bt, steps[0]), bt, steps[1..])
  }

  lemma {:induction false} RunKeeps(r: Roster, bt: seq<int>, steps: seq<Step>)
    requires Fair(r, bt) && Runs(r, bt, steps)
    ensures Fair(After(r, bt, steps), bt)
    decreases steps
  {
    if steps != [] {
      match steps[0] {
        case Joins(t, b) => JoinKeeps(r, bt, t, b);
        case Leaves(i) => LeaveKeeps(r, bt, i);
        case Moves(i, t, b) => MoveKeeps(r, bt, i, t, b);
        case Exchanges(i, j) => ExchangeKeeps(r, bt, i, j);
        case TakesHome(i, b) => TakeHomeKeeps(r, bt, i, b);
      }
      hide Fair;
      RunKeeps(Next(r, bt, steps[0]), bt, steps[1..]);
    }
  }

  // ----- Counting members and bases -----

  /** The positions at which t occurs. */
  function Places(s: seq<int>, t: int): set<int> { set i | 0 <= i < |s| && s[i] == t }

  lemma {:induction false} CountIsCardinality(s: seq<int>, t: int)
    ensures |Places(s, t)| == Count(s, t)
    decreases |s|
  {
    if s == [] {
      assert Places(s, t) == {};
    } else {
      var n := |s| - 1;
      CountIsCardinality(s[..n], t);
      assert Places(s, t) == Places(s[..n], t) + if s[n] == t then {n} else {};
    }
  }

  /** The bases the members of team t live at. */
  function HomesOf(teams: seq<int>, homes: seq<int>, t: int): set<int>
    requires |teams| == |homes|
    decreases |teams|
  {
    if teams == [] then {} else
    var n := |teams| - 1;
    HomesOf(teams[..n], homes[..n], t) + if teams[n] == t && homes[n] != NO_BASE then {homes[n]} else {}
  }

  lemma {:induction false} HomesOfMember(teams: seq<int>, homes: seq<int>, t: int, h: int)
    requires |teams| == |homes|
    ensures h in HomesOf(teams, homes, t) <==>
            h != NO_BASE && exists i :: 0 <= i < |homes| && teams[i] == t && homes[i] == h
    decreases |teams|
  {
    if teams != [] {
      var n := |teams| - 1;
      HomesOfMember(teams[..n], homes[..n], t, h);
      if h in HomesOf(teams[..n], homes[..n], t) {
        var i :| 0 <= i < n && teams[..n][i] == t && homes[..n][i] == h;
        assert teams[i] == t && homes[i] == h;
      }
    }
  }

  /** On a playing team every member has a home of his own. */
  lemma {:induction false} HomesCountMembers(r: Roster, bt: seq<int>, t: int)
    requires Fair(r, bt) && t != PAUSE_TEAM
    ensures |HomesOf(r.teams, r.homes, t)| == Count(r.teams, t)
    decreases |r.teams|
  {
    if r.teams != [] {
      var n := |r.teams| - 1;
      HomesCountMembers(Roster(r.teams[..n], r.homes[..n]), bt, t);
      HomesOfMember(r.teams[..n], r.homes[..n], t, r.homes[n]);
    }
  }

  lemma SubsetSmaller<T>(a: set<T>, b: set<T>)
    requires a <= b
    ensures |a| <= |b| && (|a| == |b| ==> a == b)
  {
    var rest := b - a;
    assert b == a + rest;
  }

  lemma SomethingLeft<T>(a: set<T>, b: set<T>)
    requires a <= b && |a| < |b|
    ensures exists x :: x in b && x !in a
  {
    var rest := b - a;
    assert b == a + rest;
    assert rest != {};
    var x :| x in rest;
  }

  lemma HomesAmongBases(r: Roster, bt: seq<int>, t: int)
    requires Fair(r, bt)
    ensures HomesOf(r.teams, r.homes, t) <= Places(bt, t)
  {
    forall h | h in HomesOf(r.teams, r.homes, t) ensures h in Places(bt, t) {
      HomesOfMember(r.teams, r.homes, t, h);
    }
  }

  /** No playing team ever has more members than bases, over any run of joins, leaves, swaps and home
      changes. */
  lemma NeverOversubscribed(bt: seq<int>, steps: seq<Step>, t: int)
    requires BasesOwned(bt) && Runs(Roster([], []), bt, steps) && t != PAUSE_TEAM
    ensures Count(After(Roster([], []), bt, steps).teams, t) <= Count(bt, t)
  {
    RunKeeps(Roster([], []), bt, steps);
    MembersWithinBases(After(Roster([], []), bt, steps), bt, t);
  }

  lemma MembersWithinBases(r: Roster, bt: seq<int>, t: int)
    requires Fair(r, bt) && t != PAUSE_TEAM
    ensures Count(r.teams, t) <= Count(bt, t)
  {
    HomesCountMembers(r, bt, t);
    CountIsCardinality(bt, t);
    HomesAmongBases(r, bt, t);
    SubsetSmaller(HomesOf(r.teams, r.homes, t), Places(bt, t));
  }

  /** Free bases of t are those of its bases that none of its members lives at. */
  lemma FreeMeansUnowned(r: Roster, bt: seq<int>, b: int, t: int)
    requires Fair(r, bt)
    ensures Free(r, bt, b, t) <==> b in Places(bt, t) && b !in HomesOf(r.teams, r.homes, t)
  {
    HomesOfMember(r.teams, r.homes, t, b);
  }

  /** A playing team is full exactly when none of its bases is free: so whoever is sent to a team with
      fewer members than bases finds a home there. */
  lemma FullIffNoFreeBase(r: Roster, bt: seq<int>, t: int)
    requires Fair(r, bt) && t != PAUSE_TEAM
    ensures Count(r.teams, t) < Count(bt, t) <==> AnyFree(r, bt, t)
  {
    HomesCountMembers(r, bt, t);
    CountIsCardinality(bt, t);
    HomesAmongBases(r, bt, t);
    var taken, all := HomesOf(r.teams, r.homes, t), Places(bt, t);
    SubsetSmaller(taken, all);
    if Count(r.teams, t) < Count(bt, t) {
      SomethingLeft(taken, all);
      var b :| b in all && b !in taken;
      FreeMeansUnowned(r, bt, b, t);
    }
    if AnyFree(r, bt, t) {
      var b :| Free(r, bt, b, t);
      FreeMeansUnowned(r, bt, b, t);
    }
  }
}
