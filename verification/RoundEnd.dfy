/** The end of a round in team play (src/server/update.c): the statistics of the teams, taken in one pass over the
    players, and the choice of a winner. */
module RoundEnd {
  import opened Counting
  import opened Entities
  import opened TeamRules

  /** What the end of a round looks at of a player. */
  datatype Standing = Standing(state: PlayerState, team: int, score: int)

  datatype TeamState = TeamEmpty | TeamDead | TeamAlive

  datatype PlayerKind = InGame | Fallen | Waiting | Other

  function Kind(s: Standing): PlayerKind {
    if s.state == DEAD then Fallen
    else if s.state == WAITING then Waiting
    else if s.state == ALIVE || s.state == APPEARING then InGame
    else Other
  }

  predicate Active(s: Standing) { s.state in {ALIVE, APPEARING, WAITING, KILLED, DEAD} }

  predicate OnTeams(ps: seq<Standing>) { forall i :: 0 <= i < |ps| && Active(ps[i]) ==> IsTeam(ps[i].team) }

  ghost predicate HasKind(ps: seq<Standing>, t: int, k: PlayerKind) {
    exists i :: 0 <= i < |ps| && ps[i].team == t && Kind(ps[i]) == k
  }

  /** A team is alive if it has a player in the game, otherwise dead if it has a fallen or waiting one. */
  ghost function TeamStateOf(ps: seq<Standing>, t: int): TeamState {
    if HasKind(ps, t, InGame) then TeamAlive
    else if HasKind(ps, t, Fallen) || HasKind(ps, t, Waiting) then TeamDead
    else TeamEmpty
  }

  function Kinds(ps: seq<Standing>): seq<PlayerKind> { seq(|ps|, i requires 0 <= i < |ps| => Kind(ps[i])) }

  datatype Stats = Stats(teams: seq<TeamState>, deadTeams: int, aliveTeams: int,
                         alive: int, dead: int, waiting: int, winning: int)

  /** The statistics say what their names promise, whatever the order of the players. */
  ghost predicate Counted(ps: seq<Standing>, s: Stats) {
    && |s.teams| == MAX_TEAMS && (forall t :: 0 <= t < MAX_TEAMS ==> s.teams[t] == TeamStateOf(ps, t))
    && s.deadTeams == Count(s.teams, TeamDead) && s.aliveTeams == Count(s.teams, TeamAlive)
    && s.alive == Count(Kinds(ps), InGame) && s.dead == Count(Kinds(ps), Fallen) && s.waiting == Count(Kinds(ps), Waiting)
    && (s.aliveTeams > 0 ==> 0 <= s.winning < MAX_TEAMS && s.teams[s.winning] == TeamAlive)
  }

  // ----- Game_compute_team_stats -----

  /** What one more player makes of his team. */
  function Seen(before: TeamState, k: PlayerKind): TeamState {
    match k
    case InGame => TeamAlive
    case Other => before
    case _ => if before == TeamEmpty then TeamDead else before
  }

  lemma KindsNext(ps: seq<Standing>, i: nat)
    requires i < |ps|
    ensures Kinds(ps[..i + 1]) == Kinds(ps[..i]) + [Kind(ps[i])]
  {
  }

  lemma HasNext(ps: seq<Standing>, i: nat, t: int, k: PlayerKind)
    requires i < |ps|
    ensures HasKind(ps[..i + 1], t, k) <==> HasKind(ps[..i], t, k) || (ps[i].team == t && Kind(ps[i]) == k)
  {
    if HasKind(ps[..i + 1], t, k) {
      var j :| 0 <= j < i + 1 && ps[..i + 1][j].team == t && Kind(ps[..i + 1][j]) == k;
      if j < i { assert ps[..i][j] == ps[j]; }
    }
    if HasKind(ps[..i], t, k) {
      var j :| 0 <= j < i && ps[..i][j].team == t && Kind(ps[..i][j]) == k;
      assert ps[..i + 1][j] == ps[j];
    }
    assert ps[..i + 1][i] == ps[i];
  }

  lemma StateNext(ps: seq<Standing>, i: nat, t: int)
    requires i < |ps|
    ensures TeamStateOf(ps[..i + 1], t) == if ps[i].team == t then Seen(TeamStateOf(ps[..i], t), Kind(ps[i])) else TeamStateOf(ps[..i], t)
  {
    HasNext(ps, i, t, InGame);
    HasNext(ps, i, t, Fallen);
    HasNext(ps, i, t, Waiting);
    hide HasKind;
  }

  /** One turn of the pass over the players. */
  method Note(p: Standing, ghost ps: seq<Standing>, ghost i: nat, state: array<TeamState>, s0: Stats) returns (s: Stats)
    requires i < |ps| && ps[i] == p && (Kind(p) != Other ==> IsTeam(p.team))
    requires state[..] == s0.teams && Counted(ps[..i], s0)
    modifies state
    ensures state[..] == s.teams && Counted(ps[..i + 1], s)
  {
    hide TeamStateOf, Count, Kinds;
    s := s0;
    KindsNext(ps, i);
    forall t { StateNext(ps, i, t); }
    forall k: PlayerKind { CountAppend(Kinds(ps[..i]), Kind(p), k); }
    if Kind(p) == Fallen {
      s := s.(dead := s.dead + 1);
    } else if Kind(p) == Waiting {
      s := s.(waiting := s.waiting + 1);
    } else if Kind(p) == InGame {
      s := s.(alive := s.alive + 1);
    }
    if Kind(p) == Fallen || Kind(p) == Waiting {
      if state[p.team] == TeamEmpty {
        CountUpdate(state[..], p.team, TeamDead, TeamDead);
        CountUpdate(state[..], p.team, TeamDead, TeamAlive);
        s := s.(deadTeams := s.deadTeams + 1, teams := s.teams[p.team := TeamDead]);
        state[p.team] := TeamDead;
      }
    } else if Kind(p) == InGame {
      if state[p.team] != TeamAlive {
        CountUpdate(state[..], p.team, TeamAlive, TeamDead);
        CountUpdate(state[..], p.team, TeamAlive, TeamAlive);
        if state[p.team] == TeamDead {
          s := s.(deadTeams := s.deadTeams - 1);
        }
        s := s.(aliveTeams := s.aliveTeams + 1, winning := p.team, teams := s.teams[p.team := TeamAlive]);
        state[p.team] := TeamAlive;
      }
    }
  }

  lemma NothingCounted()
    ensures Counted([], Stats(seq(MAX_TEAMS, _ => TeamEmpty), 0, 0, 0, 0, 0, NO_TEAM))
  {
    CountNone(seq(MAX_TEAMS, _ => TeamEmpty), TeamDead);
    CountNone(seq(MAX_TEAMS, _ => TeamEmpty), TeamAlive);
    assert Kinds([]) == [];
  }

  method ComputeTeamStats(ps: seq<Standing>) returns (s: Stats)
    requires OnTeams(ps)
    ensures Counted(ps, s)
  {
    hide Counted;
    var state := new TeamState[MAX_TEAMS](_ => TeamEmpty);
    s := Stats(seq(MAX_TEAMS, _ => TeamEmpty), 0, 0, 0, 0, 0, NO_TEAM);
    NothingCounted();
    assert state[..] == s.teams;
    assert ps[..0] == [];
    for i := 0 to |ps|
      invariant state[..] == s.teams && Counted(ps[..i], s)
    {
      if Active(ps[i]) {
        s := Note(ps[i], ps, i, state, s);
      } else {
        Skipped(ps, i, s);
      }
    }
    assert ps[..|ps|] == ps;
  }

  /** Players who are paused or not initialised count nowhere. */
  lemma Skipped(ps: seq<Standing>, i: nat, s: Stats)
    requires i < |ps| && !Active(ps[i]) && Counted(ps[..i], s)
    ensures Counted(ps[..i + 1], s)
  {
    KindsNext(ps, i);
    forall t { StateNext(ps, i, t); }
    forall k: PlayerKind { CountAppend(Kinds(ps[..i]), Other, k); }
    hide TeamStateOf, Count, Kinds;
  }

  // ----- The choice among several teams that are alive -----

  /** The largest value of the marked teams, but at least 0. */
  function Top(values: seq<int>, mask: seq<bool>): int
    requires |values| == |mask|
  {
    if mask == [] then 0
    else
      var n := |mask| - 1;
      var t := Top(values[..n], mask[..n]);
      if mask[n] && values[n] > t then values[n] else t
  }

  lemma {:induction false} TopIs(values: seq<int>, mask: seq<bool>)
    requires |values| == |mask|
    ensures Top(values, mask) >= 0
    ensures forall i :: 0 <= i < |mask| && mask[i] ==> values[i] <= Top(values, mask)
    ensures Top(values, mask) == 0 || exists i :: 0 <= i < |mask| && mask[i] && values[i] == Top(values, mask)
    decreases |mask|
  {
    if mask != [] {
      var n := |mask| - 1;
      TopIs(values[..n], mask[..n]);
    }
  }

  /** Those of the marked teams with exactly the given value. */
  function Narrowed(mask: seq<bool>, values: seq<int>, best: int): seq<bool>
    requires |values| == |mask|
  {
    seq(|mask|, i requires 0 <= i < |mask| => mask[i] && values[i] == best)
  }

  lemma TopAppend(values: seq<int>, mask: seq<bool>, v: int, m: bool)
    requires |values| == |mask|
    ensures Top(values + [v], mask + [m]) == if m && v > Top(values, mask) then v else Top(values, mask)
  {
    assert (values + [v])[..|values|] == values && (mask + [m])[..|mask|] == mask;
  }

  /** One round of the choice: drops the teams that miss the best value, and finds the best next value of those
      that are left. */
  method Narrow(win: array<bool>, values: seq<int>, best: int, next: seq<int>)
    returns (winners: nat, last: int, nextBest: int)
    requires win.Length == |values| == |next|
    modifies win
    ensures win[..] == Narrowed(old(win[..]), values, best)
    ensures winners == Count(win[..], true) && nextBest == Top(next, win[..])
    ensures winners > 0 ==> 0 <= last < win.Length && win[last]
  {
    winners, last, nextBest := 0, -1, 0;
    assert win[..0] == [] && Top([], []) == 0 && Count<bool>([], true) == 0;
    hide Top, Count;
    for i := 0 to win.Length
      invariant forall k :: 0 <= k < i ==> win[k] == (old(win[k]) && values[k] == best)
      invariant forall k :: i <= k < win.Length ==> win[k] == old(win[k])
      invariant winners == Count(win[..i], true) && nextBest == Top(next[..i], win[..i])
      invariant winners > 0 ==> 0 <= last < i && win[last]
    {
      if win[i] {
        if values[i] == best {
          if next[i] > nextBest { nextBest := next[i]; }
          last := i;
          winners := winners + 1;
        } else {
          win[i] := false;
        }
      }
      assert win[..i + 1] == win[..i] + [win[i]] && next[..i + 1] == next[..i] + [next[i]];
      TopAppend(next[..i], win[..i], next[i], win[i]);
      CountAppend(win[..i], win[i], true);
    }
    assert win[..win.Length] == win[..] && next[..win.Length] == next;
  }

  /** The order in which teams are compared: treasures destroyed, then treasures left, then points. */
  predicate Below(d: seq<int>, l: seq<int>, s: seq<int>, u: int, w: int)
    requires 0 <= u < |d| == |l| == |s| && 0 <= w < |d|
  {
    d[u] < d[w] || (d[u] == d[w] && (l[u] < l[w] || (l[u] == l[w] && s[u] < s[w])))
  }

  predicate NonNegative(v: seq<int>) { forall i :: 0 <= i < |v| ==> v[i] >= 0 }

  /** Team w has beaten every other contender. */
  ghost predicate BestOf(c: seq<bool>, d: seq<int>, l: seq<int>, s: seq<int>, w: int)
    requires |c| == |d| == |l| == |s|
  {
    0 <= w < |c| && c[w] && forall u :: 0 <= u < |c| && c[u] && u != w ==> Below(d, l, s, u, w)
  }

  /** No other contender equals w in treasures destroyed and left, so that points do not matter. */
  ghost predicate AheadByTreasures(c: seq<bool>, d: seq<int>, l: seq<int>, w: int)
    requires |c| == |d| == |l| && 0 <= w < |c|
  {
    forall u :: 0 <= u < |c| && c[u] && u != w ==> d[u] != d[w] || l[u] != l[w]
  }

  /** The only marked team. */
  ghost predicate Only(mask: seq<bool>, w: int) {
    0 <= w < |mask| && mask[w] && forall u :: 0 <= u < |mask| && mask[u] ==> u == w
  }

  lemma OneIsOnly(mask: seq<bool>, w: nat)
    requires w < |mask| && mask[w]
    ensures Count(mask, true) == 1 <==> Only(mask, w)
  {
    if Count(mask, true) == 1 {
      forall u | 0 <= u < |mask| && mask[u] ensures u == w {
        if u < w { CountOnce(mask, true, u, w); }
        if w < u { CountOnce(mask, true, w, u); }
      }
    }
    if Only(mask, w) {
      CountUpdate(mask, w, false, true);
      CountNone(mask[w := false], true);
    }
  }

  /** The teams left after each round of the choice. */
  function First(c: seq<bool>, d: seq<int>): seq<bool>
    requires |c| == |d|
  {
    Narrowed(c, d, Top(d, c))
  }

  function Second(c: seq<bool>, d: seq<int>, l: seq<int>): seq<bool>
    requires |c| == |d| == |l|
  {
    First(First(c, d), l)
  }

  function Third(c: seq<bool>, d: seq<int>, l: seq<int>, s: seq<int>): seq<bool>
    requires |c| == |d| == |l| == |s|
  {
    First(Second(c, d, l), s)
  }

  lemma FirstIs(c: seq<bool>, v: seq<int>, w: int)
    requires |c| == |v| && 0 <= w < |c| && c[w]
    ensures First(c, v)[w] <==> v[w] >= 0 && forall u :: 0 <= u < |c| && c[u] ==> v[u] <= v[w]
  {
    TopIs(v, c);
  }

  /** The rounds leave exactly one team, team w, if and only if w has beaten all other contenders and either
      needed no points for it or has no negative points.  (The best points are sought from 0 upwards, so that
      teams with negative points cannot win by points.) */
  lemma ChoiceIsBest(c: seq<bool>, d: seq<int>, l: seq<int>, s: seq<int>, w: int)
    requires |c| == |d| == |l| == |s| && NonNegative(d) && NonNegative(l)
    ensures (Only(First(c, d), w) || Only(Second(c, d, l), w) || Only(Third(c, d, l, s), w))
            <==> BestOf(c, d, l, s, w) && (s[w] >= 0 || AheadByTreasures(c, d, l, w))
  {
    if !(0 <= w < |c| && c[w]) { return; }
    var d1, d2, d3 := First(c, d), Second(c, d, l), Third(c, d, l, s);
    forall u | 0 <= u < |c| && c[u]
      ensures d1[u] <==> forall v :: 0 <= v < |c| && c[v] ==> d[v] <= d[u]
    { FirstIs(c, d, u); }
    forall u | 0 <= u < |c| && d1[u]
      ensures d2[u] <==> forall v :: 0 <= v < |c| && d1[v] ==> l[v] <= l[u]
    { FirstIs(d1, l, u); }
    forall u | 0 <= u < |c| && d2[u]
      ensures d3[u] <==> s[u] >= 0 && forall v :: 0 <= v < |c| && d2[v] ==> s[v] <= s[u]
    { FirstIs(d2, s, u); }
  }

  /** Two teams level in treasures, one at -3 points and one at -5: the rounds leave nobody, although the first
      is ahead. */
  lemma NegativePointsDraw()
    ensures BestOf([true, true], [1, 1], [1, 1], [-3, -5], 0)
    ensures !exists w :: 0 <= w < 2 && Third([true, true], [1, 1], [1, 1], [-3, -5])[w]
  {
    TopIs([1, 1], [true, true]);
    TopIs([-3, -5], [true, true]);
    var d1 := First([true, true], [1, 1]);
    assert d1[0] && d1[1] && d1 == [true, true];
  }

  // ----- Update_game_status -----

  ghost function TeamStates(ps: seq<Standing>): seq<TeamState> {
    seq(MAX_TEAMS, t requires 0 <= t < MAX_TEAMS => TeamStateOf(ps, t))
  }

  function Contenders(states: seq<TeamState>): seq<bool> {
    seq(|states|, t requires 0 <= t < |states| => t != PAUSE_TEAM && states[t] == TeamAlive)
  }

  function WithTreasure(c: seq<bool>, left: seq<int>): seq<bool>
    requires |c| == |left|
  {
    seq(|c|, t requires 0 <= t < |c| => c[t] && left[t] > 0)
  }

  predicate Scores(s: Standing) { s.state in {ALIVE, APPEARING, DEAD} }

  /** The points of a team: those of its players who are in the game or dead, but not of waiting ones. */
  function TeamScore(ps: seq<Standing>, t: int): int {
    if ps == [] then 0
    else
      var n := |ps| - 1;
      TeamScore(ps[..n], t) + if Scores(ps[n]) && ps[n].team == t then ps[n].score else 0
  }

  function TeamScores(ps: seq<Standing>): seq<int> { seq(MAX_TEAMS, t => TeamScore(ps, t)) }

  method AddScores(ps: seq<Standing>) returns (score: array<int>)
    requires OnTeams(ps)
    ensures fresh(score) && score[..] == TeamScores(ps)
  {
    score := new int[MAX_TEAMS](_ => 0);
    for i := 0 to |ps|
      invariant forall t :: 0 <= t < MAX_TEAMS ==> score[t] == TeamScore(ps[..i], t)
    {
      assert ps[..i + 1][..i] == ps[..i];
      if Scores(ps[i]) {
        score[ps[i].team] := score[ps[i].team] + ps[i].score;
      }
    }
    assert ps[..|ps|] == ps;
  }

  datatype Outcome = GoesOn | Won(team: int) | Drawn(among: seq<bool>)

  /** Marks the contenders, finds the most treasures destroyed, and counts the teams that have treasure. */
  method MarkContenders(states: seq<TeamState>, destroyed: seq<int>, left: seq<int>)
    returns (win: array<bool>, maxDestroyed: int, withTreasure: nat)
    requires |states| == |destroyed| == |left| == MAX_TEAMS
    ensures fresh(win) && win.Length == MAX_TEAMS && win[..] == Contenders(states)
    ensures maxDestroyed == Top(destroyed, Contenders(states))
    ensures withTreasure == Count(WithTreasure(Contenders(states), left), true)
  {
    win := new bool[MAX_TEAMS](_ => false);
    maxDestroyed, withTreasure := 0, 0;
    ghost var c := Contenders(states);
    ghost var w := WithTreasure(c, left);
    for i := 0 to MAX_TEAMS
      invariant forall k :: 0 <= k < i ==> win[k] == c[k]
      invariant maxDestroyed == Top(destroyed[..i], c[..i]) && withTreasure == Count(w[..i], true)
    {
      assert destroyed[..i + 1][..i] == destroyed[..i] && c[..i + 1][..i] == c[..i] && w[..i + 1][..i] == w[..i];
      if i == PAUSE_TEAM || states[i] != TeamAlive {
        win[i] := false;
      } else {
        win[i] := true;
        if destroyed[i] > maxDestroyed { maxDestroyed := destroyed[i]; }
        if left[i] > 0 { withTreasure := withTreasure + 1; }
      }
    }
    assert destroyed[..MAX_TEAMS] == destroyed && c[..MAX_TEAMS] == c && w[..MAX_TEAMS] == w;
  }

  /** Nothing is decided while two contenders have treasure left or none was destroyed; otherwise the first round
      that leaves a single team decides, or the round is drawn between those left at the end. */
  ghost predicate Chosen(ps: seq<Standing>, states: seq<TeamState>, d: seq<int>, l: seq<int>, result: Outcome)
    requires |states| == |d| == |l| == MAX_TEAMS
  {
    var c, s := Contenders(states), TeamScores(ps);
    if Count(WithTreasure(c, l), true) > 1 || Top(d, c) == 0 then result == GoesOn
    else
      && !result.GoesOn? && (result.Drawn? ==> result.among == Third(c, d, l, s))
      && (forall w :: result == Won(w) <==> Only(First(c, d), w) || Only(Second(c, d, l), w) || Only(Third(c, d, l, s), w))
  }

  /** The decision while more than one team is alive. */
  method Choose(ps: seq<Standing>, states: seq<TeamState>, destroyed: seq<int>, left: seq<int>) returns (result: Outcome)
    requires OnTeams(ps) && |states| == |destroyed| == |left| == MAX_TEAMS
    ensures Chosen(ps, states, destroyed, left, result)
  {
    hide Count, Top, Contenders, WithTreasure, Narrowed, OnTeams, Only;
    ghost var c, s := Contenders(states), TeamScores(ps);
    var win, maxDestroyed, withTreasure := MarkContenders(states, destroyed, left);
    if withTreasure > 1 || maxDestroyed == 0 { return GoesOn; }
    var winners, last, maxLeft := Narrow(win, destroyed, maxDestroyed, left);
    CountedOnly(win[..], last);
    LaterRounds(c, destroyed, left, s, last);
    if winners == 1 { return Won(last); }
    var score := AddScores(ps);
    var maxScore;
    winners, last, maxScore := Narrow(win, left, maxLeft, score[..]);
    CountedOnly(win[..], last);
    LaterRounds(c, destroyed, left, s, last);
    if winners == 1 { return Won(last); }
    var unused;
    winners, last, unused := Narrow(win, score[..], maxScore, score[..]);
    CountedOnly(win[..], last);
    if winners == 1 {
      OnlyOne(win[..], last);
      return Won(last);
    }
    result := Drawn(win[..]);
  }

  /** A team is the only marked one exactly if the count says 1 and it is the one seen last. */
  lemma CountedOnly(mask: seq<bool>, last: int)
    requires Count(mask, true) > 0 ==> 0 <= last < |mask| && mask[last]
    ensures Count(mask, true) == 1 ==> Only(mask, last)
    ensures Count(mask, true) != 1 ==> forall w :: !Only(mask, w)
  {
    if Count(mask, true) == 1 { OneIsOnly(mask, last); }
    forall w | Only(mask, w) ensures Count(mask, true) == 1 { OneIsOnly(mask, w); }
  }

  lemma OnlyOne(mask: seq<bool>, w: int)
    requires Only(mask, w)
    ensures forall u :: Only(mask, u) ==> u == w
  {
  }

  /** If one round leaves a single team, the later rounds leave no other. */
  lemma LaterRounds(c: seq<bool>, d: seq<int>, l: seq<int>, s: seq<int>, w: int)
    requires |c| == |d| == |l| == |s|
    ensures Only(First(c, d), w) ==>
              forall u :: Only(First(c, d), u) || Only(Second(c, d, l), u) || Only(Third(c, d, l, s), u) ==> u == w
    ensures Only(Second(c, d, l), w) ==> forall u :: Only(Second(c, d, l), u) || Only(Third(c, d, l, s), u) ==> u == w
  {
    hide Top;
  }

  function ActiveOn(ps: seq<Standing>, everyone: bool, t: int): seq<bool> {
    seq(|ps|, i requires 0 <= i < |ps| => (everyone || ps[i].team == t) && Active(ps[i]))
  }

  /** Team_count_active_players, for one team or for all of them. */
  method CountActive(ps: seq<Standing>, everyone: bool, t: int) returns (count: nat)
    ensures count == Count(ActiveOn(ps, everyone, t), true)
  {
    count := 0;
    ghost var a := ActiveOn(ps, everyone, t);
    for i := 0 to |ps|
      invariant count == Count(a[..i], true)
    {
      assert a[..i + 1][..i] == a[..i];
      if (everyone || ps[i].team == t) && Active(ps[i]) {
        count := count + 1;
      }
    }
    assert a[..|ps|] == a;
  }

  lemma {:induction false} CountWithin(a: seq<bool>, b: seq<bool>)
    requires |a| == |b| && forall i :: 0 <= i < |a| ==> a[i] ==> b[i]
    ensures Count(a, true) <= Count(b, true)
    ensures Count(a, true) == Count(b, true) <==> a == b
    decreases |a|
  {
    if a != [] {
      var n := |a| - 1;
      CountWithin(a[..n], b[..n]);
      assert a == a[..n] + [a[n]] && b == b[..n] + [b[n]];
    }
  }

  /** A team has as many active players as the whole game exactly if all active players are on it. */
  lemma AllOnTeam(ps: seq<Standing>, t: int)
    ensures Count(ActiveOn(ps, false, t), true) == Count(ActiveOn(ps, true, t), true)
            <==> forall i :: 0 <= i < |ps| && Active(ps[i]) ==> ps[i].team == t
  {
    var a, b := ActiveOn(ps, false, t), ActiveOn(ps, true, t);
    CountWithin(a, b);
    if a == b {
      forall i | 0 <= i < |ps| && Active(ps[i]) ensures ps[i].team == t {
        assert a[i] == b[i];
      }
    }
  }

  ghost predicate Anyone(ps: seq<Standing>, k: PlayerKind) {
    exists i :: 0 <= i < |ps| && Kind(ps[i]) == k
  }

  /** The treasures end the round: more than one team is alive, no two contenders have treasure left, and some
      contender destroyed treasure. */
  ghost predicate TreasuresEnd(ps: seq<Standing>, d: seq<int>, l: seq<int>)
    requires |d| == |l| == MAX_TEAMS
  {
    var c := Contenders(TeamStates(ps));
    && Count(TeamStates(ps), TeamAlive) > 1 && Count(WithTreasure(c, l), true) <= 1
    && exists t :: 0 <= t < MAX_TEAMS && c[t] && d[t] > 0
  }

  /** The treasures end the round, and w is the best. */
  ghost predicate WonByTreasures(ps: seq<Standing>, d: seq<int>, l: seq<int>, w: int)
    requires |d| == |l| == MAX_TEAMS
  {
    var c, s := Contenders(TeamStates(ps)), TeamScores(ps);
    TreasuresEnd(ps, d, l) && BestOf(c, d, l, s, w) && (s[w] >= 0 || AheadByTreasures(c, d, l, w))
  }

  /** The round ends without a winner: the treasures end it but nobody wins, or all teams that played are dead. */
  ghost predicate EndsDrawn(ps: seq<Standing>, d: seq<int>, l: seq<int>)
    requires |d| == |l| == MAX_TEAMS
  {
    || (TreasuresEnd(ps, d, l) && forall w :: !WonByTreasures(ps, d, l, w))
    || (Count(TeamStates(ps), TeamAlive) == 0 && Count(TeamStates(ps), TeamDead) > 0)
  }

  /** The round goes to the only team alive: another team is dead, or somebody is dead or waiting and everybody
      active is on the team. */
  ghost predicate WonByStayingAlive(ps: seq<Standing>, w: int) {
    && Count(TeamStates(ps), TeamAlive) == 1 && 0 <= w < MAX_TEAMS && TeamStateOf(ps, w) == TeamAlive
    && (Count(TeamStates(ps), TeamDead) > 0
        || ((Anyone(ps, Waiting) || Anyone(ps, Fallen)) && forall i :: 0 <= i < |ps| && Active(ps[i]) ==> ps[i].team == w))
  }

  lemma AnyoneCounted(ps: seq<Standing>, k: PlayerKind)
    ensures Count(Kinds(ps), k) >= 1 <==> Anyone(ps, k)
  {
    CountNone(Kinds(ps), k);
    if Anyone(ps, k) {
      var i :| 0 <= i < |ps| && Kind(ps[i]) == k;
      assert Kinds(ps)[i] == k;
    }
  }

  /** The team part of Update_game_status, for teams with these treasures destroyed and left. */
  method UpdateGameStatus(ps: seq<Standing>, destroyed: seq<int>, left: seq<int>) returns (result: Outcome)
    requires OnTeams(ps) && |destroyed| == |left| == MAX_TEAMS && NonNegative(destroyed) && NonNegative(left)
    ensures forall w :: result == Won(w) <==> WonByTreasures(ps, destroyed, left, w) || WonByStayingAlive(ps, w)
    ensures result.Drawn? <==> EndsDrawn(ps, destroyed, left)
  {
    hide TreasuresEnd, TeamStateOf, Chosen, WonByTreasures, WonByStayingAlive, Count;
    var s := ComputeTeamStats(ps);
    assert s.teams == TeamStates(ps);
    if s.aliveTeams > 1 {
      result := Choose(ps, s.teams, destroyed, left);
      TreasuresDecide(ps, destroyed, left, result);
      return;
    }
    StayingDecides(ps, destroyed, left, s);
    if s.deadTeams > 0 {
      if s.aliveTeams == 1 { return Won(s.winning); }
      return Drawn([]);
    }
    if s.aliveTeams == 1 && (s.waiting >= 1 || s.dead >= 1) {
      var ours := CountActive(ps, false, s.winning);
      var all := CountActive(ps, true, s.winning);
      if ours == all { return Won(s.winning); }
    }
    result := GoesOn;
  }

  lemma TreasuresDecide(ps: seq<Standing>, d: seq<int>, l: seq<int>, result: Outcome)
    requires |d| == |l| == MAX_TEAMS && NonNegative(d) && NonNegative(l)
    requires Count(TeamStates(ps), TeamAlive) > 1 && Chosen(ps, TeamStates(ps), d, l, result)
    ensures forall w :: result == Won(w) <==> WonByTreasures(ps, d, l, w) || WonByStayingAlive(ps, w)
    ensures result.Drawn? <==> EndsDrawn(ps, d, l)
  {
    hide TeamStateOf, Count, Only, BestOf, AheadByTreasures, NonNegative, Narrowed, TeamScore;
    var c, s := Contenders(TeamStates(ps)), TeamScores(ps);
    TopIs(d, c);
    hide Top;
    forall w ensures result == Won(w) <==> WonByTreasures(ps, d, l, w) || WonByStayingAlive(ps, w) {
      ChoiceIsBest(c, d, l, s, w);
      BestInRange(c, d, l, s, w);
    }
  }

  lemma BestInRange(c: seq<bool>, d: seq<int>, l: seq<int>, s: seq<int>, w: int)
    requires |c| == |d| == |l| == |s|
    ensures BestOf(c, d, l, s, w) ==> 0 <= w < |c|
  {
  }

  lemma StayingDecides(ps: seq<Standing>, d: seq<int>, l: seq<int>, s: Stats)
    requires |d| == |l| == MAX_TEAMS && Counted(ps, s) && s.teams == TeamStates(ps) && s.aliveTeams <= 1
    ensures !TreasuresEnd(ps, d, l) && forall w :: !WonByTreasures(ps, d, l, w)
    ensures forall w :: WonByStayingAlive(ps, w) <==>
      && s.aliveTeams == 1 && w == s.winning
      && (s.deadTeams > 0 || ((s.waiting >= 1 || s.dead >= 1)
          && Count(ActiveOn(ps, false, w), true) == Count(ActiveOn(ps, true, w), true)))
  {
    hide TeamStateOf, Count, Kinds, ActiveOn, Anyone;
    AnyoneCounted(ps, Waiting);
    AnyoneCounted(ps, Fallen);
    forall w ensures WonByStayingAlive(ps, w) <==>
      && s.aliveTeams == 1 && w == s.winning
      && (s.deadTeams > 0 || ((s.waiting >= 1 || s.dead >= 1)
          && Count(ActiveOn(ps, false, w), true) == Count(ActiveOn(ps, true, w), true)))
    {
      AllOnTeam(ps, w);
      if s.aliveTeams == 1 && 0 <= w < MAX_TEAMS && s.teams[w] == TeamAlive {
        if w < s.winning { CountOnce(s.teams, TeamAlive, w, s.winning); }
        if s.winning < w { CountOnce(s.teams, TeamAlive, s.winning, w); }
      }
    }
  }

  // ----- The same in terms of the players' states -----

  /** Team t has a player who is alive or appearing. */
  ghost predicate StillIn(ps: seq<Standing>, t: int) {
    exists i :: 0 <= i < |ps| && ps[i].team == t && (ps[i].state == ALIVE || ps[i].state == APPEARING)
  }

  /** Team t has none, but one who is dead or waiting. */
  ghost predicate Down(ps: seq<Standing>, t: int) {
    !StillIn(ps, t) && exists i :: 0 <= i < |ps| && ps[i].team == t && (ps[i].state == DEAD || ps[i].state == WAITING)
  }

  /** A team is alive, dead or empty as these say; the number of teams is ten. */
  lemma TeamStateMeans(ps: seq<Standing>, t: int)
    ensures |TeamStates(ps)| == 10
    ensures TeamStateOf(ps, t) == TeamAlive <==> StillIn(ps, t)
    ensures TeamStateOf(ps, t) == TeamDead <==> Down(ps, t)
  {
  }

  /** The counters count the players who are alive or appearing, those who are dead, and those who wait. */
  lemma {:induction false} CountersMean(ps: seq<Standing>, p: Standing)
    ensures var qs := ps + [p];
            && Count(Kinds(qs), InGame) == Count(Kinds(ps), InGame) + (if p.state == ALIVE || p.state == APPEARING then 1 else 0)
            && Count(Kinds(qs), Fallen) == Count(Kinds(ps), Fallen) + (if p.state == DEAD then 1 else 0)
            && Count(Kinds(qs), Waiting) == Count(Kinds(ps), Waiting) + (if p.state == WAITING then 1 else 0)
    ensures Count(Kinds([]), InGame) == Count(Kinds([]), Fallen) == Count(Kinds([]), Waiting) == 0
  {
    assert Kinds(ps + [p]) == Kinds(ps) + [Kind(p)] && Kinds([]) == [];
    CountAppend(Kinds(ps), Kind(p), InGame);
    CountAppend(Kinds(ps), Kind(p), Fallen);
    CountAppend(Kinds(ps), Kind(p), Waiting);
    hide Count, Kinds;
    assert Count<PlayerKind>([], InGame) == 0 && Count<PlayerKind>([], Fallen) == 0 && Count<PlayerKind>([], Waiting) == 0 by {
      CountNone<PlayerKind>([], InGame);
      CountNone<PlayerKind>([], Fallen);
      CountNone<PlayerKind>([], Waiting);
    }
  }

  /** A team's points are those of its players who are alive, appearing or dead, added up. */
  lemma PointsMean(ps: seq<Standing>, p: Standing, t: int)
    ensures TeamScore([], t) == 0
    ensures TeamScore(ps + [p], t)
            == TeamScore(ps, t) + (if p.team == t && (p.state == ALIVE || p.state == APPEARING || p.state == DEAD) then p.score else 0)
  {
    assert (ps + [p])[..|ps|] == ps;
  }

  /** Team t takes part in the decision: it is one of ten, not team 0 for those who pause, and still in. */
  ghost predicate Contends(ps: seq<Standing>, t: int) { 1 <= t < 10 && StillIn(ps, t) }

  /** The treasures end the round. */
  ghost predicate TreasuresOut(ps: seq<Standing>, d: seq<int>, l: seq<int>)
    requires |d| == |l| == 10
  {
    && (exists t, u :: 0 <= t < 10 && 0 <= u < 10 && t != u && StillIn(ps, t) && StillIn(ps, u))
    && (forall t, u :: Contends(ps, t) && Contends(ps, u) && l[t] > 0 && l[u] > 0 ==> t == u)
    && (exists t :: Contends(ps, t) && d[t] > 0)
  }

  /** Team w has destroyed more treasures than team u, or kept more, or has more points. */
  ghost predicate Beats(ps: seq<Standing>, d: seq<int>, l: seq<int>, w: int, u: int)
    requires 0 <= w < |d| == |l| && 0 <= u < |d|
  {
    d[w] > d[u] || (d[w] == d[u] && (l[w] > l[u] || (l[w] == l[u] && TeamScore(ps, w) > TeamScore(ps, u))))
  }

  lemma ManyAlive(ps: seq<Standing>)
    ensures Count(TeamStates(ps), TeamAlive) > 1
            <==> exists t, u :: 0 <= t < 10 && 0 <= u < 10 && t != u && StillIn(ps, t) && StillIn(ps, u)
    ensures Count(TeamStates(ps), TeamAlive) >= 1 <==> exists t :: 0 <= t < 10 && StillIn(ps, t)
    ensures Count(TeamStates(ps), TeamDead) >= 1 <==> exists t :: 0 <= t < 10 && Down(ps, t)
  {
    var states := TeamStates(ps);
    AtMostOnce(states, TeamAlive);
    CountNone(states, TeamAlive);
    CountNone(states, TeamDead);
    hide Count;
    forall t | 0 <= t < 10
      ensures states[t] == TeamAlive <==> StillIn(ps, t)
      ensures states[t] == TeamDead <==> Down(ps, t)
    {
      TeamStateMeans(ps, t);
    }
    hide TeamStateOf, StillIn, Down;
    if exists t, u :: 0 <= t < 10 && 0 <= u < 10 && t != u && StillIn(ps, t) && StillIn(ps, u) {
      var t, u :| 0 <= t < 10 && 0 <= u < 10 && t != u && StillIn(ps, t) && StillIn(ps, u);
      assert states[t] == TeamAlive && states[u] == TeamAlive;
    }
    if exists t :: 0 <= t < 10 && StillIn(ps, t) {
      var t :| 0 <= t < 10 && StillIn(ps, t);
      assert states[t] == TeamAlive;
    }
    if exists t :: 0 <= t < 10 && Down(ps, t) {
      var t :| 0 <= t < 10 && Down(ps, t);
      assert states[t] == TeamDead;
    }
  }

  lemma ContendersMean(ps: seq<Standing>)
    ensures |Contenders(TeamStates(ps))| == 10
    ensures forall t :: 0 <= t < 10 ==> (Contenders(TeamStates(ps))[t] <==> Contends(ps, t))
  {
    forall t | 0 <= t < 10 ensures Contenders(TeamStates(ps))[t] <==> Contends(ps, t) {
      TeamStateMeans(ps, t);
      hide TeamStateOf, StillIn;
    }
  }

  lemma TreasuresMean(ps: seq<Standing>, d: seq<int>, l: seq<int>)
    requires |d| == |l| == MAX_TEAMS
    ensures TreasuresEnd(ps, d, l) <==> TreasuresOut(ps, d, l)
  {
    var c := Contenders(TeamStates(ps));
    ManyAlive(ps);
    ContendersMean(ps);
    AtMostOnce(WithTreasure(c, l), true);
    hide Count, Contends, StillIn, TeamStateOf, Contenders;
    if forall t, u :: Contends(ps, t) && Contends(ps, u) && l[t] > 0 && l[u] > 0 ==> t == u {
      forall i, j | 0 <= i < 10 && 0 <= j < 10 && WithTreasure(c, l)[i] && WithTreasure(c, l)[j] ensures i == j {
        assert Contends(ps, i) && Contends(ps, j);
      }
    }
    if Count(WithTreasure(c, l), true) <= 1 {
      forall t, u | Contends(ps, t) && Contends(ps, u) && l[t] > 0 && l[u] > 0 ensures t == u {
        assert WithTreasure(c, l)[t] && WithTreasure(c, l)[u] by { ContendsRange(ps, t); ContendsRange(ps, u); }
      }
    }
    forall t | Contends(ps, t) ensures 0 <= t < 10 { ContendsRange(ps, t); }
  }

  lemma ContendsRange(ps: seq<Standing>, t: int)
    requires Contends(ps, t)
    ensures 0 <= t < 10
  {
  }

  /** When the round is won by treasures: they end it, and team w beats every other team that contends; if it needs its
      points for that, they must not be negative. */
  lemma TreasureWinMeans(ps: seq<Standing>, d: seq<int>, l: seq<int>, w: int)
    requires |d| == |l| == MAX_TEAMS
    ensures WonByTreasures(ps, d, l, w)
            <==> TreasuresOut(ps, d, l) && Contends(ps, w)
                 && (forall u :: Contends(ps, u) && u != w ==> Beats(ps, d, l, w, u))
                 && (TeamScore(ps, w) >= 0 || forall u :: Contends(ps, u) && u != w ==> d[u] != d[w] || l[u] != l[w])
  {
    TreasuresMean(ps, d, l);
    ContendersMean(ps);
    forall t | Contends(ps, t) ensures 0 <= t < 10 { ContendsRange(ps, t); }
    hide Count, Contends, StillIn, TeamStateOf, Contenders, TreasuresEnd, TreasuresOut, TeamScore;
  }

  /** When it is won by staying alive: team w alone is still in, and another team is down, or somebody is dead or waiting
      and everybody who takes part is on team w. */
  lemma StayingWinMeans(ps: seq<Standing>, w: int)
    ensures WonByStayingAlive(ps, w)
            <==> 0 <= w < 10 && StillIn(ps, w) && (forall t :: 0 <= t < 10 && StillIn(ps, t) ==> t == w)
                 && ((exists t :: 0 <= t < 10 && Down(ps, t))
                     || ((exists i :: 0 <= i < |ps| && (ps[i].state == DEAD || ps[i].state == WAITING))
                         && forall i :: 0 <= i < |ps| && ps[i].state in {ALIVE, APPEARING, WAITING, KILLED, DEAD} ==> ps[i].team == w))
  {
    ManyAlive(ps);
    if 0 <= w < 10 { TeamStateMeans(ps, w); }
    hide Count, TeamStateOf, StillIn, Down;
    assert (Anyone(ps, Waiting) || Anyone(ps, Fallen)) <==> exists i :: 0 <= i < |ps| && (ps[i].state == DEAD || ps[i].state == WAITING) by {
      if i :| 0 <= i < |ps| && (ps[i].state == DEAD || ps[i].state == WAITING) { assert Kind(ps[i]) in {Waiting, Fallen}; }
    }
    hide Anyone;
  }

  /** When it is drawn: the treasures end it and no team wins by them, or no team is still in and some team is down. */
  lemma DrawMeans(ps: seq<Standing>, d: seq<int>, l: seq<int>)
    requires |d| == |l| == MAX_TEAMS
    ensures EndsDrawn(ps, d, l)
            <==> (TreasuresOut(ps, d, l) && forall w :: !WonByTreasures(ps, d, l, w))
                 || ((forall t :: 0 <= t < 10 ==> !StillIn(ps, t)) && exists t :: 0 <= t < 10 && Down(ps, t))
  {
    TreasuresMean(ps, d, l);
    ManyAlive(ps);
    hide Count, StillIn, Down, TeamStateOf, TreasuresEnd, TreasuresOut, WonByTreasures;
  }
}
