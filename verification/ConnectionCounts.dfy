/** How the server counts its connections (src/server/netserver.c): the counters are updated with every change of
    state, and decide how many home bases are spoken for. */
module ConnectionCounts {
  import opened Counting
  import opened ReliableLink

  datatype Phase = Unused | LoggingIn | InGame

  function PhaseOf(s: ConnState): Phase {
    match s
    case FREE => Unused
    case PLAYING => InGame
    case READY => InGame
    case _ => LoggingIn
  }

  function Phases(states: seq<ConnState>): seq<Phase> {
    seq(|states|, i requires 0 <= i < |states| => PhaseOf(states[i]))
  }

  lemma {:induction false} PhasesAdd(p: seq<Phase>)
    ensures Count(p, Unused) + Count(p, LoggingIn) + Count(p, InGame) == |p|
    decreases |p|
  {
    if p != [] {
      PhasesAdd(p[..|p| - 1]);
      var last := p[|p| - 1];
      assert last.Unused? || last.LoggingIn? || last.InGame?;
    }
  }

  class Counts {
    const states: array<ConnState>
    var busy: int
    var playing: int
    var loginInProgress: int

    /** Busy connections are those in use, playing ones those in the game, and the others are logging in. */
    ghost predicate Valid()
      reads this, states
    {
      && busy == states.Length - Count(Phases(states[..]), Unused)
      && playing == Count(Phases(states[..]), InGame)
      && loginInProgress == Count(Phases(states[..]), LoggingIn)
    }

    constructor (n: nat)
      ensures Valid() && states.Length == n && loginInProgress == 0 && fresh(states)
    {
      states := new ConnState[n](_ => FREE);
      busy, playing, loginInProgress := 0, 0, 0;
      new;
      var p := Phases(states[..]);
      CountNone(p, InGame);
      CountNone(p, LoggingIn);
      PhasesAdd(p);
    }

    /** Conn_set_state, as far as it counts. */
    method SetState(i: nat, state: ConnState)
      requires Valid() && i < states.Length
      modifies this, states
      ensures Valid() && states[..] == old(states[..])[i := state]
    {
      hide Count;
      ghost var before := Phases(states[..]);
      if states[i] == PLAYING || states[i] == READY {
        playing := playing - 1;
      } else if states[i] == FREE {
        busy := busy + 1;
      }
      states[i] := state;
      if state == PLAYING {
        playing := playing + 1;
      } else if state == READY {
        playing := playing + 1;
      } else if state == FREE {
        busy := busy - 1;
      }
      loginInProgress := busy - playing;
      assert Phases(states[..]) == before[i := PhaseOf(state)];
      CountUpdate(before, i, PhaseOf(state), Unused);
      CountUpdate(before, i, PhaseOf(state), InGame);
      PhasesAdd(Phases(states[..]));
    }
  }
}
