/** The reliable stream end to end: one server connection, a network that may lose, repeat and reorder
    anything, and a client that follows the rule stated at the top of src/server/netserver.c. */
module ReliableProtocol {
  import opened Numbers
  import opened PacketCodec
  import opened Sockbufs
  import opened ReliableLink

  /** `stream` is everything ever appended to the reliable buffer.  `data` and `acks` hold every packet
      ever put on the network: since delivery does not remove one, a packet may arrive any number of
      times, in any order, or never.  The client is at position `pos` and has accepted `got`. */
  datatype Sys = Sys(link: Link, stream: seq<Byte>, data: set<Chunk>, acks: set<int>, pos: nat, got: seq<Byte>, now: int)

  /** What may happen next.  `trims`: the client accepts a packet that overlaps what it already has. */
  datatype Step =
    | Append(bytes: seq<Byte>)
    | Transmission(wlen: nat, net: nat -> Delivery)
    | Arrival(c: Chunk, trims: bool)
    | AckArrival(rel: int, echo: int)
    | Change(state: ConnState, drainState: ConnState)
    | Tick(now: int)

  function Initial(fps: nat): Sys { Sys(NewLink(fps), [], {}, {}, 0, [], 0) }

  /** The client accepts a packet when it is new and nothing is missing in between. */
  predicate Accepts(pos: nat, c: Chunk, trims: bool) {
    c.off <= pos < c.off + |c.data| && (c.off == pos || trims)
  }

  /** The client advances or discards, and acknowledges its position either way. */
  function Receive(s: Sys, c: Chunk, trims: bool): Sys {
    var s1 := if Accepts(s.pos, c, trims)
              then s.(pos := c.off + |c.data|, got := s.got + c.data[s.pos - c.off..]) else s;
    s1.(acks := s1.acks + {s1.pos})
  }

  function ChunkSet(cs: seq<Chunk>): set<Chunk> { set c | c in cs }

  predicate Enabled(s: Sys, step: Step, fps: nat) {
    match step
    case Append(_) => true
    case Transmission(wlen, net) => !Send(s.link, wlen, s.now, net, fps).failed
    case Arrival(c, _) => c in s.data
    case AckArrival(rel, echo) => rel in s.acks && !Ack(s.link, rel, echo, s.now, fps).BadAck?
    case Change(_, _) => true
    case Tick(now) => now >= s.now
  }

  function Next(s: Sys, step: Step, fps: nat): Sys
    requires Enabled(s, step, fps)
  {
    match step
    case Append(b) => s.(stream := s.stream + b, link := s.link.(pending := s.link.pending + b))
    case Transmission(wlen, net) =>
      var res := Send(s.link, wlen, s.now, net, fps);
      s.(link := res.link, data := s.data + ChunkSet(res.chunks))
    case Arrival(c, trims) => Receive(s, c, trims)
    case AckArrival(rel, echo) => s.(link := Ack(s.link, rel, echo, s.now, fps).link)
    case Change(st, dr) => s.(link := s.link.(state := st, drainState := dr))
    case Tick(now) => s.(now := now)
  }

  /** A packet carries the slice of the stream its offset says, all of it already counted as sent. */
  predicate Genuine(c: Chunk, s: Sys) {
    && 0 <= c.off && 0 < |c.data| && c.off + |c.data| <= s.link.unsent <= |s.stream|
    && c.data == s.stream[c.off..c.off + |c.data|]
  }

  ghost predicate Inv(s: Sys) {
    && 0 <= s.link.offset <= s.pos <= s.link.unsent <= |s.stream|
    && s.link.pending == s.stream[s.link.offset..]
    && s.got == s.stream[..s.pos]
    && (forall c :: c in s.data ==> Genuine(c, s))
    && (forall a :: a in s.acks ==> 0 <= a <= s.pos)
  }

  lemma InvInitial(fps: nat)
    ensures Inv(Initial(fps))
  {
  }

  // ----- One step -----

  /** Packets stay genuine while the stream and the sent part only grow. */
  lemma StillGenuine(s: Sys, s': Sys)
    requires forall c :: c in s.data ==> Genuine(c, s)
    requires s.stream <= s'.stream && s.link.unsent <= s'.link.unsent <= |s'.stream|
    ensures forall c :: c in s.data ==> Genuine(c, s')
  {
    forall c | c in s.data ensures Genuine(c, s') {
      assert Genuine(c, s);
      assert s.stream[c.off..c.off + |c.data|] == s'.stream[c.off..c.off + |c.data|];
    }
  }

  lemma AppendKeeps(s: Sys, b: seq<Byte>, fps: nat)
    requires Inv(s)
    ensures Inv(Next(s, Append(b), fps))
  {
    var s' := Next(s, Append(b), fps);
    StillGenuine(s, s');
    assert s'.stream[..s.pos] == s.stream[..s.pos];
    assert s'.link.pending == s'.stream[s.link.offset..];
  }

  /** What Send_reliable leaves alone, and what it may say was sent. */
  lemma SendEffect(l: Link, wlen: nat, now: int, net: nat -> Delivery, fps: nat)
    ensures var res := Send(l, wlen, now, net, fps);
            && res.link.pending == l.pending && res.link.offset == l.offset
            && Total(res.chunks) <= |l.pending| && Tiles(res.chunks, l.offset, l.pending[..Total(res.chunks)])
            && (res.chunks == [] ==> res.link.unsent == l.unsent)
            && res.link.unsent == (if l.offset + Total(res.chunks) > l.unsent && res.chunks != []
                                   then l.offset + Total(res.chunks) else l.unsent)
  {
    hide Burst, Tiles;
    if WillSend(l, wlen, now) {
      var todo := l.pending[..MaxTodo(l, wlen)];
      BurstTiles(l.offset, todo, BackOff(l, now).acks + 1, net, 0);
      var cs := Burst(l.offset, todo, BackOff(l, now).acks + 1, net, 0);
      assert todo[..Total(cs)] == l.pending[..Total(cs)];
      TilesTotal(cs, l.offset, todo[..Total(cs)]);
    } else {
      assert Tiles([], l.offset, l.pending[..0]) by { TilesNothing(l.offset); }
    }
  }

  lemma TilesNothing(off: int)
    ensures Tiles([], off, [])
  {
  }

  lemma TilesTotal(cs: seq<Chunk>, off: int, data: seq<Byte>)
    requires Tiles(cs, off, data)
    ensures cs != [] <==> Total(cs) > 0
  {
  }

  lemma TransmissionKeeps(s: Sys, wlen: nat, net: nat -> Delivery, fps: nat)
    requires Inv(s) && Enabled(s, Transmission(wlen, net), fps)
    ensures Inv(Next(s, Transmission(wlen, net), fps))
  {
    hide Send, Tiles;
    var s' := Next(s, Transmission(wlen, net), fps);
    var cs := Send(s.link, wlen, s.now, net, fps).chunks;
    SendEffect(s.link, wlen, s.now, net, fps);
    StillGenuine(s, s');
    hide Inv, Genuine;
    forall c | c in s'.data ensures Genuine(c, s') {
      if c !in s.data { NewGenuine(s, s', cs, c); }
    }
    Keeps(s, s');
  }

  /** A packet of a burst that is counted as sent is genuine. */
  lemma NewGenuine(s: Sys, s': Sys, cs: seq<Chunk>, c: Chunk)
    requires Inv(s) && c in cs && s'.stream == s.stream && s.link.offset + Total(cs) <= s'.link.unsent <= |s.stream|
    requires Total(cs) <= |s.link.pending| && Tiles(cs, s.link.offset, s.link.pending[..Total(cs)])
    ensures Genuine(c, s')
  {
    hide Tiles;
    TileSlice(cs, s.link.offset, s.link.pending[..Total(cs)], c);
    SliceOfSlice(s.stream, s.link.offset, Total(cs), c.off - s.link.offset, |c.data|);
  }

  lemma Keeps(s: Sys, s': Sys)
    requires Inv(s) && s'.stream == s.stream && s'.pos == s.pos && s'.got == s.got && s'.acks == s.acks
    requires s'.link.offset == s.link.offset && s'.link.pending == s.link.pending
    requires s.link.unsent <= s'.link.unsent <= |s.stream| && forall c :: c in s'.data ==> Genuine(c, s')
    ensures Inv(s')
  {
    hide Genuine;
  }

  lemma SliceOfSlice(stream: seq<Byte>, off: nat, total: nat, a: nat, n: nat)
    requires off + total <= |stream| && a + n <= total
    ensures stream[off..][..total][a..a + n] == stream[off + a..off + a + n]
  {
  }

  /** A genuine packet advances the client along the stream or leaves it where it is. */
  lemma ReceiveEffect(s: Sys, c: Chunk, trims: bool)
    requires Genuine(c, s) && s.pos <= s.link.unsent && s.got == s.stream[..s.pos]
    ensures var s' := Receive(s, c, trims);
            && s'.link == s.link && s'.stream == s.stream && s'.data == s.data && s'.now == s.now
            && s.pos <= s'.pos <= s.link.unsent && s'.got == s.stream[..s'.pos] && s'.acks == s.acks + {s'.pos}
            && (c.off <= s.pos && (c.off == s.pos || trims) ==> s'.pos >= c.off + |c.data|)
  {
    if Accepts(s.pos, c, trims) {
      AcceptedPrefix(s.stream, s.pos, s.got, c);
    }
  }

  lemma ArrivalKeeps(s: Sys, c: Chunk, trims: bool, fps: nat)
    requires Inv(s) && c in s.data
    ensures Inv(Next(s, Arrival(c, trims), fps))
  {
    hide Receive;
    ReceiveEffect(s, c, trims);
    hide Genuine;
    StillGenuine(s, Receive(s, c, trims));
  }

  lemma AcceptedPrefix(stream: seq<Byte>, pos: nat, got: seq<Byte>, c: Chunk)
    requires 0 <= c.off <= pos < c.off + |c.data| <= |stream|
    requires c.data == stream[c.off..c.off + |c.data|] && got == stream[..pos]
    ensures got + c.data[pos - c.off..] == stream[..c.off + |c.data|]
  {
  }

  lemma AckEffect(l: Link, rel: int, echo: int, now: int, fps: nat)
    requires rel - l.offset <= |l.pending|
    ensures var r := Ack(l, rel, echo, now, fps);
            && !r.BadAck? && r.link.unsent == l.unsent
            && (rel <= l.offset ==> r.link.pending == l.pending && r.link.offset == l.offset)
            && (rel > l.offset ==> r.link.pending == l.pending[rel - l.offset..] && r.link.offset == rel)
  {
  }

  lemma AckArrivalKeeps(s: Sys, rel: int, echo: int, fps: nat)
    requires Inv(s) && Enabled(s, AckArrival(rel, echo), fps)
    ensures Inv(Next(s, AckArrival(rel, echo), fps))
  {
    hide Ack;
    var s' := Next(s, AckArrival(rel, echo), fps);
    AckEffect(s.link, rel, echo, s.now, fps);
    StillGenuine(s, s');
    if rel > s.link.offset {
      assert s.stream[s.link.offset..][rel - s.link.offset..] == s.stream[rel..];
    }
  }

  lemma StepKeeps(s: Sys, step: Step, fps: nat)
    requires Inv(s) && Enabled(s, step, fps)
    ensures Inv(Next(s, step, fps))
  {
    hide Send, Ack;
    match step
    case Append(b) => AppendKeeps(s, b, fps);
    case Transmission(wlen, net) => TransmissionKeeps(s, wlen, net, fps);
    case Arrival(c, trims) => ArrivalKeeps(s, c, trims, fps);
    case AckArrival(rel, echo) => AckArrivalKeeps(s, rel, echo, fps);
    case Change(st, dr) =>
      StillGenuine(s, Next(s, step, fps));
    case Tick(now) =>
      StillGenuine(s, Next(s, step, fps));
  }

  // ----- Whole runs -----

  /** A run: each step is enabled in the state the previous ones lead to. */
  predicate Runs(s: Sys, steps: seq<Step>, fps: nat)
    decreases steps
  {
    steps == [] || (Enabled(s, steps[0], fps) && Runs(Next(s, steps[0], fps), steps[1..], fps))
  }

  function After(s: Sys, steps: seq<Step>, fps: nat): Sys
    requires Runs(s, steps, fps)
    decreases steps
  {
    if steps == [] then s else After(Next(s, steps[0], fps), steps[1..], fps)
  }

  lemma {:induction false} RunKeeps(s: Sys, steps: seq<Step>, fps: nat)
    requires Inv(s) && Runs(s, steps, fps)
    ensures Inv(After(s, steps, fps)) && s.stream <= After(s, steps, fps).stream
    ensures s.pos <= After(s, steps, fps).pos && s.link.offset <= After(s, steps, fps).link.offset
    decreases steps
  {
    if steps != [] {
      var s1 := Next(s, steps[0], fps);
      StepKeeps(s, steps[0], fps);
      StepGrows(s, steps[0], fps);
      RunKeeps(s1, steps[1..], fps);
      assert s.stream <= s1.stream <= After(s, steps, fps).stream;
    }
  }

  lemma StepGrows(s: Sys, step: Step, fps: nat)
    requires Inv(s) && Enabled(s, step, fps)
    ensures var s' := Next(s, step, fps);
            s.stream <= s'.stream && s.pos <= s'.pos && s.link.offset <= s'.link.offset
  {
    hide Send, Ack;
    match step
    case Transmission(wlen, net) => SendEffect(s.link, wlen, s.now, net, fps);
    case AckArrival(rel, echo) => AckEffect(s.link, rel, echo, s.now, fps);
    case _ =>
  }

  /** Safety.  Whatever the network loses, repeats or reorders, what the client has accepted is a prefix
      of everything ever appended; the buffer holds exactly the stream from reliable_offset on; and
      reliable_offset <= client position <= reliable_unsent <= stream length. */
  lemma ReliableStreamSafe(steps: seq<Step>, fps: nat)
    requires Runs(Initial(fps), steps, fps)
    ensures var s := After(Initial(fps), steps, fps);
            && s.got <= s.stream && |s.got| == s.pos
            && 0 <= s.link.offset <= s.pos <= s.link.unsent <= |s.stream|
            && s.link.pending == s.stream[s.link.offset..]
  {
    InvInitial(fps);
    RunKeeps(Initial(fps), steps, fps);
  }

  /** What was accepted is never taken back, and later data only extends it. */
  lemma AcceptedOnlyGrows(early: seq<Step>, late: seq<Step>, fps: nat)
    requires Runs(Initial(fps), early, fps) && Runs(After(Initial(fps), early, fps), late, fps)
    ensures After(Initial(fps), early, fps).got <= After(After(Initial(fps), early, fps), late, fps).got
  {
    var s := After(Initial(fps), early, fps);
    InvInitial(fps);
    RunKeeps(Initial(fps), early, fps);
    RunKeeps(s, late, fps);
    var t := After(s, late, fps);
    assert s.stream[..s.pos] <= t.stream[..t.pos];
  }

  /** A client that follows the rule never triggers the "bad ack" disconnect, however stale or repeated
      the acknowledgement is and whatever time it echoes. */
  lemma NoFalseDisconnect(steps: seq<Step>, rel: int, echo: int, fps: nat)
    requires Runs(Initial(fps), steps, fps) && rel in After(Initial(fps), steps, fps).acks
    ensures var s := After(Initial(fps), steps, fps); !Ack(s.link, rel, echo, s.now, fps).BadAck?
  {
    var s := After(Initial(fps), steps, fps);
    InvInitial(fps);
    RunKeeps(Initial(fps), steps, fps);
    AckEffect(s.link, rel, echo, s.now, fps);
  }

  // ----- Progress -----

  /** The client gets every packet of a burst once, in order. */
  function ReceiveAll(s: Sys, cs: seq<Chunk>, trims: nat -> bool, i: nat): Sys
    decreases cs
  {
    if cs == [] then s else ReceiveAll(Receive(s, cs[0], trims(i)), cs[1..], trims, i + 1)
  }

  lemma {:induction false} ReceiveAllKeeps(s: Sys, cs: seq<Chunk>, trims: nat -> bool, i: nat, fps: nat)
    requires Inv(s) && ChunkSet(cs) <= s.data
    ensures var t := ReceiveAll(s, cs, trims, i);
            Inv(t) && t.pos >= s.pos && t.link == s.link && t.stream == s.stream && t.data == s.data && t.now == s.now
    decreases cs
  {
    if cs != [] {
      assert cs[0] in ChunkSet(cs);
      assert ChunkSet(cs[1..]) <= ChunkSet(cs);
      ArrivalKeeps(s, cs[0], trims(i), fps);
      ReceiveAllKeeps(Receive(s, cs[0], trims(i)), cs[1..], trims, i + 1, fps);
    }
  }

  /** With unacknowledged data, an expired timer, an empty frame buffer and no send yet this loop, one loss-free
      round of send, delivery and acknowledgement strictly shrinks the unacknowledged suffix. */
  lemma RoundShrinks(s: Sys, net: nat -> Delivery, trims: nat -> bool, echo: int, fps: nat)
    requires Inv(s) && forall i :: net(i).Sent?
    requires s.link.pending != [] && s.link.retransmitAt <= s.now && s.link.lastSend != s.now
    ensures var res := Send(s.link, 0, s.now, net, fps);
            !res.failed &&
            var s1 := Next(s, Transmission(0, net), fps);
            var t := ReceiveAll(s1, res.chunks, trims, 0);
            var a := Ack(t.link, t.pos, echo, t.now, fps);
            t.pos in t.acks && t.stream == s.stream && ChunkSet(res.chunks) <= s1.data
            && a.Fresh? && |a.link.pending| < |s.link.pending|
  {
    var cs := Send(s.link, 0, s.now, net, fps).chunks;
    FirstPacket(s.link, net, s.now, fps);
    hide Send, Ack;
    SendEffect(s.link, 0, s.now, net, fps);
    var s1 := Next(s, Transmission(0, net), fps);
    StepKeeps(s, Transmission(0, net), fps);
    var s2 := Receive(s1, cs[0], trims(0));
    ReceiveEffect(s1, cs[0], trims(0));
    hide Receive;
    assert cs[0] in ChunkSet(cs) && ChunkSet(cs[1..]) <= ChunkSet(cs);
    ArrivalKeeps(s1, cs[0], trims(0), fps);
    assert s2.pos > s.link.offset;
    ReceiveAllKeeps(s2, cs[1..], trims, 1, fps);
    var t := ReceiveAll(s1, cs, trims, 0);
    assert t == ReceiveAll(s2, cs[1..], trims, 1);
    ReceiveAllAcks(s1, cs, trims, 0);
    AckEffect(t.link, t.pos, echo, t.now, fps);
    AckFresh(t.link, t.pos, echo, t.now, fps);
  }

  /** This holds in every reachable state. */
  lemma RoundMakesProgress(steps: seq<Step>, net: nat -> Delivery, trims: nat -> bool, echo: int, fps: nat)
    requires Runs(Initial(fps), steps, fps)
    requires forall i :: net(i).Sent?
    requires var s := After(Initial(fps), steps, fps);
             s.link.pending != [] && s.link.retransmitAt <= s.now && s.link.lastSend != s.now
    ensures var s := After(Initial(fps), steps, fps);
            var res := Send(s.link, 0, s.now, net, fps);
            !res.failed &&
            var t := ReceiveAll(Next(s, Transmission(0, net), fps), res.chunks, trims, 0);
            var a := Ack(t.link, t.pos, echo, t.now, fps);
            t.pos in t.acks && a.Fresh? && |a.link.pending| < |s.link.pending|
  {
    InvInitial(fps);
    RunKeeps(Initial(fps), steps, fps);
    hide Runs, Inv, Send, Ack, Next;
    RoundShrinks(After(Initial(fps), steps, fps), net, trims, echo, fps);
  }

  lemma AckFresh(l: Link, rel: int, echo: int, now: int, fps: nat)
    ensures Ack(l, rel, echo, now, fps).Fresh? <==> l.offset < rel <= l.offset + |l.pending|
  {
  }

  /** On an expired timer the first packet starts at the first unacknowledged byte. */
  lemma FirstPacket(l: Link, net: nat -> Delivery, now: int, fps: nat)
    requires l.pending != [] && l.retransmitAt <= now && l.lastSend != now && forall i :: net(i).Sent?
    ensures var res := Send(l, 0, now, net, fps);
            !res.failed && res.chunks != [] && res.chunks[0].off == l.offset && res.chunks[0].data != []
  {
    hide AfterBurst;
    BurstStops(l.offset, l.pending[..|l.pending|], BackOff(l, now).acks + 1, net, 0);
  }

  lemma {:induction false} ReceiveAllAcks(s: Sys, cs: seq<Chunk>, trims: nat -> bool, i: nat)
    requires cs != []
    ensures ReceiveAll(s, cs, trims, i).pos in ReceiveAll(s, cs, trims, i).acks
    decreases cs
  {
    var s1 := Receive(s, cs[0], trims(i));
    if |cs| == 1 {
      assert ReceiveAll(s1, cs[1..], trims, i + 1) == s1;
    } else {
      ReceiveAllAcks(s1, cs[1..], trims, i + 1);
    }
  }

  // ----- Everything can be delivered -----

  const LOSSLESS: nat -> Delivery := _ => Sent
  const WHOLE: nat -> bool := _ => false

  function Arrivals(cs: seq<Chunk>): seq<Step> {
    if cs == [] then [] else [Arrival(cs[0], false)] + Arrivals(cs[1..])
  }

  lemma {:induction false} ArrivalsRun(s: Sys, cs: seq<Chunk>, i: nat, fps: nat)
    requires ChunkSet(cs) <= s.data
    ensures Runs(s, Arrivals(cs), fps) && After(s, Arrivals(cs), fps) == ReceiveAll(s, cs, WHOLE, i)
    decreases cs
  {
    if cs != [] {
      assert cs[0] in ChunkSet(cs) && ChunkSet(cs[1..]) <= ChunkSet(cs);
      var s1 := Receive(s, cs[0], false);
      ArrivalsRun(s1, cs[1..], i + 1, fps);
      assert Arrivals(cs)[1..] == Arrivals(cs[1..]);
      RunUnfold(s, Arrivals(cs), fps, s1);
    }
  }

  lemma {:induction false} RunsJoin(s: Sys, a: seq<Step>, b: seq<Step>, fps: nat)
    requires Runs(s, a, fps) && Runs(After(s, a, fps), b, fps)
    ensures Runs(s, a + b, fps) && After(s, a + b, fps) == After(After(s, a, fps), b, fps)
    decreases a
  {
    if a == [] {
      assert a + b == b;
    } else {
      var s1 := Next(s, a[0], fps);
      RunsJoin(s1, a[1..], b, fps);
      assert (a + b)[1..] == a[1..] + b;
      RunUnfold(s, a + b, fps, s1);
    }
  }

  lemma RunOne(s: Sys, step: Step, fps: nat)
    requires Enabled(s, step, fps)
    ensures Runs(s, [step], fps) && After(s, [step], fps) == Next(s, step, fps)
  {
    RunEnd(Next(s, step, fps), fps);
    RunUnfold(s, [step], fps, Next(s, step, fps));
  }

  /** Waiting for the timer, sending, delivery and acknowledgement, as steps of a run. */
  lemma RoundRuns(s: Sys, fps: nat) returns (more: seq<Step>)
    requires Inv(s) && s.link.pending != []
    ensures Runs(s, more, fps)
    ensures After(s, more, fps).stream == s.stream && |After(s, more, fps).link.pending| < |s.link.pending|
  {
    var wait := Tick(Max(s.now, Max(s.link.retransmitAt, s.link.lastSend + 1)));
    var send := Transmission(0, LOSSLESS);
    StepKeeps(s, wait, fps);
    RunOne(s, wait, fps);
    var s0 := Next(s, wait, fps);
    RoundShrinks(s0, LOSSLESS, WHOLE, 0, fps);
    hide Inv, Send, Ack, Runs, After;
    RunOne(s0, send, fps);
    var s1, cs := Next(s0, send, fps), Send(s0.link, 0, s0.now, LOSSLESS, fps).chunks;
    ArrivalsRun(s1, cs, 0, fps);
    var t := ReceiveAll(s1, cs, WHOLE, 0);
    RunOne(t, AckArrival(t.pos, 0), fps);
    RunsJoin(s, [wait], [send], fps);
    RunsJoin(s, [wait] + [send], Arrivals(cs), fps);
    more := [wait] + [send] + Arrivals(cs) + [AckArrival(t.pos, 0)];
    RunsJoin(s, [wait] + [send] + Arrivals(cs), [AckArrival(t.pos, 0)], fps);
  }

  /** Whatever has happened so far, the run can go on so that the client gets everything that was ever appended,
      and the server knows it. */
  lemma {:induction false} AllDelivered(s: Sys, fps: nat) returns (more: seq<Step>)
    requires Inv(s)
    ensures Runs(s, more, fps)
    ensures var t := After(s, more, fps); t.stream == s.stream && t.got == s.stream && t.link.pending == []
    decreases |s.link.pending|
  {
    if s.link.pending == [] {
      more := [];
      RunEnd(s, fps);
    } else {
      var round := RoundRuns(s, fps);
      RunKeeps(s, round, fps);
      var t := After(s, round, fps);
      hide Inv, Runs, After;
      var rest := AllDelivered(t, fps);
      RunsJoin(s, round, rest, fps);
      more := round + rest;
    }
  }

  /** In particular this is so after any run, however much was lost in it. */
  lemma NothingIsLostForGood(steps: seq<Step>, fps: nat)
    requires Runs(Initial(fps), steps, fps)
    ensures exists more :: Runs(Initial(fps), steps + more, fps) && CaughtUp(steps, more, fps)
  {
    var s := After(Initial(fps), steps, fps);
    InvInitial(fps);
    RunKeeps(Initial(fps), steps, fps);
    hide Inv, Runs, After;
    var more := AllDelivered(s, fps);
    RunsJoin(Initial(fps), steps, more, fps);
    assert CaughtUp(steps, more, fps);
  }

  /** The client has all that had been appended after the first steps, and all of it is acknowledged. */
  ghost predicate CaughtUp(steps: seq<Step>, more: seq<Step>, fps: nat)
    requires Runs(Initial(fps), steps, fps) && Runs(Initial(fps), steps + more, fps)
  {
    var s, t := After(Initial(fps), steps, fps), After(Initial(fps), steps + more, fps);
    t.stream == s.stream && t.got == s.stream && t.link.pending == []
  }

  // ----- The retransmission timer over whole runs -----

  lemma StepKeepsTimer(s: Sys, step: Step, fps: nat)
    requires TimerSane(s.link, fps) && Enabled(s, step, fps)
    ensures TimerSane(Next(s, step, fps).link, fps)
  {
    hide Send, Ack;
    match step
    case Transmission(wlen, net) => SendKeepsTimer(s.link, wlen, s.now, net, fps);
    case AckArrival(rel, echo) => AckKeepsTimer(s.link, rel, echo, s.now, fps);
    case _ =>
  }

  lemma {:induction false} RunKeepsTimer(s: Sys, steps: seq<Step>, fps: nat)
    requires TimerSane(s.link, fps) && Runs(s, steps, fps)
    ensures TimerSane(After(s, steps, fps).link, fps)
    decreases steps
  {
    if steps != [] {
      StepKeepsTimer(s, steps[0], fps);
      hide TimerSane;
      RunKeepsTimer(Next(s, steps[0], fps), steps[1..], fps);
    }
  }

  /** In every reachable state the estimator is within its bounds, and whatever is sent next is due again at most
      MAX_RETRANSMIT loops later and, from two frames per second on, strictly later than now. */
  lemma DeadlineAlwaysAhead(steps: seq<Step>, wlen: nat, net: nat -> Delivery, fps: nat)
    requires Runs(Initial(fps), steps, fps)
    ensures var s := After(Initial(fps), steps, fps);
            DevBounded(s.link, fps) && (s.link.smoothed == 0 || Between(s.link, 1, MaxRtt(fps))) &&
            var res := Send(s.link, wlen, s.now, net, fps);
            res.chunks != [] ==>
              s.now <= res.link.retransmitAt <= s.now + MaxRetransmit(fps) && (fps >= 2 ==> res.link.retransmitAt > s.now)
  {
    TimerSaneNew(fps);
    RunKeepsTimer(Initial(fps), steps, fps);
    hide Runs, After;
    var s := After(Initial(fps), steps, fps);
    if Send(s.link, wlen, s.now, net, fps).chunks != [] { DeadlineAfterSend(s.link, wlen, s.now, net, fps); }
  }

  // ----- Exponential backoff over whole runs -----

  predicate Sends(s: Sys, step: Step, fps: nat) {
    step.Transmission? && Send(s.link, step.wlen, s.now, step.net, fps).chunks != []
  }

  /** No acknowledgement arrives, and whatever is sent finds the deadline passed. */
  predicate Unanswered(s: Sys, steps: seq<Step>, fps: nat)
    requires Runs(s, steps, fps)
    decreases steps
  {
    steps == [] ||
    (!steps[0].AckArrival? && (Sends(s, steps[0], fps) ==> s.link.retransmitAt <= s.now)
     && Unanswered(Next(s, steps[0], fps), steps[1..], fps))
  }

  /** How far ahead of its send each deadline lies. */
  function Waits(s: Sys, steps: seq<Step>, fps: nat): seq<int>
    requires Runs(s, steps, fps)
    decreases steps
  {
    if steps == [] then [] else
    var s1 := Next(s, steps[0], fps);
    (if Sends(s, steps[0], fps) then [s1.link.retransmitAt - s.now] else []) + Waits(s1, steps[1..], fps)
  }

  function Pow2(k: nat): (p: nat)
    ensures p >= 1
  {
    if k == 0 then 1 else 2 * Pow2(k - 1)
  }

  lemma DoubledWait(k: nat, r: nat, most: nat)
    requires k > 0
    ensures Min(Pow2(k - 1) * (2 * Min(r, most)), most) == Min(Pow2(k) * r, most)
  {
    var p := Pow2(k - 1);
    assert p * (2 * Min(r, most)) == Pow2(k) * Min(r, most);
    if r > most {
      assert Pow2(k) * most >= most && Pow2(k) * r >= r by {
        assert (Pow2(k) - 1) * most >= 0 && (Pow2(k) - 1) * r >= 0;
      }
    }
  }

  /** A step of such a run leaves the timer alone or is a send that backs off. */
  lemma SilentStep(s: Sys, step: Step, fps: nat)
    requires Enabled(s, step, fps) && !step.AckArrival? && (Sends(s, step, fps) ==> s.link.retransmitAt <= s.now)
    ensures var l, l' := s.link, Next(s, step, fps).link;
            if Sends(s, step, fps) then
              l'.retransmitAt - s.now == Min(l.retransmit, fps + 1) && l'.retransmit == 2 * Min(l.retransmit, fps + 1)
              && l'.timeouts == l.timeouts + 1
            else l'.retransmit == l.retransmit && l'.timeouts == l.timeouts
  {
    hide Send;
    if step.Transmission? {
      if Sends(s, step, fps) {
        SendExpired(s.link, step.wlen, s.now, step.net, fps);
      } else {
        SendNothing(s.link, step.wlen, s.now, step.net, fps);
      }
    }
  }

  /** As long as no acknowledgement arrives each deadline lies twice as far ahead as the one before, up to fps + 1 loops:
      the k-th one min(2^k r, fps + 1) loops, where r is the timeout at the start.  Each one is counted. */
  lemma {:induction false} BacksOff(s: Sys, steps: seq<Step>, fps: nat)
    requires Runs(s, steps, fps) && Unanswered(s, steps, fps) && s.link.retransmit >= 0
    ensures forall k: nat :: k < |Waits(s, steps, fps)| ==> Waits(s, steps, fps)[k] == Min(Pow2(k) * s.link.retransmit, fps + 1)
    ensures After(s, steps, fps).link.timeouts == s.link.timeouts + |Waits(s, steps, fps)|
    decreases steps
  {
    if steps == [] { return; }
    var s1 := Next(s, steps[0], fps);
    SilentStep(s, steps[0], fps);
    var waits, rest := Waits(s, steps, fps), Waits(s1, steps[1..], fps);
    hide Enabled, Next, Sends, Runs;
    BacksOff(s1, steps[1..], fps);
    if Sends(s, steps[0], fps) {
      forall k: nat | k < |waits| ensures waits[k] == Min(Pow2(k) * s.link.retransmit, fps + 1) {
        if k > 0 { DoubledWait(k, s.link.retransmit, fps + 1); }
      }
    } else {
      assert waits == rest;
    }
  }

  /** This holds in every reachable state, and from there such runs with any number of sends exist as long as anything is
      unacknowledged. */
  lemma AlwaysBacksOff(before: seq<Step>, steps: seq<Step>, fps: nat)
    requires Runs(Initial(fps), before, fps)
    requires var s := After(Initial(fps), before, fps); Runs(s, steps, fps) && Unanswered(s, steps, fps)
    ensures var s := After(Initial(fps), before, fps);
            forall k: nat :: k < |Waits(s, steps, fps)| ==>
              Waits(s, steps, fps)[k] == Min(Pow2(k) * s.link.retransmit, fps + 1)
  {
    TimerSaneNew(fps);
    RunKeepsTimer(Initial(fps), before, fps);
    hide Runs, After, Unanswered, Waits;
    BacksOff(After(Initial(fps), before, fps), steps, fps);
  }

  /** Waiting for the timer and sending, n times, over a network that takes everything and delivers nothing. */
  lemma {:induction false} SilenceRuns(s: Sys, n: nat, fps: nat) returns (steps: seq<Step>)
    requires s.link.pending != []
    ensures Runs(s, steps, fps) && Unanswered(s, steps, fps) && |Waits(s, steps, fps)| == n
    decreases n
  {
    if n == 0 { return []; }
    var wait := Tick(Max(s.now, Max(s.link.retransmitAt, s.link.lastSend + 1)));
    var send := Transmission(0, LOSSLESS);
    var s0 := Next(s, wait, fps);
    FirstPacket(s0.link, LOSSLESS, s0.now, fps);
    SendEffect(s0.link, 0, s0.now, LOSSLESS, fps);
    hide Send;
    var s1 := Next(s0, send, fps);
    var rest := SilenceRuns(s1, n - 1, fps);
    steps := [wait] + ([send] + rest);
    assert steps[1..] == [send] + rest && steps[1..][1..] == rest;
    RunUnfold(s0, [send] + rest, fps, s1);
    RunUnfold(s, steps, fps, s0);
  }

  // ----- The draining state -----

  /** netserver.h describes the draining state as waiting until all reliable data is acknowledged.  The
      code leaves it when everything *sent* is acknowledged; exactly when everything appended has been
      sent by then is nothing left behind. */
  lemma DrainEndsExactly(steps: seq<Step>, rel: int, echo: int, fps: nat)
    requires Runs(Initial(fps), steps, fps)
    requires var s := After(Initial(fps), steps, fps);
             rel in s.acks && rel > s.link.offset && s.link.state == DRAIN
             && s.link.drainState != DRAIN && s.link.drainState != READY
    ensures var s := After(Initial(fps), steps, fps);
            var a := Ack(s.link, rel, echo, s.now, fps);
            && !a.BadAck?
            && (a.link.state != DRAIN <==> rel == s.link.unsent)
            && (a.link.state != DRAIN ==> (a.link.pending == [] <==> s.link.unsent == |s.stream|))
  {
    var s := After(Initial(fps), steps, fps);
    InvInitial(fps);
    RunKeeps(Initial(fps), steps, fps);
    AckEffect(s.link, rel, echo, s.now, fps);
  }

  lemma RunUnfold(s: Sys, steps: seq<Step>, fps: nat, s': Sys)
    requires steps != [] && Enabled(s, steps[0], fps) && s' == Next(s, steps[0], fps) && Runs(s', steps[1..], fps)
    ensures Runs(s, steps, fps) && After(s, steps, fps) == After(s', steps[1..], fps)
  {
  }

  lemma RunEnd(s: Sys, fps: nat)
    ensures Runs(s, [], fps) && After(s, [], fps) == s
  {
  }

  /** One byte sent and received, a second one appended, and then the connection starts draining. */
  function EarlyDrain(): seq<Step> {
    [Tick(1), Append([7]), Transmission(0, _ => Sent), Arrival(Chunk(0, [7]), false), Append([9]), Change(DRAIN, LOGIN)]
  }

  lemma FirstByteSent(l: Link, net: nat -> Delivery)
    requires l == NewLink(8).(pending := [7]) && net(0).Sent?
    ensures var res := Send(l, 0, 1, net, 8);
            res.chunks == [Chunk(0, [7])] && !res.failed && res.link.pending == [7]
            && res.link.unsent == 1 && res.link.offset == 0
  {
    assert [7][..1] == [7];
    var cs := Burst(0, [7], 1, net, 0);
    assert cs == [Chunk(0, [7])];
    assert Total(cs) == 1 + Total(cs[1..]);
  }

  predicate EarlyDrained(s: Sys) {
    && 1 in s.acks && s.link.offset == 0 && s.link.unsent == 1 && s.link.pending == [7, 9]
    && s.link.state == DRAIN && s.link.drainState == LOGIN
  }

  lemma EarlyDrainTail(s3: Sys)
    requires s3.link.pending == [7] && s3.link.unsent == 1 && s3.link.offset == 0
    requires s3.pos == 0 && Chunk(0, [7]) in s3.data
    ensures Runs(s3, EarlyDrain()[3..], 8) && EarlyDrained(After(s3, EarlyDrain()[3..], 8))
  {
    var steps := EarlyDrain();
    hide Send, Ack, Runs, After;
    var s4 := Next(s3, steps[3], 8);
    var s5 := Next(s4, steps[4], 8);
    var s6 := Next(s5, steps[5], 8);
    RunEnd(s6, 8);
    RunUnfold(s5, steps[5..], 8, s6);
    RunUnfold(s4, steps[4..], 8, s5);
    RunUnfold(s3, steps[3..], 8, s4);
  }

  lemma EarlyDrainRuns()
    ensures Runs(Initial(8), EarlyDrain(), 8) && EarlyDrained(After(Initial(8), EarlyDrain(), 8))
  {
    var steps := EarlyDrain();
    hide Send, Ack, Runs, After, EarlyDrained;
    var s1 := Next(Initial(8), steps[0], 8);
    var s2 := Next(s1, steps[1], 8);
    FirstByteSent(s2.link, steps[2].net);
    var s3 := Next(s2, steps[2], 8);
    assert Chunk(0, [7]) in s3.data;
    EarlyDrainTail(s3);
    RunUnfold(s2, steps[2..], 8, s3);
    RunUnfold(s1, steps[1..], 8, s2);
    RunUnfold(Initial(8), steps, 8, s1);
  }

  /** A reachable state in which an acknowledgement ends the draining state with a byte still pending. */
  lemma DrainEndsEarly()
    ensures Runs(Initial(8), EarlyDrain(), 8)
    ensures var s := After(Initial(8), EarlyDrain(), 8);
            1 in s.acks && s.link.state == DRAIN &&
            var a := Ack(s.link, 1, 1, s.now, 8);
            a.Fresh? && a.link.state == LOGIN && a.link.pending == [9]
  {
    EarlyDrainRuns();
    assert [7, 9][1..] == [9];
  }
}
