/** The reliable byte stream of src/server/netserver.c as a function of its state: what Send_reliable
    transmits, how Receive_ack moves the window, and the round-trip estimator. */
module ReliableLink {
  import opened Numbers
  import opened PacketCodec
  import opened Sockbufs

  const MAX_RELIABLE_DATA_PACKET_SIZE := 1024
  const MIN_SEND_SIZE := 1

  const PKT_REPLY := 2
  const PKT_PLAY := 3
  const PKT_SUCCESS := 102
  const PKT_FAILURE := 101
  const PKT_RELIABLE := 42
  const PKT_ACK := 43

  datatype ConnState = FREE | LISTENING | SETUP | LOGIN | PLAYING | DRAIN | READY

  /** The reliable part of a connection.  `pending` is what the reliable buffer holds. */
  datatype Link = Link(
    pending: seq<Byte>,
    offset: int, unsent: int, lastSend: int, retransmitAt: int,
    smoothed: int, dev: int, retransmit: int, timeouts: int, acks: nat,
    state: ConnState, drainState: ConnState)

  function MaxRtt(fps: nat): nat { fps + 1 }
  function MinRetransmit(fps: nat): nat { fps / 8 + 1 }
  function MaxRetransmit(fps: nat): nat { fps + 1 }
  function DefaultRetransmit(fps: nat): nat { fps / 2 }

  /** A connection as Setup_connection leaves it. */
  function NewLink(fps: nat): Link {
    Link([], 0, 0, 0, 0, 0, 0, DefaultRetransmit(fps), 0, 0, LISTENING, FREE)
  }

  // ----- Sending -----

  /** One reliable packet: `data` starts at byte `off` of the stream. */
  datatype Chunk = Chunk(off: int, data: seq<Byte>)

  /** How much may go out when w already holds wlen bytes of a frame. */
  function MaxTodo(l: Link, wlen: nat): int {
    if wlen > 0 then Min(|l.pending|, MAX_RELIABLE_DATA_PACKET_SIZE - wlen) else |l.pending|
  }

  predicate Idle(l: Link, now: int) {
    l.pending == [] || l.lastSend == now
  }

  predicate TimerRunning(l: Link, now: int) { l.retransmitAt > now }

  predicate WillSend(l: Link, wlen: nat, now: int) {
    && !Idle(l, now)
    && wlen < MAX_RELIABLE_DATA_PACKET_SIZE - MIN_SEND_SIZE
    && (TimerRunning(l, now) ==> wlen != 0 && MaxTodo(l, wlen) > l.unsent - l.offset + MIN_SEND_SIZE)
  }

  /** Consecutive packets of at most 1024 bytes, as long as the budget and the network allow. */
  function Burst(off: int, todo: seq<Byte>, budget: nat, net: nat -> Delivery, i: nat): (cs: seq<Chunk>)
    ensures |cs| <= budget
    decreases budget
  {
    if budget == 0 || todo == [] || !net(i).Sent? then [] else
    var n := Min(|todo|, MAX_RELIABLE_DATA_PACKET_SIZE);
    [Chunk(off, todo[..n])] + Burst(off + n, todo[n..], budget - 1, net, i + 1)
  }

  function Total(cs: seq<Chunk>): nat {
    if cs == [] then 0 else |cs[0].data| + Total(cs[1..])
  }

  datatype SendResult = SendResult(link: Link, chunks: seq<Chunk>, failed: bool)

  /** On a timeout the number of packets sent at once is halved. */
  function BackOff(l: Link, now: int): Link {
    if l.retransmitAt != 0 && !TimerRunning(l, now) then l.(acks := l.acks / 2) else l
  }

  /** Sends the first maxTodo pending bytes, in as many packets as the credit in acks allows. */
  function Transmit(l: Link, maxTodo: nat, now: int, net: nat -> Delivery, fps: nat): SendResult
    requires maxTodo <= |l.pending|
  {
    var cs := Burst(l.offset, l.pending[..maxTodo], l.acks + 1, net, 0);
    var stopped := |cs| <= l.acks && Total(cs) < maxTodo;
    SendResult(AfterBurst(if stopped then l.(acks := 0) else l, Total(cs), now, fps), cs,
               stopped && net(|cs|).Refused?)
  }

  /** Send_reliable.  `net(i)` is the fate of the i-th datagram it tries to send. */
  function Send(l: Link, wlen: nat, now: int, net: nat -> Delivery, fps: nat): SendResult {
    if WillSend(l, wlen, now) then Transmit(BackOff(l, now), MaxTodo(l, wlen), now, net, fps)
    else SendResult(if Idle(l, now) then l.(lastSend := now) else l, [], false)
  }

  /** Bookkeeping after `sent` bytes went out: retransmission timer with exponential backoff. */
  function AfterBurst(l: Link, sent: nat, now: int, fps: nat): Link {
    var l1 := l.(lastSend := now);
    if sent == 0 then l1 else
    var timeout := Min(l.retransmit, MaxRetransmit(fps));
    l1.(retransmitAt := now + timeout,
        retransmit := if TimerRunning(l, now) then timeout else 2 * timeout,
        timeouts := if TimerRunning(l, now) then l.timeouts else l.timeouts + 1,
        unsent := if l.offset + sent > l.unsent then l.offset + sent else l.unsent)
  }

  // ----- Acknowledgements -----

  /** The round-trip estimator: smoothed is scaled by 8, dev by 4. */
  function Estimate(l: Link, rtt: int, fps: nat): Link {
    if !(0 < rtt <= MaxRtt(fps)) then l else
    var s := if l.smoothed == 0 then 8 * rtt else l.smoothed;
    var delta := rtt - s / 8;
    var smoothed := s + delta;
    var dev := l.dev + (Abs(delta) - l.dev / 4);
    var timeout := (smoothed / 4 + dev) / 2;
    l.(smoothed := smoothed, dev := dev,
       retransmit := if timeout < MinRetransmit(fps) then MinRetransmit(fps) else timeout)
  }

  datatype AckResult = BadAck | Stale(link: Link) | Fresh(link: Link)

  function Drain(l: Link): Link { l.(state := l.drainState) }

  predicate StartsWithReply(b: seq<Byte>) {
    b != [] && b[0] in {PKT_REPLY, PKT_PLAY, PKT_SUCCESS, PKT_FAILURE}
  }

  /** The draining states end when nothing that was sent is left unacknowledged, or when the pending
      data no longer starts with a reply. */
  function Settle(l: Link): Link {
    var all := l.offset >= l.unsent;
    var l1 := if all then l.(retransmitAt := 0) else l;
    var l2 := if all && l.state == DRAIN then Drain(l1) else l1;
    if l2.state == READY && !StartsWithReply(l2.pending) then Drain(l2) else l2
  }

  /** The window moves over diff newly acknowledged bytes. */
  function Slid(l: Link, diff: nat): Link
    requires diff <= |l.pending|
  {
    var credit := (diff + 511) / 512;
    Settle(l.(pending := l.pending[diff..], offset := l.offset + diff, timeouts := 0,
              acks := if credit > l.acks then credit else l.acks + 1))
  }

  /** Receive_ack: `rel` is the acknowledged stream position, `echo` the time stamp sent back. */
  function Ack(l: Link, rel: int, echo: int, now: int, fps: nat): AckResult {
    var measured := Estimate(l, now - echo, fps);
    if rel - l.offset > |l.pending| then BadAck
    else if rel - l.offset <= 0 then Stale(measured)
    else Fresh(Slid(measured, rel - l.offset))
  }

  // ----- Facts about one burst -----

  /** The packets of a burst tile the data they were cut from, from its first byte on. */
  ghost predicate Tiles(cs: seq<Chunk>, off: int, data: seq<Byte>) {
    if cs == [] then data == []
    else 1 <= |cs[0].data| <= MAX_RELIABLE_DATA_PACKET_SIZE
         && cs[0].off == off && cs[0].data <= data && Tiles(cs[1..], off + |cs[0].data|, data[|cs[0].data|..])
  }

  lemma {:induction false} BurstTiles(off: int, todo: seq<Byte>, budget: nat, net: nat -> Delivery, i: nat)
    ensures var cs := Burst(off, todo, budget, net, i);
            Total(cs) <= |todo| && Tiles(cs, off, todo[..Total(cs)])
    decreases budget
  {
    var cs := Burst(off, todo, budget, net, i);
    if cs != [] {
      var n := |cs[0].data|;
      BurstTiles(off + n, todo[n..], budget - 1, net, i + 1);
      assert cs[1..] == Burst(off + n, todo[n..], budget - 1, net, i + 1);
      assert todo[..Total(cs)][n..] == todo[n..][..Total(cs[1..])];
    }
  }

  /** A burst stops early only at the budget, at the end of the data, or at a failing send. */
  lemma {:induction false} BurstStops(off: int, todo: seq<Byte>, budget: nat, net: nat -> Delivery, i: nat)
    ensures var cs := Burst(off, todo, budget, net, i);
            && (|cs| < budget && Total(cs) < |todo| ==> !net(i + |cs|).Sent?)
            && (forall k :: i <= k < i + |cs| ==> net(k).Sent?)
            && (Total(cs) < |todo| ==> Total(cs) == MAX_RELIABLE_DATA_PACKET_SIZE * |cs|)
    decreases budget
  {
    var cs := Burst(off, todo, budget, net, i);
    if cs != [] {
      var n := |cs[0].data|;
      BurstStops(off + n, todo[n..], budget - 1, net, i + 1);
      assert cs[1..] == Burst(off + n, todo[n..], budget - 1, net, i + 1);
    }
  }

  lemma SliceShift(data: seq<Byte>, n: nat, a: int, k: nat)
    requires 0 <= a && n + a + k <= |data|
    ensures data[n..][a..a + k] == data[n + a..n + a + k]
  {
  }

  /** Every packet of a tiling carries the right slice of the data. */
  lemma {:induction false} TileSlice(cs: seq<Chunk>, off: int, data: seq<Byte>, c: Chunk)
    requires Tiles(cs, off, data) && c in cs
    ensures 0 <= c.off - off && c.off - off + |c.data| <= |data| && |c.data| >= 1
    ensures c.data == data[c.off - off..c.off - off + |c.data|]
  {
    var n := |cs[0].data|;
    if c != cs[0] {
      assert c in cs[1..];
      TileSlice(cs[1..], off + n, data[n..], c);
      hide Tiles;
      SliceShift(data, n, c.off - off - n, |c.data|);
    }
  }

  // ----- The estimator over any run of samples -----

  function Samples(l: Link, rtts: seq<int>, fps: nat): Link
    decreases rtts
  {
    if rtts == [] then l else Samples(Estimate(l, rtts[0], fps), rtts[1..], fps)
  }

  predicate Accepted(rtt: int, fps: nat) { 0 < rtt <= MaxRtt(fps) }

  predicate DevBounded(l: Link, fps: nat) { 0 <= l.dev <= 4 * MaxRtt(fps) - 1 }

  /** The scaled-back estimate lies between lo and hi. */
  predicate Between(l: Link, lo: int, hi: int) { lo <= l.smoothed / 8 <= hi }

  lemma EstimateStays(l: Link, rtt: int, fps: nat, lo: int, hi: int)
    requires 1 <= lo <= hi <= MaxRtt(fps) && (Accepted(rtt, fps) ==> lo <= rtt <= hi)
    requires l.smoothed == 0 || Between(l, lo, hi)
    requires DevBounded(l, fps)
    ensures var l' := Estimate(l, rtt, fps);
            (l.smoothed == 0 && !Accepted(rtt, fps) ==> l' == l)
            && (l.smoothed != 0 || Accepted(rtt, fps) ==> Between(l', lo, hi)) && DevBounded(l', fps)
  {
    if Accepted(rtt, fps) {
      var s := if l.smoothed == 0 then 8 * rtt else l.smoothed;
      assert lo <= s / 8 <= hi;
      assert Abs(rtt - s / 8) <= MaxRtt(fps) - 1;
    }
  }

  /** For constant fps and any run of samples, the estimate stays between the smallest and the
      largest accepted one, so it never falls back to the sentinel 0 once started. */
  lemma {:induction false} EstimatorBounds(l: Link, rtts: seq<int>, fps: nat, lo: int, hi: int)
    requires 1 <= lo <= hi <= MaxRtt(fps)
    requires forall r :: r in rtts && Accepted(r, fps) ==> lo <= r <= hi
    requires l.smoothed == 0 || Between(l, lo, hi)
    requires DevBounded(l, fps)
    ensures var l' := Samples(l, rtts, fps);
            DevBounded(l', fps)
            && (Between(l', lo, hi) || (l' == l && forall r :: r in rtts ==> !Accepted(r, fps)))
    decreases rtts
  {
    if rtts != [] {
      EstimateStays(l, rtts[0], fps, lo, hi);
      var l1 := Estimate(l, rtts[0], fps);
      EstimatorBounds(l1, rtts[1..], fps, lo, hi);
      assert forall r :: r in rtts ==> r == rtts[0] || r in rtts[1..];
    }
  }

  // ----- The estimator follows its samples -----

  /** A first sample is the estimate.  A later one moves the estimate strictly towards itself and not beyond, unless it is
      the estimate already. */
  lemma EstimateFollows(l: Link, rtt: int, fps: nat)
    requires 0 < rtt <= fps + 1
    ensures var l' := Estimate(l, rtt, fps);
            && (l.smoothed == 0 ==> l'.smoothed == 8 * rtt)
            && (l.smoothed != 0 && l.smoothed / 8 < rtt ==> l.smoothed < l'.smoothed && l'.smoothed / 8 <= rtt)
            && (l.smoothed != 0 && l.smoothed / 8 > rtt ==> l.smoothed > l'.smoothed && l'.smoothed / 8 >= rtt)
            && (l.smoothed != 0 && l.smoothed / 8 == rtt ==> l'.smoothed == l.smoothed)
  {
  }

  /** One eighth of the error is added to the estimate: scaled back, what is left of the error is seven eighths of it. */
  lemma EighthOfError(l: Link, rtt: int, fps: nat)
    requires 0 < rtt <= fps + 1 && l.smoothed != 0
    ensures var l' := Estimate(l, rtt, fps);
            l'.smoothed - 8 * rtt <= (l.smoothed - 8 * rtt) * 7 / 8 + 1 && l'.smoothed - 8 * rtt >= (l.smoothed - 8 * rtt) * 7 / 8
  {
  }

  /** The deviation moves towards the error of the sample in the same way, and measurements outside the range change
      nothing. */
  lemma DeviationFollows(l: Link, rtt: int, fps: nat)
    requires l.dev >= 0
    ensures var l', error := Estimate(l, rtt, fps), Abs(rtt - l.smoothed / 8);
            && (0 < rtt <= fps + 1 && l.smoothed == 0 ==> l'.dev == l.dev - l.dev / 4)
            && (0 < rtt <= fps + 1 && l.smoothed != 0 && l.dev / 4 < error ==> l.dev < l'.dev && l'.dev / 4 <= error)
            && (0 < rtt <= fps + 1 && l.smoothed != 0 && l.dev / 4 > error ==> l.dev > l'.dev && l'.dev / 4 >= error)
            && (0 < rtt <= fps + 1 && l.smoothed != 0 && l.dev / 4 == error ==> l'.dev == l.dev)
            && (!(0 < rtt <= fps + 1) ==> l' == l)
  {
  }

  /** The timeout after a sample is the estimate and twice the deviation, to within one loop, but at least
      fps / 8 + 1. */
  lemma TimeoutFollows(l: Link, rtt: int, fps: nat)
    requires 0 < rtt <= fps + 1 && l.dev >= 0 && l.smoothed >= 0
    ensures var l' := Estimate(l, rtt, fps);
            && l'.retransmit >= fps / 8 + 1 && l'.retransmit >= l'.smoothed / 8
            && l'.retransmit >= l'.smoothed / 8 + 2 * (l'.dev / 4)
            && (l'.retransmit > fps / 8 + 1 ==> l'.retransmit <= l'.smoothed / 8 + l'.dev / 2 + 1)
  {
  }

  /** Of two links with the same estimate, the one whose deviation is larger by 2 j waits j loops longer, unless the
      timeout is the smallest possible. */
  lemma DeviationLengthens(l: Link, m: Link, rtt: int, fps: nat, j: nat)
    requires 0 < rtt <= fps + 1 && l.dev >= 0 && l.smoothed >= 0
    requires var l', m' := Estimate(l, rtt, fps), Estimate(m, rtt, fps);
             m'.smoothed == l'.smoothed && m'.dev == l'.dev + 2 * j
    ensures var l', m' := Estimate(l, rtt, fps), Estimate(m, rtt, fps);
            m'.retransmit >= l'.retransmit && (l'.retransmit > fps / 8 + 1 ==> m'.retransmit == l'.retransmit + j)
  {
  }

  /** n times the same round trip. */
  function Same(rtt: int, n: nat): seq<int> { seq(n, _ => rtt) }

  /** Enough equal samples make the estimate the sample, whatever it was before. */
  lemma {:induction false} EstimateConverges(l: Link, rtt: int, fps: nat, n: nat)
    requires 0 < rtt <= fps + 1 && l.smoothed > 0 && n >= Abs(l.smoothed - 8 * rtt)
    ensures var l' := Samples(l, Same(rtt, n), fps); l'.smoothed / 8 == rtt && l'.smoothed > 0
    decreases n
  {
    if n > 0 {
      var l1 := Estimate(l, rtt, fps);
      EstimateFollows(l, rtt, fps);
      assert Same(rtt, n)[1..] == Same(rtt, n - 1);
      hide Estimate;
      if l.smoothed / 8 == rtt { EstimateSettled(l, rtt, fps, n); } else { EstimateConverges(l1, rtt, fps, n - 1); }
    }
  }

  lemma {:induction false} EstimateSettled(l: Link, rtt: int, fps: nat, n: nat)
    requires 0 < rtt <= fps + 1 && l.smoothed > 0 && l.smoothed / 8 == rtt
    ensures Samples(l, Same(rtt, n), fps).smoothed == l.smoothed
    decreases n
  {
    if n > 0 {
      EstimateFollows(l, rtt, fps);
      assert Same(rtt, n)[1..] == Same(rtt, n - 1);
      hide Estimate;
      EstimateSettled(Estimate(l, rtt, fps), rtt, fps, n - 1);
    }
  }

  /** From then on as many equal samples as the deviation counts make it vanish, and the timeout is the round trip
      and at most two loops more, or the smallest possible. */
  lemma {:induction false} TimeoutConverges(l: Link, rtt: int, fps: nat, n: nat)
    requires 0 < rtt <= fps + 1 && l.smoothed > 0 && l.smoothed / 8 == rtt && 0 <= l.dev <= n + 3 && n > 0
    ensures var l' := Samples(l, Same(rtt, n), fps);
            && 0 <= l'.dev <= 3 && l'.smoothed == l.smoothed
            && rtt <= l'.retransmit && (l'.retransmit <= rtt + 2 || l'.retransmit == fps / 8 + 1)
    decreases n
  {
    var l1 := Estimate(l, rtt, fps);
    EstimateFollows(l, rtt, fps);
    DeviationFollows(l, rtt, fps);
    TimeoutFollows(l, rtt, fps);
    assert Same(rtt, n)[1..] == Same(rtt, n - 1);
    hide Estimate;
    if n > 1 {
      TimeoutConverges(l1, rtt, fps, n - 1);
    } else {
      assert Samples(l, Same(rtt, 1), fps) == Samples(l1, [], fps) == l1;
    }
  }

  /** Timer facts that every send and every ack keep: the next timeout is positive for fps >= 2. */
  predicate TimerSane(l: Link, fps: nat) {
    DevBounded(l, fps) && (l.smoothed == 0 || Between(l, 1, MaxRtt(fps)))
    && 0 <= l.retransmit && (fps >= 2 ==> 1 <= l.retransmit)
  }

  lemma TimerSaneNew(fps: nat)
    ensures TimerSane(NewLink(fps), fps)
  {
  }

  lemma SendKeepsTimer(l: Link, wlen: nat, now: int, net: nat -> Delivery, fps: nat)
    requires TimerSane(l, fps)
    ensures TimerSane(Send(l, wlen, now, net, fps).link, fps)
  {
  }

  lemma EstimateKeepsTimer(l: Link, rtt: int, fps: nat)
    requires TimerSane(l, fps)
    ensures TimerSane(Estimate(l, rtt, fps), fps)
  {
    EstimateStays(l, rtt, fps, 1, MaxRtt(fps));
  }

  lemma AckKeepsTimer(l: Link, rel: int, echo: int, now: int, fps: nat)
    requires TimerSane(l, fps)
    ensures !Ack(l, rel, echo, now, fps).BadAck? ==> TimerSane(Ack(l, rel, echo, now, fps).link, fps)
  {
    hide Estimate;
    EstimateKeepsTimer(l, now - echo, fps);
  }

  /** After anything was sent the deadline is at most MAX_RETRANSMIT loops ahead, and strictly in
      the future exactly when the current timeout is positive, which fps >= 2 guarantees. */
  lemma DeadlineAfterSend(l: Link, wlen: nat, now: int, net: nat -> Delivery, fps: nat)
    requires TimerSane(l, fps) && Send(l, wlen, now, net, fps).chunks != []
    ensures var l' := Send(l, wlen, now, net, fps).link;
            && now <= l'.retransmitAt <= now + MaxRetransmit(fps)
            && (l'.retransmitAt > now <==> l.retransmit > 0)
            && (fps >= 2 ==> l'.retransmitAt > now)
  {
    BurstTiles(l.offset, l.pending[..MaxTodo(l, wlen)], BackOff(l, now).acks + 1, net, 0);
  }

  // ----- When something is sent, and what that does to the timer -----

  /** Over a network that takes datagrams something goes out exactly if there is something to send and nothing has been sent
      in this loop, there is room for a byte behind the frame, and either the deadline has passed or the frame takes along
      a byte that has not been sent before. */
  lemma SendsExactly(l: Link, wlen: nat, now: int, net: nat -> Delivery, fps: nat)
    requires net(0).Sent?
    ensures Send(l, wlen, now, net, fps).chunks != []
            <==> l.pending != [] && l.lastSend != now && wlen <= 1022
                 && (l.retransmitAt <= now
                     || (wlen > 0 && |l.pending| > l.unsent - l.offset + 1 && 1024 - wlen > l.unsent - l.offset + 1))
  {
  }

  /** What goes out begins at the first unacknowledged byte, and fits into 1024 bytes with the frame.  It is everything, or
      as much as fits into the packets that the credit allows; the credit is halved if a deadline has passed. */
  lemma SendsAsMuch(l: Link, wlen: nat, now: int, net: nat -> Delivery, fps: nat)
    requires forall i :: net(i).Sent?
    requires Send(l, wlen, now, net, fps).chunks != []
    ensures var res := Send(l, wlen, now, net, fps);
            var credit := if l.retransmitAt != 0 && l.retransmitAt <= now then l.acks / 2 else l.acks;
            var most := if wlen > 0 then Min(|l.pending|, 1024 - wlen) else |l.pending|;
            && !res.failed && |res.chunks| <= credit + 1 && res.chunks[0].off == l.offset
            && Total(res.chunks) == Min(most, 1024 * (credit + 1)) && res.link.acks == credit
  {
    var b := BackOff(l, now);
    BurstStops(l.offset, l.pending[..MaxTodo(l, wlen)], b.acks + 1, net, 0);
    BurstTiles(l.offset, l.pending[..MaxTodo(l, wlen)], b.acks + 1, net, 0);
    BurstSize(l.offset, l.pending[..MaxTodo(l, wlen)], b.acks + 1, net, 0);
    hide Burst, Tiles, AfterBurst;
  }

  lemma {:induction false} BurstSize(off: int, todo: seq<Byte>, budget: nat, net: nat -> Delivery, i: nat)
    ensures Total(Burst(off, todo, budget, net, i)) <= MAX_RELIABLE_DATA_PACKET_SIZE * |Burst(off, todo, budget, net, i)|
    decreases budget
  {
    var cs := Burst(off, todo, budget, net, i);
    if cs != [] {
      var n := |cs[0].data|;
      BurstSize(off + n, todo[n..], budget - 1, net, i + 1);
      assert cs[1..] == Burst(off + n, todo[n..], budget - 1, net, i + 1);
    }
  }

  /** A send that finds the deadline passed sets the next one a timeout ahead, but at most fps + 1 loops, and doubles the
      timeout. */
  lemma SendExpired(l: Link, wlen: nat, now: int, net: nat -> Delivery, fps: nat)
    requires Send(l, wlen, now, net, fps).chunks != [] && l.retransmitAt <= now
    ensures var l', wait := Send(l, wlen, now, net, fps).link, Min(l.retransmit, fps + 1);
            && l'.retransmitAt == now + wait && l'.retransmit == 2 * wait && l'.timeouts == l.timeouts + 1
            && l'.lastSend == now && l'.acks <= l.acks
  {
    var b := BackOff(l, now);
    var todo := l.pending[..MaxTodo(l, wlen)];
    assert Total(Burst(l.offset, todo, b.acks + 1, net, 0)) > 0 by {
      BurstTiles(l.offset, todo, b.acks + 1, net, 0);
    }
    hide Burst, Total;
  }

  /** A send before the deadline starts the timer anew, without doubling. */
  lemma SendUnexpired(l: Link, wlen: nat, now: int, net: nat -> Delivery, fps: nat)
    requires Send(l, wlen, now, net, fps).chunks != [] && l.retransmitAt > now
    ensures var l', wait := Send(l, wlen, now, net, fps).link, Min(l.retransmit, fps + 1);
            && l'.retransmitAt == now + wait && l'.retransmit == wait && l'.timeouts == l.timeouts && l'.lastSend == now
  {
    var todo := l.pending[..MaxTodo(l, wlen)];
    assert Total(Burst(l.offset, todo, l.acks + 1, net, 0)) > 0 by {
      BurstTiles(l.offset, todo, l.acks + 1, net, 0);
    }
    hide Burst, Total;
  }

  /** With nothing pending, or after a send in the same loop, only the loop is noted.  With a frame of 1023 bytes or more, or
      without one before the deadline, not even that. */
  lemma SendRefrains(l: Link, wlen: nat, now: int, net: nat -> Delivery, fps: nat)
    ensures l.pending == [] || l.lastSend == now ==> Send(l, wlen, now, net, fps) == SendResult(l.(lastSend := now), [], false)
    ensures l.pending != [] && l.lastSend != now && (wlen >= 1023 || (wlen == 0 && l.retransmitAt > now)) ==>
              Send(l, wlen, now, net, fps) == SendResult(l, [], false)
  {
  }

  /** A send with which nothing goes out leaves the timer alone. */
  lemma SendNothing(l: Link, wlen: nat, now: int, net: nat -> Delivery, fps: nat)
    requires Send(l, wlen, now, net, fps).chunks == []
    ensures var l' := Send(l, wlen, now, net, fps).link;
            && l'.retransmitAt == l.retransmitAt && l'.retransmit == l.retransmit && l'.timeouts == l.timeouts
            && l'.unsent == l.unsent && l'.acks <= l.acks && (l'.lastSend == now || l'.lastSend == l.lastSend)
  {
  }

  /** A datagram that is not taken ends the burst.  If it would only block, the credit is gone; if it is refused for good,
      the send fails. */
  lemma SendStops(l: Link, wlen: nat, now: int, net: nat -> Delivery, fps: nat, k: nat)
    requires l.pending != [] && l.lastSend != now && wlen <= 1022
    requires l.retransmitAt <= now
             || (wlen > 0 && |l.pending| > l.unsent - l.offset + 1 && 1024 - wlen > l.unsent - l.offset + 1)
    requires k <= (if l.retransmitAt != 0 && l.retransmitAt <= now then l.acks / 2 else l.acks)
    requires 1024 * k < (if wlen > 0 then Min(|l.pending|, 1024 - wlen) else |l.pending|)
    requires !net(k).Sent? && forall i :: 0 <= i < k ==> net(i).Sent?
    ensures var res := Send(l, wlen, now, net, fps);
            && |res.chunks| == k && Total(res.chunks) == 1024 * k
            && res.link.acks == 0 && (res.failed <==> net(k).Refused?)
  {
    BurstUntil(l.offset, l.pending[..MaxTodo(l, wlen)], BackOff(l, now).acks + 1, net, 0, k);
    hide Burst, Total;
  }

  lemma {:induction false} BurstUntil(off: int, todo: seq<Byte>, budget: nat, net: nat -> Delivery, i: nat, k: nat)
    requires k < budget && 1024 * k < |todo| && !net(i + k).Sent? && forall j :: i <= j < i + k ==> net(j).Sent?
    ensures var cs := Burst(off, todo, budget, net, i); |cs| == k && Total(cs) == 1024 * k
    decreases k
  {
    if k > 0 {
      BurstUntil(off + 1024, todo[1024..], budget - 1, net, i + 1, k - 1);
      var cs := Burst(off, todo, budget, net, i);
      assert cs[1..] == Burst(off + 1024, todo[1024..], budget - 1, net, i + 1);
    }
  }

  /** A new connection waits half a second for its first acknowledgement: its first packet is due again fps / 2 loops after
      it was sent. */
  lemma FirstDeadline(data: seq<Byte>, now: int, net: nat -> Delivery, fps: nat)
    requires data != [] && now > 0 && net(0).Sent?
    ensures var l := NewLink(fps).(pending := data);
            var res := Send(l, 0, now, net, fps);
            && |res.chunks| == 1 && res.chunks[0] == Chunk(0, data[..Min(|data|, 1024)])
            && res.link.retransmitAt == now + fps / 2 && res.link.unsent == Min(|data|, 1024) && res.link.state == LISTENING
  {
    var l := NewLink(fps).(pending := data);
    var n := Min(|data|, 1024);
    assert data[..|data|] == data;
    assert Burst(0, data, 1, net, 0) == [Chunk(0, data[..n])] + Burst(n, data[n..], 0, net, 1);
    assert Burst(n, data[n..], 0, net, 1) == [];
    assert Total([Chunk(0, data[..n])]) == n + Total([]);
    SendsExactly(l, 0, now, net, fps);
    SendExpired(l, 0, now, net, fps);
  }

  // ----- What an acknowledgement does to the timer and the credit -----

  /** An acknowledgement of new data gives credit for half a kilobyte each, or for one packet more than there was; it ends
      the count of timeouts; and the timer stops exactly if nothing sent is left unacknowledged. */
  lemma AckGivesCredit(l: Link, rel: int, echo: int, now: int, fps: nat)
    requires Ack(l, rel, echo, now, fps).Fresh?
    ensures var l' := Ack(l, rel, echo, now, fps).link;
            && l'.timeouts == 0 && l'.acks > 0 && 512 * l'.acks >= rel - l.offset
            && (l'.acks <= l.acks + 1 || 512 * (l'.acks - 1) < rel - l.offset)
            && l'.acks >= l.acks && (512 * l.acks >= rel - l.offset ==> l'.acks == l.acks + 1)
            && l'.retransmitAt == (if rel >= l.unsent then 0 else l.retransmitAt)
            && l'.lastSend == l.lastSend && l'.unsent == l.unsent
  {
  }

  /** The draining states: DRAIN ends with the last byte sent, READY as soon as the rest does not begin with one of the
      replies 2, 3, 101 and 102, and no other state does. */
  lemma AckLeavesStates(l: Link, rel: int, echo: int, now: int, fps: nat)
    requires Ack(l, rel, echo, now, fps).Fresh? && l.drainState != DRAIN && l.drainState != READY
    ensures var l' := Ack(l, rel, echo, now, fps).link;
            && (l.state == DRAIN ==> l'.state == if rel >= l.unsent then l.drainState else DRAIN)
            && (l.state == READY ==>
                  l'.state == if l'.pending != [] && l'.pending[0] in [2, 3, 101, 102] then READY else l.drainState)
            && (l.state != DRAIN && l.state != READY ==> l'.state == l.state) && l'.drainState == l.drainState
  {
  }

  /** With one frame per second the very first deadline is not in the future. */
  lemma DeadlineAtOneFps(net: nat -> Delivery)
    requires net(0).Sent?
    ensures var l := NewLink(1).(pending := [7]);
            Send(l, 0, 5, net, 1).chunks != [] && Send(l, 0, 5, net, 1).link.retransmitAt == 5
  {
    var l := NewLink(1).(pending := [7]);
    assert WillSend(l, 0, 5);
    assert [7][..1] == [7];
    var cs := Burst(0, [7], 1, net, 0);
    assert cs == [Chunk(0, [7])];
    assert Total(cs) == 1 + Total(cs[1..]);
  }
}
