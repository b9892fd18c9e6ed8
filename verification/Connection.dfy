/** A client connection of src/server/netserver.c: its socket buffers, the reliable stream and the frame
    being built.  Time (main_loops, frame_loops) and the fate of each datagram are parameters. */
module Connections {
  import opened Numbers
  import opened PacketCodec
  import opened ReliableLink
  import opened Sockbufs

  const SERVER_SEND_SIZE := 4096
  const SERVER_RECV_SIZE := 1024
  const MAX_SOCKBUF_SIZE := 51200

  const PKT_START := 6
  const PKT_END := 7
  const PKT_FASTRADAR := 44
  const PKT_FASTSHOT := 69
  const PKT_DEBRIS := 128

  const RELIABLE_FMT := "%c%hd%ld%ld"
  const ACK_FMT := "%c%ld%ld"
  const END_FMT := "%c%ld"
  const SETUP_FMT := "%ld%ld%hd%hd%hd%hd%hd%s%s"
  const HEADER_SIZE := 11

  /** The bytes in front of the data of a reliable packet. */
  function Header(len: int, off: int, now: int): (b: seq<Byte>)
    ensures |b| == HEADER_SIZE
  {
    BigEndian(PKT_RELIABLE, 1) + (BigEndian(len, 2) + (BigEndian(off, 4) + BigEndian(now, 4)))
  }

  function HeaderArgs(len: int, off: int, now: int): seq<Arg> {
    [Num(PKT_RELIABLE), Num(len), Num(off), Num(now)]
  }

  /** The datagrams a burst produces; the first is piggybacked on what w already held. */
  function Datagrams(prefix: seq<Byte>, cs: seq<Chunk>, now: int): seq<seq<Byte>>
    decreases cs
  {
    if cs == [] then [] else
    [prefix + Header(|cs[0].data|, cs[0].off, now) + cs[0].data] + Datagrams([], cs[1..], now)
  }

  /** One numeric conversion whose continuation is already known. */
  lemma NumberStep(fmt: string, i: nat, conv: Conv, next: nat, args: seq<Arg>, tail: seq<Byte>, pos: nat, end: int)
    requires i < |fmt| && Lex(fmt, i) == Good(conv, next) && !IsText(conv)
    requires args != [] && args[0].Num? && Matches(fmt, next, args[1..])
    requires pos + Width(conv) < end && Print(fmt, next, args[1..], pos + Width(conv), end) == Done(tail)
    ensures Matches(fmt, i, args)
    ensures Print(fmt, i, args, pos, end) == Done(BigEndian(args[0].n, Width(conv)) + tail)
  {
  }

  lemma HeaderLex()
    ensures Lex(RELIABLE_FMT, 0) == Good(Char, 2) && Lex(RELIABLE_FMT, 2) == Good(Short, 5)
    ensures Lex(RELIABLE_FMT, 5) == Good(Long, 8) && Lex(RELIABLE_FMT, 8) == Good(Long, 11)
    ensures |RELIABLE_FMT| == 11
  {
  }

  lemma HeaderPrint(len: int, off: int, now: int, pos: nat, end: int)
    requires pos + HEADER_SIZE < end
    ensures Matches(RELIABLE_FMT, 0, HeaderArgs(len, off, now))
    ensures Print(RELIABLE_FMT, 0, HeaderArgs(len, off, now), pos, end) == Done(Header(len, off, now))
  {
    HeaderLex();
    var f, args := RELIABLE_FMT, HeaderArgs(len, off, now);
    assert Matches(f, 11, args[4..]) && Print(f, 11, args[4..], pos + 11, end) == Done([]);
    hide Print, Matches, Lex, BigEndian;
    assert args[3..][1..] == args[4..] && args[2..][1..] == args[3..] && args[1..][1..] == args[2..];
    NumberStep(f, 8, Long, 11, args[3..], [], pos + 7, end);
    assert BigEndian(now, 4) + [] == BigEndian(now, 4);
    NumberStep(f, 5, Long, 8, args[2..], BigEndian(now, 4), pos + 3, end);
    NumberStep(f, 2, Short, 5, args[1..], BigEndian(off, 4) + BigEndian(now, 4), pos + 1, end);
    NumberStep(f, 0, Char, 2, args, BigEndian(len, 2) + (BigEndian(off, 4) + BigEndian(now, 4)), pos, end);
  }

  /** An acknowledgement packet is a type byte and two numbers. */
  lemma AckShape(data: seq<Byte>, j: nat)
    requires j <= |data|
    ensures var s := Scan(ACK_FMT, 0, data, j);
            s.Read? ==> |s.vals| == 3 && s.vals[0].Num? && s.vals[1].Num? && s.vals[2].Num?
  {
    var f := ACK_FMT;
    assert Lex(f, 0) == Good(Char, 2) && Lex(f, 2) == Good(Long, 5) && Lex(f, 5) == Good(Long, 8);
    assert |f| == 8;
    hide Lex;
    if |data| >= j + 9 {
      assert Scan(f, 8, data, j + 9) == Read([], j + 9);
    }
  }

  lemma NumberWhole(fmt: string, i: nat, conv: Conv, next: nat, args: seq<Arg>, pos: nat, end: int)
    requires i < |fmt| && Lex(fmt, i) == Good(conv, next) && !IsText(conv)
    requires args != [] && args[0].Num? && Matches(fmt, next, args[1..]) && pos + Width(conv) < end
    requires StringsWhole(fmt, next, args[1..], pos + Width(conv), end)
    ensures Matches(fmt, i, args) && StringsWhole(fmt, i, args, pos, end)
    ensures NormalArgs(fmt, i, args) == [Normal(conv, args[0])] + NormalArgs(fmt, next, args[1..])
  {
  }

  lemma HeaderWhole(len: int, off: int, now: int, pos: nat, end: int)
    requires pos + HEADER_SIZE < end
    requires 0 <= len < 0x8000 && 0 <= off < 0x8000_0000 && 0 <= now < 0x8000_0000
    ensures Matches(RELIABLE_FMT, 0, HeaderArgs(len, off, now))
    ensures StringsWhole(RELIABLE_FMT, 0, HeaderArgs(len, off, now), pos, end)
    ensures NormalArgs(RELIABLE_FMT, 0, HeaderArgs(len, off, now)) == HeaderArgs(len, off, now)
  {
    HeaderLex();
    var f, args := RELIABLE_FMT, HeaderArgs(len, off, now);
    assert Matches(f, 11, args[4..]) && StringsWhole(f, 11, args[4..], pos + 11, end);
    assert NormalArgs(f, 11, args[4..]) == [];
    SmallNumbers(len, off, now);
    hide StringsWhole, Matches, Lex, NormalArgs, Normal;
    assert args[3..][1..] == args[4..] && args[2..][1..] == args[3..] && args[1..][1..] == args[2..];
    NumberWhole(f, 8, Long, 11, args[3..], pos + 7, end);
    NumberWhole(f, 5, Long, 8, args[2..], pos + 3, end);
    NumberWhole(f, 2, Short, 5, args[1..], pos + 1, end);
    NumberWhole(f, 0, Char, 2, args, pos, end);
  }

  lemma SmallNumbers(len: int, off: int, now: int)
    requires 0 <= len < 0x8000 && 0 <= off < 0x8000_0000 && 0 <= now < 0x8000_0000
    ensures Normal(Char, Num(PKT_RELIABLE)) == Num(PKT_RELIABLE) && Normal(Short, Num(len)) == Num(len)
    ensures Normal(Long, Num(off)) == Num(off) && Normal(Long, Num(now)) == Num(now)
  {
    assert Pow256(1) == 256;
    assert Pow256(2) == 0x1_0000;
    assert Pow256(4) == 0x1_0000 * Pow256(2);
  }

  /** A reader that has got past the frame finds the packet's length, its place in the stream and the time
      it was sent, and right behind them the data. */
  lemma ReliableDatagramReads(prefix: seq<Byte>, c: Chunk, now: int)
    requires |c.data| <= MAX_RELIABLE_DATA_PACKET_SIZE && 0 <= c.off < 0x8000_0000 && 0 <= now < 0x8000_0000
    ensures var d := prefix + Header(|c.data|, c.off, now) + c.data;
            && Scan(RELIABLE_FMT, 0, d, |prefix|) == Read(HeaderArgs(|c.data|, c.off, now), |prefix| + HEADER_SIZE)
            && d[|prefix| + HEADER_SIZE..] == c.data
  {
    hide Print, Matches, Scan, StringsWhole, NormalArgs, Header;
    var d, h := prefix + Header(|c.data|, c.off, now) + c.data, Header(|c.data|, c.off, now);
    var end := HEADER_SIZE + 1;
    assert d[|prefix|..|prefix| + |h|] == h;
    HeaderPrint(|c.data|, c.off, now, 0, end);
    HeaderWhole(|c.data|, c.off, now, 0, end);
    RoundTrip(RELIABLE_FMT, 0, HeaderArgs(|c.data|, c.off, now), 0, end, d, |prefix|);
  }

  lemma AckLex()
    ensures Lex(ACK_FMT, 0) == Good(Char, 2) && Lex(ACK_FMT, 2) == Good(Long, 5) && Lex(ACK_FMT, 5) == Good(Long, 8)
    ensures |ACK_FMT| == 8
  {
  }

  lemma AckScanned(data: seq<Byte>, j: nat)
    requires j <= |data|
    ensures var s := Scan(ACK_FMT, 0, data, j);
            if j + 9 > |data| then s.TooShort?
            else s == Read([Num(DecodeNumber(Char, data[j..j + 1])), Num(DecodeNumber(Long, data[j + 1..j + 5])),
                            Num(DecodeNumber(Long, data[j + 5..j + 9]))], j + 9)
  {
    AckLex();
    hide Lex, DecodeNumber;
    if j + 9 <= |data| { assert Scan(ACK_FMT, 8, data, j + 9) == Read([], j + 9); }
  }

  /** Nine bytes that begin with 43 are an acknowledgement: a place in the stream and a time, in four bytes each. */
  lemma AckBytes(data: seq<Byte>, j: nat, rel: int, echo: int)
    requires j + 9 <= |data| && data[j] == 43 && 0 <= rel < 0x8000_0000 && 0 <= echo < 0x8000_0000
    requires data[j + 1..j + 5] == BigEndian(rel, 4) && data[j + 5..j + 9] == BigEndian(echo, 4)
    ensures ReadAck(data, j) == GotAck(rel, echo)
  {
    hide Scan, DecodeNumber, BigEndian;
    AckScanned(data, j);
    OneByte(data[j..j + 1], data[j]);
    NumberRoundTrip(Long, rel);
    NumberRoundTrip(Long, echo);
    SmallNumbers(0, rel, 0);
    SmallNumbers(0, echo, 0);
  }

  /** With any other first byte, or fewer bytes, there is none. */
  lemma NoAckBytes(data: seq<Byte>, j: nat)
    requires j <= |data| && (j + 9 > |data| || data[j] != 43)
    ensures ReadAck(data, j) == NoAck
  {
    hide Scan, DecodeNumber;
    AckScanned(data, j);
    if j + 9 <= |data| { OneByte(data[j..j + 1], data[j]); }
  }

  lemma OneByte(b: seq<Byte>, c: Byte)
    requires b == [c]
    ensures DecodeNumber(Char, b) == c
  {
    ValueNext([], c);
    assert [] + [c] == b;
  }

  /** The header of a reliable packet: 42, the length in two bytes, the place in the stream and the time in four each, most
      significant bytes first. */
  lemma HeaderBytes(len: int, off: int, now: int)
    requires 0 <= len < 0x8000 && 0 <= off < 0x8000_0000 && 0 <= now < 0x8000_0000
    ensures var h := Header(len, off, now);
            && h[0] == 42 && BigEndianValue(h[1..3]) == len && BigEndianValue(h[3..7]) == off && BigEndianValue(h[7..11]) == now
  {
    hide BigEndian, BigEndianValue, Pow256;
    BigEndianRoundTrip(len, 2);
    BigEndianRoundTrip(off, 4);
    BigEndianRoundTrip(now, 4);
    Powers();
    TypeBytes();
    var h := Header(len, off, now);
    assert h[1..3] == BigEndian(len, 2) && h[3..7] == BigEndian(off, 4) && h[7..11] == BigEndian(now, 4);
  }

  lemma TypeBytes()
    ensures BigEndian(PKT_RELIABLE, 1) == [42] && BigEndian(PKT_START, 1) == [6] && BigEndian(PKT_END, 1) == [7]
  {
    assert BigEndian(0, 0) == [];
  }

  /** A frame begins with 6, the number of the frame and that of the last key change, and ends with 7 and the number of
      the frame. */
  lemma FrameBytes(frameLoops: int, lastKey: int)
    requires 0 <= frameLoops < 0x8000_0000 && 0 <= lastKey < 0x8000_0000
    ensures var b := StartPacket(frameLoops, lastKey);
            b[0] == 6 && BigEndianValue(b[1..5]) == frameLoops && BigEndianValue(b[5..9]) == lastKey
    ensures var b := EndPacket(frameLoops); b[0] == 7 && BigEndianValue(b[1..5]) == frameLoops
  {
    hide BigEndian, BigEndianValue, Pow256;
    BigEndianRoundTrip(frameLoops, 4);
    BigEndianRoundTrip(lastKey, 4);
    Powers();
    TypeBytes();
    var b, e := StartPacket(frameLoops, lastKey), EndPacket(frameLoops);
    assert b[1..5] == BigEndian(frameLoops, 4) && b[5..9] == BigEndian(lastKey, 4) && e[1..5] == BigEndian(frameLoops, 4);
  }

  datatype AckPacket = NoAck | GotAck(rel: int, echo: int)

  /** The acknowledgement at position j of the input, if there is one. */
  function ReadAck(data: seq<Byte>, j: nat): AckPacket
    requires j <= |data|
  {
    AckShape(data, j);
    match Scan(ACK_FMT, 0, data, j)
    case Read(vals, _) => if vals[0].n == PKT_ACK then GotAck(vals[1].n, vals[2].n) else NoAck
    case _ => NoAck
  }

  function EndArgs(frameLoops: int): seq<Arg> { [Num(PKT_END), Num(frameLoops)] }

  /** The packet that ends a frame. */
  function EndPacket(frameLoops: int): (b: seq<Byte>)
    ensures |b| == 5
  {
    BigEndian(PKT_END, 1) + BigEndian(frameLoops, 4)
  }

  lemma EndPrint(frameLoops: int, pos: nat, end: int)
    requires pos + 5 < end
    ensures Matches(END_FMT, 0, EndArgs(frameLoops))
    ensures Print(END_FMT, 0, EndArgs(frameLoops), pos, end) == Done(EndPacket(frameLoops))
  {
    var f, args := END_FMT, EndArgs(frameLoops);
    assert Lex(f, 0) == Good(Char, 2) && Lex(f, 2) == Good(Long, 5) && |f| == 5;
    assert Matches(f, 5, args[2..]) && Print(f, 5, args[2..], pos + 5, end) == Done([]);
    hide Print, Matches, Lex, BigEndian;
    NumberStep(f, 2, Long, 5, args[1..], [], pos + 1, end);
    assert BigEndian(frameLoops, 4) + [] == BigEndian(frameLoops, 4);
    NumberStep(f, 0, Char, 2, args, BigEndian(frameLoops, 4), pos, end);
  }

  const START_FMT := "%c%ld%ld"

  function StartArgs(frameLoops: int, lastKey: int): seq<Arg> { [Num(PKT_START), Num(frameLoops), Num(lastKey)] }

  /** The packet that starts a frame. */
  function StartPacket(frameLoops: int, lastKey: int): (b: seq<Byte>)
    ensures |b| == 9
  {
    BigEndian(PKT_START, 1) + (BigEndian(frameLoops, 4) + BigEndian(lastKey, 4))
  }

  lemma StartPrint(frameLoops: int, lastKey: int, pos: nat, end: int)
    requires pos + 9 < end
    ensures Matches(START_FMT, 0, StartArgs(frameLoops, lastKey))
    ensures Print(START_FMT, 0, StartArgs(frameLoops, lastKey), pos, end) == Done(StartPacket(frameLoops, lastKey))
  {
    var f, args := START_FMT, StartArgs(frameLoops, lastKey);
    assert Lex(f, 0) == Good(Char, 2) && Lex(f, 2) == Good(Long, 5) && Lex(f, 5) == Good(Long, 8) && |f| == 8;
    assert Matches(f, 8, args[3..]) && Print(f, 8, args[3..], pos + 9, end) == Done([]);
    hide Print, Matches, Lex, BigEndian;
    assert args[2..][1..] == args[3..] && args[1..][1..] == args[2..];
    NumberStep(f, 5, Long, 8, args[2..], [], pos + 5, end);
    assert BigEndian(lastKey, 4) + [] == BigEndian(lastKey, 4);
    NumberStep(f, 2, Long, 5, args[1..], BigEndian(lastKey, 4), pos + 1, end);
    NumberStep(f, 0, Char, 2, args, BigEndian(frameLoops, 4) + BigEndian(lastKey, 4), pos, end);
  }

  /** The first datagram of a burst carries what w held in front. */
  lemma FirstDatagram(prefix: seq<Byte>, cs: seq<Chunk>, now: int)
    ensures Datagrams(prefix, cs, now) != [] ==> prefix <= Datagrams(prefix, cs, now)[0]
    ensures cs == [] ==> Datagrams(prefix, cs, now) == []
  {
    hide Header;
  }

  /** What one successful send adds to a burst. */
  lemma BurstStep(off: int, todo: seq<Byte>, budget: nat, net: nat -> Delivery, i: nat, prefix: seq<Byte>, now: int)
    requires budget > 0 && todo != [] && net(i).Sent?
    ensures var n := Min(|todo|, MAX_RELIABLE_DATA_PACKET_SIZE);
            var cs, rest := Burst(off, todo, budget, net, i), Burst(off + n, todo[n..], budget - 1, net, i + 1);
            && Total(cs) == n + Total(rest) && |cs| == 1 + |rest|
            && Datagrams(prefix, cs, now)
               == [prefix + Header(n, off, now) + todo[..n]] + Datagrams([], rest, now)
  {
    hide Header;
    var n := Min(|todo|, MAX_RELIABLE_DATA_PACKET_SIZE);
    var cs, rest := Burst(off, todo, budget, net, i), Burst(off + n, todo[n..], budget - 1, net, i + 1);
    assert cs == [Chunk(off, todo[..n])] + rest;
    assert cs[1..] == rest;
  }

  lemma BurstEnd(off: int, todo: seq<Byte>, budget: nat, net: nat -> Delivery, i: nat, prefix: seq<Byte>, now: int)
    requires budget == 0 || todo == [] || !net(i).Sent?
    ensures var cs := Burst(off, todo, budget, net, i); cs == [] && Total(cs) == 0 && Datagrams(prefix, cs, now) == []
  {
  }

  class Connection {
    const fps: nat
    const w: Sockbuf
    const r: Sockbuf
    const c: Sockbuf
    var state: ConnState
    var drainState: ConnState
    var lastSendLoops: int
    var reliableOffset: int
    var reliableUnsent: int
    var retransmitAtLoop: int
    var rttSmoothed: int
    var rttDev: int
    var rttRetransmit: int
    var rttTimeouts: int
    var acks: nat
    var lastKeyChange: int
    var setup: nat

    ghost predicate Valid()
      reads this, w, r, c
    {
      && w.Valid() && r.Valid() && c.Valid()
      && w != r && w != c && r != c && w.buf != c.buf && w.buf != r.buf && r.buf != c.buf
      && w.size == SERVER_SEND_SIZE && w.writable && !w.locked && w.datagram && w.ptr == 0
      && c.size == MAX_SOCKBUF_SIZE && c.writable && c.locked && !c.datagram && c.ptr == 0
      && r.datagram && !r.locked
    }

    /** The reliable part of the state. */
    ghost function View(): Link
      requires Valid()
      reads this, w, r, c, c.buf
    {
      Link(c.Contents(), reliableOffset, reliableUnsent, lastSendLoops, retransmitAtLoop,
           rttSmoothed, rttDev, rttRetransmit, rttTimeouts, acks, state, drainState)
    }

    /** Setup_connection: a listening connection with nothing sent. */
    constructor (fps: nat)
      ensures Valid() && this.fps == fps && View() == NewLink(fps) && setup == 0
      ensures View() == Link([], 0, 0, 0, 0, 0, 0, fps / 2, 0, 0, LISTENING, FREE)
      ensures w.len == 0 && fresh(w) && fresh(r) && fresh(c) && fresh(w.buf) && fresh(r.buf) && fresh(c.buf)
    {
      this.fps := fps;
      w := new Sockbuf(SERVER_SEND_SIZE, true, false, false, true);
      r := new Sockbuf(SERVER_RECV_SIZE, false, true, false, true);
      c := new Sockbuf(MAX_SOCKBUF_SIZE, true, true, true, false);
      state, drainState := LISTENING, FREE;
      lastSendLoops, reliableOffset, reliableUnsent, retransmitAtLoop := 0, 0, 0, 0;
      rttSmoothed, rttDev, rttTimeouts, acks := 0, 0, 0, 0;
      rttRetransmit := DefaultRetransmit(fps);
      lastKeyChange := 0;
      setup := 0;
    }

    method SetState(newState: ConnState, newDrainState: ConnState)
      modifies this`state, this`drainState
      ensures state == newState && drainState == newDrainState
    {
      state, drainState := newState, newDrainState;
    }

    /** Destroy_connection: the connection becomes free; its buffers are released. */
    method Destroy()
      modifies this`state, this`drainState
      ensures state == FREE && drainState == FREE
    {
      SetState(FREE, FREE);
    }

    // ----- Appending to the reliable stream -----

    /** A packet of reliable data: appended whole or not at all. */
    method AppendReliable(fmt: string, args: seq<Arg>) returns (n: int)
      requires Valid() && Matches(fmt, 0, args)
      modifies c`len, c.buf
      ensures Valid()
      ensures match Print(fmt, 0, args, old(c.len), MAX_SOCKBUF_SIZE - SOCKBUF_WRITE_SPARE)
              case Done(b) => n == |b| && View() == old(View()).(pending := old(View()).pending + b)
              case _ => n == -1 && View() == old(View())
    {
      n := c.Printf(fmt, args, false);
    }

    /** Send_player, to a client that is playing or about to: two packets that belong together; when the
        second does not fit, the first is taken back. */
    method SendPlayer(fmt1: string, args1: seq<Arg>, fmt2: string, args2: seq<Arg>) returns (n: int)
      requires Valid() && Matches(fmt1, 0, args1) && Matches(fmt2, 0, args2)
      modifies c`len, c.buf
      ensures Valid()
      ensures var end := MAX_SOCKBUF_SIZE - SOCKBUF_WRITE_SPARE;
              var first := Print(fmt1, 0, args1, old(c.len), end);
              if state !in {PLAYING, READY} then n == 0 && View() == old(View())
              else if !first.Done? || first.bytes == [] then n <= 0 && View() == old(View()) else
              var second := Print(fmt2, 0, args2, old(c.len) + |first.bytes|, end);
              if !second.Done? || second.bytes == [] then n <= 0 && View() == old(View())
              else n > 0 && View() == old(View()).(pending := old(View()).pending + first.bytes + second.bytes)
    {
      hide Print, Matches;
      if state != PLAYING && state != READY {
        return 0;
      }
      var before := c.len;
      n := AppendReliable(fmt1, args1);
      if n > 0 {
        assert c.Contents()[..before] == old(c.Contents());
        ghost var with1 := c.Contents();
        n := AppendReliable(fmt2, args2);
        if n <= 0 {
          c.len := before;
          assert c.Contents() == with1[..before];
        }
      }
    }

    /** The setup packet behind the first `len` bytes of the reliable buffer. */
    ghost function SetupPacket(args: seq<Arg>, len: nat): Printed
      requires Matches(SETUP_FMT, 0, args)
    {
      Print("%ld%ld%hd%hd%hd%hd%hd%s%s", 0, args, len, 51200 - 8)
    }

    /** Handle_setup: the setup packet first, then the map data behind it (it starts at byte `mapStart` of
        the setup structure) in pieces that never fill the reliable buffer beyond 4096 bytes; the last piece
        starts the wait for acknowledgements that ends in the login state. */
    method HandleSetup(setupData: seq<Byte>, mapStart: nat, args: seq<Arg>) returns (n: int)
      requires Valid() && Matches(SETUP_FMT, 0, args) && 0 < mapStart <= |setupData|
      requires setup == 0 || mapStart <= setup <= |setupData|
      modifies this, c`len, c.buf
      ensures Valid() && lastKeyChange == old(lastKeyChange)
      ensures View() == old(View()).(pending := c.Contents(), state := state, drainState := drainState)
      ensures n == -1 ==> state == FREE && drainState == FREE && c.Contents() == old(c.Contents()) && setup == old(setup)
      ensures n == -1 <==> old(state) != SETUP || (old(setup) == 0 && (!SetupPacket(args, old(c.len)).Done? || SetupPacket(args, old(c.len)).bytes == []))
      ensures n != -1 ==> n == 0 && old(state) == SETUP && mapStart <= setup <= |setupData|
      ensures n != -1 ==>
                var first := if old(setup) == 0 then SetupPacket(args, old(c.len)) else Done([]);
                var from := if old(setup) == 0 then mapStart else old(setup);
                && first.Done? && from <= setup
                && c.Contents() == old(c.Contents()) + first.bytes + setupData[from..setup]
                && setup == Min(|setupData|, from + Max(0, 4096 - (old(c.len) + |first.bytes|)))
                && if setup == |setupData| then state == DRAIN && drainState == LOGIN
                   else state == SETUP && drainState == old(drainState)
    {
      hide Print, Matches, SetupPacket;
      if state != SETUP {
        Destroy();
        return -1;
      }
      ghost var first: seq<Byte> := [];
      if setup == 0 {
        n := PutSetup(args);
        if n <= 0 {
          Destroy();
          return -1;
        }
        first := SetupPacket(args, old(c.len)).bytes;
        setup := mapStart;
      }
      ghost var from := setup;
      AppendMap(setupData);
      assert c.Contents() == old(c.Contents()) + first + setupData[from..setup];
      if setup >= |setupData| {
        SetState(DRAIN, LOGIN);
      }
      n := 0;
    }

    method PutSetup(args: seq<Arg>) returns (n: int)
      requires Valid() && Matches(SETUP_FMT, 0, args)
      modifies c`len, c.buf
      ensures Valid() && (n <= 0 <==> !SetupPacket(args, old(c.len)).Done? || SetupPacket(args, old(c.len)).bytes == [])
      ensures var p := SetupPacket(args, old(c.len));
              c.Contents() == old(c.Contents()) + if n > 0 && p.Done? then p.bytes else []
      ensures n > 0 ==> SetupPacket(args, old(c.len)).Done?
    {
      hide Print, Matches;
      n := c.Printf(SETUP_FMT, args, false);
    }

    /** The next piece of the map data, if any is left and there is room below 4096 bytes. */
    method AppendMap(setupData: seq<Byte>)
      requires Valid() && setup <= |setupData|
      modifies this`setup, c`len, c.buf
      ensures Valid() && setup == Min(|setupData|, old(setup) + Max(0, 4096 - old(c.len)))
      ensures c.Contents() == old(c.Contents()) + setupData[old(setup)..setup]
    {
      if setup < |setupData| {
        var len := 4096 - c.len;
        if len <= 0 {
          return;
        }
        if len > |setupData| - setup {
          len := |setupData| - setup;
        }
        var written := c.Write(setupData[setup..setup + len]);
        assert written == len;
        setup := setup + len;
      }
    }

    // ----- Send_reliable -----

    /** One reliable packet, put behind whatever w holds and handed to the network. */
    method SendPacket(off: int, data: seq<Byte>, now: int, net: Delivery) returns (n: int, wire: seq<seq<Byte>>)
      requires Valid() && data != [] && w.len + |data| <= MAX_RELIABLE_DATA_PACKET_SIZE
      modifies w, w.buf
      ensures Valid() && w.len == 0
      ensures match net
              case Sent => n >= |data| && wire == [old(w.Contents()) + Header(|data|, off, now) + data]
              case WouldBlock => n == 0 && wire == []
              case Refused => n < 0 && wire == []
    {
      hide Header, Print, Matches;
      HeaderPrint(|data|, off, now, w.len, w.size - SOCKBUF_WRITE_SPARE);
      var count := w.Printf(RELIABLE_FMT, HeaderArgs(|data|, off, now), false);
      var written := w.Write(data);
      assert count == HEADER_SIZE && written == |data|;
      n, wire := w.Flush(net);
    }

    /** The transmission loop: up to acks + 1 packets of consecutive data. */
    method SendBurst(maxTodo: nat, now: int, net: nat -> Delivery)
      returns (done: nat, wire: seq<seq<Byte>>, failed: bool)
      requires Valid() && maxTodo <= c.len && (w.len == 0 || w.len + maxTodo <= MAX_RELIABLE_DATA_PACKET_SIZE)
      modifies w, w.buf, this`acks
      ensures Valid()
      ensures var cs := Burst(reliableOffset, old(c.Contents())[..maxTodo], old(acks) + 1, net, 0);
              var stopped := |cs| <= old(acks) && Total(cs) < maxTodo;
              && done == Total(cs) && wire == Datagrams(old(w.Contents()), cs, now)
              && failed == (stopped && net(|cs|).Refused?)
              && (!failed ==> acks == if stopped then 0 else old(acks))
    {
      hide Burst, Total, Datagrams, Header;
      var todo, relOff, i := c.buf[..maxTodo], reliableOffset, 0;
      wire, failed, done := [], false, 0;
      assert todo == c.Contents()[..maxTodo];
      ghost var cs := Burst(relOff, todo, acks + 1, net, 0);
      ghost var rest := cs;
      while i <= acks && todo != []
        invariant Valid() && i <= old(acks) + 1 && acks == old(acks) && done + |todo| == maxTodo
        invariant w.len == 0 || w.len + |todo| <= MAX_RELIABLE_DATA_PACKET_SIZE
        invariant rest == Burst(relOff, todo, acks + 1 - i, net, i)
        invariant Total(cs) == done + Total(rest) && |cs| == i + |rest|
        invariant Datagrams(old(w.Contents()), cs, now) == wire + Datagrams(w.Contents(), rest, now)
        decreases acks + 1 - i
      {
        var n := Min(|todo|, MAX_RELIABLE_DATA_PACKET_SIZE);
        ghost var prefix := w.Contents();
        var sent, datagram := SendPacket(relOff, todo[..n], now, net(i));
        if sent < n {
          BurstEnd(relOff, todo, acks + 1 - i, net, i, prefix, now);
          if sent == 0 {
            acks := 0;
          } else {
            failed := true;
          }
          return;
        }
        BurstStep(relOff, todo, acks + 1 - i, net, i, prefix, now);
        todo, relOff, i, done, wire := todo[n..], relOff + n, i + 1, done + n, wire + datagram;
        rest := Burst(relOff, todo, acks + 1 - i, net, i);
      }
      BurstEnd(relOff, todo, acks + 1 - i, net, i, w.Contents(), now);
    }

    /** Retransmission timer with exponential backoff, after `done` bytes went out. */
    method ArmTimer(done: nat, now: int)
      requires Valid()
      modifies this
      ensures Valid() && lastKeyChange == old(lastKeyChange)
      ensures View() == AfterBurst(old(View()), done, now, fps)
    {
      lastSendLoops := now;
      if done <= 0 {
        return;
      }
      if rttRetransmit > MaxRetransmit(fps) {
        rttRetransmit := MaxRetransmit(fps);
      }
      if retransmitAtLoop <= now {
        retransmitAtLoop := now + rttRetransmit;
        rttRetransmit := rttRetransmit * 2;
        rttTimeouts := rttTimeouts + 1;
      } else {
        retransmitAtLoop := now + rttRetransmit;
      }
      if reliableOffset + done > reliableUnsent {
        reliableUnsent := reliableOffset + done;
      }
    }

    method SendNow(maxTodo: nat, now: int, net: nat -> Delivery) returns (n: int, wire: seq<seq<Byte>>)
      requires Valid() && maxTodo <= c.len && (w.len == 0 || w.len + maxTodo <= MAX_RELIABLE_DATA_PACKET_SIZE)
      modifies this, w, w.buf
      ensures Valid() && lastKeyChange == old(lastKeyChange)
      ensures var res := Transmit(old(View()), maxTodo, now, net, fps);
              && wire == Datagrams(old(w.Contents()), res.chunks, now)
              && (if res.failed then n == -1 && state == FREE
                  else n == Total(res.chunks) && View() == res.link && w.len == 0)
    {
      hide Burst, Datagrams, Total, AfterBurst, Header;
      var done, datagrams, failed := SendBurst(maxTodo, now, net);
      wire := datagrams;
      if failed {
        Destroy();
        return -1, wire;
      }
      w.Clear();
      ArmTimer(done, now);
      n := done;
    }

    /** Send_reliable. */
    method SendReliable(now: int, net: nat -> Delivery) returns (n: int, wire: seq<seq<Byte>>)
      requires Valid()
      modifies this, w, w.buf
      ensures Valid() && lastKeyChange == old(lastKeyChange)
      ensures var res := Send(old(View()), old(w.len), now, net, fps);
              && wire == Datagrams(old(w.Contents()), res.chunks, now)
              && (if res.failed then n == -1 && state == FREE else n == Total(res.chunks) && View() == res.link)
      ensures if WillSend(old(View()), old(w.len), now) then n != -1 ==> w.len == 0
              else w.Contents() == old(w.Contents())
    {
      hide Transmit, Header;
      wire := [];
      if c.len <= 0 || lastSendLoops == now {
        lastSendLoops := now;
        return 0, wire;
      }
      var maxTodo := c.len;
      if w.len > 0 {
        if w.len >= MAX_RELIABLE_DATA_PACKET_SIZE - MIN_SEND_SIZE {
          return 0, wire;
        }
        if maxTodo > MAX_RELIABLE_DATA_PACKET_SIZE - w.len {
          maxTodo := MAX_RELIABLE_DATA_PACKET_SIZE - w.len;
        }
      }
      if retransmitAtLoop > now {
        if maxTodo <= reliableUnsent - reliableOffset + MIN_SEND_SIZE || w.len == 0 {
          return 0, wire;
        }
      } else if retransmitAtLoop != 0 {
        acks := acks / 2;
      }
      n, wire := SendNow(maxTodo, now, net);
    }

    // ----- Receive_ack -----

    /** Updates the round-trip estimator from one measurement. */
    method MeasureRtt(rtt: int)
      requires Valid()
      modifies this`rttSmoothed, this`rttDev, this`rttRetransmit
      ensures View() == Estimate(old(View()), rtt, fps)
    {
      if 0 < rtt <= MaxRtt(fps) {
        if rttSmoothed == 0 {
          rttSmoothed := rtt * 8;
        }
        var delta := rtt - rttSmoothed / 8;
        rttSmoothed := rttSmoothed + delta;
        if delta < 0 {
          delta := -delta;
        }
        rttDev := rttDev + (delta - rttDev / 4);
        rttRetransmit := (rttSmoothed / 4 + rttDev) / 2;
        if rttRetransmit < MinRetransmit(fps) {
          rttRetransmit := MinRetransmit(fps);
        }
      }
    }

    /** Leaves the draining states when there is nothing left to wait for. */
    method LeaveDraining()
      requires Valid()
      modifies this`state, this`drainState, this`retransmitAtLoop
      ensures View() == Settle(old(View()))
    {
      if reliableOffset >= reliableUnsent {
        retransmitAtLoop := 0;
        if state == DRAIN {
          SetState(drainState, drainState);
        }
      }
      assert c.len > 0 ==> c.buf[0] == c.Contents()[0];
      if state == READY && (c.len <= 0 || (c.buf[0] != PKT_REPLY && c.buf[0] != PKT_PLAY
                                           && c.buf[0] != PKT_SUCCESS && c.buf[0] != PKT_FAILURE)) {
        SetState(drainState, drainState);
      }
    }

    /** Slides the window over newly acknowledged data. */
    method Slide(diff: nat)
      requires Valid() && 0 < diff <= c.len
      modifies this, c, c.buf
      ensures Valid() && lastKeyChange == old(lastKeyChange)
      ensures View() == Slid(old(View()), diff)
    {
      hide Settle;
      ghost var before := View();
      c.Advance(diff);
      assert c.Contents() == before.pending[diff..];
      reliableOffset := reliableOffset + diff;
      var credit := (diff + 512 - 1) / 512;
      if credit > acks {
        acks := credit;
      } else {
        acks := acks + 1;
      }
      rttTimeouts := 0;
      ghost var credited := if credit > before.acks then credit else before.acks + 1;
      assert View() == before.(pending := before.pending[diff..], offset := before.offset + diff, timeouts := 0,
                               acks := credited);
      LeaveDraining();
    }

    /** The body of Receive_ack once the packet has been read. */
    method ApplyAck(rel: int, echo: int, now: int) returns (n: int)
      requires Valid()
      modifies this, c, c.buf
      ensures Valid() && lastKeyChange == old(lastKeyChange)
      ensures match Ack(old(View()), rel, echo, now, fps)
              case BadAck => n == -1 && state == FREE
              case Stale(l) => n == 1 && View() == l
              case Fresh(l) => n == 1 && View() == l
    {
      hide Estimate, Slid;
      MeasureRtt(now - echo);
      var diff := rel - reliableOffset;
      if diff > c.len {
        Destroy();
        return -1;
      } else if diff <= 0 {
        return 1;
      }
      Slide(diff);
      n := 1;
    }

    /** Receive_ack. */
    method ReceiveAck(now: int) returns (n: int)
      requires Valid()
      modifies this, r`ptr, c, c.buf
      ensures Valid()
      ensures match ReadAck(old(r.Contents()), old(r.ptr))
              case NoAck => n == -1 && state == FREE
              case GotAck(rel, echo) =>
                match Ack(old(View()), rel, echo, now, fps)
                case BadAck => n == -1 && state == FREE
                case Stale(l) => n == 1 && View() == l
                case Fresh(l) => n == 1 && View() == l
      ensures r.ptr == match Scan(ACK_FMT, 0, r.Contents(), old(r.ptr)) case Read(_, next) => next case _ => old(r.ptr)
    {
      AckShape(r.Contents(), r.ptr);
      hide Scan, Ack;
      var count, vals := r.Scanf(ACK_FMT);
      if count <= 0 {
        Destroy();
        return -1;
      }
      if vals[0].n != PKT_ACK {
        Destroy();
        return -1;
      }
      n := ApplyAck(vals[1].n, vals[2].n, now);
    }

    // ----- Frames -----

    /** There is room for the packet that ends a frame. */
    ghost predicate FrameRoom()
      reads this, w
    {
      w.len <= w.size - SOCKBUF_WRITE_SPARE
    }

    /** Send_start_of_frame. */
    method StartOfFrame(frameLoops: int) returns (n: int)
      requires Valid()
      modifies w, w.buf
      ensures Valid()
      ensures if state == PLAYING
              then n == 0 && FrameRoom() && w.Contents() == StartPacket(frameLoops, lastKeyChange)
              else n == -1 && w.Contents() == old(w.Contents())
    {
      if state != PLAYING {
        return -1;
      }
      hide Print, Matches, StartPacket;
      w.Clear();
      StartPrint(frameLoops, lastKeyChange, 0, w.size - SOCKBUF_WRITE_SPARE);
      n := PutFrame(START_FMT, StartArgs(frameLoops, lastKeyChange));
      assert n == 9;
      n := 0;
    }

    /** Any Send_* routine that is one Packet_printf on the frame. */
    method PutFrame(fmt: string, args: seq<Arg>) returns (n: int)
      requires Valid() && FrameRoom() && Matches(fmt, 0, args)
      modifies w`len, w.buf
      ensures Valid() && FrameRoom()
      ensures match Print(fmt, 0, args, old(w.len), w.size - SOCKBUF_WRITE_SPARE)
              case Done(b) => n == |b| && w.Contents() == old(w.Contents()) + b
              case NoRoom => n == 0 && w.Contents() == old(w.Contents())
              case BadFormat => n == -1 && w.Contents() == old(w.Contents())
    {
      if Print(fmt, 0, args, w.len, w.size - SOCKBUF_WRITE_SPARE).Done? {
        PrintStaysBelow(fmt, 0, args, w.len, w.size - SOCKBUF_WRITE_SPARE);
      }
      n := w.Printf(fmt, args, false);
    }

    /** A header followed by as many items as fit. */
    method PutItems(header: seq<Byte>, p: seq<Byte>, unit: nat, k: nat)
      requires Valid() && unit * k <= |p| && w.len + |header| + 1 + unit * k <= w.size - SOCKBUF_WRITE_SPARE && k < 256
      modifies w`len, w.buf
      ensures Valid() && FrameRoom()
      ensures w.Contents() == old(w.Contents()) + (header + [k]) + p[..unit * k]
    {
      w.Store(header + [k]);
      w.Store(p[..unit * k]);
    }

    /** Send_debris: n points of two bytes, or the largest prefix of them that fits.  No point is sent only if
        there is none to send, too many are asked for, or not even one fits. */
    method SendDebris(kind: nat, p: seq<Byte>, n: int) returns (k: int)
      requires Valid() && FrameRoom() && kind < 128 && (0 <= n < 256 ==> |p| >= 2 * n)
      modifies w`len, w.buf
      ensures Valid() && FrameRoom()
      ensures k > 0 ==> k <= n < 256 && old(w.len) + 2 + 2 * k < 4096 - 8 && (k < n ==> old(w.len) + 2 + 2 * (k + 1) >= 4096 - 8)
                        && w.Contents() == old(w.Contents()) + [128 + kind, k] + p[..2 * k]
      ensures k >= 0 && (k == 0 <==> !(0 < n < 256) || w.size - old(w.len) - SOCKBUF_WRITE_SPARE - 2 <= 2)
      ensures k == 0 ==> w.Contents() == old(w.Contents())
                         + if n == 0 && w.size - old(w.len) - SOCKBUF_WRITE_SPARE - 2 > 0 then [128 + kind, 0] else []
    {
      if !(0 <= n < 256) {
        return 0;
      }
      var avail := w.size - w.len - SOCKBUF_WRITE_SPARE - 2;
      k := n;
      if n * 2 >= avail {
        if avail > 2 {
          k := (avail - 1) / 2;
        } else {
          return 0;
        }
      }
      PutItems([PKT_DEBRIS + kind], p, 2, k);
    }

    /** Send_fastshot: the same for shots, behind a longer header. */
    method SendFastshot(kind: Byte, p: seq<Byte>, n: int) returns (k: int)
      requires Valid() && FrameRoom() && (0 <= n < 256 ==> |p| >= 2 * n)
      modifies w`len, w.buf
      ensures Valid() && FrameRoom()
      ensures k > 0 ==> k <= n < 256 && old(w.len) + 3 + 2 * k < 4096 - 8 && (k < n ==> old(w.len) + 3 + 2 * (k + 1) >= 4096 - 8)
                        && w.Contents() == old(w.Contents()) + [69, kind, k] + p[..2 * k]
      ensures k >= 0 && (k == 0 <==> !(0 < n < 256) || w.size - old(w.len) - SOCKBUF_WRITE_SPARE - 3 <= 2)
      ensures k == 0 ==> w.Contents() == old(w.Contents())
                         + if n == 0 && w.size - old(w.len) - SOCKBUF_WRITE_SPARE - 3 > 0 then [69, kind, 0] else []
    {
      if !(0 <= n < 256) {
        return 0;
      }
      var avail := w.size - w.len - SOCKBUF_WRITE_SPARE - 3;
      k := n;
      if n * 2 >= avail {
        if avail > 2 {
          k := (avail - 1) / 2;
        } else {
          return 0;
        }
      }
      PutItems([PKT_FASTSHOT, kind], p, 2, k);
    }

    /** Send_fastradar: n points of three bytes, or the largest prefix of them that leaves two more bytes.  The
        result is the number of bytes written, 0 only if too many points are asked for or hardly any room is left. */
    method SendFastradar(p: seq<Byte>, n: int) returns (count: int)
      requires Valid() && FrameRoom() && (0 <= n < 256 ==> |p| >= 3 * n)
      modifies w`len, w.buf
      ensures Valid() && FrameRoom()
      ensures count == 0 ==> w.Contents() == old(w.Contents())
      ensures var avail := w.size - old(w.len) - SOCKBUF_WRITE_SPARE - 3;
              count == 0 <==> !(0 <= n < 256) || (avail <= 3 && 3 * n >= avail)
      ensures count != 0 ==>
                var k, avail := (count - 2) / 3, w.size - old(w.len) - SOCKBUF_WRITE_SPARE - 3;
                && count == 2 + 3 * k && 0 <= k <= n < 256
                && (if 3 * n < avail then k == n else 3 * k + 2 <= avail < 3 * (k + 1) + 2)
                && w.Contents() == old(w.Contents()) + [44, k] + p[..3 * k]
    {
      if !(0 <= n < 256) {
        return 0;
      }
      var avail := w.size - w.len - SOCKBUF_WRITE_SPARE - 3;
      var k := n;
      if n * 3 >= avail {
        if avail > 3 {
          k := (avail - 2) / 3;
        } else {
          return 0;
        }
      }
      PutItems([PKT_FASTRADAR], p, 3, k);
      count := 2 + k * 3;
    }

    /** Send_end_of_frame.  The terminating packet always fits, so a frame is never dropped for its size:
        whatever datagram leaves first starts with the complete frame.  Reliable data may follow it. */
    method EndOfFrame(frameLoops: int, now: int, net: nat -> Delivery, last: Delivery)
      returns (n: int, wire: seq<seq<Byte>>)
      requires Valid() && FrameRoom()
      modifies this, w, w.buf
      ensures Valid()
      ensures var frame := old(w.Contents()) + EndPacket(frameLoops);
              && |frame| < w.size
              && (wire != [] ==> frame <= wire[0])
              && (!WillSend(old(View()), |frame|, now) ==>
                    && wire == (if last.Sent? then [frame] else [])
                    && if last.Refused? then n == -1 && state == FREE else n == 0 && View() == old(View()))
              && (WillSend(old(View()), |frame|, now) ==>
                    var res := Send(old(View()), |frame|, now, net, fps);
                    wire == Datagrams(frame, res.chunks, now)
                    && if res.failed then n == -1 && state == FREE else n == 1 && View() == res.link)
      ensures lastKeyChange == old(lastKeyChange) && (n >= 0 ==> w.len == 0)
    {
      hide Transmit, Print, Matches, Datagrams, EndPacket;
      EndPrint(frameLoops, w.len, w.size);
      n := w.Printf(END_FMT, EndArgs(frameLoops), true);
      assert n == 5;
      if c.len > 0 && w.len < MAX_RELIABLE_DATA_PACKET_SIZE {
        FirstDatagram(w.Contents(), Send(View(), w.len, now, net, fps).chunks, now);
        n, wire := SendReliable(now, net);
        if n == -1 {
          return;
        }
        if w.len == 0 {
          return 1, wire;
        }
      }
      n, wire := w.Flush(last);
      if n < 0 {
        Destroy();
        return -1, wire;
      }
      w.Clear();
      n := 0;
    }
  }
}
