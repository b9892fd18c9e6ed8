/** The queue of players who want to enter the game (src/server/contact.c). */
module LoginQueue {
  import opened Counting
  import opened Names
  import TeamRules

  const MAX_QUEUED := 20
  const MAX_NAME_LEN := 16
  const NO_PORT := -1

  class QueuedPlayer {
    var next: QueuedPlayer?
    const realName: Name
    const nick: Name
    const disp: Name
    const addr: Name
    var port: int
    var team: int
    var version: int
    var loginPort: int
    var lastAckSent: int
    var lastAckRecv: int

    constructor (realName: Name, nick: Name, disp: Name, addr: Name, port: int, team: int, version: int, now: int)
      ensures this.realName == realName && this.nick == nick && this.disp == disp && this.addr == addr
      ensures next == null && this.port == port && this.team == team && this.version == version
      ensures loginPort == NO_PORT && lastAckSent == now && lastAckRecv == now
    {
      this.next, this.realName, this.nick, this.disp, this.addr := null, realName, nick, disp, addr;
      this.port, this.team, this.version := port, team, version;
      loginPort, lastAckSent, lastAckRecv := NO_PORT, now, now;
    }
  }

  function At(s: seq<QueuedPlayer>, k: int): QueuedPlayer?
    requires k >= 0
  {
    if k < |s| then s[k] else null
  }

  function RemoveAt(s: seq<QueuedPlayer>, k: nat): seq<QueuedPlayer>
    requires k < |s|
  {
    s[..k] + s[k + 1..]
  }

  /** Entry k moved forward to place p. */
  function MoveTo(s: seq<QueuedPlayer>, k: nat, p: nat): seq<QueuedPlayer>
    requires p <= k < |s|
  {
    s[..p] + [s[k]] + s[p..k] + s[k + 1..]
  }

  function Nicks(s: seq<QueuedPlayer>): seq<Name> { seq(|s|, i requires 0 <= i < |s| => s[i].nick) }
  function Addrs(s: seq<QueuedPlayer>): seq<Name> { seq(|s|, i requires 0 <= i < |s| => s[i].addr) }

  /** Whoever has a login port comes before all who wait for one. */
  ghost predicate PortsFirst(s: seq<QueuedPlayer>)
    reads s`loginPort
  {
    && (forall k :: 0 <= k < |s| ==> s[k].loginPort == NO_PORT || s[k].loginPort > 0)
    && forall j, k :: 0 <= j < k < |s| && s[k].loginPort > 0 ==> s[j].loginPort > 0
  }

  /** No two entries have the same nickname, and no more than two come from the same computer. */
  ghost predicate Fair(s: seq<QueuedPlayer>) {
    Distinct(Nicks(s)) && (forall a: Name :: Count(Addrs(s), a) <= 2) && |s| <= MAX_QUEUED
  }

  lemma FairWithout(s: seq<QueuedPlayer>, k: nat)
    requires Fair(s) && k < |s|
    ensures Fair(RemoveAt(s, k))
  {
    var l, a := s[..k], s[k + 1..];
    forall x: Name ensures Count(Addrs(RemoveAt(s, k)), x) <= 2 {
      assert Addrs(s) == Addrs(l) + [s[k].addr] + Addrs(a);
      CountConcat(Addrs(l) + [s[k].addr], Addrs(a), x);
      CountAppend(Addrs(l), s[k].addr, x);
      assert Addrs(RemoveAt(s, k)) == Addrs(l) + Addrs(a);
      CountConcat(Addrs(l), Addrs(a), x);
    }
    forall i, j | 0 <= i < j < |s| - 1 ensures Nicks(RemoveAt(s, k))[i] != Nicks(RemoveAt(s, k))[j] {
      var i1, j1 := if i < k then i else i + 1, if j < k then j else j + 1;
      assert Nicks(s)[i1] != Nicks(s)[j1];
    }
  }

  lemma PortsWithout(s: seq<QueuedPlayer>, k: nat)
    requires PortsFirst(s) && k < |s|
    ensures PortsFirst(RemoveAt(s, k))
  {
  }

  lemma StillDistinct(s: seq<QueuedPlayer>, k: nat)
    requires Distinct(s) && k < |s|
    ensures Distinct(RemoveAt(s, k))
  {
  }

  lemma DistinctApart(s: seq<QueuedPlayer>, k: nat)
    requires Distinct(s) && k < |s|
    ensures forall j :: 0 <= j < |s| && j != k ==> s[j] != s[k]
    ensures k > 0 ==> forall j :: 0 <= j < |s| && j != k - 1 ==> s[j] != s[k - 1]
  {
  }

  // ----- What becomes of a request to enter the queue -----

  datatype Status = Success | Refreshed | BadNames | InUse | Full | Locked

  predicate SameScreen(p: QueuedPlayer, nick: Name, realName: Name, disp: Name, addr: Name) {
    p.nick == nick && p.addr == addr && p.realName == realName && p.disp == disp
  }

  ghost predicate HasNick(s: seq<QueuedPlayer>, nick: Name) { exists k :: 0 <= k < |s| && s[k].nick == nick }

  ghost predicate HasScreen(s: seq<QueuedPlayer>, nick: Name, realName: Name, disp: Name, addr: Name) {
    exists k :: 0 <= k < |s| && SameScreen(s[k], nick, realName, disp, addr)
  }

  /** The answer does not depend on the order of the queue. */
  ghost function Verdict(s: seq<QueuedPlayer>, namesOk: bool, nick: Name, realName: Name, disp: Name, addr: Name,
                         locked: bool): Status
  {
    if !namesOk then BadNames
    else if HasScreen(s, nick, realName, disp, addr) then Refreshed
    else if HasNick(s, nick) || Count(Addrs(s), addr) >= 2 then InUse
    else if |s| >= MAX_QUEUED then Full
    else if locked then Locked
    else Success
  }

  /** How many entries wait for a login port. */
  ghost function NumWaiting(s: seq<QueuedPlayer>): nat
    reads s`loginPort
  {
    if s == [] then 0 else NumWaiting(s[..|s| - 1]) + if s[|s| - 1].loginPort == NO_PORT then 1 else 0
  }

  lemma AddrsNext(s: seq<QueuedPlayer>, k: nat, addr: Name)
    requires k < |s|
    ensures Count(Addrs(s[..k + 1]), addr) == Count(Addrs(s[..k]), addr) + if s[k].addr == addr then 1 else 0
  {
    assert Addrs(s[..k + 1]) == Addrs(s[..k]) + [s[k].addr];
    CountAppend(Addrs(s[..k]), s[k].addr, addr);
  }

  lemma WaitingNext(s: seq<QueuedPlayer>, k: nat)
    requires k < |s|
    ensures NumWaiting(s[..k + 1]) == NumWaiting(s[..k]) + if s[k].loginPort == NO_PORT then 1 else 0
  {
    assert s[..k + 1][..k] == s[..k];
  }

  /** With two entries from a computer before place k, none from there follows. */
  lemma TwoAtMost(s: seq<QueuedPlayer>, k: nat, j: nat, addr: Name)
    requires Fair(s) && k <= j < |s| && Count(Addrs(s[..k]), addr) >= 2
    ensures s[j].addr != addr
  {
    var all := Addrs(s);
    assert Count(all, addr) <= 2;
    if s[j].addr == addr {
      assert all[..k] == Addrs(s[..k]) && all[..j][..k] == all[..k];
      CountPrefix(all[..j], k, addr);
      CountPrefix(all, j, addr);
    }
  }

  lemma ScreenHasNick(s: seq<QueuedPlayer>, nick: Name, realName: Name, disp: Name, addr: Name)
    ensures HasScreen(s, nick, realName, disp, addr) ==> HasNick(s, nick)
  {
  }

  lemma PortsWith(s: seq<QueuedPlayer>, p: QueuedPlayer)
    requires PortsFirst(s) && p.loginPort == NO_PORT
    ensures PortsFirst(s + [p])
  {
  }

  lemma FairWith(s: seq<QueuedPlayer>, p: QueuedPlayer)
    requires Fair(s) && !HasNick(s, p.nick) && Count(Addrs(s), p.addr) < 2 && |s| < MAX_QUEUED
    ensures Fair(s + [p])
  {
    assert Addrs(s + [p]) == Addrs(s) + [p.addr];
    forall x: Name ensures Count(Addrs(s + [p]), x) <= 2 {
      CountAppend(Addrs(s), p.addr, x);
      assert Count(Addrs(s), x) <= 2;
    }
    assert Nicks(s + [p]) == Nicks(s) + [p.nick];
  }

  // ----- Moving an entry forward -----

  /** The first p entries have ports, the others do not. */
  ghost predicate Ports(s: seq<QueuedPlayer>, p: nat)
    reads s`loginPort
  {
    p <= |s| && forall k :: 0 <= k < |s| ==> if k < p then s[k].loginPort > 0 else s[k].loginPort == NO_PORT
  }

  ghost function EnteringOf(s: seq<QueuedPlayer>): (p: nat)
    requires PortsFirst(s)
    reads s`loginPort
    ensures Ports(s, p)
  {
    if s == [] then 0
    else
      var p := EnteringOf(s[..|s| - 1]);
      if s[|s| - 1].loginPort > 0 then |s| else p
  }

  lemma PortsMoved(s: seq<QueuedPlayer>, k: nat, p: nat)
    requires Ports(s, p) && p <= k < |s|
    ensures PortsFirst(MoveTo(s, k, p))
  {
    forall i | 0 <= i < |s| ensures MoveTo(s, k, p)[i] == s[MovedFrom(i, k, p)] {
    }
  }

  /** Where the entry now at place i was before. */
  function MovedFrom(i: nat, k: nat, p: nat): nat
    requires p <= k
  {
    if i == p then k else if p < i <= k then i - 1 else i
  }

  lemma HostsMoved(s: seq<QueuedPlayer>, k: nat, p: nat, addr: Name)
    requires p <= k < |s|
    ensures Count(Addrs(MoveTo(s, k, p)), addr) == Count(Addrs(s), addr)
  {
    var a, x, b, c := Addrs(s[..p]), [s[k].addr], Addrs(s[p..k]), Addrs(s[k + 1..]);
    assert Addrs(s) == a + b + x + c;
    assert Addrs(MoveTo(s, k, p)) == a + x + b + c;
    hide Addrs, MoveTo, Count;
    CountConcat(a + b + x, c, addr);
    CountConcat(a + b, x, addr);
    CountConcat(a, b, addr);
    CountConcat(a + x + b, c, addr);
    CountConcat(a + x, b, addr);
    CountConcat(a, x, addr);
  }

  /** Entry k is at place p, those it has passed are one place further back, and all others are where they were. */
  lemma MovedMeans(s: seq<QueuedPlayer>, k: nat, p: nat)
    requires p <= k < |s|
    ensures var t := MoveTo(s, k, p);
            && |t| == |s| && t[p] == s[k] && (forall j :: p <= j < k ==> t[j + 1] == s[j])
            && forall j :: 0 <= j < p || k < j < |s| ==> t[j] == s[j]
  {
  }

  lemma FairMoved(s: seq<QueuedPlayer>, k: nat, p: nat)
    requires Fair(s) && p <= k < |s|
    ensures Fair(MoveTo(s, k, p))
  {
    hide Count, Addrs;
    forall addr: Name ensures Count(Addrs(MoveTo(s, k, p)), addr) <= 2 {
      HostsMoved(s, k, p, addr);
      assert Count(Addrs(s), addr) <= 2;
    }
    var moved := MoveTo(s, k, p);
    forall i, j | 0 <= i < j < |s| ensures Nicks(moved)[i] != Nicks(moved)[j] {
      assert moved[i] == s[MovedFrom(i, k, p)] && moved[j] == s[MovedFrom(j, k, p)];
      var i1, j1 := MovedFrom(i, k, p), MovedFrom(j, k, p);
      assert Nicks(s)[if i1 < j1 then i1 else j1] != Nicks(s)[if i1 < j1 then j1 else i1];
    }
  }

  lemma MovedDistinct(s: seq<QueuedPlayer>, k: nat, p: nat)
    requires Distinct(s) && p <= k < |s|
    ensures Distinct(MoveTo(s, k, p)) && |MoveTo(s, k, p)| == |s|
  {
    var t := MoveTo(s, k, p);
    forall i, j | 0 <= i < j < |s| ensures t[i] != t[j] {
      assert t[i] == s[MovedFrom(i, k, p)] && t[j] == s[MovedFrom(j, k, p)];
    }
  }

  // ----- Leaving entries out -----

  function Without(s: seq<QueuedPlayer>, gone: set<QueuedPlayer>): seq<QueuedPlayer> {
    if s == [] then [] else Without(s[..|s| - 1], gone) + if s[|s| - 1] in gone then [] else [s[|s| - 1]]
  }

  lemma {:induction false} WithoutNone(s: seq<QueuedPlayer>)
    ensures Without(s, {}) == s
    decreases |s|
  {
    if s != [] { WithoutNone(s[..|s| - 1]); }
  }

  lemma {:induction false} WithoutStranger(s: seq<QueuedPlayer>, gone: set<QueuedPlayer>, x: QueuedPlayer)
    requires x !in Without(s, gone)
    ensures Without(s, gone + {x}) == Without(s, gone)
    decreases |s|
  {
    if s != [] {
      var n := |s| - 1;
      assert forall y :: y in Without(s[..n], gone) ==> y in Without(s, gone);
      WithoutStranger(s[..n], gone, x);
    }
  }

  lemma {:induction false} WithoutOneMore(s: seq<QueuedPlayer>, gone: set<QueuedPlayer>, k: nat)
    requires Distinct(Without(s, gone)) && k < |Without(s, gone)|
    ensures RemoveAt(Without(s, gone), k) == Without(s, gone + {Without(s, gone)[k]})
    decreases |s|
  {
    var n := |s| - 1;
    var rest, t := Without(s[..n], gone), Without(s, gone);
    if s[n] in gone {
      assert t == rest;
      WithoutOneMore(s[..n], gone, k);
    } else {
      assert t == rest + [s[n]] && forall i :: 0 <= i < |rest| ==> rest[i] == t[i];
      if k == |rest| {
        WithoutStranger(s[..n], gone, s[n]);
      } else {
        WithoutOneMore(s[..n], gone, k);
        assert RemoveAt(t, k) == RemoveAt(rest, k) + [s[n]];
        assert t[k] == rest[k] && t[k] != t[|rest|] == s[n];
      }
    }
  }

  // ----- What one call of Queue_loop does -----

  /** What Queue_loop looks at of an entry; `connected` says whether its connection is still there. */
  datatype Entry = Entry(port: int, recv: int, sent: int, connected: bool)

  function EntryOf(q: QueuedPlayer, connected: QueuedPlayer -> bool): Entry
    reads q`loginPort, q`lastAckRecv, q`lastAckSent
  {
    Entry(q.loginPort, q.lastAckRecv, q.lastAckSent, connected(q))
  }

  /** The time, whether a home base is free, the team found for the first waiting entry, if any, and the port of the
      connection set up for it, if that succeeds. */
  datatype Moment = Moment(now: int, fps: nat, room: bool, team: int, port: int)

  /** An acknowledgement to the entry at place k, a port for it, or its removal while waiting. */
  datatype Event = Nothing | Acked(k: nat) | Granted(k: nat) | Dropped(k: nat)

  function More(e: Event, p: nat): Event {
    match e
    case Nothing => Nothing
    case Acked(k) => Acked(k + p)
    case Granted(k) => Granted(k + p)
    case Dropped(k) => Dropped(k + p)
  }

  predicate Silent(recv: int, m: Moment) { recv + 30 * m.fps < m.now }

  /** An entry with a port has been silent too long, or its connection, looked for every third loop, is gone. */
  predicate Lost(e: Entry, m: Moment) { Silent(e.recv, m) || (e.sent + 2 < m.now && !e.connected) }

  /** An entry with a port is to be told so again. */
  predicate PortAckDue(e: Entry, m: Moment) { e.sent + 2 + m.fps / 4 < m.now }

  /** A waiting entry is to be told its place again. */
  predicate AckDue(e: Entry, m: Moment) { e.sent + 3 * m.fps <= m.now }

  /** Nothing is due for a waiting entry. */
  predicate Quiet(e: Entry, m: Moment) { !Silent(e.recv, m) && !AckDue(e, m) }

  /** A team may be looked for: enough time has passed since the last port was given, and there is a home base. */
  predicate Open(m: Moment, last: int) { last + 2 + m.fps / 4 < m.now && m.room }

  /** The first waiting entry may be let in. */
  predicate Admissible(m: Moment, last: int) { Open(m, last) && m.team != TeamRules.NO_TEAM }

  /** The number of entries with ports in front of the first waiting one. */
  function Entering(es: seq<Entry>): (p: nat)
    ensures p <= |es| && (p < |es| ==> es[p].port == NO_PORT) && forall j :: 0 <= j < p ==> es[j].port != NO_PORT
  {
    if es == [] || es[0].port == NO_PORT then 0 else 1 + Entering(es[1..])
  }

  /** The first k entries have ports, and each of them is lost or has nothing due. */
  ghost predicate Passed(es: seq<Entry>, k: nat, m: Moment) {
    k <= |es| && forall j :: 0 <= j < k ==> es[j].port > 0 && (Lost(es[j], m) || !PortAckDue(es[j], m))
  }

  /** Those of the first k entries that are lost have been dropped, and nobody else. */
  ghost predicate GoneIs(was: seq<QueuedPlayer>, gone: set<QueuedPlayer>, es: seq<Entry>, k: nat, m: Moment)
    requires |es| == |was|
  {
    (forall q :: q in gone ==> q in was) && forall j :: 0 <= j < |was| ==> (was[j] in gone <==> j < k && Lost(es[j], m))
  }

  lemma NonePassed(was: seq<QueuedPlayer>, es: seq<Entry>, m: Moment)
    requires |es| == |was|
    ensures Passed(es, 0, m) && GoneIs(was, {}, es, 0, m)
  {
  }

  /** One more entry with a port is passed, unless it is sent an acknowledgement. */
  lemma OnePassed(was: seq<QueuedPlayer>, gone: set<QueuedPlayer>, es: seq<Entry>, k: nat, m: Moment)
    requires |es| == |was| && Distinct(was) && k < |was| && es[k].port > 0 && Passed(es, k, m) && GoneIs(was, gone, es, k, m)
    ensures Lost(es[k], m) ==> Passed(es, k + 1, m) && GoneIs(was, gone + {was[k]}, es, k + 1, m)
    ensures !Lost(es[k], m) && !PortAckDue(es[k], m) ==> Passed(es, k + 1, m) && GoneIs(was, gone, es, k + 1, m)
  {
    hide Lost, PortAckDue;
  }

  /** What happens to the waiting entries, which begin at place p.  The first of them may be let in; otherwise the
      first one for which something is due is dropped or told its place. */
  ghost predicate WaitingEvent(es: seq<Entry>, p: nat, e: Event, m: Moment, last: int) {
    p < |es| &&
    match e
    case Nothing => !Admissible(m, last) && forall j :: p <= j < |es| ==> Quiet(es[j], m)
    case Acked(k) =>
      && p <= k < |es| && !Admissible(m, last) && (forall j :: p <= j < k ==> Quiet(es[j], m))
      && !Silent(es[k].recv, m) && AckDue(es[k], m)
    case Granted(k) => k == p && !Silent(es[p].recv, m) && Admissible(m, last) && m.port != NO_PORT
    case Dropped(k) =>
      && p <= k < |es| && (forall j :: p <= j < k ==> Quiet(es[j], m))
      && if k == p then Silent(es[p].recv, m) || (Admissible(m, last) && m.port == NO_PORT)
         else Silent(es[k].recv, m) && !Admissible(m, last)
  }

  /** The call stops at the first entry with a port that is not lost and has an acknowledgement due, and turns to the
      waiting entries only if there is none. */
  ghost predicate Happens(e: Event, es: seq<Entry>, m: Moment, last: int) {
    var p := Entering(es);
    if e.Acked? && e.k < p then Passed(es, e.k, m) && !Lost(es[e.k], m) && PortAckDue(es[e.k], m)
    else Passed(es, p, m) && if p == |es| then e.Nothing? else WaitingEvent(es, p, e, m, last)
  }

  /** Who leaves: the entries with ports that were found lost, and the one dropped while waiting. */
  predicate LeavesBy(es: seq<Entry>, j: nat, e: Event, m: Moment)
    requires j < |es|
  {
    (j < Entering(es) && Lost(es[j], m) && (e.Acked? ==> j < e.k)) || e == Dropped(j)
  }

  /** The entry at place j was the first waiting one, and a team was looked for. */
  predicate Tried(es: seq<Entry>, j: nat, e: Event, m: Moment, last: int)
    requires j < |es|
  {
    j == Entering(es) && !(e.Acked? && e.k < j) && !Silent(es[j].recv, m) && Open(m, last)
  }

  lemma OneWaitingEvent(es: seq<Entry>, p: nat, e: Event, f: Event, m: Moment, last: int)
    requires WaitingEvent(es, p, e, m, last) && WaitingEvent(es, p, f, m, last)
    ensures e == f
  {
  }

  /** Exactly one thing happens, and the queue determines which. */
  lemma OneEvent(es: seq<Entry>, e: Event, f: Event, m: Moment, last: int)
    requires Happens(e, es, m, last) && Happens(f, es, m, last)
    ensures e == f
  {
    hide WaitingEvent, Lost, PortAckDue;
    var p := Entering(es);
    if WaitingEvent(es, p, e, m, last) && WaitingEvent(es, p, f, m, last) { OneWaitingEvent(es, p, e, f, m, last); }
  }

  /** Nothing at all happens, and nobody leaves, exactly if nothing is due for any entry and nobody can be let in. */
  lemma NothingExactly(es: seq<Entry>, m: Moment, last: int)
    requires forall j :: 0 <= j < |es| ==> if j < Entering(es) then es[j].port > 0 else es[j].port == NO_PORT
    ensures (Happens(Nothing, es, m, last) && forall j :: 0 <= j < |es| ==> !LeavesBy(es, j, Nothing, m))
            <==> (forall j :: 0 <= j < |es| ==> if es[j].port > 0 then !Lost(es[j], m) && !PortAckDue(es[j], m) else Quiet(es[j], m))
                 && (Entering(es) < |es| ==> !Admissible(m, last))
  {
    HappensNothing(es, m, last);
    hide Lost, PortAckDue, Quiet, Admissible, Happens, Entering;
    var p := Entering(es);
    if Passed(es, p, m) && forall j :: 0 <= j < |es| ==> !LeavesBy(es, j, Nothing, m) {
      forall j | 0 <= j < p ensures !Lost(es[j], m) && !PortAckDue(es[j], m) {
        assert !LeavesBy(es, j, Nothing, m);
      }
    }
  }

  lemma HappensNothing(es: seq<Entry>, m: Moment, last: int)
    ensures var p := Entering(es);
            Happens(Nothing, es, m, last)
            <==> Passed(es, p, m) && (p < |es| ==> !Admissible(m, last) && forall j :: p <= j < |es| ==> Quiet(es[j], m))
  {
    hide Passed, Quiet, Admissible, Entering;
  }

  lemma EventInside(es: seq<Entry>, e: Event, m: Moment, last: int)
    requires WaitingEvent(es, 0, e, m, last)
    ensures e.Nothing? || e.k < |es|
    ensures e.Granted? ==> e.k == 0
  {
  }

  lemma StoppedEarly(es: seq<Entry>, k: nat, m: Moment, last: int)
    requires Passed(es, k, m) && k < |es| && es[k].port > 0 && !Lost(es[k], m) && PortAckDue(es[k], m)
    ensures Happens(Acked(k), es, m, last)
    ensures forall j :: 0 <= j < |es| ==> (LeavesBy(es, j, Acked(k), m) <==> j < k && Lost(es[j], m)) && !Tried(es, j, Acked(k), m, last)
  {
    hide Lost, PortAckDue;
  }

  lemma AllEntered(es: seq<Entry>, k: nat, m: Moment, last: int)
    requires Passed(es, k, m) && k == |es|
    ensures Happens(Nothing, es, m, last)
    ensures forall j :: 0 <= j < |es| ==> (LeavesBy(es, j, Nothing, m) <==> j < k && Lost(es[j], m)) && !Tried(es, j, Nothing, m, last)
  {
    hide Lost, PortAckDue;
  }

  /** An event of the entries from place k on, seen from the whole queue. */
  lemma Shifted(es: seq<Entry>, k: nat, f: Event, m: Moment, last: int)
    requires k < |es| && WaitingEvent(es[k..], 0, f, m, last)
    ensures WaitingEvent(es, k, More(f, k), m, last)
  {
    hide Quiet, Admissible, AckDue, Silent;
    assert forall j :: k <= j < |es| ==> es[j] == es[k..][j - k];
  }

  lemma WentOn(es: seq<Entry>, k: nat, e: Event, m: Moment, last: int)
    requires Passed(es, k, m) && k < |es| && es[k].port == NO_PORT && WaitingEvent(es, k, e, m, last)
    ensures Happens(e, es, m, last)
    ensures forall j :: 0 <= j < |es| ==>
      && (LeavesBy(es, j, e, m) <==> (j < k && Lost(es[j], m)) || e == Dropped(j))
      && (Tried(es, j, e, m, last) <==> j == k && !Silent(es[k].recv, m) && Open(m, last))
  {
    hide Lost, PortAckDue;
  }

  // ----- The same in seconds and loops -----

  /** An entry with a port stays and has nothing due: it has answered within 30 seconds, its connection is there if it was
      last written to more than two loops ago, and it was written to within the last quarter of a second and two loops. */
  predicate Well(e: Entry, m: Moment) {
    m.now <= e.recv + 30 * m.fps && (m.now <= e.sent + 2 || e.connected) && m.now <= e.sent + 2 + m.fps / 4
  }

  /** A waiting entry has answered within 30 seconds, and was told its place within the last three. */
  predicate Waits(e: Entry, m: Moment) { m.now <= e.recv + 30 * m.fps && m.now < e.sent + 3 * m.fps }

  /** Somebody may be let in: a quarter of a second and two loops after the last one, if there are a base and a team. */
  predicate MayEnter(m: Moment, last: int) { m.now > last + 2 + m.fps / 4 && m.room && m.team != -1 }

  /** Who leaves a call: with a port, in front of where the call stops, those silent for 30 seconds and those whose
      connection is found gone; without one, at most one. */
  lemma WhoLeaves(es: seq<Entry>, j: nat, e: Event, m: Moment)
    requires j < |es|
    ensures LeavesBy(es, j, e, m)
            <==> (j < Entering(es) && (e.Acked? ==> j < e.k)
                  && (m.now > es[j].recv + 30 * m.fps || (m.now > es[j].sent + 2 && !es[j].connected)))
                 || e == Dropped(j)
  {
  }

  /** An acknowledgement goes to an entry with a port that is not lost and was last written to more than a quarter of a second
      and two loops ago, if no such entry is in front of it; or to a waiting one that was told its place three seconds ago
      or more, if all with ports are passed, all who wait in front of it wait on, and nobody is let in. */
  lemma WhoIsAcked(es: seq<Entry>, k: nat, m: Moment, last: int)
    requires Happens(Acked(k), es, m, last) && k < |es|
    requires forall j :: 0 <= j < |es| ==> if j < Entering(es) then es[j].port > 0 else es[j].port == -1
    ensures m.now <= es[k].recv + 30 * m.fps
    ensures es[k].port > 0 ==> m.now > es[k].sent + 2 + m.fps / 4 && es[k].connected
    ensures es[k].port == -1 ==> m.now >= es[k].sent + 3 * m.fps && !MayEnter(m, last)
    ensures forall j :: 0 <= j < k && es[j].port == -1 ==> Waits(es[j], m)
    ensures forall j :: 0 <= j < k && es[j].port > 0 ==>
              m.now > es[j].recv + 30 * m.fps || (m.now > es[j].sent + 2 && !es[j].connected) || m.now <= es[j].sent + 2 + m.fps / 4
  {
  }

  /** A port goes to the first waiting entry, if it has answered within 30 seconds, somebody may be let in, and a connection
      can be set up. */
  lemma WhoIsGranted(es: seq<Entry>, k: nat, m: Moment, last: int)
    requires Happens(Granted(k), es, m, last)
    ensures k == Entering(es) < |es| && m.now <= es[k].recv + 30 * m.fps && MayEnter(m, last) && m.port != -1
  {
  }

  /** While waiting an entry is dropped only if it has been silent for more than 30 seconds, or if it is the first and no
      connection can be set up for it. */
  lemma WhoIsDropped(es: seq<Entry>, k: nat, m: Moment, last: int)
    requires Happens(Dropped(k), es, m, last)
    ensures Entering(es) <= k < |es|
    ensures m.now > es[k].recv + 30 * m.fps || (k == Entering(es) && MayEnter(m, last) && m.port == -1)
    ensures k > Entering(es) ==> !MayEnter(m, last)
    ensures forall j :: Entering(es) <= j < k ==> Waits(es[j], m)
  {
  }

  /** A call does nothing exactly if every entry with a port is well, every other one waits on, and nobody may be let in or
      nobody waits. */
  lemma NothingIsDue(es: seq<Entry>, m: Moment, last: int)
    requires forall j :: 0 <= j < |es| ==> if j < Entering(es) then es[j].port > 0 else es[j].port == -1
    ensures (Happens(Nothing, es, m, last) && forall j :: 0 <= j < |es| ==> !LeavesBy(es, j, Nothing, m))
            <==> (forall j :: 0 <= j < |es| ==> if es[j].port > 0 then Well(es[j], m) else Waits(es[j], m))
                 && (Entering(es) == |es| || !MayEnter(m, last))
  {
    NothingExactly(es, m, last);
    hide Happens, LeavesBy, Entering;
  }

  /** The answers to a request, one by one. */
  lemma VerdictMeans(s: seq<QueuedPlayer>, namesOk: bool, nick: Name, realName: Name, disp: Name, addr: Name, locked: bool)
    ensures var v := Verdict(s, namesOk, nick, realName, disp, addr, locked);
            var again := exists k :: 0 <= k < |s| && s[k].nick == nick && s[k].realName == realName && s[k].disp == disp && s[k].addr == addr;
            var taken := exists k :: 0 <= k < |s| && s[k].nick == nick;
            && (v == BadNames <==> !namesOk)
            && (v == Refreshed <==> namesOk && again)
            && (v == InUse <==> namesOk && !again && (taken || Count(Addrs(s), addr) >= 2))
            && (v == Full <==> namesOk && !taken && Count(Addrs(s), addr) < 2 && |s| >= 20)
            && (v == Locked <==> namesOk && !taken && Count(Addrs(s), addr) < 2 && |s| < 20 && locked)
            && (v == Success <==> namesOk && !taken && Count(Addrs(s), addr) < 2 && |s| < 20 && !locked)
  {
    ScreenHasNick(s, nick, realName, disp, addr);
    assert HasNick(s, nick) <==> exists k :: 0 <= k < |s| && s[k].nick == nick;
    assert HasScreen(s, nick, realName, disp, addr)
           <==> exists k :: 0 <= k < |s| && s[k].nick == nick && s[k].realName == realName && s[k].disp == disp && s[k].addr == addr by {
      if HasScreen(s, nick, realName, disp, addr) {
        var k :| 0 <= k < |s| && SameScreen(s[k], nick, realName, disp, addr);
      }
      if k :| 0 <= k < |s| && s[k].nick == nick && s[k].realName == realName && s[k].disp == disp && s[k].addr == addr {
        assert SameScreen(s[k], nick, realName, disp, addr);
      }
    }
    hide HasNick, HasScreen, Count, Addrs;
  }

  datatype Reply = TooLong | AlreadyFirst | AlreadyEntering | Done | NotQueued

  class Queue {
    var head: QueuedPlayer?
    var numQueued: int
    var lastUnqueued: int
    ghost var list: seq<QueuedPlayer>

    /** The entries are chained in the order of the list, which the length counter agrees with. */
    ghost predicate Linked()
      reads this`head, this`list, this`numQueued, list`next
    {
      && Distinct(list) && head == At(list, 0) && numQueued == |list|
      && forall k :: 0 <= k < |list| ==> list[k].next == At(list, k + 1)
    }

    ghost predicate Valid()
      reads this, list`next, list`loginPort
    {
      Linked() && PortsFirst(list) && Fair(list)
    }

    constructor ()
      ensures Valid() && list == []
    {
      head, numQueued, lastUnqueued, list := null, 0, 0, [];
    }

    // ----- Queue_remove -----

    method Unlink(qp: QueuedPlayer, prev: QueuedPlayer?, ghost k: nat)
      requires Linked() && k < |list| && qp == list[k] && prev == if k == 0 then null else list[k - 1]
      modifies this`head, this`numQueued, this`list, list`next
      ensures Linked() && list == RemoveAt(old(list), k)
    {
      DistinctApart(list, k);
      hide Distinct;
      if qp == head {
        head := qp.next;
      } else {
        prev.next := qp.next;
      }
      numQueued := numQueued - 1;
      ghost var before := list;
      list := RemoveAt(list, k);
      StillDistinct(before, k);
    }

    /** Takes the entry after prev out of the queue. */
    method Remove(qp: QueuedPlayer, prev: QueuedPlayer?, ghost k: nat)
      requires Valid() && k < |list| && qp == list[k] && prev == if k == 0 then null else list[k - 1]
      modifies this`head, this`numQueued, this`list, list`next
      ensures Valid() && list == RemoveAt(old(list), k)
    {
      hide Fair, PortsFirst, Linked;
      FairWithout(list, k);
      PortsWithout(list, k);
      Unlink(qp, prev, k);
    }

    // ----- Queue_player -----

    /** The scan of the queue: stops at the entry with the same nickname, or at the second entry of the same
        computer; otherwise it reaches the end. */
    method Scan(nick: Name, realName: Name, disp: Name, addr: Name)
      returns (status: Status, found: QueuedPlayer?, last: QueuedPlayer?, num: nat, qpos: nat)
      requires Valid()
      ensures status in {Refreshed, InUse, Success}
      ensures status == Refreshed <==> HasScreen(list, nick, realName, disp, addr)
      ensures status == Success <==> !HasNick(list, nick) && Count(Addrs(list), addr) < 2
      ensures status == Refreshed ==> found != null && found in list && SameScreen(found, nick, realName, disp, addr)
      ensures status == Success ==> num == |list| && qpos == NumWaiting(list) && last == if list == [] then null else list[|list| - 1]
    {
      hide Count, Addrs, NumWaiting, Fair, PortsFirst, Distinct, HasNick, HasScreen;
      num, qpos, last, found := 0, 0, null, head;
      var hosts := 0;
      ghost var none: seq<QueuedPlayer> := [];
      NothingYet();
      assert list[..0] == [];
      while found != null
        invariant num <= |list| && found == At(list, num) && last == if num == 0 then null else list[num - 1]
        invariant forall j :: 0 <= j < num ==> list[j].nick != nick
        invariant hosts == Count(Addrs(list[..num]), addr) <= 1
        invariant qpos == NumWaiting(list[..num])
        decreases |list| - num
      {
        AddrsNext(list, num, addr);
        WaitingNext(list, num);
        if found.loginPort == NO_PORT { qpos := qpos + 1; }
        if nick == found.nick {
          OneNick(num, nick);
          OnlyScreen(num, nick, realName, disp, addr);
          if addr == found.addr && realName == found.realName && disp == found.disp {
            return Refreshed, found, last, num, qpos;
          }
          return InUse, found, last, num, qpos;
        }
        if addr == found.addr {
          hosts := hosts + 1;
          if hosts > 1 {
            CrowdedHost(num, nick, realName, disp, addr);
            return InUse, found, last, num, qpos;
          }
        }
        last, found, num := found, found.next, num + 1;
      }
      assert list[..num] == list;
      NoNick(nick, realName, disp, addr);
      status := Success;
    }

    lemma NoNick(nick: Name, realName: Name, disp: Name, addr: Name)
      requires forall j :: 0 <= j < |list| ==> list[j].nick != nick
      ensures !HasNick(list, nick) && !HasScreen(list, nick, realName, disp, addr)
    {
    }

    lemma OnlyScreen(k: nat, nick: Name, realName: Name, disp: Name, addr: Name)
      requires k < |list| && list[k].nick == nick && forall j :: 0 <= j < |list| && list[j].nick == nick ==> j == k
      ensures HasScreen(list, nick, realName, disp, addr) <==> SameScreen(list[k], nick, realName, disp, addr)
    {
    }

    lemma NothingYet()
      ensures Count(Addrs([]), []) == 0 && NumWaiting([]) == 0 && forall a: Name :: Count(Addrs([]), a) == 0
    {
    }

    lemma OneNick(k: nat, nick: Name)
      requires Valid() && k < |list| && list[k].nick == nick
      ensures forall j :: 0 <= j < |list| && list[j].nick == nick ==> j == k
      ensures HasNick(list, nick)
    {
      hide Count;
      forall j | 0 <= j < |list| && list[j].nick == nick ensures j == k {
        assert Nicks(list)[j] == Nicks(list)[k];
      }
    }

    lemma CrowdedHost(k: nat, nick: Name, realName: Name, disp: Name, addr: Name)
      requires Valid() && k < |list| && Count(Addrs(list[..k + 1]), addr) >= 2
      requires forall j :: 0 <= j <= k ==> list[j].nick != nick
      ensures !HasScreen(list, nick, realName, disp, addr) && Count(Addrs(list), addr) >= 2
    {
      assert Addrs(list)[..k + 1] == Addrs(list[..k + 1]);
      CountPrefix(Addrs(list), k + 1, addr);
      forall j | 0 <= j < |list| ensures !SameScreen(list[j], nick, realName, disp, addr) {
        if j > k { TwoAtMost(list, k + 1, j, addr); }
      }
    }

    /** A new entry goes to the end of the queue. */
    method Append(qp: QueuedPlayer, last: QueuedPlayer?)
      requires Linked() && qp !in list && qp.next == null && last == if list == [] then null else list[|list| - 1]
      modifies this`head, this`numQueued, this`list, list`next
      ensures Linked() && list == old(list) + [qp]
    {
      if head == null {
        head := qp;
      } else {
        last.next := qp;
      }
      numQueued := numQueued + 1;
      list := list + [qp];
    }

    method QueuePlayer(namesOk: bool, realName: Name, nick: Name, disp: Name, addr: Name, team: int, version: int, port: int,
                       locked: bool, now: int)
      returns (status: Status, qpos: nat)
      requires Valid()
      modifies this`head, this`numQueued, this`list, list`next, list`lastAckRecv, list`port, list`version, list`team
      ensures Valid() && status == old(Verdict(list, namesOk, nick, realName, disp, addr, locked))
      ensures status != Success ==> list == old(list)
      ensures status == Success ==> |list| == |old(list)| + 1 && list[..|old(list)|] == old(list) && qpos == old(NumWaiting(list))
      ensures status == Success ==>
                var p := list[|old(list)|];
                fresh(p) && SameScreen(p, nick, realName, disp, addr) && p.loginPort == NO_PORT && p.port == port && p.version == version
                && p.lastAckRecv == p.lastAckSent == now && p.team == if 0 <= team < TeamRules.MAX_TEAMS then team else TeamRules.NO_TEAM
      ensures forall p :: p in old(list) ==>
                if status == Refreshed && SameScreen(p, nick, realName, disp, addr)
                then p.lastAckRecv == now && p.port == port && p.version == version
                     && p.team == if 0 <= team < TeamRules.MAX_TEAMS then team else old(p.team)
                else p.lastAckRecv == old(p.lastAckRecv) && p.port == old(p.port) && p.version == old(p.version) && p.team == old(p.team)
    {
      hide Fair, PortsFirst, Linked, HasScreen, HasNick, Count, NumWaiting;
      qpos := 0;
      if !namesOk { return BadNames, 0; }
      var found, last, num;
      status, found, last, num, qpos := Scan(nick, realName, disp, addr);
      ScreenHasNick(list, nick, realName, disp, addr);
      if status == Refreshed {
        OneScreen(found, nick, realName, disp, addr);
        found.lastAckRecv := now;
        found.port := port;
        found.version := version;
        if 0 <= team < TeamRules.MAX_TEAMS { found.team := team; }
        return;
      }
      if status == InUse { return; }
      SameLength();
      numQueued := num;
      if numQueued >= MAX_QUEUED { return Full, qpos; }
      if locked { return Locked, qpos; }
      var qp := new QueuedPlayer(realName, nick, disp, addr, port, if 0 <= team < TeamRules.MAX_TEAMS then team else TeamRules.NO_TEAM, version, now);
      FairWith(list, qp);
      PortsWith(list, qp);
      Append(qp, last);
    }

    lemma SameLength()
      requires Linked()
      ensures numQueued == |list|
    {
    }

    lemma OneScreen(found: QueuedPlayer, nick: Name, realName: Name, disp: Name, addr: Name)
      requires Valid() && found in list && SameScreen(found, nick, realName, disp, addr)
      ensures forall p :: p in list && SameScreen(p, nick, realName, disp, addr) ==> p == found
    {
      hide Linked, Count;
      var k :| 0 <= k < |list| && list[k] == found;
      OneNick(k, nick);
    }

    // ----- Queue_advance_player -----

    method Splice(qp: QueuedPlayer, prev: QueuedPlayer, first: QueuedPlayer?, ghost k: nat, ghost p: nat)
      requires Linked() && 1 <= k < |list| && p <= k && qp == list[k] && prev == list[k - 1]
      requires first == if p == 0 then null else list[p - 1]
      modifies this`head, this`list, list`next
      ensures Linked() && list == MoveTo(old(list), k, p)
    {
      ghost var s := list;
      DistinctApart(s, k);
      if p > 0 { DistinctApart(s, p - 1); }
      MovedDistinct(s, k, p);
      hide Distinct, MoveTo;
      prev.next := qp.next;
      if first != null {
        qp.next := first.next;
        first.next := qp;
      } else {
        qp.next := head;
        head := qp;
      }
      list := MoveTo(list, k, p);
      assert s[k].next == if p < k then s[p] else At(s, k + 1);
      assert p < k ==> s[k - 1].next == At(s, k + 1);
      assert p > 0 ==> s[p - 1].next == s[k];
      MovedChain(s, k, p);
    }

    lemma MovedChain(s: seq<QueuedPlayer>, k: nat, p: nat)
      requires 1 <= k < |s| && p <= k
      requires forall j :: 0 <= j < |s| && j != k && j != k - 1 && j != p - 1 ==> s[j].next == At(s, j + 1)
      requires s[k].next == if p < k then s[p] else At(s, k + 1)
      requires p < k ==> s[k - 1].next == At(s, k + 1)
      requires p > 0 ==> s[p - 1].next == s[k]
      ensures var t := MoveTo(s, k, p);
              |t| == |s| && At(t, 0) == (if p == 0 then s[k] else s[0])
              && forall i :: 0 <= i < |t| ==> t[i].next == At(t, i + 1)
    {
      var t := MoveTo(s, k, p);
      forall i | 0 <= i < |t| ensures t[i].next == At(t, i + 1) {
        assert t[i] == s[MovedFrom(i, k, p)];
        if i + 1 < |t| { assert t[i + 1] == s[MovedFrom(i + 1, k, p)]; }
      }
    }

    /** The number of entries with a login port; they are the first ones. */
    ghost function WithPorts(): (p: nat)
      requires PortsFirst(list)
      reads this`list, list`loginPort
      ensures Ports(list, p)
    {
      EnteringOf(list)
    }

    /** Place k holds the first entry with the name, in either case. */
    ghost predicate FirstNamed(k: int, name: Name)
      reads this`list
    {
      && 0 <= k < |list| && Upper(list[k].nick) == Upper(name)
      && forall j :: 0 <= j < k ==> Upper(list[j].nick) != Upper(name)
    }

    method MoveForward(qp: QueuedPlayer, prev: QueuedPlayer, first: QueuedPlayer?, ghost k: nat, ghost p: nat)
      requires Valid() && 1 <= k < |list| && p <= k && qp == list[k] && prev == list[k - 1] && Ports(list, p)
      requires first == if p == 0 then null else list[p - 1]
      modifies this`head, this`list, list`next
      ensures Valid() && list == MoveTo(old(list), k, p)
    {
      hide Fair, Linked, PortsFirst, Ports;
      FairMoved(list, k, p);
      PortsMoved(list, k, p);
      Splice(qp, prev, first, k, p);
    }

    /** Queue_advance_player: the first waiting entry with the name moves to just after those who are entering the
        game; nothing else changes. */
    method AdvancePlayer(name: Name) returns (reply: Reply, ghost k: int)
      requires Valid()
      modifies this`head, this`list, list`next
      ensures Valid() && (reply != Done ==> list == old(list))
      ensures reply == TooLong <==> |name| >= MAX_NAME_LEN
      ensures |name| < MAX_NAME_LEN ==> (reply == NotQueued <==> forall j :: 0 <= j < |old(list)| ==> Upper(old(list)[j].nick) != Upper(name))
      ensures reply in {AlreadyFirst, AlreadyEntering, Done} ==>
                && old(FirstNamed(k, name))
                && (reply == AlreadyFirst <==> k == 0) && (reply == AlreadyEntering <==> k > 0 && old(list[k].loginPort) != NO_PORT)
      ensures reply == Done ==> old(WithPorts()) <= k && list == MoveTo(old(list), k, old(WithPorts()))
    {
      hide Fair, Linked, PortsFirst, Upper, MoveTo, Valid;
      ValidPorts();
      k := -1;
      if |name| >= MAX_NAME_LEN { return TooLong, k; }
      var qp, prev, first := head, null, null;
      ghost var at, p: nat := 0, WithPorts();
      HeadOf();
      while qp != null && Upper(qp.nick) != Upper(name)
        modifies {}
        invariant at <= |list| && qp == At(list, at) && prev == if at == 0 then null else list[at - 1]
        invariant first == if at == 0 || p == 0 then null else list[(if p < at then p else at) - 1]
        invariant forall j :: 0 <= j < at ==> Upper(list[j].nick) != Upper(name)
        decreases |list| - at
      {
        NextOf(at);
        if qp.loginPort != NO_PORT { first := qp; }
        prev, qp, at := qp, qp.next, at + 1;
      }
      if qp == null { return NotQueued, k; }
      k := at;
      if prev == null { return AlreadyFirst, k; }
      if qp.loginPort != NO_PORT { return AlreadyEntering, k; }
      MoveForward(qp, prev, first, at, p);
      reply := Done;
    }

    lemma ValidPorts()
      requires Valid()
      ensures PortsFirst(list)
    {
    }

    // ----- Queue_loop -----

    /** Removes the entry at place k and notes that it is gone. */
    method Drop(qp: QueuedPlayer, prev: QueuedPlayer?, ghost k: nat, ghost was: seq<QueuedPlayer>, ghost gone: set<QueuedPlayer>,
                ghost all: set<QueuedPlayer>)
      returns (ghost more: set<QueuedPlayer>)
      requires Valid() && k < |list| && qp == list[k] && prev == (if k == 0 then null else list[k - 1])
      requires list == Without(was, gone) && forall q :: q in list ==> q in all
      modifies this`head, this`numQueued, this`list, all`next
      ensures Valid() && list == RemoveAt(old(list), k) && more == gone + {qp} && list == Without(was, more)
    {
      hide Fair, PortsFirst, Without, Distinct;
      DistinctList();
      WithoutOneMore(was, gone, k);
      Remove(qp, prev, k);
      more := gone + {qp};
    }

    lemma DistinctList()
      requires Linked()
      ensures Distinct(list)
    {
    }

    /** One entry with a login port: it is dropped if it is lost, and otherwise may be sent an acknowledgement. */
    method ServeOne(m: Moment, connected: QueuedPlayer -> bool, qp: QueuedPlayer, prev: QueuedPlayer?, ghost i: nat,
                    ghost was: seq<QueuedPlayer>, ghost gone: set<QueuedPlayer>, ghost all: set<QueuedPlayer>)
      returns (keep: bool, acked: bool, ghost more: set<QueuedPlayer>)
      requires Valid() && i < |list| && qp == list[i] && prev == (if i == 0 then null else list[i - 1])
      requires list == Without(was, gone) && forall q :: q in list ==> q in all
      modifies this`head, this`numQueued, this`list, all`next, qp`lastAckSent
      ensures Valid() && list == Without(was, more)
      ensures keep <==> !Lost(old(EntryOf(qp, connected)), m)
      ensures acked <==> keep && PortAckDue(old(EntryOf(qp, connected)), m)
      ensures qp.lastAckSent == if acked then m.now else old(qp.lastAckSent)
      ensures if keep then list == old(list) && more == gone else list == RemoveAt(old(list), i) && more == gone + {qp}
    {
      hide Valid, Without;
      keep, acked, more := true, false, gone;
      if qp.lastAckRecv + 30 * m.fps < m.now {
        more := Drop(qp, prev, i, was, gone, all);
        keep := false;
        return;
      }
      if qp.lastAckSent + 2 < m.now {
        if !connected(qp) {
          more := Drop(qp, prev, i, was, gone, all);
          keep := false;
          return;
        }
        if qp.lastAckSent + 2 + m.fps / 4 < m.now {
          qp.lastAckSent := m.now;
          acked := true;
        }
      }
    }

    /** The pass has come to place i of the list, which was place k of the queue. */
    ghost predicate Serving(was: seq<QueuedPlayer>, gone: set<QueuedPlayer>, all: set<QueuedPlayer>, qp: QueuedPlayer?,
                            prev: QueuedPlayer?, i: nat, k: nat)
      reads this, list`next, list`loginPort
    {
      && Valid() && Distinct(was) && list == Without(was, gone) && (forall q :: q in list ==> q in was && q in all)
      && i <= |list| && k <= |was| && list[i..] == was[k..] && (forall j :: 0 <= j < i ==> list[j].loginPort > 0)
      && qp == At(list, i) && prev == (if i == 0 then null else list[i - 1])
    }

    lemma ServingAt(was: seq<QueuedPlayer>, gone: set<QueuedPlayer>, all: set<QueuedPlayer>, qp: QueuedPlayer,
                    prev: QueuedPlayer?, i: nat, k: nat)
      requires Serving(was, gone, all, qp, prev, i, k)
      ensures i < |list| && k < |was| && qp == list[i] == was[k] && list[i + 1..] == was[k + 1..]
      ensures qp.loginPort > 0 || qp.loginPort == NO_PORT
      ensures forall j :: 0 <= j < |was| && j != k ==> was[j] != qp
    {
      hide Without, Fair, Linked;
      assert list[i..][0] == was[k..][0];
      assert list[i + 1..] == list[i..][1..] == was[k..][1..] == was[k + 1..];
    }

    /** The pass moves on by one entry, unless an acknowledgement is sent to it. */
    method ServeStep(m: Moment, connected: QueuedPlayer -> bool, ghost was: seq<QueuedPlayer>, ghost all: set<QueuedPlayer>,
                     qp: QueuedPlayer, prev: QueuedPlayer?, ghost i: nat, ghost k: nat, ghost gone: set<QueuedPlayer>)
      returns (acked: bool, qp1: QueuedPlayer?, prev1: QueuedPlayer?, ghost i1: nat, ghost k1: nat, ghost gone1: set<QueuedPlayer>)
      requires Serving(was, gone, all, qp, prev, i, k) && qp.loginPort > 0
      modifies this`head, this`numQueued, this`list, all`next, qp`lastAckSent
      ensures acked <==> !Lost(old(EntryOf(qp, connected)), m) && PortAckDue(old(EntryOf(qp, connected)), m)
      ensures qp.lastAckSent == if acked then m.now else old(qp.lastAckSent)
      ensures acked ==> k1 == k && gone1 == gone && Valid() && list == old(list)
      ensures !acked ==>
                && Serving(was, gone1, all, qp1, prev1, i1, k1) && k1 == k + 1
                && gone1 == if Lost(old(EntryOf(qp, connected)), m) then gone + {qp} else gone
    {
      hide Without, Valid, RemoveAt, Distinct;
      ServingAt(was, gone, all, qp, prev, i, k);
      NextOf(i);
      AfterRemoval(list, i);
      var next := qp.next;
      var keep;
      keep, acked, gone1 := ServeOne(m, connected, qp, prev, i, was, gone, all);
      if acked { return acked, next, qp, i, k, gone; }
      qp1, prev1, i1, k1 := next, if keep then qp else prev, if keep then i + 1 else i, k + 1;
    }

    lemma AfterRemoval(s: seq<QueuedPlayer>, i: nat)
      requires i < |s|
      ensures var t := RemoveAt(s, i);
              && i <= |t| && t[i..] == s[i + 1..] && At(t, i) == At(s, i + 1)
              && (forall j :: 0 <= j < i ==> t[j] == s[j]) && forall q :: q in t ==> q in s
    {
    }

    /** The entries look as `es` says. */
    ghost predicate Shows(s: seq<QueuedPlayer>, es: seq<Entry>, connected: QueuedPlayer -> bool)
      reads s`loginPort, s`lastAckRecv, s`lastAckSent
    {
      |es| == |s| && forall j :: 0 <= j < |s| ==> es[j] == EntryOf(s[j], connected)
    }

    /** The pass over the entries with login ports.  It ends at the first one that has an acknowledgement sent to it,
        and otherwise at the first waiting entry; those of them that are lost are dropped. */
    method ServeEntering(m: Moment, connected: QueuedPlayer -> bool, ghost all: set<QueuedPlayer>, ghost es: seq<Entry>)
      returns (done: bool, qp: QueuedPlayer?, prev: QueuedPlayer?, ghost i: nat, ghost k: nat, ghost gone: set<QueuedPlayer>)
      requires Valid() && Shows(list, es, connected) && forall q :: q in list ==> q in all
      modifies this`head, this`numQueued, this`list, all`next, all`lastAckSent
      ensures Valid() && list == Without(old(list), gone) && Passed(es, k, m) && GoneIs(old(list), gone, es, k, m)
      ensures if done then k < |es| && es[k].port > 0 && !Lost(es[k], m) && PortAckDue(es[k], m)
              else Serving(old(list), gone, all, qp, prev, i, k) && (qp != null ==> qp.loginPort == NO_PORT)
      ensures forall j :: 0 <= j < |old(list)| ==>
                old(list)[j].lastAckSent == if done && j == k then m.now else es[j].sent
    {
      hide Without, Valid, Serving, Lost, PortAckDue, Passed, GoneIs, Distinct;
      ghost var was := list;
      qp, prev, i, k, gone, done := head, null, 0, 0, {}, false;
      StartServing(all);
      NonePassed(was, es, m);
      while qp != null && qp.loginPort > 0 && !done
        invariant if done then k < |es| && es[k].port > 0 && !Lost(es[k], m) && PortAckDue(es[k], m) && was[k].lastAckSent == m.now
                  else Serving(was, gone, all, qp, prev, i, k)
        invariant Valid() && list == Without(was, gone) && Passed(es, k, m) && GoneIs(was, gone, es, k, m)
        invariant forall j :: 0 <= j < |was| && !(done && j == k) ==> was[j].lastAckSent == es[j].sent
        decreases |was| - k, !done
      {
        ServingAt(was, gone, all, qp, prev, i, k);
        ServingPlaces(was, gone, all, qp, prev, i, k);
        OnePassed(was, gone, es, k, m);
        done, qp, prev, i, k, gone := ServeStep(m, connected, was, all, qp, prev, i, k, gone);
        if !done { ServingParts(was, gone, all, qp, prev, i, k); }
      }
      if !done && qp != null { ServingAt(was, gone, all, qp, prev, i, k); }
    }

    lemma ServingPlaces(was: seq<QueuedPlayer>, gone: set<QueuedPlayer>, all: set<QueuedPlayer>, qp: QueuedPlayer?,
                        prev: QueuedPlayer?, i: nat, k: nat)
      requires Serving(was, gone, all, qp, prev, i, k)
      ensures Distinct(was)
    {
      hide Valid, Without, Distinct;
    }

    lemma ServingParts(was: seq<QueuedPlayer>, gone: set<QueuedPlayer>, all: set<QueuedPlayer>, qp: QueuedPlayer?,
                       prev: QueuedPlayer?, i: nat, k: nat)
      requires Serving(was, gone, all, qp, prev, i, k)
      ensures Valid() && list == Without(was, gone) && k <= |was| && Entered(i) && Distinct(was) && i <= |list| && list[i..] == was[k..]
      ensures qp == At(list, i) && prev == if i == 0 then null else list[i - 1]
      ensures forall q :: q in list ==> q in all
    {
      hide Valid, Without, Distinct;
    }

    lemma StartServing(all: set<QueuedPlayer>)
      requires Valid() && forall q :: q in list ==> q in all
      ensures Serving(list, {}, all, head, null, 0, 0) && list == Without(list, {})
    {
      hide Without;
      WithoutNone(list);
    }

    lemma HeadOf()
      requires Valid()
      ensures head == At(list, 0)
    {
    }

    lemma NextOf(k: nat)
      requires Valid() && k < |list|
      ensures list[k].next == At(list, k + 1)
    {
    }

    ghost predicate Entered(i: nat)
      reads this`list, list`loginPort
    {
      i <= |list| && forall j :: 0 <= j < i ==> list[j].loginPort > 0
    }

    /** Gives the first waiting entry its port. */
    method Grant(qp: QueuedPlayer, ghost i: nat, port: int, now: int)
      requires Valid() && i < |list| && qp == list[i] && Entered(i) && qp.loginPort == NO_PORT && port > 0
      modifies qp`loginPort, qp`lastAckSent, this`lastUnqueued
      ensures Valid() && qp.loginPort == port && lastUnqueued == qp.lastAckSent == now
    {
      OthersDiffer(i);
      hide Fair, Linked;
      qp.loginPort := port;
      qp.lastAckSent := now;
      lastUnqueued := now;
    }

    /** The first waiting entry, if there is one: it is dropped if it has been silent too long or no connection can
        be set up for it; it gets a login port if enough time has passed since the last one, and there is a home
        base and a team for it. */
    method AdmitFirst(m: Moment, qp: QueuedPlayer, prev: QueuedPlayer?, ghost i: nat)
      returns (done: bool, dropped: bool, granted: bool)
      requires Valid() && i < |list| && qp == list[i] && prev == (if i == 0 then null else list[i - 1])
      requires Entered(i) && qp.loginPort == NO_PORT && (m.port == NO_PORT || m.port > 0)
      modifies this`head, this`numQueued, this`list, list`next, qp`team, qp`loginPort, qp`lastAckSent, this`lastUnqueued
      ensures Valid() && list == if dropped then RemoveAt(old(list), i) else old(list)
      ensures dropped <==> Silent(qp.lastAckRecv, m) || (Admissible(m, old(lastUnqueued)) && m.port == NO_PORT)
      ensures granted <==> !Silent(qp.lastAckRecv, m) && Admissible(m, old(lastUnqueued)) && m.port != NO_PORT
      ensures done <==> dropped || granted
      ensures qp.loginPort == (if granted then m.port else NO_PORT) && qp.lastAckSent == if granted then m.now else old(qp.lastAckSent)
      ensures lastUnqueued == if granted then m.now else old(lastUnqueued)
      ensures qp.team == if !Silent(qp.lastAckRecv, m) && Open(m, old(lastUnqueued)) then m.team else old(qp.team)
    {
      hide Valid;
      done, dropped, granted := false, false, false;
      if qp.lastAckRecv + 30 * m.fps < m.now {
        Remove(qp, prev, i);
        return true, true, false;
      }
      if lastUnqueued + 2 + m.fps / 4 < m.now && m.room {
        qp.team := m.team;
        if m.team != TeamRules.NO_TEAM {
          if m.port == NO_PORT {
            Remove(qp, prev, i);
            return true, true, false;
          }
          Grant(qp, i, m.port, m.now);
          return true, false, true;
        }
      }
    }

    /** The pass over the waiting entries stops at the first one, if any, for which something is due: it is dropped
        if it has been silent too long, and otherwise told its place in the queue. */
    method ServeWaiting(m: Moment, qp0: QueuedPlayer?, prev0: QueuedPlayer?, ghost i: nat, ghost es: seq<Entry>,
                        ghost connected: QueuedPlayer -> bool)
      returns (dropped: bool, ghost k: nat, acked: bool)
      requires Valid() && i <= |list| && qp0 == At(list, i) && prev0 == if i == 0 then null else list[i - 1]
      requires Shows(list[i..], es, connected)
      modifies this`head, this`numQueued, this`list, list`next, list`lastAckSent
      ensures Valid() && k <= |es| == |old(list)| - i && forall j :: 0 <= j < k ==> Quiet(es[j], m)
      ensures dropped <==> k < |es| && Silent(es[k].recv, m)
      ensures acked <==> k < |es| && !Silent(es[k].recv, m)
      ensures acked ==> AckDue(es[k], m)
      ensures list == if dropped then RemoveAt(old(list), i + k) else old(list)
      ensures forall q :: q in old(list) ==> q.lastAckSent == if acked && q == old(list)[i + k] then m.now else old(q.lastAckSent)
    {
      hide Valid, RemoveAt, Shows;
      var qp, prev, qpos := qp0, prev0, 0;
      k, dropped, acked := 0, false, false;
      ShownLength(list[i..], es, connected);
      while qp != null && !(qp.lastAckRecv + 30 * m.fps < m.now) && !(qp.lastAckSent + 3 * m.fps <= m.now)
        modifies {}
        invariant k <= |es| && qp == At(list, i + k) && prev == if i + k == 0 then null else list[i + k - 1]
        invariant forall j :: 0 <= j < k ==> Quiet(es[j], m)
        decreases |es| - k
      {
        qpos := qpos + 1;
        NextOf(i + k);
        ShownAt(i, k, es, connected);
        prev, qp, k := qp, qp.next, k + 1;
      }
      if qp == null { return; }
      ShownAt(i, k, es, connected);
      qpos := qpos + 1;
      if qp.lastAckRecv + 30 * m.fps < m.now {
        dropped := true;
        Remove(qp, prev, i + k);
        return;
      }
      qp.lastAckSent := m.now;
      acked := true;
    }

    lemma ShownLength(s: seq<QueuedPlayer>, es: seq<Entry>, connected: QueuedPlayer -> bool)
      requires Shows(s, es, connected)
      ensures |es| == |s|
    {
    }

    lemma ShownAt(i: nat, k: nat, es: seq<Entry>, connected: QueuedPlayer -> bool)
      requires i + k < |list| && Shows(list[i..], es, connected)
      ensures k < |es| && es[k] == EntryOf(list[i + k], connected)
    {
      assert list[i..][k] == list[i + k];
    }

    /** What happens after the entries with ports have been served. */
    method ServeRest(m: Moment, qp: QueuedPlayer, prev: QueuedPlayer?, ghost i: nat, ghost all: set<QueuedPlayer>, ghost es: seq<Entry>,
                     ghost connected: QueuedPlayer -> bool)
      returns (ghost e: Event, acked: bool)
      requires Valid() && i < |list| && qp == list[i] && prev == (if i == 0 then null else list[i - 1])
      requires Entered(i) && qp.loginPort == NO_PORT && (m.port == NO_PORT || m.port > 0)
      requires Shows(list[i..], es, connected) && forall q :: q in list ==> q in all
      modifies this`head, this`numQueued, this`list, this`lastUnqueued, all`next, all`lastAckSent, qp`team, qp`loginPort
      ensures Valid() && WaitingEvent(es, 0, e, m, old(lastUnqueued)) && (acked <==> e.Acked? || e.Granted?)
      ensures list == if e.Dropped? then RemoveAt(old(list), i + e.k) else old(list)
      ensures forall q :: q in all ==>
                q.lastAckSent == if (e.Acked? || e.Granted?) && q == old(list)[i + e.k] then m.now else old(q.lastAckSent)
      ensures qp.loginPort == (if e.Granted? then m.port else NO_PORT)
      ensures lastUnqueued == if e.Granted? then m.now else old(lastUnqueued)
      ensures qp.team == if !Silent(qp.lastAckRecv, m) && Open(m, old(lastUnqueued)) then m.team else old(qp.team)
    {
      hide Valid, RemoveAt;
      assert list[i..][0] == list[i];
      OthersDiffer(i);
      var done, dropped, granted;
      done, dropped, granted := AdmitFirst(m, qp, prev, i);
      if done {
        e := if dropped then Dropped(0) else Granted(0);
        return e, granted;
      }
      ghost var k;
      dropped, k, acked := ServeWaiting(m, qp, prev, i, es, connected);
      e := if dropped then Dropped(k) else if acked then Acked(k) else Nothing;
    }

    /** What one call finds, entry by entry. */
    function Entries(s: seq<QueuedPlayer>, connected: QueuedPlayer -> bool): seq<Entry>
      reads s
    {
      seq(|s|, j requires 0 <= j < |s| reads s => EntryOf(s[j], connected))
    }

    /** Queue_loop.  The event `e` is determined by what the call finds, and every effect follows from it: who leaves,
        who is sent an acknowledgement, who gets a port.  The order of the queue stays as it is. */
    method Loop(m: Moment, connected: QueuedPlayer -> bool) returns (ghost e: Event, ghost gone: set<QueuedPlayer>, acked: bool)
      requires Valid() && (m.port == NO_PORT || m.port > 0)
      modifies this, list`next, list`lastAckSent, list`loginPort, list`team
      ensures Valid() && Happens(e, old(Entries(list, connected)), m, old(lastUnqueued)) && (acked <==> e.Acked? || e.Granted?)
      ensures list == Without(old(list), gone) && forall q :: q in gone ==> q in old(list)
      ensures forall j :: 0 <= j < |old(list)| ==> (old(list)[j] in gone <==> LeavesBy(old(Entries(list, connected)), j, e, m))
      ensures forall j :: 0 <= j < |old(list)| ==>
        old(list)[j].lastAckSent == if e == Acked(j) || e == Granted(j) then m.now else old(list[j].lastAckSent)
      ensures forall j :: 0 <= j < |old(list)| ==> old(list)[j].loginPort == if e == Granted(j) then m.port else old(list[j].loginPort)
      ensures forall j :: 0 <= j < |old(list)| ==>
        old(list)[j].team == if Tried(old(Entries(list, connected)), j, e, m, old(lastUnqueued)) then m.team else old(list[j].team)
      ensures lastUnqueued == if e.Granted? then m.now else old(lastUnqueued)
    {
      hide Valid, Without, RemoveAt, Happens, LeavesBy, Tried, WaitingEvent, Passed;
      ghost var was, all, es := list, (set q | q in list), Entries(list, connected);
      ValidDistinct();
      var done, qp, prev;
      ghost var i, k;
      done, qp, prev, i, k, gone := ServeEntering(m, connected, all, es);
      if done {
        e, acked := Acked(k), true;
        StoppedEarly(es, k, m, old(lastUnqueued));
        return;
      }
      if qp == null {
        e, acked := Nothing, false;
        NobodyWaits(was, gone, all, prev, i, k);
        AllEntered(es, k, m, old(lastUnqueued));
        return;
      }
      e, gone, acked := ServeOthers(m, connected, was, gone, all, es, qp, prev, i, k);
      WentOn(es, k, e, m, old(lastUnqueued));
    }

    lemma NobodyWaits(was: seq<QueuedPlayer>, gone: set<QueuedPlayer>, all: set<QueuedPlayer>, prev: QueuedPlayer?, i: nat, k: nat)
      requires Serving(was, gone, all, null, prev, i, k)
      ensures k == |was|
    {
      hide Without, Valid, Distinct;
    }

    /** The second half: the entries from place k on of the queue as it was. */
    method ServeOthers(m: Moment, ghost connected: QueuedPlayer -> bool, ghost was: seq<QueuedPlayer>, ghost gone: set<QueuedPlayer>,
                       ghost all: set<QueuedPlayer>, ghost es: seq<Entry>, qp: QueuedPlayer, prev: QueuedPlayer?, ghost i: nat, ghost k: nat)
      returns (ghost e: Event, ghost gone1: set<QueuedPlayer>, acked: bool)
      requires Serving(was, gone, all, qp, prev, i, k) && qp.loginPort == NO_PORT && (m.port == NO_PORT || m.port > 0)
      requires (forall q :: q in was <==> q in all) && k < |was| == |es| && Shows(was[k..], es[k..], connected)
      modifies this`head, this`numQueued, this`list, this`lastUnqueued, all`next, all`lastAckSent, qp`team, qp`loginPort
      ensures Valid() && WaitingEvent(es, k, e, m, old(lastUnqueued)) && (acked <==> e.Acked? || e.Granted?)
      ensures e.Nothing? || e.k < |was|
      ensures list == Without(was, gone1) && gone1 == if e.Dropped? then gone + {was[e.k]} else gone
      ensures forall j :: 0 <= j < |was| ==>
        was[j].lastAckSent == if e == Acked(j) || e == Granted(j) then m.now else old(was[j].lastAckSent)
      ensures forall j :: 0 <= j < |was| ==> was[j].loginPort == if e == Granted(j) then m.port else old(was[j].loginPort)
      ensures forall j :: 0 <= j < |was| ==>
        was[j].team == if j == k && !Silent(es[k].recv, m) && Open(m, old(lastUnqueued)) then m.team else old(was[j].team)
      ensures lastUnqueued == if e.Granted? then m.now else old(lastUnqueued)
    {
      hide Valid, Without, RemoveAt, Distinct, WaitingEvent, Shows, Silent, Open, Serving, Entered;
      ServingAt(was, gone, all, qp, prev, i, k);
      ServingParts(was, gone, all, qp, prev, i, k);
      ValidDistinct();
      ghost var mid := list;
      ShownFirst(was, es, k, connected);
      ghost var f;
      f, acked := ServeRest(m, qp, prev, i, all, es[k..], connected);
      e, gone1 := More(f, k), gone;
      EventInside(es[k..], f, m, old(lastUnqueued));
      Shifted(es, k, f, m, old(lastUnqueued));
      if !f.Nothing? {
        SameEntry(mid, was, gone, i, k, f.k);
        OnlyPlace(was, k + f.k);
        if f.Dropped? { gone1 := gone + {was[k + f.k]}; }
      }
    }

    lemma ShownFirst(was: seq<QueuedPlayer>, es: seq<Entry>, k: nat, connected: QueuedPlayer -> bool)
      requires k < |was| == |es| && Shows(was[k..], es[k..], connected)
      ensures es[k].recv == was[k].lastAckRecv
    {
      assert was[k..][0] == was[k] && es[k..][0] == es[k];
    }

    lemma SameEntry(mid: seq<QueuedPlayer>, was: seq<QueuedPlayer>, gone: set<QueuedPlayer>, i: nat, k: nat, d: nat)
      requires i <= |mid| && k + d < |was| && mid[i..] == was[k..] && mid == Without(was, gone) && Distinct(mid)
      ensures i + d < |mid| && mid[i + d] == was[k + d] && RemoveAt(mid, i + d) == Without(was, gone + {was[k + d]})
    {
      hide Without, RemoveAt, Distinct;
      assert mid[i..][d] == was[k..][d];
      WithoutOneMore(was, gone, i + d);
    }

    lemma OnlyPlace(was: seq<QueuedPlayer>, p: nat)
      requires Distinct(was) && p < |was|
      ensures forall j :: 0 <= j < |was| && j != p ==> was[j] != was[p]
    {
    }

    lemma OthersDiffer(k: nat)
      requires Valid() && k < |list|
      ensures forall j :: 0 <= j < |list| && j != k ==> list[j] != list[k]
    {
    }

    lemma ValidDistinct()
      requires Valid()
      ensures Distinct(list)
    {
    }
  }
}
