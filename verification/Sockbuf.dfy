/** Socket buffers of src/common/net.c: a fixed array, the amount of data in it, and a read position. */
module Sockbufs {
  import opened Numbers
  import opened PacketCodec

  const SOCKBUF_WRITE_SPARE := 8

  /** What the network does with one datagram handed to send(). */
  datatype Delivery = Sent | WouldBlock | Refused

  class Sockbuf {
    const size: nat
    const buf: array<Byte>
    const writable: bool
    const readable: bool
    const locked: bool
    const datagram: bool
    var len: nat
    var ptr: nat

    ghost predicate Valid()
      reads this
    {
      buf.Length == size && ptr <= len <= size
    }

    ghost function Contents(): (s: seq<Byte>)
      requires Valid()
      reads this, buf
      ensures |s| == len
    {
      buf[..len]
    }

    constructor (size: nat, writable: bool, readable: bool, locked: bool, datagram: bool)
      ensures Valid() && fresh(buf) && Contents() == []
      ensures this.size == size && this.writable == writable && this.readable == readable
      ensures this.locked == locked && this.datagram == datagram
    {
      this.size, this.writable, this.readable := size, writable, readable;
      this.locked, this.datagram := locked, datagram;
      buf := new Byte[size](_ => 0);
      len, ptr := 0, 0;
    }

    method Clear()
      requires Valid()
      modifies this
      ensures Valid() && Contents() == [] && ptr == 0
    {
      len, ptr := 0, 0;
    }

    /** Drops the first n bytes; the read position keeps pointing at the same byte if it survives. */
    method Advance(n: int)
      requires Valid()
      modifies this, buf
      ensures Valid()
      ensures n <= 0 ==> Contents() == old(Contents()) && ptr == old(ptr)
      ensures 0 < n < old(len) ==> Contents() == old(Contents())[n..]
      ensures n >= old(len) && n > 0 ==> Contents() == []
      ensures n > 0 ==> ptr == if n < old(len) && old(ptr) > n then old(ptr) - n else 0
    {
      if n <= 0 {
      } else if n >= len {
        len, ptr := 0, 0;
      } else {
        forall k | 0 <= k < len - n { buf[k] := buf[k + n]; }
        len := len - n;
        if ptr <= n {
          ptr := 0;
        } else {
          ptr := ptr - n;
        }
      }
    }

    /** Appends all of data or nothing. */
    method Write(data: seq<Byte>) returns (n: int)
      requires Valid() && (locked || datagram)
      modifies this`len, buf
      ensures Valid()
      ensures if writable && |data| <= size - old(len)
              then n == |data| && Contents() == old(Contents()) + data
              else n == -1 && Contents() == old(Contents())
    {
      if !writable || size - len < |data| {
        return -1;
      }
      Store(data);
      n := |data|;
    }

    /** Stores bytes at the end of a buffer that is known to have room. */
    method Store(data: seq<Byte>)
      requires Valid() && len + |data| <= size
      modifies this`len, buf
      ensures Valid() && Contents() == old(Contents()) + data
    {
      forall k | 0 <= k < |data| { buf[len + k] := data[k]; }
      len := len + |data|;
    }

    /** Sends the whole buffer as one datagram; `wire` is what reached the network. */
    method Flush(net: Delivery) returns (n: int, wire: seq<seq<Byte>>)
      requires Valid() && datagram
      modifies this
      ensures Valid()
      ensures writable && !locked && old(len) > 0 ==> Contents() == [] && ptr == 0
      ensures !(writable && !locked && old(len) > 0) ==> len == old(len) && ptr == old(ptr)
      ensures writable && !locked && old(len) > 0 && net.Sent? ==> n == old(len) && wire == [old(Contents())]
      ensures !(writable && !locked && old(len) > 0 && net.Sent?) ==> wire == []
      ensures !(writable && !locked && old(len) > 0 && net.Sent?) ==>
                n == if writable && !locked && (old(len) == 0 || net.WouldBlock?) then 0 else -1
    {
      wire := [];
      if !writable || locked {
        return -1, wire;
      }
      if len <= 0 {
        return 0, wire;
      }
      match net {
        case Sent => wire, n := [buf[..len]], len;
        case WouldBlock => n := 0;
        case Refused => n := -1;
      }
      Clear();
    }

    // ----- Packet_printf -----

    method PutNumber(pos: nat, v: int, width: nat)
      requires Valid() && width in {1, 2, 4} && pos + width <= size
      modifies buf
      ensures buf[..pos] == old(buf[..pos])
      ensures buf[pos..pos + width] == BigEndian(v, width)
    {
      if width == 4 {
        buf[pos] := (v / 0x100_0000) % 256;
        buf[pos + 1] := (v / 0x1_0000) % 256;
        buf[pos + 2] := (v / 0x100) % 256;
        buf[pos + 3] := v % 256;
        assert BigEndian(v, 4) == BigEndian(v / 0x1_0000, 2) + [v / 256 % 256] + [v % 256];
      } else if width == 2 {
        buf[pos] := (v / 0x100) % 256;
        buf[pos + 1] := v % 256;
      } else {
        buf[pos] := v % 256;
      }
    }

    method PutText(start: nat, s: CString, stop: nat) returns (pos: nat)
      requires Valid() && start <= stop <= size
      modifies buf
      ensures buf[..start] == old(buf[..start])
      ensures pos == start + Min(|s| + 1, stop - start)
      ensures buf[start..pos] == Text(s, stop - start)
    {
      pos := start;
      var more := true;
      while more && pos < stop
        invariant start <= pos <= stop && pos - start <= |s| + 1
        invariant more <==> pos - start < |s| + 1
        invariant buf[..start] == old(buf[..start])
        invariant buf[start..pos] == (s + [0])[..pos - start]
        decreases stop - pos
      {
        var c := if pos - start < |s| then s[pos - start] else 0;
        buf[pos] := c;
        assert buf[start..pos + 1] == buf[start..pos] + [c];
        pos := pos + 1;
        more := c != 0;
      }
    }

    /** One conversion: writes it at `start` or finds that there is no room. */
    method PutOne(conv: Conv, arg: Arg, start: nat, end: nat) returns (ok: bool, pos: nat)
      requires Valid() && start <= size && end <= size && (IsText(conv) <==> arg.Str?)
      modifies buf
      ensures buf[..start] == old(buf[..start])
      ensures ok <==> EncodeOne(conv, arg, start, end).Done?
      ensures ok ==> start <= pos <= size && buf[start..pos] == EncodeOne(conv, arg, start, end).bytes
    {
      ok, pos := true, start;
      if IsText(conv) {
        var stop := if start + Limit(conv) >= end then end else start + Limit(conv);
        if start > stop {
          ok := false;
        } else {
          pos := PutText(start, arg.s, stop);
        }
      } else if start + Width(conv) >= end {
        ok := false;
      } else {
        PutNumber(start, arg.n, Width(conv));
        pos := start + Width(conv);
      }
    }

    /** The end of the space a print may use. */
    function Limited(lastOfFrame: bool): int {
      if lastOfFrame then size else size - SOCKBUF_WRITE_SPARE
    }

    /** Packet_printf: appends the whole packet, or leaves the buffer's contents alone. */
    method Printf(fmt: string, args: seq<Arg>, lastOfFrame: bool) returns (count: int)
      requires Valid() && size >= SOCKBUF_WRITE_SPARE && Matches(fmt, 0, args)
      modifies this`len, buf
      ensures Valid()
      ensures match Print(fmt, 0, args, old(len), Limited(lastOfFrame))
              case Done(b) => count == |b| && Contents() == old(Contents()) + b
              case NoRoom => count == (if datagram then 0 else -1) && Contents() == old(Contents())
              case BadFormat => count == -1 && Contents() == old(Contents())
    {
      hide EncodeOne, Lex, Print, Matches;
      var end: nat := Limited(lastOfFrame);
      var i, pos, rest := 0, len, args;
      var failure := 0; // 1: format, 3: size
      ghost var goal := Print(fmt, 0, args, len, end);
      assert goal == Prepend([], goal);
      while failure == 0 && i < |fmt|
        invariant i <= |fmt| && len <= pos <= size && Matches(fmt, i, rest)
        invariant buf[..len] == old(Contents())
        invariant failure == 0 ==> goal == Prepend(buf[len..pos], Print(fmt, i, rest, pos, end))
        invariant failure == 1 ==> goal.BadFormat?
        invariant failure == 3 ==> goal.NoRoom?
        invariant failure in {0, 1, 3}
        decreases |fmt| - i, failure == 0
      {
        PrintStep(fmt, i, rest, pos, end, buf[len..pos]);
        match Lex(fmt, i) {
          case Bad(room) =>
            failure := if room > 0 && pos + room >= end then 3 else 1;
          case Good(conv, next) =>
            ghost var prior := buf[..pos];
            Parts(prior, len, pos);
            var ok, after := PutOne(conv, rest[0], pos, end);
            Parts(prior, len, pos);
            if ok {
              Together(len, pos, after);
              i, pos, rest := next, after, rest[1..];
            } else {
              failure := 3;
            }
        }
      }
      PrintStep(fmt, i, rest, pos, end, buf[len..pos]);
      if failure != 0 {
        return if failure == 3 && datagram then 0 else -1;
      }
      count := pos - len;
      Together(0, len, pos);
      len := pos;
    }

    lemma Parts(prior: seq<Byte>, i: nat, j: nat)
      requires i <= j <= buf.Length && buf[..j] == prior
      ensures buf[..i] == prior[..i] && buf[i..j] == prior[i..]
    {
    }

    lemma Together(i: nat, j: nat, k: nat)
      requires i <= j <= k <= buf.Length
      ensures buf[i..k] == buf[i..j] + buf[j..k] && buf[0..j] == buf[..j] && buf[0..k] == buf[..k]
    {
    }

    // ----- Packet_scanf -----

    /** Reads text at position j; `failed` is set when input runs out or the string is too long. */
    method GetText(j: nat, max: nat) returns (t: TextScan)
      requires Valid() && j <= len && max > 0
      ensures t == ScanText(Contents(), j, max)
    {
      hide ScanText;
      var k: nat := 0;
      var str: CString := [];
      ghost var goal := ScanText(Contents(), j, max);
      assert goal == AfterText([], goal);
      while true
        invariant k < max && j + k <= len
        invariant goal == AfterText(str, ScanText(Contents(), j + k, max - k))
        decreases max - k
      {
        TextStep(Contents(), j + k, max - k, str);
        if j + k >= len { return TextShort; }
        var c := buf[j + k];
        if c == 0 { return GotText(str); }
        if k + 1 >= max { return TextTooLong; }
        k, str := k + 1, str + [c];
      }
    }

    method GetNumber(conv: Conv, j: nat) returns (v: int)
      requires Valid() && !IsText(conv) && j + Width(conv) <= len
      ensures v == DecodeNumber(conv, Contents()[j..j + Width(conv)])
    {
      hide BigEndianValue;
      var w := Width(conv);
      var m: int := 0;
      ValueNone(Contents()[j..j]);
      for k := 0 to w
        invariant m == BigEndianValue(Contents()[j..j + k])
      {
        ValueNext(Contents()[j..j + k], buf[j + k]);
        assert Contents()[j..j + k + 1] == Contents()[j..j + k] + [buf[j + k]];
        m := m * 256 + buf[j + k];
      }
      v := if Signed(conv) then ToSigned(m, w) else m;
    }

    method GetOne(conv: Conv, j: nat) returns (r: Scanned)
      requires Valid() && j <= len
      ensures r == DecodeOne(conv, Contents(), j)
    {
      if IsText(conv) {
        var t := GetText(j, Limit(conv));
        match t {
          case GotText(s) => r := Read([Str(s)], j + |s| + 1);
          case TextShort => r := TooShort;
          case TextTooLong => r := TooLong;
        }
      } else if len < j + Width(conv) {
        r := TooShort;
      } else {
        var v := GetNumber(conv, j);
        r := Read([Num(v)], j + Width(conv));
      }
    }

    /** Packet_scanf: reads a whole packet and moves past it, or does not move. */
    method Scanf(fmt: string) returns (count: int, vals: seq<Arg>)
      requires Valid() && (locked || datagram)
      modifies this`ptr
      ensures Valid()
      ensures match Scan(fmt, 0, Contents(), old(ptr))
              case Read(vs, next) => count == |vs| && vals == vs && ptr == next
              case TooShort => count == 0 && ptr == old(ptr)
              case TooLong => count == (if locked then -1 else 0) && ptr == old(ptr)
              case BadScan => count == -1 && ptr == old(ptr)
    {
      hide Scan, DecodeOne, Lex;
      var i, j := 0, ptr;
      vals := [];
      ghost var goal := Scan(fmt, 0, Contents(), ptr);
      assert goal == Follow([], goal);
      while i < |fmt|
        invariant i <= |fmt| && ptr == old(ptr) <= j <= len
        invariant goal == Follow(vals, Scan(fmt, i, Contents(), j))
        decreases |fmt| - i
      {
        ScanStep(fmt, i, Contents(), j, vals);
        match Lex(fmt, i) {
          case Bad(room) =>
            return if len < j + room then 0 else -1, vals;
          case Good(conv, next) =>
            var one := GetOne(conv, j);
            match one {
              case Read(v, at) =>
                i, j, vals := next, at, vals + v;
              case TooLong => return if locked then -1 else 0, vals;
              case _ => return 0, vals;
            }
        }
      }
      ScanStep(fmt, i, Contents(), j, vals);
      ptr := j;
      count := |vals|;
    }
  }
}
