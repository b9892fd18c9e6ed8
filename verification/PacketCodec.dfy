/** The wire format of src/common/net.c: what Packet_printf appends for a format string and what
    Packet_scanf reads back.  Formats are the C format strings themselves; a format is walked by
    character index exactly as the two C loops do. */
module PacketCodec {
  import opened Numbers

  type Byte = x: int | 0 <= x < 256

  /** A C string: the terminating nul is not part of it. */
  type CString = s: seq<Byte> | 0 !in s

  const MAX_CHARS := 80
  const MSG_LEN := 256

  datatype Conv = Char | Int | UInt | Short | UShort | Long | ULong | Small | Big

  datatype Arg = Num(n: int) | Str(s: CString)

  // ----- Lexing a format -----

  /** `Good` is a complete conversion; `Bad(room)` is a format error that is only noticed after
      room for `room` bytes has been checked. */
  datatype Lexeme = Good(conv: Conv, next: nat) | Bad(room: nat)

  function At(fmt: string, i: nat): char {
    if i < |fmt| then fmt[i] else '\0'
  }

  function Lex(fmt: string, i: nat): (l: Lexeme)
    requires i < |fmt|
    ensures l.Good? ==> i < l.next <= |fmt|
  {
    if fmt[i] != '%' then Bad(0) else
    match At(fmt, i + 1)
    case 'c' => Good(Char, i + 2)
    case 'd' => Good(Int, i + 2)
    case 'u' => Good(UInt, i + 2)
    case 'h' => (match At(fmt, i + 2) case 'd' => Good(Short, i + 3) case 'u' => Good(UShort, i + 3) case _ => Bad(2))
    case 'l' => (match At(fmt, i + 2) case 'd' => Good(Long, i + 3) case 'u' => Good(ULong, i + 3) case _ => Bad(4))
    case 's' => Good(Small, i + 2)
    case 'S' => Good(Big, i + 2)
    case _ => Bad(0)
  }

  predicate IsText(c: Conv) { c.Small? || c.Big? }

  function Width(c: Conv): nat
    requires !IsText(c)
  {
    match c
    case Char => 1
    case Short => 2
    case UShort => 2
    case _ => 4
  }

  function Limit(c: Conv): nat
    requires IsText(c)
  {
    if c.Big? then MSG_LEN else MAX_CHARS
  }

  /** The variadic arguments have the types the format asks for. */
  predicate Matches(fmt: string, i: nat, args: seq<Arg>)
    requires i <= |fmt|
    decreases |fmt| - i
  {
    i == |fmt| ||
    match Lex(fmt, i)
    case Bad(_) => true
    case Good(conv, next) => args != [] && (IsText(conv) <==> args[0].Str?) && Matches(fmt, next, args[1..])
  }

  // ----- Encoding -----

  function Pow256(n: nat): (p: int)
    ensures p > 0
  {
    if n == 0 then 1 else 256 * Pow256(n - 1)
  }

  /** The low n bytes of v, most significant first; v may be negative (two's complement). */
  function BigEndian(v: int, n: nat): (b: seq<Byte>)
    ensures |b| == n
    decreases n
  {
    if n == 0 then [] else BigEndian(v / 256, n - 1) + [v % 256]
  }

  /** The bytes of a string with its nul, cut at the first of the two limits. */
  function Text(s: CString, room: nat): (b: seq<Byte>)
    ensures |b| == Min(|s| + 1, room)
  {
    (s + [0])[..Min(|s| + 1, room)]
  }

  /** Space for text at position pos: up to the string limit, never past end. */
  function TextRoom(c: Conv, pos: nat, end: int): int
    requires IsText(c)
  {
    if pos + Limit(c) >= end then end - pos else Limit(c)
  }

  datatype Printed = Done(bytes: seq<Byte>) | NoRoom | BadFormat

  function Prepend(b: seq<Byte>, p: Printed): Printed {
    if p.Done? then Done(b + p.bytes) else p
  }

  /** What Packet_printf puts at position pos for one conversion. */
  function EncodeOne(conv: Conv, arg: Arg, pos: nat, end: int): (p: Printed)
    requires IsText(conv) <==> arg.Str?
    ensures !p.BadFormat?
  {
    if IsText(conv) then
      if TextRoom(conv, pos, end) < 0 then NoRoom else Done(Text(arg.s, TextRoom(conv, pos, end)))
    else if pos + Width(conv) >= end then NoRoom
    else Done(BigEndian(arg.n, Width(conv)))
  }

  function Print(fmt: string, i: nat, args: seq<Arg>, pos: nat, end: int): Printed
    requires i <= |fmt| && Matches(fmt, i, args)
    decreases |fmt| - i
  {
    if i == |fmt| then Done([]) else
    match Lex(fmt, i)
    case Bad(room) => if room > 0 && pos + room >= end then NoRoom else BadFormat
    case Good(conv, next) =>
      var one := EncodeOne(conv, args[0], pos, end);
      if one.NoRoom? then NoRoom
      else Prepend(one.bytes, Print(fmt, next, args[1..], pos + |one.bytes|, end))
  }

  // ----- Decoding -----

  function BigEndianValue(b: seq<Byte>): (v: int)
    ensures v >= 0
  {
    if b == [] then 0 else BigEndianValue(b[..|b| - 1]) * 256 + b[|b| - 1]
  }

  predicate Signed(c: Conv) { c.Int? || c.Short? || c.Long? }

  /** Two's complement reading of v modulo 256^n. */
  function ToSigned(v: int, n: nat): int {
    var m := v % Pow256(n);
    if 2 * m >= Pow256(n) then m - Pow256(n) else m
  }

  function DecodeNumber(conv: Conv, b: seq<Byte>): int
    requires !IsText(conv) && |b| == Width(conv)
  {
    if Signed(conv) then ToSigned(BigEndianValue(b), Width(conv)) else BigEndianValue(b)
  }

  datatype Scanned = Read(vals: seq<Arg>, next: nat) | TooShort | TooLong | BadScan

  datatype TextScan = GotText(s: CString) | TextShort | TextTooLong

  /** Reads from position j up to and including a nul; at most max bytes. */
  function ScanText(data: seq<Byte>, j: nat, max: nat): (t: TextScan)
    requires j <= |data| && max > 0
    ensures t.GotText? ==> j + |t.s| < |data| && |t.s| < max
    decreases max
  {
    if j == |data| then TextShort
    else if data[j] == 0 then GotText([])
    else if max == 1 then TextTooLong
    else match ScanText(data, j + 1, max - 1)
      case GotText(s) => GotText([data[j]] + s)
      case other => other
  }

  function AfterText(before: CString, t: TextScan): TextScan {
    if t.GotText? then GotText(before + t.s) else t
  }

  /** What Packet_scanf reads at position j for one conversion; `next` is the position after it. */
  function DecodeOne(conv: Conv, data: seq<Byte>, j: nat): (r: Scanned)
    requires j <= |data|
    ensures r.Read? ==> j <= r.next <= |data| && |r.vals| == 1
    ensures !r.BadScan?
  {
    if IsText(conv) then
      match ScanText(data, j, Limit(conv))
      case GotText(s) => Read([Str(s)], j + |s| + 1)
      case TextShort => TooShort
      case TextTooLong => TooLong
    else if |data| < j + Width(conv) then TooShort
    else Read([Num(DecodeNumber(conv, data[j..j + Width(conv)]))], j + Width(conv))
  }

  function Follow(first: seq<Arg>, rest: Scanned): Scanned {
    if rest.Read? then Read(first + rest.vals, rest.next) else rest
  }

  function Scan(fmt: string, i: nat, data: seq<Byte>, j: nat): (r: Scanned)
    requires i <= |fmt| && j <= |data|
    ensures r.Read? ==> j <= r.next <= |data|
    decreases |fmt| - i
  {
    if i == |fmt| then Read([], j) else
    match Lex(fmt, i)
    case Bad(room) => if |data| < j + room then TooShort else BadScan
    case Good(conv, next) =>
      var one := DecodeOne(conv, data, j);
      if !one.Read? then one else Follow(one.vals, Scan(fmt, next, data, one.next))
  }

  // ----- What a round trip must give back -----

  /** A number as the reader's variable holds it: modulo the field width, with the field's sign. */
  function Normal(conv: Conv, arg: Arg): Arg
    requires IsText(conv) <==> arg.Str?
  {
    if arg.Str? then arg
    else if Signed(conv) then Num(ToSigned(arg.n, Width(conv)))
    else Num(arg.n % Pow256(Width(conv)))
  }

  function NormalArgs(fmt: string, i: nat, args: seq<Arg>): seq<Arg>
    requires i <= |fmt| && Matches(fmt, i, args)
    decreases |fmt| - i
  {
    if i == |fmt| then [] else
    match Lex(fmt, i)
    case Bad(_) => []
    case Good(conv, next) => [Normal(conv, args[0])] + NormalArgs(fmt, next, args[1..])
  }

  /** No string is cut: each one, with its nul, is within its limit and the space left. */
  predicate StringsWhole(fmt: string, i: nat, args: seq<Arg>, pos: nat, end: int)
    requires i <= |fmt| && Matches(fmt, i, args)
    decreases |fmt| - i
  {
    i == |fmt| ||
    match Lex(fmt, i)
    case Bad(_) => true
    case Good(conv, next) =>
      && (IsText(conv) ==> |args[0].s| < TextRoom(conv, pos, end))
      && (var one := EncodeOne(conv, args[0], pos, end);
          one.Done? ==> StringsWhole(fmt, next, args[1..], pos + |one.bytes|, end))
  }

  // ----- Lemmas -----

  lemma {:induction false} BigEndianRoundTrip(v: int, n: nat)
    ensures BigEndianValue(BigEndian(v, n)) == v % Pow256(n)
    decreases n
  {
    if n > 0 {
      var b := BigEndian(v, n);
      assert b[..n - 1] == BigEndian(v / 256, n - 1);
      BigEndianRoundTrip(v / 256, n - 1);
      DivModSplit(v, Pow256(n - 1));
    }
  }

  lemma DivModSplit(v: int, p: int)
    requires p > 0
    ensures (v / 256) % p * 256 + v % 256 == v % (256 * p)
  {
    var q, r := v / 256, v % 256;
    var a, m := q / p, q % p;
    assert v == 256 * (a * p + m) + r;
    assert v == a * (256 * p) + (m * 256 + r) by { assert 256 * (a * p) == a * (256 * p); }
    assert 0 <= m * 256 + r < 256 * p;
    RemainderUnique(v, 256 * p, a, m * 256 + r);
  }

  lemma RemainderUnique(v: int, d: int, q: int, r: int)
    requires d > 0 && v == q * d + r && 0 <= r < d
    ensures v % d == r
  {
    var k := q - v / d;
    assert k * d == v % d - r;
    assert k >= 1 ==> k * d >= d;
    assert k <= -1 ==> k * d <= -d;
  }

  lemma SignedOfRemainder(v: int, n: nat)
    ensures ToSigned(v % Pow256(n), n) == ToSigned(v, n)
  {
    var m := v % Pow256(n);
    RemainderUnique(m, Pow256(n), 0, m);
  }

  lemma NumberRoundTrip(conv: Conv, v: int)
    requires !IsText(conv)
    ensures Num(DecodeNumber(conv, BigEndian(v, Width(conv)))) == Normal(conv, Num(v))
  {
    BigEndianRoundTrip(v, Width(conv));
    SignedOfRemainder(v, Width(conv));
  }

  /** b lies in data at position j. */
  predicate Holds(data: seq<Byte>, j: nat, b: seq<Byte>) {
    j + |b| <= |data| && data[j..j + |b|] == b
  }

  lemma HoldsSplit(data: seq<Byte>, j: nat, b: seq<Byte>, c: seq<Byte>)
    requires Holds(data, j, b + c)
    ensures Holds(data, j, b) && Holds(data, j + |b|, c)
  {
    assert b == (b + c)[..|b|] && c == (b + c)[|b|..];
  }

  lemma {:induction false} TextRoundTrip(s: CString, data: seq<Byte>, j: nat, max: nat)
    requires |s| < max && Holds(data, j, s + [0])
    ensures ScanText(data, j, max) == GotText(s)
    decreases max
  {
    assert data[j] == (s + [0])[0];
    if s != [] {
      assert s == [s[0]] + s[1..];
      assert s + [0] == [s[0]] + (s[1..] + [0]);
      HoldsSplit(data, j, [s[0]], s[1..] + [0]);
      TextRoundTrip(s[1..], data, j + 1, max - 1);
    }
  }

  /** Text without a nul in the next max bytes is never accepted. */
  lemma {:induction false} TextCut(data: seq<Byte>, j: nat, max: nat)
    requires j <= |data| && max > 0 && forall k :: j <= k < |data| && k < j + max ==> data[k] != 0
    ensures !ScanText(data, j, max).GotText?
    decreases max
  {
    if j < |data| && max > 1 {
      TextCut(data, j + 1, max - 1);
    }
  }

  lemma TextWhole(s: CString, room: nat)
    requires |s| < room
    ensures Text(s, room) == s + [0]
  {
  }

  lemma OneTextRoundTrip(conv: Conv, s: CString, pos: nat, end: int, data: seq<Byte>, j: nat)
    requires IsText(conv) && |s| < TextRoom(conv, pos, end) && Holds(data, j, EncodeOne(conv, Str(s), pos, end).bytes)
    ensures DecodeOne(conv, data, j) == Read([Str(s)], j + |EncodeOne(conv, Str(s), pos, end).bytes|)
  {
    hide ScanText, Text;
    TextWhole(s, TextRoom(conv, pos, end));
    TextRoundTrip(s, data, j, Limit(conv));
  }

  lemma OneNumberRoundTrip(conv: Conv, v: int, pos: nat, end: int, data: seq<Byte>, j: nat)
    requires !IsText(conv) && EncodeOne(conv, Num(v), pos, end).Done?
    requires Holds(data, j, EncodeOne(conv, Num(v), pos, end).bytes)
    ensures DecodeOne(conv, data, j) == Read([Normal(conv, Num(v))], j + |EncodeOne(conv, Num(v), pos, end).bytes|)
  {
    hide DecodeNumber, BigEndian, Normal;
    NumberRoundTrip(conv, v);
  }

  lemma OneRoundTrip(conv: Conv, arg: Arg, pos: nat, end: int, data: seq<Byte>, j: nat)
    requires IsText(conv) <==> arg.Str?
    requires EncodeOne(conv, arg, pos, end).Done?
    requires IsText(conv) ==> |arg.s| < TextRoom(conv, pos, end)
    requires Holds(data, j, EncodeOne(conv, arg, pos, end).bytes)
    ensures DecodeOne(conv, data, j) == Read([Normal(conv, arg)], j + |EncodeOne(conv, arg, pos, end).bytes|)
  {
    hide EncodeOne, DecodeOne, Holds, ToSigned;
    if IsText(conv) {
      OneTextRoundTrip(conv, arg.s, pos, end, data, j);
    } else {
      OneNumberRoundTrip(conv, arg.n, pos, end, data, j);
    }
  }

  /** Scanning what Packet_printf wrote gives the same values back and consumes exactly those
      bytes, whatever surrounds them, as long as no string was cut. */
  lemma {:induction false} RoundTrip(fmt: string, i: nat, args: seq<Arg>, pos: nat, end: int, data: seq<Byte>, j: nat)
    requires i <= |fmt| && Matches(fmt, i, args)
    requires Print(fmt, i, args, pos, end).Done? && StringsWhole(fmt, i, args, pos, end)
    requires Holds(data, j, Print(fmt, i, args, pos, end).bytes)
    ensures Scan(fmt, i, data, j) == Read(NormalArgs(fmt, i, args), j + |Print(fmt, i, args, pos, end).bytes|)
    decreases |fmt| - i
  {
    hide EncodeOne, DecodeOne;
    if i < |fmt| {
      var l := Lex(fmt, i);
      var one := EncodeOne(l.conv, args[0], pos, end).bytes;
      var rest := Print(fmt, l.next, args[1..], pos + |one|, end).bytes;
      HoldsSplit(data, j, one, rest);
      OneRoundTrip(l.conv, args[0], pos, end, data, j);
      RoundTrip(fmt, l.next, args[1..], pos + |one|, end, data, j + |one|);
    }
  }

  /** A string is cut only at its own limit or at the end of the buffer; in the second case
      nothing at all follows it in the packet. */
  lemma {:induction false} NothingAfterEnd(fmt: string, i: nat, args: seq<Arg>, pos: nat, end: int)
    requires i <= |fmt| && Matches(fmt, i, args) && pos >= end
    requires Print(fmt, i, args, pos, end).Done?
    ensures Print(fmt, i, args, pos, end).bytes == []
    decreases |fmt| - i
  {
    if i < |fmt| {
      var l := Lex(fmt, i);
      var one := EncodeOne(l.conv, args[0], pos, end).bytes;
      assert one == [];
      NothingAfterEnd(fmt, l.next, args[1..], pos, end);
    }
  }

  lemma CutLength(conv: Conv, arg: Arg, pos: nat, end: int)
    requires IsText(conv) && arg.Str? && TextRoom(conv, pos, end) <= |arg.s|
    requires EncodeOne(conv, arg, pos, end).Done?
    ensures |EncodeOne(conv, arg, pos, end).bytes| == TextRoom(conv, pos, end)
  {
  }

  /** A cut string fills the space up to its limit or to the end, and is not read back. */
  lemma OneCut(conv: Conv, arg: Arg, pos: nat, end: int, data: seq<Byte>, j: nat)
    requires IsText(conv) && arg.Str? && 0 <= TextRoom(conv, pos, end) <= |arg.s|
    requires Holds(data, j, EncodeOne(conv, arg, pos, end).bytes)
    ensures var one := EncodeOne(conv, arg, pos, end).bytes;
            (pos + Limit(conv) < end || j + |one| == |data| ==> !DecodeOne(conv, data, j).Read?)
  {
    var one := EncodeOne(conv, arg, pos, end).bytes;
    forall k | j <= k < j + |one| ensures data[k] != 0 {
      assert data[k] == one[k - j] == arg.s[k - j];
    }
    if pos + Limit(conv) < end || j + |one| == |data| {
      TextCut(data, j, Limit(conv));
    }
  }

  /** Conversely, a packet holding a cut string can not be scanned at all. */
  lemma {:induction false} CutStringUnreadable(fmt: string, i: nat, args: seq<Arg>, pos: nat, end: int,
                                               data: seq<Byte>, j: nat)
    requires i <= |fmt| && Matches(fmt, i, args)
    requires Print(fmt, i, args, pos, end).Done? && !StringsWhole(fmt, i, args, pos, end)
    requires Holds(data, j, Print(fmt, i, args, pos, end).bytes)
    requires j + |Print(fmt, i, args, pos, end).bytes| == |data|
    ensures Scan(fmt, i, data, j).TooShort? || Scan(fmt, i, data, j).TooLong?
    decreases |fmt| - i
  {
    hide EncodeOne, DecodeOne;
    var l := Lex(fmt, i);
    var one := EncodeOne(l.conv, args[0], pos, end).bytes;
    var rest := Print(fmt, l.next, args[1..], pos + |one|, end).bytes;
    HoldsSplit(data, j, one, rest);
    if IsText(l.conv) && |args[0].s| >= TextRoom(l.conv, pos, end) {
      CutLength(l.conv, args[0], pos, end);
      if pos + Limit(l.conv) >= end {
        NothingAfterEnd(fmt, l.next, args[1..], pos + |one|, end);
      }
      OneCut(l.conv, args[0], pos, end, data, j);
    } else {
      OneRoundTrip(l.conv, args[0], pos, end, data, j);
      CutStringUnreadable(fmt, l.next, args[1..], pos + |one|, end, data, j + |one|);
    }
  }

  /** The exact condition for a packet to survive: printing then scanning gives the arguments back
      (modulo field width) if and only if no string was cut. */
  lemma RoundTripExact(fmt: string, args: seq<Arg>, pos: nat, end: int)
    requires Matches(fmt, 0, args) && Print(fmt, 0, args, pos, end).Done?
    ensures var b := Print(fmt, 0, args, pos, end).bytes;
            Scan(fmt, 0, b, 0) == Read(NormalArgs(fmt, 0, args), |b|) <==> StringsWhole(fmt, 0, args, pos, end)
  {
    var b := Print(fmt, 0, args, pos, end).bytes;
    assert Holds(b, 0, b);
    if StringsWhole(fmt, 0, args, pos, end) {
      RoundTrip(fmt, 0, args, pos, end, b, 0);
    } else {
      CutStringUnreadable(fmt, 0, args, pos, end, b, 0);
    }
  }

  /** Three letters printed three bytes before the end of the space lose their nul, and are not read back. */
  lemma CutStringShown()
    ensures Matches("%s", 0, [Str([65, 66, 67])]) && Print("%s", 0, [Str([65, 66, 67])], 4085, 4088) == Done([65, 66, 67])
    ensures Scan("%s", 0, [65, 66, 67], 0).TooShort?
  {
    var f, args := "%s", [Str([65, 66, 67])];
    assert Lex(f, 0) == Good(Small, 2) && |f| == 2;
    assert Matches(f, 2, args[1..]) && Print(f, 2, args[1..], 4088, 4088) == Done([]);
    var text: CString := [65, 66, 67];
    assert Text(text, 3) == [65, 66, 67];
    NoNulIsShort([65, 66, 67], 0, MAX_CHARS);
  }

  /** Text without a nul that ends before the limit is found too short. */
  lemma {:induction false} NoNulIsShort(data: seq<Byte>, j: nat, max: nat)
    requires j <= |data| < j + max && 0 !in data
    ensures ScanText(data, j, max).TextShort?
    decreases max
  {
    if j < |data| { NoNulIsShort(data, j + 1, max - 1); }
  }

  /** One step of the printing loop, with `before` already written. */
  lemma PrintStep(fmt: string, i: nat, args: seq<Arg>, pos: nat, end: int, before: seq<Byte>)
    requires i <= |fmt| && Matches(fmt, i, args)
    ensures i == |fmt| ==> Prepend(before, Print(fmt, i, args, pos, end)) == Done(before)
    ensures i < |fmt| && Lex(fmt, i).Bad? ==>
              Print(fmt, i, args, pos, end)
              == if Lex(fmt, i).room > 0 && pos + Lex(fmt, i).room >= end then NoRoom else BadFormat
    ensures i < |fmt| && Lex(fmt, i).Good? ==>
              args != [] && (IsText(Lex(fmt, i).conv) <==> args[0].Str?) && Matches(fmt, Lex(fmt, i).next, args[1..])
    ensures i < |fmt| && Lex(fmt, i).Good? ==>
              var one := EncodeOne(Lex(fmt, i).conv, args[0], pos, end);
              if one.NoRoom? then Print(fmt, i, args, pos, end).NoRoom?
              else Prepend(before, Print(fmt, i, args, pos, end))
                   == Prepend(before + one.bytes,
                              Print(fmt, Lex(fmt, i).next, args[1..], pos + |one.bytes|, end))
  {
    hide EncodeOne;
    if i < |fmt| && Lex(fmt, i).Good? {
      var one := EncodeOne(Lex(fmt, i).conv, args[0], pos, end);
      if one.Done? {
        var rest := Print(fmt, Lex(fmt, i).next, args[1..], pos + |one.bytes|, end);
        if rest.Done? {
          assert before + (one.bytes + rest.bytes) == (before + one.bytes) + rest.bytes;
        }
      }
    }
  }

  /** One step of the text loop, with the characters `before` already read. */
  lemma TextStep(data: seq<Byte>, j: nat, max: nat, before: CString)
    requires j <= |data| && max > 0
    ensures j == |data| ==> ScanText(data, j, max) == TextShort
    ensures j < |data| && data[j] == 0 ==> AfterText(before, ScanText(data, j, max)) == GotText(before)
    ensures j < |data| && data[j] != 0 && max == 1 ==> ScanText(data, j, max) == TextTooLong
    ensures j < |data| && data[j] != 0 && max > 1 ==>
              AfterText(before, ScanText(data, j, max)) == AfterText(before + [data[j]], ScanText(data, j + 1, max - 1))
  {
    if j < |data| && data[j] != 0 && max > 1 {
      var more := ScanText(data, j + 1, max - 1);
      if more.GotText? {
        assert before + ([data[j]] + more.s) == (before + [data[j]]) + more.s;
      }
    }
  }

  /** One step of the scanning loop, with the values `before` already read. */
  lemma ScanStep(fmt: string, i: nat, data: seq<Byte>, j: nat, before: seq<Arg>)
    requires i <= |fmt| && j <= |data|
    ensures i == |fmt| ==> Follow(before, Scan(fmt, i, data, j)) == Read(before, j)
    ensures i < |fmt| && Lex(fmt, i).Bad? ==>
              Scan(fmt, i, data, j) == if |data| < j + Lex(fmt, i).room then TooShort else BadScan
    ensures i < |fmt| && Lex(fmt, i).Good? ==>
              var one := DecodeOne(Lex(fmt, i).conv, data, j);
              if !one.Read? then Scan(fmt, i, data, j) == one
              else Follow(before, Scan(fmt, i, data, j))
                   == Follow(before + one.vals, Scan(fmt, Lex(fmt, i).next, data, one.next))
  {
    hide DecodeOne;
    if i < |fmt| && Lex(fmt, i).Good? {
      var one := DecodeOne(Lex(fmt, i).conv, data, j);
      if one.Read? {
        var rest := Scan(fmt, Lex(fmt, i).next, data, one.next);
        if rest.Read? {
          assert before + (one.vals + rest.vals) == (before + one.vals) + rest.vals;
        }
      }
    }
  }

  lemma ValueNone(b: seq<Byte>)
    ensures b == [] ==> BigEndianValue(b) == 0
  {
  }

  lemma ValueNext(b: seq<Byte>, c: Byte)
    ensures BigEndianValue(b + [c]) == BigEndianValue(b) * 256 + c
  {
    assert (b + [c])[..|b|] == b;
  }

  /** Printing keeps every byte below the given end. */
  lemma {:induction false} PrintStaysBelow(fmt: string, i: nat, args: seq<Arg>, pos: nat, end: int)
    requires i <= |fmt| && Matches(fmt, i, args) && pos <= end
    requires Print(fmt, i, args, pos, end).Done?
    ensures pos + |Print(fmt, i, args, pos, end).bytes| <= end
    decreases |fmt| - i
  {
    if i < |fmt| {
      var l := Lex(fmt, i);
      var one := EncodeOne(l.conv, args[0], pos, end).bytes;
      PrintStaysBelow(fmt, l.next, args[1..], pos + |one|, end);
    }
  }

  // ----- What the letters of a format mean -----

  /** The format has these letters at position i. */
  predicate Letters(fmt: string, i: nat, letters: string) {
    i + |letters| <= |fmt| && fmt[i..i + |letters|] == letters
  }

  lemma LettersAt(fmt: string, i: nat, letters: string)
    requires Letters(fmt, i, letters)
    ensures |letters| >= 2 ==> fmt[i] == letters[0] && fmt[i + 1] == letters[1]
    ensures |letters| >= 3 ==> fmt[i + 2] == letters[2]
  {
    var s := fmt[i..i + |letters|];
    if |letters| >= 2 { assert s[0] == fmt[i] && s[1] == fmt[i + 1]; }
    if |letters| >= 3 { assert s[2] == fmt[i + 2]; }
  }

  /** Text at most `most` bytes long, nul included, as it is printed and read back. */
  ghost predicate TextLetters(fmt: string, i: nat, letters: string, most: nat) {
    && i + |letters| <= |fmt|
    && (forall s: CString, rest: seq<Arg>, pos: nat, end: int ::
          |s| < most && pos + |s| < end && Matches(fmt, i + |letters|, rest) ==>
            PrintsText(fmt, i, letters, s, rest, pos, end))
    && (forall s: CString, data: seq<Byte>, j: nat ::
          |s| < most && Holds(data, j, s + [0]) ==> ScansText(fmt, i, letters, s, data, j))
    && (forall data: seq<Byte>, j: nat ::
          j + most <= |data| && (forall k :: j <= k < j + most ==> data[k] != 0) ==> TooMuchText(fmt, i, data, j))
  }

  /** The string is printed whole with its nul, and the rest of the format follows. */
  ghost predicate PrintsText(fmt: string, i: nat, letters: string, s: CString, rest: seq<Arg>, pos: nat, end: int)
    requires i + |letters| <= |fmt| && Matches(fmt, i + |letters|, rest)
  {
    i <= |fmt| && Matches(fmt, i, [Str(s)] + rest)
    && Print(fmt, i, [Str(s)] + rest, pos, end) == Prepend(s + [0], Print(fmt, i + |letters|, rest, pos + |s| + 1, end))
  }

  ghost predicate ScansText(fmt: string, i: nat, letters: string, s: CString, data: seq<Byte>, j: nat)
    requires i + |letters| <= |fmt| && Holds(data, j, s + [0])
  {
    i <= |fmt| && Scan(fmt, i, data, j) == Follow([Str(s)], Scan(fmt, i + |letters|, data, j + |s| + 1))
  }

  ghost predicate TooMuchText(fmt: string, i: nat, data: seq<Byte>, j: nat) {
    i <= |fmt| && j <= |data| && Scan(fmt, i, data, j).TooLong?
  }

  /** Text without a nul in the next max bytes is too long. */
  lemma {:induction false} TextTooLongExactly(data: seq<Byte>, j: nat, max: nat)
    requires max > 0 && j + max <= |data| && forall k :: j <= k < j + max ==> data[k] != 0
    ensures ScanText(data, j, max).TextTooLong?
    decreases max
  {
    if max > 1 { TextTooLongExactly(data, j + 1, max - 1); }
  }

  lemma TextMeaning(fmt: string, i: nat, letters: string, conv: Conv)
    requires Letters(fmt, i, letters) && IsText(conv) && i < |fmt| && Lex(fmt, i) == Good(conv, i + |letters|)
    ensures TextLetters(fmt, i, letters, Limit(conv))
  {
    forall s: CString, rest: seq<Arg>, pos: nat, end: int
      | |s| < Limit(conv) && pos + |s| < end && Matches(fmt, i + |letters|, rest)
      ensures PrintsText(fmt, i, letters, s, rest, pos, end)
    {
      var args := [Str(s)] + rest;
      assert args[1..] == rest;
      hide Lex, Text;
      TextWhole(s, TextRoom(conv, pos, end));
    }
    forall s: CString, data: seq<Byte>, j: nat | |s| < Limit(conv) && Holds(data, j, s + [0])
      ensures ScansText(fmt, i, letters, s, data, j)
    {
      hide Lex, ScanText;
      TextRoundTrip(s, data, j, Limit(conv));
    }
    forall data: seq<Byte>, j: nat | j + Limit(conv) <= |data| && (forall k :: j <= k < j + Limit(conv) ==> data[k] != 0)
      ensures TooMuchText(fmt, i, data, j)
    {
      hide Lex, ScanText;
      TextTooLongExactly(data, j, Limit(conv));
    }
  }

  /** "%s" is text of fewer than 80 bytes. */
  lemma PercentS(fmt: string, i: nat)
    requires Letters(fmt, i, "%s")
    ensures TextLetters(fmt, i, "%s", 80)
  {
    LettersAt(fmt, i, "%s");
    TextMeaning(fmt, i, "%s", Small);
  }

  /** "%S" is text of fewer than 256 bytes. */
  lemma PercentBigS(fmt: string, i: nat)
    requires Letters(fmt, i, "%S")
    ensures TextLetters(fmt, i, "%S", 256)
  {
    LettersAt(fmt, i, "%S");
    TextMeaning(fmt, i, "%S", Big);
  }

  /** A number of n bytes between low and high as it is printed and read back: values in this range, and bytes that make
      up the value modulo `size`, the most significant one first. */
  ghost predicate NumberLetters(fmt: string, i: nat, letters: string, n: nat, size: nat, low: int, high: int) {
    && i + |letters| <= |fmt|
    && (forall v: int, rest: seq<Arg>, pos: nat, end: int ::
          pos + n < end && Matches(fmt, i + |letters|, rest) ==> PrintsNumber(fmt, i, letters, n, size, v, rest, pos, end))
    && (forall v: int, b: seq<Byte>, data: seq<Byte>, j: nat ::
          low <= v <= high && |b| == n && n > 0 && Spelled(b, v, size) && Holds(data, j, b) ==>
            ScansNumber(fmt, i, letters, n, v, data, j))
  }

  /** The bytes are those of v modulo size. */
  predicate Spelled(b: seq<Byte>, v: int, size: nat) {
    size > 0 && v % size == Together(b)
  }

  /** The number that one, two or four bytes make up. */
  function Together(b: seq<Byte>): int {
    if |b| == 1 then b[0]
    else if |b| == 2 then var x: int, y: int := b[0], b[1]; 256 * x + y
    else if |b| == 4 then
      var x: int, y: int, z: int, u: int := b[0], b[1], b[2], b[3]; 16777216 * x + 65536 * y + 256 * z + u
    else 0
  }

  ghost predicate PrintsNumber(fmt: string, i: nat, letters: string, n: nat, size: nat, v: int, rest: seq<Arg>, pos: nat, end: int)
    requires i + |letters| <= |fmt| && Matches(fmt, i + |letters|, rest)
  {
    && i <= |fmt| && Matches(fmt, i, [Num(v)] + rest)
    && exists b: seq<Byte> :: |b| == n && Spelled(b, v, size)
         && Print(fmt, i, [Num(v)] + rest, pos, end) == Prepend(b, Print(fmt, i + |letters|, rest, pos + n, end))
  }

  ghost predicate ScansNumber(fmt: string, i: nat, letters: string, n: nat, v: int, data: seq<Byte>, j: nat)
    requires i + |letters| <= |fmt| && j + n <= |data|
  {
    i <= |fmt| && Scan(fmt, i, data, j) == Follow([Num(v)], Scan(fmt, i + |letters|, data, j + n))
  }

  lemma Powers()
    ensures Pow256(1) == 256 && Pow256(2) == 65536 && Pow256(4) == 4294967296
  {
    assert Pow256(3) == 16777216;
  }

  lemma ValueOfBytes(b: seq<Byte>)
    requires |b| in {1, 2, 4}
    ensures BigEndianValue(b) == Together(b)
  {
    assert b[..1][..0] == [];
    var x: int := b[0];
    assert BigEndianValue(b[..1]) == x;
    if |b| == 4 {
      assert b[..3][..2] == b[..2] && b[..2][..1] == b[..1];
      var y: int, z: int := b[1], b[2];
      assert BigEndianValue(b[..2]) == 256 * x + y;
      assert BigEndianValue(b[..3]) == 65536 * x + 256 * y + z;
    } else if |b| == 1 {
      assert b[..1] == b;
    }
  }

  lemma SpelledIsValue(b: seq<Byte>, v: int, n: nat)
    requires |b| == n && n in {1, 2, 4}
    ensures Spelled(b, v, Pow256(n)) <==> BigEndianValue(b) == v % Pow256(n)
  {
    ValueOfBytes(b);
    hide BigEndianValue, Pow256, Together;
  }

  /** The range that a conversion gives back. */
  function Lowest(conv: Conv): int
    requires !IsText(conv)
  {
    if Signed(conv) then -(Pow256(Width(conv)) / 2) else 0
  }

  function Highest(conv: Conv): int
    requires !IsText(conv)
  {
    if Signed(conv) then Pow256(Width(conv)) / 2 - 1 else Pow256(Width(conv)) - 1
  }

  lemma DecodedValue(conv: Conv, v: int, b: seq<Byte>)
    requires !IsText(conv) && |b| == Width(conv) && Lowest(conv) <= v <= Highest(conv)
    requires BigEndianValue(b) == v % Pow256(Width(conv))
    ensures DecodeNumber(conv, b) == v
  {
    var p := Pow256(Width(conv));
    Powers();
    RemainderUnique(v, p, if v < 0 then -1 else 0, if v < 0 then v + p else v);
    SignedOfRemainder(v, Width(conv));
    hide Pow256;
  }

  lemma NumberMeaning(fmt: string, i: nat, letters: string, conv: Conv)
    requires Letters(fmt, i, letters) && !IsText(conv) && i < |fmt| && Lex(fmt, i) == Good(conv, i + |letters|)
    ensures NumberLetters(fmt, i, letters, Width(conv), Pow256(Width(conv)), Lowest(conv), Highest(conv))
  {
    hide PrintsNumber, ScansNumber, Lex, Pow256, Spelled, Lowest, Highest, Letters;
    var n, size := Width(conv), Pow256(Width(conv));
    forall v: int, rest: seq<Arg>, pos: nat, end: int | pos + n < end && Matches(fmt, i + |letters|, rest)
      ensures PrintsNumber(fmt, i, letters, n, size, v, rest, pos, end)
    {
      NumberPrinted(fmt, i, letters, conv, v, rest, pos, end);
    }
    forall v: int, b: seq<Byte>, data: seq<Byte>, j: nat
      | Lowest(conv) <= v <= Highest(conv) && |b| == n && Spelled(b, v, size) && Holds(data, j, b)
      ensures ScansNumber(fmt, i, letters, n, v, data, j)
    {
      NumberScanned(fmt, i, letters, conv, v, b, data, j);
    }
  }

  lemma NumberPrinted(fmt: string, i: nat, letters: string, conv: Conv, v: int, rest: seq<Arg>, pos: nat, end: int)
    requires i + |letters| <= |fmt| && !IsText(conv) && i < |fmt| && Lex(fmt, i) == Good(conv, i + |letters|)
    requires pos + Width(conv) < end && Matches(fmt, i + |letters|, rest)
    ensures PrintsNumber(fmt, i, letters, Width(conv), Pow256(Width(conv)), v, rest, pos, end)
  {
    hide Lex, BigEndian, Pow256, Spelled;
    var args, b := [Num(v)] + rest, BigEndian(v, Width(conv));
    assert args[1..] == rest;
    BigEndianRoundTrip(v, Width(conv));
    assert Width(conv) in {1, 2, 4};
    SpelledIsValue(b, v, Width(conv));
    assert EncodeOne(conv, Num(v), pos, end) == Done(b);
  }

  lemma NumberScanned(fmt: string, i: nat, letters: string, conv: Conv, v: int, b: seq<Byte>, data: seq<Byte>, j: nat)
    requires i + |letters| <= |fmt| && !IsText(conv) && i < |fmt| && Lex(fmt, i) == Good(conv, i + |letters|)
    requires Lowest(conv) <= v <= Highest(conv) && |b| == Width(conv) && Spelled(b, v, Pow256(Width(conv)))
    requires Holds(data, j, b)
    ensures ScansNumber(fmt, i, letters, Width(conv), v, data, j)
  {
    hide Lex, DecodeNumber, Pow256, Spelled, Lowest, Highest;
    assert Width(conv) in {1, 2, 4};
    SpelledIsValue(b, v, Width(conv));
    DecodedValue(conv, v, b);
  }

  /** "%c" is a number from 0 to 255 in one byte. */
  lemma PercentC(fmt: string, i: nat)
    requires Letters(fmt, i, "%c")
    ensures NumberLetters(fmt, i, "%c", 1, 256, 0, 255)
  {
    LettersAt(fmt, i, "%c");
    Powers();
    NumberMeaning(fmt, i, "%c", Char);
  }

  /** "%hd" is a number from -32768 to 32767 in two bytes, "%hu" one from 0 to 65535. */
  lemma PercentH(fmt: string, i: nat)
    ensures Letters(fmt, i, "%hd") ==> NumberLetters(fmt, i, "%hd", 2, 65536, -32768, 32767)
    ensures Letters(fmt, i, "%hu") ==> NumberLetters(fmt, i, "%hu", 2, 65536, 0, 65535)
  {
    Powers();
    hide NumberLetters;
    if Letters(fmt, i, "%hd") {
      LettersAt(fmt, i, "%hd");
      NumberMeaning(fmt, i, "%hd", Short);
    }
    if Letters(fmt, i, "%hu") {
      LettersAt(fmt, i, "%hu");
      NumberMeaning(fmt, i, "%hu", UShort);
    }
  }

  /** "%d" and "%ld" are numbers from -2147483648 to 2147483647 in four bytes. */
  lemma PercentD(fmt: string, i: nat)
    ensures Letters(fmt, i, "%d") ==> NumberLetters(fmt, i, "%d", 4, 4294967296, -2147483648, 2147483647)
    ensures Letters(fmt, i, "%ld") ==> NumberLetters(fmt, i, "%ld", 4, 4294967296, -2147483648, 2147483647)
  {
    Powers();
    hide NumberLetters;
    if Letters(fmt, i, "%d") {
      LettersAt(fmt, i, "%d");
      NumberMeaning(fmt, i, "%d", Int);
    }
    if Letters(fmt, i, "%ld") {
      LettersAt(fmt, i, "%ld");
      NumberMeaning(fmt, i, "%ld", Long);
    }
  }

  /** "%u" and "%lu" are numbers from 0 to 4294967295 in four bytes. */
  lemma PercentU(fmt: string, i: nat)
    ensures Letters(fmt, i, "%u") ==> NumberLetters(fmt, i, "%u", 4, 4294967296, 0, 4294967295)
    ensures Letters(fmt, i, "%lu") ==> NumberLetters(fmt, i, "%lu", 4, 4294967296, 0, 4294967295)
  {
    Powers();
    hide NumberLetters;
    if Letters(fmt, i, "%u") {
      LettersAt(fmt, i, "%u");
      NumberMeaning(fmt, i, "%u", UInt);
    }
    if Letters(fmt, i, "%lu") {
      LettersAt(fmt, i, "%lu");
      NumberMeaning(fmt, i, "%lu", ULong);
    }
  }

  /** One of the nine conversions. */
  predicate Known(fmt: string, i: nat) {
    || Letters(fmt, i, "%c") || Letters(fmt, i, "%d") || Letters(fmt, i, "%u") || Letters(fmt, i, "%hd")
    || Letters(fmt, i, "%hu") || Letters(fmt, i, "%ld") || Letters(fmt, i, "%lu") || Letters(fmt, i, "%s") || Letters(fmt, i, "%S")
  }

  /** Anything else in a format makes both fail. */
  lemma UnknownLetter(fmt: string, i: nat, args: seq<Arg>, pos: nat, end: int, data: seq<Byte>, j: nat)
    requires i < |fmt| && !Known(fmt, i) && j <= |data|
    ensures Matches(fmt, i, args) && !Print(fmt, i, args, pos, end).Done? && !Scan(fmt, i, data, j).Read?
  {
    if i + 2 <= |fmt| { assert fmt[i..i + 2] == [fmt[i], fmt[i + 1]]; }
    if i + 3 <= |fmt| { assert fmt[i..i + 3] == [fmt[i], fmt[i + 1], fmt[i + 2]]; }
    hide Print, Scan;
    assert Lex(fmt, i).Bad?;
    BadFails(fmt, i, args, pos, end, data, j);
  }

  lemma BadFails(fmt: string, i: nat, args: seq<Arg>, pos: nat, end: int, data: seq<Byte>, j: nat)
    requires i < |fmt| && Matches(fmt, i, args) && j <= |data| && Lex(fmt, i).Bad?
    ensures !Print(fmt, i, args, pos, end).Done? && !Scan(fmt, i, data, j).Read?
  {
    hide Lex;
  }

  /** Text that does not fit is cut at the end of the space or at the limit, and loses its nul. */
  lemma LongTextIsCut(fmt: string, i: nat, s: CString, rest: seq<Arg>, pos: nat, end: int)
    requires (Letters(fmt, i, "%s") || Letters(fmt, i, "%S")) && Matches(fmt, i + 2, rest)
    requires var most := if Letters(fmt, i, "%s") then 80 else 256; pos <= end && |s| >= Min(most, end - pos)
    ensures var most := if Letters(fmt, i, "%s") then 80 else 256;
            var kept := Min(most, end - pos);
            Matches(fmt, i, [Str(s)] + rest)
            && Print(fmt, i, [Str(s)] + rest, pos, end) == Prepend(s[..kept], Print(fmt, i + 2, rest, pos + kept, end))
  {
    var args := [Str(s)] + rest;
    assert args[1..] == rest;
    if Letters(fmt, i, "%s") { LettersAt(fmt, i, "%s"); } else { LettersAt(fmt, i, "%S"); }
  }

  /** A number is printed only if there is room for it and a byte to spare, and read only if it is all there. */
  lemma NoRoomForNumber(fmt: string, i: nat, letters: string, n: nat, args: seq<Arg>, pos: nat, end: int, data: seq<Byte>, j: nat)
    requires Letters(fmt, i, letters) && Matches(fmt, i, args) && j <= |data|
    requires (letters, n) in {("%c", 1), ("%hd", 2), ("%hu", 2), ("%d", 4), ("%u", 4), ("%ld", 4), ("%lu", 4)}
    ensures pos + n >= end ==> Print(fmt, i, args, pos, end).NoRoom?
    ensures j + n > |data| ==> Scan(fmt, i, data, j).TooShort?
  {
    LettersAt(fmt, i, letters);
  }
}
