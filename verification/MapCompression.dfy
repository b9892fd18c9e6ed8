/** The run-length compression of the map (src/server/netserver.c), done in place, and the rule by which it is read
    back (src/common/setup.h). */
module MapCompression {

  const SETUP_COMPRESSED := 0x80
  const LONGEST_RUN := 255

  predicate Bytes(s: seq<int>) { forall i :: 0 <= i < |s| ==> 0 <= s[i] <= 255 }

  /** Block types leave the high bit to the compression. */
  predicate Blocks(s: seq<int>) { forall i :: 0 <= i < |s| ==> 0 <= s[i] < SETUP_COMPRESSED }

  /** A byte with the high bit set. */
  function Flagged(b: int): int { if b < SETUP_COMPRESSED then b + SETUP_COMPRESSED else b }

  /** How far the run at the start of m goes on from place k, up to the longest run. */
  function RunFrom(m: seq<int>, k: nat): (r: nat)
    requires 1 <= k <= |m| && k <= LONGEST_RUN
    ensures k <= r <= |m| && r <= LONGEST_RUN
    decreases |m| - k
  {
    if k < |m| && k < LONGEST_RUN && m[k] == m[0] then RunFrom(m, k + 1) else k
  }

  lemma {:induction false} RunIsConstant(m: seq<int>, k: nat)
    requires 1 <= k <= |m| && k <= LONGEST_RUN && forall i :: 0 <= i < k ==> m[i] == m[0]
    ensures forall i :: 0 <= i < RunFrom(m, k) ==> m[i] == m[0]
    decreases |m| - k
  {
    if k < |m| && k < LONGEST_RUN && m[k] == m[0] { RunIsConstant(m, k + 1); }
  }

  function Compressed(m: seq<int>): seq<int>
    decreases |m|
  {
    if m == [] then []
    else
      var k := RunFrom(m, 1);
      if k >= 2 then [Flagged(m[0]), k] + Compressed(m[k..]) else [m[0]] + Compressed(m[1..])
  }

  function Repeat(b: int, n: nat): seq<int> { seq(n, _ => b) }

  /** A byte with the high bit stands for a run whose length is the next byte. */
  function Decompressed(c: seq<int>): seq<int>
    requires Bytes(c)
    decreases |c|
  {
    if c == [] then []
    else if c[0] < SETUP_COMPRESSED then [c[0]] + Decompressed(c[1..])
    else if |c| == 1 then []
    else Repeat(c[0] - SETUP_COMPRESSED, c[1]) + Decompressed(c[2..])
  }

  /** Every flagged byte is followed by a count from 2 to 255. */
  predicate WellFormed(c: seq<int>)
    decreases |c|
  {
    c == [] || if c[0] < SETUP_COMPRESSED then WellFormed(c[1..]) else |c| >= 2 && 2 <= c[1] <= LONGEST_RUN && WellFormed(c[2..])
  }

  lemma {:induction false} CompressedIsBytes(m: seq<int>)
    requires Bytes(m)
    ensures Bytes(Compressed(m)) && |Compressed(m)| <= |m|
    decreases |m|
  {
    if m == [] { return; }
    var k := RunFrom(m, 1);
    CompressedIsBytes(if k >= 2 then m[k..] else m[1..]);
  }

  lemma {:induction false} CompressedWellFormed(m: seq<int>)
    requires Blocks(m)
    ensures WellFormed(Compressed(m))
    decreases |m|
  {
    if m == [] { return; }
    var k := RunFrom(m, 1);
    var rest := if k >= 2 then m[k..] else m[1..];
    CompressedWellFormed(rest);
    if k >= 2 {
      assert Compressed(m)[2..] == Compressed(rest);
    } else {
      assert Compressed(m)[1..] == Compressed(rest);
    }
  }

  /** The two kinds of pieces that compression writes and decompression reads. */
  lemma Pieces(m: seq<int>)
    requires m != []
    ensures var k := RunFrom(m, 1);
            Compressed(m) == if k >= 2 then [Flagged(m[0]), k] + Compressed(m[k..]) else [m[0]] + Compressed(m[1..])
  {
  }

  lemma ReadOne(b: int, rest: seq<int>)
    requires 0 <= b < SETUP_COMPRESSED && Bytes(rest)
    ensures Bytes([b] + rest) && Decompressed([b] + rest) == [b] + Decompressed(rest)
  {
    assert ([b] + rest)[1..] == rest;
  }

  lemma ReadRun(b: int, k: nat, rest: seq<int>)
    requires 0 <= b < SETUP_COMPRESSED && k <= LONGEST_RUN && Bytes(rest)
    ensures Bytes([Flagged(b), k] + rest) && Decompressed([Flagged(b), k] + rest) == Repeat(b, k) + Decompressed(rest)
  {
    assert ([Flagged(b), k] + rest)[2..] == rest;
  }

  lemma Unrolled(m: seq<int>, k: nat)
    requires k <= |m| && forall i :: 0 <= i < k ==> m[i] == m[0]
    ensures m != [] ==> Repeat(m[0], k) + m[k..] == m
  {
  }

  lemma {:induction false} RoundTrip(m: seq<int>)
    requires Blocks(m)
    ensures Bytes(Compressed(m)) && Decompressed(Compressed(m)) == m
    decreases |m|
  {
    if m == [] { return; }
    hide Compressed, Decompressed, RunFrom, Repeat, Flagged;
    Pieces(m);
    var k := RunFrom(m, 1);
    RunIsConstant(m, 1);
    if k >= 2 {
      RoundTrip(m[k..]);
      ReadRun(m[0], k, Compressed(m[k..]));
      Unrolled(m, k);
    } else {
      RoundTrip(m[1..]);
      ReadOne(m[0], Compressed(m[1..]));
    }
  }

  lemma {:induction false} DecompressedIsBlocks(c: seq<int>)
    requires Bytes(c)
    ensures Blocks(Decompressed(c))
    decreases |c|
  {
    if c == [] { return; }
    if c[0] < SETUP_COMPRESSED {
      DecompressedIsBlocks(c[1..]);
    } else if |c| > 1 {
      DecompressedIsBlocks(c[2..]);
    }
  }

  /** A map survives compression exactly if no byte of it has the high bit set. */
  lemma RoundTripExact(m: seq<int>)
    requires Bytes(m)
    ensures Bytes(Compressed(m))
    ensures Decompressed(Compressed(m)) == m <==> Blocks(m)
  {
    CompressedIsBytes(m);
    DecompressedIsBlocks(Compressed(m));
    if Blocks(m) { RoundTrip(m); }
  }

  /** Two maps with the same compressed form are the same. */
  lemma Injective(a: seq<int>, b: seq<int>)
    requires Blocks(a) && Blocks(b) && Compressed(a) == Compressed(b)
    ensures a == b
  {
    RoundTrip(a);
    RoundTrip(b);
  }

  /** Finds the end of the run at place i. */
  method RunLength(data: array<int>, i: nat, size: nat) returns (k: nat)
    requires i + 1 < size <= data.Length && data[i] == data[i + 1]
    ensures k == RunFrom(data[i..size], 1) && k >= 2
  {
    ghost var m := data[i..size];
    k := 2;
    while i + k < size
      invariant 2 <= k <= |m| && k <= LONGEST_RUN && RunFrom(m, k) == RunFrom(m, 1)
    {
      if data[i] != data[i + k] { break; }
      if k == LONGEST_RUN { break; }
      k := k + 1;
    }
  }

  /** What compression has written so far, and what it will write for the rest. */
  lemma WriteRun(m: seq<int>, i: nat, done: seq<int>)
    requires i < |m| && RunFrom(m[i..], 1) >= 2
    ensures var k := RunFrom(m[i..], 1);
            done + Compressed(m[i..]) == done + [Flagged(m[i]), k] + Compressed(m[i + k..])
  {
    assert m[i..][RunFrom(m[i..], 1)..] == m[i + RunFrom(m[i..], 1)..];
    Pieces(m[i..]);
    hide Compressed;
  }

  lemma WriteOne(m: seq<int>, i: nat, done: seq<int>)
    requires i < |m| && (i + 1 == |m| || m[i] != m[i + 1])
    ensures done + Compressed(m[i..]) == done + [m[i]] + Compressed(m[i + 1..])
  {
    assert m[i..][1..] == m[i + 1..];
    Pieces(m[i..]);
    hide Compressed;
  }

  /** Compress_map: the first `length` bytes become the compressed form.  What has been written never reaches
      what is still to be read. */
  method Compress(data: array<int>, size: nat) returns (length: nat)
    requires size <= data.Length && Bytes(data[..size])
    modifies data
    ensures length <= size && data[..length] == Compressed(old(data[..size]))
    ensures data[size..] == old(data[size..])
  {
    hide Compressed, RunFrom, Flagged, Bytes;
    ghost var m := data[..size];
    var i, j := 0, 0;
    assert m[0..] == m;
    while i < size
      invariant j <= i <= size && forall t :: i <= t < data.Length ==> data[t] == old(data[t])
      invariant data[..j] + Compressed(m[i..]) == Compressed(m)
    {
      ghost var before := data[..j];
      assert data[i..size] == m[i..];
      if i + 1 < size && data[i] == data[i + 1] {
        var k := RunLength(data, i, size);
        WriteRun(m, i, before);
        data[j] := Flagged(data[i]);
        j := j + 1;
        data[j] := k;
        i := i + k - 1;
        assert data[..j + 1] == before + [Flagged(m[i + 1 - k]), k];
      } else {
        WriteOne(m, i, before);
        data[j] := data[i];
        assert data[..j + 1] == before + [m[i]];
      }
      i, j := i + 1, j + 1;
    }
    NothingLeft(m);
    length := j;
  }

  lemma NothingLeft(m: seq<int>)
    ensures Compressed(m[|m|..]) == []
  {
  }
}
