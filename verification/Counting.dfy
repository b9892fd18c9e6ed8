/** Counting arguments shared by the other modules. */
module Counting {

  ghost predicate Distinct<T>(s: seq<T>) {
    forall i, j :: 0 <= i < j < |s| ==> s[i] != s[j]
  }

  /** Leaving out one element. */
  lemma LeftOut<T>(s: seq<T>, k: nat)
    requires Distinct(s) && k < |s|
    ensures var r := s[..k] + s[k + 1..];
            Distinct(r) && forall i :: 0 <= i < |r| ==> r[i] == s[if i < k then i else i + 1] && r[i] != s[k]
  {
    var r := s[..k] + s[k + 1..];
    forall i | 0 <= i < |r| ensures r[i] == s[if i < k then i else i + 1] && r[i] != s[k] {
      assert s[if i < k then i else i + 1] != s[k];
    }
  }

  /** Pigeonhole: distinct numbers below n are at most n. */
  lemma {:induction false} DistinctBelow(s: seq<int>, n: nat)
    requires Distinct(s) && forall i :: 0 <= i < |s| ==> 0 <= s[i] < n
    ensures |s| <= n
    decreases n
  {
    if s != [] {
      assert 0 <= s[0] < n;
      if n - 1 in s {
        var k :| 0 <= k < |s| && s[k] == n - 1;
        LeftOut(s, k);
        hide Distinct;
        DistinctBelow(s[..k] + s[k + 1..], n - 1);
      } else {
        assert forall i :: 0 <= i < |s| ==> s[i] in s;
        DistinctBelow(s, n - 1);
      }
    }
  }

  /** How often x occurs in s. */
  function Count<T(==)>(s: seq<T>, x: T): nat {
    if s == [] then 0 else Count(s[..|s| - 1], x) + if s[|s| - 1] == x then 1 else 0
  }

  lemma {:induction false} CountUpdate<T>(s: seq<T>, i: nat, v: T, x: T)
    requires i < |s|
    ensures Count(s[i := v], x) == Count(s, x) - (if s[i] == x then 1 else 0) + (if v == x then 1 else 0)
    decreases |s|
  {
    var n := |s| - 1;
    if i < n {
      CountUpdate(s[..n], i, v, x);
      assert s[i := v][..n] == s[..n][i := v];
    } else {
      assert s[i := v][..n] == s[..n];
    }
  }

  lemma CountAppend<T>(s: seq<T>, v: T, x: T)
    ensures Count(s + [v], x) == Count(s, x) + if v == x then 1 else 0
  {
    assert (s + [v])[..|s|] == s;
  }

  lemma {:induction false} CountConcat<T>(a: seq<T>, b: seq<T>, x: T)
    ensures Count(a + b, x) == Count(a, x) + Count(b, x)
    decreases |b|
  {
    if b == [] {
      assert a + b == a;
    } else {
      var n := |b| - 1;
      CountConcat(a, b[..n], x);
      assert (a + b)[..|a + b| - 1] == a + b[..n];
    }
  }

  lemma {:induction false} CountPrefix<T>(s: seq<T>, k: nat, x: T)
    requires k <= |s|
    ensures Count(s[..k], x) <= Count(s, x)
    ensures k < |s| && s[k] == x ==> Count(s[..k], x) < Count(s, x)
    decreases |s|
  {
    if k < |s| {
      var n := |s| - 1;
      assert s[..n][..k] == s[..k];
      CountPrefix(s[..n], k, x);
    } else {
      assert s[..k] == s;
    }
  }

  lemma {:induction false} CountNone<T>(s: seq<T>, x: T)
    ensures Count(s, x) == 0 <==> forall k :: 0 <= k < |s| ==> s[k] != x
    decreases |s|
  {
    if s != [] { CountNone(s[..|s| - 1], x); }
  }

  /** A value that occurs once occurs at one place only. */
  lemma {:induction false} CountOnce<T>(s: seq<T>, x: T, i: nat, j: nat)
    requires i < j < |s| && s[i] == x && s[j] == x
    ensures Count(s, x) >= 2
    decreases |s|
  {
    var n := |s| - 1;
    if j < n { CountOnce(s[..n], x, i, j); } else { CountPrefix(s[..n], i, x); }
  }

  /** A value occurs at most once exactly if it is at no two places. */
  lemma {:induction false} AtMostOnce<T>(s: seq<T>, x: T)
    ensures Count(s, x) <= 1 <==> forall i, j :: 0 <= i < |s| && 0 <= j < |s| && s[i] == x && s[j] == x ==> i == j
    decreases |s|
  {
    if s == [] { return; }
    var n := |s| - 1;
    AtMostOnce(s[..n], x);
    CountNone(s[..n], x);
    if Count(s, x) <= 1 {
      forall i, j | 0 <= i < |s| && 0 <= j < |s| && s[i] == x && s[j] == x ensures i == j {
        if i < j { CountOnce(s, x, i, j); }
        if j < i { CountOnce(s, x, j, i); }
      }
    } else if Count(s[..n], x) <= 1 {
      var i :| 0 <= i < n && s[..n][i] == x;
      assert s[i] == x && s[n] == x;
    } else {
      var i, j :| 0 <= i < n && 0 <= j < n && s[..n][i] == x && s[..n][j] == x && i != j;
      assert s[i] == x && s[j] == x;
    }
  }
}
