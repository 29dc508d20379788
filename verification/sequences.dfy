// What several modules say of sequences.

module Sequences {
  ghost predicate NoRepeats<T>(s: seq<T>) { forall i, j :: 0 <= i < j < |s| ==> s[i] != s[j] }

  // What r has in common with s stands in the same order.
  ghost predicate InOrderOf<T>(r: seq<T>, s: seq<T>) {
    forall a, b, x, y :: 0 <= a < b < |r| && 0 <= x < |s| && 0 <= y < |s| && r[a] == s[x] && r[b] == s[y] ==> x < y
  }

  lemma OrderCarries<T>(r: seq<T>, m: seq<T>, s: seq<T>)
    requires InOrderOf(r, m) && InOrderOf(m, s) && forall x :: x in r ==> x in m
    ensures InOrderOf(r, s)
  {
    forall a, b, x, y | 0 <= a < b < |r| && 0 <= x < |s| && 0 <= y < |s| && r[a] == s[x] && r[b] == s[y] ensures x < y {
      assert r[a] in m && r[b] in m;
      var c :| 0 <= c < |m| && m[c] == r[a];
      var d :| 0 <= d < |m| && m[d] == r[b];
      assert c < d;
    }
  }

  lemma OrderGrows<T>(r: seq<T>, s: seq<T>, x: T, more: seq<T>)
    requires NoRepeats(s) && NoRepeats(r) && InOrderOf(r, s) && (forall y :: y in r ==> y in s) && x !in s
    requires more == [] || more == [x]
    ensures NoRepeats(s + [x]) && NoRepeats(r + more) && InOrderOf(r + more, s + [x])
  {
    var q, t := r + more, s + [x];
    assert x !in r;
    forall a, b, c, d | 0 <= a < b < |q| && 0 <= c < |t| && 0 <= d < |t| && q[a] == t[c] && q[b] == t[d] ensures c < d {
      assert q[a] == r[a] && r[a] in r && c < |s|;
      if b < |r| { assert r[b] in r && d < |s|; } else { assert t[d] !in s; }
    }
  }

  function Last<T>(s: seq<T>): T
    requires s != []
  {
    s[|s| - 1]
  }

  function Front<T>(s: seq<T>): seq<T>
    requires s != []
  {
    s[..|s| - 1]
  }
}
