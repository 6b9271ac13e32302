/** The order of keys in a `std::map`: by bytes, shorter first. */
module Keys {
  import opened Basics

  predicate Leq(a: string, b: string) {
    a == "" || (b != "" && (a[0] < b[0] || (a[0] == b[0] && Leq(a[1..], b[1..]))))
  }

  lemma {:induction false} LeqTotal(a: string, b: string)
    ensures Leq(a, b) || Leq(b, a)
    ensures Leq(a, b) && Leq(b, a) ==> a == b
  {
    if a != "" && b != "" {
      LeqTotal(a[1..], b[1..]);
      assert a == [a[0]] + a[1..] && b == [b[0]] + b[1..];
    }
  }

  lemma {:induction false} LeqTransitive(a: string, b: string, c: string)
    requires Leq(a, b) && Leq(b, c)
    ensures Leq(a, c)
  {
    if a != "" && a[0] == b[0] == c[0] { LeqTransitive(a[1..], b[1..], c[1..]); }
  }

  predicate IsLeast(s: set<string>, k: string) {
    k in s && forall j :: j in s ==> Leq(k, j)
  }

  lemma {:induction false} LeastExists(s: set<string>)
    requires s != {}
    ensures exists k :: k in s && IsLeast(s, k)
  {
    var k :| k in s;
    var rest := s - {k};
    LeqTotal(k, k);
    if rest != {} {
      LeastExists(rest);
      var r :| r in rest && IsLeast(rest, r);
      LeqTotal(k, r);
      if Leq(k, r) {
        forall j | j in s ensures Leq(k, j) {
          if j in rest { LeqTransitive(k, r, j); }
        }
        assert IsLeast(s, k);
      } else {
        assert IsLeast(s, r);
      }
    } else {
      assert s == {k};
      assert IsLeast(s, k);
    }
  }

  lemma {:induction false} LeastUnique(s: set<string>, j: string, k: string)
    requires IsLeast(s, j) && IsLeast(s, k)
    ensures j == k
  {
    LeqTotal(j, k);
  }

  function Least(s: set<string>): (k: string)
    requires s != {}
    ensures IsLeast(s, k)
  {
    LeastExists(s);
    assert forall j, k :: IsLeast(s, j) && IsLeast(s, k) ==> j == k by {
      forall j, k | IsLeast(s, j) && IsLeast(s, k) ensures j == k { LeastUnique(s, j, k); }
    }
    var k :| k in s && IsLeast(s, k);
    k
  }

  /** Strictly ascending keys. */
  ghost predicate AscendingKeys(ks: seq<string>) {
    forall i, j :: 0 <= i < j < |ks| ==> Leq(ks[i], ks[j]) && ks[i] != ks[j]
  }

  /** The keys in iteration order. */
  function Sorted(s: set<string>): (ks: seq<string>)
    ensures AscendingKeys(ks) && NoDup(ks) && forall k :: k in ks <==> k in s
  {
    if s == {} then []
    else
      var k := Least(s);
      var rest := Sorted(s - {k});
      assert forall i :: 0 <= i < |rest| ==> rest[i] in rest;
      assert forall j :: j in [k] + rest <==> j == k || j in rest;
      [k] + rest
  }

  lemma {:induction false} AscendingKeysUnique(s: seq<string>, t: seq<string>)
    requires AscendingKeys(s) && AscendingKeys(t) && forall k :: k in s <==> k in t
    ensures s == t
  {
    assert |s| > 0 ==> s[0] in s;
    assert |t| > 0 ==> t[0] in t;
    if s != [] {
      LeqTotal(s[0], t[0]);
      assert s[0] == t[0];
      forall x ensures x in s[1..] <==> x in t[1..] {
        assert x in s <==> x == s[0] || x in s[1..];
        assert x in t <==> x == t[0] || x in t[1..];
      }
      AscendingKeysUnique(s[1..], t[1..]);
    }
  }

  /** At `i`, where they first differ, `a` has the smaller byte. */
  ghost predicate SmallerAt(a: string, b: string, i: int) {
    0 <= i < |a| && i < |b| && a[..i] == b[..i] && a[i] < b[i]
  }

  lemma SmallerBehind(a: string, b: string, i: int)
    requires a != "" && b != "" && a[0] == b[0]
    ensures SmallerAt(a[1..], b[1..], i) <==> SmallerAt(a, b, i + 1) && 0 <= i
  {
    if 0 <= i < |a| - 1 && i < |b| - 1 {
      assert a[..i + 1] == [a[0]] + a[1..][..i] && b[..i + 1] == [b[0]] + b[1..][..i];
      assert a[..i + 1][1..] == a[1..][..i] && b[..i + 1][1..] == b[1..][..i];
    }
  }

  /** Keys are ordered by the first byte in which they differ; a key comes before those it is a beginning of. */
  lemma {:induction false} LeqExact(a: string, b: string)
    ensures Leq(a, b) <==> a <= b || exists i :: SmallerAt(a, b, i)
  {
    if a != "" && b != "" {
      if a[0] == b[0] {
        var x, y := a[1..], b[1..];
        LeqExact(x, y);
        assert a == [a[0]] + x && b == [b[0]] + y;
        if i :| SmallerAt(x, y, i) { SmallerBehind(a, b, i); }
        if i :| SmallerAt(a, b, i) { SmallerBehind(a, b, i - 1); }
      } else {
        assert a[0] < b[0] ==> SmallerAt(a, b, 0);
        if i :| SmallerAt(a, b, i) { assert i > 0 ==> a[..i][0] == b[..i][0]; }
      }
    }
  }
}
