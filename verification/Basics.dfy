/** Options, results and the few facts about integer sequences and sets that the statechart model needs. */
module Basics {

  datatype Option<+T> = None | Some(value: T)

  datatype Result<+T, +E> = Ok(value: T) | Err(error: E)

  function Elems<T>(s: seq<T>): set<T> {
    set x | x in s
  }

  ghost predicate NoDup<T>(s: seq<T>) {
    forall i, j :: 0 <= i < j < |s| ==> s[i] != s[j]
  }

  ghost predicate Ascending(s: seq<int>) {
    forall i, j :: 0 <= i < j < |s| ==> s[i] < s[j]
  }

  /** The members of `s` among 0 .. n-1, in ascending order. */
  function Ordered(n: nat, s: set<int>): (r: seq<int>)
    ensures Ascending(r)
    ensures forall x :: x in r <==> 0 <= x < n && x in s
  {
    if n == 0 then []
    else
      var r := Ordered(n - 1, s);
      assert forall i :: 0 <= i < |r| ==> r[i] in r;
      if n - 1 in s then r + [n - 1] else r
  }

  /** The members of `s` in the order in which `order` lists them. */
  function Restrict(order: seq<int>, s: set<int>): (r: seq<int>)
    ensures forall x :: x in r <==> x in order && x in s
    ensures |r| <= |order|
  {
    if order == [] then []
    else
      var n := |order| - 1;
      assert order == order[..n] + [order[n]];
      Restrict(order[..n], s) + (if order[n] in s then [order[n]] else [])
  }

  lemma {:induction false} RestrictNext(order: seq<int>, i: nat, s: set<int>)
    requires i < |order|
    ensures Restrict(order[..i + 1], s) == Restrict(order[..i], s) + (if order[i] in s then [order[i]] else [])
  {
    assert order[..i + 1][..i] == order[..i];
  }

  lemma {:induction false} RestrictSnoc(order: seq<int>, x: int, s: set<int>)
    ensures Restrict(order + [x], s) == Restrict(order, s) + (if x in s then [x] else [])
  {
    assert (order + [x])[..|order|] == order;
  }

  lemma {:induction false} RestrictTwice(order: seq<int>, s: set<int>, t: set<int>)
    requires t <= s
    ensures Restrict(Restrict(order, s), t) == Restrict(order, t)
  {
    if order != [] {
      var n := |order| - 1;
      var x, r := order[n], Restrict(order[..n], s);
      RestrictTwice(order[..n], s, t);
      assert Restrict(order, t) == Restrict(order[..n], t) + (if x in t then [x] else []);
      RestrictSnoc(r, x, t);
      assert Restrict(order, s) == if x in s then r + [x] else r;
    }
  }

  function Reverse<T>(s: seq<T>): (r: seq<T>)
    ensures |r| == |s|
    ensures forall i :: 0 <= i < |s| ==> r[i] == s[|s| - 1 - i]
  {
    if s == [] then [] else Reverse(s[1..]) + [s[0]]
  }

  lemma {:induction false} ReverseElems<T>(s: seq<T>)
    ensures Elems(Reverse(s)) == Elems(s)
  {
    var r := Reverse(s);
    forall x | x in s ensures x in r {
      var i :| 0 <= i < |s| && s[i] == x;
      assert r[|s| - 1 - i] == x;
    }
  }

  lemma {:induction false} AscendingUnique(s: seq<int>, t: seq<int>)
    requires Ascending(s) && Ascending(t)
    requires forall x :: x in s <==> x in t
    ensures s == t
  {
    assert |s| > 0 ==> s[0] in s;
    assert |t| > 0 ==> t[0] in t;
    if s != [] {
      assert s[0] == t[0];
      forall x ensures x in s[1..] <==> x in t[1..] {
        assert x in s <==> x == s[0] || x in s[1..];
        assert x in t <==> x == t[0] || x in t[1..];
      }
      AscendingUnique(s[1..], t[1..]);
    }
  }

  lemma TakeNext<T>(s: seq<T>, i: nat)
    requires i < |s|
    ensures s[..i + 1] == s[..i] + [s[i]]
  {}

  lemma ElemsConcat<T>(s: seq<T>, t: seq<T>)
    ensures Elems(s + t) == Elems(s) + Elems(t)
  {
    assert forall x :: x in s + t <==> x in s || x in t;
  }

  lemma AppendAfter<T>(s: seq<T>, t: seq<T>, u: seq<T>)
    ensures s + t + u == s + (t + u)
  {}

  const DIGITS := "0123456789"

  /** `std::to_string` of a natural number. */
  function Decimal(n: nat): (s: string)
    ensures s != "" && forall i :: 0 <= i < |s| ==> '0' <= s[i] <= '9'
  {
    if n < 10 then [DIGITS[n]] else Decimal(n / 10) + [DIGITS[n % 10]]
  }
}
