/** Notions that several models share. */
module Common {
  datatype Option<+T> = None | Some(value: T)

  ghost predicate Distinct(s: seq<nat>) { forall i, j :: 0 <= i < j < |s| ==> s[i] != s[j] }

  /** Drops the first occurrence of x: list_del in a list of distinct nodes. */
  function Without(s: seq<nat>, x: nat): seq<nat> {
    if s == [] then [] else if s[0] == x then s[1..] else [s[0]] + Without(s[1..], x)
  }

  lemma {:induction false} WithoutFacts(s: seq<nat>, x: nat)
    requires Distinct(s)
    ensures Distinct(Without(s, x)) && forall y :: y in Without(s, x) <==> y in s && y != x
    ensures x in s ==> |Without(s, x)| == |s| - 1
    decreases |s|
  {
    if s != [] {
      var r := s[1..];
      TailDistinct(s);
      WithoutFacts(r, x);
      if s[0] != x { PrependDistinct(s[0], Without(r, x)); }
    }
  }

  lemma PrependDistinct(x: nat, s: seq<nat>)
    requires Distinct(s) && x !in s
    ensures Distinct([x] + s) && forall y :: y in [x] + s <==> y == x || y in s
  {
  }

  lemma TailDistinct(s: seq<nat>)
    requires Distinct(s) && s != []
    ensures Distinct(s[1..]) && forall y :: y in s[1..] <==> y in s && y != s[0]
  {
    forall y | y in s && y != s[0] ensures y in s[1..] { assert s == [s[0]] + s[1..]; }
  }

  lemma SubsetSize<T>(a: set<T>, b: set<T>)
    requires a <= b
    ensures |a| <= |b|
  {
    assert b == a + (b - a);
  }

  lemma {:induction false} WithoutAbsent(s: seq<nat>, x: nat)
    requires x !in s
    ensures Without(s, x) == s
    decreases |s|
  {
    if s != [] { WithoutAbsent(s[1..], x); }
  }

  lemma {:induction false} WithoutConcat(a: seq<nat>, b: seq<nat>, x: nat)
    ensures Without(a + b, x) == if x in a then Without(a, x) + b else a + Without(b, x)
    decreases |a|
  {
    if a == [] {
      assert a + b == b;
    } else {
      assert (a + b)[1..] == a[1..] + b;
      if a[0] != x { WithoutConcat(a[1..], b, x); }
    }
  }

  lemma WithoutMiddle(l: seq<nat>, x: nat, r: seq<nat>)
    requires x !in l
    ensures Without(l + [x] + r, x) == l + r
  {
    assert Without([x], x) == [];
    hide Without;
    WithoutConcat(l + [x], r, x);
    WithoutConcat(l, [x], x);
    assert l + [] == l;
  }

  lemma WithoutAt(s: seq<nat>, k: nat)
    requires Distinct(s) && k < |s|
    ensures Without(s, s[k]) == s[..k] + s[k + 1..]
  {
    hide Without;
    var x, l, r := s[k], s[..k], s[k + 1..];
    assert s == l + [x] + r;
    assert x !in l;
    WithoutMiddle(l, x, r);
  }

  /** Where x stands first. */
  function Pos(s: seq<nat>, x: nat): (k: nat)
    requires x in s
    ensures k < |s| && s[k] == x
  {
    if s[0] == x then 0 else 1 + Pos(s[1..], x)
  }

  lemma PosIs(s: seq<nat>, k: nat)
    requires Distinct(s) && k < |s|
    ensures Pos(s, s[k]) == k
  {
  }
}
