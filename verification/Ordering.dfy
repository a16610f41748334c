// Ordered views of a set of integer ids or dates, standing for ORDER BY.
module Ordering {
  ghost predicate IsLeast(x: int, s: set<int>) {
    x in s && forall y :: y in s ==> x <= y
  }

  ghost predicate IsGreatest(x: int, s: set<int>) {
    x in s && forall y :: y in s ==> y <= x
  }

  lemma NonEmpty(s: set<int>)
    requires s != {}
    ensures exists x :: x in s
  {
    assert (forall x :: x !in s) ==> s == {};
  }

  lemma {:induction false} LeastExists(s: set<int>)
    requires s != {}
    ensures exists x :: IsLeast(x, s)
  {
    NonEmpty(s);
    var x :| x in s;
    assert forall y :: y in s ==> y == x || y in s - {x};
    if s - {x} == {} {
      assert IsLeast(x, s);
    } else {
      LeastExists(s - {x});
      var z :| IsLeast(z, s - {x});
      assert IsLeast(if x < z then x else z, s);
    }
  }

  lemma {:induction false} GreatestExists(s: set<int>)
    requires s != {}
    ensures exists x :: IsGreatest(x, s)
  {
    NonEmpty(s);
    var x :| x in s;
    assert forall y :: y in s ==> y == x || y in s - {x};
    if s - {x} == {} {
      assert IsGreatest(x, s);
    } else {
      GreatestExists(s - {x});
      var z :| IsGreatest(z, s - {x});
      assert IsGreatest(if z < x then x else z, s);
    }
  }

  function Least(s: set<int>): (x: int)
    requires s != {}
    ensures IsLeast(x, s)
  {
    LeastExists(s);
    var x :| x in s && forall y :: y in s ==> x <= y;
    x
  }

  function Greatest(s: set<int>): (x: int)
    requires s != {}
    ensures IsGreatest(x, s)
  {
    GreatestExists(s);
    var x :| x in s && forall y :: y in s ==> y <= x;
    x
  }

  predicate StrictlyAscending(r: seq<int>) {
    forall i, j :: 0 <= i < j < |r| ==> r[i] < r[j]
  }

  predicate StrictlyDescending(r: seq<int>) {
    forall i, j :: 0 <= i < j < |r| ==> r[i] > r[j]
  }

  lemma Prepended(x: int, rest: seq<int>, s: set<int>)
    requires IsLeast(x, s)
    requires forall i :: 0 <= i < |rest| ==> rest[i] in s - {x}
    requires forall y :: y in rest <==> y in s - {x}
    requires StrictlyAscending(rest) && |rest| == |s - {x}|
    ensures forall y :: y in [x] + rest <==> y in s
    ensures forall i :: 0 <= i < |[x] + rest| ==> ([x] + rest)[i] in s
    ensures StrictlyAscending([x] + rest) && |[x] + rest| == |s|
  {
  }

  // ORDER BY id ASC.
  function Ascending(s: set<int>): (r: seq<int>)
    ensures forall x :: x in r <==> x in s
    ensures forall i :: 0 <= i < |r| ==> r[i] in s
    ensures StrictlyAscending(r)
    ensures |r| == |s|
  {
    if s == {} then []
    else
      var x := Least(s);
      var rest := Ascending(s - {x});
      Prepended(x, rest, s);
      [x] + rest
  }

  // ORDER BY date DESC LIMIT limit.
  function Newest(s: set<int>, limit: nat): (r: seq<int>)
    ensures forall i :: 0 <= i < |r| ==> r[i] in s
    ensures StrictlyDescending(r)
    ensures |r| == if |s| < limit then |s| else limit
    decreases limit
  {
    if limit == 0 || s == {} then []
    else
      var rest := Newest(s - {Greatest(s)}, limit - 1);
      assert forall i :: 0 <= i < |rest| ==> rest[i] in s - {Greatest(s)};
      [Greatest(s)] + rest
  }

  // What is left out is older than everything taken.
  lemma {:induction false} NewestAreNewer(s: set<int>, limit: nat, i: nat, y: int)
    requires i < |Newest(s, limit)| && y in s && y !in Newest(s, limit)
    ensures y < Newest(s, limit)[i]
    decreases limit
  {
    var top := Greatest(s);
    var rest := Newest(s - {top}, limit - 1);
    assert Newest(s, limit) == [top] + rest;
    assert y != top && y !in rest;
    if i > 0 {
      NewestAreNewer(s - {top}, limit - 1, i - 1, y);
    }
  }

  lemma SameGreatest(s: set<int>, t: set<int>, oldest: int)
    requires s != {} && oldest <= Greatest(s)
    requires forall x :: oldest <= x ==> (x in s <==> x in t)
    ensures t != {} && Greatest(t) == Greatest(s)
  {
  }

  // A full window depends only on the dates from its oldest one on.
  lemma {:induction false} NewestIsLocal(s: set<int>, t: set<int>, limit: nat, oldest: int)
    requires |Newest(s, limit)| == limit
    requires forall i :: 0 <= i < limit ==> oldest <= Newest(s, limit)[i]
    requires forall x :: oldest <= x ==> (x in s <==> x in t)
    ensures Newest(t, limit) == Newest(s, limit)
    decreases limit
  {
    if limit > 0 {
      var top := Greatest(s);
      var rest := Newest(s - {top}, limit - 1);
      assert Newest(s, limit) == [top] + rest;
      assert Newest(s, limit)[0] == top;
      SameGreatest(s, t, oldest);
      forall i | 0 <= i < |rest| ensures oldest <= rest[i] {
        assert rest[i] == Newest(s, limit)[i + 1];
      }
      NewestIsLocal(s - {top}, t - {top}, limit - 1, oldest);
    }
  }
}
