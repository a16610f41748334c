// Lists without repetition, and the set of what a list holds.
module Lists {
  import opened Extensionality

  predicate Distinct<T(==)>(s: seq<T>) {
    forall i, j :: 0 <= i < j < |s| ==> s[i] != s[j]
  }

  function Elements<T>(s: seq<T>): set<T> {
    set x | x in s
  }

  lemma DistinctConcat<T>(a: seq<T>, b: seq<T>)
    requires Distinct(a) && Distinct(b) && forall i, j :: 0 <= i < |a| && 0 <= j < |b| ==> a[i] != b[j]
    ensures Distinct(a + b)
  {
  }

  lemma InConcat<T>(a: seq<T>, b: seq<T>)
    ensures forall x :: x in a + b <==> x in a || x in b
  {
  }

  lemma Associate<T>(a: seq<T>, b: seq<T>, c: seq<T>)
    ensures a + b + c == a + (b + c)
  {
  }

  // In a list without repetition an element is in the tail exactly when its
  // position is.
  lemma TailMembership<T>(s: seq<T>, n: nat, i: nat)
    requires Distinct(s) && n <= |s| && i < |s|
    ensures s[i] in s[n..] <==> n <= i
  {
  }

  lemma {:induction false} CountDistinct<T>(s: seq<T>)
    requires Distinct(s)
    ensures |Elements(s)| == |s|
  {
    if s == [] {
    } else {
      CountDistinct(s[1..]);
      TailMembership(s, 1, 0);
      assert s == [s[0]] + s[1..];
      assert forall x :: x in Elements(s) <==> x in {s[0]} + Elements(s[1..]);
      SetsEqual(Elements(s), {s[0]} + Elements(s[1..]));
    }
  }

  lemma ElementsExtend<T>(s: seq<T>, k: nat)
    requires k < |s|
    ensures Elements(s[..k + 1]) == Elements(s[..k]) + {s[k]}
  {
    assert s[..k + 1] == s[..k] + [s[k]];
    assert forall x :: x in Elements(s[..k + 1]) <==> x in Elements(s[..k]) + {s[k]};
    SetsEqual(Elements(s[..k + 1]), Elements(s[..k]) + {s[k]});
  }

  lemma ElementsAll<T>(s: seq<T>, all: set<T>)
    requires forall x :: x in s <==> x in all
    ensures Elements(s[..|s|]) == all
  {
    assert s[..|s|] == s;
    assert forall x :: x in Elements(s) <==> x in all;
    SetsEqual(Elements(s), all);
  }
}
