// Sets and maps with the same members are equal, and parts are not larger.
module Extensionality {
  lemma SetsEqual<T>(a: set<T>, b: set<T>)
    requires forall x :: x in a <==> x in b
    ensures a == b
  {
    assert forall x :: x in a <==> x in b;
    assert a == b;
  }

  lemma MapsEqual<K, V>(a: map<K, V>, b: map<K, V>)
    requires forall k :: k in a <==> k in b
    requires forall k :: k in a ==> a[k] == b[k]
    ensures a == b && a.Keys == b.Keys
  {
    assert forall k :: k in a <==> k in b;
    assert forall k :: k in a ==> a[k] == b[k];
    assert a == b;
  }

  lemma SubsetSize<T>(a: set<T>, b: set<T>)
    requires a <= b
    ensures |a| <= |b|
  {
    assert b == a + (b - a);
  }
}
