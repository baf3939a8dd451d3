/** Sizes of finite sets and maps. */
module Sizes {

  lemma {:induction false} SubsetSize<T>(a: set<T>, b: set<T>)
    requires a <= b
    ensures |a| <= |b|
    ensures a != b ==> |a| < |b|
  {
    assert b == a + (b - a);
  }

  lemma {:induction false} SubmapSize<K, V>(a: map<K, V>, b: map<K, V>)
    requires a.Keys <= b.Keys
    ensures |a| <= |b|
    ensures a.Keys != b.Keys ==> |a| < |b|
  {
    SubsetSize(a.Keys, b.Keys);
    assert |a| == |a.Keys| && |b| == |b.Keys|;
  }

  // A number beyond those of a set.
  lemma {:induction false} Beyond(s: set<nat>) returns (n: nat)
    ensures n !in s && forall k :: k in s ==> k < n
  {
    if s == {} {
      n := 0;
    } else {
      var k :| k in s;
      var m := Beyond(s - {k});
      n := if k < m then m else k + 1;
      assert forall j :: j in s ==> j == k || j in s - {k};
    }
  }
}
