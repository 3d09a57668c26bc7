/** Sequences seen as sets: distinctness and the pigeonhole facts about sizes. */
module Collect {

  function ToSet<T>(s: seq<T>): set<T> { set x | x in s }

  predicate Distinct<T(==)>(s: seq<T>) {
    forall i, j :: 0 <= i < j < |s| ==> s[i] != s[j]
  }

  lemma InToSet<T>(s: seq<T>)
    ensures forall x :: x in s <==> x in ToSet(s)
  {
  }

  lemma ToSetSnoc<T>(s: seq<T>, x: T)
    ensures ToSet(s + [x]) == ToSet(s) + {x}
  {
  }

  lemma {:induction false} SetSize<T>(s: seq<T>)
    ensures |ToSet(s)| <= |s|
    ensures |ToSet(s)| == |s| <==> Distinct(s)
  {
    if s != [] {
      var n := |s| - 1;
      SetSize(s[..n]);
      ToSetSnoc(s[..n], s[n]);
      assert s[..n] + [s[n]] == s;
      if s[n] in s[..n] {
        assert ToSet(s) == ToSet(s[..n]);
        var i :| 0 <= i < n && s[..n][i] == s[n];
        assert s[i] == s[n];
      } else if Distinct(s[..n]) {
        forall i, j | 0 <= i < j < |s| ensures s[i] != s[j] {
          assert j == n ==> s[i] == s[..n][i];
          assert j < n ==> s[i] == s[..n][i] && s[j] == s[..n][j];
        }
      }
    }
  }

  lemma SubsetSize<T>(a: set<T>, b: set<T>)
    requires a <= b
    ensures |a| <= |b|
    ensures |a| == |b| ==> a == b
  {
    assert b == a + (b - a);
  }

  /** As many different things as places, all from those places: every place is taken. */
  lemma Pigeonhole<T>(found: seq<T>, places: seq<T>)
    requires Distinct(found) && |found| == |places| && ToSet(found) <= ToSet(places)
    ensures ToSet(found) == ToSet(places) && Distinct(places)
  {
    SetSize(found);
    SetSize(places);
    SubsetSize(ToSet(found), ToSet(places));
  }

  method Listing<T(==)>(s: set<T>) returns (r: seq<T>)
    ensures ToSet(r) == s && Distinct(r)
  {
    r := [];
    var todo := s;
    while todo != {}
      invariant ToSet(r) + todo == s && ToSet(r) !! todo && Distinct(r)
      decreases |todo|
    {
      var x :| x in todo;
      ToSetSnoc(r, x);
      r := r + [x];
      todo := todo - {x};
    }
  }
}
