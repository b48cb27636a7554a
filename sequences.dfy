/** `Array.prototype.filter` and the ordering facts the model needs about it. */
module Sequences {

  /** The elements of `s` that `keep` accepts, in their original order. */
  function Filter<T>(s: seq<T>, keep: T -> bool): (r: seq<T>)
    ensures |r| <= |s|
    ensures forall i | 0 <= i < |r| :: r[i] in s && keep(r[i])
    ensures forall i | 0 <= i < |s| :: keep(s[i]) ==> s[i] in r
  {
    if s == [] then []
    else if keep(s[0]) then [s[0]] + Filter(s[1..], keep)
    else Filter(s[1..], keep)
  }

  /** Filtering a concatenation filters each part and keeps them in order. */
  lemma {:induction false} FilterConcat<T>(s: seq<T>, t: seq<T>, keep: T -> bool)
    ensures Filter(s + t, keep) == Filter(s, keep) + Filter(t, keep)
  {
    if s == [] {
      assert s + t == t;
    } else {
      assert (s + t)[0] == s[0];
      assert (s + t)[1..] == s[1..] + t;
      FilterConcat(s[1..], t, keep);
    }
  }

  /** `before` holds of every earlier element and every later one. */
  ghost predicate Ordered<T>(s: seq<T>, before: (T, T) -> bool) {
    forall i, j | 0 <= i < j < |s| :: before(s[i], s[j])
  }

  /** Filtering keeps every relation that held between earlier and later elements. */
  lemma {:induction false} FilterKeepsOrder<T>(s: seq<T>, keep: T -> bool, before: (T, T) -> bool)
    requires Ordered(s, before)
    ensures Ordered(Filter(s, keep), before)
  {
    if s != [] {
      var tail := s[1..];
      assert Ordered(tail, before) by {
        forall i, j | 0 <= i < j < |tail| ensures before(tail[i], tail[j]) {
          assert tail[i] == s[i + 1] && tail[j] == s[j + 1];
        }
      }
      FilterKeepsOrder(tail, keep, before);
      var r := Filter(s, keep);
      var rt := Filter(tail, keep);
      if keep(s[0]) {
        assert r == [s[0]] + rt;
        forall i, j | 0 <= i < j < |r| ensures before(r[i], r[j]) {
          assert rt[..] == r[1..];
          if i == 0 {
            assert r[0] == s[0];
            assert r[j] == rt[j - 1];
            assert rt[j - 1] in tail;
            var k :| 0 <= k < |tail| && tail[k] == rt[j - 1];
            assert s[k + 1] == r[j];
          } else {
            assert r[i] == rt[i - 1] && r[j] == rt[j - 1];
          }
        }
      } else {
        assert r == rt;
      }
    }
  }

  /** Filtering with a test every element passes changes nothing. */
  lemma {:induction false} FilterKeepsAll<T>(s: seq<T>, keep: T -> bool)
    requires forall i | 0 <= i < |s| :: keep(s[i])
    ensures Filter(s, keep) == s
  {
    if s != [] {
      FilterKeepsAll(s[1..], keep);
    }
  }
}
