/** Order-preserving filtering, the model of LINQ's `Where(...).ToArray()`. */
module Sequences {

  /** `r` can be obtained from `s` by deleting elements, without reordering. */
  ghost predicate IsSubsequence<T>(r: seq<T>, s: seq<T>)
    decreases |s|
  {
    r == [] || (s != [] && ((r[0] == s[0] && IsSubsequence(r[1..], s[1..])) || IsSubsequence(r, s[1..])))
  }

  /** The elements of `s` that satisfy `keep`, in their original order. */
  function Filter<T>(s: seq<T>, keep: T -> bool): (r: seq<T>)
    ensures forall x | x in r :: x in s && keep(x)
    ensures forall x | x in s && keep(x) :: x in r
    ensures IsSubsequence(r, s)
    ensures |r| <= |s|
  {
    if s == [] then []
    else
      var rest := Filter(s[1..], keep);
      if keep(s[0]) then assert ([s[0]] + rest)[1..] == rest; [s[0]] + rest
      else rest
  }

  /** Every kept element survives as often as it occurs; every other element is gone. */
  lemma {:induction false} FilterMultiplicity<T>(s: seq<T>, keep: T -> bool, x: T)
    ensures multiset(Filter(s, keep))[x] == if keep(x) then multiset(s)[x] else 0
  {
    if s != [] {
      FilterMultiplicity(s[1..], keep, x);
      assert s == [s[0]] + s[1..];
      assert multiset(s) == multiset([s[0]]) + multiset(s[1..]);
      var head := if keep(s[0]) then [s[0]] else [];
      assert Filter(s, keep) == head + Filter(s[1..], keep);
      assert multiset(Filter(s, keep)) == multiset(head) + multiset(Filter(s[1..], keep));
    }
  }

  /** Nothing survives a filter exactly when no element satisfies it. */
  lemma {:induction false} FilterEmpty<T>(s: seq<T>, keep: T -> bool)
    ensures |Filter(s, keep)| == 0 <==> forall i | 0 <= i < |s| :: !keep(s[i])
  {
    if s != [] {
      FilterEmpty(s[1..], keep);
      assert forall k | 1 <= k < |s| :: s[k] == s[1..][k - 1];
    }
  }

  /** Two distinct positions of `s` satisfy `keep`. */
  ghost predicate KeptTwice<T>(s: seq<T>, keep: T -> bool)
  {
    exists i, j | 0 <= i < j < |s| :: keep(s[i]) && keep(s[j])
  }

  /** Two or more elements survive a filter exactly when two positions satisfy it. */
  lemma {:induction false} FilterSeveral<T>(s: seq<T>, keep: T -> bool)
    ensures |Filter(s, keep)| >= 2 <==> KeptTwice(s, keep)
  {
    if s != [] {
      var tail := s[1..];
      FilterSeveral(tail, keep);
      FilterEmpty(tail, keep);
      var n := |Filter(tail, keep)|;
      assert |Filter(s, keep)| == if keep(s[0]) then n + 1 else n;
      if KeptTwice(s, keep) {
        var i, j :| 0 <= i < j < |s| && keep(s[i]) && keep(s[j]);
        assert keep(tail[j - 1]);
        if i > 0 {
          assert keep(tail[i - 1]);
          assert KeptTwice(tail, keep);
        }
      }
      if keep(s[0]) && n > 0 {
        var p := FirstKept(tail, keep);
        assert keep(s[0]) && keep(s[p + 1]);
      }
      if n >= 2 {
        assert KeptTwice(tail, keep);
        var i, j :| 0 <= i < j < |tail| && keep(tail[i]) && keep(tail[j]);
        assert s[i + 1] == tail[i] && s[j + 1] == tail[j];
        assert KeptTwice(s, keep);
      }
    }
  }

  /** When exactly one element survives a filter, it sits at the only position satisfying it. */
  lemma {:induction false} FilterSingle<T>(s: seq<T>, keep: T -> bool)
    requires |Filter(s, keep)| == 1
    ensures exists i | 0 <= i < |s| ::
      && keep(s[i]) && Filter(s, keep)[0] == s[i]
      && forall j | 0 <= j < |s| && j != i :: !keep(s[j])
  {
    var tail := s[1..];
    FilterEmpty(tail, keep);
    assert forall k | 1 <= k < |s| :: s[k] == tail[k - 1];
    if keep(s[0]) {
      assert Filter(s, keep)[0] == s[0];
      assert forall j | 0 <= j < |s| && j != 0 :: !keep(s[j]);
    } else {
      FilterSingle(tail, keep);
      var i :| 0 <= i < |tail| && keep(tail[i]) && Filter(tail, keep)[0] == tail[i] &&
        forall j | 0 <= j < |tail| && j != i :: !keep(tail[j]);
      assert keep(s[i + 1]) && Filter(s, keep)[0] == s[i + 1];
    }
  }

  /** The position of some kept element, when the filter is non-empty. */
  lemma FirstKept<T>(s: seq<T>, keep: T -> bool) returns (i: nat)
    requires |Filter(s, keep)| > 0
    ensures i < |s| && keep(s[i])
  {
    var x := Filter(s, keep)[0];
    assert x in Filter(s, keep);
    i :| i < |s| && s[i] == x;
  }
}
