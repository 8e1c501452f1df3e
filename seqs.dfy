/** Sequence operations standing for the array methods the editor uses (`filter`, `map`). */
module Seqs {

  /** The elements of `s` for which `keep` holds, in their original order. */
  function Filter<T>(s: seq<T>, keep: T -> bool): (r: seq<T>)
    ensures |r| <= |s|
    ensures forall i :: 0 <= i < |r| ==> r[i] in s && keep(r[i])
    ensures forall i :: 0 <= i < |s| && keep(s[i]) ==> s[i] in r
  {
    if s == [] then []
    else if keep(s[0]) then [s[0]] + Filter(s[1..], keep)
    else Filter(s[1..], keep)
  }

  /** Filtering distributes over concatenation: the kept elements stay in order. */
  lemma {:induction false} FilterConcat<T>(a: seq<T>, b: seq<T>, keep: T -> bool)
    ensures Filter(a + b, keep) == Filter(a, keep) + Filter(b, keep)
  {
    if a == [] {
      assert a + b == b;
    } else {
      assert (a + b)[0] == a[0];
      assert (a + b)[1..] == a[1..] + b;
      FilterConcat(a[1..], b, keep);
    }
  }

  /** A filter that rejects nothing returns its input unchanged. */
  lemma {:induction false} FilterKeepsAll<T>(s: seq<T>, keep: T -> bool)
    requires forall i :: 0 <= i < |s| ==> keep(s[i])
    ensures Filter(s, keep) == s
  {
    if s != [] {
      FilterKeepsAll(s[1..], keep);
    }
  }

  /** The filter result is non-empty exactly when some element is kept. */
  lemma FilterNonEmpty<T>(s: seq<T>, keep: T -> bool)
    ensures |Filter(s, keep)| >= 1 <==> exists i :: 0 <= i < |s| && keep(s[i])
  {
  }

  /** The filter keeps at least two elements exactly when two distinct positions are kept. */
  lemma {:induction false} FilterAtLeastTwo<T>(s: seq<T>, keep: T -> bool)
    ensures |Filter(s, keep)| >= 2 <==> exists i, j :: 0 <= i < j < |s| && keep(s[i]) && keep(s[j])
  {
    if s != [] {
      var t := s[1..];
      FilterAtLeastTwo(t, keep);
      if keep(s[0]) {
        FilterNonEmpty(t, keep);
        if |Filter(t, keep)| >= 1 {
          var k :| 0 <= k < |t| && keep(t[k]);
          assert s[k + 1] == t[k];
          assert 0 < k + 1 < |s| && keep(s[0]) && keep(s[k + 1]);
        }
        if exists i, j :: 0 <= i < j < |s| && keep(s[i]) && keep(s[j]) {
          var i, j :| 0 <= i < j < |s| && keep(s[i]) && keep(s[j]);
          assert t[j - 1] == s[j];
        }
      } else {
        if exists i, j :: 0 <= i < j < |s| && keep(s[i]) && keep(s[j]) {
          var i, j :| 0 <= i < j < |s| && keep(s[i]) && keep(s[j]);
          assert t[i - 1] == s[i] && t[j - 1] == s[j];
        }
        if exists i, j :: 0 <= i < j < |t| && keep(t[i]) && keep(t[j]) {
          var i, j :| 0 <= i < j < |t| && keep(t[i]) && keep(t[j]);
          assert s[i + 1] == t[i] && s[j + 1] == t[j];
        }
      }
    }
  }

  /** `f` applied to every element of `s`, position by position. */
  function MapSeq<T, U>(s: seq<T>, f: T -> U): (r: seq<U>)
    ensures |r| == |s|
    ensures forall i :: 0 <= i < |s| ==> r[i] == f(s[i])
  {
    if s == [] then [] else [f(s[0])] + MapSeq(s[1..], f)
  }
}
