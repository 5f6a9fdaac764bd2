/**
 * Order-preserving selection of the elements of a sequence that satisfy a
 * predicate (a row selection by boolean mask), and the positions it keeps.
 */
module Subsequence {

  /** The elements of `s` satisfying `p`, in their original order, duplicates kept. */
  function Filter<T(!new)>(s: seq<T>, p: T -> bool): (r: seq<T>)
    ensures |r| <= |s|
    ensures forall x :: x in r <==> x in s && p(x)
  {
    if s == [] then []
    else (if p(s[0]) then [s[0]] else []) + Filter(s[1..], p)
  }

  /** The indices of `s` at which `p` holds, in increasing order. */
  function Positions<T>(s: seq<T>, p: T -> bool): (ps: seq<nat>)
    ensures forall k :: 0 <= k < |ps| ==> ps[k] < |s| && p(s[ps[k]])
    ensures forall k, l :: 0 <= k < l < |ps| ==> ps[k] < ps[l]
    ensures forall i :: 0 <= i < |s| && p(s[i]) ==> i in ps
  {
    if s == [] then []
    else
      var init := s[..|s| - 1];
      assert forall i :: 0 <= i < |init| ==> init[i] == s[i];
      Positions(init, p) + (if p(s[|s| - 1]) then [|s| - 1] else [])
  }

  /** Selection distributes over concatenation: rows keep their relative order. */
  lemma {:induction false} FilterAppend<T(!new)>(a: seq<T>, b: seq<T>, p: T -> bool)
    ensures Filter(a + b, p) == Filter(a, p) + Filter(b, p)
  {
    if a == [] {
      assert a + b == b;
    } else {
      assert (a + b)[1..] == a[1..] + b;
      FilterAppend(a[1..], b, p);
    }
  }

  /**
   * The selection is exactly the elements at `Positions`: the k-th element kept
   * is the element at the k-th index where `p` holds.
   */
  lemma {:induction false} FilterAtPositions<T(!new)>(s: seq<T>, p: T -> bool)
    ensures |Filter(s, p)| == |Positions(s, p)|
    ensures forall k :: 0 <= k < |Filter(s, p)| ==> Filter(s, p)[k] == s[Positions(s, p)[k]]
  {
    if s != [] {
      var n := |s| - 1;
      var init := s[..n];
      assert s == init + [s[n]];
      FilterAppend(init, [s[n]], p);
      assert [s[n]][1..] == [];
      FilterAtPositions(init, p);
      assert forall i :: 0 <= i < |init| ==> init[i] == s[i];
    }
  }
}
