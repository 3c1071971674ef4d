/** The two array combinators the editor builds every update from:
    `Array.prototype.filter` and `Array.prototype.map`. */
module Seqs {

  /** `s.filter(keep)`: the elements of `s` that satisfy `keep`, in order. */
  function Filter<T(!new)>(s: seq<T>, keep: T -> bool): (r: seq<T>)
    ensures |r| <= |s|
    ensures forall x :: x in r <==> x in s && keep(x)
  {
    if s == [] then []
    else (if keep(s[0]) then [s[0]] else []) + Filter(s[1..], keep)
  }

  /** `s.map(f)`: one result per element, at the same position. */
  function Map<T, U>(s: seq<T>, f: T -> U): (r: seq<U>)
    ensures |r| == |s|
    ensures forall i :: 0 <= i < |s| ==> r[i] == f(s[i])
  {
    if s == [] then [] else [f(s[0])] + Map(s[1..], f)
  }

  /** The positions of `s` whose element satisfies `keep`, in increasing order. */
  function KeptPositions<T(!new)>(s: seq<T>, keep: T -> bool): (ix: seq<nat>)
    ensures forall i :: 0 <= i < |ix| ==> ix[i] < |s|
  {
    if s == [] then []
    else (if keep(s[0]) then [0] else []) + Shift(KeptPositions(s[1..], keep))
  }

  function Shift(ix: seq<nat>): (r: seq<nat>)
    ensures |r| == |ix|
    ensures forall i :: 0 <= i < |ix| ==> r[i] == ix[i] + 1
  {
    if ix == [] then [] else [ix[0] + 1] + Shift(ix[1..])
  }

  lemma ShiftMembers(ix: seq<nat>, k: nat)
    ensures k in Shift(ix) <==> k > 0 && k - 1 in ix
  {
  }

  /** The i-th survivor of the filter is the element at the i-th kept position. */
  lemma {:induction false} FilterAtKeptPositions<T(!new)>(s: seq<T>, keep: T -> bool)
    ensures |KeptPositions(s, keep)| == |Filter(s, keep)|
    ensures forall i :: 0 <= i < |Filter(s, keep)| ==> Filter(s, keep)[i] == s[KeptPositions(s, keep)[i]]
  {
    if s != [] {
      FilterAtKeptPositions(s[1..], keep);
      var r, ix := Filter(s, keep), KeptPositions(s, keep);
      var rt, tix := Filter(s[1..], keep), KeptPositions(s[1..], keep);
      var n := if keep(s[0]) then 1 else 0;
      forall i | 0 <= i < |r|
        ensures r[i] == s[ix[i]]
      {
        if i >= n {
          assert r[i] == rt[i - n];
          assert ix[i] == tix[i - n] + 1;
        }
      }
    }
  }

  /** The kept positions strictly increase, so the filter keeps the original order. */
  lemma {:induction false} KeptPositionsIncrease<T(!new)>(s: seq<T>, keep: T -> bool)
    ensures forall i, j :: 0 <= i < j < |KeptPositions(s, keep)| ==> KeptPositions(s, keep)[i] < KeptPositions(s, keep)[j]
  {
    if s != [] {
      KeptPositionsIncrease(s[1..], keep);
    }
  }

  /** A position is kept exactly when its element passes the test. */
  lemma {:induction false} KeptPositionsExact<T(!new)>(s: seq<T>, keep: T -> bool)
    ensures forall k :: 0 <= k < |s| ==> (k in KeptPositions(s, keep) <==> keep(s[k]))
  {
    if s != [] {
      KeptPositionsExact(s[1..], keep);
      var tix := KeptPositions(s[1..], keep);
      forall k | 0 <= k < |s|
        ensures k in KeptPositions(s, keep) <==> keep(s[k])
      {
        ShiftMembers(tix, k);
        if k > 0 {
          assert s[k] == s[1..][k - 1];
        }
      }
    }
  }

  /** Filtering selects exactly the elements that pass the test, in their
      original order: the i-th survivor is the element at the i-th kept
      position, the kept positions strictly increase, and a position is kept
      iff its element satisfies `keep`. */
  lemma FilterSelectsInOrder<T(!new)>(s: seq<T>, keep: T -> bool)
    ensures var r, ix := Filter(s, keep), KeptPositions(s, keep);
      && |ix| == |r|
      && (forall i :: 0 <= i < |r| ==> r[i] == s[ix[i]])
      && (forall i, j :: 0 <= i < j < |ix| ==> ix[i] < ix[j])
      && (forall k :: 0 <= k < |s| ==> (k in ix <==> keep(s[k])))
  {
    FilterAtKeptPositions(s, keep);
    KeptPositionsIncrease(s, keep);
    KeptPositionsExact(s, keep);
  }

  /** Filtering distributes over concatenation: what is kept from a prefix
      comes before what is kept from the rest. */
  lemma {:induction false} FilterAppend<T(!new)>(s: seq<T>, t: seq<T>, keep: T -> bool)
    ensures Filter(s + t, keep) == Filter(s, keep) + Filter(t, keep)
  {
    if s == [] {
      assert s + t == t;
    } else {
      assert (s + t)[1..] == s[1..] + t;
      FilterAppend(s[1..], t, keep);
    }
  }

  /** When every element is kept, filtering is the identity. */
  lemma {:induction false} FilterKeepsAll<T(!new)>(s: seq<T>, keep: T -> bool)
    requires forall x :: x in s ==> keep(x)
    ensures Filter(s, keep) == s
  {
    if s != [] {
      assert forall x :: x in s[1..] ==> x in s;
      FilterKeepsAll(s[1..], keep);
    }
  }

  /** Filtering twice with the same test changes nothing more. */
  lemma FilterIdempotent<T(!new)>(s: seq<T>, keep: T -> bool)
    ensures Filter(Filter(s, keep), keep) == Filter(s, keep)
  {
    FilterKeepsAll(Filter(s, keep), keep);
  }
}
