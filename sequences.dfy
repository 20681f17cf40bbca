/** Order-preserving selection, the relation every filter in the scripts keeps between its
    output and its input. */
module Sequences {

  /** `p` is obtained from `q` by deleting some elements, keeping the order of the rest. */
  predicate IsSubsequence<T(==)>(p: seq<T>, q: seq<T>)
    decreases |q|
  {
    if |p| == 0 then true
    else if |q| == 0 then false
    else if p[0] == q[0] then IsSubsequence(p[1..], q[1..])
    else IsSubsequence(p, q[1..])
  }

  /** Removing the head of a subsequence keeps it a subsequence. */
  lemma {:induction false} SubsequenceDropHead<T>(p: seq<T>, q: seq<T>)
    requires |p| > 0
    requires IsSubsequence(p, q)
    ensures IsSubsequence(p[1..], q)
    decreases |q|, 0
  {
    if p[0] == q[0] {
      SubsequenceSkipAny(p[1..], q[1..], q[0]);
    } else {
      SubsequenceDropHead(p, q[1..]);
      SubsequenceSkipAny(p[1..], q[1..], q[0]);
    }
  }

  /** An element put in front of a sequence may be skipped: a subsequence of `q` is one of
      `[x] + q` too. */
  lemma {:induction false} SubsequenceSkipAny<T>(p: seq<T>, q: seq<T>, x: T)
    requires IsSubsequence(p, q)
    ensures IsSubsequence(p, [x] + q)
    decreases |q|, 1
  {
    assert ([x] + q)[1..] == q;
    if |p| > 0 && p[0] == x {
      SubsequenceDropHead(p, q);
    }
  }

  /** Extending a sequence at the end, and its subsequence by the same element or not,
      keeps the one a subsequence of the other: a filter run one more step. */
  lemma {:induction false} SubsequenceAppend<T>(p: seq<T>, q: seq<T>, x: T, take: bool)
    requires IsSubsequence(p, q)
    ensures IsSubsequence(p + (if take then [x] else []), q + [x])
    decreases |q|
  {
    var t := if take then [x] else [];
    if |q| > 0 {
      assert (q + [x])[1..] == q[1..] + [x];
      if |p| == 0 {
        assert p + t == t;
        if take && q[0] != x {
          SubsequenceAppend(p, q[1..], x, take);
        }
      } else {
        assert (p + t)[1..] == p[1..] + t;
        if p[0] == q[0] {
          SubsequenceAppend(p[1..], q[1..], x, take);
        } else {
          SubsequenceAppend(p, q[1..], x, take);
        }
      }
    } else {
      assert p + t == t;
      if take {
        assert ([x] + [])[1..] == [];
      }
    }
  }

  // ----- Keyed sequences -----

  /** The keys of the elements of `s` strictly increase along it; in particular each key
      occurs once. A frame indexed by ascending unique dates is such a sequence. */
  predicate Increasing<T>(s: seq<T>, key: T -> int) {
    forall i, k :: 0 <= i < k < |s| ==> key(s[i]) < key(s[k])
  }

  /** The set of keys of the elements of `s`. */
  function Keys<T>(s: seq<T>, key: T -> int): (ks: set<int>)
    ensures forall i :: 0 <= i < |s| ==> key(s[i]) in ks
  {
    if |s| == 0 then {}
    else
      assert forall i :: 1 <= i < |s| ==> s[i] == s[1..][i - 1];
      {key(s[0])} + Keys(s[1..], key)
  }

  /** Every key in the set belongs to some element. */
  lemma {:induction false} KeyIndex<T>(s: seq<T>, key: T -> int, d: int) returns (i: int)
    requires d in Keys(s, key)
    ensures 0 <= i < |s| && key(s[i]) == d
  {
    if key(s[0]) == d {
      i := 0;
    } else {
      var j := KeyIndex(s[1..], key, d);
      i := j + 1;
    }
  }

  /** The keys after the first element of an increasing sequence all lie above the first. */
  lemma IncreasingRest<T>(s: seq<T>, key: T -> int)
    requires Increasing(s, key) && |s| > 0
    ensures Increasing(s[1..], key)
    ensures forall d :: d in Keys(s[1..], key) ==> d > key(s[0])
    ensures forall d :: d in Keys(s, key) ==> d >= key(s[0])
  {
    forall d | d in Keys(s[1..], key)
      ensures d > key(s[0])
    {
      var i := KeyIndex(s[1..], key, d);
      assert s[1..][i] == s[i + 1];
    }
  }

  /** Keys of a sequence with one element put in front. */
  lemma KeysCons<T>(x: T, s: seq<T>, key: T -> int)
    ensures Keys([x] + s, key) == {key(x)} + Keys(s, key)
  {
    assert ([x] + s)[1..] == s;
  }

  // ----- Counting by key -----

  /** How many elements of `s` have key `k`. */
  function CountKey<T, K(==)>(s: seq<T>, key: T -> K, k: K): nat {
    if |s| == 0 then 0
    else (if key(s[0]) == k then 1 else 0) + CountKey(s[1..], key, k)
  }

  /** An element of `s` is counted at least once under its own key. */
  lemma {:induction false} CountKeyPositive<T, K>(s: seq<T>, key: T -> K, x: T)
    requires x in s
    ensures CountKey(s, key, key(x)) >= 1
  {
    if s[0] != x {
      CountKeyPositive(s[1..], key, x);
    }
  }

  /** A subsequence has no more elements of any key than the sequence it comes from. */
  lemma {:induction false} SubsequenceCount<T, K>(p: seq<T>, q: seq<T>, key: T -> K, k: K)
    requires IsSubsequence(p, q)
    ensures CountKey(p, key, k) <= CountKey(q, key, k)
    decreases |q|
  {
    if |p| == 0 {
    } else if p[0] == q[0] {
      SubsequenceCount(p[1..], q[1..], key, k);
    } else {
      SubsequenceCount(p, q[1..], key, k);
    }
  }

  /** How many times `x` occurs in `s`. */
  function Occurrences<T(==)>(s: seq<T>, x: T): nat {
    if |s| == 0 then 0
    else Occurrences(s[..|s| - 1], x) + (if s[|s| - 1] == x then 1 else 0)
  }

  /** One more element at the end is one more occurrence of itself and of nothing else. */
  lemma OccurrencesSnoc<T>(s: seq<T>, y: T, x: T)
    ensures Occurrences(s + [y], x) == Occurrences(s, x) + (if y == x then 1 else 0)
  {
    assert (s + [y])[..|s|] == s;
  }

  /** The occurrences in a concatenation are those of its two parts. */
  lemma {:induction false} OccurrencesAppend<T>(a: seq<T>, b: seq<T>, x: T)
    ensures Occurrences(a + b, x) == Occurrences(a, x) + Occurrences(b, x)
  {
    if |b| == 0 {
      assert a + b == a;
    } else {
      var n := |b| - 1;
      OccurrencesAppend(a, b[..n], x);
      assert a + b == (a + b[..n]) + [b[n]];
      assert b == b[..n] + [b[n]];
      OccurrencesSnoc(a + b[..n], b[n], x);
      OccurrencesSnoc(b[..n], b[n], x);
    }
  }
}
