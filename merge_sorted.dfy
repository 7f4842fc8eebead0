/**
 * `mergeSortedSequences`: merging two sorted sequences of numbers into one sorted sequence. Two
 * cursors advance over the sources; while both have an item the smaller one is yielded, the item
 * of the second source on a tie, and once one source has ended the rest of the other follows. A
 * source is modelled as the finite sequence of its items, its end as the end of the sequence.
 */
module MergeSorted {

  /** What the generator yields from the sources `first` and `second`. */
  function Merge(first: seq<real>, second: seq<real>): seq<real>
    decreases |first| + |second|
  {
    if first == [] then second
    else if second == [] then first
    else if first[0] < second[0] then [first[0]] + Merge(first[1..], second)
    else [second[0]] + Merge(first, second[1..])
  }

  /** `mergeSortedSequences(source1, source2)`: the two-cursor loop and its three cases. */
  method MergeSortedSequences(first: seq<real>, second: seq<real>) returns (merged: seq<real>)
    ensures merged == Merge(first, second)
  {
    merged := [];
    var i, j := 0, 0;
    while i < |first| || j < |second|
      invariant 0 <= i <= |first| && 0 <= j <= |second|
      invariant merged + MergeFrom(first, second, i, j) == MergeFrom(first, second, 0, 0)
      decreases |first| - i + |second| - j
    {
      if i < |first| && j < |second| {
        if first[i] < second[j] {
          YieldFirst(first, second, i, j, merged);
          merged := merged + [first[i]];
          i := i + 1;
        } else {
          YieldSecond(first, second, i, j, merged);
          merged := merged + [second[j]];
          j := j + 1;
        }
      } else if i < |first| {
        YieldFirst(first, second, i, j, merged);
        merged := merged + [first[i]];
        i := i + 1;
      } else {
        YieldSecond(first, second, i, j, merged);
        merged := merged + [second[j]];
        j := j + 1;
      }
    }
    MergeFromIsMerge(first, second, 0, 0);
    assert first[0..] == first && second[0..] == second;
  }

  /** The merge seen from the cursors `i` and `j`. */
  function MergeFrom(first: seq<real>, second: seq<real>, i: nat, j: nat): seq<real>
    requires i <= |first| && j <= |second|
    decreases |first| - i + |second| - j
  {
    if i == |first| then second[j..]
    else if j == |second| then first[i..]
    else if first[i] < second[j] then [first[i]] + MergeFrom(first, second, i + 1, j)
    else [second[j]] + MergeFrom(first, second, i, j + 1)
  }

  /** Yielding the first source's item, the smaller one or the only one left, keeps the loop's
      invariant. */
  lemma YieldFirst(first: seq<real>, second: seq<real>, i: nat, j: nat, merged: seq<real>)
    requires i < |first| && j <= |second| && (j == |second| || first[i] < second[j])
    requires merged + MergeFrom(first, second, i, j) == MergeFrom(first, second, 0, 0)
    ensures (merged + [first[i]]) + MergeFrom(first, second, i + 1, j) == MergeFrom(first, second, 0, 0)
  {
    if j == |second| {
      assert first[i..] == [first[i]] + first[i + 1..];
    }
  }

  /** Yielding the second source's item, on a tie too, or the only one left, keeps the invariant. */
  lemma YieldSecond(first: seq<real>, second: seq<real>, i: nat, j: nat, merged: seq<real>)
    requires i <= |first| && j < |second| && (i == |first| || first[i] >= second[j])
    requires merged + MergeFrom(first, second, i, j) == MergeFrom(first, second, 0, 0)
    ensures (merged + [second[j]]) + MergeFrom(first, second, i, j + 1) == MergeFrom(first, second, 0, 0)
  {
    if i == |first| {
      assert second[j..] == [second[j]] + second[j + 1..];
    }
  }

  lemma {:induction false} MergeFromIsMerge(first: seq<real>, second: seq<real>, i: nat, j: nat)
    requires i <= |first| && j <= |second|
    ensures MergeFrom(first, second, i, j) == Merge(first[i..], second[j..])
    decreases |first| - i + |second| - j
  {
    if i < |first| && j < |second| {
      assert first[i..][1..] == first[i + 1..] && second[j..][1..] == second[j + 1..];
      if first[i] < second[j] {
        MergeFromIsMerge(first, second, i + 1, j);
      } else {
        MergeFromIsMerge(first, second, i, j + 1);
      }
    }
  }

  // ---------------------------------------------------------------------
  // What the merge promises

  predicate Sorted(s: seq<real>) {
    forall i, j :: 0 <= i < j < |s| ==> s[i] <= s[j]
  }

  /** `m` is an interleaving of `first` and `second`: it takes their items one at a time, each
      source in its own order. */
  predicate Interleaves(m: seq<real>, first: seq<real>, second: seq<real>)
    decreases |m|
  {
    if m == [] then first == [] && second == []
    else
      (first != [] && m[0] == first[0] && Interleaves(m[1..], first[1..], second)) ||
      (second != [] && m[0] == second[0] && Interleaves(m[1..], first, second[1..]))
  }

  /** Every item of both sources is yielded once, and each source's items keep their order. */
  lemma {:induction false} MergeInterleaves(first: seq<real>, second: seq<real>)
    ensures Interleaves(Merge(first, second), first, second)
    decreases |first| + |second|
  {
    if first == [] {
      InterleavesOne(second);
    } else if second == [] {
      InterleavesOther(first);
    } else if first[0] < second[0] {
      MergeInterleaves(first[1..], second);
    } else {
      MergeInterleaves(first, second[1..]);
    }
  }

  lemma {:induction false} InterleavesOne(s: seq<real>)
    ensures Interleaves(s, [], s)
    decreases |s|
  {
    if s != [] {
      InterleavesOne(s[1..]);
    }
  }

  lemma {:induction false} InterleavesOther(s: seq<real>)
    ensures Interleaves(s, s, [])
    decreases |s|
  {
    if s != [] {
      InterleavesOther(s[1..]);
    }
  }

  /** An interleaving holds exactly the items of both sources. */
  lemma {:induction false} InterleavesUnion(m: seq<real>, first: seq<real>, second: seq<real>)
    requires Interleaves(m, first, second)
    ensures multiset(m) == multiset(first) + multiset(second)
    decreases |m|
  {
    if m != [] {
      assert m == [m[0]] + m[1..];
      if first != [] && m[0] == first[0] && Interleaves(m[1..], first[1..], second) {
        InterleavesUnion(m[1..], first[1..], second);
        assert first == [first[0]] + first[1..];
      } else {
        InterleavesUnion(m[1..], first, second[1..]);
        assert second == [second[0]] + second[1..];
      }
    }
  }

  /** The merge yields the multiset union of the sources. */
  lemma MergeUnion(first: seq<real>, second: seq<real>)
    ensures multiset(Merge(first, second)) == multiset(first) + multiset(second)
  {
    MergeInterleaves(first, second);
    InterleavesUnion(Merge(first, second), first, second);
  }

  /** The merge of sorted sources is sorted. */
  lemma {:induction false} MergeSortedness(first: seq<real>, second: seq<real>)
    requires Sorted(first) && Sorted(second)
    ensures Sorted(Merge(first, second))
    decreases |first| + |second|
  {
    if first != [] && second != [] {
      var m := Merge(first, second);
      if first[0] < second[0] {
        MergeSortedness(first[1..], second);
        MergeUnion(first[1..], second);
        LowerBound(m[1..], first[0], first[1..], second);
      } else {
        MergeSortedness(first, second[1..]);
        MergeUnion(first, second[1..]);
        LowerBound(m[1..], second[0], first, second[1..]);
      }
    }
  }

  /** A sequence holding the items of two sequences whose items are at least `x` has only items
      at least `x`. */
  lemma LowerBound(m: seq<real>, x: real, first: seq<real>, second: seq<real>)
    requires multiset(m) == multiset(first) + multiset(second)
    requires forall k :: 0 <= k < |first| ==> x <= first[k]
    requires forall k :: 0 <= k < |second| ==> x <= second[k]
    ensures forall k :: 0 <= k < |m| ==> x <= m[k]
  {
    forall k | 0 <= k < |m| ensures x <= m[k] {
      assert m[k] in multiset(m);
      if m[k] in multiset(first) {
        var i :| 0 <= i < |first| && first[i] == m[k];
      } else {
        assert m[k] in multiset(second);
        var i :| 0 <= i < |second| && second[i] == m[k];
      }
    }
  }

  /** Sorted sequences with the same items are equal. */
  lemma {:induction false} SortedUnique(s: seq<real>, t: seq<real>)
    requires Sorted(s) && Sorted(t) && multiset(s) == multiset(t)
    ensures s == t
    decreases |s|
  {
    assert |s| == |multiset(s)| == |multiset(t)| == |t|;
    if s != [] {
      SameFirst(s, t);
      assert multiset(s) == multiset{s[0]} + multiset(s[1..]) by {
        assert s == [s[0]] + s[1..];
      }
      assert multiset(t) == multiset{t[0]} + multiset(t[1..]) by {
        assert t == [t[0]] + t[1..];
      }
      assert multiset(s[1..]) == multiset(s) - multiset{s[0]};
      assert multiset(t[1..]) == multiset(t) - multiset{t[0]};
      assert Sorted(s[1..]) && Sorted(t[1..]);
      SortedUnique(s[1..], t[1..]);
    }
  }

  /** Sorted sequences with the same items start with the same, least, item. */
  lemma SameFirst(s: seq<real>, t: seq<real>)
    requires Sorted(s) && Sorted(t) && multiset(s) == multiset(t) && s != [] && t != []
    ensures s[0] == t[0]
  {
    assert s[0] in multiset(t) && t[0] in multiset(s);
    var i :| 0 <= i < |t| && t[i] == s[0];
    var j :| 0 <= j < |s| && s[j] == t[0];
  }

  /** For sorted sources the merge is the one sorted arrangement of all their items. */
  lemma MergeIsSortedUnion(first: seq<real>, second: seq<real>, m: seq<real>)
    requires Sorted(first) && Sorted(second)
    ensures m == Merge(first, second) <==> Sorted(m) && multiset(m) == multiset(first) + multiset(second)
  {
    MergeSortedness(first, second);
    MergeUnion(first, second);
    if Sorted(m) && multiset(m) == multiset(first) + multiset(second) {
      SortedUnique(m, Merge(first, second));
    }
  }

  /** On a tie the item of the second source comes first. */
  lemma TieTakesSecond(first: seq<real>, second: seq<real>)
    requires first != [] && second != [] && first[0] == second[0]
    ensures Merge(first, second) == [second[0]] + Merge(first, second[1..])
  {
  }

  /** The documented examples, cut to finite prefixes of the sources. */
  lemma Examples()
    ensures Merge([1.0, 3.0, 5.0], [2.0, 4.0, 6.0]) == [1.0, 2.0, 3.0, 4.0, 5.0, 6.0]
    ensures Merge([0.0], [2.0, 4.0, 6.0]) == [0.0, 2.0, 4.0, 6.0]
    ensures Merge([1.0, 3.0, 5.0], [-1.0]) == [-1.0, 1.0, 3.0, 5.0]
  {
  }
}
