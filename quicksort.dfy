/**
 * The hand-written quick sort of the backend: a three-way partition around
 * the middle element's score, sorting in descending order of score.
 */
module QuickSort {

  /** Which part of a three-way partition an element belongs to, relative to the pivot score. */
  datatype Side = Higher | Equal | Lower

  predicate OnSide(side: Side, score: int, pivot: int) {
    match side
    case Higher => score > pivot
    case Equal => score == pivot
    case Lower => score < pivot
  }

  /** The list comprehension `[x for x in s if <score(x) on this side of pivot>]`, keeping order. */
  function Select<T(!new)>(s: seq<T>, score: T -> int, pivot: int, side: Side): (r: seq<T>)
    ensures |r| <= |s|
    ensures forall i :: 0 <= i < |r| ==> OnSide(side, score(r[i]), pivot)
    ensures (exists i :: 0 <= i < |s| && !OnSide(side, score(s[i]), pivot)) ==> |r| < |s|
  {
    if s == [] then []
    else (if OnSide(side, score(s[0]), pivot) then [s[0]] else []) + Select(s[1..], score, pivot, side)
  }

  /** Non-increasing order of score: the highest score first. */
  predicate SortedDesc<T>(s: seq<T>, score: T -> int) {
    forall i, j :: 0 <= i < j < |s| ==> score(s[i]) >= score(s[j])
  }

  /** The three parts of a partition together hold every element exactly as often as `s` does. */
  lemma {:induction false} PartitionPermutes<T(!new)>(s: seq<T>, score: T -> int, pivot: int)
    ensures multiset(Select(s, score, pivot, Higher)) + multiset(Select(s, score, pivot, Equal))
          + multiset(Select(s, score, pivot, Lower)) == multiset(s)
  {
    if s != [] {
      var rest := s[1..];
      PartitionPermutes(rest, score, pivot);
      SelectHead(s, score, pivot, Higher);
      SelectHead(s, score, pivot, Equal);
      SelectHead(s, score, pivot, Lower);
      var v := score(s[0]);
      var h := if OnSide(Higher, v, pivot) then multiset{s[0]} else multiset{};
      var e := if OnSide(Equal, v, pivot) then multiset{s[0]} else multiset{};
      var l := if OnSide(Lower, v, pivot) then multiset{s[0]} else multiset{};
      OnExactlyOneSide(s[0], v, pivot);
      MultisetCons(s);
      Interleave(h, e, l, multiset(Select(rest, score, pivot, Higher)), multiset(Select(rest, score, pivot, Equal)),
        multiset(Select(rest, score, pivot, Lower)));
    }
  }

  /** Every score lies on exactly one side of the pivot. */
  lemma {:induction false} OnExactlyOneSide<T>(x: T, v: int, pivot: int)
    ensures (if OnSide(Higher, v, pivot) then multiset{x} else multiset{})
      + (if OnSide(Equal, v, pivot) then multiset{x} else multiset{})
      + (if OnSide(Lower, v, pivot) then multiset{x} else multiset{}) == multiset{x}
  {
  }

  /** The elements of a non-empty sequence are its head and those of its tail. */
  lemma {:induction false} MultisetCons<T>(s: seq<T>)
    requires s != []
    ensures multiset(s) == multiset{s[0]} + multiset(s[1..])
  {
    assert s == [s[0]] + s[1..];
  }

  /** What one side of the partition takes of a non-empty sequence: its head, if on that side, and the rest's part. */
  lemma {:induction false} SelectHead<T(!new)>(s: seq<T>, score: T -> int, pivot: int, side: Side)
    requires s != []
    ensures multiset(Select(s, score, pivot, side))
      == (if OnSide(side, score(s[0]), pivot) then multiset{s[0]} else multiset{})
         + multiset(Select(s[1..], score, pivot, side))
  {
  }

  /** Multiset union is associative and commutative: regrouping six parts. */
  lemma {:induction false} Interleave<T>(h: multiset<T>, e: multiset<T>, l: multiset<T>, hr: multiset<T>, er: multiset<T>, lr: multiset<T>)
    ensures (h + hr) + (e + er) + (l + lr) == (h + e + l) + (hr + er + lr)
  {
  }

  /** Selecting from a concatenation selects from each part. */
  lemma {:induction false} SelectConcat<T(!new)>(a: seq<T>, b: seq<T>, score: T -> int, pivot: int, side: Side)
    ensures Select(a + b, score, pivot, side) == Select(a, score, pivot, side) + Select(b, score, pivot, side)
  {
    if a == [] {
      assert a + b == b;
    } else {
      assert (a + b)[0] == a[0];
      assert (a + b)[1..] == a[1..] + b;
      SelectConcat(a[1..], b, score, pivot, side);
    }
  }

  /** Selecting the score `k` from a part that holds every element of score `k` gives the same as from the whole. */
  lemma {:induction false} SelectEqualWithin<T(!new)>(s: seq<T>, score: T -> int, pivot: int, side: Side, k: int)
    requires OnSide(side, k, pivot)
    ensures Select(Select(s, score, pivot, side), score, k, Equal) == Select(s, score, k, Equal)
  {
    if s != [] {
      SelectEqualWithin(s[1..], score, pivot, side, k);
      var head := if OnSide(side, score(s[0]), pivot) then [s[0]] else [];
      SelectConcat(head, Select(s[1..], score, pivot, side), score, k, Equal);
    }
  }

  /** Nothing of score `k` is selected from a sequence none of whose elements has score `k`. */
  lemma {:induction false} SelectEqualNone<T(!new)>(s: seq<T>, score: T -> int, k: int)
    requires forall i :: 0 <= i < |s| ==> score(s[i]) != k
    ensures Select(s, score, k, Equal) == []
  {
    if s != [] {
      SelectEqualNone(s[1..], score, k);
    }
  }

  /** The whole sequence is selected when every element has score `k`. */
  lemma {:induction false} SelectEqualAll<T(!new)>(s: seq<T>, score: T -> int, k: int)
    requires forall i :: 0 <= i < |s| ==> score(s[i]) == k
    ensures Select(s, score, k, Equal) == s
  {
    if s != [] {
      SelectEqualAll(s[1..], score, k);
    }
  }

  /** Gluing a higher block, a block at the pivot score and a lower block keeps the order. */
  lemma {:induction false} SortedJoin<T>(a: seq<T>, m: seq<T>, b: seq<T>, score: T -> int, pivot: int)
    requires SortedDesc(a, score) && SortedDesc(b, score)
    requires forall i :: 0 <= i < |a| ==> score(a[i]) > pivot
    requires forall i :: 0 <= i < |m| ==> score(m[i]) == pivot
    requires forall i :: 0 <= i < |b| ==> score(b[i]) < pivot
    ensures SortedDesc(a + m + b, score)
  {
    var s := a + m + b;
    forall i, j | 0 <= i < j < |s| ensures score(s[i]) >= score(s[j]) {
      if j < |a| {
        assert s[i] == a[i] && s[j] == a[j];
      } else if i >= |a| + |m| {
        assert s[i] == b[i - |a| - |m|] && s[j] == b[j - |a| - |m|];
      } else {
        assert i < |a| ==> s[i] == a[i];
        assert |a| <= i < |a| + |m| ==> s[i] == m[i - |a|];
        assert |a| <= j < |a| + |m| ==> s[j] == m[j - |a|];
        assert |a| + |m| <= j ==> s[j] == b[j - |a| - |m|];
      }
    }
  }

  /** A permutation of a sequence lying on one side of the pivot lies on that side too. */
  lemma {:induction false} PermutationOnSide<T>(a: seq<T>, b: seq<T>, score: T -> int, pivot: int, side: Side)
    requires multiset(a) == multiset(b)
    requires forall i :: 0 <= i < |b| ==> OnSide(side, score(b[i]), pivot)
    ensures forall i :: 0 <= i < |a| ==> OnSide(side, score(a[i]), pivot)
  {
    forall i | 0 <= i < |a| ensures OnSide(side, score(a[i]), pivot) {
      assert a[i] in multiset(a);
      assert a[i] in b;
      var j :| 0 <= j < |b| && b[j] == a[i];
    }
  }

  /**
   * `quick_sort`: a sequence of length at most one is returned as it is;
   * otherwise the elements above, at and below the middle element's score are
   * split off, the outer two parts are sorted, and the three are joined.
   */
  function Sort<T(!new)>(s: seq<T>, score: T -> int): (r: seq<T>)
    ensures multiset(r) == multiset(s)
    ensures SortedDesc(r, score)
    ensures |s| <= 1 ==> r == s
    decreases |s|
  {
    if |s| <= 1 then s
    else
      var pivot := score(s[|s| / 2]);
      var left := Select(s, score, pivot, Higher);
      var middle := Select(s, score, pivot, Equal);
      var right := Select(s, score, pivot, Lower);
      assert !OnSide(Higher, score(s[|s| / 2]), pivot) && !OnSide(Lower, score(s[|s| / 2]), pivot);
      var sortedLeft := Sort(left, score);
      var sortedRight := Sort(right, score);
      PartitionPermutes(s, score, pivot);
      PermutationOnSide(sortedLeft, left, score, pivot, Higher);
      PermutationOnSide(sortedRight, right, score, pivot, Lower);
      SortedJoin(sortedLeft, middle, sortedRight, score, pivot);
      sortedLeft + middle + sortedRight
  }

  /**
   * The sort is stable: the elements of any one score come out in the order
   * they went in. With the descending order, this fixes the result.
   */
  lemma {:induction false} SortStable<T(!new)>(s: seq<T>, score: T -> int, k: int)
    ensures Select(Sort(s, score), score, k, Equal) == Select(s, score, k, Equal)
    decreases |s|
  {
    if |s| > 1 {
      var pivot := score(s[|s| / 2]);
      var left := Select(s, score, pivot, Higher);
      var middle := Select(s, score, pivot, Equal);
      var right := Select(s, score, pivot, Lower);
      var sortedLeft := Sort(left, score);
      var sortedRight := Sort(right, score);
      assert Sort(s, score) == sortedLeft + middle + sortedRight;
      var want := Select(s, score, k, Equal);
      var fromLeft := Select(sortedLeft, score, k, Equal);
      var fromMiddle := Select(middle, score, k, Equal);
      var fromRight := Select(sortedRight, score, k, Equal);
      assert Select(Sort(s, score), score, k, Equal) == fromLeft + fromMiddle + fromRight by {
        SelectConcat(sortedLeft + middle, sortedRight, score, k, Equal);
        SelectConcat(sortedLeft, middle, score, k, Equal);
      }
      PermutationOnSide(sortedLeft, left, score, pivot, Higher);
      PermutationOnSide(sortedRight, right, score, pivot, Lower);
      if k > pivot {
        assert fromLeft == want by {
          SortStable(left, score, k);
          SelectEqualWithin(s, score, pivot, Higher, k);
        }
        SelectEqualNone(middle, score, k);
        SelectEqualNone(sortedRight, score, k);
        assert fromLeft + fromMiddle + fromRight == want;
      } else if k == pivot {
        SelectEqualNone(sortedLeft, score, k);
        assert fromMiddle == want by {
          SelectEqualAll(middle, score, k);
          SelectEqualWithin(s, score, pivot, Equal, k);
        }
        SelectEqualNone(sortedRight, score, k);
        assert fromLeft + fromMiddle + fromRight == want;
      } else {
        assert fromRight == want by {
          SortStable(right, score, k);
          SelectEqualWithin(s, score, pivot, Lower, k);
        }
        SelectEqualNone(sortedLeft, score, k);
        SelectEqualNone(middle, score, k);
        assert fromLeft + fromMiddle + fromRight == want;
      }
    }
  }

  /** The first element of a sorted non-empty result has the highest score of the input. */
  lemma {:induction false} SortHeadIsMax<T(!new)>(s: seq<T>, score: T -> int)
    requires s != []
    ensures Sort(s, score) != [] && Sort(s, score)[0] in s
    ensures forall x :: x in s ==> score(x) <= score(Sort(s, score)[0])
  {
    var r := Sort(s, score);
    assert |r| == |multiset(r)| == |multiset(s)| == |s|;
    assert r[0] in multiset(r);
    forall x | x in s ensures score(x) <= score(r[0]) {
      assert x in multiset(r);
      var j :| 0 <= j < |r| && r[j] == x;
      assert j == 0 || score(r[0]) >= score(r[j]);
    }
  }

  /** The first element selected at score `k` is the first element of `s` with score `k`. */
  lemma {:induction false} SelectEqualFirst<T(!new)>(s: seq<T>, score: T -> int, k: int, j: nat)
    requires j < |s| && score(s[j]) == k
    requires forall i :: 0 <= i < j ==> score(s[i]) != k
    ensures Select(s, score, k, Equal) != [] && Select(s, score, k, Equal)[0] == s[j]
  {
    if j > 0 {
      SelectEqualFirst(s[1..], score, k, j - 1);
    }
  }

  /**
   * The head of the result is the FIRST element of the input with the highest
   * score: among customers of equal score, the earlier one in the input wins.
   */
  lemma {:induction false} SortHeadIsFirstMax<T(!new)>(s: seq<T>, score: T -> int) returns (j: nat)
    requires s != []
    ensures j < |s| && Sort(s, score) != [] && Sort(s, score)[0] == s[j]
    ensures forall i :: 0 <= i < |s| ==> score(s[i]) <= score(s[j])
    ensures forall i :: 0 <= i < j ==> score(s[i]) < score(s[j])
  {
    SortHeadIsMax(s, score);
    var r := Sort(s, score);
    var m := score(r[0]);
    assert r[0] in s;
    var w :| 0 <= w < |s| && s[w] == r[0];
    // the first position of the input holding the maximal score
    j := w;
    while exists i :: 0 <= i < j && score(s[i]) == m
      invariant j < |s| && score(s[j]) == m
      decreases j
    {
      var i :| 0 <= i < j && score(s[i]) == m;
      j := i;
    }
    assert forall i :: 0 <= i < |s| ==> s[i] in s;
    SortStable(s, score, m);
    SelectEqualFirst(r, score, m, 0);
    SelectEqualFirst(s, score, m, j);
  }

  /** An element of strictly higher score than another comes before it in the result. */
  lemma {:induction false} SortHigherFirst<T(!new)>(s: seq<T>, score: T -> int, i: nat, j: nat)
    requires i < |Sort(s, score)| && j < |Sort(s, score)|
    requires score(Sort(s, score)[i]) > score(Sort(s, score)[j])
    ensures i < j
  {
  }
}
