/** `sort_unstable_by` on the selected rows, comparing match indices. An
    unstable sort promises only that the result is ordered by the key and is
    a rearrangement of its input; selection sort keeps exactly that promise. */
module Sorting {
  import opened Selection

  predicate SortedByMatch(s: seq<Process>)
  {
    forall i, j :: 0 <= i < j < |s| ==> s[i].matchIndex <= s[j].matchIndex
  }

  /** `rows` is `input` reordered so that match indices never decrease. */
  predicate SortedPermutationOf(rows: seq<Process>, input: seq<Process>)
  {
    SortedByMatch(rows) && multiset(rows) == multiset(input)
  }

  /** Index of a row with the smallest match index in `a[from..]`. */
  method MinMatchFrom(a: array<Process>, from: nat) returns (m: nat)
    requires from < a.Length
    ensures from <= m < a.Length
    ensures forall k :: from <= k < a.Length ==> a[m].matchIndex <= a[k].matchIndex
  {
    m := from;
    var j := from + 1;
    while j < a.Length
      invariant from <= m < j <= a.Length
      invariant forall k :: from <= k < j ==> a[m].matchIndex <= a[k].matchIndex
    {
      if a[j].matchIndex < a[m].matchIndex {
        m := j;
      }
      j := j + 1;
    }
  }

  method Swap(a: array<Process>, i: nat, j: nat)
    requires i < a.Length && j < a.Length
    modifies a
    ensures a[i] == old(a[j]) && a[j] == old(a[i])
    ensures forall k :: 0 <= k < a.Length && k != i && k != j ==> a[k] == old(a[k])
    ensures multiset(a[..]) == old(multiset(a[..]))
  {
    a[i], a[j] := a[j], a[i];
  }

  method SortByMatchIndex(a: array<Process>)
    modifies a
    ensures SortedPermutationOf(a[..], old(a[..]))
  {
    var i := 0;
    while i < a.Length
      invariant 0 <= i <= a.Length
      invariant forall x, y :: 0 <= x < y < i ==> a[x].matchIndex <= a[y].matchIndex
      invariant forall x, y :: 0 <= x < i <= y < a.Length ==> a[x].matchIndex <= a[y].matchIndex
      invariant multiset(a[..]) == old(multiset(a[..]))
    {
      var m := MinMatchFrom(a, i);
      Swap(a, i, m);
      i := i + 1;
    }
  }

  /** Removing one row from a sorted sequence leaves it sorted. */
  lemma RemoveKeepsSorted(t: seq<Process>, i: nat)
    requires SortedByMatch(t) && i < |t|
    ensures SortedByMatch(t[..i] + t[i + 1..])
  {
    var t' := t[..i] + t[i + 1..];
    forall x, y | 0 <= x < y < |t'| ensures t'[x].matchIndex <= t'[y].matchIndex {
      var x' := if x < i then x else x + 1;
      var y' := if y < i then y else y + 1;
      assert t'[x] == t[x'] && t'[y] == t[y'];
    }
  }

  /** Taking the same row out of two rearrangements of each other leaves
      two rearrangements of each other. */
  lemma RemoveFromBoth(s: seq<Process>, t: seq<Process>, i: nat)
    requires multiset(s) == multiset(t) && |s| > 0 && i < |t| && t[i] == s[0]
    ensures multiset(s[1..]) == multiset(t[..i] + t[i + 1..])
  {
    assert t == t[..i] + [t[i]] + t[i + 1..];
    assert multiset(t) == multiset(t[..i]) + multiset{t[i]} + multiset(t[i + 1..]);
    assert s == [s[0]] + s[1..];
    assert multiset(s) == multiset{s[0]} + multiset(s[1..]);
    assert multiset(t[..i] + t[i + 1..]) == multiset(t[..i]) + multiset(t[i + 1..]);
    assert multiset(s[1..]) == multiset(s) - multiset{s[0]};
    assert multiset(t[..i]) + multiset(t[i + 1..]) == multiset(t) - multiset{t[i]};
  }

  lemma TailSorted(s: seq<Process>)
    requires SortedByMatch(s) && |s| > 0
    ensures SortedByMatch(s[1..])
  {
    forall x, y | 0 <= x < y < |s| - 1 ensures s[1..][x].matchIndex <= s[1..][y].matchIndex {
      assert s[1..][x] == s[x + 1] && s[1..][y] == s[y + 1];
    }
  }

  /** Though the sort is unstable, the order of the keys it produces is
      determined: two sorted rearrangements of the same rows agree on the
      match index at every position. */
  lemma {:induction false} SortedKeysUnique(s: seq<Process>, t: seq<Process>)
    requires SortedPermutationOf(s, t) && SortedByMatch(t)
    ensures |s| == |t|
    ensures forall k :: 0 <= k < |s| ==> s[k].matchIndex == t[k].matchIndex
    decreases |s|
  {
    assert |s| == |multiset(s)| == |multiset(t)| == |t|;
    if |s| > 0 {
      assert s[0] in multiset(t);
      var i :| 0 <= i < |t| && t[i] == s[0];
      assert t[0] in multiset(s);
      var j :| 0 <= j < |s| && s[j] == t[0];
      assert s[0].matchIndex <= s[j].matchIndex;
      assert t[0].matchIndex <= t[i].matchIndex;
      var t' := t[..i] + t[i + 1..];
      RemoveKeepsSorted(t, i);
      RemoveFromBoth(s, t, i);
      TailSorted(s);
      SortedKeysUnique(s[1..], t');
      forall k | 0 <= k < |s| ensures s[k].matchIndex == t[k].matchIndex {
        if k > 0 {
          assert s[k] == s[1..][k - 1];
          if k - 1 < i {
            assert t'[k - 1] == t[k - 1];
            assert t[k].matchIndex <= t[i].matchIndex;
          } else {
            assert t'[k - 1] == t[k];
          }
        }
      }
    }
  }
}
