/**
 * Splitting a list of integers into maximal runs of consecutive values, as
 * used to display partition ids compactly ("0 .. 3, 7, 9 .. 10").
 */
module GroupConsecutive {

  /** The groups concatenated in order. */
  function Flatten(groups: seq<seq<int>>): seq<int> {
    if groups == [] then [] else Flatten(groups[..|groups| - 1]) + groups[|groups| - 1]
  }

  /** A non-empty list in which every element is its predecessor plus one. */
  ghost predicate IsRun(g: seq<int>) {
    |g| > 0 && forall i | 0 < i < |g| :: Continues(g, i)
  }

  /** No group could be extended by the first element of the next one. */
  ghost predicate RunsAreMaximal(groups: seq<seq<int>>) {
    forall i | 0 < i < |groups| :: Separated(groups, i)
  }

  /** Group i does not start with the successor of the last element of group i - 1. */
  ghost predicate Separated(groups: seq<seq<int>>, i: int)
    requires 0 < i < |groups|
  {
    |groups[i]| > 0 && |groups[i - 1]| > 0 ==> groups[i][0] != groups[i - 1][|groups[i - 1]| - 1] + 1
  }

  /** groups splits ar, in order, into maximal runs. */
  ghost predicate IsRunSplit(ar: seq<int>, groups: seq<seq<int>>) {
    && Flatten(groups) == ar
    && (forall i | 0 <= i < |groups| :: IsRun(groups[i]))
    && RunsAreMaximal(groups)
  }

  lemma FlattenSnoc(groups: seq<seq<int>>, g: seq<int>)
    ensures Flatten(groups + [g]) == Flatten(groups) + g
  {
    assert (groups + [g])[..|groups|] == groups;
  }

  /**
   * The single pass over ar: an element one more than the last element of
   * the last group extends that group, any other element starts a new one.
   */
  method GroupConsecutive(ar: seq<int>) returns (groups: seq<seq<int>>)
    ensures Flatten(groups) == ar
    ensures forall i | 0 <= i < |groups| :: IsRun(groups[i])
    ensures RunsAreMaximal(groups)
    ensures ar == [] <==> groups == []
  {
    groups := [];
    for k := 0 to |ar|
      invariant IsRunSplit(ar[..k], groups)
      invariant k > 0 ==> |groups| > 0 && groups[|groups| - 1][|groups[|groups| - 1]| - 1] == ar[k - 1]
    {
      var cur := ar[k];
      assert ar[..k + 1] == ar[..k] + [cur];
      if |groups| > 0 && groups[|groups| - 1][|groups[|groups| - 1]| - 1] == cur - 1 {
        ExtendLastGroup(ar[..k], groups, cur);
        groups := groups[..|groups| - 1] + [groups[|groups| - 1] + [cur]];
      } else {
        StartGroup(ar[..k], groups, cur);
        groups := groups + [[cur]];
      }
    }
    assert ar[..|ar|] == ar;
  }

  /** Appending the successor of the last element to the last group keeps a split into maximal runs. */
  lemma ExtendLastGroup(xs: seq<int>, groups: seq<seq<int>>, cur: int)
    requires IsRunSplit(xs, groups) && |groups| > 0
    requires |groups[|groups| - 1]| > 0 && groups[|groups| - 1][|groups[|groups| - 1]| - 1] == cur - 1
    ensures IsRunSplit(xs + [cur], groups[..|groups| - 1] + [groups[|groups| - 1] + [cur]])
  {
    var n := |groups|;
    var front, group := groups[..n - 1], groups[n - 1];
    var next := front + [group + [cur]];
    assert groups == front + [group];
    FlattenSnoc(front, group);
    FlattenSnoc(front, group + [cur]);
    assert IsRun(group);
    forall i | 0 < i < |group + [cur]| ensures Continues(group + [cur], i) {
      if i < |group| {
        assert Continues(group, i);
      }
    }
    forall i | 0 <= i < |next| ensures IsRun(next[i]) {
      if i < n - 1 {
        assert next[i] == groups[i];
      }
    }
    forall i | 0 < i < |next| ensures Separated(next, i) {
      assert Separated(groups, i);
      if i < n - 1 {
        assert next[i] == groups[i] && next[i - 1] == groups[i - 1];
      } else {
        assert next[i][0] == groups[i][0] && next[i - 1] == groups[i - 1];
      }
    }
  }

  /** Starting a new group with an element that does not continue the last group keeps a split into maximal runs. */
  lemma StartGroup(xs: seq<int>, groups: seq<seq<int>>, cur: int)
    requires IsRunSplit(xs, groups)
    requires |groups| > 0 ==> groups[|groups| - 1][|groups[|groups| - 1]| - 1] != cur - 1
    ensures IsRunSplit(xs + [cur], groups + [[cur]])
  {
    var next := groups + [[cur]];
    FlattenSnoc(groups, [cur]);
    assert IsRun([cur]);
    forall i | 0 <= i < |next| ensures IsRun(next[i]) {
      if i < |groups| {
        assert next[i] == groups[i];
      }
    }
    forall i | 0 < i < |next| ensures Separated(next, i) {
      if i < |groups| {
        assert Separated(groups, i);
        assert next[i] == groups[i] && next[i - 1] == groups[i - 1];
      }
    }
  }

  /** The element before the last group is the last element of the group before it. */
  lemma FlattenLast(groups: seq<seq<int>>)
    requires |groups| > 0 && |groups[|groups| - 1]| > 0
    ensures |Flatten(groups)| > 0
    ensures Flatten(groups)[|Flatten(groups)| - 1] == groups[|groups| - 1][|groups[|groups| - 1]| - 1]
  {
  }

  /**
   * q is where the last maximal run of ar starts: q is 0 or ar[q] does not
   * continue ar[q - 1], and every later element continues its predecessor.
   */
  ghost predicate LastRunStart(ar: seq<int>, q: int) {
    && 0 <= q < |ar|
    && (q == 0 || !Continues(ar, q))
    && forall k | q < k < |ar| :: Continues(ar, k)
  }

  /** ar[k] is one more than the element before it. */
  predicate Continues(ar: seq<int>, k: int)
    requires 0 < k < |ar|
  {
    ar[k] == ar[k - 1] + 1
  }

  lemma LastRunStartUnique(ar: seq<int>, q1: int, q2: int)
    requires LastRunStart(ar, q1) && LastRunStart(ar, q2)
    ensures q1 == q2
  {
  }

  /**
   * The last group of a split into maximal runs is the suffix of ar from a
   * run boundary q: q is 0 or ar[q] does not continue ar[q - 1], and every
   * later element continues its predecessor.
   */
  lemma LastRun(ar: seq<int>, groups: seq<seq<int>>)
    requires IsRunSplit(ar, groups) && groups != []
    ensures var q := |ar| - |groups[|groups| - 1]|;
            && 0 <= q < |ar|
            && groups[|groups| - 1] == ar[q..]
            && IsRunSplit(ar[..q], groups[..|groups| - 1])
            && LastRunStart(ar, q)
  {
    var n := |groups|;
    var front, last := groups[..n - 1], groups[n - 1];
    assert groups == front + [last];
    assert IsRun(last);
    var q := |ar| - |last|;
    assert Flatten(front) + last == ar;
    assert Flatten(front) == ar[..q] && last == ar[q..];
    forall k | q < k < |ar| ensures Continues(ar, k) {
      assert Continues(last, k - q);
      assert ar[k] == last[k - q] && ar[k - 1] == last[k - q - 1];
    }
    assert IsRunSplit(ar[..q], front) by {
      assert forall i | 0 <= i < |front| :: front[i] == groups[i];
      forall i | 0 < i < |front| ensures Separated(front, i) {
        assert Separated(groups, i);
      }
    }
    if q > 0 {
      assert front != [];
      assert IsRun(groups[n - 2]);
      FlattenLast(front);
      assert ar[q - 1] == groups[n - 2][|groups[n - 2]| - 1];
      assert ar[q] == groups[n - 1][0];
      assert Separated(groups, n - 1);
    }
  }

  /**
   * The split into maximal runs is unique: any two splits of the same list
   * into maximal runs are equal, so the method's result is determined by its
   * postconditions.
   */
  lemma {:induction false} RunSplitUnique(ar: seq<int>, g1: seq<seq<int>>, g2: seq<seq<int>>)
    requires IsRunSplit(ar, g1) && IsRunSplit(ar, g2)
    ensures g1 == g2
    decreases |ar|
  {
    if g1 == [] || g2 == [] {
      if g1 != [] {
        LastRun(ar, g1);
      }
      if g2 != [] {
        LastRun(ar, g2);
      }
      return;
    }
    LastRun(ar, g1);
    LastRun(ar, g2);
    var n1, n2 := |g1|, |g2|;
    var q1, q2 := |ar| - |g1[n1 - 1]|, |ar| - |g2[n2 - 1]|;
    LastRunStartUnique(ar, q1, q2);
    RunSplitUnique(ar[..q1], g1[..n1 - 1], g2[..n2 - 1]);
    assert g1 == g1[..n1 - 1] + [g1[n1 - 1]];
    assert g2 == g2[..n2 - 1] + [g2[n2 - 1]];
  }

  /** The worked example: [1, 2, 3, 7, 8, 10] splits into [[1, 2, 3], [7, 8], [10]]. */
  lemma GroupExample()
    ensures IsRunSplit([1, 2, 3, 7, 8, 10], [[1, 2, 3], [7, 8], [10]])
  {
    assert Flatten([[1, 2, 3]]) == [1, 2, 3];
    assert Flatten([[1, 2, 3], [7, 8]]) == [1, 2, 3, 7, 8];
    assert [[1, 2, 3], [7, 8], [10]][..2] == [[1, 2, 3], [7, 8]];
    assert [[1, 2, 3], [7, 8]][..1] == [[1, 2, 3]];
  }
}
