/** lalr.c: transpose, which turns the successor lists of a relation around. */
module Transposing {

  /** How often x occurs in the first m lists. */
  ghost function Total(R: seq<seq<nat>>, x: nat, m: nat): nat
    requires m <= |R|
  {
    if m == 0 then 0 else Total(R, x, m - 1) + multiset(R[m - 1])[x]
  }

  lemma {:induction false} TotalGrows(R: seq<seq<nat>>, x: nat, m: nat, n: nat)
    requires m <= n <= |R|
    ensures Total(R, x, m) <= Total(R, x, n)
    ensures m < n ==> Total(R, x, m) + multiset(R[m])[x] <= Total(R, x, n)
    decreases n
  {
    if m < n { TotalGrows(R, x, m, n - 1); }
  }

  ghost predicate InRange(R: seq<seq<nat>>)
  {
    forall i, k :: 0 <= i < |R| && 0 <= k < |R[i]| ==> R[i][k] < |R|
  }

  /** The first pass: the length of each new list. */
  method CountEdges(R: seq<seq<nat>>) returns (nedges: seq<nat>)
    requires InRange(R)
    ensures |nedges| == |R| && forall x :: 0 <= x < |R| ==> nedges[x] == Total(R, x, |R|)
  {
    var n := |R|;
    var counts := new nat[n](_ => 0);
    for i := 0 to n
      invariant forall x :: 0 <= x < n ==> counts[x] == Total(R, x, i)
    {
      for k := 0 to |R[i]|
        invariant forall x :: 0 <= x < n ==> counts[x] == Total(R, x, i) + multiset(R[i][..k])[x]
      {
        assert R[i][..k + 1] == R[i][..k] + [R[i][k]];
        counts[R[i][k]] := counts[R[i][k]] + 1;
      }
      assert R[i][..|R[i]|] == R[i];
    }
    nedges := counts[..];
  }

  /** List x while the second pass fills it from the first m lists and part of the next. */
  ghost predicate FilledList(R: seq<seq<nat>>, x: nat, m: nat, part: seq<nat>, list: seq<nat>)
    requires m <= |R|
  {
    && |list| == Total(R, x, m) + multiset(part)[x]
    && (forall j: nat :: multiset(list)[j] == if j < m then multiset(R[j])[x] else if j == m then multiset(part)[x]
       else 0)
  }

  lemma FillList(R: seq<seq<nat>>, x: nat, m: nat, part: seq<nat>, e: nat, list: seq<nat>)
    requires m < |R| && FilledList(R, x, m, part, list)
    ensures FilledList(R, x, m, part + [e], if x == e then list + [m] else list)
  {}

  lemma NextList(R: seq<seq<nat>>, x: nat, m: nat, list: seq<nat>)
    requires m < |R| && FilledList(R, x, m, R[m], list)
    ensures FilledList(R, x, m + 1, [], list)
  {}

  ghost predicate AllFilled(R: seq<seq<nat>>, m: nat, part: seq<nat>, lists: seq<seq<nat>>)
    requires m <= |R|
  {
    |lists| == |R| && forall x :: 0 <= x < |R| ==> FilledList(R, x, m, part, lists[x])
  }

  /** One edge of list m: the space counted for the new list is not used up yet. */
  lemma FillEdge(R: seq<seq<nat>>, m: nat, k: nat, lists: seq<seq<nat>>)
    requires InRange(R) && m < |R| && k < |R[m]| && AllFilled(R, m, R[m][..k], lists)
    ensures R[m][k] < |R| && |lists[R[m][k]]| < Total(R, R[m][k], |R|)
    ensures AllFilled(R, m, R[m][..k + 1], lists[R[m][k] := lists[R[m][k]] + [m]])
  {
    var e := R[m][k];
    hide FilledList;
    assert R[m][..k + 1] == R[m][..k] + [e];
    var lists' := lists[e := lists[e] + [m]];
    forall x | 0 <= x < |R| ensures FilledList(R, x, m, R[m][..k + 1], lists'[x]) {
      FillList(R, x, m, R[m][..k], e, lists[x]);
    }
    TotalGrows(R, e, m, |R|);
    PartOf(R[m], k);
    FilledLength(R, e, m, R[m][..k], lists[e]);
  }

  lemma FilledLength(R: seq<seq<nat>>, x: nat, m: nat, part: seq<nat>, list: seq<nat>)
    requires m <= |R| && FilledList(R, x, m, part, list)
    ensures |list| == Total(R, x, m) + multiset(part)[x]
  {}

  lemma NextLists(R: seq<seq<nat>>, m: nat, lists: seq<seq<nat>>)
    requires m < |R| && AllFilled(R, m, R[m], lists)
    ensures AllFilled(R, m + 1, [], lists)
  {
    hide FilledList;
    forall x | 0 <= x < |R| ensures FilledList(R, x, m + 1, [], lists[x]) { NextList(R, x, m, lists[x]); }
  }

  /** The second pass, over list m. */
  method FillFrom(R: seq<seq<nat>>, m: nat, nedges: seq<nat>, newR: array<seq<nat>>)
    requires InRange(R) && m < |R| && newR.Length == |R| == |nedges| && AllFilled(R, m, [], newR[..])
    requires forall x :: 0 <= x < |R| ==> nedges[x] == Total(R, x, |R|)
    modifies newR
    ensures AllFilled(R, m + 1, [], newR[..])
  {
    hide AllFilled;
    assert R[m][..0] == [];
    for k := 0 to |R[m]|
      invariant AllFilled(R, m, R[m][..k], newR[..])
    {
      ghost var was := newR[..];
      FillEdge(R, m, k, was);
      var e := R[m][k];
      assert |newR[e]| < nedges[e];
      newR[e] := newR[e] + [m];
      assert newR[..] == was[e := was[e] + [m]];
    }
    assert R[m][..|R[m]|] == R[m];
    NextLists(R, m, newR[..]);
  }

  /** i occurs in list j as often as j occurred in list i; the space counted for a list is
      never exceeded, and is filled in the end. */
  method Transpose(R: seq<seq<nat>>) returns (T: seq<seq<nat>>)
    requires InRange(R)
    ensures |T| == |R| && InRange(T)
    ensures forall i, j :: 0 <= i < |R| && 0 <= j < |R| ==> multiset(T[j])[i] == multiset(R[i])[j]
  {
    hide AllFilled;
    var n := |R|;
    var nedges := CountEdges(R);
    var newR := new seq<nat>[n](_ => []);
    NoneFilled(R, newR[..]);
    for i := 0 to n
      invariant AllFilled(R, i, [], newR[..])
    {
      FillFrom(R, i, nedges, newR);
    }
    T := newR[..];
    FilledIsTranspose(R, T);
  }

  lemma NoneFilled(R: seq<seq<nat>>, lists: seq<seq<nat>>)
    requires |lists| == |R| && forall x :: 0 <= x < |R| ==> lists[x] == []
    ensures AllFilled(R, 0, [], lists)
  {}

  lemma FilledIsTranspose(R: seq<seq<nat>>, T: seq<seq<nat>>)
    requires AllFilled(R, |R|, [], T)
    ensures |T| == |R| && InRange(T)
    ensures forall i, j :: 0 <= i < |R| && 0 <= j < |R| ==> multiset(T[j])[i] == multiset(R[i])[j]
  {
    forall j, k | 0 <= j < |R| && 0 <= k < |T[j]| ensures T[j][k] < |R| {
      assert FilledList(R, j, |R|, [], T[j]) && multiset(T[j])[T[j][k]] > 0;
    }
    forall i, j | 0 <= i < |R| && 0 <= j < |R| ensures multiset(T[j])[i] == multiset(R[i])[j] {
      assert FilledList(R, j, |R|, [], T[j]);
    }
  }

  lemma PartOf(s: seq<nat>, k: nat)
    requires k < |s|
    ensures multiset(s[..k])[s[k]] < multiset(s)[s[k]]
  {
    assert s == s[..k] + [s[k]] + s[k + 1..];
  }
}
