/** lalr.c: digraph and traverse.  One depth-first pass closes the rows of F under a relation,
    keeping the vertices of each strongly connected component together on a stack. */
module Digraphs {
  import opened Bits
  import opened Reach

  /** A relation as successor lists, and the rows of F to start from. */
  datatype Problem = Problem(R: seq<seq<nat>>, f0: seq<set<nat>>)
  {
    ghost predicate Ok()
    {
      |f0| == |R| && forall x, k :: 0 <= x < |R| && 0 <= k < |R[x]| ==> R[x][k] < |R|
    }

    ghost function Edges(): Rel
    {
      (x: nat, y: nat) => x < |R| && y in R[x]
    }

    /** t belongs in row x: it is in the original row of some vertex that x reaches. */
    ghost predicate Gets(x: nat, t: nat)
    {
      exists y: nat :: y < |f0| && Reaches(Edges(), x, y) && t in f0[y]
    }

    lemma GetsOwn(x: nat, t: nat)
      requires x < |f0| && t in f0[x]
      ensures Gets(x, t)
    {
      ReachesRefl(Edges(), x);
    }

    lemma GetsBack(x: nat, y: nat, t: nat)
      requires Reaches(Edges(), x, y) && Gets(y, t)
      ensures Gets(x, t)
    {
      var z: nat :| z < |f0| && Reaches(Edges(), y, z) && t in f0[z];
      ReachesTrans(Edges(), x, y, z);
    }
  }

  /** INDEX, the live part VERTICES[1..top + 1] of the stack, and the rows of F. */
  datatype State = State(index: seq<nat>, stack: seq<nat>, rows: seq<set<nat>>)
  {
    function Infinity(): nat { |index| + 2 }

    /** The vertices on the stack are the ones whose index is neither 0 (not visited) nor
        infinity (done); the index of a vertex is at most its place, counted from 1. */
    ghost predicate Stacked(n: nat)
    {
      && |index| == |rows| == n
      && (forall p :: 0 <= p < |stack| ==> stack[p] < n && 1 <= index[stack[p]] <= p + 1)
      && (forall p, q :: 0 <= p < q < |stack| ==> stack[p] != stack[q])
      && (forall v :: 0 <= v < n && v !in stack ==> index[v] == 0 || index[v] == Infinity())
    }

    /** A finished edge: its target is visited; if on the stack, v's index is no higher than its
        place; if done, its row is part of v's row. */
    ghost predicate EdgeOk(v: nat, d: nat)
      requires v < |index| == |rows|
    {
      && d < |index| && index[d] != 0
      && (forall q :: 0 <= q < |stack| && stack[q] == d ==> index[v] <= q + 1)
      && (index[d] == Infinity() ==> rows[d] <= rows[v])
    }

    ghost predicate EdgesOk(p: Problem, v: nat, k: nat)
      requires v < |index| == |rows| == |p.R| && k <= |p.R[v]|
    {
      forall l :: 0 <= l < k ==> EdgeOk(v, p.R[v][l])
    }

    /** The vertex at place i of the stack has been traversed, but its component's root has not. */
    ghost predicate Finished(p: Problem, i: nat)
      requires Stacked(|p.R|) && i < |stack|
    {
      index[stack[i]] <= i && EdgesOk(p, stack[i], |p.R[stack[i]]|)
    }

    /** A vertex that is done has its final row, and only done successors. */
    ghost predicate Done(p: Problem, v: nat)
      requires Stacked(|p.R|) && v < |p.R|
    {
      && (forall l :: 0 <= l < |p.R[v]| ==> p.R[v][l] < |index| && index[p.R[v][l]] == Infinity())
      && (forall t: nat :: t in rows[v] <==> p.Gets(v, t))
    }

    /** What holds whenever traverse is entered or left; active holds the vertices whose
        traversal is under way. */
    ghost predicate Inv(p: Problem, active: set<nat>)
    {
      && p.Ok() && Stacked(|p.R|) && ActiveOnStack(active)
      && AllDone(p) && AllBounded(p) && AllReachLow(p) && AllFinished(p, active)
    }

    ghost predicate ActiveOnStack(active: set<nat>)
    {
      forall v :: v in active ==> v in stack
    }

    ghost predicate AllDone(p: Problem)
      requires Stacked(|p.R|)
    {
      forall v :: 0 <= v < |p.R| && index[v] == Infinity() ==> Done(p, v)
    }

    ghost predicate AllBounded(p: Problem)
      requires p.Ok() && Stacked(|p.R|)
    {
      forall v :: 0 <= v < |p.R| ==> RowBounds(p, v)
    }

    ghost predicate AllReachLow(p: Problem)
      requires Stacked(|p.R|)
    {
      forall i :: 0 <= i < |stack| ==> ReachesLow(p, i)
    }

    ghost predicate ReachesLow(p: Problem, i: nat)
      requires Stacked(|p.R|) && i < |stack|
    {
      Reaches(p.Edges(), stack[i], stack[index[stack[i]] - 1])
    }

    ghost predicate AllFinished(p: Problem, active: set<nat>)
      requires Stacked(|p.R|)
    {
      forall i :: 0 <= i < |stack| && stack[i] !in active ==> Finished(p, i)
    }

    ghost predicate RowBounds(p: Problem, v: nat)
      requires v < |p.R| == |rows| == |p.f0|
    {
      p.f0[v] <= rows[v] && forall t: nat :: t in rows[v] ==> p.Gets(v, t)
    }

    /** From place h on, the stack holds what the traversal of v put there. */
    ghost predicate Above(p: Problem, h: nat, v: nat)
      requires v < |index| == |rows|
    {
      forall i :: h <= i < |stack| ==> Below(p, v, stack[i])
    }

    ghost predicate Below(p: Problem, v: nat, u: nat)
      requires v < |index| == |rows|
    {
      u < |index| && index[v] <= index[u] && Reaches(p.Edges(), v, u) && rows[u] <= rows[v]
    }

    /** The traversal of vertex i, entered in state was and now at place h of the stack, has
        followed its first k edges. */
    ghost predicate Following(p: Problem, was: State, active: set<nat>, i: nat, k: nat)
    {
      && i < |p.R| == |index| == |rows| == |was.index| == |was.rows| && k <= |p.R[i]|
      && was.index[i] == 0 && i !in active
      && Inv(p, active + {i}) && Extends(was)
      && |was.stack| < |stack| && stack[|was.stack|] == i
      && Above(p, |was.stack| + 1, i) && EdgesOk(p, i, k)
    }

    /** Everything visited before is as it was. */
    ghost predicate Extends(was: State)
      requires |index| == |rows| == |was.index| == |was.rows|
    {
      && was.stack <= stack
      && forall v :: 0 <= v < |index| && was.index[v] != 0 ==> index[v] == was.index[v] && rows[v] == was.rows[v]
    }
  }

  // ----- what is visited stays as it is -----

  lemma DoneStays(p: Problem, s: State, t: State, v: nat)
    requires p.Ok() && s.Stacked(|p.R|) && t.Stacked(|p.R|) && t.Extends(s)
    requires v < |p.R| && s.index[v] == s.Infinity() && s.Done(p, v)
    ensures t.Done(p, v)
  {
    hide Problem.Gets;
    forall l | 0 <= l < |p.R[v]| ensures t.index[p.R[v][l]] == t.Infinity() {
      assert s.index[p.R[v][l]] == s.Infinity();
    }
  }

  lemma EdgeStays(p: Problem, s: State, t: State, v: nat, d: nat)
    requires s.Stacked(|p.R|) && t.Stacked(|p.R|) && t.Extends(s)
    requires v < |p.R| && s.index[v] != 0 && s.EdgeOk(v, d)
    ensures t.EdgeOk(v, d)
  {
    forall q | 0 <= q < |t.stack| && t.stack[q] == d ensures t.index[v] <= q + 1 {
      assert t.index[d] == s.index[d] <= q + 1 < t.Infinity() by { PlaceInRange(t, |p.R|, q); }
      assert d in s.stack;
      var r :| 0 <= r < |s.stack| && s.stack[r] == d;
      assert t.stack[r] == d;
    }
  }

  lemma PlaceInRange(s: State, n: nat, q: nat)
    requires s.Stacked(n) && q < |s.stack|
    ensures q < n
  {
    NumbersBelow(n);
    DistinctFits(s.stack, NumberSet(n));
  }

  lemma FinishedStays(p: Problem, s: State, t: State, i: nat)
    requires p.Ok() && s.Stacked(|p.R|) && t.Stacked(|p.R|) && t.Extends(s)
    requires i < |s.stack| && s.Finished(p, i)
    ensures t.Finished(p, i)
  {
    var v := s.stack[i];
    assert t.stack[i] == v && s.index[v] != 0;
    forall l | 0 <= l < |p.R[v]| ensures t.EdgeOk(v, p.R[v][l]) {
      assert s.EdgeOk(v, p.R[v][l]);
      EdgeStays(p, s, t, v, p.R[v][l]);
    }
  }

  lemma LowStays(p: Problem, s: State, t: State, i: nat)
    requires s.Stacked(|p.R|) && t.Stacked(|p.R|) && t.Extends(s)
    requires i < |s.stack| && s.ReachesLow(p, i)
    ensures t.ReachesLow(p, i)
  {
    hide Reaches;
    var v := s.stack[i];
    assert t.stack[i] == v && t.stack[s.index[v] - 1] == s.stack[s.index[v] - 1];
  }

  /** A later state keeps the invariant if what is newly visited obeys it. */
  lemma Extend(p: Problem, s: State, t: State, active: set<nat>, active': set<nat>)
    requires s.Inv(p, active) && t.Stacked(|p.R|) && t.Extends(s)
    requires active <= active' && t.ActiveOnStack(active')
    requires forall v :: 0 <= v < |p.R| && s.index[v] == 0 ==> t.RowBounds(p, v)
    requires forall v :: 0 <= v < |p.R| && s.index[v] == 0 && t.index[v] == t.Infinity() ==> t.Done(p, v)
    requires forall i :: |s.stack| <= i < |t.stack| ==> t.ReachesLow(p, i)
    requires forall i :: |s.stack| <= i < |t.stack| && t.stack[i] !in active' ==> t.Finished(p, i)
    ensures t.Inv(p, active')
  {
    Sizes(s, |p.R|);
    Sizes(t, |p.R|);
    hide State.Done, State.Finished, State.ReachesLow, State.RowBounds, State.Stacked;
    forall v | 0 <= v < |p.R| && t.index[v] == t.Infinity() ensures t.Done(p, v) {
      if s.index[v] != 0 { DoneStays(p, s, t, v); }
    }
    forall v | 0 <= v < |p.R| ensures t.RowBounds(p, v) {
      if s.index[v] != 0 { BoundsStay(p, s, t, v); }
    }
    forall i | 0 <= i < |t.stack| ensures t.ReachesLow(p, i) {
      if i < |s.stack| { LowStays(p, s, t, i); }
    }
    forall i | 0 <= i < |t.stack| && t.stack[i] !in active' ensures t.Finished(p, i) {
      if i < |s.stack| {
        assert t.stack[i] == s.stack[i];
        FinishedStays(p, s, t, i);
      }
    }
  }

  lemma Sizes(s: State, n: nat)
    requires s.Stacked(n)
    ensures |s.index| == |s.rows| == n
  {}

  lemma BoundsStay(p: Problem, s: State, t: State, v: nat)
    requires p.Ok() && v < |p.R| == |s.index| == |s.rows| == |t.index| == |t.rows| && t.Extends(s)
    requires s.index[v] != 0 && s.RowBounds(p, v)
    ensures t.RowBounds(p, v)
  {}

  // ----- the push at the start of traverse -----

  ghost function Pushed(s: State, i: nat): State
    requires i < |s.index|
  {
    State(s.index[i := |s.stack| + 1], s.stack + [i], s.rows)
  }

  lemma Push(p: Problem, s: State, active: set<nat>, i: nat)
    requires s.Inv(p, active) && i < |p.R| && s.index[i] == 0
    ensures Pushed(s, i).Inv(p, active + {i}) && Pushed(s, i).Extends(s)
    ensures Pushed(s, i).Above(p, |s.stack| + 1, i) && Pushed(s, i).EdgesOk(p, i, 0)
    ensures |s.stack| < |p.R|
  {
    hide Reaches, Problem.Gets, State.Done, State.Finished, State.RowBounds;
    var t := Pushed(s, i);
    StackFits(s, i, |p.R|);
    ReachesRefl(p.Edges(), i);
    forall v | 0 <= v < |p.R| && s.index[v] == 0 ensures t.RowBounds(p, v) {
      SameBounds(p, s, t, v);
    }
    Extend(p, s, t, active, active + {i});
  }

  lemma SameBounds(p: Problem, s: State, t: State, v: nat)
    requires p.Ok() && v < |p.R| == |s.rows| && t.rows == s.rows && s.RowBounds(p, v)
    ensures t.RowBounds(p, v)
  {}

  /** The stack never holds more than the vertices: there is room to push an unvisited one. */
  lemma StackFits(s: State, i: nat, n: nat)
    requires s.Stacked(n) && i < n && s.index[i] == 0
    ensures i !in s.stack && |s.stack| < n
  {
    assert i !in s.stack;
    NumbersBelow(n);
    DistinctFits(s.stack, NumberSet(n) - {i});
  }

  ghost function NumberSet(n: nat): set<nat> { if n == 0 then {} else NumberSet(n - 1) + {n - 1} }

  lemma {:induction false} NumbersBelow(n: nat)
    ensures |NumberSet(n)| == n && forall v: nat :: v in NumberSet(n) <==> v < n
  {
    if n > 0 { NumbersBelow(n - 1); }
  }

  lemma {:induction false} DistinctFits(s: seq<nat>, all: set<nat>)
    requires forall p :: 0 <= p < |s| ==> s[p] in all
    requires forall p, q :: 0 <= p < q < |s| ==> s[p] != s[q]
    ensures |s| <= |all|
  {
    if s != [] {
      var last := s[|s| - 1];
      DistinctFits(s[..|s| - 1], all - {last});
    }
  }

  // ----- one edge of the loop -----

  /** if (INDEX[i] > INDEX[j]) INDEX[i] = INDEX[j]; and row i |= row j. */
  ghost function Touched(s: State, i: nat, j: nat): State
    requires i < |s.index| == |s.rows| && j < |s.index|
  {
    State(s.index[i := if s.index[i] > s.index[j] then s.index[j] else s.index[i]],
          s.stack, s.rows[i := s.rows[i] + s.rows[j]])
  }

  /** The state after the edge from the active vertex i to the visited vertex j. */
  lemma Touch(p: Problem, s: State, active: set<nat>, i: nat, j: nat)
    requires s.Inv(p, active) && i in active && i < |p.R| && j in p.R[i] && j < |p.R| && s.index[j] != 0
    ensures Touched(s, i, j).Inv(p, active)
  {
    var t := Touched(s, i, j);
    hide Reaches, Problem.Gets, State.Done, State.Finished, State.RowBounds, State.ReachesLow;
    TouchedStacked(p, s, i, j, active);
    forall v | 0 <= v < |p.R| && t.index[v] == t.Infinity() ensures t.Done(p, v) {
      assert v != i;
      TouchDone(p, s, i, j, v);
    }
    forall v | 0 <= v < |p.R| ensures t.RowBounds(p, v) { TouchBounds(p, s, i, j, v); }
    forall q | 0 <= q < |t.stack| ensures t.ReachesLow(p, q) { TouchLow(p, s, i, j, q); }
    forall q | 0 <= q < |t.stack| && t.stack[q] !in active ensures t.Finished(p, q) {
      TouchFinished(p, s, i, j, q);
    }
  }

  lemma TouchedStacked(p: Problem, s: State, i: nat, j: nat, active: set<nat>)
    requires s.Stacked(|p.R|) && s.ActiveOnStack(active) && i in active && i < |p.R| && j < |p.R| && s.index[j] != 0
    ensures Touched(s, i, j).Stacked(|p.R|) && i in s.stack
    ensures Touched(s, i, j).index[i] <= s.index[i] && Touched(s, i, j).index[i] != 0
    ensures Touched(s, i, j).index[i] != s.Infinity() && s.index[i] != s.Infinity()
  {
    var q :| 0 <= q < |s.stack| && s.stack[q] == i;
    PlaceInRange(s, |p.R|, q);
    TouchedIndex(s, |p.R|, i, j, q);
    LowerIndex(s, |p.R|, i, Touched(s, i, j).index[i], Touched(s, i, j).rows);
  }

  lemma TouchedIndex(s: State, n: nat, i: nat, j: nat, q: nat)
    requires s.Stacked(n) && q < n && q < |s.stack| && s.stack[q] == i && i < n && j < n && s.index[j] != 0
    ensures 1 <= Touched(s, i, j).index[i] <= s.index[i] < s.Infinity()
  {}

  /** A vertex on the stack may get a lower index. */
  lemma LowerIndex(s: State, n: nat, i: nat, m: nat, rows: seq<set<nat>>)
    requires s.Stacked(n) && i < n && i in s.stack && 1 <= m <= s.index[i] && |rows| == n
    ensures State(s.index[i := m], s.stack, rows).Stacked(n)
  {}

  lemma TouchDone(p: Problem, s: State, i: nat, j: nat, v: nat)
    requires p.Ok() && s.Stacked(|p.R|) && i < |p.R| && j < |p.R| && Touched(s, i, j).Stacked(|p.R|)
    requires s.index[i] != s.Infinity() && v < |p.R| && v != i && s.Done(p, v)
    ensures Touched(s, i, j).Done(p, v)
  {
    hide Problem.Gets;
    var t := Touched(s, i, j);
    forall l | 0 <= l < |p.R[v]| ensures t.index[p.R[v][l]] == t.Infinity() {
      assert s.index[p.R[v][l]] == s.Infinity();
    }
  }

  lemma TouchBounds(p: Problem, s: State, i: nat, j: nat, v: nat)
    requires p.Ok() && s.Stacked(|p.R|) && i < |p.R| && j < |p.R| && j in p.R[i] && v < |p.R|
    requires s.RowBounds(p, v) && s.RowBounds(p, j)
    ensures Touched(s, i, j).RowBounds(p, v)
  {
    hide Problem.Gets;
    if v == i {
      ReachesEdge(p.Edges(), i, j);
      forall t: nat | t in s.rows[j] ensures p.Gets(i, t) { p.GetsBack(i, j, t); }
    }
  }

  lemma TouchLow(p: Problem, s: State, i: nat, j: nat, q: nat)
    requires p.Ok() && s.Stacked(|p.R|) && i < |p.R| && j < |p.R| && j in p.R[i] && s.index[j] != 0
    requires Touched(s, i, j).Stacked(|p.R|) && s.AllReachLow(p) && q < |s.stack|
    ensures Touched(s, i, j).ReachesLow(p, q)
  {
    hide Reaches, Touched;
    PlaceInRange(s, |p.R|, q);
    TouchedAt(s, i, j, s.stack[q]);
    assert s.ReachesLow(p, q);
    if s.stack[q] == i && s.index[j] < s.index[i] {
      var r := LowerOnStack(s, |p.R|, i, j, q);
      assert s.ReachesLow(p, r);
      ReachesCons(p.Edges(), i, j, s.stack[s.index[j] - 1]);
    }
  }

  lemma TouchedAt(s: State, i: nat, j: nat, v: nat)
    requires i < |s.index| == |s.rows| && j < |s.index| && v < |s.index|
    ensures Touched(s, i, j).stack == s.stack && |Touched(s, i, j).index| == |s.index|
    ensures Touched(s, i, j).index[v] == if v == i && s.index[j] < s.index[i] then s.index[j] else s.index[v]
  {}

  /** A vertex with a lower index than one on the stack is itself on the stack. */
  lemma LowerOnStack(s: State, n: nat, i: nat, j: nat, q: nat) returns (r: nat)
    requires s.Stacked(n) && q < |s.stack| && s.stack[q] == i && i < n && j < n && 0 != s.index[j] < s.index[i]
    ensures r < |s.stack| && s.stack[r] == j
  {
    PlaceInRange(s, n, q);
    assert j in s.stack;
    r :| 0 <= r < |s.stack| && s.stack[r] == j;
  }

  lemma TouchFinished(p: Problem, s: State, i: nat, j: nat, q: nat)
    requires p.Ok() && s.Stacked(|p.R|) && i < |p.R| && j < |p.R|
    requires Touched(s, i, j).Stacked(|p.R|) && s.index[i] != 0 && Touched(s, i, j).index[i] != 0
    requires s.index[i] != s.Infinity() && Touched(s, i, j).index[i] != s.Infinity()
    requires q < |s.stack| && s.stack[q] != i && s.Finished(p, q)
    ensures Touched(s, i, j).Finished(p, q)
  {
    var t, v := Touched(s, i, j), s.stack[q];
    forall l | 0 <= l < |p.R[v]| ensures t.EdgeOk(v, p.R[v][l]) {
      assert s.EdgeOk(v, p.R[v][l]);
    }
  }

  /** The loop's own facts after the edge: every vertex above i was below i or j before it. */
  lemma TouchAbove(p: Problem, s: State, active: set<nat>, i: nat, j: nat, h: nat, k: nat)
    requires s.Inv(p, active) && i < |p.R| && j < |p.R| && Touched(s, i, j).Inv(p, active)
    requires 1 <= h <= |s.stack| && s.stack[h - 1] == i && i in active
    requires k < |p.R[i]| && p.R[i][k] == j && s.index[j] != 0 && s.EdgesOk(p, i, k)
    requires forall q :: h <= q < |s.stack| ==> s.Below(p, i, s.stack[q]) || s.Below(p, j, s.stack[q])
    ensures Touched(s, i, j).Above(p, h, i) && Touched(s, i, j).EdgesOk(p, i, k + 1)
  {
    hide Reaches, Problem.Gets, State.AllDone, State.AllFinished, State.AllBounded, State.AllReachLow;
    var t := Touched(s, i, j);
    forall q | h <= q < |s.stack| ensures t.Below(p, i, t.stack[q]) {
      var u := s.stack[q];
      assert u != i;
      if !s.Below(p, i, u) { ReachesCons(p.Edges(), i, j, u); }
    }
    forall l | 0 <= l < k + 1 ensures t.EdgeOk(i, p.R[i][l]) {
      if l < k { assert s.EdgeOk(i, p.R[i][l]); }
      TouchEdge(p, s, i, j, h, p.R[i][l]);
    }
  }

  lemma TouchEdge(p: Problem, s: State, i: nat, j: nat, h: nat, d: nat)
    requires s.Stacked(|p.R|) && i < |p.R| && j < |p.R| && d < |p.R| && Touched(s, i, j).Stacked(|p.R|)
    requires 1 <= h <= |s.stack| && s.stack[h - 1] == i && s.index[j] != 0
    requires d == j || s.EdgeOk(i, d)
    ensures Touched(s, i, j).EdgeOk(i, d)
  {
    var t := Touched(s, i, j);
    PlaceInRange(s, |p.R|, h - 1);
    assert t.stack[h - 1] == i;
  }

  // ----- the pop of a component -----

  /** Places h - 1 and up are done: their indices are infinity and their rows are row i. */
  ghost function Popped(s: State, h: nat, i: nat): State
    requires 1 <= h <= |s.stack| + 1 && i < |s.rows| == |s.index|
  {
    State(seq(|s.index|, v requires 0 <= v < |s.index| => if v in s.stack[h - 1..] then s.Infinity() else s.index[v]),
          s.stack[..h - 1],
          seq(|s.rows|, v requires 0 <= v < |s.rows| => if v in s.stack[h - 1..] then s.rows[i] else s.rows[v]))
  }

  /** Every vertex from place h - 1 up reaches i, whose index is still its place. */
  lemma {:induction false} ComponentReaches(p: Problem, s: State, active: set<nat>, h: nat, i: nat, q: nat)
    requires s.Inv(p, active) && 1 <= h <= |s.stack| && s.stack[h - 1] == i && s.index[i] == h && s.Above(p, h, i)
    requires forall r :: h <= r < |s.stack| ==> s.stack[r] !in active
    requires h - 1 <= q < |s.stack|
    ensures Reaches(p.Edges(), s.stack[q], i)
    decreases q
  {
    hide Reaches, State.AllDone, State.AllBounded;
    if q == h - 1 {
      ReachesRefl(p.Edges(), i);
    } else {
      var v := s.stack[q];
      assert s.Finished(p, q) && s.Below(p, i, v) && s.ReachesLow(p, q);
      var r := s.index[v] - 1;
      ComponentReaches(p, s, active, h, i, r);
      ReachesTrans(p.Edges(), v, s.stack[r], i);
    }
  }

  /** An edge of the component stays in it or goes to a vertex that is done. */
  lemma ComponentEdge(p: Problem, s: State, active: set<nat>, h: nat, i: nat, q: nat, d: nat)
    requires s.Inv(p, active) && 1 <= h <= |s.stack| && s.stack[h - 1] == i && s.index[i] == h && s.Above(p, h, i)
    requires forall r :: h <= r < |s.stack| ==> s.stack[r] !in active
    requires i < |p.R| && s.EdgesOk(p, i, |p.R[i]|) && h - 1 <= q < |s.stack| && d in p.R[s.stack[q]]
    ensures d < |p.R|
    ensures d in s.stack[h - 1..] || (s.index[d] == s.Infinity() && s.rows[d] <= s.rows[i])
  {
    hide Reaches, State.AllDone, State.AllBounded, State.AllReachLow;
    var v := s.stack[q];
    var l :| 0 <= l < |p.R[v]| && p.R[v][l] == d;
    if q > h - 1 { assert s.Finished(p, q) && s.Below(p, i, v); }
    assert s.EdgeOk(v, d) && s.index[v] >= h && s.rows[v] <= s.rows[i];
    if s.index[d] != s.Infinity() {
      assert d in s.stack;
      var r :| 0 <= r < |s.stack| && s.stack[r] == d;
      assert s.stack[h - 1..][r - (h - 1)] == d;
    }
  }

  /** Row i is final: it holds all that is to be got at i. */
  lemma ComponentRow(p: Problem, s: State, active: set<nat>, h: nat, i: nat, t: nat)
    requires s.Inv(p, active) && 1 <= h <= |s.stack| && s.stack[h - 1] == i && s.index[i] == h && s.Above(p, h, i)
    requires forall r :: h <= r < |s.stack| ==> s.stack[r] !in active
    requires i < |p.R| && s.EdgesOk(p, i, |p.R[i]|)
    ensures t in s.rows[i] <==> p.Gets(i, t)
  {
    hide Reaches, State.AllFinished, State.AllReachLow;
    assert s.RowBounds(p, i);
    if p.Gets(i, t) {
      var y: nat :| y < |p.f0| && Reaches(p.Edges(), i, y) && t in p.f0[y];
      var good := (x: nat) => x < |p.R| &&
        (x in s.stack[h - 1..] || (s.index[x] == s.Infinity() && s.rows[x] <= s.rows[i]));
      assert s.stack[h - 1..][0] == i;
      forall a: nat, b: nat | good(a) && p.Edges()(a, b) ensures good(b) {
        if a in s.stack[h - 1..] {
          var q :| 0 <= q < |s.stack[h - 1..]| && s.stack[h - 1..][q] == a;
          ComponentEdge(p, s, active, h, i, q + h - 1, b);
        } else {
          DoneEdge(p, s, a, b);
        }
      }
      ReachesKeeps(p.Edges(), good, i, y);
      if y in s.stack[h - 1..] {
        var q :| 0 <= q < |s.stack[h - 1..]| && s.stack[h - 1..][q] == y;
        assert q > 0 ==> s.Below(p, i, s.stack[q + h - 1]);
      }
      assert s.RowBounds(p, y);
    }
  }

  lemma DoneEdge(p: Problem, s: State, a: nat, b: nat)
    requires p.Ok() && s.Stacked(|p.R|) && s.AllDone(p)
    requires a < |p.R| && s.index[a] == s.Infinity() && b in p.R[a]
    ensures b < |p.R| && s.index[b] == s.Infinity() && s.rows[b] <= s.rows[a]
  {
    hide Reaches;
    assert s.Done(p, a);
    var l :| 0 <= l < |p.R[a]| && p.R[a][l] == b;
    assert s.Done(p, b);
    ReachesEdge(p.Edges(), a, b);
    forall t: nat | p.Gets(b, t) ensures p.Gets(a, t) { p.GetsBack(a, b, t); }
  }

  /** After the pop nothing is left of the traversal of i but finished rows. */
  lemma Pop(p: Problem, was: State, s: State, active: set<nat>, i: nat)
    requires was.Inv(p, active) && i < |p.R| && was.index[i] == 0
    requires s.Inv(p, active + {i}) && s.Extends(was)
    requires |was.stack| < |s.stack| && s.stack[|was.stack|] == i && s.index[i] == |was.stack| + 1
    requires s.Above(p, |was.stack| + 1, i) && s.EdgesOk(p, i, |p.R[i]|)
    ensures Popped(s, |was.stack| + 1, i).Inv(p, active)
    ensures Popped(s, |was.stack| + 1, i).Extends(was)
    ensures Popped(s, |was.stack| + 1, i).index[i] != 0
  {
    NothingActiveAbove(p, was, s, active, i);
    PoppedStacked(p, was, s, active, i);
    var t := Popped(s, |was.stack| + 1, i);
    hide State.Done, State.RowBounds, State.ReachesLow, State.Finished, State.Above, State.EdgesOk, Popped;
    forall v | 0 <= v < |p.R| && was.index[v] == 0
      ensures t.RowBounds(p, v) && (t.index[v] == t.Infinity() ==> t.Done(p, v))
    {
      PopVertex(p, was, s, active, i, v);
    }
    Extend(p, was, t, active, active);
  }

  lemma PopVertex(p: Problem, was: State, s: State, active: set<nat>, i: nat, v: nat)
    requires s.Inv(p, active + {i}) && i < |p.R| && v < |p.R| && |was.stack| < |s.stack|
    requires s.stack[|was.stack|] == i && s.index[i] == |was.stack| + 1
    requires s.Above(p, |was.stack| + 1, i) && s.EdgesOk(p, i, |p.R[i]|)
    requires forall r :: |was.stack| + 1 <= r < |s.stack| ==> s.stack[r] !in active + {i}
    requires Popped(s, |was.stack| + 1, i).Stacked(|p.R|)
    ensures Popped(s, |was.stack| + 1, i).RowBounds(p, v)
    ensures var t := Popped(s, |was.stack| + 1, i); t.index[v] == t.Infinity() ==> t.Done(p, v)
  {
    hide State.Done, State.RowBounds, State.Above, State.EdgesOk, State.AllFinished, State.AllReachLow, Reaches,
         Problem.Gets;
    var h := |was.stack| + 1;
    var t := Popped(s, h, i);
    if v in s.stack[h - 1..] {
      var q :| 0 <= q < |s.stack[h - 1..]| && s.stack[h - 1..][q] == v;
      PoppedDone(p, s, active + {i}, h, i, q + h - 1);
    } else {
      assert s.RowBounds(p, v);
      if t.index[v] == t.Infinity() {
        assert s.Done(p, v);
        StillDone(p, s, h, i, v);
      } else {
        SameRow(p, s, t, v);
      }
    }
  }

  lemma SameRow(p: Problem, s: State, t: State, v: nat)
    requires v < |p.R| == |p.f0| == |s.rows| == |t.rows| && t.rows[v] == s.rows[v] && s.RowBounds(p, v)
    ensures t.RowBounds(p, v)
  {}

  /** Only the traversals below i are under way: what lies above i is finished. */
  lemma NothingActiveAbove(p: Problem, was: State, s: State, active: set<nat>, i: nat)
    requires was.Stacked(|p.R|) && was.ActiveOnStack(active) && s.Stacked(|p.R|)
    requires was.stack <= s.stack && |was.stack| < |s.stack| && s.stack[|was.stack|] == i
    ensures forall r :: |was.stack| + 1 <= r < |s.stack| ==> s.stack[r] !in active + {i}
    ensures forall v :: v in active ==> v !in s.stack[|was.stack|..]
  {
    forall v | v in active ensures exists q :: 0 <= q < |was.stack| && s.stack[q] == v {
      var q :| 0 <= q < |was.stack| && was.stack[q] == v;
      assert s.stack[q] == v;
    }
  }

  /** What traverse put on the stack was not visited when it was entered. */
  lemma NewAbove(p: Problem, was: State, s: State, v: nat)
    requires was.Stacked(|p.R|) && s.Stacked(|p.R|) && s.Extends(was)
    requires |was.stack| < |s.stack| && v < |p.R| && was.index[v] != 0
    ensures v !in s.stack[|was.stack|..]
  {
    var h := |was.stack|;
    if v in s.stack[h..] {
      var q :| 0 <= q < |s.stack[h..]| && s.stack[h..][q] == v;
      assert s.stack[q + h] == v;
      PlaceInRange(s, |p.R|, q + h);
    }
  }

  lemma PoppedStacked(p: Problem, was: State, s: State, active: set<nat>, i: nat)
    requires p.Ok() && was.Stacked(|p.R|) && was.ActiveOnStack(active) && i < |p.R| && was.index[i] == 0
    requires s.Stacked(|p.R|) && s.Extends(was)
    requires |was.stack| < |s.stack| && s.stack[|was.stack|] == i
    ensures Popped(s, |was.stack| + 1, i).Stacked(|p.R|)
    ensures Popped(s, |was.stack| + 1, i).Extends(was)
    ensures Popped(s, |was.stack| + 1, i).stack == was.stack
    ensures Popped(s, |was.stack| + 1, i).index[i] == s.Infinity()
  {
    PoppedShape(p, was, s, i);
    PoppedExtends(p, was, s, active, i);
  }

  lemma PoppedExtends(p: Problem, was: State, s: State, active: set<nat>, i: nat)
    requires p.Ok() && was.Stacked(|p.R|) && was.ActiveOnStack(active) && i < |p.R| && was.index[i] == 0
    requires s.Stacked(|p.R|) && s.Extends(was) && |was.stack| < |s.stack|
    ensures Popped(s, |was.stack| + 1, i).Extends(was)
  {
    var h := |was.stack| + 1;
    forall v | 0 <= v < |p.R| && was.index[v] != 0 ensures v !in s.stack[h - 1..] {
      NewAbove(p, was, s, v);
    }
    hide State.Stacked;
  }

  lemma PoppedShape(p: Problem, was: State, s: State, i: nat)
    requires p.Ok() && i < |p.R| && was.Stacked(|p.R|) && s.Stacked(|p.R|) && s.Extends(was)
    requires |was.stack| < |s.stack| && s.stack[|was.stack|] == i
    ensures var t := Popped(s, |was.stack| + 1, i);
            t.Stacked(|p.R|) && t.stack == was.stack && t.index[i] == s.Infinity()
  {
    var h := |was.stack| + 1;
    assert s.stack[h - 1..][0] == i;
    assert s.stack == s.stack[..h - 1] + s.stack[h - 1..];
  }

  /** A popped vertex has row i, which is its own: it and i reach each other. */
  lemma PoppedDone(p: Problem, s: State, active: set<nat>, h: nat, i: nat, q: nat)
    requires s.Inv(p, active) && 1 <= h <= |s.stack| && s.stack[h - 1] == i && s.index[i] == h && s.Above(p, h, i)
    requires forall r :: h <= r < |s.stack| ==> s.stack[r] !in active
    requires i < |p.R| && s.EdgesOk(p, i, |p.R[i]|) && h - 1 <= q < |s.stack|
    requires Popped(s, h, i).Stacked(|p.R|)
    ensures Popped(s, h, i).Done(p, s.stack[q]) && Popped(s, h, i).RowBounds(p, s.stack[q])
  {
    var t, v := Popped(s, h, i), s.stack[q];
    assert s.stack[h - 1..][q - (h - 1)] == v;
    ComponentReaches(p, s, active, h, i, q);
    assert Reaches(p.Edges(), i, v) by {
      if q == h - 1 { ReachesRefl(p.Edges(), i); } else { assert s.Below(p, i, v); }
    }
    forall l | 0 <= l < |p.R[v]| ensures p.R[v][l] < |t.index| && t.index[p.R[v][l]] == t.Infinity() {
      var d := p.R[v][l];
      ComponentEdge(p, s, active, h, i, q, d);
      assert t.index[d] == if d in s.stack[h - 1..] then s.Infinity() else s.index[d];
    }
    forall x: nat ensures x in t.rows[v] <==> p.Gets(v, x) {
      ComponentRow(p, s, active, h, i, x);
      if p.Gets(i, x) { p.GetsBack(v, i, x); }
      if p.Gets(v, x) { p.GetsBack(i, v, x); }
    }
    forall x: nat | x in p.f0[v] ensures x in t.rows[v] { p.GetsOwn(v, x); }
  }

  lemma StillDone(p: Problem, s: State, h: nat, i: nat, v: nat)
    requires p.Ok() && s.Stacked(|p.R|) && 1 <= h <= |s.stack| && i < |p.R| && Popped(s, h, i).Stacked(|p.R|)
    requires v < |p.R| && v !in s.stack[h - 1..] && s.Done(p, v) && s.RowBounds(p, v)
    ensures Popped(s, h, i).Done(p, v) && Popped(s, h, i).RowBounds(p, v)
  {
    hide Problem.Gets;
    var t := Popped(s, h, i);
    forall l | 0 <= l < |p.R[v]| ensures t.index[p.R[v][l]] == t.Infinity() {
      assert s.index[p.R[v][l]] == s.Infinity();
    }
  }

  lemma PopNone(s: State, i: nat)
    requires i < |s.rows| == |s.index|
    ensures Popped(s, |s.stack| + 1, i) == s
  {}

  /** The vertex on top is done, with the row of i. */
  ghost function Dropped(s: State, n: nat, i: nat): State
  {
    if s.stack == [] || s.stack[|s.stack| - 1] >= |s.index| || s.stack[|s.stack| - 1] >= |s.rows| || i >= |s.rows|
    then s
    else
      var j := s.stack[|s.stack| - 1];
      State(s.index[j := n + 2], s.stack[..|s.stack| - 1], if i == j then s.rows else s.rows[j := s.rows[i]])
  }

  /** Popping the vertex at place h as well. */
  lemma PopOne(s: State, n: nat, h: nat, i: nat)
    requires s.Stacked(n) && i < n && 1 <= h <= |s.stack|
    ensures s.stack[h - 1] < n && Popped(s, h, i) == Dropped(Popped(s, h + 1, i), n, i)
  {
    hide State.Stacked, Popped;
    InRangeAt(s, n, h - 1);
    var t, u, j := Popped(s, h + 1, i), Popped(s, h, i), s.stack[h - 1];
    TopOf(s, h, i);
    forall v: nat | v < n
      ensures u.index[v] == t.index[j := s.Infinity()][v] && u.rows[v] == if v == j then t.rows[i] else t.rows[v]
    {
      PopAt(s, h, i, v);
    }
    assert u.index == t.index[j := s.Infinity()];
    assert u.rows == if j == i then t.rows else t.rows[j := t.rows[i]];
  }

  lemma InRangeAt(s: State, n: nat, q: nat)
    requires s.Stacked(n) && q < |s.stack|
    ensures s.stack[q] < n && |s.index| == |s.rows| == n
  {}

  lemma PopAt(s: State, h: nat, i: nat, v: nat)
    requires i < |s.rows| == |s.index| && 1 <= h <= |s.stack| && v < |s.index| && s.stack[h - 1] < |s.index|
    ensures var t, u, j := Popped(s, h + 1, i), Popped(s, h, i), s.stack[h - 1];
            && |t.index| == |t.rows| == |u.index| == |u.rows| == |s.index|
            && u.index[v] == (if v == j then s.Infinity() else t.index[v])
            && u.rows[v] == if v == j then t.rows[i] else t.rows[v]
  {
    hide Popped;
    PoppedAt(s, h, i, v);
    PoppedAt(s, h + 1, i, v);
    PoppedAt(s, h + 1, i, i);
    assert s.stack[h - 1..] == [s.stack[h - 1]] + s.stack[h..];
  }

  lemma PoppedAt(s: State, h: nat, i: nat, v: nat)
    requires i < |s.rows| == |s.index| && 1 <= h <= |s.stack| + 1 && v < |s.index|
    ensures var t := Popped(s, h, i);
            && |t.index| == |t.rows| == |s.index|
            && t.index[v] == (if v in s.stack[h - 1..] then s.Infinity() else s.index[v])
            && t.rows[v] == if v in s.stack[h - 1..] then s.rows[i] else s.rows[v]
  {}

  lemma TopOf(s: State, h: nat, i: nat)
    requires i < |s.rows| == |s.index| && 1 <= h <= |s.stack|
    ensures |Popped(s, h, i).index| == |Popped(s, h, i).rows| == |s.index|
    ensures |Popped(s, h + 1, i).index| == |Popped(s, h + 1, i).rows| == |s.index|
    ensures var t := Popped(s, h + 1, i);
            t.stack != [] && t.stack[|t.stack| - 1] == s.stack[h - 1] &&
              t.stack[..|t.stack| - 1] == Popped(s, h, i).stack
  {}

  lemma SamePlace(s: State, n: nat, p: nat, q: nat)
    requires s.Stacked(n) && p < |s.stack| && q < |s.stack| && s.stack[p] == s.stack[q]
    ensures p == q
  {}

  // ----- the pieces of traverse put together -----

  /** After the call for j, everything above i is below i or below j. */
  lemma AfterTraverse(p: Problem, s: State, t: State, active: set<nat>, i: nat, j: nat, h: nat, k: nat)
    requires s.Inv(p, active) && t.Inv(p, active) && t.Extends(s)
    requires 1 <= h <= |s.stack| && s.stack[h - 1] == i && i < |p.R| && j < |p.R| && k <= |p.R[i]|
    requires s.Above(p, h, i) && s.EdgesOk(p, i, k)
    requires |t.stack| > |s.stack| ==> t.stack[|s.stack|] == j && t.Above(p, |s.stack| + 1, j)
    ensures t.stack[h - 1] == i && t.EdgesOk(p, i, k)
    ensures forall q :: h <= q < |t.stack| ==> t.Below(p, i, t.stack[q]) || t.Below(p, j, t.stack[q])
  {
    hide Reaches, State.AllDone, State.AllFinished, State.AllBounded, State.AllReachLow;
    assert s.index[i] != 0;
    forall l | 0 <= l < k ensures t.EdgeOk(i, p.R[i][l]) {
      assert s.EdgeOk(i, p.R[i][l]);
      EdgeStays(p, s, t, i, p.R[i][l]);
    }
    ReachesRefl(p.Edges(), j);
    forall q | h <= q < |t.stack| ensures t.Below(p, i, t.stack[q]) || t.Below(p, j, t.stack[q]) {
      if q < |s.stack| {
        assert s.Below(p, i, s.stack[q]) && t.stack[q] == s.stack[q];
      }
    }
  }

  /** Vertex i itself was not visited before, so touching it keeps what was. */
  lemma TouchExtends(p: Problem, was: State, s: State, i: nat, j: nat)
    requires |s.index| == |s.rows| == |was.index| == |was.rows| && s.Extends(was)
    requires i < |s.index| && j < |s.index| && was.index[i] == 0
    ensures Touched(s, i, j).Extends(was)
  {}

  lemma StartFollowing(p: Problem, s: State, active: set<nat>, i: nat)
    requires s.Inv(p, active) && i < |p.R| && |p.R| == |s.index| == |s.rows| && s.index[i] == 0
    ensures Pushed(s, i).Following(p, s, active, i, 0) && |s.stack| < |p.R|
  {
    hide State.Inv, State.Above, State.EdgesOk;
    NotActive(p, s, active, i);
    Push(p, s, active, i);
  }

  /** What the loop knows of the vertex and of the edge it is about to follow. */
  lemma FollowingFacts(p: Problem, was: State, s: State, active: set<nat>, i: nat, k: nat)
    requires s.Following(p, was, active, i, k)
    ensures i < |p.R| && s.index[i] != 0 && Unvisited(s.index) < Unvisited(was.index)
    ensures k < |p.R[i]| ==> p.R[i][k] < |p.R|
  {
    hide State.Above, State.EdgesOk, State.AllDone, State.AllBounded, State.AllFinished, State.AllReachLow;
    UnvisitedShrinks(was, s, i);
  }

  /** One turn of the loop over i's edges, seen as a whole. */
  lemma EdgeDone(p: Problem, was: State, s: State, t: State, active: set<nat>, i: nat, k: nat, j: nat)
    requires s.Following(p, was, active, i, k) && k < |p.R[i]| && p.R[i][k] == j
    requires |t.index| == |t.rows| == |p.R| && t.Inv(p, active + {i}) && t.Extends(s)
    requires j < |p.R| && t.index[j] != 0
    requires |t.stack| > |s.stack| ==> t.stack[|s.stack|] == j && t.Above(p, |s.stack| + 1, j)
    ensures Touched(t, i, j).Following(p, was, active, i, k + 1)
  {
    hide State.Inv, State.Above, State.EdgesOk, State.Below;
    var h := |was.stack| + 1;
    AfterTraverse(p, s, t, active + {i}, i, j, h, k);
    Touch(p, t, active + {i}, i, j);
    TouchAbove(p, t, active + {i}, i, j, h, k);
    TouchExtends(p, was, t, i, j);
  }

  lemma FollowingShape(p: Problem, was: State, s: State, active: set<nat>, i: nat, k: nat)
    requires s.Following(p, was, active, i, k)
    ensures |was.stack| < |s.stack| && s.stack[|was.stack|] == i && s.Extends(was) && i < |p.R|
    ensures s.Inv(p, active + {i}) && s.Above(p, |was.stack| + 1, i)
  {}

  lemma FollowedAll(p: Problem, was: State, s: State, active: set<nat>, i: nat)
    requires i < |p.R| && was.Inv(p, active) && s.Following(p, was, active, i, |p.R[i]|)
    ensures s.index[i] == |was.stack| + 1 ==>
              Popped(s, |was.stack| + 1, i).Inv(p, active) && Popped(s, |was.stack| + 1, i).Extends(was)
              && Popped(s, |was.stack| + 1, i).index[i] != 0 && s.Stacked(|p.R|)
    ensures s.index[i] != |was.stack| + 1 ==> s.Inv(p, active) && s.index[i] <= |was.stack|
    ensures s.index[i] != 0
  {
    FollowingFacts(p, was, s, active, i, |p.R[i]|);
    hide State.AllDone, State.AllBounded, State.AllFinished, State.AllReachLow, State.Above, State.EdgesOk, Popped;
    if s.index[i] == |was.stack| + 1 {
      Pop(p, was, s, active, i);
    } else {
      Finish(p, s, active, i, |was.stack| + 1);
    }
  }

  /** When i is not the root of its component it stays on the stack, finished. */
  lemma Finish(p: Problem, s: State, active: set<nat>, i: nat, h: nat)
    requires s.Inv(p, active + {i}) && i < |p.R| && i !in active
    requires 1 <= h <= |s.stack| && s.stack[h - 1] == i && s.index[i] != h && s.EdgesOk(p, i, |p.R[i]|)
    ensures s.Inv(p, active) && s.index[i] <= h - 1
  {
    hide Reaches, State.AllDone, State.AllBounded, State.AllReachLow;
    forall q | 0 <= q < |s.stack| && s.stack[q] !in active ensures s.Finished(p, q) {
      if q != h - 1 { assert s.stack[q] != i; }
    }
  }

  ghost function Unvisited(index: seq<nat>): set<nat>
  {
    set v: nat | v < |index| && index[v] == 0
  }

  lemma UnvisitedShrinks(was: State, s: State, i: nat)
    requires |s.index| == |s.rows| == |was.index| == |was.rows| && s.Extends(was)
    requires i < |s.index| && was.index[i] == 0 && s.index[i] != 0
    ensures Unvisited(s.index) < Unvisited(was.index)
  {
    assert i in Unvisited(was.index) && i !in Unvisited(s.index);
  }

  lemma NotActive(p: Problem, s: State, active: set<nat>, i: nat)
    requires s.Inv(p, active) && i < |p.R| && s.index[i] == 0
    ensures i !in active
  {}

  lemma StartInv(p: Problem)
    requires p.Ok()
    ensures State(seq(|p.R|, _ => 0), [], p.f0).Inv(p, {})
  {
    var s := State(seq(|p.R|, _ => 0), [], p.f0);
    forall v | 0 <= v < |p.R| ensures s.RowBounds(p, v) {
      forall t: nat | t in p.f0[v] ensures p.Gets(v, t) { p.GetsOwn(v, t); }
    }
  }

  /** With the stack empty every vertex is done or was never entered; one without edges has its own row. */
  lemma EndRows(p: Problem, s: State, v: nat)
    requires s.Inv(p, {}) && s.stack == [] && v < |p.R|
    requires s.index[v] == 0 ==> p.R[v] == []
    ensures forall t: nat :: t in s.rows[v] <==> p.Gets(v, t)
  {
    if s.index[v] != 0 {
      assert s.Done(p, v);
    } else {
      assert s.RowBounds(p, v);
      forall t: nat | p.Gets(v, t) ensures t in s.rows[v] {
        var y: nat :| y < |p.f0| && Reaches(p.Edges(), v, y) && t in p.f0[y];
        ReachesKeeps(p.Edges(), (x: nat) => x == v, v, y);
      }
    }
  }

  // ----- the program -----

  class Digraph {
    const n: nat
    const R: seq<seq<nat>>
    const F: BitMatrix
    const INDEX: array<nat>
    const VERTICES: array<nat>
    var top: nat

    ghost predicate Ready()
      reads this
    {
      && n == |R| == F.n == INDEX.Length && VERTICES.Length == n + 1
      && F.Valid() && INDEX != VERTICES && top <= n
      && (forall x, k :: 0 <= x < |R| && 0 <= k < |R[x]| ==> R[x][k] < |R|)
    }

    ghost function Now(): State
      requires Ready()
      reads this, INDEX, VERTICES, F.words
    {
      State(INDEX[..], VERTICES[1..top + 1], F.Value())
    }

    constructor (R: seq<seq<nat>>, F: BitMatrix)
      requires F.Valid() && F.n == |R|
      requires forall x, k :: 0 <= x < |R| && 0 <= k < |R[x]| ==> R[x][k] < |R|
      ensures Ready() && this.R == R && this.F == F && fresh(INDEX) && fresh(VERTICES)
      ensures Now() == State(seq(|R|, _ => 0), [], F.Value())
    {
      n, this.R, this.F := |R|, R, F;
      INDEX := new nat[|R|](_ => 0);
      VERTICES := new nat[|R| + 1];
      top := 0;
      new;
      assert INDEX[..] == seq(|R|, _ => 0);
    }

    /** The first lines of traverse. */
    method PushVertex(i: nat)
      requires Ready() && i < n && top < n
      modifies this, INDEX, VERTICES
      ensures Ready() && Now() == Pushed(old(Now()), i) && top == old(top) + 1
    {
      ghost var stack := VERTICES[1..top + 1];
      top := top + 1;
      VERTICES[top] := i;
      INDEX[i] := top;
      assert VERTICES[1..top + 1] == stack + [i];
    }

    /** The updates of traverse for one edge. */
    method TouchVertex(i: nat, j: nat)
      requires Ready() && i < n && j < n
      modifies INDEX, F.words
      ensures Ready() && Now() == Touched(old(Now()), i, j)
    {
      hide BitMatrix.Value;
      if INDEX[i] > INDEX[j] {
        INDEX[i] := INDEX[j];
      }
      F.OrRow(i, F, j);
    }

    /** The last loop of traverse. */
    method PopComponent(i: nat, height: nat)
      requires Ready() && Now().Stacked(n) && i < n && 1 <= height <= top && VERTICES[height] == i
      modifies this, INDEX, F.words
      ensures Ready() && Now() == Popped(old(Now()), height, i) && top == height - 1
    {
      hide BitMatrix.Value, State.Stacked, Popped, Dropped;
      ghost var was := Now();
      PopNone(was, i);
      while true
        invariant Ready() && height <= top <= old(top)
        invariant Now() == Popped(was, top + 1, i) && VERTICES[..] == old(VERTICES[..])
        decreases top
      {
        PopOne(was, n, top, i);
        var j := PopTop(i);
        assert j == was.stack[top] && was.stack[height - 1] == i;
        if i == j {
          SamePlace(was, n, top, height - 1);
          break;
        }
      }
    }

    /** One vertex off the stack; its row becomes i's. */
    method PopTop(i: nat) returns (j: nat)
      requires Ready() && i < n && top > 0 && VERTICES[top] < n
      modifies this`top, INDEX, F.words
      ensures Ready() && top == old(top) - 1 && j == VERTICES[old(top)] && Now() == Dropped(old(Now()), n, i)
    {
      hide BitMatrix.Value;
      j := VERTICES[top];
      ghost var stack := VERTICES[1..top + 1];
      top := top - 1;
      assert stack[|stack| - 1] == j && VERTICES[1..top + 1] == stack[..|stack| - 1];
      INDEX[j] := n + 2;
      if i != j {
        F.CopyRow(j, i);
      }
    }

    /** traverse */
    method Traverse(i: nat, ghost p: Problem, ghost active: set<nat>)
      requires Ready() && p.R == R && i < n && INDEX[i] == 0 && Now().Inv(p, active)
      modifies this, INDEX, VERTICES, F.words
      ensures Ready() && Now().Inv(p, active) && Now().Extends(old(Now())) && INDEX[i] != 0
      ensures top > old(top) ==> INDEX[i] <= old(top) && VERTICES[old(top) + 1] == i && Now().Above(p, old(top) + 1, i)
      decreases Unvisited(INDEX[..]), 0
    {
      hide State.Inv, State.Following, State.Stacked, State.Extends, State.Above, BitMatrix.Value, Unvisited, Popped,
           Pushed;
      ghost var was := Now();
      StartFollowing(p, was, active, i);
      PushVertex(i);
      var height := top;
      for k := 0 to |R[i]|
        invariant Ready() && Now().Following(p, was, active, i, k)
      {
        FollowingFacts(p, was, Now(), active, i, k);
        FollowEdge(i, k, p, was, active);
      }
      ghost var s := Now();
      FollowedAll(p, was, s, active, i);
      FollowingShape(p, was, s, active, i, |R[i]|);
      assert INDEX[i] == s.index[i] && height == |was.stack| + 1;
      if INDEX[i] == height {
        PopComponent(i, height);
        assert Now() == Popped(s, |was.stack| + 1, i) && top == old(top);
      } else {
        assert Now() == s && s.Inv(p, active);
      }
    }

    /** The body of traverse's loop. */
    method FollowEdge(i: nat, k: nat, ghost p: Problem, ghost was: State, ghost active: set<nat>)
      requires Ready() && p.R == R && i < n && k < |R[i]| && Now().Following(p, was, active, i, k)
      modifies this, INDEX, VERTICES, F.words
      ensures Ready() && Now().Following(p, was, active, i, k + 1)
      decreases Unvisited(INDEX[..]), 1
    {
      hide State.Inv, State.Following, State.Above, BitMatrix.Value, Unvisited;
      var j := R[i][k];
      ghost var s := Now();
      FollowingFacts(p, was, s, active, i, k);
      FollowingShape(p, was, s, active, i, k);
      if INDEX[j] == 0 {
        Traverse(j, p, active + {i});
      }
      EdgeDone(p, was, s, Now(), active, i, k, j);
      TouchVertex(i, j);
    }

    /** digraph: every row of F ends as the union of the original rows of all vertices that its
        own vertex reaches. */
    method Run()
      requires Ready() && Now() == State(seq(|R|, _ => 0), [], F.Value())
      modifies this, INDEX, VERTICES, F.words
      ensures Ready()
      ensures forall v: nat, t: nat :: v < n ==> (t in F.Value()[v] <==> Problem(R, old(F.Value())).Gets(v, t))
    {
      hide State.Inv, State.Above, BitMatrix.Value, Problem.Gets;
      ghost var p := Problem(R, F.Value());
      StartInv(p);
      for i := 0 to n
        invariant Ready() && Now().Inv(p, {}) && top == 0
        invariant forall v :: 0 <= v < i && INDEX[v] == 0 ==> R[v] == []
      {
        if INDEX[i] == 0 && R[i] != [] {
          Traverse(i, p, {});
        }
      }
      forall v: nat, t: nat | v < n ensures t in F.Value()[v] <==> p.Gets(v, t) {
        EndRows(p, Now(), v);
      }
    }
  }
}
