/** lalr.c: set_goto_map and map_goto.  A goto is a transition over a variable; they are
    numbered, grouped by variable, and within a group by the state they leave. */
module Gotos {
  import opened Automata
  import opened Grammars
  import opened Items
  import opened LR0

  /** The gotos of variable start_symbol + v are first[v]..first[v + 1]. */
  datatype GotoMap = GotoMap(first: seq<nat>, from: seq<nat>, to: seq<nat>)

  /** From state s the automaton shifts to t over variable start_symbol + v. */
  ghost predicate Transition(g: Grammar, a: Automaton, s: nat, v: nat, t: nat)
  {
    s < |a.shifts| && t in a.shifts[s] && t < |a.cores| && a.cores[t].access == g.ntokens + v
  }

  ghost predicate HasTransition(g: Grammar, a: Automaton, s: nat, v: nat)
  {
    exists t :: Transition(g, a, s, v, t)
  }

  /** The gotos lo..hi are the transitions over v from the states below bound, in order. */
  ghost predicate Group(g: Grammar, a: Automaton, v: nat, lo: nat, hi: nat, from: seq<nat>, to: seq<nat>, bound: nat)
    requires lo <= hi <= |from| == |to|
  {
    && (forall k :: lo <= k < hi ==> from[k] < bound && Transition(g, a, from[k], v, to[k]))
    && (forall j, k :: lo <= j < k < hi ==> from[j] < from[k])
    && (forall s: nat :: s < bound && HasTransition(g, a, s, v) ==> Listed(from, lo, hi, s))
  }

  ghost predicate Listed(from: seq<nat>, lo: nat, hi: nat, s: nat)
    requires hi <= |from|
  {
    exists k :: lo <= k < hi && from[k] == s
  }

  ghost predicate IsGotoMap(g: Grammar, a: Automaton, m: GotoMap)
    requires g.WellFormed()
  {
    && |m.first| == g.NVars() + 1 && m.first[0] == 0 && m.first[g.NVars()] == |m.from| == |m.to|
    && (forall u, v :: 0 <= u <= v <= g.NVars() ==> m.first[u] <= m.first[v])
    && (forall v :: 0 <= v < g.NVars() ==> WholeGroup(g, a, m, v))
  }

  ghost predicate WholeGroup(g: Grammar, a: Automaton, m: GotoMap, v: nat)
  {
    && v + 1 < |m.first| && m.first[v] <= m.first[v + 1] <= |m.from| == |m.to|
    && Group(g, a, v, m.first[v], m.first[v + 1], m.from, m.to, |a.cores|)
  }

  /** The variable, counted from start_symbol, that goto k is over. */
  ghost function VarOf(m: GotoMap, k: nat, v: nat): (u: nat)
    requires v < |m.first| && m.first[0] == 0 && k < m.first[v]
    requires forall x, y :: 0 <= x <= y < |m.first| ==> m.first[x] <= m.first[y]
    ensures u < v && m.first[u] <= k < m.first[u + 1]
  {
    if m.first[v - 1] <= k then v - 1 else VarOf(m, k, v - 1)
  }

  // ----- set_goto_map -----

  /** State s shifts over v at its j-th shift or later. */
  ghost predicate ShiftsFrom(g: Grammar, a: Automaton, s: nat, j: nat, v: nat)
    requires s < |a.shifts|
  {
    exists k :: j <= k < |a.shifts[s]| && a.shifts[s][k] < |a.cores| && a.cores[a.shifts[s][k]].access == g.ntokens + v
  }

  /** The states' shifts are in range and in order of symbol. */
  ghost predicate Ordered(a: Automaton)
  {
    && |a.shifts| == |a.cores|
    && (forall s, j :: 0 <= s < |a.shifts| && 0 <= j < |a.shifts[s]| ==> a.shifts[s][j] < |a.cores|)
    && (forall s, j, k :: 0 <= s < |a.shifts| && 0 <= j < k < |a.shifts[s]| ==>
          AccessedBefore(a.cores, a.shifts[s][j], a.shifts[s][k]))
  }

  ghost predicate AccessInRange(g: Grammar, a: Automaton)
  {
    forall s :: 0 <= s < |a.cores| ==> a.cores[s].access < g.nsyms
  }

  lemma LR0Ordered(g: Grammar, a: Automaton)
    requires g.WellFormed() && IsLR0(g, a)
    ensures Ordered(a) && AccessInRange(g, a)
  {
    hide InClosure, IsGoto;
    forall s, j | 0 <= s < |a.shifts| && 0 <= j < |a.shifts[s]| ensures a.shifts[s][j] < |a.cores| {
      assert IsShift(g, a.cores, a.cores[s].items, a.shifts[s][j]);
    }
    forall s | 1 <= s < |a.cores| ensures a.cores[s].access < g.nsyms {
      assert IsKernel(g, a.cores[s]);
    }
  }

  lemma FromIsHas(g: Grammar, a: Automaton, s: nat, v: nat)
    requires Ordered(a) && s < |a.shifts|
    ensures ShiftsFrom(g, a, s, 0, v) <==> HasTransition(g, a, s, v)
  {
    if ShiftsFrom(g, a, s, 0, v) {
      var k :| 0 <= k < |a.shifts[s]| && a.shifts[s][k] < |a.cores| && a.cores[a.shifts[s][k]].access == g.ntokens + v;
      assert Transition(g, a, s, v, a.shifts[s][k]);
    }
    if HasTransition(g, a, s, v) {
      var t :| Transition(g, a, s, v, t);
      var k :| 0 <= k < |a.shifts[s]| && a.shifts[s][k] == t;
    }
  }

  /** How many of the first n states have a transition over v. */
  ghost function CountGotos(g: Grammar, a: Automaton, v: nat, n: nat): nat
  {
    if n == 0 then 0 else CountGotos(g, a, v, n - 1) + if HasTransition(g, a, n - 1, v) then 1 else 0
  }

  /** The same, with state n counted for v when it shifts over v at its j-th shift or later. */
  ghost function CountPartly(g: Grammar, a: Automaton, v: nat, n: nat, j: nat): nat
    requires n < |a.shifts|
  {
    CountGotos(g, a, v, n) + if ShiftsFrom(g, a, n, j, v) then 1 else 0
  }

  lemma {:induction false} CountGotosGrows(g: Grammar, a: Automaton, v: nat, m: nat, n: nat)
    requires m <= n
    ensures CountGotos(g, a, v, m) <= CountGotos(g, a, v, n)
    ensures m < n && HasTransition(g, a, m, v) ==> CountGotos(g, a, v, m) < CountGotos(g, a, v, n)
    decreases n
  {
    if m < n { CountGotosGrows(g, a, v, m, n - 1); }
  }

  /** Going down the shifts of state s from the end, the j-th is the first over its symbol. */
  lemma ShiftSeen(g: Grammar, a: Automaton, s: nat, j: nat)
    requires Ordered(a) && s < |a.shifts| && j < |a.shifts[s]|
    ensures a.cores[a.shifts[s][j]].access >= g.ntokens ==>
              !ShiftsFrom(g, a, s, j + 1, a.cores[a.shifts[s][j]].access - g.ntokens)
    ensures forall v :: ShiftsFrom(g, a, s, j, v) <==>
              ShiftsFrom(g, a, s, j + 1, v) || a.cores[a.shifts[s][j]].access == g.ntokens + v
    ensures a.cores[a.shifts[s][j]].access < g.ntokens ==>
              forall v :: ShiftsFrom(g, a, s, 0, v) <==> ShiftsFrom(g, a, s, j + 1, v)
  {
    forall v | ShiftsFrom(g, a, s, j, v)
      ensures ShiftsFrom(g, a, s, j + 1, v) || a.cores[a.shifts[s][j]].access == g.ntokens + v
    {
      var k :| j <= k < |a.shifts[s]| && a.shifts[s][k] < |a.cores| && a.cores[a.shifts[s][k]].access == g.ntokens + v;
    }
    forall k | 0 <= k < j ensures a.cores[a.shifts[s][k]].access < a.cores[a.shifts[s][j]].access {
      assert AccessedBefore(a.cores, a.shifts[s][k], a.shifts[s][j]);
    }
    if a.cores[a.shifts[s][j]].access < g.ntokens {
      forall v | ShiftsFrom(g, a, s, 0, v) ensures ShiftsFrom(g, a, s, j + 1, v) {
        var k :| 0 <= k < |a.shifts[s]| && a.shifts[s][k] < |a.cores| &&
          a.cores[a.shifts[s][k]].access == g.ntokens + v;
      }
    } else {
      forall k | j + 1 <= k < |a.shifts[s]| ensures a.cores[a.shifts[s][k]].access != a.cores[a.shifts[s][j]].access {
        assert AccessedBefore(a.cores, a.shifts[s][j], a.shifts[s][k]);
      }
    }
  }

  ghost predicate AreCounts(g: Grammar, a: Automaton, counts: seq<nat>, n: nat)
  {
    forall v :: 0 <= v < |counts| ==> counts[v] == CountGotos(g, a, v, n)
  }

  ghost predicate ArePartCounts(g: Grammar, a: Automaton, counts: seq<nat>, n: nat, j: nat)
    requires n < |a.shifts|
  {
    forall v :: 0 <= v < |counts| ==> counts[v] == CountPartly(g, a, v, n, j)
  }

  /** How many shifts over variables state s has from its j-th shift on. */
  ghost function GotosFrom(g: Grammar, a: Automaton, s: nat, j: nat): nat
    requires s < |a.shifts|
    decreases |a.shifts[s]| - j
  {
    if j >= |a.shifts[s]| then 0
    else GotosFrom(g, a, s, j + 1) +
         if a.shifts[s][j] < |a.cores| && a.cores[a.shifts[s][j]].access >= g.ntokens then 1 else 0
  }

  /** How many gotos the first n states have. */
  ghost function GotosOf(g: Grammar, a: Automaton, n: nat): nat
    requires n <= |a.shifts|
  {
    if n == 0 then 0 else GotosOf(g, a, n - 1) + GotosFrom(g, a, n - 1, 0)
  }

  lemma {:induction false} GotosGrow(g: Grammar, a: Automaton, m: nat, n: nat)
    requires m <= n <= |a.shifts|
    ensures GotosOf(g, a, m) <= GotosOf(g, a, n)
    decreases n
  {
    if m < n { GotosGrow(g, a, m, n - 1); }
  }

  lemma {:induction false} MoreFrom(g: Grammar, a: Automaton, s: nat, j: nat)
    requires s < |a.shifts| && j <= |a.shifts[s]|
    ensures GotosFrom(g, a, s, j) <= GotosFrom(g, a, s, 0)
    decreases j
  {
    if j > 0 { MoreFrom(g, a, s, j - 1); }
  }

  /** Before a shift over a token there are only shifts over tokens. */
  lemma {:induction false} NoneBefore(g: Grammar, a: Automaton, s: nat, j: nat)
    requires Ordered(a) && s < |a.shifts| && j < |a.shifts[s]| && a.cores[a.shifts[s][j]].access < g.ntokens
    ensures GotosFrom(g, a, s, j + 1) == GotosFrom(g, a, s, 0)
    decreases j
  {
    if j > 0 {
      assert AccessedBefore(a.cores, a.shifts[s][j - 1], a.shifts[s][j]);
      NoneBefore(g, a, s, j - 1);
    }
  }

  /** The first pass of set_goto_map, for one state. */
  method CountState(g: Grammar, a: Automaton, s: nat, counts: array<nat>, ngotos0: nat)
    returns (fatal: bool, ngotos: nat)
    requires g.WellFormed() && Ordered(a) && AccessInRange(g, a) && s < |a.shifts|
    requires counts.Length == g.NVars() && AreCounts(g, a, counts[..], s)
    requires ngotos0 == GotosOf(g, a, s) <= MAXSHORT
    modifies counts
    ensures fatal ==> GotosOf(g, a, s + 1) > MAXSHORT
    ensures !fatal ==> AreCounts(g, a, counts[..], s + 1) && ngotos == GotosOf(g, a, s + 1) <= MAXSHORT
  {
    hide ShiftsFrom, HasTransition, Grammar.WellFormed;
    fatal, ngotos := false, ngotos0;
    var i: nat := |a.shifts[s]|;
    NoneFromEnd(g, a, s);
    while i > 0
      invariant i <= |a.shifts[s]|
      invariant ArePartCounts(g, a, counts[..], s, i)
      invariant ngotos == ngotos0 + GotosFrom(g, a, s, i) <= MAXSHORT
      decreases i
    {
      var symbol := a.cores[a.shifts[s][i - 1]].access;
      ShiftSeen(g, a, s, i - 1);
      if symbol < g.ntokens {
        assert forall v :: ShiftsFrom(g, a, s, i, v) <==> ShiftsFrom(g, a, s, 0, v);
        NoneBefore(g, a, s, i - 1);
        break;
      }
      if ngotos == MAXSHORT {
        fatal := true;
        MoreFrom(g, a, s, i - 1);
        return;
      }
      ngotos := ngotos + 1;
      counts[symbol - g.ntokens] := counts[symbol - g.ntokens] + 1;
      i := i - 1;
    }
    assert forall v :: ShiftsFrom(g, a, s, i, v) <==> ShiftsFrom(g, a, s, 0, v);
    forall v: nat ensures ShiftsFrom(g, a, s, i, v) <==> HasTransition(g, a, s, v) {
      FromIsHas(g, a, s, v);
    }
  }

  lemma NoneFromEnd(g: Grammar, a: Automaton, s: nat)
    requires s < |a.shifts|
    ensures forall v :: !ShiftsFrom(g, a, s, |a.shifts[s]|, v)
  {}

  /** Group v while set_goto_map fills it: its slots from lo to hi are filled. */
  ghost predicate FilledAt(g: Grammar, a: Automaton, v: nat, lo: nat, hi: nat, from: seq<nat>, to: seq<nat>, n: nat,
                           j: nat)
    requires n < |a.shifts|
  {
    && lo <= hi <= |from| == |to| && hi == lo + CountPartly(g, a, v, n, j)
    && Group(g, a, v, lo, hi, from, to, if ShiftsFrom(g, a, n, j, v) then n + 1 else n)
  }

  ghost predicate Filled(g: Grammar, a: Automaton, first: seq<nat>, temp: seq<nat>, from: seq<nat>, to: seq<nat>,
                         n: nat, j: nat)
    requires n < |a.shifts| && |first| == |temp| + 1
  {
    forall v :: 0 <= v < |temp| ==> FilledAt(g, a, v, first[v], temp[v], from, to, n, j)
  }

  /** first is the running sum of the counts. */
  ghost predicate Sums(g: Grammar, a: Automaton, first: seq<nat>, n: nat)
  {
    && |first| == n + 1 && first[0] == 0
    && forall v :: 0 <= v < n ==> first[v + 1] == first[v] + CountGotos(g, a, v, |a.shifts|)
  }

  lemma {:induction false} SumsMonotone(g: Grammar, a: Automaton, first: seq<nat>, n: nat, u: nat, v: nat)
    requires Sums(g, a, first, n) && u <= v <= n
    ensures first[u] <= first[v]
    decreases v
  {
    if u < v { SumsMonotone(g, a, first, n, u, v - 1); }
  }

  /** Writing the next slot of v's group completes state s for v and leaves the other groups. */
  lemma FillOne(g: Grammar, a: Automaton, first: seq<nat>, temp: seq<nat>, from: seq<nat>, to: seq<nat>, s: nat, j: nat,
                v: nat)
    requires Ordered(a) && s < |a.shifts| && j < |a.shifts[s]| && |first| == |temp| + 1
    requires Sums(g, a, first, |temp|) && first[|temp|] == |from| == |to|
    requires v < |temp| && a.cores[a.shifts[s][j]].access == g.ntokens + v
    requires Filled(g, a, first, temp, from, to, s, j + 1)
    ensures temp[v] < |from|
    ensures Filled(g, a, first, temp[v := temp[v] + 1], from[temp[v] := s], to[temp[v] := a.shifts[s][j]], s, j)
  {
    hide *;
    FilledFits(g, a, first, temp, from, to, s, j, v, v);
    var temp' := temp[v := temp[v] + 1];
    var from', to' := from[temp[v] := s], to[temp[v] := a.shifts[s][j]];
    forall u | 0 <= u < |temp'| ensures FilledAt(g, a, u, first[u], temp'[u], from', to', s, j) {
      FilledFits(g, a, first, temp, from, to, s, j, v, u);
      if u == v {
        FillNext(g, a, v, first[v], temp[v], from, to, s, j);
      } else {
        FillSame(g, a, u, first[u], temp[u], from, to, s, j, temp[v]);
      }
    }
    FilledAll(g, a, first, temp', from', to', s, j);
  }

  lemma FilledAll(g: Grammar, a: Automaton, first: seq<nat>, temp: seq<nat>, from: seq<nat>, to: seq<nat>, s: nat,
                  j: nat)
    requires s < |a.shifts| && |first| == |temp| + 1
    requires forall u :: 0 <= u < |temp| ==> FilledAt(g, a, u, first[u], temp[u], from, to, s, j)
    ensures Filled(g, a, first, temp, from, to, s, j)
  {}

  /** The slot that v's group grows into is in range, and outside the filled part of every group. */
  lemma FilledFits(g: Grammar, a: Automaton, first: seq<nat>, temp: seq<nat>, from: seq<nat>, to: seq<nat>, s: nat,
                   j: nat, v: nat, u: nat)
    requires Ordered(a) && s < |a.shifts| && j < |a.shifts[s]| && |first| == |temp| + 1
    requires Sums(g, a, first, |temp|) && first[|temp|] == |from| == |to|
    requires v < |temp| && a.cores[a.shifts[s][j]].access == g.ntokens + v && u < |temp|
    requires Filled(g, a, first, temp, from, to, s, j + 1)
    ensures FilledAt(g, a, u, first[u], temp[u], from, to, s, j + 1)
    ensures temp[v] < |from| && (u != v ==> a.cores[a.shifts[s][j]].access != g.ntokens + u)
    ensures u != v ==> temp[v] < first[u] || temp[u] <= temp[v]
  {
    hide Group, Transition, HasTransition, ShiftsFrom, CountPartly;
    assert FilledAt(g, a, u, first[u], temp[u], from, to, s, j + 1);
    assert FilledAt(g, a, v, first[v], temp[v], from, to, s, j + 1);
    ShiftSeen(g, a, s, j);
    FromIsHas(g, a, s, v);
    ShiftsDown(g, a, s, j, v);
    RoomInGroup(g, a, first, |temp|, s, j + 1, u);
    RoomInGroup(g, a, first, |temp|, s, j + 1, v);
    SumsMonotone(g, a, first, |temp|, v + 1, |temp|);
    if u < v { SumsMonotone(g, a, first, |temp|, u + 1, v); }
    if v < u { SumsMonotone(g, a, first, |temp|, v + 1, u); }
  }

  lemma FillNext(g: Grammar, a: Automaton, v: nat, lo: nat, hi: nat, from: seq<nat>, to: seq<nat>, s: nat, j: nat)
    requires Ordered(a) && s < |a.shifts| && j < |a.shifts[s]|
    requires a.cores[a.shifts[s][j]].access == g.ntokens + v
    requires FilledAt(g, a, v, lo, hi, from, to, s, j + 1) && hi < |from|
    ensures FilledAt(g, a, v, lo, hi + 1, from[hi := s], to[hi := a.shifts[s][j]], s, j)
  {
    hide Group, HasTransition, ShiftsFrom;
    ShiftSeen(g, a, s, j);
    ShiftsDown(g, a, s, j, v);
    GroupGrows(g, a, v, lo, hi, from, to, s, a.shifts[s][j]);
  }

  lemma FillSame(g: Grammar, a: Automaton, u: nat, lo: nat, hi: nat, from: seq<nat>, to: seq<nat>, s: nat, j: nat,
                 at: nat)
    requires Ordered(a) && s < |a.shifts| && j < |a.shifts[s]|
    requires a.cores[a.shifts[s][j]].access != g.ntokens + u
    requires FilledAt(g, a, u, lo, hi, from, to, s, j + 1) && at < |from| && (at < lo || hi <= at)
    ensures FilledAt(g, a, u, lo, hi, from[at := s], to[at := a.shifts[s][j]], s, j)
  {
    hide Group, HasTransition, ShiftsFrom;
    ShiftSeen(g, a, s, j);
    SameGroup(g, a, u, lo, hi, from, to, from[at := s], to[at := a.shifts[s][j]],
      if ShiftsFrom(g, a, s, j, u) then s + 1 else s);
  }

  lemma ShiftsDown(g: Grammar, a: Automaton, s: nat, j: nat, v: nat)
    requires Ordered(a) && s < |a.shifts| && j < |a.shifts[s]| && a.cores[a.shifts[s][j]].access == g.ntokens + v
    ensures ShiftsFrom(g, a, s, j, v) && ShiftsFrom(g, a, s, 0, v) && Transition(g, a, s, v, a.shifts[s][j])
  {
    assert a.shifts[s][j] in a.shifts[s];
  }

  lemma RoomInGroup(g: Grammar, a: Automaton, first: seq<nat>, n: nat, s: nat, j: nat, u: nat)
    requires Ordered(a) && s < |a.shifts| && u < n && Sums(g, a, first, n)
    ensures first[u] + CountPartly(g, a, u, s, j) <= first[u + 1]
    ensures HasTransition(g, a, s, u) && !ShiftsFrom(g, a, s, j, u) ==>
              first[u] + CountPartly(g, a, u, s, j) < first[u + 1]
  {
    CountGotosGrows(g, a, u, s, |a.shifts|);
    FromIsHas(g, a, s, u);
  }

  lemma SameGroup(g: Grammar, a: Automaton, v: nat, lo: nat, hi: nat, from: seq<nat>, to: seq<nat>, from': seq<nat>,
                  to': seq<nat>, bound: nat)
    requires lo <= hi <= |from| == |to| == |from'| == |to'| && Group(g, a, v, lo, hi, from, to, bound)
    requires forall k :: lo <= k < hi ==> from'[k] == from[k] && to'[k] == to[k]
    ensures Group(g, a, v, lo, hi, from', to', bound)
  {
    hide Transition, HasTransition;
    forall s: nat | s < bound && HasTransition(g, a, s, v) ensures Listed(from', lo, hi, s) {
      assert Listed(from, lo, hi, s);
      var k :| lo <= k < hi && from[k] == s;
      assert from'[k] == s;
    }
  }

  lemma GroupGrows(g: Grammar, a: Automaton, v: nat, lo: nat, hi: nat, from: seq<nat>, to: seq<nat>, s: nat, t: nat)
    requires lo <= hi < |from| == |to| && Group(g, a, v, lo, hi, from, to, s) && Transition(g, a, s, v, t)
    ensures Group(g, a, v, lo, hi + 1, from[hi := s], to[hi := t], s + 1)
  {
    hide Transition, HasTransition;
    var from' := from[hi := s];
    forall p: nat | p < s + 1 && HasTransition(g, a, p, v) ensures Listed(from', lo, hi + 1, p) {
      if p == s {
        assert from'[hi] == s;
      } else {
        assert Listed(from, lo, hi, p);
        var k :| lo <= k < hi && from[k] == p;
        assert from'[k] == p;
      }
    }
  }

  /** Between states: the groups hold the states below n. */
  ghost predicate FilledTo(g: Grammar, a: Automaton, first: seq<nat>, temp: seq<nat>, from: seq<nat>, to: seq<nat>,
                           n: nat)
    requires |first| == |temp| + 1
  {
    forall v :: 0 <= v < |temp| ==> GroupTo(g, a, v, first[v], temp[v], from, to, n)
  }

  ghost predicate GroupTo(g: Grammar, a: Automaton, v: nat, lo: nat, hi: nat, from: seq<nat>, to: seq<nat>, n: nat)
  {
    && lo <= hi <= |from| == |to| && hi == lo + CountGotos(g, a, v, n) && Group(g, a, v, lo, hi, from, to, n)
  }

  lemma FillStart(g: Grammar, a: Automaton, first: seq<nat>, temp: seq<nat>, from: seq<nat>, to: seq<nat>, s: nat)
    requires s < |a.shifts| && |first| == |temp| + 1 && FilledTo(g, a, first, temp, from, to, s)
    ensures Filled(g, a, first, temp, from, to, s, |a.shifts[s]|)
  {
    hide Group, HasTransition;
    NoneFromEnd(g, a, s);
    forall v | 0 <= v < |temp| ensures FilledAt(g, a, v, first[v], temp[v], from, to, s, |a.shifts[s]|) {
      assert GroupTo(g, a, v, first[v], temp[v], from, to, s);
    }
  }

  lemma FillEnd(g: Grammar, a: Automaton, first: seq<nat>, temp: seq<nat>, from: seq<nat>, to: seq<nat>, s: nat, j: nat)
    requires Ordered(a) && s < |a.shifts| && |first| == |temp| + 1 && Filled(g, a, first, temp, from, to, s, j)
    requires forall v :: ShiftsFrom(g, a, s, j, v) <==> ShiftsFrom(g, a, s, 0, v)
    ensures FilledTo(g, a, first, temp, from, to, s + 1)
  {
    hide Group, HasTransition, ShiftsFrom;
    forall v | 0 <= v < |temp| ensures GroupTo(g, a, v, first[v], temp[v], from, to, s + 1) {
      assert FilledAt(g, a, v, first[v], temp[v], from, to, s, j);
      FromIsHas(g, a, s, v);
      if !HasTransition(g, a, s, v) {
        NothingToAdd(g, a, v, first[v], temp[v], from, to, s);
      }
    }
  }

  lemma NothingToAdd(g: Grammar, a: Automaton, v: nat, lo: nat, hi: nat, from: seq<nat>, to: seq<nat>, s: nat)
    requires lo <= hi <= |from| == |to| && Group(g, a, v, lo, hi, from, to, s) && !HasTransition(g, a, s, v)
    ensures Group(g, a, v, lo, hi, from, to, s + 1)
  {
    hide HasTransition;
  }

  /** The second pass of set_goto_map, for one state. */
  method FillState(g: Grammar, a: Automaton, s: nat, ghost first: seq<nat>, temp: array<nat>, from: array<nat>,
                   to: array<nat>)
    requires g.WellFormed() && Ordered(a) && AccessInRange(g, a) && s < |a.shifts|
    requires temp.Length == g.NVars() && |first| == g.NVars() + 1 && Sums(g, a, first, g.NVars())
    requires first[g.NVars()] == from.Length == to.Length && temp != from && temp != to && from != to
    requires FilledTo(g, a, first, temp[..], from[..], to[..], s)
    modifies temp, from, to
    ensures FilledTo(g, a, first, temp[..], from[..], to[..], s + 1)
  {
    hide Grammar.WellFormed, Filled, FilledTo, ShiftsFrom, Sums;
    var i: nat := |a.shifts[s]|;
    FillStart(g, a, first, temp[..], from[..], to[..], s);
    while i > 0
      invariant i <= |a.shifts[s]|
      invariant Filled(g, a, first, temp[..], from[..], to[..], s, i)
      decreases i
    {
      var state2 := a.shifts[s][i - 1];
      var symbol := a.cores[state2].access;
      ShiftSeen(g, a, s, i - 1);
      if symbol < g.ntokens {
        assert forall v :: ShiftsFrom(g, a, s, i, v) <==> ShiftsFrom(g, a, s, 0, v);
        break;
      }
      ghost var was, wasFrom, wasTo := temp[..], from[..], to[..];
      FillOne(g, a, first, was, wasFrom, wasTo, s, i - 1, symbol - g.ntokens);
      var k := temp[symbol - g.ntokens];
      temp[symbol - g.ntokens] := k + 1;
      from[k] := s;
      to[k] := state2;
      assert temp[..] == was[symbol - g.ntokens := k + 1] && from[..] == wasFrom[k := s] &&
        to[..] == wasTo[k := state2];
      i := i - 1;
    }
    FillEnd(g, a, first, temp[..], from[..], to[..], s, i);
  }

  /** The first pass: how many gotos each variable has. */
  method CountAll(g: Grammar, a: Automaton) returns (fatal: bool, counts: array<nat>)
    requires g.WellFormed() && Ordered(a) && AccessInRange(g, a)
    ensures fresh(counts) && counts.Length == g.NVars() && (!fatal ==> AreCounts(g, a, counts[..], |a.shifts|))
    ensures fatal <==> GotosOf(g, a, |a.shifts|) > MAXSHORT
  {
    assert g.ntokens <= g.nsyms;
    hide Grammar.WellFormed, Ordered, AccessInRange, HasTransition;
    counts := new nat[g.NVars()](_ => 0);
    var ngotos := 0;
    for s := 0 to |a.shifts|
      invariant AreCounts(g, a, counts[..], s) && ngotos == GotosOf(g, a, s) <= MAXSHORT
    {
      fatal, ngotos := CountState(g, a, s, counts, ngotos);
      if fatal {
        GotosGrow(g, a, s + 1, |a.shifts|);
        return;
      }
    }
    fatal := false;
  }

  /** Where each group starts; temp holds the same and moves on as the groups are filled. */
  method StartGroups(g: Grammar, a: Automaton, counts: array<nat>) returns (first: seq<nat>, temp: array<nat>)
    requires AreCounts(g, a, counts[..], |a.shifts|)
    ensures fresh(temp) && temp.Length == counts.Length && Sums(g, a, first, counts.Length)
    ensures forall u :: 0 <= u < temp.Length ==> temp[u] == first[u]
  {
    var n := counts.Length;
    first := [0];
    temp := new nat[n];
    for v := 0 to n
      invariant AreCounts(g, a, counts[..], |a.shifts|) && Sums(g, a, first, v)
      invariant forall u :: 0 <= u < v ==> temp[u] == first[u]
    {
      temp[v] := first[v];
      assert counts[v] == counts[..][v];
      first := first + [first[v] + counts[v]];
    }
  }

  method SetGotoMap(g: Grammar, a: Automaton) returns (fatal: bool, m: GotoMap)
    requires g.WellFormed() && IsLR0(g, a)
    ensures !fatal ==> IsGotoMap(g, a, m)
    ensures fatal <==> GotosOf(g, a, |a.shifts|) > MAXSHORT
  {
    LR0Ordered(g, a);
    hide Grammar.WellFormed, IsLR0, Ordered, AccessInRange, FilledTo, HasTransition, IsGotoMap, AreCounts, Sums;
    OrderedLength(a);
    m := GotoMap([], [], []);
    var counts;
    fatal, counts := CountAll(g, a);
    if fatal { return; }
    var first, temp := StartGroups(g, a, counts);
    SumsLength(g, a, first, g.NVars());
    var from := new nat[first[g.NVars()]];
    var to := new nat[first[g.NVars()]];
    NothingFilled(g, a, first, temp[..], from[..], to[..]);
    for s := 0 to |a.shifts|
      invariant FilledTo(g, a, first, temp[..], from[..], to[..], s)
    {
      FillState(g, a, s, first, temp, from, to);
    }
    m := GotoMap(first, from[..], to[..]);
    FilledIsMap(g, a, first, temp[..], m);
  }

  lemma SumsLength(g: Grammar, a: Automaton, first: seq<nat>, n: nat)
    requires Sums(g, a, first, n)
    ensures |first| == n + 1
  {}

  lemma OrderedLength(a: Automaton)
    requires Ordered(a)
    ensures |a.shifts| == |a.cores|
  {}

  lemma NothingFilled(g: Grammar, a: Automaton, first: seq<nat>, temp: seq<nat>, from: seq<nat>, to: seq<nat>)
    requires |first| == |temp| + 1 && Sums(g, a, first, |temp|) && first[|temp|] == |from| == |to|
    requires forall u :: 0 <= u < |temp| ==> temp[u] == first[u]
    ensures FilledTo(g, a, first, temp, from, to, 0)
  {
    forall v | 0 <= v < |temp| ensures GroupTo(g, a, v, first[v], temp[v], from, to, 0) {
      SumsMonotone(g, a, first, |temp|, v, |temp|);
    }
  }

  lemma FilledIsMap(g: Grammar, a: Automaton, first: seq<nat>, temp: seq<nat>, m: GotoMap)
    requires g.WellFormed() && |temp| == g.NVars() && m.first == first && |first| == g.NVars() + 1 &&
             |a.shifts| == |a.cores|
    requires Sums(g, a, first, g.NVars()) && first[g.NVars()] == |m.from| == |m.to|
    requires FilledTo(g, a, first, temp, m.from, m.to, |a.shifts|)
    ensures IsGotoMap(g, a, m)
  {
    hide Group;
    forall u, v | 0 <= u <= v <= g.NVars() ensures first[u] <= first[v] {
      SumsMonotone(g, a, first, g.NVars(), u, v);
    }
    forall v | 0 <= v < g.NVars() ensures WholeGroup(g, a, m, v) {
      assert GroupTo(g, a, v, first[v], temp[v], m.from, m.to, |a.shifts|);
    }
  }

  // ----- map_goto -----

  /** The number of the goto from state over start_symbol + v.  The search never looks past
      the group of v, and its bounds never cross, as long as the goto exists. */
  method MapGoto(g: Grammar, a: Automaton, m: GotoMap, state: nat, v: nat) returns (k: nat)
    requires g.WellFormed() && IsGotoMap(g, a, m) && v < g.NVars()
    requires state < |a.cores| && HasTransition(g, a, state, v)
    ensures m.first[v] <= k < m.first[v + 1] && m.from[k] == state
  {
    hide HasTransition, Transition, Grammar.WellFormed;
    assert WholeGroup(g, a, m, v);
    assert Listed(m.from, m.first[v], m.first[v + 1], state);
    ghost var found :| m.first[v] <= found < m.first[v + 1] && m.from[found] == state;
    var low: int, high: int := m.first[v], m.first[v + 1];
    while true
      invariant m.first[v] <= low <= found <= high <= m.first[v + 1]
      decreases high - low
    {
      assert low <= high;
      var middle := (low + high) / 2;
      assert middle < m.first[v + 1];
      var s := m.from[middle];
      if s == state {
        return middle;
      } else if s < state {
        low := middle + 1;
      } else {
        high := middle - 1;
      }
    }
  }

  /** A goto's number determines its state and variable, and they determine the number. */
  lemma GotoUnique(g: Grammar, a: Automaton, m: GotoMap, v: nat, j: nat, k: nat)
    requires g.WellFormed() && IsGotoMap(g, a, m) && v < g.NVars()
    requires m.first[v] <= j < m.first[v + 1] && m.first[v] <= k < m.first[v + 1]
    requires k < |m.from| && j < |m.from| && m.from[j] == m.from[k]
    ensures j == k
  {
    hide Grammar.WellFormed, HasTransition, Transition;
    assert WholeGroup(g, a, m, v);
  }
}
