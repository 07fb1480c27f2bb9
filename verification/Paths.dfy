/** Walking the LR(0) automaton: which items a state holds, and where its shifts lead. */
module Paths {
  import opened Automata
  import opened Cfgs
  import opened Grammars
  import opened Items

  /** Item i is in the closure of state s. */
  ghost predicate InState(g: Grammar, a: Automaton, s: nat, i: nat)
    requires g.WellFormed()
  {
    s < |a.cores| && InClosure(g, a.cores[s].items, i)
  }

  /** State s shifts to t over the symbol x. */
  ghost predicate Shift(a: Automaton, s: nat, x: int, t: nat)
  {
    s < |a.shifts| && t in a.shifts[s] && t < |a.cores| && a.cores[t].access == x
  }

  /** The path from p that spells the symbols ends in q. */
  ghost predicate Spells(a: Automaton, p: nat, symbols: seq<nat>, q: nat)
  {
    if symbols == [] then p == q
    else
      var front, last := symbols[..|symbols| - 1], symbols[|symbols| - 1];
      exists m: nat :: Spells(a, p, front, m) && Shift(a, m, last, q)
  }

  lemma InStateItem(g: Grammar, a: Automaton, s: nat, i: nat)
    requires g.WellFormed() && IsLR0(g, a) && InState(g, a, s, i)
    ensures g.IsItem(i) && AreItems(g, a.cores[s].items)
  {
    if s > 0 { assert IsKernel(g, a.cores[s]); }
    var c := ClosureSet(g, a.cores[s].items);
  }

  lemma ShiftExists(g: Grammar, a: Automaton, s: nat, i: nat) returns (t: nat)
    requires g.WellFormed() && IsLR0(g, a) && InState(g, a, s, i) && g.IsItem(i) && g.ritem[i] > 0
    ensures Shift(a, s, g.ritem[i], t)
  {
    hide InClosure, IsGoto;
    assert ShiftsOf(g, a.cores, a.cores[s].items, a.shifts[s]);
    assert ShiftsOver(a.cores, a.shifts[s], g.ritem[i]);
    var j :| 0 <= j < |a.shifts[s]| && a.shifts[s][j] < |a.cores| && a.cores[a.shifts[s][j]].access == g.ritem[i];
    t := a.shifts[s][j];
  }

  lemma ShiftUnique(g: Grammar, a: Automaton, s: nat, x: int, t: nat, u: nat)
    requires g.WellFormed() && IsLR0(g, a) && Shift(a, s, x, t) && Shift(a, s, x, u)
    ensures t == u
  {
    hide InClosure, IsGoto;
    assert ShiftsOf(g, a.cores, a.cores[s].items, a.shifts[s]);
    var j :| 0 <= j < |a.shifts[s]| && a.shifts[s][j] == t;
    var k :| 0 <= k < |a.shifts[s]| && a.shifts[s][k] == u;
    assert j < k ==> AccessedBefore(a.cores, a.shifts[s][j], a.shifts[s][k]);
    assert k < j ==> AccessedBefore(a.cores, a.shifts[s][k], a.shifts[s][j]);
  }

  /** The kernel of the state shifted to. */
  lemma ShiftKernel(g: Grammar, a: Automaton, s: nat, x: int, t: nat)
    requires g.WellFormed() && IsLR0(g, a) && Shift(a, s, x, t)
    ensures 1 <= t < |a.cores| && s < |a.cores| && 0 < x < g.nsyms && IsKernel(g, a.cores[t])
    ensures forall i: nat :: i in a.cores[t].items <==> MovesTo(g, a.cores[s].items, x, i)
  {
    hide InClosure, MovesTo;
    assert ShiftsOf(g, a.cores, a.cores[s].items, a.shifts[s]);
    var j :| 0 <= j < |a.shifts[s]| && a.shifts[s][j] == t;
    assert IsShift(g, a.cores, a.cores[s].items, a.shifts[s][j]);
  }

  /** Moving the dot over x. */
  lemma ShiftMoves(g: Grammar, a: Automaton, s: nat, x: int, t: nat, i: nat)
    requires g.WellFormed() && IsLR0(g, a) && Shift(a, s, x, t)
    requires InState(g, a, s, i) && g.IsItem(i) && g.ritem[i] == x
    ensures InState(g, a, t, i + 1) && i + 1 in a.cores[t].items && g.IsItem(i + 1)
  {
    ShiftKernel(g, a, s, x, t);
    g.ItemContent(i);
    assert MovesTo(g, a.cores[s].items, x, i + 1);
  }

  /** And back: an item of the kernel shifted to came from the item before it. */
  lemma ShiftCameFrom(g: Grammar, a: Automaton, s: nat, x: int, t: nat, i: nat)
    requires g.WellFormed() && IsLR0(g, a) && Shift(a, s, x, t) && i in a.cores[t].items
    ensures i >= 2 && InState(g, a, s, i - 1) && g.IsItem(i - 1) && g.ritem[i - 1] == x
  {
    ShiftKernel(g, a, s, x, t);
    assert MovesTo(g, a.cores[s].items, x, i);
    InStateItem(g, a, s, i - 1);
  }

  /** A transition over x means that some item of the state has the dot before x. */
  lemma ShiftHasItem(g: Grammar, a: Automaton, s: nat, x: int, t: nat) returns (i: nat)
    requires g.WellFormed() && IsLR0(g, a) && Shift(a, s, x, t)
    ensures InState(g, a, s, i) && g.IsItem(i) && g.ritem[i] == x
  {
    hide Grammar.WellFormed, IsLR0, Shift, InState, MovesTo;
    ShiftKernel(g, a, s, x, t);
    var j := a.cores[t].items[0];
    assert j in a.cores[t].items;
    ShiftCameFrom(g, a, s, x, t, j);
    i := j - 1;
  }

  /** A state with the dot before r's variable has r's start item. */
  lemma RuleStarts(g: Grammar, a: Automaton, s: nat, i: nat, r: nat)
    requires g.WellFormed() && IsLR0(g, a) && InState(g, a, s, i) && g.IsItem(i) && g.IsRule(r) &&
             g.ritem[i] == g.rlhs[r]
    ensures InState(g, a, s, g.rrhs[r])
  {
    InStateItem(g, a, s, i);
    ClosureStep(g, a.cores[s].items, i, r);
  }

  lemma SpellsOne(a: Automaton, p: nat, symbols: seq<nat>, q: nat, x: nat, t: nat)
    requires Spells(a, p, symbols, q) && Shift(a, q, x, t)
    ensures Spells(a, p, symbols + [x], t)
  {
    assert (symbols + [x])[..|symbols|] == symbols;
  }

  lemma {:induction false} SpellsUnique(g: Grammar, a: Automaton, p: nat, symbols: seq<nat>, q: nat, t: nat)
    requires g.WellFormed() && IsLR0(g, a) && Spells(a, p, symbols, q) && Spells(a, p, symbols, t)
    ensures q == t
  {
    if symbols != [] {
      hide Grammar.WellFormed, IsLR0, Shift;
      var n := |symbols| - 1;
      var m: nat :| Spells(a, p, symbols[..n], m) && Shift(a, m, symbols[n], q);
      var l: nat :| Spells(a, p, symbols[..n], l) && Shift(a, l, symbols[n], t);
      SpellsUnique(g, a, p, symbols[..n], m, l);
      ShiftUnique(g, a, m, symbols[n], q, t);
    }
  }

  /** From a state that has rule r's start item, the first k symbols of its right side spell a
      path, and the state reached has the item with the dot after them. */
  lemma {:induction false} SpellsRule(g: Grammar, a: Automaton, p: nat, r: nat, k: nat) returns (q: nat)
    requires g.WellFormed() && IsLR0(g, a) && g.IsRule(r) && r >= 3 && InState(g, a, p, g.rrhs[r]) && k <= |g.Rhs(r)|
    ensures Spells(a, p, g.Rhs(r)[..k], q) && InState(g, a, q, g.rrhs[r] + k)
    decreases k
  {
    hide Grammar.WellFormed, IsLR0, InState, Spells, Grammar.Rhs, Grammar.RuleEnd;
    if k == 0 {
      q := p;
      SpellsNone(a, p);
      assert g.Rhs(r)[..0] == [];
    } else {
      var m := SpellsRule(g, a, p, r, k - 1);
      q := SpellsRuleStep(g, a, p, r, k - 1, m);
    }
  }

  lemma SpellsNone(a: Automaton, p: nat)
    ensures Spells(a, p, [], p)
  {}

  lemma SpellsRuleStep(g: Grammar, a: Automaton, p: nat, r: nat, k: nat, m: nat) returns (q: nat)
    requires g.WellFormed() && IsLR0(g, a) && g.IsRule(r) && r >= 3 && k < |g.Rhs(r)|
    requires Spells(a, p, g.Rhs(r)[..k], m) && InState(g, a, m, g.rrhs[r] + k)
    ensures Shift(a, m, g.Rhs(r)[k], q)
    ensures Spells(a, p, g.Rhs(r)[..k + 1], q) && InState(g, a, q, g.rrhs[r] + k + 1)
  {
    hide Grammar.WellFormed, IsLR0, Shift, InState, Spells, Grammar.Rhs, Grammar.RuleEnd;
    g.RuleFacts(r);
    RuleSymbol(g, r, k);
    var i := g.rrhs[r] + k;
    q := ShiftExists(g, a, m, i);
    ShiftMoves(g, a, m, g.ritem[i], q, i);
    SpellsOne(a, p, g.Rhs(r)[..k], m, g.Rhs(r)[k], q);
    assert g.Rhs(r)[..k] + [g.Rhs(r)[k]] == g.Rhs(r)[..k + 1];
  }

  /** The k-th symbol of a user rule. */
  lemma RuleSymbol(g: Grammar, r: nat, k: nat)
    requires g.WellFormed() && g.IsRule(r) && r >= 3 && k < |g.Rhs(r)|
    ensures g.IsItem(g.rrhs[r] + k) && g.ritem[g.rrhs[r] + k] == g.Rhs(r)[k] && 0 < g.Rhs(r)[k] < g.nsyms
    ensures g.Rhs(r)[k] != g.ntokens && g.RuleOf(g.rrhs[r] + k) == r
  {
    g.RuleFacts(r);
    g.RuleOfUnique(g.rrhs[r] + k, r);
    g.ItemContent(g.rrhs[r] + k);
  }

  /** The state at the end of the path reduces by the rule. */
  lemma SpelledReduces(g: Grammar, a: Automaton, p: nat, r: nat, q: nat)
    requires g.WellFormed() && IsLR0(g, a) && g.IsRule(r) && r >= 3 && InState(g, a, p, g.rrhs[r])
    requires Spells(a, p, g.Rhs(r), q)
    ensures q < |a.reds| && r in a.reds[q]
  {
    hide Grammar.WellFormed, Spells, Grammar.Rhs;
    var t := SpellsRule(g, a, p, r, |g.Rhs(r)|);
    assert g.Rhs(r)[..|g.Rhs(r)|] == g.Rhs(r);
    SpellsUnique(g, a, p, g.Rhs(r), q, t);
    ReducesWhenComplete(g, a, q, r);
  }

  lemma ReducesWhenComplete(g: Grammar, a: Automaton, q: nat, r: nat)
    requires g.WellFormed() && IsLR0(g, a) && g.IsRule(r)
    ensures q < |a.cores| ==> (r in a.reds[q] <==> InState(g, a, q, g.RuleEnd(r)))
  {
    hide InClosure, ShiftsOf;
    if q < |a.cores| { assert RedsOf(g, a.cores[q].items, a.reds[q]); }
  }

  /** $accept is never shifted over, so every goto is over a variable with user rules only. */
  lemma NoShiftOverAccept(g: Grammar, a: Automaton, s: nat, t: nat)
    requires g.WellFormed() && IsLR0(g, a)
    ensures !Shift(a, s, g.ntokens, t)
  {
    if Shift(a, s, g.ntokens, t) {
      var i := ShiftHasItem(g, a, s, g.ntokens, t);
      g.ItemContent(i);
    }
  }
}
