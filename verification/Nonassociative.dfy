/** The grammar E : E '<' E | 'x' with %nonassoc '<'.  In the state after E '<' E the shift and the
    reduction on '<' are both removed, but the rule is all that is left of the row and so becomes the
    state's default: the parser accepts x < x < x and groups it from the left. */
module Nonassociative {
  import opened Automata
  import opened Cfgs
  import opened Completeness
  import opened Gotos
  import opened Grammars
  import opened Grouping
  import opened Items
  import opened Lookaheads
  import opened Mkpar
  import opened Output
  import opened Packing
  import opened Paths
  import opened Reach
  import opened RuleTables
  import opened Skeleton
  import opened Soundness
  import opened Trace
  import opened Vectors

  /** Tokens $end, error, '<' and 'x'; variables $accept and E.  Rule 3 is E : E '<' E and rule 4 is E : 'x'. */
  const GRAMMAR := Grammar(4, 6, [-1, 5, 0, -2, 5, 2, 5, -3, 3, -4], [0, 0, 4, 5, 5], [0, 0, 1, 4, 8, 10])
  const AUTOMATON :=
    Automaton([Core(0, [1]), Core(3, [9]), Core(5, [2, 5]), Core(2, [6]), Core(5, [5, 7])],
              [[1, 2], [], [3], [1, 4], [3]], [[], [4], [], [], [3]])
  const LALR := Lalr(GRAMMAR, AUTOMATON, GotoMap([0, 0, 2], [0, 3], [2, 4]))
  const PRECEDENCE := Precedence([0, 0, 1, 0, 0, 0], [TOKEN, TOKEN, NONASSOC, TOKEN, TOKEN, TOKEN], [0, 0, 0, 1, 0],
                                 [TOKEN, TOKEN, TOKEN, NONASSOC, TOKEN])
  const ROWS :=
    [[Action(3, 1, 0, SHIFT, TOKEN, 0)],
     [Action(0, 4, 0, REDUCE, TOKEN, 0), Action(2, 4, 0, REDUCE, TOKEN, 0)],
     [Action(2, 3, 1, SHIFT, NONASSOC, 0)],
     [Action(3, 1, 0, SHIFT, TOKEN, 0)],
     [Action(0, 3, 1, REDUCE, NONASSOC, 0), Action(2, 3, 1, SHIFT, NONASSOC, 2), Action(2, 3, 1, REDUCE, NONASSOC, 2)]]
  const PARSER := Parser(ROWS, [0, 4, 0, 0, 3], 2, 0, 0)
  const VALUES: seq<nat> := [0, 256, 60, 120]
  const TABLES := Tables([-1, 0, 0], [2, 3, 1], [0, 2, 0, 0, 1], [2], [-120, 0, -59, -120, 0], [0, 0, 0, 0, 0], [-1],
                         [1, 3, 4], [120, 60, 3], 2)
  const YACC := Generated(LALR, PRECEDENCE, PARSER, VALUES, TABLES)

  lemma GrammarIsWellFormed()
    ensures GRAMMAR.WellFormed()
  {
    hide Grammar.RuleLaidOut, Grammar.UserRule;
    forall r | GRAMMAR.IsRule(r)
      ensures GRAMMAR.RuleLaidOut(r) && (r >= 3 ==> GRAMMAR.UserRule(r))
    {
      RuleIsLaidOut(r);
    }
  }

  lemma RuleIsLaidOut(r: int)
    requires GRAMMAR.IsRule(r)
    ensures GRAMMAR.RuleLaidOut(r) && (r >= 3 ==> GRAMMAR.UserRule(r))
  {
    assert r in {2, 3, 4};
  }

  // ----- the automaton -----

  /** The closures of the five kernels. */
  ghost function ClosureOf(s: nat): set<nat>
  {
    if s == 0 then {1, 4, 8}
    else if s == 1 then {9}
    else if s == 2 then {2, 5}
    else if s == 3 then {6, 4, 8}
    else {5, 7}
  }

  lemma Closures(s: nat, i: nat)
    requires s < 5
    ensures GRAMMAR.WellFormed() && (InClosure(GRAMMAR, AUTOMATON.cores[s].items, i) <==> i in ClosureOf(s))
  {
    GrammarIsWellFormed();
    var kernel := AUTOMATON.cores[s].items;
    if InClosure(GRAMMAR, kernel, i) {
      ClosuresClosed(s);
      hide Grammar.WellFormed, InClosure, Closed;
      ClosureWithin(GRAMMAR, kernel, ClosureOf(s), i);
    }
    if (s == 0 || s == 3) && i in {4, 8} {
      ReachesRefl(LeftCorner(GRAMMAR), 5);
      var k := if s == 0 then 1 else 6;
      assert Predicts(GRAMMAR, k, 3) && Predicts(GRAMMAR, k, 4);
    }
  }

  lemma ClosuresClosed(s: nat)
    requires s < 5 && GRAMMAR.WellFormed()
    ensures Closed(GRAMMAR, ClosureOf(s))
  {
    hide Grammar.WellFormed;
    forall i, r | i in ClosureOf(s) && GRAMMAR.IsItem(i) && GRAMMAR.IsRule(r) && GRAMMAR.ritem[i] == GRAMMAR.rlhs[r]
      ensures GRAMMAR.rrhs[r] in ClosureOf(s)
    {
      assert r in {2, 3, 4};
    }
  }

  /** Where the items of a closure go over symbol y. */
  lemma GotoIs(s: nat, y: nat, next: seq<nat>)
    requires s < 5 && GRAMMAR.WellFormed() && Ascending(next)
    requires forall i: nat :: i in next <==> i >= 2 && i <= 10 && i - 1 in ClosureOf(s) && GRAMMAR.ritem[i - 1] == y
    ensures IsGoto(GRAMMAR, AUTOMATON.cores[s].items, y, next)
  {
    forall i: nat ensures i in next <==> MovesTo(GRAMMAR, AUTOMATON.cores[s].items, y, i) {
      if i >= 1 { Closures(s, i - 1); }
    }
  }

  lemma NoShifts()
    requires GRAMMAR.WellFormed()
    ensures ShiftsOf(GRAMMAR, AUTOMATON.cores, AUTOMATON.cores[1].items, [])
  {
    forall i: nat | InClosure(GRAMMAR, AUTOMATON.cores[1].items, i) && GRAMMAR.IsItem(i)
      ensures GRAMMAR.ritem[i] <= 0
    {
      Closures(1, i);
    }
    hide InClosure, Grammar.WellFormed, Ascending;
  }

  /** One shift: from states 2 and 4, over '<'. */
  lemma OneShift(s: nat)
    requires (s == 2 || s == 4) && GRAMMAR.WellFormed()
    ensures ShiftsOf(GRAMMAR, AUTOMATON.cores, AUTOMATON.cores[s].items, [3])
  {
    GotoIs(s, 2, [6]);
    var cores, shifts := AUTOMATON.cores, [3];
    assert shifts[0] == 3 && cores[3].access == 2 && cores[3].items == [6];
    forall i: nat | InClosure(GRAMMAR, cores[s].items, i) && GRAMMAR.IsItem(i) && GRAMMAR.ritem[i] > 0
      ensures ShiftsOver(cores, shifts, GRAMMAR.ritem[i])
    {
      Closures(s, i);
      hide InClosure, Grammar.WellFormed, IsGoto;
      assert GRAMMAR.ritem[i] == cores[shifts[0]].access;
    }
    hide InClosure, Grammar.WellFormed, IsGoto, ShiftsOver, Ascending;
  }

  /** Two shifts: from states 0 and 3, over 'x' and over E. */
  lemma TwoShifts(s: nat, t: nat)
    requires (s == 0 && t == 2) || (s == 3 && t == 4)
    requires GRAMMAR.WellFormed()
    ensures ShiftsOf(GRAMMAR, AUTOMATON.cores, AUTOMATON.cores[s].items, [1, t])
  {
    GotoIs(s, 3, [9]);
    GotoIs(s, 5, if s == 0 then [2, 5] else [5, 7]);
    var cores, shifts := AUTOMATON.cores, [1, t];
    CoresAre(t);
    forall i: nat | InClosure(GRAMMAR, cores[s].items, i) && GRAMMAR.IsItem(i) && GRAMMAR.ritem[i] > 0
      ensures ShiftsOver(cores, shifts, GRAMMAR.ritem[i])
    {
      TwoSymbols(s, i);
      hide InClosure, Grammar.WellFormed, IsGoto;
      assert GRAMMAR.ritem[i] == cores[shifts[0]].access || GRAMMAR.ritem[i] == cores[shifts[1]].access;
    }
    hide InClosure, Grammar.WellFormed, IsGoto, ShiftsOver, Ascending;
    assert shifts[0] == 1 && shifts[1] == t && AccessedBefore(cores, shifts[0], shifts[1]);
  }

  lemma CoresAre(t: nat)
    requires t == 2 || t == 4
    ensures AUTOMATON.cores[1] == Core(3, [9]) && AUTOMATON.cores[t] == Core(5, if t == 2 then [2, 5] else [5, 7])
  {}

  lemma TwoSymbols(s: nat, i: nat)
    requires (s == 0 || s == 3) && GRAMMAR.WellFormed() && InClosure(GRAMMAR, AUTOMATON.cores[s].items, i)
    requires GRAMMAR.IsItem(i) && GRAMMAR.ritem[i] > 0
    ensures GRAMMAR.ritem[i] == 3 || GRAMMAR.ritem[i] == 5
  {
    Closures(s, i);
    hide InClosure, Grammar.WellFormed;
  }

  lemma RedsAre(s: nat, r: nat)
    ensures s < |AUTOMATON.reds| && r in AUTOMATON.reds[s] <==> (s == 1 && r == 4) || (s == 4 && r == 3)
  {}

  lemma RuleEnds(r: nat)
    requires GRAMMAR.WellFormed() && GRAMMAR.IsRule(r)
    ensures r in {2, 3, 4} && GRAMMAR.RuleEnd(r) == if r == 2 then 3 else if r == 3 then 7 else 9
  {}

  lemma RedsAreRight(s: nat)
    requires s < 5 && GRAMMAR.WellFormed()
    ensures RedsOf(GRAMMAR, AUTOMATON.cores[s].items, AUTOMATON.reds[s])
  {
    forall r: nat | GRAMMAR.IsRule(r)
      ensures r in AUTOMATON.reds[s] <==> InClosure(GRAMMAR, AUTOMATON.cores[s].items, GRAMMAR.RuleEnd(r))
    {
      RuleEnds(r);
      RedsAre(s, r);
      Closures(s, GRAMMAR.RuleEnd(r));
      hide InClosure, Grammar.WellFormed, Grammar.RuleEnd;
      EndIn(s, r);
    }
    RedsInOrder(s);
    forall r: nat | r in AUTOMATON.reds[s] ensures GRAMMAR.IsRule(r) { RedsAre(s, r); }
    hide InClosure, Grammar.WellFormed, Grammar.RuleEnd, Ascending;
  }

  lemma EndIn(s: nat, r: nat)
    requires s < 5 && r in {2, 3, 4}
    ensures (if r == 2 then 3 else if r == 3 then 7 else 9) in ClosureOf(s) <==>
            (s == 1 && r == 4) || (s == 4 && r == 3)
  {}

  lemma RedsInOrder(s: nat)
    requires s < 5
    ensures Ascending(AUTOMATON.reds[s])
  {}

  lemma KernelsAreRight()
    ensures AreCores(GRAMMAR, AUTOMATON.cores) && DistinctKernels(AUTOMATON.cores)
    ensures forall s :: 1 <= s < 5 ==> ReachedFromEarlier(AUTOMATON.shifts, s)
  {
    forall s | 1 <= s < 5 ensures IsKernel(GRAMMAR, AUTOMATON.cores[s]) && ReachedFromEarlier(AUTOMATON.shifts, s) {
      KernelIsRight(s);
    }
    hide IsKernel, ReachedFromEarlier;
    FirstItems();
  }

  lemma FirstItems()
    ensures DistinctKernels(AUTOMATON.cores)
  {
    var c := AUTOMATON.cores;
    assert c[0].items[0] == 1 && c[1].items[0] == 9 && c[2].items[0] == 2 && c[3].items[0] == 6 && c[4].items[0] == 5;
  }

  lemma KernelIsRight(s: nat)
    requires 1 <= s < 5
    ensures IsKernel(GRAMMAR, AUTOMATON.cores[s]) && ReachedFromEarlier(AUTOMATON.shifts, s)
  {
    var all := AUTOMATON.shifts;
    assert all[0][0] == 1 && all[0][1] == 2 && all[2][0] == 3 && all[3][1] == 4;
    var p := if s <= 2 then 0 else s - 1;
    assert s in all[p];
  }

  lemma AutomatonIsLR0()
    ensures GRAMMAR.WellFormed() && IsLR0(GRAMMAR, AUTOMATON)
  {
    GrammarIsWellFormed();
    KernelsAreRight();
    hide ShiftsOf, RedsOf, Grammar.WellFormed, AreCores, DistinctKernels, ReachedFromEarlier;
    forall s | 0 <= s < 5
      ensures ShiftsOf(GRAMMAR, AUTOMATON.cores, AUTOMATON.cores[s].items, AUTOMATON.shifts[s])
      ensures RedsOf(GRAMMAR, AUTOMATON.cores[s].items, AUTOMATON.reds[s])
    {
      if s == 1 {
        NoShifts();
      } else if s == 2 || s == 4 {
        OneShift(s);
      } else {
        TwoShifts(s, s / 3 * 2 + 2);
      }
      RedsAreRight(s);
    }
  }

  lemma ShiftIs(s: nat, y: int, t: nat)
    ensures Shift(AUTOMATON, s, y, t) <==>
            || ((s == 0 || s == 3) && y == 3 && t == 1) || ((s == 2 || s == 4) && y == 2 && t == 3)
            || (s == 0 && y == 5 && t == 2) || (s == 3 && y == 5 && t == 4)
  {
    var all := AUTOMATON.shifts;
    assert all[0][0] == 1 && all[0][1] == 2 && all[2][0] == 3 && all[3][0] == 1 && all[3][1] == 4 && all[4][0] == 3;
  }

  lemma LalrIsOk()
    ensures LALR.Ok()
  {
    AutomatonIsLR0();
    hide IsLR0;
    var m := LALR.m;
    forall v | 0 <= v < 2 ensures WholeGroup(GRAMMAR, AUTOMATON, m, v) { GroupIs(v); }
  }

  lemma GroupIs(v: nat)
    requires v < 2
    ensures WholeGroup(GRAMMAR, AUTOMATON, LALR.m, v)
  {
    var m := LALR.m;
    assert m.from[0] == 0 && m.from[1] == 3 && m.to[0] == 2 && m.to[1] == 4;
    forall s: nat, t: nat ensures Transition(GRAMMAR, AUTOMATON, s, v, t) <==>
                                 v == 1 && ((s == 0 && t == 2) || (s == 3 && t == 4)) {
      ShiftIs(s, 4 + v, t);
    }
  }

  // ----- the lookaheads -----

  /** The end marker and '<' can follow E, wherever it is. */
  lemma FollowIs(i: nat, t: nat)
    requires LALR.Ok() && GRAMMAR.WellFormed() && i < 2
    ensures LALR.Follow(i, t) <==> t == 0 || t == 2
  {
    hide Lalr.Ok, Grammar.WellFormed, Reaches;
    if LALR.Follow(i, t) {
      var j: nat :| LALR.IsGoto(j) && Reaches(LALR.Includes(), i, j) && LALR.Read(j, t);
      var k: nat :| LALR.IsGoto(k) && Reaches(LALR.Reads(), j, k) && LALR.DirectRead(k, t);
      forall u ensures Shift(AUTOMATON, LALR.m.to[k], t, u) ==> t == 2 { ShiftIs(LALR.m.to[k], t, u); }
    }
    if t == 2 { OperatorFollows(i); }
    if t == 0 {
      EndFollowsGoal(LALR);
      if i == 1 { IncludesFirst(); LALR.FollowSolves(1, 0, 0); }
    }
  }

  lemma OperatorFollows(i: nat)
    requires LALR.Ok() && GRAMMAR.WellFormed() && i < 2
    ensures LALR.Follow(i, 2)
  {
    hide Lalr.Ok, Grammar.WellFormed, Lalr.Follow, Lalr.Read, Shift;
    ShiftIs(LALR.m.to[i], 2, 3);
    assert LALR.DirectRead(i, 2);
    LALR.ReadSolves(i, i, 2);
    LALR.FollowSolves(i, i, 2);
  }

  /** What can follow the whole E : E '<' E can follow its right operand. */
  lemma IncludesFirst()
    requires LALR.Ok() && GRAMMAR.WellFormed()
    ensures LALR.IsGoto(0) && LALR.IsGoto(1) && LALR.Includes()(1, 0)
  {
    hide Lalr.Ok, Grammar.WellFormed, Grammar.Rhs, Spells, Lalr.Sym, Lalr.Includes;
    GotosAre();
    Rule3();
    OperandSpelled(0);
    IncludesAtEnd(LALR, 1, 0, 3, [5, 2], 5);
  }

  lemma IncludesAtEnd(l: Lalr, i: nat, j: nat, r: nat, front: seq<nat>, y: nat)
    requires l.g.WellFormed() && l.IsGoto(i) && l.IsGoto(j) && l.g.IsRule(r) && l.g.rlhs[r] == l.Sym(j)
    requires l.g.Rhs(r) == front + [y] && l.Sym(i) == y && Spells(l.a, l.m.from[j], front, l.m.from[i])
    ensures l.Includes()(i, j)
  {
    hide Grammar.WellFormed, Grammar.Rhs, Spells, Lalr.Sym;
    assert l.g.Rhs(r)[..|front|] == front;
    assert l.IncludesBy(i, j, r, |front|);
  }

  lemma GotosAre()
    ensures LALR.IsGoto(0) && LALR.m.from[0] == 0 && LALR.Sym(0) == 5
    ensures LALR.IsGoto(1) && LALR.m.from[1] == 3 && LALR.Sym(1) == 5
  {
    assert LALR.m.to[0] == 2 && LALR.m.to[1] == 4 && AUTOMATON.cores[2].access == 5 && AUTOMATON.cores[4].access == 5;
  }

  lemma Rule3()
    requires GRAMMAR.WellFormed()
    ensures GRAMMAR.IsRule(3) && GRAMMAR.Rhs(3) == [5, 2, 5] && GRAMMAR.Rhs(3)[..2] == [5, 2]
  {}

  lemma OperandSpelled(p: nat)
    requires p == 0 || p == 3
    ensures Spells(AUTOMATON, p, [5, 2], 3) && Spells(AUTOMATON, p, [5, 2, 5], 4)
  {
    hide Shift, Spells;
    var q := if p == 0 then 2 else 4;
    ShiftIs(p, 5, q);
    ShiftIs(q, 2, 3);
    ShiftIs(3, 5, 4);
    SpellsNone(AUTOMATON, p);
    assert [] + [5] == [5] && [5] + [2] == [5, 2] && [5, 2] + [5] == [5, 2, 5];
    SpellsOne(AUTOMATON, p, [], p, 5, q);
    SpellsOne(AUTOMATON, p, [5], q, 2, 3);
    SpellsOne(AUTOMATON, p, [5, 2], 3, 5, 4);
  }

  lemma ReducesIs(s: nat, r: nat, y: nat)
    requires LALR.Ok() && GRAMMAR.WellFormed()
    ensures Reduces(LALR, s, r, y) <==> (y == 0 || y == 2) && ((s == 1 && r == 4) || (s == 4 && r == 3))
  {
    RedsAre(s, r);
    if (s == 1 && r == 4) || (s == 4 && r == 3) { LooksBackToStart(s, r); }
    FollowIs(0, y);
    FollowIs(1, y);
    hide Lalr.Ok, Grammar.WellFormed, Lalr.Follow, Lalr.LooksBack;
    if r in {3, 4} && LALR.InLA(s, r, y) { SomeGoto(s, r, y); }
  }

  lemma SomeGoto(s: nat, r: nat, y: nat)
    requires GRAMMAR.WellFormed() && GRAMMAR.IsRule(r) && LALR.InLA(s, r, y)
    ensures LALR.Follow(0, y) || LALR.Follow(1, y)
  {
    hide Grammar.WellFormed, Lalr.Follow;
    var i: nat :| LALR.LooksBack(s, r, i) && LALR.Follow(i, y);
  }

  lemma LooksBackToStart(s: nat, r: nat)
    requires GRAMMAR.WellFormed() && ((s == 1 && r == 4) || (s == 4 && r == 3))
    ensures LALR.LooksBack(s, r, 0)
  {
    GotosAre();
    if r == 3 {
      Rule3();
      OperandSpelled(0);
    } else {
      Rule4();
      TokenSpelled();
    }
    hide Grammar.WellFormed, Grammar.Rhs, Shift, Spells, Lalr.Sym;
  }

  lemma Rule4()
    requires GRAMMAR.WellFormed()
    ensures GRAMMAR.IsRule(4) && GRAMMAR.Rhs(4) == [3]
  {}

  lemma TokenSpelled()
    ensures Spells(AUTOMATON, 0, [3], 1)
  {
    hide Shift, Spells;
    ShiftIs(0, 3, 1);
    SpellsNone(AUTOMATON, 0);
    assert [] + [3] == [3];
    SpellsOne(AUTOMATON, 0, [], 0, 3, 1);
  }

  // ----- the rows -----

  lemma RowIs(s: nat, y: nat, c: Code, n: nat)
    requires s < 5
    ensures Has(ROWS[s], y, c, n) <==>
            || (c == SHIFT && (s == 0 || s == 3) && y == 3 && n == 1)
            || (c == SHIFT && (s == 2 || s == 4) && y == 2 && n == 3)
            || (c == REDUCE && (y == 0 || y == 2) && ((s == 1 && n == 4) || (s == 4 && n == 3)))
  {
    var row := ROWS[s];
    if s == 4 {
      assert row[0].number == 3 && IsAction(row[1], 2, SHIFT, 3) && IsAction(row[2], 2, REDUCE, 3);
      assert IsAction(row[0], 0, REDUCE, 3);
    } else if s == 1 {
      assert IsAction(row[0], 0, REDUCE, 4) && IsAction(row[1], 2, REDUCE, 4);
    } else {
      assert |row| == 1 && IsAction(row[0], row[0].symbol, row[0].code, row[0].number);
    }
  }

  lemma RowIsRight(s: nat)
    requires LALR.Ok() && GRAMMAR.WellFormed() && s < 5
    ensures IsRowFor(LALR, s, ROWS[s])
  {
    RowsInOrder(s);
    hide Lalr.Ok, Grammar.WellFormed, Has, Reduces, ShiftsToken, InOrder;
    forall y: nat, t: nat ensures Has(ROWS[s], y, SHIFT, t) <==> ShiftsToken(LALR, s, y, t) { RowShifts(s, y, t); }
    forall y: nat, r: nat ensures Has(ROWS[s], y, REDUCE, r) <==> Reduces(LALR, s, r, y) { RowReduces(s, y, r); }
  }

  lemma RowShifts(s: nat, y: nat, t: nat)
    requires s < 5
    ensures Has(ROWS[s], y, SHIFT, t) <==> ShiftsToken(LALR, s, y, t)
  {
    hide Has, Shift;
    RowIs(s, y, SHIFT, t);
    ShiftIs(s, y, t);
  }

  lemma RowReduces(s: nat, y: nat, r: nat)
    requires LALR.Ok() && GRAMMAR.WellFormed() && s < 5
    ensures Has(ROWS[s], y, REDUCE, r) <==> Reduces(LALR, s, r, y)
  {
    hide Lalr.Ok, Grammar.WellFormed, Has, Reduces;
    RowIs(s, y, REDUCE, r);
    ReducesIs(s, r, y);
  }

  lemma RowsInOrder(s: nat)
    requires s < 5
    ensures InOrder(ROWS[s])
  {}

  /** The row before its conflicts were resolved. */
  function Was(s: nat): seq<Action>
    requires s < 5
  {
    if s == 4 then
      [Action(0, 3, 1, REDUCE, NONASSOC, 0), Action(2, 3, 1, SHIFT, NONASSOC, 0), Action(2, 3, 1, REDUCE, NONASSOC, 0)]
    else ROWS[s]
  }

  lemma WasHas(s: nat, y: nat, c: Code, n: nat)
    requires s < 5
    ensures Has(Was(s), y, c, n) <==> Has(ROWS[s], y, c, n)
    ensures InOrder(Was(s))
  {
    if s == 4 {
      var row, was := ROWS[s], Was(s);
      assert forall k :: 0 <= k < 3 ==> (IsAction(row[k], y, c, n) <==> IsAction(was[k], y, c, n));
    }
  }

  lemma WasRight(s: nat)
    requires LALR.Ok() && GRAMMAR.WellFormed() && s < 5
    ensures IsRowFor(LALR, s, Was(s))
  {
    RowIsRight(s);
    WasHas(s, 0, SHIFT, 0);
    hide Lalr.Ok, Grammar.WellFormed, Has, Reduces, Shift, InOrder, Was;
    forall y: nat, c: Code, n: nat ensures Has(Was(s), y, c, n) <==> Has(ROWS[s], y, c, n) { WasHas(s, y, c, n); }
  }

  lemma RowIsResolved(s: nat)
    requires s < 5
    ensures AllFresh(PRECEDENCE, Was(s)) && AtMostOne(ROWS[s])
    ensures Resolved(s == 2, Was(s), ROWS[s], |Was(s)|)
  {
    var was, row := Was(s), ROWS[s];
    if s == 4 {
      TieResolved();
    } else if s == 1 {
      assert FirstOf(was, 0) == 0 && FirstOf(was, 1) == 1;
      assert Judged(false, was, row, 0, 2) && Judged(false, was, row, 1, 2);
      assert Fresh(PRECEDENCE, was[0]) && Fresh(PRECEDENCE, was[1]);
    } else {
      assert |row| == 1 && FirstOf(was, 0) == 0;
      assert Judged(s == 2, was, row, 0, 1);
      assert Fresh(PRECEDENCE, was[0]);
    }
  }

  lemma TieResolved()
    ensures AllFresh(PRECEDENCE, Was(4)) && AtMostOne(ROWS[4]) && Resolved(false, Was(4), ROWS[4], 3)
  {
    var was, row := Was(4), ROWS[4];
    assert FirstOf(was, 0) == 0 && FirstOf(was, 1) == 1 && FirstOf(was, 2) == 1;
    assert Ties(was[1], was[2]) && !Beats(was[1], was[2]);
    assert TiedBetween(was, 1, 2, 3);
    assert Judged(false, was, row, 0, 3) && Judged(false, was, row, 1, 3) && Judged(false, was, row, 2, 3);
    assert Fresh(PRECEDENCE, was[0]) && Fresh(PRECEDENCE, was[1]) && Fresh(PRECEDENCE, was[2]);
  }

  lemma DefaultIsRight(s: nat)
    requires s < 5
    ensures IsDefault(ROWS[s], PARSER.defred[s])
  {
    var row := ROWS[s];
    if s == 4 || s == 1 {
      assert row[0].suppressed == 0 && row[0].symbol == 0;
    } else {
      assert |row| == 1 && row[0].suppressed == 0 && row[0].code == SHIFT;
    }
  }

  lemma ParserIsRight()
    requires LALR.Ok() && GRAMMAR.WellFormed()
    ensures IsParser(LALR, PRECEDENCE, PARSER)
  {
    ShiftIs(0, 5, 2);
    hide Lalr.Ok, Grammar.WellFormed, IsRowFor, AllFresh, Resolved, AtMostOne, IsDefault, Shift, Was;
    forall s | 0 <= s < 5
      ensures IsRowFor(LALR, s, ROWS[s]) && AtMostOne(ROWS[s]) && IsResolved(LALR, PRECEDENCE, s, s == 2, ROWS[s])
      ensures IsDefault(ROWS[s], PARSER.defred[s])
    {
      RowIsRight(s);
      WasRight(s);
      RowIsResolved(s);
      DefaultIsRight(s);
    }
  }

  // ----- the tables -----

  lemma LookupsAgree(s: nat, y: nat, z: int)
    requires s < 5
    ensures Lookup(TABLES.sindex[s], TABLES.table, TABLES.check, y) == Some(z) <==> ShiftEntry(ROWS[s], VALUES, y, z)
    ensures Lookup(TABLES.rindex[s], TABLES.table, TABLES.check, y) == Some(z) <==>
              ReduceEntry(ROWS[s], VALUES, PARSER.defred[s], y, z)
  {
    ShiftEntryIs(s, y, z);
    NoReduceEntry(s, y, z);
    hide ShiftEntry, ReduceEntry;
    LookupIs(s, y);
  }

  lemma LookupIs(s: nat, y: nat)
    requires s < 5
    ensures Lookup(TABLES.rindex[s], TABLES.table, TABLES.check, y) == None
    ensures Lookup(TABLES.sindex[s], TABLES.table, TABLES.check, y) ==
            if (s == 0 || s == 3) && y == 120 then Some(1) else if s == 2 && y == 60 then Some(3) else None
  {}

  lemma LiveIs(s: nat, y: nat, c: Code, n: nat)
    requires s < 5
    ensures Live(ROWS[s], y, c, n) <==>
            || (c == SHIFT && (s == 0 || s == 3) && y == 3 && n == 1) || (c == SHIFT && s == 2 && y == 2 && n == 3)
            || (c == REDUCE && (y == 0 || y == 2) && s == 1 && n == 4) || (c == REDUCE && y == 0 && s == 4 && n == 3)
  {
    var row := ROWS[s];
    if s == 4 {
      assert row[0].suppressed == 0 && IsAction(row[0], 0, REDUCE, 3);
    } else if s == 1 {
      assert row[0].suppressed == 0 && row[1].suppressed == 0;
      assert IsAction(row[0], 0, REDUCE, 4) && IsAction(row[1], 2, REDUCE, 4);
    } else {
      assert |row| == 1 && row[0].suppressed == 0 && IsAction(row[0], row[0].symbol, row[0].code, row[0].number);
    }
  }

  lemma ShiftEntryIs(s: nat, y: nat, z: int)
    requires s < 5
    ensures ShiftEntry(ROWS[s], VALUES, y, z) <==>
            ((s == 0 || s == 3) && y == 120 && z == 1) || (s == 2 && y == 60 && z == 3)
  {
    forall j: nat, n: nat ensures Live(ROWS[s], j, SHIFT, n) <==>
      ((s == 0 || s == 3) && j == 3 && n == 1) || (s == 2 && j == 2 && n == 3) {
      LiveIs(s, j, SHIFT, n);
    }
    var row, t, u := ROWS[s], if s == 2 then 2 else 3, if s == 2 then 3 else 1;
    assert VALUES[2] == 60 && VALUES[3] == 120;
    assert s == 0 || s == 2 || s == 3 ==> Live(row, t, SHIFT, u);
    hide Live;
  }

  lemma NoReduceEntry(s: nat, y: nat, z: int)
    requires s < 5
    ensures !ReduceEntry(ROWS[s], VALUES, PARSER.defred[s], y, z)
  {
    forall j: nat, n: nat ensures Live(ROWS[s], j, REDUCE, n) ==> n == PARSER.defred[s] { LiveIs(s, j, REDUCE, n); }
    hide Live;
  }

  lemma GotosAreRight()
    requires GRAMMAR.WellFormed()
    ensures GRAMMAR.NVars() == 2 && GotosAgree(LALR, TABLES)
  {
    hide Grammar.WellFormed;
    forall s: nat, v: nat, u: nat | 1 <= v < 2 && Transition(GRAMMAR, AUTOMATON, s, v, u)
      ensures TABLES.GotoOf(s, v - 1) == u
    {
      ShiftIs(s, 5, u);
    }
  }

  lemma RulesAreRight()
    requires GRAMMAR.WellFormed()
    ensures RuleData(GRAMMAR, TABLES)
  {
    forall r: nat | GRAMMAR.IsRule(r)
      ensures TABLES.lhs[r - 2] == VarValue(GRAMMAR, GRAMMAR.rlhs[r]) && TABLES.len[r - 2] == |GRAMMAR.Rhs(r)|
    {
      RuleEnds(r);
      hide Grammar.WellFormed, Grammar.RuleEnd;
    }
  }

  lemma TablesAreRight()
    requires LALR.Ok() && GRAMMAR.WellFormed()
    ensures Agree(LALR, PARSER, VALUES, TABLES)
  {
    hide Lalr.Ok, Lookup, ShiftEntry, ReduceEntry;
    forall s: nat, y: nat, z: int | s < 5
      ensures Lookup(TABLES.sindex[s], TABLES.table, TABLES.check, y) == Some(z) <==> ShiftEntry(ROWS[s], VALUES, y, z)
      ensures Lookup(TABLES.rindex[s], TABLES.table, TABLES.check, y) == Some(z) <==>
                ReduceEntry(ROWS[s], VALUES, PARSER.defred[s], y, z)
    {
      LookupsAgree(s, y, z);
    }
    GotosAreRight();
    RulesAreRight();
    hide Grammar.WellFormed, GotosAgree, RuleData;
  }

  lemma YaccIsOk()
    ensures YACC.Ok() && GRAMMAR.WellFormed()
  {
    GrammarIsWellFormed();
    LalrIsOk();
    ParserIsRight();
    TablesAreRight();
    ValuesAreRight();
    hide Lalr.Ok, Grammar.WellFormed, IsParser, Agree, AreTokenValues;
  }

  lemma ValuesAreRight()
    ensures AreTokenValues(GRAMMAR, VALUES)
  {}

  // ----- what is wrong with it -----

  const INPUT: seq<int> := [120, 60, 120, 60, 120]

  /** x, as an E. */
  ghost function X(rest: Forest): Forest { Var(4, Tok(3, Done), rest) }

  /** The configurations and the derivations that the parser goes through. */
  ghost function At(n: nat): Config
  {
    match n
    case 0 => Config([0], YYEMPTY, 0, Running)
    case 1 => Config([0, 1], YYEMPTY, 1, Running)
    case 2 => Config([0, 2], 60, 2, Running)
    case 3 => Config([0, 2, 3], YYEMPTY, 2, Running)
    case 4 => Config([0, 2, 3, 1], YYEMPTY, 3, Running)
    case 5 => Config([0, 2, 3, 4], YYEMPTY, 3, Running)
    case 6 => Config([0, 2], 60, 4, Running)
    case 7 => Config([0, 2, 3], YYEMPTY, 4, Running)
    case 8 => Config([0, 2, 3, 1], YYEMPTY, 5, Running)
    case 9 => Config([0, 2, 3, 4], YYEMPTY, 5, Running)
    case _ => Config([0, 2], 0, 6, Accepted)
  }

  lemma {:induction false} RunIs(n: nat)
    requires n <= 10
    ensures Run(TABLES, INPUT, Start(), n) == At(n)
  {
    if n > 0 {
      RunIs(n - 1);
      RunLast(TABLES, INPUT, Start(), n - 1);
      TurnIs(n - 1);
    }
    hide Step, At;
    assert At(0) == Start() by { StartIs(); }
  }

  lemma StartIs()
    ensures At(0) == Start() && Run(TABLES, INPUT, Start(), 0) == Start()
  {}

  lemma TurnIs(n: nat)
    requires n < 10
    ensures Step(TABLES, INPUT, At(n)) == At(n + 1)
  {
    if n in {0, 2, 3, 6, 7} {
      ShiftIsRight(n);
    } else {
      ReduceIsRight(n);
    }
  }

  lemma ShiftIsRight(n: nat)
    requires n in {0, 2, 3, 6, 7}
    ensures Step(TABLES, INPUT, At(n)) == At(n + 1)
  {
    assert [0] + [1] == [0, 1] && [0, 2] + [3] == [0, 2, 3] && [0, 2, 3] + [1] == [0, 2, 3, 1];
  }

  lemma ReduceIsRight(n: nat)
    requires n in {1, 4, 5, 8, 9}
    ensures Step(TABLES, INPUT, At(n)) == At(n + 1)
  {
    assert [0, 2, 3, 1][..3] == [0, 2, 3] && [0, 2, 3, 4][..1] == [0] && [0, 1][..1] == [0];
    assert [0] + [2] == [0, 2] && [0, 2, 3] + [4] == [0, 2, 3, 4];
  }

  /** x and x < x, as an E, and what comes behind. */
  ghost function XX(rest: Forest): Forest { Var(3, X(Tok(2, X(Done))), rest) }

  ghost function TreesAt(n: nat): Forest
  {
    match n
    case 0 => Done
    case 1 => Tok(3, Done)
    case 2 => X(Done)
    case 3 => X(Tok(2, Done))
    case 4 => X(Tok(2, Tok(3, Done)))
    case 5 => X(Tok(2, X(Done)))
    case 6 => XX(Done)
    case 7 => XX(Tok(2, Done))
    case 8 => XX(Tok(2, Tok(3, Done)))
    case 9 => XX(Tok(2, X(Done)))
    case _ => Var(3, XX(Tok(2, X(Done))), Done)
  }

  lemma JoinDoneIs(d: Forest)
    ensures Forest.Done.Join(d) == d
  {}

  lemma Joins(d: Forest)
    ensures X(Done).Join(d) == X(d) && X(Tok(2, Done)).Join(d) == X(Tok(2, d))
    ensures XX(Done).Join(d) == XX(d) && XX(Tok(2, Done)).Join(d) == XX(Tok(2, d))
  {
    JoinDoneIs(d);
    assert Tok(2, Done).Join(d) == Tok(2, Forest.Done.Join(d));
  }

  /** Putting the x on top under its variable ... */
  lemma FoldLast(d: Forest)
    requires d == X(Tok(2, Tok(3, Done))) || d == XX(Tok(2, Tok(3, Done)))
    ensures d.Length() == 3
    ensures d.Fold(2, 1, 4) == if d.rule == 4 then X(Tok(2, X(Done))) else XX(Tok(2, X(Done)))
  {
    var last: Forest, more := Tok(3, Done), Tok(2, Tok(3, Done));
    assert last.Length() == 1 && more.Length() == 2;
    assert last.Take(1) == Tok(3, Forest.Done.Take(0)) && last.Drop(1) == Forest.Done.Drop(0);
    assert more.Take(1) == Tok(2, last.Take(0)) && more.Drop(1) == last.Drop(0);
    assert d.Drop(2) == more.Drop(1) == last;
    var tok := Tok(2, Forest.Done);
    assert d.Take(2) == if d.rule == 4 then X(tok) else XX(tok);
    Joins(X(Done));
  }

  /** ... and then all there is. */
  lemma FoldAll(d: Forest, r: nat)
    ensures d.Fold(0, d.Length(), r) == Var(r, d, Done)
  {
    TakeAll(d);
    JoinDoneIs(Var(r, d, Done));
  }

  lemma LengthsAre(rest: Forest)
    ensures X(rest).Length() == 1 + rest.Length() && XX(rest).Length() == 1 + rest.Length()
    ensures Tok(2, rest).Length() == 1 + rest.Length() && Forest.Done.Length() == 0
  {}

  lemma BuildsIs(n: nat)
    requires n < 10
    ensures Next(TABLES, VALUES, INPUT, At(n), TreesAt(n)) == TreesAt(n + 1)
  {
    if n in {0, 2, 3, 6, 7} { PushIsRight(n); } else { FoldIsRight(n); }
  }

  lemma PushIsRight(n: nat)
    requires n in {0, 2, 3, 6, 7}
    ensures Next(TABLES, VALUES, INPUT, At(n), TreesAt(n)) == TreesAt(n + 1)
  {
    var t := if n in {0, 3, 7} then 3 else 2;
    ShiftIsRight(n);
    PushedToken(n, t);
    Joins(Tok(t, Done));
    JoinDoneIs(Tok(t, Done));
    NotChosen(n);
    hide Chosen, Step, Forest.Join, TokenOf, Lex, Read;
  }

  lemma NotChosen(n: nat)
    requires n in {0, 2, 3, 6, 7}
    ensures Chosen(TABLES, INPUT, At(n)) == 0
  {}

  lemma PushedToken(n: nat, t: nat)
    requires n in {0, 2, 3, 6, 7} && t == if n in {0, 3, 7} then 3 else 2
    ensures TokenOf(VALUES, Read(INPUT, At(n)).yychar) == t
  {
    hide Generated.Ok, Grammar.WellFormed, TokenOf;
    YaccIsOk();
    TokenIs(YACC, t);
  }

  lemma FoldIsRight(n: nat)
    requires n in {1, 4, 5, 8, 9}
    ensures Next(TABLES, VALUES, INPUT, At(n), TreesAt(n)) == TreesAt(n + 1)
  {
    var d := TreesAt(n);
    LengthsAre(Done);
    LengthsAre(X(Done));
    LengthsAre(Tok(2, X(Done)));
    if n == 4 || n == 8 { FoldLast(d); } else { FoldAll(d, if n == 1 then 4 else 3); }
    ChosenIs(n);
    hide Chosen, Step, Forest.Join, Forest.Fold, Forest.Length, TokenOf, Lex, Read;
  }

  lemma ChosenIs(n: nat)
    requires n in {1, 4, 5, 8, 9}
    ensures Chosen(TABLES, INPUT, At(n)) == if n in {5, 9} then 1 else 2
    ensures TABLES.len[1] == 3 && TABLES.len[2] == 1
  {}

  lemma {:induction false} BuiltIs(n: nat)
    requires n <= 10
    ensures Built(TABLES, VALUES, INPUT, Start(), Done, n) == TreesAt(n)
  {
    if n > 0 {
      BuiltIs(n - 1);
      RunIs(n - 1);
      BuiltLast(TABLES, VALUES, INPUT, Start(), Done, n - 1);
      BuildsIs(n - 1);
    }
    hide Next, Run, At;
  }

  /** '<' is in a tie with its rule, and yet x < x < x is accepted, grouped from the left. */
  lemma ChainIsAccepted()
    ensures YACC.Ok() && GRAMMAR.WellFormed() && IsBinary(GRAMMAR, 3, 5, 2) && Tied(PRECEDENCE, 2, 3)
    ensures Run(TABLES, INPUT, Start(), 10).outcome == Accepted
    ensures var x := X(Done); Built(TABLES, VALUES, INPUT, Start(), Done, 10) == Node(3, 2, Node(3, 2, x, x), x)
  {
    hide Generated.Ok, Grammar.WellFormed, Run, Built, Grammar.Rhs, Node, Forest.Join, At, TreesAt;
    YaccIsOk();
    Rule3();
    RunIs(10);
    BuiltIs(10);
    NodesAre();
  }

  lemma NodesAre()
    ensures var x := X(Done); TreesAt(10) == Node(3, 2, Node(3, 2, x, x), x) && At(10).outcome == Accepted
  {
    Joins(Tok(2, X(Done)));
  }
}
