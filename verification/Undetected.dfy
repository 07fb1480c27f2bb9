/** The grammar S : S | 'x'.  It is ambiguous, yet remove_conflicts suppresses nothing: the rule
    S : S is the only action on the end marker in the final state, and that the parser also
    accepts there is not among the actions.  The parser never stops on the input x x. */
module Undetected {
  import opened Automata
  import opened Cfgs
  import opened Completeness
  import opened Gotos
  import opened Grammars
  import opened Items
  import opened Lookaheads
  import opened Mkpar
  import opened Output
  import opened Packing
  import opened Paths
  import opened Reach
  import opened RuleTables
  import opened Skeleton
  import opened Soundness
  import opened Vectors

  /** Tokens $end, error and 'x'; variables $accept and S.  Rule 3 is S : S and rule 4 is S : 'x'. */
  const GRAMMAR := Grammar(3, 5, [-1, 4, 0, -2, 4, -3, 2, -4], [0, 0, 3, 4, 4], [0, 0, 1, 4, 6, 8])
  const AUTOMATON := Automaton([Core(0, [1]), Core(2, [7]), Core(4, [2, 5])], [[1, 2], [], []], [[], [4], [3]])
  const LALR := Lalr(GRAMMAR, AUTOMATON, GotoMap([0, 0, 1], [0], [2]))
  const NOPREC := Precedence([0, 0, 0, 0, 0], [TOKEN, TOKEN, TOKEN, TOKEN, TOKEN], [0, 0, 0, 0, 0],
                             [TOKEN, TOKEN, TOKEN, TOKEN, TOKEN])
  const ROWS :=
    [[Action(2, 1, 0, SHIFT, TOKEN, 0)], [Action(0, 4, 0, REDUCE, TOKEN, 0)], [Action(0, 3, 0, REDUCE, TOKEN, 0)]]
  const PARSER := Parser(ROWS, [0, 4, 3], 2, 0, 0)
  const VALUES: seq<nat> := [0, 256, 120]
  const TABLES := Tables([-1, 0, 0], [2, 1, 1], [0, 2, 1], [2], [-120, 0, 0], [0, 0, 0], [0], [1], [120], 2)
  const YACC := Generated(LALR, NOPREC, PARSER, VALUES, TABLES)

  lemma GrammarIsWellFormed()
    ensures GRAMMAR.WellFormed()
  {
    hide Grammar.RuleLaidOut, Grammar.UserRule;
    forall r | GRAMMAR.IsRule(r)
      ensures GRAMMAR.RuleLaidOut(r) && (r >= 3 ==> GRAMMAR.UserRule(r))
    {
      RuleIsLaidOut(r);
    }
  }

  lemma RuleIsLaidOut(r: int)
    requires GRAMMAR.IsRule(r)
    ensures GRAMMAR.RuleLaidOut(r) && (r >= 3 ==> GRAMMAR.UserRule(r))
  {
    assert r in {2, 3, 4};
  }

  // ----- the automaton -----

  /** The closures of the three kernels. */
  ghost function ClosureOf(s: nat): set<nat>
  {
    if s == 0 then {1, 4, 6} else if s == 1 then {7} else {2, 5}
  }

  lemma Closures(s: nat, i: nat)
    requires s < 3
    ensures GRAMMAR.WellFormed() && (InClosure(GRAMMAR, AUTOMATON.cores[s].items, i) <==> i in ClosureOf(s))
  {
    GrammarIsWellFormed();
    var kernel := AUTOMATON.cores[s].items;
    if InClosure(GRAMMAR, kernel, i) {
      hide Grammar.WellFormed, InClosure;
      assert Closed(GRAMMAR, ClosureOf(s));
      ClosureWithin(GRAMMAR, kernel, ClosureOf(s), i);
    }
    if s == 0 && i in {4, 6} {
      ReachesRefl(LeftCorner(GRAMMAR), 4);
      assert Predicts(GRAMMAR, 1, 3) && Predicts(GRAMMAR, 1, 4);
    }
  }

  /** Where the items of a closure go over symbol x. */
  lemma GotoIs(s: nat, x: nat, next: seq<nat>)
    requires s < 3 && GRAMMAR.WellFormed() && Ascending(next)
    requires forall i: nat :: i in next <==> i >= 2 && i <= 8 && i - 1 in ClosureOf(s) && GRAMMAR.ritem[i - 1] == x
    ensures IsGoto(GRAMMAR, AUTOMATON.cores[s].items, x, next)
  {
    forall i: nat ensures i in next <==> MovesTo(GRAMMAR, AUTOMATON.cores[s].items, x, i) {
      if i >= 1 { Closures(s, i - 1); }
    }
  }

  lemma NoShifts(s: nat)
    requires (s == 1 || s == 2) && GRAMMAR.WellFormed()
    ensures ShiftsOf(GRAMMAR, AUTOMATON.cores, AUTOMATON.cores[s].items, [])
  {
    forall i: nat | InClosure(GRAMMAR, AUTOMATON.cores[s].items, i) && GRAMMAR.IsItem(i)
      ensures GRAMMAR.ritem[i] <= 0
    {
      Closures(s, i);
    }
    hide InClosure, Grammar.WellFormed, Ascending;
  }

  lemma StartShifts()
    requires GRAMMAR.WellFormed()
    ensures ShiftsOf(GRAMMAR, AUTOMATON.cores, [1], [1, 2])
  {
    GotoIs(0, 2, [7]);
    GotoIs(0, 4, [2, 5]);
    var cores, shifts := AUTOMATON.cores, [1, 2];
    assert shifts[0] == 1 && shifts[1] == 2 && cores[1].access == 2 && cores[2].access == 4;
    assert cores[1].items == [7] && cores[2].items == [2, 5];
    forall i: nat | InClosure(GRAMMAR, [1], i) && GRAMMAR.IsItem(i) && GRAMMAR.ritem[i] > 0
      ensures ShiftsOver(cores, shifts, GRAMMAR.ritem[i])
    {
      Closures(0, i);
      hide InClosure, Grammar.WellFormed, IsGoto;
      assert GRAMMAR.ritem[i] == cores[shifts[0]].access || GRAMMAR.ritem[i] == cores[shifts[1]].access;
    }
    hide InClosure, Grammar.WellFormed, IsGoto, ShiftsOver, Ascending;
    assert AccessedBefore(cores, shifts[0], shifts[1]);
  }

  lemma RedsAreRight(s: nat)
    requires s < 3 && GRAMMAR.WellFormed()
    ensures RedsOf(GRAMMAR, AUTOMATON.cores[s].items, AUTOMATON.reds[s])
  {
    forall r: nat | GRAMMAR.IsRule(r)
      ensures r in AUTOMATON.reds[s] <==> InClosure(GRAMMAR, AUTOMATON.cores[s].items, GRAMMAR.RuleEnd(r))
    {
      RuleEnds(r);
      RedsAre(s, r);
      Closures(s, GRAMMAR.RuleEnd(r));
      hide InClosure, Grammar.WellFormed, Grammar.RuleEnd;
      assert 2 * r - 1 in ClosureOf(s) <==> (s == 1 && r == 4) || (s == 2 && r == 3);
    }
    RedsInOrder(s);
    forall r: nat | r in AUTOMATON.reds[s] ensures GRAMMAR.IsRule(r) { RedsAre(s, r); }
    hide InClosure, Grammar.WellFormed, Grammar.RuleEnd, Ascending;
  }

  lemma RedsInOrder(s: nat)
    requires s < 3
    ensures Ascending(AUTOMATON.reds[s])
  {}

  lemma RuleEnds(r: nat)
    requires GRAMMAR.WellFormed() && GRAMMAR.IsRule(r)
    ensures r in {2, 3, 4} && GRAMMAR.RuleEnd(r) == 2 * r - 1
  {}

  lemma KernelsAreRight()
    ensures AreCores(GRAMMAR, AUTOMATON.cores) && DistinctKernels(AUTOMATON.cores)
    ensures forall s :: 1 <= s < 3 ==> ReachedFromEarlier(AUTOMATON.shifts, s)
  {
    assert AUTOMATON.cores[1].items[0] == 7 && AUTOMATON.cores[2].items[0] == 2 && AUTOMATON.cores[0].items[0] == 1;
    assert AUTOMATON.shifts[0][0] == 1 && AUTOMATON.shifts[0][1] == 2;
    assert ReachedFromEarlier(AUTOMATON.shifts, 1) && ReachedFromEarlier(AUTOMATON.shifts, 2);
  }

  lemma AutomatonIsLR0()
    ensures GRAMMAR.WellFormed() && IsLR0(GRAMMAR, AUTOMATON)
  {
    GrammarIsWellFormed();
    KernelsAreRight();
    hide ShiftsOf, RedsOf, Grammar.WellFormed, AreCores, DistinctKernels, ReachedFromEarlier;
    forall s | 0 <= s < 3
      ensures ShiftsOf(GRAMMAR, AUTOMATON.cores, AUTOMATON.cores[s].items, AUTOMATON.shifts[s])
      ensures RedsOf(GRAMMAR, AUTOMATON.cores[s].items, AUTOMATON.reds[s])
    {
      if s == 0 { StartShifts(); } else { NoShifts(s); }
      RedsAreRight(s);
    }
  }

  lemma LalrIsOk()
    ensures LALR.Ok()
  {
    AutomatonIsLR0();
    hide IsLR0;
    var m := LALR.m;
    assert AUTOMATON.shifts[0][1] == 2 && Transition(GRAMMAR, AUTOMATON, 0, 1, 2);
    forall v | 0 <= v < 2 ensures WholeGroup(GRAMMAR, AUTOMATON, m, v) {
      if v == 1 { assert m.from[0] == 0; }
    }
  }

  // ----- the lookaheads -----

  lemma ShiftIs(s: nat, x: int, t: nat)
    ensures Shift(AUTOMATON, s, x, t) <==> s == 0 && ((x == 2 && t == 1) || (x == 4 && t == 2))
  {
    assert AUTOMATON.shifts[0][0] == 1 && AUTOMATON.shifts[0][1] == 2;
  }

  /** Only the end marker can follow the one goto. */
  lemma FollowIs(t: nat)
    requires LALR.Ok() && GRAMMAR.WellFormed()
    ensures LALR.Follow(0, t) <==> t == 0
  {
    hide Lalr.Ok, Grammar.WellFormed, Reaches;
    if LALR.Follow(0, t) {
      var j: nat :| LALR.IsGoto(j) && Reaches(LALR.Includes(), 0, j) && LALR.Read(j, t);
      var k: nat :| LALR.IsGoto(k) && Reaches(LALR.Reads(), j, k) && LALR.DirectRead(k, t);
      forall u ensures !Shift(AUTOMATON, 2, t, u) { ShiftIs(2, t, u); }
    }
    EndFollowsGoal(LALR);
  }

  lemma ReducesIs(s: nat, r: nat, x: nat)
    requires LALR.Ok() && GRAMMAR.WellFormed()
    ensures Reduces(LALR, s, r, x) <==> x == 0 && ((s == 1 && r == 4) || (s == 2 && r == 3))
  {
    RedsAre(s, r);
    if (s == 1 && r == 4) || (s == 2 && r == 3) { LooksBackToStart(s, r); }
    FollowIs(x);
    hide Lalr.Ok, Grammar.WellFormed, Lalr.Follow, Lalr.LooksBack;
    if r in {3, 4} && LALR.InLA(s, r, x) { OnlyGoto(s, r, x); }
  }

  lemma RedsAre(s: nat, r: nat)
    ensures s < |AUTOMATON.reds| && r in AUTOMATON.reds[s] <==> (s == 1 && r == 4) || (s == 2 && r == 3)
  {}

  lemma OnlyGoto(s: nat, r: nat, x: nat)
    requires GRAMMAR.WellFormed() && GRAMMAR.IsRule(r) && LALR.InLA(s, r, x)
    ensures LALR.Follow(0, x)
  {
    hide Grammar.WellFormed, Lalr.Follow;
    var i: nat :| LALR.LooksBack(s, r, i) && LALR.Follow(i, x);
  }

  lemma LooksBackToStart(s: nat, r: nat)
    requires GRAMMAR.WellFormed() && ((s == 1 && r == 4) || (s == 2 && r == 3))
    ensures LALR.LooksBack(s, r, 0)
  {
    var rhs := GRAMMAR.Rhs(r);
    hide Grammar.WellFormed, Grammar.Rhs, Shift;
    assert rhs == [if r == 4 then 2 else 4];
    ShiftIs(0, rhs[0], s);
    SpellsNone(AUTOMATON, 0);
    SpellsOne(AUTOMATON, 0, [], 0, rhs[0], s);
    assert [] + [rhs[0]] == rhs;
  }

  // ----- the parser -----

  /** The one action of each row. */
  lemma RowIs(s: nat, x: nat, c: Code, n: nat)
    requires s < 3
    ensures Has(ROWS[s], x, c, n) <==>
              (s == 0 && x == 2 && c == SHIFT && n == 1) || (s == 1 && x == 0 && c == REDUCE && n == 4)
              || (s == 2 && x == 0 && c == REDUCE && n == 3)
  {
    var row := ROWS[s];
    assert |row| == 1 && IsAction(row[0], row[0].symbol, row[0].code, row[0].number);
  }

  lemma RowIsRight(s: nat)
    requires LALR.Ok() && GRAMMAR.WellFormed() && s < 3
    ensures IsRowFor(LALR, s, ROWS[s])
  {
    hide Lalr.Ok, Grammar.WellFormed, Has, Reduces, Shift;
    forall x: nat, t: nat ensures Has(ROWS[s], x, SHIFT, t) <==> ShiftsToken(LALR, s, x, t) {
      RowIs(s, x, SHIFT, t);
      ShiftIs(s, x, t);
    }
    forall x: nat, r: nat ensures Has(ROWS[s], x, REDUCE, r) <==> Reduces(LALR, s, r, x) {
      RowIs(s, x, REDUCE, r);
      ReducesIs(s, r, x);
    }
  }

  lemma RowIsResolved(s: nat)
    requires LALR.Ok() && GRAMMAR.WellFormed() && s < 3
    ensures IsResolved(LALR, NOPREC, s, s == 2, ROWS[s]) && AtMostOne(ROWS[s])
  {
    RowIsRight(s);
    NothingToResolve(s);
    hide Lalr.Ok, Grammar.WellFormed, IsRowFor, AllFresh, Resolved, AtMostOne;
  }

  lemma NothingToResolve(s: nat)
    requires s < 3
    ensures AllFresh(NOPREC, ROWS[s]) && Resolved(s == 2, ROWS[s], ROWS[s], |ROWS[s]|) && AtMostOne(ROWS[s])
  {
    var row := ROWS[s];
    assert |row| == 1 && FirstOf(row, 0) == 0;
    assert Judged(s == 2, row, row, 0, 1);
    assert Fresh(NOPREC, row[0]);
  }

  lemma DefaultIsRight(s: nat)
    requires s < 3
    ensures IsDefault(ROWS[s], PARSER.defred[s])
  {
    var row := ROWS[s];
    assert |row| == 1 && row[0].suppressed == 0;
    if s == 0 { assert row[0].code == SHIFT; }
  }

  lemma ParserIsRight()
    requires LALR.Ok() && GRAMMAR.WellFormed()
    ensures IsParser(LALR, NOPREC, PARSER)
  {
    ShiftIs(0, 4, 2);
    hide Lalr.Ok, Grammar.WellFormed, IsRowFor, IsResolved, AtMostOne, IsDefault, Shift;
    forall s | 0 <= s < 3
      ensures IsRowFor(LALR, s, ROWS[s]) && AtMostOne(ROWS[s]) && IsResolved(LALR, NOPREC, s, s == 2, ROWS[s])
      ensures IsDefault(ROWS[s], PARSER.defred[s])
    {
      RowIsRight(s);
      RowIsResolved(s);
      DefaultIsRight(s);
    }
  }

  lemma LookupsAgree(s: nat, x: nat, y: int)
    requires s < 3
    ensures Lookup(TABLES.sindex[s], TABLES.table, TABLES.check, x) == Some(y) <==> ShiftEntry(ROWS[s], VALUES, x, y)
    ensures Lookup(TABLES.rindex[s], TABLES.table, TABLES.check, x) == Some(y) <==>
              ReduceEntry(ROWS[s], VALUES, PARSER.defred[s], x, y)
  {
    var row := ROWS[s];
    assert |row| == 1;
    if s == 0 && x == 120 && y == 1 {
      assert row[0].suppressed == 0 && IsAction(row[0], 2, SHIFT, 1);
      assert Live(row, 2, SHIFT, 1);
    }
  }

  lemma TablesAreRight()
    requires LALR.Ok() && GRAMMAR.WellFormed()
    ensures Agree(LALR, PARSER, VALUES, TABLES)
  {
    hide Lalr.Ok, Lookup, ShiftEntry, ReduceEntry;
    forall s: nat, x: nat, y: int | s < 3
      ensures Lookup(TABLES.sindex[s], TABLES.table, TABLES.check, x) == Some(y) <==> ShiftEntry(ROWS[s], VALUES, x, y)
      ensures Lookup(TABLES.rindex[s], TABLES.table, TABLES.check, x) == Some(y) <==>
                ReduceEntry(ROWS[s], VALUES, PARSER.defred[s], x, y)
    {
      LookupsAgree(s, x, y);
    }
    GotosAreRight();
    RulesAreRight();
    hide Grammar.WellFormed, GotosAgree, RuleData;
  }

  lemma GotosAreRight()
    requires GRAMMAR.WellFormed()
    ensures GRAMMAR.NVars() == 2 && GotosAgree(LALR, TABLES)
  {
    hide Grammar.WellFormed;
    forall s: nat, v: nat, u: nat | 1 <= v < 2 && Transition(GRAMMAR, AUTOMATON, s, v, u)
      ensures TABLES.GotoOf(s, v - 1) == u
    {
      ShiftIs(s, 4, u);
    }
  }

  lemma RulesAreRight()
    requires GRAMMAR.WellFormed()
    ensures RuleData(GRAMMAR, TABLES)
  {
    forall r: nat | GRAMMAR.IsRule(r)
      ensures TABLES.lhs[r - 2] == VarValue(GRAMMAR, GRAMMAR.rlhs[r]) && TABLES.len[r - 2] == |GRAMMAR.Rhs(r)|
    {
      RuleEnds(r);
      hide Grammar.WellFormed, Grammar.RuleEnd;
    }
  }

  lemma YaccIsOk()
    ensures YACC.Ok() && GRAMMAR.WellFormed()
  {
    GrammarIsWellFormed();
    LalrIsOk();
    ParserIsRight();
    TablesAreRight();
    ValuesAreRight();
    hide Lalr.Ok, Grammar.WellFormed, IsParser, Agree, AreTokenValues;
  }

  lemma ValuesAreRight()
    ensures AreTokenValues(GRAMMAR, VALUES)
  {}

  // ----- what is wrong with it -----

  /** Nothing is suppressed, although the grammar is ambiguous and so not LALR(1). */
  lemma ConflictGoesUndetected()
    ensures YACC.Ok() && GRAMMAR.WellFormed() && Unsuppressed(PARSER) && !IsLalr1(LALR)
  {
    YaccIsOk();
    YaccParts();
    NothingSuppressedHere();
    hide Generated.Ok, Lalr.Ok, Grammar.WellFormed, IsParser, Reduces, IsLalr1, Unsuppressed;
    ReducesIs(2, 3, 0);
    UnsuppressedIsLalr1(LALR, NOPREC, PARSER);
  }

  lemma NothingSuppressedHere()
    ensures Unsuppressed(PARSER)
  {}

  lemma YaccParts()
    requires YACC.Ok()
    ensures LALR.Ok() && GRAMMAR.WellFormed() && IsParser(LALR, NOPREC, PARSER)
  {}

  /** The token x has two derivations. */
  lemma TwoDerivations()
    ensures GRAMMAR.WellFormed()
    ensures IsDerivation(GRAMMAR, Var(4, Tok(2, Done), Done), [2])
    ensures IsDerivation(GRAMMAR, Var(3, Var(4, Tok(2, Done), Done), Done), [2])
  {
    GrammarIsWellFormed();
    GRAMMAR.UnpackedRule(3);
    GRAMMAR.UnpackedRule(4);
    var c := GRAMMAR.Unpacked();
    hide Grammar.WellFormed, Grammar.Unpacked;
    var none: Forest := Done;
    assert none.Form(c) == [] && none.Yield() == [];
    var tok := Tok(2, none);
    assert tok.Form(c) == [2] + none.Form(c) && tok.Yield() == [2] + none.Yield();
    var d := Var(4, tok, none);
    assert d.Form(c) == [4] + none.Form(c) && d.Yield() == tok.Yield() + none.Yield();
    var e := Var(3, d, none);
    assert e.Form(c) == [4] + none.Form(c) && e.Yield() == d.Yield() + none.Yield();
  }

  /** After the first x the parser reduces by S : S for ever when another x comes next. */
  lemma {:induction false} NeverStops(n: nat)
    ensures Run(TABLES, [120, 120], Start(), n).outcome == Running
    ensures n == 1 ==> Run(TABLES, [120, 120], Start(), n) == Config([0, 1], YYEMPTY, 1, Running)
    ensures n >= 2 ==> Run(TABLES, [120, 120], Start(), n) == Config([0, 2], 120, 2, Running)
  {
    if n > 0 {
      NeverStops(n - 1);
      RunLast(TABLES, [120, 120], Start(), n - 1);
      Turns();
      hide Step;
    }
  }

  lemma Turns()
    ensures Run(TABLES, [120, 120], Start(), 0) == Start()
    ensures Step(TABLES, [120, 120], Start()) == Config([0, 1], YYEMPTY, 1, Running)
    ensures Step(TABLES, [120, 120], Config([0, 1], YYEMPTY, 1, Running)) == Config([0, 2], 120, 2, Running)
    ensures Step(TABLES, [120, 120], Config([0, 2], 120, 2, Running)) == Config([0, 2], 120, 2, Running)
  {
    assert [0, 1][..1] == [0] && [0, 2][..1] == [0] && [0] + [1] == [0, 1] && [0] + [2] == [0, 2];
  }
}
