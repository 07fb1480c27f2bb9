/** Every run of the generated parser keeps its stack a path of the LR(0) automaton and a
    derivation of the tokens shifted so far; so what it accepts is in the language. */
module Soundness {
  import opened Automata
  import opened Cfgs
  import opened Gotos
  import opened Grammars
  import opened Items
  import opened Lookaheads
  import opened Mkpar
  import opened Output
  import opened Packing
  import opened Paths
  import opened Skeleton
  import opened Vectors

  /** A parser for a grammar: the automaton, its rows, the token numbers and the tables made
      from them. */
  datatype Generated = Generated(l: Lalr, pr: Precedence, p: Parser, value: seq<nat>, t: Tables)
  {
    ghost predicate Ok()
    {
      l.Ok() && IsParser(l, pr, p) && AreTokenValues(l.g, value) && Agree(l, p, value, t)
    }

    ghost function Cfg(): Cfg
      requires l.g.WellFormed()
    {
      l.g.Unpacked()
    }
  }

  /** The stack's states are joined by transitions over the symbols. */
  ghost predicate IsPath(a: Automaton, stack: seq<nat>, symbols: seq<nat>)
  {
    && |stack| == |symbols| + 1 && stack[0] == 0
    && forall i :: 0 <= i < |symbols| ==> Shift(a, stack[i], symbols[i], stack[i + 1])
  }

  /** The first |w| inputs are the tokens w. */
  ghost predicate Consumed(value: seq<nat>, input: seq<int>, w: seq<nat>)
  {
    && |w| <= |input|
    && forall i :: 0 <= i < |w| ==> w[i] < |value| && input[i] == value[w[i]] > 0
  }

  /** The token read ahead, if any, is the one after the first n. */
  predicate Ahead(input: seq<int>, c: Config, n: nat)
  {
    if c.yychar < 0 then c.next == n else c.next == n + 1 && c.yychar == Lex(input, n)
  }

  /** d derives the tokens consumed so far from the symbols along the stack. */
  ghost predicate Inv(x: Generated, input: seq<int>, c: Config, d: Forest)
    requires x.l.g.WellFormed()
  {
    && d.Valid(x.Cfg()) && IsPath(x.l.a, c.stack, d.Form(x.Cfg()))
    && Consumed(x.value, input, d.Yield()) && Ahead(input, c, |d.Yield()|)
  }

  // ----- what the tables answer -----

  lemma Sizes(x: Generated)
    requires x.Ok()
    ensures var n := |x.l.a.cores|;
            && |x.t.sindex| == |x.t.rindex| == |x.t.defred| == |x.p.rows| == |x.p.defred| == n == |x.l.a.shifts| ==
               |x.l.a.reds| > 0
    ensures |x.t.table| == |x.t.check| && |x.t.gindex| == |x.t.dgoto| == x.l.g.NVars() - 1
    ensures |x.t.lhs| == |x.t.len| == x.l.g.NRules() - 2 && x.l.g.ntokens + 1 < x.l.g.nsyms && x.l.g.NRules() >= 3
    ensures |x.value| == x.l.g.ntokens && x.value[0] == 0
  {
    StatesExist(x.l.g, x.l.a);
    hide Grammar.WellFormed, IsParser, RowsAgree, GotosAgree, IsGotoMap, IsLR0;
    x.l.NVarsFits();
    x.l.g.RuleStart(2);
    assert |x.p.rows| == |x.l.a.cores|;
    assert x.l.g.NRules() >= 3 by { RulesExist(x.l.g); }
  }

  lemma RulesExist(g: Grammar)
    requires g.WellFormed()
    ensures g.NRules() >= 3 && g.ntokens >= 2
  {}

  /** What most proofs need of a generated parser. */
  lemma Parts(x: Generated)
    requires x.Ok()
    ensures x.l.Ok() && x.l.g.WellFormed() && IsLR0(x.l.g, x.l.a)
  {}

  lemma TablesSay(x: Generated)
    requires x.Ok()
    ensures |x.t.sindex| == |x.t.rindex| == |x.p.rows| == |x.p.defred| == |x.l.a.cores| && |x.t.table| == |x.t.check|
    ensures x.l.g.WellFormed() && |x.t.gindex| == |x.t.dgoto| == x.l.g.NVars() - 1
    ensures RowsAgree(x.p, x.value, x.t, |x.l.a.cores|) && GotosAgree(x.l, x.t) && RuleData(x.l.g, x.t)
  {
    hide Grammar.WellFormed, IsLR0, IsGotoMap, IsParser, RowsAgree, GotosAgree, RuleData, AreTokenValues;
  }

  lemma RowFacts(x: Generated, s: nat)
    requires x.Ok() && s < |x.l.a.cores|
    ensures |x.p.rows| == |x.l.a.cores| && |x.p.defred| == |x.l.a.cores|
    ensures IsRowFor(x.l, s, x.p.rows[s]) && AtMostOne(x.p.rows[s]) && IsDefault(x.p.rows[s], x.p.defred[s])
  {
    hide Lalr.Ok, Agree, AreTokenValues, IsRowFor, AtMostOne, IsDefault, IsResolved;
  }

  lemma LiveHas(row: seq<Action>, x: nat, c: Code, n: nat)
    requires Live(row, x, c, n)
    ensures Has(row, x, c, n)
  {
    var k :| 0 <= k < |row| && row[k].suppressed == 0 && IsAction(row[k], x, c, n);
  }

  lemma LiveShift(x: Generated, s: nat, j: nat, u: nat)
    requires x.Ok() && s < |x.l.a.cores| && s < |x.p.rows| && Live(x.p.rows[s], j, SHIFT, u)
    ensures Shift(x.l.a, s, j, u) && 0 < j < x.l.g.ntokens
  {
    RowFacts(x, s);
    LiveHas(x.p.rows[s], j, SHIFT, u);
    hide Grammar.WellFormed, IsLR0, IsGotoMap, IsParser, Agree, Has;
    assert ShiftsToken(x.l, s, j, u);
    ShiftKernel(x.l.g, x.l.a, s, j, u);
  }

  lemma LiveReduce(x: Generated, s: nat, j: nat, r: nat)
    requires x.Ok() && s < |x.l.a.cores| && s < |x.p.rows| && Live(x.p.rows[s], j, REDUCE, r)
    ensures x.l.g.IsRule(r) && r >= 3 && s < |x.l.a.reds| && r in x.l.a.reds[s]
  {
    RowFacts(x, s);
    LiveHas(x.p.rows[s], j, REDUCE, r);
    hide Grammar.WellFormed, IsLR0, IsGotoMap, IsParser, Agree, Has;
    assert Reduces(x.l, s, r, j);
    var i: nat :| x.l.LooksBack(s, r, i) && x.l.Follow(i, j);
    x.l.GotoFacts(i);
    x.l.g.RuleFacts(r);
  }

  /** A hit in the shift row is a transition over the token read. */
  lemma ShiftFound(x: Generated, s: nat, yychar: nat, u: int) returns (j: nat)
    requires x.Ok() && s < |x.l.a.cores| && |x.t.table| == |x.t.check| && s < |x.t.sindex|
    requires Lookup(x.t.sindex[s], x.t.table, x.t.check, yychar) == Some(u)
    ensures u >= 0 && 0 < j < x.l.g.ntokens == |x.value| && x.value[j] == yychar && Shift(x.l.a, s, j, u)
  {
    hide Generated.Ok, Grammar.WellFormed, Lookup;
    Sizes(x);
    TablesSay(x);
    assert ShiftEntry(x.p.rows[s], x.value, yychar, u);
    var n: nat;
    j, n :| j < |x.value| && x.value[j] == yychar && n == u && Live(x.p.rows[s], j, SHIFT, n);
    LiveShift(x, s, j, n);
  }

  /** A hit in the reduction row is a reduction of the state. */
  lemma ReduceFound(x: Generated, s: nat, yychar: nat, y: int)
    requires x.Ok() && s < |x.l.a.cores| && |x.t.table| == |x.t.check| && s < |x.t.rindex|
    requires Lookup(x.t.rindex[s], x.t.table, x.t.check, yychar) == Some(y)
    ensures y >= 1 && x.l.g.IsRule(y + 2) && s < |x.l.a.reds| && y + 2 in x.l.a.reds[s]
  {
    hide Generated.Ok, Grammar.WellFormed, Lookup;
    TablesSay(x);
    assert ReduceEntry(x.p.rows[s], x.value, x.p.defred[s], yychar, y);
    var j: nat, n: nat :| j < |x.value| && x.value[j] == yychar && n == y + 2 && n != x.p.defred[s] &&
      Live(x.p.rows[s], j, REDUCE, n);
    LiveReduce(x, s, j, n);
  }

  /** So is a default reduction. */
  lemma DefaultFound(x: Generated, s: nat)
    requires x.Ok() && s < |x.l.a.cores| && s < |x.t.defred| && x.t.defred[s] != 0
    ensures var y := x.t.defred[s]; y >= 1 && x.l.g.IsRule(y + 2) && s < |x.l.a.reds| && y + 2 in x.l.a.reds[s]
  {
    Sizes(x);
    RowFacts(x, s);
    var r := x.p.defred[s];
    assert x.t.defred[s] == OutputRule(r) by { hide Lalr.Ok, IsParser, RowsAgree, GotosAgree; }
    hide Generated.Ok;
    assert IsSole(x.p.rows[s], r);
    var k :| 0 <= k < |x.p.rows[s]| && x.p.rows[s][k].suppressed == 0 && x.p.rows[s][k].symbol != 1;
    assert IsAction(x.p.rows[s][k], x.p.rows[s][k].symbol, REDUCE, r);
    assert Live(x.p.rows[s], x.p.rows[s][k].symbol, REDUCE, r);
    LiveReduce(x, s, x.p.rows[s][k].symbol, r);
  }

  /** The length and left side that the tables give for rule y + 2. */
  lemma RuleFound(x: Generated, y: nat)
    requires x.Ok() && x.l.g.IsRule(y + 2) && y >= 1
    ensures y < |x.t.lhs| == |x.t.len|
    ensures x.t.len[y] == |x.l.g.Rhs(y + 2)| && x.t.lhs[y] == x.l.g.rlhs[y + 2] - x.l.g.ntokens - 1 >= 0
    ensures x.t.lhs[y] < |x.t.gindex| == |x.t.dgoto|
  {
    hide Generated.Ok, Grammar.WellFormed, Grammar.Rhs, RowsAgree, GotosAgree;
    Sizes(x);
    TablesSay(x);
    x.l.g.RuleFacts(y + 2);
    x.l.NVarsFits();
    var r: nat := y + 2;
    assert x.t.lhs[r - 2] == VarValue(x.l.g, x.l.g.rlhs[r]);
  }

  lemma GotoFound(x: Generated, s: nat, v: nat, u: nat)
    requires x.Ok() && Shift(x.l.a, s, v, u) && x.l.g.ntokens < v < x.l.g.nsyms
    ensures v - x.l.g.ntokens - 1 < |x.t.gindex| == |x.t.dgoto| && |x.t.table| == |x.t.check|
    ensures x.t.GotoOf(s, v - x.l.g.ntokens - 1) == u
    ensures s == 0 && v == x.l.g.Goal() ==> x.t.final == u
  {
    Sizes(x);
    var w := v - x.l.g.ntokens;
    assert Transition(x.l.g, x.l.a, s, w, u);
    assert x.t.final == x.p.final && Shift(x.l.a, 0, x.l.g.Goal(), x.p.final) by {
      hide IsRowFor, AtMostOne, IsDefault, IsResolved, Lalr.Ok, RowsAgree, GotosAgree, Shift;
    }
    hide IsParser, RowsAgree, RuleData, AreTokenValues, Transition, Shift, Grammar.WellFormed, IsLR0, IsGotoMap;
    if s == 0 && v == x.l.g.Goal() { ShiftUnique(x.l.g, x.l.a, 0, v, u, x.p.final); }
  }

  // ----- reductions -----

  lemma PathState(g: Grammar, a: Automaton, stack: seq<nat>, symbols: seq<nat>, i: nat)
    requires g.WellFormed() && IsLR0(g, a) && IsPath(a, stack, symbols) && i < |stack|
    ensures stack[i] < |a.cores| && (i > 0 ==> stack[i] >= 1)
  {
    hide Grammar.WellFormed, IsLR0, Shift;
    if i > 0 {
      ShiftKernel(g, a, stack[i - 1], symbols[i - 1], stack[i]);
    } else {
      assert |a.cores| > 0 by { StatesExist(g, a); }
    }
  }

  lemma StatesExist(g: Grammar, a: Automaton)
    requires g.WellFormed() && IsLR0(g, a)
    ensures |a.cores| > 0 && |a.shifts| == |a.cores| == |a.reds| && a.cores[0] == Core(0, [1]) && g.IsItem(1)
  {
    hide ShiftsOf, RedsOf;
  }

  /** An item of the top state with the dot past the start of its user rule was in the kernel,
      and came from the item before it in the state below, over the symbol between them. */
  lemma StepBack(g: Grammar, a: Automaton, stack: seq<nat>, symbols: seq<nat>, r: nat, k: nat)
    requires g.WellFormed() && IsLR0(g, a) && IsPath(a, stack, symbols)
    requires g.IsRule(r) && r >= 3 && 0 < k <= |g.Rhs(r)| && InState(g, a, stack[|symbols|], g.rrhs[r] + k)
    ensures symbols != [] && symbols[|symbols| - 1] == g.Rhs(r)[k - 1]
    ensures InState(g, a, stack[|symbols| - 1], g.rrhs[r] + k - 1)
  {
    hide Grammar.WellFormed, IsLR0, Shift, Grammar.Rhs, Grammar.RuleEnd;
    g.RuleFacts(r);
    var i, n := g.rrhs[r] + k, |symbols|;
    var s := stack[n];
    RuleSymbol(g, r, k - 1);
    g.RuleOfUnique(i, r);
    InStateItem(g, a, s, i);
    if i !in a.cores[s].items { ClosureItem(g, a.cores[s].items, i); }
    assert i in a.cores[s].items;
    KernelItem(g, a, s, i);
    ShiftCameFrom(g, a, stack[n - 1], symbols[n - 1], s, i);
  }

  /** When the top state has rule r with k symbols before the dot, they are the last k on the
      stack, and the state below them has the rule at its start. */
  lemma {:induction false} WalkBack(g: Grammar, a: Automaton, stack: seq<nat>, symbols: seq<nat>, r: nat, k: nat)
    requires g.WellFormed() && IsLR0(g, a) && IsPath(a, stack, symbols)
    requires g.IsRule(r) && r >= 3 && k <= |g.Rhs(r)| && InState(g, a, stack[|symbols|], g.rrhs[r] + k)
    ensures k <= |symbols| && symbols[|symbols| - k..] == g.Rhs(r)[..k]
    ensures InState(g, a, stack[|symbols| - k], g.rrhs[r])
    decreases k
  {
    hide Grammar.WellFormed, IsLR0, Shift, Grammar.Rhs, InState;
    if k > 0 {
      var n := |symbols|;
      StepBack(g, a, stack, symbols, r, k);
      assert IsPath(a, stack[..n], symbols[..n - 1]);
      WalkBack(g, a, stack[..n], symbols[..n - 1], r, k - 1);
      assert symbols[n - k..] == symbols[..n - 1][n - k..] + [symbols[n - 1]];
      assert g.Rhs(r)[..k] == g.Rhs(r)[..k - 1] + [g.Rhs(r)[k - 1]];
    }
  }

  /** A state that has a user rule at its start has a transition over the rule's variable. */
  lemma GotoExists(g: Grammar, a: Automaton, s: nat, r: nat) returns (u: nat)
    requires g.WellFormed() && IsLR0(g, a) && g.IsRule(r) && r >= 3 && InState(g, a, s, g.rrhs[r])
    ensures Shift(a, s, g.rlhs[r], u)
  {
    hide Grammar.WellFormed, IsLR0, Shift, Grammar.Rhs, Grammar.RuleEnd;
    g.RuleFacts(r);
    var i := g.rrhs[r];
    g.RuleOfUnique(i, r);
    InStateItem(g, a, s, i);
    if i in a.cores[s].items { KernelItem(g, a, s, i); }
    ClosureItem(g, a.cores[s].items, i);
    var j: nat :| InClosure(g, a.cores[s].items, j) && g.IsItem(j) && g.ritem[j] == g.rlhs[r];
    u := ShiftExists(g, a, s, j);
  }

  lemma KernelAt(g: Grammar, a: Automaton, s: nat)
    requires g.WellFormed() && IsLR0(g, a) && 1 <= s < |a.cores|
    ensures IsKernel(g, a.cores[s])
  {
    hide ShiftsOf, RedsOf;
  }

  /** Only $accept's item in state 0 has its dot at the start of a rule. */
  lemma KernelItem(g: Grammar, a: Automaton, s: nat, i: nat)
    requires g.WellFormed() && IsLR0(g, a) && s < |a.cores| && i in a.cores[s].items
    ensures g.IsItem(i) && (s == 0 || i == g.rrhs[g.RuleOf(i)] ==> g.RuleOf(i) == 2)
  {
    hide Grammar.WellFormed, IsLR0, Grammar.Rhs;
    StatesExist(g, a);
    if s == 0 {
      RulesExist(g);
      g.RuleFacts(2);
      g.RuleOfUnique(1, 2);
    } else {
      KernelAt(g, a, s);
      g.ItemContent(i - 1);
      g.RuleFacts(g.RuleOf(i - 1));
    }
  }

  /** Rule r's right side is on top of the stack, and the state below it goes to u over the
      rule's variable. */
  ghost predicate PopsTo(g: Grammar, a: Automaton, stack: seq<nat>, symbols: seq<nat>, r: nat, u: nat)
    requires g.WellFormed() && g.IsRule(r)
  {
    var m := |g.Rhs(r)|;
    && |stack| == |symbols| + 1 && m <= |symbols| && symbols[|symbols| - m..] == g.Rhs(r)
    && Shift(a, stack[|symbols| - m], g.rlhs[r], u)
  }

  ghost predicate TopReduces(a: Automaton, stack: seq<nat>, r: nat)
  {
    stack != [] && stack[|stack| - 1] < |a.reds| && r in a.reds[stack[|stack| - 1]]
  }

  /** A reduction by a rule that the top state holds: it pops the rule's right side and no
      more than that, and the goto it then takes is a transition of the automaton. */
  lemma Reduction(g: Grammar, a: Automaton, stack: seq<nat>, symbols: seq<nat>, r: nat) returns (u: nat)
    requires g.WellFormed() && IsLR0(g, a) && IsPath(a, stack, symbols) && g.IsRule(r) && r >= 3 &&
             TopReduces(a, stack, r)
    ensures PopsTo(g, a, stack, symbols, r, u)
  {
    hide Grammar.WellFormed, IsLR0, Grammar.Rhs, Shift, InState;
    StatesExist(g, a);
    g.RuleFacts(r);
    var m, s := |g.Rhs(r)|, stack[|symbols|];
    ReducesWhenComplete(g, a, s, r);
    WalkBack(g, a, stack, symbols, r, m);
    assert g.Rhs(r)[..m] == g.Rhs(r);
    u := GotoExists(g, a, stack[|symbols| - m], r);
  }

  lemma PathCut(a: Automaton, stack: seq<nat>, symbols: seq<nat>, m: nat, v: nat, u: nat)
    requires IsPath(a, stack, symbols) && m <= |symbols| && Shift(a, stack[|symbols| - m], v, u)
    ensures IsPath(a, stack[..|stack| - m] + [u], symbols[..|symbols| - m] + [v])
  {
    hide Shift;
  }

  lemma ReadAhead(input: seq<int>, c: Config, n: nat)
    requires Ahead(input, c, n)
    ensures Ahead(input, Read(input, c), n) && Read(input, c).yychar == Lex(input, n)
    ensures Read(input, c).stack == c.stack && Read(input, c).outcome == c.outcome
  {}

  /** Reduce, given what the tables say about the rule and the goto. */
  lemma ReduceBy(t: Tables, input: seq<int>, c: Config, y: nat, m: nat, lhs: nat, u: nat)
    requires |t.table| == |t.check| && |t.gindex| == |t.dgoto| && y < |t.len| && y < |t.lhs|
    requires t.len[y] == m < |c.stack| && t.lhs[y] == lhs < |t.gindex|
    requires t.GotoOf(c.stack[|c.stack| - m - 1], lhs) == u
    requires c.stack[|c.stack| - m - 1] == 0 && lhs == 0 ==> t.final == u
    ensures var c1 := c.(stack := c.stack[..|c.stack| - m] + [u]);
            Reduce(t, input, c, y) ==
              if c.stack[|c.stack| - m - 1] == 0 && lhs == 0 then
                var c2 := Read(input, c1);
                if c2.yychar == 0 then c2.(outcome := Accepted) else c2
              else c1
  {
    hide Tables.GotoOf, Read;
  }

  /** What the tables say about rule y + 2 and a goto over its variable. */
  ghost predicate TablesGive(g: Grammar, t: Tables, y: nat, s: nat, u: nat)
    requires g.WellFormed() && g.IsRule(y + 2) && |t.table| == |t.check| && |t.gindex| == |t.dgoto|
  {
    var lhs := g.rlhs[y + 2] - g.ntokens - 1;
    && y < |t.len| && y < |t.lhs| && t.len[y] == |g.Rhs(y + 2)| && t.lhs[y] == lhs && 0 <= lhs < |t.gindex|
    && t.GotoOf(s, lhs) == u && (s == 0 && lhs == 0 ==> t.final == u)
  }

  lemma RuleAndGoto(x: Generated, y: nat, s: nat, u: nat)
    requires x.Ok() && y >= 1 && x.l.g.IsRule(y + 2) && Shift(x.l.a, s, x.l.g.rlhs[y + 2], u)
    ensures x.l.g.WellFormed() && |x.t.table| == |x.t.check| && |x.t.gindex| == |x.t.dgoto|
    ensures TablesGive(x.l.g, x.t, y, s, u)
  {
    hide Generated.Ok, Lalr.Ok, Grammar.WellFormed, Grammar.Rhs, Shift, Tables.GotoOf;
    Parts(x);
    Sizes(x);
    RuleFound(x, y);
    RuleLeft(x, y + 2);
    GotoFound(x, s, x.l.g.rlhs[y + 2], u);
  }

  /** What Reduce does to a configuration with a rule's right side on top. */
  lemma ReduceIs(g: Grammar, a: Automaton, t: Tables, input: seq<int>, c: Config, symbols: seq<nat>, y: nat, u: nat)
    requires g.WellFormed() && y >= 1 && g.IsRule(y + 2) && PopsTo(g, a, c.stack, symbols, y + 2, u)
    requires |t.table| == |t.check| && |t.gindex| == |t.dgoto|
    requires TablesGive(g, t, y, c.stack[|symbols| - |g.Rhs(y + 2)|], u)
    ensures Reduce(t, input, c, y) == Reduced(g, input, c, symbols, y + 2, u)
  {
    hide Grammar.Rhs, Shift, Grammar.WellFormed, Tables.GotoOf, Read, Reduce;
    ReduceBy(t, input, c, y, |g.Rhs(y + 2)|, g.rlhs[y + 2] - g.ntokens - 1, u);
  }

  /** The right side of rule r replaced by u; when the goal has been reduced to on the bottom
      state, the next token is read, and if it is 0 the parser accepts. */
  ghost function Reduced(g: Grammar, input: seq<int>, c: Config, symbols: seq<nat>, r: nat, u: nat): Config
    requires g.WellFormed() && g.IsRule(r) && |c.stack| == |symbols| + 1 && |g.Rhs(r)| <= |symbols|
  {
    var m := |g.Rhs(r)|;
    var c1 := c.(stack := c.stack[..|c.stack| - m] + [u]);
    if c.stack[|symbols| - m] == 0 && g.rlhs[r] == g.Goal() then
      var c2 := Read(input, c1);
      if c2.yychar == 0 then c2.(outcome := Accepted) else c2
    else c1
  }

  lemma RuleLeft(x: Generated, r: nat)
    requires x.Ok() && x.l.g.IsRule(r) && r >= 3
    ensures x.l.g.WellFormed() && x.l.g.ntokens < x.l.g.rlhs[r] < x.l.g.nsyms
  {
    hide Generated.Ok, Grammar.WellFormed;
    Parts(x);
    x.l.g.RuleFacts(r);
  }

  /** The input up to its end is a sentence: the symbols of w, and then 0, a negative number
      or nothing. */
  ghost predicate IsInput(value: seq<nat>, input: seq<int>, w: seq<nat>)
  {
    Consumed(value, input, w) && Lex(input, |w|) == 0
  }

  ghost predicate IsSentence(g: Grammar, value: seq<nat>, input: seq<int>)
    requires g.WellFormed()
  {
    exists w: seq<nat> :: IsInput(value, input, w) && Derives(g.Unpacked(), [g.Goal()], w)
  }

  // ----- what the parser builds -----

  /** The token that has this number. */
  ghost function TokenOf(value: seq<nat>, yychar: int): nat
  {
    if exists j: nat :: j < |value| && value[j] == yychar then
      var j: nat :| j < |value| && value[j] == yychar;
      j
    else 0
  }

  /** The derivation after one more turn: a shift adds the token, and a reduction puts what is
      on top under the rule's variable. */
  ghost function Next(t: Tables, value: seq<nat>, input: seq<int>, c: Config, d: Forest): Forest
    requires |t.table| == |t.check| && |t.gindex| == |t.dgoto|
  {
    var y := Chosen(t, input, c);
    if 1 <= y < |t.len| && t.len[y] <= d.Length() then d.Fold(d.Length() - t.len[y], t.len[y], y + 2)
    else if |Step(t, input, c).stack| > |c.stack| then d.Join(Tok(TokenOf(value, Read(input, c).yychar), Done))
    else d
  }

  /** The derivation that n turns of the parser build on top of d. */
  ghost function Built(t: Tables, value: seq<nat>, input: seq<int>, c: Config, d: Forest, n: nat): Forest
    requires |t.table| == |t.check| && |t.gindex| == |t.dgoto|
    decreases n
  {
    if n == 0 then d else Built(t, value, input, Step(t, input, c), Next(t, value, input, c, d), n - 1)
  }

  /** A turn that has not ended in a syntax error has added one token or one rule. */
  ghost predicate Keeps(x: Generated, input: seq<int>, d: Forest, c': Config, e: Forest)
    requires x.l.g.WellFormed()
  {
    && Inv(x, input, c', e) && c'.outcome != Broken && (c'.outcome == Accepted ==> IsSentence(x.l.g, x.value, input))
    && (if c'.outcome == Rejected then e == d else e.Size() == d.Size() + 1)
  }

  lemma ReduceKeeps(x: Generated, input: seq<int>, c: Config, d: Forest, y: nat)
    requires x.Ok() && Inv(x, input, c, d) && c.outcome == Running && |x.t.table| == |x.t.check| &&
             |x.t.gindex| == |x.t.dgoto|
    requires y >= 1 && x.l.g.IsRule(y + 2) && TopReduces(x.l.a, c.stack, y + 2)
    ensures y < |x.t.len| && x.t.len[y] <= d.Length()
    ensures Keeps(x, input, d, Reduce(x.t, input, c, y), d.Fold(d.Length() - x.t.len[y], x.t.len[y], y + 2))
    ensures Reduce(x.t, input, c, y).outcome != Rejected
  {
    hide Generated.Ok, Lalr.Ok, Grammar.WellFormed, IsLR0, Grammar.Rhs, Grammar.Unpacked, Reduce, IsPath, Consumed,
         Shift, Forest.Valid, Forest.Form, Forest.Yield, Forest.Fold, Forest.Size, Forest.Length;
    Parts(x);
    var g, symbols := x.l.g, d.Form(x.Cfg());
    PathSize(x.l.a, c.stack, symbols);
    var u := Reduction(g, x.l.a, c.stack, symbols, y + 2);
    var m, n := |g.Rhs(y + 2)|, |symbols|;
    RuleAndGoto(x, y, c.stack[n - m], u);
    ReduceIs(g, x.l.a, x.t, input, c, symbols, y, u);
    PathCut(x.l.a, c.stack, symbols, m, g.rlhs[y + 2], u);
    d.LengthIs(x.Cfg());
    var e := d.Fold(n - m, m, y + 2);
    FoldTop(x, d, symbols, y + 2);
    var stack := c.stack[..|c.stack| - m] + [u];
    ReadAhead(input, c.(stack := stack), |d.Yield()|);
    if Reduce(x.t, input, c, y).outcome == Accepted {
      BottomOnly(x, c.stack, symbols, n - m);
      assert e.Form(x.Cfg()) == [g.Goal()];
      assert IsInput(x.value, input, e.Yield());
    }
  }

  lemma PathSize(a: Automaton, stack: seq<nat>, symbols: seq<nat>)
    requires IsPath(a, stack, symbols)
    ensures |stack| == |symbols| + 1
  {}

  lemma FoldTop(x: Generated, d: Forest, symbols: seq<nat>, r: nat)
    requires x.Ok() && d.Valid(x.Cfg()) && d.Form(x.Cfg()) == symbols && x.l.g.IsRule(r)
    requires var m := |x.l.g.Rhs(r)|; m <= |symbols| && symbols[|symbols| - m..] == x.l.g.Rhs(r)
    ensures var e := d.Fold(|symbols| - |x.l.g.Rhs(r)|, |x.l.g.Rhs(r)|, r);
            && e.Valid(x.Cfg()) && e.Yield() == d.Yield() && e.Size() == d.Size() + 1
            && e.Form(x.Cfg()) == symbols[..|symbols| - |x.l.g.Rhs(r)|] + [x.l.g.rlhs[r]]
  {
    hide Generated.Ok, Lalr.Ok, Grammar.WellFormed, IsLR0, Grammar.Rhs, Grammar.Unpacked, Forest.Valid, Forest.Form,
         Forest.Yield, Forest.Fold, Forest.Size;
    Parts(x);
    var m, n := |x.l.g.Rhs(r)|, |symbols|;
    x.l.g.UnpackedRule(r);
    assert symbols[n - m..][..m] == x.l.g.Rhs(r) && symbols[n - m..][m..] == [];
    d.FoldMeans(x.Cfg(), n - m, r);
    assert [x.l.g.rlhs[r]] + [] == [x.l.g.rlhs[r]];
  }

  /** State 0 is at the bottom of the stack and nowhere else. */
  lemma BottomOnly(x: Generated, stack: seq<nat>, symbols: seq<nat>, i: nat)
    requires x.Ok() && IsPath(x.l.a, stack, symbols) && i < |stack| && stack[i] == 0
    ensures i == 0
  {
    PathState(x.l.g, x.l.a, stack, symbols, i);
  }

  lemma ShiftKeeps(x: Generated, input: seq<int>, c: Config, d: Forest, j: nat, u: nat)
    requires x.Ok() && Inv(x, input, c, d) && c.yychar >= 0 && c.stack != [] && c.outcome == Running
    requires 0 < j < x.l.g.ntokens == |x.value| && x.value[j] == c.yychar && Shift(x.l.a, c.stack[|c.stack| - 1], j, u)
    ensures TokenOf(x.value, c.yychar) == j
    ensures Keeps(x, input, d, c.(stack := c.stack + [u], yychar := YYEMPTY), d.Join(Tok(j, Done)))
  {
    hide Generated.Ok, Lalr.Ok, Grammar.WellFormed, IsLR0, Grammar.Unpacked, Shift, IsPath, Forest.Valid, Forest.Form,
         Forest.Yield, Forest.Join, Forest.Size;
    Parts(x);
    TokenIs(x, j);
    var symbols := d.Form(x.Cfg());
    assert c.yychar > 0 by { ValuesDiffer(x, 0, j); }
    PushToken(x, d, symbols, j);
    PathSize(x.l.a, c.stack, symbols);
    PathCut(x.l.a, c.stack, symbols, 0, j, u);
    assert c.stack[..|c.stack| - 0] == c.stack && symbols[..|symbols| - 0] == symbols;
  }

  lemma TokenIs(x: Generated, j: nat)
    requires x.Ok() && j < |x.value|
    ensures TokenOf(x.value, x.value[j]) == j
  {
    hide Generated.Ok;
    var k := TokenOf(x.value, x.value[j]);
    if k < j { ValuesDiffer(x, k, j); }
    if j < k { ValuesDiffer(x, j, k); }
  }

  lemma ValuesDiffer(x: Generated, i: nat, j: nat)
    requires x.Ok() && i < j < |x.value|
    ensures x.value[i] != x.value[j] && x.value[0] == 0
  {
    hide Lalr.Ok, IsParser, Agree;
  }

  lemma PushToken(x: Generated, d: Forest, symbols: seq<nat>, j: nat)
    requires x.Ok() && d.Valid(x.Cfg()) && d.Form(x.Cfg()) == symbols && j < x.l.g.ntokens
    ensures var e := d.Join(Tok(j, Done));
            && e.Valid(x.Cfg()) && e.Form(x.Cfg()) == symbols + [j] && e.Yield() == d.Yield() + [j]
            && e.Size() == d.Size() + 1
  {
    hide Generated.Ok, Lalr.Ok, Grammar.WellFormed, IsLR0, Grammar.Unpacked;
    Parts(x);
    var g := x.Cfg();
    var f := Tok(j, Done);
    assert Done.Valid(g) && Done.Form(g) == [] && Done.Yield() == [] && Done.Size() == 0;
    assert f.Valid(g) && f.Form(g) == [j] + [] && f.Yield() == [j] + [] && f.Size() == 1;
    assert [j] + [] == [j];
    d.JoinMeans(g, f);
  }

  /** One turn of the loop keeps the invariant; it never leaves a table or pops below the
      bottom; and it accepts only sentences. */
  lemma StepKeeps(x: Generated, input: seq<int>, c: Config, d: Forest)
    requires x.Ok() && Inv(x, input, c, d) && c.outcome == Running && |x.t.table| == |x.t.check| &&
             |x.t.gindex| == |x.t.dgoto|
    ensures Keeps(x, input, d, Step(x.t, input, c), Next(x.t, x.value, input, c, d))
  {
    hide Generated.Ok, Lalr.Ok, Grammar.WellFormed, IsLR0, Grammar.Unpacked, Lookup, Reduce, IsSentence, Shift, IsPath,
         Consumed, Forest.Valid, Forest.Form, Forest.Yield, Forest.Fold, Forest.Join, Forest.Size, Forest.Length,
         TokenOf;
    Parts(x);
    Sizes(x);
    PathSize(x.l.a, c.stack, d.Form(x.Cfg()));
    var n, s := |d.Yield()|, c.stack[|c.stack| - 1];
    PathState(x.l.g, x.l.a, c.stack, d.Form(x.Cfg()), |c.stack| - 1);
    if x.t.defred[s] != 0 {
      DefaultFound(x, s);
      ReduceKeeps(x, input, c, d, x.t.defred[s]);
    } else {
      ReadAhead(input, c, n);
      var c1 := Read(input, c);
      assert Inv(x, input, c1, d);
      var shift, reduce := Lookup(x.t.sindex[s], x.t.table, x.t.check, c1.yychar),
        Lookup(x.t.rindex[s], x.t.table, x.t.check, c1.yychar);
      if shift.Some? {
        var j := ShiftFound(x, s, c1.yychar, shift.value);
        ShiftKeeps(x, input, c1, d, j, shift.value);
      } else if reduce.Some? {
        ReduceFound(x, s, c1.yychar, reduce.value);
        ReduceKeeps(x, input, c1, d, reduce.value);
      }
    }
  }

  /** A run that has not ended in a syntax error has built a derivation of as many tokens and
      rules as it has taken turns, unless it was over before. */
  lemma {:induction false} RunKeeps(x: Generated, input: seq<int>, c: Config, d: Forest, n: nat)
    requires x.Ok() && Inv(x, input, c, d) && c.outcome == Running && |x.t.table| == |x.t.check| &&
             |x.t.gindex| == |x.t.dgoto|
    ensures var c', e := Run(x.t, input, c, n), Built(x.t, x.value, input, c, d, n);
            && Inv(x, input, c', e) && c'.outcome != Broken &&
               (c'.outcome == Accepted ==> IsSentence(x.l.g, x.value, input))
            && (c'.outcome == Running ==> e.Size() == d.Size() + n)
    decreases n
  {
    hide Generated.Ok, Inv, Step, IsSentence, Next;
    if n > 0 {
      StepKeeps(x, input, c, d);
      var c', e := Step(x.t, input, c), Next(x.t, x.value, input, c, d);
      if c'.outcome == Running {
        RunKeeps(x, input, c', e, n - 1);
      } else {
        StoppedStays(x.t, input, c', n - 1);
        BuiltStays(x.t, x.value, input, c', e, n - 1);
      }
    }
  }

  /** A parser that has stopped builds no more. */
  lemma {:induction false} BuiltStays(t: Tables, value: seq<nat>, input: seq<int>, c: Config, d: Forest, n: nat)
    requires |t.table| == |t.check| && |t.gindex| == |t.dgoto| && c.outcome != Running
    ensures Built(t, value, input, c, d, n) == d
    decreases n
  {
    if n > 0 { BuiltStays(t, value, input, c, d, n - 1); }
  }

  lemma {:induction false} BuiltOn(t: Tables, value: seq<nat>, input: seq<int>, c: Config, d: Forest, m: nat, n: nat)
    requires |t.table| == |t.check| && |t.gindex| == |t.dgoto|
    ensures Built(t, value, input, c, d, m + n) ==
              Built(t, value, input, Run(t, input, c, m), Built(t, value, input, c, d, m), n)
    decreases m
  {
    hide Step, Next;
    if m > 0 { BuiltOn(t, value, input, Step(t, input, c), Next(t, value, input, c, d), m - 1, n); }
  }

  lemma StartsInv(x: Generated, input: seq<int>)
    requires x.Ok()
    ensures Inv(x, input, Start(), Done) && Done.Size() == 0
  {}

  /** Stack safety: in every reachable configuration the stack is a path of the automaton over
      the symbols of the derivation built, which yields the tokens read; and no run ever reads
      outside a table or pops below the bottom of the stack. */
  lemma RunsAreSafe(x: Generated, input: seq<int>, n: nat)
    requires x.Ok()
    ensures |x.t.table| == |x.t.check| && |x.t.gindex| == |x.t.dgoto|
    ensures var c, d := Run(x.t, input, Start(), n), Built(x.t, x.value, input, Start(), Done, n);
            c.outcome != Broken && Inv(x, input, c, d) && (c.outcome == Running ==> d.Size() == n)
  {
    Sizes(x);
    StartsInv(x, input);
    hide Generated.Ok, Inv;
    RunKeeps(x, input, Start(), Done, n);
  }

  /** Parser soundness, whatever conflicts have been resolved and however: what is accepted,
      up to its end, is derived from the goal. */
  lemma AcceptedIsSentence(x: Generated, input: seq<int>, n: nat)
    requires x.Ok()
    ensures |x.t.table| == |x.t.check| && |x.t.gindex| == |x.t.dgoto|
    ensures Run(x.t, input, Start(), n).outcome == Accepted ==> IsSentence(x.l.g, x.value, input)
  {
    Sizes(x);
    StartsInv(x, input);
    hide Generated.Ok, Inv, IsSentence;
    RunKeeps(x, input, Start(), Done, n);
  }
}
