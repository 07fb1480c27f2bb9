/** What precedence and associativity do to the derivations that the parser builds: with operators
    op in rules e : e op e, which of two operators in a row is applied first. */
module Grouping {
  import opened Automata
  import opened Cfgs
  import opened Conflicts
  import opened Grammars
  import opened Lookaheads
  import opened Mkpar
  import opened Output
  import opened Paths
  import opened Skeleton
  import opened Soundness
  import opened Trace
  import opened Vectors

  /** Rule r is e : e t e. */
  ghost predicate IsBinary(g: Grammar, r: nat, e: nat, t: nat)
    requires g.WellFormed()
  {
    g.IsRule(r) && r >= 3 && t < g.ntokens && g.rlhs[r] == e && g.Rhs(r) == [e, t, e]
  }

  /** By their precedences the token stands against the rule ... */
  predicate TokenStands(pr: Precedence, t: nat, r: nat)
    requires t < |pr.symbolPrec| && t < |pr.symbolAssoc| && r < |pr.rprec|
  {
    || pr.symbolPrec[t] <= 0 || pr.rprec[r] <= 0
    || pr.symbolPrec[t] > pr.rprec[r] || (pr.symbolPrec[t] == pr.rprec[r] && pr.symbolAssoc[t].RIGHT?)
  }

  /** ... and cannot be in a tie with any rule. */
  predicate NeverTies(pr: Precedence, t: nat)
    requires t < |pr.symbolPrec| && t < |pr.symbolAssoc|
  {
    pr.symbolPrec[t] <= 0 || pr.symbolAssoc[t].LEFT? || pr.symbolAssoc[t].RIGHT?
  }

  // ----- the state after e op e -----

  /** q is the state after e t1 e, from a state p where rule r1 starts. */
  ghost predicate AfterOperand(x: Generated, p: nat, r1: nat, e: nat, t1: nat, q: nat)
    requires x.l.g.WellFormed()
  {
    IsBinary(x.l.g, r1, e, t1) && InState(x.l.g, x.l.a, p, x.l.g.rrhs[r1]) && Spells(x.l.a, p, [e, t1, e], q)
  }

  lemma BinaryItems(g: Grammar, r: nat, e: nat, t: nat)
    requires g.WellFormed() && IsBinary(g, r, e, t)
    ensures g.IsItem(g.rrhs[r]) && g.IsItem(g.rrhs[r] + 1) && g.IsItem(g.rrhs[r] + 2)
    ensures g.ritem[g.rrhs[r]] == e && g.ritem[g.rrhs[r] + 1] == t && g.ritem[g.rrhs[r] + 2] == e
    ensures e > 0 && t > 0 && e == g.rlhs[r] && |g.Rhs(r)| == 3 && g.Rhs(r)[..3] == g.Rhs(r) && g.Rhs(r)[..2] == [e, t]
  {
    hide Grammar.WellFormed;
    RuleSymbol(g, r, 0);
    RuleSymbol(g, r, 1);
    RuleSymbol(g, r, 2);
    hide Grammar.Rhs;
  }

  /** Behind an operand every operator can be shifted. */
  lemma OperatorsFollow(g: Grammar, a: Automaton, s: nat, i: nat, u: nat, r2: nat, e: nat, t2: nat) returns (w: nat)
    requires g.WellFormed() && IsLR0(g, a) && InState(g, a, s, i) && g.IsItem(i) && g.ritem[i] == e && Shift(a, s, e, u)
    requires IsBinary(g, r2, e, t2)
    ensures Shift(a, u, t2, w)
  {
    BinaryItems(g, r2, e, t2);
    hide Grammar.WellFormed, IsLR0, InState, Shift, IsBinary;
    RuleStarts(g, a, s, i, r2);
    ShiftMoves(g, a, s, e, u, g.rrhs[r2]);
    w := ShiftExists(g, a, u, g.rrhs[r2] + 1);
  }

  /** Along the rule: the states after the left operand and after the operator. */
  lemma AlongBinary(g: Grammar, a: Automaton, p: nat, r1: nat, e: nat, t1: nat, q: nat) returns (p1: nat, p2: nat)
    requires g.WellFormed() && IsLR0(g, a) && IsBinary(g, r1, e, t1) && InState(g, a, p, g.rrhs[r1])
    requires Spells(a, p, [e, t1, e], q)
    ensures Shift(a, p, e, p1) && InState(g, a, p2, g.rrhs[r1] + 2) && Shift(a, p2, e, q)
    ensures q < |a.reds| && r1 in a.reds[q]
  {
    BinaryItems(g, r1, e, t1);
    assert g.Rhs(r1) == [e, t1, e];
    hide Grammar.WellFormed, IsLR0, InState, Shift, IsBinary, Grammar.Rhs, Spells;
    p1 := ShiftExists(g, a, p, g.rrhs[r1]);
    p2 := SpellsRule(g, a, p, r1, 2);
    var q' := SpellsRuleStep(g, a, p, r1, 2, p2);
    SpellsUnique(g, a, p, [e, t1, e], q, q');
    SpelledReduces(g, a, p, r1, q);
  }

  /** What can be shifted behind a rule's variable is a lookahead of the rule. */
  lemma LooksAhead(l: Lalr, p: nat, r: nat, q: nat, p1: nat, t: nat, w: nat)
    requires l.Ok() && l.g.WellFormed() && l.g.IsRule(r) && r >= 3 && t < l.g.ntokens
    requires Spells(l.a, p, l.g.Rhs(r), q) && Shift(l.a, p, l.g.rlhs[r], p1) && Shift(l.a, p1, t, w)
    ensures l.InLA(q, r, t)
  {
    l.g.RuleFacts(r);
    hide Lalr.Ok, Grammar.WellFormed, Shift, Grammar.Rhs, Spells, Lalr.Follow, Lalr.Read;
    var i := l.GotoOf(p, l.g.rlhs[r], p1);
    assert l.DirectRead(i, t);
    l.ReadSolves(i, i, t);
    l.FollowSolves(i, i, t);
    assert l.LooksBack(q, r, i);
  }

  /** Every operator can be shifted there, and the rule reduces on it. */
  lemma BothActions(x: Generated, p: nat, r1: nat, r2: nat, e: nat, t1: nat, t2: nat, q: nat) returns (u: nat)
    requires x.Ok() && x.l.g.WellFormed() && AfterOperand(x, p, r1, e, t1, q) && IsBinary(x.l.g, r2, e, t2)
    ensures q < |x.l.a.cores| && ShiftsToken(x.l, q, t2, u) && Reduces(x.l, q, r1, t2)
  {
    hide Generated.Ok, Lalr.Ok, Grammar.WellFormed, IsLR0, InState, Shift, Grammar.Rhs, Spells, Lalr.InLA;
    Parts(x);
    var g, a := x.l.g, x.l.a;
    BinaryItems(g, r1, e, t1);
    var p1, p2 := AlongBinary(g, a, p, r1, e, t1, q);
    var w := OperatorsFollow(g, a, p, g.rrhs[r1], p1, r2, e, t2);
    LooksAhead(x.l, p, r1, q, p1, t2, w);
    u := OperatorsFollow(g, a, p2, g.rrhs[r1] + 2, q, r2, e, t2);
    ShiftKernel(g, a, q, t2, u);
  }

  // ----- who wins there -----

  /** The row of a state as it was before its conflicts were resolved. */
  lemma RowBefore(x: Generated, q: nat) returns (was: seq<Action>)
    requires x.Ok() && q < |x.l.a.cores|
    ensures x.l.g.WellFormed() && |x.p.rows| == |x.p.defred| == |x.l.a.cores| && |was| == |x.p.rows[q]|
    ensures IsRowFor(x.l, q, was) && AllFresh(x.pr, was) && Resolved(q == x.p.final, was, x.p.rows[q], |was|)
    ensures InOrder(was) && IsDefault(x.p.rows[q], x.p.defred[q])
  {
    hide Lalr.Ok, Agree, AreTokenValues, IsRowFor, AtMostOne, IsDefault, Resolved;
    Parts(x);
    assert IsResolved(x.l, x.pr, q, q == x.p.final, x.p.rows[q]);
    was :| IsRowFor(x.l, q, was) && AllFresh(x.pr, was) && Resolved(q == x.p.final, was, x.p.rows[q], |was|);
    SizeIs(q == x.p.final, was, x.p.rows[q]);
    OrderIs(x.l, q, was);
  }

  lemma SizeIs(final: bool, was: seq<Action>, row: seq<Action>)
    requires Resolved(final, was, row, |was|)
    ensures |row| == |was|
  {}

  lemma OrderIs(l: Lalr, q: nat, was: seq<Action>)
    requires l.g.WellFormed() && IsRowFor(l, q, was)
    ensures InOrder(was)
  {}

  /** The shift over t and the reduction by r, with their precedences. */
  lemma FindActions(x: Generated, q: nat, was: seq<Action>, t: nat, u: nat, r: nat) returns (i: nat, j: nat)
    requires x.l.g.WellFormed() && IsRowFor(x.l, q, was) && AllFresh(x.pr, was)
    requires ShiftsToken(x.l, q, t, u) && Reduces(x.l, q, r, t)
    ensures i < |was| && was[i].symbol == t && was[i].code.SHIFT? && RivalRule(was, i, j) && was[j].number == r
    ensures t < |x.pr.symbolPrec| && t < |x.pr.symbolAssoc| && r < |x.pr.rprec|
    ensures was[i].prec == x.pr.symbolPrec[t] && was[i].assoc == x.pr.symbolAssoc[t] && was[j].prec == x.pr.rprec[r]
  {
    hide Grammar.WellFormed, ShiftsToken, Reduces, InOrder;
    assert Mkpar.Has(was, t, SHIFT, u) && Mkpar.Has(was, t, REDUCE, r);
    i :| i < |was| && IsAction(was[i], t, SHIFT, u);
    j :| j < |was| && IsAction(was[j], t, REDUCE, r);
    assert Fresh(x.pr, was[i]) && Fresh(x.pr, was[j]);
  }

  /** Where the token does not stand against the rule it is not shifted. */
  lemma NotShifted(x: Generated, p: nat, r1: nat, r2: nat, e: nat, t1: nat, t2: nat, q: nat)
    requires x.Ok() && x.l.g.WellFormed() && AfterOperand(x, p, r1, e, t1, q) && IsBinary(x.l.g, r2, e, t2)
    requires x.pr.Covers(x.l.g) && r1 < |x.pr.rprec| && t2 < |x.pr.symbolPrec| && !TokenStands(x.pr, t2, r1)
    ensures !MayShift(x, q, t2)
  {
    BinaryItems(x.l.g, r2, e, t2);
    hide Generated.Ok, Lalr.Ok, Grammar.WellFormed, IsBinary, AfterOperand, ShiftsToken, Reduces, IsRowFor, AllFresh,
         Resolved, InOrder, IsDefault;
    var u := BothActions(x, p, r1, r2, e, t1, t2, q);
    var was := RowBefore(x, q);
    var i, j := FindActions(x, q, was, t2, u, r1);
    ShiftStays(q == x.p.final, was, x.p.rows[q], i);
    assert !Stands(was[i], was[j]);
    if MayShift(x, q, t2) { OnlyShift(x, q, was, i); }
  }

  /** The row has no other shift over the token than the one suppressed. */
  lemma OnlyShift(x: Generated, q: nat, was: seq<Action>, i: nat)
    requires q < |x.p.rows| && InOrder(was) && |was| == |x.p.rows[q]|
    requires Resolved(q == x.p.final, was, x.p.rows[q], |was|)
    requires i < |was| && was[i].code.SHIFT? && x.p.rows[q][i].suppressed != 0
    ensures !MayShift(x, q, was[i].symbol)
  {
    var row := x.p.rows[q];
    forall k: nat | k < |row| && row[k].symbol == was[i].symbol && row[k].code.SHIFT? ensures k == i {
      JudgedOne(q == x.p.final, was, row, k);
      ShiftIsFirst(was, i, k);
    }
    hide Resolved, InOrder;
  }

  /** Of the rules that take the token the lowest one. */
  lemma {:induction false} LowestTaker(was: seq<Action>, i: nat, k: nat) returns (m: nat)
    requires InOrder(was) && RivalRule(was, i, k) && Takes(was[k], was[i])
    ensures RivalRule(was, i, m) && Takes(was[m], was[i])
    ensures forall j: nat :: RivalRule(was, i, j) && was[j].number < was[m].number ==> !Takes(was[j], was[i])
    decreases was[k].number
  {
    if j: nat :| RivalRule(was, i, j) && was[j].number < was[k].number && Takes(was[j], was[i]) {
      m := LowestTaker(was, i, j);
    } else {
      m := k;
    }
  }

  lemma OneRule(was: seq<Action>, j: nat, k: nat)
    requires InOrder(was) && j < |was| && k < |was| && was[j].symbol == was[k].symbol
    requires was[j].code.REDUCE? && was[k].code.REDUCE? && was[j].number == was[k].number
    ensures j == k
  {
    SameRule(was, j, k);
    SameRule(was, k, j);
  }

  /** A rule that is all that is left of the row is the one that stays on each of its tokens. */
  lemma SoleStays(final: bool, was: seq<Action>, row: seq<Action>, i: nat, j: nat)
    requires InOrder(was) && Resolved(final, was, row, |was|) && |row| == |was| && IsShiftAt(final, was, i)
    requires RivalRule(was, i, j) && IsSole(row, was[j].number) && !Takes(was[j], was[i])
    ensures forall k: nat :: RivalRule(was, i, k) ==> !Takes(was[k], was[i])
    ensures row[i].suppressed != 0
  {
    hide Takes, Resolved, InOrder;
    JudgedOne(final, was, row, i);
    if k: nat :| RivalRule(was, i, k) && Takes(was[k], was[i]) {
      var m := LowestTaker(was, i, k);
      ReductionStays(final, was, row, i, m);
      JudgedOne(final, was, row, m);
      OneRule(was, j, m);
    }
  }

  lemma NotOnToken(x: Generated, q: nat, was: seq<Action>, i: nat, j: nat)
    requires x.Ok() && q < |x.p.rows| && InOrder(was) && Resolved(q == x.p.final, was, x.p.rows[q], |was|)
    requires |was| == |x.p.rows[q]| && IsShiftAt(q == x.p.final, was, i) && RivalRule(was, i, j)
    requires !Takes(was[j], was[i])
    ensures !Live(x.p.rows[q], was[i].symbol, REDUCE, was[j].number)
  {
    hide Generated.Ok, Takes;
    var row, t, r := x.p.rows[q], was[i].symbol, was[j].number;
    ReductionStays(q == x.p.final, was, row, i, j);
    forall k: nat | k < |row| && IsAction(row[k], t, REDUCE, r) ensures row[k].suppressed != 0 {
      JudgedOne(q == x.p.final, was, row, k);
      OneRule(was, j, k);
    }
    hide Resolved, InOrder;
  }

  /** Where the token stands against the rule, the rule is not applied before it. */
  lemma NotReduced(x: Generated, p: nat, r1: nat, r2: nat, e: nat, t1: nat, t2: nat, q: nat)
    requires x.Ok() && x.l.g.WellFormed() && AfterOperand(x, p, r1, e, t1, q) && IsBinary(x.l.g, r2, e, t2)
    requires x.pr.Covers(x.l.g) && r1 < |x.pr.rprec| && t2 < |x.pr.symbolPrec|
    requires TokenStands(x.pr, t2, r1) && NeverTies(x.pr, t2)
    ensures t2 < |x.value| && !MayReduce(x, q, r1, x.value[t2])
  {
    BinaryItems(x.l.g, r2, e, t2);
    Sizes(x);
    hide Generated.Ok, Lalr.Ok, Grammar.WellFormed, IsBinary, AfterOperand, ShiftsToken, Reduces, IsRowFor, AllFresh,
         Resolved, InOrder, IsSole, Live;
    var u := BothActions(x, p, r1, r2, e, t1, t2, q);
    var was := RowBefore(x, q);
    var i, j := FindActions(x, q, was, t2, u, r1);
    assert !Takes(was[j], was[i]);
    if x.p.defred[q] == r1 {
      assert r1 != 0 by { hide IsDefault; }
      SoleStays(q == x.p.final, was, x.p.rows[q], i, j);
      ShiftStays(q == x.p.final, was, x.p.rows[q], i);
      assert false;
    }
    NotOnToken(x, q, was, i, j);
    if k: nat :| k < |x.value| && x.value[k] == x.value[t2] && Live(x.p.rows[q], k, REDUCE, r1) {
      if k < t2 { ValuesDiffer(x, k, t2); }
      if t2 < k { ValuesDiffer(x, t2, k); }
    }
  }

  // ----- which nodes there are in a derivation -----

  /** Of the operands e t e, the left and the right one is by this rule. */
  predicate LeftIs(sub: Forest, r: nat) { sub.Var? && sub.rule == r }

  predicate RightIs(sub: Forest, r: nat) { sub.Var? && sub.rest.Tok? && sub.rest.rest.Var? && sub.rest.rest.rule == r }

  /** Rule r2 is nowhere applied to what rule r1 has made of its left operand. */
  predicate NoLeft(d: Forest, r2: nat, r1: nat)
  {
    match d
    case Done => true
    case Tok(_, rest) => NoLeft(rest, r2, r1)
    case Var(r, sub, rest) => NoLeft(sub, r2, r1) && NoLeft(rest, r2, r1) && !(r == r2 && LeftIs(sub, r1))
  }

  /** Rule r1 is nowhere applied to what rule r2 has made of its right operand. */
  predicate NoRight(d: Forest, r1: nat, r2: nat)
  {
    match d
    case Done => true
    case Tok(_, rest) => NoRight(rest, r1, r2)
    case Var(r, sub, rest) => NoRight(sub, r1, r2) && NoRight(rest, r1, r2) && !(r == r1 && RightIs(sub, r2))
  }

  lemma ThreeSteps(a: Automaton, p: nat, e: nat, t: nat)
    ensures GoAll(a, p, [e, t, e]) == Go(a, Go(a, Go(a, p, e), t), e)
  {
    hide Go;
    assert [e, t, e][1..] == [t, e] && [t, e][1..] == [e] && [e][1..] == [];
    assert GoAll(a, p, [e, t, e]) == GoAll(a, Go(a, p, e), [t, e]) == GoAll(a, Go(a, Go(a, p, e), t), [e]);
  }

  lemma OperandPath(x: Generated, p: nat, r1: nat, e: nat, t1: nat)
    requires x.Ok() && x.l.g.WellFormed() && IsBinary(x.l.g, r1, e, t1) && InState(x.l.g, x.l.a, p, x.l.g.rrhs[r1])
    ensures AfterOperand(x, p, r1, e, t1, GoAll(x.l.a, p, [e, t1, e]))
  {
    hide Generated.Ok, Lalr.Ok, Grammar.WellFormed, IsLR0, InState, Spells, Grammar.Rhs, Go, GoAll;
    Parts(x);
    BinaryItems(x.l.g, r1, e, t1);
    var q := SpellsRule(x.l.g, x.l.a, p, r1, 3);
    GoAllSpells(x.l.g, x.l.a, p, [e, t1, e], q);
  }

  lemma OperandIs(x: Generated, d: Forest, e: nat, rest: seq<nat>)
    requires x.l.g.WellFormed() && d.Valid(x.Cfg()) && d.Form(x.Cfg()) == [e] + rest
    ensures e >= x.l.g.ntokens ==> d.Var? && x.l.g.IsRule(d.rule) && x.l.g.rlhs[d.rule] == e
    ensures e < x.l.g.ntokens ==> d.Tok? && d.token == e
    ensures d != Done && d.rest.Valid(x.Cfg()) && d.rest.Form(x.Cfg()) == rest
  {
    hide Grammar.WellFormed, Grammar.Unpacked;
    if d.Var? {
      x.l.g.UnpackedRule(d.rule);
      x.l.g.RuleFacts(d.rule);
    }
    assert ([e] + rest)[1..] == rest;
  }

  /** The parts of a derivation of e t e. */
  lemma BinarySub(x: Generated, sub: Forest, r: nat, e: nat, t: nat)
    requires x.l.g.WellFormed() && IsBinary(x.l.g, r, e, t) && sub.Valid(x.Cfg()) && sub.Form(x.Cfg()) == x.l.g.Rhs(r)
    ensures sub.Var? && sub.rest.Tok? && sub.rest.token == t && sub.rest.rest.Var? && sub.rest.rest.rest == Done
    ensures x.l.g.IsRule(sub.rule) && x.l.g.rlhs[sub.rule] == e
    ensures x.l.g.IsRule(sub.rest.rest.rule) && x.l.g.rlhs[sub.rest.rest.rule] == e
  {
    BinaryItems(x.l.g, r, e, t);
    x.l.g.RuleFacts(r);
    assert x.l.g.Rhs(r) == [e] + [t, e] && [t, e] == [t] + [e] && [e] == [e] + [];
    hide Grammar.WellFormed, Grammar.Unpacked, Grammar.Rhs, Forest.Valid, Forest.Form;
    OperandIs(x, sub, e, [t, e]);
    OperandIs(x, sub.rest, t, [e]);
    OperandIs(x, sub.rest.rest, e, []);
    assert sub.rest.rest.rest == Done by { NothingFrom(x, sub.rest.rest.rest); }
  }

  lemma NothingFrom(x: Generated, d: Forest)
    requires x.l.g.WellFormed() && d.Form(x.Cfg()) == []
    ensures d == Done
  {}

  /** The token does not stand against the rule: no operand on the right is by the other rule. */
  lemma {:induction false} RightOperands(x: Generated, p: nat, d: Forest, y: int, r1: nat, r2: nat, e: nat, t1: nat,
                                         t2: nat)
    requires x.Ok() && x.l.g.WellFormed() && d.Valid(x.Cfg()) && WasBuilt(x, p, d, y)
    requires IsBinary(x.l.g, r1, e, t1) && IsBinary(x.l.g, r2, e, t2)
    requires x.pr.Covers(x.l.g) && r1 < |x.pr.rprec| && t2 < |x.pr.symbolPrec| && !TokenStands(x.pr, t2, r1)
    ensures NoRight(d, r1, r2)
    decreases d
  {
    hide Generated.Ok, Grammar.WellFormed, IsBinary, Grammar.Rhs, Grammar.Unpacked, InState, MayReduce, MayShift, Go,
         GoAll, Coming, TokenStands, RightIs, Forest.Form;
    match d
    case Done =>
    case Tok(t, rest) => RightOperands(x, Go(x.l.a, p, t), rest, y, r1, r2, e, t1, t2);
    case Var(r, sub, rest) =>
      RightOperands(x, Go(x.l.a, p, x.l.g.rlhs[r]), rest, y, r1, r2, e, t1, t2);
      RightOperands(x, p, sub, Coming(x, rest, y), r1, r2, e, t1, t2);
      if r == r1 && RightIs(sub, r2) {
        NodeSub(x, d);
        NoSuchRight(x, p, sub, Coming(x, rest, y), r1, r2, e, t1, t2);
        assert false;
      }
  }

  lemma NodeSub(x: Generated, d: Forest)
    requires x.l.g.WellFormed() && d.Valid(x.Cfg()) && d.Var?
    ensures x.l.g.IsRule(d.rule) && d.sub.Valid(x.Cfg()) && d.sub.Form(x.Cfg()) == x.l.g.Rhs(d.rule)
  {
    hide Grammar.WellFormed, Grammar.Rhs, Grammar.Unpacked;
    x.l.g.UnpackedRule(d.rule);
  }

  lemma NoSuchRight(x: Generated, p: nat, sub: Forest, y: int, r1: nat, r2: nat, e: nat, t1: nat, t2: nat)
    requires x.Ok() && x.l.g.WellFormed() && sub.Valid(x.Cfg()) && WasBuilt(x, p, sub, y)
    requires IsBinary(x.l.g, r1, e, t1) && IsBinary(x.l.g, r2, e, t2)
    requires x.pr.Covers(x.l.g) && r1 < |x.pr.rprec| && t2 < |x.pr.symbolPrec| && !TokenStands(x.pr, t2, r1)
    requires sub.Form(x.Cfg()) == x.l.g.Rhs(r1) && InState(x.l.g, x.l.a, p, x.l.g.rrhs[r1])
    ensures !RightIs(sub, r2)
  {
    hide Generated.Ok, Grammar.WellFormed, IsBinary, Grammar.Rhs, Grammar.Unpacked, InState, MayReduce, Go, GoAll,
         Coming, TokenStands, Forest.Form, AfterOperand;
    BinarySub(x, sub, r1, e, t1);
    if RightIs(sub, r2) {
      var last := sub.rest.rest;
      NodeSub(x, last);
      BinarySub(x, last.sub, r2, e, t2);
      OperandPath(x, p, r1, e, t1);
      ThreeSteps(x.l.a, p, e, t1);
      var p2 := Go(x.l.a, Go(x.l.a, p, e), t1);
      assert WasBuilt(x, Go(x.l.a, p, e), sub.rest, y);
      assert WasBuilt(x, p2, last, y);
      assert WasBuilt(x, p2, last.sub, Coming(x, Done, y));
      assert WasBuilt(x, Go(x.l.a, p2, e), last.sub.rest, Coming(x, Done, y));
      NotShifted(x, p, r1, r2, e, t1, t2, GoAll(x.l.a, p, [e, t1, e]));
    }
  }

  /** Rule r1 is never applied with token t2 coming next. */
  ghost predicate NeverBefore(x: Generated, r1: nat, e: nat, t1: nat, t2: nat)
    requires x.l.g.WellFormed()
  {
    t2 < |x.value| && forall p: nat, q: nat :: AfterOperand(x, p, r1, e, t1, q) ==> !MayReduce(x, q, r1, x.value[t2])
  }

  lemma NoSuchLeft(x: Generated, p: nat, sub: Forest, y: int, r1: nat, r2: nat, e: nat, t1: nat, t2: nat)
    requires x.Ok() && x.l.g.WellFormed() && sub.Valid(x.Cfg()) && WasBuilt(x, p, sub, y)
    requires IsBinary(x.l.g, r1, e, t1) && IsBinary(x.l.g, r2, e, t2) && NeverBefore(x, r1, e, t1, t2)
    requires sub.Form(x.Cfg()) == x.l.g.Rhs(r2)
    ensures !LeftIs(sub, r1)
  {
    hide Generated.Ok, Grammar.WellFormed, IsBinary, Grammar.Rhs, Grammar.Unpacked, InState, MayReduce, Go, GoAll,
         Forest.Form, AfterOperand;
    BinarySub(x, sub, r2, e, t2);
    if LeftIs(sub, r1) {
      NodeSub(x, sub);
      BinaryIs(x.l.g, r1, e, t1);
      assert sub.rest.Yield() == [t2] + sub.rest.rest.Yield();
      OperandPath(x, p, r1, e, t1);
    }
  }

  lemma BinaryIs(g: Grammar, r: nat, e: nat, t: nat)
    requires g.WellFormed() && IsBinary(g, r, e, t)
    ensures g.IsRule(r) && r >= 3 && g.Rhs(r) == [e, t, e]
  {}

  /** Then no operand of the other rule on the left is by this rule. */
  lemma {:induction false} LeftOperands(x: Generated, p: nat, d: Forest, y: int, r1: nat, r2: nat, e: nat, t1: nat,
                                        t2: nat)
    requires x.Ok() && x.l.g.WellFormed() && d.Valid(x.Cfg()) && WasBuilt(x, p, d, y)
    requires IsBinary(x.l.g, r1, e, t1) && IsBinary(x.l.g, r2, e, t2) && NeverBefore(x, r1, e, t1, t2)
    ensures NoLeft(d, r2, r1)
    decreases d
  {
    hide Generated.Ok, Grammar.WellFormed, IsBinary, Grammar.Rhs, Grammar.Unpacked, InState, MayReduce, MayShift, Go,
         GoAll, Coming, NeverBefore, LeftIs, Forest.Form;
    match d
    case Done =>
    case Tok(t, rest) => LeftOperands(x, Go(x.l.a, p, t), rest, y, r1, r2, e, t1, t2);
    case Var(r, sub, rest) =>
      LeftOperands(x, Go(x.l.a, p, x.l.g.rlhs[r]), rest, y, r1, r2, e, t1, t2);
      LeftOperands(x, p, sub, Coming(x, rest, y), r1, r2, e, t1, t2);
      if r == r2 && LeftIs(sub, r1) {
        NodeSub(x, d);
        NoSuchLeft(x, p, sub, Coming(x, rest, y), r1, r2, e, t1, t2);
        assert false;
      }
  }

  /** Of two operators in a row the first is applied first when its rule takes the second token,
      and the second when that token stands against the rule: in every derivation that a run builds,
      whatever else conflicts in the grammar. */
  lemma Groups(x: Generated, input: seq<int>, n: nat, r1: nat, r2: nat, e: nat, t1: nat, t2: nat)
    requires x.Ok() && x.l.g.WellFormed() && x.pr.Covers(x.l.g)
    requires IsBinary(x.l.g, r1, e, t1) && IsBinary(x.l.g, r2, e, t2)
    ensures |x.t.table| == |x.t.check| && |x.t.gindex| == |x.t.dgoto|
    ensures r1 < |x.pr.rprec| && t2 < |x.pr.symbolPrec|
    ensures var d := Built(x.t, x.value, input, Start(), Done, n);
            && (!TokenStands(x.pr, t2, r1) ==> NoRight(d, r1, r2))
            && (TokenStands(x.pr, t2, r1) && NeverTies(x.pr, t2) ==> NoLeft(d, r2, r1))
  {
    assert r1 < |x.pr.rprec| && t2 < |x.pr.symbolPrec| by { RuleCovered(x, r1, t2); }
    hide Generated.Ok, Grammar.WellFormed, IsBinary, Built, Run, WasBuilt, TokenStands, NeverTies, Inv;
    RunsAreSafe(x, input, n);
    RunBuilds(x, input, n);
    var c, d := Run(x.t, input, Start(), n), Built(x.t, x.value, input, Start(), Done, n);
    assert d.Valid(x.Cfg()) by { InvValid(x, input, c, d); }
    if !TokenStands(x.pr, t2, r1) {
      RightOperands(x, 0, d, c.yychar, r1, r2, e, t1, t2);
    } else if NeverTies(x.pr, t2) {
      StandingIsNever(x, r1, r2, e, t1, t2);
      LeftOperands(x, 0, d, c.yychar, r1, r2, e, t1, t2);
    }
  }

  lemma StandingIsNever(x: Generated, r1: nat, r2: nat, e: nat, t1: nat, t2: nat)
    requires x.Ok() && x.l.g.WellFormed() && IsBinary(x.l.g, r1, e, t1) && IsBinary(x.l.g, r2, e, t2)
    requires x.pr.Covers(x.l.g) && r1 < |x.pr.rprec| && t2 < |x.pr.symbolPrec|
    requires TokenStands(x.pr, t2, r1) && NeverTies(x.pr, t2)
    ensures NeverBefore(x, r1, e, t1, t2)
  {
    Sizes(x);
    hide Generated.Ok, Grammar.WellFormed, TokenStands, NeverTies, AfterOperand, MayReduce;
    assert t2 < x.l.g.ntokens;
    hide IsBinary;
    forall p: nat, q: nat | AfterOperand(x, p, r1, e, t1, q) ensures !MayReduce(x, q, r1, x.value[t2]) {
      NotReduced(x, p, r1, r2, e, t1, t2, q);
    }
  }

  lemma RuleCovered(x: Generated, r: nat, t: nat)
    requires x.l.g.WellFormed() && x.pr.Covers(x.l.g) && x.l.g.IsRule(r) && t < x.l.g.ntokens
    ensures r < |x.pr.rprec| && t < |x.pr.symbolPrec| && t < |x.pr.symbolAssoc|
  {}

  lemma InvValid(x: Generated, input: seq<int>, c: Config, d: Forest)
    requires x.l.g.WellFormed() && Inv(x, input, c, d)
    ensures d.Valid(x.Cfg())
  {}

  // ----- ties -----

  /** The same precedence, and the token groups to neither side. */
  predicate Tied(pr: Precedence, t: nat, r: nat)
    requires t < |pr.symbolPrec| && t < |pr.symbolAssoc| && r < |pr.rprec|
  {
    pr.symbolPrec[t] == pr.rprec[r] > 0 && !pr.symbolAssoc[t].LEFT? && !pr.symbolAssoc[t].RIGHT?
  }

  /** In a tie both actions are gone from the row; but the rule is still applied before the token
      when it is the state's default. */
  lemma TieLeaves(x: Generated, p: nat, r1: nat, r2: nat, e: nat, t1: nat, t2: nat, q: nat)
    requires x.Ok() && x.l.g.WellFormed() && AfterOperand(x, p, r1, e, t1, q) && IsBinary(x.l.g, r2, e, t2)
    requires x.pr.Covers(x.l.g) && r1 < |x.pr.rprec| && t2 < |x.pr.symbolPrec| && Tied(x.pr, t2, r1)
    ensures t2 < |x.value| && q < |x.p.defred| && !MayShift(x, q, t2)
    ensures MayReduce(x, q, r1, x.value[t2]) <==> x.p.defred[q] == r1
  {
    NotShifted(x, p, r1, r2, e, t1, t2, q);
    BinaryItems(x.l.g, r2, e, t2);
    Sizes(x);
    hide Generated.Ok, Lalr.Ok, Grammar.WellFormed, IsBinary, AfterOperand, ShiftsToken, Reduces, IsRowFor, AllFresh,
         Resolved, InOrder, IsSole, Live, IsDefault, MayShift;
    var u := BothActions(x, p, r1, r2, e, t1, t2, q);
    var was := RowBefore(x, q);
    var i, j := FindActions(x, q, was, t2, u, r1);
    NotOnToken(x, q, was, i, j);
    if k: nat :| k < |x.value| && x.value[k] == x.value[t2] && Live(x.p.rows[q], k, REDUCE, r1) {
      if k < t2 { ValuesDiffer(x, k, t2); }
      if t2 < k { ValuesDiffer(x, t2, k); }
    }
  }

  /** So operators in a tie are kept apart on both sides if the rule is no state's default, after its
      right operand; otherwise only on the right. */
  lemma TiedOperands(x: Generated, input: seq<int>, n: nat, r1: nat, r2: nat, e: nat, t1: nat, t2: nat)
    requires x.Ok() && x.l.g.WellFormed() && x.pr.Covers(x.l.g)
    requires IsBinary(x.l.g, r1, e, t1) && IsBinary(x.l.g, r2, e, t2)
    requires r1 < |x.pr.rprec| && t2 < |x.pr.symbolPrec| && Tied(x.pr, t2, r1)
    ensures |x.t.table| == |x.t.check| && |x.t.gindex| == |x.t.dgoto|
    ensures var d := Built(x.t, x.value, input, Start(), Done, n);
            && NoRight(d, r1, r2)
            && ((forall p: nat, q: nat :: AfterOperand(x, p, r1, e, t1, q) ==> !IsDefaultOf(x.p, q, r1)) ==>
                NoLeft(d, r2, r1))
  {
    assert !TokenStands(x.pr, t2, r1);
    hide *;
    Groups(x, input, n, r1, r2, e, t1, t2);
    if forall p: nat, q: nat :: AfterOperand(x, p, r1, e, t1, q) ==> !IsDefaultOf(x.p, q, r1) {
      RunsAreSafe(x, input, n);
      RunBuilds(x, input, n);
      var c, d := Run(x.t, input, Start(), n), Built(x.t, x.value, input, Start(), Done, n);
      assert d.Valid(x.Cfg()) by { InvValid(x, input, c, d); }
      TieIsNever(x, r1, r2, e, t1, t2);
      LeftOperands(x, 0, d, c.yychar, r1, r2, e, t1, t2);
    }
  }

  lemma TieIsNever(x: Generated, r1: nat, r2: nat, e: nat, t1: nat, t2: nat)
    requires x.Ok() && x.l.g.WellFormed() && x.pr.Covers(x.l.g)
    requires IsBinary(x.l.g, r1, e, t1) && IsBinary(x.l.g, r2, e, t2)
    requires r1 < |x.pr.rprec| && t2 < |x.pr.symbolPrec| && Tied(x.pr, t2, r1)
    requires forall p: nat, q: nat :: AfterOperand(x, p, r1, e, t1, q) ==> !IsDefaultOf(x.p, q, r1)
    ensures NeverBefore(x, r1, e, t1, t2)
  {
    hide Generated.Ok, Grammar.WellFormed, IsBinary, Tied, AfterOperand, MayShift, MayReduce;
    TokenFits(x, r2, e, t2);
    forall p: nat, q: nat | AfterOperand(x, p, r1, e, t1, q) ensures !MayReduce(x, q, r1, x.value[t2]) {
      TieLeaves(x, p, r1, r2, e, t1, t2, q);
    }
  }

  predicate IsDefaultOf(p: Parser, q: nat, r: nat) { q < |p.defred| && p.defred[q] == r }

  lemma TokenFits(x: Generated, r: nat, e: nat, t: nat)
    requires x.Ok() && x.l.g.WellFormed() && IsBinary(x.l.g, r, e, t)
    ensures t < |x.value|
  {
    Sizes(x);
  }

  // ----- chains of one operator -----

  /** e t e, of two trees. */
  ghost function Node(r: nat, t: nat, a: Forest, b: Forest): Forest { Var(r, a.Join(Tok(t, b)), Done) }

  predicate IsTree(d: Forest) { d.Var? && d.rest == Done }

  function Tree(d: Forest): Forest
    requires d.Var?
  {
    Var(d.rule, d.sub, Done)
  }

  /** The tree is by rule r, which is e t e. */
  predicate IsNode(d: Forest, r: nat, t: nat)
  {
    && IsTree(d) && d.rule == r && d.sub.Var? && d.sub.rest.Tok? && d.sub.rest.token == t
    && IsTree(d.sub.rest.rest)
  }

  lemma NodeSizes(d: Forest, r: nat, t: nat)
    ensures IsNode(d, r, t) ==> Tree(d.sub).Size() < d.Size() && d.sub.rest.rest.Size() < d.Size()
  {
    if IsNode(d, r, t) {
      var none: Forest := Done;
      assert none.Size() == 0;
      assert d.sub.Size() == d.sub.sub.Size() + 1 + d.sub.rest.Size();
      assert d.sub.rest.Size() == 1 + d.sub.rest.rest.Size();
    }
  }

  /** The operands of a chain of applications of rule r, from left to right. */
  ghost function Operands(d: Forest, r: nat, t: nat): (ops: seq<Forest>)
    ensures ops != []
    decreases d.Size()
  {
    NodeSizes(d, r, t);
    if IsNode(d, r, t) then Operands(Tree(d.sub), r, t) + Operands(d.sub.rest.rest, r, t) else [d]
  }

  /** The operands grouped from the left ... */
  ghost function FromLeft(r: nat, t: nat, ops: seq<Forest>): Forest
    requires ops != []
  {
    if |ops| == 1 then ops[0] else Node(r, t, FromLeft(r, t, ops[..|ops| - 1]), ops[|ops| - 1])
  }

  /** ... and from the right. */
  ghost function FromRight(r: nat, t: nat, ops: seq<Forest>): Forest
    requires ops != []
  {
    if |ops| == 1 then ops[0] else Node(r, t, ops[0], FromRight(r, t, ops[1..]))
  }

  lemma NodeIs(d: Forest, r: nat, t: nat)
    requires IsNode(d, r, t)
    ensures d == Node(r, t, Tree(d.sub), d.sub.rest.rest)
    ensures NoRight(d, r, r) ==> NoRight(Tree(d.sub), r, r) && !IsNode(d.sub.rest.rest, r, t)
    ensures NoLeft(d, r, r) ==> NoLeft(d.sub.rest.rest, r, r) && !IsNode(Tree(d.sub), r, t)
  {
    var more := d.sub.rest;
    var none: Forest := Done;
    assert none.Join(more) == more;
    assert Tree(d.sub).Join(more) == Var(d.sub.rule, d.sub.sub, none.Join(more));
    assert NoRight(d, r, r) ==> NoRight(d.sub, r, r) && NoRight(none, r, r);
    assert NoLeft(d, r, r) ==> NoLeft(d.sub, r, r) && NoLeft(more, r, r);
  }

  lemma {:induction false} ChainLeft(d: Forest, r: nat, t: nat)
    requires IsTree(d) && NoRight(d, r, r)
    ensures d == FromLeft(r, t, Operands(d, r, t))
    decreases d.Size()
  {
    if IsNode(d, r, t) {
      var left, right := Tree(d.sub), d.sub.rest.rest;
      NodeIs(d, r, t);
      NodeSizes(d, r, t);
      ChainLeft(left, r, t);
      var ops := Operands(left, r, t);
      assert Operands(right, r, t) == [right];
      assert (ops + [right])[..|ops|] == ops;
    }
  }

  lemma {:induction false} ChainRight(d: Forest, r: nat, t: nat)
    requires IsTree(d) && NoLeft(d, r, r)
    ensures d == FromRight(r, t, Operands(d, r, t))
    decreases d.Size()
  {
    if IsNode(d, r, t) {
      var left, right := Tree(d.sub), d.sub.rest.rest;
      NodeIs(d, r, t);
      NodeSizes(d, r, t);
      ChainRight(right, r, t);
      var ops := Operands(right, r, t);
      assert Operands(left, r, t) == [left];
      assert ([left] + ops)[1..] == ops;
    }
  }

  /** a t b t c either way. */
  lemma ThreeOperands(r: nat, t: nat, a: Forest, b: Forest, c: Forest)
    ensures FromLeft(r, t, [a, b, c]) == Node(r, t, Node(r, t, a, b), c)
    ensures FromRight(r, t, [a, b, c]) == Node(r, t, a, Node(r, t, b, c))
  {
    assert [a, b, c][..2] == [a, b] && [a, b][..1] == [a] && [a, b, c][1..] == [b, c] && [b, c][1..] == [c];
    assert FromLeft(r, t, [a, b]) == Node(r, t, a, b) && FromRight(r, t, [b, c]) == Node(r, t, b, c);
  }

  /** All trees of a derivation are grouped from the left. */
  ghost predicate AllFromLeft(d: Forest, r: nat, t: nat)
  {
    match d
    case Done => true
    case Tok(_, rest) => AllFromLeft(rest, r, t)
    case Var(_, sub, rest) =>
      && Tree(d) == FromLeft(r, t, Operands(Tree(d), r, t))
      && AllFromLeft(sub, r, t) && AllFromLeft(rest, r, t)
  }

  ghost predicate AllFromRight(d: Forest, r: nat, t: nat)
  {
    match d
    case Done => true
    case Tok(_, rest) => AllFromRight(rest, r, t)
    case Var(_, sub, rest) =>
      && Tree(d) == FromRight(r, t, Operands(Tree(d), r, t))
      && AllFromRight(sub, r, t) && AllFromRight(rest, r, t)
  }

  lemma {:induction false} AllChains(d: Forest, r: nat, t: nat)
    ensures NoRight(d, r, r) ==> AllFromLeft(d, r, t)
    ensures NoLeft(d, r, r) ==> AllFromRight(d, r, t)
  {
    hide FromLeft, FromRight, Operands;
    match d
    case Done =>
    case Tok(_, rest) => AllChains(rest, r, t);
    case Var(_, sub, rest) =>
      AllChains(sub, r, t);
      AllChains(rest, r, t);
      if NoRight(d, r, r) { ChainLeft(Tree(d), r, t); }
      if NoLeft(d, r, r) { ChainRight(Tree(d), r, t); }
  }

  /** A token that groups to the left, and one that groups to the right, in the rule that has the
      token's precedence: e t e t e ... is built from that side. */
  lemma OneOperator(x: Generated, input: seq<int>, n: nat, r: nat, e: nat, t: nat)
    requires x.Ok() && x.l.g.WellFormed() && x.pr.Covers(x.l.g) && IsBinary(x.l.g, r, e, t)
    requires r < |x.pr.rprec| && t < |x.pr.symbolPrec| && x.pr.symbolPrec[t] == x.pr.rprec[r] > 0
    ensures |x.t.table| == |x.t.check| && |x.t.gindex| == |x.t.dgoto| && t < |x.pr.symbolAssoc|
    ensures x.pr.symbolAssoc[t].LEFT? ==> AllFromLeft(Built(x.t, x.value, input, Start(), Done, n), r, t)
    ensures x.pr.symbolAssoc[t].RIGHT? ==> AllFromRight(Built(x.t, x.value, input, Start(), Done, n), r, t)
  {
    RuleCovered(x, r, t);
    hide Generated.Ok, Grammar.WellFormed, IsBinary, Built, AllFromLeft, AllFromRight, NoLeft, NoRight;
    Groups(x, input, n, r, r, e, t, t);
    AllChains(Built(x.t, x.value, input, Start(), Done, n), r, t);
  }
}
