/** main.c: the stages in the order in which yacc runs them, from the packed grammar to the
    tables, and what the tables are good for. */
module Yacc {
  import opened Automata
  import opened Bits
  import opened Cfgs
  import opened Completeness
  import opened Gotos
  import opened Grammars
  import opened Grouping
  import opened LR0
  import opened Language
  import opened LalrBuilder
  import opened Lookaheads
  import opened Mkpar
  import opened Output
  import opened Paths
  import opened Reader
  import opened RuleTables
  import opened Skeleton
  import opened Soundness
  import opened Termination
  import opened Vectors

  /** The rows and the tables come from the grammar's LALR(1) automaton. */
  ghost predicate IsOutput(g: Grammar, pr: Precedence, value: seq<nat>, p: Parser, t: Tables)
  {
    exists l: Lalr :: l.g == g && Generated(l, pr, p, value, t).Ok()
  }

  /** One of the fixed limits is in the way: there are too many states, too many gotos, or the
      packed table would be too large. */
  ghost predicate HitsLimit(g: Grammar, pr: Precedence, value: seq<nat>)
    requires g.WellFormed()
  {
    || LR0.ManyStates(g)
    || (exists a :: ManyGotos(g, a))
    || (exists l: Lalr, p: Parser :: l.g == g && BigTables(l, pr, p, value))
  }

  ghost predicate ManyGotos(g: Grammar, a: Automaton)
    requires g.WellFormed()
  {
    IsLR0(g, a) && GotosOf(g, a, |a.shifts|) > LR0.MAXSHORT
  }

  ghost predicate BigTables(l: Lalr, pr: Precedence, p: Parser, value: seq<nat>)
  {
    l.Ok() && IsParser(l, pr, p) && TablesTooBig(l, p, value)
  }

  /** reader() has left the packed grammar, the precedences and the token numbers; fatal means
      that one of the fixed limits was hit. */
  method Generate(g: Grammar, pr: Precedence, value: seq<nat>) returns (fatal: bool, p: Parser, t: Tables)
    requires g.WellFormed() && pr.Covers(g) && AreTokenValues(g, value)
    ensures fatal ==> HitsLimit(g, pr, value)
    ensures !fatal ==> IsOutput(g, pr, value, p, t) && AreTotals(p)
  {
    hide Grammar.WellFormed, IsLR0, IsGotoMap, IsDerives, IsParser, AreTokenValues, Agree, HoldsLookaheads, IsRowMap,
         BitMatrix.Value, DerivesEmpty, AreTotals, GotosOf, TablesTooBig, LR0.ManyStates;
    p := Parser([], [], 0, 0, 0);
    t := Tables([], [], [], [], [], [], [], [], [], 0);
    var derives := SetDerives(g);
    var nullable := SetNullable(g);
    var a;
    fatal, a := GenerateStates(g, derives);
    if fatal {
      return;
    }
    var m;
    fatal, m := SetGotoMap(g, a);
    if fatal {
      assert ManyGotos(g, a);
      return;
    }
    var l := Lalr(g, a, m);
    var start, ruleno, LA := BuildLookaheads(l, derives, nullable);
    p := MakeParser(l, pr, start, ruleno, LA);
    fatal, t := OutputTables(l, pr, p, value);
    if fatal {
      assert BigTables(l, pr, p, value);
    } else {
      assert Generated(l, pr, p, value, t).Ok();
    }
  }

  /** The generated parser only accepts sentences of the grammar, and never leaves its tables
      or its stack, however the conflicts were resolved. */
  lemma ParserIsSound(g: Grammar, pr: Precedence, value: seq<nat>, p: Parser, t: Tables, input: seq<int>, n: nat)
    requires g.WellFormed() && IsOutput(g, pr, value, p, t)
    ensures |t.table| == |t.check| && |t.gindex| == |t.dgoto|
    ensures Run(t, input, Start(), n).outcome != Broken
    ensures Run(t, input, Start(), n).outcome == Accepted ==> IsSentence(g, value, input)
  {
    hide Grammar.WellFormed, IsSentence, Run, Inv, Generated.Ok;
    var l: Lalr :| l.g == g && Generated(l, pr, p, value, t).Ok();
    var x := Generated(l, pr, p, value, t);
    RunsAreSafe(x, input, n);
    AcceptedIsSentence(x, input, n);
  }

  /** When no action was suppressed, the parser accepts all of them. */
  lemma ParserIsComplete(g: Grammar, pr: Precedence, value: seq<nat>, p: Parser, t: Tables, input: seq<int>)
    requires g.WellFormed() && IsOutput(g, pr, value, p, t) && Unsuppressed(p)
    ensures |t.table| == |t.check| && |t.gindex| == |t.dgoto|
    ensures IsSentence(g, value, input) <==> exists n: nat :: Run(t, input, Start(), n).outcome == Accepted
  {
    hide Grammar.WellFormed, IsSentence, Run, Unsuppressed, Generated.Ok;
    var l: Lalr :| l.g == g && Generated(l, pr, p, value, t).Ok();
    AcceptsExactlySentences(Generated(l, pr, p, value, t), input);
  }

  /** The final state's row has no action on the end marker, where the parser accepts. */
  ghost predicate EndUnused(p: Parser)
  {
    p.final < |p.rows| && forall k :: 0 <= k < |p.rows[p.final]| ==> p.rows[p.final][k].symbol != 0
  }

  /** What the rows show of the accept action. */
  lemma EndUnusedIs(x: Generated)
    requires x.Ok() && x.l.g.WellFormed()
    ensures EndUnused(x.p) <==> EndIsFree(x.l, x.p.final)
  {
    Parts(x);
    Sizes(x);
    FinalFits(x);
    RowFacts(x, x.p.final);
    var row := x.p.rows[x.p.final];
    hide Generated.Ok, Lalr.Ok, Grammar.WellFormed, IsLR0, Reduces, Shift, AtMostOne, IsDefault, InOrder;
    if k :| 0 <= k < |row| && row[k].symbol == 0 {
      HasOwn(row, k);
      if row[k].code.SHIFT? {
        assert ShiftsToken(x.l, x.p.final, 0, row[k].number);
        ShiftKernel(x.l.g, x.l.a, x.p.final, 0, row[k].number);
      }
      assert Reduces(x.l, x.p.final, row[k].number, 0);
    }
    if r: nat :| Reduces(x.l, x.p.final, r, 0) {
      assert Mkpar.Has(row, 0, REDUCE, r);
      var k :| 0 <= k < |row| && IsAction(row[k], 0, REDUCE, r);
    }
  }

  lemma FinalFits(x: Generated)
    requires x.Ok()
    ensures x.p.final < |x.l.a.cores|
  {
    hide Grammar.WellFormed, IsLR0, IsGotoMap, IsRowFor, AtMostOne, IsResolved, IsDefault, Agree, AreTokenValues;
  }

  /** When nothing was suppressed and the end marker is left to accepting, the grammar is
      unambiguous ... */
  lemma GrammarIsUnambiguous(g: Grammar, pr: Precedence, value: seq<nat>, p: Parser, t: Tables, w: seq<nat>, d: Forest,
                             e: Forest)
    requires g.WellFormed() && IsOutput(g, pr, value, p, t) && Unsuppressed(p) && EndUnused(p)
    requires IsDerivation(g, d, w) && IsDerivation(g, e, w)
    ensures d == e
  {
    hide Grammar.WellFormed, Unsuppressed, Generated.Ok, IsDerivation, EndUnused;
    var l: Lalr :| l.g == g && Generated(l, pr, p, value, t).Ok();
    var x := Generated(l, pr, p, value, t);
    EndUnusedIs(x);
    OneDerivation(x, w, d, e);
  }

  /** ... and, if every variable derives something, the parser decides the language: it accepts
      every sentence, and stops with a syntax error on everything else. */
  lemma ParserDecides(g: Grammar, pr: Precedence, value: seq<nat>, p: Parser, t: Tables, input: seq<int>)
    returns (n: nat)
    requires g.WellFormed() && IsOutput(g, pr, value, p, t) && Unsuppressed(p) && EndUnused(p) && Productive(g)
    ensures |t.table| == |t.check| && |t.gindex| == |t.dgoto|
    ensures Run(t, input, Start(), n).outcome == if IsSentence(g, value, input) then Accepted else Rejected
  {
    hide Grammar.WellFormed, IsSentence, Run, Unsuppressed, Generated.Ok, Productive, EndUnused, EndIsFree;
    var l: Lalr :| l.g == g && Generated(l, pr, p, value, t).Ok();
    var x := Generated(l, pr, p, value, t);
    EndUnusedIs(x);
    n := Decides(x, input);
  }

  /** Precedences decide which of two operators is applied first. */
  lemma ParserGroups(g: Grammar, pr: Precedence, value: seq<nat>, p: Parser, t: Tables, input: seq<int>, n: nat,
                     r1: nat, r2: nat, e: nat, t1: nat, t2: nat)
    requires g.WellFormed() && IsOutput(g, pr, value, p, t) && pr.Covers(g)
    requires IsBinary(g, r1, e, t1) && IsBinary(g, r2, e, t2)
    ensures |t.table| == |t.check| && |t.gindex| == |t.dgoto|
    ensures r1 < |pr.rprec| && t2 < |pr.symbolPrec|
    ensures var d := Built(t, value, input, Start(), Done, n);
            && (!TokenStands(pr, t2, r1) ==> NoRight(d, r1, r2))
            && (TokenStands(pr, t2, r1) && NeverTies(pr, t2) ==> NoLeft(d, r2, r1))
  {
    hide Grammar.WellFormed, Generated.Ok, IsBinary, TokenStands, NeverTies, NoLeft, NoRight, Built;
    var l: Lalr :| l.g == g && Generated(l, pr, p, value, t).Ok();
    Groups(Generated(l, pr, p, value, t), input, n, r1, r2, e, t1, t2);
  }

  // ----- from the symbols and rules that were read -----

  /** pack_symbols and pack_grammar, and then all the stages. */
  method GenerateFrom(s: Source, pitem: seq<int>)
    returns (fatal: bool, g: Grammar, pr: Precedence, value: seq<nat>, p: Parser, t: Tables)
    requires s.Valid() && IsItems(pitem, s.rules) && NumbersAreGood(s)
    ensures g.WellFormed() && IsPacked(s, g)
    ensures pr.Covers(g) && HasNumbers(s, pr, value) && RulePrecs(s, pr.rprec, pr.rassoc, |s.rules|)
    ensures if fatal then HitsLimit(g, pr, value) else IsOutput(g, pr, value, p, t) && AreTotals(p)
  {
    hide Source.Valid, Grammar.WellFormed, IsPacked, IsOutput, HitsLimit, ByNumber, ValuesTo, FixedDiffer,
         AreTokenValues, IsItems, RulePrecs, AreTotals;
    var values;
    g, pr, values := Pack(s, pitem);
    PackedIsWellFormed(s, g);
    ghost var decl :| ByNumber(s, decl, pr.symbolPrec, pr.symbolAssoc) && ValuesTo(decl, values, |decl|);
    PackedSizes(s, g);
    GoodNumbers(s, pr, decl, values);
    ValuesAreTokenValues(s, g, decl, pr.symbolPrec, pr.symbolAssoc, values);
    value := values;
    fatal, p, t := Generate(g, pr, value);
  }

  lemma PackedSizes(s: Source, g: Grammar)
    requires IsPacked(s, g)
    ensures g.ntokens == s.NTokens() && s.Valid()
  {}

  /** From the input to the parser: reading the tokens by the numbers that the input calls for, it
      accepts nothing but what the rules derive from the goal; with nothing suppressed it accepts
      all of that. */
  lemma RecognisesSource(s: Source, g: Grammar, pr: Precedence, value: seq<nat>, p: Parser, t: Tables,
                         number: seq<int>, input: seq<int>)
    requires IsPacked(s, g) && g.WellFormed() && HasNumbers(s, pr, value) && IsOutput(g, pr, value, p, t)
    requires AreReadAs(s, number)
    ensures |t.table| == |t.check| && |t.gindex| == |t.dgoto|
    ensures forall n: nat :: Run(t, input, Start(), n).outcome == Accepted ==> IsSourceSentence(s, number, input)
    ensures Unsuppressed(p) && IsSourceSentence(s, number, input) ==>
              exists n: nat :: Run(t, input, Start(), n).outcome == Accepted
  {
    hide IsPacked, Grammar.WellFormed, IsOutput, IsSentence, IsSourceSentence, Run, Unsuppressed, Source.Valid,
         HasNumbers, ReadAs, AreReadAs;
    PackedSizes(s, g);
    NumbersAreRight(s, pr, value);
    SameLanguage(s, g, value, input);
    SameReading(s, ReadAs(s, value), number, input);
    ParserIsSound(g, pr, value, p, t, input, 0);
    forall n: nat | Run(t, input, Start(), n).outcome == Accepted ensures IsSourceSentence(s, number, input) {
      ParserIsSound(g, pr, value, p, t, input, n);
    }
    if Unsuppressed(p) { ParserIsComplete(g, pr, value, p, t, input); }
  }

  // ----- what the input's precedences do -----

  /** The i-th rule is v : v o v, with o a terminal. */
  predicate IsOperatorRule(s: Source, i: nat, v: nat, o: nat)
  {
    && i < |s.rules| && s.rules[i].lhs == v && s.rules[i].rhs == [v, o, v]
    && v < |s.symbols| && !s.symbols[v].isTerm && o < |s.symbols| && s.symbols[o].isTerm
  }

  /** That of %prec, or of the operator. */
  function PrecedenceOfRule(s: Source, i: nat, o: nat): int
    requires i < |s.rules| && o < |s.symbols|
  {
    if s.rules[i].prec == UNDEFINED then s.symbols[o].prec else s.rules[i].prec
  }

  /** The operator o, coming behind the rule, leaves it to be applied first. */
  predicate YieldsTo(s: Source, o: nat, prec: int)
    requires o < |s.symbols|
  {
    s.symbols[o].prec > 0 && prec > 0 &&
    (prec > s.symbols[o].prec || (prec == s.symbols[o].prec && !s.symbols[o].assoc.RIGHT?))
  }

  /** Of two operators in a row, whatever the grammar around them: in the derivations that the parser
      builds the rule of the first one never has what the second one makes on its right when the
      second yields to it; and otherwise the rule of the second one never has what the first one
      makes on its left, unless the second may be in a tie. */
  lemma OperatorsGroup(s: Source, g: Grammar, pr: Precedence, value: seq<nat>, p: Parser, t: Tables, input: seq<int>,
                       n: nat, i1: nat, i2: nat, v: nat, o1: nat, o2: nat)
    requires IsPacked(s, g) && g.WellFormed() && pr.Covers(g) && HasNumbers(s, pr, value)
    requires RulePrecs(s, pr.rprec, pr.rassoc, |s.rules|) && IsOutput(g, pr, value, p, t)
    requires IsOperatorRule(s, i1, v, o1) && IsOperatorRule(s, i2, v, o2)
    ensures i1 < |s.rules| && o1 < |s.symbols| && o2 < |s.symbols| && |t.table| == |t.check| && |t.gindex| == |t.dgoto|
    ensures var d, over := Built(t, value, input, Start(), Done, n), YieldsTo(s, o2, PrecedenceOfRule(s, i1, o1));
            && (over ==> NoRight(d, i1 + 3, i2 + 3))
            && (!over && (s.symbols[o2].prec <= 0 || s.symbols[o2].assoc.LEFT? || s.symbols[o2].assoc.RIGHT?) ==>
                NoLeft(d, i2 + 3, i1 + 3))
  {
    hide *;
    PackedSizes(s, g);
    OperatorFits(s, i1, v, o1);
    assert o2 < |s.symbols| by { OperatorFits(s, i2, v, o2); }
    PackedOperator(s, g, i1, v, o1);
    PackedOperator(s, g, i2, v, o2);
    StandsIs(s, pr, value, i1, v, o1, o2);
    ParserGroups(g, pr, value, p, t, input, n, i1 + 3, i2 + 3, IndexOf(s, v), IndexOf(s, o1), IndexOf(s, o2));
  }

  lemma OperatorFits(s: Source, i: nat, v: nat, o: nat)
    requires IsOperatorRule(s, i, v, o)
    ensures i < |s.rules| && v < |s.symbols| && o < |s.symbols|
  {}

  lemma StandsIs(s: Source, pr: Precedence, value: seq<nat>, i: nat, v: nat, o: nat, o2: nat)
    requires s.Valid() && HasNumbers(s, pr, value) && RulePrecs(s, pr.rprec, pr.rassoc, |s.rules|)
    requires IsOperatorRule(s, i, v, o) && o2 < |s.symbols|
    ensures i + 3 < |pr.rprec| && IndexOf(s, o2) < |pr.symbolPrec| && IndexOf(s, o2) < |pr.symbolAssoc|
    ensures YieldsTo(s, o2, PrecedenceOfRule(s, i, o)) <==> !TokenStands(pr, IndexOf(s, o2), i + 3)
    ensures s.symbols[o2].prec <= 0 || s.symbols[o2].assoc.LEFT? || s.symbols[o2].assoc.RIGHT? <==>
            NeverTies(pr, IndexOf(s, o2))
  {
    hide HasNumbers, RulePrecs, IndexOf, Source.Valid, PrecedenceOfRule;
    PrecedenceOf(s, pr, value, o2);
    PrecedenceOfPacked(s, pr, i, v, o);
  }

  lemma PackedOperator(s: Source, g: Grammar, i: nat, v: nat, o: nat)
    requires IsPacked(s, g) && g.WellFormed() && IsOperatorRule(s, i, v, o)
    ensures IsBinary(g, i + 3, IndexOf(s, v), IndexOf(s, o))
  {
    PackedIs(s, g);
    PackedFacts(s, g, i);
    RenamedIs(s, i);
    hide Source.Valid, IndexOf, Grammar.WellFormed, Grammar.Unpacked, Renamed, IsPacked;
    g.UnpackedRule(i + 3);
    hide Grammar.Rhs;
    PackedSizes(s, g);
    IndexRange(s, o);
    assert Numbers(s, [v, o, v]) == [IndexOf(s, v), IndexOf(s, o), IndexOf(s, v)];
  }

  lemma PrecedenceOfPacked(s: Source, pr: Precedence, i: nat, v: nat, o: nat)
    requires s.Valid() && RulePrecs(s, pr.rprec, pr.rassoc, |s.rules|) && IsOperatorRule(s, i, v, o)
    ensures i + 3 < |pr.rprec| && pr.rprec[i + 3] == PrecedenceOfRule(s, i, o)
  {
    assert RulePrecAt(s, pr.rprec, pr.rassoc, i);
    hide RulePrecs, Source.Valid;
    LastTokenCounts(s.symbols, s.rules[i].rhs, 1);
    hide RulePrec;
  }
}
