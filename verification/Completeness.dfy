/** When no action has been suppressed, the generated parser accepts every sentence. */
module Completeness {
  import opened Automata
  import opened Cfgs
  import opened Gotos
  import opened Grammars
  import opened Items
  import opened Lookaheads
  import opened Mkpar
  import opened Output
  import opened Packing
  import opened Paths
  import opened RuleTables
  import opened Skeleton
  import opened Soundness
  import opened Vectors

  // ----- lookaheads and derivations -----

  /** A variable whose rule's right side yields nothing derives the empty string. */
  lemma EmptyRule(g: Grammar, r: nat, sub: Forest)
    requires g.WellFormed() && g.IsRule(r) && sub.Valid(g.Unpacked()) && sub.Form(g.Unpacked()) == g.Rhs(r) &&
             sub.Yield() == []
    ensures DerivesEmpty(g, g.rlhs[r])
  {
    hide Grammar.WellFormed, Grammar.Unpacked, Grammar.Rhs;
    g.UnpackedRule(r);
    var c := g.Unpacked();
    var d := Var(r, sub, Done);
    assert Done.Valid(c) && Done.Form(c) == [] && Done.Yield() == [];
    assert d.Valid(c);
    assert d.Form(c) == [g.rlhs[r]] + [] && d.Yield() == [] + [];
    assert [g.rlhs[r]] + [] == [g.rlhs[r]];
  }

  lemma {:induction false} EmptyParts(l: Lalr, e: Forest)
    requires l.g.WellFormed() && e.Valid(l.g.Unpacked()) && e.Yield() == []
    ensures l.AllDeriveEmpty(e.Form(l.g.Unpacked()))
  {
    hide Grammar.WellFormed, Grammar.Unpacked, DerivesEmpty;
    var c := l.g.Unpacked();
    match e
    case Done =>
    case Tok(t, rest) =>
    case Var(r, sub, rest) =>
      assert |e.Yield()| == |sub.Yield()| + |rest.Yield()|;
      EmptyParts(l, rest);
      RuleForm(l.g, r, sub, rest);
      EmptyRule(l.g, r, sub);
      assert e.Form(c) == [l.g.rlhs[r]] + rest.Form(c);
  }

  /** What a valid derivation that starts with a variable looks like in the packed grammar. */
  lemma RuleForm(g: Grammar, r: nat, sub: Forest, rest: Forest)
    requires g.WellFormed() && Var(r, sub, rest).Valid(g.Unpacked())
    ensures g.IsRule(r) && sub.Valid(g.Unpacked()) && rest.Valid(g.Unpacked()) && sub.Form(g.Unpacked()) == g.Rhs(r)
    ensures Var(r, sub, rest).Form(g.Unpacked()) == [g.rlhs[r]] + rest.Form(g.Unpacked())
  {
    hide Grammar.WellFormed, Grammar.Rhs;
    g.UnpackedRule(r);
  }

  /** The derivation e continues rule r at symbol k in the state that goto j leads to: the first
      token it yields is one that can be read after the goto. */
  lemma {:induction false} FirstRead(l: Lalr, j: nat, e: Forest, r: nat, k: nat)
    requires l.Ok() && l.IsGoto(j) && e.Valid(l.g.Unpacked()) && l.g.IsRule(r) && r >= 3 && k <= |l.g.Rhs(r)|
    requires e.Form(l.g.Unpacked()) == l.g.Rhs(r)[k..] && InState(l.g, l.a, l.m.to[j], l.g.rrhs[r] + k) &&
             e.Yield() != []
    ensures l.Read(j, e.Yield()[0])
    decreases e
  {
    hide Lalr.Ok, Grammar.WellFormed, IsLR0, IsGotoMap, Grammar.Rhs, Grammar.Unpacked, Lalr.Read, Lalr.ReadsGoto,
         Lalr.DirectRead, InState, Shift, DerivesEmpty;
    LalrParts(l);
    match e
    case Tok(t, rest) =>
      assert l.g.Rhs(r)[k..][0] == t;
      UnpackedTokens(l.g);
      TokenRead1(l, j, r, k);
    case Var(q, sub, rest) =>
      RuleForm(l.g, q, sub, rest);
      SplitForm(l.g, r, k, l.g.rlhs[q], rest.Form(l.g.Unpacked()));
      var j2 := VariableNext(l, j, r, k, q);
      if sub.Yield() != [] {
        assert l.g.Rhs(q)[0..] == l.g.Rhs(q);
        FirstRead(l, j, sub, q, 0);
        assert e.Yield()[0] == sub.Yield()[0];
      } else {
        EmptyRule(l.g, q, sub);
        FirstRead(l, j2, rest, r, k + 1);
        assert e.Yield() == rest.Yield();
        l.ReadSolves(j, j2, e.Yield()[0]);
      }
  }

  /** A token after the dot is read directly. */
  lemma TokenRead1(l: Lalr, j: nat, r: nat, k: nat)
    requires l.Ok() && l.IsGoto(j) && l.g.IsRule(r) && r >= 3 && k < |l.g.Rhs(r)| && l.g.Rhs(r)[k] < l.g.ntokens
    requires InState(l.g, l.a, l.m.to[j], l.g.rrhs[r] + k)
    ensures l.Read(j, l.g.Rhs(r)[k])
  {
    hide Lalr.Ok, Grammar.WellFormed, IsLR0, Grammar.Rhs, Lalr.Read, InState, Shift;
    LalrParts(l);
    RuleSymbol(l.g, r, k);
    var u := ShiftExists(l.g, l.a, l.m.to[j], l.g.rrhs[r] + k);
    assert l.DirectRead(j, l.g.Rhs(r)[k]);
    l.ReadSolves(j, j, l.g.Rhs(r)[k]);
  }

  /** A variable after the dot: its rules are predicted, and there is a goto over it, which the
      goto before reads when the variable derives the empty string. */
  lemma VariableNext(l: Lalr, j: nat, r: nat, k: nat, q: nat) returns (j2: nat)
    requires l.Ok() && l.IsGoto(j) && l.g.IsRule(r) && r >= 3 && k < |l.g.Rhs(r)| && l.g.IsRule(q) &&
             l.g.Rhs(r)[k] == l.g.rlhs[q]
    requires InState(l.g, l.a, l.m.to[j], l.g.rrhs[r] + k)
    ensures q >= 3 && InState(l.g, l.a, l.m.to[j], l.g.rrhs[q])
    ensures l.IsGoto(j2) && InState(l.g, l.a, l.m.to[j2], l.g.rrhs[r] + k + 1)
    ensures DerivesEmpty(l.g, l.g.rlhs[q]) ==> l.ReadsGoto(j, j2) && l.Reads()(j, j2)
  {
    hide Lalr.Ok, Grammar.WellFormed, IsLR0, Grammar.Rhs, InState, Shift, DerivesEmpty;
    LalrParts(l);
    var i, s := l.g.rrhs[r] + k, l.m.to[j];
    RuleSymbol(l.g, r, k);
    l.g.RuleFacts(q);
    RuleStarts(l.g, l.a, s, i, q);
    var t := ShiftExists(l.g, l.a, s, i);
    ShiftMoves(l.g, l.a, s, l.g.rlhs[q], t, i);
    j2 := l.GotoOf(s, l.g.rlhs[q], t);
  }

  lemma LalrParts(l: Lalr)
    requires l.Ok()
    ensures l.g.WellFormed() && IsLR0(l.g, l.a)
  {}

  lemma UnpackedTokens(g: Grammar)
    requires g.WellFormed()
    ensures g.Unpacked().ntokens == g.ntokens
  {}

  /** The symbol at k of a rule, and what is left after it. */
  lemma SplitForm(g: Grammar, r: nat, k: nat, x: nat, rest: seq<nat>)
    requires g.WellFormed() && g.IsRule(r) && k <= |g.Rhs(r)| && g.Rhs(r)[k..] == [x] + rest
    ensures k < |g.Rhs(r)| && g.Rhs(r)[k] == x && g.Rhs(r)[k + 1..] == rest
  {
    hide Grammar.WellFormed, Grammar.Rhs;
    var s := g.Rhs(r);
    assert s[k..][0] == x && s[k..][1..] == rest && s[k..][1..] == s[k + 1..];
  }

  /** Rule r is applied at goto j, and goto i is made at its symbol k: what comes next can
      follow goto i, be it the first token of the rest of the rule or, when the rest yields
      nothing, the token after the rule. */
  lemma NextFollows(l: Lalr, j: nat, r: nat, k: nat, i: nat, rest: Forest, t: nat)
    requires l.Ok() && l.IsGoto(i) && l.IsGoto(j) && l.g.IsRule(r) && r >= 3 && k < |l.g.Rhs(r)|
    requires l.Sym(j) == l.g.rlhs[r] && Spells(l.a, l.m.from[j], l.g.Rhs(r)[..k], l.m.from[i]) &&
             l.g.Rhs(r)[k] == l.Sym(i)
    requires InState(l.g, l.a, l.m.to[i], l.g.rrhs[r] + k + 1)
    requires rest.Valid(l.g.Unpacked()) && rest.Form(l.g.Unpacked()) == l.g.Rhs(r)[k + 1..] && l.Follow(j, t)
    ensures l.Follow(i, if rest.Yield() == [] then t else rest.Yield()[0])
  {
    hide Lalr.Ok, Grammar.WellFormed, IsLR0, IsGotoMap, Grammar.Rhs, Grammar.Unpacked, Lalr.Read, Lalr.Follow, InState,
         Spells;
    LalrParts(l);
    if rest.Yield() == [] {
      EmptyParts(l, rest);
      assert l.IncludesBy(i, j, r, k);
      assert l.IncludesGoto(i, j);
      l.FollowSolves(i, j, t);
    } else {
      FirstRead(l, i, rest, r, k + 1);
      l.FollowSolves(i, i, rest.Yield()[0]);
    }
  }

  // ----- single steps -----

  /** No conflict has suppressed anything. */
  ghost predicate Unsuppressed(p: Parser)
  {
    forall s :: 0 <= s < |p.rows| ==> forall k :: 0 <= k < |p.rows[s]| ==> p.rows[s][k].suppressed == 0
  }

  lemma HasIsLive(p: Parser, s: nat, x: nat, c: Code, n: nat)
    requires Unsuppressed(p) && s < |p.rows| && Has(p.rows[s], x, c, n)
    ensures Live(p.rows[s], x, c, n)
  {
    var row := p.rows[s];
    var k :| 0 <= k < |row| && IsAction(row[k], x, c, n);
    assert row[k].suppressed == 0;
  }

  /** Token n of the input, 0 at the end. */
  function TokenAt(w: seq<nat>, n: nat): nat { if n < |w| then w[n] else 0 }

  lemma TokenRead(x: Generated, input: seq<int>, w: seq<nat>, n: nat)
    requires x.Ok() && IsInput(x.value, input, w) && n <= |w|
    ensures TokenAt(w, n) < |x.value| && Lex(input, n) == x.value[TokenAt(w, n)]
  {
    hide Lalr.Ok, IsParser, Agree;
  }

  /** The parser is running in state p with the first n tokens shifted. */
  ghost predicate Here(input: seq<int>, c: Config, n: nat, p: nat)
  {
    c.outcome == Running && c.stack != [] && c.stack[|c.stack| - 1] == p && Ahead(input, c, n)
  }

  lemma ShiftStep(x: Generated, input: seq<int>, w: seq<nat>, c: Config, n: nat, p: nat, u: nat)
    requires x.Ok() && Unsuppressed(x.p) && IsInput(x.value, input, w) && Here(input, c, n, p)
    requires n < |w| && w[n] < x.l.g.ntokens && Shift(x.l.a, p, w[n], u)
    ensures |x.t.table| == |x.t.check| && |x.t.gindex| == |x.t.dgoto|
    ensures Step(x.t, input, c) == Config(c.stack + [u], YYEMPTY, n + 1, Running)
    ensures forall d :: Next(x.t, x.value, input, c, d) == d.Join(Tok(w[n], Done))
  {
    hide Generated.Ok, Lalr.Ok, Grammar.WellFormed, IsLR0, Unsuppressed, IsInput, Reduce, Has, Lookup, IsRowFor,
         TokenOf;
    Parts(x);
    Sizes(x);
    TablesSay(x);
    RowFacts(x, p);
    TokenRead(x, input, w, n);
    ReadAhead(input, c, n);
    RowShifts(x, p, w[n], u);
    HasIsLive(x.p, p, w[n], SHIFT, u);
    assert ShiftEntry(x.p.rows[p], x.value, x.value[w[n]], u);
    assert Lookup(x.t.sindex[p], x.t.table, x.t.check, Lex(input, n)) == Some(u);
    NoDefault(x, p, w[n], u);
    TokenIs(x, w[n]);
  }

  lemma RowShifts(x: Generated, p: nat, j: nat, u: nat)
    requires x.l.g.WellFormed() && p < |x.p.rows| && IsRowFor(x.l, p, x.p.rows[p])
    ensures j < x.l.g.ntokens && Shift(x.l.a, p, j, u) ==> Has(x.p.rows[p], j, SHIFT, u)
    ensures forall r: nat :: Reduces(x.l, p, r, j) ==> Has(x.p.rows[p], j, REDUCE, r)
  {
    hide Grammar.WellFormed, Has, InOrder;
    assert ShiftsToken(x.l, p, j, u) ==> Has(x.p.rows[p], j, SHIFT, u);
  }

  lemma DefaultIs(x: Generated, p: nat)
    requires x.Ok() && p < |x.p.rows|
    ensures |x.t.defred| == |x.p.defred| == |x.p.rows|
    ensures x.t.defred[p] == OutputRule(x.p.defred[p]) && (x.p.defred[p] != 0 ==> IsSole(x.p.rows[p], x.p.defred[p]))
  {
    hide Lalr.Ok, AreTokenValues, RowsAgree, GotosAgree, RuleData, IsRowFor, AtMostOne, IsResolved;
    assert IsDefault(x.p.rows[p], x.p.defred[p]);
  }

  /** A state that can shift has no default reduction. */
  lemma NoDefault(x: Generated, p: nat, j: nat, u: nat)
    requires x.Ok() && p < |x.p.rows| && Live(x.p.rows[p], j, SHIFT, u)
    ensures p < |x.t.defred| && x.t.defred[p] == 0
  {
    DefaultIs(x, p);
    hide Generated.Ok;
    var k :| 0 <= k < |x.p.rows[p]| && x.p.rows[p][k].suppressed == 0 && IsAction(x.p.rows[p][k], j, SHIFT, u);
  }

  /** A default reduction is the one that the state has on every token. */
  lemma DefaultOnly(x: Generated, p: nat, j: nat, r: nat)
    requires x.Ok() && p < |x.p.rows| && Live(x.p.rows[p], j, REDUCE, r) && r >= 3
    ensures |x.t.defred| == |x.p.defred| == |x.p.rows| && x.t.defred[p] == OutputRule(x.p.defred[p])
    ensures x.t.defred[p] != 0 ==> x.t.defred[p] == r - 2
    ensures x.t.defred[p] == 0 ==> x.p.defred[p] != r
  {
    DefaultIs(x, p);
    hide Generated.Ok;
    var k :| 0 <= k < |x.p.rows[p]| && x.p.rows[p][k].suppressed == 0 && IsAction(x.p.rows[p][k], j, REDUCE, r);
  }

  lemma OneAction(row: seq<Action>, x: nat, r: nat, u: nat)
    requires AtMostOne(row) && Live(row, x, REDUCE, r)
    ensures !Live(row, x, SHIFT, u)
  {
    var k :| 0 <= k < |row| && row[k].suppressed == 0 && IsAction(row[k], x, REDUCE, r);
    assert forall m :: 0 <= m < |row| && row[m].suppressed == 0 && row[m].symbol == x ==> m == k;
  }

  /** No shift is found for a token on which the state reduces. */
  lemma ShiftMissing(x: Generated, p: nat, j: nat, r: nat)
    requires x.Ok() && p < |x.l.a.cores| && p < |x.p.rows| && p < |x.t.sindex| && |x.t.table| == |x.t.check|
    requires Live(x.p.rows[p], j, REDUCE, r) && j < |x.value|
    ensures Lookup(x.t.sindex[p], x.t.table, x.t.check, x.value[j]).None?
  {
    var found := Lookup(x.t.sindex[p], x.t.table, x.t.check, x.value[j]);
    hide Generated.Ok, Grammar.WellFormed, Lookup, Live;
    TablesSay(x);
    RowFacts(x, p);
    if found.Some? {
      assert ShiftEntry(x.p.rows[p], x.value, x.value[j], found.value);
      var i: nat, n: nat :| i < |x.value| && x.value[i] == x.value[j] && n == found.value &&
        Live(x.p.rows[p], i, SHIFT, n);
      if i < j { ValuesDiffer(x, i, j); }
      if j < i { ValuesDiffer(x, j, i); }
      OneAction(x.p.rows[p], j, r, n);
    }
  }

  /** On a lookahead of rule r the parser reduces by it, by default or by the table. */
  lemma ReduceStep(x: Generated, input: seq<int>, w: seq<nat>, c: Config, n: nat, q: nat, r: nat) returns (c1: Config)
    requires x.Ok() && Unsuppressed(x.p) && IsInput(x.value, input, w) && Here(input, c, n, q) && n <= |w|
    requires Reduces(x.l, q, r, TokenAt(w, n)) && r >= 3
    ensures |x.t.table| == |x.t.check| && |x.t.gindex| == |x.t.dgoto|
    ensures Here(input, c1, n, q) && c1.stack == c.stack && Step(x.t, input, c) == Reduce(x.t, input, c1, r - 2)
    ensures Chosen(x.t, input, c) == r - 2
  {
    hide Generated.Ok, Lalr.Ok, Grammar.WellFormed, IsLR0, Unsuppressed, IsInput, Reduce, Has, Lookup, IsRowFor, Live,
         Lalr.InLA;
    Parts(x);
    Sizes(x);
    TablesSay(x);
    RowFacts(x, q);
    var j := TokenAt(w, n);
    TokenRead(x, input, w, n);
    ReadAhead(input, c, n);
    RowShifts(x, q, j, 0);
    HasIsLive(x.p, q, j, REDUCE, r);
    DefaultOnly(x, q, j, r);
    if x.t.defred[q] != 0 {
      c1 := c;
    } else {
      c1 := Read(input, c);
      ShiftMissing(x, q, j, r);
      assert ReduceEntry(x.p.rows[q], x.value, x.p.defred[q], x.value[j], r - 2);
      assert Lookup(x.t.rindex[q], x.t.table, x.t.check, x.value[j]) == Some(r - 2);
    }
  }

  // ----- the parser follows the derivation -----

  /** The parser has got to state q with n tokens shifted, and with m states above those it
      had at c. */
  ghost predicate Arrived(input: seq<int>, c: Config, c': Config, n: nat, m: nat, q: nat)
  {
    Here(input, c', n, q) && |c'.stack| == |c.stack| + m && c'.stack[..|c.stack|] == c.stack
  }

  /** With rule r's right side on top of stack, reducing by r puts the state u in its place,
      or accepts. */
  lemma ReducesOver(x: Generated, input: seq<int>, stack: seq<nat>, c: Config, n: nat, r: nat, u: nat)
    requires x.Ok() && stack != [] && x.l.g.IsRule(r) && r >= 3
    requires Shift(x.l.a, stack[|stack| - 1], x.l.g.rlhs[r], u)
    requires c.outcome == Running && Ahead(input, c, n)
    requires |c.stack| == |stack| + |x.l.g.Rhs(r)| && c.stack[..|stack|] == stack
    ensures |x.t.table| == |x.t.check| && |x.t.gindex| == |x.t.dgoto|
    ensures |x.t.len| > r - 2 && x.t.len[r - 2] == |x.l.g.Rhs(r)|
    ensures var c2 := Reduce(x.t, input, c, r - 2);
            if stack[|stack| - 1] == 0 && x.l.g.rlhs[r] == x.l.g.Goal() && Lex(input, n) == 0 then
              c2.outcome == Accepted
            else Here(input, c2, n, u) && c2.stack == stack + [u]
  {
    hide Generated.Ok, Lalr.Ok, Grammar.WellFormed, IsLR0, Reduce, Grammar.Rhs, Shift, Read, Lex, Ahead;
    Parts(x);
    var symbols := seq(|stack| - 1, _ => 0) + x.l.g.Rhs(r);
    assert symbols[|symbols| - |x.l.g.Rhs(r)|..] == x.l.g.Rhs(r);
    assert c.stack[|stack| - 1] == c.stack[..|stack|][|stack| - 1];
    RuleAndGoto(x, r - 2, stack[|stack| - 1], u);
    ReduceIs(x.l.g, x.l.a, x.t, input, c, symbols, r - 2, u);
    AheadStack(input, c, n, stack + [u]);
    ReadAhead(input, c.(stack := stack + [u]), n);
  }

  lemma AheadStack(input: seq<int>, c: Config, n: nat, stack: seq<nat>)
    ensures Ahead(input, c, n) <==> Ahead(input, c.(stack := stack), n)
  {}

  /** Having parsed rule r's right side from state p, the parser goes over the rule's variable
      to u, unless it accepts instead. */
  lemma ReduceTo(x: Generated, input: seq<int>, w: seq<nat>, c: Config, c1: Config, n: nat, p: nat, q: nat, r: nat,
                 i: nat)
    requires x.Ok() && Unsuppressed(x.p) && IsInput(x.value, input, w) && n <= |w|
    requires c.stack != [] && c.stack[|c.stack| - 1] == p && x.l.g.IsRule(r) && r >= 3
    requires Arrived(input, c, c1, n, |x.l.g.Rhs(r)|, q)
    requires x.l.IsGoto(i) && x.l.m.from[i] == p && x.l.Sym(i) == x.l.g.rlhs[r] &&
             InState(x.l.g, x.l.a, p, x.l.g.rrhs[r])
    requires Spells(x.l.a, p, x.l.g.Rhs(r), q) && x.l.Follow(i, TokenAt(w, n))
    ensures |x.t.table| == |x.t.check| && |x.t.gindex| == |x.t.dgoto|
    ensures var c2 := Step(x.t, input, c1);
            if p == 0 && x.l.g.rlhs[r] == x.l.g.Goal() && TokenAt(w, n) == 0 then c2.outcome == Accepted
            else Arrived(input, c, c2, n, 1, x.l.m.to[i]) && c2.stack == c.stack + [x.l.m.to[i]]
    ensures forall d: Forest :: |x.l.g.Rhs(r)| <= d.Length() ==>
              Next(x.t, x.value, input, c1, d) == d.Fold(d.Length() - |x.l.g.Rhs(r)|, |x.l.g.Rhs(r)|, r)
  {
    hide Generated.Ok, Lalr.Ok, Grammar.WellFormed, IsLR0, Unsuppressed, IsInput, Reduce, Step, Grammar.Rhs, Spells,
         Lalr.Follow, InState, Shift;
    Parts(x);
    x.l.GotoFacts(i);
    SpelledReduces(x.l.g, x.l.a, p, r, q);
    assert x.l.LooksBack(q, r, i);
    TokenRead(x, input, w, n);
    Sizes(x);
    var c0 := ReduceStep(x, input, w, c1, n, q, r);
    ReducesOver(x, input, c.stack, c0, n, r, x.l.m.to[i]);
    ZeroToken(x, TokenAt(w, n));
  }

  lemma ZeroToken(x: Generated, j: nat)
    requires x.Ok() && j < |x.value|
    ensures x.value[j] == 0 <==> j == 0
  {
    Sizes(x);
    if j > 0 { ValuesDiffer(x, 0, j); }
  }

  /** The parser is in state p, with n tokens shifted, before the rest of rule r from its
      symbol k; the rule is applied at goto j, the derivation's tokens are ahead, and after
      them one that can follow the goto. */
  ghost predicate Ready(x: Generated, input: seq<int>, w: seq<nat>, c: Config, n: nat, p: nat, d: Forest, r: nat,
                        k: nat, j: nat)
    requires x.l.g.WellFormed()
  {
    && Here(input, c, n, p) && x.l.g.IsRule(r) && r >= 3 && k <= |x.l.g.Rhs(r)| &&
       InState(x.l.g, x.l.a, p, x.l.g.rrhs[r] + k)
    && x.l.IsGoto(j) && x.l.Sym(j) == x.l.g.rlhs[r] && Spells(x.l.a, x.l.m.from[j], x.l.g.Rhs(r)[..k], p)
    && d.Valid(x.Cfg()) && d.Form(x.Cfg()) == x.l.g.Rhs(r)[k..]
    && n + |d.Yield()| <= |w| && d.Yield() == w[n..n + |d.Yield()|] && x.l.Follow(j, TokenAt(w, n + |d.Yield()|))
  }

  /** From configuration c, on top of derivation d, the parser has followed front: it has come
      to c', in state q and ready for the rest, and has built front on top of d. */
  ghost predicate GotThrough(x: Generated, input: seq<int>, w: seq<nat>, c: Config, d: Forest, n: nat, front: Forest,
                             rest: Forest, r: nat, k: nat, j: nat, q: nat, c': Config, e: Forest)
    requires x.l.g.WellFormed()
  {
    && Ready(x, input, w, c', n + |front.Yield()|, q, rest, r, k + |front.Form(x.Cfg())|, j)
    && Arrived(input, c, c', n + |front.Yield()|, |front.Form(x.Cfg())|, q) && e == d.Join(front)
  }

  /** Following front, in as many turns as it has tokens and rules.  If the parser accepts
      before, then there is a reduction on the end marker in the final state. */
  ghost predicate Parsed(x: Generated, input: seq<int>, w: seq<nat>, c: Config, d: Forest, n: nat, front: Forest,
                         rest: Forest, r: nat, k: nat, j: nat, q: nat)
    requires x.l.g.WellFormed() && |x.t.table| == |x.t.check| && |x.t.gindex| == |x.t.dgoto|
  {
    var c', e := Run(x.t, input, c, front.Size()), Built(x.t, x.value, input, c, d, front.Size());
    || (c'.outcome == Accepted && !EndIsFree(x.l, x.p.final))
    || GotThrough(x, input, w, c, d, n, front, rest, r, k, j, q, c', e)
  }

  /** The parser follows any derivation, from left to right and from the leaves up. */
  lemma {:induction false} Parses(x: Generated, input: seq<int>, w: seq<nat>, c: Config, d: Forest, n: nat, p: nat,
                                  front: Forest, rest: Forest, r: nat, k: nat, j: nat) returns (q: nat)
    requires x.Ok() && Unsuppressed(x.p) && IsInput(x.value, input, w)
    requires x.l.g.WellFormed() && Ready(x, input, w, c, n, p, front.Join(rest), r, k, j)
    ensures |x.t.table| == |x.t.check| && |x.t.gindex| == |x.t.dgoto|
    ensures Parsed(x, input, w, c, d, n, front, rest, r, k, j, q)
    decreases front, 1
  {
    hide Generated.Ok, Ready, Parsed, GotThrough, IsInput, Unsuppressed, Grammar.WellFormed;
    Sizes(x);
    match front
    case Done =>
      q := p;
      Parts(x);
      ParsesNone(x, input, w, c, d, n, p, rest, r, k, j);
    case Tok(t, more) =>
      q := ParsesToken(x, input, w, c, d, n, p, t, more, rest, r, k, j);
    case Var(r2, sub, more) =>
      q := ParsesVariable(x, input, w, c, d, n, p, r2, sub, more, rest, r, k, j);
  }

  lemma ParsesNone(x: Generated, input: seq<int>, w: seq<nat>, c: Config, d: Forest, n: nat, p: nat, rest: Forest,
                   r: nat, k: nat, j: nat)
    requires x.l.g.WellFormed() && Ready(x, input, w, c, n, p, Done.Join(rest), r, k, j)
    requires |x.t.table| == |x.t.check| && |x.t.gindex| == |x.t.dgoto|
    ensures Parsed(x, input, w, c, d, n, Done, rest, r, k, j, p)
  {
    hide Grammar.WellFormed, Grammar.Rhs, Spells, Lalr.Follow, InState, Arrived, EndIsFree;
    ArrivedHere(input, c, n, p);
    d.JoinDone();
    assert Done.Form(x.Cfg()) == [] && Done.Yield() == [] && Done.Size() == 0;
    assert Done.Join(rest) == rest;
  }

  lemma {:induction false} ParsesToken(x: Generated, input: seq<int>, w: seq<nat>, c: Config, d: Forest, n: nat, p: nat,
                                       t: nat, more: Forest, rest: Forest, r: nat, k: nat, j: nat) returns (q: nat)
    requires x.Ok() && Unsuppressed(x.p) && IsInput(x.value, input, w)
    requires x.l.g.WellFormed() && Ready(x, input, w, c, n, p, Tok(t, more).Join(rest), r, k, j)
    ensures |x.t.table| == |x.t.check| && |x.t.gindex| == |x.t.dgoto|
    ensures Parsed(x, input, w, c, d, n, Tok(t, more), rest, r, k, j, q)
    decreases Tok(t, more), 0
  {
    hide Generated.Ok, Lalr.Ok, Grammar.WellFormed, IsLR0, Unsuppressed, IsInput, Step, Next, Ready, Parsed, Shift;
    Parts(x);
    Sizes(x);
    assert Tok(t, more).Join(rest) == Tok(t, more.Join(rest));
    var u := ReadyForToken(x, input, w, c, n, p, t, more.Join(rest), r, k, j);
    var c1, e := Step(x.t, input, c), Next(x.t, x.value, input, c, d);
    q := Parses(x, input, w, c1, e, n + 1, u, more, rest, r, k + 1, j);
    OneToken(x, t, more, rest);
    RunFirst(x.t, x.value, input, c, d);
    ParsesOne(x, input, w, c, d, n, Tok(t, Done), more, rest, r, k, j, q, 1, c1, u);
  }

  /** The parser shifts the token that comes next in the derivation. */
  lemma ReadyForToken(x: Generated, input: seq<int>, w: seq<nat>, c: Config, n: nat, p: nat, t: nat, rest: Forest,
                      r: nat, k: nat, j: nat) returns (u: nat)
    requires x.Ok() && Unsuppressed(x.p) && IsInput(x.value, input, w)
    requires x.l.g.WellFormed() && Ready(x, input, w, c, n, p, Tok(t, rest), r, k, j)
    ensures |x.t.table| == |x.t.check| && |x.t.gindex| == |x.t.dgoto|
    ensures var c1 := Step(x.t, input, c);
            c1.outcome == Running && c1.stack == c.stack + [u] && Ready(x, input, w, c1, n + 1, u, rest, r, k + 1, j)
    ensures t < x.l.g.ntokens && rest.Valid(x.Cfg())
    ensures forall d :: Next(x.t, x.value, input, c, d) == d.Join(Tok(t, Done))
  {
    hide Generated.Ok, Lalr.Ok, Grammar.WellFormed, IsLR0, Unsuppressed, IsInput, Step, Next, Grammar.Rhs,
         Grammar.Unpacked, Spells, Lalr.Follow, InState, Shift, Forest.Join;
    Parts(x);
    Sizes(x);
    var all := Tok(t, rest);
    assert all.Form(x.Cfg()) == [t] + rest.Form(x.Cfg()) && all.Yield() == [t] + rest.Yield();
    SplitForm(x.l.g, r, k, t, rest.Form(x.Cfg()));
    SplitYield(w, n, [t], rest.Yield());
    UnpackedTokens(x.l.g);
    u := SpellsRuleStep(x.l.g, x.l.a, x.l.m.from[j], r, k, p);
    ShiftStep(x, input, w, c, n, p, u);
  }

  /** Following one symbol and then more. */
  lemma ParsesOne(x: Generated, input: seq<int>, w: seq<nat>, c: Config, d: Forest, n: nat, first: Forest, more: Forest,
                  rest: Forest, r: nat, k: nat, j: nat, q: nat, m: nat, c1: Config, u: nat)
    requires x.l.g.WellFormed() && |x.t.table| == |x.t.check| && |x.t.gindex| == |x.t.dgoto|
    requires first.Valid(x.Cfg()) && more.Valid(x.Cfg()) && |first.Form(x.Cfg())| == 1 && m == first.Size()
    requires c1 == Run(x.t, input, c, m) && c1.stack == c.stack + [u]
    requires Built(x.t, x.value, input, c, d, m) == d.Join(first)
    requires Parsed(x, input, w, c1, d.Join(first), n + |first.Yield()|, more, rest, r, k + 1, j, q)
    ensures Parsed(x, input, w, c, d, n, first.Join(more), rest, r, k, j, q)
  {
    hide Grammar.WellFormed, GotThrough, Grammar.Unpacked, EndIsFree, Run, Built, Forest.Valid, Forest.Form,
         Forest.Yield, Forest.Join, Forest.Size;
    first.JoinMeans(x.Cfg(), more);
    RunOn(x.t, input, c, m, more.Size());
    BuiltOn(x.t, x.value, input, c, d, m, more.Size());
    var c', e := Run(x.t, input, c1, more.Size()), Built(x.t, x.value, input, c1, d.Join(first), more.Size());
    if GotThrough(x, input, w, c1, d.Join(first), n + |first.Yield()|, more, rest, r, k + 1, j, q, c', e) {
      GotThroughOne(x, input, w, c, d, n, first, more, rest, r, k, j, q, c1, u, c', e);
    }
  }

  lemma GotThroughOne(x: Generated, input: seq<int>, w: seq<nat>, c: Config, d: Forest, n: nat, first: Forest,
                      more: Forest, rest: Forest, r: nat, k: nat, j: nat, q: nat, c1: Config, u: nat, c': Config,
                      e: Forest)
    requires x.l.g.WellFormed() && first.Valid(x.Cfg()) && more.Valid(x.Cfg()) && |first.Form(x.Cfg())| == 1
    requires c1.stack == c.stack + [u]
    requires GotThrough(x, input, w, c1, d.Join(first), n + |first.Yield()|, more, rest, r, k + 1, j, q, c', e)
    ensures GotThrough(x, input, w, c, d, n, first.Join(more), rest, r, k, j, q, c', e)
  {
    hide Grammar.WellFormed, Ready, Arrived, Grammar.Unpacked, Forest.Valid, Forest.Form, Forest.Yield, Forest.Join;
    first.JoinMeans(x.Cfg(), more);
    d.JoinTwice(first, more);
    Further(input, c, c1, c', u, n + |first.Yield()| + |more.Yield()|, |more.Form(x.Cfg())|, q);
  }

  lemma {:induction false} ParsesVariable(x: Generated, input: seq<int>, w: seq<nat>, c: Config, d: Forest, n: nat,
                                          p: nat, r2: nat, sub: Forest, more: Forest, rest: Forest, r: nat, k: nat,
                                          j: nat)
    returns (q: nat)
    requires x.Ok() && Unsuppressed(x.p) && IsInput(x.value, input, w)
    requires x.l.g.WellFormed() && Ready(x, input, w, c, n, p, Var(r2, sub, more).Join(rest), r, k, j)
    ensures |x.t.table| == |x.t.check| && |x.t.gindex| == |x.t.dgoto|
    ensures Parsed(x, input, w, c, d, n, Var(r2, sub, more), rest, r, k, j, q)
    decreases Var(r2, sub, more), 0
  {
    hide Generated.Ok, Lalr.Ok, Grammar.WellFormed, IsLR0, Unsuppressed, IsInput, Step, Next, Run, Built, Ready, Parsed,
         AlongRule, GoesOver, EndIsFree, Grammar.Rhs, Grammar.Unpacked, Forest.Valid, Forest.Form, Forest.Yield;
    Parts(x);
    Sizes(x);
    var all := Var(r2, sub, more.Join(rest));
    assert Var(r2, sub, more).Join(rest) == all;
    var i, u := ReadyInside(x, input, w, c, n, p, r2, sub, more.Join(rest), r, k, j);
    sub.JoinDone();
    var q0 := Parses(x, input, w, c, d, n, p, sub, Done, r2, 0, i);
    var m := sub.Size();
    var c1, n1 := Run(x.t, input, c, m), n + |sub.Yield()|;
    if c1.outcome == Accepted {
      Stopped(x, input, w, c, d, n, r2, sub, more, rest, r, k, j, q0, i, m);
      q := q0;
    } else {
      RunLast(x.t, input, c, m);
      var c2 := Step(x.t, input, c1);
      ParsedRule(x, input, w, c, d, n, p, r2, sub, i, u, q0);
      if c2.outcome == Accepted {
        AcceptsEarly(x, input, w, c, n, p, r2, sub, more.Join(rest), r, k, j, i, u);
        Stopped(x, input, w, c, d, n, r2, sub, more, rest, r, k, j, q0, i, m + 1);
        q := q0;
      } else {
        ReadyAfter(x, input, w, c, c2, n, p, r2, sub, more.Join(rest), r, k, j, u);
        q := Parses(x, input, w, c2, d.Join(Var(r2, sub, Done)), n1, u, more, rest, r, k + 1, j);
        VariableAhead(x, input, w, c, n, p, r2, sub, more.Join(rest), r, k, j);
        OneVariable(x, r2, sub, more, rest);
        ParsesOne(x, input, w, c, d, n, Var(r2, sub, Done), more, rest, r, k, j, q, m + 1, c2, u);
      }
    }
  }

  lemma OneToken(x: Generated, t: nat, more: Forest, rest: Forest)
    requires x.l.g.WellFormed() && t < x.l.g.ntokens && more.Join(rest).Valid(x.Cfg())
    ensures var one := Tok(t, Done);
            && one.Valid(x.Cfg()) && |one.Form(x.Cfg())| == 1 && one.Yield() == [t] && one.Size() == 1
            && one.Join(more) == Tok(t, more) && more.Valid(x.Cfg())
  {
    hide Grammar.WellFormed;
    UnpackedTokens(x.l.g);
    ValidFront(x.Cfg(), more, rest);
  }

  /** A single variable's derivation, and the rest of it. */
  lemma OneVariable(x: Generated, r2: nat, sub: Forest, more: Forest, rest: Forest)
    requires x.l.g.WellFormed() && x.l.g.IsRule(r2) && sub.Valid(x.Cfg()) && sub.Form(x.Cfg()) == x.l.g.Rhs(r2)
    requires more.Join(rest).Valid(x.Cfg())
    ensures var one := Var(r2, sub, Done);
            && one.Valid(x.Cfg()) && |one.Form(x.Cfg())| == 1 && one.Yield() == sub.Yield() &&
               one.Size() == sub.Size() + 1
            && one.Join(more) == Var(r2, sub, more) && more.Valid(x.Cfg())
  {
    hide Grammar.WellFormed, Grammar.Unpacked, Grammar.Rhs;
    x.l.g.UnpackedRule(r2);
    assert sub.Yield() + [] == sub.Yield();
    ValidFront(x.Cfg(), more, rest);
  }

  lemma {:induction false} ValidFront(g: Cfg, front: Forest, rest: Forest)
    requires front.Join(rest).Valid(g)
    ensures front.Valid(g)
  {
    match front
    case Done =>
    case Tok(_, more) => ValidFront(g, more, rest);
    case Var(_, _, more) => ValidFront(g, more, rest);
  }

  /** A parser that has accepted stays so. */
  lemma Stopped(x: Generated, input: seq<int>, w: seq<nat>, c: Config, d: Forest, n: nat, r2: nat, sub: Forest,
                more: Forest, rest: Forest, r: nat, k: nat, j: nat, q: nat, i: nat, m: nat)
    requires x.l.g.WellFormed() && |x.t.table| == |x.t.check| && |x.t.gindex| == |x.t.dgoto| && m <= sub.Size() + 1
    requires Run(x.t, input, c, m).outcome == Accepted && (!EndIsFree(x.l, x.p.final) || (
               m == sub.Size() && Parsed(x, input, w, c, d, n, sub, Done, r2, 0, i, q)))
    ensures Parsed(x, input, w, c, d, n, Var(r2, sub, more), rest, r, k, j, q)
  {
    hide Grammar.WellFormed, Grammar.Rhs, Grammar.Unpacked, EndIsFree, Spells, InState, Lalr.Follow, Run, Forest.Valid,
         Forest.Form, Forest.Yield;
    var total := Var(r2, sub, more).Size();
    RunOn(x.t, input, c, m, total - m);
    StoppedStays(x.t, input, Run(x.t, input, c, m), total - m);
  }

  /** Having followed the right side of a rule, the parser goes over its variable, or accepts. */
  lemma ParsedRule(x: Generated, input: seq<int>, w: seq<nat>, c: Config, d: Forest, n: nat, p: nat, r2: nat,
                   sub: Forest, i: nat, u: nat, q: nat)
    requires x.Ok() && Unsuppressed(x.p) && IsInput(x.value, input, w)
    requires x.l.g.WellFormed() && Ready(x, input, w, c, n, p, sub, r2, 0, i) && GoesOver(x.l, p, r2, i, u)
    requires |x.t.table| == |x.t.check| && |x.t.gindex| == |x.t.dgoto|
    requires Run(x.t, input, c, sub.Size()).outcome != Accepted && Parsed(x, input, w, c, d, n, sub, Done, r2, 0, i, q)
    ensures var n1 := n + |sub.Yield()|;
            var c2 := Step(x.t, input, Run(x.t, input, c, sub.Size()));
            if p == 0 && x.l.g.rlhs[r2] == x.l.g.Goal() && TokenAt(w, n1) == 0 then c2.outcome == Accepted
            else Arrived(input, c, c2, n1, 1, u) && c2.stack == c.stack + [u]
    ensures Built(x.t, x.value, input, c, d, sub.Size() + 1) == d.Join(Var(r2, sub, Done))
  {
    hide Generated.Ok, Lalr.Ok, Grammar.WellFormed, IsLR0, Unsuppressed, IsInput, Step, Next, Run, Built, Grammar.Rhs,
         Grammar.Unpacked, Spells, Lalr.Follow, InState, Forest.Valid, Forest.Form, Forest.Yield, Forest.Join,
         Forest.Fold, Forest.Length, Shift;
    RuleIs(x, input, w, c, n, p, sub, r2, i);
    Sizes(x);
    var c1, m := Run(x.t, input, c, sub.Size()), |x.l.g.Rhs(r2)|;
    assert sub.Form(x.Cfg()) == x.l.g.Rhs(r2) by { assert x.l.g.Rhs(r2)[0..] == x.l.g.Rhs(r2); }
    assert x.l.g.Rhs(r2)[..m] == x.l.g.Rhs(r2);
    ReduceTo(x, input, w, c, c1, n + |sub.Yield()|, p, q, r2, i);
    sub.LengthIs(x.Cfg());
    FoldJoined(d, sub, r2);
    BuiltOn(x.t, x.value, input, c, d, sub.Size(), 1);
    RunFirst(x.t, x.value, input, c1, d.Join(sub));
  }

  lemma RunFirst(t: Tables, value: seq<nat>, input: seq<int>, c: Config, d: Forest)
    requires |t.table| == |t.check| && |t.gindex| == |t.dgoto|
    ensures Run(t, input, c, 1) == Step(t, input, c)
    ensures Built(t, value, input, c, d, 1) == Next(t, value, input, c, d)
  {
    hide Step, Next;
    var one := 1;
    assert Run(t, input, c, one) == Run(t, input, Step(t, input, c), 0);
    assert Built(t, value, input, c, d, one) ==
      Built(t, value, input, Step(t, input, c), Next(t, value, input, c, d), 0);
  }

  lemma FoldJoined(d: Forest, sub: Forest, r: nat)
    ensures d.Join(sub).Length() == d.Length() + sub.Length()
    ensures d.Join(sub).Fold(d.Length(), sub.Length(), r) == d.Join(Var(r, sub, Done))
  {
    d.SplitJoined(sub);
    sub.JoinDone();
    sub.SplitJoined(Done);
    JoinLength(d, sub);
  }

  lemma {:induction false} JoinLength(d: Forest, sub: Forest)
    ensures d.Join(sub).Length() == d.Length() + sub.Length()
  {
    match d
    case Done =>
    case Tok(_, rest) => JoinLength(rest, sub);
    case Var(_, _, rest) => JoinLength(rest, sub);
  }

  /** Where the rest of a rule yields nothing, the state reduces on the next token. */
  lemma {:induction false} EmptyReduces(l: Lalr, r: nat, k: nat, j: nat, u: nat, rest: Forest, t: nat) returns (q: nat)
    requires l.Ok() && AlongRule(l, r, k, j, u) && t < l.g.ntokens && l.Follow(j, t)
    requires rest.Valid(l.g.Unpacked()) && rest.Form(l.g.Unpacked()) == l.g.Rhs(r)[k..] && rest.Yield() == []
    ensures Reduces(l, u, q, t)
    decreases rest
  {
    hide Lalr.Ok, Grammar.WellFormed, IsLR0, Grammar.Rhs, Grammar.Unpacked, Spells, Lalr.Follow, InState, Shift,
         Grammar.RuleEnd;
    LalrParts(l);
    match rest
    case Done =>
      q := r;
      CompleteReduces(l, r, k, j, u, t);
    case Var(r2, sub, more) =>
      RuleForm(l.g, r2, sub, more);
      SplitForm(l.g, r, k, l.g.rlhs[r2], more.Form(l.g.Unpacked()));
      assert rest.Yield() == sub.Yield() + more.Yield();
      var u2, i := VarGoto(l, u, r, k, j, r2);
      l.GotoFacts(i);
      NextFollows(l, j, r, k, i, more, t);
      WholeRule(l.a, u, l.g.Rhs(r2));
      q := EmptyReduces(l, r2, 0, i, u, sub, t);
  }

  lemma CompleteReduces(l: Lalr, r: nat, k: nat, j: nat, u: nat, t: nat)
    requires l.Ok() && AlongRule(l, r, k, j, u) && k == |l.g.Rhs(r)| && t < l.g.ntokens && l.Follow(j, t)
    ensures Reduces(l, u, r, t)
  {
    hide Lalr.Ok, Grammar.WellFormed, IsLR0, Grammar.Rhs, Spells, Lalr.Follow, Grammar.RuleEnd, InClosure;
    LalrParts(l);
    assert l.g.Rhs(r)[..k] == l.g.Rhs(r);
    StatesExist(l.g, l.a);
    ReducesWhenComplete(l.g, l.a, u, r);
    assert l.LooksBack(u, r, j);
  }

  /** A parser that accepts before the derivation is at its end could have reduced instead. */
  lemma AcceptsEarly(x: Generated, input: seq<int>, w: seq<nat>, c: Config, n: nat, p: nat, r2: nat, sub: Forest,
                     rest: Forest, r: nat, k: nat, j: nat, i: nat, u: nat)
    requires x.Ok() && IsInput(x.value, input, w)
    requires x.l.g.WellFormed() && Ready(x, input, w, c, n, p, Var(r2, sub, rest), r, k, j)
    requires GoesOver(x.l, p, r2, i, u) && AlongRule(x.l, r, k + 1, j, u)
    requires p == 0 && x.l.g.rlhs[r2] == x.l.g.Goal() && TokenAt(w, n + |sub.Yield()|) == 0
    ensures !EndIsFree(x.l, x.p.final)
  {
    hide Generated.Ok, Lalr.Ok, Grammar.WellFormed, IsLR0, IsInput, Ready, AlongRule, Grammar.Rhs, Grammar.Unpacked,
         Spells, Lalr.Follow, InState, Shift, Forest.Valid, Forest.Form, Forest.Yield;
    Parts(x);
    Sizes(x);
    VariableAhead(x, input, w, c, n, p, r2, sub, rest, r, k, j);
    YieldAhead(x, input, w, c, n, p, r2, sub, rest, r, k, j);
    EndAhead(x, input, w, n + |sub.Yield()|);
    x.l.GotoFacts(i);
    FinalIs(x, u);
    var q := EmptyReduces(x.l, r, k + 1, j, u, rest, 0);
  }

  lemma FinalIs(x: Generated, u: nat)
    requires x.Ok() && Shift(x.l.a, 0, x.l.g.Goal(), u)
    ensures u == x.p.final
  {
    Parts(x);
    assert Shift(x.l.a, 0, x.l.g.Goal(), x.p.final) by {
      hide Lalr.Ok, Grammar.WellFormed, Shift, IsRowFor, AtMostOne, IsResolved, IsDefault, Agree, AreTokenValues;
    }
    hide Generated.Ok, Grammar.WellFormed, IsLR0, Shift;
    ShiftUnique(x.l.g, x.l.a, 0, x.l.g.Goal(), u, x.p.final);
  }

  /** No token of a sentence is the end marker. */
  lemma EndAhead(x: Generated, input: seq<int>, w: seq<nat>, n: nat)
    requires x.Ok() && IsInput(x.value, input, w) && n <= |w| && TokenAt(w, n) == 0
    ensures n == |w|
  {
    hide Lalr.Ok, IsParser, Agree;
  }

  /** What being ready for a whole rule says of its end. */
  lemma RuleIs(x: Generated, input: seq<int>, w: seq<nat>, c: Config, n: nat, p: nat, d: Forest, r: nat, i: nat)
    requires x.l.g.WellFormed() && Ready(x, input, w, c, n, p, d, r, 0, i)
    ensures n + |d.Yield()| <= |w| && x.l.Follow(i, TokenAt(w, n + |d.Yield()|)) && c.stack != [] &&
            c.stack[|c.stack| - 1] == p
  {
    hide Grammar.WellFormed, Grammar.Rhs, Spells, Lalr.Follow, InState, Forest.Valid, Forest.Form, Forest.Yield;
  }

  /** The goto that a derivation's variable makes. */
  ghost predicate GoesOver(l: Lalr, p: nat, r2: nat, i: nat, u: nat)
    requires l.g.WellFormed()
  {
    && l.g.IsRule(r2) && r2 >= 3 && l.IsGoto(i) && l.m.from[i] == p && l.m.to[i] == u && l.Sym(i) == l.g.rlhs[r2]
    && InState(l.g, l.a, p, l.g.rrhs[r2])
  }

  /** Rule r, applied at goto j, has come to state u after its first k symbols. */
  ghost predicate AlongRule(l: Lalr, r: nat, k: nat, j: nat, u: nat)
    requires l.g.WellFormed()
  {
    && l.g.IsRule(r) && r >= 3 && k <= |l.g.Rhs(r)| && l.IsGoto(j) && l.Sym(j) == l.g.rlhs[r]
    && Spells(l.a, l.m.from[j], l.g.Rhs(r)[..k], u) && InState(l.g, l.a, u, l.g.rrhs[r] + k)
  }

  /** Before a variable the parser is ready for the rule that the derivation applies to it. */
  lemma ReadyInside(x: Generated, input: seq<int>, w: seq<nat>, c: Config, n: nat, p: nat, r2: nat, sub: Forest,
                    rest: Forest, r: nat, k: nat, j: nat) returns (i: nat, u: nat)
    requires x.l.Ok() && Ready(x, input, w, c, n, p, Var(r2, sub, rest), r, k, j)
    ensures Ready(x, input, w, c, n, p, sub, r2, 0, i) && GoesOver(x.l, p, r2, i, u) && AlongRule(x.l, r, k + 1, j, u)
  {
    hide Lalr.Ok, Grammar.WellFormed, IsLR0, Grammar.Rhs, Grammar.Unpacked, Spells, Lalr.Follow, InState, Ready,
         Forest.Valid, Forest.Form, Forest.Yield;
    LalrParts(x.l);
    VariableAhead(x, input, w, c, n, p, r2, sub, rest, r, k, j);
    YieldAhead(x, input, w, c, n, p, r2, sub, rest, r, k, j);
    u, i := VarGoto(x.l, p, r, k, j, r2);
    NextFollows(x.l, j, r, k, i, rest, TokenAt(w, n + |sub.Yield()| + |rest.Yield()|));
    assert TokenAt(w, n + |sub.Yield()|) ==
      if rest.Yield() == [] then TokenAt(w, n + |sub.Yield()| + |rest.Yield()|) else rest.Yield()[0];
    WholeRule(x.l.a, p, x.l.g.Rhs(r2));
    ReadyIs(x, input, w, c, n, p, sub, r2, 0, i);
  }

  lemma ReadyIs(x: Generated, input: seq<int>, w: seq<nat>, c: Config, n: nat, p: nat, d: Forest, r: nat, k: nat,
                j: nat)
    requires x.l.g.WellFormed() && Here(input, c, n, p) && AlongRule(x.l, r, k, j, p)
    requires d.Valid(x.Cfg()) && d.Form(x.Cfg()) == x.l.g.Rhs(r)[k..]
    requires n + |d.Yield()| <= |w| && d.Yield() == w[n..n + |d.Yield()|] && x.l.Follow(j, TokenAt(w, n + |d.Yield()|))
    ensures Ready(x, input, w, c, n, p, d, r, k, j)
  {
    hide Grammar.WellFormed, Grammar.Rhs, Spells, Lalr.Follow, InState, Forest.Valid, Forest.Form, Forest.Yield;
  }

  /** What being ready before a variable says about the two parts of the derivation. */
  lemma VariableAhead(x: Generated, input: seq<int>, w: seq<nat>, c: Config, n: nat, p: nat, r2: nat, sub: Forest,
                      rest: Forest, r: nat, k: nat, j: nat)
    requires x.l.g.WellFormed() && Ready(x, input, w, c, n, p, Var(r2, sub, rest), r, k, j)
    ensures Here(input, c, n, p) && AlongRule(x.l, r, k, j, p) && x.l.IsGoto(j) && x.l.g.IsRule(r) && k < |x.l.g.Rhs(r)|
    ensures x.l.g.IsRule(r2) && x.l.g.Rhs(r)[k] == x.l.g.rlhs[r2]
    ensures sub.Valid(x.Cfg()) && sub.Form(x.Cfg()) == x.l.g.Rhs(r2) && rest.Valid(x.Cfg()) &&
            rest.Form(x.Cfg()) == x.l.g.Rhs(r)[k + 1..]
  {
    hide Grammar.WellFormed, Grammar.Rhs, Grammar.Unpacked, Spells, Lalr.Follow, InState, Forest.Valid, Forest.Form,
         Forest.Yield;
    RuleForm(x.l.g, r2, sub, rest);
    SplitForm(x.l.g, r, k, x.l.g.rlhs[r2], rest.Form(x.Cfg()));
  }

  lemma ReadyYields(x: Generated, input: seq<int>, w: seq<nat>, c: Config, n: nat, p: nat, d: Forest, r: nat, k: nat,
                    j: nat)
    requires x.l.g.WellFormed() && Ready(x, input, w, c, n, p, d, r, k, j)
    ensures n + |d.Yield()| <= |w| && d.Yield() == w[n..n + |d.Yield()|] && x.l.IsGoto(j)
    ensures x.l.Follow(j, TokenAt(w, n + |d.Yield()|))
  {
    hide Grammar.WellFormed, Grammar.Rhs, Spells, Lalr.Follow, InState, Forest.Valid, Forest.Form, Forest.Yield;
  }

  lemma YieldAhead(x: Generated, input: seq<int>, w: seq<nat>, c: Config, n: nat, p: nat, r2: nat, sub: Forest,
                   rest: Forest, r: nat, k: nat, j: nat)
    requires x.l.g.WellFormed() && Ready(x, input, w, c, n, p, Var(r2, sub, rest), r, k, j)
    ensures n + |sub.Yield()| + |rest.Yield()| <= |w| && x.l.Follow(j, TokenAt(w, n + |sub.Yield()| + |rest.Yield()|))
    ensures sub.Yield() == w[n..n + |sub.Yield()|]
    ensures rest.Yield() == w[n + |sub.Yield()|..n + |sub.Yield()| + |rest.Yield()|]
    ensures rest.Yield() != [] ==> rest.Yield()[0] == w[n + |sub.Yield()|]
  {
    hide Grammar.WellFormed, Grammar.Rhs, Grammar.Unpacked, Ready, Lalr.Follow, Forest.Valid, Forest.Form;
    var d := Var(r2, sub, rest);
    ReadyYields(x, input, w, c, n, p, d, r, k, j);
    assert d.Yield() == sub.Yield() + rest.Yield();
    SplitYield(w, n, sub.Yield(), rest.Yield());
  }

  /** After the goto it is ready for the rest. */
  lemma ReadyAfter(x: Generated, input: seq<int>, w: seq<nat>, c: Config, c2: Config, n: nat, p: nat, r2: nat,
                   sub: Forest, rest: Forest, r: nat, k: nat, j: nat, u: nat)
    requires x.l.g.WellFormed() && Ready(x, input, w, c, n, p, Var(r2, sub, rest), r, k, j)
    requires Arrived(input, c, c2, n + |sub.Yield()|, 1, u) && AlongRule(x.l, r, k + 1, j, u)
    ensures Ready(x, input, w, c2, n + |sub.Yield()|, u, rest, r, k + 1, j)
  {
    hide Grammar.WellFormed, Grammar.Rhs, Grammar.Unpacked, Ready, AlongRule, Forest.Valid, Forest.Form, Forest.Yield;
    VariableAhead(x, input, w, c, n, p, r2, sub, rest, r, k, j);
    YieldAhead(x, input, w, c, n, p, r2, sub, rest, r, k, j);
    ReadyIs(x, input, w, c2, n + |sub.Yield()|, u, rest, r, k + 1, j);
  }

  lemma ArrivedHere(input: seq<int>, c: Config, n: nat, p: nat)
    requires Here(input, c, n, p)
    ensures Arrived(input, c, c, n, 0, p)
  {
    assert c.stack[..|c.stack|] == c.stack;
  }

  /** Arriving from one state further on. */
  lemma Further(input: seq<int>, c: Config, c1: Config, c': Config, u: nat, n: nat, m: nat, q: nat)
    requires c1.stack == c.stack + [u]
    ensures Arrived(input, c1, c', n, m, q) ==> Arrived(input, c, c', n, m + 1, q)
  {
    if Arrived(input, c1, c', n, m, q) {
      assert c'.stack[..|c.stack|] == c'.stack[..|c1.stack|][..|c.stack|] == c.stack;
    }
  }

  lemma SplitYield(w: seq<nat>, n: nat, front: seq<nat>, back: seq<nat>)
    requires n + |front + back| <= |w| && front + back == w[n..n + |front + back|]
    ensures front == w[n..n + |front|] && back == w[n + |front|..n + |front| + |back|]
    ensures front != [] ==> front[0] == w[n]
    ensures back != [] ==> back[0] == w[n + |front|]
  {
    var v := w[n..n + |front + back|];
    assert front == v[..|front|] && back == v[|front|..];
    assert v[..|front|] == w[n..n + |front|] && v[|front|..] == w[n + |front|..n + |front| + |back|];
  }

  lemma WholeRule(a: Automaton, p: nat, rhs: seq<nat>)
    ensures Spells(a, p, rhs[..0], p) && rhs[0..] == rhs
  {}

  /** The goto over the variable at symbol k of rule r. */
  lemma VarGoto(l: Lalr, p: nat, r: nat, k: nat, j: nat, r2: nat) returns (u: nat, i: nat)
    requires l.Ok() && l.g.IsRule(r) && r >= 3 && k < |l.g.Rhs(r)| && InState(l.g, l.a, p, l.g.rrhs[r] + k)
    requires l.IsGoto(j) && Spells(l.a, l.m.from[j], l.g.Rhs(r)[..k], p)
    requires l.g.IsRule(r2) && l.g.Rhs(r)[k] == l.g.rlhs[r2]
    ensures r2 >= 3 && InState(l.g, l.a, p, l.g.rrhs[r2])
    ensures l.IsGoto(i) && l.m.from[i] == p && l.m.to[i] == u && l.Sym(i) == l.g.rlhs[r2]
    ensures Spells(l.a, l.m.from[j], l.g.Rhs(r)[..k + 1], u) && InState(l.g, l.a, u, l.g.rrhs[r] + k + 1)
  {
    hide Lalr.Ok, Grammar.WellFormed, IsLR0, Grammar.Rhs, Spells, InState, Shift;
    LalrParts(l);
    RuleSymbol(l.g, r, k);
    l.g.RuleFacts(r2);
    RuleStarts(l.g, l.a, p, l.g.rrhs[r] + k, r2);
    u := SpellsRuleStep(l.g, l.a, l.m.from[j], r, k, p);
    i := l.GotoOf(p, l.g.rlhs[r2], u);
  }

  // ----- LALR(1) grammars -----

  /** No token has two actions in state s. */
  ghost predicate Decided(l: Lalr, s: nat)
    requires l.g.WellFormed()
  {
    && (forall y: nat, t: nat, r: nat :: !(ShiftsToken(l, s, y, t) && Reduces(l, s, r, y)))
    && (forall y: nat, q: nat, r: nat :: Reduces(l, s, q, y) && Reduces(l, s, r, y) ==> q == r)
  }

  /** State s holds $accept : goal . $end, so that it accepts on the end marker. */
  ghost predicate AcceptsAtEnd(l: Lalr, s: nat)
    requires l.g.WellFormed()
  {
    InState(l.g, l.a, s, 2)
  }

  /** State s does not reduce on the end marker. */
  ghost predicate EndIsFree(l: Lalr, s: nat)
    requires l.g.WellFormed()
  {
    forall r: nat :: !Reduces(l, s, r, 0)
  }

  /** State s never has to choose between a shift, reductions and accepting. */
  ghost predicate NoConflict(l: Lalr, s: nat)
    requires l.g.WellFormed()
  {
    Decided(l, s) && (AcceptsAtEnd(l, s) ==> EndIsFree(l, s))
  }

  ghost predicate IsLalr1(l: Lalr)
    requires l.g.WellFormed()
  {
    forall s: nat :: s < |l.a.cores| ==> NoConflict(l, s)
  }

  /** The only state that accepts is the one that state 0 goes to over the goal. */
  lemma OnlyFinalAccepts(l: Lalr, final: nat, s: nat)
    requires l.Ok() && Shift(l.a, 0, l.g.Goal(), final)
    ensures AcceptsAtEnd(l, s) <==> s == final
  {
    LalrParts(l);
    l.StartItem();
    AcceptItems(l.g);
    hide Lalr.Ok, Grammar.WellFormed, IsLR0, Shift, InState, Grammar.RuleEnd;
    ShiftMoves(l.g, l.a, 0, l.g.Goal(), final, 1);
    if InState(l.g, l.a, s, 2) {
      var p := AcceptCameFrom(l, s);
      ShiftUnique(l.g, l.a, 0, l.g.Goal(), s, final);
    }
  }

  lemma AcceptItems(g: Grammar)
    requires g.WellFormed()
    ensures g.IsItem(1) && g.IsItem(2) && g.ritem[1] == g.Goal() && g.ritem[2] == 0
    ensures g.RuleOf(1) == 2 && g.RuleOf(2) == 2 && g.rrhs[2] == 1
  {
    g.RuleOfUnique(1, 2);
    g.RuleOfUnique(2, 2);
  }

  lemma AcceptCameFrom(l: Lalr, s: nat) returns (p: nat)
    requires l.Ok() && InState(l.g, l.a, s, 2)
    ensures p == 0 && Shift(l.a, p, l.g.Goal(), s)
  {
    LalrParts(l);
    AcceptItems(l.g);
    var g, a := l.g, l.a;
    hide Lalr.Ok, Grammar.WellFormed, IsLR0, Shift, Grammar.RuleEnd;
    InStateItem(g, a, s, 2);
    if 2 !in a.cores[s].items { ClosureItem(g, a.cores[s].items, 2); }
    StatesExist(g, a);
    p := ReachedBy(g, a, s);
    ShiftCameFrom(g, a, p, a.cores[s].access, s, 2);
    StartOnly(l, p);
  }

  /** Only state 0 holds $accept : . goal $end. */
  lemma StartOnly(l: Lalr, p: nat)
    requires l.Ok() && InState(l.g, l.a, p, 1)
    ensures p == 0
  {
    LalrParts(l);
    AcceptItems(l.g);
    var g, a := l.g, l.a;
    hide Lalr.Ok, Grammar.WellFormed, IsLR0, Shift, Grammar.RuleEnd;
    InStateItem(g, a, p, 1);
    if 1 !in a.cores[p].items {
      ClosureItem(g, a.cores[p].items, 1);
      var j: nat :| InClosure(g, a.cores[p].items, j) && g.IsItem(j) && g.ritem[j] == g.rlhs[2];
      g.RuleFacts(2);
      g.ItemContent(j);
    }
    if p > 0 { KernelAt(g, a, p); }
  }

  /** Every state but the first is shifted to from an earlier one. */
  lemma ReachedBy(g: Grammar, a: Automaton, s: nat) returns (p: nat)
    requires g.WellFormed() && IsLR0(g, a) && 1 <= s < |a.cores|
    ensures p < s && Shift(a, p, a.cores[s].access, s)
  {
    hide Grammar.WellFormed, ShiftsOf, RedsOf;
    assert ReachedFromEarlier(a.shifts, s);
    p :| 0 <= p < s && p < |a.shifts| && s in a.shifts[p];
  }

  /** Nothing is suppressed, not even by precedence, and the final state does not reduce on the
      end marker, exactly when the grammar is LALR(1).  The second half cannot be left out:
      remove_conflicts does not know of the accept action, so that the first reduction on the
      end marker in the final state stands and is not counted. */
  lemma UnsuppressedIsLalr1(l: Lalr, pr: Precedence, p: Parser)
    requires l.Ok() && IsParser(l, pr, p)
    ensures Unsuppressed(p) && EndIsFree(l, p.final) <==> IsLalr1(l)
  {
    hide Lalr.Ok, Grammar.WellFormed, IsRowFor, AtMostOne, IsDefault, IsResolved, Decided, EndIsFree, AcceptsAtEnd,
         Shift;
    LalrParts(l);
    forall s: nat | s < |l.a.cores|
      ensures (forall k :: 0 <= k < |p.rows[s]| ==> p.rows[s][k].suppressed == 0) <==> Decided(l, s)
      ensures AcceptsAtEnd(l, s) <==> s == p.final
    {
      assert IsResolved(l, pr, s, s == p.final, p.rows[s]);
      RowUnsuppressed(l, pr, s, s == p.final, p.rows[s]);
      OnlyFinalAccepts(l, p.final, s);
    }
    assert p.final < |l.a.cores| by { ShiftKernel(l.g, l.a, 0, l.g.Goal(), p.final); }
    if IsLalr1(l) { assert NoConflict(l, p.final); }
    if IsLalr1(l) {
      forall s: nat | s < |l.a.cores| ensures Decided(l, s) { assert NoConflict(l, s); }
    }
  }

  lemma RowUnsuppressed(l: Lalr, pr: Precedence, s: nat, final: bool, row: seq<Action>)
    requires l.g.WellFormed() && IsResolved(l, pr, s, final, row)
    ensures (forall k :: 0 <= k < |row| ==> row[k].suppressed == 0) <==> Decided(l, s)
  {
    hide Grammar.WellFormed, IsRowFor, AllFresh, Resolved, Decided;
    var was :| IsRowFor(l, s, was) && AllFresh(pr, was) && Resolved(final, was, row, |was|);
    RowInOrder(l, pr, s, was);
    assert |row| == |was| by { SameLength(final, was, row); }
    NothingSuppressed(final, was, row);
    DifferIsDecided(l, s, was);
  }

  lemma SameLength(final: bool, was: seq<Action>, row: seq<Action>)
    requires Resolved(final, was, row, |was|)
    ensures |row| == |was|
  {}

  lemma DifferIsDecided(l: Lalr, s: nat, was: seq<Action>)
    requires l.g.WellFormed() && IsRowFor(l, s, was) && InOrder(was)
    ensures SymbolsDiffer(was) <==> Decided(l, s)
  {
    hide Grammar.WellFormed, Reduces, ShiftsToken;
    if SymbolsDiffer(was) {
      forall y: nat, t: nat, r: nat ensures !(Has(was, y, SHIFT, t) && Has(was, y, REDUCE, r)) {}
      forall y: nat, q: nat, r: nat | Has(was, y, REDUCE, q) && Has(was, y, REDUCE, r) ensures q == r {
        var j :| 0 <= j < |was| && IsAction(was[j], y, REDUCE, q);
        var k :| 0 <= k < |was| && IsAction(was[k], y, REDUCE, r);
      }
    }
    if Decided(l, s) {
      forall j, k | 0 <= j < k < |was| ensures was[j].symbol != was[k].symbol {
        assert Before(was[j], was[k]);
        HasOwn(was, j);
        HasOwn(was, k);
      }
    }
  }

  // ----- sentences -----

  /** A derivation from the goal: one of its rules, applied at the start. */
  lemma GoalRule(x: Generated, d: Forest) returns (r: nat, sub: Forest)
    requires x.Ok() && d.Valid(x.Cfg()) && d.Form(x.Cfg()) == [x.l.g.Goal()]
    ensures x.l.g.IsRule(r) && r >= 3 && x.l.g.rlhs[r] == x.l.g.Goal()
    ensures sub.Valid(x.Cfg()) && sub.Form(x.Cfg()) == x.l.g.Rhs(r) && sub.Yield() == d.Yield() &&
            d == Var(r, sub, Done)
  {
    hide Generated.Ok, Lalr.Ok, Grammar.WellFormed, IsLR0, Grammar.Unpacked, Grammar.Rhs;
    Parts(x);
    UnpackedTokens(x.l.g);
    var g, c := x.l.g, x.Cfg();
    assert d.Form(c)[0] == g.Goal();
    match d
    case Var(r1, sub1, rest) =>
      RuleForm(g, r1, sub1, rest);
      g.RuleFacts(r1);
      r, sub := r1, sub1;
      assert |d.Form(c)| == 1 + |rest.Form(c)|;
      NothingLeft(c, rest);
      assert sub.Yield() + [] == sub.Yield();
  }

  lemma NothingLeft(c: Cfg, rest: Forest)
    requires rest.Form(c) == []
    ensures rest == Done
  {}

  lemma GoalInStart(l: Lalr, r: nat)
    requires l.Ok() && l.g.IsRule(r) && l.g.rlhs[r] == l.g.Goal()
    ensures InState(l.g, l.a, 0, l.g.rrhs[r])
  {
    l.StartItem();
    assert l.g.ritem[1] == l.g.Goal() && l.g.IsItem(1);
    hide IsLR0, InState, Grammar.WellFormed;
    RuleStarts(l.g, l.a, 0, 1, r);
  }

  /** The end of the input can follow the goal. */
  lemma EndFollowsGoal(l: Lalr)
    requires l.Ok()
    ensures l.IsGoto(0) && l.m.from[0] == 0 && l.Sym(0) == l.g.Goal() && l.Follow(0, 0)
  {
    l.FirstGoto();
    assert l.g.ntokens >= 2;
    hide IsLR0, IsGotoMap, Grammar.WellFormed;
    assert l.DirectRead(0, 0);
    l.ReadSolves(0, 0, 0);
    l.FollowSolves(0, 0, 0);
  }

  /** d derives the tokens w from the goal. */
  ghost predicate IsDerivation(g: Grammar, d: Forest, w: seq<nat>)
    requires g.WellFormed()
  {
    d.Valid(g.Unpacked()) && d.Form(g.Unpacked()) == [g.Goal()] && d.Yield() == w
  }

  /** Parser completeness: with nothing suppressed, every sentence is accepted, in as many
      turns as its derivation has tokens and rules; and if the final state does not reduce on
      the end marker, then what the parser builds is that derivation. */
  lemma SentenceIsAccepted(x: Generated, input: seq<int>, w: seq<nat>, d: Forest)
    requires x.Ok() && Unsuppressed(x.p) && x.l.g.WellFormed() && IsInput(x.value, input, w) &&
             IsDerivation(x.l.g, d, w)
    ensures |x.t.table| == |x.t.check| && |x.t.gindex| == |x.t.dgoto|
    ensures Run(x.t, input, Start(), d.Size()).outcome == Accepted
    ensures EndIsFree(x.l, x.p.final) ==> Built(x.t, x.value, input, Start(), Done, d.Size()) == d
  {
    hide Generated.Ok, Lalr.Ok, Grammar.WellFormed, IsLR0, Unsuppressed, IsInput, EndIsFree, Step, Next, Run, Built,
         Grammar.Rhs, Grammar.Unpacked, InState, Spells, Lalr.Follow, Forest.Valid, Forest.Form, Forest.Yield;
    Parts(x);
    Sizes(x);
    var r, sub := GoalRule(x, d);
    var i, u := ReadyAtStart(x, input, w, r, sub);
    sub.JoinDone();
    var q := Parses(x, input, w, Start(), Done, 0, 0, sub, Done, r, 0, i);
    var m := sub.Size();
    if Run(x.t, input, Start(), m).outcome == Accepted {
      StoppedStays(x.t, input, Run(x.t, input, Start(), m), 1);
      RunOn(x.t, input, Start(), m, 1);
      assert !EndIsFree(x.l, x.p.final);
    } else {
      ParsedRule(x, input, w, Start(), Done, 0, 0, r, sub, i, u, q);
      RunLast(x.t, input, Start(), m);
    }
  }

  /** At the start the parser is ready for any derivation of the input from the goal. */
  lemma ReadyAtStart(x: Generated, input: seq<int>, w: seq<nat>, r: nat, sub: Forest) returns (i: nat, u: nat)
    requires x.Ok() && x.l.g.WellFormed() && IsInput(x.value, input, w) && x.l.g.IsRule(r) && r >= 3
    requires x.l.g.rlhs[r] == x.l.g.Goal()
    requires sub.Valid(x.Cfg()) && sub.Form(x.Cfg()) == x.l.g.Rhs(r) && sub.Yield() == w
    ensures Ready(x, input, w, Start(), 0, 0, sub, r, 0, i) && GoesOver(x.l, 0, r, i, u)
  {
    hide Generated.Ok, Lalr.Ok, Grammar.WellFormed, IsLR0, Grammar.Rhs, Grammar.Unpacked, InState, Spells, Lalr.Follow,
         Forest.Valid, Forest.Form, Forest.Yield;
    Parts(x);
    EndFollowsGoal(x.l);
    GoalInStart(x.l, r);
    WholeRule(x.l.a, 0, x.l.g.Rhs(r));
    assert w[0..0 + |w|] == w;
    i, u := 0, x.l.m.to[0];
    ReadyIs(x, input, w, Start(), 0, 0, sub, r, 0, 0);
  }

  lemma DerivationOf(g: Grammar, value: seq<nat>, input: seq<int>) returns (w: seq<nat>, d: Forest)
    requires g.WellFormed() && IsSentence(g, value, input)
    ensures IsInput(value, input, w) && IsDerivation(g, d, w)
  {
    hide Grammar.WellFormed, Grammar.Unpacked, IsInput;
    w :| IsInput(value, input, w) && Derives(g.Unpacked(), [g.Goal()], w);
    d :| d.Valid(g.Unpacked()) && d.Form(g.Unpacked()) == [g.Goal()] && d.Yield() == w;
  }

  /** The parser of a grammar without conflicts recognises its language: it accepts an input,
      after some number of steps, exactly when the input is a sentence. */
  lemma AcceptsExactlySentences(x: Generated, input: seq<int>)
    requires x.Ok() && Unsuppressed(x.p)
    ensures |x.t.table| == |x.t.check| && |x.t.gindex| == |x.t.dgoto|
    ensures IsSentence(x.l.g, x.value, input) <==>
              exists steps: nat :: Run(x.t, input, Start(), steps).outcome == Accepted
  {
    Sizes(x);
    Parts(x);
    hide Generated.Ok, Unsuppressed, Run, IsInput, Grammar.WellFormed;
    if IsSentence(x.l.g, x.value, input) {
      var w, d := DerivationOf(x.l.g, x.value, input);
      SentenceIsAccepted(x, input, w, d);
    }
    hide IsSentence;
    if exists steps: nat :: Run(x.t, input, Start(), steps).outcome == Accepted {
      var steps: nat :| Run(x.t, input, Start(), steps).outcome == Accepted;
      AcceptedIsSentence(x, input, steps);
    }
  }

  // ----- one derivation only -----

  /** An LALR(1) grammar is unambiguous: a sentence has one derivation, namely the one that the
      parser builds. */
  lemma OneDerivation(x: Generated, w: seq<nat>, d: Forest, e: Forest)
    requires x.Ok() && Unsuppressed(x.p) && x.l.g.WellFormed() && EndIsFree(x.l, x.p.final)
    requires IsDerivation(x.l.g, d, w) && IsDerivation(x.l.g, e, w)
    ensures d == e
  {
    hide Generated.Ok, Unsuppressed, EndIsFree, Run, Built, IsInput, IsDerivation, Grammar.WellFormed;
    Sizes(x);
    var input := InputOf(x, w, d);
    SentenceIsAccepted(x, input, w, d);
    SentenceIsAccepted(x, input, w, e);
    if d.Size() <= e.Size() {
      BuiltLater(x.t, x.value, input, d.Size(), e.Size());
    } else {
      BuiltLater(x.t, x.value, input, e.Size(), d.Size());
    }
  }

  lemma BuiltLater(t: Tables, value: seq<nat>, input: seq<int>, m: nat, n: nat)
    requires |t.table| == |t.check| && |t.gindex| == |t.dgoto| && m <= n &&
             Run(t, input, Start(), m).outcome == Accepted
    ensures Built(t, value, input, Start(), Done, n) == Built(t, value, input, Start(), Done, m)
  {
    BuiltOn(t, value, input, Start(), Done, m, n - m);
    BuiltStays(t, value, input, Run(t, input, Start(), m), Built(t, value, input, Start(), Done, m), n - m);
  }

  /** The numbers that the scanner gives the tokens of a sentence. */
  lemma InputOf(x: Generated, w: seq<nat>, d: Forest) returns (input: seq<int>)
    requires x.Ok() && x.l.g.WellFormed() && IsDerivation(x.l.g, d, w)
    ensures IsInput(x.value, input, w)
  {
    hide Generated.Ok, Grammar.WellFormed, Grammar.Unpacked;
    Parts(x);
    Sizes(x);
    UnpackedTokens(x.l.g);
    YieldsInner(x.l.g, d);
    d.YieldsTokens(x.Cfg());
    input := seq(|w|, i requires 0 <= i < |w| => x.value[w[i]]);
    forall i | 0 <= i < |w| ensures input[i] == x.value[w[i]] > 0 { ZeroToken(x, w[i]); }
  }

  /** The end marker and $accept do not come up inside a derivation. */
  lemma {:induction false} YieldsInner(g: Grammar, d: Forest)
    requires g.WellFormed() && d.Valid(g.Unpacked())
    requires forall k :: 0 <= k < |d.Form(g.Unpacked())| ==> d.Form(g.Unpacked())[k] !in {0, g.ntokens}
    ensures forall k :: 0 <= k < |d.Yield()| ==> d.Yield()[k] != 0
  {
    hide Grammar.WellFormed, Grammar.Unpacked, Grammar.Rhs;
    var c := g.Unpacked();
    match d
    case Done =>
    case Tok(t, rest) =>
      assert d.Form(c) == [t] + rest.Form(c);
      assert d.Form(c)[0] == t && forall k :: 0 <= k < |rest.Form(c)| ==> d.Form(c)[k + 1] == rest.Form(c)[k];
      YieldsInner(g, rest);
    case Var(r, sub, rest) =>
      RuleForm(g, r, sub, rest);
      assert d.Form(c)[0] == g.rlhs[r] && forall k :: 0 <= k < |rest.Form(c)| ==> d.Form(c)[k + 1] == rest.Form(c)[k];
      g.RuleFacts(r);
      forall k | 0 <= k < |g.Rhs(r)| ensures g.Rhs(r)[k] !in {0, g.ntokens} { RuleSymbol(g, r, k); }
      YieldsInner(g, sub);
      YieldsInner(g, rest);
  }
}
