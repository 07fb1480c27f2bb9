/** What the LALR(1) lookaheads are: the reads and includes relations over the gotos, and the
    Read and Follow sets they generate. */
module Lookaheads {
  import opened Automata
  import opened Gotos
  import opened Grammars
  import opened Paths
  import opened Reach
  import opened RuleTables

  /** A grammar, its LR(0) automaton and the numbering of its gotos. */
  datatype Lalr = Lalr(g: Grammar, a: Automaton, m: GotoMap)
  {
    ghost predicate Ok()
    {
      g.WellFormed() && IsLR0(g, a) && IsGotoMap(g, a, m)
    }

    ghost predicate IsGoto(k: nat) { k < |m.from| && k < |m.to| }

    /** The variable that goto k is over. */
    ghost function Sym(k: nat): nat
      requires IsGoto(k)
    {
      if m.to[k] < |a.cores| then a.cores[m.to[k]].access else 0
    }

    /** Goto k leaves m.from[k] over Sym(k) and arrives in m.to[k]. */
    lemma GotoFacts(k: nat)
      requires Ok() && k < |m.from|
      ensures IsGoto(k) && m.from[k] < |a.cores| && m.to[k] < |a.cores|
      ensures Shift(a, m.from[k], Sym(k), m.to[k]) && g.ntokens < Sym(k) < g.nsyms
    {
      hide Grammar.WellFormed, IsLR0;
      NVarsFits();
      var v := VarOf(m, k, g.NVars());
      assert WholeGroup(g, a, m, v);
      assert Transition(g, a, m.from[k], v, m.to[k]);
      if v == 0 { NoShiftOverAccept(g, a, m.from[k], m.to[k]); }
    }

    lemma NVarsFits()
      requires g.WellFormed()
      ensures g.ntokens + g.NVars() == g.nsyms && g.NVars() >= 2
    {}

    /** Every transition over a variable has a number. */
    lemma GotoOf(p: nat, x: nat, t: nat) returns (k: nat)
      requires Ok() && Shift(a, p, x, t) && x >= g.ntokens
      ensures k < |m.from| && IsGoto(k) && m.from[k] == p && m.to[k] == t && Sym(k) == x
      ensures x - g.ntokens < g.NVars() && m.first[x - g.ntokens] <= k < m.first[x - g.ntokens + 1]
    {
      hide Grammar.WellFormed, IsLR0;
      NVarsFits();
      ShiftKernel(g, a, p, x, t);
      var v := x - g.ntokens;
      assert WholeGroup(g, a, m, v);
      assert Transition(g, a, p, v, t) && HasTransition(g, a, p, v);
      assert Listed(m.from, m.first[v], m.first[v + 1], p);
      k :| m.first[v] <= k < m.first[v + 1] && m.from[k] == p;
      assert Transition(g, a, m.from[k], v, m.to[k]);
      ShiftUnique(g, a, p, x, t, m.to[k]);
    }

    lemma InGroup(v: nat, k: nat)
      requires Ok() && v < g.NVars() && m.first[v] <= k < m.first[v + 1]
      ensures k < |m.from| && IsGoto(k) && Sym(k) == g.ntokens + v
    {
      hide Grammar.WellFormed, IsLR0;
      assert WholeGroup(g, a, m, v);
      assert Transition(g, a, m.from[k], v, m.to[k]);
    }

    lemma SameGoto(j: nat, k: nat)
      requires Ok() && j < |m.from| && k < |m.from| && IsGoto(j) && IsGoto(k)
      requires m.from[j] == m.from[k] && Sym(j) == Sym(k)
      ensures j == k
    {
      hide Grammar.WellFormed, IsLR0;
      GotoFacts(j);
      GotoFacts(k);
      NVarsFits();
      var u, v := VarOf(m, j, g.NVars()), VarOf(m, k, g.NVars());
      assert WholeGroup(g, a, m, u) && WholeGroup(g, a, m, v);
      assert Transition(g, a, m.from[j], u, m.to[j]) && Transition(g, a, m.from[k], v, m.to[k]);
      GotoUnique(g, a, m, u, j, k);
    }

    /** Goto 0 is the goto of state 0 over the goal. */
    lemma FirstGoto()
      requires Ok()
      ensures |m.from| > 0 && IsGoto(0) && m.from[0] == 0 && Sym(0) == g.Goal()
    {
      hide IsLR0;
      assert InState(g, a, 0, 1) && g.ritem[1] == g.Goal() by { StartItem(); }
      var t := ShiftExists(g, a, 0, 1);
      var k := GotoOf(0, g.Goal(), t);
      GotoFacts(0);
      var v := VarOf(m, 0, g.NVars());
      assert WholeGroup(g, a, m, v) && WholeGroup(g, a, m, 1);
      assert v == 1;
      assert Transition(g, a, m.from[0], 1, m.to[0]);
    }

    lemma StartItem()
      requires g.WellFormed() && IsLR0(g, a)
      ensures InState(g, a, 0, 1)
    {}

    // ----- the relations -----

    /** Token t can be shifted right after goto i; after goto 0 the end of the input can come. */
    ghost predicate DirectRead(i: nat, t: nat)
      requires IsGoto(i)
    {
      t < g.ntokens && ((exists u :: Shift(a, m.to[i], t, u)) || (i == 0 && t == 0))
    }

    /** i reads j: goto j follows goto i and is over a variable that derives the empty string. */
    ghost predicate ReadsGoto(i: nat, j: nat)
      requires g.WellFormed()
    {
      IsGoto(i) && IsGoto(j) && m.from[j] == m.to[i] && DerivesEmpty(g, Sym(j))
    }

    ghost function Reads(): Rel
      requires g.WellFormed()
    {
      (i: nat, j: nat) => ReadsGoto(i, j)
    }

    ghost predicate Read(i: nat, t: nat)
      requires g.WellFormed()
    {
      exists j: nat :: IsGoto(j) && Reaches(Reads(), i, j) && DirectRead(j, t)
    }

    ghost predicate AllDeriveEmpty(symbols: seq<nat>)
      requires g.WellFormed()
    {
      forall k :: 0 <= k < |symbols| ==> DerivesEmpty(g, symbols[k])
    }

    /** Goto i is made at the k-th symbol of rule r, applied at goto j; what follows it in the
        rule derives the empty string. */
    ghost predicate IncludesBy(i: nat, j: nat, r: nat, k: nat)
      requires g.WellFormed() && IsGoto(i) && IsGoto(j)
    {
      && g.IsRule(r) && g.rlhs[r] == Sym(j) && k < |g.Rhs(r)| && g.Rhs(r)[k] == Sym(i)
      && Spells(a, m.from[j], g.Rhs(r)[..k], m.from[i]) && AllDeriveEmpty(g.Rhs(r)[k + 1..])
    }

    ghost predicate IncludesGoto(i: nat, j: nat)
      requires g.WellFormed()
    {
      IsGoto(i) && IsGoto(j) && exists r: nat, k: nat :: IncludesBy(i, j, r, k)
    }

    ghost function Includes(): Rel
      requires g.WellFormed()
    {
      (i: nat, j: nat) => IncludesGoto(i, j)
    }

    /** Token t can follow goto i. */
    ghost predicate Follow(i: nat, t: nat)
      requires g.WellFormed()
    {
      exists j: nat :: IsGoto(j) && Reaches(Includes(), i, j) && Read(j, t)
    }

    /** Rule r is applied at goto i and its right side leads to state q. */
    ghost predicate LooksBack(q: nat, r: nat, i: nat)
      requires g.WellFormed() && g.IsRule(r)
    {
      IsGoto(i) && Sym(i) == g.rlhs[r] && Spells(a, m.from[i], g.Rhs(r), q)
    }

    /** The LALR(1) lookahead set of rule r in state q. */
    ghost predicate InLA(q: nat, r: nat, t: nat)
      requires g.WellFormed() && g.IsRule(r)
    {
      exists i: nat :: LooksBack(q, r, i) && Follow(i, t)
    }

    // ----- the sets solve their equations, and are the least that do -----

    lemma ReadSolves(i: nat, j: nat, t: nat)
      requires g.WellFormed() && IsGoto(i)
      ensures DirectRead(i, t) ==> Read(i, t)
      ensures Reads()(i, j) && Read(j, t) ==> Read(i, t)
    {
      ReachesRefl(Reads(), i);
      if Reads()(i, j) && Read(j, t) {
        var k: nat :| IsGoto(k) && Reaches(Reads(), j, k) && DirectRead(k, t);
        ReachesCons(Reads(), i, j, k);
      }
    }

    lemma FollowSolves(i: nat, j: nat, t: nat)
      requires g.WellFormed() && IsGoto(i)
      ensures Read(i, t) ==> Follow(i, t)
      ensures Includes()(i, j) && Follow(j, t) ==> Follow(i, t)
    {
      ReachesRefl(Includes(), i);
      if Includes()(i, j) && Follow(j, t) {
        var k: nat :| IsGoto(k) && Reaches(Includes(), j, k) && Read(k, t);
        ReachesCons(Includes(), i, j, k);
      }
    }

    /** Any family of sets that holds the direct reads and is closed under reads and includes
        holds every Follow set. */
    lemma FollowIsLeast(x: (nat, nat) -> bool, i: nat, t: nat)
      requires g.WellFormed() && Follow(i, t)
      requires forall j: nat :: IsGoto(j) && DirectRead(j, t) ==> x(j, t)
      requires forall j: nat, k: nat :: Reads()(j, k) && x(k, t) ==> x(j, t)
      requires forall j: nat, k: nat :: Includes()(j, k) && x(k, t) ==> x(j, t)
      ensures x(i, t)
    {
      var j: nat :| IsGoto(j) && Reaches(Includes(), i, j) && Read(j, t);
      var k: nat :| IsGoto(k) && Reaches(Reads(), j, k) && DirectRead(k, t);
      hide *;
      Backwards(Reads(), x, t, j, k);
      Backwards(Includes(), x, t, i, j);
    }
  }

  lemma Backwards(r: Rel, x: (nat, nat) -> bool, t: nat, i: nat, k: nat)
    requires Reaches(r, i, k) && x(k, t)
    requires forall a: nat, b: nat :: r(a, b) && x(b, t) ==> x(a, t)
    ensures x(i, t)
  {
    var n: nat :| Steps(r, i, n, k);
    StepsBackwards(r, x, t, i, n, k);
  }

  lemma {:induction false} StepsBackwards(r: Rel, x: (nat, nat) -> bool, t: nat, i: nat, n: nat, k: nat)
    requires Steps(r, i, n, k) && x(k, t)
    requires forall a: nat, b: nat :: r(a, b) && x(b, t) ==> x(a, t)
    ensures x(i, t)
    decreases n
  {
    if n != 0 {
      var z: nat :| r(i, z) && Steps(r, z, n - 1, k);
      StepsBackwards(r, x, t, z, n - 1, k);
    }
  }
}
