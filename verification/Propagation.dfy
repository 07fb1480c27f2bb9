/** The LALR(1) lookaheads by another definition: those that LR(1) closure generates for the
    items of the LR(0) automaton, or carries on from other items.  The lookaheads that lalr.c
    computes are exactly these. */
module Propagation {
  import opened Automata
  import opened Cfgs
  import opened Completeness
  import opened Grammars
  import opened Items
  import opened Lookaheads
  import opened Mkpar
  import opened Paths
  import opened Reach
  import opened RuleTables
  import opened Soundness

  // ----- FIRST -----

  ghost predicate AllEmpty(g: Grammar, form: seq<nat>)
    requires g.WellFormed()
  {
    forall k :: 0 <= k < |form| ==> DerivesEmpty(g, form[k])
  }

  /** Rule r of variable a has symbol b at k, behind symbols that derive the empty string. */
  ghost predicate BeginsBy(g: Grammar, a: nat, b: nat, r: nat, k: nat)
    requires g.WellFormed()
  {
    g.IsRule(r) && g.rlhs[r] == a && k < |g.Rhs(r)| && g.Rhs(r)[k] == b && AllEmpty(g, g.Rhs(r)[..k])
  }

  ghost predicate BeginsWith(g: Grammar, a: nat, b: nat)
    requires g.WellFormed()
  {
    exists r: nat, k: nat :: BeginsBy(g, a, b, r, k)
  }

  ghost function Begins(g: Grammar): Rel
    requires g.WellFormed()
  {
    (a: nat, b: nat) => BeginsWith(g, a, b)
  }

  /** Token t can come first in what the symbols of form derive. */
  ghost predicate First(g: Grammar, form: seq<nat>, t: nat)
    requires g.WellFormed()
  {
    t < g.ntokens && exists k :: 0 <= k < |form| && FirstAt(g, form, k, t)
  }

  ghost predicate FirstAt(g: Grammar, form: seq<nat>, k: nat, t: nat)
    requires g.WellFormed() && k < |form|
  {
    AllEmpty(g, form[..k]) && Reaches(Begins(g), form[k], t)
  }

  // ----- lookaheads of items -----

  /** The symbols behind the dot of item i. */
  ghost function Rest(g: Grammar, i: nat): seq<nat>
    requires g.WellFormed() && g.IsItem(i)
  {
    g.Rhs(g.RuleOf(i))[i - g.rrhs[g.RuleOf(i)]..]
  }

  /** Which tokens are lookaheads of which items in which states. */
  type Family = (nat, nat, nat) -> bool

  /** Item i of state s has its dot before the variable of rule r. */
  ghost predicate Calls(l: Lalr, s: nat, i: nat, r: nat)
    requires l.g.WellFormed()
  {
    InState(l.g, l.a, s, i) && l.g.IsItem(i) && l.g.IsItem(i + 1) && l.g.IsRule(r) && l.g.ritem[i] == l.g.rlhs[r]
  }

  /** What can come first behind the variable is a lookahead of its rules. */
  ghost predicate Generates(l: Lalr, f: Family)
    requires l.g.WellFormed()
  {
    forall s: nat, i: nat, r: nat, t: nat :: Calls(l, s, i, r) && First(l.g, Rest(l.g, i + 1), t) ==>
        f(s, l.g.rrhs[r], t)
  }

  /** All behind the variable derives the empty string. */
  ghost predicate CallsLast(l: Lalr, s: nat, i: nat, r: nat)
    requires l.g.WellFormed()
  {
    Calls(l, s, i, r) && AllEmpty(l.g, Rest(l.g, i + 1))
  }

  /** Then the item's lookaheads are the rules' too. */
  ghost predicate Carries(l: Lalr, f: Family)
    requires l.g.WellFormed()
  {
    forall s: nat, i: nat, r: nat :: CallsLast(l, s, i, r) ==> HasAll(f, s, i, l.g.rrhs[r])
  }

  /** In state s, item k has all lookaheads of item i. */
  ghost predicate HasAll(f: Family, s: nat, i: nat, k: nat)
  {
    forall t: nat :: f(s, i, t) ==> f(s, k, t)
  }

  /** Moving the dot keeps the lookaheads; states reached from several others get them all. */
  ghost predicate Moves(l: Lalr, f: Family)
    requires l.g.WellFormed()
  {
    forall s: nat, i: nat, u: nat, t: nat ::
      InState(l.g, l.a, s, i) && l.g.IsItem(i) && Shift(l.a, s, l.g.ritem[i], u) && f(s, i, t) ==> f(u, i + 1, t)
  }

  ghost predicate IsClosed(l: Lalr, f: Family)
    requires l.g.WellFormed()
  {
    Generates(l, f) && Carries(l, f) && Moves(l, f)
  }

  // ----- items and their rules -----

  lemma StartsFit(g: Grammar)
    requires g.WellFormed()
    ensures |g.rrhs| == |g.rlhs| + 1
  {}

  lemma RestIs(g: Grammar, r: nat, k: nat)
    requires g.WellFormed() && g.IsRule(r) && k <= |g.Rhs(r)|
    ensures g.IsItem(g.rrhs[r] + k) && g.RuleOf(g.rrhs[r] + k) == r && Rest(g, g.rrhs[r] + k) == g.Rhs(r)[k..]
    ensures k < |g.Rhs(r)| ==> g.ritem[g.rrhs[r] + k] == g.Rhs(r)[k]
    ensures k == |g.Rhs(r)| ==> g.ritem[g.rrhs[r] + k] < 0
  {
    hide Grammar.WellFormed, Grammar.RuleOf, Grammar.RuleEnd, Grammar.Rhs, Grammar.RuleLaidOut, Grammar.UserRule;
    g.RuleFacts(r);
    g.RuleOfUnique(g.rrhs[r] + k, r);
    g.ItemContent(g.rrhs[r] + k);
  }

  /** An item with a symbol behind the dot. */
  lemma RestStep(g: Grammar, i: nat)
    requires g.WellFormed() && g.IsItem(i) && g.ritem[i] >= 0
    ensures g.IsItem(i + 1) && g.RuleOf(i + 1) == g.RuleOf(i) && Rest(g, i) == [g.ritem[i]] + Rest(g, i + 1)
  {
    hide Grammar.WellFormed, Grammar.Rhs, Grammar.RuleOf, Grammar.RuleEnd, Rest;
    var r := g.RuleOf(i);
    StartsFit(g);
    var k := i - g.rrhs[r];
    g.ItemContent(i);
    RestIs(g, r, k);
    RestIs(g, r, k + 1);
    assert g.Rhs(r)[k..] == [g.Rhs(r)[k]] + g.Rhs(r)[k + 1..];
  }

  lemma FirstOfRest(g: Grammar, x: nat, rest: seq<nat>, t: nat)
    requires g.WellFormed()
    ensures t < g.ntokens && Reaches(Begins(g), x, t) ==> First(g, [x] + rest, t)
    ensures DerivesEmpty(g, x) && First(g, rest, t) ==> First(g, [x] + rest, t)
  {
    hide Grammar.WellFormed, DerivesEmpty, Reaches;
    var form := [x] + rest;
    if t < g.ntokens && Reaches(Begins(g), x, t) {
      assert form[..0] == [];
      assert FirstAt(g, form, 0, t);
    }
    if DerivesEmpty(g, x) && First(g, rest, t) {
      var k :| 0 <= k < |rest| && FirstAt(g, rest, k, t);
      assert form[..k + 1] == [x] + rest[..k];
      assert FirstAt(g, form, k + 1, t);
    }
  }

  /** What can come first in a rule's right side can come first in its variable. */
  lemma FirstOfRule(g: Grammar, r: nat, t: nat)
    requires g.WellFormed() && g.IsRule(r) && First(g, g.Rhs(r), t)
    ensures Reaches(Begins(g), g.rlhs[r], t)
  {
    hide Grammar.WellFormed, Grammar.Rhs, Reaches, AllEmpty;
    var form := g.Rhs(r);
    var k :| 0 <= k < |form| && FirstAt(g, form, k, t);
    assert BeginsBy(g, g.rlhs[r], form[k], r, k);
    ReachesCons(Begins(g), g.rlhs[r], form[k], t);
  }

  lemma CornersBegin(g: Grammar, a: nat, b: nat)
    requires g.WellFormed() && Reaches(LeftCorner(g), a, b)
    ensures Reaches(Begins(g), a, b)
  {
    forall x: nat, y: nat | LeftCorner(g)(x, y) ensures Begins(g)(x, y) { CornerBegins(g, x, y); }
    hide Grammar.WellFormed, Reaches;
    ReachesMono(LeftCorner(g), Begins(g), a, b);
  }

  lemma CornerBegins(g: Grammar, a: nat, b: nat)
    requires g.WellFormed() && StartsWith(g, a, b)
    ensures BeginsWith(g, a, b)
  {
    var r: nat :| g.IsRule(r) && g.rlhs[r] == a && g.ritem[g.rrhs[r]] == b;
    hide Grammar.WellFormed, Grammar.Rhs;
    RestIs(g, r, 0);
    assert g.Rhs(r)[..0] == [];
    assert BeginsBy(g, a, b, r, 0);
  }

  // ----- what is computed is held by every closed family -----

  /** Of the items that can yield t first, one is in the kernel. */
  lemma ToKernel(l: Lalr, s: nat, i: nat, t: nat) returns (k: nat)
    requires l.Ok() && InState(l.g, l.a, s, i) && l.g.IsItem(i) && First(l.g, Rest(l.g, i), t)
    ensures s < |l.a.cores| && k in l.a.cores[s].items && InState(l.g, l.a, s, k) && l.g.IsItem(k) &&
            First(l.g, Rest(l.g, k), t)
  {
    hide Lalr.Ok, Grammar.WellFormed, IsLR0, Grammar.Rhs, First, Grammar.RuleEnd, Reaches, DerivesEmpty;
    LalrParts(l);
    var g := l.g;
    InStateItem(g, l.a, s, i);
    k := i;
    if i !in l.a.cores[s].items {
      ClosureItem(g, l.a.cores[s].items, i);
      var r: nat;
      k, r :| k in l.a.cores[s].items && Predicts(g, k, r) && i == g.rrhs[r];
      RestIs(g, r, 0);
      assert g.Rhs(r)[0..] == g.Rhs(r);
      FirstOfRule(g, r, t);
      CornersBegin(g, g.ritem[k] as nat, g.rlhs[r]);
      ReachesTrans(Begins(g), g.ritem[k] as nat, g.rlhs[r], t);
      RestStep(g, k);
      assert t < g.ntokens by { FirstIsToken(g, Rest(g, i), t); }
      FirstOfRest(g, g.ritem[k], Rest(g, k + 1), t);
    }
  }

  lemma FirstIsToken(g: Grammar, form: seq<nat>, t: nat)
    requires g.WellFormed() && First(g, form, t)
    ensures t < g.ntokens
  {}

  /** What can be read after goto j comes first behind some item of the kernel it leads to. */
  lemma {:induction false} ReadFromKernel(l: Lalr, j: nat, n: nat, k: nat, t: nat) returns (i: nat)
    requires l.Ok() && l.g.WellFormed() && l.IsGoto(j) && l.IsGoto(k) && Steps(l.Reads(), j, n, k) && l.DirectRead(k, t)
    ensures l.m.to[j] < |l.a.cores| && i in l.a.cores[l.m.to[j]].items && l.g.IsItem(i) && First(l.g, Rest(l.g, i), t)
    decreases n
  {
    hide Lalr.Ok, Grammar.WellFormed, First, Rest, Lalr.DirectRead, Lalr.ReadsGoto;
    if n == 0 {
      i := ReadHere(l, j, t);
    } else {
      var j2: nat :| l.Reads()(j, j2) && Steps(l.Reads(), j2, n - 1, k);
      ReadsIsGoto(l, j, j2);
      i := ReadFromKernel(l, j2, n - 1, k, t);
      i := ReadBehind(l, j2, i, t);
    }
    i := ToKernel(l, l.m.to[j], i, t);
  }

  lemma ReadsIsGoto(l: Lalr, j: nat, k: nat)
    requires l.g.WellFormed() && l.Reads()(j, k)
    ensures l.IsGoto(j) && l.IsGoto(k) && l.m.from[k] == l.m.to[j] && DerivesEmpty(l.g, l.Sym(k))
  {}

  lemma ReadHere(l: Lalr, j: nat, t: nat) returns (i: nat)
    requires l.Ok() && l.g.WellFormed() && l.IsGoto(j) && l.DirectRead(j, t)
    ensures InState(l.g, l.a, l.m.to[j], i) && l.g.IsItem(i) && First(l.g, Rest(l.g, i), t)
  {
    hide Lalr.Ok, Grammar.WellFormed, IsLR0, First, Shift, InState, Rest, Reaches, DerivesEmpty;
    LalrParts(l);
    ReachesRefl(Begins(l.g), t);
    if u :| Shift(l.a, l.m.to[j], t, u) {
      i := ShiftHasItem(l.g, l.a, l.m.to[j], t, u);
    } else {
      i := EndItem(l);
    }
    RestStep(l.g, i);
    FirstOfRest(l.g, t, Rest(l.g, i + 1), t);
  }

  lemma FirstBehind(g: Grammar, i: nat, t: nat)
    requires g.WellFormed() && g.IsItem(i) && g.ritem[i] >= 0 && g.IsItem(i + 1)
    requires DerivesEmpty(g, g.ritem[i]) && First(g, Rest(g, i + 1), t)
    ensures First(g, Rest(g, i), t)
  {
    hide Grammar.WellFormed, Rest, First, DerivesEmpty;
    RestStep(g, i);
    FirstOfRest(g, g.ritem[i], Rest(g, i + 1), t);
  }

  /** Before a variable that derives the empty string. */
  lemma ReadBehind(l: Lalr, k: nat, next: nat, t: nat) returns (i: nat)
    requires l.Ok() && l.g.WellFormed() && l.IsGoto(k) && DerivesEmpty(l.g, l.Sym(k))
    requires l.m.to[k] < |l.a.cores| && next in l.a.cores[l.m.to[k]].items
    requires l.g.IsItem(next) && First(l.g, Rest(l.g, next), t)
    ensures InState(l.g, l.a, l.m.from[k], i) && l.g.IsItem(i) && First(l.g, Rest(l.g, i), t)
  {
    i := CameFrom(l, k, next);
    hide *;
    FirstBehind(l.g, i, t);
  }

  lemma CameFrom(l: Lalr, k: nat, next: nat) returns (i: nat)
    requires l.Ok() && l.g.WellFormed() && l.IsGoto(k)
    requires l.m.to[k] < |l.a.cores| && next in l.a.cores[l.m.to[k]].items
    ensures next == i + 1 && InState(l.g, l.a, l.m.from[k], i) && l.g.IsItem(i) && l.g.ritem[i] == l.Sym(k)
  {
    hide Lalr.Ok, Grammar.WellFormed, IsLR0, Shift, InState;
    LalrParts(l);
    l.GotoFacts(k);
    ShiftCameFrom(l.g, l.a, l.m.from[k], l.Sym(k), l.m.to[k], next);
    i := next - 1;
  }

  /** Behind goto 0 the end marker stands in $accept's rule. */
  lemma EndItem(l: Lalr) returns (i: nat)
    requires l.Ok()
    ensures i == 2 && l.IsGoto(0) && InState(l.g, l.a, l.m.to[0], i) && l.g.IsItem(i) && l.g.ritem[i] == 0
  {
    hide Lalr.Ok, Grammar.WellFormed, IsLR0, Shift, InState;
    LalrParts(l);
    l.StartItem();
    AcceptItems(l.g);
    l.FirstGoto();
    l.GotoFacts(0);
    i := 2;
    ShiftMoves(l.g, l.a, 0, l.g.Goal(), l.m.to[0], 1);
  }

  /** Token t is a lookahead, in f, of the rules of goto j's variable, where the goto starts. */
  ghost predicate Holds(l: Lalr, f: Family, j: nat, t: nat)
    requires l.g.WellFormed()
  {
    l.IsGoto(j) ==> forall r: nat :: l.g.IsRule(r) && l.g.rlhs[r] == l.Sym(j) ==> f(l.m.from[j], l.g.rrhs[r], t)
  }

  lemma ReadIsHeld(l: Lalr, f: Family, j: nat, t: nat)
    requires l.Ok() && l.g.WellFormed() && IsClosed(l, f) && l.IsGoto(j) && l.Read(j, t)
    ensures Holds(l, f, j, t)
  {
    hide Lalr.Ok, Grammar.WellFormed, IsLR0, First, Shift, InState, Rest, DerivesEmpty, Steps, Lalr.DirectRead, Carries,
         Moves;
    LalrParts(l);
    l.GotoFacts(j);
    var k: nat :| l.IsGoto(k) && Reaches(l.Reads(), j, k) && l.DirectRead(k, t);
    var n: nat :| Steps(l.Reads(), j, n, k);
    var i := ReadFromKernel(l, j, n, k, t);
    var s := l.m.from[j];
    ShiftCameFrom(l.g, l.a, s, l.Sym(j), l.m.to[j], i);
    forall r: nat | l.g.IsRule(r) && l.g.rlhs[r] == l.Sym(j) ensures f(s, l.g.rrhs[r], t) {
      assert Calls(l, s, i - 1, r);
      assert First(l.g, Rest(l.g, (i - 1) + 1), t);
    }
  }

  /** Lookaheads move along a rule. */
  lemma {:induction false} MovesAlong(l: Lalr, f: Family, p: nat, r: nat, k: nat, s: nat, t: nat)
    requires l.Ok() && l.g.WellFormed() && Moves(l, f) && l.g.IsRule(r) && r >= 3 && k <= |l.g.Rhs(r)|
    requires InState(l.g, l.a, p, l.g.rrhs[r]) && Spells(l.a, p, l.g.Rhs(r)[..k], s) && f(p, l.g.rrhs[r], t)
    ensures InState(l.g, l.a, s, l.g.rrhs[r] + k) && f(s, l.g.rrhs[r] + k, t)
    decreases k
  {
    hide Lalr.Ok, Grammar.WellFormed, IsLR0, Shift, InState, Grammar.Rhs;
    LalrParts(l);
    if k > 0 {
      var front := l.g.Rhs(r)[..k];
      assert front[..k - 1] == l.g.Rhs(r)[..k - 1] && front[k - 1] == l.g.Rhs(r)[k - 1];
      var m: nat :| Spells(l.a, p, front[..|front| - 1], m) && Shift(l.a, m, front[|front| - 1], s);
      MovesAlong(l, f, p, r, k - 1, m, t);
      RestIs(l.g, r, k - 1);
      ShiftMoves(l.g, l.a, m, l.g.Rhs(r)[k - 1], s, l.g.rrhs[r] + k - 1);
    }
  }

  /** A goto starts in a state that has its variable's rules at their start. */
  lemma GotoStarts(l: Lalr, j: nat, r: nat)
    requires l.Ok() && l.IsGoto(j) && l.g.IsRule(r) && l.g.rlhs[r] == l.Sym(j)
    ensures r >= 3 && InState(l.g, l.a, l.m.from[j], l.g.rrhs[r])
  {
    hide Lalr.Ok, Grammar.WellFormed, IsLR0, Shift, InState;
    LalrParts(l);
    l.GotoFacts(j);
    l.g.RuleFacts(r);
    var i := ShiftHasItem(l.g, l.a, l.m.from[j], l.Sym(j), l.m.to[j]);
    RuleStarts(l.g, l.a, l.m.from[j], i, r);
  }

  lemma IncludesIsHeld(l: Lalr, f: Family, i: nat, j: nat, t: nat)
    requires l.Ok() && l.g.WellFormed() && IsClosed(l, f) && l.Includes()(i, j) && Holds(l, f, j, t)
    ensures Holds(l, f, i, t)
  {
    hide Lalr.Ok, Grammar.WellFormed, Shift, InState, Grammar.Rhs, Spells, Rest, Generates, Moves, Lalr.AllDeriveEmpty,
         AllEmpty;
    var r: nat, k: nat :| l.IncludesBy(i, j, r, k);
    GotoStarts(l, j, r);
    MovesAlong(l, f, l.m.from[j], r, k, l.m.from[i], t);
    RestIs(l.g, r, k);
    RestIs(l.g, r, k + 1);
    l.g.RuleFacts(r);
    SameEmpty(l, l.g.Rhs(r)[k + 1..]);
    var at := l.g.rrhs[r] + k;
    forall q: nat | l.g.IsRule(q) && l.g.rlhs[q] == l.Sym(i) ensures f(l.m.from[i], l.g.rrhs[q], t) {
      assert CallsLast(l, l.m.from[i], at, q);
    }
  }

  lemma SameEmpty(l: Lalr, form: seq<nat>)
    requires l.g.WellFormed()
    ensures l.AllDeriveEmpty(form) <==> AllEmpty(l.g, form)
  {}

  lemma FollowIsHeld(l: Lalr, f: Family, j: nat, t: nat)
    requires l.Ok() && l.g.WellFormed() && IsClosed(l, f) && l.Follow(j, t)
    ensures Holds(l, f, j, t)
  {
    hide Lalr.Ok, Grammar.WellFormed, IsClosed, Lalr.Read, Lalr.IncludesGoto, Reaches, Holds;
    var k: nat :| l.IsGoto(k) && Reaches(l.Includes(), j, k) && l.Read(k, t);
    ReadIsHeld(l, f, k, t);
    var x := (a: nat, b: nat) => Holds(l, f, a, b);
    forall a: nat, b: nat | l.Includes()(a, b) && x(b, t) ensures x(a, t) { IncludesIsHeld(l, f, a, b, t); }
    Backwards(l.Includes(), x, t, j, k);
  }

  /** Every lookahead that lalr.c computes is one that has to be there. */
  lemma ComputedIsHeld(l: Lalr, f: Family, q: nat, r: nat, t: nat)
    requires l.Ok() && l.g.WellFormed() && IsClosed(l, f) && l.g.IsRule(r) && r >= 3 && l.InLA(q, r, t)
    ensures f(q, l.g.RuleEnd(r), t)
  {
    hide Lalr.Ok, Grammar.WellFormed, Lalr.Follow, Generates, Carries, Moves, Spells, Grammar.Rhs, Grammar.RuleEnd,
         InState;
    var j: nat :| l.LooksBack(q, r, j) && l.Follow(j, t);
    FollowIsHeld(l, f, j, t);
    GotoStarts(l, j, r);
    assert l.g.Rhs(r)[..|l.g.Rhs(r)|] == l.g.Rhs(r);
    MovesAlong(l, f, l.m.from[j], r, |l.g.Rhs(r)|, q, t);
  }

  // ----- what is computed is such a family -----

  /** Goto j applies rule r, and after its first k symbols is in state s; t can follow the goto. */
  ghost predicate KnownBy(l: Lalr, s: nat, i: nat, t: nat, r: nat, k: nat, j: nat)
    requires l.g.WellFormed()
  {
    && l.g.IsRule(r) && r >= 3 && k <= |l.g.Rhs(r)| && i == l.g.rrhs[r] + k && InState(l.g, l.a, s, i)
    && l.IsGoto(j) && l.Sym(j) == l.g.rlhs[r] && Spells(l.a, l.m.from[j], l.g.Rhs(r)[..k], s) && l.Follow(j, t)
  }

  ghost predicate IsKnown(l: Lalr, s: nat, i: nat, t: nat)
    requires l.g.WellFormed()
  {
    exists r: nat, k: nat, j: nat :: KnownBy(l, s, i, t, r, k, j)
  }

  ghost function Known(l: Lalr): Family
    requires l.g.WellFormed()
  {
    (s: nat, i: nat, t: nat) => IsKnown(l, s, i, t)
  }

  /** At the end of a rule the family is the lookahead set. */
  lemma KnownAtEnd(l: Lalr, q: nat, r: nat, t: nat)
    requires l.Ok() && l.g.WellFormed() && l.g.IsRule(r) && r >= 3
    ensures IsKnown(l, q, l.g.RuleEnd(r), t) <==> l.InLA(q, r, t)
  {
    hide Lalr.Ok, Grammar.WellFormed, Lalr.Follow, Spells, Grammar.Rhs, Grammar.RuleEnd, InState;
    var n := |l.g.Rhs(r)|;
    assert l.g.Rhs(r)[..n] == l.g.Rhs(r);
    RestIs(l.g, r, n);
    if IsKnown(l, q, l.g.RuleEnd(r), t) {
      var r2: nat, k: nat, j: nat :| KnownBy(l, q, l.g.RuleEnd(r), t, r2, k, j);
      RestIs(l.g, r2, k);
      assert l.LooksBack(q, r, j);
    }
    if l.InLA(q, r, t) {
      var j: nat :| l.LooksBack(q, r, j) && l.Follow(j, t);
      GotoStarts(l, j, r);
      EndInState(l, j, r, q);
      assert KnownBy(l, q, l.g.RuleEnd(r), t, r, n, j);
    }
  }

  lemma EndInState(l: Lalr, j: nat, r: nat, q: nat)
    requires l.Ok() && l.g.WellFormed() && l.g.IsRule(r) && r >= 3 && l.IsGoto(j) &&
             InState(l.g, l.a, l.m.from[j], l.g.rrhs[r])
    requires Spells(l.a, l.m.from[j], l.g.Rhs(r), q)
    ensures InState(l.g, l.a, q, l.g.RuleEnd(r))
  {
    hide Lalr.Ok, Grammar.WellFormed, Spells, Grammar.Rhs, Grammar.RuleEnd, InState;
    LalrParts(l);
    StatesExist(l.g, l.a);
    SpelledReduces(l.g, l.a, l.m.from[j], r, q);
    ReducesWhenComplete(l.g, l.a, q, r);
  }

  /** Where in its rule an item is that has a symbol behind the dot. */
  lemma PlaceOf(g: Grammar, i: nat) returns (q: nat, k: nat)
    requires g.WellFormed() && g.IsItem(i) && g.ritem[i] >= 0
    ensures g.IsRule(q) && k < |g.Rhs(q)| && q < |g.rrhs| && i == g.rrhs[q] + k && g.Rhs(q)[k] == g.ritem[i]
    ensures g.IsItem(i + 1) && Rest(g, i + 1) == g.Rhs(q)[k + 1..]
  {
    hide Grammar.WellFormed, Grammar.Rhs, Grammar.RuleOf, Grammar.RuleEnd, Rest;
    StartsFit(g);
    q := g.RuleOf(i);
    g.ItemContent(i);
    k := i - g.rrhs[q];
    RestIs(g, q, k);
    RestIs(g, q, k + 1);
  }

  /** A variable that is called in a state has a goto there. */
  lemma CallGoto(l: Lalr, s: nat, i: nat, r: nat) returns (j: nat, q: nat, k: nat)
    requires l.Ok() && l.g.WellFormed() && Calls(l, s, i, r)
    ensures l.g.IsRule(q) && k < |l.g.Rhs(q)| && q < |l.g.rrhs| && i == l.g.rrhs[q] + k &&
            l.g.Rhs(q)[k] == l.g.rlhs[r] && r >= 3
    ensures l.IsGoto(j) && l.m.from[j] == s && l.Sym(j) == l.g.rlhs[r]
    ensures InState(l.g, l.a, l.m.to[j], i + 1) && Rest(l.g, i + 1) == l.g.Rhs(q)[k + 1..]
  {
    hide Lalr.Ok, Grammar.WellFormed, IsLR0, Grammar.Rhs, Grammar.RuleOf, Grammar.RuleEnd, InState, Shift, Rest;
    LalrParts(l);
    l.g.RuleFacts(r);
    q, k := PlaceOf(l.g, i);
    l.g.ItemContent(i);
    var u := ShiftExists(l.g, l.a, s, i);
    ShiftMoves(l.g, l.a, s, l.g.ritem[i], u, i);
    j := l.GotoOf(s, l.g.rlhs[r], u);
  }

  /** Tokens do not derive the empty string. */
  lemma EmptyIsVariable(g: Grammar, x: nat)
    requires g.WellFormed() && DerivesEmpty(g, x)
    ensures x >= g.ntokens
  {
    UnpackedTokens(g);
    hide Grammar.WellFormed, Grammar.Unpacked;
    var c := g.Unpacked();
    var d: Forest :| d.Valid(c) && d.Form(c) == [x] && d.Yield() == [];
    match d
    case Tok(t, rest) =>
    case Var(r, sub, rest) =>
      assert d.Form(c)[0] == c.rules[r].lhs;
      g.UnpackedRule(r);
      g.RuleFacts(r);
  }

  lemma RestAt(g: Grammar, i: nat)
    requires g.WellFormed() && g.IsItem(i) && Rest(g, i) != []
    ensures g.ritem[i] >= 0 && Rest(g, i)[0] == g.ritem[i]
  {
    var r := g.RuleOf(i);
    var k := i - g.rrhs[r];
    RestIs(g, r, k);
  }

  /** The goto over a variable behind the dot. */
  lemma NextGoto(l: Lalr, j: nat, i: nat) returns (k: nat)
    requires l.Ok() && l.g.WellFormed() && l.IsGoto(j) && InState(l.g, l.a, l.m.to[j], i) && l.g.IsItem(i)
    requires l.g.ritem[i] >= l.g.ntokens
    ensures l.IsGoto(k) && l.m.from[k] == l.m.to[j] && l.Sym(k) == l.g.ritem[i] && InState(l.g, l.a, l.m.to[k], i + 1)
  {
    hide Lalr.Ok, Grammar.WellFormed, IsLR0, InState, Shift;
    LalrParts(l);
    RulesExist(l.g);
    l.g.ItemContent(i);
    var u := ShiftExists(l.g, l.a, l.m.to[j], i);
    ShiftMoves(l.g, l.a, l.m.to[j], l.g.ritem[i], u, i);
    k := l.GotoOf(l.m.to[j], l.g.ritem[i], u);
  }

  /** A token right behind the dot. */
  lemma ReadToken(l: Lalr, j: nat, i: nat)
    requires l.Ok() && l.g.WellFormed() && l.IsGoto(j) && InState(l.g, l.a, l.m.to[j], i) && l.g.IsItem(i)
    requires 0 <= l.g.ritem[i] < l.g.ntokens
    ensures l.Read(j, l.g.ritem[i])
  {
    hide Lalr.Ok, Grammar.WellFormed, IsLR0, InState, Shift;
    LalrParts(l);
    l.g.ItemContent(i);
    var t := l.g.ritem[i];
    if t > 0 {
      var u := ShiftExists(l.g, l.a, l.m.to[j], i);
    } else {
      l.GotoFacts(j);
      var p := AcceptCameFrom(l, l.m.to[j]);
      FirstOnly(l, j);
    }
    assert l.DirectRead(j, t);
    l.ReadSolves(j, j, t);
  }

  /** Only goto 0 leads to the final state. */
  lemma FirstOnly(l: Lalr, j: nat)
    requires l.Ok() && l.g.WellFormed() && l.IsGoto(j) && InState(l.g, l.a, l.m.to[j], 2)
    ensures j == 0
  {
    hide Lalr.Ok, Grammar.WellFormed, IsLR0, Shift;
    LalrParts(l);
    AcceptItems(l.g);
    l.GotoFacts(j);
    l.FirstGoto();
    InStateItem(l.g, l.a, l.m.to[j], 2);
    if 2 !in l.a.cores[l.m.to[j]].items { ClosureItem(l.g, l.a.cores[l.m.to[j]].items, 2); }
    ShiftCameFrom(l.g, l.a, l.m.from[j], l.Sym(j), l.m.to[j], 2);
    StartOnly(l, l.m.from[j]);
    l.SameGoto(j, 0);
  }

  lemma EmptyTail(g: Grammar, x: nat, form: seq<nat>)
    requires g.WellFormed() && AllEmpty(g, [x] + form)
    ensures AllEmpty(g, form)
  {
    hide Grammar.WellFormed, DerivesEmpty;
    assert forall k :: 0 <= k < |form| ==> form[k] == ([x] + form)[k + 1];
  }

  lemma {:induction false} ReadFrom(l: Lalr, j: nat, i: nat, m: nat, n: nat, t: nat)
    requires l.Ok() && l.g.WellFormed() && l.IsGoto(j) && InState(l.g, l.a, l.m.to[j], i) && l.g.IsItem(i) &&
             t < l.g.ntokens
    requires m < |Rest(l.g, i)| && AllEmpty(l.g, Rest(l.g, i)[..m]) && Steps(Begins(l.g), Rest(l.g, i)[m], n, t)
    ensures l.Read(j, t)
    decreases n, m
  {
    hide Lalr.Ok, Grammar.WellFormed, InState, Lalr.Read, Rest, DerivesEmpty, Grammar.Rhs;
    var rest := Rest(l.g, i);
    RestAt(l.g, i);
    if m > 0 {
      assert rest[..m][0] == rest[0] && DerivesEmpty(l.g, rest[0]);
      EmptyIsVariable(l.g, rest[0]);
      var k := NextGoto(l, j, i);
      RestStep(l.g, i);
      var more := Rest(l.g, i + 1);
      assert rest[m] == more[m - 1];
      assert rest[..m] == [rest[0]] + more[..m - 1];
      EmptyTail(l.g, rest[0], more[..m - 1]);
      ReadFrom(l, k, i + 1, m - 1, n, t);
      l.ReadSolves(j, k, t);
    } else if n == 0 {
      ReadToken(l, j, i);
    } else {
      var y: nat :| Begins(l.g)(rest[0], y) && Steps(Begins(l.g), y, n - 1, t);
      var r: nat, k: nat :| BeginsBy(l.g, rest[0], y, r, k);
      StartOf(l, l.m.to[j], i, r);
      ReadFrom(l, j, l.g.rrhs[r], k, n - 1, t);
    }
  }

  lemma StartOf(l: Lalr, s: nat, i: nat, r: nat)
    requires l.Ok() && l.g.WellFormed() && InState(l.g, l.a, s, i) && l.g.IsItem(i) && l.g.IsRule(r) &&
             l.g.ritem[i] == l.g.rlhs[r]
    ensures r < |l.g.rrhs| && InState(l.g, l.a, s, l.g.rrhs[r]) && l.g.IsItem(l.g.rrhs[r])
    ensures Rest(l.g, l.g.rrhs[r]) == l.g.Rhs(r)
  {
    hide Lalr.Ok, Grammar.WellFormed, IsLR0, InState, Grammar.Rhs, Rest;
    LalrParts(l);
    l.g.RuleFacts(r);
    RuleStarts(l.g, l.a, s, i, r);
    RestIs(l.g, r, 0);
    assert l.g.Rhs(r)[0..] == l.g.Rhs(r);
  }

  lemma FirstIsRead(l: Lalr, j: nat, i: nat, t: nat)
    requires l.Ok() && l.g.WellFormed() && l.IsGoto(j) && InState(l.g, l.a, l.m.to[j], i) && l.g.IsItem(i)
    requires First(l.g, Rest(l.g, i), t)
    ensures l.Read(j, t)
  {
    hide Lalr.Ok, Grammar.WellFormed, InState, Rest, Lalr.Read, AllEmpty;
    var m :| 0 <= m < |Rest(l.g, i)| && FirstAt(l.g, Rest(l.g, i), m, t);
    var n: nat :| Steps(Begins(l.g), Rest(l.g, i)[m], n, t);
    ReadFrom(l, j, i, m, n, t);
  }

  lemma KnownAtStart(l: Lalr, s: nat, r: nat, t: nat, j: nat)
    requires l.Ok() && l.g.WellFormed() && l.IsGoto(j) && l.m.from[j] == s && l.g.IsRule(r) && l.Sym(j) == l.g.rlhs[r]
    requires l.Follow(j, t)
    ensures r < |l.g.rrhs| && IsKnown(l, s, l.g.rrhs[r], t)
  {
    StartsFit(l.g);
    GotoStarts(l, j, r);
    hide Lalr.Ok, Grammar.WellFormed, InState, Lalr.Follow, Grammar.Rhs;
    assert l.g.Rhs(r)[..0] == [];
    assert KnownBy(l, s, l.g.rrhs[r], t, r, 0, j);
  }

  lemma KnownGenerates(l: Lalr)
    requires l.Ok() && l.g.WellFormed()
    ensures Generates(l, Known(l))
  {
    hide Lalr.Ok, Grammar.WellFormed, InState, Rest, Lalr.Read, Lalr.Follow, First, Grammar.Rhs, IsKnown;
    StartsFit(l.g);
    forall s: nat, i: nat, r: nat, t: nat | Calls(l, s, i, r) && First(l.g, Rest(l.g, i + 1), t)
      ensures IsKnown(l, s, l.g.rrhs[r], t)
    {
      var j, q, k := CallGoto(l, s, i, r);
      FirstIsRead(l, j, i + 1, t);
      l.FollowSolves(j, j, t);
      KnownAtStart(l, s, r, t, j);
    }
  }

  lemma KnownCarries(l: Lalr)
    requires l.Ok() && l.g.WellFormed()
    ensures Carries(l, Known(l))
  {
    hide Lalr.Ok, Grammar.WellFormed, InState, Rest, Lalr.Read, Lalr.Follow, Grammar.Rhs, KnownBy;
    StartsFit(l.g);
    forall s: nat, i: nat, r: nat | CallsLast(l, s, i, r) ensures HasAll(Known(l), s, i, l.g.rrhs[r]) {
      forall t: nat | IsKnown(l, s, i, t) ensures IsKnown(l, s, l.g.rrhs[r], t) {
        var q: nat, k: nat, j: nat :| KnownBy(l, s, i, t, q, k, j);
        CarriesOne(l, s, i, r, t, q, k, j);
      }
    }
  }

  lemma CarriesOne(l: Lalr, s: nat, i: nat, r: nat, t: nat, q: nat, k: nat, j: nat)
    requires l.Ok() && l.g.WellFormed() && CallsLast(l, s, i, r) && KnownBy(l, s, i, t, q, k, j)
    ensures r < |l.g.rrhs| && IsKnown(l, s, l.g.rrhs[r], t)
  {
    hide Lalr.Ok, Grammar.WellFormed, InState, Rest, Lalr.Read, Lalr.Follow, Grammar.Rhs, Grammar.RuleEnd,
         Grammar.RuleOf, AllEmpty, Lalr.AllDeriveEmpty, IsKnown, Spells, DerivesEmpty, Lalr.Sym;
    StartsFit(l.g);
    var j2, q2, k2 := CallGoto(l, s, i, r);
    RestIs(l.g, q, k);
    RestIs(l.g, q2, k2);
    SameEmpty(l, l.g.Rhs(q)[k + 1..]);
    assert l.IncludesBy(j2, j, q, k);
    assert l.IncludesGoto(j2, j);
    l.FollowSolves(j2, j, t);
    KnownAtStart(l, s, r, t, j2);
  }

  lemma KnownMoves(l: Lalr)
    requires l.Ok() && l.g.WellFormed()
    ensures Moves(l, Known(l))
  {
    hide Lalr.Ok, Grammar.WellFormed, InState, Lalr.Follow, Grammar.Rhs, KnownBy, Shift;
    forall s: nat, i: nat, u: nat, t: nat |
      InState(l.g, l.a, s, i) && l.g.IsItem(i) && Shift(l.a, s, l.g.ritem[i], u) && IsKnown(l, s, i, t)
      ensures IsKnown(l, u, i + 1, t)
    {
      var r: nat, k: nat, j: nat :| KnownBy(l, s, i, t, r, k, j);
      MovesOne(l, s, i, u, t, r, k, j);
    }
  }

  lemma MovesOne(l: Lalr, s: nat, i: nat, u: nat, t: nat, r: nat, k: nat, j: nat)
    requires l.Ok() && l.g.WellFormed() && l.g.IsItem(i) && Shift(l.a, s, l.g.ritem[i], u) &&
             KnownBy(l, s, i, t, r, k, j)
    ensures IsKnown(l, u, i + 1, t)
  {
    hide Lalr.Ok, Grammar.WellFormed, InState, Lalr.Follow, Lalr.Sym, Grammar.Rhs, Grammar.RuleEnd, Shift, Spells;
    MovesOn(l, l.m.from[j], s, r, k, u);
    assert KnownBy(l, u, i + 1, t, r, k + 1, j);
  }

  lemma MovesOn(l: Lalr, p: nat, s: nat, r: nat, k: nat, u: nat)
    requires l.Ok() && l.g.WellFormed() && l.g.IsRule(r) && k <= |l.g.Rhs(r)| && l.g.IsItem(l.g.rrhs[r] + k)
    requires InState(l.g, l.a, s, l.g.rrhs[r] + k) && Shift(l.a, s, l.g.ritem[l.g.rrhs[r] + k], u)
    requires Spells(l.a, p, l.g.Rhs(r)[..k], s)
    ensures k < |l.g.Rhs(r)| && InState(l.g, l.a, u, l.g.rrhs[r] + k + 1) && Spells(l.a, p, l.g.Rhs(r)[..k + 1], u)
  {
    hide Lalr.Ok, Grammar.WellFormed, IsLR0, InState, Shift, Spells, Rest, Grammar.Rhs, Grammar.RuleEnd, Grammar.RuleOf,
         IsKernel, MovesTo;
    LalrParts(l);
    StartsFit(l.g);
    var i, rhs := l.g.rrhs[r] + k, l.g.Rhs(r);
    RestIs(l.g, r, k);
    ShiftKernel(l.g, l.a, s, l.g.ritem[i], u);
    ShiftMoves(l.g, l.a, s, l.g.ritem[i], u, i);
    SpellsOne(l.a, p, rhs[..k], s, rhs[k], u);
    assert rhs[..k] + [rhs[k]] == rhs[..k + 1];
  }

  /** The lookaheads by the relations reads, includes and lookback are exactly those that have
      to be there: the ones that every closed family has. */
  lemma LookaheadsAreLeast(l: Lalr, q: nat, r: nat, t: nat)
    requires l.Ok() && l.g.WellFormed() && l.g.IsRule(r) && r >= 3
    ensures l.InLA(q, r, t) <==> forall f: Family :: IsClosed(l, f) ==> f(q, l.g.RuleEnd(r), t)
  {
    hide Lalr.Ok, Grammar.WellFormed, Generates, Carries, Moves, Lalr.InLA, IsKnown, Grammar.RuleEnd;
    if l.InLA(q, r, t) {
      forall f: Family | IsClosed(l, f) ensures f(q, l.g.RuleEnd(r), t) { ComputedIsHeld(l, f, q, r, t); }
    }
    KnownGenerates(l);
    KnownCarries(l);
    KnownMoves(l);
    assert IsClosed(l, Known(l));
    KnownAtEnd(l, q, r, t);
    if forall f: Family :: IsClosed(l, f) ==> f(q, l.g.RuleEnd(r), t) {
      assert Known(l)(q, l.g.RuleEnd(r), t);
    }
  }
}
