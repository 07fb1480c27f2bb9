/** The parser of an LALR(1) grammar stops on every input.  A run that reads no further keeps
    adding to its derivation; any derivation it has built can be completed to a sentence, on
    which the parser would have to make the same turns before it reads on; and there are only so
    many tokens that could come next. */
module Termination {
  import opened Automata
  import opened Cfgs
  import opened Completeness
  import opened Grammars
  import opened Items
  import opened Lookaheads
  import opened Output
  import opened Packing
  import opened Paths
  import opened Reach
  import opened Skeleton
  import opened Soundness

  /** Every variable derives some string of tokens. */
  ghost predicate Productive(g: Grammar)
    requires g.WellFormed()
  {
    forall v: nat :: g.ntokens < v < g.nsyms ==> DerivesSome(g.Unpacked(), v)
  }

  ghost predicate DerivesSome(c: Cfg, v: nat)
  {
    exists w: seq<nat> :: Derives(c, [v], w)
  }

  /** Nothing was suppressed, and the final state does not reduce on the end marker. */
  ghost predicate NeverChooses(x: Generated)
    requires x.l.g.WellFormed()
  {
    Unsuppressed(x.p) && EndIsFree(x.l, x.p.final)
  }

  // ----- completing what has been built -----

  lemma {:induction false} SomeForest(g: Grammar, form: seq<nat>) returns (d: Forest)
    requires g.WellFormed() && Productive(g)
    requires forall k :: 0 <= k < |form| ==> form[k] < g.nsyms && form[k] != g.ntokens
    ensures d.Valid(g.Unpacked()) && d.Form(g.Unpacked()) == form
  {
    hide Grammar.WellFormed, Grammar.Unpacked;
    var c := g.Unpacked();
    if form == [] {
      d := Done;
    } else {
      var rest := SomeForest(g, form[1..]);
      UnpackedTokens(g);
      if form[0] < g.ntokens {
        d := Tok(form[0], rest);
        assert d.Form(c) == [form[0]] + rest.Form(c);
      } else {
        assert DerivesSome(c, form[0]);
        var w :| Derives(c, [form[0]], w);
        var first: Forest :| first.Valid(c) && first.Form(c) == [form[0]] && first.Yield() == w;
        first.JoinMeans(c, rest);
        d := first.Join(rest);
      }
      assert [form[0]] + form[1..] == form;
    }
  }

  lemma RestOfRule(g: Grammar, r: nat, k: nat) returns (d: Forest)
    requires g.WellFormed() && Productive(g) && g.IsRule(r) && r >= 3 && k <= |g.Rhs(r)|
    ensures d.Valid(g.Unpacked()) && d.Form(g.Unpacked()) == g.Rhs(r)[k..]
  {
    hide Grammar.WellFormed, Grammar.Unpacked, Grammar.Rhs, Productive;
    forall i | k <= i < |g.Rhs(r)| ensures g.Rhs(r)[i] < g.nsyms && g.Rhs(r)[i] != g.ntokens { RuleSymbol(g, r, i); }
    d := SomeForest(g, g.Rhs(r)[k..]);
  }

  /** The parser, on the tokens of d and more, gets to where it has built d and is ready, in
      state p, for the rest of rule r. */
  ghost predicate GetsReady(x: Generated, d: Forest, p: nat, r: nat, k: nat, rest: Forest, w: seq<nat>, input: seq<int>)
    requires x.l.g.WellFormed() && |x.t.table| == |x.t.check| && |x.t.gindex| == |x.t.dgoto|
  {
    && Built(x.t, x.value, input, Start(), Done, d.Size()) == d
    && exists j: nat :: Ready(x, input, w, Run(x.t, input, Start(), d.Size()), |d.Yield()|, p, rest, r, k, j)
  }

  ghost predicate IsRest(g: Grammar, r: nat, k: nat, rest: Forest)
    requires g.WellFormed()
  {
    g.IsRule(r) && k <= |g.Rhs(r)| && rest.Valid(g.Unpacked()) && rest.Form(g.Unpacked()) == g.Rhs(r)[k..]
  }

  /** Whatever the rest of rule r derives, its tokens and then y complete those of d to a
      sentence, and parsing it comes through d. */
  ghost predicate Leads(x: Generated, d: Forest, p: nat, r: nat, k: nat, y: seq<nat>)
    requires x.l.g.WellFormed() && |x.t.table| == |x.t.check| && |x.t.gindex| == |x.t.dgoto|
  {
    forall rest: Forest :: IsRest(x.l.g, r, k, rest) ==> LeadsOn(x, d, p, r, k, y, rest)
  }

  ghost predicate LeadsOn(x: Generated, d: Forest, p: nat, r: nat, k: nat, y: seq<nat>, rest: Forest)
    requires x.l.g.WellFormed() && |x.t.table| == |x.t.check| && |x.t.gindex| == |x.t.dgoto|
  {
    var w := d.Yield() + (rest.Yield() + y);
    && IsTokens(x.l.g, w)
    && forall input :: IsInput(x.value, input, w) ==> GetsReady(x, d, p, r, k, rest, w, input)
  }

  /** The tokens w are a sentence. */
  ghost predicate IsTokens(g: Grammar, w: seq<nat>)
    requires g.WellFormed()
  {
    exists d: Forest :: IsDerivation(g, d, w)
  }

  /** The rules of the goal, at the start. */
  lemma GoalLeads(x: Generated, r: nat)
    requires x.Ok() && x.l.g.WellFormed() && x.l.g.IsRule(r) && r >= 3 && x.l.g.rlhs[r] == x.l.g.Goal()
    ensures |x.t.table| == |x.t.check| && |x.t.gindex| == |x.t.dgoto|
    ensures Leads(x, Done, 0, r, 0, [])
  {
    hide Generated.Ok, Grammar.WellFormed, Grammar.Rhs, Grammar.Unpacked, Ready, IsInput, GoesOver;
    Sizes(x);
    assert Done.Size() == 0 && Done.Yield() == [];
    forall rest: Forest | IsRest(x.l.g, r, 0, rest) ensures LeadsOn(x, Done, 0, r, 0, [], rest) {
      assert x.l.g.Rhs(r)[0..] == x.l.g.Rhs(r);
      var w := Done.Yield() + (rest.Yield() + []);
      assert w == rest.Yield();
      GoalDerives(x.l.g, r, rest);
      assert IsDerivation(x.l.g, Var(r, rest, Done), w);
      forall input | IsInput(x.value, input, w) ensures GetsReady(x, Done, 0, r, 0, rest, w, input) {
        var i, u := ReadyAtStart(x, input, w, r, rest);
        NothingDone(x, input);
        assert Ready(x, input, w, Run(x.t, input, Start(), Done.Size()), |Done.Yield()|, 0, rest, r, 0, i);
      }
    }
  }

  lemma NothingDone(x: Generated, input: seq<int>)
    requires |x.t.table| == |x.t.check| && |x.t.gindex| == |x.t.dgoto|
    ensures Run(x.t, input, Start(), 0) == Start() && Built(x.t, x.value, input, Start(), Done, 0) == Done
  {}

  lemma GoalDerives(g: Grammar, r: nat, sub: Forest)
    requires g.WellFormed() && g.IsRule(r) && g.rlhs[r] == g.Goal() && sub.Valid(g.Unpacked()) &&
             sub.Form(g.Unpacked()) == g.Rhs(r)
    ensures IsDerivation(g, Var(r, sub, Done), sub.Yield())
  {
    hide Grammar.WellFormed, Grammar.Rhs, Grammar.Unpacked;
    g.UnpackedRule(r);
    var c, d := g.Unpacked(), Var(r, sub, Done);
    var none: Forest := Done;
    assert none.Valid(c) && none.Form(c) == [] && none.Yield() == [];
    assert d.Form(c) == [g.Goal()] + none.Form(c) && d.Yield() == sub.Yield() + none.Yield();
  }

  /** From a rule to the rules of the variable that comes next in it. */
  lemma ChildLeads(x: Generated, d: Forest, p: nat, q: nat, k: nat, y: seq<nat>, r: nat, more: Forest)
    requires x.Ok() && x.l.g.WellFormed() && |x.t.table| == |x.t.check| && |x.t.gindex| == |x.t.dgoto|
    requires x.l.g.IsRule(q) && k < |x.l.g.Rhs(q)| && x.l.g.IsRule(r) && x.l.g.Rhs(q)[k] == x.l.g.rlhs[r]
    requires IsRest(x.l.g, q, k + 1, more) && Leads(x, d, p, q, k, y)
    ensures Leads(x, d, p, r, 0, more.Yield() + y)
  {
    hide Generated.Ok, Grammar.WellFormed, Grammar.Rhs, Forest.Yield, IsRest, LeadsOn;
    forall rest: Forest | IsRest(x.l.g, r, 0, rest) ensures LeadsOn(x, d, p, r, 0, more.Yield() + y, rest) {
      VarIsRest(x.l.g, q, k, r, rest, more);
      assert LeadsOn(x, d, p, q, k, y, Var(r, rest, more));
      ChildLeadsOn(x, d, p, q, k, y, r, rest, more);
    }
  }

  lemma ChildLeadsOn(x: Generated, d: Forest, p: nat, q: nat, k: nat, y: seq<nat>, r: nat, rest: Forest, more: Forest)
    requires x.Ok() && x.l.g.WellFormed() && |x.t.table| == |x.t.check| && |x.t.gindex| == |x.t.dgoto|
    requires LeadsOn(x, d, p, q, k, y, Var(r, rest, more))
    ensures LeadsOn(x, d, p, r, 0, more.Yield() + y, rest)
  {
    hide Generated.Ok, Grammar.WellFormed, IsInput, IsTokens, GetsReady, Forest.Yield;
    var all := Var(r, rest, more);
    var w := d.Yield() + (all.Yield() + y);
    SameWords(d, r, rest, more, y);
    forall input | IsInput(x.value, input, w) ensures GetsReady(x, d, p, r, 0, rest, w, input) {
      assert GetsReady(x, d, p, q, k, all, w, input);
      ChildReady(x, d, p, q, k, r, rest, more, w, input);
    }
  }

  lemma SameWords(d: Forest, r: nat, rest: Forest, more: Forest, y: seq<nat>)
    ensures d.Yield() + (Var(r, rest, more).Yield() + y) == d.Yield() + (rest.Yield() + (more.Yield() + y))
  {
    assert Var(r, rest, more).Yield() == rest.Yield() + more.Yield();
  }

  lemma ChildReady(x: Generated, d: Forest, p: nat, q: nat, k: nat, r: nat, rest: Forest, more: Forest, w: seq<nat>,
                   input: seq<int>)
    requires x.Ok() && x.l.g.WellFormed() && |x.t.table| == |x.t.check| && |x.t.gindex| == |x.t.dgoto|
    requires GetsReady(x, d, p, q, k, Var(r, rest, more), w, input)
    ensures GetsReady(x, d, p, r, 0, rest, w, input)
  {
    hide Generated.Ok, Lalr.Ok, Grammar.WellFormed, Ready, GoesOver, AlongRule, Run, Built, Forest.Size, Forest.Yield;
    Parts(x);
    var c := Run(x.t, input, Start(), d.Size());
    var j: nat :| Ready(x, input, w, c, |d.Yield()|, p, Var(r, rest, more), q, k, j);
    var i, u := ReadyInside(x, input, w, c, |d.Yield()|, p, r, rest, more, q, k, j);
  }

  lemma VarIsRest(g: Grammar, q: nat, k: nat, r: nat, rest: Forest, more: Forest)
    requires g.WellFormed() && g.IsRule(q) && k < |g.Rhs(q)| && g.IsRule(r) && g.Rhs(q)[k] == g.rlhs[r]
    requires IsRest(g, q, k + 1, more) && IsRest(g, r, 0, rest)
    ensures IsRest(g, q, k, Var(r, rest, more))
  {
    hide Grammar.WellFormed, Grammar.Rhs, Grammar.Unpacked;
    g.UnpackedRule(r);
    assert g.Rhs(r)[0..] == g.Rhs(r) && g.Rhs(q)[k..] == [g.Rhs(q)[k]] + g.Rhs(q)[k + 1..];
  }

  /** From the start of a rule along what has been built of its right side. */
  lemma AlongLeads(x: Generated, d: Forest, front: Forest, p0: nat, p: nat, r: nat, k: nat, y: seq<nat>,
                   stack: seq<nat>)
    requires x.Ok() && x.l.g.WellFormed() && NeverChooses(x) && |x.t.table| == |x.t.check| &&
             |x.t.gindex| == |x.t.dgoto|
    requires d.Valid(x.Cfg()) && front.Valid(x.Cfg()) && x.l.g.IsRule(r) && k <= |x.l.g.Rhs(r)|
    requires front.Form(x.Cfg()) == x.l.g.Rhs(r)[..k] && Leads(x, d, p0, r, 0, y)
    requires IsPath(x.l.a, stack, d.Join(front).Form(x.Cfg())) && stack[|stack| - 1] == p
    ensures Leads(x, d.Join(front), p, r, k, y)
  {
    hide Generated.Ok, Grammar.WellFormed, Grammar.Rhs, Grammar.Unpacked, NeverChooses, IsPath, LeadsOn, IsRest,
         Forest.Valid, Forest.Form, Forest.Join;
    forall rest: Forest | IsRest(x.l.g, r, k, rest) ensures LeadsOn(x, d.Join(front), p, r, k, y, rest) {
      JoinIsRest(x.l.g, r, k, front, rest);
      assert LeadsOn(x, d, p0, r, 0, y, front.Join(rest));
      AlongLeadsOn(x, d, front, p0, p, r, k, y, stack, rest);
    }
  }

  lemma JoinIsRest(g: Grammar, r: nat, k: nat, front: Forest, rest: Forest)
    requires g.WellFormed() && front.Valid(g.Unpacked()) && IsRest(g, r, k, rest) &&
             front.Form(g.Unpacked()) == g.Rhs(r)[..k]
    ensures IsRest(g, r, 0, front.Join(rest)) && rest.Valid(g.Unpacked())
  {
    hide Grammar.WellFormed, Grammar.Rhs, Grammar.Unpacked, Forest.Valid, Forest.Form, Forest.Join;
    front.JoinMeans(g.Unpacked(), rest);
    assert g.Rhs(r)[..k] + g.Rhs(r)[k..] == g.Rhs(r)[0..];
  }

  lemma AlongLeadsOn(x: Generated, d: Forest, front: Forest, p0: nat, p: nat, r: nat, k: nat, y: seq<nat>,
                     stack: seq<nat>, rest: Forest)
    requires x.Ok() && x.l.g.WellFormed() && NeverChooses(x) && |x.t.table| == |x.t.check| &&
             |x.t.gindex| == |x.t.dgoto|
    requires d.Valid(x.Cfg()) && front.Valid(x.Cfg()) && rest.Valid(x.Cfg()) && |front.Form(x.Cfg())| == k
    requires LeadsOn(x, d, p0, r, 0, y, front.Join(rest))
    requires IsPath(x.l.a, stack, d.Join(front).Form(x.Cfg())) && stack[|stack| - 1] == p
    ensures LeadsOn(x, d.Join(front), p, r, k, y, rest)
  {
    hide Generated.Ok, Grammar.WellFormed, Grammar.Unpacked, IsInput, IsTokens, NeverChooses, IsPath, GetsReady,
         Forest.Valid, Forest.Form, Forest.Yield, Forest.Join;
    d.JoinMeans(x.Cfg(), front);
    front.JoinMeans(x.Cfg(), rest);
    var e, all := d.Join(front), front.Join(rest);
    var w := e.Yield() + (rest.Yield() + y);
    assert w == d.Yield() + (all.Yield() + y);
    forall input | IsInput(x.value, input, w) ensures GetsReady(x, e, p, r, k, rest, w, input) {
      assert GetsReady(x, d, p0, r, 0, all, w, input);
      GetsThrough(x, d, front, p0, p, r, k, rest, w, input, stack);
    }
  }

  lemma GetsThrough(x: Generated, d: Forest, front: Forest, p0: nat, p: nat, r: nat, k: nat, rest: Forest, w: seq<nat>,
                    input: seq<int>, stack: seq<nat>)
    requires x.Ok() && x.l.g.WellFormed() && NeverChooses(x) && |x.t.table| == |x.t.check| &&
             |x.t.gindex| == |x.t.dgoto|
    requires d.Valid(x.Cfg()) && front.Valid(x.Cfg()) && |front.Form(x.Cfg())| == k && IsInput(x.value, input, w)
    requires GetsReady(x, d, p0, r, 0, front.Join(rest), w, input)
    requires IsPath(x.l.a, stack, d.Join(front).Form(x.Cfg())) && stack[|stack| - 1] == p
    ensures GetsReady(x, d.Join(front), p, r, k, rest, w, input)
  {
    hide Generated.Ok, Lalr.Ok, Grammar.WellFormed, IsLR0, Grammar.Rhs, Grammar.Unpacked, Ready, IsInput, Run, Built,
         Unsuppressed, EndIsFree, IsPath, Forest.Valid, Forest.Form, Forest.Yield, Forest.Size, Forest.Join;
    Parts(x);
    var m, n := d.Size(), |d.Yield()|;
    var c := Run(x.t, input, Start(), m);
    var j: nat :| Ready(x, input, w, c, n, p0, front.Join(rest), r, 0, j);
    var q := Parses(x, input, w, c, d, n, p0, front, rest, r, 0, j);
    RunOn(x.t, input, Start(), m, front.Size());
    BuiltOn(x.t, x.value, input, Start(), Done, m, front.Size());
    d.JoinMeans(x.Cfg(), front);
    StackIs(x, input, m + front.Size(), d.Join(front), stack);
  }

  /** The stack is the path over what has been built. */
  lemma StackIs(x: Generated, input: seq<int>, m: nat, d: Forest, stack: seq<nat>)
    requires x.Ok() && x.l.g.WellFormed() && |x.t.table| == |x.t.check| && |x.t.gindex| == |x.t.dgoto|
    requires Built(x.t, x.value, input, Start(), Done, m) == d && IsPath(x.l.a, stack, d.Form(x.Cfg()))
    ensures Run(x.t, input, Start(), m).stack == stack
  {
    hide Generated.Ok, Lalr.Ok, Grammar.WellFormed, IsLR0, Grammar.Unpacked, Run, Built, IsPath, Forest.Form;
    Parts(x);
    RunsAreSafe(x, input, m);
    PathUnique(x.l.g, x.l.a, Run(x.t, input, Start(), m).stack, stack, d.Form(x.Cfg()));
  }

  /** A path is determined by its symbols. */
  lemma {:induction false} PathUnique(g: Grammar, a: Automaton, s: seq<nat>, t: seq<nat>, symbols: seq<nat>)
    requires g.WellFormed() && IsLR0(g, a) && IsPath(a, s, symbols) && IsPath(a, t, symbols)
    ensures s == t
    decreases symbols
  {
    hide Grammar.WellFormed, IsLR0, Shift;
    if symbols != [] {
      var n := |symbols| - 1;
      PathUnique(g, a, s[..n + 1], t[..n + 1], symbols[..n]);
      assert s[n] == s[..n + 1][n] && t[n] == t[..n + 1][n];
      ShiftUnique(g, a, s[n], symbols[n], s[n + 1], t[n + 1]);
      assert s == s[..n + 1] + [s[n + 1]] && t == t[..n + 1] + [t[n + 1]];
    }
  }

  /** An item with the dot before a variable, by its rule and place. */
  lemma ItemPlace(g: Grammar, i: nat) returns (q: nat, k: nat)
    requires g.WellFormed() && g.IsItem(i) && g.ritem[i] > g.ntokens && i != 1
    ensures g.IsRule(q) && q >= 3 && k < |g.Rhs(q)| && i == g.rrhs[q] + k && g.Rhs(q)[k] == g.ritem[i]
  {
    q := g.RuleOf(i);
    g.ItemContent(i);
    k := i - g.rrhs[q];
    assert q == 2 ==> i in {1, 2, 3};
  }

  /** What predicts the start of rule r in a state. */
  lemma PredictedBy(g: Grammar, a: Automaton, s: nat, r: nat) returns (i: nat, n: nat)
    requires g.WellFormed() && IsLR0(g, a) && g.IsRule(r) && r >= 3 && InState(g, a, s, g.rrhs[r])
    ensures s < |a.cores| && i in a.cores[s].items && g.IsItem(i) && g.IsVar(g.ritem[i])
    ensures Steps(LeftCorner(g), g.ritem[i], n, g.rlhs[r])
  {
    hide Grammar.WellFormed, IsLR0, Grammar.RuleEnd;
    g.RuleFacts(r);
    g.RuleOfUnique(g.rrhs[r], r);
    InStateItem(g, a, s, g.rrhs[r]);
    if g.rrhs[r] in a.cores[s].items { KernelItem(g, a, s, g.rrhs[r]); }
    var q: nat;
    i, q :| i in a.cores[s].items && Predicts(g, i, q) && g.rrhs[r] == g.rrhs[q];
    g.RuleFacts(q);
    g.RuleOfUnique(g.rrhs[q], q);
    n :| Steps(LeftCorner(g), g.ritem[i] as nat, n, g.rlhs[r]);
  }

  /** The item of state s that has its dot before the variable of rule r, n steps from item i. */
  lemma CallerOf(l: Lalr, s: nat, i: nat, n: nat, r: nat) returns (j: nat, q: nat)
    requires l.Ok() && l.g.IsRule(r) && s < |l.a.cores| && i in l.a.cores[s].items && l.g.IsItem(i) &&
             l.g.IsVar(l.g.ritem[i])
    requires Steps(LeftCorner(l.g), l.g.ritem[i], n, l.g.rlhs[r])
    ensures InState(l.g, l.a, s, j) && l.g.IsItem(j) && l.g.ritem[j] == l.g.rlhs[r] && (n == 0 ==> j == i)
    ensures n > 0 && j != 1 ==>
              l.g.IsRule(q) && q >= 3 && j == l.g.rrhs[q] && Steps(LeftCorner(l.g), l.g.ritem[i], n - 1, l.g.rlhs[q])
  {
    LalrParts(l);
    AcceptItems(l.g);
    var g := l.g;
    hide Lalr.Ok, Grammar.WellFormed, IsLR0, Grammar.RuleEnd;
    j, q := i, 0;
    if n > 0 {
      var z := StepsLast(LeftCorner(g), g.ritem[i], n, g.rlhs[r]);
      assert StartsWith(g, z, g.rlhs[r]);
      q :| g.IsRule(q) && g.rlhs[q] == z && g.ritem[g.rrhs[q]] == g.rlhs[r];
      j := g.rrhs[q];
      g.RuleFacts(q);
      assert Predicts(g, i, q);
    }
  }

  /** Its rule and place; one more step is left to go only when it is at the start of its rule. */
  lemma CallerPlace(l: Lalr, s: nat, i: nat, n: nat, r: nat) returns (j: nat, q: nat, k: nat)
    requires l.Ok() && l.g.IsRule(r) && r >= 3 && s < |l.a.cores| && i in l.a.cores[s].items
    requires l.g.IsItem(i) && l.g.IsVar(l.g.ritem[i]) && Steps(LeftCorner(l.g), l.g.ritem[i], n, l.g.rlhs[r])
    ensures l.g.WellFormed() && InState(l.g, l.a, s, j) && (j == 1 ==> l.g.rlhs[r] == l.g.Goal())
    ensures j != 1 ==>
              && l.g.IsRule(q) && q >= 3 && k < |l.g.Rhs(q)| && j == l.g.rrhs[q] + k && l.g.Rhs(q)[k] == l.g.rlhs[r]
              && if n == 0 then k > 0 else k == 0 && Steps(LeftCorner(l.g), l.g.ritem[i], n - 1, l.g.rlhs[q])
  {
    hide Lalr.Ok, Grammar.WellFormed, IsLR0, Grammar.RuleEnd, Grammar.RuleOf, Grammar.Rhs, InState, Steps, LeftCorner;
    LalrParts(l);
    AcceptItems(l.g);
    l.g.RuleFacts(r);
    var q1;
    j, q1 := CallerOf(l, s, i, n, r);
    q, k := 0, 0;
    if j != 1 {
      q, k := ItemPlace(l.g, j);
      l.g.RuleFacts(q);
      l.g.RuleOfUnique(j, q);
      if n == 0 {
        KernelItem(l.g, l.a, s, i);
      } else {
        l.g.RuleFacts(q1);
        l.g.RuleOfUnique(j, q1);
      }
    }
  }

  ghost predicate Stands(x: Generated, stack: seq<nat>, d: Forest)
    requires x.l.g.WellFormed()
  {
    d.Valid(x.Cfg()) && stack != [] && IsPath(x.l.a, stack, d.Form(x.Cfg()))
  }

  /** With state 0 on top nothing has been built. */
  lemma AtBottom(x: Generated, stack: seq<nat>, d: Forest)
    requires x.Ok() && x.l.g.WellFormed() && Stands(x, stack, d) && stack[|stack| - 1] == 0
    ensures d == Done
  {
    hide Generated.Ok, Grammar.WellFormed;
    BottomOnly(x, stack, d.Form(x.Cfg()), |stack| - 1);
    NothingLeft(x.Cfg(), d);
  }

  /** What has been built can be completed by way of any item of the state on top: along its rule ... */
  lemma {:induction false} Lead(x: Generated, stack: seq<nat>, d: Forest, r: nat, k: nat) returns (y: seq<nat>)
    requires x.Ok() && x.l.g.WellFormed() && NeverChooses(x) && Productive(x.l.g) && Stands(x, stack, d)
    requires x.l.g.IsRule(r) && r >= 3 && 0 < k <= |x.l.g.Rhs(r)|
    requires InState(x.l.g, x.l.a, stack[|stack| - 1], x.l.g.rrhs[r] + k)
    ensures |x.t.table| == |x.t.check| && |x.t.gindex| == |x.t.dgoto|
    ensures Leads(x, d, stack[|stack| - 1], r, k, y)
    decreases |stack|, 0, 0
  {
    hide Generated.Ok, Lalr.Ok, Grammar.WellFormed, IsLR0, Grammar.Rhs, Grammar.Unpacked, Shift, InState, Leads,
         NeverChooses, Productive, Forest.Valid, Forest.Form, Forest.Yield, Forest.Size, Forest.Join, Forest.Take,
         Forest.Drop;
    Parts(x);
    Sizes(x);
    var symbols := d.Form(x.Cfg());
    var m := |symbols| - k;
    WalkBack(x.l.g, x.l.a, stack, symbols, r, k);
    d.Split(x.Cfg(), m);
    assert IsPath(x.l.a, stack[..m + 1], symbols[..m]);
    y := LeadStart(x, stack[..m + 1], d.Take(m), r);
    AlongLeads(x, d.Take(m), d.Drop(m), stack[m], stack[|stack| - 1], r, k, y, stack);
  }

  /** ... from the start of a rule ... */
  lemma {:induction false} LeadStart(x: Generated, stack: seq<nat>, d: Forest, r: nat) returns (y: seq<nat>)
    requires x.Ok() && x.l.g.WellFormed() && NeverChooses(x) && Productive(x.l.g) && Stands(x, stack, d)
    requires x.l.g.IsRule(r) && r >= 3 && InState(x.l.g, x.l.a, stack[|stack| - 1], x.l.g.rrhs[r])
    ensures |x.t.table| == |x.t.check| && |x.t.gindex| == |x.t.dgoto|
    ensures Leads(x, d, stack[|stack| - 1], r, 0, y)
    decreases |stack|, 2, 0
  {
    hide Generated.Ok, Grammar.WellFormed, IsLR0, Leads, NeverChooses, Productive, IsPath, Forest.Valid, Forest.Form;
    Parts(x);
    var i, n := PredictedBy(x.l.g, x.l.a, stack[|stack| - 1], r);
    y := LeadVariable(x, stack, d, i, n, r);
  }

  /** ... and to it, by the rules that predict it, from an item of the kernel. */
  lemma {:induction false} LeadVariable(x: Generated, stack: seq<nat>, d: Forest, i: nat, n: nat, r: nat)
    returns (y: seq<nat>)
    requires x.Ok() && x.l.g.WellFormed() && NeverChooses(x) && Productive(x.l.g) && Stands(x, stack, d)
    requires x.l.g.IsRule(r) && r >= 3 && stack[|stack| - 1] < |x.l.a.cores| &&
             i in x.l.a.cores[stack[|stack| - 1]].items
    requires x.l.g.IsItem(i) && x.l.g.IsVar(x.l.g.ritem[i]) &&
             Steps(LeftCorner(x.l.g), x.l.g.ritem[i], n, x.l.g.rlhs[r])
    ensures |x.t.table| == |x.t.check| && |x.t.gindex| == |x.t.dgoto|
    ensures Leads(x, d, stack[|stack| - 1], r, 0, y)
    decreases |stack|, 1, n
  {
    hide Generated.Ok, Lalr.Ok, Grammar.WellFormed, IsLR0, Grammar.Rhs, Grammar.Unpacked, Leads, NeverChooses,
         Productive, IsPath, Steps, Forest.Valid, Forest.Form, Forest.Yield, InState, Grammar.RuleEnd, Grammar.RuleOf,
         LeftCorner;
    Parts(x);
    Sizes(x);
    var s := stack[|stack| - 1];
    var j, q, k := CallerPlace(x.l, s, i, n, r);
    if j == 1 {
      StartOnly(x.l, s);
      AtBottom(x, stack, d);
      GoalLeads(x, r);
      y := [];
    } else {
      if n == 0 {
        y := Lead(x, stack, d, q, k);
      } else {
        y := LeadVariable(x, stack, d, i, n - 1, q);
      }
      var more := RestOfRule(x.l.g, q, k + 1);
      ChildLeads(x, d, s, q, k, y, r, more);
      y := more.Yield() + y;
    }
  }

  // ----- running on a changed input -----

  /** How many tokens have been shifted. */
  function Pos(c: Config): int { if c.yychar < 0 then c.next else c.next - 1 }

  lemma PosGrows(t: Tables, input: seq<int>, c: Config)
    requires |t.table| == |t.check| && |t.gindex| == |t.dgoto|
    ensures Pos(Step(t, input, c)) >= Pos(c)
  {}

  lemma {:induction false} PosGrowsOn(t: Tables, input: seq<int>, c: Config, n: nat)
    requires |t.table| == |t.check| && |t.gindex| == |t.dgoto|
    ensures Pos(Run(t, input, c, n)) >= Pos(c)
    decreases n
  {
    hide Step, Pos;
    if n > 0 {
      PosGrows(t, input, c);
      PosGrowsOn(t, input, Step(t, input, c), n - 1);
    }
  }

  /** Inputs that agree as far as token n make no difference until it has been shifted. */
  lemma {:induction false} SameRun(t: Tables, input: seq<int>, other: seq<int>, c: Config, n: nat, m: nat)
    requires |t.table| == |t.check| && |t.gindex| == |t.dgoto|
    requires forall i: nat :: i <= n ==> Lex(input, i) == Lex(other, i)
    ensures var a, b := Run(t, input, c, m), Run(t, other, c, m);
            a == b || (Pos(a) > n && Pos(b) > n)
    decreases m
  {
    hide Step, Run, Lex;
    if m > 0 {
      if Pos(c) > n {
        PosGrowsOn(t, input, c, m);
        PosGrowsOn(t, other, c, m);
      } else {
        SameStep(t, input, other, c, n);
        SameRun(t, input, other, Step(t, input, c), n, m - 1);
        RunNext(t, input, c, m);
        RunNext(t, other, c, m);
      }
    } else {
      RunOn(t, input, c, 0, 0);
      NoTurns(t, input, other, c);
    }
  }

  lemma NoTurns(t: Tables, input: seq<int>, other: seq<int>, c: Config)
    requires |t.table| == |t.check| && |t.gindex| == |t.dgoto|
    ensures Run(t, input, c, 0) == Run(t, other, c, 0)
  {}

  lemma RunNext(t: Tables, input: seq<int>, c: Config, m: nat)
    requires |t.table| == |t.check| && |t.gindex| == |t.dgoto| && m > 0
    ensures Run(t, input, c, m) == Run(t, input, Step(t, input, c), m - 1)
  {}

  lemma SameStep(t: Tables, input: seq<int>, other: seq<int>, c: Config, n: nat)
    requires |t.table| == |t.check| && |t.gindex| == |t.dgoto| && Pos(c) <= n
    requires forall i: nat :: i <= n ==> Lex(input, i) == Lex(other, i)
    ensures Step(t, input, c) == Step(t, other, c)
  {
    hide Lookup, Reduce;
    if c.yychar < 0 { assert Lex(input, c.next) == Lex(other, c.next); }
    assert Read(input, c) == Read(other, c);
    SameReduce(t, input, other, c);
    SameReduce(t, input, other, Read(input, c));
  }

  lemma SameReduce(t: Tables, input: seq<int>, other: seq<int>, c: Config)
    requires |t.table| == |t.check| && |t.gindex| == |t.dgoto| && Read(input, c) == Read(other, c)
    ensures forall y: int :: Reduce(t, input, c, y) == Reduce(t, other, c, y)
  {
    forall y: int ensures Reduce(t, input, c, y) == Reduce(t, other, c, y) {
      assert forall s: seq<nat> :: Read(input, c.(stack := s)) == Read(other, c.(stack := s));
    }
  }

  // ----- how long it can take to read on -----

  /** With the tokens w shifted and t next, the parser has read on, or accepted, after b turns. */
  ghost predicate ReadsOnBy(x: Generated, w: seq<nat>, t: nat, b: nat)
    requires x.l.g.WellFormed() && |x.t.table| == |x.t.check| && |x.t.gindex| == |x.t.dgoto|
  {
    forall y: seq<nat>, input ::
      TokenAt(w + y, |w|) == t && IsTokens(x.l.g, w + y) && IsInput(x.value, input, w + y) ==>
          HasReadOn(x, input, |w|, b)
  }

  ghost predicate HasReadOn(x: Generated, input: seq<int>, n: nat, b: nat)
    requires |x.t.table| == |x.t.check| && |x.t.gindex| == |x.t.dgoto|
  {
    Run(x.t, input, Start(), b).outcome == Accepted || Pos(Run(x.t, input, Start(), b)) > n
  }

  lemma ReadOnLater(x: Generated, input: seq<int>, n: nat, b: nat, c: nat)
    requires |x.t.table| == |x.t.check| && |x.t.gindex| == |x.t.dgoto| && b <= c && HasReadOn(x, input, n, b)
    ensures HasReadOn(x, input, n, c)
  {
    hide Run, Pos;
    RunOn(x.t, input, Start(), b, c - b);
    PosGrowsOn(x.t, input, Run(x.t, input, Start(), b), c - b);
    if Run(x.t, input, Start(), b).outcome == Accepted { StoppedStays(x.t, input, Run(x.t, input, Start(), b), c - b); }
  }

  /** One sentence with the next token t bounds them all. */
  lemma BoundForToken(x: Generated, w: seq<nat>, t: nat) returns (b: nat)
    requires x.Ok() && x.l.g.WellFormed() && NeverChooses(x)
    ensures |x.t.table| == |x.t.check| && |x.t.gindex| == |x.t.dgoto|
    ensures ReadsOnBy(x, w, t, b)
  {
    hide Generated.Ok, Grammar.WellFormed, Unsuppressed, EndIsFree, Run, IsInput, IsDerivation;
    Sizes(x);
    b := 0;
    if y :| TokenAt(w + y, |w|) == t && IsTokens(x.l.g, w + y) {
      var d: Forest :| IsDerivation(x.l.g, d, w + y);
      var input := InputOf(x, w + y, d);
      SentenceIsAccepted(x, input, w + y, d);
      b := d.Size();
      forall z: seq<nat>, other |
        TokenAt(w + z, |w|) == t && IsTokens(x.l.g, w + z) && IsInput(x.value, other, w + z)
        ensures HasReadOn(x, other, |w|, b)
      {
        SamePrefix(x, w, y, z, input, other);
        SameRun(x.t, input, other, Start(), |w|, b);
      }
    }
  }

  lemma SamePrefix(x: Generated, w: seq<nat>, y: seq<nat>, z: seq<nat>, input: seq<int>, other: seq<int>)
    requires x.Ok() && IsInput(x.value, input, w + y) && IsInput(x.value, other, w + z)
    requires TokenAt(w + y, |w|) == TokenAt(w + z, |w|)
    ensures forall i: nat :: i <= |w| ==> Lex(input, i) == Lex(other, i)
  {
    hide Generated.Ok, IsInput, Lex;
    forall i: nat | i <= |w| ensures Lex(input, i) == Lex(other, i) {
      TokenRead(x, input, w + y, i);
      TokenRead(x, other, w + z, i);
    }
  }

  /** There are only so many tokens. */
  lemma {:induction false} BoundForAll(x: Generated, w: seq<nat>, n: nat) returns (b: nat)
    requires x.Ok() && x.l.g.WellFormed() && NeverChooses(x)
    ensures |x.t.table| == |x.t.check| && |x.t.gindex| == |x.t.dgoto|
    ensures forall t: nat :: t < n ==> ReadsOnBy(x, w, t, b)
  {
    hide Generated.Ok, Grammar.WellFormed, NeverChooses, HasReadOn, IsTokens, IsInput;
    Sizes(x);
    if n == 0 {
      b := 0;
    } else {
      var b0 := BoundForAll(x, w, n - 1);
      var b1 := BoundForToken(x, w, n - 1);
      b := b0 + b1;
      forall t: nat | t < n ensures ReadsOnBy(x, w, t, b) {
        assert ReadsOnBy(x, w, t, if t == n - 1 then b1 else b0);
        forall y: seq<nat>, input | TokenAt(w + y, |w|) == t && IsTokens(x.l.g, w + y) && IsInput(x.value, input, w + y)
          ensures HasReadOn(x, input, |w|, b)
        {
          ReadOnLater(x, input, |w|, if t == n - 1 then b1 else b0, b);
        }
      }
    }
  }

  // ----- every run stops -----

  /** After m turns the parser has shifted the tokens w and is still running. */
  ghost predicate StillAt(x: Generated, input: seq<int>, w: seq<nat>, m: nat)
    requires |x.t.table| == |x.t.check| && |x.t.gindex| == |x.t.dgoto|
  {
    && Run(x.t, input, Start(), m).outcome == Running
    && Built(x.t, x.value, input, Start(), Done, m).Yield() == w
  }

  lemma StandsThere(x: Generated, input: seq<int>, m: nat)
    requires x.Ok() && x.l.g.WellFormed() && |x.t.table| == |x.t.check| && |x.t.gindex| == |x.t.dgoto|
    requires Run(x.t, input, Start(), m).outcome == Running
    ensures var c, d := Run(x.t, input, Start(), m), Built(x.t, x.value, input, Start(), Done, m);
            Stands(x, c.stack, d) && Consumed(x.value, input, d.Yield()) && Pos(c) == |d.Yield()| && d.Size() == m
  {
    RunsAreSafe(x, input, m);
  }

  /** If the state on top has a user's item in its kernel, then the parser cannot have been here
      for longer than every sentence allows. */
  lemma NotThisLong(x: Generated, input: seq<int>, w: seq<nat>, m: nat, b: nat, s: nat, i: nat)
    requires x.Ok() && x.l.g.WellFormed() && NeverChooses(x) && Productive(x.l.g)
    requires |x.t.table| == |x.t.check| && |x.t.gindex| == |x.t.dgoto| && StillAt(x, input, w, m)
    requires (forall t: nat :: t < x.l.g.ntokens ==> ReadsOnBy(x, w, t, b))
    requires var stack := Run(x.t, input, Start(), m).stack; stack != [] && s == stack[|stack| - 1]
    requires 0 < s < |x.l.a.cores| && i in x.l.a.cores[s].items && i != 2
    ensures m < b
  {
    hide Generated.Ok, Lalr.Ok, Grammar.WellFormed, IsLR0, Grammar.Rhs, Grammar.Unpacked, NeverChooses, Productive, Run,
         Built, Forest.Valid, Forest.Form, Forest.Yield, Forest.Size, IsPath, IsInput, IsTokens, ReadsOnBy, Pos,
         Grammar.RuleEnd;
    Parts(x);
    Sizes(x);
    StandsThere(x, input, m);
    var d := Built(x.t, x.value, input, Start(), Done, m);
    var stack := Run(x.t, input, Start(), m).stack;
    var r, k := KernelPlace(x.l, s, i);
    var y := Lead(x, stack, d, r, k);
    var rest := RestOfRule(x.l.g, r, k);
    assert IsRest(x.l.g, r, k, rest);
    assert LeadsOn(x, d, s, r, k, y, rest);
    var z := rest.Yield() + y;
    var whole := SentenceInput(x, w + z);
    assert GetsReady(x, d, s, r, k, rest, w + z, whole);
    StillReady(x, d, s, r, k, rest, w + z, whole);
    TokenRead(x, whole, w + z, |w|);
    assert ReadsOnBy(x, w, TokenAt(w + z, |w|), b);
    assert HasReadOn(x, whole, |w|, b) by { ReadsOnNow(x, w, z, whole, b); }
    if b <= m { ReadOnLater(x, whole, |w|, b, m); }
  }

  lemma ReadsOnNow(x: Generated, w: seq<nat>, y: seq<nat>, input: seq<int>, b: nat)
    requires x.l.g.WellFormed() && |x.t.table| == |x.t.check| && |x.t.gindex| == |x.t.dgoto|
    requires ReadsOnBy(x, w, TokenAt(w + y, |w|), b) && IsTokens(x.l.g, w + y) && IsInput(x.value, input, w + y)
    ensures HasReadOn(x, input, |w|, b)
  {
    hide Grammar.WellFormed, IsTokens, IsInput, HasReadOn;
  }

  lemma SentenceInput(x: Generated, w: seq<nat>) returns (input: seq<int>)
    requires x.Ok() && x.l.g.WellFormed() && IsTokens(x.l.g, w)
    ensures IsInput(x.value, input, w)
  {
    var d: Forest :| IsDerivation(x.l.g, d, w);
    input := InputOf(x, w, d);
  }

  lemma StillReady(x: Generated, d: Forest, p: nat, r: nat, k: nat, rest: Forest, w: seq<nat>, input: seq<int>)
    requires x.l.g.WellFormed() && |x.t.table| == |x.t.check| && |x.t.gindex| == |x.t.dgoto|
    requires GetsReady(x, d, p, r, k, rest, w, input)
    ensures var c := Run(x.t, input, Start(), d.Size()); c.outcome == Running && Pos(c) == |d.Yield()|
  {
    hide Grammar.WellFormed, Run;
  }

  /** A kernel item of a user's rule has its dot past the start. */
  lemma KernelPlace(l: Lalr, s: nat, i: nat) returns (r: nat, k: nat)
    requires l.Ok() && 0 < s < |l.a.cores| && i in l.a.cores[s].items && i != 2
    ensures l.g.IsRule(r) && r >= 3 && 0 < k <= |l.g.Rhs(r)| && i == l.g.rrhs[r] + k && InState(l.g, l.a, s, i)
  {
    hide Lalr.Ok, Grammar.WellFormed, IsLR0, Grammar.RuleEnd, Grammar.RuleOf;
    LalrParts(l);
    KernelAt(l.g, l.a, s);
    assert i >= 2 && l.g.ritem[i - 1] == l.a.cores[s].access > 0;
    r := l.g.RuleOf(i - 1);
    l.g.ItemContent(i - 1);
    AcceptEnds(l.g, i - 1);
    l.g.RuleFacts(r);
    k := i - l.g.rrhs[r];
  }

  /** The items of $accept's rule. */
  lemma AcceptEnds(g: Grammar, i: nat)
    requires g.WellFormed() && g.IsItem(i) && g.ritem[i] > 0
    ensures g.RuleOf(i) == 2 ==> i == 1
  {
    assert g.RuleOf(i) == 2 ==> i in {1, 2, 3};
  }

  /** Where the final state's item of $accept is on top, what has been built is a sentence. */
  lemma IsWhole(x: Generated, stack: seq<nat>, d: Forest)
    requires x.Ok() && x.l.g.WellFormed() && Stands(x, stack, d) && stack[|stack| - 1] < |x.l.a.cores|
    requires stack[|stack| - 1] != 0 && 2 in x.l.a.cores[stack[|stack| - 1]].items
    ensures IsDerivation(x.l.g, d, d.Yield())
  {
    hide Generated.Ok, Lalr.Ok, Grammar.WellFormed, IsLR0, Grammar.Unpacked, Forest.Valid, Forest.Form, Forest.Yield,
         Shift;
    Parts(x);
    AcceptItems(x.l.g);
    var n, symbols := |stack|, d.Form(x.Cfg());
    ShiftCameFrom(x.l.g, x.l.a, stack[n - 2], symbols[n - 2], stack[n - 1], 2);
    StartOnly(x.l, stack[n - 2]);
    BottomOnly(x, stack, symbols, n - 2);
    assert symbols == [x.l.g.Goal()];
  }

  /** The parser does not stay where it is for ever: sooner or later it reads on, or stops. */
  lemma ReadsOn(x: Generated, input: seq<int>, m: nat) returns (n: nat)
    requires x.Ok() && x.l.g.WellFormed() && NeverChooses(x) && Productive(x.l.g)
    ensures |x.t.table| == |x.t.check| && |x.t.gindex| == |x.t.dgoto|
    ensures n >= m && (Run(x.t, input, Start(), n).outcome != Running ||
              Pos(Run(x.t, input, Start(), n)) > Pos(Run(x.t, input, Start(), m)))
  {
    hide Generated.Ok, Grammar.WellFormed, Unsuppressed, EndIsFree, Productive, Run, Built, ReadsOnBy, Pos, IsPath,
         Consumed, IsDerivation, StillThere, Forest.Valid, Forest.Form, Forest.Yield, Forest.Size;
    Sizes(x);
    if Run(x.t, input, Start(), m).outcome != Running { return m; }
    StandsThere(x, input, m);
    var w := Built(x.t, x.value, input, Start(), Done, m).Yield();
    var b := BoundForAll(x, w, x.l.g.ntokens);
    n := m + b + 2;
    if Run(x.t, input, Start(), n).outcome == Running && Pos(Run(x.t, input, Start(), n)) <= |w| {
      InBetween(x, input, m, n - 1, n);
      InBetween(x, input, m, n, n);
      var d := WholeAt(x, input, w, m, n - 1, b);
      var e := WholeAt(x, input, w, m, n, b);
      OneDerivation(x, w, d, e);
      assert false;
    }
  }

  lemma InBetween(x: Generated, input: seq<int>, m: nat, k: nat, n: nat)
    requires |x.t.table| == |x.t.check| && |x.t.gindex| == |x.t.dgoto| && m <= k <= n
    requires Run(x.t, input, Start(), n).outcome == Running
    requires Pos(Run(x.t, input, Start(), n)) <= Pos(Run(x.t, input, Start(), m))
    requires Pos(Run(x.t, input, Start(), m)) >= 0
    ensures StillThere(x, input, Pos(Run(x.t, input, Start(), m)), k)
  {
    hide Run, Pos;
    var a, c := Run(x.t, input, Start(), m), Run(x.t, input, Start(), k);
    RunOn(x.t, input, Start(), m, k - m);
    RunOn(x.t, input, Start(), k, n - k);
    PosGrowsOn(x.t, input, a, k - m);
    PosGrowsOn(x.t, input, c, n - k);
    if c.outcome != Running { StoppedStays(x.t, input, c, n - k); }
  }

  /** A parser that has been there for too long has built a whole sentence. */
  lemma WholeAt(x: Generated, input: seq<int>, w: seq<nat>, m: nat, n: nat, b: nat) returns (d: Forest)
    requires x.Ok() && x.l.g.WellFormed() && NeverChooses(x) && Productive(x.l.g)
    requires |x.t.table| == |x.t.check| && |x.t.gindex| == |x.t.dgoto| && m <= n && b < n
    requires StillAt(x, input, w, m) && forall t: nat :: t < x.l.g.ntokens ==> ReadsOnBy(x, w, t, b)
    requires StillThere(x, input, |w|, n)
    ensures IsDerivation(x.l.g, d, w) && d.Size() == n
  {
    hide Generated.Ok, Grammar.WellFormed, IsLR0, NeverChooses, Productive, Run, Built, ReadsOnBy, Pos, IsPath,
         Forest.Valid, Forest.Form, Forest.Yield, Forest.Size;
    Parts(x);
    StandsThere(x, input, m);
    StandsThere(x, input, n);
    d := Built(x.t, x.value, input, Start(), Done, n);
    RunOn(x.t, input, Start(), m, n - m);
    PosGrowsOn(x.t, input, Run(x.t, input, Start(), m), n - m);
    SameTokens(x, input, w, d.Yield());
    var stack := Run(x.t, input, Start(), n).stack;
    var s := stack[|stack| - 1];
    PathState(x.l.g, x.l.a, stack, d.Form(x.Cfg()), |stack| - 1);
    NoNodes();
    if s == 0 {
      AtBottom(x, stack, d);
    } else {
      KernelAt(x.l.g, x.l.a, s);
      var i := x.l.a.cores[s].items[0];
      if 2 in x.l.a.cores[s].items {
        IsWhole(x, stack, d);
      } else {
        NotThisLong(x, input, w, n, b, s, i);
      }
    }
  }

  lemma NoNodes()
    ensures Done.Size() == 0
  {}

  ghost predicate StillThere(x: Generated, input: seq<int>, pos: nat, n: nat)
    requires |x.t.table| == |x.t.check| && |x.t.gindex| == |x.t.dgoto|
  {
    Run(x.t, input, Start(), n).outcome == Running && Pos(Run(x.t, input, Start(), n)) == pos
  }

  lemma SameTokens(x: Generated, input: seq<int>, v: seq<nat>, w: seq<nat>)
    requires x.Ok() && Consumed(x.value, input, v) && Consumed(x.value, input, w) && |v| == |w|
    ensures v == w
  {
    hide Generated.Ok;
    forall i | 0 <= i < |v| ensures v[i] == w[i] {
      if v[i] < w[i] { ValuesDiffer(x, v[i], w[i]); }
      if w[i] < v[i] { ValuesDiffer(x, w[i], v[i]); }
    }
  }

  lemma {:induction false} StopsFrom(x: Generated, input: seq<int>, m: nat) returns (n: nat)
    requires x.Ok() && x.l.g.WellFormed() && NeverChooses(x) && Productive(x.l.g)
    requires |x.t.table| == |x.t.check| && |x.t.gindex| == |x.t.dgoto|
    ensures Run(x.t, input, Start(), n).outcome != Running
    decreases |input| - Pos(Run(x.t, input, Start(), m))
  {
    hide Generated.Ok, Grammar.WellFormed, NeverChooses, Productive, Run, Pos, Stands;
    n := ReadsOn(x, input, m);
    if Run(x.t, input, Start(), n).outcome == Running {
      StandsThere(x, input, n);
      n := StopsFrom(x, input, n);
    }
  }

  /** Termination: with nothing suppressed and no reduction on the end marker in the final state,
      the parser of a grammar in which every variable derives something decides whether its input
      is a sentence. */
  lemma Decides(x: Generated, input: seq<int>) returns (n: nat)
    requires x.Ok() && x.l.g.WellFormed() && NeverChooses(x) && Productive(x.l.g)
    ensures |x.t.table| == |x.t.check| && |x.t.gindex| == |x.t.dgoto|
    ensures Run(x.t, input, Start(), n).outcome == if IsSentence(x.l.g, x.value, input) then Accepted else Rejected
  {
    hide Generated.Ok, Grammar.WellFormed, Unsuppressed, EndIsFree, Productive, Run, IsSentence, Inv;
    Sizes(x);
    n := StopsFrom(x, input, 0);
    RunsAreSafe(x, input, n);
    AcceptsExactlySentences(x, input);
    if IsSentence(x.l.g, x.value, input) {
      var k: nat :| Run(x.t, input, Start(), k).outcome == Accepted;
      SameEnd(x, input, n, k);
    }
  }

  lemma SameEnd(x: Generated, input: seq<int>, m: nat, n: nat)
    requires |x.t.table| == |x.t.check| && |x.t.gindex| == |x.t.dgoto|
    requires Run(x.t, input, Start(), m).outcome != Running && Run(x.t, input, Start(), n).outcome != Running
    ensures Run(x.t, input, Start(), m) == Run(x.t, input, Start(), n)
  {
    if m <= n { Finish(x.t, input, m, n); } else { Finish(x.t, input, n, m); }
  }

  /** yyparse on such a grammar: the loop at yyloop, which ends. */
  method YyParse(t: Tables, input: seq<int>, ghost x: Generated) returns (accepted: bool)
    requires x.Ok() && x.l.g.WellFormed() && NeverChooses(x) && Productive(x.l.g) && t == x.t
    requires |t.table| == |t.check| && |t.gindex| == |t.dgoto|
    ensures accepted <==> IsSentence(x.l.g, x.value, input)
  {
    hide Generated.Ok, Grammar.WellFormed, NeverChooses, Productive, IsSentence, Run, Step;
    ghost var last := Decides(x, input);
    var s: seq<nat> := [0];
    var yychar: int := YYEMPTY;
    var next: nat, outcome := 0, Running;
    ghost var n := 0;
    StartIs(t, input);
    while outcome == Running
      invariant s != [] && n <= last && Config(s, yychar, next, outcome) == Run(t, input, Start(), n)
      decreases last - n
    {
      RunLast(t, input, Start(), n);
      s, yychar, next, outcome := YyLoop(t, input, s, yychar, next);
      n := n + 1;
    }
    SameEnd(x, input, n, last);
    accepted := outcome == Accepted;
  }

  lemma StartIs(t: Tables, input: seq<int>)
    requires |t.table| == |t.check| && |t.gindex| == |t.dgoto|
    ensures Run(t, input, Start(), 0) == Config([0], YYEMPTY, 0, Running)
  {}
}
