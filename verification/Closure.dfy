/** closure.c: the first-derives bit matrix, and the closure of a kernel as a sorted merge. */
module Closures {
  import opened Bits
  import opened Grammars
  import opened Items
  import opened Reach
  import opened RuleTables
  import Warshall

  // ----- set_EFF -----

  /** Row v holds the variables that some rule of variable v starts with, counted from $accept. */
  ghost predicate HoldsLeftCorners(g: Grammar, m: seq<set<nat>>)
    requires g.WellFormed()
  {
    && |m| == g.NVars()
    && forall v: nat, u: nat :: v < |m| ==> (u in m[v] <==> StartsWith(g, g.ntokens + v, g.ntokens + u))
  }

  lemma CornersReach(g: Grammar, m: seq<set<nat>>, x: nat, y: nat)
    requires g.WellFormed() && HoldsLeftCorners(g, m) && x < |m|
    ensures Reaches(Warshall.Edges(m), x, y) <==> Reaches(LeftCorner(g), g.ntokens + x, g.ntokens + y)
  {
    hide *;
    if Reaches(Warshall.Edges(m), x, y) { RowsToSymbols(g, m, x, y); }
    if Reaches(LeftCorner(g), g.ntokens + x, g.ntokens + y) { SymbolsToRows(g, m, x, y); }
  }

  lemma RowsToSymbols(g: Grammar, m: seq<set<nat>>, x: nat, y: nat)
    requires g.WellFormed() && HoldsLeftCorners(g, m) && x < |m| && Reaches(Warshall.Edges(m), x, y)
    ensures Reaches(LeftCorner(g), g.ntokens + x, g.ntokens + y)
  {
    hide Grammar.WellFormed, Reaches, StartsWith;
    var n, e, l := g.ntokens, Warshall.Edges(m), LeftCorner(g);
    var p := (b: nat) => Reaches(l, n + x, n + b);
    ReachesRefl(l, n + x);
    forall a: nat, b: nat | p(a) && e(a, b)
      ensures p(b)
    {
      assert StartsWith(g, n + a, n + b);
      ReachesSnoc(l, n + x, n + a, n + b);
    }
    ReachesKeeps(e, p, x, y);
  }

  lemma SymbolsToRows(g: Grammar, m: seq<set<nat>>, x: nat, y: nat)
    requires g.WellFormed() && HoldsLeftCorners(g, m) && x < |m|
    requires Reaches(LeftCorner(g), g.ntokens + x, g.ntokens + y)
    ensures Reaches(Warshall.Edges(m), x, y)
  {
    hide Grammar.WellFormed, Reaches, StartsWith;
    var n, e, l := g.ntokens, Warshall.Edges(m), LeftCorner(g);
    var p := (b: nat) => n <= b && Reaches(e, x, b - n);
    ReachesRefl(e, x);
    forall a: nat, b: nat | p(a) && l(a, b)
      ensures p(b)
    {
      LeftCornerOfVariable(g, a, b);
      assert b - n in m[a - n];
      assert e(a - n, b - n);
      ReachesSnoc(e, x, a - n, b - n);
    }
    ReachesKeeps(l, p, n + x, n + y);
  }

  lemma LeftCornerOfVariable(g: Grammar, a: nat, b: nat)
    requires g.WellFormed() && StartsWith(g, a, b)
    ensures g.ntokens <= a < g.nsyms && g.ntokens <= b < g.nsyms
  {
    var r: nat :| g.IsRule(r) && g.rlhs[r] == a && g.ritem[g.rrhs[r]] == b;
    g.RuleFacts(r);
  }

  /** The variables that the first k of the given rules start with. */
  ghost predicate CornersOf(g: Grammar, rules: seq<nat>, k: nat, row: set<nat>)
    requires g.WellFormed() && k <= |rules|
  {
    forall u: nat :: u in row <==>
      exists j :: 0 <= j < k && g.IsRule(rules[j]) && g.ritem[g.rrhs[rules[j]]] == g.ntokens + u
  }

  method SetEFF(g: Grammar, derives: seq<seq<nat>>) returns (EFF: BitMatrix)
    requires g.WellFormed() && IsDerives(g, derives)
    ensures EFF.Valid() && fresh(EFF) && fresh(EFF.words) && EFF.n == EFF.bits == g.NVars()
    ensures forall v: nat, u: nat :: v < g.NVars() ==>
              (u in EFF.Value()[v] <==> Reaches(LeftCorner(g), g.ntokens + v, g.ntokens + u))
  {
    hide Grammar.WellFormed, CornersOf, Reaches, RulesOf, BitMatrix.Value;
    var n := g.NVars();
    EFF := new BitMatrix(n, n);
    for v := 0 to n
      invariant forall u :: 0 <= u < v ==> CornersOf(g, derives[u], |derives[u]|, EFF.Value()[u])
      invariant forall u :: v <= u < n ==> EFF.Value()[u] == {}
    {
      SetCorners(g, EFF, v, derives[v]);
    }
    ghost var m := EFF.Value();
    LeftCornersHeld(g, derives, m);
    Warshall.CloseMatrix(EFF);
    forall v: nat, u: nat | v < n
      ensures u in EFF.Value()[v] <==> Reaches(LeftCorner(g), g.ntokens + v, g.ntokens + u)
    {
      CornersReach(g, m, v, u);
    }
  }

  /** The inner loop of set_EFF, over the rules of one variable. */
  method SetCorners(g: Grammar, EFF: BitMatrix, v: nat, rules: seq<nat>)
    requires g.WellFormed() && EFF.Valid() && EFF.n == EFF.bits == g.NVars()
    requires v < g.NVars() && RulesOf(g, v, g.NRules(), rules) && EFF.Value()[v] == {}
    modifies EFF.words
    ensures CornersOf(g, rules, |rules|, EFF.Value()[v])
    ensures forall u :: 0 <= u < EFF.n && u != v ==> EFF.Value()[u] == old(EFF.Value()[u])
  {
    hide BitMatrix.Value, Grammar.WellFormed;
    for k := 0 to |rules|
      invariant CornersOf(g, rules, k, EFF.Value()[v])
      invariant forall u :: 0 <= u < EFF.n && u != v ==> EFF.Value()[u] == old(EFF.Value()[u])
    {
      var rule := rules[k];
      g.RuleFacts(rule);
      g.ItemContent(g.rrhs[rule]);
      var symbol := g.ritem[g.rrhs[rule]];
      if g.IsVar(symbol) {
        EFF.Set(v, symbol - g.ntokens);
      }
    }
  }

  lemma LeftCornersHeld(g: Grammar, derives: seq<seq<nat>>, m: seq<set<nat>>)
    requires g.WellFormed() && IsDerives(g, derives) && |m| == g.NVars()
    requires forall v :: 0 <= v < |m| ==> CornersOf(g, derives[v], |derives[v]|, m[v])
    ensures HoldsLeftCorners(g, m)
  {
    forall v: nat, u: nat | v < |m|
      ensures u in m[v] <==> StartsWith(g, g.ntokens + v, g.ntokens + u)
    {
      assert CornersOf(g, derives[v], |derives[v]|, m[v]) && RulesOf(g, v, g.NRules(), derives[v]);
      if StartsWith(g, g.ntokens + v, g.ntokens + u) {
        var r: nat :| g.IsRule(r) && g.rlhs[r] == g.ntokens + v && g.ritem[g.rrhs[r]] == g.ntokens + u;
        assert r in derives[v];
      }
    }
  }

  // ----- set_first_derives -----

  /** Row v holds the rules of every variable that variable v leads to, leftmost. */
  ghost predicate IsFirstDerives(g: Grammar, m: seq<set<nat>>)
    requires g.WellFormed()
  {
    && |m| == g.NVars()
    && forall v: nat, r: nat :: v < |m| ==>
         (r in m[v] <==> g.IsRule(r) && Reaches(LeftCorner(g), g.ntokens + v, g.rlhs[r]))
  }

  /** The rules of the variables below n that variable v leads to. */
  ghost predicate FirstRules(g: Grammar, v: nat, n: nat, row: set<nat>)
    requires g.WellFormed()
  {
    forall r: nat :: r in row <==>
      g.IsRule(r) && g.rlhs[r] < g.ntokens + n && Reaches(LeftCorner(g), g.ntokens + v, g.rlhs[r])
  }

  method SetFirstDerives(g: Grammar, derives: seq<seq<nat>>) returns (firstDerives: BitMatrix)
    requires g.WellFormed() && IsDerives(g, derives)
    ensures firstDerives.Valid() && fresh(firstDerives) && fresh(firstDerives.words)
    ensures firstDerives.n == g.NVars() && firstDerives.w == WordSize(g.NRules()) && firstDerives.bits == g.NRules()
    ensures IsFirstDerives(g, firstDerives.Value())
  {
    hide Grammar.WellFormed, FirstRules, Reaches, RulesOf, BitMatrix.Value;
    var EFF := SetEFF(g, derives);
    var n := g.NVars();
    ghost var eff := EFF.Value();
    firstDerives := new BitMatrix(n, g.NRules());
    for v := 0 to n
      invariant EFF.Value() == eff
      invariant forall u :: 0 <= u < v ==> FirstRules(g, u, n, firstDerives.Value()[u])
      invariant forall u :: v <= u < n ==> firstDerives.Value()[u] == {}
    {
      NoFirstRules(g, v);
      for j := 0 to n
        invariant EFF.Value() == eff
        invariant FirstRules(g, v, j, firstDerives.Value()[v])
        invariant forall u :: 0 <= u < v ==> FirstRules(g, u, n, firstDerives.Value()[u])
        invariant forall u :: v < u < n ==> firstDerives.Value()[u] == {}
      {
        var leads := EFF.Test(v, j);
        if leads {
          SetRules(g, firstDerives, v, derives[j], j);
        } else {
          SkipRules(g, v, j, firstDerives.Value()[v]);
        }
      }
    }
    FirstRulesTogether(g, firstDerives.Value());
  }

  lemma NoFirstRules(g: Grammar, v: nat)
    requires g.WellFormed()
    ensures FirstRules(g, v, 0, {})
  {
    forall r: nat | g.IsRule(r) ensures g.ntokens <= g.rlhs[r] { g.RuleFacts(r); }
  }

  lemma SkipRules(g: Grammar, v: nat, j: nat, row: set<nat>)
    requires g.WellFormed() && FirstRules(g, v, j, row)
    requires !Reaches(LeftCorner(g), g.ntokens + v, g.ntokens + j)
    ensures FirstRules(g, v, j + 1, row)
  {
    hide Reaches;
  }

  lemma FirstRulesTogether(g: Grammar, m: seq<set<nat>>)
    requires g.WellFormed() && |m| == g.NVars() && forall v :: 0 <= v < |m| ==> FirstRules(g, v, g.NVars(), m[v])
    ensures IsFirstDerives(g, m)
  {
    hide Reaches;
    forall v: nat, r: nat | v < |m|
      ensures r in m[v] <==> g.IsRule(r) && Reaches(LeftCorner(g), g.ntokens + v, g.rlhs[r])
    {
      assert FirstRules(g, v, g.NVars(), m[v]);
      if g.IsRule(r) { g.RuleFacts(r); }
    }
  }

  /** while ((rule = *rp++) >= 0) SETBIT(rrow, rule); */
  method SetRules(g: Grammar, firstDerives: BitMatrix, v: nat, rules: seq<nat>, j: nat)
    requires g.WellFormed() && firstDerives.Valid()
    requires firstDerives.n == g.NVars() && firstDerives.bits == g.NRules()
    requires v < g.NVars() && RulesOf(g, j, g.NRules(), rules)
    requires Reaches(LeftCorner(g), g.ntokens + v, g.ntokens + j)
    requires FirstRules(g, v, j, firstDerives.Value()[v])
    modifies firstDerives.words
    ensures FirstRules(g, v, j + 1, firstDerives.Value()[v])
    ensures forall u :: 0 <= u < firstDerives.n && u != v ==>
              firstDerives.Value()[u] == old(firstDerives.Value()[u])
  {
    hide BitMatrix.Value, Grammar.WellFormed, Reaches, FirstRules;
    ghost var was := firstDerives.Value();
    for k := 0 to |rules|
      invariant firstDerives.Value()[v] == was[v] + set r | r in rules[..k]
      invariant forall u :: 0 <= u < firstDerives.n && u != v ==> firstDerives.Value()[u] == was[u]
    {
      assert rules[k] in rules;
      firstDerives.Set(v, rules[k]);
      assert rules[..k + 1] == rules[..k] + [rules[k]];
    }
    assert rules[..|rules|] == rules;
    MoreFirstRules(g, v, j, was[v], rules);
  }

  lemma MoreFirstRules(g: Grammar, v: nat, j: nat, row: set<nat>, rules: seq<nat>)
    requires g.WellFormed() && FirstRules(g, v, j, row) && RulesOf(g, j, g.NRules(), rules)
    requires Reaches(LeftCorner(g), g.ntokens + v, g.ntokens + j)
    ensures FirstRules(g, v, j + 1, row + set r | r in rules)
  {
    hide Grammar.WellFormed, Reaches;
  }

  // ----- closure -----

  /** The rules that some of the first n items of the nucleus predict. */
  ghost predicate IsRuleSet(g: Grammar, nucleus: seq<nat>, n: nat, rules: set<nat>)
    requires g.WellFormed() && n <= |nucleus|
  {
    forall r: nat :: r in rules <==> exists c :: 0 <= c < n && Predicts(g, nucleus[c], r)
  }

  /** i is the start item of a rule of the set below r. */
  ghost predicate StartOf(g: Grammar, rules: set<nat>, r: nat, i: nat)
    requires g.WellFormed()
  {
    exists q: nat :: q in rules && g.IsRule(q) && q < r && i == g.rrhs[q]
  }

  /** The items written so far: the nucleus up to csp, and the starts of the rules of the
      rule set below r, in order and each once; what is still to come is greater. */
  ghost predicate Merged(g: Grammar, nucleus: seq<nat>, csp: nat, rules: set<nat>, r: nat, out: seq<nat>)
    requires g.WellFormed() && csp <= |nucleus|
  {
    && Ascending(out)
    && (forall i: nat :: i in out <==> i in nucleus[..csp] || StartOf(g, rules, r, i))
    && (forall i, c :: i in out && csp <= c < |nucleus| ==> i < nucleus[c])
    && (forall i, q :: i in out && g.IsRule(q) && q >= r ==> i < g.rrhs[q])
  }

  lemma {:induction false} AscendingGrows(s: seq<nat>, k: nat)
    requires Ascending(s) && k < |s| && s[0] >= 1
    ensures s[k] >= k + 1
  {
    if k > 0 { AscendingGrows(s, k - 1); }
  }

  /** Items in order, each once, never fill itemset. */
  lemma RoomLeft(g: Grammar, out: seq<nat>)
    requires g.WellFormed() && Ascending(out) && AreItems(g, out)
    ensures |out| < g.NItems()
  {
    if out != [] {
      assert out[0] in out && out[|out| - 1] in out;
      AscendingGrows(out, |out| - 1);
    }
  }

  lemma MergedAreItems(g: Grammar, nucleus: seq<nat>, csp: nat, rules: set<nat>, r: nat, out: seq<nat>)
    requires g.WellFormed() && csp <= |nucleus| && AreItems(g, nucleus) && Merged(g, nucleus, csp, rules, r, out)
    ensures AreItems(g, out)
  {
    forall i | i in out ensures g.IsItem(i) {
      if i !in nucleus[..csp] {
        var q: nat :| q in rules && g.IsRule(q) && q < r && i == g.rrhs[q];
        g.RuleFacts(q);
      }
    }
  }

  lemma MergedAscends(g: Grammar, nucleus: seq<nat>, csp: nat, rules: set<nat>, r: nat, out: seq<nat>)
    requires g.WellFormed() && csp <= |nucleus| && Merged(g, nucleus, csp, rules, r, out)
    ensures Ascending(out)
  {}

  lemma MergeStart(g: Grammar, nucleus: seq<nat>, rules: set<nat>)
    requires g.WellFormed()
    ensures Merged(g, nucleus, 0, rules, 0, [])
  {}

  lemma MergeSkip(g: Grammar, nucleus: seq<nat>, csp: nat, rules: set<nat>, r: nat, out: seq<nat>)
    requires g.WellFormed() && csp <= |nucleus| && Merged(g, nucleus, csp, rules, r, out) && r !in rules
    ensures Merged(g, nucleus, csp, rules, r + 1, out)
  {
    hide Grammar.WellFormed;
    assert forall i: nat :: StartOf(g, rules, r, i) <==> StartOf(g, rules, r + 1, i);
  }

  /** From csp on, the nucleus items before mid are below start; the others are not. */
  ghost predicate SplitsAt(nucleus: seq<nat>, csp: nat, mid: nat, start: nat)
  {
    csp <= mid <= |nucleus|
    && (forall c :: csp <= c < mid ==> nucleus[c] < start)
    && (forall c :: mid <= c < |nucleus| ==> nucleus[c] >= start)
  }

  lemma MergeRule(g: Grammar, nucleus: seq<nat>, csp: nat, mid: nat, rules: set<nat>, r: nat, out: seq<nat>)
    returns (next: nat)
    requires g.WellFormed() && Ascending(nucleus) && csp <= mid <= |nucleus|
    requires Merged(g, nucleus, csp, rules, r, out)
    requires g.IsRule(r) && r in rules && SplitsAt(nucleus, csp, mid, g.rrhs[r])
    ensures next == if mid < |nucleus| && nucleus[mid] == g.rrhs[r] then mid + 1 else mid
    ensures Merged(g, nucleus, next, rules, r + 1, out + nucleus[csp..mid] + [g.rrhs[r]])
  {
    var start := g.rrhs[r];
    next := if mid < |nucleus| && nucleus[mid] == start then mid + 1 else mid;
    var now := out + nucleus[csp..mid] + [start];
    NowAscends(g, nucleus, csp, mid, rules, r, out);
    forall i: nat ensures i in now <==> i in nucleus[..next] || StartOf(g, rules, r + 1, i) {
      NowHolds(g, nucleus, csp, mid, next, rules, r, out, i);
    }
    forall q | g.IsRule(q) && q >= r + 1 ensures start < g.rrhs[q] {
      g.RuleStart(r);
    }
    hide Grammar.WellFormed, StartOf;
    forall i | i in now ensures i <= start {}
    forall c | next <= c < |nucleus| ensures start < nucleus[c] {}
  }

  lemma NowAscends(g: Grammar, nucleus: seq<nat>, csp: nat, mid: nat, rules: set<nat>, r: nat, out: seq<nat>)
    requires g.WellFormed() && Ascending(nucleus) && csp <= mid <= |nucleus|
    requires Merged(g, nucleus, csp, rules, r, out)
    requires g.IsRule(r) && SplitsAt(nucleus, csp, mid, g.rrhs[r])
    ensures Ascending(out + nucleus[csp..mid] + [g.rrhs[r]])
    ensures forall i :: i in out + nucleus[csp..mid] + [g.rrhs[r]] ==> i <= g.rrhs[r]
  {
    hide StartOf;
    var now := out + nucleus[csp..mid] + [g.rrhs[r]];
    forall a, b | 0 <= a < b < |now| ensures now[a] < now[b] {
      if a < |out| { assert now[a] in out; }
      if b < |out| { assert now[b] in out; }
    }
  }

  lemma NowHolds(g: Grammar, nucleus: seq<nat>, csp: nat, mid: nat, next: nat, rules: set<nat>, r: nat, out: seq<nat>,
                 i: nat)
    requires g.WellFormed() && csp <= mid <= |nucleus| && Merged(g, nucleus, csp, rules, r, out)
    requires g.IsRule(r) && r in rules && mid <= next <= mid + 1
    requires next == mid + 1 ==> mid < |nucleus| && nucleus[mid] == g.rrhs[r]
    ensures i in out + nucleus[csp..mid] + [g.rrhs[r]] <==> i in nucleus[..next] || StartOf(g, rules, r + 1, i)
  {
    g.RuleFacts(r);
    hide Grammar.WellFormed;
    assert StartOf(g, rules, r + 1, i) <==> StartOf(g, rules, r, i) || i == g.rrhs[r];
    assert nucleus[..mid] == nucleus[..csp] + nucleus[csp..mid];
    if next == mid + 1 { assert nucleus[..next] == nucleus[..mid] + [nucleus[mid]]; }
  }

  /** Writes the nucleus items below the start of rule r, then that start item, and skips the
      nucleus items equal to it. */
  method WriteRule(g: Grammar, nucleus: seq<nat>, csp0: nat, ghost rules: set<nat>, r: nat, itemset: array<nat>,
                   end0: nat) returns (csp: nat, end: nat)
    requires g.WellFormed() && Ascending(nucleus) && AreItems(g, nucleus)
    requires itemset.Length == g.NItems() && csp0 <= |nucleus| && end0 <= itemset.Length
    requires g.IsRule(r) && r in rules && Merged(g, nucleus, csp0, rules, r, itemset[..end0])
    modifies itemset
    ensures csp <= |nucleus| && end <= itemset.Length
    ensures Merged(g, nucleus, csp, rules, r + 1, itemset[..end])
  {
    hide Merged, Grammar.WellFormed;
    ghost var out := itemset[..end0];
    MergedAreItems(g, nucleus, csp0, rules, r, out);
    MergedAscends(g, nucleus, csp0, rules, r, out);
    g.RuleFacts(r);
    csp, end := csp0, end0;
    var itemno := g.rrhs[r];
    while csp < |nucleus| && nucleus[csp] < itemno
      invariant csp0 <= csp <= |nucleus| && end <= itemset.Length
      invariant itemset[..end] == out + nucleus[csp0..csp]
      invariant forall c :: csp0 <= c < csp ==> nucleus[c] < itemno
    {
      StillAscending(g, nucleus, csp0, csp, rules, r, out);
      RoomLeft(g, out + nucleus[csp0..csp]);
      itemset[end] := nucleus[csp];
      csp, end := csp + 1, end + 1;
      assert nucleus[csp0..csp] == nucleus[csp0..csp - 1] + [nucleus[csp - 1]];
    }
    StillAscending(g, nucleus, csp0, csp, rules, r, out);
    RoomLeft(g, out + nucleus[csp0..csp]);
    itemset[end] := itemno;
    end := end + 1;
    ghost var mid := csp;
    while csp < |nucleus| && nucleus[csp] == itemno
      invariant mid <= csp <= |nucleus|
      invariant csp == mid || (csp == mid + 1 && nucleus[mid] == itemno)
    {
      csp := csp + 1;
    }
    ghost var next := MergeRule(g, nucleus, csp0, mid, rules, r, out);
    assert itemset[..end] == out + nucleus[csp0..mid] + [itemno];
  }

  lemma StillAscending(g: Grammar, nucleus: seq<nat>, csp: nat, mid: nat, rules: set<nat>, r: nat, out: seq<nat>)
    requires g.WellFormed() && Ascending(nucleus) && AreItems(g, nucleus) && csp <= mid <= |nucleus|
    requires Merged(g, nucleus, csp, rules, r, out) && AreItems(g, out)
    ensures Ascending(out + nucleus[csp..mid]) && AreItems(g, out + nucleus[csp..mid])
  {
    var now := out + nucleus[csp..mid];
    forall a, b | 0 <= a < b < |now| ensures now[a] < now[b] {
      if a < |out| { assert now[a] in out; }
    }
  }

  lemma MergeRest(g: Grammar, nucleus: seq<nat>, csp: nat, rules: set<nat>, r: nat, out: seq<nat>)
    requires g.WellFormed() && csp <= |nucleus| && r >= g.NRules()
    requires IsRuleSet(g, nucleus, |nucleus|, rules) && Merged(g, nucleus, csp, rules, r, out)
    ensures forall i: nat :: i in out + nucleus[csp..] <==> InClosure(g, nucleus, i)
  {
    hide IsRuleSet, StartOf, InClosure, Grammar.WellFormed;
    assert nucleus == nucleus[..csp] + nucleus[csp..];
    forall i: nat
      ensures i in out + nucleus[csp..] <==> InClosure(g, nucleus, i)
    {
      StartsAreClosure(g, nucleus, rules, r, i);
    }
  }

  lemma StartsAreClosure(g: Grammar, nucleus: seq<nat>, rules: set<nat>, r: nat, i: nat)
    requires g.WellFormed() && r >= g.NRules() && IsRuleSet(g, nucleus, |nucleus|, rules)
    ensures i in nucleus || StartOf(g, rules, r, i) <==> InClosure(g, nucleus, i)
  {
    if StartOf(g, rules, r, i) {
      var q: nat :| q in rules && g.IsRule(q) && q < r && i == g.rrhs[q];
      var c :| 0 <= c < |nucleus| && Predicts(g, nucleus[c], q);
      assert nucleus[c] in nucleus;
    }
    if InClosure(g, nucleus, i) && i !in nucleus {
      var k: nat, q: nat :| k in nucleus && Predicts(g, k, q) && i == g.rrhs[q];
      var c :| 0 <= c < |nucleus| && nucleus[c] == k;
      assert q in rules;
    }
  }

  /** The itemset holds the closure of the nucleus, in increasing order and each item once. */
  method Closure(g: Grammar, firstDerives: BitMatrix, nucleus: seq<nat>, ruleset: BitMatrix, itemset: array<nat>)
    returns (end: nat)
    requires g.WellFormed() && Ascending(nucleus) && AreItems(g, nucleus)
    requires firstDerives.Valid() && firstDerives.n == g.NVars() && firstDerives.bits == g.NRules()
    requires IsFirstDerives(g, firstDerives.Value())
    requires ruleset.Valid() && ruleset.n == 1 && ruleset.bits == g.NRules() && ruleset.w == firstDerives.w
    requires ruleset.words != firstDerives.words
    requires itemset.Length == g.NItems()
    modifies ruleset.words, itemset
    ensures end <= itemset.Length && Ascending(itemset[..end])
    ensures forall i: nat :: i in itemset[..end] <==> InClosure(g, nucleus, i)
  {
    hide BitMatrix.Value, Merged, Predicts, InClosure, IsRuleSet, IsFirstDerives, Grammar.WellFormed;
    PredictRules(g, firstDerives, nucleus, ruleset);
    ghost var rules := ruleset.Value()[0];
    end := 0;
    var csp: nat := 0;
    assert itemset[..0] == [];
    MergeStart(g, nucleus, rules);
    for r := 0 to g.NRules()
      invariant csp <= |nucleus| && end <= itemset.Length
      invariant ruleset.Value()[0] == rules
      invariant Merged(g, nucleus, csp, rules, r, itemset[..end])
    {
      var member := ruleset.Test(0, r);
      if member {
        RuleSetRule(g, nucleus, rules, r);
        csp, end := WriteRule(g, nucleus, csp, rules, r, itemset, end);
      } else {
        MergeSkip(g, nucleus, csp, rules, r, itemset[..end]);
      }
    }
    ghost var out, from := itemset[..end], csp;
    MergedAreItems(g, nucleus, csp, rules, g.NRules(), out);
    MergeRest(g, nucleus, csp, rules, g.NRules(), out);
    while csp < |nucleus|
      invariant from <= csp <= |nucleus| && end <= itemset.Length
      invariant itemset[..end] == out + nucleus[from..csp]
    {
      StillAscending(g, nucleus, from, csp, rules, g.NRules(), out);
      RoomLeft(g, out + nucleus[from..csp]);
      itemset[end] := nucleus[csp];
      csp, end := csp + 1, end + 1;
      assert nucleus[from..csp] == nucleus[from..csp - 1] + [nucleus[csp - 1]];
    }
    StillAscending(g, nucleus, from, csp, rules, g.NRules(), out);
    assert nucleus[from..csp] == nucleus[from..];
  }

  lemma RuleSetRule(g: Grammar, nucleus: seq<nat>, rules: set<nat>, r: nat)
    requires g.WellFormed() && IsRuleSet(g, nucleus, |nucleus|, rules) && r in rules
    ensures g.IsRule(r)
  {}

  /** The first loops of closure: clear the rule set, then OR in the row of every variable
      that stands after a dot of the nucleus. */
  method PredictRules(g: Grammar, firstDerives: BitMatrix, nucleus: seq<nat>, ruleset: BitMatrix)
    requires g.WellFormed() && AreItems(g, nucleus)
    requires firstDerives.Valid() && firstDerives.n == g.NVars() && firstDerives.bits == g.NRules()
    requires IsFirstDerives(g, firstDerives.Value())
    requires ruleset.Valid() && ruleset.n == 1 && ruleset.bits == g.NRules() && ruleset.w == firstDerives.w
    requires ruleset.words != firstDerives.words
    modifies ruleset.words
    ensures IsRuleSet(g, nucleus, |nucleus|, ruleset.Value()[0])
  {
    hide BitMatrix.Value, Predicts, Grammar.WellFormed, Reaches;
    ruleset.Clear();
    for c := 0 to |nucleus|
      invariant firstDerives.Value() == old(firstDerives.Value())
      invariant IsRuleSet(g, nucleus, c, ruleset.Value()[0])
    {
      assert nucleus[c] in nucleus;
      g.ItemContent(nucleus[c]);
      var symbol := g.ritem[nucleus[c]];
      PredictsIs(g, nucleus[c]);
      if g.IsVar(symbol) {
        ruleset.OrRow(0, firstDerives, symbol - g.ntokens);
      }
    }
  }

  lemma PredictsIs(g: Grammar, k: nat)
    requires g.WellFormed() && g.IsItem(k)
    ensures g.IsVar(g.ritem[k]) ==> g.ritem[k] < g.nsyms
    ensures forall r: nat :: Predicts(g, k, r) <==>
              g.IsRule(r) && g.IsVar(g.ritem[k]) && Reaches(LeftCorner(g), g.ritem[k], g.rlhs[r])
  {
    g.ItemContent(k);
  }
}
