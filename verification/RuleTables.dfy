/** lr0.c: set_derives and set_nullable, the two tables computed from the rules alone. */
module RuleTables {
  import opened Cfgs
  import opened Grammars

  predicate Ascending(s: seq<nat>) { forall a, b :: 0 <= a < b < |s| ==> s[a] < s[b] }

  /** All but the last of an increasing sequence are below it. */
  lemma AscendingFront(a: seq<nat>)
    requires Ascending(a) && a != []
    ensures Ascending(a[..|a| - 1]) && forall x :: x in a[..|a| - 1] <==> x in a && x < a[|a| - 1]
    ensures forall x :: x in a ==> x <= a[|a| - 1]
  {
    var m := |a| - 1;
    forall x | x in a ensures x <= a[m] && (x < a[m] ==> x in a[..m]) {
      var k :| 0 <= k <= m && a[k] == x;
      if k < m { assert a[..m][k] == x; }
    }
  }

  ghost predicate SameMembers(a: seq<nat>, b: seq<nat>) { forall x :: x in a <==> x in b }

  /** What two increasing sequences with the same members have in common. */
  lemma SameFronts(a: seq<nat>, b: seq<nat>)
    requires Ascending(a) && Ascending(b) && SameMembers(a, b) && a != []
    ensures b != [] && a[|a| - 1] == b[|b| - 1] && SameMembers(a[..|a| - 1], b[..|b| - 1])
  {
    hide Ascending;
    var last := a[|a| - 1];
    assert last in a && last in b;
    AscendingFront(a);
    AscendingFront(b);
    assert b[|b| - 1] in b && b[|b| - 1] in a;
    var front, back := a[..|a| - 1], b[..|b| - 1];
    forall x ensures x in front <==> x in back {
      assert x in front <==> x in a && x < last;
    }
  }

  /** An increasing sequence is determined by its members. */
  lemma {:induction false} AscendingUnique(a: seq<nat>, b: seq<nat>)
    requires Ascending(a) && Ascending(b) && SameMembers(a, b)
    ensures a == b
  {
    if b != [] { assert b[0] in b; }
    if a != [] {
      SameFronts(a, b);
      var front, back := a[..|a| - 1], b[..|b| - 1];
      AscendingUnique(front, back);
      assert a == front + [a[|a| - 1]];
      assert b == back + [b[|b| - 1]];
    }
  }

  /** derives[v] lists the rules of variable start_symbol + v, in order. */
  ghost predicate IsDerives(g: Grammar, derives: seq<seq<nat>>)
    requires g.WellFormed()
  {
    && |derives| == g.NVars()
    && forall v :: 0 <= v < |derives| ==> RulesOf(g, v, g.NRules(), derives[v])
  }

  /** The rules below n of variable start_symbol + v. */
  ghost predicate RulesOf(g: Grammar, v: nat, n: nat, rules: seq<nat>)
    requires n <= g.NRules()
  {
    && Ascending(rules)
    && (forall r :: r in rules ==> g.IsRule(r) && r < n && g.rlhs[r] == g.StartSymbol() + v)
    && (forall r: nat :: g.IsRule(r) && r < n && g.rlhs[r] == g.StartSymbol() + v ==> r in rules)
  }

  method SetDerives(g: Grammar) returns (derives: seq<seq<nat>>)
    requires g.WellFormed()
    ensures IsDerives(g, derives)
  {
    derives := [];
    for lhs := g.StartSymbol() to g.nsyms
      invariant |derives| == lhs - g.StartSymbol()
      invariant forall v :: 0 <= v < |derives| ==> RulesOf(g, v, g.NRules(), derives[v])
    {
      var rules := RulesFor(g, lhs);
      hide RulesOf;
      derives := derives + [rules];
    }
  }

  /** The inner loop of set_derives. */
  method RulesFor(g: Grammar, lhs: nat) returns (rules: seq<nat>)
    requires g.WellFormed() && g.StartSymbol() <= lhs < g.nsyms
    ensures RulesOf(g, lhs - g.StartSymbol(), g.NRules(), rules)
  {
    rules := [];
    for i := 0 to g.NRules()
      invariant RulesOf(g, lhs - g.StartSymbol(), i, rules)
    {
      assert forall a :: 0 <= a < |rules| ==> rules[a] in rules;
      if g.rlhs[i] == lhs {
        rules := rules + [i];
      }
    }
  }

  // ----- nullable symbols -----

  /** Symbol s derives the empty string. */
  ghost predicate DerivesEmpty(g: Grammar, s: nat)
    requires g.WellFormed()
  {
    Derives(g.Unpacked(), [s], [])
  }

  ghost predicate AllNullable(nullable: seq<bool>, form: seq<nat>)
  {
    forall k :: 0 <= k < |form| ==> form[k] < |nullable| && nullable[form[k]]
  }

  /** Nothing is marked that does not derive the empty string. */
  ghost predicate Sound(g: Grammar, nullable: seq<bool>)
    requires g.WellFormed() && |nullable| == g.nsyms
  {
    forall s :: 0 <= s < g.nsyms && nullable[s] ==> DerivesEmpty(g, s)
  }

  /** Every rule below n that could mark its variable has done so. */
  ghost predicate Saturated(g: Grammar, nullable: seq<bool>, n: nat)
    requires g.WellFormed() && |nullable| == g.nsyms
  {
    forall r :: g.IsRule(r) && r < n && g.rlhs[r] < g.nsyms && AllNullable(nullable, g.Rhs(r)) ==> nullable[g.rlhs[r]]
  }

  lemma {:induction false} EmptyForest(g: Grammar, nullable: seq<bool>, form: seq<nat>)
    requires g.WellFormed() && |nullable| == g.nsyms && Sound(g, nullable) && AllNullable(nullable, form)
    ensures Derives(g.Unpacked(), form, [])
  {
    if form == [] {
      assert Done.Form(g.Unpacked()) == [];
    } else {
      hide Grammar.WellFormed, Grammar.Unpacked;
      EmptyForest(g, nullable, form[1..]);
      assert DerivesEmpty(g, form[0]);
      EmptyJoin(g.Unpacked(), [form[0]], form[1..]);
      assert [form[0]] + form[1..] == form;
    }
  }

  lemma EmptyJoin(c: Cfg, a: seq<nat>, b: seq<nat>)
    requires Derives(c, a, []) && Derives(c, b, [])
    ensures Derives(c, a + b, [])
  {
    var d: Forest :| d.Valid(c) && d.Form(c) == a && d.Yield() == [];
    var e: Forest :| e.Valid(c) && e.Form(c) == b && e.Yield() == [];
    d.JoinMeans(c, e);
    hide Forest.Valid, Forest.Form, Forest.Yield;
    assert d.Join(e).Yield() == [];
  }

  lemma MarkIsSound(g: Grammar, nullable: seq<bool>, r: nat)
    requires g.WellFormed() && |nullable| == g.nsyms && Sound(g, nullable)
    requires g.IsRule(r) && AllNullable(nullable, g.Rhs(r))
    ensures DerivesEmpty(g, g.rlhs[r])
    ensures g.rlhs[r] < g.nsyms && Sound(g, nullable[g.rlhs[r] := true])
  {
    hide AllNullable, Grammar.WellFormed, Grammar.Unpacked;
    g.RuleFacts(r);
    EmptyForest(g, nullable, g.Rhs(r));
    g.UnpackedRule(r);
    var c := g.Unpacked();
    var sub: Forest :| sub.Valid(c) && sub.Form(c) == c.rules[r].rhs && sub.Yield() == [];
    var d := Var(r, sub, Done);
    assert Done.Valid(c) && Done.Form(c) == [] && Done.Yield() == [];
    assert d.Valid(c);
    assert d.Form(c) == [g.rlhs[r]] + [] && d.Yield() == [] + [];
  }

  lemma {:induction false} SaturatedIsComplete(g: Grammar, nullable: seq<bool>, d: Forest)
    requires g.WellFormed() && |nullable| == g.nsyms && Saturated(g, nullable, g.NRules())
    requires d.Valid(g.Unpacked()) && d.Yield() == []
    ensures AllNullable(nullable, d.Form(g.Unpacked()))
    decreases d
  {
    match d
    case Done =>
    case Var(r, sub, rest) =>
      hide Grammar.WellFormed, Grammar.Unpacked, Grammar.Rhs;
      g.UnpackedRule(r);
      g.RuleFacts(r);
      SaturatedIsComplete(g, nullable, sub);
      SaturatedIsComplete(g, nullable, rest);
  }

  /** One scan of rule r's right side, from its first item: true when it is all nullable.
      The scan leaves i at the rule's end. */
  method ScanRule(g: Grammar, nullable: array<bool>, start: nat, ghost r: nat) returns (empty: bool, i: nat)
    requires g.WellFormed() && nullable.Length == g.nsyms && g.IsRule(r) && start == g.rrhs[r]
    ensures i == g.RuleEnd(r)
    ensures empty <==> AllNullable(nullable[..], g.Rhs(r))
  {
    hide Grammar.WellFormed, Grammar.Rhs, Grammar.RuleEnd, AllNullable;
    g.RuleFacts(r);
    ghost var rhs, end, now := g.Rhs(r), g.RuleEnd(r), nullable[..];
    empty, i := true, start;
    NoneToCheck(now, rhs);
    while g.ritem[i] >= 0
      invariant start <= i <= end && (g.ritem[i] >= 0 <==> i < end)
      invariant empty <==> AllNullable(now, rhs[..i - start])
      decreases end - i
    {
      var j := g.ritem[i];
      assert rhs[i - start] == j;
      OneMoreNullable(now, rhs, i - start);
      if !nullable[j] {
        empty := false;
      }
      i := i + 1;
      assert i < end ==> rhs[i - start] == g.ritem[i];
    }
    assert rhs[..i - start] == rhs;
  }

  lemma NoneToCheck(nullable: seq<bool>, form: seq<nat>)
    ensures AllNullable(nullable, form[..0])
  {}

  lemma OneMoreNullable(nullable: seq<bool>, form: seq<nat>, k: nat)
    requires k < |form| && form[k] < |nullable|
    ensures AllNullable(nullable, form[..k + 1]) <==> AllNullable(nullable, form[..k]) && nullable[form[k]]
  {
    assert forall l :: 0 <= l < k ==> form[..k + 1][l] == form[..k][l];
    assert form[..k + 1][k] == form[k];
  }

  ghost function Unmarked(nullable: seq<bool>): set<nat>
  {
    set s: nat | s < |nullable| && !nullable[s]
  }

  lemma MarkedOne(before: seq<bool>, now: seq<bool>, j: nat)
    requires |now| == |before| && j < |now| && !now[j] && Unmarked(now) <= Unmarked(before)
    ensures Unmarked(now[j := true]) < Unmarked(before)
  {
    assert j in Unmarked(now) && j !in Unmarked(now[j := true]);
  }

  /** One pass over the rules.  It finds nothing to mark only if nothing is left to mark. */
  method MarkNullable(g: Grammar, nullable: array<bool>) returns (done: bool)
    requires g.WellFormed() && nullable.Length == g.nsyms && Sound(g, nullable[..])
    modifies nullable
    ensures Sound(g, nullable[..])
    ensures done ==> Saturated(g, nullable[..], g.NRules())
    ensures !done ==> Unmarked(nullable[..]) < Unmarked(old(nullable[..]))
  {
    done := true;
    ghost var before := nullable[..];
    var i := 1;
    ghost var r := 2;
    g.RuleStart(r);
    g.RuleFacts(r);
    assert Saturated(g, before, r);
    hide Grammar.WellFormed, DerivesEmpty, Unmarked, Sound;
    while i < g.NItems()
      invariant 2 <= r <= g.NRules() && |g.rrhs| == g.NRules() + 1 && i == g.rrhs[r]
      invariant i < g.NItems() <==> r < g.NRules()
      invariant Sound(g, nullable[..])
      invariant Unmarked(nullable[..]) <= Unmarked(before)
      invariant done ==> nullable[..] == before && Saturated(g, before, r)
      invariant !done ==> Unmarked(nullable[..]) < Unmarked(before)
      decreases g.NItems() - i
    {
      g.RuleFacts(r);
      g.RuleStart(r + 1);
      var empty, e := ScanRule(g, nullable, i, r);
      i := e;
      if empty {
        var j := g.rlhs[-g.ritem[i]];
        if !nullable[j] {
          ghost var was := nullable[..];
          MarkedOne(before, was, j);
          MarkIsSound(g, was, r);
          nullable[j] := true;
          assert nullable[..] == was[j := true];
          done := false;
        }
      }
      i := i + 1;
      r := r + 1;
    }
  }

  /** A symbol is marked exactly when it derives the empty string.  Every pass but the last
      marks a new symbol, so the passes end. */
  method SetNullable(g: Grammar) returns (result: seq<bool>)
    requires g.WellFormed()
    ensures |result| == g.nsyms
    ensures forall s :: 0 <= s < g.nsyms ==> (result[s] <==> DerivesEmpty(g, s))
  {
    hide Grammar.WellFormed, Unmarked;
    var nullable := new bool[g.nsyms](_ => false);
    var done := false;
    while !done
      invariant Sound(g, nullable[..])
      invariant done ==> Saturated(g, nullable[..], g.NRules())
      decreases !done, Unmarked(nullable[..])
    {
      done := MarkNullable(g, nullable);
    }
    result := nullable[..];
    forall s | 0 <= s < g.nsyms && DerivesEmpty(g, s)
      ensures result[s]
    {
      MarkedIfEmpty(g, result, s);
    }
  }

  lemma MarkedIfEmpty(g: Grammar, nullable: seq<bool>, s: nat)
    requires g.WellFormed() && |nullable| == g.nsyms && Saturated(g, nullable, g.NRules())
    requires s < g.nsyms && DerivesEmpty(g, s)
    ensures nullable[s]
  {
    hide Grammar.WellFormed, Grammar.Unpacked, Forest.Valid, Forest.Form, Forest.Yield;
    var c := g.Unpacked();
    var d: Forest :| d.Valid(c) && d.Form(c) == [s] && d.Yield() == [];
    SaturatedIsComplete(g, nullable, d);
    assert d.Form(c)[0] == s;
  }
}
