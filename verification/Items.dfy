/** LR(0) items over a packed grammar.  An item is an index into ritem: the dot stands
    before ritem[i]. */
module Items {
  import opened Cfgs
  import opened Grammars
  import opened Reach

  /** a has a rule whose right side starts with the variable b. */
  ghost predicate StartsWith(g: Grammar, a: nat, b: nat)
    requires g.WellFormed()
  {
    g.IsVar(b) && exists r :: g.IsRule(r) && g.rlhs[r] == a && g.ritem[g.rrhs[r]] == b
  }

  ghost function LeftCorner(g: Grammar): Rel
    requires g.WellFormed()
  {
    (a: nat, b: nat) => StartsWith(g, a, b)
  }

  /** Rule r can be predicted at item k: the variable after the dot leads, leftmost, to r's variable. */
  ghost predicate Predicts(g: Grammar, k: nat, r: nat)
    requires g.WellFormed()
  {
    && g.IsItem(k) && g.IsRule(r) && g.IsVar(g.ritem[k])
    && Reaches(LeftCorner(g), g.ritem[k] as nat, g.rlhs[r])
  }

  /** Item i is in the closure of the kernel. */
  ghost predicate InClosure(g: Grammar, kernel: seq<nat>, i: nat)
    requires g.WellFormed()
  {
    i in kernel || exists k: nat, r: nat :: k in kernel && Predicts(g, k, r) && i == g.rrhs[r]
  }

  ghost predicate AreItems(g: Grammar, kernel: seq<nat>)
  {
    forall i :: i in kernel ==> g.IsItem(i)
  }

  /** Whenever the dot is before a variable, that variable's rules are there, at their start. */
  ghost predicate Closed(g: Grammar, s: set<nat>)
    requires g.WellFormed()
  {
    forall i, r :: i in s && g.IsItem(i) && g.IsRule(r) && g.ritem[i] == g.rlhs[r] ==> g.rrhs[r] in s
  }

  ghost function ClosureSet(g: Grammar, kernel: seq<nat>): (s: set<nat>)
    requires g.WellFormed() && AreItems(g, kernel)
    ensures forall i :: i in s <==> InClosure(g, kernel, i)
    ensures forall i :: i in s ==> g.IsItem(i)
  {
    forall i: nat | InClosure(g, kernel, i) ensures g.IsItem(i) {
      if i !in kernel {
        var k: nat, r: nat :| k in kernel && Predicts(g, k, r) && i == g.rrhs[r];
        assert g.RuleLaidOut(r);
      }
    }
    set i: nat | i < |g.ritem| && InClosure(g, kernel, i)
  }

  /** Only variables after $accept are ever expanded into. */
  lemma RuleLhs(g: Grammar, r: nat)
    requires g.WellFormed() && g.IsRule(r)
    ensures g.ntokens <= g.rlhs[r] < g.nsyms && (r >= 3 ==> g.rlhs[r] > g.ntokens)
  {
    if r >= 3 { assert g.UserRule(r); }
  }

  lemma ClosureStep(g: Grammar, kernel: seq<nat>, i: nat, r: nat)
    requires g.WellFormed() && AreItems(g, kernel)
    requires InClosure(g, kernel, i) && g.IsItem(i) && g.IsRule(r) && g.ritem[i] == g.rlhs[r]
    ensures InClosure(g, kernel, g.rrhs[r])
  {
    RuleLhs(g, r);
    if i in kernel {
      ReachesRefl(LeftCorner(g), g.rlhs[r]);
      assert Predicts(g, i, r);
    } else {
      var k: nat, q: nat :| k in kernel && Predicts(g, k, q) && i == g.rrhs[q];
      assert StartsWith(g, g.rlhs[q], g.rlhs[r]);
      ReachesSnoc(LeftCorner(g), g.ritem[k], g.rlhs[q], g.rlhs[r]);
      assert Predicts(g, k, r);
    }
  }

  /** The closure is the least closed set of items that holds the kernel. */
  lemma ClosureIsLeast(g: Grammar, kernel: seq<nat>, s: set<nat>)
    requires g.WellFormed() && AreItems(g, kernel)
    ensures (forall i :: i in kernel ==> i in ClosureSet(g, kernel)) && Closed(g, ClosureSet(g, kernel))
    ensures (forall i :: i in kernel ==> i in s) && Closed(g, s) ==> ClosureSet(g, kernel) <= s
  {
    assert forall i :: i in kernel ==> InClosure(g, kernel, i);
    hide InClosure, Predicts;
    forall i: nat, r: nat | i in ClosureSet(g, kernel) && g.IsItem(i) && g.IsRule(r) && g.ritem[i] == g.rlhs[r]
      ensures g.rrhs[r] in ClosureSet(g, kernel)
    {
      ClosureStep(g, kernel, i, r);
    }
    if (forall i :: i in kernel ==> i in s) && Closed(g, s) {
      forall i | i in ClosureSet(g, kernel)
        ensures i in s
      {
        ClosureWithin(g, kernel, s, i);
      }
    }
  }

  lemma ClosureWithin(g: Grammar, kernel: seq<nat>, s: set<nat>, i: nat)
    requires g.WellFormed() && (forall j :: j in kernel ==> j in s) && Closed(g, s)
    requires InClosure(g, kernel, i)
    ensures i in s
  {
    if i !in kernel {
      var k: nat, r: nat :| k in kernel && Predicts(g, k, r) && i == g.rrhs[r];
      PredictedIn(g, s, k, r);
    }
  }

  lemma PredictedIn(g: Grammar, s: set<nat>, k: nat, r: nat)
    requires g.WellFormed() && Closed(g, s) && k in s && Predicts(g, k, r)
    ensures g.rrhs[r] in s
  {
    var p := (b: nat) => forall q :: g.IsRule(q) && g.rlhs[q] == b ==> g.rrhs[q] in s;
    forall a: nat, b: nat | p(a) && LeftCorner(g)(a, b)
      ensures p(b)
    {
      var q: nat :| g.IsRule(q) && g.rlhs[q] == a && g.ritem[g.rrhs[q]] == b;
      assert g.rrhs[q] in s && g.RuleLaidOut(q);
    }
    ReachesKeeps(LeftCorner(g), p, g.ritem[k], g.rlhs[r]);
  }

  /** An item added by the closure has its dot at the start of its rule, and was predicted
      by an item of the closure with the dot before the rule's variable. */
  lemma ClosureItem(g: Grammar, kernel: seq<nat>, i: nat)
    requires g.WellFormed() && AreItems(g, kernel) && InClosure(g, kernel, i) && i !in kernel
    ensures g.IsItem(i) && i == g.rrhs[g.RuleOf(i)]
    ensures DotBefore(g, kernel, g.rlhs[g.RuleOf(i)])
  {
    var k: nat, r: nat :| k in kernel && Predicts(g, k, r) && i == g.rrhs[r];
    assert g.RuleLaidOut(r);
    g.RuleOfUnique(i, r);
    var p := (b: nat) => DotBefore(g, kernel, b);
    assert g.ritem[k] >= 0 && p(g.ritem[k]);
    forall a: nat, b: nat | p(a) && LeftCorner(g)(a, b)
      ensures p(b)
    {
      DotBeforeStep(g, kernel, a, b);
    }
    ReachesKeeps(LeftCorner(g), p, g.ritem[k], g.rlhs[r]);
  }

  ghost predicate DotBefore(g: Grammar, kernel: seq<nat>, b: nat)
    requires g.WellFormed()
  {
    exists j: nat :: InClosure(g, kernel, j) && g.IsItem(j) && g.ritem[j] == b
  }

  lemma DotBeforeStep(g: Grammar, kernel: seq<nat>, a: nat, b: nat)
    requires g.WellFormed() && AreItems(g, kernel) && DotBefore(g, kernel, a) && StartsWith(g, a, b)
    ensures DotBefore(g, kernel, b)
  {
    hide InClosure;
    var j: nat :| InClosure(g, kernel, j) && g.IsItem(j) && g.ritem[j] == a;
    var q: nat :| g.IsRule(q) && g.rlhs[q] == a && g.ritem[g.rrhs[q]] == b;
    ClosureStep(g, kernel, j, q);
    assert g.RuleLaidOut(q);
  }
}
