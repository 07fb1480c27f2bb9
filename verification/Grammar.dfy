/** The packed grammar: the flat arrays ritem, rlhs and rrhs that pack_symbols and
    pack_grammar leave behind, and what a grammar in that layout derives. */
module Grammars {
  import opened Cfgs

  /** Symbols are numbers: tokens are 0 (the end marker), 1 (error), 2, ..., ntokens - 1;
      variables are start_symbol == ntokens ($accept), start_symbol + 1 (the goal), ..., nsyms - 1. */
  datatype Grammar = Grammar(ntokens: nat, nsyms: nat, ritem: seq<int>, rlhs: seq<nat>, rrhs: seq<nat>)
  {
    function NRules(): nat { |rlhs| }
    function NItems(): nat { |ritem| }
    function NVars(): nat requires ntokens <= nsyms { nsyms - ntokens }
    function StartSymbol(): nat { ntokens }
    function Goal(): nat { ntokens + 1 }
    predicate IsVar(s: int) { s >= ntokens }
    predicate IsRule(r: int) { 2 <= r < |rlhs| }

    /** Rule r occupies ritem[rrhs[r]..rrhs[r + 1]], its right side and then -r. */
    ghost predicate RuleLaidOut(r: nat)
      requires |rrhs| == |rlhs| + 1 && IsRule(r)
    {
      && 1 <= rrhs[r] < rrhs[r + 1] <= |ritem|
      && ritem[rrhs[r + 1] - 1] == -(r as int)
      && (forall k :: rrhs[r] <= k < rrhs[r + 1] - 1 ==> 0 <= ritem[k] < nsyms)
    }

    /** Rules from 3 on are the user's: they mention neither the end marker nor $accept. */
    ghost predicate UserRule(r: nat)
      requires |rrhs| == |rlhs| + 1 && IsRule(r)
    {
      && ntokens < rlhs[r] < nsyms
      && (forall k :: rrhs[r] <= k < rrhs[r + 1] - 1 && k < |ritem| ==> 0 < ritem[k] && ritem[k] != ntokens)
    }

    ghost predicate WellFormed()
    {
      && 2 <= ntokens && ntokens + 2 <= nsyms
      && 3 <= |rlhs| && |rrhs| == |rlhs| + 1
      && rrhs[2] == 1 && rrhs[3] == 4 && rrhs[|rlhs|] == |ritem| && 4 <= |ritem|
      && ritem[0] == -1 && ritem[1] == ntokens + 1 && ritem[2] == 0 && ritem[3] == -2
      && rlhs[0] == 0 && rlhs[1] == 0 && rlhs[2] == ntokens
      && (forall a, b :: 2 <= a < b <= |rlhs| ==> rrhs[a] < rrhs[b])
      && (forall r :: IsRule(r) ==> RuleLaidOut(r))
      && (forall r :: 3 <= r < |rlhs| ==> UserRule(r))
    }

    /** The index of rule r's end marker in ritem. */
    function RuleEnd(r: nat): (e: nat)
      requires WellFormed() && IsRule(r)
      ensures rrhs[r] <= e < |ritem| && e + 1 == rrhs[r + 1] && ritem[e] == -(r as int)
    {
      assert RuleLaidOut(r);
      rrhs[r + 1] - 1
    }

    /** The right side of rule r. */
    function Rhs(r: nat): (s: seq<nat>)
      requires WellFormed() && IsRule(r)
      ensures |s| == RuleEnd(r) - rrhs[r]
      ensures forall k :: 0 <= k < |s| ==> s[k] == ritem[rrhs[r] + k] && s[k] < nsyms
    {
      assert RuleLaidOut(r);
      seq(RuleEnd(r) - rrhs[r], k requires 0 <= k < RuleEnd(r) - rrhs[r] => ritem[rrhs[r] + k] as nat)
    }

    predicate IsItem(i: int) { 1 <= i < |ritem| }

    /** The rule whose layout holds item i. */
    ghost function RuleOf(i: nat): (r: nat)
      requires WellFormed() && IsItem(i)
      ensures IsRule(r) && rrhs[r] <= i <= RuleEnd(r)
    {
      LastRuleAt(i, |rlhs| - 1)
    }

    ghost function LastRuleAt(i: nat, r: nat): (q: nat)
      requires WellFormed() && IsItem(i) && IsRule(r) && i < rrhs[r + 1]
      ensures IsRule(q) && rrhs[q] <= i < rrhs[q + 1]
    {
      if rrhs[r] <= i then r else LastRuleAt(i, r - 1)
    }

    lemma RuleOfUnique(i: nat, r: nat)
      requires WellFormed() && IsItem(i) && IsRule(r) && rrhs[r] <= i <= RuleEnd(r)
      ensures RuleOf(i) == r
    {}

    /** What follows the dot: a symbol of RuleOf(i), or minus that rule when the item is complete. */
    lemma ItemContent(i: nat)
      requires WellFormed() && IsItem(i)
      ensures i < RuleEnd(RuleOf(i)) ==> 0 <= ritem[i] < nsyms
      ensures i == RuleEnd(RuleOf(i)) <==> ritem[i] < 0
      ensures ritem[i] < 0 ==> ritem[i] == -(RuleOf(i) as int)
      ensures ritem[i] > 0 ==> IsItem(i + 1) && RuleOf(i + 1) == RuleOf(i) && ritem[i] != ntokens
      ensures ritem[i] == 0 ==> i == 2
    {
      var r := RuleOf(i);
      assert RuleLaidOut(r);
      if r == 2 { assert i in {1, 2, 3}; } else { assert UserRule(r); }
      if i < RuleEnd(r) { RuleOfUnique(i + 1, r); }
    }

    /** What a proof needs about rule r, without unfolding WellFormed. */
    lemma RuleFacts(r: nat)
      requires WellFormed() && IsRule(r)
      ensures r + 1 < |rrhs| && |rrhs| == |rlhs| + 1 && 1 <= rrhs[r] && RuleLaidOut(r) && IsItem(rrhs[r])
      ensures ntokens <= rlhs[r] < nsyms && (rlhs[r] == ntokens <==> r == 2)
      ensures r >= 3 ==> UserRule(r)
      ensures r == 2 ==> rrhs[r] == 1 && RuleEnd(r) == 3 && Rhs(r) == [Goal(), 0]
    {
      assert RuleLaidOut(r);
      if r >= 3 { assert UserRule(r); }
    }

    lemma RuleStart(r: nat)
      requires WellFormed() && 2 <= r <= |rlhs|
      ensures |rrhs| == |rlhs| + 1 && rrhs[r] <= |ritem| && (r < |rlhs| <==> rrhs[r] < |ritem|)
    {}

    /** The grammar that the arrays hold. */
    ghost function Unpacked(): (c: Cfg)
      requires WellFormed()
      ensures |c.rules| == |rlhs| && c.ntokens == ntokens
    {
      Cfg(ntokens, seq(|rlhs|, r requires 0 <= r < |rlhs| =>
        Production(rlhs[r], if IsRule(r) then Rhs(r) else [])))
    }

    lemma UnpackedRule(r: nat)
      requires WellFormed() && IsRule(r)
      ensures Unpacked().IsRule(r) && Unpacked().rules[r] == Production(rlhs[r], Rhs(r))
    {}
  }
}
