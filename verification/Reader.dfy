/** reader.c: pack_symbols and pack_grammar.  The symbols and rules that were read get their
    numbers and are laid out in the flat arrays that all later stages read. */
module Reader {
  import opened Cfgs
  import opened Grammars
  import LR0
  import opened Mkpar
  import opened Vectors

  const UNDEFINED := -1
  const NULL := -1

  /** A bucket of the symbol table, in the order of first_symbol; number 0 is the token error.
      A value is UNDEFINED unless the input gives one. */
  datatype Symbol = Symbol(isTerm: bool, value: int, prec: int, assoc: Assoc)

  /** A rule of the input; prec is UNDEFINED unless %prec was used. */
  datatype SourceRule = SourceRule(lhs: nat, rhs: seq<nat>, prec: int, assoc: Assoc)

  datatype Source = Source(symbols: seq<Symbol>, goal: nat, rules: seq<SourceRule>)
  {
    ghost predicate Valid()
    {
      && |symbols| > 0 && symbols[0].isTerm && goal < |symbols| && !symbols[goal].isTerm
      && (forall i :: 0 <= i < |rules| ==> IsRuleOf(rules[i]))
      && (forall b :: 0 <= b < |symbols| ==> symbols[b].value >= UNDEFINED)
    }

    predicate IsRuleOf(r: SourceRule)
    {
      r.lhs < |symbols| && !symbols[r.lhs].isTerm && forall k :: 0 <= k < |r.rhs| ==> r.rhs[k] < |symbols|
    }

    ghost function NTokens(): nat { 1 + Terms(symbols, |symbols|) }
    ghost function NSyms(): nat { |symbols| + 2 }
  }

  // ----- the numbers of the symbols -----

  ghost function Terms(symbols: seq<Symbol>, n: nat): (t: nat)
    requires n <= |symbols|
    ensures t <= n
  {
    if n == 0 then 0 else Terms(symbols, n - 1) + if symbols[n - 1].isTerm then 1 else 0
  }

  /** Tokens from 1 in the order of the table; the variables after $accept, also in that order
      except that the goal comes first. */
  ghost function IndexOf(s: Source, b: nat): nat
    requires b < |s.symbols|
  {
    if s.symbols[b].isTerm then 1 + Terms(s.symbols, b)
    else if b == s.goal then s.NTokens() + 1
    else s.NTokens() + 1 + b - Terms(s.symbols, b) + if b < s.goal then 1 else 0
  }

  /** The place in the array v, where the goal keeps its own place among the variables. */
  ghost function Slot(s: Source, b: nat): nat
    requires b < |s.symbols|
  {
    if s.symbols[b].isTerm then 1 + Terms(s.symbols, b) else s.NTokens() + 1 + b - Terms(s.symbols, b)
  }

  lemma {:induction false} TermsGrow(symbols: seq<Symbol>, m: nat, n: nat)
    requires m <= n <= |symbols|
    ensures Terms(symbols, m) <= Terms(symbols, n) <= Terms(symbols, m) + n - m
    ensures m < n && symbols[m].isTerm ==> Terms(symbols, m) < Terms(symbols, n)
    ensures m < n && !symbols[m].isTerm ==> Terms(symbols, n) < Terms(symbols, m) + n - m
    decreases n
  {
    if m < n { TermsGrow(symbols, m, n - 1); }
  }

  /** The slots are all different; tokens are below $accept and variables above it. */
  lemma SlotRange(s: Source, b: nat)
    requires b < |s.symbols|
    ensures s.symbols[b].isTerm ==> 1 <= Slot(s, b) < s.NTokens()
    ensures !s.symbols[b].isTerm ==> s.NTokens() + 1 <= Slot(s, b) < s.NSyms()
  {
    TermsGrow(s.symbols, b, |s.symbols|);
  }

  lemma SlotOrder(s: Source, b: nat, c: nat)
    requires b < c < |s.symbols|
    ensures Slot(s, b) != Slot(s, c)
    ensures s.symbols[b].isTerm == s.symbols[c].isTerm ==> Slot(s, b) < Slot(s, c)
  {
    TermsGrow(s.symbols, b, c);
    SlotRange(s, b);
    SlotRange(s, c);
  }

  /** The numbering is one to one onto the symbols other than $end and $accept. */
  lemma IndexRange(s: Source, b: nat)
    requires s.Valid() && b < |s.symbols|
    ensures s.symbols[b].isTerm ==> 1 <= IndexOf(s, b) < s.NTokens()
    ensures !s.symbols[b].isTerm ==> s.NTokens() + 1 <= IndexOf(s, b) < s.NSyms()
    ensures IndexOf(s, 0) == 1 && IndexOf(s, s.goal) == s.NTokens() + 1
  {
    SlotRange(s, b);
    SlotRange(s, s.goal);
    if b < s.goal && !s.symbols[b].isTerm { SlotOrder(s, b, s.goal); }
  }

  lemma IndexInjective(s: Source, b: nat, c: nat)
    requires s.Valid() && b < c < |s.symbols|
    ensures IndexOf(s, b) != IndexOf(s, c)
  {
    IndexRange(s, b);
    IndexRange(s, c);
    SlotOrder(s, b, c);
    if b != s.goal && c != s.goal && b < s.goal < c && !s.symbols[b].isTerm && !s.symbols[c].isTerm {
      SlotOrder(s, b, s.goal);
      SlotOrder(s, s.goal, c);
    }
    if b == s.goal { TermsGrow(s.symbols, b, c); TermsGrow(s.symbols, 0, b); }
    if c == s.goal { TermsGrow(s.symbols, b, c); }
  }

  /** v holds the symbols below b, tokens from 1 and variables from start_symbol + 1. */
  ghost predicate Filled(s: Source, v: seq<nat>, b: nat, i: nat, j: nat)
  {
    && b <= |s.symbols| && |v| == s.NSyms() && i == 1 + Terms(s.symbols, b) &&
       j == s.NTokens() + 1 + b - Terms(s.symbols, b)
    && (forall c: nat :: c < b ==> 1 <= Slot(s, c) < |v| && v[Slot(s, c)] == c)
    && i <= |v| && j <= |v|
    && (forall k :: 1 <= k < i || s.NTokens() < k < j ==> v[k] < b && Slot(s, v[k]) == k)
  }

  /** Where the next symbol goes. */
  lemma NextSlot(s: Source, b: nat, i: nat, j: nat)
    requires b < |s.symbols| && i == 1 + Terms(s.symbols, b) && j == s.NTokens() + 1 + b - Terms(s.symbols, b)
    ensures Slot(s, b) == if s.symbols[b].isTerm then i else j
    ensures Slot(s, b) < s.NSyms() && i <= s.NTokens() < j && (s.symbols[b].isTerm ==> i < s.NTokens())
    ensures Terms(s.symbols, b + 1) == Terms(s.symbols, b) + if s.symbols[b].isTerm then 1 else 0
    ensures i <= s.NSyms() && j <= s.NSyms()
  {
    SlotRange(s, b);
    TermsGrow(s.symbols, b, |s.symbols|);
  }

  lemma FilledStep(s: Source, v: seq<nat>, b: nat, i: nat, j: nat)
    requires Filled(s, v, b, i, j) && b < |s.symbols|
    ensures var at := if s.symbols[b].isTerm then i else j;
            && at == Slot(s, b) < |v|
            && Filled(s, v[at := b], b + 1, if s.symbols[b].isTerm then i + 1 else i,
                      if s.symbols[b].isTerm then j else j + 1)
  {
    NextSlot(s, b, i, j);
    hide Slot, Terms, Source.NTokens;
    forall c: nat | c < b ensures Slot(s, c) != Slot(s, b) { SlotOrder(s, c, b); }
  }

  /** The array v of pack_symbols. */
  method FillSlots(s: Source) returns (ntokens: nat, v: array<nat>)
    requires s.Valid()
    ensures ntokens == s.NTokens() && fresh(v) && v.Length == s.NSyms()
    ensures Filled(s, v[..], |s.symbols|, ntokens, v.Length)
  {
    var nsyms := 2;
    ntokens := 1;
    for b := 0 to |s.symbols|
      invariant nsyms == b + 2 && ntokens == 1 + Terms(s.symbols, b)
    {
      nsyms := nsyms + 1;
      if s.symbols[b].isTerm {
        ntokens := ntokens + 1;
      }
    }
    var start_symbol := ntokens;
    v := new nat[nsyms](_ => 0);
    var i, j := 1, start_symbol + 1;
    for b := 0 to |s.symbols|
      invariant Filled(s, v[..], b, i, j)
    {
      ghost var was := v[..];
      FilledStep(s, was, b, i, j);
      hide Filled;
      if s.symbols[b].isTerm {
        v[i] := b;
        assert v[..] == was[i := b];
        i := i + 1;
      } else {
        v[j] := b;
        assert v[..] == was[j := b];
        j := j + 1;
      }
    }
  }

  ghost predicate Indexed(s: Source, index: seq<nat>)
  {
    |index| == |s.symbols| && forall b :: 0 <= b < |index| ==> index[b] == IndexOf(s, b)
  }

  /** The symbol in slot i. */
  lemma SlotIs(s: Source, v: seq<nat>, i: nat)
    requires s.Valid() && Filled(s, v, |s.symbols|, s.NTokens(), s.NSyms())
    requires 1 <= i < s.NTokens() || s.NTokens() < i < s.NSyms()
    ensures v[i] < |s.symbols| && Slot(s, v[i]) == i && (s.symbols[v[i]].isTerm <==> i < s.NTokens())
  {
    SlotRange(s, v[i]);
  }

  /** Every symbol whose slot is below i, the slot of $accept left out, has its number. */
  ghost predicate NumberedTo(s: Source, index: seq<nat>, i: nat)
  {
    |index| == |s.symbols| && forall b: nat :: b < |index| && Slot(s, b) < i ==> index[b] == IndexOf(s, b)
  }

  method NumberSymbols(s: Source, ntokens: nat, v: array<nat>) returns (index: array<nat>)
    requires s.Valid() && ntokens == s.NTokens() && v.Length == s.NSyms() &&
             Filled(s, v[..], |s.symbols|, ntokens, v.Length)
    ensures fresh(index) && Indexed(s, index[..])
  {
    index := new nat[|s.symbols|](_ => 0);
    for i := 1 to ntokens
      invariant NumberedTo(s, index[..], i)
    {
      NumberToken(s, v[..], index[..], i);
      hide NumberedTo, Filled;
      ghost var was := index[..];
      index[v[i]] := i;
      assert index[..] == was[v[i] := i];
    }
    var start_symbol := ntokens;
    var k := start_symbol + 2;
    ghost var before := index[..];
    TokensNumbered(s, v[..], before);
    index[s.goal] := start_symbol + 1;
    assert index[..] == before[s.goal := start_symbol + 1];
    for i := start_symbol + 1 to v.Length
      invariant NumberedTo(s, index[..], i) && index.Length == |s.symbols| && index[s.goal] == IndexOf(s, s.goal)
      invariant k == if i <= Slot(s, s.goal) then i + 1 else i
    {
      NumberVariable(s, v[..], index[..], i, k);
      hide NumberedTo, Filled;
      ghost var was := index[..];
      if v[i] != s.goal {
        index[v[i]] := k;
        assert index[..] == was[v[i] := k];
        k := k + 1;
      }
    }
    forall b: nat | b < |s.symbols| ensures index[..][b] == IndexOf(s, b) { SlotRange(s, b); }
  }

  lemma NumberToken(s: Source, v: seq<nat>, index: seq<nat>, i: nat)
    requires s.Valid() && Filled(s, v, |s.symbols|, s.NTokens(), s.NSyms()) && 1 <= i < s.NTokens() &&
             NumberedTo(s, index, i)
    ensures v[i] < |index| && NumberedTo(s, index[v[i] := i], i + 1)
  {
    SlotIs(s, v, i);
    forall b: nat | b < |index| && b != v[i] ensures Slot(s, b) != i {
      if b < v[i] { SlotOrder(s, b, v[i]); } else { SlotOrder(s, v[i], b); }
    }
  }

  lemma TokensNumbered(s: Source, v: seq<nat>, index: seq<nat>)
    requires s.Valid() && NumberedTo(s, index, s.NTokens())
    ensures NumberedTo(s, index[s.goal := s.NTokens() + 1], s.NTokens() + 1)
    ensures s.NTokens() + 1 <= Slot(s, s.goal) < s.NSyms() && IndexOf(s, s.goal) == s.NTokens() + 1
  {
    SlotRange(s, s.goal);
    forall b: nat | b < |index| && Slot(s, b) < s.NTokens() + 1
      ensures b != s.goal && Slot(s, b) < s.NTokens()
    {
      SlotRange(s, b);
    }
  }

  lemma NumberVariable(s: Source, v: seq<nat>, index: seq<nat>, i: nat, k: nat)
    requires s.Valid() && Filled(s, v, |s.symbols|, s.NTokens(), s.NSyms()) && s.NTokens() < i < s.NSyms()
    requires NumberedTo(s, index, i) && index[s.goal] == IndexOf(s, s.goal)
    requires k == if i <= Slot(s, s.goal) then i + 1 else i
    ensures v[i] < |index| && (v[i] == s.goal <==> i == Slot(s, s.goal))
    ensures v[i] == s.goal ==> NumberedTo(s, index, i + 1)
    ensures v[i] != s.goal ==> NumberedTo(s, index[v[i] := k], i + 1)
  {
    SlotIs(s, v, i);
    forall b: nat | b < |index| && b != v[i] ensures Slot(s, b) != i {
      if b < v[i] { SlotOrder(s, b, v[i]); } else { SlotOrder(s, v[i], b); }
    }
    if v[i] < s.goal { SlotOrder(s, v[i], s.goal); }
    if s.goal < v[i] { SlotOrder(s, s.goal, v[i]); }
  }

  // ----- the numbers that the scanner uses -----

  /** The values that are given: 0 for the end marker, 256 for error unless the input numbers
      it, and those of the input. */
  predicate IsFixed(decl: seq<int>, i: nat)
    requires i < |decl|
  {
    i <= 1 || decl[i] != UNDEFINED
  }

  function Fixed(decl: seq<int>, i: nat): int
    requires i < |decl|
  {
    if i == 1 && decl[1] == UNDEFINED then 256 else decl[i]
  }

  /** The values of the first n tokens: a token without a value gets the least number from 257
      on that no token of the input has and that has not been given to another one. */
  ghost predicate ValuesTo(decl: seq<int>, val: seq<int>, n: nat)
  {
    && n <= |decl| == |val|
    && (forall i :: 0 <= i < n && IsFixed(decl, i) ==> val[i] == Fixed(decl, i))
    && (forall i :: 0 <= i < n && !IsFixed(decl, i) ==> val[i] >= 257 && val[i] !in decl)
    && (forall i, j :: 0 <= i < j < n && !IsFixed(decl, i) && !IsFixed(decl, j) ==> val[i] < val[j])
    && (forall i, y :: 0 <= i < n && !IsFixed(decl, i) && 257 <= y < val[i] ==>
         y in decl || TakenBefore(decl, val, i, y))
  }

  ghost predicate TakenBefore(decl: seq<int>, val: seq<int>, i: nat, y: int)
    requires i <= |decl| == |val|
  {
    exists j :: 0 <= j < i && !IsFixed(decl, j) && val[j] == y
  }

  ghost predicate FixedDiffer(decl: seq<int>)
  {
    forall i, j :: 0 <= i < j < |decl| && IsFixed(decl, i) && IsFixed(decl, j) ==> Fixed(decl, i) != Fixed(decl, j)
  }

  ghost predicate AllDiffer(val: seq<int>)
  {
    forall i, j :: 0 <= i < j < |val| ==> val[i] != val[j]
  }

  /** The numbering is one to one exactly when the input's own numbers are. */
  lemma ValuesDiffer(decl: seq<int>, val: seq<int>)
    requires ValuesTo(decl, val, |decl|) && |decl| >= 2 && decl[0] == 0
    ensures AllDiffer(val) <==> FixedDiffer(decl)
  {
    if FixedDiffer(decl) {
      forall i, j | 0 <= i < j < |val| ensures val[i] != val[j] {
        if IsFixed(decl, i) && !IsFixed(decl, j) { FixedInInput(decl, i); }
        if !IsFixed(decl, i) && IsFixed(decl, j) { FixedInInput(decl, j); }
      }
    }
  }

  lemma FixedInInput(decl: seq<int>, i: nat)
    requires i < |decl| && IsFixed(decl, i)
    ensures Fixed(decl, i) in decl || Fixed(decl, i) == 256
  {}

  predicate Sorted(r: seq<int>) { forall i, j :: 0 <= i < j < |r| ==> r[i] <= r[j] }

  /** The values above 256 among the first n, in order. */
  ghost predicate IsReserved(decl: seq<int>, n: nat, r: seq<int>)
  {
    n <= |decl| && |r| <= n && Sorted(r) && forall y :: y in r <==> y > 256 && y in decl[..n]
  }

  method Reserve(decl: seq<int>, symbol_value: array<int>) returns (k: nat)
    requires |decl| >= 2 && decl[0] == 0 && symbol_value.Length >= |decl|
    modifies symbol_value
    ensures k <= symbol_value.Length && IsReserved(decl, |decl|, symbol_value[..k])
  {
    assert IsReserved(decl, 1, symbol_value[..0]);
    hide Sorted;
    k := 0;
    for i := 1 to |decl|
      invariant k <= i && IsReserved(decl, i, symbol_value[..k])
    {
      ghost var r := symbol_value[..k];
      var n := decl[i];
      if n > 256 {
        InsertSorted(symbol_value, k, n);
        k := k + 1;
      }
      hide IsReserved;
      ReservedNext(decl, i, r, symbol_value[..k]);
    }
  }

  lemma ReservedNext(decl: seq<int>, i: nat, r: seq<int>, r': seq<int>)
    requires i < |decl| && IsReserved(decl, i, r)
    requires if decl[i] <= 256 then r' == r
             else |r'| == |r| + 1 && Sorted(r') && forall y :: y in r' <==> y in r || y == decl[i]
    ensures IsReserved(decl, i + 1, r')
  {
    hide Sorted;
    assert decl[..i + 1] == decl[..i] + [decl[i]];
  }

  method InsertSorted(a: array<int>, k: nat, n: int)
    requires k < a.Length && Sorted(a[..k])
    modifies a
    ensures Sorted(a[..k + 1]) && forall y :: y in a[..k + 1] <==> y in old(a[..k]) || y == n
  {
    hide Sorted;
    ghost var was := a[..k];
    var j := k;
    while j > 0 && a[j - 1] > n
      invariant j <= k
      invariant forall e :: 0 <= e < j ==> a[e] == was[e]
      invariant forall e :: j < e <= k ==> a[e] == was[e - 1]
      invariant j < k ==> was[j] > n
    {
      a[j] := a[j - 1];
      j := j - 1;
    }
    a[j] := n;
    assert a[..k + 1] == was[..j] + [n] + was[j..];
    SortedInsert(was, j, n);
  }

  lemma SortedInsert(r: seq<int>, j: nat, n: int)
    requires Sorted(r) && j <= |r| && (j > 0 ==> r[j - 1] <= n) && (j < |r| ==> r[j] > n)
    ensures Sorted(r[..j] + [n] + r[j..]) && forall y :: y in r[..j] + [n] + r[j..] <==> y in r || y == n
  {
    hide Sorted;
    SortedParts(r, j, n);
    SortedJoin(r[..j], n, r[j..]);
    InParts(r, j);
  }

  lemma InParts(r: seq<int>, j: nat)
    requires j <= |r|
    ensures forall y :: y in r <==> y in r[..j] || y in r[j..]
  {
    assert r == r[..j] + r[j..];
  }

  lemma SortedParts(r: seq<int>, j: nat, n: int)
    requires Sorted(r) && j <= |r| && (j > 0 ==> r[j - 1] <= n) && (j < |r| ==> r[j] > n)
    ensures Sorted(r[..j]) && forall k :: 0 <= k < j ==> r[..j][k] <= n
    ensures Sorted(r[j..]) && forall k :: 0 <= k < |r| - j ==> n <= r[j..][k]
  {
    assert forall k :: 0 <= k < j ==> r[k] <= r[j - 1];
    assert forall k :: j <= k < |r| ==> r[j] <= r[k];
  }

  lemma SortedJoin(front: seq<int>, n: int, back: seq<int>)
    requires Sorted(front) && Sorted(back) && (forall k :: 0 <= k < |front| ==> front[k] <= n) &&
             (forall k :: 0 <= k < |back| ==> n <= back[k])
    ensures Sorted(front + [n] + back)
  {}

  /** The next number to give out is above all that have been skipped. */
  ghost predicate NextFree(r: seq<int>, j: nat, n: int)
  {
    && j <= |r| && Sorted(r) && n >= 257
    && (forall e :: 0 <= e < j ==> r[e] < n)
    && (forall e :: j <= e < |r| ==> r[e] >= n)
  }

  /** n moves on past the reserved numbers. */
  method SkipReserved(symbol_value: array<int>, k: nat, j0: nat, n0: int) returns (j: nat, n: int)
    requires k <= symbol_value.Length && NextFree(symbol_value[..k], j0, n0)
    ensures NextFree(symbol_value[..k], j, n) && n0 <= n && n !in symbol_value[..k]
    ensures forall y :: n0 <= y < n ==> y in symbol_value[..k]
  {
    ghost var r := symbol_value[..k];
    j, n := j0, n0;
    while j < k && n == symbol_value[j]
      invariant NextFree(r, j, n) && n0 <= n && forall y :: n0 <= y < n ==> y in r
      decreases k - j
    {
      assert r[j] == n;
      ghost var first := j;
      j := j + 1;
      while j < k && n == symbol_value[j]
        invariant first < j <= k && forall e :: first <= e < j ==> r[e] == n
        decreases k - j
      {
        j := j + 1;
      }
      forall e | j <= e < k ensures r[e] >= n + 1 {
        assert r[j] <= r[e] && r[first] <= r[j];
      }
      n := n + 1;
    }
    assert forall e :: j <= e < |r| ==> r[j] <= r[e];
  }

  /** bucket->value of the tokens, indexed as symbol_value will be. */
  method NumberTokens(decl: seq<int>, symbol_value: array<int>) returns (val: array<int>)
    requires |decl| >= 2 && decl[0] == 0 && symbol_value.Length >= |decl|
    modifies symbol_value
    ensures fresh(val) && ValuesTo(decl, val[..], |decl|)
  {
    hide ValuesTo, Numbering, NextFree, IsReserved;
    var k := Reserve(decl, symbol_value);
    ghost var r := symbol_value[..k];
    NothingSkipped(decl, r);
    val := new int[|decl|](i requires 0 <= i < |decl| => decl[i]);
    assert val[..] == decl;
    if val[1] == UNDEFINED {
      val[1] := 256;
      assert val[..] == decl[1 := 256];
    }
    NumberingStarts(decl);
    var j: nat, n := 0, 257;
    for i := 2 to |decl|
      invariant symbol_value[..k] == r && NextFree(r, j, n) && IsReserved(decl, |decl|, r)
      invariant Numbering(decl, val[..], i, n)
    {
      ghost var was := val[..];
      NextIsLarge(r, j, n);
      if val[i] == UNDEFINED {
        ghost var n0 := n;
        j, n := SkipReserved(symbol_value, k, j, n);
        NumberOne(decl, was, i, n0, n, r);
        val[i] := n;
        assert val[..] == was[i := n];
        FreeAfter(r, j, n);
        n := n + 1;
      } else {
        NumberKept(decl, was, i, n);
      }
    }
    NumberingDone(decl, val[..], n);
  }

  lemma NothingSkipped(decl: seq<int>, r: seq<int>)
    requires IsReserved(decl, |decl|, r)
    ensures NextFree(r, 0, 257)
  {
    assert forall e :: 0 <= e < |r| ==> r[e] in r;
  }

  lemma NextIsLarge(r: seq<int>, j: nat, n: int)
    requires NextFree(r, j, n)
    ensures n >= 257
  {}

  lemma FreeAfter(r: seq<int>, j: nat, n: int)
    requires NextFree(r, j, n) && n !in r
    ensures NextFree(r, j, n + 1)
  {}

  lemma NumberingStarts(decl: seq<int>)
    requires |decl| >= 2 && decl[0] == 0
    ensures Numbering(decl, if decl[1] == UNDEFINED then decl[1 := 256] else decl, 2, 257)
  {}

  lemma NumberingDone(decl: seq<int>, val: seq<int>, n: int)
    requires Numbering(decl, val, |decl|, n)
    ensures ValuesTo(decl, val, |decl|)
  {}

  /** The first i values are right, the others still as in the input; the numbers from 257 up
      to n are taken. */
  ghost predicate Numbering(decl: seq<int>, val: seq<int>, i: nat, n: int)
  {
    && 2 <= i && ValuesTo(decl, val, i)
    && (forall k :: i <= k < |decl| ==> val[k] == decl[k])
    && (forall k :: 0 <= k < i && !IsFixed(decl, k) ==> val[k] < n)
    && (forall y :: 257 <= y < n ==> y in decl || TakenBefore(decl, val, i, y))
  }

  lemma NumberKept(decl: seq<int>, val: seq<int>, i: nat, n: int)
    requires i < |decl| && Numbering(decl, val, i, n) && val[i] != UNDEFINED
    ensures Numbering(decl, val, i + 1, n)
  {
    var next := i + 1;
    forall y | 257 <= y < n && y !in decl ensures TakenBefore(decl, val, next, y) {
      var j :| 0 <= j < i && !IsFixed(decl, j) && val[j] == y;
      assert j < next;
    }
  }

  lemma NumberOne(decl: seq<int>, val: seq<int>, i: nat, n0: int, n: int, r: seq<int>)
    requires i < |decl| && Numbering(decl, val, i, n0) && val[i] == UNDEFINED && 257 <= n0 <= n
    requires IsReserved(decl, |decl|, r) && n !in r && forall y :: n0 <= y < n ==> y in r
    ensures Numbering(decl, val[i := n], i + 1, n + 1)
  {
    hide TakenBefore, Sorted;
    var val', next := val[i := n], i + 1;
    assert decl[..|decl|] == decl && n !in decl;
    forall a: nat, y | a <= i ensures TakenBefore(decl, val', a, y) <==> TakenBefore(decl, val, a, y) {
      TakenSame(decl, val, i, n, a, y);
    }
    forall y ensures TakenBefore(decl, val', next, y) <==> TakenBefore(decl, val', i, y) || y == n {
      TakenMore(decl, val', i, y);
    }
    forall y | n0 <= y < n ensures y in decl { assert y in r; }
  }

  lemma TakenSame(decl: seq<int>, val: seq<int>, i: nat, n: int, a: nat, y: int)
    requires a <= i < |decl| == |val|
    ensures TakenBefore(decl, val[i := n], a, y) <==> TakenBefore(decl, val, a, y)
  {
    var val' := val[i := n];
    if TakenBefore(decl, val, a, y) {
      var j :| 0 <= j < a && !IsFixed(decl, j) && val[j] == y;
      assert val'[j] == y;
    }
  }

  lemma TakenMore(decl: seq<int>, val: seq<int>, i: nat, y: int)
    requires i < |decl| == |val| && !IsFixed(decl, i)
    ensures TakenBefore(decl, val, i + 1, y) <==> TakenBefore(decl, val, i, y) || val[i] == y
  {
    var next := i + 1;
    if TakenBefore(decl, val, i, y) {
      var j :| 0 <= j < i && !IsFixed(decl, j) && val[j] == y;
      assert j < next;
    }
    if val[i] == y { assert i < next; }
  }

  // ----- pack_grammar -----

  /** Where the i-th rule starts, in pitem and in ritem. */
  ghost function Offset(rules: seq<SourceRule>, i: nat): (o: nat)
    requires i <= |rules|
    ensures o >= 4
  {
    if i == 0 then 4 else Offset(rules, i - 1) + |rules[i - 1].rhs| + 1
  }

  lemma {:induction false} OffsetGrows(rules: seq<SourceRule>, i: nat, j: nat)
    requires i <= j <= |rules|
    ensures Offset(rules, i) <= Offset(rules, j)
    ensures i < j ==> Offset(rules, i) + |rules[i].rhs| < Offset(rules, j)
    decreases j
  {
    if i < j { OffsetGrows(rules, i, j - 1); }
  }

  /** The array pitem: four empty cells, then every rule's symbols and a NULL. */
  ghost predicate IsItems(pitem: seq<int>, rules: seq<SourceRule>)
  {
    && |pitem| == Offset(rules, |rules|)
    && forall i: nat :: i < |rules| ==> RuleItems(pitem, rules[i].rhs, Offset(rules, i))
  }

  ghost predicate RuleItems(pitem: seq<int>, rhs: seq<nat>, at: nat)
  {
    at + |rhs| < |pitem| && pitem[at + |rhs|] == NULL && forall k :: 0 <= k < |rhs| ==> pitem[at + k] == rhs[k]
  }

  /** The precedence of a rule's last token. */
  function RulePrec(symbols: seq<Symbol>, rhs: seq<nat>): (int, Assoc)
    requires forall k :: 0 <= k < |rhs| ==> rhs[k] < |symbols|
  {
    if rhs == [] then (0, TOKEN)
    else
      var b := rhs[|rhs| - 1];
      if symbols[b].isTerm then (symbols[b].prec, symbols[b].assoc) else RulePrec(symbols, rhs[..|rhs| - 1])
  }

  /** It is that of the token behind which there are only variables. */
  lemma {:induction false} LastTokenCounts(symbols: seq<Symbol>, rhs: seq<nat>, k: nat)
    requires (forall j :: 0 <= j < |rhs| ==> rhs[j] < |symbols|) && k < |rhs| && symbols[rhs[k]].isTerm
    requires forall j :: k < j < |rhs| ==> !symbols[rhs[j]].isTerm
    ensures RulePrec(symbols, rhs) == (symbols[rhs[k]].prec, symbols[rhs[k]].assoc)
    decreases |rhs|
  {
    if k < |rhs| - 1 { LastTokenCounts(symbols, rhs[..|rhs| - 1], k); }
  }

  lemma {:induction false} NoTokenCounts(symbols: seq<Symbol>, rhs: seq<nat>)
    requires forall j :: 0 <= j < |rhs| ==> rhs[j] < |symbols| && !symbols[rhs[j]].isTerm
    ensures RulePrec(symbols, rhs) == (0, TOKEN)
    decreases |rhs|
  {
    if rhs != [] { NoTokenCounts(symbols, rhs[..|rhs| - 1]); }
  }

  /** The packed right side and end of a rule. */
  ghost predicate PackedRule(ritem: seq<int>, index: seq<nat>, rhs: seq<nat>, at: nat, r: nat)
    requires forall k :: 0 <= k < |rhs| ==> rhs[k] < |index|
  {
    && at + |rhs| < |ritem| && ritem[at + |rhs|] == -(r as int)
    && forall k :: 0 <= k < |rhs| ==> ritem[at + k] == index[rhs[k]]
  }

  /** The inner loop of pack_grammar. */
  method PackRule(s: Source, index: seq<nat>, pitem: seq<int>, ghost rhs: seq<nat>, at: nat, r: nat, ritem: array<int>)
    returns (j: nat, prec2: int, assoc: Assoc)
    requires |index| == |s.symbols| && RuleItems(pitem, rhs, at) && ritem.Length == |pitem|
    requires forall k :: 0 <= k < |rhs| ==> rhs[k] < |s.symbols|
    modifies ritem
    ensures j == at + |rhs| + 1 && (prec2, assoc) == RulePrec(s.symbols, rhs)
    ensures PackedRule(ritem[..], index, rhs, at, r)
    ensures forall k :: 0 <= k < at ==> ritem[k] == old(ritem[k])
  {
    j, prec2, assoc := at, 0, TOKEN;
    while pitem[j] != NULL
      invariant at <= j <= at + |rhs| && (prec2, assoc) == RulePrec(s.symbols, rhs[..j - at])
      invariant pitem[j] == if j < at + |rhs| then rhs[j - at] else NULL
      invariant forall k :: 0 <= k < j - at ==> ritem[at + k] == index[rhs[k]]
      invariant forall k :: 0 <= k < at ==> ritem[k] == old(ritem[k])
      decreases at + |rhs| - j
    {
      assert j < at + |rhs| && pitem[j] == rhs[j - at];
      var b: nat := pitem[j];
      assert rhs[..j + 1 - at][..j - at] == rhs[..j - at];
      ritem[j] := index[b];
      if s.symbols[b].isTerm {
        prec2 := s.symbols[b].prec;
        assoc := s.symbols[b].assoc;
      }
      j := j + 1;
    }
    assert rhs[..j - at] == rhs;
    ritem[j] := -(r as int);
    j := j + 1;
  }

  /** The first n user rules are packed. */
  ghost predicate PackedTo(s: Source, index: seq<nat>, ritem: seq<int>, rlhs: seq<nat>, rrhs: seq<nat>, n: nat)
    requires s.Valid() && |index| == |s.symbols|
  {
    && n <= |s.rules| && |rlhs| == |s.rules| + 3 && |rrhs| == |s.rules| + 4
    && (forall i: nat :: i < n ==> PackedAt(s, index, ritem, rlhs, rrhs, i))
  }

  ghost predicate PackedAt(s: Source, index: seq<nat>, ritem: seq<int>, rlhs: seq<nat>, rrhs: seq<nat>, i: nat)
    requires s.Valid() && |index| == |s.symbols| && i < |s.rules|
  {
    assert s.IsRuleOf(s.rules[i]);
    && i + 3 < |rlhs| && i + 3 < |rrhs|
    && rlhs[i + 3] == index[s.rules[i].lhs] && rrhs[i + 3] == Offset(s.rules, i)
    && PackedRule(ritem, index, s.rules[i].rhs, Offset(s.rules, i), i + 3)
  }

  /** The fixed part of the arrays: rule 2 is $accept : goal $end. */
  ghost predicate Header(s: Source, ritem: seq<int>, rlhs: seq<nat>, rrhs: seq<nat>)
    requires s.Valid()
  {
    && |ritem| >= 4 && |rlhs| >= 3 && |rrhs| >= 3
    && ritem[0] == -1 && ritem[1] == IndexOf(s, s.goal) && ritem[2] == 0 && ritem[3] == -2
    && rlhs[0] == 0 && rlhs[1] == 0 && rlhs[2] == s.NTokens() && rrhs[2] == 1
  }

  ghost predicate RulePrecs(s: Source, rprec: seq<int>, rassoc: seq<Assoc>, n: nat)
    requires s.Valid()
  {
    && n <= |s.rules| && |rprec| == |rassoc| == |s.rules| + 3
    && forall i: nat :: i < n ==> RulePrecAt(s, rprec, rassoc, i)
  }

  ghost predicate RulePrecAt(s: Source, rprec: seq<int>, rassoc: seq<Assoc>, i: nat)
    requires s.Valid() && i < |s.rules|
  {
    i + 3 < |rprec| && i + 3 < |rassoc| && RulePrecIs(s, rprec[i + 3], rassoc[i + 3], i)
  }

  /** A rule has the precedence given by %prec, or else that of its last token. */
  ghost predicate RulePrecIs(s: Source, prec: int, assoc: Assoc, i: nat)
    requires s.Valid() && i < |s.rules|
  {
    assert s.IsRuleOf(s.rules[i]);
    (prec, assoc) == if s.rules[i].prec == UNDEFINED then RulePrec(s.symbols, s.rules[i].rhs)
      else (s.rules[i].prec, s.rules[i].assoc)
  }

  /** Packing a rule leaves the rules before it. */
  lemma PackedMore(s: Source, index: seq<nat>, ritem: seq<int>, rlhs: seq<nat>, rrhs: seq<nat>, ritem': seq<int>,
                   rlhs': seq<nat>, rrhs': seq<nat>, i: nat)
    requires s.Valid() && |index| == |s.symbols| && i < |s.rules| && PackedTo(s, index, ritem, rlhs, rrhs, i)
    requires |ritem'| == |ritem| && rlhs' == rlhs[i + 3 := index[s.rules[i].lhs]] &&
             rrhs' == rrhs[i + 3 := Offset(s.rules, i)]
    requires (forall k :: 0 <= k < |s.rules[i].rhs| ==> s.rules[i].rhs[k] < |index|) &&
             PackedRule(ritem', index, s.rules[i].rhs, Offset(s.rules, i), i + 3)
    requires forall k :: 0 <= k < Offset(s.rules, i) && k < |ritem| ==> ritem'[k] == ritem[k]
    ensures PackedTo(s, index, ritem', rlhs', rrhs', i + 1)
  {
    forall r: nat | r < i + 1 ensures PackedAt(s, index, ritem', rlhs', rrhs', r) {
      if r < i {
        assert PackedAt(s, index, ritem, rlhs, rrhs, r);
        OffsetGrows(s.rules, r, i);
        hide Offset;
        assert PackedRule(ritem, index, s.rules[r].rhs, Offset(s.rules, r), r + 3);
      }
    }
  }

  method PackGrammar(s: Source, index: seq<nat>, pitem: seq<int>, ntokens: nat)
    returns (ritem: array<int>, rlhs: array<nat>, rrhs: array<nat>, rprec: array<int>, rassoc: array<Assoc>)
    requires s.Valid() && Indexed(s, index) && IsItems(pitem, s.rules) && ntokens == s.NTokens()
    ensures ritem.Length == |pitem|
    ensures Header(s, ritem[..], rlhs[..], rrhs[..])
    ensures PackedTo(s, index, ritem[..], rlhs[..], rrhs[..], |s.rules|) && rrhs[|s.rules| + 3] == |pitem|
    ensures RulePrecs(s, rprec[..], rassoc[..], |s.rules|)
  {
    assert |index| == |s.symbols|;
    ItemsEnd(s, pitem);
    hide *;
    var nrules := |s.rules| + 3;
    ritem, rlhs, rrhs := PackHeader(s, index, |pitem|, ntokens);
    rprec := new int[nrules](_ => 0);
    rassoc := new Assoc[nrules](_ => TOKEN);
    NothingPacked(s, index, ritem[..], rlhs[..], rrhs[..], rprec[..], rassoc[..]);
    PackRules(s, index, pitem, ritem, rlhs, rrhs, rprec, rassoc);
  }

  /** The loop over the rules, and the end of the last one. */
  method PackRules(s: Source, index: seq<nat>, pitem: seq<int>, ritem: array<int>, rlhs: array<nat>, rrhs: array<nat>,
                   rprec: array<int>, rassoc: array<Assoc>)
    requires s.Valid() && |index| == |s.symbols| && IsItems(pitem, s.rules) && ritem.Length == |pitem|
    requires |pitem| == Offset(s.rules, |s.rules|) && Offset(s.rules, 0) == 4
    requires rlhs != rrhs && ritem != rprec && rrhs.Length == |s.rules| + 4 && Header(s, ritem[..], rlhs[..], rrhs[..])
    requires PackedTo(s, index, ritem[..], rlhs[..], rrhs[..], 0) && RulePrecs(s, rprec[..], rassoc[..], 0)
    modifies ritem, rlhs, rrhs, rprec, rassoc
    ensures Header(s, ritem[..], rlhs[..], rrhs[..])
    ensures PackedTo(s, index, ritem[..], rlhs[..], rrhs[..], |s.rules|) && rrhs[|s.rules| + 3] == |pitem|
    ensures RulePrecs(s, rprec[..], rassoc[..], |s.rules|)
  {
    hide *;
    var j := 4;
    for i := 0 to |s.rules|
      invariant j == Offset(s.rules, i) && Header(s, ritem[..], rlhs[..], rrhs[..])
      invariant PackedTo(s, index, ritem[..], rlhs[..], rrhs[..], i) && RulePrecs(s, rprec[..], rassoc[..], i)
    {
      j := PackOne(s, index, pitem, i, j, ritem, rlhs, rrhs, rprec, rassoc);
    }
    ghost var before := rrhs[..];
    rrhs[|s.rules| + 3] := j;
    assert rrhs[..] == before[|s.rules| + 3 := j];
    LastOffset(s, index, ritem[..], rlhs[..], before, j);
    HeaderStays(s, ritem[..], rlhs[..], before, |s.rules| + 3, j);
  }

  lemma HeaderStays(s: Source, ritem: seq<int>, rlhs: seq<nat>, rrhs: seq<nat>, at: nat, j: nat)
    requires s.Valid() && Header(s, ritem, rlhs, rrhs) && 3 <= at < |rrhs|
    ensures Header(s, ritem, rlhs, rrhs[at := j])
  {}

  lemma ItemsEnd(s: Source, pitem: seq<int>)
    requires IsItems(pitem, s.rules)
    ensures |pitem| == Offset(s.rules, |s.rules|)
  {}

  /** The arrays before the first user rule. */
  method PackHeader(s: Source, index: seq<nat>, nitems: nat, ntokens: nat)
    returns (ritem: array<int>, rlhs: array<nat>, rrhs: array<nat>)
    requires s.Valid() && Indexed(s, index) && ntokens == s.NTokens() && nitems == Offset(s.rules, |s.rules|)
    ensures fresh(ritem) && fresh(rlhs) && fresh(rrhs) && rlhs != rrhs
    ensures ritem.Length == nitems && rlhs.Length == |s.rules| + 3 && rrhs.Length == |s.rules| + 4
    ensures Header(s, ritem[..], rlhs[..], rrhs[..])
  {
    hide IndexOf;
    ritem := new int[nitems](_ => 0);
    rlhs := new nat[|s.rules| + 3](_ => 0);
    rrhs := new nat[|s.rules| + 4](_ => 0);
    ritem[0], ritem[1], ritem[2], ritem[3] := -1, index[s.goal], 0, -2;
    rlhs[2] := ntokens;
    rrhs[2] := 1;
  }

  lemma NothingPacked(s: Source, index: seq<nat>, ritem: seq<int>, rlhs: seq<nat>, rrhs: seq<nat>, rprec: seq<int>,
                      rassoc: seq<Assoc>)
    requires s.Valid() && Indexed(s, index) && |rlhs| == |rprec| == |rassoc| == |s.rules| + 3 && |rrhs| == |s.rules| + 4
    ensures PackedTo(s, index, ritem, rlhs, rrhs, 0) && RulePrecs(s, rprec, rassoc, 0) && Offset(s.rules, 0) == 4
  {}

  lemma LastOffset(s: Source, index: seq<nat>, ritem: seq<int>, rlhs: seq<nat>, rrhs: seq<nat>, j: nat)
    requires s.Valid() && |index| == |s.symbols| && PackedTo(s, index, ritem, rlhs, rrhs, |s.rules|)
    ensures PackedTo(s, index, ritem, rlhs, rrhs[|s.rules| + 3 := j], |s.rules|)
  {
    var rrhs' := rrhs[|s.rules| + 3 := j];
    forall i: nat | i < |s.rules| ensures PackedAt(s, index, ritem, rlhs, rrhs', i) {
      assert PackedAt(s, index, ritem, rlhs, rrhs, i);
    }
  }

  method PackOne(s: Source, index: seq<nat>, pitem: seq<int>, i: nat, j0: nat, ritem: array<int>, rlhs: array<nat>,
                 rrhs: array<nat>, rprec: array<int>, rassoc: array<Assoc>) returns (j: nat)
    requires s.Valid() && |index| == |s.symbols| && IsItems(pitem, s.rules) && i < |s.rules| && ritem.Length == |pitem|
    requires rlhs != rrhs && ritem != rprec
    requires j0 == Offset(s.rules, i) && Header(s, ritem[..], rlhs[..], rrhs[..])
    requires PackedTo(s, index, ritem[..], rlhs[..], rrhs[..], i) && RulePrecs(s, rprec[..], rassoc[..], i)
    modifies ritem, rlhs, rrhs, rprec, rassoc
    ensures j == Offset(s.rules, i + 1) && Header(s, ritem[..], rlhs[..], rrhs[..])
    ensures PackedTo(s, index, ritem[..], rlhs[..], rrhs[..], i + 1) && RulePrecs(s, rprec[..], rassoc[..], i + 1)
  {
    ghost var ritem0, rlhs0, rrhs0, rprec0, rassoc0 := ritem[..], rlhs[..], rrhs[..], rprec[..], rassoc[..];
    assert s.IsRuleOf(s.rules[i]) && RuleItems(pitem, s.rules[i].rhs, Offset(s.rules, i));
    hide PackedTo, Source.Valid, IsItems, Offset, RuleItems, RulePrec;
    rlhs[i + 3] := index[s.rules[i].lhs];
    rrhs[i + 3] := j0;
    var prec2, assoc;
    j, prec2, assoc := PackRule(s, index, pitem, s.rules[i].rhs, j0, i + 3, ritem);
    if s.rules[i].prec != UNDEFINED {
      prec2, assoc := s.rules[i].prec, s.rules[i].assoc;
    }
    rprec[i + 3] := prec2;
    rassoc[i + 3] := assoc;
    assert rlhs[..] == rlhs0[i + 3 := index[s.rules[i].lhs]] && rrhs[..] == rrhs0[i + 3 := j0];
    assert rprec[..] == rprec0[i + 3 := prec2] && rassoc[..] == rassoc0[i + 3 := assoc];
    PackedMore(s, index, ritem0, rlhs0, rrhs0, ritem[..], rlhs[..], rrhs[..], i);
    PrecsMore(s, rprec0, rassoc0, prec2, assoc, i);
    NextOffset(s.rules, i);
  }

  lemma NextOffset(rules: seq<SourceRule>, i: nat)
    requires i < |rules|
    ensures Offset(rules, i + 1) == Offset(rules, i) + |rules[i].rhs| + 1
  {}

  lemma PrecsMore(s: Source, rprec: seq<int>, rassoc: seq<Assoc>, prec: int, assoc: Assoc, i: nat)
    requires s.Valid() && i < |s.rules| && RulePrecs(s, rprec, rassoc, i) && RulePrecIs(s, prec, assoc, i)
    ensures RulePrecs(s, rprec[i + 3 := prec], rassoc[i + 3 := assoc], i + 1)
  {
    hide RulePrecIs;
    var rprec', rassoc', next := rprec[i + 3 := prec], rassoc[i + 3 := assoc], i + 1;
    forall r: nat | r < next ensures RulePrecAt(s, rprec', rassoc', r) {
      if r < i { assert RulePrecAt(s, rprec, rassoc, r); }
    }
  }

  // ----- the packed grammar is the one that was read -----

  /** The input's grammar under the new names, with the rule for $accept. */
  ghost function Renamed(s: Source): Cfg
    requires s.Valid()
  {
    Cfg(s.NTokens(), seq(|s.rules| + 3, r requires 0 <= r < |s.rules| + 3 =>
      if r < 2 then Production(0, [])
      else if r == 2 then Production(s.NTokens(), [s.NTokens() + 1, 0])
      else RenamedRule(s, r - 3)))
  }

  ghost function RenamedRule(s: Source, i: nat): Production
    requires s.Valid() && i < |s.rules|
  {
    assert s.IsRuleOf(s.rules[i]);
    Production(IndexOf(s, s.rules[i].lhs),
      seq(|s.rules[i].rhs|, k requires 0 <= k < |s.rules[i].rhs| => IndexOf(s, s.rules[i].rhs[k])))
  }

  ghost function Indices(s: Source): seq<nat>
  {
    seq(|s.symbols|, b requires 0 <= b < |s.symbols| => IndexOf(s, b))
  }

  ghost predicate IsPacked(s: Source, g: Grammar)
  {
    && s.Valid() && g.ntokens == s.NTokens() && g.nsyms == s.NSyms()
    && Header(s, g.ritem, g.rlhs, g.rrhs) && PackedTo(s, Indices(s), g.ritem, g.rlhs, g.rrhs, |s.rules|)
    && g.rrhs[|s.rules| + 3] == |g.ritem| == Offset(s.rules, |s.rules|)
  }

  /** Where rule i + 3 lies, and what it holds. */
  lemma PackedFacts(s: Source, g: Grammar, i: nat)
    requires IsPacked(s, g) && i < |s.rules|
    ensures s.IsRuleOf(s.rules[i]) && |g.rlhs| == |s.rules| + 3 && |g.rrhs| == |s.rules| + 4
    ensures g.rrhs[i + 3] == Offset(s.rules, i) &&
            g.rrhs[i + 4] == Offset(s.rules, i + 1) == g.rrhs[i + 3] + |s.rules[i].rhs| + 1 <= |g.ritem|
    ensures g.rlhs[i + 3] == IndexOf(s, s.rules[i].lhs) &&
            PackedRule(g.ritem, Indices(s), s.rules[i].rhs, g.rrhs[i + 3], i + 3)
  {
    assert PackedAt(s, Indices(s), g.ritem, g.rlhs, g.rrhs, i);
    if i + 1 < |s.rules| { assert PackedAt(s, Indices(s), g.ritem, g.rlhs, g.rrhs, i + 1); }
    OffsetGrows(s.rules, i + 1, |s.rules|);
  }

  /** The k-th symbol of rule i + 3 in the packed grammar. */
  lemma PackedSymbol(s: Source, g: Grammar, i: nat, k: nat)
    requires IsPacked(s, g) && i < |s.rules| && k < |s.rules[i].rhs|
    ensures |g.rrhs| == |s.rules| + 4 && g.rrhs[i + 3] + k < |g.ritem| && s.IsRuleOf(s.rules[i])
    ensures g.ritem[g.rrhs[i + 3] + k] == IndexOf(s, s.rules[i].rhs[k])
    ensures 0 < g.ritem[g.rrhs[i + 3] + k] < g.nsyms && g.ritem[g.rrhs[i + 3] + k] != g.ntokens
  {
    PackedFacts(s, g, i);
    IndexRange(s, s.rules[i].rhs[k]);
    hide IndexOf;
    assert g.ritem[g.rrhs[i + 3] + k] == Indices(s)[s.rules[i].rhs[k]];
  }

  lemma PackedLaidOut(s: Source, g: Grammar, i: nat)
    requires IsPacked(s, g) && i < |s.rules|
    ensures |g.rrhs| == |g.rlhs| + 1 && g.IsRule(i + 3) && g.RuleLaidOut(i + 3) && g.UserRule(i + 3)
  {
    PackedFacts(s, g, i);
    IndexRange(s, s.rules[i].lhs);
    hide IndexOf, Offset, IsPacked, PackedRule;
    assert g.ritem[g.rrhs[i + 4] - 1] == -((i + 3) as int) by { PackedEnd(s, g, i); }
    forall k | g.rrhs[i + 3] <= k < g.rrhs[i + 4] - 1 ensures 0 < g.ritem[k] < g.nsyms && g.ritem[k] != g.ntokens {
      PackedSymbol(s, g, i, k - g.rrhs[i + 3]);
    }
  }

  lemma PackedEnd(s: Source, g: Grammar, i: nat)
    requires IsPacked(s, g) && i < |s.rules| && |g.rrhs| == |s.rules| + 4 && 0 < g.rrhs[i + 4] <= |g.ritem|
    ensures g.ritem[g.rrhs[i + 4] - 1] == -((i + 3) as int)
  {
    PackedFacts(s, g, i);
  }

  lemma StartsAt(s: Source, g: Grammar, r: nat)
    requires IsPacked(s, g) && 3 <= r <= |s.rules| + 3
    ensures |g.rrhs| == |s.rules| + 4 && g.rrhs[r] == Offset(s.rules, r - 3)
  {
    if r < |s.rules| + 3 { PackedFacts(s, g, r - 3); }
  }

  /** Rules follow one another, the first right after $accept's. */
  lemma PackedOrder(s: Source, g: Grammar, a: nat, b: nat)
    requires IsPacked(s, g) && 2 <= a < b <= |s.rules| + 3
    ensures |g.rrhs| == |s.rules| + 4 && g.rrhs[a] < g.rrhs[b] && g.rrhs[3] == 4
  {
    assert g.rrhs[2] == 1;
    hide IsPacked;
    StartsAt(s, g, 3);
    StartsAt(s, g, b);
    if a >= 3 { StartsAt(s, g, a); OffsetGrows(s.rules, a - 3, b - 3); } else { OffsetGrows(s.rules, 0, b - 3); }
  }

  /** Packing establishes what every later stage relies on. */
  lemma PackedIsWellFormed(s: Source, g: Grammar)
    requires IsPacked(s, g)
    ensures g.WellFormed()
  {
    IndexRange(s, s.goal);
    assert |g.rlhs| == |s.rules| + 3 && |g.rrhs| == |s.rules| + 4;
    assert g.ntokens >= 2 by { TermsGrow(s.symbols, 0, |s.symbols|); }
    assert g.ntokens + 2 <= g.nsyms;
    hide IndexOf, Offset, PackedTo, Source.Valid, Terms;
    forall a, b | 2 <= a < b <= |g.rlhs| ensures g.rrhs[a] < g.rrhs[b] { PackedOrder(s, g, a, b); }
    PackedOrder(s, g, 2, 3);
    forall r | g.IsRule(r) ensures g.RuleLaidOut(r) && (r >= 3 ==> g.UserRule(r)) {
      if r >= 3 { PackedLaidOut(s, g, r - 3); }
    }
    if |s.rules| > 0 { PackedOrder(s, g, 3, |s.rules| + 3); }
  }

  /** Unpacking gives back the grammar that was read. */
  lemma UnpackedIsRenamed(s: Source, g: Grammar)
    requires IsPacked(s, g)
    ensures g.WellFormed() && g.Unpacked() == Renamed(s)
  {
    PackedIsWellFormed(s, g);
    assert |g.rlhs| == |s.rules| + 3;
    hide IndexOf, Offset, PackedTo, Source.Valid, Grammar.WellFormed, RenamedRule;
    forall r: nat | r < |g.rlhs| ensures g.Unpacked().rules[r] == Renamed(s).rules[r] {
      if r == 2 {
        g.UnpackedRule(2);
        g.RuleFacts(2);
      } else if r >= 3 {
        RuleUnpacked(s, g, r - 3);
      }
    }
    assert g.Unpacked().rules == Renamed(s).rules;
  }

  lemma PackedValid(s: Source, g: Grammar)
    requires IsPacked(s, g)
    ensures s.Valid()
  {}

  lemma RuleUnpacked(s: Source, g: Grammar, i: nat)
    requires IsPacked(s, g) && g.WellFormed() && i < |s.rules|
    ensures g.IsRule(i + 3) && g.Unpacked().rules[i + 3] == RenamedRule(s, i)
  {
    hide IndexOf, Offset, PackedTo, Source.Valid, Grammar.WellFormed, IsPacked, PackedRule, Grammar.Rhs,
         Grammar.Unpacked, Grammar.RuleLaidOut, Grammar.UserRule;
    PackedValid(s, g);
    PackedFacts(s, g, i);
    g.UnpackedRule(i + 3);
    g.RuleFacts(i + 3);
    var rhs := s.rules[i].rhs;
    forall k | 0 <= k < |rhs| ensures g.Rhs(i + 3)[k] == IndexOf(s, rhs[k]) { PackedSymbol(s, g, i, k); }
    assert g.Rhs(i + 3) == RenamedRule(s, i).rhs;
  }

  // ----- the two together -----

  /** symbol_value, symbol_prec and symbol_assoc by the new numbers. */
  ghost predicate ByNumber(s: Source, decl: seq<int>, prec: seq<int>, assoc: seq<Assoc>)
  {
    && |decl| == s.NTokens() && |prec| == |assoc| == s.NSyms()
    && decl[0] == 0 && prec[0] == 0 && assoc[0] == TOKEN && s.NTokens() < |prec| && prec[s.NTokens()] == 0 &&
       assoc[s.NTokens()] == TOKEN
    && (forall b: nat :: b < |s.symbols| ==> NumberedAs(s, decl, prec, assoc, b))
  }

  ghost predicate NumberedAs(s: Source, decl: seq<int>, prec: seq<int>, assoc: seq<Assoc>, b: nat)
    requires b < |s.symbols|
  {
    var i := IndexOf(s, b);
    && i < |prec| && i < |assoc| && prec[i] == s.symbols[b].prec && assoc[i] == s.symbols[b].assoc
    && (s.symbols[b].isTerm ==> i < |decl| && decl[i] == s.symbols[b].value)
  }

  /** The end of pack_symbols: values, precedences and associativities go by the new numbers. */
  method NumberedArrays(s: Source, index: seq<nat>, ntokens: nat)
    returns (decl: array<int>, prec: array<int>, assoc: array<Assoc>)
    requires s.Valid() && Indexed(s, index) && ntokens == s.NTokens()
    ensures ByNumber(s, decl[..], prec[..], assoc[..])
  {
    NumbersFit(s);
    decl := new int[ntokens](_ => 0);
    prec := new int[|s.symbols| + 2](_ => 0);
    assoc := new Assoc[|s.symbols| + 2](_ => TOKEN);
    for b := 0 to |s.symbols|
      invariant NumberedUpTo(s, decl[..], prec[..], assoc[..], b)
    {
      IndexRange(s, b);
      ghost var decl0, prec0, assoc0 := decl[..], prec[..], assoc[..];
      NumberedMore(s, decl0, prec0, assoc0, b);
      hide NumberedUpTo, IndexOf;
      var i := index[b];
      prec[i] := s.symbols[b].prec;
      assoc[i] := s.symbols[b].assoc;
      assert prec[..] == prec0[i := s.symbols[b].prec] && assoc[..] == assoc0[i := s.symbols[b].assoc];
      if s.symbols[b].isTerm {
        decl[i] := s.symbols[b].value;
        assert decl[..] == decl0[i := s.symbols[b].value];
      }
    }
  }

  lemma NumbersFit(s: Source)
    requires s.Valid()
    ensures 2 <= s.NTokens() && s.NTokens() + 2 <= s.NSyms()
  {
    IndexRange(s, 0);
    IndexRange(s, s.goal);
  }

  ghost predicate NumberedUpTo(s: Source, decl: seq<int>, prec: seq<int>, assoc: seq<Assoc>, n: nat)
  {
    && n <= |s.symbols| && |decl| == s.NTokens() && |prec| == |assoc| == s.NSyms()
    && decl[0] == 0 && prec[0] == 0 && assoc[0] == TOKEN && s.NTokens() < |prec| && prec[s.NTokens()] == 0 &&
       assoc[s.NTokens()] == TOKEN
    && (forall b: nat :: b < n ==> NumberedAs(s, decl, prec, assoc, b))
  }

  lemma NumberedMore(s: Source, decl: seq<int>, prec: seq<int>, assoc: seq<Assoc>, n: nat)
    requires s.Valid() && n < |s.symbols| && NumberedUpTo(s, decl, prec, assoc, n)
    ensures IndexOf(s, n) < |prec| && (s.symbols[n].isTerm ==> IndexOf(s, n) < |decl|)
    ensures var i, y := IndexOf(s, n), s.symbols[n];
            NumberedUpTo(s, if y.isTerm then decl[i := y.value] else decl, prec[i := y.prec],
                         assoc[i := y.assoc], n + 1)
  {
    IndexRange(s, n);
    hide IndexOf, Terms;
    var i, y := IndexOf(s, n), s.symbols[n];
    var decl', prec', assoc' := if y.isTerm then decl[i := y.value] else decl, prec[i := y.prec], assoc[i := y.assoc];
    forall b: nat | b < n + 1 ensures NumberedAs(s, decl', prec', assoc', b) {
      if b < n {
        IndexInjective(s, b, n);
        assert NumberedAs(s, decl, prec, assoc, b);
      }
    }
  }

  /** pack_symbols and pack_grammar: the input's symbols and rules in, the packed grammar out,
      with the precedences and the tokens' numbers. */
  method Pack(s: Source, pitem: seq<int>) returns (g: Grammar, pr: Precedence, value: seq<int>)
    requires s.Valid() && IsItems(pitem, s.rules)
    ensures IsPacked(s, g) && pr.Covers(g) && RulePrecs(s, pr.rprec, pr.rassoc, |s.rules|)
    ensures exists decl :: ByNumber(s, decl, pr.symbolPrec, pr.symbolAssoc) && ValuesTo(decl, value, |decl|)
  {
    hide Source.Valid, IsItems, Indexed, RulePrecs, Filled, ValuesTo, ByNumber, IndexOf;
    var ntokens, v := FillSlots(s);
    var indices := NumberSymbols(s, ntokens, v);
    var index := indices[..];
    IndexedIs(s, index);
    var decls, prec, assoc := NumberedArrays(s, index, ntokens);
    ghost var decl := decls[..];
    DeclaredFits(s, decl, prec[..], assoc[..]);
    var symbol_value := new int[|s.symbols| + 2](_ => 0);
    var values := NumberTokens(decls[..], symbol_value);
    value := values[..];
    var ritem, rlhs, rrhs, rprec, rassoc := PackGrammar(s, index, pitem, ntokens);
    g := Grammar(ntokens, |s.symbols| + 2, ritem[..], rlhs[..], rrhs[..]);
    pr := Precedence(prec[..], assoc[..], rprec[..], rassoc[..]);
    ItemsEnd(s, pitem);
    CoversAll(s, g, pr, decl);
  }

  lemma IndexedIs(s: Source, index: seq<nat>)
    requires Indexed(s, index)
    ensures index == Indices(s)
  {}

  lemma DeclaredFits(s: Source, decl: seq<int>, prec: seq<int>, assoc: seq<Assoc>)
    requires s.Valid() && ByNumber(s, decl, prec, assoc)
    ensures 2 <= |decl| <= |s.symbols| + 2 && decl[0] == 0
  {
    NumbersFit(s);
  }

  lemma CoversAll(s: Source, g: Grammar, pr: Precedence, decl: seq<int>)
    requires s.Valid() && g.nsyms == s.NSyms() && PackedTo(s, Indices(s), g.ritem, g.rlhs, g.rrhs, |s.rules|)
    requires ByNumber(s, decl, pr.symbolPrec, pr.symbolAssoc) && RulePrecs(s, pr.rprec, pr.rassoc, |s.rules|)
    ensures pr.Covers(g)
  {}

  /** The numbers are one to one exactly when those that the input itself gives are. */
  lemma ValuesAreTokenValues(s: Source, g: Grammar, decl: seq<int>, prec: seq<int>, assoc: seq<Assoc>, value: seq<int>)
    requires s.Valid() && g.ntokens == s.NTokens() && ByNumber(s, decl, prec, assoc) && ValuesTo(decl, value, |decl|)
    requires forall i :: 0 <= i < |value| ==> 0 <= value[i] <= LR0.MAXSHORT
    ensures AreTokenValues(g, value) <==> FixedDiffer(decl)
  {
    DeclaredFits(s, decl, prec, assoc);
    assert IsFixed(decl, 0) && value[0] == 0;
    hide ByNumber, Source.Valid, FixedDiffer;
    ValuesDiffer(decl, value);
  }
}
