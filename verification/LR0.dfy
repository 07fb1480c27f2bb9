/** lr0.c: the worklist that builds the canonical LR(0) collection. */
module LR0 {
  import opened Automata
  import opened Bits
  import opened Closures
  import opened Grammars
  import opened Items
  import opened RuleTables

  const MAXSHORT: nat := 32767

  // ----- allocate_itemsets: one slice of kernel_items for each symbol -----

  /** How many of the first n entries of ritem are x. */
  ghost function Count(ritem: seq<int>, x: nat, n: nat): nat
    requires n <= |ritem|
  {
    if n == 0 then 0 else Count(ritem, x, n - 1) + if ritem[n - 1] == x then 1 else 0
  }

  lemma {:induction false} CountGrows(ritem: seq<int>, x: nat, m: nat, n: nat)
    requires m <= n <= |ritem|
    ensures Count(ritem, x, m) <= Count(ritem, x, n)
    ensures m < n && ritem[m] == x ==> Count(ritem, x, m) < Count(ritem, x, n)
    decreases n
  {
    if m < n { CountGrows(ritem, x, m, n - 1); }
  }

  /** Where the slices start; slice x has room for every entry of ritem that is x. */
  ghost predicate IsBase(ritem: seq<int>, base: seq<nat>, n: nat, total: nat)
  {
    && |base| == n
    && (forall x :: 0 <= x < n ==> base[x] + Count(ritem, x, |ritem|) <= total)
    && (forall x, y :: 0 <= x < y < n ==> base[x] + Count(ritem, x, |ritem|) <= base[y])
  }

  method AllocateItemsets(g: Grammar) returns (base: seq<nat>, total: nat)
    requires g.WellFormed()
    ensures IsBase(g.ritem, base, g.nsyms, total)
  {
    var symbolCount := new nat[g.nsyms](_ => 0);
    for k := 0 to g.NItems()
      invariant forall x :: 0 <= x < g.nsyms ==> symbolCount[x] == Count(g.ritem, x, k)
    {
      if g.ritem[k] >= 0 {
        EntryIsSymbol(g, k);
        var symbol := g.ritem[k];
        symbolCount[symbol] := symbolCount[symbol] + 1;
      }
    }
    base, total := [], 0;
    for x := 0 to g.nsyms
      invariant forall y :: 0 <= y < g.nsyms ==> symbolCount[y] == Count(g.ritem, y, g.NItems())
      invariant IsBase(g.ritem, base, x, total)
    {
      base := base + [total];
      total := total + symbolCount[x];
    }
  }

  lemma EntryIsSymbol(g: Grammar, k: nat)
    requires g.WellFormed() && k < g.NItems()
    ensures g.ritem[k] < g.nsyms
  {
    if k > 0 { g.ItemContent(k); }
  }

  // ----- save_reductions -----

  /** The rules that are complete among the first n items. */
  ghost predicate CompleteIn(g: Grammar, items: seq<nat>, reds: seq<nat>)
    requires g.WellFormed()
  {
    && Ascending(reds)
    && (forall r: nat :: r in reds <==> g.IsRule(r) && g.RuleEnd(r) in items)
  }

  method SaveReductions(g: Grammar, itemset: array<nat>, end: nat) returns (redset: seq<nat>)
    requires g.WellFormed() && end <= itemset.Length
    requires Ascending(itemset[..end]) && AreItems(g, itemset[..end])
    ensures CompleteIn(g, itemset[..end], redset)
  {
    redset := [];
    for k := 0 to end
      invariant CompleteIn(g, itemset[..k], redset)
    {
      assert itemset[k] in itemset[..end];
      assert itemset[..k + 1] == itemset[..k] + [itemset[k]];
      var item := g.ritem[itemset[k]];
      g.ItemContent(itemset[k]);
      MoreComplete(g, itemset[..k], itemset[k], redset);
      if item < 0 {
        redset := redset + [-item];
      }
    }
  }

  lemma MoreComplete(g: Grammar, items: seq<nat>, i: nat, reds: seq<nat>)
    requires g.WellFormed() && CompleteIn(g, items, reds) && g.IsItem(i)
    requires forall j :: j in items ==> j < i
    ensures CompleteIn(g, items + [i], if g.ritem[i] < 0 then reds + [(-g.ritem[i]) as nat] else reds)
  {
    g.ItemContent(i);
    if g.ritem[i] < 0 {
      var q := g.RuleOf(i);
      forall r | r in reds ensures r < q {
        assert q == r || g.RuleEnd(q) < g.RuleEnd(r) || g.RuleEnd(r) < g.RuleEnd(q);
      }
      forall k | 0 <= k < |reds| ensures reds[k] < q { assert reds[k] in reds; }
    }
    forall r: nat | g.IsRule(r) && g.RuleEnd(r) == i ensures g.ritem[i] == -(r as int) {}
  }

  // ----- new_itemsets -----

  /** The items of the list with the dot before x, moved over it. */
  ghost function Moved(g: Grammar, items: seq<nat>, x: int): seq<nat>
  {
    if items == [] then []
    else
      var i := items[|items| - 1];
      Moved(g, items[..|items| - 1], x) + if g.IsItem(i) && g.ritem[i] == x then [i + 1] else []
  }

  lemma {:induction false} MovedMembers(g: Grammar, items: seq<nat>, x: int)
    requires Ascending(items) && AreItems(g, items)
    ensures Ascending(Moved(g, items, x))
    ensures forall i: nat :: i in Moved(g, items, x) <==> i >= 1 && i - 1 in items && g.ritem[i - 1] == x
  {
    if items != [] {
      var n := |items| - 1;
      var front, last := items[..n], items[n];
      assert last in items && items == front + [last];
      forall i | i in front ensures g.IsItem(i) && i < last { assert i in items; }
      MovedMembers(g, front, x);
      var m := Moved(g, front, x);
      assert Moved(g, items, x) == m + if g.ritem[last] == x then [last + 1] else [];
      hide Moved;
      AscendsMore(m, last + 1);
    }
  }

  lemma AscendsMore(m: seq<nat>, last: nat)
    requires Ascending(m) && forall i :: i in m ==> i < last
    ensures Ascending(m + [last])
  {
    assert forall k :: 0 <= k < |m| ==> m[k] in m;
  }

  /** A list of items, in order, moves at most as many over x as ritem has entries x. */
  lemma {:induction false} MovedFits(g: Grammar, items: seq<nat>, x: nat, n: nat)
    requires Ascending(items) && AreItems(g, items) && n <= g.NItems() && forall i :: i in items ==> i < n
    ensures |Moved(g, items, x)| <= Count(g.ritem, x, n)
    decreases |items|
  {
    if items != [] {
      var m := |items| - 1;
      var front, last := items[..m], items[m];
      assert last in items && items == front + [last];
      forall i | i in front ensures g.IsItem(i) && i < last { assert i in items; }
      MovedFits(g, front, x, last);
      CountGrows(g.ritem, x, last, n);
    }
  }

  lemma MovedOne(g: Grammar, items: seq<nat>, i: nat, x: int)
    ensures Moved(g, items + [i], x) == Moved(g, items, x) + if g.IsItem(i) && g.ritem[i] == x then [i + 1] else []
  {
    assert (items + [i])[..|items|] == items;
  }

  /** The slice of symbol x holds the moved items; a symbol with none has no slice (-1, NULL in C). */
  ghost predicate SliceHolds(g: Grammar, items: seq<nat>, base: nat, end: int, kernelItems: seq<nat>, x: nat)
  {
    var m := Moved(g, items, x);
    if m == [] then end == -1
    else base < end <= |kernelItems| && kernelItems[base..end] == m
  }

  ghost predicate SlicesHold(g: Grammar, items: seq<nat>, base: seq<nat>, ends: seq<int>, kernelItems: seq<nat>)
    requires |base| == |ends|
  {
    forall x :: 1 <= x < |base| ==> SliceHolds(g, items, base[x], ends[x], kernelItems, x)
  }

  /** The symbols, other than the end marker, that stand after a dot of the list. */
  ghost predicate AreShiftSymbols(g: Grammar, items: seq<nat>, symbols: seq<nat>)
  {
    && (forall j, k :: 0 <= j < k < |symbols| ==> symbols[j] != symbols[k])
    && (forall x: nat :: x in symbols <==> 0 < x < g.nsyms && Moved(g, items, x) != [])
  }

  /** Sorts the items of the closure into the slices.  No slice runs into the next. */
  method NewItemsets(g: Grammar, itemset: array<nat>, end: nat, base: seq<nat>, ghost total: nat, kernelEnd: array<int>,
                     kernelItems: array<nat>) returns (shiftSymbol: seq<nat>)
    requires g.WellFormed() && end <= itemset.Length
    requires Ascending(itemset[..end]) && AreItems(g, itemset[..end])
    requires IsBase(g.ritem, base, g.nsyms, total) && kernelItems.Length == total && kernelEnd.Length == g.nsyms
    requires itemset != kernelItems
    modifies kernelEnd, kernelItems
    ensures SlicesHold(g, itemset[..end], base, kernelEnd[..], kernelItems[..])
    ensures AreShiftSymbols(g, itemset[..end], shiftSymbol)
  {
    hide Grammar.WellFormed, Moved, SlicesHold, AreShiftSymbols;
    ClearEnds(g, kernelEnd);
    shiftSymbol := [];
    ghost var items := itemset[..end];
    NoneSorted(g, base, kernelEnd[..], kernelItems[..]);
    for k := 0 to end
      invariant itemset[..end] == items
      invariant SlicesHold(g, items[..k], base, kernelEnd[..], kernelItems[..])
      invariant AreShiftSymbols(g, items[..k], shiftSymbol)
    {
      var i := itemset[k];
      assert i == items[k] && items[k] in items;
      g.ItemContent(i);
      var symbol := g.ritem[i];
      assert items[..k + 1] == items[..k] + [i];
      if symbol > 0 {
        shiftSymbol := AddToSlice(g, items[..k], i, base, total, kernelEnd, kernelItems, shiftSymbol);
      } else {
        NoSlice(g, items[..k], i, base, kernelEnd[..], kernelItems[..], shiftSymbol);
      }
    }
    assert items[..end] == items;
  }

  method ClearEnds(g: Grammar, kernelEnd: array<int>)
    requires kernelEnd.Length == g.nsyms
    modifies kernelEnd
    ensures forall y :: 0 <= y < g.nsyms ==> kernelEnd[y] == -1
  {
    for x := 0 to g.nsyms
      invariant forall y :: 0 <= y < x ==> kernelEnd[y] == -1
    {
      kernelEnd[x] := -1;
    }
  }

  lemma NoneSorted(g: Grammar, base: seq<nat>, ends: seq<int>, kernelItems: seq<nat>)
    requires |base| == |ends| && forall y :: 0 <= y < |ends| ==> ends[y] == -1
    ensures SlicesHold(g, [], base, ends, kernelItems) && AreShiftSymbols(g, [], [])
  {}

  lemma NoSlice(g: Grammar, items: seq<nat>, i: nat, base: seq<nat>, ends: seq<int>, kernelItems: seq<nat>,
                symbols: seq<nat>)
    requires g.IsItem(i) && g.ritem[i] <= 0 && |base| == |ends|
    requires SlicesHold(g, items, base, ends, kernelItems) && AreShiftSymbols(g, items, symbols)
    ensures SlicesHold(g, items + [i], base, ends, kernelItems) && AreShiftSymbols(g, items + [i], symbols)
  {
    forall x: nat | x > 0 ensures Moved(g, items + [i], x) == Moved(g, items, x) {
      MovedOne(g, items, i, x);
    }
  }

  /** *ksp++ = i + 1, at the end of the slice of the symbol after i's dot. */
  method AddToSlice(g: Grammar, ghost items: seq<nat>, i: nat, base: seq<nat>, ghost total: nat, kernelEnd: array<int>,
                    kernelItems: array<nat>, symbols: seq<nat>) returns (shiftSymbol: seq<nat>)
    requires g.WellFormed() && g.IsItem(i) && 0 < g.ritem[i] < g.nsyms
    requires Ascending(items + [i]) && AreItems(g, items + [i])
    requires IsBase(g.ritem, base, g.nsyms, total) && kernelItems.Length == total && kernelEnd.Length == g.nsyms
    requires SlicesHold(g, items, base, kernelEnd[..], kernelItems[..]) && AreShiftSymbols(g, items, symbols)
    modifies kernelEnd, kernelItems
    ensures SlicesHold(g, items + [i], base, kernelEnd[..], kernelItems[..])
    ensures AreShiftSymbols(g, items + [i], shiftSymbol)
  {
    hide Grammar.WellFormed, AreShiftSymbols, Moved, Count;
    var symbol := g.ritem[i];
    shiftSymbol := symbols;
    ghost var ends, kept := kernelEnd[..], kernelItems[..];
    assert SliceHolds(g, items, base[symbol], ends[symbol], kept, symbol);
    var ksp := kernelEnd[symbol];
    if ksp == -1 {
      shiftSymbol := shiftSymbol + [symbol];
      ksp := base[symbol];
    }
    MovedOne(g, items, i, symbol);
    SliceRoom(g, items, i, base, total);
    kernelItems[ksp] := i + 1;
    kernelEnd[symbol] := ksp + 1;
    OtherSlices(g, items, i, base, total, ends, kernelEnd[..], kept, kernelItems[..], ksp);
    NewSymbols(g, items, i, symbols);
  }

  lemma SliceRoom(g: Grammar, items: seq<nat>, i: nat, base: seq<nat>, total: nat)
    requires g.WellFormed() && g.IsItem(i) && 0 < g.ritem[i] < g.nsyms
    requires Ascending(items + [i]) && AreItems(g, items + [i]) && IsBase(g.ritem, base, g.nsyms, total)
    ensures base[g.ritem[i]] + |Moved(g, items + [i], g.ritem[i])| <= total
  {
    MovedFits(g, items + [i], g.ritem[i], g.NItems());
  }

  /** Writing past the end of one slice leaves every other slice as it was. */
  lemma OtherSlices(g: Grammar, items: seq<nat>, i: nat, base: seq<nat>, total: nat, ends: seq<int>, ends': seq<int>,
                    kept: seq<nat>, kept': seq<nat>, ksp: nat)
    requires g.WellFormed() && g.IsItem(i) && 0 < g.ritem[i] < g.nsyms
    requires Ascending(items + [i]) && AreItems(g, items + [i])
    requires IsBase(g.ritem, base, g.nsyms, total) && |kept| == total && |ends| == g.nsyms
    requires SlicesHold(g, items, base, ends, kept)
    requires ksp == base[g.ritem[i]] + |Moved(g, items, g.ritem[i])| && ksp < total
    requires kept' == kept[ksp := i + 1] && ends' == ends[g.ritem[i] := ksp + 1]
    ensures SlicesHold(g, items + [i], base, ends', kept')
  {
    var symbol := g.ritem[i];
    hide Grammar.WellFormed, IsBase, Moved;
    SliceRoom(g, items, i, base, total);
    forall x: nat | 1 <= x < |base| ensures SliceHolds(g, items + [i], base[x], ends'[x], kept', x) {
      assert SliceHolds(g, items, base[x], ends[x], kept, x);
      if x == symbol {
        SliceGrows(g, items, i, base[x], ends[x], kept, ksp);
      } else {
        MovedOne(g, items, i, x);
        OtherRoom(g, items, i, base, total, x);
        SliceApart(g, items, i, base[x], ends[x], kept, ksp, x);
      }
    }
  }

  lemma SliceGrows(g: Grammar, items: seq<nat>, i: nat, base: nat, end: int, kept: seq<nat>, ksp: nat)
    requires g.IsItem(i) && g.ritem[i] > 0 && SliceHolds(g, items, base, end, kept, g.ritem[i])
    requires ksp == base + |Moved(g, items, g.ritem[i])| && ksp < |kept|
    ensures SliceHolds(g, items + [i], base, ksp + 1, kept[ksp := i + 1], g.ritem[i])
  {
    MovedOne(g, items, i, g.ritem[i]);
    hide Moved;
    assert kept[ksp := i + 1][base..ksp + 1] == Moved(g, items, g.ritem[i]) + [i + 1];
  }

  lemma SliceApart(g: Grammar, items: seq<nat>, i: nat, base: nat, end: int, kept: seq<nat>, ksp: nat, x: nat)
    requires SliceHolds(g, items, base, end, kept, x) && Moved(g, items + [i], x) == Moved(g, items, x)
    requires ksp < |kept| && (end <= ksp || ksp < base)
    ensures SliceHolds(g, items + [i], base, end, kept[ksp := i + 1], x)
  {
    hide Moved;
    if Moved(g, items, x) != [] { assert kept[ksp := i + 1][base..end] == kept[base..end]; }
  }

  /** The slice of x, as far as it is filled, lies apart from the slice of the symbol after i's dot. */
  lemma OtherRoom(g: Grammar, items: seq<nat>, i: nat, base: seq<nat>, total: nat, x: nat)
    requires g.WellFormed() && g.IsItem(i) && 0 < g.ritem[i] < g.nsyms && x < g.nsyms && x != g.ritem[i]
    requires Ascending(items + [i]) && AreItems(g, items + [i]) && IsBase(g.ritem, base, g.nsyms, total)
    ensures base[x] + |Moved(g, items, x)| <= total
    ensures base[x] + |Moved(g, items, x)| <= base[g.ritem[i]]
            || base[g.ritem[i]] + |Moved(g, items + [i], g.ritem[i])| <= base[x]
  {
    hide Grammar.WellFormed;
    forall j | j in items ensures g.IsItem(j) { assert j in items + [i]; }
    forall a, b | 0 <= a < b < |items| ensures items[a] < items[b] {
      assert (items + [i])[a] < (items + [i])[b];
    }
    MovedFits(g, items, x, g.NItems());
    MovedFits(g, items + [i], g.ritem[i], g.NItems());
  }

  lemma NewSymbols(g: Grammar, items: seq<nat>, i: nat, symbols: seq<nat>)
    requires g.IsItem(i) && 0 < g.ritem[i] < g.nsyms && AreShiftSymbols(g, items, symbols)
    ensures Moved(g, items, g.ritem[i]) == [] ==> AreShiftSymbols(g, items + [i], symbols + [g.ritem[i] as nat])
    ensures Moved(g, items, g.ritem[i]) != [] ==> AreShiftSymbols(g, items + [i], symbols)
  {
    forall x: int ensures Moved(g, items + [i], x) != [] <==> Moved(g, items, x) != [] || x == g.ritem[i] {
      MovedOne(g, items, i, x);
    }
    forall k | 0 <= k < |symbols| && Moved(g, items, g.ritem[i]) == [] ensures symbols[k] != g.ritem[i] {
      assert symbols[k] in symbols;
    }
  }

  // ----- append_states: insertion sort -----

  /** s with x put in at position j. */
  function InsertAt(s: seq<nat>, j: nat, x: nat): seq<nat>
    requires j <= |s|
  {
    s[..j] + [x] + s[j..]
  }

  lemma InsertSorts(s: seq<nat>, j: nat, x: nat)
    requires Ascending(s) && j <= |s|
    requires (j > 0 ==> s[j - 1] < x) && (j < |s| ==> x < s[j])
    ensures Ascending(InsertAt(s, j, x))
    ensures forall y :: y in InsertAt(s, j, x) <==> y in s + [x]
  {
    var r := InsertAt(s, j, x);
    forall a, b | 0 <= a < b < |r| ensures r[a] < r[b] {
      assert a < j ==> s[a] <= s[j - 1];
      assert b > j && j < |s| ==> s[j] <= s[b - 1];
    }
    InsertMembers(s, j, x);
  }

  lemma InsertMembers(s: seq<nat>, j: nat, x: nat)
    requires j <= |s|
    ensures forall y :: y in InsertAt(s, j, x) <==> y in s + [x]
  {
    assert s == s[..j] + s[j..];
  }

  /** The inner loop of append_states: a[i] moves down to its place among a[..i]. */
  method InsertSymbol(a: array<nat>, i: nat) returns (j: nat)
    requires i < a.Length
    modifies a
    ensures j <= i && a[i + 1..] == old(a[i + 1..])
    ensures a[..i + 1] == InsertAt(old(a[..i]), j, old(a[i]))
    ensures (j > 0 ==> old(a[j - 1]) <= old(a[i])) && (j < i ==> old(a[i]) < old(a[j]))
  {
    var symbol := a[i];
    j := i;
    while j > 0 && a[j - 1] > symbol
      invariant j <= i
      invariant forall k :: 0 <= k < j ==> a[k] == old(a[k])
      invariant forall k :: j < k <= i ==> a[k] == old(a[k - 1])
      invariant j < i ==> old(a[j]) > symbol
      invariant a[i + 1..] == old(a[i + 1..])
    {
      a[j] := a[j - 1];
      j := j - 1;
    }
    a[j] := symbol;
  }

  /** The insertion sort of append_states, for symbols that are all different. */
  method SortSymbols(a: array<nat>)
    requires forall j, k :: 0 <= j < k < a.Length ==> a[j] != a[k]
    modifies a
    ensures Ascending(a[..])
    ensures forall y :: y in a[..] <==> y in old(a[..])
  {
    ghost var was := a[..];
    for i := 0 to a.Length
      invariant Ascending(a[..i])
      invariant forall y :: y in a[..i] <==> y in was[..i]
      invariant a[i..] == was[i..]
    {
      ghost var s := a[..i];
      assert a[i] == was[i];
      forall k | 0 <= k < i ensures s[k] != was[i] {
        assert s[k] in was[..i];
      }
      var j := InsertSymbol(a, i);
      InsertSorts(s, j, was[i]);
      assert was[..i + 1] == was[..i] + [was[i]];
    }
    assert a[..] == a[..a.Length] && was == was[..a.Length];
  }

  // ----- get_state and new_state -----

  /** No state from lo on, and before hi, has a kernel that starts with key. */
  ghost predicate NoneWith(cores: seq<Core>, lo: int, hi: int, key: nat)
  {
    forall s :: 0 < s < |cores| && lo <= s < hi ==> cores[s].items == [] || cores[s].items[0] != key
  }

  /** link is the first state from lo on whose kernel starts with key, or -1 (null) if there is none. */
  ghost predicate LinksTo(cores: seq<Core>, lo: int, link: int, key: nat)
  {
    if link == -1 then NoneWith(cores, lo, |cores|, key)
    else
      && 0 < link < |cores| && lo <= link && NoneWith(cores, lo, link, key)
      && cores[link].items != [] && cores[link].items[0] == key
  }

  /** The states made so far, in order of their numbers: last_state->next is an append.  The
      hash table stateSet and the link fields chain the states whose kernels start alike. */
  class Collection {
    var cores: seq<Core>
    var link: seq<int>
    const stateSet: array<int>

    ghost predicate Valid(g: Grammar)
      reads this, stateSet
    {
      Chained(g, cores, link, stateSet[..])
    }

    /** initialize_states: state 0 is not in the hash table. */
    constructor (g: Grammar)
      requires g.WellFormed()
      ensures Valid(g) && cores == [Core(0, [1])] && fresh(stateSet)
    {
      cores := [Core(0, [1])];
      link := [-1];
      stateSet := new int[g.NItems()](_ => -1);
    }

    /** for (; isp1 < iend; ) if (*isp1++ != *isp2++) found = 0; */
    static method SameItems(a: seq<nat>, b: seq<nat>) returns (found: bool)
      requires |a| == |b|
      ensures found <==> a == b
    {
      found := true;
      var k := 0;
      while found && k < |a|
        invariant k <= |a|
        invariant found ==> a[..k] == b[..k]
        invariant !found ==> a != b
      {
        if a[k] != b[k] { found := false; }
        k := k + 1;
      }
      assert found ==> a == a[..|a|] && b == b[..|b|];
    }

    /** new_state: the new state goes last in the list. */
    method NewState(g: Grammar, symbol: nat, kernel: seq<nat>) returns (number: nat)
      requires |link| == |cores|
      modifies this
      ensures number == old(|cores|)
      ensures cores == old(cores) + [Core(symbol, kernel)] && link == old(link) + [-1]
    {
      number := |cores|;
      cores := cores + [Core(symbol, kernel)];
      link := link + [-1];
    }

    /** Follows the chain from state sp0 to the state with this kernel, or to the chain's end. */
    method WalkChain(g: Grammar, sp0: nat, symbol: nat, kernel: seq<nat>) returns (found: bool, sp: nat)
      requires Valid(g) && IsKernel(g, Core(symbol, kernel))
      requires 1 <= sp0 < |cores| && LinksTo(cores, 1, sp0, kernel[0])
      ensures 1 <= sp < |cores|
      ensures found ==> cores[sp] == Core(symbol, kernel)
      ensures !found ==> link[sp] == -1 && cores[sp].items[0] == kernel[0]
      ensures !found ==> forall s :: 1 <= s <= sp ==> cores[s].items != kernel
    {
      KernelFacts(g, Core(symbol, kernel));
      hide IsKernel, LinksTo, Chained;
      sp := sp0;
      HeadOfChain(cores, sp0, kernel);
      while true
        invariant 1 <= sp < |cores| && OnChain(cores, sp, kernel)
        decreases |cores| - sp
      {
        found := false;
        if |cores[sp].items| == |kernel| {
          found := SameItems(kernel, cores[sp].items);
        }
        if found {
          MatchOnChain(g, cores, link, stateSet[..], sp, symbol, kernel);
          return;
        }
        NextOnChain(g, cores, link, stateSet[..], sp, kernel);
        if link[sp] == -1 {
          return;
        }
        sp := link[sp];
      }
    }

    /** The number of the state with this kernel, made if it is new; fatal if there are
        too many. */
    method GetState(g: Grammar, symbol: nat, kernel: seq<nat>) returns (fatal: bool, number: nat)
      requires g.WellFormed() && Valid(g) && IsKernel(g, Core(symbol, kernel))
      modifies this, stateSet
      ensures Valid(g)
      ensures fatal ==> |cores| >= MAXSHORT && cores == old(cores) && IsNew(cores, kernel)
      ensures !fatal && old(|cores|) <= MAXSHORT ==> |cores| <= MAXSHORT
      ensures !fatal ==> 1 <= number < |cores| && cores[number] == Core(symbol, kernel)
      ensures !fatal ==>
                (cores == old(cores)) || (cores == old(cores) + [Core(symbol, kernel)] && number == |old(cores)|)
    {
      fatal, number := false, 0;
      KernelFacts(g, Core(symbol, kernel));
      var key := kernel[0];
      var head := stateSet[key];
      assert LinksTo(cores, 1, head, key);
      ghost var table := stateSet[..];
      hide IsKernel, LinksTo, AreCores, DistinctKernels;
      if head == -1 {
        if |cores| >= MAXSHORT {
          fatal := true;
          NotOnChain(g, cores, link, table, 0, kernel);
          return;
        }
        FirstOfChain(g, cores, link, table, Core(symbol, kernel));
        number := NewState(g, symbol, kernel);
        stateSet[key] := number;
        assert stateSet[..] == table[key := number];
      } else {
        assert 1 <= head < |cores| by { LinkInRange(cores, 1, head, key); }
        var found, sp := WalkChain(g, head, symbol, kernel);
        if found {
          number := sp;
        } else {
          if |cores| >= MAXSHORT {
            fatal := true;
            NotOnChain(g, cores, link, table, sp, kernel);
            return;
          }
          LastOfChain(g, cores, link, table, sp, Core(symbol, kernel));
          number := NewState(g, symbol, kernel);
          link := link[sp := number];
        }
      }
    }
  }

  /** State sp is on the chain of the kernel's first item, and no state before it has the kernel. */
  ghost predicate OnChain(cores: seq<Core>, sp: nat, kernel: seq<nat>)
    requires kernel != [] && sp < |cores|
  {
    && cores[sp].items != [] && cores[sp].items[0] == kernel[0]
    && forall s :: 1 <= s < sp ==> cores[s].items != kernel
  }

  /** No state has this kernel. */
  ghost predicate IsNew(cores: seq<Core>, kernel: seq<nat>)
  {
    forall s :: 0 <= s < |cores| ==> cores[s].items != kernel
  }

  /** The chain ends, empty or at state sp, without the kernel: no state has it. */
  lemma NotOnChain(g: Grammar, cores: seq<Core>, link: seq<int>, table: seq<int>, sp: nat, kernel: seq<nat>)
    requires Chained(g, cores, link, table) && kernel != [] && kernel != [1] && kernel[0] < |table|
    requires if sp == 0 then table[kernel[0]] == -1
             else sp < |cores| && link[sp] == -1 && cores[sp].items[0] == kernel[0]
    requires forall s :: 1 <= s <= sp ==> s < |cores| && cores[s].items != kernel
    ensures IsNew(cores, kernel)
  {
    if sp == 0 {
      assert LinksTo(cores, 1, table[kernel[0]], kernel[0]);
    } else {
      assert LinksTo(cores, sp + 1, link[sp], kernel[0]);
    }
  }

  lemma HeadOfChain(cores: seq<Core>, head: nat, kernel: seq<nat>)
    requires kernel != [] && LinksTo(cores, 1, head, kernel[0])
    ensures head < |cores| && OnChain(cores, head, kernel)
  {}

  lemma NextOnChain(g: Grammar, cores: seq<Core>, link: seq<int>, table: seq<int>, sp: nat, kernel: seq<nat>)
    requires Chained(g, cores, link, table) && kernel != [] && 1 <= sp < |cores|
    requires OnChain(cores, sp, kernel) && cores[sp].items != kernel
    ensures sp < |link| && (link[sp] != -1 ==> sp < link[sp] < |cores| && OnChain(cores, link[sp], kernel))
  {
    assert LinksTo(cores, sp + 1, link[sp], kernel[0]);
  }

  lemma MatchOnChain(g: Grammar, cores: seq<Core>, link: seq<int>, table: seq<int>, sp: nat, symbol: nat,
                     kernel: seq<nat>)
    requires Chained(g, cores, link, table) && IsKernel(g, Core(symbol, kernel)) && 1 <= sp < |cores|
    requires cores[sp].items == kernel
    ensures cores[sp] == Core(symbol, kernel)
  {
    SameAccess(g, cores[sp], Core(symbol, kernel));
  }

  lemma LinkInRange(cores: seq<Core>, lo: int, link: int, key: nat)
    requires LinksTo(cores, lo, link, key) && link != -1
    ensures 0 < link < |cores|
  {}

  lemma KernelFacts(g: Grammar, c: Core)
    requires IsKernel(g, c)
    ensures c.items != [] && g.IsItem(c.items[0]) && c.items != [1] && 0 < c.access
  {
    assert c.items[0] in c.items;
  }

  lemma SameAccess(g: Grammar, c: Core, d: Core)
    requires IsKernel(g, c) && IsKernel(g, d) && c.items == d.items
    ensures c == d
  {
    assert c.items[0] in c.items;
  }

  lemma LinkAppend(cores: seq<Core>, c: Core, lo: int, link: int, key: nat)
    requires 1 <= lo <= |cores| && LinksTo(cores, lo, link, key) && c.items != []
    ensures link != -1 || c.items[0] != key ==> LinksTo(cores + [c], lo, link, key)
    ensures link == -1 && c.items[0] == key ==> LinksTo(cores + [c], lo, |cores|, key)
  {}

  lemma AppendKernel(g: Grammar, cores: seq<Core>, c: Core)
    requires AreCores(g, cores) && DistinctKernels(cores) && IsKernel(g, c)
    requires forall s :: 1 <= s < |cores| ==> cores[s].items != c.items
    ensures AreCores(g, cores + [c]) && DistinctKernels(cores + [c])
  {
    KernelFacts(g, c);
  }

  ghost predicate Chained(g: Grammar, cores: seq<Core>, link: seq<int>, table: seq<int>)
  {
    && AreCores(g, cores) && DistinctKernels(cores)
    && |link| == |cores| && |table| == g.NItems()
    && (forall key :: 0 <= key < |table| ==> LinksTo(cores, 1, table[key], key))
    && (forall s :: 1 <= s < |cores| ==> cores[s].items != [] && LinksTo(cores, s + 1, link[s], cores[s].items[0]))
  }

  /** A new state whose chain is empty becomes its head. */
  lemma FirstOfChain(g: Grammar, cores: seq<Core>, link: seq<int>, table: seq<int>, c: Core)
    requires Chained(g, cores, link, table) && IsKernel(g, c) && c.items[0] < |table| && table[c.items[0]] == -1
    ensures Chained(g, cores + [c], link + [-1], table[c.items[0] := |cores|])
  {
    KernelFacts(g, c);
    assert LinksTo(cores, 1, table[c.items[0]], c.items[0]);
    AppendKernel(g, cores, c);
    LinksAppended(g, cores, link, table, c);
  }

  /** A new state goes after the last state of its chain. */
  lemma LastOfChain(g: Grammar, cores: seq<Core>, link: seq<int>, table: seq<int>, sp: nat, c: Core)
    requires Chained(g, cores, link, table) && IsKernel(g, c)
    requires 1 <= sp < |cores| && link[sp] == -1 && cores[sp].items[0] == c.items[0]
    requires forall s :: 1 <= s <= sp ==> cores[s].items != c.items
    ensures Chained(g, cores + [c], (link + [-1])[sp := |cores|], table)
  {
    KernelFacts(g, c);
    assert LinksTo(cores, sp + 1, link[sp], c.items[0]);
    assert LinksTo(cores, 1, table[c.items[0]], c.items[0]);
    AppendKernel(g, cores, c);
    LinksAppended(g, cores, link, table, c);
    forall s | 1 <= s < |cores| && s != sp && link[s] == -1 ensures cores[s].items[0] != c.items[0] {
      assert LinksTo(cores, s + 1, link[s], cores[s].items[0]);
    }
  }

  lemma LinksAppended(g: Grammar, cores: seq<Core>, link: seq<int>, table: seq<int>, c: Core)
    requires Chained(g, cores, link, table) && IsKernel(g, c)
    ensures c.items != []
    ensures forall key :: 0 <= key < |table| && (table[key] != -1 || c.items[0] != key) ==>
              LinksTo(cores + [c], 1, table[key], key)
    ensures forall key :: 0 <= key < |table| && table[key] == -1 && c.items[0] == key ==>
              LinksTo(cores + [c], 1, |cores|, key)
    ensures forall s :: 1 <= s < |cores| && (link[s] != -1 || c.items[0] != cores[s].items[0]) ==>
              LinksTo(cores + [c], s + 1, link[s], cores[s].items[0])
    ensures forall s :: 1 <= s < |cores| && link[s] == -1 && c.items[0] == cores[s].items[0] ==>
              LinksTo(cores + [c], s + 1, |cores|, cores[s].items[0])
    ensures LinksTo(cores + [c], |cores| + 1, -1, c.items[0])
  {
    hide LinksTo, AreCores, DistinctKernels;
    KernelFacts(g, c);
    forall key | 0 <= key < |table| ensures LinksTo(cores, 1, table[key], key) {}
    assert |cores| > 0 by { CoresNonempty(g, cores); }
    forall key | 0 <= key < |table|
      ensures table[key] != -1 || c.items[0] != key ==> LinksTo(cores + [c], 1, table[key], key)
      ensures table[key] == -1 && c.items[0] == key ==> LinksTo(cores + [c], 1, |cores|, key)
    {
      LinkAppend(cores, c, 1, table[key], key);
    }
    forall s | 1 <= s < |cores|
      ensures link[s] != -1 || c.items[0] != cores[s].items[0] ==>
                LinksTo(cores + [c], s + 1, link[s], cores[s].items[0])
      ensures link[s] == -1 && c.items[0] == cores[s].items[0] ==>
                LinksTo(cores + [c], s + 1, |cores|, cores[s].items[0])
    {
      LinkAppend(cores, c, s + 1, link[s], cores[s].items[0]);
    }
    NothingAfter(cores + [c], c.items[0]);
  }

  lemma CoresNonempty(g: Grammar, cores: seq<Core>)
    requires AreCores(g, cores)
    ensures |cores| > 0
  {}

  lemma NothingAfter(cores: seq<Core>, key: nat)
    ensures LinksTo(cores, |cores|, -1, key)
  {}

  // ----- append_states, save_shifts and generate_states -----

  /** The list is the closure of the kernel, in order. */
  ghost predicate IsClosure(g: Grammar, kernel: seq<nat>, items: seq<nat>)
    requires g.WellFormed()
  {
    Ascending(items) && AreItems(g, items) && forall i: nat :: i in items <==> InClosure(g, kernel, i)
  }

  lemma MovedIsGoto(g: Grammar, kernel: seq<nat>, items: seq<nat>, x: nat)
    requires g.WellFormed() && IsClosure(g, kernel, items) && 0 < x < g.nsyms && Moved(g, items, x) != []
    ensures IsGoto(g, kernel, x, Moved(g, items, x)) && IsKernel(g, Core(x, Moved(g, items, x)))
  {
    hide InClosure, Moved, Grammar.WellFormed;
    MovedMembers(g, items, x);
    forall i | i in Moved(g, items, x) ensures i >= 2 && g.IsItem(i) && g.ritem[i - 1] == x {
      assert i - 1 in items;
      g.ItemContent(i - 1);
    }
    forall i: nat ensures i in Moved(g, items, x) <==> MovesTo(g, kernel, x, i) {
      if i >= 1 { assert i - 1 in items <==> InClosure(g, kernel, i - 1); }
      if MovesTo(g, kernel, x, i) { assert i - 1 in items; }
    }
  }

  /** The shift lists of the first n symbols. */
  ghost predicate ShiftsSoFar(g: Grammar, cores: seq<Core>, kernel: seq<nat>, symbols: seq<nat>, shifts: seq<nat>)
    requires g.WellFormed() && |shifts| <= |symbols|
  {
    forall j :: 0 <= j < |shifts| ==> IsShift(g, cores, kernel, shifts[j]) && cores[shifts[j]].access == symbols[j]
  }

  /** Every state past the first n is one of these shifts. */
  ghost predicate NewOnesShifted(cores: seq<Core>, n: nat, shifts: seq<nat>)
  {
    forall s: nat :: n <= s < |cores| ==> s in shifts
  }

  lemma ShiftsGrow(g: Grammar, cores: seq<Core>, more: seq<Core>, kernel: seq<nat>, symbols: seq<nat>, shifts: seq<nat>)
    requires g.WellFormed() && |shifts| <= |symbols| && cores <= more && ShiftsSoFar(g, cores, kernel, symbols, shifts)
    ensures ShiftsSoFar(g, more, kernel, symbols, shifts)
  {
    hide IsGoto;
  }

  lemma ShiftsDone(g: Grammar, cores: seq<Core>, kernel: seq<nat>, items: seq<nat>, symbols: seq<nat>, shifts: seq<nat>)
    requires g.WellFormed() && IsClosure(g, kernel, items) && Ascending(symbols)
    requires |shifts| == |symbols| && ShiftsSoFar(g, cores, kernel, symbols, shifts)
    requires forall x: nat :: x in symbols <==> 0 < x < g.nsyms && Moved(g, items, x) != []
    ensures ShiftsOf(g, cores, kernel, shifts)
  {
    hide IsGoto, InClosure;
    forall i: nat | InClosure(g, kernel, i) && g.IsItem(i) && g.ritem[i] > 0
      ensures ShiftsOver(cores, shifts, g.ritem[i])
    {
      var x := g.ritem[i];
      g.ItemContent(i);
      MovedMembers(g, items, x);
      assert i + 1 in Moved(g, items, x);
      assert x in symbols;
      var j :| 0 <= j < |symbols| && symbols[j] == x;
      assert cores[shifts[j]].access == x;
    }
  }

  method AppendStates(g: Grammar, coll: Collection, ghost kernel: seq<nat>, ghost items: seq<nat>, base: seq<nat>,
                      kernelEnd: array<int>, kernelItems: array<nat>, symbols: array<nat>)
    returns (fatal: bool, shiftset: seq<nat>)
    requires g.WellFormed() && coll.Valid(g) && IsClosure(g, kernel, items)
    requires |base| == kernelEnd.Length == g.nsyms && SlicesHold(g, items, base, kernelEnd[..], kernelItems[..])
    requires (forall j, k :: 0 <= j < k < symbols.Length ==> symbols[j] != symbols[k])
    requires forall x: nat :: x in symbols[..] <==> 0 < x < g.nsyms && Moved(g, items, x) != []
    requires coll.stateSet != kernelEnd && symbols != kernelItems
    modifies coll, coll.stateSet, symbols
    ensures coll.Valid(g) && old(coll.cores) <= coll.cores
    ensures fatal ==> Overflows(g, coll.cores, old(|coll.cores|), kernel)
    ensures !fatal && old(|coll.cores|) <= MAXSHORT ==> |coll.cores| <= MAXSHORT
    ensures !fatal ==>
              ShiftsOf(g, coll.cores, kernel, shiftset) && NewOnesShifted(coll.cores, old(|coll.cores|), shiftset)
  {
    hide IsClosure, SlicesHold, Chained, IsGoto, IsKernel, Moved, IsShift, Overflows, IsNew;
    SortSymbols(symbols);
    ghost var sorted := symbols[..];
    fatal, shiftset := false, [];
    for i := 0 to symbols.Length
      invariant coll.Valid(g) && old(coll.cores) <= coll.cores
      invariant symbols[..] == sorted
      invariant |shiftset| == i && ShiftsSoFar(g, coll.cores, kernel, sorted, shiftset)
      invariant NewOnesShifted(coll.cores, old(|coll.cores|), shiftset)
      invariant old(|coll.cores|) <= MAXSHORT ==> |coll.cores| <= MAXSHORT
    {
      var symbol := symbols[i];
      assert symbol in sorted;
      ghost var cores := coll.cores;
      var slice := SliceOf(g, items, base, kernelEnd, kernelItems, symbol);
      MovedIsGoto(g, kernel, items, symbol);
      var number;
      fatal, number := coll.GetState(g, symbol, slice);
      if fatal {
        assert Unplaced(g, coll.cores, kernel, Core(symbol, slice));
        NoRoomLeft(g, coll.cores, old(|coll.cores|), kernel, sorted, shiftset);
        return;
      }
      ShiftsGrow(g, cores, coll.cores, kernel, sorted, shiftset);
      assert IsShift(g, coll.cores, kernel, number) by { ShiftOne(g, coll.cores, kernel, number); }
      shiftset := shiftset + [number];
    }
    ShiftsDone(g, coll.cores, kernel, items, sorted, shiftset);
  }

  /** This goto of the kernel is not among the states. */
  ghost predicate Unplaced(g: Grammar, cores: seq<Core>, kernel: seq<nat>, c: Core)
    requires g.WellFormed()
  {
    IsKernel(g, c) && IsGoto(g, kernel, c.access, c.items) && IsNew(cores, c.items)
  }

  /** There are as many states as there may be; those from n on are gotos of the kernel, and
      one more goto of it has no state. */
  ghost predicate Overflows(g: Grammar, cores: seq<Core>, n: nat, kernel: seq<nat>)
    requires g.WellFormed()
  {
    && |cores| >= MAXSHORT && (exists c :: Unplaced(g, cores, kernel, c))
    && forall s: nat :: n <= s < |cores| ==> IsGoto(g, kernel, cores[s].access, cores[s].items)
  }

  lemma NoRoomLeft(g: Grammar, cores: seq<Core>, n: nat, kernel: seq<nat>, symbols: seq<nat>, shifts: seq<nat>)
    requires g.WellFormed() && |shifts| <= |symbols| && ShiftsSoFar(g, cores, kernel, symbols, shifts)
    requires NewOnesShifted(cores, n, shifts) && |cores| >= MAXSHORT && exists c :: Unplaced(g, cores, kernel, c)
    ensures Overflows(g, cores, n, kernel)
  {
    hide IsGoto, Unplaced;
    forall s: nat | n <= s < |cores| ensures IsGoto(g, kernel, cores[s].access, cores[s].items) {
      assert s in shifts;
      var j :| 0 <= j < |shifts| && shifts[j] == s;
      assert IsShift(g, cores, kernel, shifts[j]);
    }
  }

  lemma ShiftOne(g: Grammar, cores: seq<Core>, kernel: seq<nat>, t: nat)
    requires g.WellFormed() && 1 <= t < |cores| && IsGoto(g, kernel, cores[t].access, cores[t].items)
    ensures IsShift(g, cores, kernel, t)
  {}

  /** The kernel that lies between kernel_base[symbol] and kernel_end[symbol]. */
  method SliceOf(g: Grammar, ghost items: seq<nat>, base: seq<nat>, kernelEnd: array<int>, kernelItems: array<nat>,
                 symbol: nat) returns (slice: seq<nat>)
    requires |base| == kernelEnd.Length && SlicesHold(g, items, base, kernelEnd[..], kernelItems[..])
    requires 1 <= symbol < |base| && Moved(g, items, symbol) != []
    ensures slice == Moved(g, items, symbol)
  {
    assert SliceHolds(g, items, base[symbol], kernelEnd[..][symbol], kernelItems[..], symbol);
    slice := kernelItems[base[symbol]..kernelEnd[symbol]];
  }

  ghost function ItemsOf(kernel: seq<nat>): set<nat> { set i | i in kernel }

  /** The item sets that are not the kernel of one of the first n states: what is left to process. */
  ghost function Unprocessed(g: Grammar, cores: seq<Core>, n: nat): set<set<nat>>
    requires n <= |cores|
  {
    var all := set i: nat | i < g.NItems() && g.IsItem(i);
    (set k: set<nat> | k <= all) - set s | 0 <= s < n :: ItemsOf(cores[s].items)
  }

  lemma OneProcessed(g: Grammar, cores: seq<Core>, more: seq<Core>, n: nat)
    requires AreCores(g, cores) && DistinctKernels(cores) && n < |cores| && cores <= more
    ensures Unprocessed(g, more, n + 1) < Unprocessed(g, cores, n)
  {
    var k := ItemsOf(cores[n].items);
    assert Ascending(cores[n].items) && AreItems(g, cores[n].items);
    forall s | 0 <= s < n ensures ItemsOf(cores[s].items) != k {
      if ItemsOf(cores[s].items) == k {
        assert Ascending(cores[s].items);
        forall x ensures x in cores[s].items <==> x in cores[n].items {
          assert x in ItemsOf(cores[s].items) <==> x in k;
        }
        AscendingUnique(cores[s].items, cores[n].items);
      }
    }
    assert k in Unprocessed(g, cores, n);
    assert k !in Unprocessed(g, more, n + 1);
  }

  /** The first n states are done: their shifts and reductions are as their closures say. */
  ghost predicate Done(g: Grammar, cores: seq<Core>, shifts: seq<seq<nat>>, reds: seq<seq<nat>>)
    requires g.WellFormed()
  {
    && |shifts| == |reds| <= |cores|
    && (forall s :: 0 <= s < |shifts| ==> ShiftsOf(g, cores, cores[s].items, shifts[s]))
    && (forall s :: 0 <= s < |shifts| ==> RedsOf(g, cores[s].items, reds[s]))
    && (forall s :: 1 <= s < |cores| ==> ReachedFromEarlier(shifts, s))
  }

  lemma DoneGrows(g: Grammar, cores: seq<Core>, more: seq<Core>, shifts: seq<seq<nat>>, reds: seq<seq<nat>>,
                  shift: seq<nat>, red: seq<nat>)
    requires g.WellFormed() && Done(g, cores, shifts, reds) && cores <= more && |shifts| < |cores|
    requires ShiftsOf(g, more, more[|shifts|].items, shift) && RedsOf(g, more[|shifts|].items, red)
    requires NewOnesShifted(more, |cores|, shift)
    ensures Done(g, more, shifts + [shift], reds + [red])
  {
    hide InClosure, IsGoto, RedsOf;
    forall s | 0 <= s < |shifts| ensures ShiftsOf(g, more, more[s].items, shifts[s]) {
      ShiftsOfGrows(g, cores, more, cores[s].items, shifts[s]);
    }
    hide ShiftsOf;
    forall s | 1 <= s < |more| ensures ReachedFromEarlier(shifts + [shift], s) {
      if s < |cores| {
        assert ReachedFromEarlier(shifts, s);
        var p :| 0 <= p < s && p < |shifts| && s in shifts[p];
        assert s in (shifts + [shift])[p];
      } else {
        assert s in (shifts + [shift])[|shifts|];
      }
    }
  }

  lemma ShiftsOfGrows(g: Grammar, cores: seq<Core>, more: seq<Core>, kernel: seq<nat>, shifts: seq<nat>)
    requires g.WellFormed() && cores <= more && ShiftsOf(g, cores, kernel, shifts)
    ensures ShiftsOf(g, more, kernel, shifts)
  {
    hide InClosure, IsGoto;
    forall i: nat | InClosure(g, kernel, i) && g.IsItem(i) && g.ritem[i] > 0
      ensures ShiftsOver(more, shifts, g.ritem[i])
    {
      assert ShiftsOver(cores, shifts, g.ritem[i]);
    }
    forall j, k | 0 <= j < k < |shifts| ensures AccessedBefore(more, shifts[j], shifts[k]) {
      assert AccessedBefore(cores, shifts[j], shifts[k]);
    }
  }

  lemma CompleteIsReds(g: Grammar, kernel: seq<nat>, items: seq<nat>, reds: seq<nat>)
    requires g.WellFormed() && IsClosure(g, kernel, items) && CompleteIn(g, items, reds)
    ensures RedsOf(g, kernel, reds)
  {
    hide InClosure;
  }

  lemma CoreFacts(g: Grammar, cores: seq<Core>, s: nat)
    requires AreCores(g, cores) && s < |cores|
    ensures Ascending(cores[s].items) && AreItems(g, cores[s].items)
  {
    if s > 0 { assert IsKernel(g, cores[s]); }
  }

  /** One pass of the worklist: closure, save_reductions, new_itemsets, append_states. */
  method ProcessState(g: Grammar, coll: Collection, firstDerives: BitMatrix, ruleset: BitMatrix, itemset: array<nat>,
                      base: seq<nat>, ghost total: nat, kernelEnd: array<int>, kernelItems: array<nat>, thisState: nat)
    returns (fatal: bool, shiftset: seq<nat>, redset: seq<nat>)
    requires g.WellFormed() && coll.Valid(g) && thisState < |coll.cores|
    requires firstDerives.Valid() && firstDerives.n == g.NVars() && firstDerives.bits == g.NRules()
    requires IsFirstDerives(g, firstDerives.Value())
    requires ruleset.Valid() && ruleset.n == 1 && ruleset.bits == g.NRules() && ruleset.w == firstDerives.w
    requires ruleset.words != firstDerives.words && itemset.Length == g.NItems()
    requires IsBase(g.ritem, base, g.nsyms, total) && kernelItems.Length == total && kernelEnd.Length == g.nsyms
    requires itemset != kernelItems && coll.stateSet != kernelEnd
    modifies coll, coll.stateSet, ruleset.words, itemset, kernelEnd, kernelItems
    ensures coll.Valid(g) && old(coll.cores) <= coll.cores
    ensures fatal ==> Overflows(g, coll.cores, old(|coll.cores|), old(coll.cores)[thisState].items)
    ensures !fatal && old(|coll.cores|) <= MAXSHORT ==> |coll.cores| <= MAXSHORT
    ensures !fatal ==> ShiftsOf(g, coll.cores, old(coll.cores)[thisState].items, shiftset)
    ensures !fatal ==> RedsOf(g, old(coll.cores)[thisState].items, redset)
    ensures !fatal ==> NewOnesShifted(coll.cores, old(|coll.cores|), shiftset)
  {
    hide Chained, IsClosure, Grammar.WellFormed, SlicesHold, BitMatrix.Value, IsFirstDerives, InClosure, CompleteIn;
    hide ShiftsOf, RedsOf, IsGoto, Moved, IsKernel, Overflows;
    ghost var kernel := coll.cores[thisState].items;
    ChainedCores(g, coll);
    CoreFacts(g, coll.cores, thisState);
    var end := Closure(g, firstDerives, coll.cores[thisState].items, ruleset, itemset);
    ghost var items := itemset[..end];
    ClosureFound(g, kernel, items);
    redset := SaveReductions(g, itemset, end);
    CompleteIsReds(g, kernel, items, redset);
    var symbols := NewItemsets(g, itemset, end, base, total, kernelEnd, kernelItems);
    var shiftSymbol := new nat[|symbols|](k requires 0 <= k < |symbols| => symbols[k]);
    assert shiftSymbol[..] == symbols;
    fatal, shiftset := AppendStates(g, coll, kernel, items, base, kernelEnd, kernelItems, shiftSymbol);
  }

  /** The worklist loop.  It ends because every pass processes a kernel not processed before. */
  method GenerateStates(g: Grammar, derives: seq<seq<nat>>) returns (fatal: bool, a: Automaton)
    requires g.WellFormed() && IsDerives(g, derives)
    ensures fatal ==> ManyStates(g)
    ensures !fatal ==> IsLR0(g, a) && |a.cores| <= MAXSHORT
  {
    hide Chained, Grammar.WellFormed, IsBase, BitMatrix.Value, IsFirstDerives;
    hide ShiftsOf, RedsOf, Unprocessed, AreCores, DistinctKernels, NewOnesShifted, IsDerives, Overflows, ManyStates;
    var base, total := AllocateItemsets(g);
    var kernelItems := new nat[total];
    var kernelEnd := new int[g.nsyms];
    var itemset := new nat[g.NItems()];
    var ruleset := new BitMatrix(1, g.NRules());
    var firstDerives := SetFirstDerives(g, derives);
    ghost var first := firstDerives.Value();
    var coll := new Collection(g);
    var shifts, reds: seq<seq<nat>> := [], [];
    fatal := false;
    var thisState: nat := 0;
    while thisState < |coll.cores|
      invariant coll.Valid(g) && Done(g, coll.cores, shifts, reds) && |shifts| == thisState
      invariant firstDerives.Value() == first && |coll.cores| <= MAXSHORT
      decreases Unprocessed(g, coll.cores, thisState)
    {
      ghost var cores := coll.cores;
      ChainedCores(g, coll);
      var shiftset, redset;
      fatal, shiftset, redset := ProcessState(g, coll, firstDerives, ruleset, itemset,
                                              base, total, kernelEnd, kernelItems, thisState);
      if fatal {
        a := Automaton(coll.cores, shifts, reds);
        ChainedCores(g, coll);
        TooManyStates(g, cores, coll.cores, shifts, reds);
        return;
      }
      DoneGrows(g, cores, coll.cores, shifts, reds, shiftset, redset);
      OneProcessed(g, cores, coll.cores, thisState);
      shifts := shifts + [shiftset];
      reds := reds + [redset];
      thisState := thisState + 1;
    }
    ChainedCores(g, coll);
    a := Automaton(coll.cores, shifts, reds);
  }

  /** More states can be reached than there may be. */
  ghost predicate ManyStates(g: Grammar)
    requires g.WellFormed()
  {
    exists cores: seq<Core> :: |cores| > MAXSHORT && AreReached(g, cores)
  }

  lemma ReachedStates(g: Grammar, cores: seq<Core>, shifts: seq<seq<nat>>, s: nat)
    requires g.WellFormed() && |shifts| <= |cores| && 1 <= s < |cores| && ReachedFromEarlier(shifts, s)
    requires forall p :: 0 <= p < |shifts| ==> ShiftsOf(g, cores, cores[p].items, shifts[p])
    ensures FromEarlier(g, cores, s)
  {
    hide InClosure, IsGoto;
    var p :| 0 <= p < s && p < |shifts| && s in shifts[p];
    assert ShiftsOf(g, cores, cores[p].items, shifts[p]);
    var j :| 0 <= j < |shifts[p]| && shifts[p][j] == s;
    assert IsShift(g, cores, cores[p].items, shifts[p][j]);
  }

  lemma TooManyStates(g: Grammar, cores: seq<Core>, more: seq<Core>, shifts: seq<seq<nat>>, reds: seq<seq<nat>>)
    requires g.WellFormed() && Done(g, cores, shifts, reds) && |shifts| < |cores| && cores <= more
    requires AreCores(g, more) && DistinctKernels(more) && Overflows(g, more, |cores|, cores[|shifts|].items)
    ensures ManyStates(g)
  {
    hide ShiftsOf, RedsOf, IsGoto, IsKernel, ReachedFromEarlier;
    var kernel, n := cores[|shifts|].items, |more|;
    var c :| Unplaced(g, more, kernel, c);
    var all := more + [c];
    AppendKernel(g, more, c);
    forall s: nat | 1 <= s < |all| ensures FromEarlier(g, all, s) {
      if s < |cores| {
        ReachedStates(g, cores, shifts, s);
        assert FromEarlier(g, cores, s);
        var p: nat :| p < s && IsGoto(g, cores[p].items, cores[s].access, cores[s].items);
        assert all[p] == cores[p] && all[s] == cores[s];
      } else {
        assert all[|shifts|] == cores[|shifts|];
        assert IsGoto(g, kernel, all[s].access, all[s].items);
      }
    }
  }

  // ----- how many states there are -----

  lemma SameGoto(g: Grammar, kernel: seq<nat>, x: int, a: seq<nat>, b: seq<nat>)
    requires g.WellFormed() && IsGoto(g, kernel, x, a) && IsGoto(g, kernel, x, b)
    ensures a == b
  {
    hide MovesTo;
    forall i ensures i in a <==> i in b {}
    AscendingUnique(a, b);
  }

  /** Whatever can be reached is a state of the automaton. */
  lemma {:induction false} ReachedIsState(g: Grammar, a: Automaton, cores: seq<Core>, s: nat) returns (t: nat)
    requires g.WellFormed() && IsLR0(g, a) && AreReached(g, cores) && s < |cores|
    ensures t < |a.cores| && a.cores[t].items == cores[s].items
  {
    if s == 0 {
      t := 0;
    } else {
      hide Grammar.WellFormed, InClosure, RedsOf;
      assert FromEarlier(g, cores, s);
      var p: nat :| p < s && IsGoto(g, cores[p].items, cores[s].access, cores[s].items);
      var q := ReachedIsState(g, a, cores, p);
      assert IsKernel(g, cores[s]) && ShiftsOf(g, a.cores, a.cores[q].items, a.shifts[q]);
      var i := cores[s].items[0];
      assert i in cores[s].items && MovesTo(g, cores[p].items, cores[s].access, i);
      assert g.IsItem(i - 1);
      assert ShiftsOver(a.cores, a.shifts[q], g.ritem[i - 1]);
      var j :| 0 <= j < |a.shifts[q]| && a.shifts[q][j] < |a.cores| && a.cores[a.shifts[q][j]].access == g.ritem[i - 1];
      t := a.shifts[q][j];
      assert IsShift(g, a.cores, a.cores[q].items, a.shifts[q][j]);
      SameGoto(g, cores[p].items, cores[s].access, cores[s].items, a.cores[t].items);
    }
  }

  ghost function Kernels(cores: seq<Core>): set<seq<nat>> { set s | 0 <= s < |cores| :: cores[s].items }

  lemma {:induction false} KernelsCounted(cores: seq<Core>)
    requires DistinctKernels(cores)
    ensures |Kernels(cores)| == |cores|
  {
    if cores != [] {
      var n := |cores| - 1;
      var front := cores[..n];
      KernelsCounted(front);
      forall k ensures k in Kernels(cores) <==> k in Kernels(front) || k == cores[n].items {
        if k in Kernels(front) {
          var s :| 0 <= s < n && front[s].items == k;
          assert cores[s].items == k;
        }
      }
      assert Kernels(cores) == Kernels(front) + {cores[n].items};
    }
  }

  lemma {:induction false} SubsetCounted<T>(a: set<T>, b: set<T>)
    requires a <= b
    ensures |a| <= |b|
    decreases a
  {
    if a != {} {
      var x :| x in a;
      SubsetCounted(a - {x}, b - {x});
    }
  }

  /** The limit is exceeded exactly when the grammar's automaton has more states than that,
      whichever way they are numbered. */
  lemma ManyStatesIs(g: Grammar, a: Automaton)
    requires g.WellFormed() && IsLR0(g, a)
    ensures ManyStates(g) <==> |a.cores| > MAXSHORT
  {
    hide Grammar.WellFormed;
    if ManyStates(g) {
      var cores: seq<Core> :| |cores| > MAXSHORT && AreReached(g, cores);
      assert DistinctKernels(cores) && DistinctKernels(a.cores);
      hide IsLR0, AreReached;
      forall k | k in Kernels(cores) ensures k in Kernels(a.cores) {
        var s :| 0 <= s < |cores| && cores[s].items == k;
        var t := ReachedIsState(g, a, cores, s);
      }
      KernelsCounted(cores);
      KernelsCounted(a.cores);
      SubsetCounted(Kernels(cores), Kernels(a.cores));
    }
    if |a.cores| > MAXSHORT {
      forall s: nat | 1 <= s < |a.cores| ensures FromEarlier(g, a.cores, s) {
        hide ShiftsOf, RedsOf, AreCores, DistinctKernels;
        ReachedStates(g, a.cores, a.shifts, s);
      }
      assert AreReached(g, a.cores);
    }
  }

  lemma ChainedCores(g: Grammar, coll: Collection)
    requires coll.Valid(g)
    ensures AreCores(g, coll.cores) && DistinctKernels(coll.cores)
  {}

  lemma ClosureFound(g: Grammar, kernel: seq<nat>, items: seq<nat>)
    requires g.WellFormed() && AreItems(g, kernel) && Ascending(items)
    requires forall i: nat :: i in items <==> InClosure(g, kernel, i)
    ensures IsClosure(g, kernel, items)
  {
    var c := ClosureSet(g, kernel);
  }
}
