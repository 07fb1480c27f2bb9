/** mkpar.c: the action rows, conflict resolution by precedence, and default reductions. */
module Mkpar {
  import opened Automata
  import opened Bits
  import opened Gotos
  import opened Grammars
  import opened LalrBuilder
  import opened Lookaheads
  import opened Paths

  datatype Code = SHIFT | REDUCE

  datatype Assoc = TOKEN | LEFT | RIGHT | NONASSOC

  /** suppressed is 0, 1 (lost a conflict) or 2 (removed by precedence). */
  datatype Action = Action(symbol: nat, number: nat, prec: int, code: Code, assoc: Assoc, suppressed: nat)

  /** Precedences and associativities of the tokens and of the rules. */
  datatype Precedence = Precedence(symbolPrec: seq<int>, symbolAssoc: seq<Assoc>, rprec: seq<int>, rassoc: seq<Assoc>)
  {
    predicate Covers(g: Grammar)
    {
      |symbolPrec| == |symbolAssoc| == g.nsyms && |rprec| == |rassoc| == g.NRules()
    }
  }

  /** An action as it comes out of parse_actions: nothing suppressed yet. */
  predicate Fresh(pr: Precedence, a: Action)
  {
    && a.suppressed == 0
    && match a.code {
         case SHIFT => a.symbol < |pr.symbolPrec| && a.symbol < |pr.symbolAssoc|
           && a.prec == pr.symbolPrec[a.symbol] && a.assoc == pr.symbolAssoc[a.symbol]
         case REDUCE => a.number < |pr.rprec| && a.number < |pr.rassoc|
           && a.prec == pr.rprec[a.number] && a.assoc == pr.rassoc[a.number]
       }
  }

  predicate AllFresh(pr: Precedence, row: seq<Action>)
  {
    forall k :: 0 <= k < |row| ==> Fresh(pr, row[k])
  }

  // ----- rows in order -----

  /** By symbol; a shift before the reductions; reductions by rule. */
  predicate Before(a: Action, b: Action)
  {
    || a.symbol < b.symbol
    || (a.symbol == b.symbol && a.code.SHIFT? && b.code.REDUCE?)
    || (a.symbol == b.symbol && a.code.REDUCE? && b.code.REDUCE? && a.number < b.number)
  }

  predicate InOrder(row: seq<Action>) { forall j, k :: 0 <= j < k < |row| ==> Before(row[j], row[k]) }

  /** The row has an action with this symbol, code and number. */
  ghost predicate Has(row: seq<Action>, symbol: nat, code: Code, number: nat)
  {
    exists k :: 0 <= k < |row| && IsAction(row[k], symbol, code, number)
  }

  predicate IsAction(a: Action, symbol: nat, code: Code, number: nat)
  {
    a.symbol == symbol && a.code == code && a.number == number
  }

  lemma HasMore(front: seq<Action>, a: Action, back: seq<Action>, symbol: nat, code: Code, number: nat)
    ensures Has(front + [a] + back, symbol, code, number) <==>
              Has(front + back, symbol, code, number) || IsAction(a, symbol, code, number)
  {
    var row, was := front + [a] + back, front + back;
    if Has(was, symbol, code, number) {
      var k :| 0 <= k < |was| && IsAction(was[k], symbol, code, number);
      assert row[if k < |front| then k else k + 1] == was[k];
    }
    if IsAction(a, symbol, code, number) { assert row[|front|] == a; }
    if Has(row, symbol, code, number) {
      var k :| 0 <= k < |row| && IsAction(row[k], symbol, code, number);
      if k < |front| { assert was[k] == row[k]; }
      if k > |front| { assert was[k - 1] == row[k]; }
    }
  }

  // ----- get_shifts -----

  /** The shifts over tokens among the given successor states, as actions. */
  ghost predicate ShiftRow(l: Lalr, pr: Precedence, shifts: seq<nat>, from: nat, row: seq<Action>)
    requires from <= |shifts|
  {
    && InOrder(row)
    && AllFresh(pr, row) && (forall k :: 0 <= k < |row| ==> row[k].code.SHIFT?)
    && (forall x: nat, t: nat :: Has(row, x, SHIFT, t) <==> x < l.g.ntokens && ShiftsTo(l.a, shifts, from, x, t))
  }

  ghost predicate ShiftsTo(a: Automaton, shifts: seq<nat>, from: nat, x: nat, t: nat)
  {
    exists k :: from <= k < |shifts| && shifts[k] == t && AccessIs(a, t, x)
  }

  method GetShifts(l: Lalr, pr: Precedence, stateno: nat) returns (actions: seq<Action>)
    requires l.Ok() && pr.Covers(l.g) && stateno < |l.a.cores| && stateno < |l.a.shifts|
    ensures ShiftRow(l, pr, l.a.shifts[stateno], 0, actions)
  {
    hide Lalr.Ok, InOrder, ShiftsTo;
    ShiftList(l, stateno);
    var sp := l.a.shifts[stateno];
    actions := [];
    NoShifts(l, pr, sp);
    var i: nat := |sp|;
    while i > 0
      invariant i <= |sp|
      invariant ShiftRow(l, pr, sp, i, actions)
      decreases i
    {
      var k := sp[i - 1];
      var symbol := l.a.cores[k].access;
      NextShift(l, pr, stateno, i - 1, actions);
      if symbol < l.g.ntokens {
        PrependShift(l, pr, stateno, i - 1, actions,
          Action(symbol, k, pr.symbolPrec[symbol], SHIFT, pr.symbolAssoc[symbol], 0));
        actions := [Action(symbol, k, pr.symbolPrec[symbol], SHIFT, pr.symbolAssoc[symbol], 0)] + actions;
      }
      i := i - 1;
    }
  }

  lemma NoShifts(l: Lalr, pr: Precedence, sp: seq<nat>)
    ensures ShiftRow(l, pr, sp, |sp|, [])
  {}

  lemma NextShift(l: Lalr, pr: Precedence, s: nat, i: nat, row: seq<Action>)
    requires l.Ok() && s < |l.a.cores| && |l.a.shifts| == |l.a.cores| && i < |l.a.shifts[s]| &&
             l.a.shifts[s][i] < |l.a.cores|
    requires ShiftRow(l, pr, l.a.shifts[s], i + 1, row)
    ensures l.a.cores[l.a.shifts[s][i]].access >= l.g.ntokens ==> ShiftRow(l, pr, l.a.shifts[s], i, row)
  {
    hide Lalr.Ok, InOrder;
    var sp := l.a.shifts[s];
    if l.a.cores[sp[i]].access >= l.g.ntokens {
      forall x: nat, t: nat | x < l.g.ntokens
        ensures ShiftsTo(l.a, sp, i, x, t) <==> ShiftsTo(l.a, sp, i + 1, x, t)
      {
        if ShiftsTo(l.a, sp, i, x, t) {
          var k :| i <= k < |sp| && sp[k] == t && AccessIs(l.a, t, x);
          assert k != i;
        }
      }
    }
  }

  lemma PrependShift(l: Lalr, pr: Precedence, s: nat, i: nat, row: seq<Action>, a: Action)
    requires l.Ok() && s < |l.a.cores| && |l.a.shifts| == |l.a.cores| && i < |l.a.shifts[s]| &&
             l.a.shifts[s][i] < |l.a.cores|
    requires ShiftRow(l, pr, l.a.shifts[s], i + 1, row) && l.a.cores[l.a.shifts[s][i]].access < l.g.ntokens
    requires a.symbol == l.a.cores[l.a.shifts[s][i]].access && a.code.SHIFT? && a.number == l.a.shifts[s][i] &&
             Fresh(pr, a)
    ensures ShiftRow(l, pr, l.a.shifts[s], i, [a] + row)
  {
    hide Lalr.Ok;
    ShiftList(l, s);
    var sp := l.a.shifts[s];
    forall k | 0 <= k < |row| ensures Before(a, row[k]) {
      assert IsAction(row[k], row[k].symbol, SHIFT, row[k].number);
      assert Has(row, row[k].symbol, SHIFT, row[k].number);
      assert ShiftsTo(l.a, sp, i + 1, row[k].symbol, row[k].number);
    }
    forall x: nat, t: nat ensures Has([a] + row, x, SHIFT, t) <==> x < l.g.ntokens && ShiftsTo(l.a, sp, i, x, t) {
      HasMore([], a, row, x, SHIFT, t);
      assert [] + [a] + row == [a] + row && [] + row == row;
      if ShiftsTo(l.a, sp, i, x, t) {
        var k :| i <= k < |sp| && sp[k] == t && AccessIs(l.a, t, x);
        assert k == i || ShiftsTo(l.a, sp, i + 1, x, t);
      }
      if IsAction(a, x, SHIFT, t) { assert ShiftsTo(l.a, sp, i, x, t); }
    }
  }

  // ----- add_reduce -----

  method AddReduce(actions: seq<Action>, pr: Precedence, ruleno: nat, symbol: nat) returns (result: seq<Action>)
    requires InOrder(actions) && ruleno < |pr.rprec| == |pr.rassoc| && !Has(actions, symbol, REDUCE, ruleno)
    ensures InOrder(result)
    ensures forall x: nat, c, n: nat :: Has(result, x, c, n) <==>
              Has(actions, x, c, n) || (x == symbol && c == REDUCE && n == ruleno)
    ensures AllFresh(pr, actions) ==> AllFresh(pr, result)
  {
    hide InOrder, Has;
    var temp := Action(symbol, ruleno, pr.rprec[ruleno], REDUCE, pr.rassoc[ruleno], 0);
    var next := ReducePlace(actions, temp);
    result := actions[..next] + [temp] + actions[next..];
    InsertedInOrder(actions, next, temp);
    forall x: nat, c, n: nat
      ensures Has(result, x, c, n) <==> Has(actions, x, c, n) || (x == symbol && c == REDUCE && n == ruleno)
    {
      HasMore(actions[..next], temp, actions[next..], x, c, n);
      assert actions[..next] + actions[next..] == actions;
    }
  }

  /** Where the reduction goes: everything before the place is before it. */
  method ReducePlace(actions: seq<Action>, temp: Action) returns (next: nat)
    requires InOrder(actions) && temp.code.REDUCE?
    ensures next <= |actions| && forall k :: 0 <= k < next ==> Before(actions[k], temp)
    ensures next < |actions| ==> actions[next].symbol >= temp.symbol
    ensures next < |actions| && actions[next].symbol == temp.symbol ==>
              actions[next].code.REDUCE? && actions[next].number >= temp.number
  {
    var symbol, ruleno := temp.symbol, temp.number;
    next := 0;
    while next < |actions| && actions[next].symbol < symbol
      invariant next <= |actions| && forall k :: 0 <= k < next ==> Before(actions[k], temp)
    {
      next := next + 1;
    }
    while next < |actions| && actions[next].symbol == symbol && actions[next].code == SHIFT
      invariant next <= |actions| && forall k :: 0 <= k < next ==> Before(actions[k], temp)
      invariant next < |actions| ==> actions[next].symbol >= symbol
    {
      if next + 1 < |actions| { assert Before(actions[next], actions[next + 1]); }
      next := next + 1;
    }
    while next < |actions| && actions[next].symbol == symbol && actions[next].code == REDUCE &&
      actions[next].number < ruleno
      invariant next <= |actions| && forall k :: 0 <= k < next ==> Before(actions[k], temp)
      invariant next < |actions| && actions[next].symbol == symbol ==> actions[next].code == REDUCE
      invariant next < |actions| ==> actions[next].symbol >= symbol
    {
      if next + 1 < |actions| { assert Before(actions[next], actions[next + 1]); }
      next := next + 1;
    }
  }

  lemma InsertedInOrder(actions: seq<Action>, next: nat, temp: Action)
    requires InOrder(actions) && next <= |actions| && temp.code.REDUCE?
    requires forall k :: 0 <= k < next ==> Before(actions[k], temp)
    requires next < |actions| ==> actions[next].symbol >= temp.symbol
    requires next < |actions| && actions[next].symbol == temp.symbol ==>
               actions[next].code.REDUCE? && actions[next].number >= temp.number
    requires !Has(actions, temp.symbol, REDUCE, temp.number)
    ensures InOrder(actions[..next] + [temp] + actions[next..])
  {
    if next < |actions| {
      assert !IsAction(actions[next], temp.symbol, REDUCE, temp.number);
      forall k | next <= k < |actions| ensures Before(temp, actions[k]) {}
    }
  }

  // ----- add_reductions -----

  /** One of the LA rows lo..hi is for rule r and has token x. */
  ghost predicate ReducesIn(ruleno: seq<nat>, la: seq<set<nat>>, lo: nat, hi: nat, x: nat, r: nat)
  {
    exists i :: lo <= i < hi && i < |ruleno| && i < |la| && ruleno[i] == r && x in la[i]
  }

  /** The shifts are still there, and the reductions are those of the LA rows lo..hi, with row hi
      done from token j on. */
  ghost predicate ReduceRow(l: Lalr, pr: Precedence, ruleno: seq<nat>, la: seq<set<nat>>, lo: nat, hi: nat, j: nat,
                            shiftRow: seq<Action>, row: seq<Action>)
  {
    && InOrder(row) && AllFresh(pr, row)
    && (forall x: nat, t: nat :: Has(row, x, SHIFT, t) <==> Has(shiftRow, x, SHIFT, t))
    && (forall x: nat, r: nat :: Has(row, x, REDUCE, r) <==>
          x < l.g.ntokens &&
            (ReducesIn(ruleno, la, lo, hi, x, r) || (j <= x && ReducesIn(ruleno, la, hi, hi + 1, x, r))))
  }

  method AddReductions(l: Lalr, pr: Precedence, start: seq<nat>, ruleno: seq<nat>, LA: BitMatrix, stateno: nat,
                       shiftRow: seq<Action>) returns (actions: seq<Action>)
    requires l.Ok() && pr.Covers(l.g) && IsRowMap(l.a.reds, |l.a.reds|, start, ruleno) && stateno < |l.a.reds|
    requires LA.Valid() && LA.n == |ruleno| && LA.bits == l.g.ntokens
    requires InOrder(shiftRow) && AllFresh(pr, shiftRow) && forall k :: 0 <= k < |shiftRow| ==> shiftRow[k].code.SHIFT?
    ensures stateno + 1 < |start| && start[stateno] <= start[stateno + 1]
    ensures ReduceRow(l, pr, ruleno, LA.Value(), start[stateno], start[stateno + 1], l.g.ntokens, shiftRow, actions)
  {
    StateRows(l, start, ruleno, stateno);
    hide Lalr.Ok, BitMatrix.Value, ReduceRow, InOrder, Has;
    actions := shiftRow;
    var m, n := start[stateno], start[stateno + 1];
    NoReductions(l, pr, ruleno, LA.Value(), m, shiftRow);
    for i := m to n
      invariant ReduceRow(l, pr, ruleno, LA.Value(), m, i, l.g.ntokens, shiftRow, actions)
    {
      var j: nat := l.g.ntokens;
      while j > 0
        invariant j <= l.g.ntokens && ReduceRow(l, pr, ruleno, LA.Value(), m, i, j, shiftRow, actions)
        decreases j
      {
        var bit := LA.Test(i, j - 1);
        if bit {
          NotThereYet(l, pr, ruleno, LA.Value(), m, i, j - 1, shiftRow, actions);
          RuleInRange(l, start, ruleno, stateno, i);
          ghost var was := actions;
          actions := AddReduce(actions, pr, ruleno[i], j - 1);
          AddedReduction(l, pr, ruleno, LA.Value(), m, i, j - 1, shiftRow, was, actions);
        } else {
          NoReduction(l, pr, ruleno, LA.Value(), m, i, j - 1, shiftRow, actions);
        }
        j := j - 1;
      }
      NextRow(l, pr, ruleno, LA.Value(), m, i, shiftRow, actions);
    }
  }

  lemma StateRows(l: Lalr, start: seq<nat>, ruleno: seq<nat>, s: nat)
    requires l.Ok() && IsRowMap(l.a.reds, |l.a.reds|, start, ruleno) && s < |l.a.reds|
    ensures s + 1 < |start| && start[s] <= start[s + 1] <= |ruleno|
    ensures forall i, k :: start[s] <= i < k < start[s + 1] ==> ruleno[i] < ruleno[k]
    ensures forall r: nat :: r in l.a.reds[s] <==> exists i :: start[s] <= i < start[s + 1] && ruleno[i] == r
    ensures forall r :: r in l.a.reds[s] ==> l.g.IsRule(r)
  {
    assert RowsOf(l.a.reds[s], start[s], start[s + 1], ruleno);
    assert RedsOf(l.g, l.a.cores[s].items, l.a.reds[s]);
    hide Lalr.Ok, IsRowMap;
    var reds, lo := l.a.reds[s], start[s];
    assert forall i :: lo <= i < start[s + 1] ==> ruleno[lo..start[s + 1]][i - lo] == ruleno[i];
    forall r: nat | r in reds ensures exists i :: lo <= i < start[s + 1] && ruleno[i] == r {
      var k :| 0 <= k < |reds| && reds[k] == r;
      assert ruleno[lo + k] == r;
    }
  }

  lemma RuleInRange(l: Lalr, start: seq<nat>, ruleno: seq<nat>, s: nat, i: nat)
    requires l.Ok() && IsRowMap(l.a.reds, |l.a.reds|, start, ruleno) && s < |l.a.reds| && s + 1 < |start|
    requires start[s] <= i < start[s + 1] && i < |ruleno|
    ensures ruleno[i] < l.g.NRules()
    ensures forall k :: start[s] <= k < i ==> ruleno[k] != ruleno[i]
  {
    StateRows(l, start, ruleno, s);
    assert ruleno[i] in l.a.reds[s];
  }

  lemma NoReductions(l: Lalr, pr: Precedence, ruleno: seq<nat>, la: seq<set<nat>>, m: nat, row: seq<Action>)
    requires InOrder(row) && AllFresh(pr, row) && forall k :: 0 <= k < |row| ==> row[k].code.SHIFT?
    ensures ReduceRow(l, pr, ruleno, la, m, m, l.g.ntokens, row, row)
  {}

  lemma NoReduction(l: Lalr, pr: Precedence, ruleno: seq<nat>, la: seq<set<nat>>, m: nat, i: nat, j: nat,
                    shiftRow: seq<Action>, row: seq<Action>)
    requires ReduceRow(l, pr, ruleno, la, m, i, j + 1, shiftRow, row) && i < |la| && i < |ruleno| && j !in la[i]
    ensures ReduceRow(l, pr, ruleno, la, m, i, j, shiftRow, row)
  {
    hide Has, InOrder;
    var next := i + 1;
    forall r: nat ensures !ReducesIn(ruleno, la, i, next, j, r) {}
  }

  lemma NotThereYet(l: Lalr, pr: Precedence, ruleno: seq<nat>, la: seq<set<nat>>, m: nat, i: nat, j: nat,
                    shiftRow: seq<Action>, row: seq<Action>)
    requires ReduceRow(l, pr, ruleno, la, m, i, j + 1, shiftRow, row) && i < |ruleno|
    requires forall k :: m <= k < i ==> k < |ruleno| && ruleno[k] != ruleno[i]
    ensures InOrder(row) && !Has(row, j, REDUCE, ruleno[i])
  {
    hide Has, InOrder;
  }

  lemma AddedReduction(l: Lalr, pr: Precedence, ruleno: seq<nat>, la: seq<set<nat>>, m: nat, i: nat, j: nat,
                       shiftRow: seq<Action>, row: seq<Action>, row': seq<Action>)
    requires ReduceRow(l, pr, ruleno, la, m, i, j + 1, shiftRow, row) && j < l.g.ntokens
    requires i < |la| && i < |ruleno| && j in la[i]
    requires InOrder(row') && (AllFresh(pr, row) ==> AllFresh(pr, row'))
    requires forall x: nat, c, n: nat :: Has(row', x, c, n) <==>
               Has(row, x, c, n) || (x == j && c == REDUCE && n == ruleno[i])
    ensures ReduceRow(l, pr, ruleno, la, m, i, j, shiftRow, row')
  {
    hide Has, InOrder;
    assert ReducesIn(ruleno, la, i, i + 1, j, ruleno[i]);
    var next := i + 1;
    forall r: nat | ReducesIn(ruleno, la, i, next, j, r) ensures r == ruleno[i] {}
  }

  lemma NextRow(l: Lalr, pr: Precedence, ruleno: seq<nat>, la: seq<set<nat>>, m: nat, i: nat, shiftRow: seq<Action>,
                row: seq<Action>)
    requires ReduceRow(l, pr, ruleno, la, m, i, 0, shiftRow, row) && m <= i
    ensures ReduceRow(l, pr, ruleno, la, m, i + 1, l.g.ntokens, shiftRow, row)
  {
    hide Has, InOrder;
    forall x: nat, r: nat
      ensures ReducesIn(ruleno, la, m, i + 1, x, r) <==>
                ReducesIn(ruleno, la, m, i, x, r) || ReducesIn(ruleno, la, i, i + 1, x, r)
    {
      if ReducesIn(ruleno, la, m, i, x, r) {
        var k :| m <= k < i && k < |ruleno| && k < |la| && ruleno[k] == r && x in la[k];
        assert m <= k < i + 1;
      }
      if ReducesIn(ruleno, la, i, i + 1, x, r) {
        var k :| i <= k < i + 1 && k < |ruleno| && k < |la| && ruleno[k] == r && x in la[k];
        assert m <= k < i + 1;
      }
    }
  }

  // ----- parse_actions -----

  /** State s reduces by rule r on token x. */
  ghost predicate Reduces(l: Lalr, s: nat, r: nat, x: nat)
    requires l.g.WellFormed()
  {
    s < |l.a.reds| && r in l.a.reds[s] && l.g.IsRule(r) && x < l.g.ntokens && l.InLA(s, r, x)
  }

  ghost predicate ShiftsToken(l: Lalr, s: nat, x: nat, t: nat)
  {
    x < l.g.ntokens && Shift(l.a, s, x, t)
  }

  /** The row holds exactly the shifts of state s over tokens, and its reductions on their lookaheads. */
  ghost predicate IsRowFor(l: Lalr, s: nat, row: seq<Action>)
    requires l.g.WellFormed()
  {
    && InOrder(row)
    && (forall x: nat, t: nat :: Has(row, x, SHIFT, t) <==> ShiftsToken(l, s, x, t))
    && (forall x: nat, r: nat :: Has(row, x, REDUCE, r) <==> Reduces(l, s, r, x))
  }

  method ParseActions(l: Lalr, pr: Precedence, start: seq<nat>, ruleno: seq<nat>, LA: BitMatrix, stateno: nat)
    returns (actions: seq<Action>)
    requires l.Ok() && pr.Covers(l.g) && IsRowMap(l.a.reds, |l.a.reds|, start, ruleno) && stateno < |l.a.cores|
    requires LA.Valid() && LA.n == |ruleno| && LA.bits == l.g.ntokens && HoldsLookaheads(l, start, ruleno, LA.Value())
    ensures IsRowFor(l, stateno, actions) && AllFresh(pr, actions)
  {
    SameLengths(l);
    hide Grammar.WellFormed, IsLR0, BitMatrix.Value, IsRowMap, InOrder, Has, HoldsLookaheads, ShiftRow;
    var shiftRow := GetShifts(l, pr, stateno);
    ShiftRowFacts(l, pr, l.a.shifts[stateno], shiftRow);
    actions := AddReductions(l, pr, start, ruleno, LA, stateno, shiftRow);
    RowComplete(l, pr, start, ruleno, LA.Value(), stateno, shiftRow, actions);
  }

  lemma SameLengths(l: Lalr)
    requires l.Ok()
    ensures |l.a.cores| == |l.a.shifts| == |l.a.reds| > 0
  {}

  lemma ShiftRowFacts(l: Lalr, pr: Precedence, shifts: seq<nat>, row: seq<Action>)
    requires ShiftRow(l, pr, shifts, 0, row)
    ensures InOrder(row) && AllFresh(pr, row) && forall k :: 0 <= k < |row| ==> row[k].code.SHIFT?
  {}

  lemma RowComplete(l: Lalr, pr: Precedence, start: seq<nat>, ruleno: seq<nat>, la: seq<set<nat>>, s: nat,
                    shiftRow: seq<Action>, row: seq<Action>)
    requires l.Ok() && s < |l.a.reds| && s < |l.a.shifts| && IsRowMap(l.a.reds, |l.a.reds|, start, ruleno)
    requires ShiftRow(l, pr, l.a.shifts[s], 0, shiftRow) && HoldsLookaheads(l, start, ruleno, la)
    requires s + 1 < |start| && start[s] <= start[s + 1]
    requires ReduceRow(l, pr, ruleno, la, start[s], start[s + 1], l.g.ntokens, shiftRow, row)
    ensures IsRowFor(l, s, row) && AllFresh(pr, row)
  {
    StateRows(l, start, ruleno, s);
    hide Grammar.WellFormed, IsLR0, IsGotoMap, IsRowMap, InOrder, Has, Lalr.InLA;
    forall x: nat, t: nat ensures Has(row, x, SHIFT, t) <==> ShiftsToken(l, s, x, t) {
      ShiftsToIsShift(l, s, x, t);
    }
    forall x: nat, r: nat ensures Has(row, x, REDUCE, r) <==> Reduces(l, s, r, x) {
      ReducesInIs(l, start, ruleno, la, s, x, r);
    }
  }

  lemma ShiftsToIsShift(l: Lalr, s: nat, x: nat, t: nat)
    requires s < |l.a.shifts|
    ensures ShiftsTo(l.a, l.a.shifts[s], 0, x, t) <==> Shift(l.a, s, x, t)
  {
    if Shift(l.a, s, x, t) {
      var k :| 0 <= k < |l.a.shifts[s]| && l.a.shifts[s][k] == t;
    }
  }

  lemma ReducesInIs(l: Lalr, start: seq<nat>, ruleno: seq<nat>, la: seq<set<nat>>, s: nat, x: nat, r: nat)
    requires l.Ok() && s < |l.a.reds| && IsRowMap(l.a.reds, |l.a.reds|, start, ruleno) &&
             HoldsLookaheads(l, start, ruleno, la)
    requires s + 1 < |start| && start[s] <= start[s + 1]
    ensures x < l.g.ntokens && ReducesIn(ruleno, la, start[s], start[s + 1], x, r) <==> Reduces(l, s, r, x)
  {
    StateRows(l, start, ruleno, s);
    hide Grammar.WellFormed, IsLR0, IsGotoMap, IsRowMap, Lalr.InLA;
    if ReducesIn(ruleno, la, start[s], start[s + 1], x, r) {
      var i :| start[s] <= i < start[s + 1] && i < |ruleno| && i < |la| && ruleno[i] == r && x in la[i];
      assert IsRow(start, ruleno, s, ruleno[i], i);
    }
    if Reduces(l, s, r, x) {
      var i :| start[s] <= i < start[s + 1] && ruleno[i] == r;
      assert IsRow(start, ruleno, s, ruleno[i], i);
    }
  }

  // ----- remove_conflicts -----

  /** The reduction wins over the shift by precedence, or by left associativity. */
  predicate Beats(shift: Action, reduce: Action)
  {
    shift.prec > 0 && reduce.prec > 0
    && (shift.prec < reduce.prec || (shift.prec == reduce.prec && shift.assoc.LEFT?))
  }

  /** Equal precedence without associativity: both go. */
  predicate Ties(shift: Action, reduce: Action)
  {
    shift.prec > 0 && reduce.prec > 0
    && shift.prec == reduce.prec && !shift.assoc.LEFT? && !shift.assoc.RIGHT?
  }

  /** The first action of the group of p: the actions with p's symbol. */
  ghost function FirstOf(row: seq<Action>, p: nat): (f: nat)
    requires p < |row|
    ensures f <= p && row[f].symbol == row[p].symbol
  {
    if p == 0 || row[p - 1].symbol != row[p].symbol then p else FirstOf(row, p - 1)
  }

  lemma {:induction false} SameGroup(row: seq<Action>, p: nat, q: nat)
    requires InOrder(row) && p <= q < |row| && row[p].symbol == row[q].symbol
    ensures FirstOf(row, p) == FirstOf(row, q)
    decreases q
  {
    if p < q {
      assert Before(row[p], row[q]) && Before(row[q - 1], row[q]) && (p < q - 1 ==> Before(row[p], row[q - 1]));
      SameGroup(row, p, q - 1);
    }
  }

  ghost predicate BeatenBetween(row: seq<Action>, f: nat, lo: nat, hi: nat)
    requires f < |row| && hi <= |row|
  {
    exists q :: lo <= q < hi && row[q].symbol == row[f].symbol && Beats(row[f], row[q])
  }

  ghost predicate TiedBetween(row: seq<Action>, f: nat, lo: nat, hi: nat)
    requires f < |row| && hi <= |row|
  {
    exists q :: lo <= q < hi && row[q].symbol == row[f].symbol && Ties(row[f], row[q])
  }

  /** What happens to action p, whose group starts at f, looking no further than end.  In the
      accept group, and in a group without a shift, the first action stays and the others
      lose (1).  A shift stays unless some reduction beats it or ties with it (2).  Beside a
      shift, the first reduction that beats it stays; later ones lose (1); earlier ones go by
      precedence (2) when both have one, and lose (1) otherwise. */
  ghost function Verdict(accept: bool, row: seq<Action>, f: nat, p: nat, end: nat): nat
    requires f <= p < |row| && end <= |row|
  {
    if p == f then
      if !accept && row[f].code.SHIFT? && (BeatenBetween(row, f, f + 1, end) || TiedBetween(row, f, f + 1, end))
      then 2
      else 0
    else if accept || row[f].code.REDUCE? || BeatenBetween(row, f, f + 1, p) then 1
    else if Beats(row[f], row[p]) then 0
    else if row[f].prec > 0 && row[p].prec > 0 then 2
    else 1
  }

  ghost predicate Judged(final: bool, was: seq<Action>, row: seq<Action>, p: nat, end: nat)
    requires p < |row| == |was| && end <= |was|
  {
    row[p] == was[p].(suppressed := Verdict(final && was[p].symbol == 0, was, FirstOf(was, p), p, end))
  }

  /** The row after remove_conflicts has looked at its first end actions. */
  ghost predicate Resolved(final: bool, was: seq<Action>, row: seq<Action>, end: nat)
  {
    && |row| == |was| && end <= |was|
    && (forall p :: end <= p < |was| ==> row[p] == was[p])
    && (forall p :: 0 <= p < end ==> Judged(final, was, row, p, end))
  }

  /** Action p, if it loses, loses to a shift, or to accepting; otherwise to a reduction. */
  ghost predicate LosesToShift(final: bool, row: seq<Action>, p: nat)
    requires p < |row|
  {
    var f := FirstOf(row, p);
    (final && row[p].symbol == 0) || (row[f].code.SHIFT? && !BeatenBetween(row, f, f + 1, p))
  }

  ghost predicate LosesAs(final: bool, was: seq<Action>, row: seq<Action>, p: nat, toShift: bool)
    requires p < |was| == |row|
  {
    row[p].suppressed == 1 && LosesToShift(final, was, p) == toShift
  }

  /** How many of the first n actions lost a shift/reduce, or else a reduce/reduce conflict. */
  ghost function CountLost(final: bool, was: seq<Action>, row: seq<Action>, n: nat, toShift: bool): nat
    requires n <= |was| == |row|
  {
    if n == 0 then 0
    else CountLost(final, was, row, n - 1, toShift) + if LosesAs(final, was, row, n - 1, toShift) then 1 else 0
  }

  lemma {:induction false} CountSame(final: bool, was: seq<Action>, row: seq<Action>, row': seq<Action>, n: nat,
                                     toShift: bool)
    requires n <= |was| == |row| == |row'|
    requires forall k :: 0 <= k < n ==> (row[k].suppressed == 1 <==> row'[k].suppressed == 1)
    ensures CountLost(final, was, row, n, toShift) == CountLost(final, was, row', n, toShift)
  {
    if n > 0 { CountSame(final, was, row, row', n - 1, toShift); }
  }

  /** How many of a resolved row's actions lost a conflict of either kind. */
  ghost function Lost(final: bool, row: seq<Action>, toShift: bool): nat
  {
    CountLost(final, row, row, |row|, toShift)
  }

  /** pref is the first action of the group or, once a reduction has beaten the shift there, a reduction. */
  ghost predicate IsAhead(final: bool, was: seq<Action>, p: nat, pref: nat)
    requires 0 < p <= |was|
  {
    var f := FirstOf(was, p - 1);
    if !(final && was[f].symbol == 0) && was[f].code.SHIFT? && BeatenBetween(was, f, f + 1, p)
    then f < pref < p && was[pref].code.REDUCE?
    else pref == f
  }

  /** Action p starts a group. */
  lemma NewGroup(final: bool, was: seq<Action>, row: seq<Action>, p: nat)
    requires InOrder(was) && Resolved(final, was, row, p) && p < |was| && was[p].suppressed == 0
    requires p > 0 ==> was[p - 1].symbol != was[p].symbol
    ensures Resolved(final, was, row, p + 1) && IsAhead(final, was, p + 1, p)
    ensures forall s :: CountLost(final, was, row, p + 1, s) == CountLost(final, was, row, p, s)
  {
    assert FirstOf(was, p) == p;
    var end := p + 1;
    forall q | 0 <= q < p ensures Judged(final, was, row, q, end) {
      assert Judged(final, was, row, q, p);
      OtherGroup(was, q, p);
      VerdictStays(final && was[q].symbol == 0, was, FirstOf(was, q), q, p);
    }
  }

  lemma OtherGroup(was: seq<Action>, q: nat, p: nat)
    requires InOrder(was) && q < p < |was| && FirstOf(was, p) == p
    ensures was[q].symbol != was[p].symbol
  {
    if was[q].symbol == was[p].symbol { SameGroup(was, q, p); }
  }

  /** An action of another group changes nothing; nor does one of the same group, except for its first. */
  lemma VerdictStays(accept: bool, was: seq<Action>, f: nat, q: nat, p: nat)
    requires f <= q < p < |was| && (was[p].symbol != was[f].symbol || q != f)
    ensures Verdict(accept, was, f, q, p + 1) == Verdict(accept, was, f, q, p)
  {
    if q == f {
      assert BeatenBetween(was, f, f + 1, p + 1) <==> BeatenBetween(was, f, f + 1, p);
      assert TiedBetween(was, f, f + 1, p + 1) <==> TiedBetween(was, f, f + 1, p);
    }
  }

  /** Action p continues the group that starts at f: it and the first action are judged anew. */
  lemma SameGroupStep(final: bool, was: seq<Action>, row: seq<Action>, row': seq<Action>, p: nat, f: nat)
    requires InOrder(was) && Resolved(final, was, row, p) && 0 < p < |was| && was[p - 1].symbol == was[p].symbol
    requires f == FirstOf(was, p - 1) && |row'| == |row|
    requires forall q :: 0 <= q < |row| && q != p && q != f ==> row'[q] == row[q]
    requires row'[p] == was[p].(suppressed := Verdict(final && was[p].symbol == 0, was, f, p, p + 1))
    requires row'[f] == was[f].(suppressed := Verdict(final && was[f].symbol == 0, was, f, f, p + 1))
    ensures Resolved(final, was, row', p + 1)
    ensures forall s ::
              CountLost(final, was, row', p + 1, s) ==
              CountLost(final, was, row, p, s) + if LosesAs(final, was, row', p, s) then 1 else 0
  {
    assert FirstOf(was, p) == f;
    FirstIsFirst(was, p);
    var end := p + 1;
    forall q | 0 <= q < end ensures Judged(final, was, row', q, end) {
      if q < p && q != f {
        assert Judged(final, was, row, q, p);
        if FirstOf(was, q) == q && was[q].symbol == was[p].symbol { SameGroup(was, q, p); }
        if was[FirstOf(was, q)].symbol == was[p].symbol && FirstOf(was, q) == q { assert false; }
        VerdictStays(final && was[q].symbol == 0, was, FirstOf(was, q), q, p);
      }
    }
    assert Judged(final, was, row, f, p);
    forall s
      ensures CountLost(final, was, row, p, s) == CountLost(final, was, row', p, s)
    {
      CountSame(final, was, row, row', p, s);
    }
  }

  lemma {:induction false} FirstIsFirst(row: seq<Action>, p: nat)
    requires p < |row|
    ensures FirstOf(row, FirstOf(row, p)) == FirstOf(row, p)
  {
    if p > 0 && row[p - 1].symbol == row[p].symbol { FirstIsFirst(row, p - 1); }
  }

  /** remove_conflicts, for one state. */
  method RemoveConflictsRow(final: bool, was: seq<Action>) returns (row: seq<Action>, SRcount: nat, RRcount: nat)
    requires InOrder(was) && forall k :: 0 <= k < |was| ==> was[k].suppressed == 0
    ensures Resolved(final, was, row, |was|)
    ensures SRcount == Lost(final, row, true) && RRcount == Lost(final, row, false)
  {
    hide InOrder, Verdict, Judged, CountLost, LosesAs;
    row, SRcount, RRcount := was, 0, 0;
    var symbol: int, pref: nat := -1, 0;
    NoneLost(final, was, row);
    for p := 0 to |was|
      invariant Resolved(final, was, row, p)
      invariant SRcount == CountLost(final, was, row, p, true) && RRcount == CountLost(final, was, row, p, false)
      invariant p == 0 ==> symbol == -1
      invariant p > 0 ==> symbol == was[p - 1].symbol && pref < p && IsAhead(final, was, p, pref)
    {
      if row[p].symbol != symbol {
        NewGroup(final, was, row, p);
        pref := p;
        symbol := row[p].symbol;
      } else {
        ghost var f, before := FirstOf(was, p - 1), row;
        var sr, rr;
        row, pref, sr, rr := ResolveOne(final, was, row, p, symbol, pref);
        SameGroupStep(final, was, before, row, p, f);
        SRcount, RRcount := SRcount + sr, RRcount + rr;
      }
    }
    LostIsSame(final, was, row, true);
    LostIsSame(final, was, row, false);
  }

  lemma NoneLost(final: bool, was: seq<Action>, row: seq<Action>)
    requires |was| == |row|
    ensures forall s :: CountLost(final, was, row, 0, s) == 0
  {}

  /** What kind of conflict was lost can be told from the resolved row alone. */
  lemma LostIsSame(final: bool, was: seq<Action>, row: seq<Action>, toShift: bool)
    requires Resolved(final, was, row, |was|) && |row| == |was|
    ensures CountLost(final, was, row, |row|, toShift) == Lost(final, row, toShift)
  {
    forall p: nat | p < |row| ensures row[p] == was[p].(suppressed := row[p].suppressed) {
      assert Judged(final, was, row, p, |was|);
    }
    hide Resolved;
    CountKinds(final, was, row, |row|, toShift);
  }

  lemma {:induction false} CountKinds(final: bool, was: seq<Action>, row: seq<Action>, n: nat, toShift: bool)
    requires n <= |was| == |row| && forall p: nat :: p < |row| ==> row[p] == was[p].(suppressed := row[p].suppressed)
    ensures CountLost(final, was, row, n, toShift) == CountLost(final, row, row, n, toShift)
  {
    if n > 0 {
      CountKinds(final, was, row, n - 1, toShift);
      SameFirst(was, row, n - 1);
      var f, end := FirstOf(row, n - 1), n - 1;
      assert forall q: nat :: q < |row| ==> Beats(row[f], row[q]) == Beats(was[f], was[q]);
      assert BeatenBetween(was, f, f + 1, end) <==> BeatenBetween(row, f, f + 1, end);
    }
  }

  lemma {:induction false} SameFirst(was: seq<Action>, row: seq<Action>, p: nat)
    requires p < |was| == |row| && forall q: nat :: q < |row| ==> row[q] == was[q].(suppressed := row[q].suppressed)
    ensures FirstOf(was, p) == FirstOf(row, p)
  {
    if p > 0 { SameFirst(was, row, p - 1); }
  }

  /** What is known of the group when action p continues it. */
  lemma GroupFacts(final: bool, was: seq<Action>, row: seq<Action>, p: nat, pref: nat)
    requires InOrder(was) && Resolved(final, was, row, p) && 0 < p < |was| && was[p].symbol == was[p - 1].symbol
    requires IsAhead(final, was, p, pref) && pref < p
    ensures var f := FirstOf(was, p - 1);
            && f < p && FirstOf(was, p) == f && was[p].code.REDUCE? && was[f].symbol == was[p].symbol
            && row[p] == was[p]
            && row[f] == was[f].(suppressed := Verdict(final && was[f].symbol == 0, was, f, f, p))
            && row[pref] == was[pref].(suppressed := row[pref].suppressed)
            && (BeatenBetween(was, f, f + 1, p + 1) <==> BeatenBetween(was, f, f + 1, p) || Beats(was[f], was[p]))
            && (TiedBetween(was, f, f + 1, p + 1) <==> TiedBetween(was, f, f + 1, p) || Ties(was[f], was[p]))
  {
    var f := FirstOf(was, p - 1);
    assert FirstOf(was, p) == f;
    FirstIsFirst(was, p);
    assert Before(was[f], was[p]);
    assert Judged(final, was, row, f, p) && Judged(final, was, row, pref, p);
    hide InOrder, Verdict, Judged;
    assert BeatenBetween(was, f, f + 1, p + 1) <==> BeatenBetween(was, f, f + 1, p) || Beats(was[f], was[p]);
    assert TiedBetween(was, f, f + 1, p + 1) <==> TiedBetween(was, f, f + 1, p) || Ties(was[f], was[p]);
  }

  /** The body of the loop of remove_conflicts, for an action p that meets the action pref ahead
      in its group. */
  method ResolveOne(final: bool, ghost was: seq<Action>, row0: seq<Action>, p: nat, symbol: nat, pref0: nat)
    returns (row: seq<Action>, pref: nat, sr: nat, rr: nat)
    requires InOrder(was) && Resolved(final, was, row0, p) && 0 < p < |was| &&
             was[p].symbol == was[p - 1].symbol == symbol
    requires pref0 < p && IsAhead(final, was, p, pref0) && was[p].suppressed == 0
    requires was[p].symbol == symbol && row0[p].symbol == symbol
    ensures |row| == |row0| && pref <= p && IsAhead(final, was, p + 1, pref)
    ensures var f := FirstOf(was, p - 1);
            && (forall q :: 0 <= q < |row| && q != p && q != f ==> row[q] == row0[q])
            && row[p] == was[p].(suppressed := Verdict(final && was[p].symbol == 0, was, f, p, p + 1))
            && row[f] == was[f].(suppressed := Verdict(final && was[f].symbol == 0, was, f, f, p + 1))
    ensures sr == (if LosesAs(final, was, row, p, true) then 1 else 0) &&
            rr == if LosesAs(final, was, row, p, false) then 1 else 0
  {
    ghost var f := FirstOf(was, p - 1);
    GroupFacts(final, was, row0, p, pref0);
    hide InOrder, Resolved, FirstOf, BeatenBetween, TiedBetween;
    row, pref, sr, rr := row0, pref0, 0, 0;
    if final && symbol == 0 {
      sr := 1;
      row := row[p := row[p].(suppressed := 1)];
    } else if row[pref].code.SHIFT? {
      if row[pref].prec > 0 && row[p].prec > 0 {
        if row[pref].prec < row[p].prec {
          row := row[pref := row[pref].(suppressed := 2)];
          pref := p;
        } else if row[pref].prec > row[p].prec {
          row := row[p := row[p].(suppressed := 2)];
        } else if row[pref].assoc.LEFT? {
          row := row[pref := row[pref].(suppressed := 2)];
          pref := p;
        } else if row[pref].assoc.RIGHT? {
          row := row[p := row[p].(suppressed := 2)];
        } else {
          row := row[pref := row[pref].(suppressed := 2)];
          row := row[p := row[p].(suppressed := 2)];
        }
      } else {
        sr := 1;
        row := row[p := row[p].(suppressed := 1)];
      }
    } else {
      rr := 1;
      row := row[p := row[p].(suppressed := 1)];
    }
  }

  // ----- what conflict resolution achieves -----

  /** No token has two actions left. */
  ghost predicate AtMostOne(row: seq<Action>)
  {
    forall p, q :: 0 <= p < q < |row| && row[p].symbol == row[q].symbol ==>
      row[p].suppressed != 0 || row[q].suppressed != 0
  }

  lemma JudgedOne(final: bool, was: seq<Action>, row: seq<Action>, p: nat)
    requires Resolved(final, was, row, |was|) && p < |row|
    ensures |row| == |was| && row[p].suppressed == Verdict(final && was[p].symbol == 0, was, FirstOf(was, p), p, |was|)
    ensures row[p].symbol == was[p].symbol && row[p].code == was[p].code && row[p].number == was[p].number
  {
    hide Verdict, FirstOf;
    assert Judged(final, was, row, p, |was|);
  }

  lemma ResolvedAtMostOne(final: bool, was: seq<Action>, row: seq<Action>)
    requires InOrder(was) && Resolved(final, was, row, |was|)
    ensures AtMostOne(row)
  {
    hide Resolved, Beats, Ties;
    forall p, q | 0 <= p < q < |row| && row[p].symbol == row[q].symbol
      ensures row[p].suppressed != 0 || row[q].suppressed != 0
    {
      JudgedOne(final, was, row, p);
      JudgedOne(final, was, row, q);
      SameGroup(was, p, q);
    }
  }

  /** In a group without a shift exactly the lowest rule stays. */
  lemma LowestRuleStays(final: bool, was: seq<Action>, row: seq<Action>, p: nat)
    requires InOrder(was) && Resolved(final, was, row, |was|) && p < |row| == |was|
    requires forall q :: 0 <= q < |was| && was[q].symbol == was[p].symbol ==> was[q].code.REDUCE?
    ensures row[p].suppressed == 0 <==> forall q :: 0 <= q < |was| && was[q].symbol == was[p].symbol ==>
              was[p].number <= was[q].number
  {
    hide Resolved, BeatenBetween, TiedBetween;
    var f := FirstOf(was, p);
    JudgedOne(final, was, row, p);
    FirstIsLeast(was, p);
    if p != f { assert Before(was[f], was[p]); }
  }

  lemma FirstIsLeast(was: seq<Action>, p: nat)
    requires InOrder(was) && p < |was|
    requires forall q :: 0 <= q < |was| && was[q].symbol == was[p].symbol ==> was[q].code.REDUCE?
    ensures forall q :: 0 <= q < |was| && was[q].symbol == was[p].symbol ==>
              was[FirstOf(was, p)].number <= was[q].number
  {
    var f := FirstOf(was, p);
    forall q | 0 <= q < |was| && was[q].symbol == was[p].symbol ensures was[f].number <= was[q].number {
      if q <= p { SameGroup(was, q, p); } else { SameGroup(was, p, q); }
      if f < q { assert Before(was[f], was[q]); }
    }
  }

  /** Nothing is suppressed exactly when every token has a single action. */
  lemma NothingSuppressed(final: bool, was: seq<Action>, row: seq<Action>)
    requires InOrder(was) && Resolved(final, was, row, |was|) && |row| == |was|
    ensures (forall p :: 0 <= p < |row| ==> row[p].suppressed == 0) <==> SymbolsDiffer(was)
  {
    ResolvedAtMostOne(final, was, row);
    hide Resolved, InOrder, Verdict;
    forall p: nat | p < |row| ensures row[p].symbol == was[p].symbol {
      JudgedOne(final, was, row, p);
    }
    if SymbolsDiffer(was) {
      forall p: nat | p < |row| ensures row[p].suppressed == 0 {
        AloneStays(final, was, row, p);
      }
    }
  }

  ghost predicate SymbolsDiffer(row: seq<Action>)
  {
    forall p, q :: 0 <= p < q < |row| ==> row[p].symbol != row[q].symbol
  }

  lemma AloneStays(final: bool, was: seq<Action>, row: seq<Action>, p: nat)
    requires Resolved(final, was, row, |was|) && p < |row| == |was| && SymbolsDiffer(was)
    ensures row[p].suppressed == 0
  {
    JudgedOne(final, was, row, p);
    hide Resolved, Beats, Ties;
  }

  /** Suppression changes no action's symbol, code or number. */
  lemma SameActions(final: bool, was: seq<Action>, row: seq<Action>, x: nat, c: Code, n: nat)
    requires Resolved(final, was, row, |was|)
    ensures Has(row, x, c, n) <==> Has(was, x, c, n)
    ensures InOrder(was) ==> InOrder(row)
  {
    forall p: nat | p < |row|
      ensures row[p].symbol == was[p].symbol && row[p].code == was[p].code && row[p].number == was[p].number
    {
      JudgedOne(final, was, row, p);
    }
    assert |row| == |was|;
    hide Resolved;
    if InOrder(was) {
      forall j, k | 0 <= j < k < |row| ensures Before(row[j], row[k]) { assert Before(was[j], was[k]); }
    }
    if Has(row, x, c, n) {
      var k :| 0 <= k < |row| && IsAction(row[k], x, c, n);
      assert IsAction(was[k], x, c, n);
    }
    if Has(was, x, c, n) {
      var k :| 0 <= k < |was| && IsAction(was[k], x, c, n);
      assert IsAction(row[k], x, c, n);
    }
  }

  lemma RowStays(l: Lalr, s: nat, final: bool, was: seq<Action>, row: seq<Action>)
    requires l.g.WellFormed() && IsRowFor(l, s, was) && Resolved(final, was, row, |was|)
    ensures IsRowFor(l, s, row)
  {
    hide Grammar.WellFormed, Resolved, Has, InOrder;
    SameActions(final, was, row, 0, SHIFT, 0);
    forall x: nat, c, n: nat ensures Has(row, x, c, n) <==> Has(was, x, c, n) { SameActions(final, was, row, x, c, n); }
  }

  // ----- sole_reduction -----

  /** Rule r is all that is left of the row, and not only for the error token. */
  ghost predicate IsSole(row: seq<Action>, r: nat)
  {
    && r > 0
    && (forall k :: 0 <= k < |row| && row[k].suppressed == 0 ==> row[k].code.REDUCE? && row[k].number == r)
    && (exists k :: 0 <= k < |row| && row[k].suppressed == 0 && row[k].symbol != 1)
  }

  method SoleReduction(row: seq<Action>) returns (ruleno: nat)
    requires forall k :: 0 <= k < |row| && row[k].code.REDUCE? ==> row[k].number > 0
    ensures ruleno != 0 ==> IsSole(row, ruleno)
    ensures ruleno == 0 ==> forall r :: !IsSole(row, r)
  {
    var count := 0;
    ruleno := 0;
    for p := 0 to |row|
      invariant ruleno > 0 ==> forall k :: 0 <= k < p && row[k].suppressed == 0 ==>
                  row[k].code.REDUCE? && row[k].number == ruleno
      invariant ruleno == 0 ==> count == 0 && forall k :: 0 <= k < p ==> row[k].suppressed != 0
      invariant ruleno > 0 ==> exists k :: 0 <= k < p && row[k].suppressed == 0
      invariant count >= 0 && (count > 0 <==> exists k :: 0 <= k < p && row[k].suppressed == 0 && row[k].symbol != 1)
    {
      if row[p].code == SHIFT && row[p].suppressed == 0 {
        return 0;
      } else if row[p].code == REDUCE && row[p].suppressed == 0 {
        if ruleno > 0 && row[p].number != ruleno {
          return 0;
        }
        if row[p].symbol != 1 {
          count := count + 1;
        }
        ruleno := row[p].number;
      }
    }
    if count == 0 {
      return 0;
    }
  }

  // ----- find_final_state -----

  /** The state that state 0 shifts to over the goal. */
  method FindFinalState(l: Lalr) returns (final: nat)
    requires l.Ok()
    ensures Shift(l.a, 0, l.g.Goal(), final)
  {
    SameLengths(l);
    ShiftList(l, 0);
    ghost var t := GoalShift(l);
    hide Lalr.Ok;
    var sp := l.a.shifts[0];
    final := 0;
    ghost var at :| 0 <= at < |sp| && sp[at] == t;
    var goal := l.g.Goal();
    var i: nat := |sp|;
    while i > 0
      invariant at < i <= |sp|
      decreases i
    {
      final := sp[i - 1];
      if l.a.cores[final].access == goal {
        break;
      }
      i := i - 1;
    }
  }

  lemma GoalShift(l: Lalr) returns (t: nat)
    requires l.Ok()
    ensures Shift(l.a, 0, l.g.Goal(), t)
  {
    l.FirstGoto();
    l.GotoFacts(0);
    t := l.m.to[0];
  }

  // ----- make_parser -----

  datatype Parser = Parser(rows: seq<seq<Action>>, defred: seq<nat>, final: nat, SRtotal: nat, RRtotal: nat)

  ghost predicate IsDefault(row: seq<Action>, r: nat)
  {
    if r != 0 then IsSole(row, r) else forall q :: !IsSole(row, q)
  }

  /** The parser's rows hold the actions of the LALR(1) automaton, with conflicts resolved;
      defred holds the sole reductions. */
  ghost predicate IsParser(l: Lalr, pr: Precedence, p: Parser)
    requires l.g.WellFormed()
  {
    && |p.rows| == |p.defred| == |l.a.cores|
    && (forall s :: 0 <= s < |p.rows| ==> IsRowFor(l, s, p.rows[s]) && AtMostOne(p.rows[s]))
    && (forall s :: 0 <= s < |p.rows| ==> IsResolved(l, pr, s, s == p.final, p.rows[s]))
    && (forall s :: 0 <= s < |p.rows| ==> IsDefault(p.rows[s], p.defred[s]))
    && Shift(l.a, 0, l.g.Goal(), p.final)
  }

  /** The row is what conflict resolution makes of the state's actions. */
  ghost predicate IsResolved(l: Lalr, pr: Precedence, s: nat, final: bool, row: seq<Action>)
    requires l.g.WellFormed()
  {
    exists was :: IsRowFor(l, s, was) && AllFresh(pr, was) && Resolved(final, was, row, |was|)
  }

  /** How many actions of the first n states lost a conflict of this kind. */
  ghost function LostInAll(rows: seq<seq<Action>>, final: nat, n: nat, toShift: bool): nat
    requires n <= |rows|
  {
    if n == 0 then 0 else LostInAll(rows, final, n - 1, toShift) + Lost(n - 1 == final, rows[n - 1], toShift)
  }

  lemma {:induction false} LostGrows(rows: seq<seq<Action>>, row: seq<Action>, final: nat, n: nat, toShift: bool)
    requires n <= |rows|
    ensures LostInAll(rows + [row], final, n, toShift) == LostInAll(rows, final, n, toShift)
  {
    hide Lost;
    if n > 0 { LostGrows(rows, row, final, n - 1, toShift); }
  }

  /** The totals count, over all states, the actions that lost to a shift and to a reduction. */
  ghost predicate AreTotals(p: Parser)
  {
    p.SRtotal == LostInAll(p.rows, p.final, |p.rows|, true) && p.RRtotal == LostInAll(p.rows, p.final, |p.rows|, false)
  }

  lemma ReducesByRule(l: Lalr, s: nat, row: seq<Action>)
    requires l.g.WellFormed() && IsRowFor(l, s, row)
    ensures forall k :: 0 <= k < |row| && row[k].code.REDUCE? ==> row[k].number >= 2
  {
    forall k | 0 <= k < |row| && row[k].code.REDUCE? ensures row[k].number >= 2 {
      assert IsAction(row[k], row[k].symbol, REDUCE, row[k].number);
      assert Has(row, row[k].symbol, REDUCE, row[k].number);
    }
  }

  method MakeParser(l: Lalr, pr: Precedence, start: seq<nat>, ruleno: seq<nat>, LA: BitMatrix) returns (p: Parser)
    requires l.Ok() && pr.Covers(l.g) && IsRowMap(l.a.reds, |l.a.reds|, start, ruleno)
    requires LA.Valid() && LA.n == |ruleno| && LA.bits == l.g.ntokens && HoldsLookaheads(l, start, ruleno, LA.Value())
    ensures IsParser(l, pr, p) && AreTotals(p)
  {
    hide Grammar.WellFormed, IsLR0, IsGotoMap, BitMatrix.Value, IsRowMap, HoldsLookaheads, IsRowFor, AtMostOne,
         IsDefault, Resolved, IsResolved, Fresh, Lost;
    var raw: seq<seq<Action>> := [];
    for i := 0 to |l.a.cores|
      invariant |raw| == i
      invariant forall s :: 0 <= s < i ==> IsRowFor(l, s, raw[s]) && AllFresh(pr, raw[s])
    {
      var actions := ParseActions(l, pr, start, ruleno, LA, i);
      raw := raw + [actions];
    }
    var final := FindFinalState(l);
    var rows: seq<seq<Action>>, SRtotal, RRtotal := [], 0, 0;
    for i := 0 to |raw|
      invariant |rows| == i && SRtotal == LostInAll(rows, final, i, true) && RRtotal == LostInAll(rows, final, i, false)
      invariant forall s :: 0 <= s < i ==> IsRowFor(l, s, rows[s]) && AtMostOne(rows[s])
      invariant forall s :: 0 <= s < i ==> IsResolved(l, pr, s, s == final, rows[s])
    {
      RowInOrder(l, pr, i, raw[i]);
      var row, sr, rr := RemoveConflictsRow(i == final, raw[i]);
      RowStays(l, i, i == final, raw[i], row);
      ResolvedAtMostOne(i == final, raw[i], row);
      ResolvedFrom(l, pr, i, i == final, raw[i], row);
      LostGrows(rows, row, final, i, true);
      LostGrows(rows, row, final, i, false);
      rows := rows + [row];
      SRtotal, RRtotal := SRtotal + sr, RRtotal + rr;
    }
    var defred: seq<nat> := [];
    for i := 0 to |rows|
      invariant |defred| == i && forall s :: 0 <= s < i ==> IsDefault(rows[s], defred[s])
    {
      ReducesByRule(l, i, rows[i]);
      var r := SoleReduction(rows[i]);
      DefaultFound(rows[i], r);
      defred := defred + [r];
    }
    p := Parser(rows, defred, final, SRtotal, RRtotal);
  }

  lemma RowInOrder(l: Lalr, pr: Precedence, s: nat, row: seq<Action>)
    requires l.g.WellFormed() && IsRowFor(l, s, row) && AllFresh(pr, row)
    ensures InOrder(row) && forall k :: 0 <= k < |row| ==> row[k].suppressed == 0
  {}

  lemma ResolvedFrom(l: Lalr, pr: Precedence, s: nat, final: bool, was: seq<Action>, row: seq<Action>)
    requires l.g.WellFormed() && IsRowFor(l, s, was) && AllFresh(pr, was) && Resolved(final, was, row, |was|)
    ensures IsResolved(l, pr, s, final, row)
  {}

  lemma DefaultFound(row: seq<Action>, r: nat)
    requires r != 0 ==> IsSole(row, r)
    requires r == 0 ==> forall q :: !IsSole(row, q)
    ensures IsDefault(row, r)
  {}
}
