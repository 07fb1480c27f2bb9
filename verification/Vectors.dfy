/** output.c: token_actions, default_goto and save_column turn the parser's rows and the gotos
    into sparse vectors. */
module Vectors {
  import opened Gotos
  import opened Grammars
  import opened Mkpar
  import opened Packing

  const EMPTY := Vector([], [], 0)

  /** The numbers that the scanner gives the tokens: distinct, and 0 for the end marker. */
  ghost predicate AreTokenValues(g: Grammar, value: seq<nat>)
  {
    && |value| == g.ntokens > 0 && value[0] == 0
    && (forall i, j :: 0 <= i < j < |value| ==> value[i] != value[j])
    && (forall i :: 0 <= i < |value| ==> value[i] <= LR0.MAXSHORT)
  }

  // ----- token_actions -----

  /** Among the first p actions of the row, this one is there and has not been suppressed. */
  ghost predicate LiveTo(row: seq<Action>, p: nat, x: nat, c: Code, n: nat)
  {
    exists k :: 0 <= k < p && k < |row| && row[k].suppressed == 0 && IsAction(row[k], x, c, n)
  }

  ghost predicate Live(row: seq<Action>, x: nat, c: Code, n: nat) { LiveTo(row, |row|, x, c, n) }

  /** What token_actions needs of a row: symbols are tokens, numbers are not 0, and of the
      unsuppressed actions no two have the same symbol. */
  predicate RowOk(row: seq<Action>, ntokens: nat)
  {
    && (forall k :: 0 <= k < |row| ==> row[k].symbol < ntokens && row[k].number > 0)
    && (forall p, q :: 0 <= p < q < |row| && row[p].symbol == row[q].symbol ==>
         row[p].suppressed != 0 || row[q].suppressed != 0)
  }

  /** The cells lo..lo + ntokens hold the unsuppressed actions of one kind, 0 for none; skip is
      a number that is left out. */
  ghost predicate Half(cells: seq<nat>, lo: nat, row: seq<Action>, p: nat, ntokens: nat, c: Code, skip: nat)
    requires lo + ntokens <= |cells|
  {
    forall j: nat, n: nat :: j < ntokens && n > 0 ==> (cells[lo + j] == n <==> LiveTo(row, p, j, c, n) && n != skip)
  }

  /** The array actionrow: token j's shift at j, its reduction, unless the default, at ntokens + j. */
  ghost predicate Spread(cells: seq<nat>, row: seq<Action>, p: nat, ntokens: nat, d: nat)
    requires |cells| == 2 * ntokens
  {
    Half(cells, 0, row, p, ntokens, SHIFT, 0) && Half(cells, ntokens, row, p, ntokens, REDUCE, d)
  }

  ghost function NonZero(cells: seq<nat>): nat
  {
    if cells == [] then 0 else NonZero(cells[..|cells| - 1]) + if cells[|cells| - 1] != 0 then 1 else 0
  }

  lemma {:induction false} NonZeroSet(cells: seq<nat>, i: nat, n: nat)
    requires i < |cells| && cells[i] == 0 && n != 0
    ensures NonZero(cells[i := n]) == NonZero(cells) + 1
  {
    var last := |cells| - 1;
    if i < last {
      NonZeroSet(cells[..last], i, n);
      assert cells[i := n][..last] == cells[..last][i := n];
    } else {
      assert cells[i := n][..last] == cells[..last];
    }
  }

  lemma {:induction false} AllZero(cells: seq<nat>)
    requires forall k :: 0 <= k < |cells| ==> cells[k] == 0
    ensures NonZero(cells) == 0
  {
    if cells != [] { AllZero(cells[..|cells| - 1]); }
  }

  lemma LiveStep(row: seq<Action>, p: nat, x: nat, c: Code, n: nat)
    requires p < |row|
    ensures LiveTo(row, p + 1, x, c, n) <==>
              LiveTo(row, p, x, c, n) || (row[p].suppressed == 0 && IsAction(row[p], x, c, n))
  {
    var next := p + 1;
    if LiveTo(row, p, x, c, n) {
      var k :| 0 <= k < p && k < |row| && row[k].suppressed == 0 && IsAction(row[k], x, c, n);
      assert k < next;
    }
  }

  /** Where action p goes, if anywhere. */
  function Cell(row: seq<Action>, p: nat, ntokens: nat, d: nat): (at: int)
    requires p < |row|
  {
    if row[p].suppressed != 0 then -1
    else if row[p].code == SHIFT then row[p].symbol
    else if row[p].number != d then row[p].symbol + ntokens
    else -1
  }

  /** An action that does not go into this half. */
  lemma HalfStays(cells: seq<nat>, cells': seq<nat>, lo: nat, row: seq<Action>, p: nat, ntokens: nat, c: Code,
                  skip: nat)
    requires lo + ntokens <= |cells| == |cells'| && p < |row| && Half(cells, lo, row, p, ntokens, c, skip)
    requires forall k :: lo <= k < lo + ntokens ==> cells'[k] == cells[k]
    requires row[p].suppressed != 0 || row[p].code != c || row[p].number == skip
    ensures Half(cells', lo, row, p + 1, ntokens, c, skip)
  {
    var next := p + 1;
    forall j: nat, n: nat | j < ntokens && n > 0
      ensures cells'[lo + j] == n <==> LiveTo(row, next, j, c, n) && n != skip
    {
      LiveStep(row, p, j, c, n);
      hide LiveTo;
      assert cells'[lo + j] == cells[lo + j];
      assert cells[lo + j] == n <==> LiveTo(row, p, j, c, n) && n != skip;
    }
  }

  /** An action that does. */
  lemma HalfSet(cells: seq<nat>, lo: nat, row: seq<Action>, p: nat, ntokens: nat, c: Code, skip: nat)
    requires lo + ntokens <= |cells| && p < |row| && RowOk(row, ntokens) && Half(cells, lo, row, p, ntokens, c, skip)
    requires row[p].suppressed == 0 && row[p].code == c && row[p].number != skip
    ensures row[p].symbol < ntokens && cells[lo + row[p].symbol] == 0
    ensures Half(cells[lo + row[p].symbol := row[p].number], lo, row, p + 1, ntokens, c, skip)
  {
    var x, next := row[p].symbol, p + 1;
    forall n: nat ensures !LiveTo(row, p, x, c, n) {}
    var held := cells[lo + x];
    assert held > 0 ==> LiveTo(row, p, x, c, held);
    var cells' := cells[lo + x := row[p].number];
    forall j: nat, n: nat | j < ntokens && n > 0
      ensures cells'[lo + j] == n <==> LiveTo(row, next, j, c, n) && n != skip
    {
      LiveStep(row, p, j, c, n);
      hide LiveTo;
      if j == x {
        assert cells'[lo + j] == row[p].number;
        assert LiveTo(row, next, j, c, n) <==> n == row[p].number;
      } else {
        assert cells'[lo + j] == cells[lo + j];
        assert cells[lo + j] == n <==> LiveTo(row, p, j, c, n) && n != skip;
      }
    }
  }

  lemma SpreadStep(cells: seq<nat>, row: seq<Action>, p: nat, ntokens: nat, d: nat)
    requires |cells| == 2 * ntokens && p < |row| && RowOk(row, ntokens) && Spread(cells, row, p, ntokens, d)
    ensures var at := Cell(row, p, ntokens, d);
            if at < 0 then Spread(cells, row, p + 1, ntokens, d)
            else at < |cells| && cells[at] == 0 && Spread(cells[at := row[p].number], row, p + 1, ntokens, d)
  {
    hide Half;
    var at := Cell(row, p, ntokens, d);
    var cells' := if 0 <= at < |cells| then cells[at := row[p].number] else cells;
    if row[p].suppressed == 0 && row[p].code == SHIFT {
      HalfSet(cells, 0, row, p, ntokens, SHIFT, 0);
    } else {
      HalfStays(cells, cells', 0, row, p, ntokens, SHIFT, 0);
    }
    if row[p].suppressed == 0 && row[p].code == REDUCE && row[p].number != d {
      HalfSet(cells, ntokens, row, p, ntokens, REDUCE, d);
    } else {
      HalfStays(cells, cells', ntokens, row, p, ntokens, REDUCE, d);
    }
  }

  /** Shifts and reductions have been spread over the array, and counted. */
  ghost predicate Counted(cells: seq<nat>, row: seq<Action>, p: nat, ntokens: nat, d: nat, shiftcount: nat,
                          reducecount: nat)
  {
    && |cells| == 2 * ntokens && Spread(cells, row, p, ntokens, d)
    && shiftcount == NonZero(cells[..ntokens]) && reducecount == NonZero(cells[ntokens..])
  }

  lemma CountedStep(cells: seq<nat>, row: seq<Action>, p: nat, ntokens: nat, d: nat, shiftcount: nat, reducecount: nat)
    requires p < |row| && RowOk(row, ntokens) && Counted(cells, row, p, ntokens, d, shiftcount, reducecount)
    ensures var at := Cell(row, p, ntokens, d);
            && at < |cells|
            && (at < 0 ==> Counted(cells, row, p + 1, ntokens, d, shiftcount, reducecount))
            && (0 <= at && row[p].code == SHIFT ==>
                 Counted(cells[at := row[p].number], row, p + 1, ntokens, d, shiftcount + 1, reducecount))
            && (0 <= at && row[p].code == REDUCE ==>
                 Counted(cells[at := row[p].number], row, p + 1, ntokens, d, shiftcount, reducecount + 1))
  {
    SpreadStep(cells, row, p, ntokens, d);
    hide Spread;
    var at := Cell(row, p, ntokens, d);
    if at >= 0 {
      var n := row[p].number;
      if row[p].code == SHIFT {
        NonZeroSet(cells[..ntokens], at, n);
        assert cells[at := n][..ntokens] == cells[..ntokens][at := n];
        assert cells[at := n][ntokens..] == cells[ntokens..];
      } else {
        NonZeroSet(cells[ntokens..], at - ntokens, n);
        assert cells[at := n][ntokens..] == cells[ntokens..][at - ntokens := n];
        assert cells[at := n][..ntokens] == cells[..ntokens];
      }
    }
  }

  /** Some token numbered x has the shift to y. */
  ghost predicate ShiftEntry(row: seq<Action>, value: seq<nat>, x: int, y: int)
  {
    exists j: nat, n: nat :: j < |value| && value[j] == x && n == y && Live(row, j, SHIFT, n)
  }

  /** Some token numbered x has the reduction by rule y + 2, which is not the default. */
  ghost predicate ReduceEntry(row: seq<Action>, value: seq<nat>, d: nat, x: int, y: int)
  {
    exists j: nat, n: nat :: j < |value| && value[j] == x && n == y + 2 && n != d && Live(row, j, REDUCE, n)
  }

  /** The keys come in the order of their tokens. */
  ghost predicate InTokenOrder(from: seq<nat>, value: seq<nat>)
  {
    forall a, b, i, j ::
      0 <= a < b < |from| && 0 <= i < |value| && 0 <= j < |value| && value[i] == from[a] && value[j] == from[b] ==>
          i < j
  }

  ghost predicate IsRowVector(v: Vector, value: seq<nat>)
  {
    v.HasWidth() && InTokenOrder(v.from, value)
  }

  ghost predicate IsShiftVector(v: Vector, row: seq<Action>, value: seq<nat>)
  {
    v.Valid() && IsRowVector(v, value) && forall x, y :: v.Entry(x, y) <==> ShiftEntry(row, value, x, y)
  }

  ghost predicate IsReduceVector(v: Vector, row: seq<Action>, value: seq<nat>, d: nat)
  {
    v.Valid() && IsRowVector(v, value) && forall x, y :: v.Entry(x, y) <==> ReduceEntry(row, value, d, x, y)
  }

  /** Some of the cells lo..lo + n stands for the token numbered x and holds y + less. */
  ghost predicate CellEntry(cells: seq<nat>, value: seq<nat>, n: nat, less: nat, x: int, y: int)
  {
    exists j :: 0 <= j < n && j < |cells| && j < |value| && value[j] == x && cells[j] != 0 && cells[j] == y + less
  }

  ghost predicate Collected(v: Vector, cells: seq<nat>, value: seq<nat>, n: nat, less: nat)
  {
    && v.Valid() && n <= |cells| && |v.from| == NonZero(cells[..n])
    && (forall k :: 0 <= k < |v.from| ==> v.from[k] in value[..if n <= |value| then n else |value|])
    && (forall x, y :: v.Entry(x, y) <==> CellEntry(cells, value, n, less, x, y))
  }

  lemma CollectStep(v: Vector, cells: seq<nat>, value: seq<nat>, n: nat, less: nat)
    requires n < |cells| == |value| && (forall i, j :: 0 <= i < j < |value| ==> value[i] != value[j])
    requires Collected(v, cells, value, n, less)
    ensures cells[n] == 0 ==> Collected(v, cells, value, n + 1, less)
    ensures cells[n] != 0 ==>
              Collected(Vector(v.from + [value[n]], v.to + [cells[n] - less], v.width), cells, value, n + 1, less)
  {
    assert cells[..n + 1][..n] == cells[..n] && value[..n + 1] == value[..n] + [value[n]];
    var next := n + 1;
    var v' := if cells[n] == 0 then v else Vector(v.from + [value[n]], v.to + [cells[n] - less], v.width);
    forall x, y ensures v'.Entry(x, y) <==> CellEntry(cells, value, next, less, x, y) {
      EntryStep(v, cells, value, n, less, x, y);
    }
  }

  lemma EntryStep(v: Vector, cells: seq<nat>, value: seq<nat>, n: nat, less: nat, x: int, y: int)
    requires n < |cells| == |value| && v.Valid() && (v.Entry(x, y) <==> CellEntry(cells, value, n, less, x, y))
    ensures var v' := if cells[n] == 0 then v else Vector(v.from + [value[n]], v.to + [cells[n] - less], v.width);
            v'.Entry(x, y) <==> CellEntry(cells, value, n + 1, less, x, y)
  {
    var next := n + 1;
    if CellEntry(cells, value, n, less, x, y) {
      var j :| 0 <= j < n && j < |cells| && j < |value| && value[j] == x && cells[j] != 0 && cells[j] == y + less;
      assert j < next;
    }
    if cells[n] != 0 {
      var from, to := v.from + [value[n]], v.to + [cells[n] - less];
      var v' := Vector(from, to, v.width);
      assert v'.from == from && v'.to == to;
      if v.Entry(x, y) {
        var k :| 0 <= k < |v.from| && k < |v.to| && v.from[k] == x && v.to[k] == y;
        assert from[k] == x && to[k] == y;
      }
      if value[n] == x && cells[n] == y + less { assert from[|v.from|] == x && to[|v.from|] == y; }
      if v'.Entry(x, y) {
        var k :| 0 <= k < |from| && k < |to| && from[k] == x && to[k] == y;
        assert k < |v.from| ==> v.from[k] == x && v.to[k] == y;
      }
    }
  }

  lemma OrderStep(from: seq<nat>, value: seq<nat>, n: nat)
    requires n < |value| && (forall i, j :: 0 <= i < j < |value| ==> value[i] != value[j])
    requires InTokenOrder(from, value) && forall k :: 0 <= k < |from| ==> from[k] in value[..n]
    ensures InTokenOrder(from + [value[n]], value)
  {
    forall k | 0 <= k < |from| ensures exists i :: 0 <= i < n && value[i] == from[k] {
      var i :| 0 <= i < n && value[..n][i] == from[k];
      assert value[i] == from[k];
    }
  }

  lemma SpanStep(from: seq<nat>, hi: nat, lo: nat, x: nat)
    requires if from == [] then lo == LR0.MAXSHORT && hi == 0 && x <= LR0.MAXSHORT else IsSpan(from, hi, lo)
    ensures IsSpan(from + [x], if hi < x then x else hi, if lo > x then x else lo)
  {
    var more := from + [x];
    assert more[|from|] == x && forall k :: 0 <= k < |from| ==> more[k] == from[k];
  }

  /** The non-zero ones among the cells lo..lo + |value|, as a vector; its width is the spread
      of the token numbers in it. */
  method Collect(actionrow: array<nat>, lo: nat, value: seq<nat>, less: nat, count: nat) returns (v: Vector)
    requires lo + |value| <= actionrow.Length && (forall i, j :: 0 <= i < j < |value| ==> value[i] != value[j])
    requires forall i :: 0 <= i < |value| ==> value[i] <= LR0.MAXSHORT
    requires count == NonZero(actionrow[lo..lo + |value|])
    ensures Collected(v, actionrow[lo..lo + |value|], value, |value|, less)
    ensures IsRowVector(v, value)
  {
    hide Collected, IsSpan, InTokenOrder, CollectedTo, IsRowVector, NonZero;
    v := EMPTY;
    ghost var cells := actionrow[lo..lo + |value|];
    NothingCollected(cells, value, less);
    assert cells[..|value|] == cells;
    if count == 0 {
      CollectedNone(cells, value, less);
      return;
    }
    var min, max: nat := LR0.MAXSHORT, 0;
    for j := 0 to |value|
      invariant CollectedTo(v, cells, value, j, less, max, min) && v.width == 0
    {
      CollectNext(v, cells, value, j, less, max, min);
      assert cells[j] == actionrow[lo + j];
      if actionrow[lo + j] != 0 {
        if min > value[j] {
          min := value[j];
        }
        if max < value[j] {
          max := value[j];
        }
        v := Vector(v.from + [value[j]], v.to + [actionrow[lo + j] - less], 0);
      }
    }
    WidthSet(v, cells, value, less, max, min);
    v := Vector(v.from, v.to, max - min + 1);
  }

  /** What the loop over the first n cells has collected. */
  ghost predicate CollectedTo(v: Vector, cells: seq<nat>, value: seq<nat>, n: nat, less: nat, hi: nat, lo: nat)
  {
    && Collected(v, cells, value, n, less) && InTokenOrder(v.from, value)
    && if v.from == [] then lo == LR0.MAXSHORT && hi == 0 else IsSpan(v.from, hi, lo)
  }

  lemma CollectNext(v: Vector, cells: seq<nat>, value: seq<nat>, n: nat, less: nat, hi: nat, lo: nat)
    requires n < |cells| == |value| && (forall i, j :: 0 <= i < j < |value| ==> value[i] != value[j])
    requires value[n] <= LR0.MAXSHORT && CollectedTo(v, cells, value, n, less, hi, lo)
    ensures cells[n] == 0 ==> CollectedTo(v, cells, value, n + 1, less, hi, lo)
    ensures cells[n] != 0 ==>
              CollectedTo(Vector(v.from + [value[n]], v.to + [cells[n] - less], v.width), cells, value, n + 1, less,
                          if hi < value[n] then value[n] else hi, if lo > value[n] then value[n] else lo)
  {
    CollectStep(v, cells, value, n, less);
    OrderStep(v.from, value, n);
    SpanStep(v.from, hi, lo, value[n]);
    hide Collected, IsSpan, InTokenOrder;
  }

  lemma WidthSet(v: Vector, cells: seq<nat>, value: seq<nat>, less: nat, hi: nat, lo: nat)
    requires CollectedTo(v, cells, value, |value|, less, hi, lo) && |cells| == |value| && NonZero(cells) > 0
    ensures var w := Vector(v.from, v.to, hi as int - lo as int + 1);
            IsRowVector(w, value) && Collected(w, cells, value, |value|, less)
  {
    assert cells[..|value|] == cells;
    var w := Vector(v.from, v.to, hi as int - lo as int + 1);
    assert forall x, y :: w.Entry(x, y) <==> v.Entry(x, y);
  }

  lemma NothingCollected(cells: seq<nat>, value: seq<nat>, less: nat)
    ensures CollectedTo(EMPTY, cells, value, 0, less, 0, LR0.MAXSHORT)
  {
    assert cells[..0] == [];
  }

  lemma CollectedNone(cells: seq<nat>, value: seq<nat>, less: nat)
    requires |cells| == |value| && NonZero(cells) == 0
    ensures Collected(EMPTY, cells, value, |value|, less) && IsRowVector(EMPTY, value)
  {
    assert cells[..|value|] == cells;
    AllAreZero(cells);
  }

  lemma {:induction false} AllAreZero(cells: seq<nat>)
    requires NonZero(cells) == 0
    ensures forall k :: 0 <= k < |cells| ==> cells[k] == 0
  {
    if cells != [] { AllAreZero(cells[..|cells| - 1]); }
  }

  /** token_actions, for one state. */
  method TokenActions(row: seq<Action>, d: nat, value: seq<nat>) returns (shifts: Vector, reduces: Vector)
    requires RowOk(row, |value|) && (forall i, j :: 0 <= i < j < |value| ==> value[i] != value[j])
    requires forall i :: 0 <= i < |value| ==> value[i] <= LR0.MAXSHORT
    ensures IsShiftVector(shifts, row, value) && IsReduceVector(reduces, row, value, d)
  {
    hide RowOk, Spread, Collected, IsShiftVector, IsReduceVector, IsRowVector;
    var ntokens := |value|;
    var actionrow, shiftcount, reducecount := SpreadRow(row, d, ntokens);
    ghost var cells := actionrow[..];
    assert cells[..ntokens] == actionrow[0..0 + ntokens] && cells[ntokens..] == actionrow[ntokens..ntokens + ntokens];
    shifts := Collect(actionrow, 0, value, 0, shiftcount);
    reduces := Collect(actionrow, ntokens, value, 2, reducecount);
    ShiftsCollected(cells, row, value, d, shifts);
    ReducesCollected(cells, row, value, d, reduces);
  }

  /** The loop over the row's actions. */
  method SpreadRow(row: seq<Action>, d: nat, ntokens: nat)
    returns (actionrow: array<nat>, shiftcount: nat, reducecount: nat)
    requires RowOk(row, ntokens)
    ensures fresh(actionrow) && Counted(actionrow[..], row, |row|, ntokens, d, shiftcount, reducecount)
  {
    hide RowOk, Spread;
    actionrow := new nat[2 * ntokens](_ => 0);
    shiftcount, reducecount := 0, 0;
    NothingCounted(actionrow[..], row, ntokens, d);
    for p := 0 to |row|
      invariant Counted(actionrow[..], row, p, ntokens, d, shiftcount, reducecount)
    {
      ghost var was := actionrow[..];
      CountedStep(was, row, p, ntokens, d, shiftcount, reducecount);
      hide Counted;
      if row[p].suppressed == 0 {
        if row[p].code == SHIFT {
          shiftcount := shiftcount + 1;
          actionrow[row[p].symbol] := row[p].number;
          assert actionrow[..] == was[row[p].symbol := row[p].number];
        } else if row[p].code == REDUCE && row[p].number != d {
          reducecount := reducecount + 1;
          actionrow[row[p].symbol + ntokens] := row[p].number;
          assert actionrow[..] == was[row[p].symbol + ntokens := row[p].number];
        }
      }
    }
  }

  lemma NothingCounted(cells: seq<nat>, row: seq<Action>, ntokens: nat, d: nat)
    requires |cells| == 2 * ntokens && forall k :: 0 <= k < |cells| ==> cells[k] == 0
    ensures Counted(cells, row, 0, ntokens, d, 0, 0)
  {
    AllZero(cells[..ntokens]);
    AllZero(cells[ntokens..]);
  }

  lemma ShiftsCollected(cells: seq<nat>, row: seq<Action>, value: seq<nat>, d: nat, v: Vector)
    requires |cells| == 2 * |value| && Spread(cells, row, |row|, |value|, d) &&
             Collected(v, cells[..|value|], value, |value|, 0)
    requires RowOk(row, |value|) && IsRowVector(v, value)
    ensures IsShiftVector(v, row, value)
  {
    hide IsRowVector;
    var front := cells[..|value|];
    forall x, y ensures v.Entry(x, y) <==> ShiftEntry(row, value, x, y) {
      if CellEntry(front, value, |value|, 0, x, y) {
        var j: nat :| j < |value| && value[j] == x && front[j] != 0 && front[j] == y;
        assert cells[0 + j] == front[j];
        assert Live(row, j, SHIFT, cells[0 + j]);
      }
      if ShiftEntry(row, value, x, y) {
        var j: nat, n: nat :| j < |value| && value[j] == x && n == y && Live(row, j, SHIFT, n);
        assert LiveTo(row, |row|, j, SHIFT, n) && n > 0;
        assert cells[0 + j] == front[j] == y + 0;
      }
    }
  }

  lemma ReducesCollected(cells: seq<nat>, row: seq<Action>, value: seq<nat>, d: nat, v: Vector)
    requires |cells| == 2 * |value| && Spread(cells, row, |row|, |value|, d) &&
             Collected(v, cells[|value|..], value, |value|, 2)
    requires RowOk(row, |value|) && IsRowVector(v, value)
    ensures IsReduceVector(v, row, value, d)
  {
    hide IsRowVector;
    var back := cells[|value|..];
    forall x, y ensures v.Entry(x, y) <==> ReduceEntry(row, value, d, x, y) {
      if CellEntry(back, value, |value|, 2, x, y) {
        var j: nat :| j < |value| && value[j] == x && back[j] != 0 && back[j] == y + 2;
        assert cells[|value| + j] == back[j];
        assert Live(row, j, REDUCE, cells[|value| + j]);
      }
      if ReduceEntry(row, value, d, x, y) {
        var j: nat, n: nat :| j < |value| && value[j] == x && n == y + 2 && n != d && Live(row, j, REDUCE, n);
        assert LiveTo(row, |row|, j, REDUCE, n) && n > 0;
        assert cells[|value| + j] == back[j] == y + 2;
      }
    }
  }

  // ----- default_goto -----

  ghost function CountTo(to: seq<nat>, m: nat, n: nat, t: nat): nat
    requires m <= n <= |to|
    decreases n
  {
    if n == m then 0 else CountTo(to, m, n - 1, t) + if to[n - 1] == t then 1 else 0
  }

  lemma {:induction false} CountFinds(to: seq<nat>, m: nat, n: nat, t: nat)
    requires m <= n <= |to|
    ensures CountTo(to, m, n, t) > 0 <==> exists k :: m <= k < n && to[k] == t
    decreases n
  {
    if m < n { CountFinds(to, m, n - 1, t); }
  }

  /** 0 when the variable has no gotos; else the target that most of them have, and the least
      of these when there are several. */
  ghost predicate IsDefaultGoto(to: seq<nat>, m: nat, n: nat, d: nat)
    requires m <= n <= |to|
  {
    if m == n then d == 0
    else
      && (exists k :: m <= k < n && to[k] == d)
      && (forall t: nat :: CountTo(to, m, n, t) <= CountTo(to, m, n, d))
      && (forall t: nat :: t < d ==> CountTo(to, m, n, t) < CountTo(to, m, n, d))
  }

  method DefaultGoto(to: seq<nat>, m: nat, n: nat, nstates: nat) returns (d: nat)
    requires m <= n <= |to| && forall k :: m <= k < n ==> to[k] < nstates
    ensures IsDefaultGoto(to, m, n, d)
  {
    if m == n {
      return 0;
    }
    var state_count := new nat[nstates](_ => 0);
    for i := m to n
      invariant forall t :: 0 <= t < nstates ==> state_count[t] == CountTo(to, m, i, t)
    {
      state_count[to[i]] := state_count[to[i]] + 1;
    }
    var max := 0;
    d := 0;
    for i := 0 to nstates
      invariant forall t :: 0 <= t < i ==> state_count[t] <= max
      invariant max > 0 ==> d < i && state_count[d] == max && forall t :: 0 <= t < d ==> state_count[t] < max
    {
      if state_count[i] > max {
        max := state_count[i];
        d := i;
      }
    }
    CountFinds(to, m, n, to[m]);
    assert state_count[to[m]] > 0;
    forall t: nat ensures CountTo(to, m, n, t) <= CountTo(to, m, n, d) {
      if t >= nstates { CountFinds(to, m, n, t); }
    }
    CountFinds(to, m, n, d);
  }

  // ----- save_column -----

  /** One of the gotos m..n leaves x and arrives in y. */
  ghost predicate GotoEntry(from: seq<nat>, to: seq<nat>, m: nat, n: nat, x: int, y: int)
    requires m <= n <= |from| == |to|
  {
    exists k :: m <= k < n && from[k] == x && to[k] == y
  }

  ghost predicate IsColumn(v: Vector, from: seq<nat>, to: seq<nat>, m: nat, n: nat, d: nat)
    requires m <= n <= |from| == |to|
  {
    && v.Valid() && (forall j, k :: 0 <= j < k < |v.from| ==> v.from[j] < v.from[k])
    && (forall k :: 0 <= k < |v.from| ==> Listed(from, m, n, v.from[k]))
    && (forall x, y :: v.Entry(x, y) <==> y != d && GotoEntry(from, to, m, n, x, y))
  }

  method SaveColumn(from: seq<nat>, to: seq<nat>, m: nat, n: nat, d: nat) returns (v: Vector)
    requires m <= n <= |from| == |to| && forall j, k :: m <= j < k < n ==> from[j] < from[k]
    ensures IsColumn(v, from, to, m, n, d) && v.HasWidth()
  {
    var count := 0;
    for i := m to n
      invariant count > 0 <==> exists k :: m <= k < i && to[k] != d
      invariant count >= 0
    {
      if to[i] != d {
        count := count + 1;
      }
    }
    v := EMPTY;
    if count == 0 {
      return;
    }
    for i := m to n
      invariant IsColumn(v, from, to, m, i, d)
    {
      ColumnStep(v, from, to, m, i, d);
      if to[i] != d {
        v := Vector(v.from + [from[i]], v.to + [to[i]], v.width);
      }
    }
    assert v.from != [] by {
      var k :| m <= k < n && to[k] != d;
      assert GotoEntry(from, to, m, n, from[k], to[k]);
      assert v.Entry(from[k], to[k]);
    }
    ghost var w := v;
    v := Vector(v.from, v.to, v.from[|v.from| - 1] as int - v.from[0] as int + 1);
    ColumnWidth(v);
    assert forall x, y :: v.Entry(x, y) <==> w.Entry(x, y);
  }

  /** The keys ascend, so that the last and the first give the width. */
  lemma ColumnWidth(v: Vector)
    requires v.from != [] && v.width == v.from[|v.from| - 1] as int - v.from[0] as int + 1
    requires forall j, k :: 0 <= j < k < |v.from| ==> v.from[j] < v.from[k]
    ensures v.HasWidth()
  {
    assert IsSpan(v.from, v.from[|v.from| - 1], v.from[0]);
  }

  lemma ColumnStep(v: Vector, from: seq<nat>, to: seq<nat>, m: nat, i: nat, d: nat)
    requires m <= i < |from| == |to| && IsColumn(v, from, to, m, i, d)
    requires forall k :: m <= k < i ==> from[k] < from[i]
    ensures to[i] == d ==> IsColumn(v, from, to, m, i + 1, d)
    ensures to[i] != d ==> IsColumn(Vector(v.from + [from[i]], v.to + [to[i]], v.width), from, to, m, i + 1, d)
  {
    var next := i + 1;
    forall x, y ensures GotoEntry(from, to, m, next, x, y) <==>
        GotoEntry(from, to, m, i, x, y) || (from[i] == x && to[i] == y) {
      if GotoEntry(from, to, m, i, x, y) {
        var k :| m <= k < i && from[k] == x && to[k] == y;
        assert k < next;
      }
    }
    forall k | 0 <= k < |v.from| ensures Listed(from, m, next, v.from[k]) && v.from[k] < from[i] {
      assert Listed(from, m, i, v.from[k]);
      var j :| m <= j < i && from[j] == v.from[k];
      assert j < next;
    }
    if to[i] != d {
      var v' := Vector(v.from + [from[i]], v.to + [to[i]], v.width);
      assert Listed(from, m, next, from[i]);
      forall x, y ensures v'.Entry(x, y) <==> v.Entry(x, y) || (from[i] == x && to[i] == y) {
        AppendedEntry(v, from[i], to[i], x, y);
      }
    }
  }

  lemma AppendedEntry(v: Vector, a: nat, b: int, x: int, y: int)
    requires v.Valid()
    ensures Vector(v.from + [a], v.to + [b], v.width).Entry(x, y) <==> v.Entry(x, y) || (a == x && b == y)
  {
    var from, to := v.from + [a], v.to + [b];
    var v' := Vector(from, to, v.width);
    assert v'.from == from && v'.to == to;
    if v.Entry(x, y) {
      var k :| 0 <= k < |v.from| && k < |v.to| && v.from[k] == x && v.to[k] == y;
      assert from[k] == x && to[k] == y;
    }
    if a == x && b == y { assert from[|v.from|] == x && to[|v.from|] == y; }
    if v'.Entry(x, y) {
      var k :| 0 <= k < |from| && k < |to| && from[k] == x && to[k] == y;
      assert k < |v.from| ==> v.from[k] == x && v.to[k] == y;
    }
  }
}
