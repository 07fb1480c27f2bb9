/** matpic/misc.c: the evaluation of a constant expression by passes over flat arrays of
    operands and operators, one pass for each level of precedence. */
module Calculator {

  // The operators, numbered as in the enumeration ops.
  const OP_NOP := 0
  const OP_MUL := 1
  const OP_DIV := 2
  const OP_MOD := 3
  const OP_ADD := 4
  const OP_SUB := 5
  const OP_SHL := 6
  const OP_SHR := 7
  const OP_AND := 8
  const OP_EOR := 9
  const OP_IOR := 10
  const OP_LT := 11
  const OP_GT := 12
  const OP_LTE := 13
  const OP_GTE := 14
  const OP_EQ := 15
  const OP_NE := 16
  const OP_LAND := 17
  const OP_LOR := 18

  const CALC_MAX := 512

  predicate IsOp(op: int) { OP_MUL <= op <= OP_LOR }

  /** The levels of precedence, the tightest first. */
  function Level(op: int): nat
    requires IsOp(op)
  {
    if op <= OP_MOD then 0
    else if op <= OP_SUB then 1
    else if op <= OP_SHR then 2
    else if op == OP_AND then 3
    else if op == OP_EOR then 4
    else if op == OP_IOR then 5
    else if op <= OP_GTE then 6
    else if op <= OP_NE then 7
    else if op == OP_LAND then 8
    else 9
  }

  const LEVELS := 10

  /** signed long long. */
  const TWO63 := 0x8000_0000_0000_0000
  type Sll = x: int | -TWO63 <= x < TWO63

  function Wrap(x: int): Sll { (x + TWO63) % (2 * TWO63) - TWO63 }

  function Bit(b: bool): Sll { if b then 1 else 0 }

  /** Division toward zero, and the remainder that goes with it. */
  function Quotient(a: int, b: int): int
    requires b != 0
  {
    if (a < 0) == (b < 0) then Magnitude(a) / Magnitude(b) else -(Magnitude(a) / Magnitude(b))
  }

  function Magnitude(a: int): nat { if a < 0 then -a else a }

  function Power2(n: nat): nat { if n == 0 then 1 else 2 * Power2(n - 1) }

  function BitOp(op: int, x: bool, y: bool): bool
  {
    if op == OP_AND then x && y else if op == OP_IOR then x || y else x != y
  }

  /** The operator on the bits 0 to n of two's complement numbers, of which bit n is the sign. */
  function Bitwise(op: int, a: int, b: int, n: nat): int
    decreases n
  {
    var bit := BitOp(op, a % 2 == 1, b % 2 == 1);
    if n == 0 then if bit then -1 else 0
    else 2 * Bitwise(op, a / 2, b / 2, n - 1) + if bit then 1 else 0
  }

  /** The one quotient that is not an sll. */
  predicate Overflows(lval: Sll, rval: Sll) { lval == -TWO63 && rval == -1 }

  /** A value, or the error exit on a zero divisor, or what C leaves open: a shift by a count
      outside the width, and the division that overflows. */
  datatype Outcome = Some(value: Sll) | DivisionByZero | Undefined

  /** calc. */
  function Calc(op: int, lval: Sll, rval: Sll): Outcome
  {
    if op == OP_ADD then Some(Wrap(lval + rval))
    else if op == OP_SUB then Some(Wrap(lval - rval))
    else if op == OP_MUL then Some(Wrap(lval * rval))
    else if op == OP_DIV || op == OP_MOD then
      if rval == 0 then DivisionByZero
      else if Overflows(lval, rval) then Undefined
      else
        var q := Quotient(lval, rval);
        Some(Wrap(if op == OP_DIV then q else lval - rval * q))
    else if op == OP_AND || op == OP_IOR || op == OP_EOR then Some(Wrap(Bitwise(op, lval, rval, 63)))
    else if op == OP_SHL then if 0 <= rval < 64 then Some(Wrap(lval * Power2(rval))) else Undefined
    else if op == OP_SHR then if 0 <= rval < 64 && Power2(rval) > 0 then Some(Wrap(lval / Power2(rval))) else Undefined
    else if op == OP_LAND then Some(Bit(lval != 0 && rval != 0))
    else if op == OP_LOR then Some(Bit(lval != 0 || rval != 0))
    else if op == OP_LT then Some(Bit(lval < rval))
    else if op == OP_LTE then Some(Bit(lval <= rval))
    else if op == OP_GT then Some(Bit(lval > rval))
    else if op == OP_GTE then Some(Bit(lval >= rval))
    else if op == OP_EQ then Some(Bit(lval == rval))
    else if op == OP_NE then Some(Bit(lval != rval))
    else Some(lval)
  }

  // ----- the tree that the levels stand for -----

  datatype Expr = Operand(i: nat) | Binary(op: int, left: Expr, right: Expr)
  {
    function Value(vals: seq<Sll>): Outcome
    {
      match this
      case Operand(i) => if i < |vals| then Some(vals[i]) else Undefined
      case Binary(op, left, right) => Apply(op, left.Value(vals), right.Value(vals))
    }
  }

  /** An operand without a value leaves the whole without one. */
  function Apply(op: int, l: Outcome, r: Outcome): Outcome
  {
    if l.Undefined? || r.Undefined? then Undefined
    else if l.DivisionByZero? || r.DivisionByZero? then DivisionByZero
    else Calc(op, l.value, r.value)
  }

  /** What the outcome of a part means for the whole. */
  predicate Spoils(part: Outcome, whole: Outcome)
  {
    !whole.Some? && (part.Undefined? ==> whole.Undefined?)
  }

  predicate AreOps(ops: seq<int>) { forall k :: 0 <= k < |ops| ==> IsOp(ops[k]) }

  /** The last operator of this level among lo..hi, hi when there is none. */
  function LastAt(ops: seq<int>, lo: nat, hi: nat, level: nat): (m: nat)
    requires AreOps(ops) && lo <= hi <= |ops|
    ensures lo <= m <= hi && (m < hi ==> Level(ops[m]) == level)
    ensures forall k :: m < k < hi ==> Level(ops[k]) != level
    ensures m == hi ==> forall k :: lo <= k < hi ==> Level(ops[k]) != level
    decreases hi - lo
  {
    if lo == hi then hi
    else if Level(ops[hi - 1]) == level then hi - 1
    else
      var m := LastAt(ops, lo, hi - 1, level);
      if m == hi - 1 then hi else m
  }

  /** The operands lo..hi with the operators between them, of which only those of the first
      levels count: it splits at the last operator of the loosest of these levels, so that
      operators of one level group from the left. */
  function Tree(ops: seq<int>, lo: nat, hi: nat, levels: nat): Expr
    requires AreOps(ops) && lo <= hi <= |ops|
    decreases hi - lo, levels
  {
    if levels == 0 then Operand(lo)
    else
      var m := LastAt(ops, lo, hi, levels - 1);
      if m == hi then Tree(ops, lo, hi, levels - 1)
      else Binary(ops[m], Tree(ops, lo, m, levels), Tree(ops, m + 1, hi, levels - 1))
  }

  /** The leaves from left to right. */
  ghost function Leaves(e: Expr): seq<nat>
  {
    match e
    case Operand(i) => [i]
    case Binary(_, left, right) => Leaves(left) + Leaves(right)
  }

  /** An operator binds looser than all of its right operand, and at least as loose as its left
      one: precedence first, and then from the left. */
  ghost predicate Grouped(e: Expr)
  {
    match e
    case Operand(_) => true
    case Binary(op, left, right) =>
      && IsOp(op) && Grouped(left) && Grouped(right)
      && (left.Binary? ==> IsOp(left.op) && Level(left.op) <= Level(op))
      && (right.Binary? ==> IsOp(right.op) && Level(right.op) < Level(op))
  }

  ghost function Operators(e: Expr): seq<int>
  {
    match e
    case Operand(_) => []
    case Binary(op, left, right) => Operators(left) + [op] + Operators(right)
  }

  ghost function Range(lo: nat, hi: nat): seq<nat>
    requires lo <= hi
  {
    seq(hi + 1 - lo, k requires 0 <= k < hi + 1 - lo => lo + k)
  }

  lemma RangeJoin(lo: nat, m: nat, hi: nat)
    requires lo <= m < hi
    ensures Range(lo, hi) == Range(lo, m) + Range(m + 1, hi)
  {}

  lemma OpsJoin(ops: seq<int>, lo: nat, m: nat, hi: nat)
    requires lo <= m < hi <= |ops|
    ensures ops[lo..hi] == ops[lo..m] + [ops[m]] + ops[m + 1..hi]
  {}

  ghost predicate AllBelow(ops: seq<int>, lo: nat, hi: nat, levels: nat)
    requires AreOps(ops) && lo <= hi <= |ops|
  {
    forall k :: lo <= k < hi ==> Level(ops[k]) < levels
  }

  /** The parts of the tree: what they are, and that all their operators are of lower levels. */
  lemma TreeSplit(ops: seq<int>, lo: nat, hi: nat, levels: nat) returns (m: nat)
    requires AreOps(ops) && lo <= hi <= |ops| && levels > 0 && AllBelow(ops, lo, hi, levels)
    ensures lo <= m <= hi
    ensures m == hi ==> Tree(ops, lo, hi, levels) == Tree(ops, lo, hi, levels - 1) && AllBelow(ops, lo, hi, levels - 1)
    ensures m < hi ==>
              Tree(ops, lo, hi, levels) == Binary(ops[m], Tree(ops, lo, m, levels), Tree(ops, m + 1, hi, levels - 1))
    ensures m < hi ==>
              AllBelow(ops, lo, m, levels) && AllBelow(ops, m + 1, hi, levels - 1) && Level(ops[m]) == levels - 1
  {
    m := LastAt(ops, lo, hi, levels - 1);
    hide Level;
  }

  function LevelAt(ops: seq<int>, k: nat): nat
    requires AreOps(ops)
  {
    if k < |ops| then Level(ops[k]) else 0
  }

  lemma NoLevels(ops: seq<int>, lo: nat, hi: nat)
    requires AreOps(ops) && lo <= hi <= |ops| && AllBelow(ops, lo, hi, 0)
    ensures Leaves(Tree(ops, lo, hi, 0)) == Range(lo, hi) && Operators(Tree(ops, lo, hi, 0)) == ops[lo..hi]
  {
    var least := LevelAt(ops, lo);
    assert lo == hi;
    assert Range(lo, hi) == [lo] && ops[lo..hi] == [];
  }

  lemma {:induction false} TreeLeaves(ops: seq<int>, lo: nat, hi: nat, levels: nat)
    requires AreOps(ops) && lo <= hi <= |ops| && AllBelow(ops, lo, hi, levels)
    ensures Leaves(Tree(ops, lo, hi, levels)) == Range(lo, hi)
    ensures Operators(Tree(ops, lo, hi, levels)) == ops[lo..hi]
    decreases hi - lo, levels
  {
    hide AllBelow, AreOps, Tree, Range;
    if levels == 0 {
      NoLevels(ops, lo, hi);
    } else {
      var m := TreeSplit(ops, lo, hi, levels);
      if m == hi {
        TreeLeaves(ops, lo, hi, levels - 1);
      } else {
        TreeLeaves(ops, lo, m, levels);
        TreeLeaves(ops, m + 1, hi, levels - 1);
        RangeJoin(lo, m, hi);
        OpsJoin(ops, lo, m, hi);
      }
    }
  }

  lemma {:induction false} TreeGrouped(ops: seq<int>, lo: nat, hi: nat, levels: nat)
    requires AreOps(ops) && lo <= hi <= |ops|
    ensures var e := Tree(ops, lo, hi, levels);
            Grouped(e) && (e.Binary? ==> IsOp(e.op) && Level(e.op) < levels)
    decreases hi - lo, levels
  {
    hide Level;
    if levels > 0 {
      var m := LastAt(ops, lo, hi, levels - 1);
      if m == hi {
        TreeGrouped(ops, lo, hi, levels - 1);
      } else {
        TreeGrouped(ops, lo, m, levels);
        TreeGrouped(ops, m + 1, hi, levels - 1);
      }
    }
  }

  /** The tree is the one that precedence and grouping from the left ask for, over all the
      operands and operators in their order, and no other tree is. */
  lemma TreeIsRight(ops: seq<int>, e: Expr)
    requires AreOps(ops)
    ensures e == Tree(ops, 0, |ops|, LEVELS) <==> Grouped(e) && Leaves(e) == Range(0, |ops|) && Operators(e) == ops
  {
    var d := Tree(ops, 0, |ops|, LEVELS);
    TreeLeaves(ops, 0, |ops|, LEVELS);
    TreeGrouped(ops, 0, |ops|, LEVELS);
    assert ops[0..|ops|] == ops;
    if Grouped(e) && Leaves(e) == Range(0, |ops|) && Operators(e) == ops { GroupingIsUnique(d, e); }
  }

  /** Only one tree over given operands and operators is grouped in this way. */
  lemma {:induction false} GroupingIsUnique(d: Expr, e: Expr)
    requires Grouped(d) && Grouped(e) && Leaves(d) == Leaves(e) && Operators(d) == Operators(e)
    ensures d == e
    decreases d
  {
    Sizes(d);
    Sizes(e);
    if d.Binary? {
      SameSplit(d, e);
      GroupingIsUnique(d.left, e.left);
      GroupingIsUnique(d.right, e.right);
    }
  }

  lemma {:induction false} Sizes(e: Expr)
    ensures |Leaves(e)| == |Operators(e)| + 1
  {
    if e.Binary? { Sizes(e.left); Sizes(e.right); }
  }

  /** The root is the last of the loosest operators. */
  lemma {:induction false} RootIsLoosest(e: Expr, bound: nat)
    requires Grouped(e) && (e.Binary? ==> IsOp(e.op) && Level(e.op) <= bound)
    ensures forall k :: 0 <= k < |Operators(e)| ==> IsOp(Operators(e)[k]) && Level(Operators(e)[k]) <= bound
    decreases e
  {
    if e.Binary? {
      RootIsLoosest(e.left, bound);
      RootIsLoosest(e.right, bound);
    }
  }

  lemma SameSplit(d: Expr, e: Expr)
    requires d.Binary? && Grouped(d) && Grouped(e) && Leaves(d) == Leaves(e) && Operators(d) == Operators(e)
    ensures e.Binary? && d.op == e.op
    ensures Operators(d.left) == Operators(e.left) && Operators(d.right) == Operators(e.right)
    ensures Leaves(d.left) == Leaves(e.left) && Leaves(d.right) == Leaves(e.right)
  {
    hide Level;
    Parts(d);
    assert e.Binary?;
    Parts(e);
    SplitBefore(d, e);
    SplitBefore(e, d);
  }

  /** Where the root is among the operators. */
  lemma Parts(e: Expr)
    requires e.Binary?
    ensures var m := |Operators(e.left)|;
            && m < |Operators(e)| && Operators(e)[m] == e.op && m + 1 <= |Leaves(e)|
            && Operators(e)[..m] == Operators(e.left) && Operators(e)[m + 1..] == Operators(e.right)
            && Leaves(e)[..m + 1] == Leaves(e.left) && Leaves(e)[m + 1..] == Leaves(e.right)
  {
    Sizes(e.left);
  }

  lemma SplitBefore(d: Expr, e: Expr)
    requires d.Binary? && e.Binary? && Grouped(d) && Grouped(e) && Operators(d) == Operators(e)
    ensures |Operators(d.left)| >= |Operators(e.left)|
  {
    hide Level;
    var s, m, n := Operators(d), |Operators(d.left)|, |Operators(e.left)|;
    Parts(d);
    Parts(e);
    RootIsLoosest(d, Level(d.op));
    RootIsLoosest(e, Level(e.op));
    assert Level(s[m]) == Level(s[n]);
    AfterRoot(d);
  }

  lemma AfterRoot(d: Expr)
    requires d.Binary? && Grouped(d)
    ensures forall k :: |Operators(d.left)| < k < |Operators(d)| ==>
              IsOp(Operators(d)[k]) && Level(Operators(d)[k]) < Level(d.op)
  {
    RightIsTighter(d);
    Parts(d);
    var s, m := Operators(d), |Operators(d.left)|;
    forall k | m < k < |s| ensures IsOp(s[k]) && Level(s[k]) < Level(d.op) {
      assert s[k] == Operators(d.right)[k - m - 1];
    }
  }

  lemma RightIsTighter(d: Expr)
    requires d.Binary? && Grouped(d)
    ensures forall k :: 0 <= k < |Operators(d.right)| ==>
              IsOp(Operators(d.right)[k]) && Level(Operators(d.right)[k]) < Level(d.op)
  {
    if d.right.Binary? { RootIsLoosest(d.right, Level(d.right.op)); }
  }

  // ----- one pass -----

  /** Operand s is not the right operand of an operator of the first levels. */
  predicate IsStart(ops: seq<int>, s: nat, levels: nat)
    requires AreOps(ops) && s <= |ops|
  {
    s == 0 || Level(ops[s - 1]) >= levels
  }

  /** The next operator from s on that is not of the first levels, or the end. */
  function End(ops: seq<int>, s: nat, levels: nat): (e: nat)
    requires AreOps(ops) && s <= |ops|
    ensures s <= e <= |ops| && (e < |ops| ==> Level(ops[e]) >= levels) && AllBelow(ops, s, e, levels)
    decreases |ops| - s
  {
    if s == |ops| || Level(ops[s]) >= levels then s else End(ops, s + 1, levels)
  }

  /** The value of the operands s..e by the first levels. */
  function Sub(ops: seq<int>, vals: seq<Sll>, s: nat, e: nat, levels: nat): Outcome
    requires AreOps(ops) && s <= e <= |ops|
  {
    Tree(ops, s, e, levels).Value(vals)
  }

  ghost predicate Holds(ops: seq<int>, vals: seq<Sll>, lval: seq<Sll>, s: nat, levels: nat)
    requires AreOps(ops) && s <= |ops| && s < |lval|
  {
    Sub(ops, vals, s, End(ops, s, levels), levels) == Some(lval[s])
  }

  /** The first levels have been evaluated: each stretch of operators of those levels has its
      value at its first operand. */
  ghost predicate Passed(ops: seq<int>, vals: seq<Sll>, lval: seq<Sll>, levels: nat)
    requires AreOps(ops) && |lval| > |ops|
  {
    forall s: nat :: s <= |ops| && IsStart(ops, s, levels) ==> Holds(ops, vals, lval, s, levels)
  }

  /** In the middle of the pass for a level: i is the next operator, j the start of the stretch
      that it is in. */
  ghost predicate Passing(ops: seq<int>, vals: seq<Sll>, lval: seq<Sll>, level: nat, i: nat, j: nat)
    requires AreOps(ops) && |lval| > |ops|
  {
    var next := level + 1;
    && j <= i <= |ops| && IsStart(ops, j, next) && AllBelow(ops, j, i, next)
    && Sub(ops, vals, j, End(ops, i, level), next) == Some(lval[j])
    && (forall s: nat :: j < s <= |ops| && IsStart(ops, s, level) ==> Holds(ops, vals, lval, s, level))
    && (forall s: nat :: s < j && IsStart(ops, s, next) ==> Holds(ops, vals, lval, s, next))
  }

  /** Without an operator of the next level the tree is the same. */
  lemma SameTree(ops: seq<int>, s: nat, e: nat, levels: nat)
    requires AreOps(ops) && s <= e <= |ops| && AllBelow(ops, s, e, levels)
    ensures Tree(ops, s, e, levels + 1) == Tree(ops, s, e, levels)
  {
    var m := LastAt(ops, s, e, levels);
    hide Level;
  }

  lemma PassStarts(ops: seq<int>, vals: seq<Sll>, lval: seq<Sll>, level: nat)
    requires AreOps(ops) && |lval| > |ops| && Passed(ops, vals, lval, level)
    ensures Passing(ops, vals, lval, level, 0, 0)
  {
    assert Holds(ops, vals, lval, 0, level);
    SameTree(ops, 0, End(ops, 0, level), level);
  }

  lemma EndOf(ops: seq<int>, s: nat, e: nat, levels: nat)
    requires AreOps(ops) && s <= e <= |ops| && AllBelow(ops, s, e, levels) && (e < |ops| ==> Level(ops[e]) >= levels)
    ensures End(ops, s, levels) == e
    decreases e - s
  {
    if s < e { EndOf(ops, s + 1, e, levels); }
  }

  /** An operator of a level already done. */
  lemma PassSkips(ops: seq<int>, vals: seq<Sll>, lval: seq<Sll>, level: nat, i: nat, j: nat)
    requires AreOps(ops) && |lval| > |ops| && Passing(ops, vals, lval, level, i, j) && i < |ops| &&
             Level(ops[i]) < level
    ensures Passing(ops, vals, lval, level, i + 1, j)
  {
    hide Level, Holds, Sub;
  }

  /** The tree of a stretch that goes on with an operator of this level. */
  lemma NextTree(ops: seq<int>, i: nat, j: nat, level: nat)
    requires AreOps(ops) && j <= i < |ops| && Level(ops[i]) == level && AllBelow(ops, j, i, level + 1)
    ensures var e := End(ops, i + 1, level);
            && Tree(ops, j, e, level + 1) == Binary(ops[i], Tree(ops, j, i, level + 1), Tree(ops, i + 1, e, level))
            && AllBelow(ops, j, e, level + 1)
  {
    hide Level, End, LastAt, AllBelow;
    var e := End(ops, i + 1, level);
    BelowJoin(ops, j, i, e, level);
    LastIs(ops, j, i, e, level);
  }

  lemma BelowJoin(ops: seq<int>, j: nat, i: nat, e: nat, level: nat)
    requires AreOps(ops) && j <= i < e <= |ops| && Level(ops[i]) == level
    requires AllBelow(ops, j, i, level + 1) && AllBelow(ops, i + 1, e, level)
    ensures AllBelow(ops, j, e, level + 1)
  {
    hide Level;
  }

  lemma LastIs(ops: seq<int>, j: nat, i: nat, e: nat, level: nat)
    requires AreOps(ops) && j <= i < e <= |ops| && Level(ops[i]) == level && AllBelow(ops, i + 1, e, level)
    ensures LastAt(ops, j, e, level) == i
  {
    hide Level;
    var m := LastAt(ops, j, e, level);
  }

  /** An operator of this level: it is applied to the stretch so far and to the value that
      stands at the operand after it. */
  lemma PassApplies(ops: seq<int>, vals: seq<Sll>, lval: seq<Sll>, level: nat, i: nat, j: nat)
    requires AreOps(ops) && |lval| > |ops| && Passing(ops, vals, lval, level, i, j) && i < |ops| &&
             Level(ops[i]) == level
    ensures var r := Calc(ops[i], lval[j], lval[i + 1]);
            && Sub(ops, vals, j, End(ops, i + 1, level), level + 1) == r
            && (r.Some? ==> Passing(ops, vals, lval[j := r.value], level, i + 1, j))
  {
    hide Calc, Level;
    NextTree(ops, i, j, level);
    EndOf(ops, i, i, level);
    assert IsStart(ops, i + 1, level) && Holds(ops, vals, lval, i + 1, level);
    var r := Calc(ops[i], lval[j], lval[i + 1]);
    assert Sub(ops, vals, j, End(ops, i + 1, level), level + 1) == r;
    if r.Some? {
      AllKept(ops, vals, lval, level, i, j, r.value);
    }
  }

  lemma AllKept(ops: seq<int>, vals: seq<Sll>, lval: seq<Sll>, level: nat, i: nat, j: nat, v: Sll)
    requires AreOps(ops) && |lval| > |ops| && Passing(ops, vals, lval, level, i, j) && i < |ops| &&
             Level(ops[i]) == level
    requires Sub(ops, vals, j, End(ops, i + 1, level), level + 1) == Some(v)
    ensures Passing(ops, vals, lval[j := v], level, i + 1, j)
  {
    hide Level, Sub, End;
    var lval' := lval[j := v];
    forall s: nat | j < s <= |ops| && IsStart(ops, s, level) ensures Holds(ops, vals, lval', s, level) {
      assert Holds(ops, vals, lval, s, level);
    }
    var next := level + 1;
    forall s: nat | s < j && IsStart(ops, s, next) ensures Holds(ops, vals, lval', s, next) {
      assert Holds(ops, vals, lval, s, next);
    }
  }

  /** A stretch that is followed by an operator of a later level, or by the end, is done. */
  lemma StretchDone(ops: seq<int>, vals: seq<Sll>, lval: seq<Sll>, level: nat, i: nat, j: nat)
    requires AreOps(ops) && |lval| > |ops| && Passing(ops, vals, lval, level, i, j) &&
             (i < |ops| ==> Level(ops[i]) > level)
    ensures Holds(ops, vals, lval, j, level + 1)
  {
    hide Level, Sub;
    EndOf(ops, i, i, level);
    EndOf(ops, j, i, level + 1);
  }

  /** An operator of a later level: the stretch is done, and the next one starts. */
  lemma PassMovesOn(ops: seq<int>, vals: seq<Sll>, lval: seq<Sll>, level: nat, i: nat, j: nat)
    requires AreOps(ops) && |lval| > |ops| && Passing(ops, vals, lval, level, i, j) && i < |ops| &&
             Level(ops[i]) > level
    ensures Passing(ops, vals, lval, level, i + 1, i + 1)
  {
    hide Level, End, Sub, Holds, AllBelow, IsStart;
    StretchDone(ops, vals, lval, level, i, j);
    StartsAfter(ops, i, level);
    assert Holds(ops, vals, lval, i + 1, level);
    NextHolds(ops, vals, lval, level, i + 1);
    var next := level + 1;
    forall s: nat | s < i + 1 && IsStart(ops, s, next) ensures Holds(ops, vals, lval, s, next) {
      NoStartInside(ops, j, i, s, next);
    }
  }

  lemma StartsAfter(ops: seq<int>, i: nat, level: nat)
    requires AreOps(ops) && i < |ops| && Level(ops[i]) > level
    ensures IsStart(ops, i + 1, level) && IsStart(ops, i + 1, level + 1) && AllBelow(ops, i + 1, i + 1, level + 1)
  {}

  lemma NextHolds(ops: seq<int>, vals: seq<Sll>, lval: seq<Sll>, level: nat, s: nat)
    requires AreOps(ops) && |lval| > |ops| && s <= |ops| && Holds(ops, vals, lval, s, level)
    ensures Sub(ops, vals, s, End(ops, s, level), level + 1) == Some(lval[s])
  {
    hide Level, End;
    SameTree(ops, s, End(ops, s, level), level);
  }

  lemma NoStartInside(ops: seq<int>, j: nat, i: nat, s: nat, levels: nat)
    requires AreOps(ops) && j <= i <= |ops| && AllBelow(ops, j, i, levels) && s <= i && IsStart(ops, s, levels)
    ensures s <= j
  {
    if s > 0 {
      var l := LevelAt(ops, s - 1);
    }
  }

  lemma PassEnds(ops: seq<int>, vals: seq<Sll>, lval: seq<Sll>, level: nat, j: nat)
    requires AreOps(ops) && |lval| > |ops| && Passing(ops, vals, lval, level, |ops|, j)
    ensures Passed(ops, vals, lval, level + 1)
  {
    StretchDone(ops, vals, lval, level, |ops|, j);
    hide Level, End, Sub, IsStart, Holds;
    var next := level + 1;
    forall s: nat | s <= |ops| && IsStart(ops, s, next) ensures Holds(ops, vals, lval, s, next) {
      NoStartInside(ops, j, |ops|, s, next);
    }
  }

  /** How a pass ends: at its end, by the error exit, or on what C leaves open. */
  datatype Stop = Finished | ErrorExit | Unspecified

  /** Where a pass stops, the whole expression has no value; and where it stops at what C
      leaves open, the whole expression is undefined. */
  predicate StopsAs(stop: Stop, whole: Outcome)
  {
    !whole.Some? && (stop.Unspecified? ==> whole.Undefined?)
  }

  /** The range of operators that a pass is for. */
  ghost predicate IsRange(pre_min: int, pre_max: int, level: nat)
  {
    forall op :: IsOp(op) ==>
      (pre_min <= op <= pre_max <==> Level(op) == level) && (op > pre_max <==> Level(op) > level)
  }

  /** _calc.  It stops when calc exits, and also, with Undefined, where C leaves the value open. */
  method CalcPass(lval: array<Sll>, ops: seq<int>, pre_min: int, pre_max: int, ghost level: nat, ghost vals: seq<Sll>)
    returns (stop: Stop)
    requires AreOps(ops) && lval.Length > |ops| && IsRange(pre_min, pre_max, level) && level < LEVELS
    requires Passed(ops, vals, lval[..], level)
    modifies lval
    ensures if stop.Finished? then Passed(ops, vals, lval[..], level + 1)
            else StopsAs(stop, Sub(ops, vals, 0, |ops|, LEVELS))
  {
    hide Passed, Passing, Calc, Sub, Level, End;
    var j := 0;
    PassStarts(ops, vals, lval[..], level);
    for i := 0 to |ops|
      invariant j <= i && Passing(ops, vals, lval[..], level, i, j)
    {
      ghost var was := lval[..];
      assert IsOp(ops[i]);
      if pre_min <= ops[i] <= pre_max {
        PassApplies(ops, vals, was, level, i, j);
        var r := Calc(ops[i], lval[j], lval[i + 1]);
        if !r.Some? {
          NoValue(ops, vals, was, level, i, j);
          return if r.Undefined? then Unspecified else ErrorExit;
        }
        lval[j] := r.value;
        assert lval[..] == was[j := r.value];
      } else if ops[i] > pre_max {
        PassMovesOn(ops, vals, was, level, i, j);
        j := i + 1;
      } else {
        PassSkips(ops, vals, was, level, i, j);
      }
    }
    PassEnds(ops, vals, lval[..], level, j);
    stop := Finished;
  }

  // ----- failures -----

  /** A beginning of a stretch that has no value leaves the whole stretch without one. */
  lemma {:induction false} PrefixNone(ops: seq<int>, vals: seq<Sll>, j: nat, e: nat, hi: nat, levels: nat)
    requires AreOps(ops) && j <= e <= hi <= |ops| && levels > 0 && (e == hi || Level(ops[e]) == levels - 1)
    requires AllBelow(ops, j, hi, levels) && !Sub(ops, vals, j, e, levels).Some?
    ensures Spoils(Sub(ops, vals, j, e, levels), Sub(ops, vals, j, hi, levels))
    decreases hi
  {
    hide Level, Calc;
    if e < hi {
      var m := LastAt(ops, j, hi, levels - 1);
      assert e <= m < hi;
      PrefixNone(ops, vals, j, e, m, levels);
    }
  }

  /** A stretch without a value leaves the whole expression without one. */
  lemma {:induction false} StretchNone(ops: seq<int>, vals: seq<Sll>, s: nat, e: nat, inner: nat, lo: nat, hi: nat,
                                       levels: nat)
    requires AreOps(ops) && lo <= s <= e <= hi <= |ops| && inner <= levels
    requires (s == lo || Level(ops[s - 1]) >= inner) && (e == hi || Level(ops[e]) >= inner) &&
             AllBelow(ops, s, e, inner)
    requires AllBelow(ops, lo, hi, levels) && !Sub(ops, vals, s, e, inner).Some?
    ensures Spoils(Sub(ops, vals, s, e, inner), Sub(ops, vals, lo, hi, levels))
    decreases hi - lo, levels
  {
    hide Level, Calc, Tree, AllBelow;
    if inner == levels {
      WholeStretch(ops, s, e, lo, hi, levels);
    } else {
      var m := TreeSplit(ops, lo, hi, levels);
      if m == hi {
        StretchNone(ops, vals, s, e, inner, lo, hi, levels - 1);
      } else if e <= m {
        StretchNone(ops, vals, s, e, inner, lo, m, levels);
      } else {
        NotWithin(ops, s, e, inner, m);
        StretchNone(ops, vals, s, e, inner, m + 1, hi, levels - 1);
      }
    }
  }

  lemma WholeStretch(ops: seq<int>, s: nat, e: nat, lo: nat, hi: nat, levels: nat)
    requires AreOps(ops) && lo <= s <= e <= hi <= |ops| && AllBelow(ops, lo, hi, levels)
    requires (s == lo || Level(ops[s - 1]) >= levels) && (e == hi || Level(ops[e]) >= levels)
    ensures s == lo && e == hi
  {
    var l, r := if s == 0 then 0 else LevelAt(ops, s - 1), LevelAt(ops, e);
  }

  lemma NotWithin(ops: seq<int>, s: nat, e: nat, levels: nat, m: nat)
    requires AreOps(ops) && s <= e <= |ops| && m < e && Level(ops[m]) >= levels && AllBelow(ops, s, e, levels)
    ensures m < s
  {
    var l := LevelAt(ops, m);
  }

  lemma NoValue(ops: seq<int>, vals: seq<Sll>, lval: seq<Sll>, level: nat, i: nat, j: nat)
    requires AreOps(ops) && |lval| > |ops| && Passing(ops, vals, lval, level, i, j) && i < |ops| &&
             Level(ops[i]) == level &&
             level < LEVELS
    requires !Sub(ops, vals, j, End(ops, i + 1, level), level + 1).Some?
    ensures Spoils(Sub(ops, vals, j, End(ops, i + 1, level), level + 1), Sub(ops, vals, 0, |ops|, LEVELS))
  {
    hide Level, Calc, Sub, Holds, Tree, IsStart;
    NextTree(ops, i, j, level);
    AtStart(ops, j, level + 1);
    var e, hi := End(ops, i + 1, level), End(ops, j, level + 1);
    EndIsLater(ops, j, e, level + 1);
    PrefixNone(ops, vals, j, e, hi, level + 1);
    AllLevels(ops);
    StretchNone(ops, vals, j, hi, level + 1, 0, |ops|, LEVELS);
  }

  lemma AtStart(ops: seq<int>, j: nat, levels: nat)
    requires AreOps(ops) && j <= |ops| && IsStart(ops, j, levels)
    ensures j == 0 || Level(ops[j - 1]) >= levels
  {}

  lemma AllLevels(ops: seq<int>)
    requires AreOps(ops)
    ensures AllBelow(ops, 0, |ops|, LEVELS)
  {}

  lemma EndIsLater(ops: seq<int>, s: nat, e: nat, levels: nat)
    requires AreOps(ops) && s <= e <= |ops| && AllBelow(ops, s, e, levels)
    ensures e <= End(ops, s, levels)
  {
    var hi := End(ops, s, levels);
    var l := LevelAt(ops, hi);
  }

  // ----- the ten passes -----

  lemma BeforePasses(ops: seq<int>, vals: seq<Sll>)
    requires AreOps(ops) && |vals| > |ops|
    ensures Passed(ops, vals, vals, 0)
  {}

  lemma AfterPasses(ops: seq<int>, vals: seq<Sll>, lval: seq<Sll>)
    requires AreOps(ops) && |lval| > |ops| && Passed(ops, vals, lval, LEVELS)
    ensures Sub(ops, vals, 0, |ops|, LEVELS) == Some(lval[0])
  {
    AllLevels(ops);
    EndOf(ops, 0, |ops|, LEVELS);
    assert Holds(ops, vals, lval, 0, LEVELS);
  }

  /** The passes that numarg makes, one after the other. */
  method Passes(lval: array<Sll>, ops: seq<int>, ghost vals: seq<Sll>) returns (stop: Stop)
    requires AreOps(ops) && lval.Length > |ops| && Passed(ops, vals, lval[..], 0)
    modifies lval
    ensures if stop.Finished? then Passed(ops, vals, lval[..], LEVELS)
            else StopsAs(stop, Sub(ops, vals, 0, |ops|, LEVELS))
  {
    hide Passed, Level, IsRange, Sub, AreOps;
    Ranges();
    stop := CalcPass(lval, ops, OP_MUL, OP_MOD, 0, vals);
    if !stop.Finished? { return; }
    stop := CalcPass(lval, ops, OP_ADD, OP_SUB, 1, vals);
    if !stop.Finished? { return; }
    stop := CalcPass(lval, ops, OP_SHL, OP_SHR, 2, vals);
    if !stop.Finished? { return; }
    stop := CalcPass(lval, ops, OP_AND, OP_AND, 3, vals);
    if !stop.Finished? { return; }
    stop := CalcPass(lval, ops, OP_EOR, OP_EOR, 4, vals);
    if !stop.Finished? { return; }
    stop := CalcPass(lval, ops, OP_IOR, OP_IOR, 5, vals);
    if !stop.Finished? { return; }
    stop := CalcPass(lval, ops, OP_LT, OP_GTE, 6, vals);
    if !stop.Finished? { return; }
    stop := CalcPass(lval, ops, OP_EQ, OP_NE, 7, vals);
    if !stop.Finished? { return; }
    stop := CalcPass(lval, ops, OP_LAND, OP_LAND, 8, vals);
    if !stop.Finished? { return; }
    stop := CalcPass(lval, ops, OP_LOR, OP_LOR, 9, vals);
  }

  /** The end of numarg: what is left at lval[0] is the value of the tree of the levels of
      precedence.  For an expression that meets nothing that C leaves open the error exit is taken
      exactly when it divides by zero. */
  method Evaluate(lval: array<Sll>, ops: seq<int>) returns (stop: Stop, value: Sll)
    requires AreOps(ops) && |ops| < CALC_MAX && lval.Length == CALC_MAX
    modifies lval
    ensures var whole := Tree(ops, 0, |ops|, LEVELS).Value(old(lval[..]));
            && (stop.Finished? <==> whole.Some?) && (whole.Some? ==> whole == Some(value))
            && (whole.DivisionByZero? ==> stop.ErrorExit?)
  {
    hide Passed, Tree, Level, Expr.Value;
    ghost var vals := lval[..];
    BeforePasses(ops, vals);
    value := 0;
    stop := Passes(lval, ops, vals);
    if !stop.Finished? { return; }
    AfterPasses(ops, vals, lval[..]);
    value := lval[0];
  }

  lemma Ranges()
    ensures IsRange(OP_MUL, OP_MOD, 0) && IsRange(OP_ADD, OP_SUB, 1) && IsRange(OP_SHL, OP_SHR, 2)
    ensures IsRange(OP_AND, OP_AND, 3) && IsRange(OP_EOR, OP_EOR, 4) && IsRange(OP_IOR, OP_IOR, 5)
    ensures IsRange(OP_LT, OP_GTE, 6) && IsRange(OP_EQ, OP_NE, 7) && IsRange(OP_LAND, OP_LAND, 8) &&
            IsRange(OP_LOR, OP_LOR, 9)
  {}
}
