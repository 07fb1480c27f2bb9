/** What the operators of calc compute, said without calc: by arithmetic modulo 2 to the 64, by the
    division identity, by truth tables, and bit by bit.  And how two operators in a row group. */
module Operators {
  import opened Calculator

  // ----- addition, subtraction, multiplication -----

  predicate Congruent(x: int, y: int) { (x - y) % (2 * TWO63) == 0 }

  lemma WrapCongruent(x: int)
    ensures Congruent(Wrap(x), x)
  {
    var q := (x + TWO63) / (2 * TWO63);
    assert Wrap(x) - x == 2 * TWO63 * -q;
  }

  /** Each residue is that of one sll. */
  lemma CongruentIsOne(a: Sll, b: Sll, x: int)
    requires Congruent(a, x) && Congruent(b, x)
    ensures a == b
  {
    var p, q := (a - x) / (2 * TWO63), (b - x) / (2 * TWO63);
    assert a - b == 2 * TWO63 * (p - q);
  }

  /** The result is the only sll that is congruent to the exact one. */
  lemma Exact(lval: Sll, rval: Sll, v: Sll)
    ensures Calc(OP_ADD, lval, rval) == Some(v) <==> Congruent(v, lval + rval)
    ensures Calc(OP_SUB, lval, rval) == Some(v) <==> Congruent(v + rval, lval)
    ensures Calc(OP_MUL, lval, rval) == Some(v) <==> Congruent(v, lval * rval)
  {
    ExactOne(lval + rval, v);
    ExactOne(lval - rval, v);
    ExactOne(lval * rval, v);
    assert v + rval - lval == v - (lval - rval);
  }

  lemma ExactOne(x: int, v: Sll)
    ensures Wrap(x) == v <==> Congruent(v, x)
  {
    WrapCongruent(x);
    if Congruent(v, x) { CongruentIsOne(Wrap(x), v, x); }
  }

  // ----- division -----

  predicate SignOf(r: int, a: int) { r == 0 || (r < 0) == (a < 0) }

  /** r is what is left of lval when rval has been taken away q times, less than rval and on the
      same side as lval. */
  predicate Divides(lval: int, rval: int, q: int, r: int)
  {
    lval == q * rval + r && Magnitude(r) < Magnitude(rval) && SignOf(r, lval)
  }

  lemma DividesIsOne(lval: int, rval: int, q: int, r: int, q': int, r': int)
    requires Divides(lval, rval, q, r) && Divides(lval, rval, q', r')
    ensures q == q' && r == r'
  {
    assert (q - q') * rval == q * rval - q' * rval;
    SmallMultiple(q - q', rval, r' - r);
  }

  /** 0 is the only multiple of b that is smaller than b. */
  lemma SmallMultiple(k: int, b: int, d: int)
    requires k * b == d && Magnitude(d) < Magnitude(b)
    ensures k == 0
  {
    if k != 0 { MultipleAtLeast(k, b); }
  }

  lemma MultipleAtLeast(k: int, b: int)
    requires k != 0
    ensures Magnitude(k * b) >= Magnitude(b)
  {
    AtLeast(Magnitude(k), Magnitude(b));
    MagnitudeTimes(k, b);
  }

  lemma MagnitudeTimes(k: int, b: int)
    ensures Magnitude(k * b) == Magnitude(k) * Magnitude(b)
  {
    var m: int, n: int := Magnitude(k), Magnitude(b);
    assert (-m) * n == -(m * n) && m * (-n) == -(m * n) && (-m) * (-n) == m * n;
  }

  lemma AtLeast(k: nat, b: nat)
    requires k >= 1
    ensures k * b >= b
  {}

  lemma QuotientDivides(a: int, b: int)
    requires b != 0
    ensures Divides(a, b, Quotient(a, b), a - b * Quotient(a, b))
  {
    var q, r := Magnitude(a) / Magnitude(b), Magnitude(a) % Magnitude(b);
    assert Magnitude(a) == q * Magnitude(b) + r;
    SignedProducts(b, q);
    assert a - b * Quotient(a, b) == if a < 0 then -(r as int) else r;
  }

  lemma SignedProducts(b: int, q: int)
    ensures b * -q == -(b * q) && (b < 0 ==> q * Magnitude(b) == -(b * q)) && (b >= 0 ==> q * Magnitude(b) == b * q)
  {}

  lemma QuotientFits(a: Sll, b: Sll)
    requires b != 0 && !Overflows(a, b)
    ensures -TWO63 <= Quotient(a, b) < TWO63 && -TWO63 <= a - b * Quotient(a, b) < TWO63
  {
    QuotientDivides(a, b);
    hide Divides;
    NotMore(Magnitude(a), Magnitude(b));
    RemainderSmall(a, b);
  }

  lemma RemainderSmall(a: Sll, b: Sll)
    requires b != 0 && Divides(a, b, Quotient(a, b), a - b * Quotient(a, b))
    ensures -TWO63 <= a - b * Quotient(a, b) < TWO63
  {
    var r := a - b * Quotient(a, b);
    assert Magnitude(r) < Magnitude(b) <= TWO63;
  }

  lemma NotMore(a: nat, b: nat)
    requires b >= 1
    ensures a / b <= a && (b >= 2 ==> a / b <= a / 2)
  {
    var m := a / b;
    assert a == m * b + a % b;
    AtLeast(b, m);
    if b >= 2 { TwiceAtMost(m, b); }
  }

  lemma TwiceAtMost(m: nat, b: nat)
    requires b >= 2
    ensures m * 2 <= m * b
  {}

  /** Division by zero is an error, one division overflows, and all others give quotient and
      remainder toward zero. */
  lemma Division(lval: Sll, rval: Sll, q: Sll, r: Sll)
    ensures rval == 0 ==> Calc(OP_DIV, lval, rval).DivisionByZero? && Calc(OP_MOD, lval, rval).DivisionByZero?
    ensures Calc(OP_DIV, lval, rval).Undefined? <==> lval == -TWO63 && rval == -1
    ensures Calc(OP_MOD, lval, rval).Undefined? <==> lval == -TWO63 && rval == -1
    ensures rval != 0 && !(lval == -TWO63 && rval == -1) ==>
              (Calc(OP_DIV, lval, rval) == Some(q) && Calc(OP_MOD, lval, rval) == Some(r) <==>
               Divides(lval, rval, q, r))
  {
    if rval != 0 && !Overflows(lval, rval) {
      QuotientDivides(lval, rval);
      QuotientFits(lval, rval);
      var p := Quotient(lval, rval);
      WrapSame(p);
      WrapSame(lval - rval * p);
      if Divides(lval, rval, q, r) { DividesIsOne(lval, rval, q, r, p, lval - rval * p); }
    }
  }

  lemma WrapSame(x: int)
    requires -TWO63 <= x < TWO63
    ensures Wrap(x) == x
  {}

  // ----- comparisons and logic -----

  predicate Gives(op: int, lval: Sll, rval: Sll, b: bool) { Calc(op, lval, rval) == Some(if b then 1 else 0) }

  /** All comparisons are by the sign of the exact difference. */
  lemma Comparisons(lval: Sll, rval: Sll)
    ensures Gives(OP_LT, lval, rval, rval - lval > 0) && Gives(OP_GT, lval, rval, lval - rval > 0)
    ensures Gives(OP_LTE, lval, rval, !(lval - rval > 0)) && Gives(OP_GTE, lval, rval, !(rval - lval > 0))
    ensures Gives(OP_EQ, lval, rval, rval - lval == 0) && Gives(OP_NE, lval, rval, !(rval - lval == 0))
  {}

  /** Any value other than 0 is true; both operands have been evaluated. */
  lemma Logic(lval: Sll, rval: Sll)
    ensures lval == 0 && rval == 0 ==> Gives(OP_LAND, lval, rval, false) && Gives(OP_LOR, lval, rval, false)
    ensures lval == 0 && rval != 0 ==> Gives(OP_LAND, lval, rval, false) && Gives(OP_LOR, lval, rval, true)
    ensures lval != 0 && rval == 0 ==> Gives(OP_LAND, lval, rval, false) && Gives(OP_LOR, lval, rval, true)
    ensures lval != 0 && rval != 0 ==> Gives(OP_LAND, lval, rval, true) && Gives(OP_LOR, lval, rval, true)
  {}

  // ----- bits -----

  /** Bit k of the two's complement of x, which for k >= 63 is the sign. */
  predicate BitAt(x: int, k: nat)
    decreases k
  {
    if k == 0 then x % 2 == 1 else BitAt(x / 2, k - 1)
  }

  lemma {:induction false} BitwiseAt(op: int, a: int, b: int, n: nat, k: nat)
    requires k <= n
    ensures BitAt(Bitwise(op, a, b, n), k) == BitOp(op, BitAt(a, k), BitAt(b, k))
    decreases n
  {
    if k > 0 {
      BitwiseAt(op, a / 2, b / 2, n - 1, k - 1);
      assert Bitwise(op, a, b, n) / 2 == Bitwise(op, a / 2, b / 2, n - 1);
    }
  }

  lemma {:induction false} BitwiseFits(op: int, a: int, b: int, n: nat)
    ensures 0 - Power2(n) <= Bitwise(op, a, b, n) < Power2(n)
    decreases n
  {
    if n > 0 { BitwiseFits(op, a / 2, b / 2, n - 1); }
  }

  /** The bits up to the sign determine the number. */
  lemma {:induction false} BitsDetermine(x: int, y: int, n: nat)
    requires 0 - Power2(n) <= x < Power2(n) && 0 - Power2(n) <= y < Power2(n)
    requires forall k: nat :: k <= n ==> BitAt(x, k) == BitAt(y, k)
    ensures x == y
    decreases n
  {
    assert BitAt(x, 0) == BitAt(y, 0);
    if n > 0 {
      forall k: nat | k <= n - 1 ensures BitAt(x / 2, k) == BitAt(y / 2, k) {
        assert BitAt(x, k + 1) == BitAt(y, k + 1);
      }
      BitsDetermine(x / 2, y / 2, n - 1);
    }
  }

  lemma Width()
    ensures Power2(63) == TWO63
  {
    EightMore(0);
    EightMore(8);
    EightMore(16);
    EightMore(24);
    EightMore(32);
    EightMore(40);
    EightMore(48);
    assert Power2(0) == 1;
    hide Power2;
    Doubles(56, 7);
  }

  lemma EightMore(n: nat)
    ensures Power2(n + 8) == 0x100 * Power2(n)
  {
    Doubles(n, 8);
  }

  lemma {:induction false} Doubles(m: nat, n: nat)
    requires n <= 8
    ensures Power2(m + n) == [1, 2, 4, 8, 16, 32, 64, 128, 256][n] * Power2(m)
    decreases n
  {
    if n > 0 { Doubles(m, n - 1); }
  }

  lemma BitwiseIs(op: int, lval: Sll, rval: Sll)
    requires op == OP_AND || op == OP_IOR || op == OP_EOR
    ensures var w := Bitwise(op, lval, rval, 63); -TWO63 <= w < TWO63 && Calc(op, lval, rval) == Some(w)
  {
    BitwiseFits(op, lval, rval, 63);
    Width();
    WrapSame(Bitwise(op, lval, rval, 63));
  }

  /** Bit k of v is on where both, at least one, or exactly one of the operands have it on. */
  predicate BitIs(op: int, lval: Sll, rval: Sll, v: Sll, k: nat)
  {
    var x, y, z := BitAt(lval, k), BitAt(rval, k), BitAt(v, k);
    if op == OP_AND then z == (x && y) else if op == OP_IOR then z == (x || y) else z == (x != y)
  }

  /** The three operators bit by bit: the result is the only sll whose 64 bits are those. */
  lemma Bits(op: int, lval: Sll, rval: Sll, v: Sll)
    requires op == OP_AND || op == OP_IOR || op == OP_EOR
    ensures Calc(op, lval, rval) == Some(v) <==> forall k: nat :: k < 64 ==> BitIs(op, lval, rval, v, k)
  {
    hide Calc, Bitwise, BitAt, Power2;
    var w := Bitwise(op, lval, rval, 63);
    BitwiseIs(op, lval, rval);
    Width();
    forall k: nat | k <= 63 ensures BitAt(w, k) == BitOp(op, BitAt(lval, k), BitAt(rval, k)) {
      BitwiseAt(op, lval, rval, 63, k);
    }
    if forall k: nat :: k < 64 ==> BitIs(op, lval, rval, v, k) {
      forall k: nat | k <= 63 ensures BitAt(v, k) == BitAt(w, k) {
        assert BitIs(op, lval, rval, v, k);
      }
      BitsDetermine(v, w, 63);
    }
  }

  // ----- shifts -----

  /** Shifting by 0 changes nothing; shifting left by one more doubles, modulo 2 to the 64; and
      shifting right by one more halves, downward. */
  lemma Shifts(lval: Sll, n: Sll, v: Sll, w: Sll)
    ensures Calc(OP_SHL, lval, 0) == Some(lval) && Calc(OP_SHR, lval, 0) == Some(lval)
    ensures Calc(OP_SHL, lval, n).Undefined? <==> n < 0 || n >= 64
    ensures Calc(OP_SHR, lval, n).Undefined? <==> n < 0 || n >= 64
    ensures 0 <= n < 63 && Calc(OP_SHL, lval, n) == Some(v) ==>
              (Calc(OP_SHL, lval, n + 1) == Some(w) <==> Congruent(w, 2 * v))
    ensures 0 <= n < 63 && Calc(OP_SHR, lval, n) == Some(v) ==>
              (Calc(OP_SHR, lval, n + 1) == Some(w) <==> w == v / 2)
  {
    assert Power2(0) == 1;
    WrapSame(lval);
    if 0 <= n < 64 {
      PowerPositive(n);
      if n < 63 {
        PowerPositive(n + 1);
        DoubleShift(lval, n, v, w);
        HalfShift(lval, n);
      }
    }
  }

  lemma {:induction false} PowerPositive(n: nat)
    ensures Power2(n) > 0
  {
    if n > 0 { PowerPositive(n - 1); }
  }

  lemma DoubleShift(lval: int, n: nat, v: Sll, w: Sll)
    ensures Wrap(lval * Power2(n)) == v ==> (Wrap(lval * Power2(n + 1)) == w <==> Congruent(w, 2 * v))
  {
    var x := lval * Power2(n);
    assert lval * Power2(n + 1) == 2 * x;
    WrapCongruent(x);
    ExactOne(2 * x, w);
    if Wrap(x) == v {
      var q := (v - x) / (2 * TWO63);
      assert v - x == 2 * TWO63 * q;
      assert w - 2 * x == (w - 2 * v) + 2 * TWO63 * (2 * q);
      SameResidue(w - 2 * x, w - 2 * v, 2 * q);
    }
  }

  lemma SameResidue(a: int, b: int, k: int)
    requires a == b + 2 * TWO63 * k
    ensures a % (2 * TWO63) == b % (2 * TWO63)
  {}

  lemma HalfShift(lval: Sll, n: nat)
    requires Power2(n) > 0
    ensures Wrap(lval / Power2(n)) == lval / Power2(n)
    ensures Power2(n + 1) > 0 && lval / Power2(n + 1) == lval / Power2(n) / 2
    ensures Wrap(lval / Power2(n + 1)) == lval / Power2(n + 1)
  {
    var p := Power2(n);
    DivideTwice(lval, p);
    QuotientBounds(lval, p);
    QuotientBounds(lval, 2 * p);
  }

  lemma QuotientBounds(a: Sll, p: nat)
    requires p > 0
    ensures -TWO63 <= a / p < TWO63
  {
    var q := a / p;
    assert a == q * p + a % p;
    if q >= 0 { AtLeast(p, q); assert q * p == p * q; }
    if q < 0 { AtLeast(p, -q - 1); assert (q + 1) * p == -(p * (-q - 1)); }
  }

  lemma DivideTwice(a: int, p: nat)
    requires p > 0
    ensures a / (2 * p) == a / p / 2
  {
    var q := a / p / 2;
    var r := a - q * (2 * p);
    assert a == (a / p) * p + a % p && a / p == 2 * q + a / p % 2;
    assert r == (a / p % 2) * p + a % p;
    assert 0 <= r < 2 * p;
    DivideIs(a, 2 * p, q, r);
  }

  lemma DivideIs(a: int, b: nat, q: int, r: int)
    requires b > 0 && a == q * b + r && 0 <= r < b
    ensures a / b == q
  {
    var p, s := a / b, a % b;
    assert a == p * b + s;
    assert (p - q) * b == p * b - q * b;
    SmallMultiple(p - q, b, r - s);
  }

  // ----- the order of the operators -----

  predicate SameLevel(a: int, b: int) requires IsOp(a) && IsOp(b) { Level(a) == Level(b) }

  predicate Tighter(a: int, b: int) requires IsOp(a) && IsOp(b) { Level(a) < Level(b) }

  /** From the tightest to the loosest, as in C. */
  lemma Order()
    ensures SameLevel(OP_MUL, OP_DIV) && SameLevel(OP_DIV, OP_MOD) && Tighter(OP_MOD, OP_ADD)
    ensures SameLevel(OP_ADD, OP_SUB) && Tighter(OP_SUB, OP_SHL)
    ensures SameLevel(OP_SHL, OP_SHR) && Tighter(OP_SHR, OP_AND)
    ensures Tighter(OP_AND, OP_EOR) && Tighter(OP_EOR, OP_IOR) && Tighter(OP_IOR, OP_LT)
    ensures SameLevel(OP_LT, OP_GT) && SameLevel(OP_GT, OP_LTE) && SameLevel(OP_LTE, OP_GTE) && Tighter(OP_GTE, OP_EQ)
    ensures SameLevel(OP_EQ, OP_NE) && Tighter(OP_NE, OP_LAND) && Tighter(OP_LAND, OP_LOR)
  {}

  lemma {:induction false} TreeOfNone(ops: seq<int>, lo: nat, levels: nat)
    requires AreOps(ops) && lo <= |ops|
    ensures Tree(ops, lo, lo, levels) == Operand(lo)
  {
    if levels > 0 { TreeOfNone(ops, lo, levels - 1); }
  }

  lemma {:induction false} TreeOfOne(ops: seq<int>, lo: nat, levels: nat)
    requires AreOps(ops) && lo < |ops| && Level(ops[lo]) < levels
    ensures Tree(ops, lo, lo + 1, levels) == Binary(ops[lo], Operand(lo), Operand(lo + 1))
  {
    if Level(ops[lo]) == levels - 1 {
      TreeOfNone(ops, lo, levels);
      TreeOfNone(ops, lo + 1, levels - 1);
    } else {
      TreeOfOne(ops, lo, levels - 1);
    }
  }

  lemma {:induction false} TreeOfTwo(ops: seq<int>, lo: nat, levels: nat)
    requires AreOps(ops) && lo + 1 < |ops| && Level(ops[lo]) < levels && Level(ops[lo + 1]) < levels
    ensures Tree(ops, lo, lo + 2, levels) ==
            if Tighter(ops[lo + 1], ops[lo]) then
              Binary(ops[lo], Operand(lo), Binary(ops[lo + 1], Operand(lo + 1), Operand(lo + 2)))
            else Binary(ops[lo + 1], Binary(ops[lo], Operand(lo), Operand(lo + 1)), Operand(lo + 2))
  {
    if Level(ops[lo + 1]) == levels - 1 {
      TreeOfOne(ops, lo, levels);
      TreeOfNone(ops, lo + 2, levels - 1);
    } else if Level(ops[lo]) == levels - 1 {
      TreeOfNone(ops, lo, levels);
      TreeOfOne(ops, lo + 1, levels - 1);
    } else {
      TreeOfTwo(ops, lo, levels - 1);
    }
  }

  lemma LevelsBelow(op: int)
    requires IsOp(op)
    ensures Level(op) < LEVELS
  {}

  /** One operator. */
  lemma OneOperator(op: int, a: Sll, b: Sll)
    requires IsOp(op)
    ensures Tree([op], 0, 1, LEVELS).Value([a, b]) == Calc(op, a, b)
  {
    TreeOfOne([op], 0, LEVELS);
    hide Level, Calc, Tree;
    assert Operand(0).Value([a, b]) == Outcome.Some(a) && Operand(1).Value([a, b]) == Outcome.Some(b);
  }

  function Then(r: Outcome, op: int, c: Sll): Outcome { if r.Some? then Calc(op, r.value, c) else r }

  function After(op: int, a: Sll, r: Outcome): Outcome { if r.Some? then Calc(op, a, r.value) else r }

  /** Two operators in a row: the first is applied first unless the second is tighter. */
  lemma TwoOperators(op1: int, op2: int, a: Sll, b: Sll, c: Sll)
    requires IsOp(op1) && IsOp(op2)
    ensures Tree([op1, op2], 0, 2, LEVELS).Value([a, b, c]) ==
            if Tighter(op2, op1) then After(op1, a, Calc(op2, b, c)) else Then(Calc(op1, a, b), op2, c)
  {
    hide Level, Calc, Tree, Tighter;
    LevelsBelow(op1);
    LevelsBelow(op2);
    TreeOfTwo([op1, op2], 0, LEVELS);
    var vals := [a, b, c];
    assert Operand(0).Value(vals) == Outcome.Some(a) && Operand(1).Value(vals) == Outcome.Some(b) &&
           Operand(2).Value(vals) == Outcome.Some(c);
    var x, y := Binary(op1, Operand(0), Operand(1)), Binary(op2, Operand(1), Operand(2));
    assert x.Value(vals) == Calc(op1, a, b) && y.Value(vals) == Calc(op2, b, c);
  }
}
