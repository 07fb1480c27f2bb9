/** warshall.c: reflexive transitive closure of a packed bit matrix, in place. */
module Warshall {
  import opened Bits
  import opened Reach

  /** The relation held in a matrix of n rows.  A bit in a column at or past n is an edge
      to a vertex that has no row. */
  ghost function Edges(m: seq<set<nat>>): Rel
  {
    (x: nat, y: nat) => x < |m| && y in m[x]
  }

  /** One or more steps whose inner vertices are all below k. */
  ghost predicate Via(m: seq<set<nat>>, k: nat, x: nat, y: nat)
    requires k <= |m|
    decreases k
  {
    if k == 0 then Edges(m)(x, y)
    else Via(m, k - 1, x, y) || (Via(m, k - 1, x, k - 1) && Via(m, k - 1, k - 1, y))
  }

  lemma {:induction false} ViaJoins(m: seq<set<nat>>, k: nat, x: nat, z: nat, y: nat)
    requires z < k <= |m|
    requires Via(m, k, x, z) && Via(m, k, z, y)
    ensures Via(m, k, x, y)
    decreases k
  {
    if z < k - 1 {
      if Via(m, k - 1, x, z) && Via(m, k - 1, z, y) { ViaJoins(m, k - 1, x, z, y); }
      if Via(m, k - 1, x, z) && Via(m, k - 1, z, k - 1) { ViaJoins(m, k - 1, x, z, k - 1); }
      if Via(m, k - 1, k - 1, z) && Via(m, k - 1, z, y) { ViaJoins(m, k - 1, k - 1, z, y); }
    }
  }

  lemma {:induction false} EdgeIsVia(m: seq<set<nat>>, k: nat, x: nat, y: nat)
    requires k <= |m| && Edges(m)(x, y)
    ensures Via(m, k, x, y)
    decreases k
  {
    if k != 0 { EdgeIsVia(m, k - 1, x, y); }
  }

  lemma {:induction false} ViaSteps(m: seq<set<nat>>, k: nat, x: nat, y: nat) returns (n: nat)
    requires k <= |m| && Via(m, k, x, y)
    ensures n > 0 && Steps(Edges(m), x, n, y)
    decreases k
  {
    if k == 0 {
      n := 1;
      assert Steps(Edges(m), y, 0, y);
    } else if Via(m, k - 1, x, y) {
      n := ViaSteps(m, k - 1, x, y);
    } else {
      var i := ViaSteps(m, k - 1, x, k - 1);
      var j := ViaSteps(m, k - 1, k - 1, y);
      StepsJoin(Edges(m), x, i, k - 1, j, y);
      n := i + j;
    }
  }

  lemma {:induction false} StepsVia(m: seq<set<nat>>, x: nat, n: nat, y: nat)
    requires n > 0 && Steps(Edges(m), x, n, y)
    ensures Via(m, |m|, x, y)
    decreases n
  {
    var z: nat :| Edges(m)(x, z) && Steps(Edges(m), z, n - 1, y);
    EdgeIsVia(m, |m|, x, z);
    if n > 1 {
      StepsVia(m, z, n - 1, y);
      assert z < |m| by { var u: nat :| Edges(m)(z, u) && Steps(Edges(m), u, n - 2, y); }
      ViaJoins(m, |m|, x, z, y);
    }
  }

  /** With every vertex allowed inside, Via is reachability in one or more steps. */
  lemma ViaIsReach(m: seq<set<nat>>, x: nat, y: nat)
    ensures Via(m, |m|, x, y) <==> ReachesOn(Edges(m), x, y)
  {
    if Via(m, |m|, x, y) { var n := ViaSteps(m, |m|, x, y); }
    if ReachesOn(Edges(m), x, y) {
      var n: nat :| n > 0 && Steps(Edges(m), x, n, y);
      StepsVia(m, x, n, y);
    }
  }

  ghost function Absorbed(m: seq<set<nat>>, x: nat, u: nat): set<nat>
    requires x < |m| && u < |m|
  {
    if x in m[u] then m[u] + m[x] else m[u]
  }

  /** The body of the loop, for row y at rowj. */
  method AbsorbInto(R: array<Word>, ghost n: nat, rowsize: nat, ghost x: nat, ghost y: nat, ccol: nat, i: nat,
                    rowi: nat, rowj: nat)
    requires Shape(R[..], n, rowsize) && x < n <= BITS_PER_WORD * rowsize && y < n
    requires rowi == x * rowsize && rowj == y * rowsize
    requires ccol == x / BITS_PER_WORD + rowj && i == x % BITS_PER_WORD
    modifies R
    ensures Shape(R[..], n, rowsize)
    ensures Rows(R[..], n, rowsize) == old(Rows(R[..], n, rowsize)[y := Absorbed(Rows(R[..], n, rowsize), x, y)])
  {
    hide Row, Bit, Rows, Mask, Members, IsOr;
    BitInRow(R[..], n, rowsize, y, x);
    if Bit(R[ccol], i) {
      ghost var before := R[..];
      RowsSameOrApart(n, rowsize, y, x);
      assert R[rowj..rowj + rowsize] == before[rowj..rowj + rowsize];
      assert R[rowi..rowi + rowsize] == before[rowi..rowi + rowsize];
      OrWords(R, rowj, R, rowi, rowsize);
      assert R[rowj..rowj + rowsize] == R[..][rowj..rowj + rowsize];
      OrWordsRow(before, R[..], n, rowsize, y, x);
    }
  }

  /** One pass of the outer loop: every row with bit x absorbs row x.  Bit x is bit i of
      word cword of a row, and row x starts at rowi. */
  method AbsorbRow(R: array<Word>, n: nat, rowsize: nat, ghost x: nat, cword: nat, i: nat, rowi: nat)
    requires Shape(R[..], n, rowsize) && x < n <= BITS_PER_WORD * rowsize
    requires rowi == x * rowsize && cword == x / BITS_PER_WORD && i == x % BITS_PER_WORD
    modifies R
    ensures Shape(R[..], n, rowsize)
    ensures forall u: nat :: u < n ==>
              Rows(R[..], n, rowsize)[u] == Absorbed(old(Rows(R[..], n, rowsize)), x, u)
  {
    hide Row, Bit, Rows;
    ghost var was := Rows(R[..], n, rowsize);
    var relend := R.Length;
    var ccol, rowj := cword, 0;
    ghost var y: nat := 0;
    while rowj < relend
      invariant y <= n && (rowj < relend <==> y < n)
      invariant rowj == y * rowsize && ccol == cword + rowj
      invariant Shape(R[..], n, rowsize)
      invariant forall u: nat :: u < n ==>
                  Rows(R[..], n, rowsize)[u] == if u < y then Absorbed(was, x, u) else was[u]
      decreases n - y
    {
      AbsorbInto(R, n, rowsize, x, y, ccol, i, rowi, rowj);
      RowFits(n, rowsize, y);
      rowj := rowj + rowsize;
      ccol := ccol + rowsize;
      y := y + 1;
      if y < n { RowFits(n, rowsize, y); }
    }
  }

  /** In place, row x comes to hold everything that x reached in one or more steps. */
  method TransitiveClosure(R: array<Word>, n: nat)
    requires Shape(R[..], n, WordSize(n))
    modifies R
    ensures Shape(R[..], n, WordSize(n))
    ensures forall x: nat, y: nat :: x < n ==>
              (y in Rows(R[..], n, WordSize(n))[x] <==> ReachesOn(Edges(old(Rows(R[..], n, WordSize(n)))), x, y))
  {
    hide Row, Bit, Mask;
    var rowsize := WordSize(n);
    ghost var m := Rows(R[..], n, rowsize);
    var relend := n * rowsize;
    var cword, i, rowi := 0, 0, 0;
    ghost var x := 0;
    while rowi < relend
      invariant x <= n && rowi == x * rowsize && (rowi < relend <==> x < n)
      invariant cword * BITS_PER_WORD + i == x && i < BITS_PER_WORD
      invariant Shape(R[..], n, rowsize)
      invariant forall u: nat, v: nat :: u < n ==> (v in Rows(R[..], n, rowsize)[u] <==> Via(m, x, u, v))
      decreases n - x
    {
      AbsorbRow(R, n, rowsize, x, cword, i, rowi);
      RowFits(n, rowsize, x);
      i := i + 1;
      if i >= BITS_PER_WORD {
        i := 0;
        cword := cword + 1;
      }
      rowi := rowi + rowsize;
      x := x + 1;
      if x < n { RowFits(n, rowsize, x); }
    }
    forall u: nat, v: nat | u < n
      ensures v in Rows(R[..], n, rowsize)[u] <==> ReachesOn(Edges(m), u, v)
    {
      ViaIsReach(m, u, v);
    }
  }

  /** The matrix becomes exactly the reflexive transitive closure of what it held. */
  method ReflexiveTransitiveClosure(R: array<Word>, n: nat)
    requires Shape(R[..], n, WordSize(n))
    modifies R
    ensures Shape(R[..], n, WordSize(n))
    ensures forall x: nat, y: nat :: x < n ==>
              (y in Rows(R[..], n, WordSize(n))[x] <==> Reaches(Edges(old(Rows(R[..], n, WordSize(n)))), x, y))
  {
    hide Row, Bit, Mask, Rows, Edges, Reaches, ReachesOn;
    ghost var m := Rows(R[..], n, WordSize(n));
    TransitiveClosure(R, n);
    ghost var closed := Rows(R[..], n, WordSize(n));
    var rowsize := WordSize(n);
    var relend := n * rowsize;
    var i, rp := 0, 0;
    ghost var x: nat := 0;
    while rp < relend
      invariant x <= n && (rp < relend <==> x < n)
      invariant i == x % BITS_PER_WORD && rp == x * rowsize + x / BITS_PER_WORD
      invariant Shape(R[..], n, rowsize)
      invariant forall u: nat :: u < n ==>
                  Rows(R[..], n, rowsize)[u] == if u < x then closed[u] + {u} else closed[u]
      decreases n - x
    {
      SetDiagonal(R, n, rowsize, x, rp, i);
      i := i + 1;
      if i >= BITS_PER_WORD {
        i := 0;
        rp := rp + 1;
      }
      RowFits(n, rowsize, x);
      rp := rp + rowsize;
      x := x + 1;
      if x < n { RowFits(n, rowsize, x); }
    }
    WithDiagonal(m, closed);
  }

  /** No steps, or one or more. */
  lemma WithDiagonal(m: seq<set<nat>>, closed: seq<set<nat>>)
    requires forall u: nat, v: nat :: u < |closed| ==> (v in closed[u] <==> ReachesOn(Edges(m), u, v))
    ensures forall u: nat, v: nat :: u < |closed| ==> (v in closed[u] + {u} <==> Reaches(Edges(m), u, v))
  {
    forall u: nat, v: nat | u < |closed|
      ensures v in closed[u] + {u} <==> Reaches(Edges(m), u, v)
    {
      ReachesIsOn(Edges(m), u, v);
    }
  }

  /** *rp |= (unsigned)(1 << i), with rp at the word of row x that holds bit x. */
  method SetDiagonal(R: array<Word>, ghost n: nat, ghost rowsize: nat, ghost x: nat, rp: nat, i: nat)
    requires Shape(R[..], n, rowsize) && x < n <= BITS_PER_WORD * rowsize
    requires i == x % BITS_PER_WORD && rp == x * rowsize + x / BITS_PER_WORD
    modifies R
    ensures Shape(R[..], n, rowsize)
    ensures Rows(R[..], n, rowsize) == old(Rows(R[..], n, rowsize)[x := Rows(R[..], n, rowsize)[x] + {x}])
  {
    hide Mask, Or;
    ghost var was := R[..];
    RowFits(n, rowsize, x);
    R[rp] := Or(R[rp], Mask(i));
    SetWordRow(was, R[..], n, rowsize, x, x);
  }

  /** The same, on a square matrix. */
  method CloseMatrix(m: BitMatrix)
    requires m.Valid() && m.bits == m.n && m.w == WordSize(m.n)
    modifies m.words
    ensures forall x: nat, y: nat :: x < m.n ==> (y in m.Value()[x] <==> Reaches(Edges(old(m.Value())), x, y))
  {
    ReflexiveTransitiveClosure(m.words, m.n);
  }
}
