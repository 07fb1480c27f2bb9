/** Bit sets packed into 32-bit words: BIT, SETBIT and WORDSIZE of defs.h, and the
    word loops that OR or copy one row of a packed matrix into another. */
module Bits {

  const BITS_PER_WORD: nat := 32

  function WordSize(n: nat): nat { (n + (BITS_PER_WORD - 1)) / BITS_PER_WORD }

  /** A C unsigned word.  The wrapper keeps bit-vector terms out of proofs about arrays. */
  datatype Word = Word(bits: bv32)

  const ZERO := Word(0)

  /** (unsigned) 1 << k */
  function Mask(k: nat): Word
    requires k < BITS_PER_WORD
  {
    Word((1 as bv32) << (k as bv6))
  }

  function Or(a: Word, b: Word): Word { Word(Join(a.bits, b.bits)) }

  predicate Bit(w: Word, k: nat)
    requires k < BITS_PER_WORD
  {
    Has(w.bits, Mask(k).bits)
  }

  function Join(a: bv32, b: bv32): bv32 { a | b }

  function Meet(a: bv32, b: bv32): bv32 { a & b }

  predicate Has(w: bv32, mask: bv32) { Meet(w, mask) != 0 }

  lemma Distribute(a: bv32, b: bv32, mask: bv32)
    ensures Meet(Join(a, b), mask) == Join(Meet(a, mask), Meet(b, mask))
  {
    assert (a | b) & mask == (a & mask) | (b & mask);
  }

  lemma JoinZero(a: bv32, b: bv32)
    ensures Join(a, b) == 0 <==> a == 0 && b == 0
  {}

  lemma OrBit(a: Word, b: Word, k: nat)
    requires k < BITS_PER_WORD
    ensures Bit(Or(a, b), k) <==> Bit(a, k) || Bit(b, k)
  {
    hide Mask, Meet, Join;
    var mask := Mask(k).bits;
    Distribute(a.bits, b.bits, mask);
    JoinZero(Meet(a.bits, mask), Meet(b.bits, mask));
  }

  lemma MaskBit(i: nat, k: nat)
    requires i < BITS_PER_WORD && k < BITS_PER_WORD
    ensures Bit(Mask(i), k) <==> i == k
  {
    if i == k {
      assert (1 as bv32) << k != 0;
    } else {
      ShiftsApart(i as bv6, k as bv6);
    }
  }

  lemma ShiftsApart(i: bv6, k: bv6)
    requires i < 32 && k < 32 && i != k
    ensures Meet((1 as bv32) << i, (1 as bv32) << k) == 0
  {}

  lemma ZeroBit(k: nat)
    requires k < BITS_PER_WORD
    ensures !Bit(ZERO, k)
  {
    hide Mask;
  }

  /** Bit k of a run of words. */
  predicate BitAt(words: seq<Word>, k: nat)
    requires k < BITS_PER_WORD * |words|
  {
    Bit(words[k / BITS_PER_WORD], k % BITS_PER_WORD)
  }

  /** The bit set that a run of words represents. */
  ghost function Members(words: seq<Word>): (s: set<nat>)
  {
    set k: nat | k < BITS_PER_WORD * |words| && BitAt(words, k)
  }

  lemma MembersZero(words: seq<Word>)
    requires forall j :: 0 <= j < |words| ==> words[j] == ZERO
    ensures Members(words) == {}
  {
    hide Bit;
    forall k: nat | k < BITS_PER_WORD * |words|
      ensures !BitAt(words, k)
    {
      ZeroBit(k % BITS_PER_WORD);
    }
  }

  /** The words after SETBIT(words, k). */
  function WithBit(words: seq<Word>, k: nat): (r: seq<Word>)
    requires k < BITS_PER_WORD * |words|
    ensures |r| == |words|
  {
    words[k / BITS_PER_WORD := Or(words[k / BITS_PER_WORD], Mask(k % BITS_PER_WORD))]
  }

  lemma WithBitAt(words: seq<Word>, k: nat, j: nat)
    requires k < BITS_PER_WORD * |words| && j < BITS_PER_WORD * |words|
    ensures BitAt(WithBit(words, k), j) <==> BitAt(words, j) || j == k
  {
    hide Bit, Mask, Or;
    if j / BITS_PER_WORD == k / BITS_PER_WORD {
      OrBit(words[k / BITS_PER_WORD], Mask(k % BITS_PER_WORD), j % BITS_PER_WORD);
      MaskBit(k % BITS_PER_WORD, j % BITS_PER_WORD);
    }
  }

  lemma MembersSet(words: seq<Word>, k: nat)
    requires k < BITS_PER_WORD * |words|
    ensures Members(WithBit(words, k)) == Members(words) + {k}
  {
    hide BitAt, WithBit;
    forall j: nat | j < BITS_PER_WORD * |words|
      ensures BitAt(WithBit(words, k), j) <==> BitAt(words, j) || j == k
    {
      WithBitAt(words, k, j);
    }
  }

  ghost predicate IsOr(a: seq<Word>, b: seq<Word>, c: seq<Word>)
  {
    |a| == |b| == |c| && forall j :: 0 <= j < |a| ==> c[j] == Or(a[j], b[j])
  }

  lemma MembersOr(a: seq<Word>, b: seq<Word>, c: seq<Word>)
    requires IsOr(a, b, c)
    ensures Members(c) == Members(a) + Members(b)
  {
    hide Bit, Or;
    forall k: nat | k < BITS_PER_WORD * |a|
      ensures BitAt(c, k) <==> BitAt(a, k) || BitAt(b, k)
    {
      OrBit(a[k / BITS_PER_WORD], b[k / BITS_PER_WORD], k % BITS_PER_WORD);
    }
  }

  // ----- matrices: n rows of w words each -----

  ghost predicate Shape(a: seq<Word>, n: nat, w: nat) { |a| == n * w }

  lemma {:induction false} RowFits(n: nat, w: nat, i: nat)
    requires i < n
    ensures 0 <= i * w <= i * w + w <= n * w && (i + 1) * w == i * w + w
    decreases n
  {
    MulPred(n, w);
    MulPred(i + 1, w);
    if i + 1 < n { RowFits(n - 1, w, i); } else if i > 0 { RowFits(i, w, i - 1); }
  }

  lemma MulPred(n: nat, w: nat)
    requires n > 0
    ensures n * w == (n - 1) * w + w
  {}

  lemma {:induction false} RowsApart(w: nat, i: nat, j: nat)
    requires i < j
    ensures i * w + w <= j * w
    decreases j
  {
    MulPred(j, w);
    if i + 1 < j { RowsApart(w, i, j - 1); }
  }

  ghost function Row(a: seq<Word>, n: nat, w: nat, i: nat): (s: set<nat>)
    requires Shape(a, n, w) && i < n
  {
    RowFits(n, w, i);
    Members(a[i * w..i * w + w])
  }

  ghost function Rows(a: seq<Word>, n: nat, w: nat): (r: seq<set<nat>>)
    requires Shape(a, n, w)
    ensures |r| == n && forall i :: 0 <= i < n ==> r[i] == Row(a, n, w, i)
  {
    seq(n, i requires 0 <= i < n => Row(a, n, w, i))
  }

  /** Words outside row i are the same, so every other row is. */
  lemma OneRow(a: seq<Word>, b: seq<Word>, n: nat, w: nat, i: nat)
    requires Shape(a, n, w) && Shape(b, n, w) && i < n
    requires i * w + w <= n * w
    requires b[..i * w] == a[..i * w] && b[i * w + w..] == a[i * w + w..]
    ensures Rows(b, n, w) == Rows(a, n, w)[i := Row(b, n, w, i)]
  {
    hide Members;
    forall j: nat | j < n && j != i
      ensures Row(b, n, w, j) == Row(a, n, w, j)
    {
      RowFits(n, w, j);
      if j < i {
        RowsApart(w, j, i);
        assert a[j * w..j * w + w] == a[..i * w][j * w..j * w + w];
        assert b[j * w..j * w + w] == b[..i * w][j * w..j * w + w];
      } else {
        RowsApart(w, i, j);
        var o := i * w + w;
        assert a[j * w..j * w + w] == a[o..][j * w - o..j * w + w - o];
        assert b[j * w..j * w + w] == b[o..][j * w - o..j * w + w - o];
      }
    }
  }

  lemma ZeroRows(a: seq<Word>, n: nat, w: nat)
    requires Shape(a, n, w) && forall j :: 0 <= j < |a| ==> a[j] == ZERO
    ensures forall i :: 0 <= i < n ==> Rows(a, n, w)[i] == {}
  {
    hide Members;
    forall i: nat | i < n
      ensures Row(a, n, w, i) == {}
    {
      RowFits(n, w, i);
      MembersZero(a[i * w..i * w + w]);
    }
  }

  /** What setting bit k % 32 of word k / 32 of row i does to the rows. */
  lemma SetWordRow(was: seq<Word>, now: seq<Word>, n: nat, w: nat, i: nat, k: nat)
    requires Shape(was, n, w) && i < n && k < BITS_PER_WORD * w
    requires 0 <= i * w + k / BITS_PER_WORD < |was|
    requires now == was[i * w + k / BITS_PER_WORD :=
                        Or(was[i * w + k / BITS_PER_WORD], Mask(k % BITS_PER_WORD))]
    ensures Rows(now, n, w) == Rows(was, n, w)[i := Rows(was, n, w)[i] + {k}]
  {
    hide Members, Mask, Or;
    RowFits(n, w, i);
    var lo := i * w;
    var row := was[lo..lo + w];
    assert row[k / BITS_PER_WORD] == was[lo + k / BITS_PER_WORD];
    assert now[lo..lo + w] == WithBit(row, k);
    MembersSet(row, k);
    OneRow(was, now, n, w, i);
  }

  /** The runs [i, i + w) and [j, j + w) are the same run, or apart. */
  predicate SameOrApart(i: nat, j: nat, w: nat) { i == j || i + w <= j || j + w <= i }

  /** while (fp1 < fp3) *fp1++ |= *fp2++; */
  method OrWords(a: array<Word>, i: nat, b: array<Word>, j: nat, w: nat)
    requires i + w <= a.Length && j + w <= b.Length && (a == b ==> SameOrApart(i, j, w))
    modifies a
    ensures a[..i] == old(a[..i]) && a[i + w..] == old(a[i + w..])
    ensures IsOr(old(a[i..i + w]), old(b[j..j + w]), a[i..i + w])
  {
    hide Or;
    var k := 0;
    while k < w
      invariant k <= w
      invariant forall l :: 0 <= l < a.Length ==>
                  a[l] == if i <= l < i + k then Or(old(a[l]), old(b[j + (l - i)])) else old(a[l])
    {
      assert b[j + k] == old(b[j + k]);
      a[i + k] := Or(a[i + k], b[j + k]);
      k := k + 1;
    }
  }

  /** while (fp1 < fp3) *fp2++ = *fp1++; */
  method CopyWords(a: array<Word>, i: nat, j: nat, w: nat)
    requires i + w <= a.Length && j + w <= a.Length && SameOrApart(i, j, w)
    modifies a
    ensures a[..i] == old(a[..i]) && a[i + w..] == old(a[i + w..])
    ensures a[i..i + w] == old(a[j..j + w])
  {
    var k := 0;
    while k < w
      invariant k <= w
      invariant forall l :: 0 <= l < a.Length ==>
                  a[l] == if i <= l < i + k then old(a[j + (l - i)]) else old(a[l])
    {
      a[i + k] := a[j + k];
      k := k + 1;
    }
    assert forall l :: i <= l < i + w ==> a[l] == old(a[j + (l - i)]);
  }

  lemma RowsSameOrApart(n: nat, w: nat, i: nat, j: nat)
    requires i < n && j < n
    ensures 0 <= i * w <= i * w + w <= n * w && 0 <= j * w <= j * w + w <= n * w
    ensures SameOrApart(i * w, j * w, w)
  {
    RowFits(n, w, i);
    RowFits(n, w, j);
    if i < j { RowsApart(w, i, j); } else if j < i { RowsApart(w, j, i); }
  }

  /** What OrWords does to the rows, when its runs are rows i and j. */
  lemma OrWordsRow(was: seq<Word>, now: seq<Word>, n: nat, w: nat, i: nat, j: nat)
    requires Shape(was, n, w) && Shape(now, n, w) && i < n && j < n
    requires i * w + w <= n * w && j * w + w <= n * w
    requires now[..i * w] == was[..i * w] && now[i * w + w..] == was[i * w + w..]
    requires IsOr(was[i * w..i * w + w], was[j * w..j * w + w], now[i * w..i * w + w])
    ensures Rows(now, n, w) == Rows(was, n, w)[i := Rows(was, n, w)[i] + Rows(was, n, w)[j]]
  {
    hide Members, IsOr;
    MembersOr(was[i * w..i * w + w], was[j * w..j * w + w], now[i * w..i * w + w]);
    OneRow(was, now, n, w, i);
  }

  lemma BitInRow(a: seq<Word>, n: nat, w: nat, i: nat, k: nat)
    requires Shape(a, n, w) && i < n && k < BITS_PER_WORD * w
    ensures 0 <= i * w && i * w + k / BITS_PER_WORD < |a|
    ensures Bit(a[i * w + k / BITS_PER_WORD], k % BITS_PER_WORD) <==> k in Rows(a, n, w)[i]
  {
    hide Bit;
    RowFits(n, w, i);
  }

  /** A packed matrix of n rows, each wide enough for bits columns. */
  class BitMatrix {
    const n: nat
    const bits: nat
    const w: nat
    const words: array<Word>

    ghost predicate Valid()
    {
      words.Length == n * w && bits <= BITS_PER_WORD * w
    }

    /** Row i as the set of its bits. */
    ghost function Value(): (r: seq<set<nat>>)
      requires Valid()
      reads words
      ensures |r| == n
    {
      Rows(words[..], n, w)
    }

    /** NEW2(n * WORDSIZE(bits), unsigned) */
    constructor (n: nat, bits: nat)
      ensures Valid() && fresh(words) && this.n == n && this.bits == bits && w == WordSize(bits)
      ensures forall i :: 0 <= i < n ==> Value()[i] == {}
    {
      this.n := n;
      this.bits := bits;
      this.w := WordSize(bits);
      var count := n * WordSize(bits);
      words := new Word[count](_ => ZERO);
      new;
      ZeroRows(words[..], n, w);
    }

    /** for (rsp = ruleset; rsp < rsend; rsp++) *rsp = 0; */
    method Clear()
      requires Valid()
      modifies words
      ensures forall i :: 0 <= i < n ==> Value()[i] == {}
    {
      for k := 0 to words.Length
        invariant forall l :: 0 <= l < k ==> words[l] == ZERO
      {
        words[k] := ZERO;
      }
      ZeroRows(words[..], n, w);
    }

    /** SETBIT on row i. */
    method Set(i: nat, k: nat)
      requires Valid() && i < n && k < bits
      modifies words
      ensures Value() == old(Value())[i := old(Value())[i] + {k}]
    {
      hide Row, Mask, Or;
      ghost var was := words[..];
      RowFits(n, w, i);
      var at := i * w + k / BITS_PER_WORD;
      words[at] := Or(words[at], Mask(k % BITS_PER_WORD));
      SetWordRow(was, words[..], n, w, i, k);
    }

    /** ORs row j of another matrix, or of this one, into row i. */
    method OrRow(i: nat, from: BitMatrix, j: nat)
      requires Valid() && from.Valid() && from.w == w && i < n && j < from.n
      requires from.words == words ==> from.n == n
      modifies words
      ensures Value() == old(Value())[i := old(Value())[i] + old(from.Value())[j]]
    {
      hide Members, IsOr;
      ghost var was, other := words[..], from.words[..];
      RowFits(n, w, i);
      RowFits(from.n, w, j);
      if from.words == words { RowsSameOrApart(n, w, i, j); }
      var to, at := i * w, j * w;
      assert words[to..to + w] == was[to..to + w] && from.words[at..at + w] == other[at..at + w];
      OrWords(words, to, from.words, at, w);
      assert words[to..to + w] == words[..][to..to + w];
      MembersOr(was[to..to + w], other[at..at + w], words[..][to..to + w]);
      OneRow(was, words[..], n, w, i);
    }

    /** Copies row j over row i. */
    method CopyRow(i: nat, j: nat)
      requires Valid() && i < n && j < n
      modifies words
      ensures Value() == old(Value())[i := old(Value())[j]]
    {
      hide Members;
      ghost var was := words[..];
      RowsSameOrApart(n, w, i, j);
      var to, from := i * w, j * w;
      CopyWords(words, to, from, w);
      ghost var now := words[..];
      assert now[to..to + w] == was[from..from + w];
      OneRow(was, now, n, w, i);
    }

    /** BIT on row i. */
    method Test(i: nat, k: nat) returns (b: bool)
      requires Valid() && i < n && k < bits
      ensures b <==> k in Value()[i]
    {
      BitInRow(words[..], n, w, i, k);
      b := Bit(words[i * w + k / BITS_PER_WORD], k % BITS_PER_WORD);
    }
  }
}
