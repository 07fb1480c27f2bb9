/** md5sum/md5.c: md5_init, md5_append and md5_finish over any block function, against
    sections 3.1 to 3.5 of RFC 1321. */
module Md5Sum {

  type Byte = b: int | 0 <= b < 256
  type Word = w: int | 0 <= w < 0x1_0000_0000

  /** The digest buffer of four words. */
  datatype Abcd = Abcd(a: Word, b: Word, c: Word, d: Word)

  /** md5_process: the effect of one block of 64 bytes on the digest buffer. */
  type Block = (Abcd, seq<Byte>) -> Abcd

  // ----- RFC 1321 -----

  /** Section 3.4: the blocks are taken one after the other. */
  ghost function Fold(f: Block, h: Abcd, m: seq<Byte>): Abcd
    requires |m| % 64 == 0
    decreases |m|
  {
    if m == [] then h else Fold(f, f(h, m[..64]), m[64..])
  }

  /** A word as four bytes, the low-order one first. */
  function Bytes(w: Word): seq<Byte>
  {
    [w % 0x100, w / 0x100 % 0x100, w / 0x1_0000 % 0x100, w / 0x100_0000]
  }

  /** Sections 3.1 and 3.2: a 1 bit, zeros up to 56 bytes modulo 64, and the length in bits
      as two words, the low-order one first. */
  ghost function Padded(m: seq<Byte>): (p: seq<Byte>)
    ensures |p| % 64 == 0
  {
    PadFits(|m|);
    var bits := 8 * |m|;
    m + [0x80] + Zeros((55 - |m|) % 64) + Bytes(bits % 0x1_0000_0000) + Bytes(bits / 0x1_0000_0000 % 0x1_0000_0000)
  }

  lemma PadFits(n: nat)
    ensures (n + 1 + (55 - n) % 64 + 8) % 64 == 0
  {
    var q := (55 - n) / 64;
    assert n + 1 + (55 - n) % 64 + 8 == 64 * (1 - q);
  }

  function Zeros(n: nat): seq<Byte> { seq(n, _ => 0) }

  const INIT := Abcd(0x67452301, 0xefcdab89, 0x98badcfe, 0x10325476)

  function Output(h: Abcd): seq<Byte> { Bytes(h.a) + Bytes(h.b) + Bytes(h.c) + Bytes(h.d) }

  ghost function Digest(f: Block, m: seq<Byte>): seq<Byte> { Output(Fold(f, INIT, Padded(m))) }

  /** The number that bytes stand for when the low-order one comes first. */
  function Little(bytes: seq<Byte>): nat
  {
    if bytes == [] then 0 else bytes[0] + 0x100 * Little(bytes[1..])
  }

  lemma LittleMore(x: Byte, b: seq<Byte>)
    ensures Little([x] + b) == x as int + 0x100 * Little(b)
  {
    assert ([x] + b)[1..] == b;
  }

  lemma FourMore(a: seq<Byte>, b: seq<Byte>)
    requires |a| == 4
    ensures Little(a + b) ==
            a[0] as int + 0x100 * a[1] as int + 0x1_0000 * a[2] as int + 0x100_0000 * a[3] as int +
            0x1_0000_0000 * Little(b)
  {
    LittleMore(a[3], b);
    LittleMore(a[2], [a[3]] + b);
    LittleMore(a[1], [a[2]] + ([a[3]] + b));
    LittleMore(a[0], [a[1]] + ([a[2]] + ([a[3]] + b)));
    hide Little;
    assert a + b == [a[0]] + ([a[1]] + ([a[2]] + ([a[3]] + b)));
  }

  /** A word's bytes are its digits to the base 256, the low-order one first. */
  lemma BytesOfWord(w: Word, b: seq<Byte>)
    ensures Bytes(w) == b <==> |b| == 4 && Little(b) == w
  {
    if |b| == 4 {
      DigitsOf(w, b[0], b[1], b[2], b[3]);
      assert Little([]) == 0 && b + [] == b;
      hide Little;
      FourMore(b, []);
      assert b == [b[0], b[1], b[2], b[3]];
    }
  }

  lemma DigitsOf(w: int, b0: Byte, b1: Byte, b2: Byte, b3: Byte)
    requires 0 <= w < 0x1_0000_0000
    ensures w == b0 as int + 0x100 * b1 as int + 0x1_0000 * b2 as int + 0x100_0000 * b3 as int <==>
            w % 0x100 == b0 && w / 0x100 % 0x100 == b1 && w / 0x1_0000 % 0x100 == b2 && w / 0x100_0000 == b3
  {
    var r := b3 as int;
    DigitAndRest(w / 0x1_0000, b2, r);
    DigitAndRest(w / 0x100, b1, b2 as int + 0x100 * r);
    DigitAndRest(w, b0, b1 as int + 0x100 * (b2 as int + 0x100 * r));
  }

  lemma DigitAndRest(w: int, b: Byte, rest: int)
    ensures w == b as int + 0x100 * rest <==> w % 0x100 == b && w / 0x100 == rest
  {}

  /** What is added to a message: a 1 bit, zeros, and in the last eight bytes its length in bits
      modulo 2 to the 64, the low-order byte first. */
  lemma PaddingIs(m: seq<Byte>)
    ensures var p, n := Padded(m), |Padded(m)|;
            && |m| + 9 <= n && p[..|m|] == m && p[|m|] == 0x80
            && (forall k :: |m| < k < n - 8 ==> p[k] == 0)
            && Little(p[n - 8..]) == 8 * |m| % 0x1_0000_0000_0000_0000
  {
    var bits := 8 * |m|;
    var lo, hi := bits % 0x1_0000_0000, bits / 0x1_0000_0000 % 0x1_0000_0000;
    assert Padded(m)[|Padded(m)| - 8..] == Bytes(lo) + Bytes(hi);
    BytesOfWord(lo, Bytes(lo));
    BytesOfWord(hi, Bytes(hi));
    FourMore(Bytes(lo), Bytes(hi));
    FourMore(Bytes(lo), []);
    assert Bytes(lo) + [] == Bytes(lo) && Little([]) == 0;
    TwoWords(bits);
  }

  lemma TwoWords(n: nat)
    ensures n % 0x1_0000_0000 + 0x1_0000_0000 * (n / 0x1_0000_0000 % 0x1_0000_0000) == n % 0x1_0000_0000_0000_0000
  {
    var q := n / 0x1_0000_0000;
    assert n == 0x1_0000_0000_0000_0000 * (q / 0x1_0000_0000) + 0x1_0000_0000 * (q % 0x1_0000_0000) + n % 0x1_0000_0000;
  }

  /** Section 3.3: the bytes of the initial buffer. */
  lemma InitialBuffer()
    ensures Output(INIT) == [0x01, 0x23, 0x45, 0x67, 0x89, 0xab, 0xcd, 0xef,
                             0xfe, 0xdc, 0xba, 0x98, 0x76, 0x54, 0x32, 0x10]
  {
    hide Bytes;
    FourBytes(INIT.a, 0x01, 0x23, 0x45, 0x67);
    FourBytes(INIT.b, 0x89, 0xab, 0xcd, 0xef);
    FourBytes(INIT.c, 0xfe, 0xdc, 0xba, 0x98);
    FourBytes(INIT.d, 0x76, 0x54, 0x32, 0x10);
  }

  lemma FourBytes(w: Word, b0: Byte, b1: Byte, b2: Byte, b3: Byte)
    requires w == b0 as int + 0x100 * b1 as int + 0x1_0000 * b2 as int + 0x100_0000 * b3 as int
    ensures Bytes(w) == [b0, b1, b2, b3]
  {
    DigitsOf(w, b0, b1, b2, b3);
  }

  /** Section 3.5: the digest is a, b, c and d, each with the low-order byte first. */
  lemma OutputIs(h: Abcd)
    ensures |Output(h)| == 16 && Little(Output(h)[..4]) == h.a && Little(Output(h)[4..8]) == h.b
    ensures Little(Output(h)[8..12]) == h.c && Little(Output(h)[12..]) == h.d
  {
    BytesOfWord(h.a, Output(h)[..4]);
    BytesOfWord(h.b, Output(h)[4..8]);
    BytesOfWord(h.c, Output(h)[8..12]);
    BytesOfWord(h.d, Output(h)[12..]);
  }

  /** The padding is the shortest that leaves room for the length. */
  lemma PaddingIsLeast(m: seq<Byte>, n: nat)
    requires (|m| + 1 + n) % 64 == 56
    ensures (55 - |m|) % 64 <= n && (|m| + 1 + (55 - |m|) % 64) % 64 == 56
  {}

  lemma {:induction false} FoldJoin(f: Block, h: Abcd, a: seq<Byte>, b: seq<Byte>)
    requires |a| % 64 == 0 && |b| % 64 == 0
    ensures |a + b| % 64 == 0 && Fold(f, h, a + b) == Fold(f, Fold(f, h, a), b)
    decreases |a|
  {
    if a == [] {
      assert a + b == b;
    } else {
      FoldJoin(f, f(h, a[..64]), a[64..], b);
      assert (a + b)[..64] == a[..64] && (a + b)[64..] == a[64..] + b;
    }
  }

  lemma FoldOne(f: Block, h: Abcd, a: seq<Byte>, block: seq<Byte>)
    requires |a| % 64 == 0 && |block| == 64
    ensures Fold(f, h, a + block) == f(Fold(f, h, a), block)
  {
    FoldJoin(f, h, a, block);
    assert block[..64] == block && block[64..] == [];
    assert Fold(f, f(Fold(f, h, a), block), []) == f(Fold(f, h, a), block);
  }

  // ----- the number of bits -----

  /** The two counter words hold the length in bits modulo 2 to the 64. */
  predicate Counts(lo: Word, hi: Word, n: nat)
  {
    lo == 8 * n % 0x1_0000_0000 && hi == 8 * n / 0x1_0000_0000 % 0x1_0000_0000
  }

  /** The offset in the buffer is the length modulo 64. */
  lemma CountOffset(lo: Word, hi: Word, n: nat)
    requires Counts(lo, hi, n)
    ensures lo / 8 % 64 == n % 64
  {
    var q := 8 * n / 0x1_0000_0000;
    assert lo == 8 * (n - 0x2000_0000 * q);
    assert lo / 8 == n - 64 * (0x80_0000 * q);
    ModShift(n, 0x80_0000 * q);
  }

  lemma ModShift(n: int, k: int)
    ensures (n - 64 * k) % 64 == n % 64
  {}

  /** Adding n bytes, with the carry found by comparing. */
  lemma CountAdd(lo: Word, hi: Word, m: nat, n: nat)
    requires Counts(lo, hi, m) && n < 0x8000_0000
    ensures var nbits := 8 * n % 0x1_0000_0000;
            var lo1 := (lo + nbits) % 0x1_0000_0000;
            var hi1 := (hi + n / 0x2000_0000) % 0x1_0000_0000;
            Counts(lo1, if lo1 < nbits then (hi1 + 1) % 0x1_0000_0000 else hi1, m + n)
  {
    var nbits := 8 * n % 0x1_0000_0000;
    assert 8 * n == 0x1_0000_0000 * (n / 0x2000_0000) + nbits;
    assert 8 * m == 0x1_0000_0000 * (8 * m / 0x1_0000_0000) + lo;
    var lo1 := (lo + nbits) % 0x1_0000_0000;
    var carry := if lo1 < nbits then 1 else 0;
    assert lo + nbits == lo1 + 0x1_0000_0000 * carry;
    var high := 8 * m / 0x1_0000_0000 + n / 0x2000_0000 + carry;
    assert 8 * (m + n) == 0x1_0000_0000 * high + lo1;
    assert 8 * (m + n) / 0x1_0000_0000 == high;
    ModSum(8 * m / 0x1_0000_0000, n / 0x2000_0000);
    ModSum(8 * m / 0x1_0000_0000 + n / 0x2000_0000, 1);
  }

  lemma ModSum(a: nat, b: nat)
    ensures (a % 0x1_0000_0000 + b) % 0x1_0000_0000 == (a + b) % 0x1_0000_0000
  {}

  // ----- md5_state_t -----

  /** The message's full blocks have been folded in, and what is left of it is in the buffer. */
  ghost predicate Absorbed(f: Block, m: seq<Byte>, buf: seq<Byte>, abcd: Abcd)
  {
    && |buf| == 64 && abcd == Fold(f, INIT, m[..|m| - |m| % 64])
    && buf[..|m| % 64] == m[|m| - |m| % 64..]
  }

  class State {
    const f: Block
    var count0: Word
    var count1: Word
    var abcd: Abcd
    const buf: array<Byte>
    /** The bytes appended so far. */
    ghost var m: seq<Byte>

    ghost predicate Valid()
      reads this, buf
    {
      buf.Length == 64 && Counts(count0, count1, |m|) && Absorbed(f, m, buf[..], abcd)
    }

    constructor (f: Block)
      ensures Valid() && fresh(buf) && m == [] && this.f == f
    {
      this.f := f;
      count0, count1 := 0, 0;
      abcd := INIT;
      buf := new Byte[64](_ => 0);
      m := [];
      new;
      assert m[..0] == [] && buf[..0] == [];
    }

    /** The message length, in bits. */
    method Count(nbytes: nat)
      requires Counts(count0, count1, |m|) && nbytes < 0x8000_0000
      modifies this`count0, this`count1
      ensures Counts(count0, count1, |m| + nbytes)
    {
      CountAdd(count0, count1, |m|, nbytes);
      hide Counts;
      var nbits := nbytes * 8 % 0x1_0000_0000;
      count1 := (count1 + nbytes / 0x2000_0000) % 0x1_0000_0000;
      count0 := (count0 + nbits) % 0x1_0000_0000;
      if count0 < nbits {
        count1 := (count1 + 1) % 0x1_0000_0000;
      }
    }

    method Append(data: seq<Byte>)
      requires Valid() && |data| < 0x8000_0000
      modifies this, buf
      ensures Valid() && m == old(m) + data
    {
      hide Counts, Fold, Absorbed;
      if |data| == 0 {
        assert m + data == m;
        return;
      }
      CountOffset(count0, count1, |m|);
      var offset := count0 / 8 % 64;
      Count(|data|);
      var p := 0;
      if offset != 0 {
        p := FillBuffer(data, offset);
        if offset + p < 64 {
          m := m + data;
          return;
        }
      } else {
        WholeBlocks(f, m, data, buf[..], abcd);
      }
      AppendRest(data, p);
      m := m + data;
    }

    /** From a point where the message so far ends on a block: full blocks, and then a final
        partial block into the buffer. */
    method AppendRest(data: seq<Byte>, p0: nat)
      requires buf.Length == 64 && p0 <= |data| && (|m| + p0) % 64 == 0 && abcd == Fold(f, INIT, (m + data)[..|m| + p0])
      modifies this`abcd, buf
      ensures Absorbed(f, m + data, buf[..], abcd)
    {
      hide Fold, Absorbed;
      var p := FullBlocks(data, p0);
      if |data| - p != 0 {
        Copy(0, data[p..]);
      }
      assert buf[..|data| - p] == data[p..];
      Leftover(f, m, data, p, buf[..], abcd);
    }

    /** An initial partial block: it is processed when it has become full. */
    method FillBuffer(data: seq<Byte>, offset: nat) returns (copy: nat)
      requires buf.Length == 64 && 0 < offset == |m| % 64 && |data| > 0 && Absorbed(f, m, buf[..], abcd)
      modifies this`abcd, buf
      ensures copy <= |data| && offset + copy <= 64
      ensures offset + copy < 64 ==> Absorbed(f, m + data, buf[..], abcd)
      ensures offset + copy == 64 ==> (|m| + copy) % 64 == 0 && abcd == Fold(f, INIT, (m + data)[..|m| + copy])
    {
      hide Fold;
      copy := if offset + |data| > 64 then 64 - offset else |data|;
      ghost var was := buf[..];
      Copy(offset, data[..copy]);
      assert buf[..offset + copy] == was[..offset] + data[..copy];
      if offset + copy < 64 {
        assert data[..copy] == data;
        Short(f, m, data, was, buf[..], abcd);
        return;
      }
      assert buf[..64] == buf[..];
      FirstBlock(f, m, data, copy, buf[..], abcd);
      abcd := f(abcd, buf[..]);
    }

    /** The blocks that lie in data as a whole. */
    method FullBlocks(data: seq<Byte>, p0: nat) returns (p: nat)
      requires p0 <= |data| && (|m| + p0) % 64 == 0 && abcd == Fold(f, INIT, (m + data)[..|m| + p0])
      modifies this`abcd
      ensures p <= |data| && |data| - p < 64 && (|m| + p) % 64 == 0 && abcd == Fold(f, INIT, (m + data)[..|m| + p])
    {
      hide Fold;
      p := p0;
      while |data| - p >= 64
        invariant p <= |data| && (|m| + p) % 64 == 0
        invariant abcd == Fold(f, INIT, (m + data)[..|m| + p])
      {
        NextBlock(f, m, data, p);
        abcd := f(abcd, data[p..p + 64]);
        p := p + 64;
      }
    }

    /** memcpy into the buffer. */
    method Copy(offset: nat, bytes: seq<Byte>)
      requires offset + |bytes| <= buf.Length
      modifies buf
      ensures buf[..] == old(buf[..offset]) + bytes + old(buf[offset + |bytes|..])
    {
      for i := 0 to |bytes|
        invariant buf[..] == old(buf[..offset]) + bytes[..i] + old(buf[offset + i..])
      {
        buf[offset + i] := bytes[i];
      }
    }

    method Finish() returns (digest: seq<Byte>)
      requires Valid()
      modifies this, buf
      ensures digest == Digest(f, old(m))
    {
      hide Counts, Fold, Padded, Absorbed;
      ghost var m0 := m;
      CountBytes(count0, count1, m);
      var data := Bytes(count0) + Bytes(count1);
      CountOffset(count0, count1, |m|);
      PadLength(count0 / 8, |m|);
      var n := (55 - count0 / 8) % 64 + 1;
      var pad: seq<Byte> := [0x80] + Zeros(63);
      Append(pad[..n]);
      Append(data);
      PaddedIs(m0, n, pad, data);
      assert m == Padded(m0);
      WholeMessage(f, m, buf[..], abcd);
      digest := Output(abcd);
    }
  }

  lemma WholeMessage(f: Block, m: seq<Byte>, buf: seq<Byte>, abcd: Abcd)
    requires Absorbed(f, m, buf, abcd) && |m| % 64 == 0
    ensures abcd == Fold(f, INIT, m)
  {
    assert m[..|m|] == m;
  }

  lemma PadLength(k: nat, n: nat)
    requires k % 64 == n % 64
    ensures (55 - k) % 64 == (55 - n) % 64
  {}

  lemma CountBytes(lo: Word, hi: Word, m: seq<Byte>)
    requires Counts(lo, hi, |m|)
    ensures lo == 8 * |m| % 0x1_0000_0000 && hi == 8 * |m| / 0x1_0000_0000 % 0x1_0000_0000
  {}

  lemma PaddedIs(m: seq<Byte>, n: nat, pad: seq<Byte>, data: seq<Byte>)
    requires n == (55 - |m|) % 64 + 1 && pad == [0x80] + Zeros(63)
    requires data == Bytes(8 * |m| % 0x1_0000_0000) + Bytes(8 * |m| / 0x1_0000_0000 % 0x1_0000_0000)
    ensures m + pad[..n] + data == Padded(m)
  {
    assert pad[..n] == [0x80] + Zeros(n - 1);
  }

  lemma WholeBlocks(f: Block, m: seq<Byte>, data: seq<Byte>, buf: seq<Byte>, abcd: Abcd)
    requires |m| % 64 == 0 && Absorbed(f, m, buf, abcd)
    ensures abcd == Fold(f, INIT, (m + data)[..|m| + 0])
  {
    assert (m + data)[..|m| + 0] == m == m[..|m|];
  }

  /** Everything appended fits in the buffer beside what is there. */
  lemma Short(f: Block, m: seq<Byte>, data: seq<Byte>, was: seq<Byte>, buf: seq<Byte>, abcd: Abcd)
    requires Absorbed(f, m, was, abcd) && |m| % 64 + |data| < 64 && |buf| == 64
    requires buf[..|m| % 64 + |data|] == was[..|m| % 64] + data
    ensures Absorbed(f, m + data, buf, abcd)
  {
    var all, k := m + data, |m| - |m| % 64;
    assert |all| - |all| % 64 == k && all[..k] == m[..k] && all[k..] == m[k..] + data;
  }

  /** The buffer has been filled up. */
  lemma FirstBlock(f: Block, m: seq<Byte>, data: seq<Byte>, p: nat, buf: seq<Byte>, abcd: Abcd)
    requires p <= |data| && |m| % 64 + p == 64 && abcd == Fold(f, INIT, m[..|m| - |m| % 64])
    requires buf == m[|m| - |m| % 64..] + data[..p]
    ensures (|m| + p) % 64 == 0 && f(abcd, buf) == Fold(f, INIT, (m + data)[..|m| + p])
  {
    var k := |m| - |m| % 64;
    assert (m + data)[..|m| + p] == m[..k] + buf;
    FoldOne(f, INIT, m[..k], buf);
  }

  lemma NextBlock(f: Block, m: seq<Byte>, data: seq<Byte>, p: nat)
    requires p + 64 <= |data| && (|m| + p) % 64 == 0
    ensures (|m| + p + 64) % 64 == 0
    ensures Fold(f, INIT, (m + data)[..|m| + p + 64]) == f(Fold(f, INIT, (m + data)[..|m| + p]), data[p..p + 64])
  {
    assert (m + data)[..|m| + p + 64] == (m + data)[..|m| + p] + data[p..p + 64];
    FoldOne(f, INIT, (m + data)[..|m| + p], data[p..p + 64]);
  }

  lemma Leftover(f: Block, m: seq<Byte>, data: seq<Byte>, p: nat, buf: seq<Byte>, abcd: Abcd)
    requires p <= |data| && (|m| + p) % 64 == 0 && |data| - p < 64 && |buf| == 64 && buf[..|data| - p] == data[p..]
    requires abcd == Fold(f, INIT, (m + data)[..|m| + p])
    ensures Absorbed(f, m + data, buf, abcd)
  {
    var all := m + data;
    assert |all| % 64 == |data| - p && all[|m| + p..] == data[p..];
  }

  /** The digest does not depend on how the message was cut into pieces. */
  method DigestOf(f: Block, pieces: seq<seq<Byte>>) returns (digest: seq<Byte>)
    requires forall i :: 0 <= i < |pieces| ==> |pieces[i]| < 0x8000_0000
    ensures digest == Digest(f, Concat(pieces))
  {
    var s := new State(f);
    for i := 0 to |pieces|
      invariant s.Valid() && fresh(s) && fresh(s.buf) && s.f == f && s.m == Concat(pieces[..i])
    {
      assert pieces[..i + 1][..i] == pieces[..i];
      s.Append(pieces[i]);
    }
    assert pieces[..|pieces|] == pieces;
    digest := s.Finish();
  }

  ghost function Concat(pieces: seq<seq<Byte>>): seq<Byte>
  {
    if pieces == [] then [] else Concat(pieces[..|pieces| - 1]) + pieces[|pieces| - 1]
  }
}
