/** matpic/ihex.c: writing and reading Intel HEX. */
module Ihex {

  type Byte = b: int | 0 <= b < 256

  datatype Segment = Segment(address: nat, bytes: seq<Byte>)

  // ----- numbers in hexadecimal -----

  const HEX: string := "0123456789ABCDEF"

  /** mfprintnum for base 16: at least p digits. */
  function PrintNum(n: nat, p: int): string
    decreases n + if p > 0 then p else 0
  {
    if n < 16 && p <= 1 then [HEX[n]] else PrintNum(n / 16, p - 1) + [HEX[n % 16]]
  }

  /** hexlookup: 16 marks what is not a digit; the underscore has 17. */
  function HexLookup(c: char): (d: nat)
    ensures d <= 17
  {
    if '0' <= c <= '9' then (c - '0') as int
    else if 'A' <= c <= 'F' then (c - 'A') as int + 10
    else if 'a' <= c <= 'f' then (c - 'a') as int + 10
    else if c == '_' then 17
    else 16
  }

  lemma DigitReads(n: nat)
    requires n < 16
    ensures HexLookup(HEX[n]) == n
  {}

  lemma TwoDigits(n: nat)
    requires n < 256
    ensures PrintNum(n, 2) == [HEX[n / 16], HEX[n % 16]]
  {
    assert PrintNum(n / 16, 1) == [HEX[n / 16]];
  }

  lemma FourDigits(n: nat)
    requires n < 0x1_0000
    ensures PrintNum(n, 4) == PrintNum(n / 256, 2) + PrintNum(n % 256, 2)
  {
    TwoDigits(n / 256);
    TwoDigits(n % 256);
    assert n / 16 / 16 == n / 256 && n / 16 % 16 == n % 256 / 16 && n % 16 == n % 256 % 16;
    assert PrintNum(n, 4) == PrintNum(n / 16, 3) + [HEX[n % 16]];
    assert PrintNum(n / 16, 3) == PrintNum(n / 256, 2) + [HEX[n / 16 % 16]];
  }

  // ----- what is written -----

  /** The low 16 bits of the address are in the record, the others in the extension before it. */
  function Checksum(sum: int): Byte { (0x100 - sum) % 0x100 }

  function Sum(bytes: seq<Byte>): nat
  {
    if bytes == [] then 0 else Sum(bytes[..|bytes| - 1]) + bytes[|bytes| - 1]
  }

  function HexBytes(bytes: seq<Byte>): string
  {
    if bytes == [] then "" else HexBytes(bytes[..|bytes| - 1]) + PrintNum(bytes[|bytes| - 1], 2)
  }

  function ExtensionLine(top: nat): string
  {
    ":02000004" + PrintNum(top, 4) + PrintNum(Checksum(6 + top % 0x100 + top / 0x100), 2) + "\n"
  }

  function DataLine(address: nat, bytes: seq<Byte>): string
    requires |bytes| < 256
  {
    ":" + PrintNum(|bytes|, 2) + PrintNum(address % 0x1_0000, 4) + "00" + HexBytes(bytes)
    + PrintNum(Checksum(Sum(bytes) + address / 0x100 + address % 0x100 + |bytes|), 2) + "\n"
  }

  const IHLL := 16

  /** A segment in records of 16 bytes, the last one possibly shorter. */
  function Chunks(address: nat, bytes: seq<Byte>): (r: seq<Segment>)
    ensures forall k :: 0 <= k < |r| ==> 0 < |r[k].bytes| <= IHLL
    decreases |bytes|
  {
    if bytes == [] then []
    else if |bytes| <= IHLL then [Segment(address, bytes)]
    else [Segment(address, bytes[..IHLL])] + Chunks(address + IHLL, bytes[IHLL..])
  }

  function AllChunks(segments: seq<Segment>): (r: seq<Segment>)
    ensures forall k :: 0 <= k < |r| ==> 0 < |r[k].bytes| <= IHLL
  {
    if segments == [] then []
    else AllChunks(segments[..|segments| - 1]) + Chunks(segments[|segments| - 1].address,
      segments[|segments| - 1].bytes)
  }

  /** The upper half of the address that is in force after the records. */
  function TopAfter(top: nat, records: seq<Segment>): nat
  {
    if records == [] then top else records[|records| - 1].address / 0x1_0000
  }

  function RecordText(top: nat, r: Segment): string
    requires |r.bytes| < 256
  {
    (if top != r.address / 0x1_0000 then ExtensionLine(r.address / 0x1_0000) else "") + DataLine(r.address, r.bytes)
  }

  function Text(top: nat, records: seq<Segment>): string
    requires forall k :: 0 <= k < |records| ==> |records[k].bytes| < 256
  {
    if records == [] then ""
    else
      var front, last := records[..|records| - 1], records[|records| - 1];
      Text(top, front) + RecordText(TopAfter(top, front), last)
  }

  const END: string := ":00000001FF\n"

  class Writer {
    const buf: array<Byte>
    var pos: nat
    var crc: int
    var top: nat
    var address: nat
    var out: string

    ghost predicate Valid()
      reads this, buf
    {
      buf.Length == IHLL && pos <= IHLL && crc == Sum(buf[..pos])
    }

    constructor ()
      ensures Valid() && fresh(buf) && pos == 0 && top == 0 && out == ""
    {
      buf := new Byte[IHLL](_ => 0);
      pos, crc, top, address, out := 0, 0, 0, 0, "";
      new;
      assert buf[..0] == [];
    }

    /** endln: what is in the buffer becomes a record. */
    method EndLine()
      requires Valid() && pos > 0
      modifies this
      ensures Valid() && pos == 0 && address == old(address) + old(pos) && top == old(address) / 0x1_0000
      ensures out == old(out) + RecordText(old(top), Segment(old(address), old(buf[..pos])))
    {
      hide PrintNum, HexBytes, Sum;
      ghost var bytes, top0, out0 := buf[..pos], top, out;
      if (top != 0 || address / 0x1_0000 != 0) && top != address / 0x1_0000 {
        top := address / 0x1_0000;
        out := out +
          (":02000004" + PrintNum(top, 4) + PrintNum((0x100 - (6 + top % 0x100 + top / 0x100)) % 0x100, 2) + "\n");
        assert out == out0 + ExtensionLine(top);
      }
      var digits := PrintBuffer();
      crc := crc + address / 0x100;
      crc := crc + address % 0x100;
      var line := ":" + PrintNum(pos, 2) + PrintNum(address % 0x1_0000, 4) + "00" + digits
                  + PrintNum((0x100 - (crc + pos)) % 0x100, 2) + "\n";
      RecordPrinted(top0, address, bytes, out0, out, line);
      out := out + line;
      address := address + pos;
      crc := 0;
      pos := 0;
      NoBytes(buf[..0]);
    }

    method PrintBuffer() returns (digits: string)
      requires pos <= buf.Length
      ensures digits == HexBytes(buf[..pos])
    {
      digits := "";
      for i := 0 to pos
        invariant digits == HexBytes(buf[..i])
      {
        assert buf[..i + 1][..i] == buf[..i];
        digits := digits + PrintNum(buf[i], 2);
      }
    }

    /** ihex_write. */
    method Write(segments: seq<Segment>)
      requires Valid() && pos == 0 && top == 0 && out == ""
      modifies this, buf
      ensures out == Written(segments)
    {
      hide Text, RecordText, Sum, Chunks, HexBytes, PrintNum;
      ghost var done: seq<Segment> := [];
      NothingWritten();
      for i := 0 to |segments|
        invariant Valid() && pos == 0 && done == AllChunks(segments[..i]) && top == TopAfter(0, done)
        invariant out == Text(0, done)
      {
        address := segments[i].address;
        WriteSegment(segments[i].bytes, done);
        assert segments[..i + 1][..i] == segments[..i];
        done := done + Chunks(segments[i].address, segments[i].bytes);
      }
      assert segments[..|segments|] == segments;
      out := out + END;
    }

    /** The bytes of one segment, from the current address on. */
    method WriteSegment(bytes: seq<Byte>, ghost done: seq<Segment>)
      requires Valid() && pos == 0 && (forall k :: 0 <= k < |done| ==> 0 < |done[k].bytes| <= IHLL)
      requires top == TopAfter(0, done) && out == Text(0, done)
      modifies this, buf
      ensures Valid() && pos == 0
      ensures var all := done + Chunks(old(address), bytes); top == TopAfter(0, all) && out == Text(0, all)
    {
      hide Text, RecordText, Sum, HexBytes, PrintNum, Chunks;
      ghost var start, full: seq<Segment> := address, done;
      Unwritten(done, start, bytes);
      for bufp := 0 to |bytes|
        invariant Valid() && pos < IHLL
        invariant Pending(done, start, bytes, full, address, buf[..pos], bufp)
        invariant top == TopAfter(0, full) && out == Text(0, full)
      {
        ghost var was := buf[..pos];
        Store(bytes[bufp]);
        StoredOne(done, start, bytes, full, address, was, bufp);
        if pos == 16 {
          ghost var r := Segment(address, buf[..pos]);
          FullChunk(done, start, bytes, full, address, buf[..pos], bufp + 1);
          TextMore(full, r);
          EndLine();
          full := full + [r];
        }
      }
      LastChunk(done, start, bytes, full, address, buf[..pos]);
      if pos != 0 {
        TextMore(full, Segment(address, buf[..pos]));
        EndLine();
      }
    }

    method Store(b: Byte)
      requires Valid() && pos < IHLL
      modifies this`pos, this`crc, buf
      ensures Valid() && pos == old(pos) + 1 && buf[..pos] == old(buf[..pos]) + [b]
    {
      ghost var was := buf[..pos];
      buf[pos] := b;
      pos := pos + 1;
      crc := crc + b;
      assert buf[..pos] == was + [b] && buf[..pos][..pos - 1] == was;
    }
  }

  lemma NoBytes(bytes: seq<Byte>)
    requires bytes == []
    ensures Sum(bytes) == 0
  {}

  lemma NothingWritten()
    ensures Text(0, []) == "" && TopAfter(0, []) == 0
  {}

  lemma RecordPrinted(top0: nat, address: nat, bytes: seq<Byte>, out0: string, out: string, line: string)
    requires |bytes| < 256
    requires out == out0 + if top0 != address / 0x1_0000 then ExtensionLine(address / 0x1_0000) else ""
    requires line == DataLine(address, bytes)
    ensures out + line == out0 + RecordText(top0, Segment(address, bytes))
  {
    hide ExtensionLine, DataLine;
  }

  /** The records written so far, with the buffer and what is still to come, make up those
      before the segment and the segment's chunks. */
  ghost predicate Pending(done: seq<Segment>, start: nat, bytes: seq<Byte>, full: seq<Segment>, address: nat,
                          buf: seq<Byte>, bufp: nat)
  {
    && |buf| <= bufp <= |bytes| && buf == bytes[bufp - |buf|..bufp]
    && done + Chunks(start, bytes) == full + Chunks(address, bytes[bufp - |buf|..])
    && (forall k :: 0 <= k < |full| ==> 0 < |full[k].bytes| <= IHLL)
  }

  lemma Unwritten(done: seq<Segment>, start: nat, bytes: seq<Byte>)
    requires forall k :: 0 <= k < |done| ==> 0 < |done[k].bytes| <= IHLL
    ensures Pending(done, start, bytes, done, start, [], 0)
  {
    assert bytes[0..] == bytes;
  }

  lemma StoredOne(done: seq<Segment>, start: nat, bytes: seq<Byte>, full: seq<Segment>, address: nat, buf: seq<Byte>,
                  bufp: nat)
    requires Pending(done, start, bytes, full, address, buf, bufp) && bufp < |bytes|
    ensures Pending(done, start, bytes, full, address, buf + [bytes[bufp]], bufp + 1)
  {
    hide Chunks;
  }

  /** The buffer holds a full chunk. */
  lemma FullChunk(done: seq<Segment>, start: nat, bytes: seq<Byte>, full: seq<Segment>, address: nat, buf: seq<Byte>,
                  bufp: nat)
    requires Pending(done, start, bytes, full, address, buf, bufp) && |buf| == IHLL
    ensures Pending(done, start, bytes, full + [Segment(address, buf)], address + IHLL, [], bufp)
  {
    var rest := bytes[bufp - IHLL..];
    assert rest[..IHLL] == buf && rest[IHLL..] == bytes[bufp..];
    if |rest| == IHLL { assert rest == buf; }
    assert Chunks(address, rest) == [Segment(address, buf)] + Chunks(address + IHLL, bytes[bufp..]);
    hide Chunks;
    assert full + ([Segment(address, buf)] + Chunks(address + IHLL, bytes[bufp..])) ==
      full + [Segment(address, buf)] + Chunks(address + IHLL, bytes[bufp..]);
  }

  /** What is left in the buffer is the last chunk. */
  lemma LastChunk(done: seq<Segment>, start: nat, bytes: seq<Byte>, full: seq<Segment>, address: nat, buf: seq<Byte>)
    requires Pending(done, start, bytes, full, address, buf, |bytes|) && |buf| < IHLL
    ensures done + Chunks(start, bytes) == if buf == [] then full else full + [Segment(address, buf)]
    ensures forall k :: 0 <= k < |full| ==> 0 < |full[k].bytes| <= IHLL
  {
    assert bytes[|bytes| - |buf|..] == buf;
    assert full + [] == full;
  }

  lemma TextMore(records: seq<Segment>, r: Segment)
    requires (forall k :: 0 <= k < |records| ==> |records[k].bytes| < 256) && |r.bytes| < 256
    ensures Text(0, records + [r]) == Text(0, records) + RecordText(TopAfter(0, records), r)
    ensures TopAfter(0, records + [r]) == r.address / 0x1_0000
  {
    assert (records + [r])[..|records|] == records;
    hide RecordText;
  }

  // ----- what is read -----

  datatype Sym = Sym(addr: nat, len: nat)

  datatype Warning = NoEndRecord | ChecksumMismatch | ExcessCharacters | InvalidData

  datatype Reading = Reading(syms: seq<Sym>, bytes: seq<Byte>, warnings: seq<Warning>)

  function Add(a: Reading, b: Reading): Reading
  {
    Reading(a.syms + b.syms, a.bytes + b.bytes, a.warnings + b.warnings)
  }

  function SkipSp(s: string): (t: string)
    ensures |t| <= |s|
  {
    if s != "" && (s[0] == ' ' || s[0] == '\t') then SkipSp(s[1..]) else s
  }

  function SkipCr(s: string): (t: string)
    ensures |t| <= |s|
  {
    if s != "" && s[0] == '\r' then SkipCr(s[1..]) else s
  }

  /** skipnl: carriage returns are passed over even when no newline follows. */
  function SkipNl(s: string): (r: (string, bool))
    ensures |r.0| <= |s| && (r.1 ==> |r.0| < |s|)
  {
    var t := SkipCr(s);
    if t != "" && t[0] == '\n' then (t[1..], true) else (t, false)
  }

  function SkipBlank(s: string): (t: string)
    ensures |t| <= |s|
    decreases |s|
  {
    var (t, found) := SkipNl(SkipSp(s));
    if found then SkipBlank(t) else t
  }

  /** The rest of a line that is given up. */
  function DropLine(s: string): (t: string)
    ensures |t| <= |s| && (s != "" ==> |t| < |s|)
  {
    if s == "" then s else if s[0] == '\n' || s[0] == '\r' then s[1..] else DropLine(s[1..])
  }

  /** (l << 4) | r, where a digit can also be 17. */
  function Nibbles(l: nat, r: nat): nat
  {
    if r < 16 then 16 * l + r else if l % 2 == 1 then 16 * l + 1 else 16 * l + 17
  }

  /** (hi << 8) | lo and (hi << 16) | lo, where lo can have one bit too many. */
  function Or8(hi: nat, lo: nat): nat
  {
    0x100 * (if lo >= 0x100 && hi % 2 == 0 then hi + 1 else hi) + lo % 0x100
  }

  function Or16(hi: nat, lo: nat): nat
  {
    0x1_0000 * (if lo >= 0x1_0000 && hi % 2 == 0 then hi + 1 else hi) + lo % 0x1_0000
  }

  /** gethnum: -1, and nothing is passed over, unless two digits come. */
  function GetNum(s: string): (r: (int, string))
    ensures |r.1| <= |s| && r.0 >= -1
  {
    var none: int := -1;
    if |s| < 2 || HexLookup(s[0]) == 16 || HexLookup(s[1]) == 16 then (none, s)
    else (Nibbles(HexLookup(s[0]), HexLookup(s[1])), s[2..])
  }

  datatype Nums = Nums(vals: seq<nat>, rest: string, ok: bool)

  /** n numbers, or as many as there are. */
  function GetNums(s: string, n: nat): (r: Nums)
    ensures |r.rest| <= |s| && (r.ok ==> |r.vals| == n)
    decreases n
  {
    if n == 0 then Nums([], s, true)
    else if GetNum(s).0 < 0 then Nums([], s, false)
    else
      var more := GetNums(GetNum(s).1, n - 1);
      Nums([GetNum(s).0] + more.vals, more.rest, more.ok)
  }

  function Prepend(vals: seq<nat>, more: Nums): Nums { Nums(vals + more.vals, more.rest, more.ok) }

  function SumNums(vals: seq<nat>): nat
  {
    if vals == [] then 0 else vals[0] + SumNums(vals[1..])
  }

  /** char: only the low byte of a number is kept. */
  function LowBytes(vals: seq<nat>): seq<Byte>
  {
    seq(|vals|, k requires 0 <= k < |vals| => vals[k] % 0x100)
  }

  /** What one line adds, the top that it leaves, and where reading goes on. */
  datatype Line = Line(read: Reading, top: nat, rest: string, stop: bool)

  function Bad(syms: seq<Sym>, bytes: seq<Byte>, top: nat, s: string): Line
  {
    Line(Reading(syms, bytes, [InvalidData]), top, SkipNl(DropLine(s)).0, false)
  }

  /** The checksum, and what follows it on the line. */
  function EndOfRecord(syms: seq<Sym>, bytes: seq<Byte>, top: nat, rtype: nat, crc: nat, s: string): Line
  {
    var (n, t) := GetNum(s);
    if n < 0 then Bad(syms, bytes, top, s)
    else
      var w := if (0x100 - crc) % 0x100 != n then [ChecksumMismatch] else [];
      if rtype == 1 then Line(Reading(syms, bytes, w), top, t, true)
      else
        var (u, found) := SkipNl(SkipSp(t));
        if found then Line(Reading(syms, bytes, w), top, u, false)
        else Line(Reading(syms, bytes, w + [ExcessCharacters]), top, SkipNl(DropLine(u)).0, false)
  }

  /** The data, end and extension records. */
  function Body(h: seq<nat>, s: string, top: nat): (l: Line)
    requires |h| == 4
    ensures !l.stop ==> |l.rest| <= |s|
  {
    var len, rtype := h[0], h[3];
    match rtype
    case 0 =>
      var b := GetNums(s, len);
      var syms := [Sym(Or16(top, Or8(h[1], h[2])), len)];
      if !b.ok then Bad(syms, LowBytes(b.vals), top, b.rest)
      else EndOfRecord(syms, LowBytes(b.vals), top, rtype, SumNums(h) + SumNums(b.vals), b.rest)
    case 1 =>
      var b := GetNums(s, len);
      if !b.ok then Bad([], [], top, b.rest)
      else EndOfRecord([], [], top, rtype, SumNums(h) + SumNums(b.vals), b.rest)
    case 4 =>
      if len != 2 then Bad([], [], top, s)
      else
        var b := GetNums(s, 2);
        if !b.ok then Bad([], [], if |b.vals| > 0 then 0x100 * b.vals[0] else top, b.rest)
        else EndOfRecord([], [], Or8(b.vals[0], b.vals[1]), rtype, SumNums(h) + SumNums(b.vals), b.rest)
    case _ => Bad([], [], top, s)
  }

  function ReadLine(s: string, top: nat): Line
  {
    var t := SkipBlank(s);
    if t == "" then Line(Reading([], [], [NoEndRecord]), top, t, true)
    else if t[0] != ':' then Bad([], [], top, t)
    else
      var h := GetNums(t[1..], 4);
      if !h.ok then Bad([], [], top, h.rest)
      else Body(h.vals, h.rest, top)
  }

  lemma LineShrinks(s: string, top: nat)
    ensures var l := ReadLine(s, top); !l.stop ==> |l.rest| < |s|
  {
    hide SkipSp, SkipBlank, SkipNl, DropLine, GetNums, GetNum, SumNums, LowBytes, Or8, Or16;
  }

  function Read(s: string, top: nat): Reading
    decreases |s|
  {
    LineShrinks(s, top);
    var l := ReadLine(s, top);
    if l.stop then l.read else Add(l.read, Read(l.rest, l.top))
  }

  // ----- ihex_read -----

  method SkipSpaces(s: string) returns (t: string)
    ensures t == SkipSp(s)
  {
    t := s;
    while t != "" && (t[0] == ' ' || t[0] == '\t')
      invariant SkipSp(t) == SkipSp(s)
      decreases |t|
    {
      t := t[1..];
    }
  }

  method SkipNewline(s: string) returns (t: string, n: bool)
    ensures (t, n) == SkipNl(s)
  {
    t, n := s, false;
    while t != "" && t[0] == '\r'
      invariant SkipCr(t) == SkipCr(s)
      decreases |t|
    {
      t := t[1..];
    }
    if t != "" && t[0] == '\n' {
      t, n := t[1..], true;
    }
  }

  /** From dinval or dnextline to the next line. */
  method NextLine(s: string) returns (t: string)
    ensures t == SkipNl(DropLine(s)).0
  {
    t := s;
    while t != "" && !(t[0] == '\n' || t[0] == '\r')
      invariant DropLine(t) == DropLine(s)
      decreases |t|
    {
      t := t[1..];
    }
    if t != "" {
      t := t[1..];
    }
    var found;
    t, found := SkipNewline(t);
  }

  method GetHexNum(s: string) returns (n: int, t: string)
    ensures (n, t) == GetNum(s)
  {
    var l := if s == "" then 16 else HexLookup(s[0]);
    if l == 16 {
      return -1, s;
    }
    var r := if |s| < 2 then 16 else HexLookup(s[1]);
    if r == 16 {
      return -1, s;
    }
    return Nibbles(l, r), s[2..];
  }

  /** The loops that read so many numbers and add them up. */
  method GetHexNums(s: string, len: nat) returns (vals: seq<nat>, sum: nat, t: string, ok: bool)
    ensures Nums(vals, t, ok) == GetNums(s, len) && sum == SumNums(vals)
  {
    vals, sum, t, ok := [], 0, s, true;
    var left: nat := len;
    while left > 0
      invariant left <= len && sum == SumNums(vals) && ok
      invariant GetNums(s, len) == Prepend(vals, GetNums(t, left))
      decreases left
    {
      var n, u := GetHexNum(t);
      if n < 0 {
        ok := false;
        PrependNone(vals, t, false);
        return;
      }
      PrependOne(vals, n, GetNums(u, left - 1));
      SumMore(vals, n);
      vals, sum, t, left := vals + [n as nat], sum + n, u, left - 1;
    }
    PrependNone(vals, t, true);
  }

  lemma PrependNone(vals: seq<nat>, t: string, ok: bool)
    ensures Prepend(vals, Nums([], t, ok)) == Nums(vals, t, ok)
  {}

  lemma PrependOne(vals: seq<nat>, n: nat, more: Nums)
    ensures Prepend(vals, Nums([n] + more.vals, more.rest, more.ok)) == Prepend(vals + [n], more)
  {}

  lemma {:induction false} SumMore(vals: seq<nat>, n: nat)
    ensures SumNums(vals + [n]) == SumNums(vals) + n
  {
    if vals == [] {
      assert [n][1..] == [];
      assert vals + [n] == [n];
    } else {
      SumMore(vals[1..], n);
      assert (vals + [n])[1..] == vals[1..] + [n];
    }
  }

  method ReadEnd(syms: seq<Sym>, bytes: seq<Byte>, top: nat, rtype: nat, crc: nat, s: string) returns (l: Line)
    ensures l == EndOfRecord(syms, bytes, top, rtype, crc, s)
  {
    var n, t := GetHexNum(s);
    if n == -1 {
      t := NextLine(s);
      return Line(Reading(syms, bytes, [InvalidData]), top, t, false);
    }
    var w: seq<Warning> := [];
    if (0x100 - crc) % 0x100 != n {
      w := [ChecksumMismatch];
    }
    if rtype == 1 {
      return Line(Reading(syms, bytes, w), top, t, true);
    }
    t := SkipSpaces(t);
    var found;
    t, found := SkipNewline(t);
    if !found {
      t := NextLine(t);
      w := w + [ExcessCharacters];
    }
    l := Line(Reading(syms, bytes, w), top, t, false);
  }

  method ReadOne(s: string, top: nat) returns (l: Line)
    ensures l == ReadLine(s, top)
  {
    var t := SkipSpaces(s);
    var found;
    t, found := SkipNewline(t);
    while found
      invariant SkipBlank(s) == if found then SkipBlank(t) else t
      decreases |t|, found
    {
      var u := SkipSpaces(t);
      t, found := SkipNewline(u);
    }
    if t == "" {
      return Line(Reading([], [], [NoEndRecord]), top, t, true);
    }
    hide GetNums, SkipBlank, EndOfRecord, Or8, Or16, DropLine, SkipNl;
    if t[0] != ':' {
      t := NextLine(t);
      return Line(Reading([], [], [InvalidData]), top, t, false);
    }
    var header, crc, u, ok := GetHexNums(t[1..], 4);
    if !ok {
      u := NextLine(u);
      return Line(Reading([], [], [InvalidData]), top, u, false);
    }
    l := ReadBody(header, crc, u, top);
  }

  /** What follows the length, the address and the type. */
  method ReadBody(h: seq<nat>, crc0: nat, s: string, top: nat) returns (l: Line)
    requires |h| == 4 && crc0 == SumNums(h)
    ensures l == Body(h, s, top)
  {
    hide GetNums, EndOfRecord, Or8, Or16, DropLine, SkipNl;
    var len, addr, rtype := h[0], Or8(h[1], h[2]), h[3];
    if rtype == 0 {
      var vals, sum, u, ok := GetHexNums(s, len);
      var syms := [Sym(Or16(top, addr), len)];
      if !ok {
        u := NextLine(u);
        return Line(Reading(syms, LowBytes(vals), [InvalidData]), top, u, false);
      }
      l := ReadEnd(syms, LowBytes(vals), top, rtype, crc0 + sum, u);
    } else if rtype == 1 {
      var vals, sum, u, ok := GetHexNums(s, len);
      if !ok {
        u := NextLine(u);
        return Line(Reading([], [], [InvalidData]), top, u, false);
      }
      l := ReadEnd([], [], top, rtype, crc0 + sum, u);
    } else if rtype == 4 {
      if len != 2 {
        var u := NextLine(s);
        return Line(Reading([], [], [InvalidData]), top, u, false);
      }
      var vals, sum, u, ok := GetHexNums(s, 2);
      if !ok {
        u := NextLine(u);
        return Line(Reading([], [], [InvalidData]), if |vals| > 0 then 0x100 * vals[0] else top, u, false);
      }
      l := ReadEnd([], [], Or8(vals[0], vals[1]), rtype, crc0 + sum, u);
    } else {
      var u := NextLine(s);
      l := Line(Reading([], [], [InvalidData]), top, u, false);
    }
  }

  method ReadHex(text: string) returns (r: Reading)
    ensures r == Read(text, 0)
  {
    hide ReadLine;
    r := Reading([], [], []);
    var s, top := text, 0;
    while true
      invariant Read(text, 0) == Add(r, Read(s, top))
      decreases |s|
    {
      LineShrinks(s, top);
      var l := ReadOne(s, top);
      AddThree(r, l.read, if l.stop then Reading([], [], []) else Read(l.rest, l.top));
      r := Add(r, l.read);
      if l.stop {
        AddNothing(l.read);
        return;
      }
      s, top := l.rest, l.top;
    }
  }

  lemma AddThree(a: Reading, b: Reading, c: Reading)
    ensures Add(a, Add(b, c)) == Add(Add(a, b), c)
  {}

  lemma AddNothing(a: Reading)
    ensures Add(a, Reading([], [], [])) == a && Add(Reading([], [], []), a) == a
  {}

  // ----- the round trip -----

  lemma ReadsBack(n: nat, tail: string)
    requires n < 256
    ensures GetNum(PrintNum(n, 2) + tail) == (n, tail)
  {
    TwoDigits(n);
    DigitReads(n / 16);
    DigitReads(n % 16);
    var s := [HEX[n / 16], HEX[n % 16]] + tail;
    assert s[0] == HEX[n / 16] && s[1] == HEX[n % 16] && s[2..] == tail;
  }

  lemma {:induction false} HexFirst(bytes: seq<Byte>)
    requires bytes != []
    ensures HexBytes(bytes) == PrintNum(bytes[0], 2) + HexBytes(bytes[1..])
    ensures Sum(bytes) == bytes[0] + Sum(bytes[1..])
    decreases |bytes|
  {
    hide PrintNum;
    var n := |bytes| - 1;
    if n == 0 {
      assert bytes[..0] == [] && bytes[1..] == [];
    } else {
      HexFirst(bytes[..n]);
      assert bytes[..n][1..] == bytes[1..][..n - 1];
    }
  }

  lemma {:induction false} BytesReadBack(bytes: seq<Byte>, tail: string)
    ensures GetNums(HexBytes(bytes) + tail, |bytes|) == Nums(bytes, tail, true)
    ensures SumNums(bytes) == Sum(bytes)
    decreases |bytes|
  {
    hide PrintNum, GetNum;
    if bytes == [] {
      assert HexBytes(bytes) + tail == tail;
    } else {
      HexFirst(bytes);
      var rest := HexBytes(bytes[1..]) + tail;
      assert HexBytes(bytes) + tail == PrintNum(bytes[0], 2) + rest;
      ReadsBack(bytes[0], rest);
      BytesReadBack(bytes[1..], tail);
      assert [bytes[0]] + bytes[1..] == bytes;
    }
  }

  lemma BytesMore(bytes: seq<Byte>, b: Byte)
    ensures HexBytes(bytes + [b]) == HexBytes(bytes) + PrintNum(b, 2) && Sum(bytes + [b]) == Sum(bytes) + b
  {
    hide PrintNum;
    assert (bytes + [b])[..|bytes|] == bytes;
  }

  lemma TwoBytes(bytes: seq<Byte>)
    requires |bytes| == 2
    ensures HexBytes(bytes) == PrintNum(bytes[0], 2) + PrintNum(bytes[1], 2)
    ensures Sum(bytes) == bytes[0] as int + bytes[1] as int
  {
    BytesMore([], bytes[0]);
    BytesMore([bytes[0]], bytes[1]);
    assert bytes == [bytes[0]] + [bytes[1]] && [] + [bytes[0]] == [bytes[0]];
    assert HexBytes([]) == "" && Sum([]) == 0;
    hide PrintNum, HexBytes, Sum;
  }

  lemma FourBytes(bytes: seq<Byte>)
    requires |bytes| == 4
    ensures HexBytes(bytes) ==
            PrintNum(bytes[0], 2) + PrintNum(bytes[1], 2) + PrintNum(bytes[2], 2) + PrintNum(bytes[3], 2)
    ensures Sum(bytes) == bytes[0] as int + bytes[1] as int + bytes[2] as int + bytes[3] as int
  {
    hide PrintNum, HexBytes, Sum;
    var two := bytes[..2];
    TwoBytes(two);
    BytesMore(two, bytes[2]);
    BytesMore(two + [bytes[2]], bytes[3]);
    assert bytes == two + [bytes[2]] + [bytes[3]];
  }

  /** A record: its header, its data, its checksum. */
  function RecordLine(h: seq<Byte>, data: seq<Byte>, check: Byte): string
  {
    ":" + HexBytes(h) + HexBytes(data) + PrintNum(check, 2) + "\n"
  }

  lemma NoBlank(s: string)
    requires s != "" && s[0] == ':'
    ensures SkipBlank(s) == s
  {}

  lemma ColonFirst(h: seq<Byte>, data: seq<Byte>, check: Byte, tail: string)
    ensures RecordLine(h, data, check) + tail ==
            ":" + (HexBytes(h) + (HexBytes(data) + (PrintNum(check, 2) + ("\n" + tail))))
  {
    hide PrintNum, HexBytes;
  }

  lemma RecordReadsBack(h: seq<Byte>, data: seq<Byte>, check: Byte, tail: string, top: nat)
    requires |h| == 4
    ensures ReadLine(RecordLine(h, data, check) + tail, top) ==
            Body(h, HexBytes(data) + (PrintNum(check, 2) + ("\n" + tail)), top)
  {
    hide PrintNum, HexBytes, GetNums, Body, RecordLine;
    ColonFirst(h, data, check, tail);
    var rest := HexBytes(data) + (PrintNum(check, 2) + ("\n" + tail));
    var t := ":" + (HexBytes(h) + rest);
    NoBlank(t);
    BytesReadBack(h, rest);
    assert t[1..] == HexBytes(h) + rest;
  }

  lemma EndReadsBack(syms: seq<Sym>, bytes: seq<Byte>, top: nat, rtype: nat, crc: nat, tail: string)
    requires rtype != 1
    ensures EndOfRecord(syms, bytes, top, rtype, crc, PrintNum(Checksum(crc), 2) + ("\n" + tail))
         == Line(Reading(syms, bytes, []), top, tail, false)
  {
    hide PrintNum, GetNum;
    var rest := "\n" + tail;
    ReadsBack(Checksum(crc), rest);
    assert rest[0] == '\n' && rest[1..] == tail;
    assert SkipSp(rest) == rest && SkipCr(rest) == rest;
  }

  lemma LowBytesSame(bytes: seq<Byte>)
    ensures LowBytes(bytes) == bytes
  {}

  /** The record of a data line. */
  ghost function Header(address: nat, bytes: seq<Byte>): (h: seq<Byte>)
    requires |bytes| < 256
    ensures |h| == 4 && h[0] == |bytes| && h[3] == 0
  {
    [|bytes|, address % 0x1_0000 / 256, address % 0x1_0000 % 256, 0]
  }

  lemma Zeroes()
    ensures PrintNum(0, 2) == "00"
  {
    TwoDigits(0);
  }

  lemma HeaderText(address: nat, bytes: seq<Byte>)
    requires |bytes| < 256
    ensures HexBytes(Header(address, bytes)) == PrintNum(|bytes|, 2) + PrintNum(address % 0x1_0000, 4) + "00"
  {
    var h, low := Header(address, bytes), address % 0x1_0000;
    assert h[1] == low / 256 && h[2] == low % 256;
    hide PrintNum, HexBytes, Sum, Header;
    Zeroes();
    FourDigits(low);
    FourBytes(h);
    assert PrintNum(h[0], 2) + PrintNum(h[1], 2) + PrintNum(h[2], 2) ==
      PrintNum(h[0], 2) + (PrintNum(h[1], 2) + PrintNum(h[2], 2));
  }

  lemma DataLineIs(address: nat, bytes: seq<Byte>)
    requires |bytes| < 256
    ensures DataLine(address, bytes) == RecordLine(Header(address, bytes), bytes,
                                                   Checksum(Sum(bytes) + address / 0x100 + address % 0x100 + |bytes|))
  {
    hide PrintNum, HexBytes, Sum, Header, Checksum;
    HeaderText(address, bytes);
    var check := Checksum(Sum(bytes) + address / 0x100 + address % 0x100 + |bytes|);
    Glue(":", PrintNum(|bytes|, 2), PrintNum(address % 0x1_0000, 4), "00", HexBytes(bytes), PrintNum(check, 2), "\n");
  }

  lemma Glue(p: string, a: string, b: string, c: string, x: string, y: string, z: string)
    ensures p + a + b + c + x + y + z == p + (a + b + c) + x + y + z
  {
    assert p + a + b + c == p + (a + b + c);
  }

  lemma SplitAddress(address: nat)
    ensures address / 0x100 + address % 0x100 ==
            address % 0x1_0000 / 256 + address % 0x1_0000 % 256 + 0x100 * (address / 0x1_0000)
  {
    assert address % 0x1_0000 % 256 == address % 256;
    assert address / 0x100 == 0x100 * (address / 0x1_0000) + address % 0x1_0000 / 256;
  }

  /** The checksum as the writer forms it and as the reader does. */
  lemma HeaderSum(address: nat, bytes: seq<Byte>)
    requires |bytes| < 256
    ensures Checksum(Sum(Header(address, bytes)) + Sum(bytes)) ==
            Checksum(Sum(bytes) + address / 0x100 + address % 0x100 + |bytes|)
  {
    hide Sum, HexBytes, PrintNum, Checksum;
    FourBytes(Header(address, bytes));
    SplitAddress(address);
    SameChecksum(Sum(bytes) + address / 0x100 + address % 0x100 + |bytes|, Sum(Header(address, bytes)) + Sum(bytes),
      address / 0x1_0000);
  }

  lemma SameChecksum(a: int, b: int, k: int)
    requires a == b + 0x100 * k
    ensures Checksum(a) == Checksum(b)
  {
    var q, r := (0x100 - b) / 0x100, (0x100 - b) % 0x100;
    assert 0x100 - a == 0x100 * (q - k) + r;
    assert (0x100 - a) / 0x100 == q - k;
  }

  /** The body of a data record that holds these bytes. */
  lemma DataBody(h: seq<nat>, bytes: seq<Byte>, check: Byte, tail: string, top: nat)
    requires |h| == 4 && h[0] == |bytes| && h[3] == 0 && check == Checksum(SumNums(h) + SumNums(bytes))
    ensures Body(h, HexBytes(bytes) + (PrintNum(check, 2) + ("\n" + tail)), top)
         == Line(Reading([Sym(Or16(top, Or8(h[1], h[2])), |bytes|)], bytes, []), top, tail, false)
  {
    hide PrintNum, GetNums, HexBytes, SumNums, Sum, EndOfRecord, Or8, Or16;
    BytesReadBack(bytes, PrintNum(check, 2) + ("\n" + tail));
    LowBytesSame(bytes);
    hide LowBytes;
    EndReadsBack([Sym(Or16(top, Or8(h[1], h[2])), |bytes|)], bytes, top, 0, SumNums(h) + SumNums(bytes), tail);
  }

  lemma HeaderAddress(address: nat, bytes: seq<Byte>)
    requires |bytes| < 256
    ensures var h := Header(address, bytes); Or16(address / 0x1_0000, Or8(h[1], h[2])) == address
  {
    var low := address % 0x1_0000;
    assert Or8(low / 256, low % 256) == low;
  }

  /** Reading a data line. */
  lemma DataReadsBack(address: nat, bytes: seq<Byte>, tail: string)
    requires |bytes| < 256 && address < 0x1_0000_0000
    ensures ReadLine(DataLine(address, bytes) + tail, address / 0x1_0000)
         == Line(Reading([Sym(address, |bytes|)], bytes, []), address / 0x1_0000, tail, false)
  {
    hide PrintNum, GetNums, HexBytes, DataLine, RecordLine, SumNums, Sum, ReadLine, Body, Or8, Or16, Checksum, Header;
    var top, h := address / 0x1_0000, Header(address, bytes);
    var check := Checksum(Sum(bytes) + address / 0x100 + address % 0x100 + |bytes|);
    HeaderAddress(address, bytes);
    DataLineIs(address, bytes);
    RecordReadsBack(h, bytes, check, tail, top);
    BytesReadBack(bytes, "");
    BytesReadBack(h, "");
    HeaderSum(address, bytes);
    DataBody(h, bytes, check, tail, top);
  }

  lemma ExtensionLineIs(top: nat)
    requires top < 0x1_0000
    ensures ExtensionLine(top) ==
            RecordLine([2, 0, 0, 4], [top / 256, top % 256], Checksum(6 + top % 0x100 + top / 0x100))
  {
    hide PrintNum, HexBytes, Sum, Checksum;
    FourDigits(top);
    ExtensionText();
    TwoBytes([top / 256, top % 256]);
    var h := HexBytes([2, 0, 0, 4]);
    assert ":02000004" == ":" + "02000004";
    assert ":" + h == ":02000004";
  }

  lemma SmallNumbers()
    ensures PrintNum(1, 2) == "01" && PrintNum(2, 2) == "02" && PrintNum(4, 2) == "04" && PrintNum(255, 2) == "FF"
  {
    TwoDigits(1);
    TwoDigits(2);
    TwoDigits(4);
    TwoDigits(255);
  }

  lemma ExtensionText()
    ensures HexBytes([2, 0, 0, 4]) == "02000004"
  {
    hide PrintNum, HexBytes, Sum;
    Zeroes();
    SmallNumbers();
    FourBytes([2, 0, 0, 4]);
    assert "02" + "00" == "0200" && "0200" + "00" == "020000" && "020000" + "04" == "02000004";
  }

  /** The body of an extension record. */
  lemma ExtensionBody(h: seq<nat>, data: seq<Byte>, check: Byte, tail: string, before: nat)
    requires |h| == 4 && h[0] == 2 && h[3] == 4 && |data| == 2 && check == Checksum(SumNums(h) + SumNums(data))
    ensures Body(h, HexBytes(data) + (PrintNum(check, 2) + ("\n" + tail)), before) ==
            Line(Reading([], [], []), Or8(data[0], data[1]), tail, false)
  {
    hide PrintNum, GetNums, HexBytes, SumNums, Sum, EndOfRecord, Or8, Or16, Checksum;
    BytesReadBack(data, PrintNum(check, 2) + ("\n" + tail));
    EndReadsBack([], [], Or8(data[0], data[1]), 4, SumNums(h) + SumNums(data), tail);
  }

  /** Reading an extension line. */
  lemma ExtensionReadsBack(top: nat, tail: string, before: nat)
    requires top < 0x1_0000
    ensures ReadLine(ExtensionLine(top) + tail, before) == Line(Reading([], [], []), top, tail, false)
  {
    hide PrintNum, GetNums, HexBytes, ExtensionLine, RecordLine, SumNums, Sum, ReadLine, Body, Or8, Checksum;
    var h: seq<Byte>, data: seq<Byte> := [2, 0, 0, 4], [top / 256, top % 256];
    var check := Checksum(6 + top % 0x100 + top / 0x100);
    ExtensionTop(top);
    ExtensionLineIs(top);
    RecordReadsBack(h, data, check, tail, before);
    ExtensionSum(h, data);
    ExtensionBody(h, data, check, tail, before);
  }

  lemma ExtensionTop(top: nat)
    ensures Or8(top / 256, top % 256) == top
  {}

  lemma ExtensionSum(h: seq<Byte>, data: seq<Byte>)
    requires h == [2, 0, 0, 4] && |data| == 2
    ensures SumNums(h) + SumNums(data) == 6 + data[1] as int + data[0] as int
  {
    hide PrintNum, GetNums, HexBytes, SumNums, Sum;
    BytesReadBack(data, "");
    BytesReadBack(h, "");
    FourBytes(h);
    TwoBytes(data);
  }

  lemma EndText()
    ensures HexBytes([0, 0, 0, 1]) == "00000001" && HexBytes([]) == ""
  {
    assert HexBytes([]) == "";
    hide PrintNum, HexBytes, Sum;
    Zeroes();
    SmallNumbers();
    FourBytes([0, 0, 0, 1]);
    assert "00" + "00" == "0000" && "0000" + "00" == "000000" && "000000" + "01" == "00000001";
  }

  lemma EndLineIs()
    ensures END == RecordLine([0, 0, 0, 1], [], 255)
  {
    hide PrintNum, HexBytes;
    EndText();
    SmallNumbers();
    assert ":" + "00000001" == ":00000001" && ":00000001" + "" == ":00000001" && ":00000001" + "FF" == ":00000001FF";
    assert ":00000001FF" + "\n" == END;
  }

  lemma EndBody(h: seq<nat>, top: nat)
    requires h == [0, 0, 0, 1] && SumNums(h) == 1
    ensures Body(h, HexBytes([]) + (PrintNum(255, 2) + ("\n" + "")), top) == Line(Reading([], [], []), top, "\n", true)
  {
    assert HexBytes([]) == "";
    ReadsBack(255, "\n" + "");
    hide PrintNum, GetNum;
    var rest := PrintNum(255, 2) + ("\n" + "");
    assert HexBytes([]) + rest == rest && "\n" + "" == "\n";
    assert GetNums(rest, 0) == Nums([], rest, true) && SumNums([]) == 0;
    hide SumNums;
  }

  /** Reading the end record. */
  lemma EndLineReadsBack(top: nat)
    ensures Read(END, top) == Reading([], [], [])
  {
    var h: seq<Byte> := [0, 0, 0, 1];
    assert END + "" == END;
    hide PrintNum, HexBytes, RecordLine, Body, ReadLine, SumNums, Sum, GetNums;
    EndLineIs();
    RecordReadsBack(h, [], 255, "", top);
    BytesReadBack(h, "");
    FourBytes(h);
    EndBody(h, top);
  }

  // ----- all records -----

  ghost predicate Fits(records: seq<Segment>)
  {
    forall k :: 0 <= k < |records| ==> |records[k].bytes| < 256 && records[k].address < 0x1_0000_0000
  }

  /** The text from its first record on. */
  lemma {:induction false} TextFirst(top: nat, records: seq<Segment>)
    requires Fits(records) && records != []
    ensures Text(top, records) == RecordText(top, records[0]) + Text(records[0].address / 0x1_0000, records[1..])
    decreases |records|
  {
    hide RecordText, Text;
    var n, next := |records| - 1, records[0].address / 0x1_0000;
    TextLast(top, records);
    if n == 0 {
      assert records[..0] == [] && records[1..] == [];
      assert Text(top, []) == "" && Text(next, []) == "" by { NoText(top); NoText(next); }
    } else {
      TextFirst(top, records[..n]);
      TextLast(next, records[1..]);
      assert records[..n][1..] == records[1..][..n - 1];
      hide TopAfter;
      SameTop(top, records);
    }
  }

  lemma NoText(top: nat)
    ensures Text(top, []) == ""
  {}

  lemma TextLast(top: nat, records: seq<Segment>)
    requires Fits(records) && records != []
    ensures var n := |records| - 1;
            Text(top, records) == Text(top, records[..n]) + RecordText(TopAfter(top, records[..n]), records[n])
  {
    hide RecordText, TopAfter;
  }

  lemma SameTop(top: nat, records: seq<Segment>)
    requires |records| > 1
    ensures var n, next := |records| - 1, records[0].address / 0x1_0000;
            TopAfter(top, records[..n]) == TopAfter(next, records[1..][..n - 1])
  {
    var n := |records| - 1;
    if n > 1 { assert records[1..][..n - 1][n - 2] == records[..n][n - 1]; }
  }

  ghost function Syms(records: seq<Segment>): seq<Sym>
  {
    if records == [] then [] else [Sym(records[0].address, |records[0].bytes|)] + Syms(records[1..])
  }

  ghost function AllBytes(records: seq<Segment>): seq<Byte>
  {
    if records == [] then [] else records[0].bytes + AllBytes(records[1..])
  }

  lemma RecordTextReads(r: Segment, tail: string, top: nat)
    requires |r.bytes| < 256 && r.address < 0x1_0000_0000
    ensures Read(RecordText(top, r) + tail, top)
         == Add(Reading([Sym(r.address, |r.bytes|)], r.bytes, []), Read(tail, r.address / 0x1_0000))
  {
    hide ReadLine, ExtensionLine, DataLine, Read;
    var next := r.address / 0x1_0000;
    var data := DataLine(r.address, r.bytes) + tail;
    DataReadsBack(r.address, r.bytes, tail);
    ReadOn(data, next);
    if top != next {
      ExtensionReadsBack(next, data, top);
      ReadOn(ExtensionLine(next) + data, top);
      assert RecordText(top, r) + tail == ExtensionLine(next) + data;
      AddNothing(Read(data, next));
    } else {
      assert "" + DataLine(r.address, r.bytes) == DataLine(r.address, r.bytes);
    }
  }

  lemma ReadOn(s: string, top: nat)
    ensures var l := ReadLine(s, top); !l.stop ==> Read(s, top) == Add(l.read, Read(l.rest, l.top))
  {
    hide ReadLine;
  }

  /** Reading what was written gives the records, every checksum right. */
  lemma {:induction false} TextReadsBack(top: nat, records: seq<Segment>)
    requires Fits(records)
    ensures Read(Text(top, records) + END, top) == Reading(Syms(records), AllBytes(records), [])
    decreases |records|
  {
    hide RecordText, Read, TopAfter;
    if records == [] {
      EndLineReadsBack(top);
      assert Text(top, []) + END == END;
    } else {
      var next := records[0].address / 0x1_0000;
      TextFirst(top, records);
      var tail := Text(next, records[1..]) + END;
      assert Text(top, records) + END == RecordText(top, records[0]) + tail;
      RecordTextReads(records[0], tail, top);
      TextReadsBack(next, records[1..]);
    }
  }

  // ----- addresses -----

  /** Every byte with its address. */
  ghost function Cells(address: nat, bytes: seq<Byte>): seq<(nat, Byte)>
  {
    seq(|bytes|, k requires 0 <= k < |bytes| => (address + k, bytes[k]))
  }

  ghost function AllCells(segments: seq<Segment>): seq<(nat, Byte)>
  {
    if segments == [] then []
    else AllCells(segments[..|segments| - 1]) + Cells(segments[|segments| - 1].address, segments[|segments| - 1].bytes)
  }

  /** What has been read, with the addresses that the records give. */
  ghost function ReadCells(syms: seq<Sym>, bytes: seq<Byte>): seq<(nat, Byte)>
  {
    if syms == [] || syms[0].len > |bytes| then []
    else Cells(syms[0].addr, bytes[..syms[0].len]) + ReadCells(syms[1..], bytes[syms[0].len..])
  }

  lemma {:induction false} CellsOfChunks(address: nat, bytes: seq<Byte>)
    ensures AllCells(Chunks(address, bytes)) == Cells(address, bytes)
    decreases |bytes|
  {
    var r := Chunks(address, bytes);
    if bytes == [] {
    } else if |bytes| <= IHLL {
      assert r[..0] == [];
    } else {
      CellsOfChunks(address + IHLL, bytes[IHLL..]);
      CellsJoin([Segment(address, bytes[..IHLL])], Chunks(address + IHLL, bytes[IHLL..]));
      assert [Segment(address, bytes[..IHLL])][..0] == [];
      assert Cells(address, bytes) == Cells(address, bytes[..IHLL]) + Cells(address + IHLL, bytes[IHLL..]);
    }
  }

  lemma LastCells(s: seq<Segment>)
    requires s != []
    ensures AllCells(s) == AllCells(s[..|s| - 1]) + Cells(s[|s| - 1].address, s[|s| - 1].bytes)
  {}

  lemma {:induction false} CellsJoin(a: seq<Segment>, b: seq<Segment>)
    ensures AllCells(a + b) == AllCells(a) + AllCells(b)
    decreases |b|
  {
    hide Cells;
    if b == [] {
      assert a + b == a;
    } else {
      var n := |b| - 1;
      CellsJoin(a, b[..n]);
      assert (a + b)[..|a| + n] == a + b[..n] && (a + b)[|a| + n] == b[n];
      hide AllCells;
      LastCells(a + b);
      LastCells(b);
    }
  }

  lemma {:induction false} CellsOfAllChunks(segments: seq<Segment>)
    ensures AllCells(AllChunks(segments)) == AllCells(segments)
  {
    hide Cells, Chunks;
    if segments != [] {
      var n := |segments| - 1;
      CellsOfAllChunks(segments[..n]);
      CellsOfChunks(segments[n].address, segments[n].bytes);
      CellsJoin(AllChunks(segments[..n]), Chunks(segments[n].address, segments[n].bytes));
    }
  }

  lemma {:induction false} ReadCellsAre(records: seq<Segment>)
    ensures ReadCells(Syms(records), AllBytes(records)) == AllCells(records)
    decreases |records|
  {
    hide Cells;
    if records != [] {
      ReadCellsAre(records[1..]);
      var b := AllBytes(records);
      var r := records[0];
      assert b[..|r.bytes|] == r.bytes && b[|r.bytes|..] == AllBytes(records[1..]);
      assert Syms(records)[1..] == Syms(records[1..]);
      CellsJoin([r], records[1..]);
      assert [r] + records[1..] == records && [r][..0] == [];
      assert AllCells([r]) == Cells(r.address, r.bytes) by { assert AllCells([]) == []; }
    }
  }

  ghost predicate InRange(segments: seq<Segment>)
  {
    forall k :: 0 <= k < |segments| ==> segments[k].address + |segments[k].bytes| <= 0x1_0000_0000
  }

  lemma {:induction false} ChunksFit(address: nat, bytes: seq<Byte>)
    requires address + |bytes| <= 0x1_0000_0000
    ensures Fits(Chunks(address, bytes))
    decreases |bytes|
  {
    if |bytes| > IHLL { ChunksFit(address + IHLL, bytes[IHLL..]); }
  }

  lemma {:induction false} AllChunksFit(segments: seq<Segment>)
    requires InRange(segments)
    ensures Fits(AllChunks(segments))
  {
    hide Chunks;
    if segments != [] {
      AllChunksFit(segments[..|segments| - 1]);
      ChunksFit(segments[|segments| - 1].address, segments[|segments| - 1].bytes);
    }
  }

  /** The text that ihex_write makes of the segments. */
  function Written(segments: seq<Segment>): string { Text(0, AllChunks(segments)) + END }

  /** Round trip: reading what was written gives back every byte at its address, in order,
      without a warning, across changes of the upper half of the address. */
  lemma RoundTrip(segments: seq<Segment>)
    requires InRange(segments)
    ensures var r := Read(Written(segments), 0);
            ReadCells(r.syms, r.bytes) == AllCells(segments) && r.warnings == []
  {
    AllChunksFit(segments);
    var records := AllChunks(segments);
    hide AllChunks, Text, Read, Cells;
    TextReadsBack(0, records);
    ReadCellsAre(records);
    CellsOfAllChunks(segments);
  }
}
