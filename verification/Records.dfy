/** What ihex_read makes of single lines and of whole texts, in terms of the lines alone: records
    with any checksum, lines that are no records, lower-case digits, and texts without an end. */
module Records {
  import opened Ihex

  // ----- a record -----

  /** The bytes of a record, its checksum included, add up to a multiple of 256. */
  predicate SumsUp(h: seq<Byte>, data: seq<Byte>, check: Byte) { (Sum(h) + Sum(data) + check) % 0x100 == 0 }

  function Warned(good: bool): seq<Warning> { if good then [] else [ChecksumMismatch] }

  lemma EndIs(syms: seq<Sym>, bytes: seq<Byte>, top: nat, rtype: nat, crc: nat, check: Byte, tail: string)
    ensures EndOfRecord(syms, bytes, top, rtype, crc, PrintNum(check, 2) + ("\n" + tail)) ==
            Line(Reading(syms, bytes, Warned((crc + check) % 0x100 == 0)), top,
                 if rtype == 1 then "\n" + tail else tail, rtype == 1)
  {
    hide PrintNum, GetNum;
    var rest := "\n" + tail;
    ReadsBack(check, rest);
    Complement(crc, check);
    assert rest[0] == '\n' && rest[1..] == tail;
    assert SkipSp(rest) == rest && SkipCr(rest) == rest;
  }

  lemma Complement(crc: nat, check: Byte)
    ensures (0x100 - crc) % 0x100 == check <==> (crc + check) % 0x100 == 0
  {
    var q, r := (0x100 - crc) / 0x100, (0x100 - crc) % 0x100;
    assert crc + check == 0x100 * (1 - q) + check - r;
  }

  /** The upper half from the last extension, the lower one from the record, high byte first. */
  function Address(top: nat, h: seq<Byte>): nat
    requires |h| == 4
  {
    0x1_0000 * top + 0x100 * h[1] as int + h[2] as int
  }

  lemma AddressIs(top: nat, h: seq<Byte>)
    requires |h| == 4
    ensures Or16(top, Or8(h[1], h[2])) == Address(top, h)
  {}

  /** The line of any record is read as its address and bytes, or as an extension, or as the end;
      and there is a warning exactly when its bytes do not sum up. */
  lemma RecordIsRead(h: seq<Byte>, data: seq<Byte>, check: Byte, tail: string, top: nat)
    requires |h| == 4 && h[0] == |data|
    ensures var l, w := ReadLine(RecordLine(h, data, check) + tail, top), Warned(SumsUp(h, data, check));
            && (h[3] == 0 ==>
                l == Line(Reading([Sym(Address(top, h), |data|)], data, w), top, tail, false))
            && (h[3] == 1 ==> l == Line(Reading([], [], w), top, "\n" + tail, true))
            && (h[3] == 4 && |data| == 2 ==>
                l == Line(Reading([], [], w), 0x100 * data[0] as int + data[1] as int, tail, false))
  {
    hide PrintNum, GetNums, GetNum, HexBytes, SumNums, Sum, EndOfRecord, RecordLine, ReadLine, LowBytes;
    RecordReadsBack(h, data, check, tail, top);
    BytesReadBack(data, PrintNum(check, 2) + ("\n" + tail));
    BytesReadBack(h, "");
    LowBytesSame(data);
    AddressIs(top, h);
    var crc := Sum(h) + Sum(data);
    EndIs([Sym(Or16(top, Or8(h[1], h[2])), |data|)], data, top, 0, crc, check, tail);
    EndIs([], [], top, 1, crc, check, tail);
    if |data| == 2 { EndIs([], [], Or8(data[0], data[1]), 4, crc, check, tail); }
  }

  /** One byte at address 0, as it is written ... */
  lemma SampleText(check: Byte)
    ensures RecordLine([1, 0, 0, 0], [0x41], check) == ":0100000041" + PrintNum(check, 2) + "\n"
  {
    SampleHeader();
    SampleData();
    hide PrintNum, HexBytes;
    assert ":" + "01000000" + "41" == ":0100000041";
  }

  lemma SampleHeader()
    ensures HexBytes([1, 0, 0, 0]) == "01000000" && Sum([1, 0, 0, 0]) == 1
  {
    hide PrintNum, HexBytes, Sum;
    Zeroes();
    SmallNumbers();
    FourBytes([1, 0, 0, 0]);
    assert "01" + "00" == "0100" && "0100" + "00" == "010000" && "010000" + "00" == "01000000";
  }

  lemma SampleData()
    ensures HexBytes([0x41]) == "41" && Sum([0x41]) == 0x41
  {
    TwoDigits(0x41);
    BytesMore([], 0x41);
    NoDigits();
    assert [] + [0x41] == [0x41];
    hide PrintNum, HexBytes, Sum;
  }

  lemma NoDigits()
    ensures HexBytes([]) == "" && Sum([]) == 0
  {}

  /** ... and what is read when its checksum, which should be BE, is BF. */
  lemma SampleRead()
    ensures Read(":0100000041BF\n:00000001FF\n", 0) == Reading([Sym(0, 1)], [0x41], [ChecksumMismatch])
  {
    hide RecordLine, PrintNum, HexBytes, ReadLine, Sum, Read;
    var h: seq<Byte>, data: seq<Byte> := [1, 0, 0, 0], [0x41];
    SampleText(0xBF);
    SampleHeader();
    SampleData();
    assert PrintNum(0xBF, 2) == "BF" by { TwoDigits(0xBF); }
    var text := RecordLine(h, data, 0xBF) + END;
    assert ":0100000041" + "BF" == ":0100000041BF" && ":0100000041BF" + "\n" == ":0100000041BF\n";
    assert text == ":0100000041BF\n:00000001FF\n";
    RecordIsRead(h, data, 0xBF, END, 0);
    ReadOn(text, 0);
    EndLineReadsBack(0);
  }

  // ----- lines that are no records -----

  predicate OneLine(s: string) { forall k :: 0 <= k < |s| ==> s[k] != '\n' && s[k] != '\r' }

  predicate IsHex(c: char) { '0' <= c <= '9' || 'A' <= c <= 'F' || 'a' <= c <= 'f' || c == '_' }

  /** The first n characters are digits in pairs. */
  predicate HexTo(s: string, n: nat) { n <= |s| && forall k :: 0 <= k < n ==> IsHex(s[k]) }

  lemma {:induction false} Dropped(line: string, tail: string)
    requires OneLine(line)
    ensures DropLine(line + ("\n" + tail)) == tail
  {
    if line == "" {
      assert line + ("\n" + tail) == "\n" + tail;
    } else {
      Dropped(line[1..], tail);
      assert (line + ("\n" + tail))[1..] == line[1..] + ("\n" + tail);
    }
  }

  lemma HexMore(line: string, n: nat)
    requires n > 0
    ensures HexTo(line, 2 * n) <==> HexTo(line, 2) && HexTo(line[2..], 2 * (n - 1))
  {
    if HexTo(line, 2) && HexTo(line[2..], 2 * (n - 1)) {
      forall j | 0 <= j < 2 * n ensures IsHex(line[j]) {
        if j >= 2 { assert line[j] == line[2..][j - 2]; }
      }
    }
  }

  lemma TwoMore(line: string, tail: string)
    requires OneLine(line)
    ensures var b := GetNum(line + ("\n" + tail));
            if HexTo(line, 2) then b.0 >= 0 && b.1 == line[2..] + ("\n" + tail)
            else b == (-1, line + ("\n" + tail))
  {
    if HexTo(line, 2) { assert (line + ("\n" + tail))[2..] == line[2..] + ("\n" + tail); }
  }

  /** The rest of the line from k on, and what follows. */
  predicate RestFrom(line: string, k: nat, tail: string, s: string)
  {
    k <= |line| && s == line[k..] + ("\n" + tail)
  }

  /** Numbers are read as far as there are pairs of digits, and never past the end of a line. */
  lemma {:induction false} NumsAre(line: string, tail: string, n: nat) returns (k: nat)
    requires OneLine(line)
    ensures GetNums(line + ("\n" + tail), n).ok <==> HexTo(line, 2 * n)
    ensures RestFrom(line, k, tail, GetNums(line + ("\n" + tail), n).rest)
    ensures HexTo(line, 2 * n) ==> k == 2 * n
  {
    hide GetNum;
    if n == 0 {
      k := 0;
      assert line[0..] == line;
    } else {
      TwoMore(line, tail);
      HexMore(line, n);
      hide HexTo;
      if HexTo(line, 2) {
        k := NumsAre(line[2..], tail, n - 1);
        k := k + 2;
        assert line[2..][k - 2..] == line[k..];
      } else {
        k := 0;
        assert line[0..] == line;
      }
    }
  }

  /** What a line that is given up leaves: a warning, and reading goes on at the next line. */
  function Skipped(syms: seq<Sym>, bytes: seq<Byte>, top: nat, tail: string): Line
  {
    Line(Reading(syms, bytes, [InvalidData]), top, SkipNl(tail).0, false)
  }

  lemma BadIs(syms: seq<Sym>, bytes: seq<Byte>, top: nat, line: string, k: nat, tail: string)
    requires OneLine(line) && k <= |line|
    ensures Bad(syms, bytes, top, line[k..] + ("\n" + tail)) == Skipped(syms, bytes, top, tail)
  {
    Dropped(line[k..], tail);
  }

  /** A line that does not start with a colon, or has no eight digits behind it. */
  lemma NoHeader(line: string, tail: string, top: nat)
    requires OneLine(line) && line != "" && line[0] != ' ' && line[0] != '\t'
    requires line[0] != ':' || !HexTo(line[1..], 8)
    ensures ReadLine(line + ("\n" + tail), top) == Skipped([], [], top, tail)
  {
    hide GetNums, DropLine, SkipNl;
    var s := line + ("\n" + tail);
    NotBlank(s);
    if line[0] == ':' {
      var k := NumsAre(line[1..], tail, 4);
      assert s[1..] == line[1..] + ("\n" + tail);
      BadIs([], [], top, line[1..], k, tail);
    } else {
      BadIs([], [], top, line, 0, tail);
    }
  }

  lemma NotBlank(s: string)
    requires s != "" && s[0] != ' ' && s[0] != '\t' && s[0] != '\r' && s[0] != '\n'
    ensures SkipBlank(s) == s
  {}

  /** A header with another type than those that are read, or an extension of the wrong length. */
  lemma NoSuchRecord(line: string, tail: string, top: nat)
    requires OneLine(line) && line != "" && line[0] == ':' && HexTo(line[1..], 8)
    requires var h := GetNums(line[1..] + ("\n" + tail), 4).vals;
             |h| == 4 && h[3] != 0 && h[3] != 1 && (h[3] == 4 ==> h[0] != 2)
    ensures ReadLine(line + ("\n" + tail), top) == Skipped([], [], top, tail)
  {
    hide GetNums, DropLine, SkipNl;
    var s := line + ("\n" + tail);
    NotBlank(s);
    var k := NumsAre(line[1..], tail, 4);
    assert s[1..] == line[1..] + ("\n" + tail);
    BadIs([], [], top, line[1..], k, tail);
  }

  /** A data or end record with fewer digits than its length calls for, the checksum included. */
  lemma TooShort(line: string, tail: string, top: nat)
    requires OneLine(line) && line != "" && line[0] == ':' && HexTo(line[1..], 8)
    requires var h := GetNums(line[1..] + ("\n" + tail), 4).vals;
             |h| == 4 && h[3] <= 1 && !HexTo(line[9..], 2 * (h[0] + 1))
    ensures exists syms, bytes :: ReadLine(line + ("\n" + tail), top) == Skipped(syms, bytes, top, tail)
  {
    hide GetNums, DropLine, SkipNl, GetNum, LowBytes, SumNums, Or8, Or16;
    var s := line + ("\n" + tail);
    NotBlank(s);
    var k := NumsAre(line[1..], tail, 4);
    assert s[1..] == line[1..] + ("\n" + tail);
    var h := GetNums(s[1..], 4);
    var data := line[1..][k..];
    assert data == line[9..] && h.rest == data + ("\n" + tail);
    var j := NumsAre(data, tail, h.vals[0]);
    var b := GetNums(h.rest, h.vals[0]);
    var syms := if h.vals[3] == 0 then [Sym(Or16(top, Or8(h.vals[1], h.vals[2])), h.vals[0])] else [];
    var bytes := if h.vals[3] == 0 then LowBytes(b.vals) else [];
    BadIs(syms, bytes, top, data, j, tail);
    if b.ok {
      TwoMore(data[j..], tail);
      LastTwo(data, h.vals[0]);
    }
    assert ReadLine(s, top) == Skipped(syms, bytes, top, tail);
  }

  lemma LastTwo(data: string, n: nat)
    requires HexTo(data, 2 * n)
    ensures HexTo(data[2 * n..], 2) ==> HexTo(data, 2 * (n + 1))
  {
    if HexTo(data[2 * n..], 2) {
      forall j | 0 <= j < 2 * (n + 1) ensures IsHex(data[j]) {
        if j >= 2 * n { assert data[j] == data[2 * n..][j - 2 * n]; }
      }
    }
  }

  // ----- lower-case digits -----

  function Lower(c: char): char { if 'A' <= c <= 'F' then (c - 'A') + 'a' else c }

  /** The same text but for the case of its digits. */
  predicate Alike(s: string, t: string) { |s| == |t| && forall k :: 0 <= k < |s| ==> Lower(s[k]) == Lower(t[k]) }

  function Kind(c: char): nat
  {
    if c == ' ' || c == '\t' then 0 else if c == '\r' then 1 else if c == '\n' then 2 else if c == ':' then 3 else 4
  }

  lemma LowerReads(c: char, d: char)
    requires Lower(c) == Lower(d)
    ensures HexLookup(c) == HexLookup(d) && Kind(c) == Kind(d)
  {}

  lemma FirstAlike(s: string, t: string)
    requires Alike(s, t) && s != ""
    ensures HexLookup(s[0]) == HexLookup(t[0]) && Kind(s[0]) == Kind(t[0]) && Alike(s[1..], t[1..])
  {
    LowerReads(s[0], t[0]);
  }

  lemma {:induction false} SpacesAlike(s: string, t: string)
    requires Alike(s, t)
    ensures Alike(SkipSp(s), SkipSp(t))
  {
    if s != "" {
      FirstAlike(s, t);
      SpacesAlike(s[1..], t[1..]);
    }
  }

  lemma {:induction false} ReturnsAlike(s: string, t: string)
    requires Alike(s, t)
    ensures Alike(SkipCr(s), SkipCr(t))
  {
    if s != "" {
      FirstAlike(s, t);
      ReturnsAlike(s[1..], t[1..]);
    }
  }

  lemma NewlineAlike(s: string, t: string)
    requires Alike(s, t)
    ensures Alike(SkipNl(s).0, SkipNl(t).0) && SkipNl(s).1 == SkipNl(t).1
  {
    ReturnsAlike(s, t);
    if SkipCr(s) != "" { FirstAlike(SkipCr(s), SkipCr(t)); }
  }

  lemma {:induction false} BlankAlike(s: string, t: string)
    requires Alike(s, t)
    ensures Alike(SkipBlank(s), SkipBlank(t))
    decreases |s|
  {
    hide SkipSp, SkipNl, Alike;
    SpacesAlike(s, t);
    NewlineAlike(SkipSp(s), SkipSp(t));
    if SkipNl(SkipSp(s)).1 { BlankAlike(SkipNl(SkipSp(s)).0, SkipNl(SkipSp(t)).0); }
  }

  lemma {:induction false} DropAlike(s: string, t: string)
    requires Alike(s, t)
    ensures Alike(DropLine(s), DropLine(t))
  {
    if s != "" {
      FirstAlike(s, t);
      DropAlike(s[1..], t[1..]);
    }
  }

  lemma NumAlike(s: string, t: string)
    requires Alike(s, t)
    ensures GetNum(s).0 == GetNum(t).0 && Alike(GetNum(s).1, GetNum(t).1)
  {
    if |s| >= 2 {
      FirstAlike(s, t);
      FirstAlike(s[1..], t[1..]);
      assert s[1..][1..] == s[2..] && t[1..][1..] == t[2..] && s[1..][0] == s[1] && t[1..][0] == t[1];
    }
  }

  lemma {:induction false} NumsAlike(s: string, t: string, n: nat)
    requires Alike(s, t)
    ensures var a, b := GetNums(s, n), GetNums(t, n); a.vals == b.vals && a.ok == b.ok && Alike(a.rest, b.rest)
    decreases n
  {
    hide GetNum, Alike;
    if n > 0 {
      NumAlike(s, t);
      if GetNum(s).0 >= 0 { NumsAlike(GetNum(s).1, GetNum(t).1, n - 1); }
    }
  }

  predicate SameLine(l: Line, m: Line)
  {
    l.read == m.read && l.top == m.top && l.stop == m.stop && Alike(l.rest, m.rest)
  }

  lemma BadAlike(syms: seq<Sym>, bytes: seq<Byte>, top: nat, s: string, t: string)
    requires Alike(s, t)
    ensures SameLine(Bad(syms, bytes, top, s), Bad(syms, bytes, top, t))
  {
    DropAlike(s, t);
    NewlineAlike(DropLine(s), DropLine(t));
  }

  lemma EndAlike(syms: seq<Sym>, bytes: seq<Byte>, top: nat, rtype: nat, crc: nat, s: string, t: string)
    requires Alike(s, t)
    ensures SameLine(EndOfRecord(syms, bytes, top, rtype, crc, s), EndOfRecord(syms, bytes, top, rtype, crc, t))
  {
    hide Alike, GetNum, SkipSp, SkipNl, DropLine, Bad;
    BadAlike(syms, bytes, top, s, t);
    NumAlike(s, t);
    var u, v := GetNum(s).1, GetNum(t).1;
    SpacesAlike(u, v);
    NewlineAlike(SkipSp(u), SkipSp(v));
    var x, y := SkipNl(SkipSp(u)).0, SkipNl(SkipSp(v)).0;
    DropAlike(x, y);
    NewlineAlike(DropLine(x), DropLine(y));
  }

  lemma BodyAlike(h: seq<nat>, s: string, t: string, top: nat)
    requires |h| == 4 && Alike(s, t)
    ensures SameLine(Body(h, s, top), Body(h, t, top))
  {
    hide Alike, GetNums, EndOfRecord, Bad, SumNums, LowBytes, Or8, Or16, SameLine;
    BadAlike([], [], top, s, t);
    var n := if h[3] == 4 then 2 else h[0];
    NumsAlike(s, t, n);
    var a, b := GetNums(s, n), GetNums(t, n);
    var sum := SumNums(h) + SumNums(a.vals);
    var syms := [Sym(Or16(top, Or8(h[1], h[2])), h[0])];
    BadAlike(syms, LowBytes(a.vals), top, a.rest, b.rest);
    BadAlike([], [], top, a.rest, b.rest);
    EndAlike(syms, LowBytes(a.vals), top, 0, sum, a.rest, b.rest);
    EndAlike([], [], top, 1, sum, a.rest, b.rest);
    if h[3] == 4 && |a.vals| > 0 {
      BadAlike([], [], 0x100 * a.vals[0], a.rest, b.rest);
      if a.ok { EndAlike([], [], Or8(a.vals[0], a.vals[1]), 4, sum, a.rest, b.rest); }
    }
  }

  lemma LineAlike(s: string, t: string, top: nat)
    requires Alike(s, t)
    ensures SameLine(ReadLine(s, top), ReadLine(t, top))
  {
    hide SkipBlank, GetNums, Body, Bad;
    BlankAlike(s, t);
    var u, v := SkipBlank(s), SkipBlank(t);
    if u != "" {
      FirstAlike(u, v);
      BadAlike([], [], top, u, v);
      NumsAlike(u[1..], v[1..], 4);
      var a, b := GetNums(u[1..], 4), GetNums(v[1..], 4);
      BadAlike([], [], top, a.rest, b.rest);
      if a.ok { BodyAlike(a.vals, a.rest, b.rest, top); }
    }
  }

  /** The case of the digits makes no difference to what is read, whatever the text. */
  lemma {:induction false} CaseIsIgnored(s: string, t: string, top: nat)
    requires Alike(s, t)
    ensures Read(s, top) == Read(t, top)
    decreases |s|
  {
    hide ReadLine, Alike;
    LineShrinks(s, top);
    LineAlike(s, t, top);
    var l, m := ReadLine(s, top), ReadLine(t, top);
    if !l.stop { CaseIsIgnored(l.rest, m.rest, l.top); }
  }

  // ----- texts without an end record -----

  predicate IsTail(t: string, s: string) { |t| <= |s| && t == s[|s| - |t|..] }

  predicate StartsEnd(s: string)
  {
    s != "" && s[0] == ':' && GetNums(s[1..], 4).ok && GetNums(s[1..], 4).vals[3] == 1
  }

  lemma TailOfTail(a: string, b: string, c: string)
    requires IsTail(a, b) && IsTail(b, c)
    ensures IsTail(a, c)
  {}

  lemma OneLess(t: string, s: string)
    requires s != "" && IsTail(t, s[1..])
    ensures IsTail(t, s)
  {}

  lemma {:induction false} SkipTail(s: string)
    ensures IsTail(SkipSp(s), s) && IsTail(SkipCr(s), s) && IsTail(DropLine(s), s)
  {
    if s != "" {
      SkipTail(s[1..]);
      hide IsTail;
      OneLess(SkipSp(s[1..]), s);
      OneLess(SkipCr(s[1..]), s);
      OneLess(DropLine(s[1..]), s);
      assert IsTail(s[1..], s) && IsTail(s, s) by { Itself(s); }
    }
  }

  lemma Itself(s: string)
    ensures IsTail(s, s) && (s != "" ==> IsTail(s[1..], s)) && (|s| >= 2 ==> IsTail(s[2..], s))
  {}

  lemma NewlineTail(s: string)
    ensures IsTail(SkipNl(s).0, s)
  {
    SkipTail(s);
    hide IsTail;
    Itself(SkipCr(s));
    if SkipCr(s) != "" { TailOfTail(SkipCr(s)[1..], SkipCr(s), s); }
  }

  lemma {:induction false} BlankTail(s: string)
    ensures IsTail(SkipBlank(s), s)
    decreases |s|
  {
    hide IsTail, SkipSp, SkipNl;
    SkipTail(s);
    NewlineTail(SkipSp(s));
    var t := SkipNl(SkipSp(s)).0;
    TailOfTail(t, SkipSp(s), s);
    if SkipNl(SkipSp(s)).1 {
      BlankTail(t);
      TailOfTail(SkipBlank(t), t, s);
    }
  }

  lemma {:induction false} NumsTail(s: string, n: nat)
    ensures IsTail(GetNum(s).1, s) && IsTail(GetNums(s, n).rest, s)
    decreases n
  {
    Itself(s);
    hide IsTail;
    if n > 0 && GetNum(s).0 >= 0 {
      NumsTail(GetNum(s).1, n - 1);
      TailOfTail(GetNums(GetNum(s).1, n - 1).rest, GetNum(s).1, s);
    }
  }

  lemma DroppedTail(s: string)
    ensures IsTail(SkipNl(DropLine(s)).0, s)
  {
    hide IsTail, SkipNl, DropLine;
    SkipTail(s);
    NewlineTail(DropLine(s));
    TailOfTail(SkipNl(DropLine(s)).0, DropLine(s), s);
  }

  lemma EndTail(syms: seq<Sym>, bytes: seq<Byte>, top: nat, rtype: nat, crc: nat, s: string)
    ensures var l := EndOfRecord(syms, bytes, top, rtype, crc, s);
            IsTail(l.rest, s) && (rtype != 1 ==> !l.stop)
  {
    hide IsTail, GetNum, SkipSp, SkipNl, DropLine;
    DroppedTail(s);
    NumsTail(s, 0);
    var t := GetNum(s).1;
    SkipTail(t);
    TailOfTail(SkipSp(t), t, s);
    NewlineTail(SkipSp(t));
    var u := SkipNl(SkipSp(t)).0;
    TailOfTail(u, SkipSp(t), s);
    DroppedTail(u);
    TailOfTail(SkipNl(DropLine(u)).0, u, s);
  }

  lemma EndBehind(s: string, t: string, syms: seq<Sym>, bytes: seq<Byte>, top: nat, rtype: nat, crc: nat)
    requires IsTail(t, s)
    ensures IsTail(EndOfRecord(syms, bytes, top, rtype, crc, t).rest, s)
    ensures rtype != 1 ==> !EndOfRecord(syms, bytes, top, rtype, crc, t).stop
  {
    hide IsTail, EndOfRecord;
    EndTail(syms, bytes, top, rtype, crc, t);
    TailOfTail(EndOfRecord(syms, bytes, top, rtype, crc, t).rest, t, s);
  }

  lemma BadBehind(s: string, t: string, syms: seq<Sym>, bytes: seq<Byte>, top: nat)
    requires IsTail(t, s)
    ensures IsTail(Bad(syms, bytes, top, t).rest, s) && !Bad(syms, bytes, top, t).stop
  {
    hide IsTail, SkipNl, DropLine;
    DroppedTail(t);
    TailOfTail(SkipNl(DropLine(t)).0, t, s);
  }

  lemma BodyTail(h: seq<nat>, s: string, top: nat)
    requires |h| == 4
    ensures IsTail(Body(h, s, top).rest, s) && (h[3] != 1 ==> !Body(h, s, top).stop)
  {
    hide IsTail, GetNums, EndOfRecord, Bad, SumNums, LowBytes, Or8, Or16;
    Itself(s);
    var n := if h[3] == 4 then 2 else h[0];
    NumsTail(s, n);
    var b := GetNums(s, n);
    var crc := SumNums(h) + SumNums(b.vals);
    if h[3] == 0 {
      var syms, bytes := [Sym(Or16(top, Or8(h[1], h[2])), h[0])], LowBytes(b.vals);
      BadBehind(s, b.rest, syms, bytes, top);
      EndBehind(s, b.rest, syms, bytes, top, 0, crc);
    } else if h[3] == 1 {
      BadBehind(s, b.rest, [], [], top);
      EndBehind(s, b.rest, [], [], top, 1, crc);
    } else {
      BadBehind(s, s, [], [], top);
      if h[3] == 4 && h[0] == 2 { ExtensionTail(h, s, top); }
    }
  }

  lemma ExtensionTail(h: seq<nat>, s: string, top: nat)
    requires |h| == 4 && h[3] == 4 && h[0] == 2
    ensures IsTail(Body(h, s, top).rest, s) && !Body(h, s, top).stop
  {
    hide IsTail, GetNums, EndOfRecord, Bad, SumNums, LowBytes, Or8, Or16;
    NumsTail(s, 2);
    var b := GetNums(s, 2);
    if b.ok {
      EndBehind(s, b.rest, [], [], Or8(b.vals[0], b.vals[1]), 4, SumNums(h) + SumNums(b.vals));
    } else {
      BadBehind(s, b.rest, [], [], if |b.vals| > 0 then 0x100 * b.vals[0] else top);
    }
  }

  /** A line on which reading stops is the end record, or there is nothing left. */
  lemma LineTail(s: string, top: nat)
    ensures var l, t := ReadLine(s, top), SkipBlank(s);
            IsTail(l.rest, s) && (l.stop ==> StartsEnd(t) || l == Line(Reading([], [], [NoEndRecord]), top, "", true))
  {
    hide IsTail, SkipBlank, GetNums, Body, SkipNl, DropLine;
    BlankTail(s);
    var t := SkipBlank(s);
    DroppedTail(t);
    TailOfTail(SkipNl(DropLine(t)).0, t, s);
    if t != "" {
      Itself(t);
      NumsTail(t[1..], 4);
      var h := GetNums(t[1..], 4);
      TailOfTail(h.rest, t[1..], t);
      TailOfTail(h.rest, t, s);
      DroppedTail(h.rest);
      TailOfTail(SkipNl(DropLine(h.rest)).0, h.rest, s);
      if h.ok {
        BodyTail(h.vals, h.rest, top);
        TailOfTail(Body(h.vals, h.rest, top).rest, h.rest, s);
      }
    }
  }

  /** A text in which no end record starts anywhere is read to its end, which is warned of last. */
  lemma {:induction false} NoEnd(s: string, top: nat)
    requires forall t :: IsTail(t, s) ==> !StartsEnd(t)
    ensures var w := Read(s, top).warnings; w != [] && w[|w| - 1] == NoEndRecord
    decreases |s|
  {
    hide IsTail, ReadLine, StartsEnd;
    LineShrinks(s, top);
    LineTail(s, top);
    BlankTail(s);
    var l := ReadLine(s, top);
    if !l.stop {
      forall t | IsTail(t, l.rest) ensures !StartsEnd(t) { TailOfTail(t, l.rest, s); }
      NoEnd(l.rest, l.top);
    }
  }

  // ----- more on the line than the record -----

  /** A record that is followed by anything but blanks is taken as it is, and warned of. */
  lemma TooLong(syms: seq<Sym>, bytes: seq<Byte>, top: nat, rtype: nat, crc: nat, check: Byte, more: string,
                tail: string)
    requires rtype != 1 && OneLine(more) && SkipSp(more) != ""
    ensures EndOfRecord(syms, bytes, top, rtype, crc, PrintNum(check, 2) + (more + ("\n" + tail))) ==
            Line(Reading(syms, bytes, Warned((crc + check) % 0x100 == 0) + [ExcessCharacters]), top,
                 SkipNl(tail).0, false)
  {
    hide PrintNum, GetNum, DropLine, SkipNl;
    var rest := more + ("\n" + tail);
    ReadsBack(check, rest);
    Complement(crc, check);
    SpacesEnd(more, tail);
    SkipTail(more);
    Dropped(SkipSp(more), tail);
    NoNewline(SkipSp(more) + ("\n" + tail));
  }

  lemma {:induction false} SpacesEnd(more: string, tail: string)
    ensures SkipSp(more + ("\n" + tail)) == SkipSp(more) + ("\n" + tail)
  {
    if more == "" {
      assert more + ("\n" + tail) == "\n" + tail;
    } else {
      assert (more + ("\n" + tail))[1..] == more[1..] + ("\n" + tail);
      SpacesEnd(more[1..], tail);
    }
  }

  lemma NoNewline(s: string)
    requires s != "" && s[0] != '\n' && s[0] != '\r'
    ensures SkipNl(s) == (s, false)
  {}

  // ----- what is written -----

  /** All records of a segment but the last have 16 bytes, and each starts where the one before
      it ends. */
  lemma {:induction false} RecordsAreFull(address: nat, bytes: seq<Byte>)
    ensures var r := Chunks(address, bytes);
            && (bytes == [] <==> r == []) && (r != [] ==> r[0].address == address)
            && forall k :: 0 <= k < |r| - 1 ==> |r[k].bytes| == 16 && r[k + 1].address == r[k].address + 16
    decreases |bytes|
  {
    if |bytes| > 16 { RecordsAreFull(address + 16, bytes[16..]); }
  }
}
