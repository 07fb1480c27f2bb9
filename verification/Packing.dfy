/** output.c: packing the sparse action rows and goto columns into one table with a check
    column beside it. */
module Packing {

  const MAXTABLE := 32500

  /** A row or column: to[k] is the entry at from[k].  Its tally is the number of entries. */
  datatype Vector = Vector(from: seq<nat>, to: seq<int>, width: int)
  {
    ghost predicate Valid()
    {
      && |from| == |to|
      && forall j, k :: 0 <= j < k < |from| ==> from[j] != from[k]
    }

    /** The width is the distance of the largest key from the smallest, plus one. */
    ghost predicate HasWidth()
    {
      if from == [] then width == 0
        else exists hi: nat, lo: nat :: IsSpan(from, hi, lo) && width == hi as int - lo as int + 1
    }

    ghost predicate Entry(x: int, y: int)
    {
      exists k :: 0 <= k < |from| && k < |to| && from[k] == x && to[k] == y
    }
  }

  /** hi is the largest and lo the smallest of the keys. */
  ghost predicate IsSpan(from: seq<nat>, hi: nat, lo: nat)
  {
    hi in from && lo in from && forall k :: 0 <= k < |from| ==> lo <= from[k] <= hi
  }

  datatype Option = None | Some(value: int)

  /** How the generated parser looks an entry up. */
  function Lookup(base: int, table: seq<int>, check: seq<int>, x: int): Option
    requires |table| == |check|
  {
    if base != 0 && 0 <= base + x < |table| && check[base + x] == x then Some(table[base + x]) else None
  }

  // ----- sort_actions -----

  /** Wider vectors first, fuller ones first among equally wide ones. */
  predicate Precedes(vs: seq<Vector>, a: nat, b: nat)
    requires a < |vs| && b < |vs|
  {
    || vs[a].width > vs[b].width
    || (vs[a].width == vs[b].width && |vs[a].from| > |vs[b].from|)
    || (vs[a].width == vs[b].width && |vs[a].from| == |vs[b].from| && a < b)
  }

  /** The non-empty vectors among the first n, in that order. */
  ghost predicate IsOrder(vs: seq<Vector>, order: seq<nat>, n: nat)
  {
    && n <= |vs|
    && (forall e :: 0 <= e < |order| ==> order[e] < n && vs[order[e]].from != [])
    && (forall e, f :: 0 <= e < f < |order| ==> Precedes(vs, order[e], order[f]))
    && (forall i: nat :: i < n && vs[i].from != [] ==> i in order)
  }

  lemma Inserted(vs: seq<Vector>, order: seq<nat>, i: nat, at: nat)
    requires IsOrder(vs, order, i) && i < |vs| && vs[i].from != [] && at <= |order|
    requires forall e :: 0 <= e < at ==> Precedes(vs, order[e], i)
    requires forall e :: at <= e < |order| ==> Precedes(vs, i, order[e])
    ensures IsOrder(vs, order[..at] + [i] + order[at..], i + 1)
  {
    hide Precedes;
    var order' := order[..at] + [i] + order[at..];
    forall k: nat | k < i + 1 && vs[k].from != [] ensures k in order' {
      InsertedIn(order, i, at, k);
    }
    assert forall e :: 0 <= e < |order'| ==>
        order'[e] == if e < at then order[e] else if e == at then i else order[e - 1];
  }

  lemma InsertedIn(order: seq<nat>, i: nat, at: nat, k: nat)
    requires at <= |order| && (k in order || k == i)
    ensures k in order[..at] + [i] + order[at..]
  {
    assert order == order[..at] + order[at..];
  }

  method SortActions(vs: seq<Vector>) returns (order: array<nat>, nentries: nat)
    ensures fresh(order) && nentries <= order.Length && IsOrder(vs, order[..nentries], |vs|)
  {
    order := new nat[|vs|];
    nentries := 0;
    for i := 0 to |vs|
      invariant nentries <= i && IsOrder(vs, order[..nentries], i)
    {
      if |vs[i].from| > 0 {
        InsertVector(vs, order, nentries, i);
        nentries := nentries + 1;
      }
    }
  }

  method InsertVector(vs: seq<Vector>, order: array<nat>, nentries: nat, i: nat)
    requires nentries < order.Length && i < |vs| && vs[i].from != [] && IsOrder(vs, order[..nentries], i)
    modifies order
    ensures IsOrder(vs, order[..nentries + 1], i + 1)
  {
    ghost var was := order[..nentries];
    var at := FindPlace(vs, order, nentries, i, was);
    Inserted(vs, was, i, at);
    hide IsOrder, Precedes;
    InsertAt(order, was, nentries, at, i);
  }

  /** How far down vector i sinks. */
  method FindPlace(vs: seq<Vector>, order: array<nat>, nentries: nat, i: nat, ghost was: seq<nat>) returns (at: nat)
    requires nentries <= order.Length && i < |vs| && was == order[..nentries] && IsOrder(vs, was, i)
    ensures at <= nentries
    ensures forall e :: 0 <= e < at ==> Precedes(vs, was[e], i)
    ensures forall e :: at <= e < nentries ==> Precedes(vs, i, was[e])
  {
    var t, w := |vs[i].from|, vs[i].width;
    var j: int := nentries - 1;
    while j >= 0 && vs[order[j]].width < w
      invariant -1 <= j < nentries
      invariant forall e :: j < e < nentries ==> Precedes(vs, i, was[e])
    {
      assert order[j] == was[j];
      j := j - 1;
    }
    ghost var top := j;
    if j >= 0 { assert order[j] == was[j]; }
    while j >= 0 && vs[order[j]].width == w && |vs[order[j]].from| < t
      invariant -1 <= j <= top
      invariant j >= 0 ==> vs[was[j]].width >= w
      invariant forall e :: j < e < nentries ==> Precedes(vs, i, was[e])
    {
      assert order[j] == was[j];
      if j > 0 { assert Precedes(vs, was[j - 1], was[j]); }
      j := j - 1;
    }
    at := j + 1;
    if j >= 0 {
      assert order[j] == was[j] && Precedes(vs, was[j], i);
      forall e | 0 <= e < j ensures Precedes(vs, was[e], i) {
        assert Precedes(vs, was[e], was[j]);
      }
    }
  }

  /** Makes room at index at among the first entries and puts i there. */
  method InsertAt(order: array<nat>, ghost was: seq<nat>, n: nat, at: nat, i: nat)
    requires at <= n < order.Length && was == order[..n]
    modifies order
    ensures order[..n + 1] == was[..at] + [i] + was[at..]
  {
    var k := n;
    while k > at
      invariant at <= k <= n
      invariant forall e :: 0 <= e < k ==> order[e] == was[e]
      invariant forall e :: k < e <= n ==> order[e] == was[e - 1]
    {
      order[k] := order[k - 1];
      k := k - 1;
    }
    order[at] := i;
  }

  // ----- matching_vector -----

  predicate Same(v: Vector, w: Vector) { v.from == w.from && v.to == w.to && v.width == w.width }

  /** The last vector before this one, in order, that is the same. */
  ghost predicate IsMatch(vs: seq<Vector>, order: seq<nat>, vector: nat, e: nat)
    requires vector < |order| && forall e :: 0 <= e < |order| ==> order[e] < |vs|
  {
    && e < vector && Same(vs[order[e]], vs[order[vector]])
    && forall f :: e < f < vector ==> !Same(vs[order[f]], vs[order[vector]])
  }

  /** An earlier vector with the same entries, unless vector is a goto column.  Looking only at
      the neighbours of the same width and tally misses none. */
  method MatchingVector(vs: seq<Vector>, nrows: nat, order: seq<nat>, vector: nat) returns (match_: int)
    requires IsOrder(vs, order, |vs|) && vector < |order| && forall v <- vs :: v.Valid()
    ensures match_ >= 0 ==>
              order[vector] < nrows && exists e: nat :: IsMatch(vs, order, vector, e) && order[e] == match_
    ensures match_ < 0 ==> order[vector] >= nrows || forall e: nat :: !IsMatch(vs, order, vector, e)
  {
    var i := order[vector];
    if i >= nrows {
      return -1;
    }
    var t, w := |vs[i].from|, vs[i].width;
    var prev: int := vector - 1;
    while prev >= 0
      invariant -1 <= prev < vector
      invariant forall e :: prev < e < vector ==> !Same(vs[order[e]], vs[i])
    {
      var j := order[prev];
      if vs[j].width != w || |vs[j].from| != t {
        forall e | 0 <= e < prev ensures !Same(vs[order[e]], vs[i]) {
          assert Precedes(vs, order[e], j) && Precedes(vs, j, i);
        }
        return -1;
      }
      assert vs[j] in vs && vs[i] in vs;
      var same, k := true, 0;
      while same && k < t
        invariant 0 <= k <= t
        invariant same <==> vs[j].from[..k] == vs[i].from[..k] && vs[j].to[..k] == vs[i].to[..k]
      {
        PrefixesGrow(vs[j].from, vs[i].from, k);
        PrefixesGrow(vs[j].to, vs[i].to, k);
        if vs[j].to[k] != vs[i].to[k] || vs[j].from[k] != vs[i].from[k] {
          same := false;
        }
        k := k + 1;
      }
      if same {
        assert vs[j].from[..t] == vs[j].from && vs[i].from[..t] == vs[i].from;
        assert vs[j].to[..t] == vs[j].to && vs[i].to[..t] == vs[i].to;
        assert IsMatch(vs, order, vector, prev);
        return j;
      }
      prev := prev - 1;
    }
    return -1;
  }

  lemma PrefixesGrow<T>(a: seq<T>, b: seq<T>, k: nat)
    requires k < |a| == |b|
    ensures a[..k + 1] == b[..k + 1] <==> a[..k] == b[..k] && a[k] == b[k]
  {
    assert a[..k + 1] == a[..k] + [a[k]] && b[..k + 1] == b[..k] + [b[k]];
  }

  // ----- pack_vector -----

  /** Cells past the end of the table count as free. */
  predicate Free(check: seq<int>, loc: int)
  {
    loc >= 0 && (loc < |check| ==> check[loc] == -1)
  }

  ghost predicate Fits(check: seq<int>, used: seq<int>, from: seq<nat>, j: int)
  {
    && j != 0 && j !in used
    && forall k :: 0 <= k < |from| ==> Free(check, j + from[k])
  }

  /** j is the least offset that is not 0, not used yet, and puts every entry on a free cell. */
  ghost predicate IsFirstFit(check: seq<int>, used: seq<int>, from: seq<nat>, j: int)
  {
    Fits(check, used, from, j) && forall i :: i < j ==> !Fits(check, used, from, i)
  }

  /** now is was with free cells added at the end. */
  ghost predicate Extends(was: seq<int>, now: seq<int>)
  {
    |was| <= |now| && now[..|was|] == was && forall l :: |was| <= l < |now| ==> now[l] == -1
  }

  ghost predicate LandsAt(from: seq<nat>, j: int, loc: int)
  {
    exists k :: 0 <= k < |from| && loc == j + from[k]
  }

  /** The vector's first n entries have been written at offset j, and nothing else has changed. */
  ghost predicate Written(check0: seq<int>, table0: seq<int>, check: seq<int>, table: seq<int>, v: Vector, j: int,
                          n: nat)
    requires |check0| == |table0| && n <= |v.from| == |v.to|
  {
    && |check| == |table| >= |check0|
    && (forall k :: 0 <= k < n ==> IsAt(check, table, j, v, k))
    && (forall loc :: 0 <= loc < |check| && !LandsAt(v.from[..n], j, loc) ==>
          if loc < |check0| then check[loc] == check0[loc] && table[loc] == table0[loc] else check[loc] == -1)
  }

  ghost predicate IsAt(check: seq<int>, table: seq<int>, j: int, v: Vector, k: nat)
    requires |check| == |table| && k < |v.from| == |v.to|
  {
    0 <= j + v.from[k] < |check| && check[j + v.from[k]] == v.from[k] && table[j + v.from[k]] == v.to[k]
  }

  lemma SameFree(was: seq<int>, now: seq<int>, loc: int)
    requires Extends(was, now)
    ensures Free(was, loc) <==> Free(now, loc)
  {}

  lemma SameFits(was: seq<int>, now: seq<int>, used: seq<int>, from: seq<nat>, j: int)
    requires Extends(was, now)
    ensures Fits(was, used, from, j) <==> Fits(now, used, from, j)
  {}

  lemma ExtendsMore(a: seq<int>, b: seq<int>, c: seq<int>)
    requires Extends(a, b) && Extends(b, c)
    ensures Extends(a, c)
  {
    assert c[..|a|] == b[..|a|];
    forall l | |a| <= l < |c| ensures c[l] == -1 {
      if l < |b| { assert c[l] == c[..|b|][l] == b[l]; }
    }
  }

  lemma SameTable(a: seq<int>, b: seq<int>, c: seq<int>)
    requires |a| <= |b| <= |c| && b[..|a|] == a && c[..|b|] == b
    ensures c[..|a|] == a
  {
    assert c[..|a|] == b[..|a|];
  }

  /** When an entry lands past the limit at j, then also at every later offset. */
  lemma NoRoom(check: seq<int>, used: seq<int>, from: seq<nat>, j: int)
    requires forall i :: i < j ==> !Fits(check, used, from, i)
    requires PastLimit(from, j)
    ensures forall i :: Fits(check, used, from, i) ==> PastLimit(from, i)
  {
    var k :| 0 <= k < |from| && j + from[k] >= MAXTABLE - 1;
    forall i | Fits(check, used, from, i) ensures PastLimit(from, i) {
      assert i + from[k] >= MAXTABLE - 1;
    }
  }

  lemma Room(was: seq<int>, now: seq<int>, used: seq<int>, from: seq<nat>, j: int)
    requires Extends(was, now) && Fits(was, used, from, j)
    requires forall k :: 0 <= k < |from| ==> j + from[k] < |now|
    ensures forall k :: 0 <= k < |from| ==> 0 <= j + from[k] < |now| && now[j + from[k]] == -1
  {
    forall k | 0 <= k < |from| ensures 0 <= j + from[k] && now[j + from[k]] == -1 {
      SameFree(was, now, j + from[k]);
    }
  }

  lemma LandsMore(from: seq<nat>, j: int, k: nat, loc: int)
    requires k < |from|
    ensures LandsAt(from[..k + 1], j, loc) <==> LandsAt(from[..k], j, loc) || loc == j + from[k]
  {
    var front, more := from[..k], from[..k + 1];
    assert more[k] == from[k] && forall i :: 0 <= i < k ==> more[i] == front[i];
    if LandsAt(front, j, loc) {
      var i :| 0 <= i < |front| && loc == j + front[i];
      assert loc == j + more[i];
    }
    if loc == j + from[k] { assert loc == j + more[k]; }
    if LandsAt(more, j, loc) {
      var i :| 0 <= i < |more| && loc == j + more[i];
      assert i < k ==> loc == j + front[i];
    }
  }

  lemma WriteOne(check0: seq<int>, table0: seq<int>, check: seq<int>, table: seq<int>, v: Vector, j: int, k: nat)
    requires |check0| == |table0| && v.Valid() && k < |v.from|
    requires Written(check0, table0, check, table, v, j, k) && 0 <= j + v.from[k] < |check|
    ensures Written(check0, table0, check[j + v.from[k] := v.from[k]], table[j + v.from[k] := v.to[k]], v, j, k + 1)
  {
    hide LandsAt;
    var loc, n := j + v.from[k], k + 1;
    var check', table' := check[loc := v.from[k]], table[loc := v.to[k]];
    forall i | 0 <= i < n ensures IsAt(check', table', j, v, i) {
      if i < k { assert IsAt(check, table, j, v, i); }
    }
    forall l | 0 <= l < |check'| && !LandsAt(v.from[..n], j, l)
      ensures if l < |check0| then check'[l] == check0[l] && table'[l] == table0[l] else check'[l] == -1
    {
      LandsMore(v.from, j, k, l);
    }
  }

  /** A cell that was taken and on which no entry lands is still taken. */
  lemma StillTaken(check0: seq<int>, table0: seq<int>, check: seq<int>, table: seq<int>, v: Vector, j: int, l: nat)
    requires |check0| == |table0| && |v.from| == |v.to| && Written(check0, table0, check, table, v, j, |v.from|)
    requires forall k :: 0 <= k < |v.from| ==> 0 <= j + v.from[k] < |check0| && check0[j + v.from[k]] == -1
    requires !Free(check0, l)
    ensures !Free(check, l)
  {
    assert v.from[..|v.from|] == v.from;
  }

  /** Growing first and writing then comes to writing. */
  lemma WrittenFrom(check0: seq<int>, table0: seq<int>, check1: seq<int>, table1: seq<int>, check: seq<int>,
                    table: seq<int>, v: Vector, j: int)
    requires |check0| == |table0| && |check1| == |table1| && v.Valid()
    requires Extends(check0, check1) && |table1| >= |table0| && table1[..|table0|] == table0
    requires Written(check1, table1, check, table, v, j, |v.from|)
    ensures Written(check0, table0, check, table, v, j, |v.from|)
  {
    forall loc | 0 <= loc < |check0| ensures check1[loc] == check0[loc] && table1[loc] == table0[loc] {
      assert check1[loc] == check1[..|check0|][loc] && table1[loc] == table1[..|table0|][loc];
    }
  }

  class Packer {
    var table: array<int>
    var check: array<int>
    var lowzero: nat
    var high: nat

    /** Every cell below lowzero is taken, every cell above high is free. */
    ghost predicate Valid()
      reads this, table, check
    {
      && table.Length == check.Length <= MAXTABLE + 200 && table != check
      && high < check.Length
      && (forall l :: 0 <= l < lowzero ==> !Free(check[..], l))
      && (forall l :: high < l < check.Length ==> check[l] == -1)
    }

    constructor ()
      ensures Valid() && fresh(table) && fresh(check) && check.Length == 1000 &&
              forall l :: 0 <= l < 1000 ==> check[l] == -1
    {
      table := new int[1000](_ => 0);
      check := new int[1000](_ => -1);
      lowzero, high := 0, 0;
    }

    /** REALLOC: the arrays grow by 200 cells at a time until loc is inside. */
    method Grow(loc: nat)
      requires Valid() && table.Length - 1 <= loc < MAXTABLE - 1
      modifies this`table, this`check
      ensures Valid() && fresh(table) && fresh(check) && loc < table.Length
      ensures Extends(old(check[..]), check[..]) && table[..old(table.Length)] == old(table[..])
    {
      var maxtable := table.Length;
      var newmax := maxtable + 200;
      while newmax <= loc
        invariant maxtable < newmax <= MAXTABLE + 200
      {
        newmax := newmax + 200;
      }
      var table1, check1 := new int[newmax], new int[newmax];
      forall l | 0 <= l < newmax {
        table1[l] := if l < maxtable then table[l] else 0;
      }
      forall l | 0 <= l < newmax {
        check1[l] := if l < maxtable then check[l] else -1;
      }
      table, check := table1, check1;
      assert check[..maxtable] == old(check[..]);
      assert Extends(old(check[..]), check[..]);
      forall l | 0 <= l < lowzero ensures !Free(check[..], l) { SameFree(old(check[..]), check[..], l); }
    }

    /** Does the vector fit at offset j? */
    method Try(from: seq<nat>, used: seq<int>, j: int) returns (fatal: bool, ok: bool)
      requires Valid() && j != 0 && forall k :: 0 <= k < |from| ==> j + from[k] >= 0
      modifies this`table, this`check
      ensures Valid() && (table == old(table) || fresh(table)) && (check == old(check) || fresh(check))
      ensures Extends(old(check[..]), check[..])
      ensures table.Length >= old(table.Length) && table[..old(table.Length)] == old(table[..])
      ensures fatal ==> PastLimit(from, j)
      ensures !fatal ==> (ok <==> Fits(old(check[..]), used, from, j))
      ensures !fatal && ok ==> forall k :: 0 <= k < |from| ==> j + from[k] < check.Length
      ensures !fatal && from != [] ==> j < MAXTABLE + 200
    {
      ghost var was := check[..];
      fatal, ok := false, true;
      var k := 0;
      while ok && k < |from|
        invariant 0 <= k <= |from|
        invariant Valid() && (table == old(table) || fresh(table)) && (check == old(check) || fresh(check))
        invariant Extends(was, check[..])
        invariant table.Length >= old(table.Length) && table[..old(table.Length)] == old(table[..])
        invariant ok ==> forall i :: 0 <= i < k ==> Free(was, j + from[i]) && j + from[i] < check.Length
        invariant !ok ==> exists i :: 0 <= i < k && !Free(was, j + from[i])
        invariant k > 0 ==> j < MAXTABLE + 200
      {
        var loc := j + from[k];
        if loc >= table.Length - 1 {
          if loc >= MAXTABLE - 1 {
            fatal := true;
            return;
          }
          Grow(loc);
        }
        SameFree(was, check[..], loc);
        if check[loc] != -1 {
          ok := false;
        }
        k := k + 1;
      }
      k := 0;
      while ok && k < |used|
        invariant 0 <= k <= |used|
        invariant ok <==> j !in used[..k] && forall i :: 0 <= i < |from| ==> Free(was, j + from[i])
        decreases |used| - k
      {
        assert used[..k + 1] == used[..k] + [used[k]];
        if used[k] == j {
          ok := false;
        }
        k := k + 1;
      }
      assert ok ==> used[..k] == used;
    }

    /** The entries go to their cells; high follows the highest of them. */
    method Write(v: Vector, j: int)
      requires Valid() && v.Valid() && forall k :: 0 <= k < |v.from| ==> 0 <= j + v.from[k] < check.Length
      requires forall k :: 0 <= k < |v.from| ==> check[j + v.from[k]] == -1
      modifies this`high, table, check
      ensures Valid() && table.Length == old(table.Length)
      ensures Written(old(check[..]), old(table[..]), check[..], table[..], v, j, |v.from|)
      ensures forall k :: 0 <= k < |v.from| ==> j + v.from[k] <= high
    {
      hide LandsAt, Free;
      ghost var check0, table0 := check[..], table[..];
      for k := 0 to |v.from|
        invariant table.Length == check.Length == |check0| && high < check.Length
        invariant forall l :: high < l < check.Length ==> check[l] == -1
        invariant forall i :: 0 <= i < k ==> j + v.from[i] <= high
        invariant Written(check0, table0, check[..], table[..], v, j, k)
      {
        ghost var was, wasTable := check[..], table[..];
        var loc := j + v.from[k];
        WriteOne(check0, table0, was, wasTable, v, j, k);
        hide Written;
        table[loc] := v.to[k];
        check[loc] := v.from[k];
        if loc > high {
          high := loc;
        }
        assert check[..] == was[loc := v.from[k]] && table[..] == wasTable[loc := v.to[k]];
      }
      forall l | 0 <= l < lowzero ensures !Free(check[..], l) {
        StillTaken(check0, table0, check[..], table[..], v, j, l);
      }
    }

    /** Cells past the end are free, so the scan stops there at the latest. */
    method ScanLow()
      requires Valid()
      modifies this`lowzero
      ensures Valid()
    {
      while lowzero < check.Length && check[lowzero] != -1
        invariant Valid()
        decreases check.Length - lowzero
      {
        lowzero := lowzero + 1;
      }
    }

    /** The least offset that puts no entry below lowzero; everything before it is taken. */
    method StartOffset(from: seq<nat>, ghost used: seq<int>) returns (j: int)
      requires Valid() && from != []
      ensures forall k :: 0 <= k < |from| ==> j + from[k] >= lowzero
      ensures forall i :: i < j ==> !Fits(check[..], used, from, i)
    {
      j := lowzero - from[0];
      ghost var least := 0;
      for k := 1 to |from|
        invariant 0 <= least < |from| && j == lowzero - from[least]
        invariant forall i :: 0 <= i < k ==> j >= lowzero - from[i]
      {
        if lowzero - from[k] > j {
          j := lowzero - from[k];
          least := k;
        }
      }
      forall i | i < j ensures !Fits(check[..], used, from, i) {
        assert i + from[least] < lowzero;
        assert !Free(check[..], i + from[least]);
      }
    }

    method PackVector(v: Vector, used: seq<int>) returns (fatal: bool, j: int)
      requires Valid() && v.Valid() && v.from != []
      modifies this, table, check
      ensures Valid() && (table == old(table) || fresh(table)) && (check == old(check) || fresh(check))
      ensures fatal ==> forall i :: Fits(old(check[..]), used, v.from, i) ==> PastLimit(v.from, i)
      ensures !fatal ==> IsFirstFit(old(check[..]), used, v.from, j)
      ensures !fatal ==> Written(old(check[..]), old(table[..]), check[..], table[..], v, j, |v.from|)
    {
      ghost var check0, table0 := check[..], table[..];
      var from := v.from;
      j := StartOffset(from, used);
      while true
        invariant Valid() && (table == old(table) || fresh(table)) && (check == old(check) || fresh(check))
        invariant lowzero == old(lowzero) && high == old(high)
        invariant Extends(check0, check[..]) && table.Length >= |table0| && table[..|table0|] == table0
        invariant forall k :: 0 <= k < |from| ==> j + from[k] >= lowzero
        invariant forall i :: i < j ==> !Fits(check0, used, from, i)
        decreases MAXTABLE + 200 - j
      {
        if j != 0 {
          ghost var was, wasTable := check[..], table[..];
          var ok;
          fatal, ok := Try(from, used, j);
          SameFits(check0, was, used, from, j);
          ExtendsMore(check0, was, check[..]);
          SameTable(table0, wasTable, table[..]);
          if fatal {
            NoRoom(check0, used, from, j);
            return;
          }
          if ok {
            Room(check0, check[..], used, from, j);
            ghost var check1, table1 := check[..], table[..];
            Write(v, j);
            WrittenFrom(check0, table0, check1, table1, check[..], table[..], v, j);
            ScanLow();
            return;
          }
        }
        j := j + 1;
      }
    }
  }

  // ----- pack_table -----

  ghost predicate AllAt(check: seq<int>, table: seq<int>, j: int, v: Vector)
    requires |check| == |table| && v.Valid()
  {
    forall k :: 0 <= k < |v.from| ==> IsAt(check, table, j, v, k)
  }

  /** The vectors order[..|pos|] have been packed at the offsets pos. */
  ghost predicate Layout(vs: seq<Vector>, order: seq<nat>, pos: seq<int>, check: seq<int>, table: seq<int>)
    requires (forall v <- vs :: v.Valid()) && forall e :: 0 <= e < |order| ==> order[e] < |vs|
  {
    && |pos| <= |order| && |check| == |table|
    && (forall e :: 0 <= e < |pos| ==> pos[e] != 0 && vs[order[e]] in vs && AllAt(check, table, pos[e], vs[order[e]]))
    && (forall loc :: 0 <= loc < |check| ==> check[loc] == -1 || IsOwned(vs, order, pos, loc))
    && (forall e, f :: 0 <= e < f < |pos| && pos[e] == pos[f] ==> Same(vs[order[e]], vs[order[f]]))
  }

  ghost predicate IsOwned(vs: seq<Vector>, order: seq<nat>, pos: seq<int>, loc: int)
    requires forall e :: 0 <= e < |order| ==> order[e] < |vs|
  {
    exists e :: 0 <= e < |pos| && e < |order| && LandsAt(vs[order[e]].from, pos[e], loc)
  }

  lemma OwnedStays(vs: seq<Vector>, order: seq<nat>, pos: seq<int>, j: int, loc: int)
    requires forall e :: 0 <= e < |order| ==> order[e] < |vs|
    requires IsOwned(vs, order, pos, loc)
    ensures IsOwned(vs, order, pos + [j], loc)
  {
    var e :| 0 <= e < |pos| && e < |order| && LandsAt(vs[order[e]].from, pos[e], loc);
    assert (pos + [j])[e] == pos[e];
  }

  /** A vector put at its first fit. */
  lemma LayoutPacked(vs: seq<Vector>, order: seq<nat>, pos: seq<int>, check: seq<int>, table: seq<int>,
                     check': seq<int>, table': seq<int>, j: int)
    requires (forall v <- vs :: v.Valid()) && forall e :: 0 <= e < |order| ==> order[e] < |vs|
    requires Layout(vs, order, pos, check, table) && |pos| < |order|
    requires var v := vs[order[|pos|]];
             v in vs && Fits(check, pos, v.from, j) && Written(check, table, check', table', v, j, |v.from|)
    ensures Layout(vs, order, pos + [j], check', table')
  {
    hide LandsAt, IsOwned, Vector.Valid;
    var n := |pos|;
    var v := vs[order[n]];
    assert v.from[..|v.from|] == v.from;
    forall e | 0 <= e < n ensures AllAt(check', table', pos[e], vs[order[e]]) {
      OldStays(check, table, check', table', pos[e], vs[order[e]], v, j, pos);
    }
    forall loc | 0 <= loc < |check'| ensures check'[loc] == -1 || IsOwned(vs, order, pos + [j], loc) {
      if LandsAt(v.from, j, loc) {
        OwnedNew(vs, order, pos, j, loc);
      } else if loc < |check| && check[loc] != -1 {
        OwnedStays(vs, order, pos, j, loc);
      }
    }
  }

  lemma OwnedNew(vs: seq<Vector>, order: seq<nat>, pos: seq<int>, j: int, loc: int)
    requires forall e :: 0 <= e < |order| ==> order[e] < |vs|
    requires |pos| < |order| && LandsAt(vs[order[|pos|]].from, j, loc)
    ensures IsOwned(vs, order, pos + [j], loc)
  {
    assert (pos + [j])[|pos|] == j;
  }

  lemma OldStays(check: seq<int>, table: seq<int>, check': seq<int>, table': seq<int>, p: int, u: Vector, v: Vector,
                 j: int, pos: seq<int>)
    requires |check| == |table| && u.Valid() && v.Valid() && AllAt(check, table, p, u)
    requires Fits(check, pos, v.from, j) && Written(check, table, check', table', v, j, |v.from|)
    ensures AllAt(check', table', p, u)
  {
    assert v.from[..|v.from|] == v.from;
    forall k | 0 <= k < |u.from| ensures IsAt(check', table', p, u, k) {
      assert IsAt(check, table, p, u, k);
      assert !LandsAt(v.from, j, p + u.from[k]);
    }
  }

  /** A vector that shares the offset of an earlier one with the same entries. */
  lemma LayoutShared(vs: seq<Vector>, order: seq<nat>, pos: seq<int>, check: seq<int>, table: seq<int>, e: nat)
    requires (forall v <- vs :: v.Valid()) && forall e :: 0 <= e < |order| ==> order[e] < |vs|
    requires Layout(vs, order, pos, check, table) && e < |pos| < |order| && Same(vs[order[e]], vs[order[|pos|]])
    ensures Layout(vs, order, pos + [pos[e]], check, table)
  {
    hide LandsAt, IsOwned;
    var pos' := pos + [pos[e]];
    assert AllAt(check, table, pos[e], vs[order[e]]);
    assert vs[order[|pos|]] in vs;
    forall k | 0 <= k < |vs[order[|pos|]].from| ensures IsAt(check, table, pos[e], vs[order[|pos|]], k) {
      assert IsAt(check, table, pos[e], vs[order[e]], k);
    }
    forall loc | 0 <= loc < |check| ensures check[loc] == -1 || IsOwned(vs, order, pos', loc) {
      if check[loc] != -1 { OwnedStays(vs, order, pos, pos[e], loc); }
    }
  }

  /** The bases of the vectors packed so far; the others' are still 0. */
  ghost predicate AreBases(vs: seq<Vector>, order: seq<nat>, pos: seq<int>, base: seq<int>)
  {
    && |base| == |vs| && |pos| <= |order|
    && (forall e :: 0 <= e < |pos| ==> order[e] < |base| && base[order[e]] == pos[e])
    && (forall i: nat :: i < |base| && base[i] != 0 ==> i in order[..|pos|])
  }

  lemma BaseSet(vs: seq<Vector>, order: seq<nat>, pos: seq<int>, base: seq<int>, place: int)
    requires IsOrder(vs, order, |vs|) && AreBases(vs, order, pos, base) && |pos| < |order|
    ensures AreBases(vs, order, pos + [place], base[order[|pos|] := place])
  {
    var n, i := |pos|, order[|pos|];
    assert order[..n + 1] == order[..n] + [i];
    forall e | 0 <= e < n ensures order[e] != i { assert Precedes(vs, order[e], order[n]); }
  }

  lemma EntryFound(vs: seq<Vector>, order: seq<nat>, pos: seq<int>, base: seq<int>, check: seq<int>, table: seq<int>,
                   i: nat, k: nat)
    requires (forall v <- vs :: v.Valid()) && IsOrder(vs, order, |vs|) && |pos| == |order|
    requires Layout(vs, order, pos, check, table) && AreBases(vs, order, pos, base)
    requires i < |vs| && k < |vs[i].from| == |vs[i].to|
    ensures base[i] != 0 && IsAt(check, table, base[i], vs[i], k)
  {
    hide Precedes, IsOwned, Vector.Valid, Same;
    assert i in order;
    var e :| 0 <= e < |order| && order[e] == i;
    assert AllAt(check, table, pos[e], vs[order[e]]);
  }

  /** Vectors at the same base hold the same entries. */
  lemma SharedBase(vs: seq<Vector>, order: seq<nat>, pos: seq<int>, check: seq<int>, table: seq<int>, e: nat, f: nat)
    requires (forall v <- vs :: v.Valid()) && forall e :: 0 <= e < |order| ==> order[e] < |vs|
    requires Layout(vs, order, pos, check, table) && e < |pos| && f < |pos| && pos[e] == pos[f]
    ensures vs[order[e]].from == vs[order[f]].from && vs[order[e]].to == vs[order[f]].to
  {
    hide IsOwned, AllAt, Vector.Valid;
    if e < f { assert Same(vs[order[e]], vs[order[f]]); }
    if f < e { assert Same(vs[order[f]], vs[order[e]]); }
  }

  /** The entry that a taken cell holds. */
  lemma OwnerOf(vs: seq<Vector>, order: seq<nat>, pos: seq<int>, check: seq<int>, table: seq<int>, loc: nat)
    returns (f: nat, k: nat)
    requires (forall v <- vs :: v.Valid()) && forall e :: 0 <= e < |order| ==> order[e] < |vs|
    requires Layout(vs, order, pos, check, table) && loc < |check| && check[loc] != -1
    ensures f < |pos| && k < |vs[order[f]].from| && k < |vs[order[f]].to|
    ensures check[loc] == vs[order[f]].from[k] && loc == pos[f] + check[loc] && table[loc] == vs[order[f]].to[k]
  {
    hide Same;
    assert IsOwned(vs, order, pos, loc);
    f :| 0 <= f < |pos| && f < |order| && LandsAt(vs[order[f]].from, pos[f], loc);
    k :| 0 <= k < |vs[order[f]].from| && loc == pos[f] + vs[order[f]].from[k];
    assert AllAt(check, table, pos[f], vs[order[f]]);
    assert IsAt(check, table, pos[f], vs[order[f]], k);
  }

  lemma HitIsEntry(vs: seq<Vector>, order: seq<nat>, pos: seq<int>, base: seq<int>, check: seq<int>, table: seq<int>,
                   i: nat, x: nat)
    requires (forall v <- vs :: v.Valid()) && IsOrder(vs, order, |vs|) && |pos| == |order| && |check| == |table|
    requires Layout(vs, order, pos, check, table) && AreBases(vs, order, pos, base)
    requires i < |vs| && base[i] != 0 && 0 <= base[i] + x < |check| && check[base[i] + x] == x
    ensures vs[i].Entry(x, table[base[i] + x])
  {
    hide Precedes, Vector.Valid, Same, Layout;
    assert order[..|pos|] == order;
    var e :| 0 <= e < |order| && order[e] == i;
    var loc := base[i] + x;
    var f, k := OwnerOf(vs, order, pos, check, table, loc);
    SharedBase(vs, order, pos, check, table, e, f);
    assert vs[i].from[k] == x;
  }

  /** What the packed table answers is what the vectors hold: every entry is found, and a key
      without an entry never hits, whatever other vectors have put there. */
  lemma LookupIsEntry(vs: seq<Vector>, order: seq<nat>, pos: seq<int>, base: seq<int>, check: seq<int>, table: seq<int>,
                      size: nat, i: nat, x: nat, y: int)
    requires (forall v <- vs :: v.Valid()) && IsOrder(vs, order, |vs|) && |pos| == |order|
    requires Layout(vs, order, pos, check, table) && AreBases(vs, order, pos, base)
    requires size <= |check| && (forall l :: size <= l < |check| ==> check[l] == -1) && i < |vs|
    ensures Lookup(base[i], table[..size], check[..size], x) == Some(y) <==> vs[i].Entry(x, y)
  {
    assert vs[i] in vs;
    if vs[i].Entry(x, y) {
      var k :| 0 <= k < |vs[i].from| && k < |vs[i].to| && vs[i].from[k] == x && vs[i].to[k] == y;
      EntryFound(vs, order, pos, base, check, table, i, k);
    }
    if Lookup(base[i], table[..size], check[..size], x) == Some(y) {
      HitIsEntry(vs, order, pos, base, check, table, i, x);
    }
  }

  /** The tables hold exactly the vectors. */
  ghost predicate Packed(vs: seq<Vector>, base: seq<int>, table: seq<int>, check: seq<int>)
  {
    && |base| == |vs| && |table| == |check| > 0
    && forall i: nat, x: nat, y: int :: i < |vs| ==>
         (Lookup(base[i], table, check, x) == Some(y) <==> vs[i].Entry(x, y))
  }

  // Where pack_table puts the vectors, said without the arrays.

  /** Offset j is not 0, not used yet, and all entries are clear of those placed before. */
  ghost predicate FitsBeside(vs: seq<Vector>, order: seq<nat>, pos: seq<int>, from: seq<nat>, j: int)
    requires forall e :: 0 <= e < |order| ==> order[e] < |vs|
  {
    j != 0 && j !in pos && forall k :: 0 <= k < |from| ==> j + from[k] >= 0 && !IsOwned(vs, order, pos, j + from[k])
  }

  /** The vector after those placed at pos is put where its match is, if it is a row vector and
      has one, and otherwise at the least offset at which it fits. */
  ghost predicate GoesAt(vs: seq<Vector>, nrows: nat, order: seq<nat>, pos: seq<int>, j: int)
    requires |pos| < |order| && forall e :: 0 <= e < |order| ==> order[e] < |vs|
  {
    var from := vs[order[|pos|]].from;
    if HasMatch(vs, nrows, order, |pos|) then exists e: nat :: IsMatch(vs, order, |pos|, e) && j == pos[e]
    else FitsBeside(vs, order, pos, from, j) && forall i :: i < j ==> !FitsBeside(vs, order, pos, from, i)
  }

  ghost predicate HasMatch(vs: seq<Vector>, nrows: nat, order: seq<nat>, vector: nat)
    requires vector < |order| && forall e :: 0 <= e < |order| ==> order[e] < |vs|
  {
    order[vector] < nrows && exists e: nat :: IsMatch(vs, order, vector, e)
  }

  /** The vectors order[..|pos|] have been put at the offsets pos, one after the other. */
  ghost predicate Placed(vs: seq<Vector>, nrows: nat, order: seq<nat>, pos: seq<int>)
    requires forall e :: 0 <= e < |order| ==> order[e] < |vs|
  {
    |pos| <= |order| && forall e :: 0 <= e < |pos| ==> GoesAt(vs, nrows, order, pos[..e], pos[e])
  }

  /** Some vector finds no room below the limit beside those placed before it. */
  ghost predicate RunsOut(vs: seq<Vector>, nrows: nat)
  {
    exists order: seq<nat>, pos: seq<int> :: Crowded(vs, nrows, order, pos)
  }

  ghost predicate Crowded(vs: seq<Vector>, nrows: nat, order: seq<nat>, pos: seq<int>)
  {
    && IsOrder(vs, order, |vs|) && |pos| < |order| && Placed(vs, nrows, order, pos) &&
       !HasMatch(vs, nrows, order, |pos|)
    && forall j :: FitsBeside(vs, order, pos, vs[order[|pos|]].from, j) ==> PastLimit(vs[order[|pos|]].from, j)
  }

  /** The bases are where the vectors have been put. */
  ghost predicate HasBases(vs: seq<Vector>, nrows: nat, base: seq<int>)
  {
    exists order: seq<nat>, pos: seq<int> ::
      IsOrder(vs, order, |vs|) && |pos| == |order| && Placed(vs, nrows, order, pos) && AreBases(vs, order, pos, base)
  }

  lemma PrecedesOneWay(vs: seq<Vector>, a: nat, b: nat)
    requires a < |vs| && b < |vs| && Precedes(vs, a, b)
    ensures a != b && !Precedes(vs, b, a)
  {}

  lemma SameNext(vs: seq<Vector>, a: seq<nat>, b: seq<nat>, n: nat)
    requires IsOrder(vs, a, |vs|) && IsOrder(vs, b, |vs|) && n < |a| && n <= |b| && a[..n] == b[..n]
    ensures n < |b| && a[n] == b[n]
  {
    hide Precedes;
    forall i: nat, j: nat | i < |vs| && j < |vs| && Precedes(vs, i, j) ensures i != j && !Precedes(vs, j, i) {
      PrecedesOneWay(vs, i, j);
    }
    forall e | 0 <= e < n ensures a[e] == b[e] && a[e] != a[n] {
      assert a[e] == a[..n][e] == b[..n][e];
      assert Precedes(vs, a[e], a[n]);
    }
    var m :| 0 <= m < |b| && b[m] == a[n];
    assert m >= n;
    var i :| 0 <= i < |a| && a[i] == b[n];
  }

  /** There is only one order. */
  lemma {:induction false} OrderUnique(vs: seq<Vector>, a: seq<nat>, b: seq<nat>, k: nat)
    requires IsOrder(vs, a, |vs|) && IsOrder(vs, b, |vs|) && k <= |a|
    ensures k <= |b| && a[..k] == b[..k]
    decreases k
  {
    hide IsOrder;
    if k > 0 {
      OrderUnique(vs, a, b, k - 1);
      SameNext(vs, a, b, k - 1);
      assert a[..k] == a[..k - 1] + [a[k - 1]] && b[..k] == b[..k - 1] + [b[k - 1]];
    }
  }

  lemma GoesToOne(vs: seq<Vector>, nrows: nat, order: seq<nat>, pos: seq<int>, i: int, j: int)
    requires (forall e :: 0 <= e < |order| ==> order[e] < |vs|) && |pos| < |order|
    requires GoesAt(vs, nrows, order, pos, i) && GoesAt(vs, nrows, order, pos, j)
    ensures i == j
  {
    hide FitsBeside, Same;
    if HasMatch(vs, nrows, order, |pos|) {
      var e: nat :| IsMatch(vs, order, |pos|, e) && i == pos[e];
      var f: nat :| IsMatch(vs, order, |pos|, f) && j == pos[f];
      assert e == f;
    }
  }

  /** The vectors settle where they are put: any two ways of placing them agree. */
  lemma {:induction false} PlacedUnique(vs: seq<Vector>, nrows: nat, order: seq<nat>, pos: seq<int>, other: seq<int>)
    requires (forall e :: 0 <= e < |order| ==> order[e] < |vs|) && |pos| <= |other|
    requires Placed(vs, nrows, order, pos) && Placed(vs, nrows, order, other)
    ensures pos == other[..|pos|]
    decreases |pos|
  {
    if pos != [] {
      hide GoesAt;
      var n := |pos| - 1;
      forall e | 0 <= e < n
        ensures GoesAt(vs, nrows, order, pos[..n][..e], pos[..n][e])
      {
        assert pos[..n][..e] == pos[..e];
      }
      PlacedUnique(vs, nrows, order, pos[..n], other);
      GoesToOne(vs, nrows, order, pos[..n], pos[n], other[n]);
      assert pos == pos[..n] + [pos[n]] && other[..n + 1] == other[..n] + [other[n]];
    }
  }

  /** So the bases are determined by the vectors. */
  lemma BasesUnique(vs: seq<Vector>, nrows: nat, a: seq<int>, b: seq<int>)
    requires HasBases(vs, nrows, a) && HasBases(vs, nrows, b)
    ensures a == b
  {
    hide Placed, Precedes;
    var o1: seq<nat>, p1: seq<int> :|
      IsOrder(vs, o1, |vs|) && |p1| == |o1| && Placed(vs, nrows, o1, p1) && AreBases(vs, o1, p1, a);
    var o2: seq<nat>, p2: seq<int> :|
      IsOrder(vs, o2, |vs|) && |p2| == |o2| && Placed(vs, nrows, o2, p2) && AreBases(vs, o2, p2, b);
    OrderUnique(vs, o1, o2, |o1|);
    OrderUnique(vs, o2, o1, |o2|);
    assert o1 == o1[..|o1|] == o2[..|o1|] && o2 == o2[..|o2|];
    PlacedUnique(vs, nrows, o1, p1, p2);
    assert p2[..|p1|] == p2;
    forall i | 0 <= i < |a| ensures a[i] == b[i] {
      if i in o1 {
        var e :| 0 <= e < |o1| && o1[e] == i;
      } else {
        assert o1[..|p1|] == o1;
      }
    }
  }

  /** In the table a cell is free exactly when no vector placed so far lands on it. */
  lemma FreeIsClear(vs: seq<Vector>, order: seq<nat>, pos: seq<int>, check: seq<int>, table: seq<int>, loc: int)
    requires (forall v <- vs :: v.Valid()) && forall e :: 0 <= e < |order| ==> order[e] < |vs|
    requires Layout(vs, order, pos, check, table)
    ensures Free(check, loc) <==> loc >= 0 && !IsOwned(vs, order, pos, loc)
  {
    if IsOwned(vs, order, pos, loc) {
      var e :| 0 <= e < |pos| && e < |order| && LandsAt(vs[order[e]].from, pos[e], loc);
      var k :| 0 <= k < |vs[order[e]].from| && loc == pos[e] + vs[order[e]].from[k];
      assert AllAt(check, table, pos[e], vs[order[e]]);
      assert IsAt(check, table, pos[e], vs[order[e]], k);
    }
  }

  lemma FitsIsBeside(vs: seq<Vector>, order: seq<nat>, pos: seq<int>, check: seq<int>, table: seq<int>, from: seq<nat>,
                     j: int)
    requires (forall v <- vs :: v.Valid()) && forall e :: 0 <= e < |order| ==> order[e] < |vs|
    requires Layout(vs, order, pos, check, table)
    ensures Fits(check, pos, from, j) <==> FitsBeside(vs, order, pos, from, j)
  {
    hide Free, IsOwned, Layout;
    forall k | 0 <= k < |from|
      ensures Free(check, j + from[k]) <==> j + from[k] >= 0 && !IsOwned(vs, order, pos, j + from[k])
    {
      FreeIsClear(vs, order, pos, check, table, j + from[k]);
    }
  }

  /** The first fit in the table is where the vector goes. */
  lemma FirstFitGoes(vs: seq<Vector>, nrows: nat, order: seq<nat>, pos: seq<int>, check: seq<int>, table: seq<int>,
                     j: int)
    requires (forall v <- vs :: v.Valid()) && (forall e :: 0 <= e < |order| ==> order[e] < |vs|) && |pos| < |order|
    requires Layout(vs, order, pos, check, table) && !HasMatch(vs, nrows, order, |pos|)
    requires IsFirstFit(check, pos, vs[order[|pos|]].from, j)
    ensures GoesAt(vs, nrows, order, pos, j)
  {
    var from := vs[order[|pos|]].from;
    hide Layout, Fits, FitsBeside, HasMatch;
    FitsIsBeside(vs, order, pos, check, table, from, j);
    forall i | i < j
      ensures !FitsBeside(vs, order, pos, from, i)
    {
      FitsIsBeside(vs, order, pos, check, table, from, i);
    }
  }

  lemma CrowdedOut(vs: seq<Vector>, nrows: nat, order: seq<nat>, pos: seq<int>, check: seq<int>, table: seq<int>)
    requires (forall v <- vs :: v.Valid()) && IsOrder(vs, order, |vs|) && |pos| < |order| &&
             Placed(vs, nrows, order, pos)
    requires Layout(vs, order, pos, check, table) && !HasMatch(vs, nrows, order, |pos|)
    requires forall j :: Fits(check, pos, vs[order[|pos|]].from, j) ==> PastLimit(vs[order[|pos|]].from, j)
    ensures Crowded(vs, nrows, order, pos)
  {
    var from := vs[order[|pos|]].from;
    hide Layout, Fits, FitsBeside, HasMatch, Placed, PastLimit, Precedes;
    forall j | FitsBeside(vs, order, pos, from, j) ensures PastLimit(from, j) {
      FitsIsBeside(vs, order, pos, check, table, from, j);
    }
  }

  lemma PlacedOne(vs: seq<Vector>, nrows: nat, order: seq<nat>, pos: seq<int>, j: int)
    requires (forall e :: 0 <= e < |order| ==> order[e] < |vs|) && |pos| < |order|
    requires Placed(vs, nrows, order, pos) && GoesAt(vs, nrows, order, pos, j)
    ensures Placed(vs, nrows, order, pos + [j])
  {
    hide GoesAt;
    var pos' := pos + [j];
    forall e | 0 <= e < |pos'| ensures GoesAt(vs, nrows, order, pos'[..e], pos'[e]) {
      assert pos'[..e] == pos[..e];
      assert pos[..|pos|] == pos;
    }
  }

  ghost predicate PastLimit(from: seq<nat>, j: int)
  {
    exists k :: 0 <= k < |from| && j + from[k] >= MAXTABLE - 1
  }

  method PackTable(vs: seq<Vector>, nrows: nat) returns (fatal: bool, base: seq<int>, table: seq<int>, check: seq<int>)
    requires forall v <- vs :: v.Valid()
    ensures if fatal then RunsOut(vs, nrows) else Packed(vs, base, table, check) && HasBases(vs, nrows, base)
  {
    var ordered, nentries := SortActions(vs);
    var order := ordered[..nentries];
    base, table, check := seq(|vs|, _ => 0), [], [];
    var pos: seq<int> := [];
    var p := new Packer();
    NothingPacked(vs, order, base, p.check[..], p.table[..]);
    hide Layout, AreBases, Precedes, Written, Fits, Same, Placed, GoesAt, IsMatch, HasMatch, Crowded;
    assert Placed(vs, nrows, order, pos) by { NonePlaced(vs, nrows, order); }
    for i := 0 to nentries
      invariant |pos| == i && p.Valid() && fresh(p) && fresh(p.table) && fresh(p.check)
      invariant IsOrder(vs, order, |vs|) && Layout(vs, order, pos, p.check[..], p.table[..])
      invariant |base| == |vs| && AreBases(vs, order, pos, base) && Placed(vs, nrows, order, pos)
    {
      var place;
      fatal, place := PlaceVector(p, vs, nrows, order, pos, base);
      if fatal { return; }
      BaseSet(vs, order, pos, base, place);
      PlacedOne(vs, nrows, order, pos, place);
      pos := pos + [place];
      base := base[order[i] := place];
    }
    fatal := false;
    table, check := p.table[..p.high + 1], p.check[..p.high + 1];
    AllPacked(vs, order, pos, base, p.check[..], p.table[..], p.high + 1);
  }

  lemma NonePlaced(vs: seq<Vector>, nrows: nat, order: seq<nat>)
    requires forall e :: 0 <= e < |order| ==> order[e] < |vs|
    ensures Placed(vs, nrows, order, [])
  {}

  lemma AllPacked(vs: seq<Vector>, order: seq<nat>, pos: seq<int>, base: seq<int>, check: seq<int>, table: seq<int>,
                  size: nat)
    requires (forall v <- vs :: v.Valid()) && IsOrder(vs, order, |vs|) && |pos| == |order|
    requires Layout(vs, order, pos, check, table) && AreBases(vs, order, pos, base)
    requires 0 < size <= |check| == |table| && forall l :: size <= l < |check| ==> check[l] == -1
    ensures Packed(vs, base, table[..size], check[..size])
  {
    assert |base| == |vs|;
    hide Layout, AreBases, Precedes, Lookup, IsOrder;
    forall i: nat, x: nat, y: int | i < |vs|
      ensures Lookup(base[i], table[..size], check[..size], x) == Some(y) <==> vs[i].Entry(x, y)
    {
      LookupIsEntry(vs, order, pos, base, check, table, size, i, x, y);
    }
  }

  /** One round of pack_table: the next vector in order goes where an equal one went before,
      or else to its first fit. */
  method PlaceVector(p: Packer, vs: seq<Vector>, nrows: nat, order: seq<nat>, pos: seq<int>, base: seq<int>)
    returns (fatal: bool, place: int)
    requires (forall v <- vs :: v.Valid()) && IsOrder(vs, order, |vs|) && |pos| < |order|
    requires p.Valid() && Layout(vs, order, pos, p.check[..], p.table[..])
    requires |base| == |vs| && AreBases(vs, order, pos, base) && Placed(vs, nrows, order, pos)
    modifies p, p.table, p.check
    ensures p.Valid() && (p.table == old(p.table) || fresh(p.table)) && (p.check == old(p.check) || fresh(p.check))
    ensures if fatal then Crowded(vs, nrows, order, pos)
            else GoesAt(vs, nrows, order, pos, place) && Layout(vs, order, pos + [place], p.check[..], p.table[..])
  {
    hide Layout, AreBases, Precedes, Written, Fits, Same, Placed, GoesAt, Crowded, PastLimit;
    var i := |pos|;
    fatal := false;
    var state := MatchingVector(vs, nrows, order, i);
    if state < 0 {
      ghost var check0, table0 := p.check[..], p.table[..];
      assert vs[order[i]] in vs;
      fatal, place := p.PackVector(vs[order[i]], pos);
      if fatal {
        CrowdedOut(vs, nrows, order, pos, check0, table0);
        return;
      }
      FirstFitGoes(vs, nrows, order, pos, check0, table0, place);
      LayoutPacked(vs, order, pos, check0, table0, p.check[..], p.table[..], place);
    } else {
      place := base[state];
      ghost var e: nat :| IsMatch(vs, order, i, e) && order[e] == state;
      MatchGoes(vs, nrows, order, pos, e);
      BaseIs(vs, order, pos, base, e);
      LayoutShared(vs, order, pos, p.check[..], p.table[..], e);
    }
  }

  lemma MatchGoes(vs: seq<Vector>, nrows: nat, order: seq<nat>, pos: seq<int>, e: nat)
    requires (forall e :: 0 <= e < |order| ==> order[e] < |vs|) && |pos| < |order| && order[|pos|] < nrows
    requires IsMatch(vs, order, |pos|, e)
    ensures GoesAt(vs, nrows, order, pos, pos[e])
  {
    hide Same;
  }

  lemma NothingPacked(vs: seq<Vector>, order: seq<nat>, base: seq<int>, check: seq<int>, table: seq<int>)
    requires (forall v <- vs :: v.Valid()) && forall e :: 0 <= e < |order| ==> order[e] < |vs|
    requires |base| == |vs| && (forall i :: 0 <= i < |base| ==> base[i] == 0)
    requires |check| == |table| && forall l :: 0 <= l < |check| ==> check[l] == -1
    ensures Layout(vs, order, [], check, table) && AreBases(vs, order, [], base)
  {}

  lemma BaseIs(vs: seq<Vector>, order: seq<nat>, pos: seq<int>, base: seq<int>, e: nat)
    requires AreBases(vs, order, pos, base) && e < |pos|
    ensures order[e] < |base| && base[order[e]] == pos[e]
  {}
}
