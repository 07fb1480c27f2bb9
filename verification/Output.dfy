/** output.c: the tables that the generated parser reads. */
module Output {
  import opened Automata
  import opened Gotos
  import opened Grammars
  import LR0
  import opened Lookaheads
  import opened Mkpar
  import opened Packing
  import opened Paths
  import opened Vectors

  /** The parser's tables, by the names they have behind the prefix yy.  YYTABLESIZE is
      |table| - 1; final is YYFINAL. */
  datatype Tables = Tables(lhs: seq<int>, len: seq<nat>, defred: seq<int>, dgoto: seq<nat>,
                           sindex: seq<int>, rindex: seq<int>, gindex: seq<int>,
                           table: seq<int>, check: seq<int>, final: nat)
  {
    ghost predicate Sized(nstates: nat, nvars: nat)
    {
      && |sindex| == |rindex| == |defred| == nstates && |gindex| == |dgoto| == nvars
      && |table| == |check| > 0
    }

    /** Where the parser goes from state after reducing to the variable numbered v. */
    function GotoOf(state: nat, v: nat): int
      requires v < |gindex| == |dgoto| && |table| == |check|
    {
      match Lookup(gindex[v], table, check, state)
      case Some(t) => t
      case None => dgoto[v]
    }
  }

  /** The number of a variable: the goal is 0, $accept is -1. */
  function VarValue(g: Grammar, symbol: nat): int { symbol - g.ntokens - 1 }

  // ----- the vectors -----

  ghost predicate RowVectors(l: Lalr, p: Parser, value: seq<nat>, vs: seq<Vector>, n: nat)
  {
    && |p.rows| == |p.defred| == |l.a.cores| && n <= |l.a.cores| && |vs| >= 2 * |l.a.cores|
    && (forall s :: 0 <= s < n ==> IsShiftVector(vs[s], p.rows[s], value))
    && (forall s :: 0 <= s < n ==> IsReduceVector(vs[|l.a.cores| + s], p.rows[s], value, p.defred[s]))
  }

  /** The columns of the variables start_symbol + 1..start_symbol + n. */
  ghost predicate Columns(l: Lalr, vs: seq<Vector>, dgoto: seq<nat>, n: nat)
    requires l.g.WellFormed() && IsGotoMap(l.g, l.a, l.m)
  {
    && 1 <= n <= l.g.NVars() && |dgoto| == n - 1 && |vs| == 2 * |l.a.cores| + l.g.NVars()
    && forall v :: 1 <= v < n ==> ColumnOf(l, vs, dgoto, v)
  }

  ghost predicate ColumnOf(l: Lalr, vs: seq<Vector>, dgoto: seq<nat>, v: nat)
    requires l.g.WellFormed() && IsGotoMap(l.g, l.a, l.m) && 1 <= v < l.g.NVars()
    requires |vs| == 2 * |l.a.cores| + l.g.NVars() && v <= |dgoto|
  {
    var m, n := l.m.first[v], l.m.first[v + 1];
    var column := vs[2 * |l.a.cores| + v - 1];
    IsDefaultGoto(l.m.to, m, n, dgoto[v - 1]) && IsColumn(column, l.m.from, l.m.to, m, n, dgoto[v - 1]) &&
      column.HasWidth()
  }

  lemma RowIsOk(l: Lalr, pr: Precedence, p: Parser, s: nat)
    requires l.Ok() && IsParser(l, pr, p) && s < |p.rows|
    ensures RowOk(p.rows[s], l.g.ntokens)
  {
    hide Grammar.WellFormed, IsLR0, IsGotoMap, IsResolved, Has, Shift, Lalr.InLA, IsDefault;
    var row := p.rows[s];
    assert IsRowFor(l, s, row) && AtMostOne(row);
    ReducesByRule(l, s, row);
    forall k | 0 <= k < |row| ensures row[k].symbol < l.g.ntokens && row[k].number > 0 {
      HasOwn(row, k);
      if row[k].code.SHIFT? {
        assert ShiftsToken(l, s, row[k].symbol, row[k].number);
        ShiftKernel(l.g, l.a, s, row[k].symbol, row[k].number);
      } else {
        assert Reduces(l, s, row[k].number, row[k].symbol);
      }
    }
  }

  lemma HasOwn(row: seq<Action>, k: nat)
    requires k < |row|
    ensures Has(row, row[k].symbol, row[k].code, row[k].number)
  {
    assert IsAction(row[k], row[k].symbol, row[k].code, row[k].number);
  }

  lemma GroupBounds(l: Lalr, v: nat)
    requires l.Ok() && v < l.g.NVars()
    ensures v + 1 < |l.m.first| && l.m.first[v] <= l.m.first[v + 1] <= |l.m.from| == |l.m.to|
    ensures forall j, k :: l.m.first[v] <= j < k < l.m.first[v + 1] ==> l.m.from[j] < l.m.from[k]
    ensures forall k :: l.m.first[v] <= k < l.m.first[v + 1] ==>
              l.m.to[k] < |l.a.cores| && Transition(l.g, l.a, l.m.from[k], v, l.m.to[k])
  {
    hide Grammar.WellFormed, IsLR0;
    assert WholeGroup(l.g, l.a, l.m, v);
  }

  method MakeRows(l: Lalr, pr: Precedence, p: Parser, value: seq<nat>) returns (vs: seq<Vector>)
    requires l.Ok() && IsParser(l, pr, p) && AreTokenValues(l.g, value)
    ensures |vs| == 2 * |l.a.cores| + l.g.NVars() && RowVectors(l, p, value, vs, |l.a.cores|)
    ensures forall v <- vs :: v.Valid()
  {
    hide Grammar.WellFormed, IsLR0, IsGotoMap, IsParser, AreTokenValues, RowVectors, Vector.Valid, RowOk, IsShiftVector,
         IsReduceVector;
    SizesAgree(l, pr, p);
    l.NVarsFits();
    ValuesFit(l.g, value);
    var nstates, nvars := |l.a.cores|, l.g.NVars();
    vs := seq(2 * nstates + nvars, _ => EMPTY);
    EmptyVectors(l, p, value, vs);
    for i := 0 to nstates
      invariant |vs| == 2 * nstates + nvars && (forall v <- vs :: v.Valid())
      invariant RowVectors(l, p, value, vs, i)
    {
      RowIsOk(l, pr, p, i);
      var shifts, reduces := TokenActions(p.rows[i], p.defred[i], value);
      TokenVectorsValid(p.rows[i], p.defred[i], value, shifts, reduces);
      RowAdded(l, p, value, vs, i, shifts, reduces);
      vs := vs[i := shifts][nstates + i := reduces];
    }
  }

  lemma ValuesFit(g: Grammar, value: seq<nat>)
    requires AreTokenValues(g, value)
    ensures |value| == g.ntokens && (forall i, j :: 0 <= i < j < |value| ==> value[i] != value[j])
    ensures forall i :: 0 <= i < |value| ==> value[i] <= LR0.MAXSHORT
  {}

  lemma EmptyVectors(l: Lalr, p: Parser, value: seq<nat>, vs: seq<Vector>)
    requires |p.rows| == |p.defred| == |l.a.cores| && |vs| >= 2 * |l.a.cores| && forall v <- vs :: v == EMPTY
    ensures RowVectors(l, p, value, vs, 0) && forall v <- vs :: v.Valid()
  {}

  lemma RowAdded(l: Lalr, p: Parser, value: seq<nat>, vs: seq<Vector>, i: nat, shifts: Vector, reduces: Vector)
    requires RowVectors(l, p, value, vs, i) && i < |l.a.cores|
    requires IsShiftVector(shifts, p.rows[i], value) && IsReduceVector(reduces, p.rows[i], value, p.defred[i])
    ensures RowVectors(l, p, value, vs[i := shifts][|l.a.cores| + i := reduces], i + 1)
  {
    hide IsShiftVector, IsReduceVector;
  }

  method MakeVectors(l: Lalr, pr: Precedence, p: Parser, value: seq<nat>) returns (vs: seq<Vector>, dgoto: seq<nat>)
    requires l.Ok() && IsParser(l, pr, p) && AreTokenValues(l.g, value)
    ensures RowVectors(l, p, value, vs, |l.a.cores|) && Columns(l, vs, dgoto, l.g.NVars())
    ensures forall v <- vs :: v.Valid()
  {
    l.NVarsFits();
    hide Grammar.WellFormed, IsLR0, IsGotoMap, IsParser, AreTokenValues;
    vs := MakeRows(l, pr, p, value);
    dgoto := [];
    for v := 1 to l.g.NVars()
      invariant Columns(l, vs, dgoto, v) && RowVectors(l, p, value, vs, |l.a.cores|) && forall v <- vs :: v.Valid()
    {
      var k, column := MakeColumn(l, v);
      ColumnAdded(l, vs, dgoto, v, column, k);
      RowsKept(l, p, value, vs, 2 * |l.a.cores| + v - 1, column);
      hide RowVectors, Columns, Vector.Valid;
      vs := vs[2 * |l.a.cores| + v - 1 := column];
      dgoto := dgoto + [k];
    }
  }

  method MakeColumn(l: Lalr, v: nat) returns (d: nat, column: Vector)
    requires l.Ok() && 1 <= v < l.g.NVars()
    ensures column.Valid() && column.HasWidth() && v + 1 < |l.m.first| &&
            l.m.first[v] <= l.m.first[v + 1] <= |l.m.from| == |l.m.to|
    ensures IsDefaultGoto(l.m.to, l.m.first[v], l.m.first[v + 1], d)
    ensures IsColumn(column, l.m.from, l.m.to, l.m.first[v], l.m.first[v + 1], d)
  {
    GroupBounds(l, v);
    hide Grammar.WellFormed, IsLR0, IsGotoMap, IsDefaultGoto;
    d := DefaultGoto(l.m.to, l.m.first[v], l.m.first[v + 1], |l.a.cores|);
    column := SaveColumn(l.m.from, l.m.to, l.m.first[v], l.m.first[v + 1], d);
  }

  lemma ColumnAdded(l: Lalr, vs: seq<Vector>, dgoto: seq<nat>, v: nat, column: Vector, d: nat)
    requires l.g.WellFormed() && IsGotoMap(l.g, l.a, l.m) && 1 <= v < l.g.NVars() && Columns(l, vs, dgoto, v)
    requires IsDefaultGoto(l.m.to, l.m.first[v], l.m.first[v + 1], d)
    requires IsColumn(column, l.m.from, l.m.to, l.m.first[v], l.m.first[v + 1], d) && column.HasWidth()
    ensures Columns(l, vs[2 * |l.a.cores| + v - 1 := column], dgoto + [d], v + 1)
  {
    hide Grammar.WellFormed, IsDefaultGoto, IsColumn, Vector.HasWidth;
    var vs', dgoto' := vs[2 * |l.a.cores| + v - 1 := column], dgoto + [d];
    forall u | 1 <= u < v + 1 ensures ColumnOf(l, vs', dgoto', u) {
      if u < v { assert ColumnOf(l, vs, dgoto, u); }
    }
  }

  lemma RowsKept(l: Lalr, p: Parser, value: seq<nat>, vs: seq<Vector>, at: nat, column: Vector)
    requires RowVectors(l, p, value, vs, |l.a.cores|) && 2 * |l.a.cores| <= at < |vs|
    ensures RowVectors(l, p, value, vs[at := column], |l.a.cores|)
  {
    hide IsShiftVector, IsReduceVector;
  }

  lemma TokenVectorsValid(row: seq<Action>, d: nat, value: seq<nat>, shifts: Vector, reduces: Vector)
    requires IsShiftVector(shifts, row, value) && IsReduceVector(reduces, row, value, d)
    ensures shifts.Valid() && reduces.Valid()
  {}

  // ----- the tables -----

  /** Rules are numbered from 1 in the parser's tables, 0 meaning none. */
  function OutputRule(r: nat): int { if r != 0 then r - 2 else 0 }

  /** The tables say what the parser's rows and the gotos say. */
  ghost predicate Agree(l: Lalr, p: Parser, value: seq<nat>, t: Tables)
    requires l.g.WellFormed()
  {
    && t.Sized(|l.a.cores|, l.g.NVars() - 1) && |p.rows| == |p.defred| == |l.a.cores| && t.final == p.final
    && (forall s: nat :: s < |l.a.cores| ==> t.defred[s] == OutputRule(p.defred[s]))
    && RowsAgree(p, value, t, |l.a.cores|) && GotosAgree(l, t) && RuleData(l.g, t)
  }

  /** Looking a token up finds exactly the unsuppressed actions, less the default reductions. */
  ghost predicate RowsAgree(p: Parser, value: seq<nat>, t: Tables, nstates: nat)
    requires |t.sindex| == |t.rindex| == |p.rows| == |p.defred| == nstates && |t.table| == |t.check|
  {
    && (forall s: nat, x: nat, y: int :: s < nstates ==>
          (Lookup(t.sindex[s], t.table, t.check, x) == Some(y) <==> ShiftEntry(p.rows[s], value, x, y)))
    && (forall s: nat, x: nat, y: int :: s < nstates ==>
          (Lookup(t.rindex[s], t.table, t.check, x) == Some(y) <==> ReduceEntry(p.rows[s], value, p.defred[s], x, y)))
  }

  ghost predicate GotosAgree(l: Lalr, t: Tables)
    requires l.g.WellFormed() && |t.gindex| == |t.dgoto| == l.g.NVars() - 1 && |t.table| == |t.check|
  {
    forall s: nat, v: nat, u: nat :: 1 <= v < l.g.NVars() && Transition(l.g, l.a, s, v, u) ==> t.GotoOf(s, v - 1) == u
  }

  ghost predicate RuleData(g: Grammar, t: Tables)
    requires g.WellFormed()
  {
    && |t.lhs| == |t.len| == g.NRules() - 2
    && forall r: nat :: g.IsRule(r) ==> t.lhs[r - 2] == VarValue(g, g.rlhs[r]) && t.len[r - 2] == |g.Rhs(r)|
  }

  /** The vectors do not fit into the table. */
  ghost predicate TablesTooBig(l: Lalr, p: Parser, value: seq<nat>)
    requires l.g.WellFormed() && IsGotoMap(l.g, l.a, l.m)
  {
    exists vs, dgoto :: AreVectors(l, p, value, vs, dgoto) && RunsOut(vs, 2 * |l.a.cores|)
  }

  ghost predicate AreVectors(l: Lalr, p: Parser, value: seq<nat>, vs: seq<Vector>, dgoto: seq<nat>)
    requires l.g.WellFormed() && IsGotoMap(l.g, l.a, l.m)
  {
    RowVectors(l, p, value, vs, |l.a.cores|) && Columns(l, vs, dgoto, l.g.NVars()) && forall v <- vs :: v.Valid()
  }

  method OutputTables(l: Lalr, pr: Precedence, p: Parser, value: seq<nat>) returns (fatal: bool, t: Tables)
    requires l.Ok() && IsParser(l, pr, p) && AreTokenValues(l.g, value)
    ensures if fatal then TablesTooBig(l, p, value) else Agree(l, p, value, t)
  {
    l.NVarsFits();
    SizesAgree(l, pr, p);
    hide Lalr.Ok, IsParser, RowVectors, Columns, Packed, Vector.Valid, AreTokenValues, Agree, RuleNumbers, RunsOut;
    t := Tables([], [], [], [], [], [], [], [], [], 0);
    var nstates := |l.a.cores|;
    var lhs, len := OutputRuleData(l.g);
    var defred := OutputDefred(p.defred);
    var vs, dgoto := MakeVectors(l, pr, p, value);
    var base, table, check;
    fatal, base, table, check := PackTable(vs, 2 * nstates);
    if fatal {
      assert AreVectors(l, p, value, vs, dgoto);
    } else {
      VectorsSized(l, vs, dgoto, base, table, check);
      t := Tables(lhs, len, defred, dgoto, base[..nstates], base[nstates..2 * nstates], base[2 * nstates..|base| - 1],
        table, check, p.final);
      TablesAgree(l, p, value, vs, base, t);
    }
  }

  method OutputDefred(defred: seq<nat>) returns (d: seq<int>)
    ensures |d| == |defred| && forall s :: 0 <= s < |d| ==> d[s] == OutputRule(defred[s])
  {
    d := [];
    for i := 0 to |defred|
      invariant |d| == i && forall s :: 0 <= s < i ==> d[s] == OutputRule(defred[s])
    {
      d := d + [OutputRule(defred[i])];
    }
  }

  lemma TablesAgree(l: Lalr, p: Parser, value: seq<nat>, vs: seq<Vector>, base: seq<int>, t: Tables)
    requires l.Ok() && |p.rows| == |p.defred| == |l.a.cores| && t.final == p.final
    requires RowVectors(l, p, value, vs, |l.a.cores|) && Columns(l, vs, t.dgoto, l.g.NVars()) &&
             Packed(vs, base, t.table, t.check)
    requires |base| == |vs| == 2 * |l.a.cores| + l.g.NVars()
    requires t.sindex == base[..|l.a.cores|] && t.rindex == base[|l.a.cores|..2 * |l.a.cores|]
    requires t.gindex == base[2 * |l.a.cores|..|base| - 1]
    requires |t.defred| == |p.defred| && forall s :: 0 <= s < |t.defred| ==> t.defred[s] == OutputRule(p.defred[s])
    requires RuleNumbers(l.g, t.lhs, t.len, l.g.NRules())
    ensures Agree(l, p, value, t)
  {
    l.NVarsFits();
    VectorsSized(l, vs, t.dgoto, base, t.table, t.check);
    hide Grammar.WellFormed, IsLR0, IsGotoMap, RowVectors, Columns, Packed, RowsAgree, GotosAgree, RuleData,
         RuleNumbers;
    RowsPacked(l, p, value, vs, base, t);
    ColumnsPacked(l, vs, t.dgoto, base, t);
    RuleDataIn(l.g, t);
  }

  lemma SizesAgree(l: Lalr, pr: Precedence, p: Parser)
    requires l.g.WellFormed() && IsParser(l, pr, p)
    ensures |p.rows| == |p.defred| == |l.a.cores|
  {}

  lemma VectorsSized(l: Lalr, vs: seq<Vector>, dgoto: seq<nat>, base: seq<int>, table: seq<int>, check: seq<int>)
    requires l.g.WellFormed() && IsGotoMap(l.g, l.a, l.m) && Columns(l, vs, dgoto, l.g.NVars()) &&
             Packed(vs, base, table, check)
    ensures |base| == |vs| == 2 * |l.a.cores| + l.g.NVars() && |dgoto| == l.g.NVars() - 1 && |table| == |check| > 0
  {}

  ghost predicate RuleNumbers(g: Grammar, lhs: seq<int>, len: seq<nat>, n: nat)
    requires g.WellFormed()
  {
    && |lhs| == |len| == n - 2
    && forall r: nat :: g.IsRule(r) && r < n ==> lhs[r - 2] == VarValue(g, g.rlhs[r]) && len[r - 2] == |g.Rhs(r)|
  }

  lemma RuleDataIn(g: Grammar, t: Tables)
    requires g.WellFormed() && RuleNumbers(g, t.lhs, t.len, g.NRules())
    ensures RuleData(g, t)
  {}

  method OutputRuleData(g: Grammar) returns (lhs: seq<int>, len: seq<nat>)
    requires g.WellFormed()
    ensures RuleNumbers(g, lhs, len, g.NRules())
  {
    assert g.NRules() >= 3;
    lhs, len := [VarValue(g, g.StartSymbol())], [2];
    g.RuleFacts(2);
    hide Grammar.WellFormed;
    for i := 3 to g.NRules()
      invariant RuleNumbers(g, lhs, len, i)
    {
      g.RuleFacts(i);
      lhs := lhs + [VarValue(g, g.rlhs[i])];
      len := len + [g.rrhs[i + 1] - g.rrhs[i] - 1];
    }
  }

  lemma RowsPacked(l: Lalr, p: Parser, value: seq<nat>, vs: seq<Vector>, base: seq<int>, t: Tables)
    requires RowVectors(l, p, value, vs, |l.a.cores|) && Packed(vs, base, t.table, t.check)
    requires |vs| >= 2 * |l.a.cores| && t.sindex == base[..|l.a.cores|] &&
             t.rindex == base[|l.a.cores|..2 * |l.a.cores|]
    requires |p.rows| == |p.defred| == |l.a.cores|
    ensures |t.table| == |t.check| && RowsAgree(p, value, t, |l.a.cores|)
  {
    hide Lookup, Vector.Entry, ShiftEntry, ReduceEntry, Vector.Valid;
    var n := |l.a.cores|;
    forall s: nat, x: nat, y: int | s < n
      ensures Lookup(t.sindex[s], t.table, t.check, x) == Some(y) <==> ShiftEntry(p.rows[s], value, x, y)
    {
      assert IsShiftVector(vs[s], p.rows[s], value);
      assert Lookup(base[s], t.table, t.check, x) == Some(y) <==> vs[s].Entry(x, y);
    }
    forall s: nat, x: nat, y: int | s < n
      ensures Lookup(t.rindex[s], t.table, t.check, x) == Some(y) <==> ReduceEntry(p.rows[s], value, p.defred[s], x, y)
    {
      var i := n + s;
      assert IsReduceVector(vs[i], p.rows[s], value, p.defred[s]);
      assert Lookup(base[i], t.table, t.check, x) == Some(y) <==> vs[i].Entry(x, y);
    }
  }

  lemma ColumnsPacked(l: Lalr, vs: seq<Vector>, dgoto: seq<nat>, base: seq<int>, t: Tables)
    requires l.Ok() && Columns(l, vs, dgoto, l.g.NVars()) && Packed(vs, base, t.table, t.check)
    requires |base| == |vs| == 2 * |l.a.cores| + l.g.NVars() && l.g.NVars() >= 2
    requires t.gindex == base[2 * |l.a.cores|..|base| - 1] && t.dgoto == dgoto && |dgoto| == l.g.NVars() - 1
    ensures |t.table| == |t.check| && GotosAgree(l, t)
  {
    assert |t.table| == |t.check|;
    hide Grammar.WellFormed, IsLR0, IsGotoMap, Columns, Packed, Transition;
    forall s: nat, v: nat, u: nat | 1 <= v < l.g.NVars() && Transition(l.g, l.a, s, v, u)
      ensures t.GotoOf(s, v - 1) == u
    {
      var i := 2 * |l.a.cores| + v - 1;
      assert t.gindex[v - 1] == base[i];
      VectorAt(vs, base, t.table, t.check, i);
      ColumnAt(l, vs, dgoto, v);
      ColumnTarget(l, vs[i], dgoto[v - 1], Lookup(base[i], t.table, t.check, s), s, v, u);
    }
  }

  lemma VectorAt(vs: seq<Vector>, base: seq<int>, table: seq<int>, check: seq<int>, i: nat)
    requires Packed(vs, base, table, check) && i < |vs|
    ensures |base| == |vs| && |table| == |check|
    ensures forall x: nat, y: int :: Lookup(base[i], table, check, x) == Some(y) <==> vs[i].Entry(x, y)
  {}

  lemma ColumnAt(l: Lalr, vs: seq<Vector>, dgoto: seq<nat>, v: nat)
    requires l.Ok() && Columns(l, vs, dgoto, l.g.NVars()) && 1 <= v < l.g.NVars()
    ensures v + 1 < |l.m.first| && l.m.first[v] <= l.m.first[v + 1] <= |l.m.from| == |l.m.to|
    ensures |vs| == 2 * |l.a.cores| + l.g.NVars() && |dgoto| == l.g.NVars() - 1
    ensures IsColumn(vs[2 * |l.a.cores| + v - 1], l.m.from, l.m.to, l.m.first[v], l.m.first[v + 1], dgoto[v - 1])
  {
    GroupBounds(l, v);
    hide Grammar.WellFormed, IsLR0, IsDefaultGoto, IsColumn;
    assert ColumnOf(l, vs, dgoto, v);
  }

  /** What the column does not hold is the default. */
  lemma ColumnTarget(l: Lalr, column: Vector, d: nat, found: Option, s: nat, v: nat, u: nat)
    requires l.Ok() && 1 <= v < l.g.NVars() && Transition(l.g, l.a, s, v, u)
    requires v + 1 < |l.m.first| && l.m.first[v] <= l.m.first[v + 1] <= |l.m.from| == |l.m.to|
    requires IsColumn(column, l.m.from, l.m.to, l.m.first[v], l.m.first[v + 1], d)
    requires forall y :: found == Some(y) <==> column.Entry(s, y)
    ensures u == match found case Some(t) => t case None => d
  {
    l.NVarsFits();
    GroupBounds(l, v);
    hide Grammar.WellFormed, IsLR0, IsGotoMap, Vector.Entry, Vector.Valid;
    var m, n := l.m.first[v], l.m.first[v + 1];
    var k := l.GotoOf(s, l.g.ntokens + v, u);
    assert GotoEntry(l.m.from, l.m.to, m, n, s, u);
    if found.Some? {
      assert column.Entry(s, found.value);
      var j :| m <= j < n && l.m.from[j] == s && l.m.to[j] == found.value;
      assert Transition(l.g, l.a, s, v, l.m.to[j]);
      ShiftUnique(l.g, l.a, s, l.g.ntokens + v, u, l.m.to[j]);
    } else {
      assert !column.Entry(s, u);
    }
  }
}
