/** lalr.c: initialize_LA, initialize_F, build_relations, transpose, compute_FOLLOWS and
    compute_lookaheads. */
module LalrBuilder {
  import opened Automata
  import opened Bits
  import opened Digraphs
  import opened Gotos
  import opened Grammars
  import opened Lookaheads
  import opened Paths
  import opened Reach
  import opened RuleTables
  import opened Transposing

  // ----- initialize_LA: one row of LA for each reduction of each state -----

  /** The reductions of state s are rows start[s]..start[s + 1]. */
  ghost predicate IsRowMap(reds: seq<seq<nat>>, n: nat, start: seq<nat>, ruleno: seq<nat>)
  {
    && n <= |reds| && |start| == n + 1 && start[0] == 0 && start[n] == |ruleno|
    && (forall s, t :: 0 <= s <= t <= n ==> start[s] <= start[t])
    && (forall s :: 0 <= s < n ==> RowsOf(reds[s], start[s], start[s + 1], ruleno))
  }

  ghost predicate RowsOf(reds: seq<nat>, lo: nat, hi: nat, ruleno: seq<nat>)
  {
    lo <= hi <= |ruleno| && ruleno[lo..hi] == reds
  }

  method InitializeLA(reds: seq<seq<nat>>) returns (start: seq<nat>, ruleno: seq<nat>)
    ensures IsRowMap(reds, |reds|, start, ruleno)
  {
    start, ruleno := [0], [];
    for s := 0 to |reds|
      invariant IsRowMap(reds, s, start, ruleno)
    {
      ghost var was := ruleno;
      for j := 0 to |reds[s]|
        invariant ruleno == was + reds[s][..j]
      {
        assert reds[s][..j + 1] == reds[s][..j] + [reds[s][j]];
        ruleno := ruleno + [reds[s][j]];
      }
      assert reds[s][..|reds[s]|] == reds[s];
      assert ruleno[|was|..|ruleno|] == reds[s];
      forall t | 0 <= t < s ensures RowsOf(reds[t], start[t], start[t + 1], ruleno) {
        assert RowsOf(reds[t], start[t], start[t + 1], was);
        assert ruleno[start[t]..start[t + 1]] == was[start[t]..start[t + 1]];
      }
      start := start + [|ruleno|];
    }
  }

  // ----- initialize_F -----

  /** R lists the relation. */
  ghost predicate Lists(R: seq<seq<nat>>, n: nat, rel: Rel)
  {
    && |R| == n
    && (forall i, k :: 0 <= i < n && 0 <= k < |R[i]| ==> R[i][k] < n)
    && (forall i: nat, j: nat :: i < n ==> (j in R[i] <==> rel(i, j)))
  }

  /** nullable is the table of set_nullable. */
  ghost predicate IsNullable(g: Grammar, nullable: seq<bool>)
    requires g.WellFormed()
  {
    |nullable| == g.nsyms && forall s :: 0 <= s < g.nsyms ==> (nullable[s] <==> DerivesEmpty(g, s))
  }

  /** The tokens that the shifts stand for. */
  ghost predicate TokensOf(l: Lalr, shifts: seq<nat>, row: set<nat>)
  {
    forall t: nat :: t in row <==> t < l.g.ntokens && HasShiftOver(l.a, shifts, t)
  }

  ghost predicate HasShiftOver(a: Automaton, shifts: seq<nat>, x: int)
  {
    exists k :: 0 <= k < |shifts| && AccessIs(a, shifts[k], x)
  }

  ghost predicate AccessIs(a: Automaton, s: nat, x: int)
  {
    s < |a.cores| && a.cores[s].access == x
  }

  /** The gotos over nullable variables that the shifts of state s stand for. */
  ghost predicate NullableGotos(l: Lalr, s: nat, shifts: seq<nat>, edges: seq<nat>)
    requires l.g.WellFormed()
  {
    forall j: nat :: j in edges <==>
      l.IsGoto(j) && l.m.from[j] == s && DerivesEmpty(l.g, l.Sym(j)) && HasShiftOver(l.a, shifts, l.Sym(j))
  }

  /** The shifts of a state: tokens first, in range, and each a transition of the state. */
  lemma ShiftList(l: Lalr, s: nat)
    requires l.Ok() && s < |l.a.cores|
    ensures |l.a.shifts| == |l.a.cores|
    ensures forall j :: 0 <= j < |l.a.shifts[s]| ==> l.a.shifts[s][j] < |l.a.cores|
    ensures forall j :: 0 <= j < |l.a.shifts[s]| ==> 0 < l.a.cores[l.a.shifts[s][j]].access < l.g.nsyms
    ensures forall j, k :: 0 <= j < k < |l.a.shifts[s]| ==>
              l.a.cores[l.a.shifts[s][j]].access < l.a.cores[l.a.shifts[s][k]].access
  {
    LR0Ordered(l.g, l.a);
    hide Grammar.WellFormed, IsLR0, IsGotoMap;
    forall j | 0 <= j < |l.a.shifts[s]|
      ensures l.a.shifts[s][j] < |l.a.cores| && 0 < l.a.cores[l.a.shifts[s][j]].access < l.g.nsyms
    {
      assert Shift(l.a, s, l.a.cores[l.a.shifts[s][j]].access, l.a.shifts[s][j]);
      ShiftKernel(l.g, l.a, s, l.a.cores[l.a.shifts[s][j]].access, l.a.shifts[s][j]);
    }
    forall j, k | 0 <= j < k < |l.a.shifts[s]|
      ensures l.a.cores[l.a.shifts[s][j]].access < l.a.cores[l.a.shifts[s][k]].access
    {
      assert AccessedBefore(l.a.cores, l.a.shifts[s][j], l.a.shifts[s][k]);
    }
  }

  /** The first inner loop of initialize_F: the tokens shifted in stateno go into row i. */
  method SetTokens(l: Lalr, F: BitMatrix, i: nat, stateno: nat, sp: seq<nat>) returns (j: nat)
    requires l.Ok() && stateno < |l.a.cores| && stateno < |l.a.shifts| && sp == l.a.shifts[stateno]
    requires F.Valid() && i < F.n && F.bits == l.g.ntokens && F.Value()[i] == {}
    modifies F.words
    ensures forall k :: 0 <= k < F.n && k != i ==> F.Value()[k] == old(F.Value()[k])
    ensures TokensOf(l, sp, F.Value()[i]) && j <= |sp|
    ensures forall k :: 0 <= k < j ==> !AccessAtLeast(l.a, sp[k], l.g.ntokens)
    ensures forall k :: j <= k < |sp| ==> AccessAtLeast(l.a, sp[k], l.g.ntokens)
  {
    hide Lalr.Ok, BitMatrix.Value, HasShiftOver;
    ShiftList(l, stateno);
    j := 0;
    NoTokensYet(l, sp);
    while j < |sp| && l.a.cores[sp[j]].access < l.g.ntokens
      invariant j <= |sp|
      invariant forall k :: 0 <= k < j ==> !AccessAtLeast(l.a, sp[k], l.g.ntokens)
      invariant forall k :: 0 <= k < F.n && k != i ==> F.Value()[k] == old(F.Value()[k])
      invariant TokensOf(l, sp[..j], F.Value()[i])
    {
      OneMoreToken(l, sp, j, F.Value()[i]);
      F.Set(i, l.a.cores[sp[j]].access);
      j := j + 1;
    }
    OnlyTokensFirst(l, stateno, j, F.Value()[i]);
  }

  lemma NoTokensYet(l: Lalr, sp: seq<nat>)
    ensures TokensOf(l, sp[..0], {})
  {}

  lemma OneMoreToken(l: Lalr, sp: seq<nat>, j: nat, row: set<nat>)
    requires j < |sp| && sp[j] < |l.a.cores| && l.a.cores[sp[j]].access < l.g.ntokens && TokensOf(l, sp[..j], row)
    ensures TokensOf(l, sp[..j + 1], row + {l.a.cores[sp[j]].access})
  {
    hide HasShiftOver;
    assert sp[..j + 1] == sp[..j] + [sp[j]];
    forall t: nat
      ensures HasShiftOver(l.a, sp[..j + 1], t) <==> HasShiftOver(l.a, sp[..j], t) || AccessIs(l.a, sp[j], t)
    {
      OneMoreShift(l, sp[..j], sp[j], t);
    }
  }

  /** One turn of the loop of initialize_F: row i of F, and the gotos that goto i readLists. */
  method ReadsOfGoto(l: Lalr, nullable: seq<bool>, F: BitMatrix, i: nat) returns (edge: seq<nat>)
    requires l.Ok() && IsNullable(l.g, nullable) && i < |l.m.from|
    requires F.Valid() && F.n == |l.m.from| && F.bits == l.g.ntokens && F.Value()[i] == {}
    modifies F.words
    ensures forall j :: 0 <= j < F.n && j != i ==> F.Value()[j] == old(F.Value()[j])
    ensures l.IsGoto(i) && l.m.to[i] < |l.a.shifts| && TokensOf(l, l.a.shifts[l.m.to[i]], F.Value()[i])
    ensures NullableGotos(l, l.m.to[i], l.a.shifts[l.m.to[i]], edge)
  {
    l.GotoFacts(i);
    var stateno := l.m.to[i];
    ShiftList(l, stateno);
    var sp := l.a.shifts[stateno];
    var j := SetTokens(l, F, i, stateno, sp);
    edge := NullableEdges(l, nullable, stateno, sp, j);
  }

  /** The second inner loop of initialize_F. */
  method NullableEdges(l: Lalr, nullable: seq<bool>, stateno: nat, sp: seq<nat>, from: nat) returns (edge: seq<nat>)
    requires l.Ok() && IsNullable(l.g, nullable) && stateno < |l.a.cores| && stateno < |l.a.shifts|
    requires sp == l.a.shifts[stateno] && from <= |sp|
    requires forall k :: 0 <= k < from ==> !AccessAtLeast(l.a, sp[k], l.g.ntokens)
    requires forall k :: from <= k < |sp| ==> AccessAtLeast(l.a, sp[k], l.g.ntokens)
    ensures NullableGotos(l, stateno, sp, edge)
  {
    hide Grammar.WellFormed, IsLR0, IsGotoMap, DerivesEmpty, NullableGotos;
    ShiftList(l, stateno);
    var j: nat := from;
    edge := [];
    NoGotosYet(l, stateno, sp[..j]);
    while j < |sp|
      invariant from <= j <= |sp|
      invariant NullableGotos(l, stateno, sp[..j], edge)
    {
      var symbol := l.a.cores[sp[j]].access;
      assert AccessAtLeast(l.a, sp[j], l.g.ntokens);
      assert sp[..j + 1] == sp[..j] + [sp[j]];
      if nullable[symbol] {
        var e := MapGotoOf(l, stateno, symbol, sp[j]);
        MoreGotos(l, stateno, sp[..j], sp[j], edge, e);
        edge := edge + [e];
      } else {
        SkipGoto(l, stateno, sp[..j], sp[j], edge);
      }
      j := j + 1;
    }
    assert sp[..j] == sp;
  }

  /** map_goto, for a transition that exists. */
  method MapGotoOf(l: Lalr, stateno: nat, symbol: nat, ghost t: nat) returns (k: nat)
    requires l.Ok() && Shift(l.a, stateno, symbol, t) && symbol >= l.g.ntokens
    ensures k < |l.m.from| && l.IsGoto(k) && l.m.from[k] == stateno && l.Sym(k) == symbol && l.m.to[k] == t
  {
    hide Grammar.WellFormed, IsLR0, IsGotoMap;
    ghost var i := l.GotoOf(stateno, symbol, t);
    ShiftKernel(l.g, l.a, stateno, symbol, t);
    assert Transition(l.g, l.a, stateno, symbol - l.g.ntokens, t);
    k := MapGoto(l.g, l.a, l.m, stateno, symbol - l.g.ntokens);
    l.InGroup(symbol - l.g.ntokens, k);
    l.SameGoto(k, i);
  }

  lemma OnlyTokensFirst(l: Lalr, s: nat, j: nat, row: set<nat>)
    requires l.Ok() && s < |l.a.cores| && |l.a.shifts| == |l.a.cores| && j <= |l.a.shifts[s]|
    requires TokensOf(l, l.a.shifts[s][..j], row)
    requires j < |l.a.shifts[s]| ==> AccessAtLeast(l.a, l.a.shifts[s][j], l.g.ntokens)
    ensures TokensOf(l, l.a.shifts[s], row)
    ensures forall k :: j <= k < |l.a.shifts[s]| ==> AccessAtLeast(l.a, l.a.shifts[s][k], l.g.ntokens)
  {
    hide Lalr.Ok;
    ShiftList(l, s);
    var sp := l.a.shifts[s];
    forall t: nat | t < l.g.ntokens
      ensures HasShiftOver(l.a, sp, t) <==> HasShiftOver(l.a, sp[..j], t)
    {
      if HasShiftOver(l.a, sp, t) {
        var k :| 0 <= k < |sp| && AccessIs(l.a, sp[k], t);
        assert k < j;
        assert sp[..j][k] == sp[k];
      }
      if HasShiftOver(l.a, sp[..j], t) {
        var k :| 0 <= k < j && AccessIs(l.a, sp[..j][k], t);
        assert sp[..j][k] == sp[k];
      }
    }
    hide HasShiftOver;
  }

  ghost predicate AccessAtLeast(a: Automaton, s: nat, x: int)
  {
    s < |a.cores| && a.cores[s].access >= x
  }

  lemma NoGotosYet(l: Lalr, s: nat, tokens: seq<nat>)
    requires l.Ok() && forall k :: 0 <= k < |tokens| ==> !AccessAtLeast(l.a, tokens[k], l.g.ntokens)
    ensures NullableGotos(l, s, tokens, [])
  {
    hide Grammar.WellFormed, IsLR0, IsGotoMap, DerivesEmpty;
    forall j: nat | l.IsGoto(j) ensures l.Sym(j) >= l.g.ntokens { l.GotoFacts(j); }
    forall x: nat | x >= l.g.ntokens ensures !HasShiftOver(l.a, tokens, x) {}
  }

  lemma MoreGotos(l: Lalr, s: nat, shifts: seq<nat>, t: nat, edges: seq<nat>, e: nat)
    requires l.Ok() && NullableGotos(l, s, shifts, edges) && t < |l.a.cores|
    requires e < |l.m.from| && l.IsGoto(e) && l.m.from[e] == s && l.Sym(e) == l.a.cores[t].access &&
             DerivesEmpty(l.g, l.Sym(e))
    ensures NullableGotos(l, s, shifts + [t], edges + [e])
  {
    hide Grammar.WellFormed, IsLR0, IsGotoMap, DerivesEmpty, HasShiftOver;
    forall j: nat
      ensures j in edges + [e] <==>
        l.IsGoto(j) && l.m.from[j] == s && DerivesEmpty(l.g, l.Sym(j)) && HasShiftOver(l.a, shifts + [t], l.Sym(j))
    {
      if l.IsGoto(j) {
        OneMoreShift(l, shifts, t, l.Sym(j));
        if l.m.from[j] == s && l.Sym(j) == l.Sym(e) { l.SameGoto(j, e); }
      }
    }
  }

  lemma OneMoreShift(l: Lalr, shifts: seq<nat>, t: nat, x: nat)
    ensures HasShiftOver(l.a, shifts + [t], x) <==> HasShiftOver(l.a, shifts, x) || AccessIs(l.a, t, x)
  {
    var more := shifts + [t];
    assert more[|shifts|] == t;
    if HasShiftOver(l.a, shifts, x) {
      var k :| 0 <= k < |shifts| && AccessIs(l.a, shifts[k], x);
      assert more[k] == shifts[k];
    }
  }

  lemma SkipGoto(l: Lalr, s: nat, shifts: seq<nat>, t: nat, edges: seq<nat>)
    requires l.Ok() && NullableGotos(l, s, shifts, edges) && t < |l.a.cores|
    requires !DerivesEmpty(l.g, l.a.cores[t].access)
    ensures NullableGotos(l, s, shifts + [t], edges)
  {
    hide Grammar.WellFormed, IsLR0, IsGotoMap, DerivesEmpty, HasShiftOver;
    forall j: nat | l.IsGoto(j) && DerivesEmpty(l.g, l.Sym(j))
      ensures HasShiftOver(l.a, shifts + [t], l.Sym(j)) <==> HasShiftOver(l.a, shifts, l.Sym(j))
    {
      OneMoreShift(l, shifts, t, l.Sym(j));
    }
  }

  lemma ShiftOverIsShift(l: Lalr, s: nat, x: int)
    requires l.Ok() && s < |l.a.shifts|
    ensures HasShiftOver(l.a, l.a.shifts[s], x) <==> exists u :: Shift(l.a, s, x, u)
  {
    hide Lalr.Ok;
    var sp := l.a.shifts[s];
    if HasShiftOver(l.a, sp, x) {
      var k :| 0 <= k < |sp| && AccessIs(l.a, sp[k], x);
      assert Shift(l.a, s, x, sp[k]);
    }
    if exists u :: Shift(l.a, s, x, u) {
      var u :| Shift(l.a, s, x, u);
      var k :| 0 <= k < |sp| && sp[k] == u;
      assert AccessIs(l.a, sp[k], x);
    }
  }

  /** The rows of F before digraph: the direct readLists. */
  ghost predicate HoldsDirectReads(l: Lalr, f: seq<set<nat>>)
  {
    |f| == |l.m.from| && forall i: nat, t: nat :: i < |f| && l.IsGoto(i) ==> (t in f[i] <==> l.DirectRead(i, t))
  }

  lemma DirectReads(l: Lalr, i: nat, row: set<nat>)
    requires l.Ok() && i < |l.m.from| && l.IsGoto(i) && l.m.to[i] < |l.a.shifts|
    requires TokensOf(l, l.a.shifts[l.m.to[i]], row)
    ensures forall t: nat :: t in (if i == 0 then row + {0} else row) <==> l.DirectRead(i, t)
  {
    assert l.g.ntokens > 0;
    hide Lalr.Ok;
    forall t: nat ensures t in (if i == 0 then row + {0} else row) <==> l.DirectRead(i, t) {
      ShiftOverIsShift(l, l.m.to[i], t);
    }
  }

  lemma ReadsListed(l: Lalr, i: nat, edge: seq<nat>)
    requires l.Ok() && i < |l.m.from| && l.IsGoto(i) && l.m.to[i] < |l.a.shifts|
    requires NullableGotos(l, l.m.to[i], l.a.shifts[l.m.to[i]], edge)
    ensures forall j: nat :: j in edge <==> l.Reads()(i, j)
    ensures forall k :: 0 <= k < |edge| ==> edge[k] < |l.m.from|
  {
    hide Grammar.WellFormed, IsLR0, IsGotoMap, DerivesEmpty;
    forall j: nat | l.ReadsGoto(i, j) ensures j in edge {
      l.GotoFacts(j);
      ShiftOverIsShift(l, l.m.to[i], l.Sym(j));
    }
    forall k | 0 <= k < |edge| ensures edge[k] < |l.m.from| { assert edge[k] in edge; }
  }

  /** digraph, run on rows f0 and a list of a relation, collects f0 over what the relation reaches. */
  lemma GetsIsReach(R: seq<seq<nat>>, f0: seq<set<nat>>, rel: Rel, i: nat, t: nat)
    requires Lists(R, |f0|, rel) && i < |f0|
    ensures Problem(R, f0).Gets(i, t) <==> exists j: nat :: j < |f0| && Reaches(rel, i, j) && t in f0[j]
  {
    var p := Problem(R, f0);
    var e := p.Edges();
    forall j: nat ensures Reaches(e, i, j) <==> Reaches(rel, i, j) {
      if Reaches(e, i, j) { ReachesMono(e, rel, i, j); }
      if Reaches(rel, i, j) {
        var inside := (x: nat) => x < |f0| && Reaches(e, i, x);
        ReachesRefl(e, i);
        forall a: nat, b: nat | inside(a) && rel(a, b) ensures inside(b) {
          assert b in R[a];
          var k :| 0 <= k < |R[a]| && R[a][k] == b;
          ReachesSnoc(e, i, a, b);
        }
        ReachesKeeps(rel, inside, i, j);
      }
    }
  }

  ghost predicate HoldsReads(l: Lalr, f: seq<set<nat>>)
    requires l.g.WellFormed()
  {
    |f| == |l.m.from| && forall i: nat, t: nat :: i < |f| ==> (t in f[i] <==> l.Read(i, t))
  }

  lemma ReadsFound(l: Lalr, R: seq<seq<nat>>, f0: seq<set<nat>>, i: nat, t: nat)
    requires l.Ok() && Lists(R, |f0|, l.Reads()) && HoldsDirectReads(l, f0) && i < |f0|
    ensures Problem(R, f0).Gets(i, t) <==> l.Read(i, t)
  {
    GotosInRange(l);
    hide Grammar.WellFormed, IsLR0, IsGotoMap, Reaches, Problem.Gets;
    GetsIsReach(R, f0, l.Reads(), i, t);
  }

  lemma GotosInRange(l: Lalr)
    requires l.Ok()
    ensures |l.m.from| == |l.m.to| > 0
  {
    l.FirstGoto();
  }

  /** Row i of F ends as the Read set of goto i. */
  method InitializeF(l: Lalr, nullable: seq<bool>) returns (F: BitMatrix)
    requires l.Ok() && IsNullable(l.g, nullable)
    ensures fresh(F) && fresh(F.words) && F.Valid() && F.n == |l.m.from| && F.bits == l.g.ntokens &&
            F.w == WordSize(l.g.ntokens)
    ensures HoldsReads(l, F.Value())
  {
    GotosInRange(l);
    TokensExist(l.g);
    hide Lalr.Ok, BitMatrix.Value, TokensOf, NullableGotos, Lalr.DirectRead, Problem.Gets;
    var n := |l.m.from|;
    F := new BitMatrix(n, l.g.ntokens);
    var readLists: seq<seq<nat>> := [];
    for i := 0 to n
      invariant |readLists| == i
      invariant forall j :: 0 <= j < i ==> ReadsRow(l, j, readLists[j], F.Value()[j])
      invariant forall j :: i <= j < n ==> F.Value()[j] == {}
    {
      var edge := ReadsOfGoto(l, nullable, F, i);
      readLists := readLists + [edge];
    }
    F.Set(0, 0);
    ReadsReady(l, readLists, F.Value());
    ghost var f0 := F.Value();
    var d := new Digraph(readLists, F);
    d.Run();
    forall i: nat, t: nat | i < n ensures t in F.Value()[i] <==> l.Read(i, t) {
      ReadsFound(l, readLists, f0, i, t);
    }
  }

  lemma TokensExist(g: Grammar)
    requires g.WellFormed()
    ensures 0 < g.ntokens
  {}

  ghost predicate ReadsRow(l: Lalr, i: nat, edge: seq<nat>, row: set<nat>)
    requires l.g.WellFormed()
  {
    && i < |l.m.from| && l.IsGoto(i) && l.m.to[i] < |l.a.shifts|
    && TokensOf(l, l.a.shifts[l.m.to[i]], row)
    && NullableGotos(l, l.m.to[i], l.a.shifts[l.m.to[i]], edge)
  }

  lemma ReadsReady(l: Lalr, readLists: seq<seq<nat>>, f0: seq<set<nat>>)
    requires l.Ok() && |readLists| == |f0| == |l.m.from| > 0 && 0 in f0[0]
    requires forall j :: 0 < j < |f0| ==> ReadsRow(l, j, readLists[j], f0[j])
    requires exists row :: f0[0] == row + {0} && ReadsRow(l, 0, readLists[0], row)
    ensures Lists(readLists, |f0|, l.Reads()) && HoldsDirectReads(l, f0)
  {
    hide Grammar.WellFormed, IsLR0, IsGotoMap, TokensOf, NullableGotos, Lalr.DirectRead, Lalr.ReadsGoto;
    var row0 :| f0[0] == row0 + {0} && ReadsRow(l, 0, readLists[0], row0);
    forall i: nat | i < |f0|
      ensures forall k :: 0 <= k < |readLists[i]| ==> readLists[i][k] < |f0|
      ensures forall j: nat :: j in readLists[i] <==> l.Reads()(i, j)
      ensures l.IsGoto(i) && forall t: nat :: t in f0[i] <==> l.DirectRead(i, t)
    {
      if i == 0 {
        ReadsListed(l, 0, readLists[0]);
        DirectReads(l, 0, row0);
      } else {
        ReadsListed(l, i, readLists[i]);
        DirectReads(l, i, f0[i]);
      }
    }
  }

  // ----- build_relations -----

  /** The inner search of build_relations: the state that s shifts to over x. */
  method FindShift(l: Lalr, s: nat, x: nat) returns (t: nat)
    requires l.Ok() && s < |l.a.cores| && exists u :: Shift(l.a, s, x, u)
    ensures Shift(l.a, s, x, t)
  {
    ShiftList(l, s);
    hide Lalr.Ok;
    var sp := l.a.shifts[s];
    ghost var u :| Shift(l.a, s, x, u);
    ghost var at :| 0 <= at < |sp| && sp[at] == u;
    t := s;
    var j := 0;
    while j < |sp|
      invariant 0 <= j <= at
    {
      t := sp[j];
      if l.a.cores[t].access == x {
        break;
      }
      j := j + 1;
    }
  }

  /** The states on the path that rule r's right side spells from state p. */
  ghost predicate Walked(l: Lalr, p: nat, r: nat, n: nat, states: seq<nat>)
    requires l.g.WellFormed() && l.g.IsRule(r)
  {
    && n <= |l.g.Rhs(r)| && |states| == n + 1
    && (forall k :: 0 <= k <= n ==> WalkedTo(l, p, r, k, states[k]))
  }

  ghost predicate WalkedTo(l: Lalr, p: nat, r: nat, k: nat, s: nat)
    requires l.g.WellFormed() && l.g.IsRule(r)
  {
    k <= |l.g.Rhs(r)| && Spells(l.a, p, l.g.Rhs(r)[..k], s) && InState(l.g, l.a, s, l.g.rrhs[r] + k)
  }

  method WalkRule(l: Lalr, p: nat, r: nat) returns (states: seq<nat>)
    requires l.Ok() && l.g.IsRule(r) && r >= 3 && InState(l.g, l.a, p, l.g.rrhs[r])
    ensures Walked(l, p, r, |l.g.Rhs(r)|, states) && states[0] == p
  {
    hide Grammar.WellFormed, Grammar.Rhs, Grammar.RuleEnd, IsLR0, IsGotoMap, InState, Spells;
    states := [p];
    var stateno := p;
    l.g.RuleFacts(r);
    WalkedNone(l, p, r);
    var rp := l.g.rrhs[r];
    while l.g.ritem[rp] >= 0
      invariant l.g.rrhs[r] <= rp <= l.g.RuleEnd(r) && |states| == rp - l.g.rrhs[r] + 1
      invariant Walked(l, p, r, rp - l.g.rrhs[r], states) && states[0] == p && stateno == states[|states| - 1]
      decreases l.g.RuleEnd(r) - rp
    {
      ghost var k := rp - l.g.rrhs[r];
      assert k < |l.g.Rhs(r)| && l.g.Rhs(r)[k] == l.g.ritem[rp];
      assert WalkedTo(l, p, r, k, stateno);
      InStateRange(l, stateno, l.g.rrhs[r] + k);
      ghost var t := SpellsRuleStep(l.g, l.a, p, r, k, stateno);
      var next := FindShift(l, stateno, l.g.ritem[rp]);
      ShiftUnique(l.g, l.a, stateno, l.g.ritem[rp], t, next);
      stateno := next;
      states := states + [stateno];
      rp := rp + 1;
      assert WalkedTo(l, p, r, k + 1, stateno);
    }
    RuleEnds(l, r, rp);
  }

  lemma WalkedNone(l: Lalr, p: nat, r: nat)
    requires l.g.WellFormed() && l.g.IsRule(r) && InState(l.g, l.a, p, l.g.rrhs[r])
    ensures Walked(l, p, r, 0, [p])
  {
    SpellsNone(l.a, p);
    assert l.g.Rhs(r)[..0] == [];
  }

  lemma InStateRange(l: Lalr, s: nat, i: nat)
    requires l.g.WellFormed() && InState(l.g, l.a, s, i)
    ensures s < |l.a.cores|
  {}

  lemma RuleEnds(l: Lalr, r: nat, rp: nat)
    requires l.g.WellFormed() && l.g.IsRule(r) && l.g.rrhs[r] <= rp <= l.g.RuleEnd(r) && l.g.ritem[rp] < 0
    ensures rp - l.g.rrhs[r] == |l.g.Rhs(r)|
  {
    hide Grammar.WellFormed;
    assert l.g.RuleLaidOut(r) by { l.g.RuleFacts(r); }
  }

  // ----- add_lookback_edge -----

  /** Row x is the reduction by rule r in state q. */
  ghost predicate IsRow(start: seq<nat>, ruleno: seq<nat>, q: nat, r: nat, x: nat)
  {
    q + 1 < |start| && start[q] <= x < start[q + 1] && x < |ruleno| && ruleno[x] == r
  }

  /** Finds the row of the reduction; the source's assert(found) never fails, because the path
      ends in a state that reduces by the rule. */
  method AddLookbackEdge(l: Lalr, start: seq<nat>, ruleno: seq<nat>, lookback: array<seq<nat>>, stateno: nat, r: nat,
                         gotono: nat)
    returns (ghost x: nat)
    requires IsRowMap(l.a.reds, |l.a.reds|, start, ruleno) && lookback.Length == |ruleno|
    requires stateno < |l.a.reds| && r in l.a.reds[stateno]
    modifies lookback
    ensures IsRow(start, ruleno, stateno, r, x) && x < lookback.Length
    ensures lookback[..] == old(lookback[..])[x := [gotono] + old(lookback[x])]
  {
    assert RowsOf(l.a.reds[stateno], start[stateno], start[stateno + 1], ruleno);
    var i, k := start[stateno], start[stateno + 1];
    var found := false;
    while !found && i < k
      invariant start[stateno] <= i <= k && (found ==> i < k && ruleno[i] == r)
      invariant forall y :: start[stateno] <= y < i ==> ruleno[y] != r
      decreases k - i, !found
    {
      if ruleno[i] == r {
        found := true;
      } else {
        i := i + 1;
      }
    }
    assert found by {
      var j :| 0 <= j < |l.a.reds[stateno]| && l.a.reds[stateno][j] == r;
      assert ruleno[start[stateno]..k][j] == ruleno[start[stateno] + j];
    }
    lookback[i] := [gotono] + lookback[i];
    x := i;
  }

  lemma RowUnique(l: Lalr, start: seq<nat>, ruleno: seq<nat>, q: nat, r: nat, x: nat, y: nat)
    requires l.Ok() && IsRowMap(l.a.reds, |l.a.reds|, start, ruleno)
    requires IsRow(start, ruleno, q, r, x) && IsRow(start, ruleno, q, r, y)
    ensures x == y
  {
    assert RowsOf(l.a.reds[q], start[q], start[q + 1], ruleno) && RedsOf(l.g, l.a.cores[q].items, l.a.reds[q]);
    hide Lalr.Ok;
    assert ruleno[start[q]..start[q + 1]][x - start[q]] == r;
    assert ruleno[start[q]..start[q + 1]][y - start[q]] == r;
  }

  // ----- the includes edges of one rule -----

  lemma TokenNotEmpty(g: Grammar, s: nat)
    requires g.WellFormed() && DerivesEmpty(g, s)
    ensures s >= g.ntokens
  {
    hide Grammar.WellFormed;
    var c := g.Unpacked();
    var d: Cfgs.Forest :| d.Valid(c) && d.Form(c) == [s] && d.Yield() == [];
    match d
    case Done =>
    case Tok(t, rest) =>
    case Var(r, sub, rest) =>
      g.UnpackedRule(r);
      g.RuleFacts(r);
      assert d.Form(c)[0] == g.rlhs[r];
  }

  /** The gotos that include goto i by way of rule r, at its k-th symbol or later. */
  ghost predicate IncludedFrom(l: Lalr, i: nat, r: nat, k: nat, edges: seq<nat>)
    requires l.g.WellFormed() && l.IsGoto(i)
  {
    forall j: nat :: j in edges <==> l.IsGoto(j) && IncludedAt(l, i, j, r, k)
  }

  ghost predicate IncludedAt(l: Lalr, i: nat, j: nat, r: nat, from: nat)
    requires l.g.WellFormed() && l.IsGoto(i) && l.IsGoto(j)
  {
    exists k: nat :: k >= from && l.IncludesBy(j, i, r, k)
  }

  lemma NothingIncluded(l: Lalr, i: nat, r: nat)
    requires l.g.WellFormed() && l.IsGoto(i) && l.g.IsRule(r)
    ensures IncludedFrom(l, i, r, |l.g.Rhs(r)|, [])
  {
    hide Grammar.WellFormed, Grammar.Rhs;
  }

  /** The walk back stops before the n-th symbol: there is nothing before it, or the n-th symbol
      cannot be empty, or the one before it is a token. */
  ghost predicate Stops(l: Lalr, r: nat, n: nat)
    requires l.g.WellFormed() && l.g.IsRule(r)
  {
    || n == 0
    || (n < |l.g.Rhs(r)| && !DerivesEmpty(l.g, l.g.Rhs(r)[n]))
    || (1 <= n <= |l.g.Rhs(r)| && l.g.Rhs(r)[n - 1] < l.g.ntokens)
  }

  lemma NotBefore(l: Lalr, i: nat, r: nat, n: nat, j: nat, k: nat)
    requires l.Ok() && l.IsGoto(i) && l.IsGoto(j) && l.g.IsRule(r) && Stops(l, r, n) && l.IncludesBy(j, i, r, k)
    ensures k >= n
  {
    hide Grammar.WellFormed, Grammar.Rhs, DerivesEmpty, Spells, IsLR0, IsGotoMap;
    l.GotoFacts(j);
    var rest := l.g.Rhs(r)[k + 1..];
    assert forall x :: k < x < |l.g.Rhs(r)| ==> rest[x - k - 1] == l.g.Rhs(r)[x];
    if k < n - 1 {
      TokenNotEmpty(l.g, l.g.Rhs(r)[n - 1]);
    }
  }

  lemma WalkStops(l: Lalr, i: nat, r: nat, n: nat, edges: seq<nat>)
    requires l.Ok() && l.IsGoto(i) && l.g.IsRule(r) && IncludedFrom(l, i, r, n, edges) && Stops(l, r, n)
    ensures IncludedFrom(l, i, r, 0, edges)
  {
    hide Grammar.WellFormed, Lalr.IncludesBy, IsLR0, IsGotoMap, Stops;
    forall j: nat | l.IsGoto(j) && IncludedAt(l, i, j, r, 0) ensures IncludedAt(l, i, j, r, n) {
      var k: nat :| k >= 0 && l.IncludesBy(j, i, r, k);
      NotBefore(l, i, r, n, j, k);
    }
  }

  lemma AddIncluded(l: Lalr, i: nat, r: nat, k: nat, edges: seq<nat>, e: nat)
    requires l.Ok() && i < |l.m.from| && l.IsGoto(i) && l.g.IsRule(r) && IncludedFrom(l, i, r, k + 1, edges)
    requires e < |l.m.from| && l.IsGoto(e) && l.IncludesBy(e, i, r, k)
    ensures IncludedFrom(l, i, r, k, edges + [e])
  {
    hide Grammar.WellFormed, IsLR0, IsGotoMap;
    forall j: nat | l.IsGoto(j) ensures j in edges + [e] <==> IncludedAt(l, i, j, r, k) {
      if l.IncludesBy(j, i, r, k) { OneIncluded(l, i, r, k, j, e); }
      hide Lalr.IncludesBy;
    }
  }

  lemma OneIncluded(l: Lalr, i: nat, r: nat, k: nat, j: nat, e: nat)
    requires l.Ok() && l.IsGoto(i) && l.IsGoto(j) && l.IsGoto(e) && l.IncludesBy(j, i, r, k) && l.IncludesBy(e, i, r, k)
    ensures j == e
  {
    hide Grammar.WellFormed, Grammar.Rhs, IsLR0, IsGotoMap, Spells, DerivesEmpty;
    SpellsUnique(l.g, l.a, l.m.from[i], l.g.Rhs(r)[..k], l.m.from[j], l.m.from[e]);
    l.SameGoto(j, e);
  }

  /** The last loop of build_relations: back over rule r's right side, from its end, while what
      follows can be empty. */
  method IncludesEdges(l: Lalr, nullable: seq<bool>, i: nat, r: nat, states: seq<nat>) returns (edge: seq<nat>)
    requires l.Ok() && IsNullable(l.g, nullable) && i < |l.m.from| && l.IsGoto(i)
    requires l.g.IsRule(r) && r >= 3 && l.g.rlhs[r] == l.Sym(i)
    requires Walked(l, l.m.from[i], r, |l.g.Rhs(r)|, states)
    ensures IncludedFrom(l, i, r, 0, edge)
  {
    hide Grammar.WellFormed, Grammar.Rhs, Grammar.RuleEnd, IsLR0, IsGotoMap, IncludedFrom, DerivesEmpty, Walked, Stops;
    l.g.RuleFacts(r);
    edge := [];
    NothingIncluded(l, i, r);
    WalkedLength(l, l.m.from[i], r, |l.g.Rhs(r)|, states);
    var length: nat := |states| - 1;
    var done := false;
    while !done
      invariant length <= |l.g.Rhs(r)| && IncludedFrom(l, i, r, length, edge)
      invariant !done ==> l.AllDeriveEmpty(l.g.Rhs(r)[length..])
      invariant done ==> Stops(l, r, length)
      decreases !done, length
    {
      done := true;
      EntryBefore(l, r, length);
      var symbol := l.g.ritem[l.g.rrhs[r] + length - 1];
      if l.g.IsVar(symbol) {
        var e := IncludesEdge(l, i, r, length - 1, states, edge);
        length := length - 1;
        edge := edge + [e];
        if nullable[symbol] && length > 0 {
          done := false;
          assert l.g.Rhs(r)[length..] == [l.g.Rhs(r)[length]] + l.g.Rhs(r)[length + 1..];
        }
        StopsHere(l, r, length);
      } else {
        StopsAtToken(l, r, length);
      }
    }
    WalkStops(l, i, r, length, edge);
  }

  lemma StopsHere(l: Lalr, r: nat, n: nat)
    requires l.g.WellFormed() && l.g.IsRule(r) && n < |l.g.Rhs(r)|
    ensures n == 0 || !DerivesEmpty(l.g, l.g.Rhs(r)[n]) ==> Stops(l, r, n)
  {}

  lemma StopsAtToken(l: Lalr, r: nat, n: nat)
    requires l.g.WellFormed() && l.g.IsRule(r) && n <= |l.g.Rhs(r)|
    requires n > 0 ==> l.g.Rhs(r)[n - 1] < l.g.ntokens
    ensures Stops(l, r, n)
  {}

  lemma WalkedLength(l: Lalr, p: nat, r: nat, n: nat, states: seq<nat>)
    requires l.g.WellFormed() && l.g.IsRule(r) && Walked(l, p, r, n, states)
    ensures |states| == n + 1
  {}

  /** What stands before the n-th symbol of a user rule: the symbol before it, or the end of the
      rule before. */
  lemma EntryBefore(l: Lalr, r: nat, n: nat)
    requires l.g.WellFormed() && l.g.IsRule(r) && r >= 3 && n <= |l.g.Rhs(r)|
    ensures 0 <= l.g.rrhs[r] + n - 1 < l.g.NItems()
    ensures n == 0 ==> l.g.ritem[l.g.rrhs[r] + n - 1] < 0
    ensures n > 0 ==> l.g.ritem[l.g.rrhs[r] + n - 1] == l.g.Rhs(r)[n - 1] < l.g.nsyms
  {
    l.g.RuleFacts(r);
    if n == 0 { assert l.g.RuleEnd(r - 1) == l.g.rrhs[r] - 1; }
  }

  /** edge[nedges++] = map_goto(stateno, *rp); */
  method IncludesEdge(l: Lalr, i: nat, r: nat, k: nat, states: seq<nat>, ghost edges: seq<nat>) returns (e: nat)
    requires l.Ok() && i < |l.m.from| && l.IsGoto(i) && l.g.IsRule(r) && r >= 3 && l.g.rlhs[r] == l.Sym(i)
    requires Walked(l, l.m.from[i], r, |l.g.Rhs(r)|, states) && k < |l.g.Rhs(r)| && l.g.IsVar(l.g.Rhs(r)[k])
    requires IncludedFrom(l, i, r, k + 1, edges) && l.AllDeriveEmpty(l.g.Rhs(r)[k + 1..])
    ensures e < |l.m.from| && IncludedFrom(l, i, r, k, edges + [e])
  {
    hide Grammar.WellFormed, Grammar.Rhs, Grammar.RuleEnd, IsLR0, IsGotoMap, IncludedFrom, DerivesEmpty, Spells,
         InState;
    assert WalkedTo(l, l.m.from[i], r, k, states[k]) && WalkedTo(l, l.m.from[i], r, k + 1, states[k + 1]);
    l.g.RuleFacts(r);
    ghost var t := SpellsRuleStep(l.g, l.a, l.m.from[i], r, k, states[k]);
    e := MapGotoOf(l, states[k], l.g.ritem[l.g.rrhs[r] + k], t);
    AddIncluded(l, i, r, k, edges, e);
  }

  // ----- build_relations, for one goto -----

  /** The lookback lists so far: all rules at the gotos before n, and the rules done at goto n. */
  ghost predicate LookbackTo(l: Lalr, start: seq<nat>, ruleno: seq<nat>, lookback: seq<seq<nat>>, n: nat,
                             rules: seq<nat>)
    requires l.g.WellFormed()
  {
    |lookback| == |ruleno|
    && forall q: nat, x: nat, j: nat ::
         x < |lookback| && IsRow(start, ruleno, q, ruleno[x], x) && l.g.IsRule(ruleno[x]) ==>
           (j in lookback[x] <==> l.LooksBack(q, ruleno[x], j) && (j < n || (j == n && ruleno[x] in rules)))
  }

  lemma LookbackMore(l: Lalr, start: seq<nat>, ruleno: seq<nat>, lookback: seq<seq<nat>>, n: nat, rules: seq<nat>,
                     q: nat, r: nat, x: nat)
    requires l.Ok() && IsRowMap(l.a.reds, |l.a.reds|, start, ruleno) && LookbackTo(l, start, ruleno, lookback, n, rules)
    requires l.g.IsRule(r) && l.LooksBack(q, r, n) && x < |lookback| && IsRow(start, ruleno, q, r, x)
    ensures LookbackTo(l, start, ruleno, lookback[x := [n] + lookback[x]], n, rules + [r])
  {
    hide Grammar.WellFormed, IsLR0, IsGotoMap, Spells, IsRowMap, Grammar.Rhs;
    var lookback' := lookback[x := [n] + lookback[x]];
    forall p: nat, y: nat, j: nat | y < |lookback| && IsRow(start, ruleno, p, ruleno[y], y) && l.g.IsRule(ruleno[y])
      ensures j in lookback'[y] <==>
                l.LooksBack(p, ruleno[y], j) && (j < n || (j == n && ruleno[y] in rules + [r]))
    {
      if ruleno[y] == r && l.LooksBack(p, r, n) {
        SpellsUnique(l.g, l.a, l.m.from[n], l.g.Rhs(r), p, q);
        RowUnique(l, start, ruleno, q, r, x, y);
      }
      if y == x { RowState(l, start, ruleno, p, q, x); }
    }
  }

  lemma RowState(l: Lalr, start: seq<nat>, ruleno: seq<nat>, p: nat, q: nat, x: nat)
    requires IsRowMap(l.a.reds, |l.a.reds|, start, ruleno) && x < |ruleno|
    requires IsRow(start, ruleno, p, ruleno[x], x) && IsRow(start, ruleno, q, ruleno[x], x)
    ensures p == q
  {}

  ghost predicate IncludedBy(l: Lalr, i: nat, rules: seq<nat>, edges: seq<nat>)
    requires l.g.WellFormed() && l.IsGoto(i)
  {
    forall j: nat :: j in edges <==> l.IsGoto(j) && exists r :: r in rules && IncludedAt(l, i, j, r, 0)
  }

  lemma IncludedMore(l: Lalr, i: nat, rules: seq<nat>, edges: seq<nat>, r: nat, more: seq<nat>)
    requires l.g.WellFormed() && l.IsGoto(i) && IncludedBy(l, i, rules, edges) && IncludedFrom(l, i, r, 0, more)
    ensures IncludedBy(l, i, rules + [r], edges + more)
  {
    hide Grammar.WellFormed, IncludedAt;
  }

  /** The goto's variable starts its rules in the state the goto leaves. */
  lemma GotoStartsRule(l: Lalr, i: nat, r: nat)
    requires l.Ok() && i < |l.m.from| && l.IsGoto(i) && l.g.IsRule(r) && l.g.rlhs[r] == l.Sym(i)
    ensures r >= 3 && InState(l.g, l.a, l.m.from[i], l.g.rrhs[r]) && l.m.from[i] < |l.a.cores|
  {
    hide Grammar.WellFormed, IsLR0, IsGotoMap, InState;
    l.GotoFacts(i);
    l.g.RuleFacts(r);
    var k := ShiftHasItem(l.g, l.a, l.m.from[i], l.Sym(i), l.m.to[i]);
    RuleStarts(l.g, l.a, l.m.from[i], k, r);
  }

  lemma EndsInReduction(l: Lalr, i: nat, r: nat, states: seq<nat>)
    requires l.Ok() && i < |l.m.from| && l.IsGoto(i) && l.g.IsRule(r) && l.g.rlhs[r] == l.Sym(i)
    requires Walked(l, l.m.from[i], r, |l.g.Rhs(r)|, states)
    ensures var q := states[|states| - 1]; l.LooksBack(q, r, i) && q < |l.a.reds| && r in l.a.reds[q]
  {
    hide Grammar.WellFormed, Grammar.Rhs, IsLR0, IsGotoMap, InState, Spells;
    GotoStartsRule(l, i, r);
    assert WalkedTo(l, l.m.from[i], r, |l.g.Rhs(r)|, states[|states| - 1]);
    assert l.g.Rhs(r)[..|l.g.Rhs(r)|] == l.g.Rhs(r);
    SpelledReduces(l.g, l.a, l.m.from[i], r, states[|states| - 1]);
  }

  /** One turn of the loop over the rules of goto i's variable. */
  method RelationsOfRule(l: Lalr, nullable: seq<bool>, start: seq<nat>, ruleno: seq<nat>, lookback: array<seq<nat>>,
                         i: nat, ghost rules: seq<nat>, ghost edge: seq<nat>, r: nat) returns (more: seq<nat>)
    requires l.Ok() && IsNullable(l.g, nullable) && i < |l.m.from| && l.IsGoto(i)
    requires IsRowMap(l.a.reds, |l.a.reds|, start, ruleno) && LookbackTo(l, start, ruleno, lookback[..], i, rules)
    requires IncludedBy(l, i, rules, edge) && l.g.IsRule(r) && l.g.rlhs[r] == l.Sym(i)
    modifies lookback
    ensures IncludedBy(l, i, rules + [r], edge + more)
    ensures LookbackTo(l, start, ruleno, lookback[..], i, rules + [r])
  {
    hide Grammar.WellFormed, Grammar.Rhs, Grammar.RuleEnd, IsLR0, IsGotoMap, IsRowMap, LookbackTo, IncludedBy, InState;
    hide IsNullable, IncludedFrom, Walked, Lalr.LooksBack, IsRow;
    LookbackLength(l, start, ruleno, lookback[..], i, rules);
    GotoStartsRule(l, i, r);
    var states := WalkRule(l, l.m.from[i], r);
    WalkedLength(l, l.m.from[i], r, |l.g.Rhs(r)|, states);
    EndsInReduction(l, i, r, states);
    var stateno := states[|states| - 1];
    ghost var was := lookback[..];
    ghost var x := AddLookbackEdge(l, start, ruleno, lookback, stateno, r, i);
    LookbackMore(l, start, ruleno, was, i, rules, stateno, r, x);
    more := IncludesEdges(l, nullable, i, r, states);
    IncludedMore(l, i, rules, edge, r, more);
  }

  method RelationsOfGoto(l: Lalr, derives: seq<seq<nat>>, nullable: seq<bool>, start: seq<nat>, ruleno: seq<nat>,
                         lookback: array<seq<nat>>, i: nat) returns (edge: seq<nat>)
    requires l.Ok() && IsDerives(l.g, derives) && IsNullable(l.g, nullable) && i < |l.m.from|
    requires IsRowMap(l.a.reds, |l.a.reds|, start, ruleno) && LookbackTo(l, start, ruleno, lookback[..], i, [])
    modifies lookback
    ensures l.IsGoto(i) && forall j: nat :: j in edge <==> l.IncludesGoto(j, i)
    ensures LookbackTo(l, start, ruleno, lookback[..], i + 1, [])
  {
    l.NVarsFits();
    hide Grammar.WellFormed, Grammar.Rhs, IsLR0, IsGotoMap, IsRowMap, LookbackTo, IncludedBy, IsNullable,
         Lalr.IncludesGoto;
    l.GotoFacts(i);
    var symbol1 := l.a.cores[l.m.to[i]].access;
    var rules := derives[symbol1 - l.g.ntokens];
    assert RulesOf(l.g, symbol1 - l.g.ntokens, l.g.NRules(), rules);
    edge := [];
    NoneIncluded(l, i);
    assert rules[..0] == [];
    for k := 0 to |rules|
      invariant IncludedBy(l, i, rules[..k], edge)
      invariant LookbackTo(l, start, ruleno, lookback[..], i, rules[..k])
    {
      assert rules[k] in rules && rules[..k + 1] == rules[..k] + [rules[k]];
      var more := RelationsOfRule(l, nullable, start, ruleno, lookback, i, rules[..k], edge, rules[k]);
      edge := edge + more;
    }
    assert rules[..|rules|] == rules;
    AllRulesDone(l, start, ruleno, lookback[..], i, rules);
    AllIncluded(l, i, rules, edge);
  }

  lemma LookbackLength(l: Lalr, start: seq<nat>, ruleno: seq<nat>, lookback: seq<seq<nat>>, n: nat, rules: seq<nat>)
    requires l.g.WellFormed() && LookbackTo(l, start, ruleno, lookback, n, rules)
    ensures |lookback| == |ruleno|
  {}

  lemma NoneIncluded(l: Lalr, i: nat)
    requires l.g.WellFormed() && l.IsGoto(i)
    ensures IncludedBy(l, i, [], [])
  {}

  lemma AllRulesDone(l: Lalr, start: seq<nat>, ruleno: seq<nat>, lookback: seq<seq<nat>>, n: nat, rules: seq<nat>)
    requires l.g.WellFormed() && LookbackTo(l, start, ruleno, lookback, n, rules) && l.IsGoto(n)
    requires forall r: nat :: l.g.IsRule(r) && l.g.rlhs[r] == l.Sym(n) ==> r in rules
    ensures LookbackTo(l, start, ruleno, lookback, n + 1, [])
  {
    hide Grammar.WellFormed, Spells, Grammar.Rhs, IsRow;
  }

  lemma AllIncluded(l: Lalr, i: nat, rules: seq<nat>, edges: seq<nat>)
    requires l.g.WellFormed() && l.IsGoto(i) && IncludedBy(l, i, rules, edges)
    requires forall r: nat :: l.g.IsRule(r) && l.g.rlhs[r] == l.Sym(i) ==> r in rules
    ensures forall j: nat :: j in edges <==> l.IncludesGoto(j, i)
  {
    hide Grammar.WellFormed, Spells, Grammar.Rhs, Lalr.AllDeriveEmpty;
    forall j: nat | l.IncludesGoto(j, i) ensures j in edges {
      var r: nat, k: nat :| l.IncludesBy(j, i, r, k);
      assert k >= 0 && IncludedAt(l, i, j, r, 0);
    }
    forall j: nat | j in edges ensures l.IncludesGoto(j, i) {
      var r :| r in rules && IncludedAt(l, i, j, r, 0);
      var k: nat :| k >= 0 && l.IncludesBy(j, i, r, k);
    }
  }

  /** The includes relation, listed from the including goto, and the lookback lists. */
  method BuildRelations(l: Lalr, derives: seq<seq<nat>>, nullable: seq<bool>, start: seq<nat>, ruleno: seq<nat>)
    returns (includes: seq<seq<nat>>, lookback: seq<seq<nat>>)
    requires l.Ok() && IsDerives(l.g, derives) && IsNullable(l.g, nullable) &&
             IsRowMap(l.a.reds, |l.a.reds|, start, ruleno)
    ensures Lists(includes, |l.m.from|, l.Includes())
    ensures LookbackTo(l, start, ruleno, lookback, |l.m.from|, [])
  {
    hide Grammar.WellFormed, IsLR0, IsGotoMap, IsRowMap, IsDerives, IsNullable, LookbackTo, IncludedTo, Lists;
    var back := new seq<nat>[|ruleno|](_ => []);
    NoLookback(l, start, ruleno, back[..]);
    NoneIncludedYet(l);
    var included: seq<seq<nat>> := [];
    for i := 0 to |l.m.from|
      invariant IncludedTo(l, included, i) && LookbackTo(l, start, ruleno, back[..], i, [])
    {
      var edge := RelationsOfGoto(l, derives, nullable, start, ruleno, back, i);
      ListIncluded(l, included, i, edge);
      included := included + [edge];
    }
    IncludedInRange(l, included);
    includes := Transpose(included);
    TransposedLists(l, included, includes);
    lookback := back[..];
  }

  /** The lists of the first n gotos: the gotos that include each of them. */
  ghost predicate IncludedTo(l: Lalr, included: seq<seq<nat>>, n: nat)
    requires l.g.WellFormed()
  {
    |included| == n && forall k: nat, j: nat :: k < n ==> (j in included[k] <==> l.IncludesGoto(j, k))
  }

  lemma NoneIncludedYet(l: Lalr)
    requires l.g.WellFormed()
    ensures IncludedTo(l, [], 0)
  {}

  lemma ListIncluded(l: Lalr, included: seq<seq<nat>>, n: nat, edge: seq<nat>)
    requires l.g.WellFormed() && IncludedTo(l, included, n) && forall j: nat :: j in edge <==> l.IncludesGoto(j, n)
    ensures IncludedTo(l, included + [edge], n + 1)
  {
    hide Grammar.WellFormed, Lalr.IncludesGoto;
  }

  lemma NoLookback(l: Lalr, start: seq<nat>, ruleno: seq<nat>, lookback: seq<seq<nat>>)
    requires l.g.WellFormed() && |lookback| == |ruleno| && forall x :: 0 <= x < |lookback| ==> lookback[x] == []
    ensures LookbackTo(l, start, ruleno, lookback, 0, [])
  {}

  lemma IncludedInRange(l: Lalr, included: seq<seq<nat>>)
    requires l.Ok() && IncludedTo(l, included, |l.m.from|)
    ensures InRange(included) && |included| == |l.m.from| == |l.m.to|
  {
    GotosInRange(l);
    hide Grammar.WellFormed, IsLR0, IsGotoMap;
    forall i, k | 0 <= i < |included| && 0 <= k < |included[i]| ensures included[i][k] < |included| {
      assert l.IncludesGoto(included[i][k], i);
    }
  }

  lemma TransposedLists(l: Lalr, included: seq<seq<nat>>, includes: seq<seq<nat>>)
    requires l.g.WellFormed() && |included| == |includes| == |l.m.from| == |l.m.to| && InRange(includes)
    requires IncludedTo(l, included, |included|)
    requires forall i, j :: 0 <= i < |included| && 0 <= j < |included| ==>
               multiset(includes[j])[i] == multiset(included[i])[j]
    ensures Lists(includes, |l.m.from|, l.Includes())
  {
    hide Grammar.WellFormed, Lalr.IncludesBy;
    forall j: nat, i: nat | j < |includes| ensures i in includes[j] <==> l.Includes()(j, i) {
      if i < |included| {
        assert i in includes[j] <==> multiset(includes[j])[i] > 0;
        assert j in included[i] <==> multiset(included[i])[j] > 0;
      }
    }
  }

  // ----- compute_FOLLOWS and compute_lookaheads -----

  ghost predicate HoldsFollows(l: Lalr, f: seq<set<nat>>)
    requires l.g.WellFormed()
  {
    |f| == |l.m.from| && forall i: nat, t: nat :: i < |f| ==> (t in f[i] <==> l.Follow(i, t))
  }

  lemma FollowsFound(l: Lalr, R: seq<seq<nat>>, f1: seq<set<nat>>, i: nat, t: nat)
    requires l.Ok() && Lists(R, |f1|, l.Includes()) && HoldsReads(l, f1) && i < |f1|
    ensures Problem(R, f1).Gets(i, t) <==> l.Follow(i, t)
  {
    GotosInRange(l);
    hide Grammar.WellFormed, IsLR0, IsGotoMap, Reaches, Problem.Gets, Lalr.Read;
    GetsIsReach(R, f1, l.Includes(), i, t);
  }

  method ComputeFollows(l: Lalr, includes: seq<seq<nat>>, F: BitMatrix)
    requires l.Ok() && Lists(includes, |l.m.from|, l.Includes())
    requires F.Valid() && F.n == |l.m.from| && HoldsReads(l, F.Value())
    modifies F.words
    ensures HoldsFollows(l, F.Value())
  {
    hide Grammar.WellFormed, IsLR0, IsGotoMap, BitMatrix.Value, Problem.Gets, Lalr.Read, Lalr.Follow;
    ghost var f1 := F.Value();
    var d := new Digraph(includes, F);
    d.Run();
    forall i: nat, t: nat | i < |f1| ensures t in F.Value()[i] <==> l.Follow(i, t) {
      FollowsFound(l, includes, f1, i, t);
    }
  }

  /** Row x of LA, for the reduction by rule r in state q, is the LALR(1) lookahead set. */
  ghost predicate HoldsLookaheads(l: Lalr, start: seq<nat>, ruleno: seq<nat>, la: seq<set<nat>>)
    requires l.g.WellFormed()
  {
    |la| == |ruleno|
    && forall q: nat, x: nat, t: nat :: x < |la| && IsRow(start, ruleno, q, ruleno[x], x) && l.g.IsRule(ruleno[x]) ==>
         (t in la[x] <==> l.InLA(q, ruleno[x], t))
  }

  /** The union of the F rows of a lookback list. */
  ghost predicate UnionOf(f: seq<set<nat>>, list: seq<nat>, row: set<nat>)
  {
    forall t: nat :: t in row <==> exists i :: i in list && i < |f| && t in f[i]
  }

  lemma UnionMore(f: seq<set<nat>>, list: seq<nat>, i: nat, row: set<nat>)
    requires UnionOf(f, list, row) && i < |f|
    ensures UnionOf(f, list + [i], row + f[i])
  {}

  method OrLookback(F: BitMatrix, LA: BitMatrix, x: nat, list: seq<nat>)
    requires F.Valid() && LA.Valid() && F.w == LA.w && F.words != LA.words && x < LA.n
    requires (forall k :: 0 <= k < |list| ==> list[k] < F.n) && LA.Value()[x] == {}
    modifies LA.words
    ensures UnionOf(F.Value(), list, LA.Value()[x])
    ensures forall y :: 0 <= y < LA.n && y != x ==> LA.Value()[y] == old(LA.Value()[y])
  {
    hide BitMatrix.Value;
    for k := 0 to |list|
      invariant F.Value() == old(F.Value())
      invariant UnionOf(F.Value(), list[..k], LA.Value()[x])
      invariant forall y :: 0 <= y < LA.n && y != x ==> LA.Value()[y] == old(LA.Value()[y])
    {
      UnionMore(F.Value(), list[..k], list[k], LA.Value()[x]);
      assert list[..k + 1] == list[..k] + [list[k]];
      LA.OrRow(x, F, list[k]);
    }
    assert list[..|list|] == list;
  }

  /** Which state a row of LA belongs to. */
  lemma RowHasState(l: Lalr, start: seq<nat>, ruleno: seq<nat>, x: nat, n: nat) returns (q: nat)
    requires l.Ok() && IsRowMap(l.a.reds, |l.a.reds|, start, ruleno) && n <= |l.a.reds| && n < |start| && x < start[n]
    ensures IsRow(start, ruleno, q, ruleno[x], x) && q < |l.a.reds| && l.g.IsRule(ruleno[x]) && ruleno[x] in l.a.reds[q]
    decreases n
  {
    if start[n - 1] <= x {
      q := n - 1;
      assert RowsOf(l.a.reds[q], start[q], start[q + 1], ruleno);
      assert ruleno[start[q]..start[q + 1]][x - start[q]] == ruleno[x];
      assert RedsOf(l.g, l.a.cores[q].items, l.a.reds[q]);
    } else {
      q := RowHasState(l, start, ruleno, x, n - 1);
    }
  }

  lemma LookbackInRange(l: Lalr, start: seq<nat>, ruleno: seq<nat>, lookback: seq<seq<nat>>, x: nat)
    requires l.Ok() && IsRowMap(l.a.reds, |l.a.reds|, start, ruleno) && x < |lookback|
    requires LookbackTo(l, start, ruleno, lookback, |l.m.from|, [])
    ensures forall k :: 0 <= k < |lookback[x]| ==> lookback[x][k] < |l.m.from|
  {
    hide Grammar.WellFormed, IsLR0, IsGotoMap;
    var q := RowHasState(l, start, ruleno, x, |l.a.reds|);
    forall k | 0 <= k < |lookback[x]| ensures lookback[x][k] < |l.m.from| {
      assert lookback[x][k] in lookback[x];
    }
  }

  lemma LookaheadsFound(l: Lalr, start: seq<nat>, ruleno: seq<nat>, lookback: seq<seq<nat>>, f: seq<set<nat>>,
                        la: seq<set<nat>>)
    requires l.Ok() && LookbackTo(l, start, ruleno, lookback, |l.m.from|, []) && HoldsFollows(l, f)
    requires |la| == |lookback| && forall x :: 0 <= x < |la| ==> UnionOf(f, lookback[x], la[x])
    ensures HoldsLookaheads(l, start, ruleno, la)
  {
    hide Grammar.WellFormed, IsLR0, IsGotoMap, Spells, Lalr.Follow, Grammar.Rhs;
    forall q: nat, x: nat, t: nat | x < |la| && IsRow(start, ruleno, q, ruleno[x], x) && l.g.IsRule(ruleno[x])
      ensures t in la[x] <==> l.InLA(q, ruleno[x], t)
    {
      assert UnionOf(f, lookback[x], la[x]);
      if t in la[x] {
        var i: nat :| i in lookback[x] && i < |f| && t in f[i];
        assert l.LooksBack(q, ruleno[x], i) && l.Follow(i, t);
      }
      if l.InLA(q, ruleno[x], t) {
        var i: nat :| l.LooksBack(q, ruleno[x], i) && l.Follow(i, t);
        assert i in lookback[x];
      }
    }
  }

  method ComputeLookaheads(l: Lalr, start: seq<nat>, ruleno: seq<nat>, lookback: seq<seq<nat>>, F: BitMatrix)
    returns (LA: BitMatrix)
    requires l.Ok() && IsRowMap(l.a.reds, |l.a.reds|, start, ruleno)
    requires LookbackTo(l, start, ruleno, lookback, |l.m.from|, [])
    requires F.Valid() && F.n == |l.m.from| && F.w == WordSize(l.g.ntokens) && HoldsFollows(l, F.Value())
    ensures fresh(LA) && fresh(LA.words) && LA.Valid() && LA.n == |ruleno| && LA.bits == l.g.ntokens
    ensures HoldsLookaheads(l, start, ruleno, LA.Value())
  {
    hide Grammar.WellFormed, IsLR0, IsGotoMap, BitMatrix.Value, LookbackTo, IsRowMap, HoldsFollows, UnionOf,
         HoldsLookaheads;
    LookbackLength(l, start, ruleno, lookback, |l.m.from|, []);
    ghost var f := F.Value();
    LA := new BitMatrix(|ruleno|, l.g.ntokens);
    for x := 0 to |ruleno|
      invariant F.Value() == f
      invariant forall y :: 0 <= y < x ==> UnionOf(f, lookback[y], LA.Value()[y])
      invariant forall y :: x <= y < |ruleno| ==> LA.Value()[y] == {}
    {
      LookbackInRange(l, start, ruleno, lookback, x);
      OrLookback(F, LA, x, lookback[x]);
    }
    LookaheadsFound(l, start, ruleno, lookback, f, LA.Value());
  }

  /** lalr, after the automaton and its gotos: the LALR(1) lookahead set of every reduction. */
  method BuildLookaheads(l: Lalr, derives: seq<seq<nat>>, nullable: seq<bool>)
    returns (start: seq<nat>, ruleno: seq<nat>, LA: BitMatrix)
    requires l.Ok() && IsDerives(l.g, derives) && IsNullable(l.g, nullable)
    ensures fresh(LA) && fresh(LA.words) && LA.Valid() && LA.n == |ruleno| && LA.bits == l.g.ntokens
    ensures IsRowMap(l.a.reds, |l.a.reds|, start, ruleno) && HoldsLookaheads(l, start, ruleno, LA.Value())
  {
    hide Grammar.WellFormed, IsLR0, IsGotoMap, BitMatrix.Value, IsDerives, IsNullable, LookbackTo, IsRowMap, HoldsReads,
         HoldsFollows, HoldsLookaheads, Lists;
    start, ruleno := InitializeLA(l.a.reds);
    var F := InitializeF(l, nullable);
    var includes, lookback := BuildRelations(l, derives, nullable, start, ruleno);
    ComputeFollows(l, includes, F);
    LA := ComputeLookaheads(l, start, ruleno, lookback, F);
  }
}
