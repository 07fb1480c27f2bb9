/** What the derivation that the parser has built says of the turns by which it was built: every
    token was shifted by an action that was not suppressed, and every rule applied by default or by
    one on the token that comes next. */
module Trace {
  import opened Automata
  import opened Cfgs
  import opened Grammars
  import opened Lookaheads
  import opened Mkpar
  import opened Output
  import opened Packing
  import opened Paths
  import opened Skeleton
  import opened Soundness
  import opened Vectors

  // ----- the states along a derivation -----

  /** The state that s goes to over symbol y, 0 when there is none. */
  ghost function Go(a: Automaton, s: nat, y: nat): nat
  {
    if exists t: nat :: Shift(a, s, y, t) then
      var t: nat :| Shift(a, s, y, t);
      t
    else 0
  }

  ghost function GoAll(a: Automaton, s: nat, symbols: seq<nat>): nat
    decreases |symbols|
  {
    if symbols == [] then s else GoAll(a, Go(a, s, symbols[0]), symbols[1..])
  }

  lemma GoIs(g: Grammar, a: Automaton, s: nat, y: nat, t: nat)
    requires g.WellFormed() && IsLR0(g, a) && Shift(a, s, y, t)
    ensures Go(a, s, y) == t
  {
    hide Grammar.WellFormed, IsLR0, Shift;
    ShiftUnique(g, a, s, y, t, Go(a, s, y));
  }

  lemma {:induction false} GoAllJoin(a: Automaton, s: nat, u: seq<nat>, v: seq<nat>)
    ensures GoAll(a, s, u + v) == GoAll(a, GoAll(a, s, u), v)
    decreases |u|
  {
    if u == [] {
      assert u + v == v;
    } else {
      GoAllJoin(a, Go(a, s, u[0]), u[1..], v);
      assert (u + v)[1..] == u[1..] + v;
    }
  }

  lemma {:induction false} GoAllPath(g: Grammar, a: Automaton, stack: seq<nat>, symbols: seq<nat>, n: nat)
    requires g.WellFormed() && IsLR0(g, a) && IsPath(a, stack, symbols) && n <= |symbols|
    ensures GoAll(a, 0, symbols[..n]) == stack[n]
  {
    hide Grammar.WellFormed, IsLR0, Shift;
    if n > 0 {
      GoAllPath(g, a, stack, symbols, n - 1);
      assert symbols[..n] == symbols[..n - 1] + [symbols[n - 1]];
      GoAllJoin(a, 0, symbols[..n - 1], [symbols[n - 1]]);
      GoIs(g, a, stack[n - 1], symbols[n - 1], stack[n]);
      assert [symbols[n - 1]][1..] == [];
    }
  }

  lemma {:induction false} GoAllSpells(g: Grammar, a: Automaton, p: nat, symbols: seq<nat>, q: nat)
    requires g.WellFormed() && IsLR0(g, a) && Spells(a, p, symbols, q)
    ensures GoAll(a, p, symbols) == q
    decreases |symbols|
  {
    hide Grammar.WellFormed, IsLR0, Shift;
    if symbols != [] {
      var n := |symbols| - 1;
      var m: nat :| Spells(a, p, symbols[..n], m) && Shift(a, m, symbols[n], q);
      GoAllSpells(g, a, p, symbols[..n], m);
      assert symbols == symbols[..n] + [symbols[n]];
      GoAllJoin(a, p, symbols[..n], [symbols[n]]);
      GoIs(g, a, m, symbols[n], q);
      assert [symbols[n]][1..] == [];
    }
  }

  // ----- the actions along a derivation -----

  /** The number of the token after d's place: the first of d, or else y, which is negative when it
      has not been read. */
  ghost function Coming(x: Generated, d: Forest, y: int): int
  {
    if d.Yield() == [] then y else if d.Yield()[0] < |x.value| then x.value[d.Yield()[0]] else -1
  }

  ghost predicate MayShift(x: Generated, s: nat, t: nat)
  {
    s < |x.p.rows| && exists u: nat :: Live(x.p.rows[s], t, SHIFT, u)
  }

  /** State q reduces by rule r, by default or on the token numbered y. */
  ghost predicate MayReduce(x: Generated, q: nat, r: nat, y: int)
  {
    && q < |x.p.rows| == |x.p.defred|
    && (x.p.defred[q] == r || exists j: nat :: j < |x.value| && x.value[j] == y && Live(x.p.rows[q], j, REDUCE, r))
  }

  /** d was built from state p on, with the token numbered y coming next. */
  ghost predicate WasBuilt(x: Generated, p: nat, d: Forest, y: int)
    requires x.l.g.WellFormed()
    decreases d
  {
    match d
    case Done => true
    case Tok(t, rest) => MayShift(x, p, t) && WasBuilt(x, Go(x.l.a, p, t), rest, y)
    case Var(r, sub, rest) =>
      && x.l.g.IsRule(r) && r >= 3 && InState(x.l.g, x.l.a, p, x.l.g.rrhs[r])
      && MayReduce(x, GoAll(x.l.a, p, sub.Form(x.Cfg())), r, Coming(x, rest, y))
      && WasBuilt(x, p, sub, Coming(x, rest, y)) && WasBuilt(x, Go(x.l.a, p, x.l.g.rlhs[r]), rest, y)
  }

  lemma {:induction false} YieldJoin(a: Forest, b: Forest)
    ensures a.Join(b).Yield() == a.Yield() + b.Yield()
  {
    match a
    case Done =>
    case Tok(t, rest) =>
      YieldJoin(rest, b);
      Regroup([t], rest.Yield(), b.Yield());
    case Var(_, sub, rest) =>
      YieldJoin(rest, b);
      Regroup(sub.Yield(), rest.Yield(), b.Yield());
  }

  lemma ComingJoin(x: Generated, a: Forest, b: Forest, y: int)
    ensures Coming(x, a.Join(b), y) == Coming(x, a, Coming(x, b, y))
  {
    YieldJoin(a, b);
  }

  /** A derivation that goes on was built by building its parts, one after the other. */
  lemma {:induction false} BuiltJoin(x: Generated, p: nat, a: Forest, b: Forest, y: int)
    requires x.l.g.WellFormed() && a.Valid(x.Cfg())
    ensures WasBuilt(x, p, a.Join(b), y) <==>
            WasBuilt(x, p, a, Coming(x, b, y)) && WasBuilt(x, GoAll(x.l.a, p, a.Form(x.Cfg())), b, y)
    decreases a
  {
    hide Grammar.WellFormed, Go, Coming, MayShift, MayReduce, InState;
    match a
    case Done =>
    case Tok(t, rest) =>
      BuiltJoin(x, Go(x.l.a, p, t), rest, b, y);
      assert a.Form(x.Cfg())[0] == t && a.Form(x.Cfg())[1..] == rest.Form(x.Cfg());
    case Var(r, sub, rest) =>
      ComingJoin(x, rest, b, y);
      if x.l.g.IsRule(r) && r >= 3 {
        BuiltJoin(x, Go(x.l.a, p, x.l.g.rlhs[r]), rest, b, y);
        x.l.g.UnpackedRule(r);
        assert a.Form(x.Cfg())[0] == x.l.g.rlhs[r] && a.Form(x.Cfg())[1..] == rest.Form(x.Cfg());
      }
  }

  /** What could be done without looking ahead could be done before any token. */
  lemma {:induction false} BuiltBefore(x: Generated, p: nat, d: Forest, y0: int, y: int)
    requires x.l.g.WellFormed() && y0 < 0 && WasBuilt(x, p, d, y0)
    ensures WasBuilt(x, p, d, y)
    decreases d
  {
    hide Grammar.WellFormed, Go, GoAll, MayShift, InState, Live;
    match d
    case Done =>
    case Tok(t, rest) => BuiltBefore(x, Go(x.l.a, p, t), rest, y0, y);
    case Var(r, sub, rest) =>
      BuiltBefore(x, Go(x.l.a, p, x.l.g.rlhs[r]), rest, y0, y);
      if rest.Yield() == [] { BuiltBefore(x, p, sub, y0, y); }
  }

  // ----- one turn -----

  lemma ReduceLive(x: Generated, s: nat, yychar: nat, y: int)
    requires x.Ok() && s < |x.l.a.cores| && |x.t.table| == |x.t.check| && s < |x.t.rindex|
    requires Lookup(x.t.rindex[s], x.t.table, x.t.check, yychar) == Some(y)
    ensures y >= 1 && MayReduce(x, s, y + 2, yychar)
  {
    hide Generated.Ok, Grammar.WellFormed, Lookup, Live;
    ReduceFound(x, s, yychar, y);
    TablesSay(x);
    assert ReduceEntry(x.p.rows[s], x.value, x.p.defred[s], yychar, y);
  }

  lemma ShiftLive(x: Generated, s: nat, yychar: nat, u: int, j: nat)
    requires x.Ok() && s < |x.l.a.cores| && |x.t.table| == |x.t.check| && s < |x.t.sindex|
    requires Lookup(x.t.sindex[s], x.t.table, x.t.check, yychar) == Some(u)
    requires j < |x.value| && x.value[j] == yychar
    ensures MayShift(x, s, j)
  {
    hide Generated.Ok, Grammar.WellFormed, Lookup, Live;
    TablesSay(x);
    assert ShiftEntry(x.p.rows[s], x.value, yychar, u);
    var i: nat, n: nat :| i < |x.value| && x.value[i] == yychar && n == u && Live(x.p.rows[s], i, SHIFT, n);
    if i < j { ValuesDiffer(x, i, j); }
    if j < i { ValuesDiffer(x, j, i); }
  }

  lemma DefaultMay(x: Generated, s: nat, y: int)
    requires x.Ok() && s < |x.l.a.cores| && s < |x.t.defred| && x.t.defred[s] != 0
    ensures MayReduce(x, s, x.t.defred[s] + 2, y) && x.t.defred[s] >= 1
  {
    Soundness.DefaultFound(x, s);
    TablesSay(x);
    assert x.t.defred[s] == OutputRule(x.p.defred[s]) by { hide Lalr.Ok, IsParser, RowsAgree, GotosAgree; }
    hide Generated.Ok, Live;
  }

  /** Reducing builds a node over what is on top of the stack. */
  lemma FoldBuilt(x: Generated, input: seq<int>, c: Config, d: Forest, y: nat)
    requires x.Ok() && Inv(x, input, c, d) && |x.t.table| == |x.t.check| && |x.t.gindex| == |x.t.dgoto|
    requires y >= 1 && x.l.g.IsRule(y + 2) && TopReduces(x.l.a, c.stack, y + 2) && WasBuilt(x, 0, d, c.yychar)
    requires c.stack != [] && MayReduce(x, c.stack[|c.stack| - 1], y + 2, c.yychar)
    ensures y < |x.t.len| && x.t.len[y] <= d.Length()
    ensures WasBuilt(x, 0, d.Fold(d.Length() - x.t.len[y], x.t.len[y], y + 2), c.yychar)
  {
    hide Generated.Ok, Lalr.Ok, Grammar.WellFormed, IsLR0, Grammar.Rhs, Grammar.Unpacked, IsPath, Consumed, Go, GoAll,
         Forest.Valid, Forest.Form, Forest.Yield, Forest.Length, MayReduce, InState, WasBuilt;
    Parts(x);
    RuleFound(x, y);
    var g, a, symbols := x.l.g, x.l.a, d.Form(x.Cfg());
    PathSize(a, c.stack, symbols);
    var m, n := |g.Rhs(y + 2)|, |symbols|;
    TopSpells(x, c.stack, symbols, y + 2);
    d.LengthIs(x.Cfg());
    d.Split(x.Cfg(), n - m);
    var front, back := d.Take(n - m), d.Drop(n - m);
    assert back.Form(x.Cfg()) == g.Rhs(y + 2);
    GoAllPath(g, a, c.stack, symbols, n - m);
    GoAllPath(g, a, c.stack, symbols, n);
    assert symbols[..n] == symbols && symbols == symbols[..n - m] + symbols[n - m..];
    GoAllJoin(a, 0, symbols[..n - m], symbols[n - m..]);
    BuiltJoin(x, 0, front, back, c.yychar);
    back.LengthIs(x.Cfg());
    TakeAll(back);
    NodeBuilt(x, c.stack[n - m], y + 2, back, c.yychar);
    var node := Var(y + 2, back, Done);
    assert Coming(x, node, c.yychar) == Coming(x, back, c.yychar) by { NodeComes(x, y + 2, back, c.yychar); }
    BuiltJoin(x, 0, front, node, c.yychar);
    assert d.Fold(n - m, m, y + 2) == front.Join(node);
  }

  lemma TopSpells(x: Generated, stack: seq<nat>, symbols: seq<nat>, r: nat)
    requires x.Ok() && IsPath(x.l.a, stack, symbols) && x.l.g.IsRule(r) && r >= 3 && TopReduces(x.l.a, stack, r)
    ensures x.l.g.WellFormed()
    ensures var m, n := |x.l.g.Rhs(r)|, |symbols|;
            && |stack| == n + 1 && m <= n && symbols[n - m..] == x.l.g.Rhs(r)
            && InState(x.l.g, x.l.a, stack[n - m], x.l.g.rrhs[r])
  {
    hide Generated.Ok, Lalr.Ok, Grammar.WellFormed, IsLR0, InState;
    Parts(x);
    PathSize(x.l.a, stack, symbols);
    hide IsPath;
    var top := stack[|symbols|];
    PathState(x.l.g, x.l.a, stack, symbols, |symbols|);
    ReducesWhenComplete(x.l.g, x.l.a, top, r);
    WalkBack(x.l.g, x.l.a, stack, symbols, r, |x.l.g.Rhs(r)|);
    assert x.l.g.Rhs(r)[..|x.l.g.Rhs(r)|] == x.l.g.Rhs(r);
  }

  lemma {:induction false} TakeAll(d: Forest)
    ensures d.Take(d.Length()) == d && d.Drop(d.Length()) == Done
  {
    match d
    case Done =>
    case Tok(_, rest) => TakeAll(rest);
    case Var(_, _, rest) => TakeAll(rest);
  }

  lemma NodeComes(x: Generated, r: nat, sub: Forest, y: int)
    ensures Coming(x, Var(r, sub, Done), y) == Coming(x, sub, y)
  {
    assert Done.Yield() == [];
    assert Var(r, sub, Done).Yield() == sub.Yield() + Done.Yield() == sub.Yield();
  }

  lemma NodeBuilt(x: Generated, p: nat, r: nat, sub: Forest, y: int)
    requires x.l.g.WellFormed() && x.l.g.IsRule(r) && r >= 3 && InState(x.l.g, x.l.a, p, x.l.g.rrhs[r])
    requires WasBuilt(x, p, sub, y) && MayReduce(x, GoAll(x.l.a, p, sub.Form(x.Cfg())), r, y)
    ensures WasBuilt(x, p, Var(r, sub, Done), y)
  {
    assert Done.Yield() == [] && Coming(x, Done, y) == y;
    hide Grammar.WellFormed, MayReduce, InState, Go, GoAll, Forest.Form, Forest.Yield;
  }

  lemma ReduceReads(t: Tables, input: seq<int>, c: Config, y: int)
    requires |t.table| == |t.check| && |t.gindex| == |t.dgoto|
    ensures Reduce(t, input, c, y).yychar == c.yychar || c.yychar < 0
  {}

  lemma ReduceBuilds(x: Generated, input: seq<int>, c: Config, d: Forest, y: nat)
    requires x.Ok() && Inv(x, input, c, d) && |x.t.table| == |x.t.check| && |x.t.gindex| == |x.t.dgoto|
    requires y >= 1 && x.l.g.IsRule(y + 2) && TopReduces(x.l.a, c.stack, y + 2) && WasBuilt(x, 0, d, c.yychar)
    requires c.stack != [] && MayReduce(x, c.stack[|c.stack| - 1], y + 2, c.yychar)
    ensures y < |x.t.len| && x.t.len[y] <= d.Length()
    ensures WasBuilt(x, 0, d.Fold(d.Length() - x.t.len[y], x.t.len[y], y + 2), Reduce(x.t, input, c, y).yychar)
  {
    hide Generated.Ok, Lalr.Ok, Inv, Grammar.WellFormed, WasBuilt, MayReduce, TopReduces, Reduce, Forest.Fold,
         Forest.Length;
    Parts(x);
    FoldBuilt(x, input, c, d, y);
    ReduceReads(x.t, input, c, y);
    if c.yychar < 0 {
      BuiltBefore(x, 0, d.Fold(d.Length() - x.t.len[y], x.t.len[y], y + 2), c.yychar,
        Reduce(x.t, input, c, y).yychar);
    }
  }

  lemma PushBuilt(x: Generated, input: seq<int>, c: Config, d: Forest, j: nat, u: nat)
    requires x.Ok() && Inv(x, input, c, d) && WasBuilt(x, 0, d, c.yychar) && c.stack != []
    requires j < |x.value| && x.value[j] == c.yychar && MayShift(x, c.stack[|c.stack| - 1], j)
    ensures WasBuilt(x, 0, d.Join(Tok(j, Done)), YYEMPTY)
  {
    hide Generated.Ok, Lalr.Ok, Grammar.WellFormed, IsLR0, Grammar.Unpacked, IsPath, Consumed, Go, GoAll, Forest.Valid,
         Forest.Form, MayShift, InState;
    Parts(x);
    var symbols := d.Form(x.Cfg());
    PathSize(x.l.a, c.stack, symbols);
    GoAllPath(x.l.g, x.l.a, c.stack, symbols, |symbols|);
    assert symbols[..|symbols|] == symbols;
    var tok := Tok(j, Done);
    assert Done.Yield() == [] && tok.Yield() == [j] + Done.Yield();
    assert Coming(x, tok, YYEMPTY) == c.yychar;
    BuiltJoin(x, 0, d, tok, YYEMPTY);
  }

  /** One turn goes on building. */
  lemma StepBuilds(x: Generated, input: seq<int>, c: Config, d: Forest)
    requires x.Ok() && Inv(x, input, c, d) && c.outcome == Running && |x.t.table| == |x.t.check| &&
             |x.t.gindex| == |x.t.dgoto|
    requires WasBuilt(x, 0, d, c.yychar)
    ensures WasBuilt(x, 0, Next(x.t, x.value, input, c, d), Step(x.t, input, c).yychar)
  {
    hide Generated.Ok, Lalr.Ok, Grammar.WellFormed, IsLR0, Grammar.Unpacked, Lookup, Reduce, IsPath, Consumed,
         Forest.Valid, Forest.Form, Forest.Yield, Forest.Fold, Forest.Join, Forest.Length, TokenOf, WasBuilt, MayReduce,
         MayShift;
    Parts(x);
    Sizes(x);
    PathSize(x.l.a, c.stack, d.Form(x.Cfg()));
    var n, s := |d.Yield()|, c.stack[|c.stack| - 1];
    PathState(x.l.g, x.l.a, c.stack, d.Form(x.Cfg()), |c.stack| - 1);
    if x.t.defred[s] != 0 {
      Soundness.DefaultFound(x, s);
      DefaultMay(x, s, c.yychar);
      ReduceBuilds(x, input, c, d, x.t.defred[s]);
    } else {
      ReadAhead(input, c, n);
      var c1 := Read(input, c);
      assert Inv(x, input, c1, d);
      ReadBuilds(x, input, c, d);
      var shift, reduce := Lookup(x.t.sindex[s], x.t.table, x.t.check, c1.yychar),
        Lookup(x.t.rindex[s], x.t.table, x.t.check, c1.yychar);
      if shift.Some? {
        var j := ShiftFound(x, s, c1.yychar, shift.value);
        ShiftLive(x, s, c1.yychar, shift.value, j);
        ShiftKeeps(x, input, c1, d, j, shift.value);
        PushBuilt(x, input, c1, d, j, shift.value);
      } else if reduce.Some? {
        ReduceFound(x, s, c1.yychar, reduce.value);
        ReduceLive(x, s, c1.yychar, reduce.value);
        ReduceBuilds(x, input, c1, d, reduce.value);
      }
    }
  }

  lemma ReadBuilds(x: Generated, input: seq<int>, c: Config, d: Forest)
    requires x.Ok() && x.l.g.WellFormed() && WasBuilt(x, 0, d, c.yychar)
    ensures WasBuilt(x, 0, d, Read(input, c).yychar)
  {
    Parts(x);
    hide Generated.Ok, WasBuilt;
    if c.yychar < 0 { BuiltBefore(x, 0, d, c.yychar, Read(input, c).yychar); }
  }

  /** Every run builds its derivation in this way. */
  lemma {:induction false} RunBuilds(x: Generated, input: seq<int>, n: nat)
    requires x.Ok() && x.l.g.WellFormed() && |x.t.table| == |x.t.check| && |x.t.gindex| == |x.t.dgoto|
    ensures WasBuilt(x, 0, Built(x.t, x.value, input, Start(), Done, n), Run(x.t, input, Start(), n).yychar)
    decreases n
  {
    hide Generated.Ok, Grammar.WellFormed, WasBuilt, Step, Next, Inv;
    if n == 0 {
      NothingBuilt(x, input);
    } else {
      RunBuilds(x, input, n - 1);
      RunsAreSafe(x, input, n - 1);
      RunLast(x.t, input, Start(), n - 1);
      BuiltLast(x.t, x.value, input, Start(), Done, n - 1);
      var c, d := Run(x.t, input, Start(), n - 1), Built(x.t, x.value, input, Start(), Done, n - 1);
      if c.outcome == Running { StepBuilds(x, input, c, d); } else { NoMore(x.t, x.value, input, c, d); }
    }
  }

  lemma NothingBuilt(x: Generated, input: seq<int>)
    requires x.l.g.WellFormed() && |x.t.table| == |x.t.check| && |x.t.gindex| == |x.t.dgoto|
    ensures WasBuilt(x, 0, Built(x.t, x.value, input, Start(), Done, 0), Run(x.t, input, Start(), 0).yychar)
  {}

  lemma NoMore(t: Tables, value: seq<nat>, input: seq<int>, c: Config, d: Forest)
    requires |t.table| == |t.check| && |t.gindex| == |t.dgoto| && c.outcome != Running
    ensures Step(t, input, c) == c && Next(t, value, input, c, d) == d
  {}

  lemma {:induction false} BuiltLast(t: Tables, value: seq<nat>, input: seq<int>, c: Config, d: Forest, n: nat)
    requires |t.table| == |t.check| && |t.gindex| == |t.dgoto|
    ensures Built(t, value, input, c, d, n + 1) ==
            Next(t, value, input, Run(t, input, c, n), Built(t, value, input, c, d, n))
    decreases n
  {
    if n > 0 { BuiltLast(t, value, input, Step(t, input, c), Next(t, value, input, c, d), n - 1); }
  }
}
