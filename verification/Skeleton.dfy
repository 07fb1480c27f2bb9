/** skeleton.c: the parser that reads the tables.  One turn of the loop at yyloop is Step; Parse
    is the loop itself. */
module Skeleton {
  import opened Output
  import opened Packing

  /** Broken: an index outside its table or a pop below the bottom of the stack. */
  datatype Outcome = Running | Accepted | Rejected | Broken

  /** yychar is negative when no token has been read ahead; next counts the calls of yylex. */
  datatype Config = Config(stack: seq<nat>, yychar: int, next: nat, outcome: Outcome)

  const YYEMPTY := -1

  /** Call i of yylex; after the last token it keeps returning 0, and negative values count as 0. */
  function Lex(input: seq<int>, i: nat): (t: int)
    ensures t >= 0
  {
    if i < |input| && input[i] > 0 then input[i] else 0
  }

  function Start(): Config { Config([0], YYEMPTY, 0, Running) }

  function Read(input: seq<int>, c: Config): Config
  {
    if c.yychar < 0 then c.(yychar := Lex(input, c.next), next := c.next + 1) else c
  }

  /** The label yyreduce. */
  function Reduce(t: Tables, input: seq<int>, c: Config, yyn: int): Config
    requires |t.table| == |t.check| && |t.gindex| == |t.dgoto|
  {
    if !(0 <= yyn < |t.len| && yyn < |t.lhs| && t.len[yyn] < |c.stack|) then c.(outcome := Broken)
    else
      var stack := c.stack[..|c.stack| - t.len[yyn]];
      var state, lhs := stack[|stack| - 1], t.lhs[yyn];
      if state == 0 && lhs == 0 then
        var c1 := Read(input, c.(stack := stack + [t.final]));
        if c1.yychar == 0 then c1.(outcome := Accepted) else c1
      else if 0 <= lhs < |t.gindex| && t.GotoOf(state, lhs) >= 0 then
        c.(stack := stack + [t.GotoOf(state, lhs)])
      else
        c.(outcome := Broken)
  }

  /** From one pass through yyloop to the next. */
  function Step(t: Tables, input: seq<int>, c: Config): Config
    requires |t.table| == |t.check| && |t.gindex| == |t.dgoto|
  {
    if c.outcome != Running then c
    else if |c.stack| == 0 || !(c.stack[|c.stack| - 1] < |t.defred| && c.stack[|c.stack| - 1] < |t.sindex| &&
                                c.stack[|c.stack| - 1] < |t.rindex|)
    then c.(outcome := Broken)
    else
      var yystate := c.stack[|c.stack| - 1];
      if t.defred[yystate] != 0 then Reduce(t, input, c, t.defred[yystate])
      else
        var c1 := Read(input, c);
        match Lookup(t.sindex[yystate], t.table, t.check, c1.yychar)
        case Some(u) => if u >= 0 then c1.(stack := c1.stack + [u], yychar := YYEMPTY) else c1.(outcome := Broken)
        case None =>
          match Lookup(t.rindex[yystate], t.table, t.check, c1.yychar)
          case Some(r) => Reduce(t, input, c1, r)
          case None => c1.(outcome := Rejected)
  }

  /** The rule that this turn reduces by, as the tables number it; 0 when it does not reduce. */
  function Chosen(t: Tables, input: seq<int>, c: Config): int
    requires |t.table| == |t.check|
  {
    if c.outcome != Running || c.stack == [] then 0
    else
      var yystate := c.stack[|c.stack| - 1];
      if !(yystate < |t.defred| && yystate < |t.sindex| && yystate < |t.rindex|) then 0
      else if t.defred[yystate] != 0 then t.defred[yystate]
      else
        var yychar := Read(input, c).yychar;
        if Lookup(t.sindex[yystate], t.table, t.check, yychar).Some? then 0
        else
          match Lookup(t.rindex[yystate], t.table, t.check, yychar)
          case Some(r) => r
          case None => 0
  }

  function Run(t: Tables, input: seq<int>, c: Config, n: nat): Config
    requires |t.table| == |t.check| && |t.gindex| == |t.dgoto|
    decreases n
  {
    if n == 0 then c else Run(t, input, Step(t, input, c), n - 1)
  }

  lemma {:induction false} RunOn(t: Tables, input: seq<int>, c: Config, m: nat, n: nat)
    requires |t.table| == |t.check| && |t.gindex| == |t.dgoto|
    ensures Run(t, input, c, m + n) == Run(t, input, Run(t, input, c, m), n)
    decreases m
  {
    hide Step;
    if m > 0 { RunOn(t, input, Step(t, input, c), m - 1, n); }
  }

  lemma {:induction false} StoppedStays(t: Tables, input: seq<int>, c: Config, n: nat)
    requires |t.table| == |t.check| && |t.gindex| == |t.dgoto| && c.outcome != Running
    ensures Run(t, input, c, n) == c
    decreases n
  {
    if n > 0 { StoppedStays(t, input, c, n - 1); }
  }

  lemma {:induction false} RunLast(t: Tables, input: seq<int>, c: Config, n: nat)
    requires |t.table| == |t.check| && |t.gindex| == |t.dgoto|
    ensures Run(t, input, c, n + 1) == Step(t, input, Run(t, input, c, n))
    decreases n
  {
    if n > 0 { RunLast(t, input, Step(t, input, c), n - 1); }
  }

  /** yyparse, stopped after at most fuel passes through yyloop.  On a syntax error it gives up
      instead of trying to recover. */
  method Parse(t: Tables, input: seq<int>, fuel: nat) returns (c: Config)
    requires |t.table| == |t.check| && |t.gindex| == |t.dgoto|
    ensures c == Run(t, input, Start(), fuel)
  {
    var s: seq<nat> := [0];
    var yychar: int := YYEMPTY;
    var next: nat, outcome := 0, Running;
    for i := 0 to fuel
      invariant s != [] && outcome == Running
      invariant Config(s, yychar, next, Running) == Run(t, input, Start(), i)
    {
      hide Run, Step;
      RunLast(t, input, Start(), i);
      s, yychar, next, outcome := YyLoop(t, input, s, yychar, next);
      if outcome != Running {
        c := Config(s, yychar, next, outcome);
        Finish(t, input, i + 1, fuel);
        return;
      }
    }
    c := Config(s, yychar, next, Running);
  }

  /** From yyloop to the next time it is reached, or to the end. */
  method YyLoop(t: Tables, input: seq<int>, stack: seq<nat>, yychar0: int, next0: nat)
    returns (s: seq<nat>, yychar: int, next: nat, outcome: Outcome)
    requires |t.table| == |t.check| && |t.gindex| == |t.dgoto| && stack != []
    ensures Config(s, yychar, next, outcome) == Step(t, input, Config(stack, yychar0, next0, Running))
    ensures s != []
  {
    hide Reduce, Lookup;
    s, yychar, next, outcome := stack, yychar0, next0, Running;
    var yystate := s[|s| - 1];
    if !(yystate < |t.defred| && yystate < |t.sindex| && yystate < |t.rindex|) {
      outcome := Broken;
      return;
    }
    var yyn := t.defred[yystate];
    if yyn == 0 {
      if yychar < 0 {
        yychar := Lex(input, next);
        next := next + 1;
      }
      var shift := Lookup(t.sindex[yystate], t.table, t.check, yychar);
      if shift.Some? {
        if shift.value < 0 {
          outcome := Broken;
        } else {
          s := s + [shift.value];
          yychar := YYEMPTY;
        }
        return;
      }
      var reduce := Lookup(t.rindex[yystate], t.table, t.check, yychar);
      if reduce.None? {
        outcome := Rejected;
        return;
      }
      yyn := reduce.value;
    }
    s, yychar, next, outcome := YyReduce(t, input, s, yychar, next, yyn);
  }

  lemma Finish(t: Tables, input: seq<int>, i: nat, fuel: nat)
    requires |t.table| == |t.check| && |t.gindex| == |t.dgoto| && i <= fuel &&
             Run(t, input, Start(), i).outcome != Running
    ensures Run(t, input, Start(), fuel) == Run(t, input, Start(), i)
  {
    RunOn(t, input, Start(), i, fuel - i);
    StoppedStays(t, input, Run(t, input, Start(), i), fuel - i);
  }

  /** From yyreduce back to yyloop, or to yyaccept. */
  method YyReduce(t: Tables, input: seq<int>, stack: seq<nat>, yychar0: int, next0: nat, yyn: int)
    returns (s: seq<nat>, yychar: int, next: nat, outcome: Outcome)
    requires |t.table| == |t.check| && |t.gindex| == |t.dgoto| && stack != []
    ensures Config(s, yychar, next, outcome) == Reduce(t, input, Config(stack, yychar0, next0, Running), yyn)
    ensures s != []
  {
    s, yychar, next, outcome := stack, yychar0, next0, Running;
    if !(0 <= yyn < |t.len| && yyn < |t.lhs| && t.len[yyn] < |s|) {
      outcome := Broken;
      return;
    }
    var yym := t.len[yyn];
    s := s[..|s| - yym];
    var yystate := s[|s| - 1];
    var lhs := t.lhs[yyn];
    if yystate == 0 && lhs == 0 {
      s := s + [t.final];
      if yychar < 0 {
        yychar := Lex(input, next);
        next := next + 1;
      }
      if yychar == 0 {
        outcome := Accepted;
      }
      return;
    }
    if !(0 <= lhs < |t.gindex|) {
      s := stack;
      outcome := Broken;
      return;
    }
    var found := Lookup(t.gindex[lhs], t.table, t.check, yystate);
    var target: int;
    if found.Some? {
      target := found.value;
    } else {
      target := t.dgoto[lhs];
    }
    if target < 0 {
      s := stack;
      outcome := Broken;
      return;
    }
    s := s + [target];
  }
}
