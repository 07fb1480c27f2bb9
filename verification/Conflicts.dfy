/** Who wins a conflict, in terms of the precedences and associativities of the actions alone. */
module Conflicts {
  import opened Mkpar

  /** Action q is one of those on the same token as p. */
  predicate Rival(row: seq<Action>, p: nat, q: nat)
  {
    p < |row| && q < |row| && row[p].symbol == row[q].symbol
  }

  /** Reduction q is on the token of p. */
  predicate RivalRule(row: seq<Action>, p: nat, q: nat) { Rival(row, p, q) && row[q].code.REDUCE? }

  /** The shift stands against the reduction: one of them has no precedence, or the shift has the
      higher one, or they have the same and the token groups to the right. */
  predicate Stands(s: Action, r: Action)
  {
    s.prec <= 0 || r.prec <= 0 || s.prec > r.prec || (s.prec == r.prec && s.assoc.RIGHT?)
  }

  /** The reduction takes the token: both have precedence, and the reduction has the higher one, or
      they have the same and the token groups to the left. */
  predicate Takes(r: Action, s: Action)
  {
    s.prec > 0 && r.prec > 0 && (r.prec > s.prec || (r.prec == s.prec && s.assoc.LEFT?))
  }

  predicate HavePrecedence(s: Action, r: Action) { s.prec > 0 && r.prec > 0 }

  /** A shift on a token where the parser does not accept. */
  predicate IsShiftAt(final: bool, row: seq<Action>, p: nat)
  {
    p < |row| && row[p].code.SHIFT? && !(final && row[p].symbol == 0)
  }

  lemma ShiftIsFirst(was: seq<Action>, p: nat, q: nat)
    requires InOrder(was) && Rival(was, p, q) && was[p].code.SHIFT?
    ensures FirstOf(was, q) == p && (q != p ==> p < q && was[q].code.REDUCE?)
  {
    assert q != p ==> p < q && was[q].code.REDUCE?;
    SameGroup(was, p, q);
    assert FirstOf(was, p) == p;
  }

  /** A shift stays exactly when it stands against every reduction on its token; otherwise it is
      removed by precedence. */
  lemma ShiftStays(final: bool, was: seq<Action>, row: seq<Action>, p: nat)
    requires InOrder(was) && Resolved(final, was, row, |was|) && |row| == |was| && IsShiftAt(final, was, p)
    ensures row[p].suppressed == 0 <==> forall q: nat :: RivalRule(was, p, q) ==> Stands(was[p], was[q])
    ensures row[p].suppressed == 0 || row[p].suppressed == 2
  {
    JudgedOne(final, was, row, p);
    ShiftIsFirst(was, p, p);
    hide Resolved, FirstOf, InOrder, Stands, Beats, Ties;
    if q: nat :| RivalRule(was, p, q) && !Stands(was[p], was[q]) {
      ShiftIsFirst(was, p, q);
      StandsIs(was[p], was[q]);
      assert BeatenBetween(was, p, p + 1, |was|) || TiedBetween(was, p, p + 1, |was|);
    }
    if BeatenBetween(was, p, p + 1, |was|) || TiedBetween(was, p, p + 1, |was|) {
      var q: nat :| p < q < |was| && was[q].symbol == was[p].symbol && (Beats(was[p], was[q]) || Ties(was[p], was[q]));
      ShiftIsFirst(was, p, q);
      StandsIs(was[p], was[q]);
      assert RivalRule(was, p, q);
    }
  }

  lemma StandsIs(s: Action, r: Action)
    ensures Stands(s, r) <==> !Beats(s, r) && !Ties(s, r)
  {}

  /** A reduction of a lower rule, or of the same, takes the token. */
  ghost predicate TakenTo(was: seq<Action>, p: nat, number: nat)
  {
    exists q: nat :: RivalRule(was, p, q) && was[q].number <= number && Takes(was[q], was[p])
  }

  /** Beside a shift a reduction stays exactly when it takes the token and no lower rule does; it is
      removed by precedence when both have one and no rule up to it takes the token; otherwise it
      has lost a conflict. */
  lemma ReductionStays(final: bool, was: seq<Action>, row: seq<Action>, p: nat, q: nat)
    requires InOrder(was) && Resolved(final, was, row, |was|) && |row| == |was| && IsShiftAt(final, was, p)
    requires RivalRule(was, p, q)
    ensures row[q].suppressed == 0 <==>
            Takes(was[q], was[p]) && forall j: nat :: RivalRule(was, p, j) && was[j].number < was[q].number ==>
              !Takes(was[j], was[p])
    ensures row[q].suppressed == 2 <==> HavePrecedence(was[p], was[q]) && !TakenTo(was, p, was[q].number)
    ensures row[q].suppressed in {0, 1, 2}
  {
    JudgedOne(final, was, row, q);
    ShiftIsFirst(was, p, q);
    BeatenIs(was, p, q);
    hide Resolved, FirstOf, InOrder;
    if TakenTo(was, p, was[q].number) && !Takes(was[q], was[p]) {
      var j: nat :| RivalRule(was, p, j) && was[j].number <= was[q].number && Takes(was[j], was[p]);
      SameRule(was, j, q);
    }
  }

  lemma SameRule(was: seq<Action>, j: nat, q: nat)
    requires j < |was| && q < |was| && was[j].symbol == was[q].symbol && was[j].code.REDUCE? && was[q].code.REDUCE?
    ensures InOrder(was) ==> (was[j].number < was[q].number <==> j < q)
  {
    if InOrder(was) {
      if j < q { assert Before(was[j], was[q]); }
      if q < j { assert Before(was[q], was[j]); }
    }
  }

  /** A reduction before q beats the shift exactly when a lower rule takes the token. */
  lemma BeatenIs(was: seq<Action>, p: nat, q: nat)
    requires InOrder(was) && RivalRule(was, p, q) && was[p].code.SHIFT?
    ensures BeatenBetween(was, p, p + 1, q) <==>
            exists j: nat :: RivalRule(was, p, j) && was[j].number < was[q].number && Takes(was[j], was[p])
  {
    if BeatenBetween(was, p, p + 1, q) {
      var j: nat :| p < j < q && was[j].symbol == was[p].symbol && Beats(was[p], was[j]);
      ShiftIsFirst(was, p, j);
      SameRule(was, j, q);
      assert RivalRule(was, p, j) && Takes(was[j], was[p]);
    }
    if j: nat :| RivalRule(was, p, j) && was[j].number < was[q].number && Takes(was[j], was[p]) {
      ShiftIsFirst(was, p, j);
      SameRule(was, j, q);
      assert Beats(was[p], was[j]);
    }
  }

  /** A shift against a single reduction. */
  lemma OneAgainstOne(final: bool, was: seq<Action>, row: seq<Action>, p: nat, q: nat)
    requires InOrder(was) && Resolved(final, was, row, |was|) && |row| == |was| && IsShiftAt(final, was, p)
    requires RivalRule(was, p, q) && forall j: nat :: RivalRule(was, p, j) ==> j == q
    ensures var s, r := was[p], was[q];
            (row[p].suppressed, row[q].suppressed) ==
            if s.prec <= 0 || r.prec <= 0 then (0, 1)
            else if s.prec > r.prec || (s.prec == r.prec && s.assoc.RIGHT?) then (0, 2)
            else if s.prec < r.prec || s.assoc.LEFT? then (2, 0)
            else (2, 2)
  {
    ShiftStays(final, was, row, p);
    ReductionStays(final, was, row, p, q);
    hide Resolved, InOrder;
  }

  /** Where the parser accepts, and on a token without a shift, the first action stays and all
      others have lost a conflict; and the first of several reductions is that of the lowest rule. */
  lemma FirstStays(final: bool, was: seq<Action>, row: seq<Action>, p: nat)
    requires InOrder(was) && Resolved(final, was, row, |was|) && p < |row| == |was|
    requires (final && was[p].symbol == 0) || forall q: nat :: Rival(was, p, q) ==> was[q].code.REDUCE?
    ensures row[p].suppressed == if forall q: nat :: Rival(was, p, q) ==> p <= q then 0 else 1
    ensures forall q: nat :: RivalRule(was, p, q) && was[p].code.REDUCE? ==>
              (p <= q <==> was[p].number <= was[q].number)
  {
    JudgedOne(final, was, row, p);
    hide Resolved;
    var f := FirstOf(was, p);
    assert Rival(was, p, f);
    forall q: nat | Rival(was, p, q) ensures f <= q {
      if q <= p { SameGroup(was, q, p); } else { SameGroup(was, p, q); }
    }
    forall q: nat | RivalRule(was, p, q) && was[p].code.REDUCE?
      ensures p <= q <==> was[p].number <= was[q].number
    {
      SameRule(was, p, q);
      SameRule(was, q, p);
    }
  }

  // ----- the counts -----

  /** How many of the first n actions have lost a conflict. */
  function LostOf(row: seq<Action>, n: nat): nat
    requires n <= |row|
  {
    if n == 0 then 0 else LostOf(row, n - 1) + if row[n - 1].suppressed == 1 then 1 else 0
  }

  lemma {:induction false} CountBoth(final: bool, row: seq<Action>, n: nat)
    requires n <= |row|
    ensures CountLost(final, row, row, n, true) + CountLost(final, row, row, n, false) == LostOf(row, n)
  {
    if n > 0 { CountBoth(final, row, n - 1); }
  }

  /** Every action that has lost a conflict is counted once. */
  lemma AllCounted(final: bool, row: seq<Action>)
    ensures Lost(final, row, true) + Lost(final, row, false) == LostOf(row, |row|)
  {
    CountBoth(final, row, |row|);
  }

  /** It is counted as lost to a shift where the parser accepts, and where there is a shift that no
      lower rule has taken the token from; and otherwise as lost to a reduction. */
  lemma CountedAs(final: bool, was: seq<Action>, row: seq<Action>, q: nat)
    requires InOrder(was) && Resolved(final, was, row, |was|) && q < |row| == |was| && was[q].code.REDUCE?
    ensures LosesToShift(final, was, q) <==>
            || (final && was[q].symbol == 0)
            || exists p: nat :: Rival(was, q, p) && was[p].code.SHIFT? && NoneBefore(was, p, was[q].number)
  {
    var f := FirstOf(was, q);
    hide Resolved;
    if p: nat :| Rival(was, q, p) && was[p].code.SHIFT? {
      ShiftIsFirst(was, p, q);
      BeatenIs(was, p, q);
    }
    if was[f].code.SHIFT? {
      ShiftIsFirst(was, f, q);
      BeatenIs(was, f, q);
      assert Rival(was, q, f);
    }
  }

  /** No rule below this number takes the token of the shift. */
  ghost predicate NoneBefore(was: seq<Action>, p: nat, number: nat)
  {
    forall j: nat :: RivalRule(was, p, j) && was[j].number < number ==> !Takes(was[j], was[p])
  }

  function LostInRows(rows: seq<seq<Action>>, n: nat): nat
    requires n <= |rows|
  {
    if n == 0 then 0 else LostInRows(rows, n - 1) + LostOf(rows[n - 1], |rows[n - 1]|)
  }

  lemma {:induction false} RowsCounted(rows: seq<seq<Action>>, final: nat, n: nat)
    requires n <= |rows|
    ensures LostInAll(rows, final, n, true) + LostInAll(rows, final, n, false) == LostInRows(rows, n)
  {
    if n > 0 {
      RowsCounted(rows, final, n - 1);
      AllCounted(n - 1 == final, rows[n - 1]);
    }
  }

  /** The two totals together are all actions of the parser that have lost a conflict. */
  lemma TotalsAre(p: Parser)
    requires AreTotals(p)
    ensures p.SRtotal + p.RRtotal == LostInRows(p.rows, |p.rows|)
  {
    RowsCounted(p.rows, p.final, |p.rows|);
  }
}
