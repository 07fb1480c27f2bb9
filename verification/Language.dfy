/** What the input of the generator means by itself, before any packing: the token strings that its
    rules derive, over its own symbols, and the numbers by which its tokens are read. */
module Language {
  import opened Cfgs
  import opened Grammars
  import opened Mkpar
  import opened Reader
  import opened Skeleton
  import opened Soundness

  // ----- derivation over the symbols as they were read -----

  predicate AreSymbols(s: Source, w: seq<nat>) { forall k :: 0 <= k < |w| ==> w[k] < |s.symbols| }

  predicate AreTerminals(s: Source, w: seq<nat>)
  {
    forall k :: 0 <= k < |w| ==> w[k] < |s.symbols| && s.symbols[w[k]].isTerm
  }

  /** The symbol at k, a rule's left side, is replaced by its right side. */
  ghost predicate Replaces(s: Source, alpha: seq<nat>, k: nat, i: nat, beta: seq<nat>)
  {
    k < |alpha| && i < |s.rules| && alpha[k] == s.rules[i].lhs && beta == alpha[..k] + s.rules[i].rhs + alpha[k + 1..]
  }

  ghost predicate Becomes(s: Source, alpha: seq<nat>, beta: seq<nat>)
  {
    exists k: nat, i: nat :: Replaces(s, alpha, k, i, beta)
  }

  ghost predicate DerivesIn(s: Source, alpha: seq<nat>, n: nat, w: seq<nat>)
    decreases n
  {
    if n == 0 then alpha == w && AreTerminals(s, w)
    else exists beta :: Becomes(s, alpha, beta) && DerivesIn(s, beta, n - 1, w)
  }

  /** The terminals w can be derived from the goal. */
  ghost predicate IsSentenceOf(s: Source, w: seq<nat>) { exists n: nat :: DerivesIn(s, [s.goal], n, w) }

  // ----- it is derivation under the new numbers -----

  ghost function Numbers(s: Source, w: seq<nat>): (v: seq<nat>)
    requires AreSymbols(s, w)
    ensures |v| == |w|
  {
    seq(|w|, k requires 0 <= k < |w| => IndexOf(s, w[k]))
  }

  lemma NumbersJoin(s: Source, a: seq<nat>, b: seq<nat>, c: seq<nat>)
    requires AreSymbols(s, a) && AreSymbols(s, b) && AreSymbols(s, c)
    ensures AreSymbols(s, a + b + c) && Numbers(s, a + b + c) == Numbers(s, a) + Numbers(s, b) + Numbers(s, c)
  {}

  lemma NumbersOne(s: Source, v: seq<nat>, w: seq<nat>)
    requires s.Valid() && AreSymbols(s, v) && AreSymbols(s, w) && Numbers(s, v) == Numbers(s, w)
    ensures v == w
  {
    forall k | 0 <= k < |v| ensures v[k] == w[k] {
      assert Numbers(s, v)[k] == Numbers(s, w)[k];
      if v[k] < w[k] { IndexInjective(s, v[k], w[k]); }
      if w[k] < v[k] { IndexInjective(s, w[k], v[k]); }
    }
  }

  lemma TerminalsAreTokens(s: Source, w: seq<nat>)
    requires s.Valid() && AreSymbols(s, w)
    ensures AreTerminals(s, w) <==> forall k :: 0 <= k < |w| ==> Numbers(s, w)[k] < s.NTokens()
  {
    forall k | 0 <= k < |w| ensures s.symbols[w[k]].isTerm <==> Numbers(s, w)[k] < s.NTokens() {
      IndexRange(s, w[k]);
    }
  }

  lemma RenamedIs(s: Source, i: nat)
    requires s.Valid() && i < |s.rules|
    ensures var c := Renamed(s);
            && c.IsRule(i + 3) && s.IsRuleOf(s.rules[i]) && AreSymbols(s, s.rules[i].rhs)
            && c.rules[i + 3].lhs == IndexOf(s, s.rules[i].lhs) && c.rules[i + 3].rhs == Numbers(s, s.rules[i].rhs)
  {
    assert s.IsRuleOf(s.rules[i]);
    hide IndexOf;
  }

  lemma StepForth(s: Source, alpha: seq<nat>, beta: seq<nat>)
    requires s.Valid() && AreSymbols(s, alpha) && Becomes(s, alpha, beta)
    ensures AreSymbols(s, beta) && Rewrites(Renamed(s), Numbers(s, alpha), Numbers(s, beta))
  {
    var k: nat, i: nat :| Replaces(s, alpha, k, i, beta);
    RenamedIs(s, i);
    hide Source.Valid, IndexOf, Renamed;
    NumbersJoin(s, alpha[..k], s.rules[i].rhs, alpha[k + 1..]);
    var c, a := Renamed(s), Numbers(s, alpha);
    assert a[..k] == Numbers(s, alpha[..k]) && a[k + 1..] == Numbers(s, alpha[k + 1..]);
    assert RewritesAt(c, a, k, i + 3, Numbers(s, beta));
  }

  lemma StepBack(s: Source, alpha: seq<nat>, b: seq<nat>) returns (beta: seq<nat>)
    requires s.Valid() && AreSymbols(s, alpha) && Rewrites(Renamed(s), Numbers(s, alpha), b)
    ensures AreSymbols(s, beta) && Becomes(s, alpha, beta) && Numbers(s, beta) == b
  {
    var c, a := Renamed(s), Numbers(s, alpha);
    var k: nat, r: nat :| RewritesAt(c, a, k, r, b);
    NotAccept(s, alpha[k]);
    assert r != 2 && |c.rules| == |s.rules| + 3;
    var i := r - 3;
    RenamedIs(s, i);
    SameIndex(s, alpha[k], s.rules[i].lhs);
    hide Source.Valid, IndexOf, Renamed;
    NumbersJoin(s, alpha[..k], s.rules[i].rhs, alpha[k + 1..]);
    assert a[..k] == Numbers(s, alpha[..k]) && a[k + 1..] == Numbers(s, alpha[k + 1..]);
    beta := alpha[..k] + s.rules[i].rhs + alpha[k + 1..];
    assert Replaces(s, alpha, k, i, beta);
  }

  lemma NotAccept(s: Source, b: nat)
    requires s.Valid() && b < |s.symbols|
    ensures IndexOf(s, b) != s.NTokens()
  {
    IndexRange(s, b);
  }

  lemma SameIndex(s: Source, b: nat, c: nat)
    requires s.Valid() && b < |s.symbols| && c < |s.symbols| && IndexOf(s, b) == IndexOf(s, c)
    ensures b == c
  {
    if b < c { IndexInjective(s, b, c); }
    if c < b { IndexInjective(s, c, b); }
  }

  lemma {:induction false} DerivesForth(s: Source, alpha: seq<nat>, n: nat, w: seq<nat>)
    requires s.Valid() && AreSymbols(s, alpha) && DerivesIn(s, alpha, n, w)
    ensures AreTerminals(s, w) && RewritesIn(Renamed(s), Numbers(s, alpha), n, Numbers(s, w))
    decreases n
  {
    hide Source.Valid, Renamed, Becomes, Rewrites;
    if n == 0 {
      TerminalsAreTokens(s, w);
      assert Renamed(s).ntokens == s.NTokens() by { SameTokens(s); }
    } else {
      var beta :| Becomes(s, alpha, beta) && DerivesIn(s, beta, n - 1, w);
      StepForth(s, alpha, beta);
      DerivesForth(s, beta, n - 1, w);
    }
  }

  lemma SameTokens(s: Source)
    requires s.Valid()
    ensures Renamed(s).ntokens == s.NTokens()
  {}

  lemma {:induction false} DerivesBack(s: Source, alpha: seq<nat>, n: nat, v: seq<nat>) returns (w: seq<nat>)
    requires s.Valid() && AreSymbols(s, alpha) && RewritesIn(Renamed(s), Numbers(s, alpha), n, v)
    ensures AreTerminals(s, w) && DerivesIn(s, alpha, n, w) && Numbers(s, w) == v
    decreases n
  {
    hide Source.Valid, Renamed, Becomes, Rewrites;
    if n == 0 {
      w := alpha;
      SameTokens(s);
      TerminalsAreTokens(s, w);
    } else {
      var b :| Rewrites(Renamed(s), Numbers(s, alpha), b) && RewritesIn(Renamed(s), b, n - 1, v);
      var beta := StepBack(s, alpha, b);
      w := DerivesBack(s, beta, n - 1, v);
    }
  }

  /** Renaming the symbols changes nothing. */
  lemma SameSentences(s: Source, w: seq<nat>)
    requires s.Valid() && AreTerminals(s, w)
    ensures IsSentenceOf(s, w) <==> Derives(Renamed(s), [s.NTokens() + 1], Numbers(s, w))
  {
    IndexRange(s, s.goal);
    assert Numbers(s, [s.goal]) == [s.NTokens() + 1];
    hide Source.Valid, Renamed, DerivesIn, RewritesIn, IndexOf;
    var c, form, v := Renamed(s), [s.NTokens() + 1], Numbers(s, w);
    DerivesIsRewriting(c, form, v);
    if IsSentenceOf(s, w) {
      var n: nat :| DerivesIn(s, [s.goal], n, w);
      GoalForth(s, n, w);
      assert RewritesIn(c, form, n, v);
    }
    if n: nat :| RewritesIn(c, form, n, v) {
      var u := GoalBack(s, n, v);
      NumbersOne(s, u, w);
    }
  }

  lemma GoalForth(s: Source, n: nat, w: seq<nat>)
    requires s.Valid() && DerivesIn(s, [s.goal], n, w)
    ensures AreTerminals(s, w) && RewritesIn(Renamed(s), [s.NTokens() + 1], n, Numbers(s, w))
  {
    IndexRange(s, s.goal);
    assert Numbers(s, [s.goal]) == [s.NTokens() + 1];
    DerivesForth(s, [s.goal], n, w);
  }

  lemma GoalBack(s: Source, n: nat, v: seq<nat>) returns (w: seq<nat>)
    requires s.Valid() && RewritesIn(Renamed(s), [s.NTokens() + 1], n, v)
    ensures AreTerminals(s, w) && DerivesIn(s, [s.goal], n, w) && Numbers(s, w) == v
  {
    IndexRange(s, s.goal);
    assert Numbers(s, [s.goal]) == [s.NTokens() + 1];
    w := DerivesBack(s, [s.goal], n, v);
  }

  // ----- the numbers by which tokens are read -----

  predicate IsGiven(s: Source, y: int)
  {
    y == 0 || exists b :: 0 <= b < |s.symbols| && s.symbols[b].isTerm && s.symbols[b].value == y
  }

  /** The terminal has no number of its own in the input; error, which is number 0, always has. */
  predicate IsOpen(s: Source, b: nat)
    requires b < |s.symbols|
  {
    b > 0 && s.symbols[b].isTerm && s.symbols[b].value == UNDEFINED
  }

  ghost predicate IsTakenBefore(s: Source, number: seq<int>, b: nat, y: int)
    requires b <= |s.symbols| == |number|
  {
    exists c: nat :: c < b && IsOpen(s, c) && number[c] == y
  }

  /** A terminal is read as the number that the input gives it, error as 256 unless it is given
      another one, and each other terminal, in the order in which they were read, as the least
      number from 257 on that the input does not give and that no terminal before it has. */
  ghost predicate AreReadAs(s: Source, number: seq<int>)
  {
    && |number| == |s.symbols|
    && (forall b: nat :: b < |number| && s.symbols[b].isTerm && s.symbols[b].value != UNDEFINED ==>
          number[b] == s.symbols[b].value)
    && (|number| > 0 && s.symbols[0].value == UNDEFINED ==> number[0] == 256)
    && (forall b: nat :: b < |number| && IsOpen(s, b) ==> IsLeastFree(s, number, b))
  }

  ghost predicate IsLeastFree(s: Source, number: seq<int>, b: nat)
    requires b < |s.symbols| == |number|
  {
    && number[b] >= 257 && !IsGiven(s, number[b]) && !IsTakenBefore(s, number, b, number[b])
    && forall y :: 257 <= y < number[b] ==> IsGiven(s, y) || IsTakenBefore(s, number, b, y)
  }

  /** So the numbers of the terminals are determined by the input. */
  lemma {:induction false} ReadAsOne(s: Source, m: seq<int>, n: seq<int>, b: nat)
    requires s.Valid() && AreReadAs(s, m) && AreReadAs(s, n) && b < |s.symbols| && s.symbols[b].isTerm
    ensures m[b] == n[b]
    decreases b
  {
    if IsOpen(s, b) {
      forall c: nat | c < b && IsOpen(s, c) ensures m[c] == n[c] { ReadAsOne(s, m, n, c); }
      assert IsLeastFree(s, m, b) && IsLeastFree(s, n, b);
      hide IsGiven;
      assert forall y :: IsTakenBefore(s, m, b, y) <==> IsTakenBefore(s, n, b, y);
    }
  }

  /** What pack_symbols leaves: precedences and numbers of the symbols that were read. */
  ghost predicate HasNumbers(s: Source, pr: Precedence, value: seq<int>)
  {
    exists decl :: ByNumber(s, decl, pr.symbolPrec, pr.symbolAssoc) && ValuesTo(decl, value, |decl|)
  }

  ghost function ReadAs(s: Source, value: seq<int>): seq<int>
  {
    seq(|s.symbols|, b requires 0 <= b < |s.symbols| =>
      if s.symbols[b].isTerm && IndexOf(s, b) < |value| then value[IndexOf(s, b)] else 0)
  }

  lemma {:induction false} TermAt(symbols: seq<Symbol>, n: nat, t: nat) returns (b: nat)
    requires n <= |symbols| && t < Terms(symbols, n)
    ensures b < n && symbols[b].isTerm && Terms(symbols, b) == t
  {
    if symbols[n - 1].isTerm && Terms(symbols, n - 1) == t { b := n - 1; } else { b := TermAt(symbols, n - 1, t); }
  }

  /** Every number below $accept's, except for $end's, is that of a terminal. */
  lemma TerminalAt(s: Source, i: nat) returns (b: nat)
    requires s.Valid() && 1 <= i < s.NTokens()
    ensures b < |s.symbols| && s.symbols[b].isTerm && IndexOf(s, b) == i
  {
    b := TermAt(s.symbols, |s.symbols|, i - 1);
  }

  lemma TerminalOrder(s: Source, b: nat, c: nat)
    requires s.Valid() && b < |s.symbols| && c < |s.symbols| && s.symbols[b].isTerm && s.symbols[c].isTerm
    ensures b < c <==> IndexOf(s, b) < IndexOf(s, c)
  {
    if b < c { TermsGrow(s.symbols, b, c); }
    if c < b { TermsGrow(s.symbols, c, b); }
  }

  lemma GivenIs(s: Source, decl: seq<int>, prec: seq<int>, assoc: seq<Assoc>, y: int)
    requires s.Valid() && ByNumber(s, decl, prec, assoc) && y != UNDEFINED
    ensures y in decl <==> IsGiven(s, y)
  {
    hide IndexOf, Source.Valid;
    if y in decl && y != 0 {
      var i: nat :| i < |decl| && decl[i] == y;
      var b := TerminalAt(s, i);
      assert NumberedAs(s, decl, prec, assoc, b);
    }
    if IsGiven(s, y) && y != 0 {
      var b :| 0 <= b < |s.symbols| && s.symbols[b].isTerm && s.symbols[b].value == y;
      assert NumberedAs(s, decl, prec, assoc, b);
    }
  }

  lemma OpenIs(s: Source, decl: seq<int>, prec: seq<int>, assoc: seq<Assoc>, b: nat)
    requires s.Valid() && ByNumber(s, decl, prec, assoc) && b < |s.symbols| && s.symbols[b].isTerm
    ensures 1 <= IndexOf(s, b) < |decl| && (IsOpen(s, b) <==> !IsFixed(decl, IndexOf(s, b)))
    ensures decl[IndexOf(s, b)] == s.symbols[b].value && (IndexOf(s, b) == 1 <==> b == 0)
  {
    IndexRange(s, b);
    TerminalOrder(s, 0, b);
    hide IndexOf, Source.Valid;
    assert NumberedAs(s, decl, prec, assoc, b);
  }

  lemma TakenIs(s: Source, decl: seq<int>, prec: seq<int>, assoc: seq<Assoc>, value: seq<int>, b: nat, y: int)
    requires s.Valid() && ByNumber(s, decl, prec, assoc) && |value| == |decl| && b < |s.symbols| && s.symbols[b].isTerm
    requires IndexOf(s, b) < |decl|
    ensures TakenBefore(decl, value, IndexOf(s, b), y) <==> IsTakenBefore(s, ReadAs(s, value), b, y)
  {
    hide Source.Valid, ByNumber, IsFixed, IndexOf, Source.NTokens;
    var number, i := ReadAs(s, value), IndexOf(s, b);
    if TakenBefore(decl, value, i, y) {
      var j: nat :| j < i && !IsFixed(decl, j) && value[j] == y;
      var c := OpenAt(s, decl, prec, assoc, j);
      OpenIs(s, decl, prec, assoc, c);
      TerminalOrder(s, c, b);
      assert number[c] == y;
    }
    if IsTakenBefore(s, number, b, y) {
      var c: nat :| c < b && IsOpen(s, c) && number[c] == y;
      OpenIs(s, decl, prec, assoc, c);
      TerminalOrder(s, c, b);
      assert value[IndexOf(s, c)] == y;
    }
  }

  lemma OpenAt(s: Source, decl: seq<int>, prec: seq<int>, assoc: seq<Assoc>, j: nat) returns (c: nat)
    requires s.Valid() && ByNumber(s, decl, prec, assoc) && j < |decl| && !IsFixed(decl, j)
    ensures c < |s.symbols| && s.symbols[c].isTerm && IndexOf(s, c) == j
  {
    hide IndexOf, Source.Valid;
    c := TerminalAt(s, j);
  }

  /** The numbers that pack_symbols gives are those by which the tokens are to be read. */
  lemma NumbersAreRight(s: Source, pr: Precedence, value: seq<int>)
    requires s.Valid() && HasNumbers(s, pr, value)
    ensures |value| == s.NTokens() && AreReadAs(s, ReadAs(s, value))
  {
    var decl :| ByNumber(s, decl, pr.symbolPrec, pr.symbolAssoc) && ValuesTo(decl, value, |decl|);
    var number := ReadAs(s, value);
    forall b: nat | b < |s.symbols| && s.symbols[b].isTerm ensures ReadRight(s, number, b) {
      OneIsRight(s, decl, pr.symbolPrec, pr.symbolAssoc, value, b);
    }
    hide ByNumber, ValuesTo, IsLeastFree, ReadAs;
    assert |number| == |s.symbols| by { assert |ReadAs(s, value)| == |s.symbols| by { ReadSize(s, value); } }
    assert s.symbols[0].isTerm && ReadRight(s, number, 0);
    assert |value| == s.NTokens() by { ValueSize(s, pr, value, decl); }
  }

  lemma ReadSize(s: Source, value: seq<int>)
    ensures |ReadAs(s, value)| == |s.symbols|
  {}

  lemma ValueSize(s: Source, pr: Precedence, value: seq<int>, decl: seq<int>)
    requires ByNumber(s, decl, pr.symbolPrec, pr.symbolAssoc) && ValuesTo(decl, value, |decl|)
    ensures |value| == s.NTokens()
  {}

  ghost predicate ReadRight(s: Source, number: seq<int>, b: nat)
    requires b < |s.symbols|
  {
    && |number| == |s.symbols|
    && (s.symbols[b].value != UNDEFINED ==> number[b] == s.symbols[b].value)
    && (b == 0 && s.symbols[0].value == UNDEFINED ==> number[0] == 256)
    && (IsOpen(s, b) ==> IsLeastFree(s, number, b))
  }

  lemma OneIsRight(s: Source, decl: seq<int>, prec: seq<int>, assoc: seq<Assoc>, value: seq<int>, b: nat)
    requires s.Valid() && ByNumber(s, decl, prec, assoc) && ValuesTo(decl, value, |decl|)
    requires b < |s.symbols| && s.symbols[b].isTerm
    ensures ReadRight(s, ReadAs(s, value), b)
  {
    hide Source.Valid, ByNumber, IndexOf, TakenBefore, IsTakenBefore, IsGiven;
    var number, i := ReadAs(s, value), IndexOf(s, b);
    OpenIs(s, decl, prec, assoc, b);
    assert number[b] == value[i];
    if IsOpen(s, b) {
      forall y | y >= 257 ensures y in decl <==> IsGiven(s, y) { GivenIs(s, decl, prec, assoc, y); }
      forall y ensures TakenBefore(decl, value, i, y) <==> IsTakenBefore(s, number, b, y) {
        TakenIs(s, decl, prec, assoc, value, b, y);
      }
      NotTaken(decl, value, i);
    }
  }

  lemma NotTaken(decl: seq<int>, value: seq<int>, i: nat)
    requires ValuesTo(decl, value, |decl|) && i < |decl| && !IsFixed(decl, i)
    ensures !TakenBefore(decl, value, i, value[i])
  {}

  /** What packing and the parser need of the input: that the numbers of its terminals are different
      shorts, none of them 0, which stands for the end. */
  ghost predicate NumbersAreGood(s: Source)
  {
    forall number :: AreReadAs(s, number) ==> AreGood(s, number)
  }

  predicate AreGood(s: Source, number: seq<int>)
  {
    && |number| == |s.symbols|
    && (forall b :: 0 <= b < |number| && s.symbols[b].isTerm ==> 0 < number[b] <= LR0.MAXSHORT)
    && (forall b, c :: 0 <= b < c < |number| && s.symbols[b].isTerm && s.symbols[c].isTerm ==> number[b] != number[c])
  }

  lemma GoodNumbers(s: Source, pr: Precedence, decl: seq<int>, value: seq<int>)
    requires s.Valid() && ByNumber(s, decl, pr.symbolPrec, pr.symbolAssoc) && ValuesTo(decl, value, |decl|)
    requires NumbersAreGood(s)
    ensures FixedDiffer(decl) && forall i :: 0 <= i < |value| ==> 0 <= value[i] <= LR0.MAXSHORT
  {
    NumbersAreRight(s, pr, value);
    var number := ReadAs(s, value);
    assert AreGood(s, number);
    ValueSize(s, pr, value, decl);
    hide Source.Valid, AreReadAs, IndexOf, NumbersAreGood;
    forall i: nat | 1 <= i < |value| ensures 0 < value[i] <= LR0.MAXSHORT {
      var b := TerminalAt(s, i);
      assert number[b] == value[i];
    }
    assert value[0] == 0;
    forall i: nat, j: nat | i < j < |value| ensures value[i] != value[j] {
      if i > 0 {
        var b := TerminalAt(s, i);
        var c := TerminalAt(s, j);
        assert number[b] == value[i] && number[c] == value[j];
      }
    }
  }

  /** Precedences go by the new numbers. */
  lemma PrecedenceOf(s: Source, pr: Precedence, value: seq<int>, b: nat)
    requires s.Valid() && HasNumbers(s, pr, value) && b < |s.symbols|
    ensures IndexOf(s, b) < |pr.symbolPrec| && pr.symbolPrec[IndexOf(s, b)] == s.symbols[b].prec
    ensures IndexOf(s, b) < |pr.symbolAssoc| && pr.symbolAssoc[IndexOf(s, b)] == s.symbols[b].assoc
  {
    var decl :| ByNumber(s, decl, pr.symbolPrec, pr.symbolAssoc) && ValuesTo(decl, value, |decl|);
    assert NumberedAs(s, decl, pr.symbolPrec, pr.symbolAssoc, b);
  }

  /** The input, up to its end, is the terminals w under these numbers. */
  ghost predicate IsRead(number: seq<int>, input: seq<int>, w: seq<nat>)
  {
    && |w| <= |input| && (forall k :: 0 <= k < |w| ==> w[k] < |number| && input[k] == number[w[k]] > 0)
    && Lex(input, |w|) == 0
  }

  /** What the parser is to recognise. */
  ghost predicate IsSourceSentence(s: Source, number: seq<int>, input: seq<int>)
  {
    exists w: seq<nat> :: AreTerminals(s, w) && IsSentenceOf(s, w) && IsRead(number, input, w)
  }

  lemma ReadIs(s: Source, value: seq<nat>, input: seq<int>, w: seq<nat>)
    requires s.Valid() && |value| == s.NTokens() && AreTerminals(s, w)
    ensures IsRead(ReadAs(s, value), input, w) <==> IsInput(value, input, Numbers(s, w))
  {
    var number := ReadAs(s, value);
    forall k | 0 <= k < |w| ensures Numbers(s, w)[k] < |value| && number[w[k]] == value[Numbers(s, w)[k]] {
      IndexRange(s, w[k]);
    }
  }

  /** The language of the packed grammar is that of the rules that were read. */
  lemma SameLanguage(s: Source, g: Grammar, value: seq<nat>, input: seq<int>)
    requires IsPacked(s, g) && |value| == s.NTokens()
    ensures s.Valid() && g.WellFormed()
    ensures IsSentence(g, value, input) <==> IsSourceSentence(s, ReadAs(s, value), input)
  {
    PackedIs(s, g);
    hide IsPacked, Grammar.WellFormed, Grammar.Unpacked, Source.Valid, Source.NTokens, Renamed, IsInput, IsRead,
         Derives, ReadAs, Numbers, IsSentenceOf;
    if IsSentence(g, value, input) {
      var v: seq<nat> :| IsInput(value, input, v) && Derives(g.Unpacked(), [g.Goal()], v);
      var w := TerminalsOf(s, v);
      SameSentences(s, w);
      ReadIs(s, value, input, w);
    }
    if w: seq<nat> :| AreTerminals(s, w) && IsSentenceOf(s, w) && IsRead(ReadAs(s, value), input, w) {
      SameSentences(s, w);
      ReadIs(s, value, input, w);
    }
  }

  lemma PackedIs(s: Source, g: Grammar)
    requires IsPacked(s, g)
    ensures s.Valid() && g.WellFormed() && g.Unpacked() == Renamed(s) && g.Goal() == s.NTokens() + 1
  {
    UnpackedIsRenamed(s, g);
    hide Grammar.WellFormed, Grammar.Unpacked, Renamed;
  }

  /** A derived token string is that of some terminals. */
  lemma TerminalsOf(s: Source, v: seq<nat>) returns (w: seq<nat>)
    requires s.Valid() && Derives(Renamed(s), [s.NTokens() + 1], v)
    ensures AreTerminals(s, w) && Numbers(s, w) == v
  {
    hide Source.Valid, Renamed, Derives, RewritesIn, Source.NTokens;
    var c, form := Renamed(s), [s.NTokens() + 1];
    DerivesIsRewriting(c, form, v);
    var n: nat :| RewritesIn(c, form, n, v);
    w := GoalBack(s, n, v);
  }

  /** Numbers that are right for the terminals read every input alike. */
  lemma SameReading(s: Source, m: seq<int>, n: seq<int>, input: seq<int>)
    requires s.Valid() && AreReadAs(s, m) && AreReadAs(s, n)
    ensures IsSourceSentence(s, m, input) <==> IsSourceSentence(s, n, input)
  {
    hide IsSentenceOf, IsRead;
    forall w: seq<nat> | AreTerminals(s, w) ensures IsRead(m, input, w) <==> IsRead(n, input, w) {
      ReadSame(s, m, n, input, w);
    }
  }

  lemma ReadSame(s: Source, m: seq<int>, n: seq<int>, input: seq<int>, w: seq<nat>)
    requires s.Valid() && AreReadAs(s, m) && AreReadAs(s, n) && AreTerminals(s, w)
    ensures IsRead(m, input, w) <==> IsRead(n, input, w)
  {
    assert |m| == |n| == |s.symbols|;
    hide AreReadAs, Source.Valid;
    forall k | 0 <= k < |w| ensures m[w[k]] == n[w[k]] { ReadAsOne(s, m, n, w[k]); }
  }
}
