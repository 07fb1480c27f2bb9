/** Context-free grammars and what they derive. */
module Cfgs {

  datatype Production = Production(lhs: nat, rhs: seq<nat>)

  /** Symbols below ntokens are tokens.  Rules are numbered from 2: rule 2 is the
      augmenting rule, $accept : goal $end. */
  datatype Cfg = Cfg(ntokens: nat, rules: seq<Production>)
  {
    predicate IsRule(r: int) { 2 <= r < |rules| }
  }

  lemma Regroup(a: seq<nat>, b: seq<nat>, c: seq<nat>)
    ensures a + (b + c) == (a + b) + c
  {}

  /** A derivation of a string of tokens from a sequence of symbols: each symbol is a token
      standing for itself, or a variable with the rule applied to it and the derivation of
      that rule's right side. */
  datatype Forest =
    | Done
    | Tok(token: nat, rest: Forest)
    | Var(rule: nat, sub: Forest, rest: Forest)
  {
    ghost predicate Valid(g: Cfg)
    {
      match this
      case Done => true
      case Tok(t, rest) => t < g.ntokens && rest.Valid(g)
      case Var(r, sub, rest) => g.IsRule(r) && sub.Valid(g) && rest.Valid(g) && sub.Form(g) == g.rules[r].rhs
    }

    /** The symbols derived from. */
    ghost function Form(g: Cfg): seq<nat>
    {
      match this
      case Done => []
      case Tok(t, rest) => [t] + rest.Form(g)
      case Var(r, _, rest) => [if g.IsRule(r) then g.rules[r].lhs else 0] + rest.Form(g)
    }

    /** The tokens derived. */
    ghost function Yield(): seq<nat>
    {
      match this
      case Done => []
      case Tok(t, rest) => [t] + rest.Yield()
      case Var(_, sub, rest) => sub.Yield() + rest.Yield()
    }

    lemma {:induction false} YieldsTokens(g: Cfg)
      requires Valid(g)
      ensures forall k :: 0 <= k < |Yield()| ==> Yield()[k] < g.ntokens
    {
      match this
      case Done =>
      case Tok(_, rest) => rest.YieldsTokens(g);
      case Var(_, sub, rest) => sub.YieldsTokens(g); rest.YieldsTokens(g);
    }

    /** The number of symbols derived from. */
    ghost function Length(): nat
    {
      match this
      case Done => 0
      case Tok(_, rest) => 1 + rest.Length()
      case Var(_, _, rest) => 1 + rest.Length()
    }

    /** The number of tokens and rules in the derivation: the turns that a parser needs for it. */
    ghost function Size(): nat
    {
      match this
      case Done => 0
      case Tok(_, rest) => 1 + rest.Size()
      case Var(_, sub, rest) => sub.Size() + 1 + rest.Size()
    }

    ghost function Join(other: Forest): Forest
    {
      match this
      case Done => other
      case Tok(t, rest) => Tok(t, rest.Join(other))
      case Var(r, sub, rest) => Var(r, sub, rest.Join(other))
    }

    lemma {:induction false} JoinMeans(g: Cfg, other: Forest)
      requires Valid(g) && other.Valid(g)
      ensures Join(other).Valid(g)
      ensures Join(other).Form(g) == Form(g) + other.Form(g)
      ensures Join(other).Yield() == Yield() + other.Yield()
      ensures Join(other).Size() == Size() + other.Size()
    {
      match this
      case Done =>
      case Tok(t, rest) =>
        rest.JoinMeans(g, other);
        Regroup([t], rest.Form(g), other.Form(g));
        Regroup([t], rest.Yield(), other.Yield());
      case Var(r, sub, rest) =>
        rest.JoinMeans(g, other);
        Regroup([g.rules[r].lhs], rest.Form(g), other.Form(g));
        Regroup(sub.Yield(), rest.Yield(), other.Yield());
    }

    /** The derivation from the first n symbols. */
    ghost function Take(n: nat): Forest
    {
      if n == 0 then Done
      else
        match this
        case Done => Done
        case Tok(t, rest) => Tok(t, rest.Take(n - 1))
        case Var(r, sub, rest) => Var(r, sub, rest.Take(n - 1))
    }

    /** The derivation from the others. */
    ghost function Drop(n: nat): Forest
    {
      if n == 0 then this
      else
        match this
        case Done => Done
        case Tok(_, rest) => rest.Drop(n - 1)
        case Var(_, _, rest) => rest.Drop(n - 1)
    }

    /** The derivation of m symbols from position k on is put under the variable of rule r. */
    ghost function Fold(k: nat, m: nat, r: nat): Forest
    {
      Take(k).Join(Var(r, Drop(k).Take(m), Drop(k).Drop(m)))
    }

    lemma FoldMeans(g: Cfg, k: nat, r: nat)
      requires Valid(g) && g.IsRule(r) && k + |g.rules[r].rhs| <= |Form(g)|
      requires Form(g)[k..][..|g.rules[r].rhs|] == g.rules[r].rhs
      ensures var d := Fold(k, |g.rules[r].rhs|, r);
              && d.Valid(g) && d.Yield() == Yield() && d.Size() == Size() + 1
              && d.Form(g) == Form(g)[..k] + ([g.rules[r].lhs] + Form(g)[k..][|g.rules[r].rhs|..])
    {
      Split(g, k);
      var rest, m := Drop(k), |g.rules[r].rhs|;
      rest.Split(g, m);
      Take(k).JoinMeans(g, Var(r, rest.Take(m), rest.Drop(m)));
    }

    /** A derivation from a + b splits into one from a and one from b. */
    lemma {:induction false} Split(g: Cfg, n: nat)
      requires Valid(g) && n <= |Form(g)|
      ensures Take(n).Valid(g) && Drop(n).Valid(g) && Take(n).Join(Drop(n)) == this
      ensures Take(n).Form(g) == Form(g)[..n] && Drop(n).Form(g) == Form(g)[n..]
      ensures Take(n).Yield() + Drop(n).Yield() == Yield() && Take(n).Size() + Drop(n).Size() == Size()
    {
      if n > 0 {
        match this
        case Tok(t, rest) =>
          rest.Split(g, n - 1);
          Regroup([t], rest.Take(n - 1).Yield(), Drop(n).Yield());
        case Var(r, sub, rest) =>
          rest.Split(g, n - 1);
          Regroup(sub.Yield(), rest.Take(n - 1).Yield(), Drop(n).Yield());
      }
    }

    /** Joining and then splitting at the seam. */
    lemma {:induction false} SplitJoined(other: Forest)
      ensures Join(other).Take(Length()) == this && Join(other).Drop(Length()) == other
    {
      match this
      case Done =>
      case Tok(_, rest) => rest.SplitJoined(other);
      case Var(_, _, rest) => rest.SplitJoined(other);
    }

    lemma {:induction false} JoinDone()
      ensures Join(Done) == this
    {
      match this
      case Done =>
      case Tok(_, rest) => rest.JoinDone();
      case Var(_, _, rest) => rest.JoinDone();
    }

    lemma {:induction false} LengthIs(g: Cfg)
      ensures |Form(g)| == Length()
    {
      match this
      case Done =>
      case Tok(_, rest) => rest.LengthIs(g);
      case Var(_, _, rest) => rest.LengthIs(g);
    }

    lemma {:induction false} JoinTwice(b: Forest, c: Forest)
      ensures Join(b).Join(c) == Join(b.Join(c))
    {
      match this
      case Done =>
      case Tok(_, rest) => rest.JoinTwice(b, c);
      case Var(_, _, rest) => rest.JoinTwice(b, c);
    }
  }

  /** The token string w is derivable from the symbols of form. */
  ghost predicate Derives(g: Cfg, form: seq<nat>, w: seq<nat>)
  {
    exists d: Forest :: d.Valid(g) && d.Form(g) == form && d.Yield() == w
  }

  // ----- the textbook definition: rewriting one variable at a time -----

  /** One variable of alpha is replaced by the right side of one of its rules. */
  ghost predicate Rewrites(g: Cfg, alpha: seq<nat>, beta: seq<nat>)
  {
    exists k: nat, r: nat :: RewritesAt(g, alpha, k, r, beta)
  }

  ghost predicate RewritesAt(g: Cfg, alpha: seq<nat>, k: nat, r: nat, beta: seq<nat>)
  {
    k < |alpha| && g.IsRule(r) && alpha[k] == g.rules[r].lhs && beta == alpha[..k] + g.rules[r].rhs + alpha[k + 1..]
  }

  ghost predicate RewritesIn(g: Cfg, alpha: seq<nat>, n: nat, w: seq<nat>)
    decreases n
  {
    if n == 0 then alpha == w && (forall k :: 0 <= k < |w| ==> w[k] < g.ntokens)
    else exists beta :: Rewrites(g, alpha, beta) && RewritesIn(g, beta, n - 1, w)
  }

  /** Derivation forests and rewriting sequences derive the same token strings. */
  lemma DerivesIsRewriting(g: Cfg, form: seq<nat>, w: seq<nat>)
    ensures Derives(g, form, w) <==> exists n: nat :: RewritesIn(g, form, n, w)
  {
    hide Forest.Valid, Forest.Form, Forest.Yield, RewritesIn;
    if Derives(g, form, w) {
      var d: Forest :| d.Valid(g) && d.Form(g) == form && d.Yield() == w;
      var n := ForestRewrites(g, [], d);
      assert [] + form == form && [] + w == w;
      assert RewritesIn(g, form, n, w);
    }
    if exists n: nat :: RewritesIn(g, form, n, w) {
      var n: nat :| RewritesIn(g, form, n, w);
      RewritingDerives(g, form, n, w);
    }
  }

  lemma RewriteFirst(g: Cfg, pre: seq<nat>, r: nat, post: seq<nat>, n: nat, w: seq<nat>)
    requires g.IsRule(r) && RewritesIn(g, pre + g.rules[r].rhs + post, n, w)
    ensures RewritesIn(g, pre + [g.rules[r].lhs] + post, n + 1, w)
  {
    var alpha := pre + [g.rules[r].lhs] + post;
    assert alpha[..|pre|] == pre && alpha[|pre| + 1..] == post;
    assert RewritesAt(g, alpha, |pre|, r, pre + g.rules[r].rhs + post);
    assert Rewrites(g, alpha, pre + g.rules[r].rhs + post);
  }

  lemma TokensStay(g: Cfg, w: seq<nat>)
    requires forall k :: 0 <= k < |w| ==> w[k] < g.ntokens
    ensures RewritesIn(g, w, 0, w)
  {}

  /** Leftmost rewriting of d's symbols behind tokens that are already in place. */
  lemma {:induction false} ForestRewrites(g: Cfg, pre: seq<nat>, d: Forest) returns (n: nat)
    requires d.Valid(g) && (forall k :: 0 <= k < |pre| ==> pre[k] < g.ntokens)
    ensures RewritesIn(g, pre + d.Form(g), n, pre + d.Yield())
    decreases d
  {
    hide RewritesIn;
    match d
    case Done =>
      n := 0;
      TokensStay(g, pre);
      assert pre + d.Form(g) == pre == pre + d.Yield();
    case Tok(t, rest) =>
      n := ForestRewrites(g, pre + [t], rest);
      assert pre + [t] + rest.Form(g) == pre + d.Form(g);
      assert pre + [t] + rest.Yield() == pre + d.Yield();
    case Var(r, sub, rest) =>
      var m := ForestRewrites(g, pre, sub);
      sub.YieldsTokens(g);
      var l := ForestRewrites(g, pre + sub.Yield(), rest);
      var w := pre + sub.Yield() + rest.Yield();
      Behind(g, pre + sub.Form(g), m, pre + sub.Yield(), rest.Form(g), l, w);
      RewriteFirst(g, pre, r, rest.Form(g), m + l, w);
      assert pre + [g.rules[r].lhs] + rest.Form(g) == pre + d.Form(g);
      assert w == pre + d.Yield();
      n := m + l + 1;
  }

  /** Rewriting alpha to w in front of tail, then the rest. */
  lemma {:induction false} Behind(g: Cfg, alpha: seq<nat>, m: nat, w: seq<nat>, tail: seq<nat>, l: nat, v: seq<nat>)
    requires RewritesIn(g, alpha, m, w) && RewritesIn(g, w + tail, l, v)
    ensures RewritesIn(g, alpha + tail, m + l, v)
    decreases m
  {
    hide Rewrites;
    if m != 0 {
      var beta :| Rewrites(g, alpha, beta) && RewritesIn(g, beta, m - 1, w);
      Behind(g, beta, m - 1, w, tail, l, v);
      RewritesInFront(g, alpha, beta, tail);
    }
  }

  lemma RewritesInFront(g: Cfg, alpha: seq<nat>, beta: seq<nat>, tail: seq<nat>)
    requires Rewrites(g, alpha, beta)
    ensures Rewrites(g, alpha + tail, beta + tail)
  {
    var k: nat, r: nat :| RewritesAt(g, alpha, k, r, beta);
    assert (alpha + tail)[..k] == alpha[..k];
    assert (alpha + tail)[k + 1..] == alpha[k + 1..] + tail;
    assert RewritesAt(g, alpha + tail, k, r, beta + tail);
  }

  lemma {:induction false} RewritingDerives(g: Cfg, form: seq<nat>, n: nat, w: seq<nat>)
    requires RewritesIn(g, form, n, w)
    ensures Derives(g, form, w)
    decreases n
  {
    if n == 0 {
      var d := TokensAlone(g, w);
    } else {
      var beta :| Rewrites(g, form, beta) && RewritesIn(g, beta, n - 1, w);
      RewritingDerives(g, beta, n - 1, w);
      DerivesBack(g, form, beta, w);
    }
  }

  lemma DerivesBack(g: Cfg, form: seq<nat>, beta: seq<nat>, w: seq<nat>)
    requires Rewrites(g, form, beta) && Derives(g, beta, w)
    ensures Derives(g, form, w)
  {
    var k: nat, r: nat :| RewritesAt(g, form, k, r, beta);
    var d: Forest :| d.Valid(g) && d.Form(g) == beta && d.Yield() == w;
    hide Forest.Valid, Forest.Form, Forest.Yield;
    assert beta[..k] == form[..k];
    assert beta[k..][..|g.rules[r].rhs|] == g.rules[r].rhs;
    assert beta[k..][|g.rules[r].rhs|..] == form[k + 1..];
    assert form == form[..k] + ([form[k]] + form[k + 1..]);
    d.FoldMeans(g, k, r);
  }

  lemma {:induction false} TokensAlone(g: Cfg, w: seq<nat>) returns (d: Forest)
    requires forall k :: 0 <= k < |w| ==> w[k] < g.ntokens
    ensures d.Valid(g) && d.Form(g) == w && d.Yield() == w
  {
    if w == [] {
      d := Done;
    } else {
      d := TokensAlone(g, w[1..]);
      d := Tok(w[0], d);
    }
  }
}
