/** Reachability in zero or more steps of a relation on the naturals. */
module Reach {

  type Rel = (nat, nat) -> bool

  ghost predicate Steps(r: Rel, x: nat, n: nat, y: nat)
    decreases n
  {
    if n == 0 then x == y else exists z :: r(x, z) && Steps(r, z, n - 1, y)
  }

  ghost predicate Reaches(r: Rel, x: nat, y: nat)
  {
    exists n: nat :: Steps(r, x, n, y)
  }

  /** In one or more steps. */
  ghost predicate ReachesOn(r: Rel, x: nat, y: nat)
  {
    exists n: nat :: n > 0 && Steps(r, x, n, y)
  }

  lemma ReachesIsOn(r: Rel, x: nat, y: nat)
    ensures Reaches(r, x, y) <==> x == y || ReachesOn(r, x, y)
  {
    ReachesRefl(r, x);
    if Reaches(r, x, y) {
      var n: nat :| Steps(r, x, n, y);
    }
  }

  lemma ReachesRefl(r: Rel, x: nat)
    ensures Reaches(r, x, x)
  {
    assert Steps(r, x, 0, x);
  }

  lemma ReachesEdge(r: Rel, x: nat, y: nat)
    requires r(x, y)
    ensures Reaches(r, x, y)
  {
    assert Steps(r, y, 0, y);
    assert Steps(r, x, 1, y);
  }

  lemma {:induction false} StepsJoin(r: Rel, x: nat, n: nat, y: nat, m: nat, z: nat)
    requires Steps(r, x, n, y) && Steps(r, y, m, z)
    ensures Steps(r, x, n + m, z)
    decreases n
  {
    if n != 0 {
      var u :| r(x, u) && Steps(r, u, n - 1, y);
      StepsJoin(r, u, n - 1, y, m, z);
    }
  }

  /** The last step apart. */
  lemma {:induction false} StepsLast(r: Rel, x: nat, n: nat, y: nat) returns (z: nat)
    requires n > 0 && Steps(r, x, n, y)
    ensures Steps(r, x, n - 1, z) && r(z, y)
    decreases n
  {
    var u :| r(x, u) && Steps(r, u, n - 1, y);
    if n == 1 {
      z := x;
    } else {
      z := StepsLast(r, u, n - 1, y);
    }
  }

  lemma ReachesTrans(r: Rel, x: nat, y: nat, z: nat)
    requires Reaches(r, x, y) && Reaches(r, y, z)
    ensures Reaches(r, x, z)
  {
    var n: nat :| Steps(r, x, n, y);
    var m: nat :| Steps(r, y, m, z);
    StepsJoin(r, x, n, y, m, z);
  }

  /** First edge, then the rest. */
  lemma ReachesCons(r: Rel, x: nat, y: nat, z: nat)
    requires r(x, y) && Reaches(r, y, z)
    ensures Reaches(r, x, z)
  {
    ReachesEdge(r, x, y);
    ReachesTrans(r, x, y, z);
  }

  /** The path first, then a last edge. */
  lemma ReachesSnoc(r: Rel, x: nat, y: nat, z: nat)
    requires Reaches(r, x, y) && r(y, z)
    ensures Reaches(r, x, z)
  {
    ReachesEdge(r, y, z);
    ReachesTrans(r, x, y, z);
  }

  /** A property that every edge keeps holds at every vertex reached. */
  lemma ReachesKeeps(r: Rel, p: nat -> bool, x: nat, y: nat)
    requires p(x) && Reaches(r, x, y)
    requires forall a, b :: p(a) && r(a, b) ==> p(b)
    ensures p(y)
  {
    var n: nat :| Steps(r, x, n, y);
    StepsKeep(r, p, x, n, y);
  }

  lemma {:induction false} StepsKeep(r: Rel, p: nat -> bool, x: nat, n: nat, y: nat)
    requires p(x) && Steps(r, x, n, y)
    requires forall a, b :: p(a) && r(a, b) ==> p(b)
    ensures p(y)
    decreases n
  {
    if n != 0 {
      var z :| r(x, z) && Steps(r, z, n - 1, y);
      StepsKeep(r, p, z, n - 1, y);
    }
  }

  /** A relation contained in another reaches no more. */
  lemma ReachesMono(r: Rel, s: Rel, x: nat, y: nat)
    requires Reaches(r, x, y)
    requires forall a, b :: r(a, b) ==> s(a, b)
    ensures Reaches(s, x, y)
  {
    var n: nat :| Steps(r, x, n, y);
    StepsMono(r, s, x, n, y);
  }

  lemma {:induction false} StepsMono(r: Rel, s: Rel, x: nat, n: nat, y: nat)
    requires Steps(r, x, n, y)
    requires forall a, b :: r(a, b) ==> s(a, b)
    ensures Steps(s, x, n, y)
    decreases n
  {
    if n != 0 {
      var z :| r(x, z) && Steps(r, z, n - 1, y);
      StepsMono(r, s, z, n - 1, y);
    }
  }
}
