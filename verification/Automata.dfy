/** The LR(0) automaton of a grammar: what lr0.c has to produce. */
module Automata {
  import opened Cfgs
  import opened Grammars
  import opened Items
  import opened RuleTables

  /** A state: its accessing symbol and its kernel. */
  datatype Core = Core(access: nat, items: seq<nat>)

  /** State s shifts to the states shifts[s] and reduces by the rules reds[s]. */
  datatype Automaton = Automaton(cores: seq<Core>, shifts: seq<seq<nat>>, reds: seq<seq<nat>>)

  /** next is the kernel reached from kernel over x: the items of its closure with the dot
      before x, the dot moved over it. */
  ghost predicate IsGoto(g: Grammar, kernel: seq<nat>, x: int, next: seq<nat>)
    requires g.WellFormed()
  {
    && Ascending(next)
    && (forall i: nat :: i in next <==> MovesTo(g, kernel, x, i))
  }

  ghost predicate MovesTo(g: Grammar, kernel: seq<nat>, x: int, i: nat)
    requires g.WellFormed()
  {
    i >= 2 && InClosure(g, kernel, i - 1) && i <= g.NItems() && g.ritem[i - 1] == x
  }

  /** A kernel other than the first has every dot just after the accessing symbol. */
  ghost predicate IsKernel(g: Grammar, c: Core)
  {
    && c.items != [] && Ascending(c.items) && AreItems(g, c.items)
    && 0 < c.access < g.nsyms
    && (forall i :: i in c.items ==> i >= 2 && g.ritem[i - 1] == c.access)
  }

  ghost predicate AreCores(g: Grammar, cores: seq<Core>)
  {
    && |cores| > 0 && g.IsItem(1) && cores[0] == Core(0, [1])
    && (forall s :: 1 <= s < |cores| ==> IsKernel(g, cores[s]))
  }

  ghost predicate DistinctKernels(cores: seq<Core>)
  {
    forall s, t :: 0 <= s < t < |cores| ==> cores[s].items != cores[t].items
  }

  /** The shifts of a state: one for each symbol that stands after a dot of its closure,
      except the end marker, to the state with that goto; in order of symbol. */
  ghost predicate ShiftsOf(g: Grammar, cores: seq<Core>, kernel: seq<nat>, shifts: seq<nat>)
    requires g.WellFormed()
  {
    && (forall j :: 0 <= j < |shifts| ==> IsShift(g, cores, kernel, shifts[j]))
    && (forall j, k :: 0 <= j < k < |shifts| ==> AccessedBefore(cores, shifts[j], shifts[k]))
    && (forall i: nat :: InClosure(g, kernel, i) && g.IsItem(i) && g.ritem[i] > 0 ==>
         ShiftsOver(cores, shifts, g.ritem[i]))
  }

  ghost predicate AccessedBefore(cores: seq<Core>, s: nat, t: nat)
  {
    s < |cores| && t < |cores| && cores[s].access < cores[t].access
  }

  ghost predicate IsShift(g: Grammar, cores: seq<Core>, kernel: seq<nat>, t: nat)
    requires g.WellFormed()
  {
    1 <= t < |cores| && IsGoto(g, kernel, cores[t].access, cores[t].items)
  }

  ghost predicate ShiftsOver(cores: seq<Core>, shifts: seq<nat>, x: int)
  {
    exists j :: 0 <= j < |shifts| && shifts[j] < |cores| && cores[shifts[j]].access == x
  }

  /** The reductions of a state: the rules complete in its closure, in order. */
  ghost predicate RedsOf(g: Grammar, kernel: seq<nat>, reds: seq<nat>)
    requires g.WellFormed()
  {
    && Ascending(reds)
    && (forall r: nat :: r in reds <==> g.IsRule(r) && InClosure(g, kernel, g.RuleEnd(r)))
  }

  /** The canonical LR(0) collection: distinct kernels, each state after the first reached
      from an earlier one, and shifts and reductions as the closures say. */
  ghost predicate IsLR0(g: Grammar, a: Automaton)
    requires g.WellFormed()
  {
    && AreCores(g, a.cores) && DistinctKernels(a.cores)
    && |a.shifts| == |a.cores| && |a.reds| == |a.cores|
    && (forall s :: 0 <= s < |a.cores| ==> ShiftsOf(g, a.cores, a.cores[s].items, a.shifts[s]))
    && (forall s :: 0 <= s < |a.cores| ==> RedsOf(g, a.cores[s].items, a.reds[s]))
    && (forall s :: 1 <= s < |a.cores| ==> ReachedFromEarlier(a.shifts, s))
  }

  ghost predicate ReachedFromEarlier(shifts: seq<seq<nat>>, s: nat)
  {
    exists p :: 0 <= p < s && p < |shifts| && s in shifts[p]
  }

  /** State s has the kernel that some earlier state goes to. */
  ghost predicate FromEarlier(g: Grammar, cores: seq<Core>, s: nat)
    requires g.WellFormed() && s < |cores|
  {
    exists p: nat :: p < s && IsGoto(g, cores[p].items, cores[s].access, cores[s].items)
  }

  /** Different states of the grammar's automaton: the first, and others that can be reached. */
  ghost predicate AreReached(g: Grammar, cores: seq<Core>)
    requires g.WellFormed()
  {
    AreCores(g, cores) && DistinctKernels(cores) && forall s: nat :: 1 <= s < |cores| ==> FromEarlier(g, cores, s)
  }
}
