/** flua/src/lauxlib.c: luaL_ref and luaL_unref, references handed out from a table whose freed
    slots form a list inside the table itself. */
module References {

  /** A Lua value; all that matters is whether it is nil or an integer. */
  datatype Value = Nil | Integer(i: int) | Other(id: nat)

  const LUA_REFNIL := -1
  const FREELIST := 0

  /** lua_tointeger: 0 for what is not a number. */
  function ToInteger(v: Value): int { if v.Integer? then v.i else 0 }

  /** lua_rawgeti and lua_rawseti: an absent key is nil. */
  function Get(t: map<int, Value>, k: int): Value { if k in t then t[k] else Nil }

  function Put(t: map<int, Value>, k: int, v: Value): (r: map<int, Value>)
    ensures Get(r, k) == v && forall j :: j != k ==> Get(r, j) == Get(t, j)
  {
    if v.Nil? then map j | j in t && j != k :: t[j] else t[k := v]
  }

  /** A border, which is all that lua_rawlen promises: any n with t[n] there, unless n is 0, and
      t[n + 1] not. */
  predicate IsBorder(t: map<int, Value>, n: nat)
  {
    (n == 0 || !Get(t, n).Nil?) && Get(t, n + 1).Nil?
  }

  /** The link to the i-th free slot. */
  ghost function Link(free: seq<int>, i: nat): Value { if i < |free| then Integer(free[i]) else Nil }

  /** The free slots in the order of their links: t[0] leads to the first one, each leads to the
      next, and the last link is nil. */
  ghost predicate FreeList(t: map<int, Value>, free: seq<int>)
  {
    && Get(t, FREELIST) == Link(free, 0)
    && (forall i :: 0 <= i < |free| ==> Get(t, free[i]) == Link(free, i + 1))
    && (forall i, j :: 0 <= i < j < |free| ==> free[i] != free[j])
  }

  /** The slots 1..k are the live references, with their values, and the free ones; nothing is
      beyond them. */
  ghost predicate Slots(t: map<int, Value>, live: map<int, Value>, free: seq<int>, k: nat)
  {
    && FreeList(t, free)
    && (forall r :: 1 <= r <= k <==> r in live || r in free)
    && (forall r :: r in live ==> r !in free && !live[r].Nil? && Get(t, r) == live[r])
    && (forall r :: r > k ==> Get(t, r).Nil?)
  }

  /** When no slot is free there is no hole, so that the border is unique. */
  lemma BorderIsTop(t: map<int, Value>, live: map<int, Value>, k: nat, n: nat)
    requires Slots(t, live, [], k) && IsBorder(t, n)
    ensures n == k
  {
    assert n < k ==> n + 1 in live;
  }

  lemma ListTaken(t: map<int, Value>, free: seq<int>, v: Value)
    requires FreeList(t, free) && free != [] && FREELIST !in free
    ensures FreeList(Put(Put(t, FREELIST, Get(t, free[0])), free[0], v), free[1..])
  {
    hide Put, Get;
    var ref, rest := free[0], free[1..];
    var t2 := Put(Put(t, FREELIST, Get(t, ref)), ref, v);
    forall i | 0 <= i < |rest| ensures Get(t2, rest[i]) == Link(rest, i + 1) {
      var j := i + 1;
      assert rest[i] == free[j] && free[j] in free;
      assert Get(t, free[j]) == Link(free, j + 1);
    }
  }

  lemma ListGiven(t: map<int, Value>, free: seq<int>, ref: int)
    requires FreeList(t, free) && FREELIST !in free && ref !in free && ref != FREELIST
    ensures FreeList(Put(Put(t, ref, Get(t, FREELIST)), FREELIST, Integer(ref)), [ref] + free)
  {
    hide Put, Get;
    var more := [ref] + free;
    var t2 := Put(Put(t, ref, Get(t, FREELIST)), FREELIST, Integer(ref));
    forall i | 0 <= i < |more| ensures Get(t2, more[i]) == Link(more, i + 1) {
      if i > 0 {
        var j := i - 1;
        assert more[i] == free[j] && free[j] in free;
        assert Get(t, free[j]) == Link(free, j + 1);
      }
    }
    forall i, j | 0 <= i < j < |more|
      ensures more[i] != more[j]
    {
      assert more[j] == free[j - 1] && free[j - 1] in free;
    }
  }

  /** The slot that luaL_ref takes next when it is not 0. */
  function Head(t: map<int, Value>): int { ToInteger(Get(t, FREELIST)) }

  /** The table after luaL_ref has taken the first free slot. */
  function Taken(t: map<int, Value>, v: Value): map<int, Value>
  {
    Put(Put(t, FREELIST, Get(t, Head(t))), Head(t), v)
  }

  /** The table after luaL_unref. */
  function GivenBack(t: map<int, Value>, ref: int): map<int, Value>
  {
    Put(Put(t, ref, Get(t, FREELIST)), FREELIST, Integer(ref))
  }

  /** Taking the first free slot. */
  lemma TakeFree(t: map<int, Value>, live: map<int, Value>, free: seq<int>, k: nat, v: Value)
    requires Slots(t, live, free, k) && free != [] && !v.Nil?
    ensures 1 <= free[0] <= k && free[0] !in live
    ensures Slots(Put(Put(t, FREELIST, Get(t, free[0])), free[0], v), live[free[0] := v], free[1..], k)
  {
    var ref, rest := free[0], free[1..];
    FirstTaken(free, t);
    assert ref in free;
    ListTaken(t, free, v);
    hide FreeList, Put, Get;
  }

  lemma FirstTaken(free: seq<int>, t: map<int, Value>)
    requires FreeList(t, free) && free != []
    ensures forall r :: r in free[1..] <==> r in free && r != free[0]
  {
    assert free == [free[0]] + free[1..];
    hide Get, Link;
    assert forall i :: 0 <= i < |free[1..]| ==> free[1..][i] == free[i + 1];
  }

  /** Growing by one slot. */
  lemma TakeNew(t: map<int, Value>, live: map<int, Value>, k: nat, v: Value)
    requires Slots(t, live, [], k) && !v.Nil?
    ensures k + 1 !in live && Slots(Put(t, k + 1, v), live[k + 1 := v], [], k + 1)
  {}

  /** Giving a live slot back. */
  lemma GiveBack(t: map<int, Value>, live: map<int, Value>, free: seq<int>, k: nat, ref: int)
    requires Slots(t, live, free, k) && ref in live
    ensures Slots(Put(Put(t, ref, Get(t, FREELIST)), FREELIST, Integer(ref)), live - {ref}, [ref] + free, k)
  {
    assert 1 <= ref <= k;
    ListGiven(t, free, ref);
    hide FreeList, Put, Get;
    assert forall r :: r in [ref] + free <==> r == ref || r in free;
  }

  class Registry {
    var t: map<int, Value>
    /** The references given out and not given back, with their values. */
    ghost var live: map<int, Value>
    ghost var free: seq<int>
    ghost var k: nat

    ghost predicate Valid()
      reads this
    {
      Slots(t, live, free, k)
    }

    constructor ()
      ensures Valid() && live == map[]
    {
      t, live, free, k := map[], map[], [], 0;
    }

    /** luaL_ref.  border is what lua_rawlen would say, in case it is asked; it is asked only
        when no slot is free, and then the table has no hole. */
    method Ref(v: Value, border: nat) returns (ref: int)
      requires Valid() && (ToInteger(Get(t, FREELIST)) == 0 ==> IsBorder(t, border))
      modifies this
      ensures Valid()
      ensures v.Nil? ==> ref == LUA_REFNIL && live == old(live) && t == old(t)
      ensures !v.Nil? ==> ref >= 1 && ref !in old(live) && live == old(live)[ref := v] && Get(t, ref) == v
      ensures forall r :: r in old(live) ==> Get(t, r) == old(live)[r]
      ensures !v.Nil? && Head(old(t)) != 0 ==> ref == Head(old(t)) && t == Taken(old(t), v)
      ensures !v.Nil? ==> if old(free) != [] then ref == old(free)[0] && k == old(k) else ref == old(k) + 1 == k
    {
      if v.Nil? {
        return LUA_REFNIL;
      }
      ref := ToInteger(Get(t, FREELIST));
      ListHead(t, live, free, k);
      if ref != 0 {
        TakeFree(t, live, free, k, v);
        t := Put(t, FREELIST, Get(t, ref));
        free := free[1..];
      } else {
        BorderIsTop(t, live, k, border);
        TakeNew(t, live, k, v);
        ref := border + 1;
        k := k + 1;
      }
      t := Put(t, ref, v);
      live := live[ref := v];
    }

    /** luaL_unref, of a live reference or of a negative one. */
    method Unref(ref: int)
      requires Valid() && (ref in live || ref < 0)
      modifies this
      ensures Valid() && live == old(live) - {ref} && k == old(k)
      ensures free == if ref >= 0 then [ref] + old(free) else old(free)
      ensures forall r :: r in live ==> Get(t, r) == live[r]
      ensures ref >= 0 ==> t == GivenBack(old(t), ref)
    {
      if ref >= 0 {
        GiveBack(t, live, free, k, ref);
        t := Put(t, ref, Get(t, FREELIST));
        t := Put(t, FREELIST, Integer(ref));
        live := live - {ref};
        free := [ref] + free;
      } else {
        NoNegative(t, live, free, k, ref);
      }
    }
  }

  /** t[0] is 0 or nil exactly when no slot is free. */
  lemma ListHead(t: map<int, Value>, live: map<int, Value>, free: seq<int>, k: nat)
    requires Slots(t, live, free, k)
    ensures ToInteger(Get(t, FREELIST)) == if free == [] then 0 else free[0]
    ensures free != [] ==> free[0] != 0
  {
    if free != [] { assert free[0] in free; }
  }

  lemma NoNegative(t: map<int, Value>, live: map<int, Value>, free: seq<int>, k: nat, ref: int)
    requires Slots(t, live, free, k) && ref < 0
    ensures ref !in live && live - {ref} == live
  {}

  /** Walking the links from t[0] meets every free slot, each once, and then stops. */
  ghost function Walk(t: map<int, Value>, from: int, n: nat): seq<int>
    decreases n
  {
    if n == 0 || !Get(t, from).Integer? then [] else [Get(t, from).i] + Walk(t, Get(t, from).i, n - 1)
  }

  lemma {:induction false} WalkIsFree(t: map<int, Value>, live: map<int, Value>, free: seq<int>, k: nat, n: nat)
    requires Slots(t, live, free, k) && n >= |free|
    ensures Walk(t, FREELIST, n) == free
  {
    hide Link;
    assert FreeList(t, free) && Get(t, FREELIST) == if free == [] then Nil else Integer(free[0]) by {
      HeadLink(t, free);
    }
    hide Slots, FreeList, Get;
    if free != [] {
      assert free == [free[0]] + free[1..];
      WalkOn(t, free, 0, n - 1);
    }
  }

  lemma HeadLink(t: map<int, Value>, free: seq<int>)
    requires FreeList(t, free)
    ensures Get(t, FREELIST) == if free == [] then Nil else Integer(free[0])
  {}

  lemma {:induction false} WalkOn(t: map<int, Value>, free: seq<int>, i: nat, n: nat)
    requires FreeList(t, free) && i < |free| && n >= |free| - 1 - i
    ensures Walk(t, free[i], n) == free[i + 1..]
    decreases |free| - i
  {
    if i + 1 < |free| {
      WalkOn(t, free, i + 1, n - 1);
      assert free[i + 1..] == [free[i + 1]] + free[i + 2..];
    } else {
      assert free[i + 1..] == [];
    }
  }

  // ----- the precondition of luaL_unref -----

  /** The table after references to the values vs have been taken from the list. */
  function TakenAll(t: map<int, Value>, vs: seq<Value>): map<int, Value>
    decreases |vs|
  {
    if vs == [] then t else TakenAll(Taken(t, vs[0]), vs[1..])
  }

  /** Giving back a reference that is free already breaks the list: the next reference is that
      one, and so is the one after as many more as stood before it in the list, whatever is
      stored through them. */
  lemma TwiceFreed(t: map<int, Value>, live: map<int, Value>, free: seq<int>, k: nat, m: nat, vs: seq<Value>)
    requires Slots(t, live, free, k) && m < |free| && |vs| == m + 1
    ensures Head(GivenBack(t, free[m])) == free[m] && Head(TakenAll(GivenBack(t, free[m]), vs)) == free[m]
  {
    assert forall i :: 0 <= i < |free| ==> free[i] in free && free[i] != FREELIST;
    assert forall i :: 0 <= i < |free| ==> Get(t, free[i]) == Link(free, i + 1);
    assert Get(t, FREELIST) == Integer(free[0]);
    hide Slots, Put, Get;
    var now := Taken(GivenBack(t, free[m]), vs[0]);
    AlongList(now, free, 0, m, vs[1..]);
  }

  /** Taking the free slots from number i up to number m. */
  lemma {:induction false} AlongList(t: map<int, Value>, free: seq<int>, i: nat, m: nat, vs: seq<Value>)
    requires i <= m < |free| && |vs| == m - i && Get(t, FREELIST) == Integer(free[i])
    requires (forall j :: i <= j < m ==> Get(t, free[j]) == Link(free, j + 1)) &&
             forall j :: 0 <= j < |free| ==> free[j] != FREELIST
    requires forall j, l :: 0 <= j < l < |free| ==> free[j] != free[l]
    ensures Head(TakenAll(t, vs)) == free[m]
    decreases m - i
  {
    hide Put, Get;
    if i < m {
      AlongList(Taken(t, vs[0]), free, i + 1, m, vs[1..]);
    }
  }
}
