/** `GenericSamplingRegister`: a set of elements kept twice, as a vector to draw random
    samples from and as a hash map from each element to its slot in the vector; and
    `GenericSamplingRegisterCompl`, a pair of such registers holding the registered symbols
    and the rest. The random draw `rng.gen_range(0..len)` is a parameter `index < len`. */
module SamplingRegister {
  import opened Wrappers
  import opened Symbol
  import opened SymbolIterator

  /** `Vec::swap_remove(i)`: the element at `i` leaves and the last element takes its slot. */
  function SwapRemove<E>(v: seq<E>, i: nat): (r: seq<E>)
    requires i < |v|
    ensures |r| == |v| - 1
    ensures forall j :: 0 <= j < |r| && j != i ==> r[j] == v[j]
    ensures i < |r| ==> r[i] == v[|v| - 1]
  {
    var n := |v| - 1;
    if i == n then v[..n] else v[..i] + [v[n]] + v[i + 1..n]
  }

  /** `swap_remove` takes exactly the one element out of the vector's multiset. */
  lemma SwapRemoveMultiset<E>(v: seq<E>, i: nat)
    requires i < |v|
    ensures multiset(SwapRemove(v, i)) == multiset(v) - multiset{v[i]}
  {
    var n := |v| - 1;
    if i == n {
      assert v == v[..n] + [v[n]];
    } else {
      assert v == v[..i] + [v[i]] + v[i + 1..n] + [v[n]];
      assert SwapRemove(v, i) == v[..i] + [v[n]] + v[i + 1..n];
    }
  }

  /** What the map and the vector are meant to be: the map sends each key to the slot that
      holds it, and each slot holds a key sent to that slot (so no element is in two slots). */
  ghost predicate Indexes<E>(m: map<E, nat>, v: seq<E>)
  {
    (forall e :: e in m ==> m[e] < |v| && v[m[e]] == e) &&
    (forall i :: 0 <= i < |v| ==> v[i] in m && m[v[i]] == i)
  }

  /** When the map indexes the vector, the map's keys are the vector's elements. */
  lemma IndexesMembers<E>(m: map<E, nat>, v: seq<E>, e: E)
    ensures Indexes(m, v) ==> (e in m <==> e in v)
  {
    if Indexes(m, v) && e in v {
      var i :| 0 <= i < |v| && v[i] == e;
      assert v[i] in m;
    }
  }

  /** Appending a new element at the next slot keeps the map indexing the vector. */
  lemma AppendIndexes<E>(m: map<E, nat>, v: seq<E>, e: E)
    requires Indexes(m, v) && e !in m
    ensures Indexes(m[e := |v|], v + [e])
  {
    var m2, v2 := m[e := |v|], v + [e];
    forall i | 0 <= i < |v2|
      ensures v2[i] in m2 && m2[v2[i]] == i
    {
      if i < |v| {
        assert v2[i] == v[i] && v[i] in m;
      }
    }
  }

  /** Removing slot `i` as the register is meant to: `swap_remove(i)`, the removed element's
      key dropped, and the element moved into slot `i` re-indexed to it. */
  function RemoveSlot<E>(m: map<E, nat>, v: seq<E>, i: nat): (r: (map<E, nat>, seq<E>))
    requires i < |v|
  {
    var v2 := SwapRemove(v, i);
    if i < |v2| then ((m - {v[i]})[v2[i] := i], v2) else (m - {v[i]}, v2)
  }

  /** Removing a slot keeps the map indexing the vector and drops exactly that slot's key. */
  lemma RemoveSlotIndexes<E>(m: map<E, nat>, v: seq<E>, i: nat)
    requires Indexes(m, v) && i < |v|
    ensures Indexes(RemoveSlot(m, v, i).0, RemoveSlot(m, v, i).1)
    ensures RemoveSlot(m, v, i).0.Keys == m.Keys - {v[i]}
  {
    var n := |v| - 1;
    var x, last := v[i], v[n];
    var v2 := SwapRemove(v, i);
    var m2 := RemoveSlot(m, v, i).0;
    assert x in m && m[x] == i;
    assert last in m && m[last] == n;
    forall e | e in m2
      ensures m2[e] < |v2| && v2[m2[e]] == e
    {
      if i < n && e == last {
      } else {
        assert e in m && e != x;
        assert m[e] != i;
        assert m[e] != n;
      }
    }
    forall j | 0 <= j < |v2|
      ensures v2[j] in m2 && m2[v2[j]] == j
    {
      if j != i {
        assert v2[j] == v[j] && v[j] in m && m[v[j]] == j;
      }
    }
    if i < n {
      assert m2.Keys == (m.Keys - {x}) + {last};
    }
  }

  // ---------------------------------------------------------------------------------------------
  // `swap_remove` as the source writes it

  /** Removing slot `i` as `unregister` and `pop_sample` do: `swap_remove(i)` and the removed
      element's key dropped, with the moved element's entry left pointing at its old slot. */
  function RemoveSlotAsWritten<E>(m: map<E, nat>, v: seq<E>, i: nat): (r: (map<E, nat>, seq<E>))
    requires i < |v|
    ensures r.0.Keys == m.Keys - {v[i]} && |r.1| + 1 == |v|
  {
    (m - {v[i]}, SwapRemove(v, i))
  }

  /** `unregister` as written; `None` is the panic of `swap_remove` on a slot past the end. */
  function UnregisterAsWritten<E>(m: map<E, nat>, v: seq<E>, e: E): (r: Option<(map<E, nat>, seq<E>)>)
    ensures e !in m ==> r == Some((m, v))
    ensures e in m && m[e] < |v| ==> r.Some? && e !in r.value.0
  {
    if e !in m then Some((m, v))
    else if m[e] < |v| then Some((m - {e}, SwapRemove(v, m[e])))
    else None
  }

  /** The stale entry: after registering `a`, `b`, `c` and unregistering `a`, the map still
      sends `c` to slot 2 of a two-slot vector, so unregistering `c` panics. */
  lemma UnregisterAsWrittenPanics<E>(a: E, b: E, c: E)
    requires a != b && b != c && a != c
    ensures UnregisterAsWritten(map[a := 0, b := 1, c := 2], [a, b, c], a) ==
            Some((map[b := 1, c := 2], [c, b]))
    ensures !Indexes(map[b := 1, c := 2], [c, b])
    ensures UnregisterAsWritten(map[b := 1, c := 2], [c, b], c) == None
  {
    assert map[a := 0, b := 1, c := 2] - {a} == map[b := 1, c := 2];
    assert SwapRemove([a, b, c], 0) == [c, b];
    assert [c, b][0] == c;
  }

  /** `pop_sample` as written leaves the same stale entry: drawing slot 0 from `a`, `b`, `c`
      returns `a` and leaves `c` pointing at slot 2, so unregistering `c` then panics. */
  lemma PopSampleAsWrittenStale<E>(a: E, b: E, c: E)
    requires a != b && b != c && a != c
    ensures RemoveSlotAsWritten(map[a := 0, b := 1, c := 2], [a, b, c], 0) ==
            (map[b := 1, c := 2], [c, b])
    ensures UnregisterAsWritten(map[b := 1, c := 2], [c, b], c) == None
  {
    assert map[a := 0, b := 1, c := 2] - {a} == map[b := 1, c := 2];
    assert SwapRemove([a, b, c], 0) == [c, b];
  }

  /** Removing slot 0 with the re-indexing gives `c` its new slot, and unregistering `c`
      afterwards works. */
  lemma RemoveSlotExample<E>(a: E, b: E, c: E)
    requires a != b && b != c && a != c
    ensures RemoveSlot(map[a := 0, b := 1, c := 2], [a, b, c], 0) == (map[b := 1, c := 0], [c, b])
    ensures Indexes(map[b := 1, c := 0], [c, b])
  {
    var v2 := SwapRemove([a, b, c], 0);
    assert v2 == [c, b];
    assert (map[a := 0, b := 1, c := 2] - {a})[c := 0] == map[b := 1, c := 0];
  }

  // ---------------------------------------------------------------------------------------------
  // The register

  class GenericSamplingRegister<E(==)> {
    var registerMap: map<E, nat>
    var vector: seq<E>

    ghost predicate Valid()
      reads this
    {
      Indexes(registerMap, vector)
    }

    /** `new` and `Default`: nothing registered. */
    constructor ()
      ensures Valid() && registerMap == map[] && vector == []
    {
      registerMap, vector := map[], [];
    }

    /** `is_registered`: key membership in the map, which under the invariant is membership
        in the vector. */
    predicate IsRegistered(e: E)
      reads this
      ensures Valid() ==> (IsRegistered(e) <==> e in vector)
    {
      IndexesMembers(registerMap, vector, e);
      e in registerMap
    }

    /** `register`: a new element is pushed and indexed by its slot; a registered one changes
        nothing. */
    method Register(e: E)
      requires Valid()
      modifies this
      ensures Valid() && IsRegistered(e)
      ensures e in old(registerMap) ==> registerMap == old(registerMap) && vector == old(vector)
      ensures e !in old(registerMap) ==>
                vector == old(vector) + [e] && registerMap == old(registerMap)[e := |old(vector)|]
      ensures registerMap.Keys == old(registerMap).Keys + {e}
    {
      if !IsRegistered(e) {
        AppendIndexes(registerMap, vector, e);
        vector := vector + [e];
        registerMap := registerMap[e := |vector| - 1];
      }
    }

    /** Removes the element in slot `index`, re-indexing the element moved into it. */
    method RemoveAt(index: nat) returns (x: E)
      requires Valid() && index < |vector|
      modifies this
      ensures Valid() && x == old(vector)[index]
      ensures (registerMap, vector) == RemoveSlot(old(registerMap), old(vector), index)
      ensures registerMap.Keys == old(registerMap).Keys - {x}
      ensures multiset(vector) == multiset(old(vector)) - multiset{x}
    {
      RemoveSlotIndexes(registerMap, vector, index);
      SwapRemoveMultiset(vector, index);
      x := vector[index];
      registerMap := registerMap - {x};
      vector := SwapRemove(vector, index);
      if index < |vector| {
        registerMap := registerMap[vector[index] := index];
      }
    }

    /** `unregister`: a registered element leaves the map and the vector; an unknown one
        changes nothing. */
    method Unregister(e: E)
      requires Valid()
      modifies this
      ensures Valid() && !IsRegistered(e)
      ensures e !in old(registerMap) ==> registerMap == old(registerMap) && vector == old(vector)
      ensures e in old(registerMap) ==>
                vector == SwapRemove(old(vector), old(registerMap)[e])
      ensures registerMap.Keys == old(registerMap).Keys - {e}
      ensures multiset(vector) == multiset(old(vector)) - multiset{e}
    {
      if e in registerMap {
        var _ := RemoveAt(registerMap[e]);
      } else {
        IndexesMembers(registerMap, vector, e);
        assert multiset(vector)[e] == 0;
      }
    }

    /** `peek_sample`: the element at the drawn slot, always a registered one. */
    function PeekSample(index: nat): (r: Option<E>)
      reads this
      requires index < |vector|
      ensures r.Some? && r.value in vector
      ensures Valid() ==> IsRegistered(r.value)
    {
      Some(vector[index])
    }

    /** `pop_sample`: the element at the drawn slot, no longer registered afterwards. */
    method PopSample(index: nat) returns (r: Option<E>)
      requires Valid() && index < |vector|
      modifies this
      ensures Valid() && r.Some? && r.value in old(registerMap) && !IsRegistered(r.value)
      ensures r.value == old(vector)[index]
      ensures vector == SwapRemove(old(vector), index)
      ensures registerMap.Keys == old(registerMap).Keys - {r.value}
    {
      var result := RemoveAt(index);
      r := Some(result);
    }
  }

  /** Registering `a`, `b`, `c` into a fresh register gives the map and vector the stale-entry
      lemmas start from. */
  method RegisterThree<E(==)>(a: E, b: E, c: E) returns (reg: GenericSamplingRegister<E>)
    requires a != b && b != c && a != c
    ensures fresh(reg) && reg.registerMap == map[a := 0, b := 1, c := 2] && reg.vector == [a, b, c]
  {
    reg := new GenericSamplingRegister();
    reg.Register(a);
    reg.Register(b);
    reg.Register(c);
  }

  /** The complementary register of `GenericSamplingRegisterCompl::new`: a fresh register into
      which the symbol iterator's every symbol is registered, in order. */
  method RegisterSpace<E(==, !new)>(space: Space<E>) returns (complementary: GenericSamplingRegister<E>)
    requires IsDense(space)
    ensures fresh(complementary) && complementary.Valid()
    ensures complementary.vector == Listed(space, space.size)
  {
    complementary := new GenericSamplingRegister<E>();
    var iter := new CardSymbolIterator(space);
    ghost var registered: seq<E> := [];
    var next := iter.Next();
    while next.Some?
      invariant fresh(complementary) && fresh(iter) && complementary.Valid() && iter.Valid()
      invariant iter.space == space && iter.iteratorPosition <= space.size + 1
      invariant next.Some? ==> iter.iteratorPosition <= space.size
      invariant next.None? ==> space.size < iter.iteratorPosition
      invariant iter.yielded == registered + (if next.Some? then [next.value] else [])
      invariant complementary.vector == registered
      decreases space.size + 1 - iter.iteratorPosition
    {
      NextIsNew(space, iter.iteratorPosition, registered, next.value);
      IndexesMembers(complementary.registerMap, complementary.vector, next.value);
      complementary.Register(next.value);
      registered := registered + [next.value];
      next := iter.Next();
    }
    ListedDense(space, iter.iteratorPosition);
  }

  /** A dense space's iterator never yields a symbol twice. */
  lemma NextIsNew<E(!new)>(space: Space<E>, k: nat, registered: seq<E>, next: E)
    requires IsDense(space) && Listed(space, k) == registered + [next]
    ensures next !in registered
  {
    ListedDense(space, k);
    var l := Listed(space, k);
    forall j | 0 <= j < |registered|
      ensures registered[j] != next
    {
      assert l[j] == registered[j] && l[|registered|] == next;
    }
  }

  // ---------------------------------------------------------------------------------------------
  // The complemented register

  class GenericSamplingRegisterCompl<E(==, !new)> {
    const register: GenericSamplingRegister<E>
    const complementaryRegister: GenericSamplingRegister<E>

    /** Both registers are valid and every element is in exactly one of them. */
    ghost predicate Valid()
      reads this, register, complementaryRegister
    {
      register != complementaryRegister && register.Valid() && complementaryRegister.Valid() &&
      forall e :: e in register.registerMap <==> e !in complementaryRegister.registerMap
    }

    /** `new`: every symbol of the space, in iteration order, registered in the complementary
        register, and none in the main one. */
    constructor (space: Space<E>)
      requires IsDense(space)
      ensures Valid() && fresh(register) && fresh(complementaryRegister)
      ensures register.vector == [] && complementaryRegister.vector == Listed(space, space.size)
    {
      var complementary := RegisterSpace(space);
      register := new GenericSamplingRegister<E>();
      complementaryRegister := complementary;
      new;
      forall e
        ensures e in register.registerMap <==> e !in complementaryRegister.registerMap
      {
        ListedCovers(space, e);
        IndexesMembers(complementaryRegister.registerMap, complementaryRegister.vector, e);
      }
    }

    /** `is_registered`: registered in the main register, which is being absent from the
        complementary one. */
    predicate IsRegistered(e: E)
      reads this, register
      ensures IsRegistered(e) <==> e in register.registerMap
    {
      register.IsRegistered(e)
    }

    /** `register`: the element leaves the complementary register and joins the main one. */
    method Register(e: E)
      requires Valid()
      modifies register, complementaryRegister
      ensures Valid() && IsRegistered(e)
      ensures register.registerMap.Keys == old(register.registerMap).Keys + {e}
      ensures complementaryRegister.registerMap.Keys == old(complementaryRegister.registerMap).Keys - {e}
    {
      complementaryRegister.Unregister(e);
      register.Register(e);
    }

    /** `unregister`: the element leaves the main register and joins the complementary one. */
    method Unregister(e: E)
      requires Valid()
      modifies register, complementaryRegister
      ensures Valid() && !IsRegistered(e)
      ensures register.registerMap.Keys == old(register.registerMap).Keys - {e}
      ensures complementaryRegister.registerMap.Keys == old(complementaryRegister.registerMap).Keys + {e}
    {
      register.Unregister(e);
      complementaryRegister.Register(e);
    }

    /** `peek_sample`: a registered element drawn from the main register. */
    function PeekSample(index: nat): (r: Option<E>)
      reads this, register
      requires index < |register.vector|
      ensures r.Some? && r.value in register.vector
    {
      register.PeekSample(index)
    }

    /** `pop_sample`: an element drawn from the main register moves to the complementary one. */
    method PopSample(index: nat) returns (r: Option<E>)
      requires Valid() && index < |register.vector|
      modifies register, complementaryRegister
      ensures Valid() && r.Some? && r.value == old(register.vector)[index] && !IsRegistered(r.value)
      ensures register.registerMap.Keys == old(register.registerMap).Keys - {r.value}
      ensures complementaryRegister.registerMap.Keys == old(complementaryRegister.registerMap).Keys + {r.value}
    {
      r := register.PopSample(index);
      complementaryRegister.Register(r.value);
    }

    /** `peek_sample_unr`: an unregistered element drawn from the complementary register. */
    function PeekSampleUnr(index: nat): (r: Option<E>)
      reads this, register, complementaryRegister
      requires index < |complementaryRegister.vector|
      ensures r.Some? && r.value in complementaryRegister.vector
      ensures Valid() ==> !IsRegistered(r.value)
    {
      var r := complementaryRegister.PeekSample(index);
      IndexesMembers(complementaryRegister.registerMap, complementaryRegister.vector, r.value);
      r
    }

    /** `pop_sample_unr`: an element drawn from the complementary register becomes registered,
        pushed at the end of the main register's vector. */
    method PopSampleUnr(index: nat) returns (r: Option<E>)
      requires Valid() && index < |complementaryRegister.vector|
      modifies register, complementaryRegister
      ensures Valid() && r.Some? && r.value == old(complementaryRegister.vector)[index]
      ensures IsRegistered(r.value)
      ensures register.vector == old(register.vector) + [r.value]
      ensures register.registerMap.Keys == old(register.registerMap).Keys + {r.value}
      ensures complementaryRegister.registerMap.Keys == old(complementaryRegister.registerMap).Keys - {r.value}
    {
      r := complementaryRegister.PopSample(index);
      register.Register(r.value);
    }
  }

  /** Drawing an unregistered element into an empty main register, registering it again and
      then popping the main register's only slot returns that same element. */
  method PopUnregisteredThenPop<E(==, !new)>(reg: GenericSamplingRegisterCompl<E>, index: nat)
    returns (unregistered: E, popped: E)
    requires reg.Valid() && reg.register.vector == [] && index < |reg.complementaryRegister.vector|
    modifies reg.register, reg.complementaryRegister
    ensures reg.Valid() && popped == unregistered && !reg.IsRegistered(popped)
  {
    var u := reg.PopSampleUnr(index);
    unregistered := u.value;
    reg.Register(unregistered);
    var p := reg.PopSample(0);
    popped := p.value;
  }
}
