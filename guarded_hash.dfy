/**
 * GuardedHash_c: a name -> refcounted-pointer map. The read-write lock is
 * not modelled; every operation runs alone. Reference counts are ghost
 * bookkeeping: `refs` holds one element per reference the hash has taken
 * (AddRef) and not yet dropped (Release), `lent` the references it has
 * handed to callers, and the invariant is that every other reference is
 * held by exactly one entry of the map.
 */
module GuardedHash {

  /** A stored pointer: null, or an object identified by `id`. */
  datatype Ref = Null | Ptr(id: nat)

  /** The keys whose entry points at object `id`. */
  ghost function Holders(m: map<string, Ref>, id: nat): set<string>
  {
    set k | k in m && m[k] == Ptr(id)
  }

  /** How an update of one key changes the holders of an object. */
  lemma HoldersUpdate(m: map<string, Ref>, k: string, v: Ref, id: nat)
    ensures |Holders(m[k := v], id)|
         == |Holders(m, id)| - (if k in m && m[k] == Ptr(id) then 1 else 0) + (if v == Ptr(id) then 1 else 0)
  {
    HoldersRemove(m, k, id);
    assert m[k := v] - {k} == m - {k};
    HoldersRemove(m[k := v], k, id);
  }

  /** How removing a key changes the holders of an object. */
  lemma HoldersRemove(m: map<string, Ref>, k: string, id: nat)
    ensures |Holders(m - {k}, id)| == |Holders(m, id)| - (if k in m && m[k] == Ptr(id) then 1 else 0)
  {
    var before, after := Holders(m, id), Holders(m - {k}, id);
    assert after == before - {k};
    if k in m && m[k] == Ptr(id) {
      assert before == after + {k};
    }
  }

  /** SafeAddRef / SafeRelease on a possibly-null pointer. */
  function RefOf(v: Ref): multiset<nat>
  {
    if v.Ptr? then multiset{v.id} else multiset{}
  }

  /** The value under a key, null when the key is absent. */
  function ValueAt(m: map<string, Ref>, k: string): Ref
  {
    if k in m then m[k] else Null
  }

  /** Every reference taken is held by exactly one entry or lent out. */
  ghost predicate Accounted(m: map<string, Ref>, refs: multiset<nat>, lent: multiset<nat>)
  {
    forall id: nat :: refs[id] == |Holders(m, id)| + lent[id]
  }

  lemma AccountedEmpty(lent: multiset<nat>)
    ensures Accounted(map[], lent, lent)
  {
    forall id: nat ensures lent[id] == |Holders(map[], id)| + lent[id] {
      assert Holders(map[], id) == {};
    }
  }

  /** Release the previous value of a key, store and adopt a new one. */
  lemma AccountedUpdate(m: map<string, Ref>, refs: multiset<nat>, lent: multiset<nat>, k: string, v: Ref)
    requires Accounted(m, refs, lent)
    ensures Accounted(m[k := v], refs - RefOf(ValueAt(m, k)) + RefOf(v), lent)
  {
    var refs' := refs - RefOf(ValueAt(m, k)) + RefOf(v);
    forall id: nat ensures refs'[id] == |Holders(m[k := v], id)| + lent[id] {
      HoldersUpdate(m, k, v, id);
      if ValueAt(m, k) == Ptr(id) {
        assert k in Holders(m, id);
      }
    }
  }

  /** Release the value of a key and remove it. */
  lemma AccountedRemove(m: map<string, Ref>, refs: multiset<nat>, lent: multiset<nat>, k: string)
    requires Accounted(m, refs, lent)
    ensures Accounted(m - {k}, refs - RefOf(ValueAt(m, k)), lent)
  {
    var refs' := refs - RefOf(ValueAt(m, k));
    forall id: nat ensures refs'[id] == |Holders(m - {k}, id)| + lent[id] {
      HoldersRemove(m, k, id);
      if ValueAt(m, k) == Ptr(id) {
        assert k in Holders(m, id);
      }
    }
  }

  /** Take a reference on behalf of a caller. */
  lemma AccountedLend(m: map<string, Ref>, refs: multiset<nat>, lent: multiset<nat>, r: Ref)
    requires Accounted(m, refs, lent)
    ensures Accounted(m, refs + RefOf(r), lent + RefOf(r))
  {
  }

  /** With no entries left, the references taken are exactly those lent. */
  lemma AccountedNoEntries(refs: multiset<nat>, lent: multiset<nat>)
    requires Accounted(map[], refs, lent)
    ensures refs == lent
  {
    forall id: nat ensures refs[id] == lent[id] {
      assert Holders(map[], id) == {};
    }
  }

  class GuardedHash {
    /** m_hIndexes. */
    var entries: map<string, Ref>
    /** Whether an AddOrReplace hook is installed, and the calls it received. */
    const hooked: bool
    var hookCalls: seq<(Ref, string)>
    ghost var refs: multiset<nat>
    ghost var lent: multiset<nat>

    ghost predicate Valid()
      reads this
    {
      Accounted(entries, refs, lent)
    }

    constructor (hooked: bool)
      ensures Valid() && entries == map[] && refs == multiset{} && lent == multiset{}
      ensures this.hooked == hooked && hookCalls == []
    {
      entries := map[];
      this.hooked := hooked;
      hookCalls := [];
      refs := multiset{};
      lent := multiset{};
      AccountedEmpty(multiset{});
    }

    /** AddUniq: store and adopt the value under a new key; an existing key
        is left untouched and the call reports false. */
    method AddUniq(value: Ref, key: string) returns (added: bool)
      requires Valid()
      modifies this
      ensures Valid() && lent == old(lent) && hookCalls == old(hookCalls)
      ensures added <==> key !in old(entries)
      ensures added ==> entries == old(entries)[key := value] && refs == old(refs) + RefOf(value)
      ensures !added ==> entries == old(entries) && refs == old(refs)
    {
      if key in entries {
        return false;
      }
      AccountedUpdate(entries, refs, lent, key, value);
      refs := refs - RefOf(ValueAt(entries, key)) + RefOf(value);
      entries := entries[key := value];
      added := true;
    }

    /** AddOrReplace: release the previous value, store and adopt the new
        one, then tell the hook. */
    method AddOrReplace(value: Ref, key: string)
      requires Valid()
      modifies this
      ensures Valid() && lent == old(lent)
      ensures entries == old(entries)[key := value]
      ensures refs == old(refs) - RefOf(ValueAt(old(entries), key)) + RefOf(value)
      ensures hookCalls == old(hookCalls) + (if hooked then [(value, key)] else [])
    {
      AccountedUpdate(entries, refs, lent, key, value);
      refs := refs - RefOf(ValueAt(entries, key)) + RefOf(value);
      entries := entries[key := value];
      if hooked {
        hookCalls := hookCalls + [(value, key)];
      }
    }

    /** Delete: release the entry's value and remove the key; reports
        whether the key was there. */
    method Delete(key: string) returns (deleted: bool)
      requires Valid()
      modifies this
      ensures Valid() && lent == old(lent) && hookCalls == old(hookCalls)
      ensures deleted <==> key in old(entries)
      ensures entries == old(entries) - {key}
      ensures refs == old(refs) - RefOf(ValueAt(old(entries), key))
    {
      AccountedRemove(entries, refs, lent, key);
      refs := refs - RefOf(ValueAt(entries, key));
      deleted := key in entries;
      entries := entries - {key};
    }

    /** DeleteIfNull: remove the key only when its value is null; a non-null
        entry is refused. */
    method DeleteIfNull(key: string) returns (deleted: bool)
      requires Valid()
      modifies this
      ensures Valid() && refs == old(refs) && lent == old(lent) && hookCalls == old(hookCalls)
      ensures ValueAt(old(entries), key) != Null ==> !deleted && entries == old(entries)
      ensures ValueAt(old(entries), key) == Null ==>
                deleted == (key in old(entries)) && entries == old(entries) - {key}
    {
      if key in entries && entries[key] != Null {
        return false;
      }
      AccountedRemove(entries, refs, lent, key);
      deleted := key in entries;
      entries := entries - {key};
    }

    function GetLength(): (n: nat)
      reads this
      ensures n == |entries|
    {
      |entries|
    }

    /** Contains: the key is present, even with a null value. */
    function Contains(key: string): (r: bool)
      reads this
      ensures r <==> key in entries
    {
      key in entries
    }

    /** ReleaseAndClear: release every stored value, then empty the map. */
    method ReleaseAndClear()
      requires Valid()
      modifies this
      ensures Valid() && entries == map[] && lent == old(lent) && hookCalls == old(hookCalls)
      ensures refs == lent
    {
      var rest := entries;
      while rest != map[]
        invariant Accounted(rest, refs, lent)
        invariant lent == old(lent) && entries == old(entries) && hookCalls == old(hookCalls)
        decreases |rest|
      {
        var k :| k in rest;
        AccountedRemove(rest, refs, lent, k);
        refs := refs - RefOf(rest[k]);
        rest := rest - {k};
      }
      AccountedNoEntries(refs, lent);
      entries := map[];
    }

    /** Get: the stored value with a reference for the caller; null for an
        absent key or a null entry. */
    method Get(key: string) returns (r: Ref)
      requires Valid()
      modifies this
      ensures Valid() && entries == old(entries) && hookCalls == old(hookCalls)
      ensures r == ValueAt(entries, key)
      ensures refs == old(refs) + RefOf(r) && lent == old(lent) + RefOf(r)
    {
      if key !in entries || entries[key] == Null {
        return Null;
      }
      r := entries[key];
      AccountedLend(entries, refs, lent, r);
      refs := refs + RefOf(r);
      lent := lent + RefOf(r);
    }

    /** TryAddThenGet: adopt the value under a new key; then, new or not,
        return what the key holds with a reference for the caller. */
    method TryAddThenGet(value: Ref, key: string) returns (r: Ref)
      requires Valid()
      modifies this
      ensures Valid() && hookCalls == old(hookCalls)
      ensures key in old(entries) ==> entries == old(entries) && r == old(entries)[key]
      ensures key !in old(entries) ==> entries == old(entries)[key := value] && r == value
      ensures lent == old(lent) + RefOf(r)
    {
      if key !in entries {
        AccountedUpdate(entries, refs, lent, key, value);
        refs := refs - RefOf(ValueAt(entries, key)) + RefOf(value);
        entries := entries[key := value];
      }
      r := entries[key];
      AccountedLend(entries, refs, lent, r);
      refs, lent := refs + RefOf(r), lent + RefOf(r);
    }
  }

  // -----------------------------------------------------------------------
  // Sequences of operations on a fresh hash.
  // -----------------------------------------------------------------------

  /** A key added once cannot be added again, and Get returns the first
      value; TryAddThenGet returns it too. */
  method AddUniqIsFirstWins(first: Ref, second: Ref, key: string) returns (ok1: bool, ok2: bool, got: Ref, tried: Ref)
    ensures ok1 && !ok2
    ensures got == first && tried == first
  {
    var h := new GuardedHash(false);
    ok1 := h.AddUniq(first, key);
    ok2 := h.AddUniq(second, key);
    got := h.Get(key);
    tried := h.TryAddThenGet(second, key);
  }

  /** AddOrReplace leaves the key mapped to the newest value and calls the
      hook once per call. */
  method ReplaceKeepsNewest(a: Ref, b: Ref, key: string) returns (got: Ref, calls: seq<(Ref, string)>)
    ensures got == b
    ensures calls == [(a, key), (b, key)]
  {
    var h := new GuardedHash(true);
    h.AddOrReplace(a, key);
    h.AddOrReplace(b, key);
    got := h.Get(key);
    calls := h.hookCalls;
  }

  /** DeleteIfNull removes a null entry and refuses a non-null one; Delete
      removes either; a missing key is absent for Get and Contains. */
  method DeleteVariants(id: nat, key: string)
    returns (refused: bool, removedNull: bool, removed: bool, stillThere: bool, got: Ref)
    ensures refused && removedNull && removed && !stillThere && got == Null
  {
    var h := new GuardedHash(false);
    var _ := h.AddUniq(Ptr(id), key);
    var r1 := h.DeleteIfNull(key);
    refused := !r1;
    removed := h.Delete(key);
    var _ := h.AddUniq(Null, key);
    removedNull := h.DeleteIfNull(key);
    stillThere := h.Contains(key);
    got := h.Get(key);
  }

  /** After ReleaseAndClear only the references lent to callers remain. */
  method ClearDropsOwnedRefs(a: nat, b: nat) returns (ghost owned: multiset<nat>, size: nat, got: Ref)
    ensures owned == multiset{a} && size == 0 && got == Null
  {
    var h := new GuardedHash(false);
    var _ := h.AddUniq(Ptr(a), "x");
    var _ := h.AddUniq(Ptr(b), "y");
    var _ := h.Get("x");
    h.ReleaseAndClear();
    owned := h.refs;
    size := h.GetLength();
    got := h.Get("y");
  }
}
