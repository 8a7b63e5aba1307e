/** The hash set with a recency list threaded over the same slots. */
module LruSets {
  import opened Links
  import opened HashChains
  import opened SlotSets
  import opened MemSets
  import opened LruSpec

  class LruSet<K(==), T(0)> {
    const base: MemSet<K, T>
    const link: array<Link>
    ghost var order: seq<int>  // slots, most recently used first
    ghost var keys: seq<K>     // their keys

    ghost predicate Valid()
      reads this, base, base.buckets, base.next, base.value, link
    {
      && (link as object) != base.value && (link as object) != base.buckets && (link as object) != base.next
      && base.Valid()
      && link.Length == base.value.Length + 1
      && Ring(link[..], order)
      && Agree(order, keys, base.slot)
    }

    ghost function Model(): (m: map<K, T>)
      reads this, base, base.buckets, base.next, base.value, link
      requires Valid()
      ensures (forall k :: k in m ==> k in keys) && (forall k :: k in keys ==> k in m)
    {
      hide SetOk, Ring;
      base.StoredLive();
      base.Model()
    }

    constructor (keyOf: T -> K, hash: K -> nat, maxNum: nat, bucketsNum: nat)
      requires 0 < maxNum && 0 < bucketsNum
      ensures Valid() && fresh(base) && fresh(base.buckets) && fresh(base.next) && fresh(base.value) && fresh(link)
      ensures base.keyOf == keyOf && base.value.Length == maxNum
      ensures keys == [] && Model() == map[]
    {
      base := new MemSet(keyOf, hash, maxNum, bucketsNum);
      link := new Link[maxNum + 1](_ => Link(0, 0));
      order := [];
      keys := [];
    }

    method Clear()
      requires Valid()
      modifies this, base, base.buckets, base.next, link
      ensures Valid() && keys == [] && Model() == map[]
    {
      base.Clear();
      assert base.slot == map[] by {
        base.StoredLive();
        assert base.Model() == map[];
        if k :| k in base.slot {
          assert k in base.Model();
        }
      }
      link[0] := Link(0, 0);
      order := [];
      keys := [];
    }

    /** Redirects the neighbours of a slot in the recency list past it. */
    method Unlink(index: int)
      requires 0 <= index < link.Length && 0 <= link[index].prev < link.Length && 0 <= link[index].next < link.Length
      modifies link
      ensures link[..] == Unlinked(old(link[..]), index)
    {
      var next := link[index].next;
      var prev := link[index].prev;
      link[prev] := link[prev].(next := next);
      link[next] := link[next].(prev := prev);
    }

    /** Puts a slot at the front of the recency list. */
    method LinkFront(index: int)
      requires 0 < index < link.Length && 0 <= link[0].next < link.Length
      modifies link
      ensures link[..] == PushedFront(old(link[..]), index)
    {
      var first := link[0].next;
      link[first] := link[first].(prev := index);
      link[index] := link[index].(prev := 0);
      link[index] := link[index].(next := first);
      link[0] := link[0].(next := index);
    }

    /** Erases a key. */
    method Erase(key: K)
      requires Valid()
      modifies this, base, base.buckets, base.next, link
      ensures Valid()
      ensures keys == Removed(old(keys), key)
      ensures Model() == Minus(old(Model()), key)
    {
      hide Ring, Agree, Unlinked, MemSet.Valid, MemSet.Model, Without;
      ghost var i := SlotPlace(key);
      var index := base.Erase(key);
      if index > 0 {
        Unlink(index);
        link[index] := Link(0, 0);
        order := Without(order, i);
        keys := Without(keys, i);
      }
    }

    /** Where a stored key is in the recency list, and what taking it out does. */
    lemma SlotPlace(key: K) returns (i: nat)
      requires Valid()
      ensures key in keys <==> key in base.slot
      ensures key !in base.slot ==> Minus(base.slot, key) == base.slot
      ensures key in base.slot ==>
        && i == IndexOf(keys, key) && i < |order| && order[i] == base.slot[key]
        && var x := base.slot[key];
           && 0 < x < link.Length && 0 <= link[x].prev < link.Length && 0 <= link[x].next < link.Length
           && Ring(Unlinked(link[..], x), Without(order, i))
           && Ring(Unlinked(link[..], x)[x := Link(0, 0)], Without(order, i))
           && Agree(Without(order, i), Without(keys, i), Minus(base.slot, key))
           && x !in Without(order, i)
    {
      hide MemSet.Valid, Ring, Unlinked, Without;
      base.StoredLive();
      i := 0;
      if key in base.slot {
        i := IndexOf(keys, key);
        var x := base.slot[key];
        RingUnlink(link[..], order, i);
        AgreeRemove(order, keys, base.slot, i);
        var u := Unlinked(link[..], x);
        RingFrame(u, u[x := Link(0, 0)], Without(order, i));
      }
    }

    /** Marks a key as just used; the result is its slot, 0 if it is not stored. */
    method Active(key: K) returns (index: int)
      requires Valid()
      modifies this, link
      ensures Valid()
      ensures keys == Used(old(keys), key) && Model() == old(Model())
      ensures index == if key in base.slot then base.slot[key] else 0
    {
      hide Ring, Agree, Unlinked, PushedFront, MemSet.Valid, MemSet.Model, Without;
      ghost var i := SlotPlace(key);
      index := base.FindIndex(key);
      if index != 0 {
        UsePlace(key, i);
        Unlink(index);
        LinkFront(index);
        order := [index] + Without(order, i);
        keys := [key] + Without(keys, i);
      }
    }

    lemma UsePlace(key: K, i: nat)
      requires Valid() && key in base.slot && i < |keys| && keys[i] == key && order[i] == base.slot[key]
      requires var x := base.slot[key];
        && 0 < x < link.Length && 0 <= link[x].prev < link.Length && 0 <= link[x].next < link.Length
        && Ring(Unlinked(link[..], x), Without(order, i)) && x !in Without(order, i)
      ensures var x, u := base.slot[key], Unlinked(link[..], base.slot[key]);
        && 0 <= u[0].next < |u|
        && Ring(PushedFront(u, x), [x] + Without(order, i))
        && Agree([x] + Without(order, i), [key] + Without(keys, i), base.slot)
    {
      hide Ring, Unlinked, PushedFront, Without, MemSet.Valid;
      RingPushFront(Unlinked(link[..], base.slot[key]), Without(order, i), base.slot[key]);
      AgreeUse(order, keys, base.slot, i);
    }

    /** Drops the key at the old end, unless there is none or the callback refuses. */
    method DropOldest(cb: Option<T -> bool>) returns (dropped: bool)
      requires Valid()
      modifies this, base, base.buckets, base.next, link
      ensures Valid()
      ensures old(keys) != [] ==> old(keys)[|old(keys)| - 1] in old(Model())
      ensures dropped == (old(keys) != [] && !(cb.Some? && !cb.value(old(Model())[old(keys)[|old(keys)| - 1]])))
      ensures dropped ==>
        && keys == old(keys)[..|old(keys)| - 1]
        && Model() == Minus(old(Model()), old(keys)[|old(keys)| - 1])
      ensures !dropped ==> keys == old(keys) && Model() == old(Model())
    {
      hide Valid, Model, Minus, Removed, NoDup;
      Oldest();
      if base.Empty() {
        return false;
      }
      var last := base.Deref(link[0].prev);
      if cb.Some? && !cb.value(last) {
        return false;
      }
      Erase(base.keyOf(last));
      return true;
    }

    /** Drops up to `num` keys from the old end of the recency list. */
    method Disuse(num: nat, cb: Option<T -> bool>) returns (dropped: nat)
      requires Valid()
      modifies this, base, base.buckets, base.next, link
      ensures Valid()
      ensures dropped == Dropped(old(keys), old(Model()), num, cb)
      ensures keys == old(keys)[..|old(keys)| - dropped]
      ensures Model() == Kept(old(Model()), keys)
    {
      hide Valid, Model, Minus, Kept, NoDup, Dropping, Dropped;
      var i := 0;
      ghost var keys0, m0 := keys, Model();
      DroppingStart(m0, keys0, num, cb);
      while i < num
        invariant 0 <= i <= num
        invariant Valid() && Dropping(keys0, m0, num, cb, i, keys, Model())
      {
        DroppingStep(keys0, m0, num, cb, i, keys, Model());
        Oldest();
        var more := DropOldest(cb);
        if !more {
          DroppingMeans(keys0, m0, num, cb, i, keys, Model());
          return i;
        }
        i := i + 1;
      }
      DroppingStep(keys0, m0, num, cb, i, keys, Model());
      DroppingMeans(keys0, m0, num, cb, i, keys, Model());
      return num;
    }

    /** The sentinel's predecessor is the slot of the key at the old end of the list. */
    lemma Oldest()
      requires Valid()
      ensures base.Empty() <==> keys == []
      ensures NoDup(keys) && 0 < link.Length
      ensures keys != [] ==> 1 <= link[0].prev <= base.value.Length
      ensures keys != [] ==>
        var v, k := base.value[link[0].prev - 1], keys[|keys| - 1];
        base.keyOf(v) == k && Model()[k] == v
      ensures keys != [] ==> Removed(keys, keys[|keys| - 1]) == keys[..|keys| - 1]
    {
      hide SetOk, MemSet.Valid, Removed;
      base.StoredLive();
      AgreeSize(order, keys, base.slot);
      if keys != [] {
        var n := |order|;
        assert Node(order, n + 1) == 0 && link[..][0].prev == Node(order, n) == order[n - 1];
        assert base.slot[keys[n - 1]] == order[n - 1];
        RemovedLast(keys);
      }
    }

    /** Inserts a value at the front unless its key is stored, when there is room. */
    method InsertRoom(v: T) returns (index: int, inserted: bool)
      requires Valid() && (base.keyOf(v) in keys || |keys| < base.value.Length)
      modifies this, base, base.buckets, base.next, base.value, link
      ensures Valid()
      ensures inserted == (base.keyOf(v) !in old(keys))
      ensures inserted ==> keys == [base.keyOf(v)] + old(keys) && Model() == old(Model())[base.keyOf(v) := v]
      ensures !inserted ==> keys == old(keys) && Model() == old(Model())
      ensures base.keyOf(v) in base.slot && base.slot[base.keyOf(v)] == index
    {
      hide Ring, Agree, PushedFront, MemSet.Valid, MemSet.Model;
      ghost var k, before := base.keyOf(v), base.slot;
      Sizes(k);
      index, inserted := base.Insert2(v);
      if inserted {
        base.StoredLive();
        assert k in base.slot && base.slot[k] == index;
        NewPlace(link[..], order, keys, before, k, index);
        LinkFront(index);
        order := [index] + order;
        keys := [k] + keys;
      }
    }

    lemma Sizes(k: K)
      requires Valid()
      ensures base.Valid() && 0 < base.value.Length && base.used == |keys| <= base.value.Length
      ensures k in keys <==> k in base.slot
      ensures k in keys ==> base.slot[k] != 0
      ensures NoDup(keys)
    {
      hide SetOk, Ring;
      Oldest();
      base.StoredLive();
      AgreeSize(order, keys, base.slot);
    }

    /** Inserts a value at the front of the recency list unless its key is stored; when the set is full,
        only if forced to, and then by dropping the key at the old end, if the callback lets it go. */
    method Insert(v: T, force: bool, cb: Option<T -> bool>) returns (index: int, inserted: bool)
      requires Valid()
      modifies this, base, base.buckets, base.next, base.value, link
      ensures Valid()
      ensures (keys, Model(), inserted)
        == Inserted(old(keys), old(Model()), base.keyOf(v), v, base.value.Length, force, cb)
      ensures index == if base.keyOf(v) in base.slot then base.slot[base.keyOf(v)] else 0
      ensures |old(keys)| <= base.value.Length
      ensures inserted <==> (
        && base.keyOf(v) !in old(keys)
        && (|old(keys)| < base.value.Length
            || (force && (cb.None? || cb.value(old(Model())[old(keys)[|old(keys)| - 1]])))))
      ensures inserted ==>
        keys == [base.keyOf(v)] + old(keys)[..if |old(keys)| < base.value.Length then |old(keys)| else |old(keys)| - 1]
      ensures !inserted ==> keys == old(keys) && Model() == old(Model())
    {
      hide Valid, MemSet.Valid, Kept, Dropped, Model, Inserted, NoDup;
      ghost var k, keys0, m0 := base.keyOf(v), keys, Model();
      Sizes(k);
      KeptAll(m0, keys);
      InsertedCases(keys, m0, k, v, base.value.Length, force, cb);
      InsertedMeans(keys, m0, k, v, base.value.Length, force, cb);
      if base.Full() {
        index := base.FindIndex(base.keyOf(v));
        if index != 0 {
          return index, false;
        }
        if !force {
          return 0, false;
        }
        var dropped := Disuse(1, cb);
        Sizes(k);
        if dropped == 0 {
          assert keys == keys0 && Model() == m0;
          return 0, false;
        }
        assert keys == keys0[..|keys0| - 1] && Model() == Kept(m0, keys0[..|keys0| - 1]);
      }
      ghost var kept, rest := keys, Model();
      index, inserted := InsertRoom(v);
      assert keys == (if inserted then [k] + kept else kept) && Model() == if inserted then rest[k := v] else rest;
    }

    /** The loop from begin() to end() along the recency list: it comes to the slots of the stored keys, most recently
        used first, and ends. */
    method VisitAll() returns (visited: seq<int>)
      requires Valid()
      ensures |visited| == |keys|
      ensures forall i :: 0 <= i < |keys| ==>
        1 <= visited[i] <= base.value.Length && base.keyOf(base.value[visited[i] - 1]) == keys[i]
    {
      hide SetOk, MemSet.Valid, MemSet.Model, Model;
      base.StoredLive();
      RingNode(0);
      visited := [];
      var index := link[0].next;
      while index != 0
        invariant |visited| <= |order| && visited == order[..|visited|]
        invariant index == Node(order, |visited| + 1)
        decreases |order| - |visited|
      {
        RingNode(|visited| + 1);
        visited := visited + [index];
        index := link[index].next;
      }
      RingNode(|visited| + 1);
    }

    lemma RingNode(i: nat)
      requires Valid()
      ensures i <= |order| ==>
        0 <= Node(order, i) < link.Length && link[Node(order, i)].next == Node(order, i + 1)
      ensures 1 <= i <= |order| ==> Node(order, i) != 0
    {
      hide SetOk, MemSet.Valid;
    }
  }

  /** A slot that no stored key has can go to the front. */
  lemma NewPlace<K>(links: seq<Link>, order: seq<int>, keys: seq<K>, slot: map<K, int>, k: K, x: int)
    requires Ring(links, order) && Agree(order, keys, slot) && k !in slot
    requires 0 < x < |links| && forall l :: l in slot ==> slot[l] != x
    ensures 0 <= links[0].next < |links|
    ensures Ring(PushedFront(links, x), [x] + order)
    ensures Agree([x] + order, [k] + keys, slot[k := x])
  {
    OrderMember(order, keys, slot, x);
    RingPushFront(links, order, x);
    AgreePrepend(order, keys, slot, k, x);
  }
}
