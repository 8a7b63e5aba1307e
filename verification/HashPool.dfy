/** The hash map whose nodes are blocks of a fixed-size pool. */
module HashPools {
  import opened Links
  import opened HashChains
  import opened SlotSets
  import PoolSpec
  import opened MemPools

  class HashMemPool<K(==, 0), V(0)> {
    const hash: K -> nat
    const zero: V                // what a zeroed block holds
    const pool: FixedMemPool
    const buckets: array<int>
    const first: array<K>        // the fields of the nodes, entry x - 1 for block x
    const second: array<V>
    const next: array<int>
    ghost var chains: seq<seq<int>>
    ghost var slot: map<K, int>  // the block of each key

    ghost predicate Apart()
      reads this
    {
      && buckets != next && (first as object) !in {buckets as object, next, second}
      && (second as object) !in {buckets as object, next}
      && (pool.link as object) !in {buckets as object, next, first, second}
      && pool.maxNum == next.Length == first.Length == second.Length
    }

    ghost predicate Valid()
      reads this, pool, pool.link, buckets, first, second, next
    {
      && Apart()
      && pool.Valid()
      && Table(buckets[..], next[..], first[..], hash, chains, slot)
      && SameBlocks(first[..], slot, pool.live)
      && |slot| == |pool.live|
    }

    /** The stored map. */
    ghost function Model(): (m: map<K, V>)
      reads this, pool, pool.link, buckets, first, second, next
      requires Valid()
    {
      ModelOf(slot, second[..])
    }

    lemma Bounds()
      requires Valid()
      ensures forall k :: k in slot ==> 1 <= slot[k] <= second.Length && slot[k] in pool.live && first[slot[k] - 1] == k
      ensures 0 < buckets.Length == |chains|
      ensures pool.usedNum == |slot| <= pool.maxNum
    {
      pool.LiveCount();
    }

    constructor (hash: K -> nat, zero: V, pool: FixedMemPool, bucketNum: nat)
      requires 0 < bucketNum && pool.Valid() && pool.live == []
      ensures Valid() && this.pool == pool && this.zero == zero && Model() == map[]
      ensures fresh(buckets) && fresh(first) && fresh(second) && fresh(next)
    {
      this.hash := hash;
      this.zero := zero;
      this.pool := pool;
      buckets := new int[bucketNum](_ => 0);
      first := new K[pool.maxNum];
      second := new V[pool.maxNum];
      next := new int[pool.maxNum];
      chains := seq(bucketNum, _ => []);
      slot := map[];
    }

    /** The block of the key, 0 if there is none. */
    method FindRef(key: K) returns (ref: int)
      requires Valid()
      ensures ref == if key in slot then slot[key] else 0
    {
      hide BucketOf;
      var index := BucketOf(hash, key, buckets.Length);
      ghost var c, i := chains[index], 0;
      ref := buckets[index];
      while ref != 0
        invariant 0 <= i <= |c|
        invariant Chain(next[..], ref, c[i..])
        invariant key in slot ==> slot[key] in c[i..]
        decreases |c| - i
      {
        assert c[i..][0] == c[i] && c[i] in c;
        assert Live(first[..], slot, c[i]);
        if first[ref - 1] == key {
          return ref;
        }
        ref := next[ref - 1];
        assert c[i..] == [c[i]] + c[i + 1..];
        i := i + 1;
      }
      assert c[i..] == [];
    }

    /** Fills a fresh block as a node and puts it at the head of its bucket. */
    method FillNode(x: int, index: nat, key: K)
      requires Apart() && 1 <= x <= next.Length && index < buckets.Length
      modifies first, second, next, buckets
      ensures first[..] == old(first[..])[x - 1 := key]
      ensures second[..] == old(second[..])[x - 1 := zero]
      ensures next[..] == old(next[..])[x - 1 := old(buckets[index])]
      ensures buckets[..] == old(buckets[..])[index := x]
    {
      second[x - 1] := zero;
      first[x - 1] := key;
      next[x - 1] := buckets[index];
      buckets[index] := x;
    }

    /** Inserts a node with a zeroed value; on a full pool it fails even if the key is stored. */
    method Insert(key: K) returns (ref: int, inserted: bool)
      requires Valid()
      modifies this, pool, pool.link, first, second, next, buckets
      ensures Valid()
      ensures inserted == (|old(Model())| < pool.maxNum && key !in old(Model()))
      ensures Model() == if inserted then old(Model())[key := zero] else old(Model())
      ensures ref == if |old(Model())| < pool.maxNum then (if key in slot then slot[key] else 0) else 0
      ensures inserted ==> key in slot
      ensures !inserted ==> slot == old(slot)
    {
      hide Table, SameBlocks, ModelOf, BucketOf, Live, FixedMemPool.Valid;
      Bounds();
      ModelSize(slot, second[..]);
      if pool.Full() {
        return 0, false;
      }
      var nodeRef := FindRef(key);
      if nodeRef != 0 {
        return nodeRef, false;
      }
      ref := AddNode(key);
      return ref, true;
    }

    method AddNode(key: K) returns (ref: int)
      requires Valid() && key !in slot && |slot| < pool.maxNum
      modifies this, pool, pool.link, first, second, next, buckets
      ensures Valid()
      ensures slot == old(slot)[key := ref] && Model() == old(Model())[key := zero]
    {
      hide Table, SameBlocks, ModelOf, BucketOf, Live, FixedMemPool.Valid, FixedMemPool.IntToPtr, FixedMemPool.PtrToIndex;
      Bounds();
      pool.LiveCount();
      ghost var live := pool.live;
      var node := pool.Alloc(true);
      pool.PtrIndex(node);
      ref := pool.PtrToIndex(node);
      var index := BucketOf(hash, key, buckets.Length);
      ModelOfInsert(slot, second[..], key, ref, zero);
      TableInsert(buckets[..], next[..], first[..], hash, chains, slot, key, ref);
      SameBlocksInsert(first[..], slot, live, key, ref);
      FillNode(ref, index, key);
      chains := chains[index := [ref] + chains[index]];
      slot := slot[key := ref];
    }

    /** Inserts a value unless the key is stored or the pool is full. */
    method InsertValue(key: K, v: V) returns (ref: int, inserted: bool)
      requires Valid()
      modifies this, pool, pool.link, first, second, next, buckets
      ensures Valid()
      ensures inserted == (|old(Model())| < pool.maxNum && key !in old(Model()))
      ensures Model() == if inserted then old(Model())[key := v] else old(Model())
      ensures ref == if |old(Model())| < pool.maxNum then (if key in slot then slot[key] else 0) else 0
    {
      hide Valid, Table, SameBlocks, ModelOf, FixedMemPool.Valid, Live;
      ref, inserted := Insert(key);
      if inserted {
        StoreValue(ref, key, v);
      }
    }

    /** Overwrites the value of a stored key. */
    method StoreValue(ref: int, ghost key: K, v: V)
      requires Valid() && key in slot && ref == slot[key]
      modifies second
      ensures Valid() && Model() == old(Model())[key := v]
    {
      hide Table, SameBlocks, ModelOf, FixedMemPool.Valid, Live;
      Bounds();
      OwnBlocks(key);
      ModelOfUpdate(slot, second[..], key, v);
      second[ref - 1] := v;
    }

    lemma OwnBlocks(key: K)
      requires Valid() && key in slot
      ensures forall l :: l in slot && l != key ==> slot[l] != slot[key]
    {
      hide Table, SameBlocks, ModelOf, FixedMemPool.Valid, Live;
      Bounds();
      forall l | l in slot && l != key ensures slot[l] != slot[key] {
        assert first[slot[l] - 1] == l && first[slot[key] - 1] == key;
      }
    }

    /** The block of the key, inserted with a zeroed value if need be; 0 if that fails. */
    method GetOrInsert(key: K) returns (ref: int)
      requires Valid()
      modifies this, pool, pool.link, first, second, next, buckets
      ensures Valid()
      ensures Model()
        == if key !in old(Model()) && |old(Model())| < pool.maxNum then old(Model())[key := zero] else old(Model())
      ensures ref == if key in slot then slot[key] else 0
      ensures key in old(Model()) ==> slot == old(slot)
    {
      hide Table, SameBlocks, ModelOf, FixedMemPool.Valid;
      Bounds();
      ModelSize(slot, second[..]);
      ref := FindRef(key);
      if ref != 0 {
        return ref;
      }
      var inserted;
      ref, inserted := Insert(key);
    }

    /** The walk of erase: the block of the key, or 0, and what points at it (0 for the bucket head). */
    method FindLink(index: nat, key: K) returns (pre: int, ref: int, ghost i: nat)
      requires Valid() && index < buckets.Length && index == BucketOf(hash, key, buckets.Length)
      ensures ref == if key in slot then slot[key] else 0
      ensures ref != 0 ==>
        && i < |chains[index]| && ref == chains[index][i]
        && pre == if i == 0 then 0 else chains[index][i - 1]
    {
      hide BucketOf;
      ghost var c := chains[index];
      pre, i := 0, 0;
      ref := buckets[index];
      while ref != 0
        invariant 0 <= i <= |c|
        invariant Chain(next[..], ref, c[i..])
        invariant key in slot ==> slot[key] in c[i..]
        invariant pre == if i == 0 then 0 else c[i - 1]
        decreases |c| - i
      {
        assert c[i..][0] == c[i] && c[i] in c;
        assert Live(first[..], slot, c[i]);
        if first[ref - 1] == key {
          return;
        }
        pre := ref;
        ref := next[ref - 1];
        assert c[i..] == [c[i]] + c[i + 1..];
        i := i + 1;
      }
      assert c[i..] == [];
    }

    /** Redirects what points at the i-th node of the bucket past it. */
    method Bypass(index: nat, pre: int, ref: int, ghost c: seq<int>, ghost i: nat)
      requires buckets != next && index < buckets.Length
      requires i < |c| && ref == c[i] && 1 <= ref <= next.Length
      requires if i == 0 then pre == 0 else pre == c[i - 1] && 1 <= pre <= next.Length
      modifies buckets, next
      ensures buckets[..] == HeadsWithout(old(buckets[..]), old(next[..]), index, c, i)
      ensures next[..] == LinksWithout(old(next[..]), c, i)
    {
      if pre == 0 {
        buckets[index] := next[ref - 1];
      } else {
        next[pre - 1] := next[ref - 1];
      }
    }

    /** The node in block `ref` is out of its bucket, but the block has not been given back yet. */
    ghost predicate Detached(ref: int)
      reads this, pool, pool.link, buckets, first, second, next
    {
      && Apart()
      && pool.Valid()
      && Table(buckets[..], next[..], first[..], hash, chains, slot)
      && ref in pool.live
      && SameBlocksBut(first[..], slot, pool.live, ref)
      && |slot| == |pool.live| - 1
    }

    /** Takes the i-th node of the bucket out of it. */
    method UnlinkNode(index: nat, pre: int, ref: int, ghost i: nat, ghost key: K)
      requires Valid() && index < buckets.Length && i < |chains[index]| && key in slot && slot[key] == ref
      requires ref == chains[index][i] && pre == if i == 0 then 0 else chains[index][i - 1]
      modifies this, next, buckets
      ensures Detached(ref)
      ensures slot == Minus(old(slot), key) && second[..] == old(second[..])
    {
      hide Table, SameBlocks, SameBlocksBut, Live, HeadsWithout, LinksWithout, Without, FixedMemPool.Valid, BucketOf, Minus;
      Bounds();
      pool.LiveCount();
      TableErase(buckets[..], next[..], first[..], hash, chains, slot, index, i);
      SameBlocksErase(first[..], slot, pool.live, key);
      ghost var c := chains[index];
      chains := chains[index := Without(c, i)];
      slot := Minus(slot, key);
      Bypass(index, pre, ref, c, i);
    }

    /** Gives the block of a detached node back. */
    method FreeNode(ref: int)
      requires Detached(ref)
      modifies pool, pool.link
      ensures Valid()
      ensures second[..] == old(second[..])
    {
      hide Table, SameBlocks, Live, Without, FixedMemPool.Valid, FixedMemPool.IntToPtr, FixedMemPool.PtrToIndex;
      ghost var live := pool.live;
      pool.LiveCount();
      var node := pool.IntToPtr(ref);
      pool.PtrIndex(node);
      var freed := pool.Free(node);
      assert freed;
      ghost var j: nat :| j < |live| && live[j] == ref && pool.live == Without(live, j);
    }

    /** Takes the i-th node of the bucket out and gives its block back. */
    method EraseNode(index: nat, pre: int, ref: int, ghost i: nat, ghost key: K)
      requires Valid() && index < buckets.Length && i < |chains[index]| && key in slot && slot[key] == ref
      requires ref == chains[index][i] && pre == if i == 0 then 0 else chains[index][i - 1]
      modifies this, pool, pool.link, next, buckets
      ensures Valid()
      ensures slot == Minus(old(slot), key) && Model() == Minus(old(Model()), key)
    {
      hide Valid, ModelOf, Detached;
      Bounds();
      ModelOfErase(slot, second[..], key);
      UnlinkNode(index, pre, ref, i, key);
      FreeNode(ref);
      Bounds();
    }

    /** Erases the key; false if it was not stored. */
    method Erase(key: K) returns (erased: bool)
      requires Valid()
      modifies this, pool, pool.link, next, buckets
      ensures Valid()
      ensures erased == (key in old(Model()))
      ensures slot == Minus(old(slot), key) && Model() == Minus(old(Model()), key)
    {
      hide Table, SameBlocks, ModelOf, BucketOf, FixedMemPool.Valid;
      Bounds();
      if key !in slot {
        assert Minus(slot, key) == slot;
        ModelOfErase(slot, second[..], key);
      }
      var index := BucketOf(hash, key, buckets.Length);
      var pre, ref;
      ghost var i;
      pre, ref, i := FindLink(index, key);
      if ref == 0 {
        return false;
      }
      EraseNode(index, pre, ref, i, key);
      return true;
    }
  }

  /** The live blocks of the pool are exactly the nodes of the stored keys. */
  ghost predicate SameBlocks<K>(ky: seq<K>, slot: map<K, int>, live: seq<int>)
  {
    && (forall k :: k in slot ==> slot[k] in live)
    && (forall x :: x in live ==> Live(ky, slot, x))
  }

  /** The live blocks but one are exactly the nodes of the stored keys. */
  ghost predicate SameBlocksBut<K>(ky: seq<K>, slot: map<K, int>, live: seq<int>, ref: int)
  {
    forall j: nat :: j < |live| && live[j] == ref ==> SameBlocks(ky, slot, Without(live, j))
  }

  lemma SameBlocksInsert<K>(ky: seq<K>, slot: map<K, int>, live: seq<int>, k: K, x: int)
    requires SameBlocks(ky, slot, live) && k !in slot && 1 <= x <= |ky| && x !in live
    ensures SameBlocks(ky[x - 1 := k], slot[k := x], [x] + live)
  {
  }

  lemma {:induction false} ModelSize<K, V>(slot: map<K, int>, vals: seq<V>)
    requires forall k :: k in slot ==> 1 <= slot[k] <= |vals|
    ensures |ModelOf(slot, vals)| == |slot|
  {
    assert ModelOf(slot, vals).Keys == slot.Keys;
  }

  lemma ModelOfUpdate<K, V>(slot: map<K, int>, vals: seq<V>, k: K, v: V)
    requires forall l :: l in slot ==> 1 <= slot[l] <= |vals|
    requires k in slot && forall l :: l in slot && l != k ==> slot[l] != slot[k]
    ensures ModelOf(slot, vals[slot[k] - 1 := v]) == ModelOf(slot, vals)[k := v]
  {
  }

  lemma SameBlocksErase<K>(ky: seq<K>, slot: map<K, int>, live: seq<int>, k: K)
    requires SameBlocks(ky, slot, live) && k in slot && NoDup(live)
    requires forall l :: l in slot ==> 1 <= slot[l] <= |ky| && ky[slot[l] - 1] == l
    ensures SameBlocksBut(ky, Minus(slot, k), live, slot[k])
    ensures |Minus(slot, k)| == |slot| - 1
  {
    hide Without, NoDup;
    forall j: nat | j < |live| && live[j] == slot[k] ensures SameBlocks(ky, Minus(slot, k), Without(live, j)) {
      WithoutNoDup(live, j);
    }
    assert slot == Minus(slot, k)[k := slot[k]];
  }
}
