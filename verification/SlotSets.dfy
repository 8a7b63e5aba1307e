/** The bookkeeping of the hash set, on plain sequences: bucket chains, the free list threaded through
    the same successor array, and the slots that have never been used. */
module SlotSets {
  import opened Links
  import opened HashChains

  function KeysOf<K, T>(vals: seq<T>, keyOf: T -> K): (ky: seq<K>)
    ensures |ky| == |vals| && forall i :: 0 <= i < |vals| ==> ky[i] == keyOf(vals[i])
  {
    seq(|vals|, i requires 0 <= i < |vals| => keyOf(vals[i]))
  }

  lemma KeysOfUpdate<K, T>(vals: seq<T>, keyOf: T -> K, i: nat, v: T)
    requires i < |vals|
    ensures KeysOf(vals[i := v], keyOf) == KeysOf(vals, keyOf)[i := keyOf(v)]
  {
  }

  /** What is stored: the value of each key. */
  ghost function ModelOf<K, T>(slot: map<K, int>, vals: seq<T>): (m: map<K, T>)
    requires forall k :: k in slot ==> 1 <= slot[k] <= |vals|
    ensures m.Keys == slot.Keys && forall k :: k in slot ==> m[k] == vals[slot[k] - 1]
  {
    map k | k in slot :: vals[slot[k] - 1]
  }

  lemma ModelOfInsert<K, T>(slot: map<K, int>, vals: seq<T>, k: K, x: int, v: T)
    requires (forall l :: l in slot ==> 1 <= slot[l] <= |vals| && slot[l] != x) && 1 <= x <= |vals|
    requires k !in slot
    ensures ModelOf(slot[k := x], vals[x - 1 := v]) == ModelOf(slot, vals)[k := v]
  {
  }

  lemma ModelOfErase<K, T>(slot: map<K, int>, vals: seq<T>, k: K)
    requires forall l :: l in slot ==> 1 <= slot[l] <= |vals|
    ensures ModelOf(Minus(slot, k), vals) == Minus(ModelOf(slot, vals), k)
  {
  }

  /** The slots 1 to `raw` have been used at least once; each of them is either live or free. */
  ghost predicate SlotsOk<K>(nx: seq<int>, ky: seq<K>, used: nat, raw: nat, freeIndex: int, free: seq<int>,
                             slot: map<K, int>)
  {
    && |nx| == |ky|
    && raw <= |nx|
    && Chain(nx, freeIndex, free)
    && (forall x :: x in free ==> 1 <= x <= raw && !Live(ky, slot, x))
    && (forall k :: k in slot ==> Live(ky, slot, slot[k]) && ky[slot[k] - 1] == k && slot[k] <= raw)
    && (forall x: int :: 1 <= x <= raw ==> x in free || Live(ky, slot, x))
    && used == |slot|
    && used + |free| == raw
  }

  /** The slot that the next insertion takes. */
  function Taken(raw: nat, freeIndex: int): int
  {
    if freeIndex == 0 then raw + 1 else freeIndex
  }

  lemma SlotsReuse<K>(nx: seq<int>, ky: seq<K>, used: nat, raw: nat, freeIndex: int, free: seq<int>, slot: map<K, int>,
                      k: K, y: int)
    requires SlotsOk(nx, ky, used, raw, freeIndex, free, slot) && k !in slot && freeIndex != 0
    ensures free != [] && 1 <= freeIndex <= |nx| && !Live(ky, slot, freeIndex)
    ensures SlotsOk(nx[freeIndex - 1 := y], ky[freeIndex - 1 := k], used + 1, raw, nx[freeIndex - 1], free[1..],
                    slot[k := freeIndex])
  {
    ChainNoDup(nx, freeIndex, free);
    assert free[0] in free && free == [free[0]] + free[1..];
    var x, rest := freeIndex, free[1..];
    assert x !in rest;
    ChainFrame(nx, nx[x - 1 := y], nx[x - 1], rest);
    hide Chain, NoDup;
    var ly, after := ky[x - 1 := k], slot[k := x];
    forall z: int | 1 <= z <= raw ensures z in rest || Live(ly, after, z) {
      assert z in free || Live(ky, slot, z);
    }
    forall z | z in rest ensures 1 <= z <= raw && !Live(ly, after, z) {
      assert z in free;
    }
  }

  lemma SlotsExtend<K>(nx: seq<int>, ky: seq<K>, used: nat, raw: nat, freeIndex: int, free: seq<int>, slot: map<K, int>,
                       k: K, y: int)
    requires SlotsOk(nx, ky, used, raw, freeIndex, free, slot) && k !in slot && used < |nx| && freeIndex == 0
    ensures free == [] && raw < |nx| && !Live(ky, slot, raw + 1)
    ensures SlotsOk(nx[raw := y], ky[raw := k], used + 1, raw + 1, 0, free, slot[k := raw + 1])
  {
    var ly, after := ky[raw := k], slot[k := raw + 1];
    forall z: int | 1 <= z <= raw + 1 ensures z in free || Live(ly, after, z) {
      assert z <= raw ==> z in free || Live(ky, slot, z);
    }
  }

  /** Taking a slot for a new key from the free list, or a never-used one when that list is empty. */
  lemma SlotsInsert<K>(nx: seq<int>, ky: seq<K>, used: nat, raw: nat, freeIndex: int, free: seq<int>, slot: map<K, int>,
                       k: K, y: int)
    requires SlotsOk(nx, ky, used, raw, freeIndex, free, slot) && k !in slot && used < |nx|
    ensures var x := Taken(raw, freeIndex);
      && 1 <= x <= |nx| && (forall l :: l in slot ==> slot[l] != x)
      && (freeIndex == 0 <==> free == [])
      && SlotsOk(nx[x - 1 := y], ky[x - 1 := k], used + 1, if freeIndex == 0 then raw + 1 else raw,
                 if freeIndex == 0 then 0 else nx[x - 1], if free == [] then [] else free[1..], slot[k := x])
  {
    if freeIndex == 0 {
      SlotsExtend(nx, ky, used, raw, freeIndex, free, slot, k, y);
    } else {
      SlotsReuse(nx, ky, used, raw, freeIndex, free, slot, k, y);
    }
  }

  /** Giving the slot of a stored key back to the free list. */
  lemma SlotsErase<K>(nx: seq<int>, ky: seq<K>, used: nat, raw: nat, freeIndex: int, free: seq<int>, slot: map<K, int>, k: K)
    requires SlotsOk(nx, ky, used, raw, freeIndex, free, slot) && k in slot
    ensures var x := slot[k];
      && 1 <= x <= |nx| && used > 0
      && SlotsOk(nx[x - 1 := freeIndex], ky, used - 1, raw, x, [x] + free, Minus(slot, k))
      && forall l :: l in Minus(slot, k) ==> 1 <= slot[l] <= |nx| && slot[l] != x
  {
    var x := slot[k];
    ChainPrepend(nx, freeIndex, free, x);
    assert slot == (Minus(slot, k))[k := x];
  }

  /** Redirecting the successor of a live slot leaves the bookkeeping alone. */
  lemma SlotsFrame<K>(nx: seq<int>, mx: seq<int>, ky: seq<K>, used: nat, raw: nat, freeIndex: int, free: seq<int>,
                      slot: map<K, int>)
    requires SlotsOk(nx, ky, used, raw, freeIndex, free, slot) && |nx| == |mx|
    requires forall x :: x in free ==> 1 <= x <= |nx| && nx[x - 1] == mx[x - 1]
    ensures SlotsOk(mx, ky, used, raw, freeIndex, free, slot)
  {
    ChainFrame(nx, mx, freeIndex, free);
  }

  /** Every slot of the set is in exactly one place: in one bucket chain, in the free list, or beyond
      the slots used so far; and in its place it occurs once. */
  lemma SlotsPartition<K>(bk: seq<int>, nx: seq<int>, ky: seq<K>, hash: K -> nat, chains: seq<seq<int>>, slot: map<K, int>,
                          used: nat, raw: nat, freeIndex: int, free: seq<int>, x: int)
    requires Table(bk, nx, ky, hash, chains, slot) && SlotsOk(nx, ky, used, raw, freeIndex, free, slot)
    requires 1 <= x <= |nx|
    ensures var chained := exists b: nat :: b < |bk| && x in chains[b];
      && (chained || x in free || x > raw)
      && !(chained && x in free) && !(chained && x > raw) && !(x in free && x > raw)
    ensures NoDup(free) && forall b: nat :: b < |bk| ==> NoDup(chains[b])
  {
    ChainNoDup(nx, freeIndex, free);
    forall b: nat | b < |bk| ensures NoDup(chains[b]) {
      ChainNoDup(nx, bk[b], chains[b]);
    }
    if Live(ky, slot, x) {
      assert x in chains[BucketOf(hash, ky[x - 1], |bk|)];
    }
  }

  ghost predicate SetOk<K>(bk: seq<int>, nx: seq<int>, ky: seq<K>, hash: K -> nat, chains: seq<seq<int>>, slot: map<K, int>,
                           used: nat, raw: nat, freeIndex: int, free: seq<int>)
  {
    Table(bk, nx, ky, hash, chains, slot) && SlotsOk(nx, ky, used, raw, freeIndex, free, slot)
  }

  /** With every bucket head 0 nothing is stored. */
  lemma SetEmpty<K>(bk: seq<int>, nx: seq<int>, ky: seq<K>, hash: K -> nat, chains: seq<seq<int>>)
    requires 0 < |bk| == |chains| && |nx| == |ky|
    requires forall b :: 0 <= b < |bk| ==> bk[b] == 0 && chains[b] == []
    ensures SetOk(bk, nx, ky, hash, chains, map[], 0, 0, 0, [])
  {
  }

  lemma SetInsert<K>(bk: seq<int>, nx: seq<int>, ky: seq<K>, hash: K -> nat, chains: seq<seq<int>>, slot: map<K, int>,
                     used: nat, raw: nat, freeIndex: int, free: seq<int>, k: K)
    requires SetOk(bk, nx, ky, hash, chains, slot, used, raw, freeIndex, free) && k !in slot && used < |nx|
    ensures 0 < |bk| == |chains| && |nx| == |ky|
    ensures var x, b := Taken(raw, freeIndex), BucketOf(hash, k, |bk|);
      && 1 <= x <= |nx| && (forall l :: l in slot ==> slot[l] != x) && (freeIndex == 0 <==> free == [])
      && SetOk(bk[b := x], nx[x - 1 := bk[b]], ky[x - 1 := k], hash, chains[b := [x] + chains[b]], slot[k := x],
               used + 1, if freeIndex == 0 then raw + 1 else raw,
               if freeIndex == 0 then 0 else nx[x - 1], if free == [] then [] else free[1..])
  {
    hide Table, SlotsOk, BucketOf;
    TableSizes(bk, nx, ky, hash, chains, slot);
    var b := BucketOf(hash, k, |bk|);
    SlotsInsert(nx, ky, used, raw, freeIndex, free, slot, k, bk[b]);
    TableInsert(bk, nx, ky, hash, chains, slot, k, Taken(raw, freeIndex));
  }

  lemma TableSizes<K>(bk: seq<int>, nx: seq<int>, ky: seq<K>, hash: K -> nat, chains: seq<seq<int>>, slot: map<K, int>)
    requires Table(bk, nx, ky, hash, chains, slot)
    ensures 0 < |bk| == |chains| && |nx| == |ky|
  {
  }

  /** Erasing the key of the i-th slot of bucket `b`. */
  lemma SetErase<K>(bk: seq<int>, nx: seq<int>, ky: seq<K>, hash: K -> nat, chains: seq<seq<int>>, slot: map<K, int>,
                    used: nat, raw: nat, freeIndex: int, free: seq<int>, b: nat, i: nat)
    requires SetOk(bk, nx, ky, hash, chains, slot, used, raw, freeIndex, free)
    requires b < |bk| == |chains| && i < |chains[b]|
    ensures var x := chains[b][i];
      1 <= x <= |nx| == |ky| && used > 0 && ky[x - 1] in slot && slot[ky[x - 1]] == x
    ensures i > 0 ==> 1 <= chains[b][i - 1] <= |nx|
    ensures var x := chains[b][i];
      SetOk(HeadsWithout(bk, nx, b, chains[b], i), LinksWithout(nx, chains[b], i)[x - 1 := freeIndex], ky, hash,
            chains[b := Without(chains[b], i)], Minus(slot, ky[x - 1]), used - 1, raw, x, [x] + free)
  {
    hide Table, SlotsOk, Without, Live, HeadsWithout, LinksWithout, Chain;
    ChainMember(bk, nx, ky, hash, chains, slot, used, raw, freeIndex, free, b, i);
    if i > 0 {
      ChainMember(bk, nx, ky, hash, chains, slot, used, raw, freeIndex, free, b, i - 1);
    }
    TableErase(bk, nx, ky, hash, chains, slot, b, i);
    var hs, ls := HeadsWithout(bk, nx, b, chains[b], i), LinksWithout(nx, chains[b], i);
    var ds, k := chains[b := Without(chains[b], i)], ky[chains[b][i] - 1];
    assert Table(hs, ls, ky, hash, ds, Minus(slot, k));
    assert forall y :: y in free ==> 1 <= y <= |nx| && nx[y - 1] == ls[y - 1];
    GiveBack(nx, hs, ls, ky, hash, ds, slot, used, raw, freeIndex, free, k);
  }

  /** Once the slot of `k` is out of its bucket: putting it at the head of the free list. */
  lemma GiveBack<K>(nx: seq<int>, bk: seq<int>, mx: seq<int>, ky: seq<K>, hash: K -> nat, chains: seq<seq<int>>,
                    slot: map<K, int>, used: nat, raw: nat, freeIndex: int, free: seq<int>, k: K)
    requires SlotsOk(nx, ky, used, raw, freeIndex, free, slot) && k in slot
    requires Table(bk, mx, ky, hash, chains, Minus(slot, k))
    requires |nx| == |mx| && forall y :: y in free ==> 1 <= y <= |nx| && nx[y - 1] == mx[y - 1]
    ensures 1 <= slot[k] <= |nx| && used > 0
    ensures SetOk(bk, mx[slot[k] - 1 := freeIndex], ky, hash, chains, Minus(slot, k), used - 1, raw, slot[k],
                  [slot[k]] + free)
  {
    hide Table, SlotsOk;
    SlotsFrame(nx, mx, ky, used, raw, freeIndex, free, slot);
    SlotsErase(mx, ky, used, raw, freeIndex, free, slot, k);
    TableFrame(bk, mx, mx[slot[k] - 1 := freeIndex], ky, ky, hash, chains, Minus(slot, k));
  }

  lemma ChainMember<K>(bk: seq<int>, nx: seq<int>, ky: seq<K>, hash: K -> nat, chains: seq<seq<int>>, slot: map<K, int>,
                       used: nat, raw: nat, freeIndex: int, free: seq<int>, b: nat, i: nat)
    requires SetOk(bk, nx, ky, hash, chains, slot, used, raw, freeIndex, free)
    requires b < |bk| == |chains| && i < |chains[b]|
    ensures var x := chains[b][i];
      1 <= x <= |nx| == |ky| && ky[x - 1] in slot && slot[ky[x - 1]] == x && x !in free
    ensures forall y :: y in free ==> 1 <= y <= |nx|
    ensures BucketOf(hash, ky[chains[b][i] - 1], |bk|) == b
  {
    assert chains[b][i] in chains[b];
  }
}
