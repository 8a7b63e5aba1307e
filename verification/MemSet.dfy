/** The hash set over fixed arrays. */
module MemSets {
  import opened Links
  import opened HashChains
  import opened SlotSets

  /** The slots in the order in which an iteration visits them: bucket by bucket. */
  function Flat(chains: seq<seq<int>>): (f: seq<int>)
  {
    if chains == [] then [] else chains[0] + Flat(chains[1..])
  }

  class MemSet<K(==), T(0)> {
    const keyOf: T -> K
    const hash: K -> nat
    const buckets: array<int>
    const next: array<int>
    const value: array<T>
    var used: nat
    var rawUsed: nat
    var freeIndex: int
    ghost var chains: seq<seq<int>>
    ghost var free: seq<int>
    ghost var slot: map<K, int>

    ghost predicate Valid()
      reads this, buckets, next, value
    {
      && buckets != next && (value as object) != buckets && (value as object) != next
      && 0 < value.Length == next.Length
      && SetOk(buckets[..], next[..], KeysOf(value[..], keyOf), hash, chains, slot, used, rawUsed, freeIndex, free)
    }

    /** What is stored: the value of each key. */
    ghost function Model(): map<K, T>
      reads this, buckets, next, value
      requires Valid()
    {
      StoredLive();
      ModelOf(slot, value[..])
    }

    lemma StoredLive()
      requires Valid()
      ensures forall k :: k in slot ==> 1 <= slot[k] <= value.Length && keyOf(value[slot[k] - 1]) == k
      ensures used == |slot| <= value.Length && rawUsed <= value.Length
      ensures 0 < buckets.Length == |chains| && 0 < value.Length
    {
    }

    lemma ValidSizes()
      requires Valid()
      ensures 0 < buckets.Length
    {
    }

    /** The map is what the slots hold. */
    lemma ModelMeans()
      requires Valid()
      ensures Model().Keys == slot.Keys && used == |Model()|
      ensures forall k :: k in slot ==>
        1 <= slot[k] <= value.Length && Model()[k] == value[slot[k] - 1] && keyOf(value[slot[k] - 1]) == k
    {
      hide SetOk;
      StoredLive();
      KeysSize(slot, Model());
    }

    constructor (keyOf: T -> K, hash: K -> nat, maxNum: nat, bucketsNum: nat)
      requires 0 < maxNum && 0 < bucketsNum
      ensures Valid() && fresh(buckets) && fresh(next) && fresh(value)
      ensures value.Length == maxNum && buckets.Length == bucketsNum && this.keyOf == keyOf && this.hash == hash
      ensures Model() == map[]
    {
      this.keyOf := keyOf;
      this.hash := hash;
      buckets := new int[bucketsNum](_ => 0);
      next := new int[maxNum](_ => 0);
      value := new T[maxNum];
      used, rawUsed, freeIndex := 0, 0, 0;
      chains := seq(bucketsNum, _ => []);
      free := [];
      slot := map[];
    }

    method Clear()
      requires Valid()
      modifies this, buckets, next
      ensures Valid() && Model() == map[]
    {
      hide SetOk;
      ValidSizes();
      forall i | 0 <= i < next.Length {
        next[i] := 0;
      }
      used := 0;
      rawUsed := 0;
      freeIndex := 0;
      forall i | 0 <= i < buckets.Length {
        buckets[i] := 0;
      }
      chains := seq(buckets.Length, _ => []);
      free := [];
      slot := map[];
      SetEmpty(buckets[..], next[..], KeysOf(value[..], keyOf), hash, chains);
    }

    predicate Empty()
      reads this
    {
      used == 0 && value.Length > 0
    }

    predicate Full()
      reads this
    {
      used == value.Length
    }

    method Deref(index: int) returns (v: T)
      requires 1 <= index <= value.Length
      ensures v == value[index - 1]
    {
      v := value[index - 1];
    }

    /** The slot of the key, 0 if it is not stored. */
    method FindIndexImpl(bucketIndex: nat, key: K) returns (index: int)
      requires Valid() && bucketIndex < buckets.Length && bucketIndex == BucketOf(hash, key, buckets.Length)
      ensures index == if key in slot then slot[key] else 0
    {
      hide SlotsOk, BucketOf;
      ghost var c, i := chains[bucketIndex], 0;
      index := buckets[bucketIndex];
      while index != 0
        invariant 0 <= i <= |c|
        invariant Chain(next[..], index, c[i..])
        invariant key in slot ==> slot[key] in c[i..]
        decreases |c| - i
      {
        assert c[i..][0] == c[i] && c[i] in c;
        assert Live(KeysOf(value[..], keyOf), slot, c[i]);
        if keyOf(value[index - 1]) == key {
          return index;
        }
        index := next[index - 1];
        assert c[i..] == [c[i]] + c[i + 1..];
        i := i + 1;
      }
      assert c[i..] == [];
    }

    method FindIndex(key: K) returns (index: int)
      requires Valid()
      ensures index == if key in slot then slot[key] else 0
    {
      index := FindIndexImpl(BucketOf(hash, key, buckets.Length), key);
    }

    /** Takes the first free slot, or a never-used one. */
    method TakeSlot() returns (index: int)
      requires freeIndex != 0 ==> 1 <= freeIndex <= next.Length
      requires freeIndex == 0 ==> rawUsed < next.Length
      modifies this`rawUsed, this`freeIndex
      ensures index == Taken(old(rawUsed), old(freeIndex))
      ensures rawUsed == if old(freeIndex) == 0 then old(rawUsed) + 1 else old(rawUsed)
      ensures freeIndex == if old(freeIndex) == 0 then 0 else next[index - 1]
    {
      if freeIndex == 0 {
        assert rawUsed < next.Length;
        rawUsed := rawUsed + 1;
        index := rawUsed;
      } else {
        index := freeIndex;
        freeIndex := next[index - 1];
      }
    }

    /** Writes the value into the slot and puts the slot at the head of its bucket. */
    method FillSlot(bucketIndex: nat, index: int, v: T)
      requires buckets != next && (value as object) != buckets && (value as object) != next
      requires bucketIndex < buckets.Length && 1 <= index <= next.Length == value.Length
      modifies this`used, buckets, next, value
      ensures used == old(used) + 1
      ensures next[..] == old(next[..])[index - 1 := old(buckets[bucketIndex])]
      ensures buckets[..] == old(buckets[..])[bucketIndex := index]
      ensures value[..] == old(value[..])[index - 1 := v]
    {
      next[index - 1] := buckets[bucketIndex];
      buckets[bucketIndex] := index;
      used := used + 1;
      value[index - 1] := v;
    }

    method InsertImpl(bucketIndex: nat, v: T) returns (index: int)
      requires Valid() && bucketIndex < buckets.Length && bucketIndex == BucketOf(hash, keyOf(v), buckets.Length)
      requires keyOf(v) !in slot && used < value.Length
      modifies this, buckets, next, value
      ensures Valid()
      ensures slot == old(slot)[keyOf(v) := index] && (forall k :: k in old(slot) ==> old(slot)[k] != index)
      ensures 1 <= index <= value.Length && value[..] == old(value[..])[index - 1 := v]
    {
      hide SetOk, KeysOf, ModelOf, BucketOf;
      StoredLive();
      ghost var k, vals := keyOf(v), value[..];
      SetInsert(buckets[..], next[..], KeysOf(vals, keyOf), hash, chains, slot, used, rawUsed, freeIndex, free, k);
      index := TakeSlot();
      assert index > 0;
      KeysOfUpdate(vals, keyOf, index - 1, v);
      chains := chains[bucketIndex := [index] + chains[bucketIndex]];
      free := if free == [] then [] else free[1..];
      slot := slot[k := index];
      FillSlot(bucketIndex, index, v);
    }

    /** Inserts a value unless its key is stored or the set is full. */
    method Insert2(v: T) returns (index: int, inserted: bool)
      requires Valid()
      modifies this, buckets, next, value
      ensures Valid()
      ensures inserted == (keyOf(v) !in old(slot) && old(used) < value.Length)
      ensures inserted ==> slot == old(slot)[keyOf(v) := index] && (forall k :: k in old(slot) ==> old(slot)[k] != index)
      ensures inserted ==> Model() == old(Model())[keyOf(v) := v]
      ensures !inserted ==> index == (if keyOf(v) in slot then slot[keyOf(v)] else 0)
      ensures !inserted ==> slot == old(slot) && Model() == old(Model())
    {
      hide SetOk, KeysOf, ModelOf, BucketOf;
      StoredLive();
      ghost var vals, before := value[..], slot;
      var bucketIndex := BucketOf(hash, keyOf(v), buckets.Length);
      index := FindIndexImpl(bucketIndex, keyOf(v));
      if index != 0 {
        return index, false;
      }
      if Full() {
        return 0, false;
      }
      index := InsertImpl(bucketIndex, v);
      ModelOfInsert(before, vals, keyOf(v), index, v);
      return index, true;
    }

    /** Redirects what points at the i-th slot of the bucket past it (`pre` is 0 for the bucket head,
        else the slot before) and puts the slot at the head of the free list. */
    method DropSlot(bucketIndex: nat, pre: int, index: int, ghost c: seq<int>, ghost i: nat)
      requires buckets != next && bucketIndex < buckets.Length && used > 0
      requires i < |c| && index == c[i] && 1 <= index <= next.Length
      requires if i == 0 then pre == 0 else pre == c[i - 1] && 1 <= pre <= next.Length
      modifies this`used, this`freeIndex, buckets, next
      ensures used == old(used) - 1 && freeIndex == index
      ensures buckets[..] == HeadsWithout(old(buckets[..]), old(next[..]), bucketIndex, c, i)
      ensures next[..] == LinksWithout(old(next[..]), c, i)[index - 1 := old(freeIndex)]
    {
      if pre == 0 {
        buckets[bucketIndex] := next[index - 1];
      } else {
        next[pre - 1] := next[index - 1];
      }
      next[index - 1] := freeIndex;
      freeIndex := index;
      used := used - 1;
    }

    method EraseSlot(bucketIndex: nat, pre: int, index: int, ghost i: nat, ghost key: K)
      requires Valid() && bucketIndex < buckets.Length && i < |chains[bucketIndex]|
      requires index == chains[bucketIndex][i] && pre == if i == 0 then 0 else chains[bucketIndex][i - 1]
      requires 1 <= index <= value.Length && key == keyOf(value[index - 1])
      modifies this, buckets, next
      ensures Valid()
      ensures slot == Minus(old(slot), key) && Model() == Minus(old(Model()), key)
    {
      hide SetOk, KeysOf, ModelOf, BucketOf, HeadsWithout, LinksWithout;
      StoredLive();
      ghost var c := chains[bucketIndex];
      SetErase(buckets[..], next[..], KeysOf(value[..], keyOf), hash, chains, slot, used, rawUsed, freeIndex, free,
               bucketIndex, i);
      ModelOfErase(slot, value[..], key);
      chains := chains[bucketIndex := Without(c, i)];
      free := [index] + free;
      slot := Minus(slot, key);
      DropSlot(bucketIndex, pre, index, c, i);
    }

    lemma EraseMissing(key: K)
      requires Valid() && key !in slot
      ensures Minus(slot, key) == slot && Minus(Model(), key) == Model()
    {
      hide SetOk, KeysOf;
      StoredLive();
      assert Minus(slot, key) == slot;
      ModelOfErase(slot, value[..], key);
    }

    /** The walk of erase: the slot of the key, or 0, and what points at it. */
    method FindLink(bucketIndex: nat, key: K) returns (pre: int, index: int, ghost i: nat)
      requires Valid() && bucketIndex < buckets.Length && bucketIndex == BucketOf(hash, key, buckets.Length)
      ensures index == if key in slot then slot[key] else 0
      ensures index != 0 ==>
        && i < |chains[bucketIndex]| && index == chains[bucketIndex][i]
        && pre == if i == 0 then 0 else chains[bucketIndex][i - 1]
    {
      hide SlotsOk, BucketOf, KeysOf;
      ghost var c := chains[bucketIndex];
      pre, i := 0, 0;
      index := buckets[bucketIndex];
      while index != 0
        invariant 0 <= i <= |c|
        invariant Chain(next[..], index, c[i..])
        invariant key in slot ==> slot[key] in c[i..]
        invariant pre == if i == 0 then 0 else c[i - 1]
        decreases |c| - i
      {
        assert c[i..][0] == c[i] && c[i] in c;
        assert Live(KeysOf(value[..], keyOf), slot, c[i]);
        if keyOf(value[index - 1]) == key {
          return;
        }
        pre := index;
        index := next[index - 1];
        assert c[i..] == [c[i]] + c[i + 1..];
        i := i + 1;
      }
      assert c[i..] == [];
    }

    /** Erases the key; the result is the slot it was in, 0 if it was not stored. */
    method Erase(key: K) returns (index: int)
      requires Valid()
      modifies this, buckets, next
      ensures Valid()
      ensures index == if key in old(slot) then old(slot)[key] else 0
      ensures slot == Minus(old(slot), key) && Model() == Minus(old(Model()), key)
    {
      hide *;
      StoredLive();
      if key !in slot {
        EraseMissing(key);
      }
      if used == 0 {
        assert slot == map[];
        return 0;
      }
      var bucketIndex := BucketOf(hash, key, buckets.Length);
      var pre;
      ghost var i;
      pre, index, i := FindLink(bucketIndex, key);
      if index != 0 {
        EraseSlot(bucketIndex, pre, index, i, key);
      }
    }

    // ---------------------------------------------------------- iteration

    /** The first slot of the first used bucket from `b` on, 0 if there is none. */
    ghost function FirstFrom(b: nat): int
      reads this
      requires b <= |chains|
    {
      At(Flat(chains[b..]), 0)
    }

    lemma FlatStep(b: nat)
      requires b < |chains|
      ensures Flat(chains[b..]) == chains[b] + Flat(chains[b + 1..])
    {
      assert chains[b..][1..] == chains[b + 1..];
    }

    /** begin() */
    method FindFirstUsedBucket() returns (index: int)
      requires Valid()
      ensures index == At(Flat(chains), 0)
    {
      index := NextUsedBucket(0);
      assert chains[0..] == chains;
    }

    /** The search for the next used bucket, which begin() and ++ have in common. */
    method NextUsedBucket(b: nat) returns (index: int)
      requires Valid() && b <= buckets.Length
      ensures index == FirstFrom(b)
    {
      hide SlotsOk, BucketOf, KeysOf;
      assert |chains| == buckets.Length;
      var i := b;
      while i < buckets.Length
        invariant b <= i <= buckets.Length
        invariant FirstFrom(b) == FirstFrom(i)
      {
        FlatStep(i);
        assert Chain(next[..], buckets[i], chains[i]);
        if buckets[i] != 0 {
          return buckets[i];
        }
        i := i + 1;
      }
      assert chains[i..] == [];
      return 0;
    }

    /** operator++ on the p-th slot of the iteration. */
    method Advance(index: int, ghost p: nat) returns (n: int)
      requires Valid() && p < |Flat(chains)| && index == Flat(chains)[p]
      ensures n == At(Flat(chains), p + 1)
    {
      ghost var b, i := Locate(chains, p);
      hide SlotsOk, BucketOf;
      assert index in chains[b] && Live(KeysOf(value[..], keyOf), slot, index);
      ChainAt(next[..], buckets[b], chains[b], i);
      if i + 1 < |chains[b]| {
        ChainAt(next[..], buckets[b], chains[b], i + 1);
      }
      n := next[index - 1];
      if n == 0 {
        var nextBucket := BucketOf(hash, keyOf(value[index - 1]), buckets.Length) + 1;
        n := NextUsedBucket(nextBucket);
      }
    }

    /** The loop from begin() to end(); `visited` lists the slots it comes to: the slot of every stored
        key, each exactly once, and no others. */
    method VisitAll() returns (visited: seq<int>)
      requires Valid()
      ensures NoDup(visited) && |visited| == used
      ensures forall k :: k in slot ==> slot[k] in visited
      ensures forall x :: x in visited ==> exists k :: k in slot && slot[k] == x
    {
      hide SetOk, Flat;
      visited := [];
      var beg := FindFirstUsedBucket();
      while beg != 0
        invariant |visited| <= |Flat(chains)| && visited == Flat(chains)[..|visited|]
        invariant beg == At(Flat(chains), |visited|)
        decreases |Flat(chains)| - |visited|
      {
        ghost var p := |visited|;
        visited := visited + [beg];
        beg := Advance(beg, p);
      }
      FlatPositive(|visited|);
      assert visited == Flat(chains);
      FlatIsSlots(buckets[..], next[..], KeysOf(value[..], keyOf), hash, chains, slot, used, rawUsed, freeIndex, free);
    }

    lemma FlatPositive(p: nat)
      requires Valid()
      ensures p < |Flat(chains)| ==> Flat(chains)[p] != 0
    {
      if p < |Flat(chains)| {
        var b, i := Locate(chains, p);
        ChainAt(next[..], buckets[b], chains[b], i);
      }
    }
  }

  lemma {:induction false} KeysSize<K, T>(a: map<K, int>, b: map<K, T>)
    requires a.Keys == b.Keys
    ensures |a| == |b|
  {
    assert |a| == |a.Keys| && |b| == |b.Keys|;
  }

  /** Where the p-th slot of the iteration is, and what comes after it. */
  lemma {:induction false} Locate(chains: seq<seq<int>>, p: nat) returns (b: nat, i: nat)
    requires p < |Flat(chains)|
    ensures b < |chains| && i < |chains[b]| && Flat(chains)[p] == chains[b][i]
    ensures At(Flat(chains), p + 1) == if i + 1 < |chains[b]| then chains[b][i + 1] else At(Flat(chains[b + 1..]), 0)
    decreases |chains|
  {
    if p < |chains[0]| {
      b, i := 0, p;
    } else {
      b, i := Locate(chains[1..], p - |chains[0]|);
      assert chains[1..][b + 1..] == chains[b + 2..];
      b := b + 1;
    }
  }

  lemma {:induction false} FlatMember(chains: seq<seq<int>>, x: int)
    ensures x in Flat(chains) <==> exists b: nat :: b < |chains| && x in chains[b]
    decreases |chains|
  {
    if chains != [] {
      FlatMember(chains[1..], x);
      if x in Flat(chains[1..]) {
        var b: nat :| b < |chains[1..]| && x in chains[1..][b];
        assert x in chains[b + 1];
      }
      if exists b: nat :: b < |chains| && x in chains[b] {
        var b: nat :| b < |chains| && x in chains[b];
        assert b > 0 ==> x in chains[1..][b - 1];
      }
    }
  }

  lemma {:induction false} FlatNoDup(chains: seq<seq<int>>)
    requires forall b: nat :: b < |chains| ==> NoDup(chains[b])
    requires forall b: nat, c: nat, x: int {:trigger x in chains[b], x in chains[c]} ::
      b < |chains| && c < |chains| && x in chains[b] && x in chains[c] ==> b == c
    ensures NoDup(Flat(chains))
    decreases |chains|
  {
    if chains != [] {
      var rest := chains[1..];
      forall b: nat, c: nat, x: int | b < |rest| && c < |rest| && x in rest[b] && x in rest[c] ensures b == c {
        assert x in chains[b + 1] && x in chains[c + 1];
      }
      FlatNoDup(rest);
      forall x | x in chains[0] ensures x !in Flat(rest) {
        FlatMember(rest, x);
      }
      assert NoDup(chains[0]);
      NoDupAppend(chains[0], Flat(rest));
    }
  }

  /** The slots listed are those of the stored keys, each of one key. */
  ghost predicate Lists<K>(f: seq<int>, ky: seq<K>, slot: map<K, int>) {
    && (forall k :: k in slot ==> slot[k] in f)
    && (forall x :: x in f ==> Live(ky, slot, x))
    && (forall k, l :: k in slot && l in slot && k != l ==> slot[k] != slot[l])
  }

  lemma StaysLive<K>(ky: seq<K>, slot: map<K, int>, k: K, x: int)
    requires Live(ky, slot, x) && k in slot && slot[k] != x
    ensures Live(ky, Minus(slot, k), x)
  {
  }

  lemma ListsTail<K>(f: seq<int>, ky: seq<K>, slot: map<K, int>, k: K)
    requires Lists(f, ky, slot) && f != [] && f[0] !in f[1..] && k in slot && slot[k] == f[0]
    ensures Lists(f[1..], ky, Minus(slot, k))
  {
    hide Live;
    assert f == [f[0]] + f[1..];
    forall x | x in f[1..] ensures Live(ky, Minus(slot, k), x) {
      StaysLive(ky, slot, k, x);
    }
  }

  /** There are as many of them as keys. */
  lemma {:induction false} CountSlots<K>(f: seq<int>, ky: seq<K>, slot: map<K, int>)
    requires Lists(f, ky, slot) && NoDup(f)
    ensures |f| == |slot|
    decreases |f|
  {
    if f == [] {
      assert slot == map[];
    } else {
      assert f[0] in f;
      var k := ky[f[0] - 1];
      ListsTail(f, ky, slot, k);
      CountSlots(f[1..], ky, Minus(slot, k));
      LessOne(slot, k);
    }
  }

  lemma LessOne<K>(slot: map<K, int>, k: K)
    requires k in slot
    ensures |slot| == |Minus(slot, k)| + 1
  {
    assert slot == Minus(slot, k)[k := slot[k]];
  }

  /** No two keys are in one slot. */
  lemma KeysApart<K>(bk: seq<int>, nx: seq<int>, ky: seq<K>, hash: K -> nat, chains: seq<seq<int>>, slot: map<K, int>)
    requires Table(bk, nx, ky, hash, chains, slot)
    ensures forall k, l :: k in slot && l in slot && k != l ==> slot[k] != slot[l]
  {
  }

  lemma FlatIsSlots<K>(bk: seq<int>, nx: seq<int>, ky: seq<K>, hash: K -> nat, chains: seq<seq<int>>, slot: map<K, int>,
                       used: nat, raw: nat, freeIndex: int, free: seq<int>)
    requires SetOk(bk, nx, ky, hash, chains, slot, used, raw, freeIndex, free)
    ensures NoDup(Flat(chains)) && |Flat(chains)| == used
    ensures forall k :: k in slot ==> slot[k] in Flat(chains)
    ensures forall x :: x in Flat(chains) ==> exists k :: k in slot && slot[k] == x
  {
    forall b: nat | b < |chains| ensures NoDup(chains[b]) {
      ChainNoDup(nx, bk[b], chains[b]);
    }
    KeysApart(bk, nx, ky, hash, chains, slot);
    hide Chain, BucketOf, Flat, NoDup;
    FlatNoDup(chains);
    forall k | k in slot ensures slot[k] in Flat(chains) {
      FlatMember(chains, slot[k]);
    }
    forall x | x in Flat(chains) ensures Live(ky, slot, x) {
      FlatMember(chains, x);
    }
    CountSlots(Flat(chains), ky, slot);
  }
}
