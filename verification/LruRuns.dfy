/** Runs of the recency list: it is ordered by time of last use, so what is dropped is what was used longest ago. */
module LruRuns {
  import opened Links
  import opened HashChains
  import opened LruSpec

  /** The keys and their values, and for each key the time of its last use: when it was stored or made active. */
  datatype Timed<K, T> = Timed(keys: seq<K>, model: map<K, T>, stamp: map<K, nat>, now: nat)

  datatype Op<K, !T> =
    | Insert(k: K, v: T, force: bool, cb: Option<T -> bool>)
    | Erase(k: K)
    | Active(k: K)
    | Disuse(num: nat, cb: Option<T -> bool>)
    | Clear

  /** Keys are distinct, and each earlier one was used later. */
  ghost predicate ByLastUse<K, T>(s: Timed<K, T>) {
    && NoDup(s.keys)
    && (forall k :: k in s.keys ==> k in s.model && k in s.stamp && s.stamp[k] < s.now)
    && (forall i, j :: 0 <= i < j < |s.keys| ==> s.stamp[s.keys[i]] > s.stamp[s.keys[j]])
  }

  function Step<K(==), T>(s: Timed<K, T>, op: Op<K, T>, capacity: nat): Timed<K, T>
    requires forall k :: k in s.keys ==> k in s.model
  {
    match op
    case Insert(k, v, force, cb) =>
      var (keys, model, inserted) := Inserted(s.keys, s.model, k, v, capacity, force, cb);
      Timed(keys, model, if inserted then s.stamp[k := s.now] else s.stamp, s.now + 1)
    case Erase(k) => Timed(Removed(s.keys, k), Minus(s.model, k), s.stamp, s.now + 1)
    case Active(k) => Timed(Used(s.keys, k), s.model, if k in s.keys then s.stamp[k := s.now] else s.stamp, s.now + 1)
    case Disuse(num, cb) =>
      var keys := s.keys[..|s.keys| - Dropped(s.keys, s.model, num, cb)];
      Timed(keys, Kept(s.model, keys), s.stamp, s.now + 1)
    case Clear => Timed([], map[], s.stamp, s.now + 1)
  }

  /** Keeping a part of the keys, in their order, keeps them ordered. */
  lemma PartByLastUse<K, T>(s: Timed<K, T>, keys: seq<K>, model: map<K, T>, at: seq<int>)
    requires ByLastUse(s) && |at| == |keys|
    requires forall i :: 0 <= i < |at| ==> 0 <= at[i] < |s.keys| && keys[i] == s.keys[at[i]]
    requires forall i, j :: 0 <= i < j < |at| ==> at[i] < at[j]
    requires forall k :: k in keys ==> k in model
    ensures ByLastUse(Timed(keys, model, s.stamp, s.now + 1))
  {
  }

  lemma TakeByLastUse<K, T>(s: Timed<K, T>, n: nat)
    requires ByLastUse(s) && n <= |s.keys|
    ensures ByLastUse(Timed(s.keys[..n], Kept(s.model, s.keys[..n]), s.stamp, s.now + 1))
  {
    PartByLastUse(s, s.keys[..n], Kept(s.model, s.keys[..n]), seq(n, i => i));
  }

  lemma WithoutByLastUse<K, T>(s: Timed<K, T>, n: nat, model: map<K, T>)
    requires ByLastUse(s) && n < |s.keys| && forall x :: x in s.keys && x != s.keys[n] ==> x in model
    ensures s.keys[n] !in Without(s.keys, n) && (forall x :: x in Without(s.keys, n) ==> x in s.keys)
    ensures ByLastUse(Timed(Without(s.keys, n), model, s.stamp, s.now + 1))
  {
    hide ByLastUse, NoDup;
    DistinctKeys(s);
    WithoutNoDup(s.keys, n);
    var r := Without(s.keys, n);
    var at := seq(|r|, i => if i < n then i else i + 1);
    forall x | x in r ensures x in s.keys && x in model {
      var i :| 0 <= i < |r| && r[i] == x;
      assert x == s.keys[at[i]];
    }
    PartByLastUse(s, r, model, at);
  }

  lemma DistinctKeys<K, T>(s: Timed<K, T>)
    requires ByLastUse(s)
    ensures NoDup(s.keys)
  {
  }

  lemma RemovedByLastUse<K, T>(s: Timed<K, T>, k: K, model: map<K, T>)
    requires ByLastUse(s) && forall x :: x in s.keys && x != k ==> x in model
    ensures k !in Removed(s.keys, k) && (forall x :: x in Removed(s.keys, k) ==> x in s.keys)
    ensures ByLastUse(Timed(Removed(s.keys, k), model, s.stamp, s.now + 1))
  {
    hide ByLastUse, Without;
    if k in s.keys {
      WithoutByLastUse(s, IndexOf(s.keys, k), model);
    } else {
      PartByLastUse(s, s.keys, model, seq(|s.keys|, i => i));
    }
  }

  lemma StepByLastUse<K, T>(s: Timed<K, T>, op: Op<K, T>, capacity: nat)
    requires ByLastUse(s)
    ensures ByLastUse(Step(s, op, capacity))
  {
    hide NoDup, Dropped, Removed;
    match op
    case Insert(k, v, force, cb) =>
      InsertByLastUse(s, k, v, capacity, force, cb);
    case Erase(k) =>
      RemovedByLastUse(s, k, Minus(s.model, k));
    case Active(k) =>
      if k in s.keys {
        UsedByLastUse(s, k);
      } else {
        RemovedByLastUse(s, k, s.model);
        NotStored(s.keys, k);
      }
    case Disuse(num, cb) =>
      TakeByLastUse(s, |s.keys| - Dropped(s.keys, s.model, num, cb));
    case Clear =>
      TakeByLastUse(s, 0);
      assert Kept(s.model, s.keys[..0]) == map[];
  }

  lemma UsedByLastUse<K, T>(s: Timed<K, T>, k: K)
    requires ByLastUse(s) && k in s.keys
    ensures ByLastUse(Timed([k] + Removed(s.keys, k), s.model, s.stamp[k := s.now], s.now + 1))
  {
    hide NoDup, Removed;
    RemovedByLastUse(s, k, s.model);
    var r := Removed(s.keys, k);
    Sooner(s, r);
    Stored(Timed(r, s.model, s.stamp, s.now), k, s.model);
  }

  lemma Sooner<K, T>(s: Timed<K, T>, r: seq<K>)
    requires ByLastUse(s) && ByLastUse(Timed(r, s.model, s.stamp, s.now + 1)) && forall x :: x in r ==> x in s.keys
    ensures ByLastUse(Timed(r, s.model, s.stamp, s.now))
  {
  }

  lemma NotStored<K>(keys: seq<K>, k: K)
    requires k !in keys
    ensures Removed(keys, k) == keys
  {
  }

  lemma Later<K, T>(s: Timed<K, T>)
    requires ByLastUse(s)
    ensures ByLastUse(s.(now := s.now + 1))
  {
  }

  lemma Stored<K, T>(s: Timed<K, T>, k: K, model: map<K, T>)
    requires ByLastUse(s) && k !in s.keys && k in model && forall x :: x in s.keys ==> x in model
    ensures ByLastUse(Timed([k] + s.keys, model, s.stamp[k := s.now], s.now + 1))
  {
    NoDupAppend([k], s.keys);
    assert forall i :: 0 <= i < |s.keys| ==> s.keys[i] in s.keys;
  }

  lemma StoredAfterDrop<K, T>(s: Timed<K, T>, k: K, v: T)
    requires ByLastUse(s) && k !in s.keys && s.keys != []
    ensures var kept := s.keys[..|s.keys| - 1];
      ByLastUse(Timed([k] + kept, Kept(s.model, kept)[k := v], s.stamp[k := s.now], s.now + 1))
  {
    var kept := s.keys[..|s.keys| - 1];
    KeptByLastUse(s);
    Stored(Timed(kept, Kept(s.model, kept), s.stamp, s.now), k, Kept(s.model, kept)[k := v]);
  }

  lemma KeptByLastUse<K, T>(s: Timed<K, T>)
    requires ByLastUse(s) && s.keys != []
    ensures var kept := s.keys[..|s.keys| - 1]; ByLastUse(Timed(kept, Kept(s.model, kept), s.stamp, s.now))
    ensures forall x :: x in s.keys[..|s.keys| - 1] ==> x in s.keys
  {
  }

  lemma InsertByLastUse<K, T>(s: Timed<K, T>, k: K, v: T, capacity: nat, force: bool, cb: Option<T -> bool>)
    requires ByLastUse(s)
    ensures ByLastUse(Step(s, Insert(k, v, force, cb), capacity))
  {
    hide ByLastUse, Dropped, Kept;
    Modelled(s);
    Later(s);
    if k !in s.keys {
      if |s.keys| < capacity {
        Stored(s, k, s.model[k := v]);
      } else if s.keys != [] {
        StoredAfterDrop(s, k, v);
      }
    }
  }

  lemma Modelled<K, T>(s: Timed<K, T>)
    requires ByLastUse(s)
    ensures forall k :: k in s.keys ==> k in s.model
  {
  }

  function RunAll<K(==), T>(s: Timed<K, T>, ops: seq<Op<K, T>>, capacity: nat): (r: Timed<K, T>)
    requires ByLastUse(s)
    ensures ByLastUse(r)
    decreases |ops|
  {
    if ops == [] then s
    else
      StepByLastUse(s, ops[0], capacity);
      RunAll(Step(s, ops[0], capacity), ops[1..], capacity)
  }

  /** An insertion drops at most the last key, and none while there is room. */
  lemma InsertKeeps<K, T>(s: Timed<K, T>, capacity: nat, k: K, v: T, force: bool, cb: Option<T -> bool>)
    requires ByLastUse(s)
    ensures var r := Step(s, Insert(k, v, force, cb), capacity).keys;
      && (|s.keys| < capacity ==> forall x :: x in s.keys ==> x in r)
      && forall i :: 0 <= i < |s.keys| - 1 ==> s.keys[i] in r
  {
    hide NoDup, Kept, Dropped;
    var r := Step(s, Insert(k, v, force, cb), capacity).keys;
    forall i | 0 <= i < |s.keys| - 1 ensures s.keys[i] in r {
      if r != s.keys {
        assert r[i + 1] == s.keys[i];
      }
    }
  }

  /** Whatever happened before, an insertion drops a key only from a full set, and then the one used longest ago. */
  lemma EvictsLeastRecentlyUsed<K, T>(s: Timed<K, T>, ops: seq<Op<K, T>>, capacity: nat,
                                      k: K, v: T, force: bool, cb: Option<T -> bool>, x: K)
    requires ByLastUse(s)
    requires x in RunAll(s, ops, capacity).keys
    requires x !in Step(RunAll(s, ops, capacity), Insert(k, v, force, cb), capacity).keys
    ensures |RunAll(s, ops, capacity).keys| >= capacity
    ensures var t := RunAll(s, ops, capacity); forall y :: y in t.keys && y != x ==> t.stamp[x] < t.stamp[y]
  {
    hide RunAll, Step, NoDup;
    var t := RunAll(s, ops, capacity);
    InsertKeeps(t, capacity, k, v, force, cb);
    var last :| 0 <= last < |t.keys| && t.keys[last] == x;
    forall y | y in t.keys && y != x ensures t.stamp[x] < t.stamp[y] {
      var i :| 0 <= i < |t.keys| && t.keys[i] == y;
    }
  }
}
