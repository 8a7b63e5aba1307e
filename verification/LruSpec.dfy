/** What the recency list means: the stored keys, most recently used first. */
module LruSpec {
  import opened Links
  import opened HashChains

  datatype Option<+T> = None | Some(value: T)

  /** The recency list holds exactly the slots of the stored keys, each once. */
  ghost predicate Agree<K>(order: seq<int>, keys: seq<K>, slot: map<K, int>)
  {
    && |order| == |keys|
    && NoDup(keys)
    && (forall i :: 0 <= i < |keys| ==> keys[i] in slot && slot[keys[i]] == order[i])
    && (forall k :: k in slot ==> k in keys)
  }

  function IndexOf<K(==)>(keys: seq<K>, k: K): (i: nat)
    requires k in keys
    ensures i < |keys| && keys[i] == k
  {
    if keys[0] == k then 0 else 1 + IndexOf(keys[1..], k)
  }

  /** The list without a key. */
  function Removed<K(==)>(keys: seq<K>, k: K): seq<K>
  {
    if k in keys then Without(keys, IndexOf(keys, k)) else keys
  }

  /** The list after a use of a key. */
  function Used<K(==)>(keys: seq<K>, k: K): seq<K>
  {
    if k in keys then [k] + Removed(keys, k) else keys
  }

  /** How many keys a request to drop `num` drops from the old end: it stops when none is left or when
      the callback refuses one. */
  function Dropped<K(==), T>(keys: seq<K>, m: map<K, T>, num: nat, cb: Option<T -> bool>): (d: nat)
    requires forall k :: k in keys ==> k in m
    ensures d <= num && d <= |keys|
    decreases num
  {
    if num == 0 || keys == [] then 0
    else if cb.Some? && !cb.value(m[keys[|keys| - 1]]) then 0
    else 1 + Dropped(keys[..|keys| - 1], m, num - 1, cb)
  }

  /** A request to drop `num` drops from the old end for as long as it has not dropped `num`, a key is left, and the
      callback, if there is one, lets the oldest go. */
  lemma {:induction false} DroppedMeans<K, T>(keys: seq<K>, m: map<K, T>, num: nat, cb: Option<T -> bool>)
    requires forall k :: k in keys ==> k in m
    ensures var d := Dropped(keys, m, num, cb);
      && d <= num && d <= |keys|
      && (forall i :: |keys| - d <= i < |keys| ==> cb.None? || cb.value(m[keys[i]]))
      && (d == num || d == |keys| || (cb.Some? && !cb.value(m[keys[|keys| - d - 1]])))
    decreases num
  {
    if num > 0 && keys != [] && !(cb.Some? && !cb.value(m[keys[|keys| - 1]])) {
      DroppedMeans(keys[..|keys| - 1], m, num - 1, cb);
    }
  }

  /** An insertion takes place exactly when the key is not stored and there is room, or may be made: the insertion is
      forced and the callback, if there is one, lets the oldest go. Then the key is first, and the oldest has gone if the
      set was full; otherwise nothing changes. */
  lemma InsertedMeans<K, T>(keys: seq<K>, m: map<K, T>, k: K, v: T, capacity: nat, force: bool, cb: Option<T -> bool>)
    requires (forall x :: x in keys ==> x in m) && (forall x :: x in m ==> x in keys) && NoDup(keys)
    requires 0 < capacity && |keys| <= capacity
    ensures var (after, model, ok) := Inserted(keys, m, k, v, capacity, force, cb);
      && (ok <==> k !in keys && (|keys| < capacity || (force && (cb.None? || cb.value(m[keys[|keys| - 1]])))))
      && (!ok ==> after == keys && model == m)
      && (ok ==> after == [k] + (if |keys| < capacity then keys else keys[..|keys| - 1]))
      && (ok ==> model.Keys == (set x | x in after) && model[k] == v)
      && (ok ==> forall x :: x in after && x != k ==> model[x] == m[x])
  {
    hide NoDup, Dropped;
    DroppedMeans(keys, m, 1, cb);
    if |keys| == capacity {
      assert keys == keys[..|keys| - 1] + [keys[|keys| - 1]];
    }
  }

  lemma {:induction false} FirstAt<K>(a: seq<K>, k: K, b: seq<K>)
    requires k !in a
    ensures k in a + [k] + b && IndexOf(a + [k] + b, k) == |a|
    decreases |a|
  {
    var keys := a + [k] + b;
    assert keys[|a|] == k;
    if a != [] {
      assert keys[1..] == a[1..] + [k] + b;
      FirstAt(a[1..], k, b);
    }
  }

  /** Removing a key keeps the order of the others. */
  lemma RemovedMeans<K>(a: seq<K>, k: K, b: seq<K>)
    requires k !in a && k !in b
    ensures Removed(a + [k] + b, k) == a + b
    ensures Removed(a + b, k) == a + b
  {
    FirstAt(a, k, b);
  }

  /** The part of a map that belongs to the given keys. */
  function Kept<K(==), T>(m: map<K, T>, keys: seq<K>): (r: map<K, T>)
  {
    map k | k in m && k in keys :: m[k]
  }

  /** Inserting a value with key k: a stored key changes nothing; a full set takes it only if forced to, and then by
      dropping the key at the old end, if the callback lets it go. */
  function Inserted<K(==), T>(keys: seq<K>, m: map<K, T>, k: K, v: T, capacity: nat, force: bool, cb: Option<T -> bool>)
    : (seq<K>, map<K, T>, bool)
    requires forall x :: x in keys ==> x in m
  {
    if k in keys then (keys, m, false)
    else if |keys| < capacity then ([k] + keys, m[k := v], true)
    else if keys != [] && force && Dropped(keys, m, 1, cb) == 1 then
      var kept := keys[..|keys| - 1];
      ([k] + kept, Kept(m, kept)[k := v], true)
    else (keys, m, false)
  }

  /** The answer of an insertion, case by case. */
  lemma InsertedCases<K, T>(keys: seq<K>, m: map<K, T>, k: K, v: T, capacity: nat, force: bool, cb: Option<T -> bool>)
    requires forall x :: x in keys ==> x in m
    ensures var answer := Inserted(keys, m, k, v, capacity, force, cb);
      if k in keys || (|keys| >= capacity && (keys == [] || !force || Dropped(keys, m, 1, cb) == 0)) then
        answer == (keys, m, false)
      else
        var kept := if |keys| < capacity then keys else keys[..|keys| - 1];
        answer == ([k] + kept, (if |keys| < capacity then m else Kept(m, kept))[k := v], true)
  {
  }

  lemma KeptAll<K, T>(m: map<K, T>, keys: seq<K>)
    requires (forall k :: k in m ==> k in keys) && (forall k :: k in keys ==> k in m)
    ensures Kept(m, keys) == m
  {
  }

  lemma KeptLast<K, T>(m: map<K, T>, keys: seq<K>)
    requires keys != [] && NoDup(keys)
    ensures Minus(Kept(m, keys), keys[|keys| - 1]) == Kept(m, keys[..|keys| - 1])
  {
    var d := keys[..|keys| - 1];
    assert keys == d + [keys[|keys| - 1]];
    assert forall k :: k in d ==> k in keys;
  }

  /** `i` of the keys `keys0` have been dropped on the way to dropping up to `num`. */
  ghost predicate Dropping<K, T>(keys0: seq<K>, m0: map<K, T>, num: nat, cb: Option<T -> bool>, i: nat,
                                 keys: seq<K>, m: map<K, T>)
  {
    && i <= num && i <= |keys0|
    && (forall k :: k in keys0 ==> k in m0)
    && keys == keys0[..|keys0| - i]
    && m == Kept(m0, keys)
    && i + Dropped(keys, m0, num - i, cb) == Dropped(keys0, m0, num, cb)
  }

  lemma DroppingStart<K, T>(m: map<K, T>, keys: seq<K>, num: nat, cb: Option<T -> bool>)
    requires (forall k :: k in m ==> k in keys) && (forall k :: k in keys ==> k in m)
    ensures Dropping(keys, m, num, cb, 0, keys, m)
  {
  }

  lemma DroppingMeans<K, T>(keys0: seq<K>, m0: map<K, T>, num: nat, cb: Option<T -> bool>, i: nat,
                            keys: seq<K>, m: map<K, T>)
    requires Dropping(keys0, m0, num, cb, i, keys, m)
    ensures i <= |keys0| && keys == keys0[..|keys0| - i] && m == Kept(m0, keys)
  {
  }

  lemma DroppingStep<K, T>(keys0: seq<K>, m0: map<K, T>, num: nat, cb: Option<T -> bool>, i: nat,
                           keys: seq<K>, m: map<K, T>)
    requires Dropping(keys0, m0, num, cb, i, keys, m)
    ensures i == num || keys == [] ==> i == Dropped(keys0, m0, num, cb)
    ensures keys != [] ==> keys[|keys| - 1] in m && m[keys[|keys| - 1]] == m0[keys[|keys| - 1]]
    ensures i < num && keys != [] ==>
      var k := keys[|keys| - 1];
      if cb.Some? && !cb.value(m[k]) then i == Dropped(keys0, m0, num, cb)
      else NoDup(keys) ==> Dropping(keys0, m0, num, cb, i + 1, keys[..|keys| - 1], Minus(m, k))
  {
    if i < num && keys != [] && NoDup(keys) {
      KeptLast(m0, keys);
    }
  }

  lemma AgreeRemove<K>(order: seq<int>, keys: seq<K>, slot: map<K, int>, i: nat)
    requires Agree(order, keys, slot) && i < |keys|
    ensures Agree(Without(order, i), Without(keys, i), Minus(slot, keys[i]))
  {
    WithoutNoDup(keys, i);
    var o, d := Without(order, i), Without(keys, i);
    forall j | 0 <= j < |d| ensures d[j] in Minus(slot, keys[i]) && slot[d[j]] == o[j] {
      var n := if j < i then j else j + 1;
      assert d[j] == keys[n] && o[j] == order[n];
    }
  }

  lemma AgreePrepend<K>(order: seq<int>, keys: seq<K>, slot: map<K, int>, k: K, x: int)
    requires Agree(order, keys, slot) && k !in slot
    ensures Agree([x] + order, [k] + keys, slot[k := x])
  {
    assert forall j :: 0 <= j < |keys| ==> keys[j] in keys;
  }

  lemma AgreeUse<K>(order: seq<int>, keys: seq<K>, slot: map<K, int>, i: nat)
    requires Agree(order, keys, slot) && i < |keys|
    ensures Agree([order[i]] + Without(order, i), [keys[i]] + Without(keys, i), slot)
  {
    AgreeRemove(order, keys, slot, i);
    AgreePrepend(Without(order, i), Without(keys, i), Minus(slot, keys[i]), keys[i], order[i]);
    assert Minus(slot, keys[i])[keys[i] := order[i]] == slot;
  }

  /** A slot is in the recency list iff it is the slot of a stored key. */
  lemma OrderMember<K>(order: seq<int>, keys: seq<K>, slot: map<K, int>, x: int)
    requires Agree(order, keys, slot)
    ensures x in order <==> exists k :: k in slot && slot[k] == x
  {
    if x in order {
      var i :| 0 <= i < |order| && order[i] == x;
      assert keys[i] in slot;
    }
    if exists k :: k in slot && slot[k] == x {
      var k :| k in slot && slot[k] == x;
      var i :| 0 <= i < |keys| && keys[i] == k;
      assert order[i] == x;
    }
  }

  /** As many stored keys as entries in the list. */
  lemma {:induction false} AgreeSize<K>(order: seq<int>, keys: seq<K>, slot: map<K, int>)
    requires Agree(order, keys, slot)
    ensures |slot| == |keys|
    decreases |keys|
  {
    if keys == [] {
      assert slot == map[];
    } else {
      AgreeRemove(order, keys, slot, 0);
      AgreeSize(Without(order, 0), Without(keys, 0), Minus(slot, keys[0]));
      assert slot == Minus(slot, keys[0])[keys[0] := order[0]];
    }
  }

  /** Dropping the last key: what `Removed` means for it. */
  lemma RemovedLast<K>(keys: seq<K>)
    requires keys != [] && NoDup(keys)
    ensures Removed(keys, keys[|keys| - 1]) == keys[..|keys| - 1]
  {
    assert IndexOf(keys, keys[|keys| - 1]) == |keys| - 1;
  }

  lemma IndexUnique<K>(keys: seq<K>, i: nat)
    requires i < |keys| && NoDup(keys)
    ensures IndexOf(keys, keys[i]) == i
  {
  }

  /** After a use the key is first, the others keep their order, and nothing is added or lost. */
  lemma UseMovesToFront<K>(keys: seq<K>, k: K)
    requires NoDup(keys) && k in keys
    ensures Used(keys, k)[0] == k
    ensures Removed(Used(keys, k), k) == Removed(keys, k)
    ensures NoDup(Used(keys, k))
    ensures multiset(Used(keys, k)) == multiset(keys)
  {
    var i, r := IndexOf(keys, k), Removed(keys, k);
    WithoutNoDup(keys, i);
    NoDupAppend([k], r);
    IndexUnique([k] + r, 0);
    assert Without([k] + r, 0) == r;
    FrontMultiset(keys, i);
  }

  lemma FrontMultiset<K>(keys: seq<K>, i: nat)
    requires i < |keys|
    ensures multiset([keys[i]] + Without(keys, i)) == multiset(keys)
  {
    var a, b := keys[..i], keys[i + 1..];
    assert keys == a + [keys[i]] + b;
    assert multiset(keys) == multiset(a) + multiset([keys[i]]) + multiset(b);
    assert [keys[i]] + Without(keys, i) == [keys[i]] + a + b;
  }
}
