/** The timer queue as a value: timers ordered by expiry and number, the index from number to expiry,
    and the last number given out. */
module Timers {

  const U64: nat := 0x1_0000_0000_0000_0000

  datatype Timer<T> = Timer(id: nat, interval: nat, expire: nat, task: T)

  datatype Queue<T> = Queue(timers: seq<Timer<T>>, index: map<nat, nat>, baseId: nat)

  predicate Before<T>(a: Timer<T>, b: Timer<T>)
  {
    a.expire < b.expire || (a.expire == b.expire && a.id < b.id)
  }

  predicate Sorted<T>(ts: seq<Timer<T>>)
  {
    forall i, j :: 0 <= i < j < |ts| ==> Before(ts[i], ts[j])
  }

  /** The ordered set and the index agree: they hold the same timers. */
  ghost predicate QueueOk<T>(q: Queue<T>)
  {
    && Sorted(q.timers)
    && (forall t :: t in q.timers ==> t.id in q.index && q.index[t.id] == t.expire)
    && (forall id :: id in q.index ==> exists t :: t in q.timers && t.id == id)
    && 0 !in q.index
    && q.baseId < U64
  }

  // ------------------------------------------------------------ the ordered set

  function Insert<T>(ts: seq<Timer<T>>, t: Timer<T>): (r: seq<Timer<T>>)
  {
    if ts == [] || Before(t, ts[0]) then [t] + ts else [ts[0]] + Insert(ts[1..], t)
  }

  /** Erasing the timer with this expiry and number. */
  function Erase<T>(ts: seq<Timer<T>>, expire: nat, id: nat): (r: seq<Timer<T>>)
  {
    if ts == [] then []
    else if ts[0].expire == expire && ts[0].id == id then ts[1..]
    else [ts[0]] + Erase(ts[1..], expire, id)
  }

  lemma {:induction false} InsertMembers<T>(ts: seq<Timer<T>>, t: Timer<T>, x: Timer<T>)
    ensures x in Insert(ts, t) <==> x == t || x in ts
    decreases |ts|
  {
    if ts != [] && !Before(t, ts[0]) {
      InsertMembers(ts[1..], t, x);
      assert ts == [ts[0]] + ts[1..];
    }
  }

  lemma {:induction false} InsertSorted<T>(ts: seq<Timer<T>>, t: Timer<T>)
    requires Sorted(ts) && forall x :: x in ts ==> x.id != t.id
    ensures Sorted(Insert(ts, t))
    decreases |ts|
  {
    if ts != [] && !Before(t, ts[0]) {
      assert ts[0] in ts;
      assert Sorted(ts[1..]);
      InsertSorted(ts[1..], t);
      var r := Insert(ts[1..], t);
      forall j | 0 <= j < |r| ensures Before(ts[0], r[j]) {
        InsertMembers(ts[1..], t, r[j]);
        assert r[j] in r;
      }
      SortedCons(ts[0], r);
    } else {
      forall j | 0 <= j < |ts| ensures Before(t, ts[j]) {
      }
      SortedCons(t, ts);
    }
  }

  lemma SortedCons<T>(t: Timer<T>, ts: seq<Timer<T>>)
    requires Sorted(ts) && forall j :: 0 <= j < |ts| ==> Before(t, ts[j])
    ensures Sorted([t] + ts)
  {
  }

  lemma {:induction false} EraseMembers<T>(ts: seq<Timer<T>>, expire: nat, id: nat, x: Timer<T>)
    requires Sorted(ts)
    ensures x in Erase(ts, expire, id) <==> x in ts && !(x.expire == expire && x.id == id)
    decreases |ts|
  {
    if ts != [] {
      assert Sorted(ts[1..]) && ts == [ts[0]] + ts[1..];
      if ts[0].expire == expire && ts[0].id == id {
        assert forall y :: y in ts[1..] ==> Before(ts[0], y);
      } else {
        EraseMembers(ts[1..], expire, id, x);
      }
    }
  }

  lemma {:induction false} EraseSorted<T>(ts: seq<Timer<T>>, expire: nat, id: nat)
    requires Sorted(ts)
    ensures Sorted(Erase(ts, expire, id))
    decreases |ts|
  {
    if ts != [] {
      assert Sorted(ts[1..]) && ts == [ts[0]] + ts[1..];
      if !(ts[0].expire == expire && ts[0].id == id) {
        EraseSorted(ts[1..], expire, id);
        var r := Erase(ts[1..], expire, id);
        forall j | 0 <= j < |r| ensures Before(ts[0], r[j]) {
          EraseMembers(ts[1..], expire, id, r[j]);
          assert r[j] in ts[1..];
        }
        SortedCons(ts[0], r);
      }
    }
  }

  // ------------------------------------------------------------ operations

  function NextId(baseId: nat): (id: nat)
    ensures 0 < id < U64
    ensures baseId < U64 ==> id == baseId + 1 || (id == 1 && baseId + 1 == U64)
  {
    if (baseId + 1) % U64 == 0 then 1 else (baseId + 1) % U64
  }

  /** Adds a timer; the number is 0 if the next number is still in use. */
  function Add<T>(q: Queue<T>, task: T, expire: nat, interval: nat): (Queue<T>, nat)
  {
    var id := NextId(q.baseId);
    if id in q.index then (q.(baseId := id), 0)
    else (Queue(Insert(q.timers, Timer(id, interval, expire, task)), q.index[id := expire], id), id)
  }

  function Cancel<T>(q: Queue<T>, id: nat): (Queue<T>, bool)
  {
    if id !in q.index then (q, false)
    else (q.(timers := Erase(q.timers, q.index[id], id), index := q.index - {id}), true)
  }

  predicate Due<T>(q: Queue<T>, now: nat)
  {
    q.timers != [] && q.timers[0].expire <= now
  }

  /** The queue when the first timer fires, before its task runs: a one-shot timer is gone, a periodic
      one is back with its next expiry, on 64 bits. */
  function Taken<T>(q: Queue<T>): Queue<T>
    requires q.timers != []
  {
    var t, rest, index := q.timers[0], q.timers[1..], q.index - {q.timers[0].id};
    if t.interval > 0 && t.id !in index then
      var expire := (t.expire + t.interval) % U64;
      Queue(Insert(rest, t.(expire := expire)), index[t.id := expire], q.baseId)
    else Queue(rest, index, q.baseId)
  }

  /** r holds the timers of ts and t, and no other. */
  ghost predicate Joined<T>(r: seq<Timer<T>>, ts: seq<Timer<T>>, t: Timer<T>) {
    t in r && (forall x :: x in ts ==> x in r) && (forall x :: x in r ==> x in ts || x == t)
  }

  lemma InsertAll<T>(ts: seq<Timer<T>>, t: Timer<T>)
    ensures Joined(Insert(ts, t), ts, t)
  {
    InsertMembers(ts, t, t);
    forall x | x in ts ensures x in Insert(ts, t) {
      InsertMembers(ts, t, x);
    }
    forall x | x in Insert(ts, t) ensures x in ts || x == t {
      InsertMembers(ts, t, x);
    }
  }

  // ------------------------------------------------------------ what the operations keep

  /** Putting a timer with an unused number into both structures. */
  lemma InsertOk<T>(q: Queue<T>, t: Timer<T>, baseId: nat)
    requires QueueOk(q) && t.id !in q.index && t.id != 0 && baseId < U64
    ensures QueueOk(Queue(Insert(q.timers, t), q.index[t.id := t.expire], baseId))
    ensures Joined(Insert(q.timers, t), q.timers, t)
  {
    hide Sorted, Before;
    var r, index := Insert(q.timers, t), q.index[t.id := t.expire];
    InsertAll(q.timers, t);
    InsertSorted(q.timers, t);
    forall i | i in index ensures exists x :: x in r && x.id == i {
      if i != t.id {
        var x :| x in q.timers && x.id == i;
        assert x in r;
      }
    }
  }

  lemma TailOf<T>(ts: seq<Timer<T>>)
    requires Sorted(ts) && ts != []
    ensures Sorted(ts[1..]) && forall x :: x in ts[1..] ==> x in ts && Before(ts[0], x)
  {
    forall x | x in ts[1..] ensures x in ts && Before(ts[0], x) {
      var i :| 0 <= i < |ts[1..]| && ts[1..][i] == x;
      assert x == ts[i + 1];
    }
  }

  lemma HeadApart<T>(q: Queue<T>)
    requires QueueOk(q) && q.timers != []
    ensures forall x :: x in q.timers[1..] ==> x.id != q.timers[0].id
  {
    hide Sorted;
    TailOf(q.timers);
    assert q.timers[0] in q.timers;
  }

  /** Dropping the first timer from both structures. */
  lemma HeadOk<T>(q: Queue<T>)
    requires QueueOk(q) && q.timers != []
    ensures QueueOk(Queue(q.timers[1..], q.index - {q.timers[0].id}, q.baseId))
    ensures forall x :: x in q.timers[1..] ==> x in q.timers && x.id != q.timers[0].id
    ensures forall x :: x in q.timers && x.id != q.timers[0].id ==> x in q.timers[1..]
  {
    hide Sorted, Before;
    TailOf(q.timers);
    TailIndexed(q);
    TailKeyed(q);
    InTail(q.timers);
    Assembled(q.timers[1..], q.index - {q.timers[0].id}, q.baseId);
  }

  lemma Assembled<T>(ts: seq<Timer<T>>, index: map<nat, nat>, baseId: nat)
    requires Sorted(ts) && (forall t :: t in ts ==> t.id in index && index[t.id] == t.expire)
    requires forall id :: id in index ==> exists t :: t in ts && t.id == id
    requires 0 !in index && baseId < U64
    ensures QueueOk(Queue(ts, index, baseId))
  {
  }

  lemma TailKeyed<T>(q: Queue<T>)
    requires QueueOk(q) && q.timers != []
    ensures forall x :: x in q.timers[1..] ==>
      x in q.timers && x.id != q.timers[0].id && x.id in q.index && q.index[x.id] == x.expire
  {
    hide Sorted, Before;
    TailOf(q.timers);
    HeadApart(q);
  }

  lemma InTail<T>(ts: seq<Timer<T>>)
    requires ts != []
    ensures forall x :: x in ts && x.id != ts[0].id ==> x in ts[1..]
  {
    assert ts == [ts[0]] + ts[1..];
  }

  lemma TailIndexed<T>(q: Queue<T>)
    requires QueueOk(q) && q.timers != []
    ensures forall i :: i in q.index && i != q.timers[0].id ==> exists x :: x in q.timers[1..] && x.id == i
  {
    hide Sorted;
    InTail(q.timers);
    forall i | i in q.index && i != q.timers[0].id ensures exists x :: x in q.timers[1..] && x.id == i {
      var x :| x in q.timers && x.id == i;
      assert x in q.timers[1..];
    }
  }

  lemma AddOk<T>(q: Queue<T>, task: T, expire: nat, interval: nat)
    requires QueueOk(q)
    ensures QueueOk(Add(q, task, expire, interval).0)
    ensures Add(q, task, expire, interval).1 == 0 <==> NextId(q.baseId) in q.index
    ensures var (r, id) := Add(q, task, expire, interval); id == 0 ==> r.timers == q.timers && r.index == q.index
    ensures var (r, id) := Add(q, task, expire, interval);
      id != 0 ==> (
        && id !in q.index && r.index == q.index[id := expire]
        && Joined(r.timers, q.timers, Timer(id, interval, expire, task)))
  {
    hide QueueOk, Insert, Sorted, Before;
    var (r, id) := Add(q, task, expire, interval);
    if id != 0 {
      InsertOk(q, Timer(id, interval, expire, task), id);
    } else {
      ReIdOk(q, NextId(q.baseId));
    }
  }

  lemma ReIdOk<T>(q: Queue<T>, baseId: nat)
    requires QueueOk(q) && baseId < U64
    ensures QueueOk(q.(baseId := baseId))
  {
  }

  /** Cancelling removes exactly the named timer, from the ordered set and from the index. */
  lemma CancelOk<T>(q: Queue<T>, id: nat)
    requires QueueOk(q)
    ensures QueueOk(Cancel(q, id).0) && Cancel(q, id).0.baseId == q.baseId
    ensures Cancel(q, id).1 <==> exists x :: x in q.timers && x.id == id
    ensures forall x :: x in Cancel(q, id).0.timers ==> x in q.timers && x.id != id
    ensures forall x :: x in q.timers && x.id != id ==> x in Cancel(q, id).0.timers
    ensures forall i :: i in Cancel(q, id).0.index <==> i in q.index && i != id
  {
    var (r, ok) := Cancel(q, id);
    if ok {
      var e := q.index[id];
      forall x ensures x in r.timers <==> x in q.timers && x.id != id {
        EraseMembers(q.timers, e, id, x);
      }
      EraseSorted(q.timers, e, id);
      forall i | i in r.index ensures exists x :: x in r.timers && x.id == i {
        var x :| x in q.timers && x.id == i;
        assert x in r.timers;
      }
    }
  }

  /** What the first timer becomes when it fires. */
  function Renewed<T>(t: Timer<T>): Timer<T> {
    t.(expire := (t.expire + t.interval) % U64)
  }

  lemma TakenOk<T>(q: Queue<T>)
    requires QueueOk(q) && q.timers != []
    ensures QueueOk(Taken(q)) && Taken(q).baseId == q.baseId
    ensures var t := q.timers[0];
      && t.id in q.index
      && Taken(q).timers == (if t.interval > 0 then Insert(q.timers[1..], Renewed(t)) else q.timers[1..])
      && (t.interval > 0 ==> Renewed(t) in Taken(q).timers)
      && (forall x :: x in q.timers && x.id != t.id ==> x in Taken(q).timers)
      && (forall x :: x in Taken(q).timers ==>
            (x in q.timers && x.id != t.id) || (t.interval > 0 && x == Renewed(t)))
      && (forall i :: i in Taken(q).index <==> i in q.index && (i != t.id || t.interval > 0))
  {
    hide Insert, Sorted, Before;
    HeadOk(q);
    var t, rest := q.timers[0], Queue(q.timers[1..], q.index - {q.timers[0].id}, q.baseId);
    assert t in q.timers;
    if t.interval > 0 {
      InsertOk(rest, Renewed(t), q.baseId);
    }
  }
}
