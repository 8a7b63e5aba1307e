/** Pending calls as values: the timer queue, the cache of calls waiting for an answer, and the history of calls
    accepted and ended. */
module ContextCalls {
  import opened Timers
  import opened TimerRuns
  import opened TimerLimits

  const RPC_SUCCESS: int := 0
  const RPC_SYS_ERR: int := -1
  const RPC_TIME_OUT: int := -3

  /** A call that Pending accepted. Its context stores the timer number cut to 32 bits. */
  datatype Call = Call(seqId: nat, timer: nat, expire: nat)

  /** A call woken with this code, at this time. */
  datatype Outcome = Outcome(call: Call, ret: int, now: nat)

  /** The task of a timer is the number of the call it wakes. */
  datatype Calls = Calls(queue: Queue<nat>, cache: map<nat, Call>, issued: seq<Call>, ended: seq<Outcome>)

  const INITIAL: Calls := Calls(Queue([], map[], 0), map[], [], [])

  function StoredTimer(c: Call): nat {
    c.timer % U32
  }

  /** Accepting a call: generated is the number used when the caller gives none, clock the current time. */
  function Pend(s: Calls, seqId: nat, timeout: nat, clock: nat, generated: nat, hasContext: bool): (Calls, int) {
    if !hasContext then (s, RPC_SYS_ERR)
    else
      var sid := if seqId == 0 then generated else seqId;
      var expire := (clock + timeout) % U64;
      var (q, id) := Add(s.queue, sid, expire, 0);
      if id == 0 then (s.(queue := q), RPC_SYS_ERR)
      else if sid in s.cache then (s.(queue := Cancel(q, id).0), RPC_SYS_ERR)
      else
        var c := Call(sid, id, expire);
        (Calls(q, s.cache[sid := c], s.issued + [c], s.ended), RPC_SUCCESS)
  }

  /** Waking a call: a time-out leaves the timer queue alone, since its timer has just fired. */
  function Awake(s: Calls, seqId: nat, ret: int, now: nat): Calls {
    if seqId !in s.cache then s
    else
      var c := s.cache[seqId];
      var q := if ret != RPC_TIME_OUT then Cancel(s.queue, StoredTimer(c)).0 else s.queue;
      Calls(q, s.cache - {seqId}, s.issued, s.ended + [Outcome(c, ret, now)])
  }

  function FireFirst(s: Calls, now: nat): Calls
    requires s.queue.timers != []
  {
    Awake(s.(queue := Taken(s.queue)), s.queue.timers[0].task, RPC_TIME_OUT, now)
  }

  datatype Event =
    | Pending(seqId: nat, timeout: nat, clock: nat, generated: nat, hasContext: bool)
    | Answer(seqId: nat, ret: int, now: nat)
    | Firing(now: nat)

  function Step(s: Calls, e: Event): Calls {
    match e
    case Pending(seqId, timeout, clock, generated, hasContext) =>
      Pend(s, seqId, timeout, clock, generated, hasContext).0
    case Answer(seqId, ret, now) => Awake(s, seqId, ret, now)
    case Firing(now) => if Due(s.queue, now) then FireFirst(s, now) else s
  }

  function RunAll(s: Calls, es: seq<Event>): Calls
    decreases |es|
  {
    if es == [] then s else RunAll(Step(s, es[0]), es[1..])
  }

  // ------------------------------------------------------------ the invariant

  function OwnTimer(c: Call): Timer<nat> {
    Timer(c.timer, 0, c.expire, c.seqId)
  }

  /** All timer numbers given out so far fit the 32 bits that a context keeps. */
  predicate Few(s: Calls) {
    s.queue.baseId < U32
  }

  /** Every call in the cache has its own timer, as long as numbers are few; every timer fires once and has a number
      already given out. */
  ghost predicate Backed(s: Calls) {
    && QueueOk(s.queue)
    && (forall sid :: sid in s.cache ==> s.cache[sid].seqId == sid)
    && (Few(s) ==> forall sid :: sid in s.cache ==> OwnTimer(s.cache[sid]) in s.queue.timers)
    && (forall t :: t in s.queue.timers ==> t.interval == 0 && t.id <= s.queue.baseId)
  }

  /** There is no timer but those of the calls in the cache. */
  ghost predicate Exclusive(s: Calls) {
    forall t :: t in s.queue.timers ==> t.task in s.cache && t == OwnTimer(s.cache[t.task])
  }

  /** Timer numbers are given out in order. */
  ghost predicate Numbered(s: Calls) {
    && s.queue.baseId < U64
    && (forall c :: c in s.issued ==> 0 < c.timer <= s.queue.baseId)
    && (forall i, j :: 0 <= i < j < |s.issued| ==> s.issued[i].timer < s.issued[j].timer)
  }

  /** Each accepted call is either in the cache or has ended, and has ended once only. */
  ghost predicate Accounted(s: Calls) {
    && |s.issued| == |s.ended| + |s.cache|
    && (forall sid :: sid in s.cache ==> s.cache[sid] in s.issued)
    && (forall o :: o in s.ended ==> o.call in s.issued)
    && (forall i, j :: 0 <= i < j < |s.ended| ==> s.ended[i].call != s.ended[j].call)
    && (forall o, sid :: o in s.ended && sid in s.cache ==> o.call != s.cache[sid])
  }

  ghost predicate Ended(s: Calls, c: Call) {
    exists i :: 0 <= i < |s.ended| && s.ended[i].call == c
  }

  /** No accepted call is lost. */
  ghost predicate Settled(s: Calls) {
    forall c :: c in s.issued ==> (c.seqId in s.cache && s.cache[c.seqId] == c) || Ended(s, c)
  }

  /** No call was timed out before its expiry. */
  ghost predicate Punctual(s: Calls) {
    forall o :: o in s.ended && o.ret == RPC_TIME_OUT ==> o.call.expire <= o.now
  }

  /** What holds whatever codes the answers carry. */
  ghost predicate Inv(s: Calls) {
    Backed(s) && Numbered(s) && Accounted(s) && Settled(s)
  }

  /** What holds besides, as long as numbers are few, if no answer carries the code reserved for time-outs. */
  ghost predicate Strict(s: Calls) {
    Few(s) ==> Exclusive(s) && Punctual(s)
  }

  predicate Honest(e: Event) {
    e.Answer? ==> e.ret != RPC_TIME_OUT
  }

  lemma InvParts(s: Calls)
    requires Inv(s)
    ensures QueueOk(s.queue)
    ensures forall sid :: sid in s.cache ==> s.cache[sid].seqId == sid && s.cache[sid].timer <= s.queue.baseId
  {
    forall sid | sid in s.cache ensures s.cache[sid].timer <= s.queue.baseId {
      assert s.cache[sid] in s.issued;
    }
  }

  // ------------------------------------------------------------ accepting a call

  /** While numbers are given out in order, a new number is not in use. */
  lemma NumbersUnused(s: Calls)
    requires Backed(s) && s.queue.baseId + 1 < U64
    ensures NextId(s.queue.baseId) == s.queue.baseId + 1 && s.queue.baseId + 1 !in s.queue.index
  {
    forall i | i in s.queue.index ensures i <= s.queue.baseId {
      var t :| t in s.queue.timers && t.id == i;
    }
  }

  /** Adding a timer and cancelling it leaves the timers as they were. */
  lemma AddThenCancel(q: Queue<nat>, task: nat, expire: nat)
    requires QueueOk(q) && NextId(q.baseId) !in q.index
    ensures var r := Cancel(Add(q, task, expire, 0).0, NextId(q.baseId)).0;
      QueueOk(r) && r.baseId == NextId(q.baseId)
    ensures var r := Cancel(Add(q, task, expire, 0).0, NextId(q.baseId)).0;
      forall t :: t in r.timers ==> t in q.timers
    ensures var r := Cancel(Add(q, task, expire, 0).0, NextId(q.baseId)).0;
      forall t :: t in q.timers ==> t in r.timers
  {
    hide Insert, Erase, Sorted, Before;
    var id := NextId(q.baseId);
    AddOk(q, task, expire, 0);
    CancelOk(Add(q, task, expire, 0).0, id);
  }

  /** The queue after accepting a call, and after refusing one whose number is in use. */
  lemma PendQueue(s: Calls, sid: nat, expire: nat)
    requires Backed(s) && s.queue.baseId + 1 < U64
    ensures var (q, id) := Add(s.queue, sid, expire, 0);
      && id == q.baseId == s.queue.baseId + 1
      && QueueOk(q) && Joined(q.timers, s.queue.timers, OwnTimer(Call(sid, id, expire)))
      && QueueOk(Cancel(q, id).0) && Cancel(q, id).0.baseId == id
      && (forall t :: t in Cancel(q, id).0.timers ==> t in s.queue.timers)
      && (forall t :: t in s.queue.timers ==> t in Cancel(q, id).0.timers)
  {
    hide QueueOk, Insert, Cancel, Joined;
    NumbersUnused(s);
    BackedQueue(s);
    AddOk(s.queue, sid, expire, 0);
    AddThenCancel(s.queue, sid, expire);
  }

  lemma BackedQueue(s: Calls)
    requires Backed(s)
    ensures QueueOk(s.queue)
  {
  }

  /** A new call, which has its own new timer. */
  lemma PendBacked(s: Calls, r: Calls, c: Call)
    requires Backed(s) && c.seqId !in s.cache && r.cache == s.cache[c.seqId := c]
    requires QueueOk(r.queue) && Joined(r.queue.timers, s.queue.timers, OwnTimer(c))
    requires s.queue.baseId <= r.queue.baseId == c.timer
    ensures Backed(r) && (Exclusive(s) ==> Exclusive(r))
  {
    hide QueueOk;
  }

  lemma PendNumbered(s: Calls, r: Calls, c: Call)
    requires Numbered(s) && c.timer == r.queue.baseId == s.queue.baseId + 1 < U64 && r.issued == s.issued + [c]
    ensures Numbered(r) && c !in s.issued
  {
    hide QueueOk;
  }

  lemma PendAccounted(s: Calls, r: Calls, c: Call)
    requires Accounted(s) && c.seqId !in s.cache && c !in s.issued
    requires r.cache == s.cache[c.seqId := c] && r.issued == s.issued + [c] && r.ended == s.ended
    ensures Accounted(r)
  {
    hide QueueOk;
    assert r.cache.Keys == s.cache.Keys + {c.seqId};
    forall sid | sid in r.cache ensures r.cache[sid] in r.issued {
      assert sid != c.seqId ==> s.cache[sid] in s.issued;
    }
    forall o | o in r.ended ensures o.call in r.issued {
      assert o.call in s.issued;
    }
  }

  lemma PendSettled(s: Calls, r: Calls, c: Call)
    requires Settled(s) && c.seqId !in s.cache
    requires r.cache == s.cache[c.seqId := c] && r.issued == s.issued + [c] && r.ended == s.ended
    ensures Settled(r)
  {
    forall x | x in s.issued && Ended(s, x) ensures Ended(r, x) {
      var i :| 0 <= i < |s.ended| && s.ended[i].call == x;
      assert r.ended[i].call == x;
    }
  }

  /** The timers may be listed anew, and numbers pass, without any call being touched. */
  lemma Refused(s: Calls, q: Queue<nat>)
    requires Inv(s) && QueueOk(q) && s.queue.baseId <= q.baseId < U64
    requires (forall t :: t in q.timers ==> t in s.queue.timers) && (forall t :: t in s.queue.timers ==> t in q.timers)
    ensures Inv(s.(queue := q)) && (Strict(s) ==> Strict(s.(queue := q)))
  {
    hide QueueOk, Accounted, Ended;
    RefusedEnded(s, q);
    RefusedAccounted(s, q);
  }

  lemma RefusedAccounted(s: Calls, q: Queue<nat>)
    requires Accounted(s)
    ensures Accounted(s.(queue := q))
  {
  }

  lemma RefusedEnded(s: Calls, q: Queue<nat>)
    ensures forall c :: Ended(s, c) ==> Ended(s.(queue := q), c)
  {
    forall c | Ended(s, c) ensures Ended(s.(queue := q), c) {
      var i :| 0 <= i < |s.ended| && s.ended[i].call == c;
      assert s.(queue := q).ended[i].call == c;
    }
  }

  /** Accepting a call succeeds exactly when there is a context and the number is not in use. */
  lemma PendKeeps(s: Calls, seqId: nat, timeout: nat, clock: nat, generated: nat, hasContext: bool)
    requires Inv(s) && s.queue.baseId + 1 < U64
    ensures var (r, ret) := Pend(s, seqId, timeout, clock, generated, hasContext);
      && Inv(r) && s.queue.baseId <= r.queue.baseId <= s.queue.baseId + 1
      && (Strict(s) ==> Strict(r))
      && (if hasContext && (if seqId == 0 then generated else seqId) !in s.cache then
            var c := Call(if seqId == 0 then generated else seqId, s.queue.baseId + 1, (clock + timeout) % U64);
            && ret == RPC_SUCCESS && r.issued == s.issued + [c] && r.cache == s.cache[c.seqId := c]
            && Joined(r.queue.timers, s.queue.timers, OwnTimer(c))
          else
            && ret == RPC_SYS_ERR && r.issued == s.issued && r.cache == s.cache
            && (forall t :: t in r.queue.timers ==> t in s.queue.timers)
            && (forall t :: t in s.queue.timers ==> t in r.queue.timers))
      && r.ended == s.ended
  {
    hide QueueOk, Backed, Exclusive, Numbered, Accounted, Settled, Add, Cancel, Joined;
    if hasContext {
      var sid := if seqId == 0 then generated else seqId;
      var expire := (clock + timeout) % U64;
      PendQueue(s, sid, expire);
      var (q, id) := Add(s.queue, sid, expire, 0);
      if sid !in s.cache {
        var c := Call(sid, id, expire);
        var r := Calls(q, s.cache[sid := c], s.issued + [c], s.ended);
        PendBacked(s, r, c);
        PendNumbered(s, r, c);
        PendAccounted(s, r, c);
        PendSettled(s, r, c);
      } else {
        Refused(s, Cancel(q, id).0);
      }
    }
  }

  // ------------------------------------------------------------ ending a call

  lemma EndNumbered(s: Calls, r: Calls)
    requires Numbered(s) && r.queue.baseId == s.queue.baseId && r.issued == s.issued
    ensures Numbered(r)
  {
  }

  lemma EndAccounted(s: Calls, sid: nat, r: Calls, o: Outcome)
    requires Accounted(s) && sid in s.cache && forall x :: x in s.cache ==> s.cache[x].seqId == x
    requires o.call == s.cache[sid] && r.cache == s.cache - {sid} && r.issued == s.issued && r.ended == s.ended + [o]
    ensures Accounted(r)
  {
    hide QueueOk;
    assert r.cache.Keys == s.cache.Keys - {sid};
    forall i, j | 0 <= i < j < |r.ended| ensures r.ended[i].call != r.ended[j].call {
      assert s.ended[i] in s.ended;
    }
  }

  lemma EndSettled(s: Calls, sid: nat, r: Calls, o: Outcome)
    requires Settled(s) && sid in s.cache && forall x :: x in s.cache ==> s.cache[x].seqId == x
    requires o.call == s.cache[sid] && r.cache == s.cache - {sid} && r.issued == s.issued && r.ended == s.ended + [o]
    ensures Settled(r)
  {
    forall c | c in s.issued ensures (c.seqId in r.cache && r.cache[c.seqId] == c) || Ended(r, c) {
      if Ended(s, c) {
        var i :| 0 <= i < |s.ended| && s.ended[i].call == c;
        assert r.ended[i].call == c;
      } else if c.seqId == sid {
        assert r.ended[|s.ended|].call == c;
      }
    }
  }

  /** Ending a call after some timers have left the queue, none of them the own timer of another call. */
  lemma EndBacked(s: Calls, sid: nat, r: Calls)
    requires Backed(s) && QueueOk(r.queue) && r.queue.baseId == s.queue.baseId && r.cache == s.cache - {sid}
    requires forall t :: t in r.queue.timers ==> t in s.queue.timers
    requires Few(s) ==> forall x :: x in s.cache && x != sid ==> OwnTimer(s.cache[x]) in r.queue.timers
    ensures Backed(r)
  {
    hide QueueOk;
  }

  /** Waking a call, once the queue is as it will be. */
  lemma EndKeeps(s: Calls, sid: nat, r: Calls, o: Outcome)
    requires Inv(s) && sid in s.cache && o.call == s.cache[sid]
    requires QueueOk(r.queue) && r.queue.baseId == s.queue.baseId
    requires r.cache == s.cache - {sid} && r.issued == s.issued && r.ended == s.ended + [o]
    requires forall t :: t in r.queue.timers ==> t in s.queue.timers
    requires Few(s) ==> forall x :: x in s.cache && x != sid ==> OwnTimer(s.cache[x]) in r.queue.timers
    ensures Inv(r)
  {
    hide QueueOk, Backed, Numbered, Accounted, Settled, OwnTimer;
    InvParts(s);
    EndBacked(s, sid, r);
    EndNumbered(s, r);
    EndAccounted(s, sid, r, o);
    EndSettled(s, sid, r, o);
  }

  /** Two calls in the cache have different timers. */
  lemma OwnIds(s: Calls)
    requires Backed(s) && Few(s)
    ensures forall a, b :: a in s.cache && b in s.cache && a != b ==> s.cache[a].timer != s.cache[b].timer
  {
    forall a, b | a in s.cache && b in s.cache && a != b ensures s.cache[a].timer != s.cache[b].timer {
      if s.cache[a].timer == s.cache[b].timer {
        OneTimerPerId(s.queue, OwnTimer(s.cache[a]), OwnTimer(s.cache[b]));
      }
    }
  }

  lemma OneTimerPerId<T>(q: Queue<T>, t: Timer<T>, u: Timer<T>)
    requires QueueOk(q) && t in q.timers && u in q.timers && t.id == u.id
    ensures t == u
  {
    var i, j :| 0 <= i < |q.timers| && 0 <= j < |q.timers| && q.timers[i] == t && q.timers[j] == u;
    if i < j {
      InPlace(q.timers, i, j);
    } else if j < i {
      InPlace(q.timers, j, i);
    }
  }

  lemma InPlace<T>(ts: seq<Timer<T>>, i: nat, j: nat)
    requires Sorted(ts) && i < j < |ts|
    ensures ts[i].expire != ts[j].expire || ts[i].id != ts[j].id
  {
    assert Before(ts[i], ts[j]);
  }

  /** Cancelling by the stored number removes the call's own timer and no other. */
  lemma CancelledOwn(s: Calls, sid: nat)
    requires Backed(s) && Few(s) && sid in s.cache && s.cache[sid].timer < U32
    ensures var q := Cancel(s.queue, StoredTimer(s.cache[sid])).0; QueueOk(q) && q.baseId == s.queue.baseId
    ensures var q := Cancel(s.queue, StoredTimer(s.cache[sid])).0;
      forall t :: t in q.timers ==> t in s.queue.timers && t != OwnTimer(s.cache[sid])
    ensures var q := Cancel(s.queue, StoredTimer(s.cache[sid])).0;
      forall t :: t in s.queue.timers && t != OwnTimer(s.cache[sid]) ==> t in q.timers
  {
    hide QueueOk;
    var c := s.cache[sid];
    assert StoredTimer(c) == c.timer;
    BackedQueue(s);
    CancelOk(s.queue, c.timer);
    forall t | t in s.queue.timers && t != OwnTimer(c) ensures t.id != c.timer {
      if t.id == c.timer {
        OneTimerPerId(s.queue, t, OwnTimer(c));
      }
    }
  }

  /** An answer ends the call of that number, if there is one; as long as numbers are few it also removes the timer of
      that call, and no other, unless it carries the code reserved for time-outs. */
  lemma AnswerKeeps(s: Calls, seqId: nat, ret: int, now: nat)
    requires Inv(s)
    ensures Inv(Awake(s, seqId, ret, now)) && Awake(s, seqId, ret, now).queue.baseId == s.queue.baseId
    ensures Strict(s) && ret != RPC_TIME_OUT ==> Strict(Awake(s, seqId, ret, now))
    ensures seqId !in s.cache ==> Awake(s, seqId, ret, now) == s
    ensures seqId in s.cache ==> (
      var r := Awake(s, seqId, ret, now);
      r.cache == s.cache - {seqId} && r.ended == s.ended + [Outcome(s.cache[seqId], ret, now)] && r.issued == s.issued)
    ensures ret == RPC_TIME_OUT ==> Awake(s, seqId, ret, now).queue == s.queue
    ensures Few(s) && seqId in s.cache && ret != RPC_TIME_OUT ==>
      forall t :: t in Awake(s, seqId, ret, now).queue.timers ==> t in s.queue.timers && t != OwnTimer(s.cache[seqId])
    ensures Few(s) && seqId in s.cache && ret != RPC_TIME_OUT ==>
      forall t :: t in s.queue.timers && t != OwnTimer(s.cache[seqId]) ==> t in Awake(s, seqId, ret, now).queue.timers
  {
    hide QueueOk, Backed, Numbered, Accounted, Settled, Exclusive, Cancel;
    if seqId in s.cache {
      var c, r := s.cache[seqId], Awake(s, seqId, ret, now);
      InvParts(s);
      if ret != RPC_TIME_OUT {
        CancelOk(s.queue, StoredTimer(c));
      }
      if Few(s) {
        OwnQueued(s);
        if ret != RPC_TIME_OUT {
          CancelledOwn(s, seqId);
          if Exclusive(s) {
            EndExclusive(s, seqId, r);
          }
        }
      }
      EndKeeps(s, seqId, r, Outcome(c, ret, now));
    }
  }

  lemma OwnQueued(s: Calls)
    requires Backed(s) && Few(s)
    ensures forall sid :: sid in s.cache ==> OwnTimer(s.cache[sid]) in s.queue.timers
  {
  }

  lemma EndExclusive(s: Calls, sid: nat, r: Calls)
    requires Exclusive(s) && sid in s.cache && r.cache == s.cache - {sid}
    requires forall t :: t in r.queue.timers ==> t in s.queue.timers && t != OwnTimer(s.cache[sid])
    ensures Exclusive(r)
  {
  }

  /** When a timer fires, the call of its number is woken, if there is one; no other call loses its timer. Unless some
      answer carried the code reserved for time-outs, that call is the timer's own, and its time has come. */
  lemma FiringKeeps(s: Calls, now: nat)
    requires Inv(s) && Due(s.queue, now)
    ensures FireFirst(s, now).queue == Taken(s.queue) && FireFirst(s, now).issued == s.issued
    ensures var sid, r := s.queue.timers[0].task, FireFirst(s, now);
      && r.cache == s.cache - {sid}
      && r.ended == s.ended + (if sid in s.cache then [Outcome(s.cache[sid], RPC_TIME_OUT, now)] else [])
    ensures Inv(FireFirst(s, now)) && FireFirst(s, now).queue.baseId == s.queue.baseId
    ensures Strict(s) ==> Strict(FireFirst(s, now))
    ensures Strict(s) && Few(s) ==> (
      var t := s.queue.timers[0];
      FireFirst(s, now).ended == s.ended + [Outcome(Call(t.task, t.id, t.expire), RPC_TIME_OUT, now)])
  {
    hide QueueOk, Backed, Numbered, Accounted, Settled, Taken;
    var t, r := s.queue.timers[0], FireFirst(s, now);
    assert t in s.queue.timers;
    FiringTimers(s);
    if t.task in s.cache {
      EndKeeps(s, t.task, r, Outcome(s.cache[t.task], RPC_TIME_OUT, now));
      if Exclusive(s) {
        EndExclusive(s, t.task, r);
      }
    } else {
      StillBacked(s, Taken(s.queue));
      NumberedAlone(s, Taken(s.queue));
      RefusedEnded(s, Taken(s.queue));
      RefusedAccounted(s, Taken(s.queue));
      SettledAlone(s, Taken(s.queue));
    }
  }

  /** The timers left when the first one fires: every other timer, so that of every call of another number. */
  lemma FiringTimers(s: Calls)
    requires Inv(s) && s.queue.timers != []
    ensures var t := s.queue.timers[0]; var q := Taken(s.queue);
      && QueueOk(q) && q.baseId == s.queue.baseId
      && (forall u :: u in q.timers ==> u in s.queue.timers && u != t)
      && (Few(s) ==> forall x :: x in s.cache && x != t.task ==> OwnTimer(s.cache[x]) in q.timers)
  {
    hide QueueOk, Taken, Numbered, Accounted, Settled;
    var t, q := s.queue.timers[0], Taken(s.queue);
    assert t in s.queue.timers;
    TakenOk(s.queue);
    forall x | Few(s) && x in s.cache && x != t.task ensures OwnTimer(s.cache[x]) in q.timers {
      if OwnTimer(s.cache[x]).id == t.id {
        OneTimerPerId(s.queue, OwnTimer(s.cache[x]), t);
      }
    }
  }

  lemma StillBacked(s: Calls, q: Queue<nat>)
    requires Backed(s) && QueueOk(q) && q.baseId == s.queue.baseId && forall t :: t in q.timers ==> t in s.queue.timers
    requires Few(s) ==> forall x :: x in s.cache ==> OwnTimer(s.cache[x]) in q.timers
    ensures Backed(s.(queue := q))
  {
    hide QueueOk;
  }

  lemma NumberedAlone(s: Calls, q: Queue<nat>)
    requires Numbered(s) && q.baseId == s.queue.baseId
    ensures Numbered(s.(queue := q))
  {
  }

  lemma SettledAlone(s: Calls, q: Queue<nat>)
    requires Settled(s)
    ensures Settled(s.(queue := q))
  {
    hide Ended;
    RefusedEnded(s, q);
  }

  // ------------------------------------------------------------ runs

  lemma InitialInv()
    ensures Inv(INITIAL) && Strict(INITIAL)
  {
  }

  lemma StepKeeps(s: Calls, e: Event)
    requires Inv(s) && s.queue.baseId + 1 < U64
    ensures Inv(Step(s, e)) && Step(s, e).queue.baseId <= s.queue.baseId + 1
    ensures Strict(s) && Honest(e) ==> Strict(Step(s, e))
  {
    hide Inv, Strict, Pend, Awake, FireFirst;
    match e
    case Pending(seqId, timeout, clock, generated, hasContext) =>
      PendKeeps(s, seqId, timeout, clock, generated, hasContext);
    case Answer(seqId, ret, now) =>
      AnswerKeeps(s, seqId, ret, now);
    case Firing(now) =>
      if Due(s.queue, now) {
        FiringKeeps(s, now);
      }
  }

  /** In every run, whatever codes the answers carry, each call accepted ends at most once and, as long as numbers are
      few, each call in the cache has its own timer; if then no answer carries the code reserved for time-outs, there is
      no other timer and no call is timed out early. */
  lemma {:induction false} RunKeeps(s: Calls, es: seq<Event>)
    requires Inv(s) && s.queue.baseId + |es| < U64
    ensures Inv(RunAll(s, es)) && RunAll(s, es).queue.baseId <= s.queue.baseId + |es|
    ensures Strict(s) && (forall e :: e in es ==> Honest(e)) ==> Strict(RunAll(s, es))
    decreases |es|
  {
    hide Inv, Strict, Step, Honest;
    if es != [] {
      StepKeeps(s, es[0]);
      RunKeeps(Step(s, es[0]), es[1..]);
    }
  }

  /** Every call accepted is still cached or has ended; exactly one of the two, and ended once. */
  lemma Conservation(es: seq<Event>)
    requires |es| < U64
    ensures var s := RunAll(INITIAL, es);
      && |s.issued| == |s.ended| + |s.cache|
      && (forall c :: c in s.issued ==> (c.seqId in s.cache && s.cache[c.seqId] == c) || Ended(s, c))
      && (forall i, j :: 0 <= i < j < |s.ended| ==> s.ended[i].call != s.ended[j].call)
      && (forall o, sid :: o in s.ended && sid in s.cache ==> o.call != s.cache[sid])
  {
    hide RunAll, QueueOk, Ended, Backed;
    InitialInv();
    RunKeeps(INITIAL, es);
  }

  /** With fewer than 2^32 timers every cached call has its own live timer. */
  lemma OwnLiveTimers(es: seq<Event>)
    requires |es| < U32
    ensures var s := RunAll(INITIAL, es);
      && (forall sid :: sid in s.cache ==> OwnTimer(s.cache[sid]) in s.queue.timers)
      && (forall a, b :: a in s.cache && b in s.cache && a != b ==> s.cache[a].timer != s.cache[b].timer)
  {
    hide RunAll, QueueOk, Accounted, Settled;
    InitialInv();
    RunKeeps(INITIAL, es);
    OwnIds(RunAll(INITIAL, es));
  }

  /** If no answer carries the code reserved for time-outs, no call is timed out before its expiry, and there are no
      timers but those of the cached calls. */
  lemma Punctuality(es: seq<Event>)
    requires (forall e :: e in es ==> Honest(e)) && |es| < U32
    ensures var s := RunAll(INITIAL, es);
      && (forall o :: o in s.ended && o.ret == RPC_TIME_OUT ==> o.call.expire <= o.now)
      && (forall t :: t in s.queue.timers ==> t.task in s.cache && t == OwnTimer(s.cache[t.task]))
      && |s.queue.timers| == |s.cache|
  {
    hide RunAll, QueueOk, Honest, Numbered, Accounted, Settled;
    InitialInv();
    RunKeeps(INITIAL, es);
    TimersCount(RunAll(INITIAL, es));
  }

  lemma TimersCount(s: Calls)
    requires Backed(s) && Few(s) && Exclusive(s)
    ensures |s.queue.timers| == |s.cache|
  {
    hide QueueOk;
    TasksDistinct(s);
    TaskCount(s.queue.timers, s.cache.Keys);
  }

  lemma TasksDistinct(s: Calls)
    requires Backed(s) && Exclusive(s)
    ensures forall i, j :: 0 <= i < j < |s.queue.timers| ==> s.queue.timers[i].task != s.queue.timers[j].task
  {
    var ts := s.queue.timers;
    forall i, j | 0 <= i < j < |ts| ensures ts[i].task != ts[j].task {
      InPlace(ts, i, j);
      assert ts[i] in ts && ts[j] in ts;
    }
  }

  lemma {:induction false} TaskCount(ts: seq<Timer<nat>>, keys: set<nat>)
    requires forall i, j :: 0 <= i < j < |ts| ==> ts[i].task != ts[j].task
    requires forall t :: t in ts ==> t.task in keys
    requires forall k :: k in keys ==> exists t :: t in ts && t.task == k
    ensures |ts| == |keys|
    decreases |ts|
  {
    if ts == [] {
      assert keys == {};
    } else {
      var rest := ts[1..];
      assert ts == [ts[0]] + rest && ts[0] in ts;
      forall k | k in keys - {ts[0].task} ensures exists t :: t in rest && t.task == k {
        var t :| t in ts && t.task == k;
        assert t in rest;
      }
      TaskCount(rest, keys - {ts[0].task});
    }
  }
}
