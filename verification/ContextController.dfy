/** The controller of pending calls, in asynchronous mode. */
module ContextControllers {
  import opened Timers
  import opened TimerLimits
  import opened TimeoutQueues
  import opened ContextCalls
  import opened ContextRuns

  class ClientContext {
    var timerId: nat
    var retCode: int

    constructor ()
      ensures timerId == 0 && retCode == 0
    {
      timerId, retCode := 0, 0;
    }
  }

  class ContextController {
    const timeoutQueue: TimeoutQueue<nat>
    var contextCache: map<nat, ClientContext>
    ghost var calls: map<nat, Call>
    ghost var issued: seq<Call>
    ghost var ended: seq<Outcome>

    ghost function Value(): Calls
      reads this, timeoutQueue
    {
      Calls(timeoutQueue.Value(), calls, issued, ended)
    }

    /** Each cached context keeps the number of its call's timer, cut to 32 bits; no two calls share a context. */
    ghost predicate Valid()
      reads this, timeoutQueue, contextCache.Values
    {
      && timeoutQueue.Valid()
      && contextCache.Keys == calls.Keys
      && (forall sid :: sid in contextCache ==> contextCache[sid].timerId == StoredTimer(calls[sid]))
      && (forall a, b :: a in contextCache && b in contextCache && a != b ==> contextCache[a] != contextCache[b])
    }

    constructor ()
      ensures Valid() && Value() == INITIAL && fresh(timeoutQueue)
    {
      timeoutQueue := new TimeoutQueue<nat>();
      contextCache, calls, issued, ended := map[], map[], [], [];
    }

    method Pending(seqId: nat, timeout: nat, context: ClientContext?, clock: nat, generated: nat) returns (ret: int)
      requires Valid() && (context != null ==> context !in contextCache.Values)
      modifies this, timeoutQueue, if context == null then {} else {context}
      ensures Valid()
      ensures (Value(), ret) == Pend(old(Value()), seqId, timeout, clock, generated, context != null)
      ensures ret == RPC_SUCCESS ==>
        contextCache == old(contextCache)[if seqId == 0 then generated else seqId := context]
      ensures ret != RPC_SUCCESS ==> contextCache == old(contextCache)
    {
      hide QueueOk, Add, Cancel;
      if context == null {
        return RPC_SYS_ERR;
      }
      var sid := if seqId == 0 then generated else seqId;
      var expire := (clock + timeout) % U64;
      var timerId := timeoutQueue.Add(sid, expire, 0);
      if timerId == 0 {
        return RPC_SYS_ERR;
      }
      context.timerId := timerId % U32;
      if sid in contextCache {
        var _ := timeoutQueue.Cancel(timerId);
        return RPC_SYS_ERR;
      }
      contextCache := contextCache[sid := context];
      ghost var c := Call(sid, timerId, expire);
      calls, issued := calls[sid := c], issued + [c];
      return RPC_SUCCESS;
    }

    method Awake(seqId: nat, retCode: int, ghost now: nat) returns (context: ClientContext?)
      requires Valid()
      modifies this, timeoutQueue, if seqId in contextCache then {contextCache[seqId]} else {}
      ensures Valid()
      ensures Value() == ContextCalls.Awake(old(Value()), seqId, retCode, now)
      ensures contextCache == old(contextCache) - {seqId}
      ensures context == if seqId in old(contextCache) then old(contextCache[seqId]) else null
      ensures context != null ==> context.retCode == retCode && context.timerId == 0
    {
      hide QueueOk, Cancel;
      if seqId !in contextCache {
        assert contextCache == contextCache - {seqId};
        return null;
      }
      context := contextCache[seqId];
      contextCache := contextCache - {seqId};
      ghost var c := calls[seqId];
      calls, ended := calls - {seqId}, ended + [Outcome(c, retCode, now)];
      if retCode != RPC_TIME_OUT {
        var _ := timeoutQueue.Cancel(context.timerId);
      }
      context.retCode := retCode;
      context.timerId := 0;
    }

    /** Taking the first timer and running its task, which wakes its call. */
    method WakeFirst(ghost now: nat)
      requires Valid() && timeoutQueue.timerQueue != []
      modifies this, timeoutQueue, contextCache.Values
      ensures Valid() && contextCache.Values <= old(contextCache.Values)
      ensures Value() == FireFirst(old(Value()), now)
    {
      var tmp := timeoutQueue.TakeFirst();
      var _ := Awake(tmp.task, RPC_TIME_OUT, now);
    }

    /** What a callback does; each call it makes has a context of its own. */
    method Serve(e: Event)
      requires Valid()
      modifies this, timeoutQueue, contextCache.Values
      ensures Valid() && fresh(contextCache.Values - old(contextCache.Values))
      ensures Value() == Step(old(Value()), e)
    {
      hide QueueOk, Pend, ContextCalls.Awake, FireFirst;
      match e
      case Pending(seqId, timeout, clock, generated, hasContext) =>
        var context: ClientContext? := null;
        if hasContext {
          context := new ClientContext();
        }
        var _ := Pending(seqId, timeout, context, clock, generated);
      case Answer(seqId, ret, now) =>
        var _ := Awake(seqId, ret, now);
      case Firing(now) =>
        if timeoutQueue.timerQueue != [] && timeoutQueue.timerQueue[0].expire <= now {
          WakeFirst(now);
        }
    }

    method ServeAll(es: seq<Event>)
      requires Valid()
      modifies this, timeoutQueue, contextCache.Values
      ensures Valid() && fresh(contextCache.Values - old(contextCache.Values))
      ensures Value() == RunAll(old(Value()), es)
    {
      hide Step, Valid;
      for i := 0 to |es|
        invariant Valid() && fresh(contextCache.Values - old(contextCache.Values))
        invariant RunAll(Value(), es[i..]) == RunAll(old(Value()), es)
      {
        Serve(es[i]);
      }
    }

    method TurnOnce(now: nat, es: seq<Event>)
      requires Valid() && timeoutQueue.timerQueue != []
      modifies this, timeoutQueue, contextCache.Values
      ensures Valid() && fresh(contextCache.Values - old(contextCache.Values))
      ensures Value() == Turn(old(Value()), now, es)
    {
      hide Valid, FireFirst, RunAll;
      WakeFirst(now);
      ServeAll(es);
    }

    /** The loop: n bounds its turns, for any callbacks with which it ends. */
    method ProcTimeOut(now: nat, script: Callbacks, ghost n: nat) returns (count: nat)
      requires Valid() && EndsBy(Value(), 0, now, script, n)
      modifies this, timeoutQueue, contextCache.Values
      ensures Valid() && !Due(timeoutQueue.Value(), now)
      ensures var all := Turns(old(Value()), 0, now, script, n);
        Value() == all.0 && count == all.1 % U32
      ensures old(Inv(Value()) && timeoutQueue.baseId + |Unrolled(Value(), 0, now, script, n)| < U32) ==>
        Inv(Value()) && forall sid :: sid in calls ==> calls[sid].expire > now
    {
      hide Valid, Turn, Inv, Unrolled;
      if Inv(Value()) && timeoutQueue.baseId + |Unrolled(Value(), 0, now, script, n)| < U32 {
        NoneLateAfter(Value(), 0, now, script, n);
      }
      count := 0;
      var turn := 0;
      ghost var left, all := n, Turns(Value(), 0, now, script, n);
      while timeoutQueue.timerQueue != []
        invariant Valid() && fresh(contextCache.Values - old(contextCache.Values))
        invariant EndsBy(Value(), turn, now, script, left)
        invariant Turns(Value(), turn, now, script, left) == all
        invariant count == turn % U32
        decreases left
      {
        if timeoutQueue.timerQueue[0].expire > now {
          break;
        }
        TurnOnce(now, script(turn));
        count, turn, left := (count + 1) % U32, turn + 1, left - 1;
      }
    }
  }
}
