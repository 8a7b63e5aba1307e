/** Timed events handed to a scheduler, in asynchronous mode. */
module TimeoutDecorators {
  import opened Timers
  import opened TimerLimits
  import opened TimeoutQueues
  import opened TimeoutEvents

  /** The generator of sequence numbers, shared with the rest of the process. */
  class IDGenerator {
    var baseSeqId: nat

    constructor ()
      ensures baseSeqId == 0
    {
      baseSeqId := 0;
    }

    method GenerateSeqID() returns (id: nat)
      modifies this
      ensures id == baseSeqId == (old(baseSeqId) + 1) % U64
    {
      baseSeqId := (baseSeqId + 1) % U64;
      return baseSeqId;
    }
  }

  class TimeoutDecorator {
    const hasScheduler: bool
    const ids: IDGenerator
    const timeoutMgr: TimeoutQueue<EventTask>
    var timeoutEvent: map<nat, nat>
    ghost var made: seq<Entry>
    ghost var ran: seq<Entry>

    ghost function Value(): Events
      reads this, ids, timeoutMgr
    {
      Events(timeoutMgr.Value(), timeoutEvent, ids.baseSeqId, made, ran)
    }

    ghost predicate Valid()
      reads this, ids, timeoutMgr
    {
      timeoutMgr.Valid()
    }

    constructor (hasScheduler: bool, ids: IDGenerator)
      ensures Valid() && this.hasScheduler == hasScheduler && this.ids == ids && fresh(timeoutMgr)
      ensures Value() == INITIAL.(lastSeq := ids.baseSeqId)
      ensures ids.baseSeqId < U64 ==> Inv(Value())
    {
      this.hasScheduler, this.ids := hasScheduler, ids;
      timeoutMgr := new TimeoutQueue<EventTask>();
      timeoutEvent, made, ran := map[], [], [];
      new;
      if ids.baseSeqId < U64 {
        InitialInv(ids.baseSeqId);
      }
    }

    method AddEvent(gid: nat, task: nat, expire: nat, interval: nat) returns (timerId: nat)
      requires Valid()
      modifies timeoutMgr
      ensures Valid()
      ensures timerId == Add(old(timeoutMgr.Value()), EventTask(gid, task), expire, interval).1
      ensures timerId != 0 ==>
        Joined(timeoutMgr.timerQueue, old(timeoutMgr.timerQueue), Timer(timerId, interval, expire, EventTask(gid, task)))
      ensures timerId == 0 ==> timeoutMgr.timerQueue == old(timeoutMgr.timerQueue)
      ensures Value() == Step(old(Value()), TimeoutEvents.AddEvent(gid, task, expire, interval))
    {
      hide QueueOk, Add;
      timerId := timeoutMgr.Add(EventTask(gid, task), expire, interval);
    }

    method DelEvent(timerId: nat) returns (found: bool)
      requires Valid()
      modifies timeoutMgr
      ensures Valid()
      ensures found == Cancel(old(timeoutMgr.Value()), timerId).1
      ensures Value() == Step(old(Value()), TimeoutEvents.DelEvent(timerId))
    {
      hide QueueOk, Cancel;
      found := timeoutMgr.Cancel(timerId);
    }

    /** What a timer does when it fires: makes an event, and hands it over or deals with it. */
    method Fired(t: Timer<EventTask>)
      requires Valid()
      modifies this, ids
      ensures Valid()
      ensures var (r, info) := Make(old(Value()), t);
        Value() == if hasScheduler then r else Deal(r, Message(info)).0
    {
      var seqId := ids.GenerateSeqID();
      if seqId !in timeoutEvent {
        timeoutEvent := timeoutEvent[seqId := t.task.task];
      }
      var info := EventInfo(seqId, t.task.gid, t.id, t.interval);
      made := made + [Entry(info, t.task.task)];
      if !hasScheduler {
        var _ := DealEvent(Message(info));
      }
    }

    method DealEvent(m: Message) returns (done: bool)
      requires Valid()
      modifies this
      ensures Valid()
      ensures (Value(), done) == Deal(old(Value()), m)
      ensures done <==> (
        && m.Message? && m.info.eventId in old(timeoutEvent)
        && (m.info.interval == 0 || exists t :: t in timeoutMgr.timerQueue && t.id == m.info.timerId))
      ensures done ==> ran == old(ran) + [Entry(m.info, old(timeoutEvent)[m.info.eventId])]
      ensures !done ==> ran == old(ran)
      ensures timeoutEvent == if m.Message? then old(timeoutEvent) - {m.info.eventId} else old(timeoutEvent)
    {
      hide QueueOk;
      if m.Malformed? {
        return false;
      }
      var info := m.info;
      if info.eventId !in timeoutEvent {
        return false;
      }
      if info.interval > 0 {
        var alive := timeoutMgr.Exist(info.timerId);
        ExistIff(timeoutMgr.Value(), info.timerId);
        if !alive {
          timeoutEvent := timeoutEvent - {info.eventId};
          return false;
        }
      }
      var task := timeoutEvent[info.eventId];
      timeoutEvent := timeoutEvent - {info.eventId};
      ran := ran + [Entry(info, task)];
      return true;
    }

    /** Taking the first timer and running its task. */
    method FireNext()
      requires Valid() && timeoutMgr.timerQueue != []
      modifies this, ids, timeoutMgr
      ensures Valid()
      ensures Value() == FireFirst(old(Value()), !hasScheduler)
    {
      hide QueueOk, Taken, Make, Deal;
      var tmp := timeoutMgr.TakeFirst();
      Fired(tmp);
    }

    /** What the scheduler or a task does; a nested firing is one of this decorator. */
    method React(a: Action)
      requires Valid() && (a.Firing? ==> a.direct == !hasScheduler)
      modifies this, ids, timeoutMgr
      ensures Valid()
      ensures Value() == Step(old(Value()), a)
    {
      hide QueueOk, Add, Cancel, Deal, FireFirst;
      match a
      case AddEvent(gid, task, expire, interval) =>
        var _ := AddEvent(gid, task, expire, interval);
      case DelEvent(timerId) =>
        var _ := DelEvent(timerId);
      case Deliver(m) =>
        var _ := DealEvent(m);
      case OtherId =>
        var _ := ids.GenerateSeqID();
      case Firing(now, _) =>
        if timeoutMgr.timerQueue != [] && timeoutMgr.timerQueue[0].expire <= now {
          FireNext();
        }
    }

    method ReactAll(actions: seq<Action>)
      requires Valid() && forall a :: a in actions && a.Firing? ==> a.direct == !hasScheduler
      modifies this, ids, timeoutMgr
      ensures Valid()
      ensures Value() == RunAll(old(Value()), actions)
    {
      hide Step, Valid;
      for i := 0 to |actions|
        invariant Valid()
        invariant RunAll(Value(), actions[i..]) == RunAll(old(Value()), actions)
      {
        React(actions[i]);
      }
    }

    method TurnOnce(actions: seq<Action>)
      requires Valid() && timeoutMgr.timerQueue != []
      requires forall a :: a in actions && a.Firing? ==> a.direct == !hasScheduler
      modifies this, ids, timeoutMgr
      ensures Valid()
      ensures Value() == Turn(old(Value()), !hasScheduler, actions)
    {
      hide Valid, RunAll, FireFirst;
      FireNext();
      ReactAll(actions);
    }

    /** The loop: n bounds its turns, for any scheduler and tasks with which it ends. */
    method ProcTimeOut(now: nat, script: Reactions, ghost n: nat) returns (count: nat)
      requires Valid() && EndsBy(Value(), 0, now, !hasScheduler, script, n)
      requires forall turn, a :: a in script(turn) && a.Firing? ==> a.direct == !hasScheduler
      modifies this, ids, timeoutMgr
      ensures Valid() && !Due(timeoutMgr.Value(), now)
      ensures var all := Turns(old(Value()), 0, now, !hasScheduler, script, n);
        Value() == all.0 && count == all.1 % U32
    {
      hide Valid, Turn;
      count := 0;
      var turn := 0;
      ghost var left, all := n, Turns(Value(), 0, now, !hasScheduler, script, n);
      while timeoutMgr.timerQueue != []
        invariant Valid() && EndsBy(Value(), turn, now, !hasScheduler, script, left)
        invariant Turns(Value(), turn, now, !hasScheduler, script, left) == all
        invariant count == turn % U32
        decreases left
      {
        if timeoutMgr.timerQueue[0].expire > now {
          break;
        }
        TurnOnce(script(turn));
        count, turn, left := (count + 1) % U32, turn + 1, left - 1;
      }
    }
  }

  lemma ExistIff<T>(q: Queue<T>, timerId: nat)
    requires QueueOk(q)
    ensures timerId in q.index <==> exists t :: t in q.timers && t.id == timerId
  {
  }
}
