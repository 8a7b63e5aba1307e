/** The timer queue: an ordered set of timers and an index from timer number to expiry. */
module TimeoutQueues {
  import opened Timers
  import opened TimerRuns
  import opened TimerLimits

  class TimeoutQueue<T(!new)> {
    var timerQueue: seq<Timer<T>>
    var timerIdIndex: map<nat, nat>
    var baseId: nat

    ghost function Value(): Queue<T>
      reads this
    {
      Queue(timerQueue, timerIdIndex, baseId)
    }

    ghost predicate Valid()
      reads this
    {
      QueueOk(Value())
    }

    constructor ()
      ensures Valid() && Value() == Queue([], map[], 0)
    {
      timerQueue, timerIdIndex, baseId := [], map[], 0;
    }

    method GenerateID() returns (id: nat)
      requires baseId < U64
      modifies `baseId
      ensures id == baseId == NextId(old(baseId))
      ensures id == if old(baseId) == U64 - 1 then 1 else old(baseId) + 1
    {
      baseId := (baseId + 1) % U64;
      if baseId == 0 {
        baseId := baseId + 1;
      }
      return baseId;
    }

    /** Inserting into the ordered set, which refuses a timer with the same expiry and number. */
    method EmplaceTimer(t: Timer<T>) returns (ok: bool)
      modifies `timerQueue
      ensures ok <==> forall x :: x in old(timerQueue) ==> !(x.expire == t.expire && x.id == t.id)
      ensures timerQueue == if ok then Insert(old(timerQueue), t) else old(timerQueue)
    {
      ok := true;
      for i := 0 to |timerQueue|
        invariant ok <==> forall j :: 0 <= j < i ==> !(timerQueue[j].expire == t.expire && timerQueue[j].id == t.id)
      {
        ok := ok && !(timerQueue[i].expire == t.expire && timerQueue[i].id == t.id);
      }
      if ok {
        timerQueue := Insert(timerQueue, t);
      }
    }

    /** Entering the timer in both structures, or in neither. */
    method Enter(t: Timer<T>) returns (ok: bool)
      modifies `timerIdIndex, `timerQueue
      ensures ok <==> (
        t.id !in old(timerIdIndex) && forall x :: x in old(timerQueue) ==> !(x.expire == t.expire && x.id == t.id))
      ensures ok ==> timerIdIndex == old(timerIdIndex)[t.id := t.expire] && timerQueue == Insert(old(timerQueue), t)
      ensures !ok ==> timerIdIndex == old(timerIdIndex) && timerQueue == old(timerQueue)
    {
      if t.id in timerIdIndex {
        return false;
      }
      timerIdIndex := timerIdIndex[t.id := t.expire];
      ok := EmplaceTimer(t);
      if !ok {
        timerIdIndex := timerIdIndex - {t.id};
      }
    }

    method Add(task: T, expire: nat, interval: nat) returns (newId: nat)
      requires Valid()
      modifies this
      ensures Valid()
      ensures (Value(), newId) == Timers.Add(old(Value()), task, expire, interval)
      ensures newId != 0 ==> newId == baseId && Joined(timerQueue, old(timerQueue), Timer(newId, interval, expire, task))
      ensures newId == 0 ==> timerQueue == old(timerQueue) && timerIdIndex == old(timerIdIndex)
    {
      hide Insert, Sorted, Before;
      AddOk(Value(), task, expire, interval);
      newId := GenerateID();
      var ok := Enter(Timer(newId, interval, expire, task));
      if !ok {
        return 0;
      }
    }

    method Cancel(timerId: nat) returns (found: bool)
      requires Valid()
      modifies this
      ensures Valid()
      ensures (Value(), found) == Timers.Cancel(old(Value()), timerId)
    {
      CancelOk(Value(), timerId);
      if timerId !in timerIdIndex {
        return false;
      }
      timerQueue := Erase(timerQueue, timerIdIndex[timerId], timerId);
      timerIdIndex := timerIdIndex - {timerId};
      return true;
    }

    method Exist(timerId: nat) returns (found: bool)
      requires Valid()
      ensures found <==> exists t :: t in timerQueue && t.id == timerId
    {
      found := timerId in timerIdIndex;
    }

    method Clear()
      modifies this
      ensures Value() == TimerRuns.Clear(old(Value()))
      ensures timerQueue == [] && timerIdIndex == map[] && baseId == old(baseId)
    {
      timerQueue, timerIdIndex := [], map[];
    }

    /** The first half of a turn of the loop: copy the first timer, remove it, and put it back if it is periodic. */
    method TakeFirst() returns (tmp: Timer<T>)
      requires Valid() && timerQueue != []
      modifies this
      ensures Valid()
      ensures tmp == old(timerQueue)[0] && Value() == Taken(old(Value()))
    {
      hide QueueOk, Insert, Before, Sorted;
      TakenOk(Value());
      tmp := timerQueue[0];
      timerIdIndex := timerIdIndex - {tmp.id};
      timerQueue := timerQueue[1..];
      if tmp.interval > 0 {
        var again := tmp.(expire := (tmp.expire + tmp.interval) % U64);
        if again.id !in timerIdIndex {
          timerIdIndex := timerIdIndex[again.id := again.expire];
          timerQueue := Insert(timerQueue, again);
        }
      }
    }

    /** One command of a task; `fired` is the log, to which a nested firing is added. */
    method RunCommand(c: Command<T>, fired: seq<Timer<T>>) returns (log: seq<Timer<T>>)
      requires Valid()
      modifies this
      ensures Valid()
      ensures Run(Value(), log) == ExecRun(Run(old(Value()), fired), c)
    {
      hide QueueOk, Timers.Add, Timers.Cancel, Taken;
      log := fired;
      match c
      case AddTimer(task, expire, interval) =>
        var _ := Add(task, expire, interval);
      case CancelTimer(id) =>
        var _ := Cancel(id);
      case ClearTimers =>
        Clear();
        ClearOk(old(Value()));
      case FireTimer(now) =>
        if timerQueue != [] && timerQueue[0].expire <= now {
          var tmp := TakeFirst();
          log := log + [tmp];
        }
    }

    /** What the task of a fired timer does to the queue. */
    method RunTask(commands: seq<Command<T>>, fired: seq<Timer<T>>) returns (log: seq<Timer<T>>)
      requires Valid()
      modifies this
      ensures Valid()
      ensures Run(Value(), log) == ExecAll(Run(old(Value()), fired), commands)
    {
      hide QueueOk, ExecRun;
      log := fired;
      for i := 0 to |commands|
        invariant Valid()
        invariant ExecAll(Run(Value(), log), commands[i..]) == ExecAll(Run(old(Value()), fired), commands)
      {
        log := RunCommand(commands[i], log);
      }
    }

    /** One turn of the loop. */
    method FireFirst(script: Script<T>, fired: seq<Timer<T>>) returns (log: seq<Timer<T>>)
      requires Valid() && timerQueue != []
      modifies this
      ensures Valid()
      ensures Run(Value(), log) == Fire(Run(old(Value()), fired), script)
    {
      hide QueueOk, ExecAll, Taken;
      var tmp := TakeFirst();
      log := fired + [tmp];
      log := RunTask(script(log, Queue(timerQueue, timerIdIndex, baseId)), log);
    }

    /** The loop: n bounds its turns, for any callbacks with which it ends. */
    method TimeOut(now: nat, script: Script<T>, ghost n: nat) returns (count: nat, fired: seq<Timer<T>>)
      requires Valid() && EndsBy(Run(Value(), []), now, script, n)
      modifies this
      ensures Valid()
      ensures Run(Value(), fired) == Turns(Run(old(Value()), []), now, script, n)
      ensures forall t :: t in timerQueue ==> t.expire > now
      ensures count == TurnCount(Run(old(Value()), []), now, script, n) % U32
    {
      hide QueueOk, Fire;
      count, fired := 0, [];
      ghost var left, turns := n, 0;
      TurnsKeepAgreement(Run(Value(), []), now, script, n);
      while timerQueue != []
        invariant Valid() && EndsBy(Run(Value(), fired), now, script, left)
        invariant Turns(Run(Value(), fired), now, script, left) == Turns(Run(old(Value()), []), now, script, n)
        invariant turns + TurnCount(Run(Value(), fired), now, script, left)
               == TurnCount(Run(old(Value()), []), now, script, n)
        invariant count == turns % U32
        decreases left
      {
        if timerQueue[0].expire > now {
          break;
        }
        fired := FireFirst(script, fired);
        count, left, turns := (count + 1) % U32, left - 1, turns + 1;
      }
    }
  }
}
