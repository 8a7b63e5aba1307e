/** Timed events as values: timers whose firing makes an event, the events waiting to be dealt with, and the history
    of events made and run. */
module TimeoutEvents {
  import opened Timers
  import opened TimerRuns
  import opened TimerLimits
  import TimerEffects

  /** What the scheduler carries: the event and the timer it came from. */
  datatype EventInfo = EventInfo(eventId: nat, gid: nat, timerId: nat, interval: nat)

  /** The group and the task given to AddEvent; tasks are named by numbers. */
  datatype EventTask = EventTask(gid: nat, task: nat)

  /** A message handed to DealEvent: null or of the wrong length, or the bytes of an EventInfo. */
  datatype Message = Malformed | Message(info: EventInfo)

  datatype Entry = Entry(info: EventInfo, task: nat)

  datatype Events = Events(queue: Queue<EventTask>, waiting: map<nat, nat>, lastSeq: nat, made: seq<Entry>, ran: seq<Entry>)

  const INITIAL: Events := Events(Queue([], map[], 0), map[], 0, [], [])

  /** Dealing with a message: the answer is whether a task ran. */
  function Deal(s: Events, m: Message): (Events, bool) {
    if m.Malformed? || m.info.eventId !in s.waiting then (s, false)
    else
      var rest := s.(waiting := s.waiting - {m.info.eventId});
      if m.info.interval > 0 && m.info.timerId !in s.queue.index then (rest, false)
      else (rest.(ran := s.ran + [Entry(m.info, s.waiting[m.info.eventId])]), true)
  }

  /** The task of a timer that fires: an event with a new number starts to wait. */
  function Make(s: Events, t: Timer<EventTask>): (Events, EventInfo) {
    var id := (s.lastSeq + 1) % U64;
    var info := EventInfo(id, t.task.gid, t.id, t.interval);
    var waiting := if id in s.waiting then s.waiting else s.waiting[id := t.task.task];
    (s.(waiting := waiting, lastSeq := id, made := s.made + [Entry(info, t.task.task)]), info)
  }

  /** With a scheduler the event is handed over; without one it is dealt with at once. */
  function FireFirst(s: Events, direct: bool): Events
    requires s.queue.timers != []
  {
    var (r, info) := Make(s.(queue := Taken(s.queue)), s.queue.timers[0]);
    if direct then Deal(r, Message(info)).0 else r
  }

  datatype Action =
    | AddEvent(gid: nat, task: nat, expire: nat, interval: nat)
    | DelEvent(timerId: nat)
    | Deliver(m: Message)
    | OtherId
    | Firing(now: nat, direct: bool)

  function Step(s: Events, a: Action): Events {
    match a
    case AddEvent(gid, task, expire, interval) => s.(queue := Add(s.queue, EventTask(gid, task), expire, interval).0)
    case DelEvent(timerId) => s.(queue := Cancel(s.queue, timerId).0)
    case Deliver(m) => Deal(s, m).0
    case OtherId => s.(lastSeq := (s.lastSeq + 1) % U64)
    case Firing(now, direct) => if Due(s.queue, now) then FireFirst(s, direct) else s
  }

  function RunAll(s: Events, actions: seq<Action>): Events
    decreases |actions|
  {
    if actions == [] then s else RunAll(Step(s, actions[0]), actions[1..])
  }

  // ------------------------------------------------------------ each event runs at most once

  /** Waiting events have numbers already given out, and none of them has run. */
  ghost predicate Once(s: Events) {
    && s.lastSeq < U64
    && (forall id :: id in s.waiting ==> id <= s.lastSeq)
    && (forall e :: e in s.ran ==> e.info.eventId <= s.lastSeq && e.info.eventId !in s.waiting)
    && (forall i, j :: 0 <= i < j < |s.ran| ==> s.ran[i].info.eventId != s.ran[j].info.eventId)
  }

  lemma DealOnce(s: Events, m: Message)
    requires Once(s)
    ensures Once(Deal(s, m).0)
  {
    var r := Deal(s, m).0;
    if r.ran != s.ran {
      forall i, j | 0 <= i < j < |r.ran| ensures r.ran[i].info.eventId != r.ran[j].info.eventId {
        assert s.ran[i] in s.ran;
      }
    }
  }

  lemma MakeOnce(s: Events, t: Timer<EventTask>)
    requires Once(s) && s.lastSeq + 1 < U64
    ensures Once(Make(s, t).0)
  {
  }

  /** In every run, whatever messages are delivered, in whatever order and however often, each event runs its task at
      most once. */
  lemma {:induction false} RunsAtMostOnce(s: Events, actions: seq<Action>)
    requires Once(s) && s.lastSeq + |actions| < U64
    ensures Once(RunAll(s, actions))
    decreases |actions|
  {
    hide Once, Make, Deal, Taken;
    if actions != [] {
      StepOnce(s, actions[0]);
      RunsAtMostOnce(Step(s, actions[0]), actions[1..]);
    }
  }

  lemma StepOnce(s: Events, a: Action)
    requires Once(s) && s.lastSeq + 1 < U64
    ensures Once(Step(s, a)) && Step(s, a).lastSeq <= s.lastSeq + 1
  {
    hide Taken, Add, Cancel;
    if a.Deliver? {
      DealOnce(s, a.m);
    } else if a.Firing? && Due(s.queue, a.now) {
      var taken := s.(queue := Taken(s.queue));
      MakeOnce(taken, s.queue.timers[0]);
      DealOnce(Make(taken, s.queue.timers[0]).0, Message(Make(taken, s.queue.timers[0]).1));
    }
  }

  // ------------------------------------------------------------ the invariant with an honest scheduler

  /** The scheduler delivers only what it was given, in any order and any number of times. */
  predicate Honest(s: Events, a: Action) {
    a.Deliver? && a.m.Message? ==> exists e :: e in s.made && e.info == a.m.info
  }

  ghost predicate HonestRun(s: Events, actions: seq<Action>)
    decreases |actions|
  {
    actions == [] || (Honest(s, actions[0]) && HonestRun(Step(s, actions[0]), actions[1..]))
  }

  /** Timers are numbered in order; a one-shot timer that made an event is gone. */
  ghost predicate Timely(s: Events) {
    && QueueOk(s.queue)
    && (forall t :: t in s.queue.timers ==> t.id <= s.queue.baseId)
    && (forall e :: e in s.made ==> e.info.timerId <= s.queue.baseId)
    && (forall e :: e in s.made && e.info.interval == 0 ==> e.info.timerId !in s.queue.index)
  }

  /** Events are numbered in order and wait with the task they were made with; what ran was made. */
  ghost predicate Recorded(s: Events) {
    && (forall e :: e in s.made ==> e.info.eventId <= s.lastSeq)
    && (forall i, j :: 0 <= i < j < |s.made| ==> s.made[i].info.eventId < s.made[j].info.eventId)
    && (forall e :: e in s.made && e.info.eventId in s.waiting ==> s.waiting[e.info.eventId] == e.task)
    && (forall e :: e in s.ran ==> e in s.made)
  }

  ghost predicate Inv(s: Events) {
    Once(s) && Timely(s) && Recorded(s)
  }

  lemma DealRecorded(s: Events, m: Message)
    requires Recorded(s) && Honest(s, Deliver(m))
    ensures Recorded(Deal(s, m).0)
  {
    if Deal(s, m).1 {
      var e :| e in s.made && e.info == m.info;
      assert Entry(m.info, s.waiting[m.info.eventId]) == e;
    }
  }

  lemma MakeRecorded(s: Events, t: Timer<EventTask>)
    requires Recorded(s) && Once(s) && s.lastSeq + 1 < U64
    ensures Recorded(Make(s, t).0)
  {
    var r := Make(s, t).0;
    assert r.lastSeq == s.lastSeq + 1 && r.lastSeq !in s.waiting;
    forall i, j | 0 <= i < j < |r.made| ensures r.made[i].info.eventId < r.made[j].info.eventId {
      assert s.made[i] in s.made;
    }
  }

  lemma MakeTimely(s: Events)
    requires Timely(s) && s.queue.timers != []
    ensures Timely(Make(s.(queue := Taken(s.queue)), s.queue.timers[0]).0)
  {
    hide QueueOk, Taken;
    var t := s.queue.timers[0];
    assert t in s.queue.timers;
    TakenOk(s.queue);
  }

  lemma StepTimely(s: Events, a: Action)
    requires Timely(s) && !a.Firing? && s.queue.baseId + 1 < U64
    ensures Timely(Step(s, a)) && s.queue.baseId <= Step(s, a).queue.baseId <= s.queue.baseId + 1
  {
    hide QueueOk, Insert, Erase;
    if a.AddEvent? {
      AddOk(s.queue, EventTask(a.gid, a.task), a.expire, a.interval);
      assert NextId(s.queue.baseId) == s.queue.baseId + 1;
    } else if a.DelEvent? {
      CancelOk(s.queue, a.timerId);
    }
  }

  lemma StepKeeps(s: Events, a: Action)
    requires Inv(s) && Honest(s, a) && s.queue.baseId + 1 < U64 && s.lastSeq + 1 < U64
    ensures Inv(Step(s, a))
    ensures s.queue.baseId <= Step(s, a).queue.baseId <= s.queue.baseId + 1
  {
    hide Once, Timely, QueueOk, Taken;
    StepOnce(s, a);
    if a.Firing? {
      if Due(s.queue, a.now) {
        var taken := s.(queue := Taken(s.queue));
        InvQueue(s);
        TakenOk(s.queue);
        MakeTimely(s);
        TakenSame(s, taken);
        MakeRecorded(taken, s.queue.timers[0]);
        var (r, info) := Make(taken, s.queue.timers[0]);
        if a.direct {
          assert r.made[|s.made|].info == info;
          DealRecorded(r, Message(info));
          DealTimely(r, Message(info));
        }
      }
    } else {
      StepTimely(s, a);
      if a.Deliver? {
        DealRecorded(s, a.m);
      }
    }
  }

  lemma InvQueue(s: Events)
    requires Inv(s)
    ensures QueueOk(s.queue)
  {
  }

  lemma TakenSame(s: Events, r: Events)
    requires Once(s) && Recorded(s) && r == s.(queue := r.queue)
    ensures Once(r) && Recorded(r)
  {
  }

  lemma DealTimely(s: Events, m: Message)
    requires Timely(s)
    ensures Timely(Deal(s, m).0)
  {
    hide QueueOk;
  }

  lemma InitialInv(lastSeq: nat)
    requires lastSeq < U64
    ensures Inv(INITIAL.(lastSeq := lastSeq))
  {
  }

  /** In every run with an honest scheduler, whatever runs was made by a timer, with that timer's task. */
  lemma {:induction false} RunKeeps(s: Events, actions: seq<Action>)
    requires Inv(s) && HonestRun(s, actions)
    requires s.queue.baseId + |actions| < U64 && s.lastSeq + |actions| < U64
    ensures Inv(RunAll(s, actions))
    decreases |actions|
  {
    hide Inv, Step, Honest;
    if actions != [] {
      StepKeeps(s, actions[0]);
      InvOnce(s);
      StepOnce(s, actions[0]);
      RunKeeps(Step(s, actions[0]), actions[1..]);
    }
  }

  // ------------------------------------------------------------ cancelling

  /** The timer is gone for good, and any event it made is one that cancelling stops. */
  ghost predicate Dead(s: Events, timerId: nat) {
    && timerId <= s.queue.baseId
    && timerId !in s.queue.index
    && (forall e :: e in s.made && e.info.timerId == timerId ==> e.info.interval > 0)
  }

  lemma DelMakesDead(s: Events, timerId: nat)
    requires Inv(s) && Cancel(s.queue, timerId).1
    ensures Dead(Step(s, DelEvent(timerId)), timerId)
  {
    hide QueueOk, Once, Recorded;
    InvQueue(s);
    CancelOk(s.queue, timerId);
    var t :| t in s.queue.timers && t.id == timerId;
    IndexOf(s.queue, t);
  }

  lemma IndexOf<T>(q: Queue<T>, t: Timer<T>)
    requires QueueOk(q) && t in q.timers
    ensures t.id in q.index
  {
  }

  lemma FireDead(s: Events, direct: bool, timerId: nat)
    requires Inv(s) && Dead(s, timerId) && s.queue.timers != []
    ensures Dead(FireFirst(s, direct), timerId)
    ensures s.ran <= FireFirst(s, direct).ran
    ensures forall i :: |s.ran| <= i < |FireFirst(s, direct).ran| ==> FireFirst(s, direct).ran[i].info.timerId != timerId
  {
    hide QueueOk, Once, Recorded, Taken;
    InvQueue(s);
    TakenOk(s.queue);
    IndexOf(s.queue, s.queue.timers[0]);
  }

  /** Once dead, a timer stays dead and none of its events runs. */
  lemma StepDead(s: Events, a: Action, timerId: nat)
    requires Inv(s) && Dead(s, timerId) && Honest(s, a) && s.queue.baseId + 1 < U64
    ensures Dead(Step(s, a), timerId)
    ensures s.ran <= Step(s, a).ran
    ensures forall i :: |s.ran| <= i < |Step(s, a).ran| ==> Step(s, a).ran[i].info.timerId != timerId
  {
    hide QueueOk, Once, Recorded, Insert, Erase;
    InvQueue(s);
    match a
    case Firing(now, direct) =>
      if Due(s.queue, now) {
        FireDead(s, direct, timerId);
      }
    case AddEvent(gid, task, expire, interval) =>
      AddOk(s.queue, EventTask(gid, task), expire, interval);
      assert NextId(s.queue.baseId) == s.queue.baseId + 1;
    case DelEvent(id) =>
      CancelOk(s.queue, id);
    case Deliver(m) =>
      if Deal(s, m).1 {
        var e :| e in s.made && e.info == m.info;
      }
    case OtherId =>
  }

  lemma {:induction false} DeadStays(s: Events, actions: seq<Action>, timerId: nat)
    requires Inv(s) && Dead(s, timerId) && HonestRun(s, actions)
    requires s.queue.baseId + |actions| < U64 && s.lastSeq + |actions| < U64
    ensures s.ran <= RunAll(s, actions).ran
    ensures forall i :: |s.ran| <= i < |RunAll(s, actions).ran| ==> RunAll(s, actions).ran[i].info.timerId != timerId
    decreases |actions|
  {
    hide Inv, Dead, Step, Honest;
    if actions != [] {
      var a := actions[0];
      StepKeeps(s, a);
      InvOnce(s);
      StepOnce(s, a);
      StepDead(s, a, timerId);
      var r := Step(s, a);
      DeadStays(r, actions[1..], timerId);
      forall i | |s.ran| <= i < |RunAll(s, actions).ran| ensures RunAll(s, actions).ran[i].info.timerId != timerId {
        if i < |r.ran| {
          assert RunAll(s, actions).ran[i] == r.ran[i];
        }
      }
    }
  }

  lemma InvOnce(s: Events)
    requires Inv(s)
    ensures Once(s)
  {
  }

  /** After DelEvent succeeds no event of that timer runs any more, not even one the scheduler already holds, however
      the scheduler delivers what it was given. */
  lemma CancelledNeverRuns(s: Events, timerId: nat, actions: seq<Action>)
    requires Inv(s) && Cancel(s.queue, timerId).1
    requires HonestRun(Step(s, DelEvent(timerId)), actions)
    requires s.queue.baseId + 1 + |actions| < U64 && s.lastSeq + 1 + |actions| < U64
    ensures var after := RunAll(Step(s, DelEvent(timerId)), actions);
      s.ran <= after.ran && forall i :: |s.ran| <= i < |after.ran| ==> after.ran[i].info.timerId != timerId
  {
    hide Inv, Dead, HonestRun, RunAll, Cancel;
    StepKeeps(s, DelEvent(timerId));
    DelMakesDead(s, timerId);
    DeadStays(Step(s, DelEvent(timerId)), actions, timerId);
  }

  // ------------------------------------------------------------ the event of a fired timer

  /** The event waits, with its own task. */
  ghost predicate Waits(s: Events, e: Entry) {
    e.info.eventId in s.waiting && s.waiting[e.info.eventId] == e.task
  }

  predicate Delivers(a: Action, eventId: nat) {
    a.Deliver? && a.m.Message? && a.m.info.eventId == eventId
  }

  /** The event of a timer: a new number, the timer's group, number and interval, and its task. */
  function EventOf(t: Timer<EventTask>, eventId: nat): Entry {
    Entry(EventInfo(eventId, t.task.gid, t.id, t.interval), t.task.task)
  }

  /** With a scheduler, what a timer hands over when it fires waits with the task of the timer, and nothing runs. */
  lemma FiredWaits(s: Events)
    requires Once(s) && s.lastSeq + 1 < U64 && s.queue.timers != []
    ensures var e, r := EventOf(s.queue.timers[0], s.lastSeq + 1), FireFirst(s, false);
      && Waits(r, e) && r.made == s.made + [e] && r.ran == s.ran && r.queue == Taken(s.queue)
      && (forall id :: id in s.waiting ==> id in r.waiting && r.waiting[id] == s.waiting[id])
      && (forall id :: id in r.waiting ==> id in s.waiting || id == e.info.eventId)
  {
    hide Taken;
  }

  /** Without one, the task of the timer runs at once, periodic or not, and nothing is left waiting. */
  lemma FiredRunsAtOnce(s: Events)
    requires Once(s) && s.lastSeq + 1 < U64 && QueueOk(s.queue) && s.queue.timers != []
    ensures var e, r := EventOf(s.queue.timers[0], s.lastSeq + 1), FireFirst(s, true);
      r.ran == s.ran + [e] && r.made == s.made + [e] && r.waiting == s.waiting && r.queue == Taken(s.queue)
  {
    hide Taken, QueueOk;
    TakenOk(s.queue);
  }

  lemma StepWaits(s: Events, a: Action, e: Entry)
    requires Once(s) && Waits(s, e) && !Delivers(a, e.info.eventId) && s.lastSeq + 1 < U64
    ensures Waits(Step(s, a), e)
  {
    hide Taken, Add, Cancel;
  }

  lemma {:induction false} StaysWaiting(s: Events, actions: seq<Action>, e: Entry)
    requires Once(s) && Waits(s, e) && forall a :: a in actions ==> !Delivers(a, e.info.eventId)
    requires s.lastSeq + |actions| < U64
    ensures Waits(RunAll(s, actions), e)
    decreases |actions|
  {
    hide Once, Waits, Step, Delivers;
    if actions != [] {
      StepOnce(s, actions[0]);
      StepWaits(s, actions[0], e);
      StaysWaiting(Step(s, actions[0]), actions[1..], e);
    }
  }

  lemma StepQueue(s: Events, a: Action)
    requires QueueOk(s.queue)
    ensures QueueOk(Step(s, a).queue)
  {
    hide QueueOk, Add, Cancel, Taken;
    match a
    case AddEvent(gid, task, expire, interval) =>
      AddOk(s.queue, EventTask(gid, task), expire, interval);
    case DelEvent(timerId) =>
      CancelOk(s.queue, timerId);
    case Deliver(m) =>
    case OtherId =>
    case Firing(now, direct) =>
      if Due(s.queue, now) {
        TakenOk(s.queue);
      }
  }

  lemma {:induction false} RunQueue(s: Events, actions: seq<Action>)
    requires QueueOk(s.queue)
    ensures QueueOk(RunAll(s, actions).queue)
    decreases |actions|
  {
    hide QueueOk, Step;
    if actions != [] {
      StepQueue(s, actions[0]);
      RunQueue(Step(s, actions[0]), actions[1..]);
    }
  }

  /** Some timer of this number is queued. */
  ghost predicate Queued(s: Events, timerId: nat) {
    exists t :: t in s.queue.timers && t.id == timerId
  }

  /** Dealing with a waiting event, before which anything has happened that delivers nothing to it: it runs the task it
      was made with exactly when it came from a one-shot timer or its timer is queued at that moment. Whether it runs or
      not, it waits no longer, and the other events and the timers are left as they are. */
  lemma DeliveredRunsIff(s: Events, actions: seq<Action>, e: Entry)
    requires Once(s) && QueueOk(s.queue) && Waits(s, e) && forall a :: a in actions ==> !Delivers(a, e.info.eventId)
    requires s.lastSeq + |actions| < U64
    ensures var after := RunAll(s, actions);
      var (r, done) := Deal(after, Message(e.info));
      && (done <==> e.info.interval == 0 || Queued(after, e.info.timerId))
      && r.ran == (if done then after.ran + [e] else after.ran)
      && r.waiting == after.waiting - {e.info.eventId}
      && r.queue == after.queue && r.lastSeq == after.lastSeq && r.made == after.made
  {
    hide Once, RunAll, Delivers, QueueOk;
    StaysWaiting(s, actions, e);
    RunQueue(s, actions);
    QueuedIff(RunAll(s, actions), e.info.timerId);
  }

  lemma QueuedIff(s: Events, timerId: nat)
    requires QueueOk(s.queue)
    ensures timerId in s.queue.index <==> Queued(s, timerId)
  {
  }

  /** A one-shot event the scheduler holds cannot be cancelled: whatever is added or deleted meanwhile, and whatever
      messages about other events are delivered, made up ones too, delivering it runs the task it was made with. */
  lemma QueuedOneShotStillRuns(s: Events, actions: seq<Action>, e: Entry)
    requires Once(s) && Waits(s, e) && forall a :: a in actions ==> !Delivers(a, e.info.eventId)
    requires s.lastSeq + |actions| < U64 && e.info.interval == 0
    ensures var after := RunAll(s, actions);
      Deal(after, Message(e.info)).1 && Deal(after, Message(e.info)).0.ran == after.ran + [e]
  {
    hide Once, RunAll, Delivers;
    StaysWaiting(s, actions, e);
  }

  /** A malformed message, and one about no waiting event, change nothing. */
  lemma StrayMessage(s: Events, m: Message)
    requires m.Message? ==> m.info.eventId !in s.waiting
    ensures Deal(s, m) == (s, false)
  {
  }

  // ------------------------------------------------------------ processing the due timers

  /** What happens after each firing in turn: deliveries by the scheduler and what the tasks that run do. */
  type Reactions = nat -> seq<Action>

  /** An action that adds no timer already due, and processes none that is not. */
  predicate Forward(a: Action, now: nat) {
    (a.AddEvent? ==> a.expire > now) && (a.Firing? ==> a.now <= now)
  }

  ghost predicate ForwardOnly(script: Reactions, now: nat) {
    forall turn, a :: a in script(turn) ==> Forward(a, now)
  }

  function Turn(s: Events, direct: bool, actions: seq<Action>): Events
    requires s.queue.timers != []
  {
    RunAll(FireFirst(s, direct), actions)
  }

  /** The loop, for at most n turns, with the turn reached. */
  function Turns(s: Events, turn: nat, now: nat, direct: bool, script: Reactions, n: nat): (Events, nat)
    decreases n
  {
    if n == 0 || !Due(s.queue, now) then (s, turn)
    else Turns(Turn(s, direct, script(turn)), turn + 1, now, direct, script, n - 1)
  }

  /** The loop ends within n turns. */
  predicate EndsBy(s: Events, turn: nat, now: nat, direct: bool, script: Reactions, n: nat) {
    !Due(Turns(s, turn, now, direct, script, n).0.queue, now)
  }

  /** The loop written out as a run: each firing, followed by what happens after it. */
  function Unrolled(s: Events, turn: nat, now: nat, direct: bool, script: Reactions, n: nat): seq<Action>
    decreases n
  {
    if n == 0 || !Due(s.queue, now) then []
    else
      [Firing(now, direct)] + script(turn)
      + Unrolled(Turn(s, direct, script(turn)), turn + 1, now, direct, script, n - 1)
  }

  lemma {:induction false} RunAllAppend(s: Events, a: seq<Action>, b: seq<Action>)
    ensures RunAll(s, a + b) == RunAll(RunAll(s, a), b)
    decreases |a|
  {
    if a == [] {
      assert a + b == b;
    } else {
      assert (a + b)[1..] == a[1..] + b;
      RunAllAppend(Step(s, a[0]), a[1..], b);
    }
  }

  /** So what holds over every run holds across ProcTimeOut, whatever happens in between. */
  lemma {:induction false} LoopIsRun(s: Events, turn: nat, now: nat, direct: bool, script: Reactions, n: nat)
    ensures Turns(s, turn, now, direct, script, n).0 == RunAll(s, Unrolled(s, turn, now, direct, script, n))
    decreases n
  {
    hide Step, FireFirst;
    if n > 0 && Due(s.queue, now) {
      var actions := script(turn);
      var r := Turn(s, direct, actions);
      var rest := Unrolled(r, turn + 1, now, direct, script, n - 1);
      LoopIsRun(r, turn + 1, now, direct, script, n - 1);
      FiringStep(s, now, direct);
      assert ([Firing(now, direct)] + actions)[1..] == actions;
      assert RunAll(s, [Firing(now, direct)] + actions) == r;
      RunAllAppend(s, [Firing(now, direct)] + actions, rest);
    }
  }

  lemma FiringStep(s: Events, now: nat, direct: bool)
    requires Due(s.queue, now)
    ensures Step(s, Firing(now, direct)) == FireFirst(s, direct)
  {
  }

  lemma StepNeeds(s: Events, a: Action, now: nat)
    requires QueueOk(s.queue) && Fits(s.queue, now) && Forward(a, now) && now < U64
    ensures QueueOk(Step(s, a).queue) && Fits(Step(s, a).queue, now)
    ensures Need(Step(s, a).queue.timers, now) <= Need(s.queue.timers, now)
  {
    hide QueueOk, Insert, Erase, Need, FitsTimer, Taken;
    if a.Firing? {
      if Due(s.queue, a.now) {
        TakenOk(s.queue);
        TakenNeeds(s.queue, now);
      }
    } else if a.AddEvent? || a.DelEvent? {
      var c := if a.AddEvent? then AddTimer(EventTask(a.gid, a.task), a.expire, a.interval) else CancelTimer(a.timerId);
      ExecOk(s.queue, c);
      ExecNeedsOne(s.queue, c, now);
      forall x | x in Step(s, a).queue.timers ensures FitsTimer(x, now) {
        LateFits(x, now);
      }
    }
  }

  lemma {:induction false} RunNeeds(s: Events, actions: seq<Action>, now: nat)
    requires QueueOk(s.queue) && Fits(s.queue, now) && now < U64 && forall a :: a in actions ==> Forward(a, now)
    ensures QueueOk(RunAll(s, actions).queue) && Fits(RunAll(s, actions).queue, now)
    ensures Need(RunAll(s, actions).queue.timers, now) <= Need(s.queue.timers, now)
    decreases |actions|
  {
    hide QueueOk, Fits, Need, Step, Forward;
    if actions != [] {
      StepNeeds(s, actions[0], now);
      RunNeeds(Step(s, actions[0]), actions[1..], now);
    }
  }

  lemma TurnNeeds(s: Events, now: nat, direct: bool, actions: seq<Action>)
    requires QueueOk(s.queue) && Due(s.queue, now) && Fits(s.queue, now) && now < U64
    requires forall a :: a in actions ==> Forward(a, now)
    ensures var r := Turn(s, direct, actions);
      && QueueOk(r.queue) && Fits(r.queue, now)
      && Need(r.queue.timers, now) < Need(s.queue.timers, now)
  {
    hide QueueOk, Fits, Need, Taken, RunAll;
    TakenOk(s.queue);
    TakenNeeds(s.queue, now);
    RunNeeds(FireFirst(s, direct), actions, now);
  }

  /** Firing everything that is due, with whatever the scheduler and the tasks do in between. */
  ghost function ProcTimeOut(s: Events, turn: nat, now: nat, direct: bool, script: Reactions): (r: (Events, nat))
    requires QueueOk(s.queue) && Fits(s.queue, now) && ForwardOnly(script, now) && now < U64
    ensures QueueOk(r.0.queue)
    ensures forall t :: t in r.0.queue.timers ==> t.expire > now
    ensures turn <= r.1 <= turn + Need(s.queue.timers, now)
    decreases Need(s.queue.timers, now)
  {
    if Due(s.queue, now) then
      TurnNeeds(s, now, direct, script(turn));
      ProcTimeOut(Turn(s, direct, script(turn)), turn + 1, now, direct, script)
    else
      QuietAfter(s.queue, now);
      (s, turn)
  }

  /** With as many turns as firings are owed the loop ends, and has done all of ProcTimeOut. */
  lemma {:induction false} EndsWhenPaid(s: Events, turn: nat, now: nat, direct: bool, script: Reactions, n: nat)
    requires QueueOk(s.queue) && Fits(s.queue, now) && ForwardOnly(script, now) && now < U64
    requires Need(s.queue.timers, now) <= n
    ensures EndsBy(s, turn, now, direct, script, n)
    ensures Turns(s, turn, now, direct, script, n) == ProcTimeOut(s, turn, now, direct, script)
    decreases n
  {
    hide QueueOk, Fits, Need, Turn;
    if Due(s.queue, now) {
      TurnNeeds(s, now, direct, script(turn));
      EndsWhenPaid(Turn(s, direct, script(turn)), turn + 1, now, direct, script, n - 1);
    }
  }

  /** A turn is the firing of the first timer followed by the reactions to it, one after the other. */
  lemma OneTurn(s: Events, turn: nat, now: nat, direct: bool, script: Reactions)
    requires Due(s.queue, now)
    ensures Turns(s, turn, now, direct, script, 1) == (RunAll(Step(s, Firing(now, direct)), script(turn)), turn + 1)
  {
    hide FireFirst;
    FiringStep(s, now, direct);
    var r := Turn(s, direct, script(turn));
    assert Turns(r, turn + 1, now, direct, script, 0) == (r, turn + 1);
  }

  lemma RunAllStep(s: Events, actions: seq<Action>, a: Action)
    ensures RunAll(s, []) == s
    ensures RunAll(s, actions + [a]) == Step(RunAll(s, actions), a)
  {
    hide Step;
    var r := RunAll(s, actions);
    RunAllAppend(s, actions, [a]);
    assert RunAll(r, [a]) == RunAll(Step(r, a), []);
  }

  /** What an action promises about the state before and after it. */
  ghost predicate Obeyed(s: Events, a: Action, r: Events) {
    match a
    case AddEvent(gid, task, expire, interval) =>
      var id := NextId(s.queue.baseId);
      && r == s.(queue := r.queue)
      && (if id in s.queue.index then r.queue.timers == s.queue.timers
          else Joined(r.queue.timers, s.queue.timers, Timer(id, interval, expire, EventTask(gid, task))))
    case DelEvent(timerId) =>
      r == s.(queue := r.queue) && TimerEffects.Without(r.queue.timers, s.queue.timers, timerId)
    case Deliver(m) =>
      if m.Malformed? || m.info.eventId !in s.waiting then r == s
      else
        && r == s.(waiting := s.waiting - {m.info.eventId}, ran := r.ran)
        && r.ran == s.ran + (if m.info.interval == 0 || Queued(s, m.info.timerId)
                             then [Entry(m.info, s.waiting[m.info.eventId])] else [])
    case OtherId => r == s.(lastSeq := (s.lastSeq + 1) % U64)
    case Firing(now, direct) =>
      if s.queue.timers == [] || s.queue.timers[0].expire > now then r == s
      else
        var e := EventOf(s.queue.timers[0], s.lastSeq + 1);
        && r.queue == Taken(s.queue) && r.made == s.made + [e] && r.lastSeq == s.lastSeq + 1
        && r.ran == s.ran + (if direct then [e] else [])
        && r.waiting == (if direct then s.waiting else s.waiting[e.info.eventId := e.task])
  }

  /** The states passed through while actions happen one after the other. */
  ghost predicate Trail(ss: seq<Events>, actions: seq<Action>) {
    |ss| == |actions| + 1 && forall i :: 0 <= i < |actions| ==> Obeyed(ss[i], actions[i], ss[i + 1])
  }

  lemma StepObeyed(s: Events, a: Action)
    requires Once(s) && QueueOk(s.queue) && s.lastSeq + 1 < U64
    ensures Obeyed(s, a, Step(s, a))
  {
    hide QueueOk, Insert, Erase, Joined, Taken, Queued;
    match a
    case AddEvent(gid, task, expire, interval) =>
      AddOk(s.queue, EventTask(gid, task), expire, interval);
    case DelEvent(timerId) =>
      CancelOk(s.queue, timerId);
    case Deliver(m) =>
      if m.Message? {
        QueuedIff(s, m.info.timerId);
      }
    case OtherId =>
    case Firing(now, direct) =>
      if Due(s.queue, now) {
        FiredWaits(s);
        FiredRunsAtOnce(s);
      }
  }

  lemma {:induction false} TrailOf(s: Events, actions: seq<Action>) returns (ss: seq<Events>)
    requires Once(s) && QueueOk(s.queue) && s.lastSeq + |actions| < U64
    ensures Trail(ss, actions) && ss[0] == s && ss[|actions|] == RunAll(s, actions)
    decreases |actions|
  {
    hide Once, QueueOk, Obeyed, Step;
    if actions == [] {
      ss := [s];
    } else {
      StepObeyed(s, actions[0]);
      StepOnce(s, actions[0]);
      StepQueue(s, actions[0]);
      var rest := TrailOf(Step(s, actions[0]), actions[1..]);
      ss := [s] + rest;
      forall i | 0 <= i < |actions| ensures Obeyed(ss[i], actions[i], ss[i + 1]) {
        if i > 0 {
          assert Obeyed(rest[i - 1], actions[1..][i - 1], rest[i]);
        }
      }
    }
  }

  /** In a turn the first timer makes its event, and then everything the scheduler and the tasks do in reaction takes
      place, in order and nothing else. */
  lemma ReactionIsObeyed(s: Events, turn: nat, now: nat, direct: bool, script: Reactions)
    requires Once(s) && QueueOk(s.queue) && Due(s.queue, now) && s.lastSeq + 1 + |script(turn)| < U64
    ensures var actions := [Firing(now, direct)] + script(turn);
      exists ss :: Trail(ss, actions) && ss[0] == s && ss[|actions|] == Turns(s, turn, now, direct, script, 1).0
  {
    hide Once, QueueOk, Obeyed, Step;
    var actions := [Firing(now, direct)] + script(turn);
    var ss := TrailOf(s, actions);
    OneTurn(s, turn, now, direct, script);
    assert actions[0] == Firing(now, direct) && actions[1..] == script(turn);
    assert ss[|actions|] == Turns(s, turn, now, direct, script, 1).0;
  }

  lemma {:induction false} PlainMade(s: Events, actions: seq<Action>)
    requires forall a :: a in actions ==> !a.Firing?
    ensures RunAll(s, actions).made == s.made
    decreases |actions|
  {
    hide Add, Cancel;
    if actions != [] {
      PlainMade(Step(s, actions[0]), actions[1..]);
    }
  }

  /** Unless reactions process timers themselves, the number of turns is the number of events made. */
  lemma {:induction false} TurnsAreEvents(s: Events, turn: nat, now: nat, direct: bool, script: Reactions, n: nat)
    requires forall i, a :: a in script(i) ==> !a.Firing?
    ensures var (r, last) := Turns(s, turn, now, direct, script, n);
      |r.made| - |s.made| == last - turn
    decreases n
  {
    hide Taken, RunAll;
    if n > 0 && Due(s.queue, now) {
      PlainMade(FireFirst(s, direct), script(turn));
      TurnsAreEvents(Turn(s, direct, script(turn)), turn + 1, now, direct, script, n - 1);
    }
  }

  /** The count is the number of turns after which some timer is still due, whatever happens in between. */
  lemma {:induction false} CountIsTurns(s: Events, turn: nat, now: nat, direct: bool, script: Reactions, n: nat, k: nat)
    requires k < n
    ensures turn <= Turns(s, turn, now, direct, script, n).1 <= turn + n
    ensures Due(Turns(s, turn, now, direct, script, k).0.queue, now) <==> turn + k < Turns(s, turn, now, direct, script, n).1
    decreases n
  {
    hide Turn;
    if Due(s.queue, now) {
      var r := Turn(s, direct, script(turn));
      if k > 0 {
        CountIsTurns(r, turn + 1, now, direct, script, n - 1, k - 1);
      } else if n > 1 {
        CountIsTurns(r, turn + 1, now, direct, script, n - 1, 0);
      } else {
        assert Turns(r, turn + 1, now, direct, script, 0) == (r, turn + 1);
      }
    }
  }
}
