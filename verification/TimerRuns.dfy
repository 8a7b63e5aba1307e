/** Processing the due timers, with callbacks that add, cancel, clear and process timers of the same queue. */
module TimerRuns {
  import opened Modular
  import opened Timers

  /** What a callback asks of the queue that is firing it. A callback that processes the timers up to `now` itself asks
      for their firing one by one, and each is followed by what its own callback asks for. */
  datatype Command<T> =
    | AddTimer(task: T, expire: nat, interval: nat)
    | CancelTimer(id: nat)
    | ClearTimers
    | FireTimer(now: nat)

  /** The queue and the timers fired so far. */
  datatype Run<T> = Run(queue: Queue<T>, log: seq<Timer<T>>)

  /** The callbacks: what the last timer of the log asks for, seeing the log and the queue. */
  type Script<!T> = (seq<Timer<T>>, Queue<T>) -> seq<Command<T>>

  function Clear<T>(q: Queue<T>): Queue<T> {
    Queue([], map[], q.baseId)
  }

  /** The effect on the queue. */
  function Exec<T>(q: Queue<T>, c: Command<T>): Queue<T> {
    match c
    case AddTimer(task, expire, interval) => Add(q, task, expire, interval).0
    case CancelTimer(id) => Cancel(q, id).0
    case ClearTimers => Clear(q)
    case FireTimer(now) => if Due(q, now) then Taken(q) else q
  }

  /** The first timer leaves (or moves), and is logged. */
  function Pop<T>(r: Run<T>): Run<T>
    requires r.queue.timers != []
  {
    Run(Taken(r.queue), r.log + [r.queue.timers[0]])
  }

  function ExecRun<T>(r: Run<T>, c: Command<T>): Run<T> {
    if c.FireTimer? && Due(r.queue, c.now) then Pop(r) else Run(Exec(r.queue, c), r.log)
  }

  function ExecAll<T>(r: Run<T>, cs: seq<Command<T>>): Run<T>
    decreases |cs|
  {
    if cs == [] then r else ExecAll(ExecRun(r, cs[0]), cs[1..])
  }

  /** One turn of the loop: the first timer leaves (or moves), then its task runs. */
  function Fire<T>(r: Run<T>, script: Script<T>): Run<T>
    requires r.queue.timers != []
  {
    ExecAll(Pop(r), script(Pop(r).log, Pop(r).queue))
  }

  // ------------------------------------------------------------ bijection, for any callbacks

  lemma ExecOk<T>(q: Queue<T>, c: Command<T>)
    requires QueueOk(q)
    ensures QueueOk(Exec(q, c))
    ensures !c.FireTimer? ==> forall x :: x in Exec(q, c).timers ==>
      x in q.timers || (c.AddTimer? && x == Timer(x.id, c.interval, c.expire, c.task))
  {
    hide QueueOk, Add, Cancel, Taken;
    match c
    case AddTimer(task, expire, interval) =>
      AddOk(q, task, expire, interval);
    case CancelTimer(id) =>
      CancelOk(q, id);
    case ClearTimers =>
      ClearOk(q);
    case FireTimer(now) =>
      if Due(q, now) {
        TakenOk(q);
      }
  }

  lemma ClearOk<T>(q: Queue<T>)
    requires QueueOk(q)
    ensures QueueOk(Clear(q))
  {
  }

  lemma ExecRunQueue<T>(r: Run<T>, c: Command<T>)
    ensures ExecRun(r, c).queue == Exec(r.queue, c)
  {
  }

  lemma {:induction false} ExecAllOk<T>(r: Run<T>, cs: seq<Command<T>>)
    requires QueueOk(r.queue)
    ensures QueueOk(ExecAll(r, cs).queue)
    decreases |cs|
  {
    hide QueueOk, Exec, ExecRun;
    if cs != [] {
      ExecOk(r.queue, cs[0]);
      ExecRunQueue(r, cs[0]);
      ExecAllOk(ExecRun(r, cs[0]), cs[1..]);
    }
  }

  /** Whatever the callbacks do, including to the timer that is firing, the ordered set and the index stay in
      exact agreement. */
  lemma FireKeepsAgreement<T>(r: Run<T>, script: Script<T>)
    requires QueueOk(r.queue) && r.queue.timers != []
    ensures QueueOk(Fire(r, script).queue)
  {
    hide QueueOk, ExecAll, Taken;
    TakenOk(r.queue);
    ExecAllOk(Pop(r), script(Pop(r).log, Pop(r).queue));
  }

  /** The loop, for at most n turns. */
  function Turns<T>(r: Run<T>, now: nat, script: Script<T>, n: nat): Run<T>
    decreases n
  {
    if n == 0 || !Due(r.queue, now) then r else Turns(Fire(r, script), now, script, n - 1)
  }

  /** How many turns that are. */
  function TurnCount<T>(r: Run<T>, now: nat, script: Script<T>, n: nat): nat
    decreases n
  {
    if n == 0 || !Due(r.queue, now) then 0 else 1 + TurnCount(Fire(r, script), now, script, n - 1)
  }

  lemma {:induction false} PlainLog<T>(r: Run<T>, cs: seq<Command<T>>)
    requires forall c :: c in cs ==> !c.FireTimer?
    ensures ExecAll(r, cs).log == r.log
    decreases |cs|
  {
    if cs != [] {
      PlainLog(ExecRun(r, cs[0]), cs[1..]);
    }
  }

  /** Unless callbacks process timers themselves, each turn is one firing. */
  lemma {:induction false} TurnsAreFirings<T(!new)>(r: Run<T>, now: nat, script: Script<T>, n: nat)
    requires forall log, q, c :: c in script(log, q) ==> !c.FireTimer?
    ensures |Turns(r, now, script, n).log| == |r.log| + TurnCount(r, now, script, n)
    decreases n
  {
    hide Taken, ExecAll;
    if n > 0 && Due(r.queue, now) {
      PlainLog(Pop(r), script(Pop(r).log, Pop(r).queue));
      TurnsAreFirings(Fire(r, script), now, script, n - 1);
    }
  }

  /** The loop ends within n turns. */
  predicate EndsBy<T>(r: Run<T>, now: nat, script: Script<T>, n: nat) {
    !Due(Turns(r, now, script, n).queue, now)
  }

  /** Whatever the callbacks do: set and index agree after any number of turns, and once the loop has ended every
      timer left expires after now. */
  lemma {:induction false} TurnsKeepAgreement<T>(r: Run<T>, now: nat, script: Script<T>, n: nat)
    requires QueueOk(r.queue)
    ensures QueueOk(Turns(r, now, script, n).queue)
    ensures EndsBy(r, now, script, n) ==> forall t :: t in Turns(r, now, script, n).queue.timers ==> t.expire > now
    decreases n
  {
    hide QueueOk, Fire;
    if n == 0 || !Due(r.queue, now) {
      if !Due(r.queue, now) {
        QuietAfter(r.queue, now);
      }
    } else {
      FireKeepsAgreement(r, script);
      TurnsKeepAgreement(Fire(r, script), now, script, n - 1);
    }
  }

  // ------------------------------------------------------------ catching up with the clock

  /** How often a timer is due up to now. */
  function Count(expire: nat, interval: nat, now: nat): nat
    decreases now + 1 - expire
  {
    if expire > now then 0
    else if interval == 0 then 1
    else 1 + Count(expire + interval, interval, now)
  }

  /** The first moment after now at which a periodic timer is due. */
  function Final(expire: nat, interval: nat, now: nat): nat
    requires interval > 0
    decreases now + 1 - expire
  {
    if expire > now then expire else Final(expire + interval, interval, now)
  }

  lemma {:induction false} CountClosedForm(expire: nat, interval: nat, now: nat)
    requires interval > 0 && expire <= now
    ensures Count(expire, interval, now) == (now - expire) / interval + 1
    decreases now - expire
  {
    var e := expire + interval;
    if e <= now {
      CountClosedForm(e, interval, now);
      var d, r := (now - e) / interval, (now - e) % interval;
      assert now - e == interval * d + r;
      NextMultiple(interval, d);
      DivModUnique(now - expire, interval, d + 1, r);
    } else {
      DivModUnique(now - expire, interval, 0, now - expire);
    }
  }

  lemma NextMultiple(interval: nat, k: nat)
    ensures interval * (k + 1) == interval * k + interval
  {
  }

  lemma {:induction false} FinalClosedForm(expire: nat, interval: nat, now: nat)
    requires interval > 0 && expire <= now
    ensures Count(expire, interval, now) == (now - expire) / interval + 1
    ensures Final(expire, interval, now) == expire + interval * Count(expire, interval, now)
    ensures now < Final(expire, interval, now) <= now + interval
    decreases now - expire
  {
    CountClosedForm(expire, interval, now);
    var e := expire + interval;
    if e <= now {
      FinalClosedForm(e, interval, now);
      NextMultiple(interval, Count(e, interval, now));
    }
  }

  /** No due periodic timer is carried past the 64-bit range by catching up. */
  predicate FitsTimer<T>(t: Timer<T>, now: nat) {
    t.interval > 0 && t.expire <= now ==> Final(t.expire, t.interval, now) < U64
  }

  ghost predicate Fits<T>(q: Queue<T>, now: nat) {
    forall t :: t in q.timers ==> FitsTimer(t, now)
  }

  /** A command that adds no timer already due, and processes no timer that is not. */
  predicate Forward<T>(c: Command<T>, now: nat) {
    (c.AddTimer? ==> c.expire > now) && (c.FireTimer? ==> c.now <= now)
  }

  ghost predicate ForwardOnly<T(!new)>(script: Script<T>, now: nat) {
    forall log, q, c :: c in script(log, q) ==> Forward(c, now)
  }

  /** How many firings are owed. */
  function Need<T>(ts: seq<Timer<T>>, now: nat): nat {
    if ts == [] then 0 else Count(ts[0].expire, ts[0].interval, now) + Need(ts[1..], now)
  }

  lemma {:induction false} NeedInsert<T>(ts: seq<Timer<T>>, t: Timer<T>, now: nat)
    ensures Need(Insert(ts, t), now) == Need(ts, now) + Count(t.expire, t.interval, now)
    decreases |ts|
  {
    if ts != [] && !Before(t, ts[0]) {
      NeedInsert(ts[1..], t, now);
      assert ([ts[0]] + Insert(ts[1..], t))[1..] == Insert(ts[1..], t);
    } else {
      assert ([t] + ts)[1..] == ts;
    }
  }

  lemma {:induction false} NeedErase<T>(ts: seq<Timer<T>>, expire: nat, id: nat, now: nat)
    ensures Need(Erase(ts, expire, id), now) <= Need(ts, now)
    decreases |ts|
  {
    if ts != [] && !(ts[0].expire == expire && ts[0].id == id) {
      NeedErase(ts[1..], expire, id, now);
      assert ([ts[0]] + Erase(ts[1..], expire, id))[1..] == Erase(ts[1..], expire, id);
    }
  }

  lemma LateFits<T>(t: Timer<T>, now: nat)
    ensures t.expire > now ==> FitsTimer(t, now)
  {
  }

  lemma ExecNeedsOne<T>(q: Queue<T>, c: Command<T>, now: nat)
    requires !c.FireTimer? && Forward(c, now)
    ensures Need(Exec(q, c).timers, now) <= Need(q.timers, now)
  {
    hide Insert, Erase, Need;
    match c
    case AddTimer(task, expire, interval) =>
      NeedInsert(q.timers, Timer(NextId(q.baseId), interval, expire, task), now);
    case CancelTimer(id) =>
      if id in q.index {
        NeedErase(q.timers, q.index[id], id, now);
      }
    case ClearTimers =>
      NeedEmpty<T>(now);
  }

  lemma NeedEmpty<T>(now: nat)
    ensures Need<T>([], now) == 0
  {
  }

  lemma RenewedFits<T>(t: Timer<T>, now: nat)
    requires t.interval > 0 && t.expire <= now < U64 && FitsTimer(t, now)
    ensures FitsTimer(Renewed(t), now) && Renewed(t).expire == t.expire + t.interval
  {
    FinalAhead(t.expire, t.interval, now);
  }

  /** Firing a due timer that fits pays back exactly one firing. */
  lemma TakenNeeds<T>(q: Queue<T>, now: nat)
    requires QueueOk(q) && Due(q, now) && Fits(q, now) && now < U64
    ensures Fits(Taken(q), now) && Need(Taken(q).timers, now) == Need(q.timers, now) - 1
  {
    hide QueueOk, Insert;
    var t := q.timers[0];
    TakenOk(q);
    assert t in q.timers && FitsTimer(t, now);
    if t.interval > 0 {
      RenewedFits(t, now);
      NeedInsert(q.timers[1..], Renewed(t), now);
    }
    hide FitsTimer, Renewed;
    forall x | x in Taken(q).timers ensures FitsTimer(x, now) {
    }
  }

  lemma {:induction false} FinalAhead(expire: nat, interval: nat, now: nat)
    requires interval > 0 && expire <= now
    ensures expire + interval <= Final(expire, interval, now)
    decreases now - expire
  {
    if expire + interval <= now {
      FinalAhead(expire + interval, interval, now);
    }
  }

  /** What every step of a forward-only processing keeps. */
  ghost predicate Sound<T>(r: Run<T>, now: nat) {
    QueueOk(r.queue) && Fits(r.queue, now)
  }

  lemma PopSound<T>(r: Run<T>, now: nat)
    requires Sound(r, now) && Due(r.queue, now) && now < U64
    ensures Sound(Pop(r), now) && Need(Pop(r).queue.timers, now) == Need(r.queue.timers, now) - 1
  {
    hide QueueOk, Fits, Need, Taken;
    TakenOk(r.queue);
    TakenNeeds(r.queue, now);
  }

  lemma ExecSound<T>(r: Run<T>, c: Command<T>, now: nat)
    requires Sound(r, now) && Forward(c, now) && now < U64
    ensures Sound(ExecRun(r, c), now) && Need(ExecRun(r, c).queue.timers, now) <= Need(r.queue.timers, now)
    ensures r.log <= ExecRun(r, c).log
    ensures |ExecRun(r, c).log| + Need(ExecRun(r, c).queue.timers, now) <= |r.log| + Need(r.queue.timers, now)
  {
    hide QueueOk, FitsTimer, Need, Taken;
    if c.FireTimer? {
      if Due(r.queue, c.now) {
        PopSound(r, now);
      }
    } else {
      ExecOk(r.queue, c);
      ExecNeedsOne(r.queue, c, now);
      forall x | x in Exec(r.queue, c).timers ensures FitsTimer(x, now) {
        LateFits(x, now);
      }
    }
  }

  lemma {:induction false} ExecAllSound<T>(r: Run<T>, cs: seq<Command<T>>, now: nat)
    requires Sound(r, now) && now < U64 && forall c :: c in cs ==> Forward(c, now)
    ensures Sound(ExecAll(r, cs), now) && Need(ExecAll(r, cs).queue.timers, now) <= Need(r.queue.timers, now)
    ensures r.log <= ExecAll(r, cs).log
    ensures |ExecAll(r, cs).log| + Need(ExecAll(r, cs).queue.timers, now) <= |r.log| + Need(r.queue.timers, now)
    decreases |cs|
  {
    hide Sound, ExecRun, Need, Forward;
    if cs != [] {
      ExecSound(r, cs[0], now);
      ExecAllSound(ExecRun(r, cs[0]), cs[1..], now);
    }
  }

  lemma FireSound<T(!new)>(r: Run<T>, now: nat, script: Script<T>)
    requires Sound(r, now) && Due(r.queue, now) && ForwardOnly(script, now) && now < U64
    ensures Sound(Fire(r, script), now) && Need(Fire(r, script).queue.timers, now) < Need(r.queue.timers, now)
    ensures r.log <= Fire(r, script).log
    ensures |Fire(r, script).log| + Need(Fire(r, script).queue.timers, now) <= |r.log| + Need(r.queue.timers, now)
  {
    hide Sound, Need, ExecAll, Forward, Taken;
    PopSound(r, now);
    ExecAllSound(Pop(r), script(Pop(r).log, Pop(r).queue), now);
  }

  /** Processing everything that is due. It comes to an end when callbacks only add timers later than now, process none
      that is not due, and no due timer leaves the 64-bit range. */
  ghost function TimeOut<T(!new)>(r: Run<T>, now: nat, script: Script<T>): (s: Run<T>)
    requires Sound(r, now) && ForwardOnly(script, now) && now < U64
    ensures Sound(s, now)
    ensures forall t :: t in s.queue.timers ==> t.expire > now
    ensures r.log <= s.log && |s.log| <= |r.log| + Need(r.queue.timers, now)
    decreases Need(r.queue.timers, now)
  {
    if Due(r.queue, now) then
      FireSound(r, now, script);
      TimeOut(Fire(r, script), now, script)
    else
      QuietAfter(r.queue, now);
      r
  }

  lemma QuietAfter<T>(q: Queue<T>, now: nat)
    requires QueueOk(q) && !Due(q, now)
    ensures forall t :: t in q.timers ==> t.expire > now
  {
    forall t | t in q.timers ensures t.expire > now {
      var i :| 0 <= i < |q.timers| && q.timers[i] == t;
      assert i > 0 ==> Before(q.timers[0], q.timers[i]);
    }
  }

  /** With as many turns as firings are owed the loop ends, and has done all of TimeOut. */
  lemma {:induction false} EndsWhenPaid<T(!new)>(r: Run<T>, now: nat, script: Script<T>, n: nat)
    requires Sound(r, now) && ForwardOnly(script, now) && now < U64
    requires Need(r.queue.timers, now) <= n
    ensures EndsBy(r, now, script, n) && Turns(r, now, script, n) == TimeOut(r, now, script)
    decreases n
  {
    hide Sound, ForwardOnly, Need, Fire;
    if Due(r.queue, now) {
      FireSound(r, now, script);
      EndsWhenPaid(Fire(r, script), now, script, n - 1);
    }
  }

  /** A property of runs that is kept when a due timer leaves and by every other command the callbacks give holds when
      everything due has been processed. */
  lemma {:induction false} ExecInduction<T(!new)>(r: Run<T>, cs: seq<Command<T>>, now: nat,
                                                  p: Run<T> -> bool, allowed: Command<T> -> bool)
    requires Sound(r, now) && now < U64 && p(r) && forall c :: c in cs ==> Forward(c, now) && allowed(c)
    requires forall s :: p(s) && Sound(s, now) && Due(s.queue, now) ==> p(Pop(s))
    requires forall s, c :: p(s) && allowed(c) && Sound(s, now) && Forward(c, now) && !c.FireTimer? ==> p(ExecRun(s, c))
    ensures p(ExecAll(r, cs))
    decreases |cs|
  {
    hide Sound, ExecRun, Forward;
    if cs != [] {
      var c := cs[0];
      assert c in cs;
      ExecSound(r, c, now);
      if c.FireTimer? {
        FireTimerIsPop(r, c, now);
      }
      ExecInduction(ExecRun(r, c), cs[1..], now, p, allowed);
    }
  }

  lemma FireTimerIsPop<T>(r: Run<T>, c: Command<T>, now: nat)
    requires c.FireTimer? && Forward(c, now)
    ensures ExecRun(r, c) == r || (Due(r.queue, now) && ExecRun(r, c) == Pop(r))
  {
  }

  lemma {:induction false} TimeOutInduction<T(!new)>(r: Run<T>, now: nat, script: Script<T>,
                                                     p: Run<T> -> bool, allowed: Command<T> -> bool)
    requires Sound(r, now) && ForwardOnly(script, now) && now < U64 && p(r)
    requires forall log, q, c :: c in script(log, q) ==> allowed(c)
    requires forall s :: p(s) && Sound(s, now) && Due(s.queue, now) ==> p(Pop(s))
    requires forall s, c :: p(s) && allowed(c) && Sound(s, now) && Forward(c, now) && !c.FireTimer? ==> p(ExecRun(s, c))
    ensures p(TimeOut(r, now, script))
    decreases Need(r.queue.timers, now)
  {
    hide Sound, Forward, Need, ExecAll, ExecRun, Taken;
    if Due(r.queue, now) {
      FireSound(r, now, script);
      PopSound(r, now);
      ExecInduction(Pop(r), script(Pop(r).log, Pop(r).queue), now, p, allowed);
      TimeOutInduction(Fire(r, script), now, script, p, allowed);
    }
  }
}
