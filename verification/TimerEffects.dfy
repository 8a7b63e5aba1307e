/** What the callbacks of one processing ask for is done: every command, in order, and with lasting effect. */
module TimerEffects {
  import opened Timers
  import opened TimerRuns
  import opened TimerTheorems

  // ------------------------------------------------------------ every command is carried out

  /** The timer with this number has gone, and no other. */
  ghost predicate Without<T>(after: seq<Timer<T>>, before: seq<Timer<T>>, id: nat) {
    && (forall x :: x in after ==> x in before && x.id != id)
    && (forall x :: x in before && x.id != id ==> x in after)
  }

  /** What a command promises about the queue and the log before and after it. */
  ghost predicate Obeyed<T>(before: Run<T>, c: Command<T>, after: Run<T>) {
    var p, q := before.queue, after.queue;
    match c
    case AddTimer(task, expire, interval) =>
      && after.log == before.log && q.baseId == NextId(p.baseId)
      && (if q.baseId in p.index then q.timers == p.timers
          else Joined(q.timers, p.timers, Timer(q.baseId, interval, expire, task)))
    case CancelTimer(id) =>
      after.log == before.log && q.baseId == p.baseId && Without(q.timers, p.timers, id)
    case ClearTimers =>
      after.log == before.log && q.baseId == p.baseId && q.timers == []
    case FireTimer(now) =>
      if p.timers != [] && p.timers[0].expire <= now then after == Run(Taken(p), before.log + [p.timers[0]])
      else after == before
  }

  /** The states passed through while the commands are carried out one after the other. */
  ghost predicate Trail<T>(rs: seq<Run<T>>, cs: seq<Command<T>>) {
    && |rs| == |cs| + 1
    && (forall i :: 0 <= i < |rs| ==> QueueOk(rs[i].queue))
    && (forall i :: 0 <= i < |cs| ==> Obeyed(rs[i], cs[i], rs[i + 1]))
  }

  lemma ExecObeyed<T>(r: Run<T>, c: Command<T>)
    requires QueueOk(r.queue)
    ensures QueueOk(ExecRun(r, c).queue) && Obeyed(r, c, ExecRun(r, c))
  {
    hide QueueOk, Insert, Erase, Joined, Taken;
    ExecOk(r.queue, c);
    match c
    case AddTimer(task, expire, interval) =>
      AddOk(r.queue, task, expire, interval);
    case CancelTimer(id) =>
      CancelOk(r.queue, id);
    case ClearTimers =>
    case FireTimer(now) =>
  }

  lemma {:induction false} TrailOf<T>(r: Run<T>, cs: seq<Command<T>>) returns (rs: seq<Run<T>>)
    requires QueueOk(r.queue)
    ensures Trail(rs, cs) && rs[0] == r && rs[|cs|] == ExecAll(r, cs)
    decreases |cs|
  {
    hide QueueOk, Obeyed, ExecRun;
    if cs == [] {
      rs := [r];
    } else {
      ExecObeyed(r, cs[0]);
      var rest := TrailOf(ExecRun(r, cs[0]), cs[1..]);
      rs := [r] + rest;
      forall i | 0 <= i < |cs| ensures Obeyed(rs[i], cs[i], rs[i + 1]) {
        if i > 0 {
          assert Obeyed(rest[i - 1], cs[1..][i - 1], rest[i]);
        }
      }
    }
  }

  /** A turn of the loop takes the first timer, which the callback no longer finds queued unless it is periodic, and
      then does everything the callback asks for, in order and nothing else. */
  lemma CallbackIsObeyed<T>(r: Run<T>, now: nat, script: Script<T>)
    requires QueueOk(r.queue) && Due(r.queue, now)
    ensures var start := Run(Taken(r.queue), r.log + [r.queue.timers[0]]);
      var cs := script(start.log, start.queue);
      exists rs :: Trail(rs, cs) && rs[0] == start && rs[|cs|] == Turns(r, now, script, 1)
  {
    hide QueueOk, Taken, Trail, ExecAll;
    TakenOk(r.queue);
    var start := Run(Taken(r.queue), r.log + [r.queue.timers[0]]);
    var rs := TrailOf(start, script(start.log, start.queue));
    assert Turns(r, now, script, 1) == Turns(Fire(r, script), now, script, 0);
  }

  // ------------------------------------------------------------ the turns after a given one

  lemma {:induction false} TurnsAppend<T>(r: Run<T>, now: nat, script: Script<T>, k: nat, n: nat)
    ensures Turns(r, now, script, k + n) == Turns(Turns(r, now, script, k), now, script, n)
    decreases k
  {
    hide Fire;
    if k > 0 && Due(r.queue, now) {
      TurnsAppend(Fire(r, script), now, script, k - 1, n);
    }
  }

  lemma {:induction false} ExecAllAppend<T>(r: Run<T>, a: seq<Command<T>>, b: seq<Command<T>>)
    ensures ExecAll(r, a + b) == ExecAll(ExecAll(r, a), b)
    decreases |a|
  {
    hide ExecRun;
    if a == [] {
      assert a + b == b;
    } else {
      assert (a + b)[1..] == a[1..] + b;
      ExecAllAppend(ExecRun(r, a[0]), a[1..], b);
    }
  }

  /** Turn k takes place: after k turns some timer is still due. */
  predicate TurnComes<T>(r: Run<T>, now: nat, script: Script<T>, k: nat) {
    Due(Turns(r, now, script, k).queue, now)
  }

  /** The log with the timer that fires in turn k. */
  function Fired<T>(r: Run<T>, now: nat, script: Script<T>, k: nat): seq<Timer<T>>
    requires TurnComes(r, now, script, k)
  {
    var s := Turns(r, now, script, k);
    s.log + [s.queue.timers[0]]
  }

  /** What its callback asks for. */
  function Asked<T>(r: Run<T>, now: nat, script: Script<T>, k: nat): seq<Command<T>>
    requires TurnComes(r, now, script, k)
  {
    script(Fired(r, now, script, k), Taken(Turns(r, now, script, k).queue))
  }

  /** Turn k, and the turns after it. */
  lemma TurnFires<T>(r: Run<T>, now: nat, script: Script<T>, k: nat, n: nat)
    requires TurnComes(r, now, script, k) && k < n
    ensures var s := Turns(r, now, script, k);
      Turns(r, now, script, n) == Turns(ExecAll(Pop(s), Asked(r, now, script, k)), now, script, n - k - 1)
  {
    hide Taken, ExecAll;
    TurnsAppend(r, now, script, k, n - k);
  }

  // ------------------------------------------------------------ a timer that a callback adds

  function Adds<T>(cs: seq<Command<T>>): nat {
    if cs == [] then 0 else (if cs[0].AddTimer? then 1 else 0) + Adds(cs[1..])
  }

  /** Numbers have been given out in order so far. */
  ghost predicate InOrder<T>(q: Queue<T>) {
    forall t :: t in q.timers ==> t.id <= q.baseId
  }

  lemma InOrderUnused<T>(q: Queue<T>)
    requires QueueOk(q) && InOrder(q) && q.baseId + 1 < U64
    ensures NextId(q.baseId) == q.baseId + 1 && q.baseId + 1 !in q.index
  {
    forall i | i in q.index ensures i <= q.baseId {
      var t :| t in q.timers && t.id == i;
    }
  }

  lemma TakenInOrder<T>(q: Queue<T>)
    requires QueueOk(q) && InOrder(q) && q.timers != []
    ensures QueueOk(Taken(q)) && InOrder(Taken(q)) && Taken(q).baseId == q.baseId
  {
    hide QueueOk, Taken;
    TakenOk(q);
    assert q.timers[0] in q.timers;
  }

  lemma ExecInOrder<T>(r: Run<T>, c: Command<T>)
    requires QueueOk(r.queue) && InOrder(r.queue) && r.queue.baseId + 1 < U64
    ensures var s := ExecRun(r, c);
      && QueueOk(s.queue) && InOrder(s.queue)
      && s.queue.baseId == r.queue.baseId + (if c.AddTimer? then 1 else 0)
      && (c.AddTimer? ==> Timer(s.queue.baseId, c.interval, c.expire, c.task) in s.queue.timers)
      && |r.log| <= |s.log|
  {
    hide QueueOk, Insert, Erase, Taken;
    ExecOk(r.queue, c);
    match c
    case AddTimer(task, expire, interval) =>
      InOrderUnused(r.queue);
      AddOk(r.queue, task, expire, interval);
    case CancelTimer(id) =>
      CancelOk(r.queue, id);
    case ClearTimers =>
    case FireTimer(now) =>
      if Due(r.queue, now) {
        TakenInOrder(r.queue);
      }
  }

  lemma {:induction false} AllInOrder<T>(r: Run<T>, cs: seq<Command<T>>)
    requires QueueOk(r.queue) && InOrder(r.queue) && r.queue.baseId + |cs| < U64
    ensures var s := ExecAll(r, cs);
      && QueueOk(s.queue) && InOrder(s.queue)
      && s.queue.baseId == r.queue.baseId + Adds(cs)
      && |r.log| <= |s.log|
    ensures Adds(cs) <= |cs|
    decreases |cs|
  {
    hide QueueOk, InOrder, ExecRun;
    if cs != [] {
      ExecInOrder(r, cs[0]);
      AllInOrder(ExecRun(r, cs[0]), cs[1..]);
    }
  }

  /** A command that neither cancels this timer nor processes timers that are due only after now. */
  predicate Leaves<T>(c: Command<T>, id: nat, now: nat) {
    !Touches(c, id) && (c.FireTimer? ==> c.now <= now)
  }

  lemma PopLeaves<T>(r: Run<T>, t: Timer<T>, now: nat)
    requires QueueOk(r.queue) && t in r.queue.timers && t.expire > now && Due(r.queue, now)
    ensures QueueOk(Pop(r).queue) && t in Pop(r).queue.timers && |Pop(r).log| == |r.log| + 1
  {
    hide QueueOk, Taken;
    TakenOk(r.queue);
    SameId(r.queue, t);
  }

  lemma ExecLeaves<T>(r: Run<T>, c: Command<T>, t: Timer<T>, now: nat)
    requires QueueOk(r.queue) && t in r.queue.timers && t.expire > now && Leaves(c, t.id, now)
    ensures QueueOk(ExecRun(r, c).queue) && t in ExecRun(r, c).queue.timers && |ExecRun(r, c).log| >= |r.log|
  {
    hide QueueOk, Exec, Taken, Touches;
    if !c.FireTimer? {
      ExecOk(r.queue, c);
      ExecSpares(r.queue, c, t);
    } else if Due(r.queue, c.now) {
      PopLeaves(r, t, c.now);
    } else {
      NothingFired(r, c);
    }
  }

  lemma NothingFired<T>(r: Run<T>, c: Command<T>)
    requires c.FireTimer? && !Due(r.queue, c.now)
    ensures ExecRun(r, c) == r
  {
  }

  lemma {:induction false} AllLeave<T>(r: Run<T>, cs: seq<Command<T>>, t: Timer<T>, now: nat)
    requires QueueOk(r.queue) && t in r.queue.timers && t.expire > now && forall c :: c in cs ==> Leaves(c, t.id, now)
    ensures QueueOk(ExecAll(r, cs).queue) && t in ExecAll(r, cs).queue.timers && |ExecAll(r, cs).log| >= |r.log|
    decreases |cs|
  {
    hide QueueOk, ExecRun, Leaves;
    if cs != [] {
      ExecLeaves(r, cs[0], t, now);
      AllLeave(ExecRun(r, cs[0]), cs[1..], t, now);
    }
  }

  /** Callbacks that run later than this log leave the timer alone. */
  ghost predicate LaterLeave<T(!new)>(script: Script<T>, log: seq<Timer<T>>, id: nat, now: nat) {
    forall later, q, c :: |later| > |log| && c in script(later, q) ==> Leaves(c, id, now)
  }

  lemma {:induction false} TurnsLeave<T(!new)>(r: Run<T>, now: nat, script: Script<T>, n: nat, t: Timer<T>,
                                               log: seq<Timer<T>>)
    requires QueueOk(r.queue) && t in r.queue.timers && t.expire > now
    requires LaterLeave(script, log, t.id, now) && |log| <= |r.log|
    ensures t in Turns(r, now, script, n).queue.timers
    decreases n
  {
    hide QueueOk, ExecAll, Leaves, Taken;
    if n > 0 && Due(r.queue, now) {
      PopLeaves(r, t, now);
      AllLeave(Pop(r), script(Pop(r).log, Pop(r).queue), t, now);
      TurnsLeave(Fire(r, script), now, script, n - 1, t, log);
    }
  }

  /** The number that command j of turn k is given, if it adds a timer. */
  function NumberOf<T>(r: Run<T>, now: nat, script: Script<T>, k: nat, j: nat): nat
    requires TurnComes(r, now, script, k) && j <= |Asked(r, now, script, k)|
  {
    Turns(r, now, script, k).queue.baseId + Adds(Asked(r, now, script, k)[..j]) + 1
  }

  /** A timer that a callback adds to expire after now, and that nothing asked for later cancels or clears, is queued
      when the loop goes on and when it ends, with its task, its expiry and its interval. */
  lemma AddedIsQueued<T(!new)>(r: Run<T>, now: nat, script: Script<T>, k: nat, j: nat, n: nat)
    requires QueueOk(r.queue) && TurnComes(r, now, script, k) && k < n
    requires InOrder(Turns(r, now, script, k).queue) && Turns(r, now, script, k).queue.baseId + j + 1 < U64
    requires j < |Asked(r, now, script, k)| && Asked(r, now, script, k)[j].AddTimer?
    requires Asked(r, now, script, k)[j].expire > now
    requires forall c :: c in Asked(r, now, script, k)[j + 1..] ==> Leaves(c, NumberOf(r, now, script, k, j), now)
    requires LaterLeave(script, Fired(r, now, script, k), NumberOf(r, now, script, k, j), now)
    ensures var c := Asked(r, now, script, k)[j];
      Timer(NumberOf(r, now, script, k, j), c.interval, c.expire, c.task) in Turns(r, now, script, n).queue.timers
  {
    hide QueueOk, InOrder, ExecAll, ExecRun, Leaves, Taken, Turns, Adds;
    var s, cs := Turns(r, now, script, k), Asked(r, now, script, k);
    TurnsKeepAgreement(r, now, script, k);
    TakenInOrder(s.queue);
    AllInOrder(Pop(s), cs[..j]);
    var before := ExecAll(Pop(s), cs[..j]);
    ExecInOrder(before, cs[j]);
    var after := ExecRun(before, cs[j]);
    var t := Timer(NumberOf(r, now, script, k, j), cs[j].interval, cs[j].expire, cs[j].task);
    assert t in after.queue.timers;
    AllLeave(after, cs[j + 1..], t, now);
    ExecSplit(Pop(s), cs, j);
    TurnsLeave(ExecAll(Pop(s), cs), now, script, n - k - 1, t, Fired(r, now, script, k));
    TurnFires(r, now, script, k, n);
  }

  /** The commands before j, the command itself, and the commands after it. */
  lemma ExecSplit<T>(r: Run<T>, cs: seq<Command<T>>, j: nat)
    requires j < |cs|
    ensures ExecAll(r, cs) == ExecAll(ExecRun(ExecAll(r, cs[..j]), cs[j]), cs[j + 1..])
  {
    hide ExecRun;
    assert cs == cs[..j] + cs[j..] && cs[j..][1..] == cs[j + 1..];
    ExecAllAppend(r, cs[..j], cs[j..]);
  }

  // ------------------------------------------------------------ a timer that a callback cancels

  /** Calm, whatever the other timers are. */
  lemma PopStaysCalm<T>(r: Run<T>, id: nat, now: nat, total: seq<Timer<T>>)
    requires QueueOk(r.queue) && Due(r.queue, now) && Calm(r, id, now, total)
    ensures QueueOk(Pop(r).queue) && Calm(Pop(r), id, now, total)
  {
    hide QueueOk, Taken, OfId;
    assert r.queue.timers[0] in r.queue.timers;
    OfIdSnoc(r.log, r.queue.timers[0], id);
    TakenOk(r.queue);
  }

  lemma ExecStaysCalm<T>(r: Run<T>, c: Command<T>, id: nat, now: nat, total: seq<Timer<T>>)
    requires QueueOk(r.queue) && Calm(r, id, now, total) && Forward(c, now)
    ensures QueueOk(ExecRun(r, c).queue) && Calm(ExecRun(r, c), id, now, total)
  {
    hide QueueOk, Exec, OfId, Taken;
    if c.FireTimer? && Due(r.queue, c.now) {
      PopStaysCalm(r, id, now, total);
    } else if c.FireTimer? {
      NothingFired(r, c);
    } else {
      ExecOk(r.queue, c);
    }
  }

  lemma {:induction false} AllStayCalm<T>(r: Run<T>, cs: seq<Command<T>>, id: nat, now: nat, total: seq<Timer<T>>)
    requires QueueOk(r.queue) && Calm(r, id, now, total) && forall c :: c in cs ==> Forward(c, now)
    ensures QueueOk(ExecAll(r, cs).queue) && Calm(ExecAll(r, cs), id, now, total)
    decreases |cs|
  {
    hide QueueOk, ExecRun, Calm, Forward;
    if cs != [] {
      ExecStaysCalm(r, cs[0], id, now, total);
      AllStayCalm(ExecRun(r, cs[0]), cs[1..], id, now, total);
    }
  }

  lemma {:induction false} TurnsStayCalm<T(!new)>(r: Run<T>, now: nat, script: Script<T>, n: nat, id: nat,
                                                  total: seq<Timer<T>>)
    requires QueueOk(r.queue) && Calm(r, id, now, total) && ForwardOnly(script, now)
    ensures Calm(Turns(r, now, script, n), id, now, total)
    decreases n
  {
    hide QueueOk, ExecAll, Calm, Forward, Taken;
    if n > 0 && Due(r.queue, now) {
      PopStaysCalm(r, id, now, total);
      AllStayCalm(Pop(r), script(Pop(r).log, Pop(r).queue), id, now, total);
      TurnsStayCalm(Fire(r, script), now, script, n - 1, id, total);
    }
  }

  lemma CancelCalms<T>(r: Run<T>, c: Command<T>, id: nat, now: nat)
    requires QueueOk(r.queue) && Touches(c, id)
    ensures QueueOk(ExecRun(r, c).queue) && Calm(ExecRun(r, c), id, now, OfId(r.log, id))
  {
    hide QueueOk, Cancel, OfId;
    ExecOk(r.queue, c);
    if c.CancelTimer? {
      CancelOk(r.queue, id);
    }
  }

  /** A timer that the callback of an earlier firing cancels does not fire any more in that processing, even if it was
      due: its firings are those up to the one whose callback cancelled it. */
  lemma CancelledDoesNotFire<T(!new)>(r: Run<T>, now: nat, script: Script<T>, k: nat, j: nat, n: nat, id: nat)
    requires QueueOk(r.queue) && TurnComes(r, now, script, k) && k < n && ForwardOnly(script, now)
    requires j < |Asked(r, now, script, k)| && Touches(Asked(r, now, script, k)[j], id)
    requires forall c :: c in Asked(r, now, script, k)[..j] ==> !c.FireTimer?
    ensures OfId(Turns(r, now, script, n).log, id) == OfId(Fired(r, now, script, k), id)
  {
    hide QueueOk, ExecAll, ExecRun, Forward, Taken, Turns, OfId, Touches, Calm;
    var s, cs, total := Turns(r, now, script, k), Asked(r, now, script, k), OfId(Fired(r, now, script, k), id);
    TurnsKeepAgreement(r, now, script, k);
    TakenOk(s.queue);
    ExecAllOk(Pop(s), cs[..j]);
    PlainLog(Pop(s), cs[..j]);
    var before := ExecAll(Pop(s), cs[..j]);
    CancelCalms(before, cs[j], id, now);
    AllStayCalm(ExecRun(before, cs[j]), cs[j + 1..], id, now, total);
    ExecSplit(Pop(s), cs, j);
    TurnsStayCalm(ExecAll(Pop(s), cs), now, script, n - k - 1, id, total);
    TurnFires(r, now, script, k, n);
    CalmMeans(Turns(r, now, script, n), id, now, total);
  }

  lemma CalmMeans<T>(r: Run<T>, id: nat, now: nat, total: seq<Timer<T>>)
    requires Calm(r, id, now, total)
    ensures OfId(r.log, id) == total
  {
  }

  // ------------------------------------------------------------ the count

  /** The count is the number of turns that come, whatever the callbacks do: after fewer turns some timer is still due,
      and afterwards none is or the bound is reached. */
  lemma {:induction false} CountIsTurns<T>(r: Run<T>, now: nat, script: Script<T>, n: nat, k: nat)
    requires k < n
    ensures TurnCount(r, now, script, n) <= n
    ensures TurnComes(r, now, script, k) <==> k < TurnCount(r, now, script, n)
    decreases n
  {
    hide Fire;
    if Due(r.queue, now) {
      var s := Fire(r, script);
      if k > 0 {
        CountIsTurns(s, now, script, n - 1, k - 1);
      } else if n > 1 {
        CountIsTurns(s, now, script, n - 1, 0);
      } else {
        assert TurnCount(s, now, script, 0) == 0;
      }
    }
  }
}
