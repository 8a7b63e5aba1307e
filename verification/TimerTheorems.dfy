/** What a whole processing of due timers guarantees. */
module TimerTheorems {
  import opened Timers
  import opened TimerRuns

  // ------------------------------------------------------------ two calls are one

  /** A loop that has ended does nothing in further turns. */
  lemma {:induction false} EndedStays<T>(r: Run<T>, now: nat, script: Script<T>, n: nat)
    requires EndsBy(r, now, script, n)
    ensures EndsBy(r, now, script, n + 1) && Turns(r, now, script, n + 1) == Turns(r, now, script, n)
    decreases n
  {
    hide Fire;
    if n > 0 && Due(r.queue, now) {
      EndedStays(Fire(r, script), now, script, n - 1);
    }
  }

  /** Processing up to a and then up to b fires the same timers in the same order, and leaves the same queue, as
      processing up to b at once, for any callbacks with which the latter ends. */
  lemma {:induction false} TwoCallsAreOne<T>(r: Run<T>, a: nat, b: nat, script: Script<T>, n: nat)
    requires a <= b && EndsBy(r, b, script, n)
    ensures EndsBy(r, a, script, n)
    ensures EndsBy(Turns(r, a, script, n), b, script, n)
    ensures Turns(Turns(r, a, script, n), b, script, n) == Turns(r, b, script, n)
    decreases n
  {
    hide Fire;
    if n > 0 && Due(r.queue, a) {
      TwoCallsAreOne(Fire(r, script), a, b, script, n - 1);
      EndedStays(Turns(Fire(r, script), a, script, n - 1), b, script, n - 1);
    }
  }

  // ------------------------------------------------------------ order

  /** The timers fired since mark are in order, before every timer still queued, and were due. */
  ghost predicate Ahead<T>(r: Run<T>, mark: nat, now: nat) {
    && mark <= |r.log|
    && Sorted(r.log[mark..])
    && (forall a, t :: a in r.log[mark..] && t in r.queue.timers ==> Before(a, t))
    && (forall a :: a in r.log[mark..] ==> a.expire <= now)
  }

  lemma SortedSnoc<T>(ts: seq<Timer<T>>, t: Timer<T>)
    requires Sorted(ts) && forall x :: x in ts ==> Before(x, t)
    ensures Sorted(ts + [t])
  {
  }

  lemma SortedOf<T>(q: Queue<T>)
    requires QueueOk(q)
    ensures Sorted(q.timers)
  {
  }

  lemma RestAfterHead<T>(q: Queue<T>, now: nat)
    requires QueueOk(q) && Due(q, now) && Fits(q, now) && now < U64
    ensures forall x :: x in Taken(q).timers ==> Before(q.timers[0], x)
    ensures forall x :: x in Taken(q).timers ==> x in q.timers || x == Renewed(q.timers[0])
    ensures q.timers[0].interval > 0 ==> q.timers[0].expire + q.timers[0].interval < U64
  {
    hide QueueOk, Insert, Fits;
    var t := q.timers[0];
    TakenOk(q);
    SortedOf(q);
    TailOf(q.timers);
    HeadFits(q, now);
    assert q.timers == [t] + q.timers[1..];
    hide Sorted;
    forall x | x in Taken(q).timers ensures Before(t, x) {
      if x in q.timers && x.id != t.id {
        assert x in q.timers[1..];
      }
    }
  }

  lemma HeadFits<T>(q: Queue<T>, now: nat)
    requires Due(q, now) && Fits(q, now)
    ensures q.timers[0].interval > 0 ==> q.timers[0].expire + q.timers[0].interval < U64
  {
    var t := q.timers[0];
    assert t in q.timers && FitsTimer(t, now);
    if t.interval > 0 {
      FinalAhead(t.expire, t.interval, now);
    }
  }

  lemma PopAhead<T>(r: Run<T>, mark: nat, now: nat)
    requires Sound(r, now) && Due(r.queue, now) && now < U64 && Ahead(r, mark, now)
    ensures Ahead(Pop(r), mark, now)
  {
    hide QueueOk, Fits, Sorted, Taken;
    var t, s := r.queue.timers[0], Pop(r);
    assert s.log[mark..] == r.log[mark..] + [t] && t in r.queue.timers;
    SortedSnoc(r.log[mark..], t);
    RestAfterHead(r.queue, now);
    forall a, x | a in s.log[mark..] && x in s.queue.timers ensures Before(a, x) {
      assert Before(t, x);
      if a in r.log[mark..] {
        assert Before(a, t);
      }
    }
  }

  lemma ExecAhead<T>(r: Run<T>, c: Command<T>, mark: nat, now: nat)
    requires Sound(r, now) && Ahead(r, mark, now) && Forward(c, now) && !c.FireTimer?
    ensures Ahead(ExecRun(r, c), mark, now)
  {
    hide QueueOk, Fits, Sorted, Exec;
    ExecOk(r.queue, c);
  }

  /** One processing fires in strictly increasing order of expiry, then number, and everything it fired was due. */
  lemma FiresInOrder<T(!new)>(r: Run<T>, now: nat, script: Script<T>)
    requires Sound(r, now) && ForwardOnly(script, now) && now < U64
    ensures var fired := TimeOut(r, now, script).log[|r.log|..];
      Sorted(fired) && forall a :: a in fired ==> a.expire <= now
  {
    var p, all := (s: Run<T>) => Ahead(s, |r.log|, now), (c: Command<T>) => true;
    assert p(r);
    hide Sound, TimeOut, Forward, Ahead, ExecRun;
    forall s | p(s) && Sound(s, now) && Due(s.queue, now) ensures p(Pop(s)) {
      PopAhead(s, |r.log|, now);
    }
    forall s, c | p(s) && all(c) && Sound(s, now) && Forward(c, now) && !c.FireTimer? ensures p(ExecRun(s, c)) {
      ExecAhead(s, c, |r.log|, now);
    }
    TimeOutInduction(r, now, script, p, all);
    AheadMeans(TimeOut(r, now, script), |r.log|, now);
  }

  lemma AheadMeans<T>(r: Run<T>, mark: nat, now: nat)
    requires Ahead(r, mark, now)
    ensures mark <= |r.log| && Sorted(r.log[mark..]) && forall a :: a in r.log[mark..] ==> a.expire <= now
  {
  }

  // ------------------------------------------------------------ how often each timer fires

  function OfId<T>(log: seq<Timer<T>>, id: nat): seq<Timer<T>> {
    if log == [] then []
    else OfId(log[..|log| - 1], id) + (if log[|log| - 1].id == id then [log[|log| - 1]] else [])
  }

  lemma OfIdSnoc<T>(log: seq<Timer<T>>, t: Timer<T>, id: nat)
    ensures OfId(log + [t], id) == OfId(log, id) + (if t.id == id then [t] else [])
  {
    assert (log + [t])[..|log|] == log;
  }

  /** The firings a timer owes by now, in order. */
  function Ticks<T>(t: Timer<T>, now: nat): (s: seq<Timer<T>>)
    ensures |s| == Count(t.expire, t.interval, now)
    decreases now + 1 - t.expire
  {
    if t.expire > now then []
    else if t.interval == 0 then [t]
    else [t] + Ticks(t.(expire := t.expire + t.interval), now)
  }

  /** The firing number k of those a timer owes is the timer k intervals later; a one-shot timer owes only itself. */
  lemma {:induction false} TickAt<T>(t: Timer<T>, now: nat, k: nat)
    requires k < |Ticks(t, now)|
    ensures Ticks(t, now)[k] == t.(expire := t.expire + k * t.interval)
    ensures t.expire + k * t.interval <= now && (t.interval == 0 ==> k == 0)
    decreases k
  {
    if k > 0 {
      TickAt(t.(expire := t.expire + t.interval), now, k - 1);
      NextMultiple(t.interval, k - 1);
    }
  }

  predicate Touches<T>(c: Command<T>, id: nat) {
    (c.CancelTimer? && c.id == id) || c.ClearTimers?
  }

  /** Callbacks leave this timer alone. */
  ghost predicate Spares<T(!new)>(script: Script<T>, id: nat) {
    forall log, q, c :: c in script(log, q) ==> !Touches(c, id)
  }

  /** No timer of this number is due, and these are all the firings of timers of this number. */
  ghost predicate Calm<T>(r: Run<T>, id: nat, now: nat, total: seq<Timer<T>>) {
    OfId(r.log, id) == total && forall t :: t in r.queue.timers && t.id == id ==> t.expire > now
  }

  lemma PopCalm<T>(r: Run<T>, id: nat, now: nat, total: seq<Timer<T>>)
    requires Sound(r, now) && Due(r.queue, now) && now < U64 && Calm(r, id, now, total)
    ensures Calm(Pop(r), id, now, total)
  {
    hide QueueOk, Fits, Taken, OfId;
    assert r.queue.timers[0] in r.queue.timers;
    OfIdSnoc(r.log, r.queue.timers[0], id);
    RestAfterHead(r.queue, now);
  }

  lemma ExecCalm<T>(r: Run<T>, c: Command<T>, id: nat, now: nat, total: seq<Timer<T>>)
    requires Sound(r, now) && Calm(r, id, now, total) && Forward(c, now) && !c.FireTimer?
    ensures Calm(ExecRun(r, c), id, now, total)
  {
    hide QueueOk, Fits, Exec, OfId;
    ExecOk(r.queue, c);
  }

  /** A timer that is not due, or was cancelled, does not fire. */
  lemma NotDueNotFired<T(!new)>(r: Run<T>, now: nat, script: Script<T>, id: nat)
    requires Sound(r, now) && ForwardOnly(script, now) && now < U64
    requires forall t :: t in r.queue.timers && t.id == id ==> t.expire > now
    ensures OfId(TimeOut(r, now, script).log, id) == OfId(r.log, id)
  {
    var total := OfId(r.log, id);
    var p, all := (s: Run<T>) => Calm(s, id, now, total), (c: Command<T>) => true;
    assert p(r);
    hide Sound, TimeOut, Forward, ExecRun;
    forall s | p(s) && Sound(s, now) && Due(s.queue, now) ensures p(Pop(s)) {
      PopCalm(s, id, now, total);
    }
    forall s, c | p(s) && all(c) && Sound(s, now) && Forward(c, now) && !c.FireTimer? ensures p(ExecRun(s, c)) {
      ExecCalm(s, c, id, now, total);
    }
    TimeOutInduction(r, now, script, p, all);
  }

  /** The firings so far of this number, and those the timer t in the queue still owes, are `total`; a periodic timer
      will be `last`. */
  ghost predicate Owes<T>(r: Run<T>, t: Timer<T>, now: nat, total: seq<Timer<T>>, last: Timer<T>) {
    && t in r.queue.timers
    && OfId(r.log, t.id) + Ticks(t, now) == total
    && (t.interval > 0 ==> t.(expire := Final(t.expire, t.interval, now)) == last)
    && (t.interval == 0 ==> t == last)
  }

  /** A timer of this number is on its way to these firings, or a one-shot one has made them. */
  ghost predicate Tracks<T(!new)>(r: Run<T>, now: nat, total: seq<Timer<T>>, last: Timer<T>) {
    || (exists t: Timer<T> :: Owes(r, t, now, total, last))
    || (last.interval == 0 && last.expire <= now && Calm(r, last.id, now, total))
  }

  lemma TicksStep<T>(t: Timer<T>, now: nat)
    requires t.interval > 0 && t.expire <= now && t.expire + t.interval < U64
    ensures Ticks(t, now) == [t] + Ticks(Renewed(t), now)
    ensures Final(t.expire, t.interval, now) == Final(Renewed(t).expire, t.interval, now)
  {
    assert Renewed(t) == t.(expire := t.expire + t.interval);
  }

  lemma TicksEdge<T>(t: Timer<T>, now: nat)
    ensures t.expire > now ==> Ticks(t, now) == [] && (t.interval > 0 ==> Final(t.expire, t.interval, now) == t.expire)
    ensures t.expire <= now && t.interval == 0 ==> Ticks(t, now) == [t]
  {
  }

  lemma SameId<T>(q: Queue<T>, t: Timer<T>)
    requires QueueOk(q) && q.timers != [] && t in q.timers
    ensures t.id == q.timers[0].id ==> t == q.timers[0]
    ensures t.id != q.timers[0].id ==> t in Taken(q).timers
  {
    hide Taken, QueueOk;
    TakenOk(q);
    HeadApart(q);
    assert q.timers == [q.timers[0]] + q.timers[1..];
  }

  /** The firing of a periodic timer moves one firing from what it owes to the log. */
  lemma PopPeriodic<T>(r: Run<T>, t: Timer<T>, now: nat, total: seq<Timer<T>>, last: Timer<T>)
    requires Sound(r, now) && Due(r.queue, now) && now < U64 && Owes(r, t, now, total, last)
    requires t == r.queue.timers[0] && t.interval > 0
    ensures Owes(Pop(r), Renewed(t), now, total, last)
    ensures Renewed(t).id == t.id && Renewed(t).interval == t.interval
  {
    hide QueueOk, Fits, Taken, OfId, Ticks, Final;
    TakenOk(r.queue);
    RestAfterHead(r.queue, now);
    OfIdSnoc(r.log, t, t.id);
    TicksStep(t, now);
    assert OfId(r.log, t.id) + ([t] + Ticks(Renewed(t), now)) == OfId(r.log, t.id) + [t] + Ticks(Renewed(t), now);
  }

  lemma PopOneShot<T>(r: Run<T>, t: Timer<T>, now: nat, total: seq<Timer<T>>, last: Timer<T>)
    requires Sound(r, now) && Due(r.queue, now) && now < U64 && Owes(r, t, now, total, last)
    requires t == r.queue.timers[0] && t.interval == 0
    ensures Calm(Pop(r), t.id, now, total)
  {
    hide QueueOk, Fits, Taken, OfId, Ticks;
    TakenOk(r.queue);
    OfIdSnoc(r.log, t, t.id);
    TicksEdge(t, now);
  }

  lemma PopTracks<T(!new)>(r: Run<T>, now: nat, total: seq<Timer<T>>, last: Timer<T>)
    requires Sound(r, now) && Due(r.queue, now) && now < U64 && Tracks(r, now, total, last)
    ensures Tracks(Pop(r), now, total, last)
  {
    hide QueueOk, Fits, Taken, OfId, Ticks, Final, Calm;
    if last.interval == 0 && last.expire <= now && Calm(r, last.id, now, total) {
      PopCalm(r, last.id, now, total);
    } else {
      var t: Timer<T> :| Owes(r, t, now, total, last);
      SameId(r.queue, t);
      OfIdSnoc(r.log, r.queue.timers[0], t.id);
      if t != r.queue.timers[0] {
        assert Owes(Pop(r), t, now, total, last);
      } else if t.interval > 0 {
        PopPeriodic(r, t, now, total, last);
      } else {
        PopOneShot(r, t, now, total, last);
      }
    }
  }

  lemma ExecSpares<T>(q: Queue<T>, c: Command<T>, t: Timer<T>)
    requires QueueOk(q) && t in q.timers && !Touches(c, t.id) && !c.FireTimer?
    ensures t in Exec(q, c).timers
  {
    hide QueueOk, Add, Cancel;
    if c.AddTimer? {
      AddOk(q, c.task, c.expire, c.interval);
    } else {
      CancelOk(q, c.id);
    }
  }

  lemma ExecTracks<T(!new)>(r: Run<T>, c: Command<T>, now: nat, total: seq<Timer<T>>, last: Timer<T>)
    requires Sound(r, now) && Tracks(r, now, total, last) && Forward(c, now) && !c.FireTimer? && !Touches(c, last.id)
    ensures Tracks(ExecRun(r, c), now, total, last)
  {
    hide QueueOk, Fits, OfId, Ticks, Final, Calm, Exec, Touches;
    if last.interval == 0 && last.expire <= now && Calm(r, last.id, now, total) {
      ExecCalm(r, c, last.id, now, total);
    } else {
      var t: Timer<T> :| Owes(r, t, now, total, last);
      ExecSpares(r.queue, c, t);
      assert Owes(ExecRun(r, c), t, now, total, last);
    }
  }

  /** When nothing is due any more, everything owed has been fired. */
  lemma TrackedEnd<T(!new)>(r: Run<T>, now: nat, total: seq<Timer<T>>, last: Timer<T>)
    requires Tracks(r, now, total, last) && forall t :: t in r.queue.timers ==> t.expire > now
    ensures OfId(r.log, last.id) == total
    ensures last.interval > 0 || last.expire > now ==> last in r.queue.timers
  {
    hide OfId, Ticks, Final;
    if exists t: Timer<T> :: Owes(r, t, now, total, last) {
      var t: Timer<T> :| Owes(r, t, now, total, last);
      TicksEdge(t, now);
      assert OfId(r.log, t.id) + [] == OfId(r.log, t.id);
    }
  }

  /** A timer the callbacks do not cancel fires once for each time it was due, in order: a one-shot timer once, a
      periodic one every interval, and is then queued for its first due time after now. */
  lemma FiresWhenDue<T(!new)>(r: Run<T>, now: nat, script: Script<T>, t: Timer<T>)
    requires Sound(r, now) && ForwardOnly(script, now) && now < U64
    requires t in r.queue.timers && Spares(script, t.id)
    ensures OfId(TimeOut(r, now, script).log, t.id) == OfId(r.log, t.id) + Ticks(t, now)
    ensures t.interval > 0 ==> t.(expire := Final(t.expire, t.interval, now)) in TimeOut(r, now, script).queue.timers
    ensures t.interval == 0 && t.expire > now ==> t in TimeOut(r, now, script).queue.timers
  {
    hide Sound, Forward, ExecRun, TimeOut, OfId, Ticks, Final, Touches;
    var total := OfId(r.log, t.id) + Ticks(t, now);
    var last := if t.interval > 0 then t.(expire := Final(t.expire, t.interval, now)) else t;
    var p, allowed := (s: Run<T>) => Tracks(s, now, total, last), (c: Command<T>) => !Touches(c, t.id);
    assert Owes(r, t, now, total, last);
    assert p(r);
    hide Tracks;
    forall s | p(s) && Sound(s, now) && Due(s.queue, now) ensures p(Pop(s)) {
      PopTracks(s, now, total, last);
    }
    forall s, c | p(s) && allowed(c) && Sound(s, now) && Forward(c, now) && !c.FireTimer? ensures p(ExecRun(s, c)) {
      ExecTracks(s, c, now, total, last);
    }
    TimeOutInduction(r, now, script, p, allowed);
    TrackedEnd(TimeOut(r, now, script), now, total, last);
  }
}
