/** When catching up works: exactly when no due periodic timer is carried past the 64-bit range. */
module TimerLimits {
  import opened Timers
  import opened TimerRuns

  const U32: nat := 0x1_0000_0000

  /** The widths the fields have: a 64-bit expiry and a 32-bit interval. */
  ghost predicate Typed<T>(q: Queue<T>) {
    forall t :: t in q.timers ==> t.expire < U64 && t.interval < U32
  }

  /** The queue after at most k firings whose callbacks do nothing. */
  function FireTimes<T>(q: Queue<T>, now: nat, k: nat): Queue<T>
    decreases k
  {
    if k == 0 || !Due(q, now) then q else FireTimes(Taken(q), now, k - 1)
  }

  function Silent<T>(): Script<T> {
    (log: seq<Timer<T>>, q: Queue<T>) => []
  }

  lemma TakenTyped<T>(q: Queue<T>)
    requires QueueOk(q) && q.timers != [] && Typed(q)
    ensures Typed(Taken(q))
  {
    hide QueueOk, Taken;
    TakenOk(q);
    assert q.timers[0] in q.timers;
  }

  lemma {:induction false} NeedIsSum<T>(ts: seq<Timer<T>>, now: nat)
    ensures (forall t :: t in ts ==> t.expire > now) <==> Need(ts, now) == 0
    decreases |ts|
  {
    if ts != [] {
      NeedIsSum(ts[1..], now);
      assert ts == [ts[0]] + ts[1..];
    }
  }

  lemma QuietIffNothingOwed<T>(q: Queue<T>, now: nat)
    requires QueueOk(q)
    ensures Due(q, now) <==> Need(q.timers, now) > 0
  {
    hide QueueOk, Need;
    NeedIsSum(q.timers, now);
    if Due(q, now) {
      assert q.timers[0] in q.timers;
    } else {
      QuietAfter(q, now);
    }
  }

  lemma RenewedPlain<T>(t: Timer<T>)
    ensures t.expire + t.interval < U64 ==> Renewed(t) == t.(expire := t.expire + t.interval)
    ensures U64 <= t.expire + t.interval < 2 * U64 ==> Renewed(t) == t.(expire := t.expire + t.interval - U64)
  {
  }

  /** A timer that wraps round owes nothing more until it does, and something afterwards. */
  lemma WrapOwes<T>(t: Timer<T>, now: nat)
    requires t.expire <= now < U64 && 0 < t.interval < U64 && U64 <= t.expire + t.interval
    ensures Count(t.expire, t.interval, now) == 1
    ensures Count(Renewed(t).expire, t.interval, now) >= 1
  {
    hide Renewed;
    RenewedPlain(t);
  }

  lemma MisfitNext<T>(t: Timer<T>, now: nat)
    requires now < U64 && !FitsTimer(t, now) && t.expire + t.interval < U64
    ensures !FitsTimer(Renewed(t), now)
  {
    hide Renewed;
    RenewedPlain(t);
    assert Final(t.expire, t.interval, now) == Final(t.expire + t.interval, t.interval, now);
  }

  /** One firing pays back at most one; it pays back nothing when it wraps round. */
  lemma TakenOwes<T>(q: Queue<T>, now: nat)
    requires QueueOk(q) && Due(q, now) && Typed(q) && now < U64
    ensures Need(Taken(q).timers, now) >= Need(q.timers, now) - 1
    ensures q.timers[0].interval > 0 && q.timers[0].expire + q.timers[0].interval >= U64 ==>
      Need(Taken(q).timers, now) >= Need(q.timers, now)
  {
    hide QueueOk, Insert, Renewed;
    TakenOk(q);
    var t := q.timers[0];
    assert t in q.timers;
    if t.interval > 0 {
      NeedInsert(q.timers[1..], Renewed(t), now);
      if t.expire + t.interval >= U64 {
        WrapOwes(t, now);
      } else {
        RenewedPlain(t);
      }
    }
  }

  lemma MisfitPeriodic<T>(t: Timer<T>, now: nat)
    requires !FitsTimer(t, now)
    ensures t.interval > 0
  {
  }

  lemma MisfitStays<T>(q: Queue<T>, now: nat)
    requires QueueOk(q) && Due(q, now) && Typed(q) && now < U64 && !Fits(q, now)
    ensures !Fits(Taken(q), now) || Need(Taken(q).timers, now) >= Need(q.timers, now)
  {
    hide QueueOk, Taken, Need, FitsTimer, Renewed;
    TakenOwes(q, now);
    TakenOk(q);
    var head := q.timers[0];
    var t :| t in q.timers && !FitsTimer(t, now);
    HeadApart(q);
    assert q.timers == [head] + q.timers[1..];
    if t.id != head.id {
      assert t in Taken(q).timers;
    } else if t.expire + t.interval < U64 {
      assert t == head;
      MisfitPeriodic(t, now);
      MisfitNext(t, now);
    } else {
      MisfitPeriodic(t, now);
    }
  }

  /** Each firing pays back at most one. */
  lemma {:induction false} FiringOwes<T>(q: Queue<T>, now: nat, k: nat)
    requires QueueOk(q) && Typed(q) && now < U64
    ensures QueueOk(FireTimes(q, now, k))
    ensures Need(FireTimes(q, now, k).timers, now) >= Need(q.timers, now) - k
    decreases k
  {
    hide QueueOk, Typed, Need, Taken;
    if k > 0 && Due(q, now) {
      TakenOk(q);
      TakenTyped(q);
      TakenOwes(q, now);
      FiringOwes(Taken(q), now, k - 1);
    }
  }

  /** A timer that does not fit keeps the loop going beyond every firing that was owed. */
  lemma {:induction false} MisfitStillDue<T>(q: Queue<T>, now: nat, k: nat)
    requires QueueOk(q) && Typed(q) && now < U64 && !Fits(q, now) && k <= Need(q.timers, now)
    ensures Due(FireTimes(q, now, k), now)
    decreases k
  {
    hide QueueOk, Typed, Fits, Need, Taken;
    MisfitDue(q, now);
    if k > 0 {
      TakenOk(q);
      TakenTyped(q);
      TakenOwes(q, now);
      MisfitStays(q, now);
      if Fits(Taken(q), now) {
        FiringOwes(Taken(q), now, k - 1);
        QuietIffNothingOwed(FireTimes(Taken(q), now, k - 1), now);
      } else {
        MisfitStillDue(Taken(q), now, k - 1);
      }
    }
  }

  lemma MisfitDue<T>(q: Queue<T>, now: nat)
    requires QueueOk(q) && !Fits(q, now)
    ensures Due(q, now)
  {
    hide QueueOk;
    if !Due(q, now) {
      QuietAfter(q, now);
    }
  }

  lemma {:induction false} FitQuiet<T>(q: Queue<T>, now: nat)
    requires QueueOk(q) && now < U64 && Fits(q, now)
    ensures !Due(FireTimes(q, now, Need(q.timers, now)), now)
    decreases Need(q.timers, now)
  {
    hide QueueOk, Fits, Need, Taken;
    QuietIffNothingOwed(q, now);
    if Due(q, now) {
      TakenOk(q);
      TakenNeeds(q, now);
      FitQuiet(Taken(q), now);
    }
  }

  lemma {:induction false} SilentTurns<T(!new)>(r: Run<T>, now: nat, n: nat)
    requires QueueOk(r.queue)
    ensures Turns(r, now, Silent(), n).queue == FireTimes(r.queue, now, n)
    decreases n
  {
    hide QueueOk, Taken;
    if n > 0 && Due(r.queue, now) {
      TakenOk(r.queue);
      SilentTurns(Fire(r, Silent()), now, n - 1);
    }
  }

  /** With callbacks that do nothing, firing every timer once for each time it was due ends the loop exactly when no
      due periodic timer passes the 64-bit range; otherwise the loop goes on. */
  lemma CatchesUpIffFits<T(!new)>(r: Run<T>, now: nat)
    requires QueueOk(r.queue) && Typed(r.queue) && now < U64
    ensures EndsBy(r, now, Silent(), Need(r.queue.timers, now)) <==> Fits(r.queue, now)
  {
    hide QueueOk, Typed, Fits, Need, Taken, FireTimes, Turns;
    SilentTurns(r, now, Need(r.queue.timers, now));
    if Fits(r.queue, now) {
      FitQuiet(r.queue, now);
    } else {
      MisfitStillDue(r.queue, now, Need(r.queue.timers, now));
    }
  }

  /** Processing with silent callbacks is firing what is owed: the count returned is the sum of what each timer
      owes. */
  lemma {:induction false} SilentTimeOut<T(!new)>(r: Run<T>, now: nat)
    requires QueueOk(r.queue) && Fits(r.queue, now) && now < U64
    ensures ForwardOnly(Silent<T>(), now)
    ensures TimeOut(r, now, Silent()).queue == FireTimes(r.queue, now, Need(r.queue.timers, now))
    ensures |TimeOut(r, now, Silent()).log| == |r.log| + Need(r.queue.timers, now)
    decreases Need(r.queue.timers, now)
  {
    hide QueueOk, Fits, Need, Taken;
    QuietIffNothingOwed(r.queue, now);
    if Due(r.queue, now) {
      TakenOk(r.queue);
      TakenNeeds(r.queue, now);
      SilentTimeOut(Fire(r, Silent()), now);
    }
  }

  /** A periodic timer due one tick before the end of the 64-bit range does not fit: after the one firing it owes it has
      wrapped round and is due again. */
  lemma WrapsAtTheEnd()
    ensures var q := Queue([Timer(1, 5, U64 - 2, 0)], map[1 := U64 - 2], 1);
      && QueueOk(q) && Typed(q) && Need(q.timers, U64 - 1) == 1
      && !Fits(q, U64 - 1)
      && !EndsBy(Run(q, []), U64 - 1, Silent(), 1)
      && Turns(Run(q, []), U64 - 1, Silent(), 1).queue.timers == [Timer(1, 5, 3, 0)]
  {
    var t := Timer(1, 5, U64 - 2, 0);
    var q := Queue([t], map[1 := U64 - 2], 1);
    assert t in q.timers && q.timers[1..] == [];
    assert Final(U64 - 2, 5, U64 - 1) == Final(U64 + 3, 5, U64 - 1) == U64 + 3;
    assert Count(U64 - 2, 5, U64 - 1) == 1 + Count(U64 + 3, 5, U64 - 1) == 1;
    assert !FitsTimer(t, U64 - 1);
    assert Taken(q).timers == [Timer(1, 5, 3, 0)];
    assert Turns(Run(q, []), U64 - 1, Silent(), 1) == Turns(Fire(Run(q, []), Silent()), U64 - 1, Silent(), 0);
  }
}
