/** Processing the calls that are out of time, with callbacks that make and answer calls; and what goes wrong with
    answers that carry the code reserved for time-outs or with too many timers. */
module ContextRuns {
  import opened Timers
  import opened TimerRuns
  import opened TimerLimits
  import opened ContextCalls
  import TimerEffects

  /** What the callback of each call woken in turn does. */
  type Callbacks = nat -> seq<Event>

  function Turn(s: Calls, now: nat, es: seq<Event>): Calls
    requires s.queue.timers != []
  {
    RunAll(FireFirst(s, now), es)
  }

  /** The loop, for at most n turns, with the turn reached. */
  function Turns(s: Calls, turn: nat, now: nat, script: Callbacks, n: nat): (Calls, nat)
    decreases n
  {
    if n == 0 || !Due(s.queue, now) then (s, turn) else Turns(Turn(s, now, script(turn)), turn + 1, now, script, n - 1)
  }

  /** The loop ends within n turns. */
  predicate EndsBy(s: Calls, turn: nat, now: nat, script: Callbacks, n: nat) {
    !Due(Turns(s, turn, now, script, n).0.queue, now)
  }

  /** The loop written out as a run: each firing, followed by what its callback does. */
  function Unrolled(s: Calls, turn: nat, now: nat, script: Callbacks, n: nat): seq<Event>
    decreases n
  {
    if n == 0 || !Due(s.queue, now) then []
    else [Firing(now)] + script(turn) + Unrolled(Turn(s, now, script(turn)), turn + 1, now, script, n - 1)
  }

  lemma {:induction false} RunAllAppend(s: Calls, es: seq<Event>, fs: seq<Event>)
    ensures RunAll(s, es + fs) == RunAll(RunAll(s, es), fs)
    decreases |es|
  {
    if es == [] {
      assert es + fs == fs;
    } else {
      assert (es + fs)[1..] == es[1..] + fs;
      RunAllAppend(Step(s, es[0]), es[1..], fs);
    }
  }

  /** So what holds over every run holds across ProcTimeOut, with any callbacks. */
  lemma {:induction false} LoopIsRun(s: Calls, turn: nat, now: nat, script: Callbacks, n: nat)
    ensures Turns(s, turn, now, script, n).0 == RunAll(s, Unrolled(s, turn, now, script, n))
    decreases n
  {
    hide Step, FireFirst;
    if n > 0 && Due(s.queue, now) {
      var es := script(turn);
      var r := Turn(s, now, es);
      var rest := Unrolled(r, turn + 1, now, script, n - 1);
      LoopIsRun(r, turn + 1, now, script, n - 1);
      FiringStep(s, now);
      assert ([Firing(now)] + es)[1..] == es;
      assert RunAll(s, [Firing(now)] + es) == r;
      RunAllAppend(s, [Firing(now)] + es, rest);
    }
  }

  lemma FiringStep(s: Calls, now: nat)
    requires Due(s.queue, now)
    ensures Step(s, Firing(now)) == FireFirst(s, now)
  {
  }

  // ------------------------------------------------------------ what ProcTimeOut guarantees

  lemma NoneLate(s: Calls, now: nat)
    requires Inv(s) && Few(s) && !Due(s.queue, now)
    ensures forall sid :: sid in s.cache ==> s.cache[sid].expire > now
  {
    hide QueueOk, Numbered, Accounted, Settled;
    QuietAfter(s.queue, now);
    forall sid | sid in s.cache ensures s.cache[sid].expire > now {
      assert OwnTimer(s.cache[sid]) in s.queue.timers;
    }
  }

  /** After ProcTimeOut no cached call has an expiry up to now, for any callbacks with which it ends and fewer than 2^32
      timers: they may make late calls, answer with any code and process timers themselves. */
  lemma NoneLateAfter(s: Calls, turn: nat, now: nat, script: Callbacks, n: nat)
    requires Inv(s) && EndsBy(s, turn, now, script, n)
    requires s.queue.baseId + |Unrolled(s, turn, now, script, n)| < U32
    ensures var r := Turns(s, turn, now, script, n).0;
      Inv(r) && forall sid :: sid in r.cache ==> r.cache[sid].expire > now
  {
    hide Inv, Turns, Unrolled, RunAll;
    LoopIsRun(s, turn, now, script, n);
    RunKeeps(s, Unrolled(s, turn, now, script, n));
    NoneLate(Turns(s, turn, now, script, n).0, now);
  }

  // ------------------------------------------------------------ when ProcTimeOut ends

  /** Callbacks make no call that is already late. */
  ghost predicate ForwardOnly(script: Callbacks, now: nat) {
    forall turn, e :: e in script(turn) ==> Forward(e, now)
  }

  predicate Forward(e: Event, now: nat) {
    e.Pending? ==> (e.clock + e.timeout) % U64 > now
  }

  /** Every timer fires once; no step of the controller changes that. */
  ghost predicate OneShot(q: Queue<nat>) {
    QueueOk(q) && forall t :: t in q.timers ==> t.interval == 0
  }

  lemma AddOneShot(q: Queue<nat>, task: nat, expire: nat)
    requires OneShot(q)
    ensures OneShot(Add(q, task, expire, 0).0)
  {
    hide QueueOk, Insert;
    AddOk(q, task, expire, 0);
  }

  lemma CancelOneShot(q: Queue<nat>, id: nat)
    requires OneShot(q)
    ensures OneShot(Cancel(q, id).0)
  {
    hide QueueOk, Cancel;
    CancelOk(q, id);
  }

  /** Firing a timer that fires once pays back one firing if it was due. */
  lemma TakenOneShot(q: Queue<nat>, now: nat)
    requires OneShot(q) && q.timers != []
    ensures OneShot(Taken(q)) && Need(Taken(q).timers, now) <= Need(q.timers, now)
    ensures Due(q, now) ==> Need(Taken(q).timers, now) < Need(q.timers, now)
  {
    hide QueueOk, Insert;
    TakenOk(q);
    assert q.timers[0] in q.timers;
  }

  lemma StepForward(s: Calls, e: Event, now: nat)
    requires OneShot(s.queue) && Forward(e, now)
    ensures OneShot(Step(s, e).queue) && Need(Step(s, e).queue.timers, now) <= Need(s.queue.timers, now)
  {
    hide OneShot, Add, Cancel, Need, Taken;
    match e
    case Pending(seqId, timeout, clock, generated, hasContext) =>
      if hasContext {
        var sid := if seqId == 0 then generated else seqId;
        var expire := (clock + timeout) % U64;
        var (q, id) := Add(s.queue, sid, expire, 0);
        AddOneShot(s.queue, sid, expire);
        CancelOneShot(q, id);
        ExecNeedsOne(s.queue, AddTimer(sid, expire, 0), now);
        ExecNeedsOne(q, CancelTimer(id), now);
      }
    case Answer(seqId, ret, at) =>
      if seqId in s.cache {
        CancelOneShot(s.queue, StoredTimer(s.cache[seqId]));
        ExecNeedsOne(s.queue, CancelTimer(StoredTimer(s.cache[seqId])), now);
      }
    case Firing(at) =>
      if Due(s.queue, at) {
        TakenOneShot(s.queue, now);
      }
  }

  lemma {:induction false} RunForward(s: Calls, es: seq<Event>, now: nat)
    requires OneShot(s.queue) && forall e :: e in es ==> Forward(e, now)
    ensures OneShot(RunAll(s, es).queue) && Need(RunAll(s, es).queue.timers, now) <= Need(s.queue.timers, now)
    decreases |es|
  {
    hide OneShot, Step, Forward, Need;
    if es != [] {
      StepForward(s, es[0], now);
      RunForward(Step(s, es[0]), es[1..], now);
    }
  }

  /** ProcTimeOut ends, within as many turns as calls are late, if no callback makes a call that is already late. */
  lemma {:induction false} EndsWhenPaid(s: Calls, turn: nat, now: nat, script: Callbacks, n: nat)
    requires OneShot(s.queue) && ForwardOnly(script, now) && Need(s.queue.timers, now) <= n
    ensures EndsBy(s, turn, now, script, n)
    decreases n
  {
    hide OneShot, Forward, Need, RunAll, Taken;
    if Due(s.queue, now) {
      var es := script(turn);
      FiringStep(s, now);
      TakenOneShot(s.queue, now);
      RunForward(FireFirst(s, now), es, now);
      EndsWhenPaid(Turn(s, now, es), turn + 1, now, script, n - 1);
    }
  }

  lemma InvOneShot(s: Calls)
    requires Inv(s)
    ensures OneShot(s.queue)
  {
    hide QueueOk;
  }

  /** So it ends and leaves no late call, for callbacks that make no late call but answer with any code and process
      timers themselves. */
  lemma ProcTimeOut(s: Calls, now: nat, script: Callbacks)
    requires Inv(s) && ForwardOnly(script, now)
    requires s.queue.baseId + |Unrolled(s, 0, now, script, Need(s.queue.timers, now))| < U32
    ensures var n := Need(s.queue.timers, now);
      && EndsBy(s, 0, now, script, n)
      && Inv(Turns(s, 0, now, script, n).0)
      && forall sid :: sid in Turns(s, 0, now, script, n).0.cache ==> Turns(s, 0, now, script, n).0.cache[sid].expire > now
  {
    hide Inv, OneShot, Need, Turns, Unrolled;
    InvOneShot(s);
    EndsWhenPaid(s, 0, now, script, Need(s.queue.timers, now));
    NoneLateAfter(s, 0, now, script, Need(s.queue.timers, now));
  }

  // ------------------------------------------------------------ what a turn is, and the count

  /** A turn is the firing of the first timer followed by what its callback does, one event after the other. */
  lemma OneTurn(s: Calls, turn: nat, now: nat, script: Callbacks)
    requires Due(s.queue, now)
    ensures Turns(s, turn, now, script, 1) == (RunAll(Step(s, Firing(now)), script(turn)), turn + 1)
  {
    hide FireFirst;
    FiringStep(s, now);
    var r := Turn(s, now, script(turn));
    assert Turns(r, turn + 1, now, script, 0) == (r, turn + 1);
  }

  lemma RunAllStep(s: Calls, es: seq<Event>, e: Event)
    ensures RunAll(s, []) == s
    ensures RunAll(s, es + [e]) == Step(RunAll(s, es), e)
  {
    hide Step;
    var r := RunAll(s, es);
    RunAllAppend(s, es, [e]);
    assert RunAll(r, [e]) == RunAll(Step(r, e), []);
  }

  /** The same timers, in whatever form the queue holds them. */
  ghost predicate SameTimers(ts: seq<Timer<nat>>, us: seq<Timer<nat>>) {
    (forall t :: t in ts ==> t in us) && (forall t :: t in us ==> t in ts)
  }

  /** What an event promises about the calls before and after it. */
  ghost predicate Obeyed(s: Calls, e: Event, r: Calls) {
    match e
    case Pending(seqId, timeout, clock, generated, hasContext) =>
      var sid := if seqId == 0 then generated else seqId;
      && r.ended == s.ended
      && (if hasContext && sid !in s.cache then
            var c := Call(sid, s.queue.baseId + 1, (clock + timeout) % U64);
            && r.issued == s.issued + [c] && r.cache == s.cache[sid := c]
            && Joined(r.queue.timers, s.queue.timers, OwnTimer(c))
          else r.issued == s.issued && r.cache == s.cache && SameTimers(r.queue.timers, s.queue.timers))
    case Answer(seqId, ret, now) =>
      && r.issued == s.issued && r.cache == s.cache - {seqId}
      && r.ended == s.ended + (if seqId in s.cache then [Outcome(s.cache[seqId], ret, now)] else [])
      && (if seqId in s.cache && ret != RPC_TIME_OUT then
            TimerEffects.Without(r.queue.timers, s.queue.timers, s.cache[seqId].timer % U32)
          else r.queue == s.queue)
    case Firing(now) =>
      if s.queue.timers == [] || s.queue.timers[0].expire > now then r == s
      else
        var sid := s.queue.timers[0].task;
        && r.queue == Taken(s.queue) && r.issued == s.issued && r.cache == s.cache - {sid}
        && r.ended == s.ended + (if sid in s.cache then [Outcome(s.cache[sid], RPC_TIME_OUT, now)] else [])
  }

  /** The states passed through while events happen one after the other. */
  ghost predicate Trail(ss: seq<Calls>, es: seq<Event>) {
    |ss| == |es| + 1 && forall i :: 0 <= i < |es| ==> Obeyed(ss[i], es[i], ss[i + 1])
  }

  lemma StepObeyed(s: Calls, e: Event)
    requires Inv(s) && s.queue.baseId + 1 < U64
    ensures Obeyed(s, e, Step(s, e))
  {
    hide Inv, Joined, Pend, FireFirst, Cancel, Taken;
    match e
    case Pending(seqId, timeout, clock, generated, hasContext) =>
      PendKeeps(s, seqId, timeout, clock, generated, hasContext);
    case Answer(seqId, ret, now) =>
      AnswerKeeps(s, seqId, ret, now);
      if seqId in s.cache {
        InvParts(s);
        CancelOk(s.queue, StoredTimer(s.cache[seqId]));
      } else {
        assert s.cache - {seqId} == s.cache;
      }
    case Firing(now) =>
      if Due(s.queue, now) {
        FiringKeeps(s, now);
      }
  }

  lemma {:induction false} TrailOf(s: Calls, es: seq<Event>) returns (ss: seq<Calls>)
    requires Inv(s) && s.queue.baseId + |es| < U64
    ensures Trail(ss, es) && ss[0] == s && ss[|es|] == RunAll(s, es)
    decreases |es|
  {
    hide Inv, Obeyed, Step;
    if es == [] {
      ss := [s];
    } else {
      StepObeyed(s, es[0]);
      StepKeeps(s, es[0]);
      var rest := TrailOf(Step(s, es[0]), es[1..]);
      ss := [s] + rest;
      forall i | 0 <= i < |es| ensures Obeyed(ss[i], es[i], ss[i + 1]) {
        if i > 0 {
          assert Obeyed(rest[i - 1], es[1..][i - 1], rest[i]);
        }
      }
    }
  }

  /** In a turn the first timer fires and wakes its call, and then everything its callback does takes place, in order and
      nothing else: its calls are accepted or refused, its answers end their calls, and so on. */
  lemma CallbackIsObeyed(s: Calls, turn: nat, now: nat, script: Callbacks)
    requires Inv(s) && Due(s.queue, now) && s.queue.baseId + 1 + |script(turn)| < U64
    ensures var es := [Firing(now)] + script(turn);
      exists ss :: Trail(ss, es) && ss[0] == s && ss[|es|] == Turns(s, turn, now, script, 1).0
  {
    hide Inv, Obeyed, Step;
    var es := [Firing(now)] + script(turn);
    var ss := TrailOf(s, es);
    OneTurn(s, turn, now, script);
    assert es[0] == Firing(now) && es[1..] == script(turn);
    assert ss[|es|] == Turns(s, turn, now, script, 1).0;
  }

  /** How many calls were timed out. */
  function TimeOuts(os: seq<Outcome>): nat {
    if os == [] then 0
    else TimeOuts(os[..|os| - 1]) + if os[|os| - 1].ret == RPC_TIME_OUT then 1 else 0
  }

  lemma TimeOutsSnoc(os: seq<Outcome>, o: Outcome)
    ensures TimeOuts(os + [o]) == TimeOuts(os) + if o.ret == RPC_TIME_OUT then 1 else 0
  {
    assert (os + [o])[..|os|] == os;
  }

  lemma {:induction false} PlainTimeOuts(s: Calls, es: seq<Event>)
    requires forall e :: e in es ==> !e.Firing? && Honest(e)
    ensures TimeOuts(RunAll(s, es).ended) == TimeOuts(s.ended)
    decreases |es|
  {
    hide Step, TimeOuts, Honest;
    if es != [] {
      StepTimeOuts(s, es[0]);
      PlainTimeOuts(Step(s, es[0]), es[1..]);
    }
  }

  lemma StepTimeOuts(s: Calls, e: Event)
    requires !e.Firing? && Honest(e)
    ensures TimeOuts(Step(s, e).ended) == TimeOuts(s.ended)
  {
    hide Add, Cancel, TimeOuts;
    if e.Answer? && e.seqId in s.cache {
      TimeOutsSnoc(s.ended, Outcome(s.cache[e.seqId], e.ret, e.now));
    }
  }

  /** If no answer carries the code reserved for time-outs and callbacks process no timers themselves, the count is the
      number of calls timed out. */
  lemma {:induction false} TurnsAreTimeOuts(s: Calls, turn: nat, now: nat, script: Callbacks, n: nat)
    requires Inv(s) && Strict(s) && forall i, e :: e in script(i) ==> !e.Firing? && Honest(e)
    requires s.queue.baseId + |Unrolled(s, turn, now, script, n)| < U32
    ensures var (r, last) := Turns(s, turn, now, script, n);
      TimeOuts(r.ended) - TimeOuts(s.ended) == last - turn
    decreases n
  {
    hide Inv, Strict, FireFirst, RunAll, TimeOuts, Honest;
    if n > 0 && Due(s.queue, now) {
      var t, r := s.queue.timers[0], FireFirst(s, now);
      FiringKeeps(s, now);
      TimeOutsSnoc(s.ended, Outcome(Call(t.task, t.id, t.expire), RPC_TIME_OUT, now));
      PlainTimeOuts(r, script(turn));
      RunKeeps(r, script(turn));
      TurnsAreTimeOuts(Turn(s, now, script(turn)), turn + 1, now, script, n - 1);
    }
  }

  // ------------------------------------------------------------ outside the conditions

  /** An answer removes the call's own timer exactly when the code is not the time-out code and the timer number
      fits the 32 bits the context keeps of it. */
  lemma AnswerCancelsOwnTimerIff(s: Calls, sid: nat, ret: int, now: nat)
    requires QueueOk(s.queue) && sid in s.cache && OwnTimer(s.cache[sid]) in s.queue.timers
    ensures OwnTimer(s.cache[sid]) !in Awake(s, sid, ret, now).queue.timers
      <==> ret != RPC_TIME_OUT && s.cache[sid].timer < U32
  {
    hide QueueOk, Cancel;
    CancelOk(s.queue, StoredTimer(s.cache[sid]));
  }

  /** Past 2^32 timers an answer removes the timer of another call, if that call's number is the one kept. */
  lemma AnswerCancelsAnother(s: Calls, sid: nat, ret: int, now: nat, other: Timer<nat>)
    requires QueueOk(s.queue) && sid in s.cache && ret != RPC_TIME_OUT
    requires other in s.queue.timers
    ensures other !in Awake(s, sid, ret, now).queue.timers <==> other.id == s.cache[sid].timer % U32
  {
    hide QueueOk, Cancel;
    CancelOk(s.queue, StoredTimer(s.cache[sid]));
  }

  /** An answer carrying the time-out code leaves the call's timer behind; when the call number is used again the old
      timer times the new call out before its expiry. */
  lemma TimeOutCodeFromNetwork()
    ensures var es := [Pending(7, 10, 0, 0, true), Answer(7, RPC_TIME_OUT, 1), Pending(7, 100, 2, 0, true), Firing(10)];
      RunAll(INITIAL, es).ended == [Outcome(Call(7, 1, 10), RPC_TIME_OUT, 1), Outcome(Call(7, 2, 102), RPC_TIME_OUT, 10)]
  {
    var es := [Pending(7, 10, 0, 0, true), Answer(7, RPC_TIME_OUT, 1), Pending(7, 100, 2, 0, true), Firing(10)];
    var first, second := Call(7, 1, 10), Call(7, 2, 102);
    var s1 := Calls(Queue([OwnTimer(first)], map[1 := 10], 1), map[7 := first], [first], []);
    assert Step(INITIAL, es[0]) == s1;
    var s2 := Calls(s1.queue, map[], [first], [Outcome(first, RPC_TIME_OUT, 1)]);
    assert Step(s1, es[1]) == s2;
    var s3 := Calls(Queue([OwnTimer(first), OwnTimer(second)], map[1 := 10, 2 := 102], 2), map[7 := second],
                    [first, second], s2.ended);
    assert Insert([OwnTimer(first)], OwnTimer(second)) == [OwnTimer(first)] + Insert([], OwnTimer(second));
    assert Step(s2, es[2]) == s3;
    assert Step(s3, es[3]).ended == s2.ended + [Outcome(second, RPC_TIME_OUT, 10)];
    assert es[1..] == [es[1], es[2], es[3]] && es[1..][1..] == [es[2], es[3]] && [es[2], es[3]][1..] == [es[3]];
    assert RunAll(INITIAL, es) == RunAll(s1, es[1..]);
    assert RunAll(s1, es[1..]) == RunAll(s2, [es[2], es[3]]);
    assert RunAll(s2, [es[2], es[3]]) == RunAll(s3, [es[3]]);
    assert RunAll(s3, [es[3]]) == Step(s3, es[3]);
  }

  /** The count is the number of turns after which some timer is still due, whatever happens in between. */
  lemma {:induction false} CountIsTurns(s: Calls, turn: nat, now: nat, script: Callbacks, n: nat, k: nat)
    requires k < n
    ensures turn <= Turns(s, turn, now, script, n).1 <= turn + n
    ensures Due(Turns(s, turn, now, script, k).0.queue, now) <==> turn + k < Turns(s, turn, now, script, n).1
    decreases n
  {
    hide Turn;
    if Due(s.queue, now) {
      var r := Turn(s, now, script(turn));
      if k > 0 {
        CountIsTurns(r, turn + 1, now, script, n - 1, k - 1);
      } else if n > 1 {
        CountIsTurns(r, turn + 1, now, script, n - 1, 0);
      } else {
        assert Turns(r, turn + 1, now, script, 0) == (r, turn + 1);
      }
    }
  }
}
