/** What becomes of each call of the lock-free queue: which access comes next, when a push ends without a claim, and
    what a push does after a failed compare-and-swap. */
module LockFreePaths {
  import opened LockFreeQueue
  import opened LockFreeProofs
  import opened LockFreeTheorems

  /** The producer whose event this is, if it is one of a producer. */
  predicate Of<T>(e: Event<T>, p: nat) {
    && (e.StartPush? || e.LoadTail? || e.FullLoadsTail? || e.FullLoadsHead? || e.Swap? || e.WriteBegin? || e.WriteEnd?
        || e.StoreFlag?)
    && e.p == p
  }

  /** A compare-and-swap that claims nothing. */
  predicate Fails<T>(s: State<T>, e: Event<T>)
    requires Shaped(s) && Enabled(s, e)
  {
    e.Swap? && |Step(s, e).claims| == |s.claims|
  }

  /** The history of one producer: how many compare-and-swaps of its latest push have failed, and what that push was
      given. */
  datatype Push<T> = Push(failures: nat, data: T)

  function Seen<T>(s: State<T>, e: Event<T>, p: nat, h: Push<T>): Push<T>
    requires Shaped(s) && Enabled(s, e)
  {
    if !Of(e, p) then h
    else if e.StartPush? then Push(0, e.data)
    else if Fails(s, e) then h.(failures := h.failures + 1)
    else h
  }

  function History<T>(s: State<T>, es: seq<Event<T>>, p: nat, h: Push<T>): Push<T>
    requires Possible(s, es)
    decreases |es|
  {
    if es == [] then h else History(Step(s, es[0]), es[1..], p, Seen(s, es[0], p, h))
  }

  /** The producer's own record agrees with its history. */
  ghost predicate Agrees<T>(s: State<T>, p: nat, h: Push<T>)
    requires Shaped(s)
  {
    p < |s.producers| && !s.producers[p].Idle? ==>
      var r := s.producers[p];
      && r.data == h.data
      && (r.Trying? ==> r.tries == h.failures <= MAX_TRY_TIMES)
      && (r.Loaded? || r.TailSeen? || r.HeadSeen? ==> r.tries == h.failures < MAX_TRY_TIMES)
      && (r.Swapping? ==> r.tries == h.failures + 1 <= MAX_TRY_TIMES)
  }

  /** A compare-and-swap claims the next position for the producer's value exactly when the tail is the one that was
      loaded and it does not fail spuriously. */
  lemma SwapAnswer<T>(s: State<T>, e: Event<T>)
    requires Shaped(s) && Enabled(s, e) && e.Swap?
    ensures Fails(s, e) <==> s.tail != s.producers[e.p].oldTail || e.spurious
    ensures Fails(s, e) ==> Step(s, e).claims == s.claims && Step(s, e).tail == s.tail
    ensures !Fails(s, e) ==> Step(s, e).claims == s.claims + [Claim(e.p, s.producers[e.p].data)]
  {
  }

  /** An event of another producer or of the consumer leaves a producer where it is. */
  lemma OthersLeave<T>(s: State<T>, e: Event<T>, p: nat)
    requires Shaped(s) && Enabled(s, e) && !Of(e, p) && p < |s.producers|
    ensures Shaped(Step(s, e)) && |Step(s, e).producers| == |s.producers|
    ensures Step(s, e).producers[p] == s.producers[p]
  {
  }

  lemma StepShaped<T>(s: State<T>, e: Event<T>)
    requires Shaped(s) && Enabled(s, e)
    ensures Shaped(Step(s, e)) && |Step(s, e).producers| == |s.producers| && |Step(s, e).flag| == |s.flag|
  {
  }

  lemma StepAgrees<T>(s: State<T>, e: Event<T>, p: nat, h: Push<T>)
    requires Shaped(s) && Enabled(s, e) && Agrees(s, p, h)
    ensures Shaped(Step(s, e)) && Agrees(Step(s, e), p, Seen(s, e, p, h))
  {
    hide Slot;
    StepShaped(s, e);
    if p < |s.producers| && !Of(e, p) {
      OthersLeave(s, e, p);
    } else if e.Swap? {
      SwapAnswer(s, e);
    }
  }

  lemma {:induction false} RunAgrees<T>(s: State<T>, es: seq<Event<T>>, p: nat, h: Push<T>)
    requires Possible(s, es) && Agrees(s, p, h)
    ensures Shaped(After(s, es)) && Agrees(After(s, es), p, History(s, es, p, h))
    decreases |es|
  {
    hide Shaped, Enabled, Step, Seen, Agrees;
    if es != [] {
      StepAgrees(s, es[0], p, h);
      RunAgrees(Step(s, es[0]), es[1..], p, Seen(s, es[0], p, h));
    }
  }

  /** The state and the history of producer p after a run from the start. */
  ghost predicate Reached<T>(q: nat, producers: nat, x: T, es: seq<Event<T>>, p: nat, s: State<T>, h: Push<T>) {
    && 2 <= q && p < producers
    && PossibleInTime(Init(q, producers, x), es)
    && Possible(Init(q, producers, x), es)
    && s == After(Init(q, producers, x), es)
    && h == History(Init(q, producers, x), es, p, Push(0, x))
  }

  lemma ReachedOk<T>(q: nat, producers: nat, x: T, es: seq<Event<T>>, p: nat, s: State<T>, h: Push<T>)
    requires Reached(q, producers, x, es, p, s, h)
    ensures Inv(s) && Shaped(s) && Agrees(s, p, h) && |s.producers| == producers && |s.flag| == q
  {
    hide Inv, Agrees;
    var s0 := Init(q, producers, x);
    InitInv(q, producers, x);
    RunInv(s0, es);
    SameSize(s0, es);
    InitAgrees(q, producers, x, p);
    RunAgrees(s0, es, p, Push(0, x));
  }

  lemma InitAgrees<T>(q: nat, producers: nat, x: T, p: nat)
    requires 2 <= q
    ensures Shaped(Init(q, producers, x)) && Agrees(Init(q, producers, x), p, Push(0, x))
  {
  }

  /** A push that has not claimed a position ends in two cases only: the full test that it completes says "full", or it
      goes for another try after 100 failed ones. */
  lemma PushGivesUpIff<T>(q: nat, producers: nat, x: T, es: seq<Event<T>>, p: nat, s: State<T>, h: Push<T>, e: Event<T>)
    requires Reached(q, producers, x, es, p, s, h) && Shaped(s) && Enabled(s, e) && Of(e, p)
    requires !s.producers[p].Owns()
    ensures Shaped(Step(s, e)) && p < |Step(s, e).producers|
    ensures Step(s, e).producers[p].Idle? <==>
      || (EndsFullTest(s, e) && (TestedTail(s, e) + 1 - TestedHead(s, e)) % q == 0)
      || (e.LoadTail? && h.failures == 100)
  {
    ReachedOk(q, producers, x, es, p, s, h);
    hide Slot, Inv, LooksFull;
    StepShaped(s, e);
    if EndsFullTest(s, e) {
      FullAnswer(s, e);
    }
  }

  // ------------------------------------------------------------ the accesses of a push in their order

  /** A producer that is not in a push can start one with any value, and a consumer that is not in a pop can start one;
      at the start nobody is in a call. */
  lemma CallsCanStart<T>(q: nat, producers: nat, x: T, s: State<T>, p: nat, data: T)
    requires 2 <= q && Shaped(s)
    ensures Shaped(Init(q, producers, x)) && |Init(q, producers, x).producers| == producers
    ensures Init(q, producers, x).consumer.Resting? && forall r :: r in Init(q, producers, x).producers ==> r.Idle?
    ensures p < |s.producers| && s.producers[p].Idle? ==> Enabled(s, StartPush(p, data))
    ensures s.consumer.Resting? ==> Enabled(s, EmptyLoadsTail) && Enabled(s, EmptyLoadsHead)
  {
  }

  /** Until its next own event a producer stays where it is, whatever the others do. */
  lemma {:induction false} Waits<T>(s: State<T>, others: seq<Event<T>>, p: nat)
    requires Possible(s, others) && p < |s.producers| && forall e :: e in others ==> !Of(e, p)
    ensures Shaped(After(s, others)) && |After(s, others).producers| == |s.producers|
    ensures After(s, others).producers[p] == s.producers[p]
    decreases |others|
  {
    hide Step, Enabled, Shaped, Of;
    if others != [] {
      assert others[0] in others;
      OthersLeave(s, others[0], p);
      Waits(Step(s, others[0]), others[1..], p);
    }
  }

  /** The first try of a push: whatever the others do before it, it loads the tail as it is then. */
  lemma FirstTry<T>(s: State<T>, p: nat, data: T, others: seq<Event<T>>)
    requires Shaped(s) && Enabled(s, StartPush(p, data))
    requires Possible(Step(s, StartPush(p, data)), others) && forall e :: e in others ==> !Of(e, p)
    ensures var u := After(Step(s, StartPush(p, data)), others);
      && Shaped(u) && p < |u.producers| && Enabled(u, LoadTail(p))
      && var r := Step(u, LoadTail(p)).producers[p]; r.Loaded? && r.data == data && r.oldTail == u.tail
  {
    Waits(Step(s, StartPush(p, data)), others, p);
    hide Possible, After;
  }

  /** After a failed compare-and-swap, spurious or not, the push goes on with the same value: whatever the others do
      before, it loads the tail as it is then, unless this was its 100th failure. */
  lemma NextTry<T>(q: nat, producers: nat, x: T, es: seq<Event<T>>, p: nat, s: State<T>, h: Push<T>, e: Event<T>,
                   others: seq<Event<T>>)
    requires Reached(q, producers, x, es, p, s, h) && Shaped(s) && Enabled(s, e) && Of(e, p) && Fails(s, e)
    requires Possible(Step(s, e), others) && forall o :: o in others ==> !Of(o, p)
    ensures var u := After(Step(s, e), others);
      && Shaped(u) && p < |u.producers| && Enabled(u, LoadTail(p))
      && var r := Step(u, LoadTail(p)).producers[p];
         if h.failures + 1 == 100 then r.Idle? else r.Loaded? && r.data == h.data && r.oldTail == u.tail
  {
    ReachedOk(q, producers, x, es, p, s, h);
    Waits(Step(s, e), others, p);
    SwapAnswer(s, e);
    hide Possible, After, Inv, Reached;
  }

  /** After the tail the push, unless it has given up, loads the two cells of the full test, in either order. */
  lemma PushTests<T>(s: State<T>, e: Event<T>)
    requires Shaped(s) && Enabled(s, e) && (e.LoadTail? || ((e.FullLoadsTail? || e.FullLoadsHead?) && !EndsFullTest(s, e)))
    requires Shaped(Step(s, e)) && |Step(s, e).producers| == |s.producers| && !Step(s, e).producers[e.p].Idle?
    ensures e.LoadTail? || e.FullLoadsHead? ==> Enabled(Step(s, e), FullLoadsTail(e.p))
    ensures e.LoadTail? || e.FullLoadsTail? ==> Enabled(Step(s, e), FullLoadsHead(e.p))
  {
  }

  /** A push that is not told "full" goes for the compare-and-swap, with the tail it loaded at the start of the try. */
  lemma PushSwaps<T>(s: State<T>, e: Event<T>)
    requires Inv(s) && Enabled(s, e) && EndsFullTest(s, e)
    requires (TestedTail(s, e) + 1 - TestedHead(s, e)) % |s.flag| != 0
    ensures Shaped(Step(s, e)) && |Step(s, e).producers| == |s.producers|
    ensures Enabled(Step(s, e), Swap(e.p, false)) && Enabled(Step(s, e), Swap(e.p, true))
    ensures Step(s, e).producers[e.p].oldTail == s.producers[e.p].oldTail
  {
    hide Slot, LooksFull, ClaimsOf;
    FullAnswer(s, e);
  }

  /** A compare-and-swap that does not fail claims a position for the value the push was given; the push then writes the
      value and sets the flag, which ends it. */
  lemma PushCompletes<T>(q: nat, producers: nat, x: T, es: seq<Event<T>>, p: nat, s: State<T>, h: Push<T>, e: Event<T>)
    requires Reached(q, producers, x, es, p, s, h) && Shaped(s) && Enabled(s, e) && Of(e, p)
    ensures Shaped(Step(s, e)) && p < |Step(s, e).producers| == |s.producers|
    ensures e.Swap? && s.tail == s.producers[p].oldTail && !e.spurious ==>
      Step(s, e).claims == s.claims + [Claim(p, h.data)] && Enabled(Step(s, e), WriteBegin(p))
    ensures e.WriteBegin? ==> Enabled(Step(s, e), WriteEnd(p))
    ensures e.WriteEnd? ==>
      Enabled(Step(s, e), StoreFlag(p)) && Step(s, e).data == s.data[s.producers[p].slot := Whole(h.data)]
    ensures e.StoreFlag? ==>
      && Step(s, e).producers[p].Idle?
      && |s.pushed| == producers && Step(s, e).pushed == s.pushed[p := s.pushed[p] + [h.data]]
  {
    ReachedOk(q, producers, x, es, p, s, h);
    hide Possible, After, Reached;
    StepShaped(s, e);
    WriteEnabled(s, e, p);
  }

  lemma WriteEnabled<T>(s: State<T>, e: Event<T>, p: nat)
    requires Inv(s) && Enabled(s, e) && Of(e, p)
    ensures Shaped(Step(s, e)) && |Step(s, e).producers| == |s.producers|
    ensures e.Swap? && !Fails(s, e) ==> Enabled(Step(s, e), WriteBegin(p))
    ensures e.WriteBegin? ==> Enabled(Step(s, e), WriteEnd(p))
    ensures e.WriteEnd? ==> Enabled(Step(s, e), StoreFlag(p))
  {
    assert ProducerOk(s, p);
    StepShaped(s, e);
  }

  // ------------------------------------------------------------ the accesses of a pop in their order

  predicate Consumes<T>(e: Event<T>) {
    e.EmptyLoadsTail? || e.EmptyLoadsHead? || e.LoadHead? || e.LoadFlag? || e.ReadData? || e.ClearFlag? || e.StoreHead?
  }

  /** Nothing but its own events moves the consumer on. */
  lemma ProducersLeaveConsumer<T>(s: State<T>, e: Event<T>)
    requires Shaped(s) && Enabled(s, e) && !Consumes(e)
    ensures Step(s, e).consumer == s.consumer && Step(s, e).popped == s.popped && Step(s, e).head == s.head
  {
  }

  /** Pop loads the two cells of the empty test in either order; unless it is told "empty" it loads the head and the
      flag there; unless it is told "again" it returns the oldest claimed value. */
  lemma PopPath<T>(s: State<T>, e: Event<T>)
    requires Inv(s) && Enabled(s, e) && Consumes(e)
    ensures Shaped(Step(s, e))
    ensures e.EmptyLoadsTail? && s.consumer.Resting? ==> Enabled(Step(s, e), EmptyLoadsHead)
    ensures e.EmptyLoadsHead? && s.consumer.Resting? ==> Enabled(Step(s, e), EmptyLoadsTail)
    ensures (e.EmptyLoadsTail? || e.EmptyLoadsHead?) && !s.consumer.Resting? && !Step(s, e).consumer.Resting? ==>
      Enabled(Step(s, e), LoadHead)
    ensures e.LoadHead? ==> Enabled(Step(s, e), LoadFlag)
    ensures e.LoadFlag? && !Step(s, e).consumer.Resting? ==> Enabled(Step(s, e), ReadData)
    ensures e.ReadData? ==> Enabled(Step(s, e), ClearFlag)
    ensures e.ClearFlag? ==> Enabled(Step(s, e), StoreHead)
    ensures e.StoreHead? ==>
      && Step(s, e).consumer.Resting?
      && |s.popped| < |s.claims| && Step(s, e).popped == s.popped + [Whole(s.claims[|s.popped|].data)]
    ensures !e.StoreHead? ==> Step(s, e).popped == s.popped
  {
    hide ClaimsOf;
    StepShaped(s, e);
    assert ConsumerOk(s);
  }
}
