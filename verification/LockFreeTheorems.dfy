/** What the lock-free queue guarantees over every run. */
module LockFreeTheorems {
  import opened LockFreeQueue
  import opened LockFreeProofs
  import opened Modular

  /** The events can happen one after the other. */
  predicate Possible<T>(s: State<T>, es: seq<Event<T>>)
    decreases |es|
  {
    Shaped(s) && (es == [] || (Enabled(s, es[0]) && Possible(Step(s, es[0]), es[1..])))
  }

  /** They can, and every compare-and-swap comes in time. */
  predicate PossibleInTime<T>(s: State<T>, es: seq<Event<T>>)
    decreases |es|
  {
    Shaped(s) &&
    (es == [] || (Enabled(s, es[0]) && Timely(s, es[0]) && PossibleInTime(Step(s, es[0]), es[1..])))
  }

  function After<T>(s: State<T>, es: seq<Event<T>>): State<T>
    requires Possible(s, es)
    decreases |es|
  {
    if es == [] then s else After(Step(s, es[0]), es[1..])
  }

  lemma {:induction false} RunInv<T>(s: State<T>, es: seq<Event<T>>)
    requires Inv(s) && PossibleInTime(s, es)
    ensures Possible(s, es) && Inv(After(s, es))
    decreases |es|
  {
    if es != [] {
      StepInv(s, es[0]);
      RunInv(Step(s, es[0]), es[1..]);
    }
  }

  /** In every interleaving of any number of producers with the consumer, Pop has returned exactly the
      first values of the compare-and-swap order, in that order: none lost, duplicated or torn; and
      never more than q - 1 claimed values wait. */
  lemma PopsFollowClaims<T>(q: nat, producers: nat, x: T, es: seq<Event<T>>)
    requires 2 <= q && PossibleInTime(Init(q, producers, x), es)
    ensures Possible(Init(q, producers, x), es)
    ensures var s := After(Init(q, producers, x), es);
      && |s.popped| <= |s.claims| <= |s.popped| + q - 1
      && forall i :: 0 <= i < |s.popped| ==> s.popped[i] == Whole(s.claims[i].data)
  {
    InitInv(q, producers, x);
    RunInv(Init(q, producers, x), es);
    SameSize(Init(q, producers, x), es);
  }

  lemma {:induction false} SameSize<T>(s: State<T>, es: seq<Event<T>>)
    requires Possible(s, es)
    ensures |After(s, es).flag| == |s.flag| && |After(s, es).producers| == |s.producers|
    decreases |es|
  {
    if es != [] {
      SameSize(Step(s, es[0]), es[1..]);
    }
  }

  // ------------------------------------------------------------ in every reachable state

  /** A claimed position whose value is not ready is owned by its claimant, and a slot is owned by at
      most one producer, whose flag is then false: nobody else writes it. */
  lemma SlotOwnership<T>(s: State<T>, p: nat, r: nat)
    requires Inv(s) && p < |s.producers| && r < |s.producers| && p != r
    requires s.producers[p].Owns()
    ensures s.producers[p].slot < |s.flag| && !s.flag[s.producers[p].slot]
    ensures s.producers[r].Owns() ==> s.producers[r].slot != s.producers[p].slot
  {
    assert ProducerOk(s, p) && ProducerOk(s, r);
    if s.producers[r].Owns() {
      WindowDistinct(|s.popped|, |s.flag|);
    }
  }

  lemma UnreadyIsOwned<T>(s: State<T>, n: nat)
    requires Inv(s) && |s.popped| <= n < |s.claims| && !s.flag[Slot(n, |s.flag|)]
    requires !s.consumer.Storing?
    ensures s.claims[n].producer < |s.producers|
    ensures var r := s.producers[s.claims[n].producer];
      r.Owns() && r.pos == n && r.slot == Slot(n, |s.flag|) && r.data == s.claims[n].data
  {
    assert PositionOk(s, n);
    assert ProducerOk(s, s.claims[n].producer);
  }

  /** No producer is writing the slot that the consumer reads or clears. */
  lemma NoRace<T>(s: State<T>, p: nat)
    requires Inv(s) && p < |s.producers| && s.producers[p].Owns()
    requires s.consumer.Reading? || s.consumer.Clearing?
    ensures s.producers[p].slot != s.consumer.oldHead.index
  {
    assert ProducerOk(s, p);
  }

  lemma {:induction false} ClaimsOfSplit<T>(claims: seq<Claim<T>>, h: nat, p: nat)
    requires h <= |claims|
    ensures ClaimsOf(claims[..h], p) <= ClaimsOf(claims, p)
    ensures (exists n :: h <= n < |claims| && claims[n].producer == p) ==>
      |ClaimsOf(claims[..h], p)| < |ClaimsOf(claims, p)|
    decreases |claims| - h
  {
    if h == |claims| {
      assert claims[..h] == claims;
    } else {
      assert claims[..h + 1] == claims[..h] + [claims[h]];
      ClaimsOfAppend(claims[..h], claims[h], p);
      ClaimsOfSplit(claims, h + 1, p);
    }
  }

  /** Each producer's values come out in the order in which it pushed them: what was popped of them
      is a prefix of the values its pushes have returned success for. */
  lemma ProducerOrder<T>(s: State<T>, p: nat)
    requires Inv(s) && p < |s.producers|
    ensures ClaimsOf(s.claims[..|s.popped|], p) <= s.pushed[p]
  {
    var h, r := |s.popped|, s.producers[p];
    assert ProducerOk(s, p) && HistoryOk(s, p);
    ClaimsOfSplit(s.claims, h, p);
    if r.Owns() {
      assert s.claims[r.pos].producer == p;
      var part, all := ClaimsOf(s.claims[..h], p), ClaimsOf(s.claims, p);
      assert |part| < |all| && all == s.pushed[p] + [r.data];
      assert part == all[..|part|] == s.pushed[p][..|part|];
    }
  }

  /** Once no push is in progress, the successful pushes of each producer are exactly its claims; if
      moreover the queue is drained, everything pushed was popped. */
  lemma NothingLost<T>(s: State<T>, p: nat)
    requires Inv(s) && p < |s.producers| && !s.producers[p].Owns()
    ensures ClaimsOf(s.claims, p) == s.pushed[p]
    ensures |s.popped| == |s.claims| ==> ClaimsOf(s.claims[..|s.popped|], p) == s.pushed[p]
  {
    assert HistoryOk(s, p);
    assert s.claims[..|s.claims|] == s.claims;
  }

  /** Pop reports "empty" only if nothing was waiting when it loaded the tail. */
  lemma EmptyAnswer<T>(s: State<T>, e: Event<T>)
    requires Inv(s) && Enabled(s, e)
    requires (e.EmptyLoadsTail? && s.consumer.EmptyHeadSeen?) || (e.EmptyLoadsHead? && s.consumer.EmptyTailSeen?)
    ensures var t := if e.EmptyLoadsTail? then |s.claims| else s.consumer.tailAt;
      Step(s, e).consumer.Resting? <==> t == |s.popped|
  {
    var q, h := |s.flag|, |s.popped|;
    var t := if e.EmptyLoadsTail? then |s.claims| else s.consumer.tailAt;
    if h < t {
      SlotDistinct(h, t, q);
    }
  }

  /** Pop reports "again" only while the producer of the oldest value is still in the middle of its
      push; otherwise it goes on to return that value. */
  lemma AgainAnswer<T>(s: State<T>, e: Event<T>)
    requires Inv(s) && Enabled(s, e) && e.LoadFlag?
    ensures Step(s, e).consumer.Resting? <==>
      exists p: nat :: p < |s.producers| && s.producers[p].Owns() && s.producers[p].pos == |s.popped|
  {
    var h := |s.popped|;
    assert PositionOk(s, h);
    if s.flag[Slot(h, |s.flag|)] {
      forall p: nat | p < |s.producers| && s.producers[p].Owns()
        ensures s.producers[p].pos != h
      {
        assert ProducerOk(s, p);
      }
    }
  }

  /** The positions of tail and head that the full test of a push compares: the one loaded first as it was then, the
      other one as it is. */
  function TestedTail<T>(s: State<T>, e: Event<T>): nat
    requires Shaped(s) && Enabled(s, e) && (e.FullLoadsTail? || e.FullLoadsHead?)
  {
    if s.producers[e.p].TailSeen? then s.producers[e.p].tailAt else |s.claims|
  }

  function TestedHead<T>(s: State<T>, e: Event<T>): nat
    requires Shaped(s) && Enabled(s, e) && (e.FullLoadsTail? || e.FullLoadsHead?)
  {
    if s.producers[e.p].HeadSeen? then s.producers[e.p].headAt else |s.popped|
  }

  /** The full test is complete: its second load. */
  predicate EndsFullTest<T>(s: State<T>, e: Event<T>)
    requires Shaped(s) && Enabled(s, e)
  {
    (e.FullLoadsHead? && s.producers[e.p].TailSeen?) || (e.FullLoadsTail? && s.producers[e.p].HeadSeen?)
  }

  lemma SlotsMeet(a: nat, b: nat, q: nat)
    requires 0 < q
    ensures Slot(a, q) == Slot(b, q) <==> (a - b) % q == 0
  {
    ModEqual(a, b, q);
  }

  /** In either load order and however far the consumer has gone meanwhile: a push is told "full" exactly when the
      position after the tested tail lies a multiple of the queue size from the tested head. */
  lemma FullAnswer<T>(s: State<T>, e: Event<T>)
    requires Inv(s) && Enabled(s, e) && EndsFullTest(s, e)
    ensures Step(s, e).producers[e.p].Idle? <==> (TestedTail(s, e) + 1 - TestedHead(s, e)) % |s.flag| == 0
  {
    hide Slot;
    var q := |s.flag|;
    assert ProducerOk(s, e.p);
    LooksFullAt(TestedTail(s, e), TestedHead(s, e), q);
    SlotsMeet(TestedTail(s, e) + 1, TestedHead(s, e), q);
  }

  lemma SmallMultiple(x: int, q: nat)
    requires 0 < x <= q
    ensures x % q == 0 <==> x == q
  {
    if x == q {
      DivModUnique(x, q, 1, 0);
    } else {
      DivModUnique(x, q, 0, x);
    }
  }

  /** A push that loaded the tail first is told the truth unless the consumer has passed the tail it loaded: it is told
      "full" exactly when q - 1 values waited at that tail, and then the queue is full now. */
  lemma FullIsTrueTailFirst<T>(s: State<T>, e: Event<T>)
    requires Inv(s) && Enabled(s, e) && e.FullLoadsHead? && s.producers[e.p].TailSeen?
    requires |s.popped| <= s.producers[e.p].tailAt
    ensures Step(s, e).producers[e.p].Idle? <==> s.producers[e.p].tailAt == |s.popped| + |s.flag| - 1
    ensures Step(s, e).producers[e.p].Idle? ==> |s.claims| == |s.popped| + |s.flag| - 1
  {
    hide Slot, Step;
    assert ProducerOk(s, e.p);
    FullAnswer(s, e);
    SmallMultiple(s.producers[e.p].tailAt + 1 - |s.popped|, |s.flag|);
  }

  /** A push that loaded the head first is told "full" exactly when the queue is full now, unless the consumer has moved
      since. */
  lemma FullIsTrueHeadFirst<T>(s: State<T>, e: Event<T>)
    requires Inv(s) && Enabled(s, e) && e.FullLoadsTail? && s.producers[e.p].HeadSeen?
    requires |s.popped| == s.producers[e.p].headAt
    ensures Step(s, e).producers[e.p].Idle? <==> |s.claims| == |s.popped| + |s.flag| - 1
  {
    hide Slot, Step;
    FullAnswer(s, e);
    SmallMultiple(|s.claims| + 1 - |s.popped|, |s.flag|);
  }
}
