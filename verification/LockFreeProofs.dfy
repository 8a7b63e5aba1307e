/** The invariant of the lock-free queue holds in every reachable state, and what follows from it. */
module LockFreeProofs {
  import opened LockFreeQueue
  import opened Modular

  lemma SlotDistinct(a: nat, b: nat, q: nat)
    requires 0 < q && a < b < a + q
    ensures Slot(a, q) != Slot(b, q)
  {
    ModDistinct(a, b, q);
  }

  lemma SlotSame(n: nat, q: nat)
    requires 0 < q
    ensures Slot(n + q, q) == Slot(n, q)
  {
    ModAddMultiple(n, q, 1);
  }

  lemma SlotNext(n: nat, q: nat)
    requires 0 < q
    ensures (Slot(n, q) + 1) % q == Slot(n + 1, q)
  {
    ModNext(n, q);
  }

  lemma AdvanceAt(n: nat, q: nat)
    requires 0 < q
    ensures Advance(At(n, q), q) == At(n + 1, q)
  {
    SlotNext(n, q);
    SlotNext(n, WRAP);
  }

  lemma LooksFullAt(t: nat, h: nat, q: nat)
    requires 0 < q
    ensures LooksFull(At(t, q), At(h, q), q) <==> Slot(t + 1, q) == Slot(h, q)
  {
    SlotNext(t, q);
  }

  lemma InitInv<T>(q: nat, producers: nat, x: T)
    requires 2 <= q
    ensures Inv(Init(q, producers, x))
  {
    var s := Init(q, producers, x);
    assert Slot(0, WRAP) == 0 && Slot(0, q) == 0;
    forall p: nat | p < producers ensures ProducerOk(s, p) && HistoryOk(s, p) {
      assert s.producers[p] == Idle;
    }
  }

  /** A producer's step that changes only its own local state, before it has claimed a position. */
  lemma LocalStep<T>(s: State<T>, p: nat, r: Producer<T>)
    requires Inv(s) && p < |s.producers|
    requires !s.producers[p].Owns() && !r.Owns()
    requires ProducerOk(SetProducer(s, p, r), p)
    ensures Inv(SetProducer(s, p, r))
  {
    hide Slot, ClaimsOf;
    var s' := SetProducer(s, p, r);
    forall i: nat | i < |s'.producers| ensures ProducerOk(s', i) && HistoryOk(s', i) {
      assert ProducerOk(s, i) && HistoryOk(s, i);
    }
    forall n: nat | |s'.popped| <= n < |s'.claims| ensures PositionOk(s', n) {
      assert PositionOk(s, n);
    }
    assert FreeOk(s');
  }

  /** The two loads of IsFull in either order: if the tail has not moved since the first load of the
      producer, then "not full" still holds when it comes to the compare-and-swap. */
  lemma FullCheckInv<T>(s: State<T>, e: Event<T>)
    requires Inv(s) && Enabled(s, e) && (e.FullLoadsTail? || e.FullLoadsHead?)
    ensures Inv(Step(s, e))
  {
    hide Slot, ClaimsOf;
    var q, h, t, r := |s.flag|, |s.popped|, |s.claims|, s.producers[e.p];
    assert ProducerOk(s, e.p);
    if e.FullLoadsTail? {
      if r.HeadSeen? {
        LooksFullAt(t, r.headAt, q);
        if r.at == t && t + 1 >= r.headAt + q {
          SlotSame(r.headAt, q);
        }
      }
    } else if r.TailSeen? {
      LooksFullAt(r.tailAt, h, q);
      if r.at == t && t + 1 >= h + q {
        SlotSame(h, q);
      }
    }
    LocalStep(s, e.p, Step(s, e).producers[e.p]);
  }

  lemma LoadTailInv<T>(s: State<T>, e: Event<T>)
    requires Inv(s) && Enabled(s, e) && (e.StartPush? || e.LoadTail?)
    ensures Inv(Step(s, e))
  {
    hide Slot, ClaimsOf;
    LocalStep(s, e.p, Step(s, e).producers[e.p]);
  }

  lemma WindowDistinct(h: nat, q: nat)
    requires 0 < q
    ensures forall a: nat, b: nat :: h <= a < b < h + q ==> Slot(a, q) != Slot(b, q)
  {
    forall a: nat, b: nat | h <= a < b < h + q ensures Slot(a, q) != Slot(b, q) {
      SlotDistinct(a, b, q);
    }
  }

  /** A compare-and-swap in time succeeds only if the tail has not moved since the producer loaded it. */
  lemma SwapMeansUnmoved<T>(s: State<T>, e: Event<T>)
    requires Inv(s) && Enabled(s, e) && Timely(s, e) && e.Swap?
    requires s.tail == s.producers[e.p].oldTail
    ensures s.producers[e.p].at == |s.claims|
  {
    var at, t := s.producers[e.p].at, |s.claims|;
    assert ProducerOk(s, e.p);
    if at < t {
      SlotDistinct(at, t, WRAP);
    }
  }

  lemma ClaimsOfAppend<T>(claims: seq<Claim<T>>, c: Claim<T>, p: nat)
    ensures ClaimsOf(claims + [c], p) == ClaimsOf(claims, p) + (if c.producer == p then [c.data] else [])
  {
    assert (claims + [c])[..|claims|] == claims;
  }

  /** The new claim is in the history of its producer, and everyone else's history is untouched. */
  lemma SwapHistory<T>(s: State<T>, e: Event<T>, i: nat)
    requires Inv(s) && Enabled(s, e) && e.Swap? && i < |s.producers|
    requires s.tail == s.producers[e.p].oldTail && !e.spurious
    ensures HistoryOk(Step(s, e), i)
  {
    var s' := Step(s, e);
    assert HistoryOk(s, i);
    hide ClaimsOf, Inv;
    ClaimsOfAppend(s.claims, s'.claims[|s.claims|], i);
  }

  lemma SwapSucceeds<T>(s: State<T>, e: Event<T>)
    requires Inv(s) && Enabled(s, e) && Timely(s, e) && e.Swap?
    requires s.tail == s.producers[e.p].oldTail && !e.spurious
    ensures Inv(Step(s, e))
  {
    hide Slot, HistoryOk;
    var s', t := Step(s, e), |s.claims|;
    assert ProducerOk(s, e.p);
    SwapMeansUnmoved(s, e);
    AdvanceAt(t, |s.flag|);
    assert !s.flag[Slot(t, |s.flag|)];
    forall i: nat | i < |s'.producers| ensures ProducerOk(s', i) && HistoryOk(s', i) {
      assert ProducerOk(s, i);
      SwapHistory(s, e, i);
    }
    forall n: nat | |s'.popped| <= n < |s'.claims| ensures PositionOk(s', n) {
      if n < t {
        assert PositionOk(s, n);
      }
    }
  }

  lemma SwapInv<T>(s: State<T>, e: Event<T>)
    requires Inv(s) && Enabled(s, e) && Timely(s, e) && e.Swap?
    ensures Inv(Step(s, e))
  {
    if s.tail == s.producers[e.p].oldTail && !e.spurious {
      SwapSucceeds(s, e);
    } else {
      hide Slot, ClaimsOf;
      LocalStep(s, e.p, Step(s, e).producers[e.p]);
    }
  }

  lemma WriteInv<T>(s: State<T>, e: Event<T>)
    requires Inv(s) && Enabled(s, e) && (e.WriteBegin? || e.WriteEnd?)
    ensures Inv(Step(s, e))
  {
    hide Slot, ClaimsOf;
    var s' := Step(s, e);
    assert ProducerOk(s, e.p);
    WindowDistinct(|s.popped|, |s.flag|);
    forall i: nat | i < |s'.producers| ensures ProducerOk(s', i) && HistoryOk(s', i) {
      assert ProducerOk(s, i) && HistoryOk(s, i);
    }
    forall n: nat | |s'.popped| <= n < |s'.claims| ensures PositionOk(s', n) {
      assert PositionOk(s, n);
    }
  }

  lemma StoreFlagInv<T>(s: State<T>, e: Event<T>)
    requires Inv(s) && Enabled(s, e) && e.StoreFlag?
    ensures Inv(Step(s, e))
  {
    hide Slot, ClaimsOf;
    var s' := Step(s, e);
    assert ProducerOk(s, e.p);
    WindowDistinct(|s.popped|, |s.flag|);
    forall i: nat | i < |s'.producers| ensures ProducerOk(s', i) && HistoryOk(s', i) {
      assert ProducerOk(s, i) && HistoryOk(s, i);
    }
    forall n: nat | |s'.popped| <= n < |s'.claims| ensures PositionOk(s', n) {
      assert PositionOk(s, n);
    }
  }

  /** The consumer's loads, and its read of the data. */
  lemma ConsumerLocalInv<T>(s: State<T>, e: Event<T>)
    requires Inv(s) && Enabled(s, e)
    requires e.EmptyLoadsTail? || e.EmptyLoadsHead? || e.LoadHead? || e.LoadFlag? || e.ReadData?
    ensures Inv(Step(s, e))
  {
    hide Slot, ClaimsOf;
    var s' := Step(s, e);
    forall i: nat | i < |s'.producers| ensures ProducerOk(s', i) && HistoryOk(s', i) {
      assert ProducerOk(s, i) && HistoryOk(s, i);
    }
    forall n: nat | |s'.popped| <= n < |s'.claims| ensures PositionOk(s', n) {
      assert PositionOk(s, n);
    }
    if e.ReadData? {
      assert PositionOk(s, |s.popped|);
    }
  }

  lemma ClearFlagInv<T>(s: State<T>, e: Event<T>)
    requires Inv(s) && Enabled(s, e) && e.ClearFlag?
    ensures Inv(Step(s, e))
  {
    hide Slot, ClaimsOf;
    var s' := Step(s, e);
    WindowDistinct(|s.popped|, |s.flag|);
    forall i: nat | i < |s'.producers| ensures ProducerOk(s', i) && HistoryOk(s', i) {
      assert ProducerOk(s, i) && HistoryOk(s, i);
    }
    forall n: nat | |s'.popped| <= n < |s'.claims| ensures PositionOk(s', n) {
      assert PositionOk(s, n);
    }
  }

  lemma StoreHeadInv<T>(s: State<T>, e: Event<T>)
    requires Inv(s) && Enabled(s, e) && e.StoreHead?
    ensures Inv(Step(s, e))
  {
    hide Slot, ClaimsOf;
    var s', h, q := Step(s, e), |s.popped|, |s.flag|;
    AdvanceAt(h, q);
    SlotSame(h, q);
    forall i: nat | i < |s'.producers| ensures ProducerOk(s', i) && HistoryOk(s', i) {
      assert ProducerOk(s, i) && HistoryOk(s, i);
    }
    forall n: nat | |s'.popped| <= n < |s'.claims| ensures PositionOk(s', n) {
      assert PositionOk(s, n);
    }
  }

  /** Every event keeps the invariant. */
  lemma StepInv<T>(s: State<T>, e: Event<T>)
    requires Inv(s) && Enabled(s, e) && Timely(s, e)
    ensures Inv(Step(s, e))
  {
    hide Inv, Step;
    match e
    case StartPush(_, _) => LoadTailInv(s, e);
    case LoadTail(_) => LoadTailInv(s, e);
    case FullLoadsTail(_) => FullCheckInv(s, e);
    case FullLoadsHead(_) => FullCheckInv(s, e);
    case Swap(_, _) => SwapInv(s, e);
    case WriteBegin(_) => WriteInv(s, e);
    case WriteEnd(_) => WriteInv(s, e);
    case StoreFlag(_) => StoreFlagInv(s, e);
    case ClearFlag => ClearFlagInv(s, e);
    case StoreHead => StoreHeadInv(s, e);
    case _ => ConsumerLocalInv(s, e);
  }
}
