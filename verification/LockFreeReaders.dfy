/** Why the lock-free queue has one consumer only: with a second one, both can take the same value. */
module LockFreeReaders {
  import opened LockFreeQueue
  import opened LockFreeProofs
  import opened LockFreeTheorems
  import opened LockFreeLimits

  /** The queue with a second consumer, which stands at `other`. */
  datatype Pair = Pair(queue: State<int>, other: Consumer<int>)

  /** An event of a producer or of the first consumer, or one of the second consumer. */
  datatype Turn = First(e: Event<int>) | Second(e: Event<int>)

  predicate Reads(e: Event<int>) {
    e.EmptyLoadsTail? || e.EmptyLoadsHead? || e.LoadHead? || e.LoadFlag? || e.ReadData? || e.ClearFlag? || e.StoreHead?
  }

  predicate Ready(p: Pair, t: Turn) {
    Shaped(p.queue) &&
    match t
    case First(e) => Enabled(p.queue, e)
    case Second(e) => Reads(e) && Enabled(p.queue.(consumer := p.other), e)
  }

  /** The second consumer does what the first one would do in its place. */
  function Go(p: Pair, t: Turn): Pair
    requires Ready(p, t)
  {
    match t
    case First(e) => Pair(Step(p.queue, e), p.other)
    case Second(e) =>
      var s := Step(p.queue.(consumer := p.other), e);
      Pair(s.(consumer := p.queue.consumer), s.consumer)
  }

  predicate PossibleTurns(p: Pair, ts: seq<Turn>)
    decreases |ts|
  {
    ts == [] || (Ready(p, ts[0]) && PossibleTurns(Go(p, ts[0]), ts[1..]))
  }

  function AfterTurns(p: Pair, ts: seq<Turn>): Pair
    requires PossibleTurns(p, ts)
    decreases |ts|
  {
    if ts == [] then p else AfterTurns(Go(p, ts[0]), ts[1..])
  }

  ghost predicate Leads(a: Pair, b: Pair) {
    exists ts: seq<Turn> :: PossibleTurns(a, ts) && AfterTurns(a, ts) == b
  }

  lemma {:induction false} TurnsAppend(a: Pair, ts: seq<Turn>, t: Turn)
    requires PossibleTurns(a, ts) && Ready(AfterTurns(a, ts), t)
    ensures PossibleTurns(a, ts + [t]) && AfterTurns(a, ts + [t]) == Go(AfterTurns(a, ts), t)
    decreases |ts|
  {
    if ts == [] {
      assert ts + [t] == [t] && [t][1..] == [];
    } else {
      assert (ts + [t])[1..] == ts[1..] + [t];
      TurnsAppend(Go(a, ts[0]), ts[1..], t);
    }
  }

  lemma Next(a: Pair, b: Pair, t: Turn, c: Pair)
    requires Leads(a, b) && Ready(b, t) && Go(b, t) == c
    ensures Leads(a, c)
  {
    var ts: seq<Turn> :| PossibleTurns(a, ts) && AfterTurns(a, ts) == b;
    TurnsAppend(a, ts, t);
  }

  /** What one consumer can see happen can happen beside an idle second one. */
  lemma {:induction false} Lift(a: State<int>, es: seq<Event<int>>, other: Consumer<int>)
    requires Possible(a, es)
    ensures Leads(Pair(a, other), Pair(After(a, es), other))
    decreases |es|
  {
    hide Step, Enabled, Shaped;
    if es == [] {
      assert PossibleTurns(Pair(a, other), []) && AfterTurns(Pair(a, other), []) == Pair(a, other);
    } else {
      Lift(Step(a, es[0]), es[1..], other);
      var b, c := Pair(Step(a, es[0]), other), Pair(After(a, es), other);
      var ts: seq<Turn> :| PossibleTurns(b, ts) && AfterTurns(b, ts) == c;
      var us := [First(es[0])] + ts;
      assert us[1..] == ts && Go(Pair(a, other), us[0]) == b;
      assert PossibleTurns(Pair(a, other), us) && AfterTurns(Pair(a, other), us) == c;
    }
  }

  lemma OnePushed(x: int)
    ensures Leads(Pair(Init(2, 2, x), Resting), Pair(OneWaiting(0, Idle, x), Resting))
  {
    hide Leads;
    InitIsParked(x);
    var p := Parked(0, Idle, x);
    PushRound(0, Idle, x);
    var es: seq<Event<int>> :| Possible(p, es) && After(p, es) == OneWaiting(0, Idle, x);
    Lift(p, es, Resting);
  }

  /** The state with the two consumers at the given places. */
  function Both(x: int, first: Consumer<int>, second: Consumer<int>): Pair {
    Pair(OneWaiting(0, Idle, x).(consumer := first), second)
  }

  lemma FirstEnters(a: Pair, x: int)
    requires Leads(a, Both(x, Resting, Resting))
    ensures Leads(a, Both(x, LoadingHead, Resting))
  {
    hide Leads;
    var s1 := Both(x, EmptyTailSeen(At(1, 2), 1), Resting);
    Next(a, Both(x, Resting, Resting), First(EmptyLoadsTail), s1);
    Next(a, s1, First(EmptyLoadsHead), Both(x, LoadingHead, Resting));
  }

  lemma FirstReads(a: Pair, x: int)
    requires Leads(a, Both(x, Resting, Resting))
    ensures Leads(a, Both(x, Clearing(At(0, 2), Whole(x)), Resting))
  {
    hide Leads;
    FirstEnters(a, x);
    var w := At(0, 2);
    var s3, s4 := Both(x, Testing(w), Resting), Both(x, Reading(w), Resting);
    Next(a, Both(x, LoadingHead, Resting), First(LoadHead), s3);
    Next(a, s3, First(LoadFlag), s4);
    Next(a, s4, First(ReadData), Both(x, Clearing(w, Whole(x)), Resting));
  }

  lemma SecondEnters(a: Pair, x: int, first: Consumer<int>)
    requires Leads(a, Both(x, first, Resting))
    ensures Leads(a, Both(x, first, LoadingHead))
  {
    hide Leads;
    var s1 := Both(x, first, EmptyTailSeen(At(1, 2), 1));
    Next(a, Both(x, first, Resting), Second(EmptyLoadsTail), s1);
    Next(a, s1, Second(EmptyLoadsHead), Both(x, first, LoadingHead));
  }

  lemma SecondReads(a: Pair, x: int, first: Consumer<int>)
    requires Leads(a, Both(x, first, Resting))
    ensures Leads(a, Both(x, first, Clearing(At(0, 2), Whole(x))))
  {
    hide Leads;
    SecondEnters(a, x, first);
    var w := At(0, 2);
    var s3, s4 := Both(x, first, Testing(w)), Both(x, first, Reading(w));
    Next(a, Both(x, first, LoadingHead), Second(LoadHead), s3);
    Next(a, s3, Second(LoadFlag), s4);
    Next(a, s4, Second(ReadData), Both(x, first, Clearing(w, Whole(x))));
  }

  /** With two consumers one pushed value can be returned by Pop twice. */
  lemma TwoConsumersDuplicate(x: int)
    ensures exists p: Pair ::
      && Leads(Pair(Init(2, 2, x), Resting), p)
      && |p.queue.claims| == 1 && p.queue.popped == [Whole(x), Whole(x)]
  {
    hide Leads;
    var a, w := Pair(Init(2, 2, x), Resting), At(0, 2);
    OnePushed(x);
    assert Both(x, Resting, Resting) == Pair(OneWaiting(0, Idle, x), Resting);
    FirstReads(a, x);
    var c := Clearing(w, Whole(x));
    SecondReads(a, x, c);
    var s0 := Both(x, c, c);
    var s1 := Go(s0, First(ClearFlag));
    Next(a, s0, First(ClearFlag), s1);
    var s2 := Go(s1, First(StoreHead));
    Next(a, s1, First(StoreHead), s2);
    var s3 := Go(s2, Second(ClearFlag));
    Next(a, s2, Second(ClearFlag), s3);
    var s4 := Go(s3, Second(StoreHead));
    Next(a, s3, Second(StoreHead), s4);
    assert s4.queue.popped == [Whole(x), Whole(x)];
  }
}
