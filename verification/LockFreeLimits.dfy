/** Two runs of the lock-free queue that show where its guarantees end, both with two slots, one
    producer that is delayed in the middle of a push and one that keeps pushing. */
module LockFreeLimits {
  import opened LockFreeQueue
  import opened LockFreeProofs
  import opened LockFreeTheorems

  /** The second producer and the consumer have taken `n` values through the queue; the first
      producer stands at `r`. */
  function Parked(n: nat, r: Producer<int>, x: int): State<int>
  {
    State(At(n, 2), At(n, 2), [Whole(x), Whole(x)], [false, false], [r, Idle], Resting,
          seq(n, _ => Claim(1, x)), seq(n, _ => Whole(x)), [[], seq(n, _ => x)])
  }

  /** The same after one more push that has not been popped. */
  function OneWaiting(n: nat, r: Producer<int>, x: int): State<int>
  {
    Parked(n, r, x).(
      tail := At(n + 1, 2), flag := [false, false][Slot(n, 2) := true],
      claims := seq(n + 1, _ => Claim(1, x)), pushed := [[], seq(n + 1, _ => x)])
  }

  /** Some sequence of events, timely or not, leads from `a` to `b`. */
  ghost predicate Reaches(a: State<int>, b: State<int>)
  {
    exists es: seq<Event<int>> :: Possible(a, es) && After(a, es) == b
  }

  lemma Stay(a: State<int>)
    requires Shaped(a)
    ensures Reaches(a, a)
  {
    assert Possible(a, []) && After(a, []) == a;
  }

  lemma {:induction false} AfterAppend(a: State<int>, es: seq<Event<int>>, fs: seq<Event<int>>)
    requires Possible(a, es) && Possible(After(a, es), fs)
    ensures Possible(a, es + fs) && After(a, es + fs) == After(After(a, es), fs)
    decreases |es|
  {
    if es == [] {
      assert es + fs == fs;
    } else {
      assert (es + fs)[1..] == es[1..] + fs;
      AfterAppend(Step(a, es[0]), es[1..], fs);
    }
  }

  lemma Onward(a: State<int>, b: State<int>, c: State<int>)
    requires Reaches(a, b) && Reaches(b, c)
    ensures Reaches(a, c)
  {
    var es: seq<Event<int>> :| Possible(a, es) && After(a, es) == b;
    var fs: seq<Event<int>> :| Possible(b, fs) && After(b, fs) == c;
    AfterAppend(a, es, fs);
  }

  lemma Then(a: State<int>, b: State<int>, e: Event<int>, c: State<int>)
    requires Reaches(a, b) && Shaped(b) && Enabled(b, e) && Step(b, e) == c && Shaped(c)
    ensures Reaches(a, c)
  {
    hide Step, Enabled, Shaped;
    assert [e][0] == e && [e][1..] == [];
    assert Possible(c, []) && After(c, []) == c;
    assert Possible(b, [e]);
    assert After(b, [e]) == After(c, []);
    Onward(a, b, c);
  }

  /** The second producer about to swap, with nothing waiting. */
  function AboutToSwap(n: nat, r: Producer<int>, x: int): State<int>
  {
    Parked(n, r, x).(producers := [r, Swapping(x, 1, At(n, 2), n)])
  }

  lemma PushStarts(n: nat, r: Producer<int>, x: int)
    ensures Reaches(Parked(n, r, x), Parked(n, r, x).(producers := [r, Loaded(x, 0, At(n, 2), n)]))
  {
    hide Slot, Reaches;
    var s0 := Parked(n, r, x);
    Stay(s0);
    var s1 := s0.(producers := [r, Trying(x, 0)]);
    Then(s0, s0, StartPush(1, x), s1);
    Then(s0, s1, LoadTail(1), s0.(producers := [r, Loaded(x, 0, At(n, 2), n)]));
  }

  lemma PushBegins(n: nat, r: Producer<int>, x: int)
    ensures Reaches(Parked(n, r, x), AboutToSwap(n, r, x))
  {
    hide Slot, Reaches;
    PushStarts(n, r, x);
    SlotNext(n, 2);
    SlotDistinct(n, n + 1, 2);
    var s0, w := Parked(n, r, x), At(n, 2);
    var s2 := s0.(producers := [r, Loaded(x, 0, w, n)]);
    var s3 := s0.(producers := [r, TailSeen(x, 0, w, n, w, n)]);
    Then(s0, s2, FullLoadsTail(1), s3);
    Then(s0, s3, FullLoadsHead(1), AboutToSwap(n, r, x));
  }

  /** The second producer in the middle of its write. */
  function InWrite(n: nat, r: Producer<int>, x: int): State<int>
  {
    AboutToSwap(n, r, x).(
      tail := At(n + 1, 2), claims := seq(n + 1, _ => Claim(1, x)),
      producers := [r, Writing(x, Slot(n, 2), n)], data := [Whole(x), Whole(x)][Slot(n, 2) := Torn])
  }

  lemma PushClaims(n: nat, r: Producer<int>, x: int)
    ensures Reaches(AboutToSwap(n, r, x), InWrite(n, r, x))
  {
    hide Slot, Reaches;
    AdvanceAt(n, 2);
    var s0, i := AboutToSwap(n, r, x), Slot(n, 2);
    Stay(s0);
    var s1 := InWrite(n, r, x).(producers := [r, Claimed(x, i, n)], data := s0.data);
    assert s0.claims + [Claim(1, x)] == s1.claims;
    Then(s0, s0, Swap(1, false), s1);
    Then(s0, s1, WriteBegin(1), InWrite(n, r, x));
  }

  lemma PushWrites(n: nat, r: Producer<int>, x: int)
    ensures Reaches(InWrite(n, r, x), OneWaiting(n, r, x))
  {
    hide Slot, Reaches;
    var s0, i := InWrite(n, r, x), Slot(n, 2);
    Stay(s0);
    var s1 := s0.(producers := [r, Flagging(x, i, n)], data := [Whole(x), Whole(x)]);
    assert s0.data[i := Whole(x)] == s1.data;
    Then(s0, s0, WriteEnd(1), s1);
    assert s1.pushed[1] + [x] == OneWaiting(n, r, x).pushed[1];
    Then(s0, s1, StoreFlag(1), OneWaiting(n, r, x));
  }

  lemma PushEnds(n: nat, r: Producer<int>, x: int)
    ensures Reaches(AboutToSwap(n, r, x), OneWaiting(n, r, x))
  {
    hide Reaches;
    PushClaims(n, r, x);
    PushWrites(n, r, x);
    Onward(AboutToSwap(n, r, x), InWrite(n, r, x), OneWaiting(n, r, x));
  }

  lemma PopBegins(n: nat, r: Producer<int>, x: int)
    ensures Reaches(OneWaiting(n, r, x), OneWaiting(n, r, x).(consumer := Testing(At(n, 2))))
  {
    hide Slot, Reaches;
    SlotDistinct(n, n + 1, 2);
    var s0 := OneWaiting(n, r, x);
    Stay(s0);
    var s1 := s0.(consumer := EmptyTailSeen(At(n + 1, 2), n + 1));
    Then(s0, s0, EmptyLoadsTail, s1);
    var s2 := s0.(consumer := LoadingHead);
    Then(s0, s1, EmptyLoadsHead, s2);
    Then(s0, s2, LoadHead, s0.(consumer := Testing(At(n, 2))));
  }

  lemma PopReads(n: nat, r: Producer<int>, x: int)
    ensures var s := OneWaiting(n, r, x);
      Reaches(s.(consumer := Testing(At(n, 2))), s.(consumer := Clearing(At(n, 2), Whole(x))))
  {
    hide Slot, Reaches;
    var w, s := At(n, 2), OneWaiting(n, r, x);
    var s0 := s.(consumer := Testing(w));
    Stay(s0);
    Then(s0, s0, LoadFlag, s.(consumer := Reading(w)));
    Then(s0, s.(consumer := Reading(w)), ReadData, s.(consumer := Clearing(w, Whole(x))));
  }

  lemma PopClears(n: nat, r: Producer<int>, x: int)
    ensures Reaches(OneWaiting(n, r, x).(consumer := Clearing(At(n, 2), Whole(x))), Parked(n + 1, r, x))
  {
    hide Slot, Reaches;
    AdvanceAt(n, 2);
    var w, i := At(n, 2), Slot(n, 2);
    var s0 := OneWaiting(n, r, x).(consumer := Clearing(w, Whole(x)));
    Stay(s0);
    var s1 := s0.(consumer := Storing(w, Whole(x)), flag := [false, false]);
    assert s0.flag[i := false] == s1.flag;
    Then(s0, s0, ClearFlag, s1);
    assert s1.popped + [Whole(x)] == Parked(n + 1, r, x).popped;
    Then(s0, s1, StoreHead, Parked(n + 1, r, x));
  }

  lemma PopEnds(n: nat, r: Producer<int>, x: int)
    ensures Reaches(OneWaiting(n, r, x).(consumer := Testing(At(n, 2))), Parked(n + 1, r, x))
  {
    hide Reaches;
    var s := OneWaiting(n, r, x);
    PopReads(n, r, x);
    PopClears(n, r, x);
    Onward(s.(consumer := Testing(At(n, 2))), s.(consumer := Clearing(At(n, 2), Whole(x))), Parked(n + 1, r, x));
  }

  lemma PushRound(n: nat, r: Producer<int>, x: int)
    ensures Reaches(Parked(n, r, x), OneWaiting(n, r, x))
  {
    hide Reaches;
    PushBegins(n, r, x);
    PushEnds(n, r, x);
    Onward(Parked(n, r, x), AboutToSwap(n, r, x), OneWaiting(n, r, x));
  }

  lemma {:induction false} ManyRounds(n: nat, r: Producer<int>, x: int)
    ensures Reaches(Parked(0, r, x), Parked(n, r, x))
  {
    hide Reaches;
    if n == 0 {
      Stay(Parked(0, r, x));
    } else {
      var m := n - 1;
      ManyRounds(m, r, x);
      PushRound(m, r, x);
      PopBegins(m, r, x);
      PopEnds(m, r, x);
      var s := OneWaiting(m, r, x);
      Onward(Parked(0, r, x), Parked(m, r, x), s);
      Onward(Parked(0, r, x), s, s.(consumer := Testing(At(m, 2))));
      Onward(Parked(0, r, x), s.(consumer := Testing(At(m, 2))), Parked(n, r, x));
    }
  }

  lemma InitIsParked(x: int)
    ensures Init(2, 2, x) == Parked(0, Idle, x)
  {
    var s, p := Init(2, 2, x), Parked(0, Idle, x);
    assert At(0, 2) == Index(0, 0);
    assert s.data == p.data && s.flag == p.flag && s.producers == p.producers;
    assert s.claims == p.claims && s.popped == p.popped && s.pushed[0] == p.pushed[0] && s.pushed[1] == p.pushed[1];
    assert s.pushed == p.pushed;
  }

  /** The first producer has loaded the tail and is about to test for a full queue. */
  lemma FirstLoads(x: int)
    ensures Reaches(Init(2, 2, x), Parked(0, Loaded(x, 0, At(0, 2), 0), x))
  {
    hide Reaches;
    InitIsParked(x);
    var s0, s1 := Parked(0, Idle, x), Parked(0, Trying(x, 0), x);
    Stay(s0);
    Then(s0, s0, StartPush(0, x), s1);
    Then(s0, s1, LoadTail(0), Parked(0, Loaded(x, 0, At(0, 2), 0), x));
  }

  lemma DelayedStart(x: int)
    ensures Reaches(Init(2, 2, x), Parked(0, TailSeen(x, 0, At(0, 2), 0, At(0, 2), 0), x))
    ensures Reaches(Init(2, 2, x), Parked(0, HeadSeen(x, 0, At(0, 2), 0, At(0, 2), 0), x))
    ensures Reaches(Init(2, 2, x), Parked(0, Swapping(x, 1, At(0, 2), 0), x))
  {
    hide Reaches, Init;
    FirstLoads(x);
    var s0, w := Init(2, 2, x), At(0, 2);
    assert w == Index(0, 0);
    var s2 := Parked(0, Loaded(x, 0, w, 0), x);
    Then(s0, s2, FullLoadsHead(0), Parked(0, HeadSeen(x, 0, w, 0, w, 0), x));
    var s3 := Parked(0, TailSeen(x, 0, w, 0, w, 0), x);
    Then(s0, s2, FullLoadsTail(0), s3);
    Then(s0, s3, FullLoadsHead(0), Parked(0, Swapping(x, 1, w, 0), x));
  }

  /** "Full" can be wrong: a push whose two loads straddle a push and a pop of others is told "full"
      while the queue is empty. */
  lemma SpuriousFull(x: int)
    ensures exists s: State<int> ::
      && Reaches(Init(2, 2, x), s) && Shaped(s)
      && |s.claims| == |s.popped|
      && Enabled(s, FullLoadsHead(0)) && Step(s, FullLoadsHead(0)).producers[0].Idle?
  {
    var r := TailSeen(x, 0, At(0, 2), 0, At(0, 2), 0);
    var s := Parked(1, r, x);
    assert Step(s, FullLoadsHead(0)).producers[0].Idle?;
    hide Reaches;
    DelayedStart(x);
    ManyRounds(1, r, x);
    Onward(Init(2, 2, x), Parked(0, r, x), s);
  }

  /** The same for a push that loads the head first. */
  lemma SpuriousFullHeadFirst(x: int)
    ensures exists s: State<int> ::
      && Reaches(Init(2, 2, x), s) && Shaped(s)
      && |s.claims| == |s.popped|
      && Enabled(s, FullLoadsTail(0)) && Step(s, FullLoadsTail(0)).producers[0].Idle?
  {
    var r := HeadSeen(x, 0, At(0, 2), 0, At(0, 2), 0);
    var s := Parked(1, r, x);
    assert Step(s, FullLoadsTail(0)).producers[0].Idle?;
    hide Reaches;
    DelayedStart(x);
    ManyRounds(1, r, x);
    Onward(Init(2, 2, x), Parked(0, r, x), s);
  }

  /** Version numbers wrap: a producer that sleeps through 2^32 pushes before its compare-and-swap can
      succeed with it although the queue is full, so that more values wait than there is room for and
      the queue looks empty. */
  lemma StaleSwapOverfills(x: int)
    ensures exists s: State<int> ::
      && Reaches(Init(2, 2, x), s) && Shaped(s)
      && |s.claims| - |s.popped| > |s.flag| - 1
      && s.tail.index == s.head.index
  {
    var n, r := WRAP - 1, Swapping(x, 1, At(0, 2), 0);
    var s := OneWaiting(n, r, x);
    var s' := Step(s, Swap(0, false));
    assert s.tail == At(0, 2);
    assert s'.tail.index == 1 == s'.head.index;
    hide Reaches;
    DelayedStart(x);
    ManyRounds(n, r, x);
    PushRound(n, r, x);
    Onward(Init(2, 2, x), Parked(0, r, x), Parked(n, r, x));
    Onward(Init(2, 2, x), Parked(n, r, x), s);
    Then(Init(2, 2, x), s, Swap(0, false), s');
  }
}
