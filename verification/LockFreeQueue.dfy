/** The lock-free queue as a transition system: any number of producers and one consumer, one event
    per access to shared memory, sequentially consistent.  `claims` and `popped` are history: what
    was claimed, in the order of the successful compare-and-swaps on the tail, and what Pop returned. */
module LockFreeQueue {

  const WRAP: nat := 0x1_0000_0000   // version numbers are 32 bits wide
  const MAX_TRY_TIMES: nat := 100

  datatype Index = Index(version: nat, index: nat)

  /** The slot of the n-th position ever used. */
  function Slot(n: nat, q: nat): (i: nat)
    requires 0 < q
    ensures i < q
  {
    n % q
  }

  /** The index cell after n advances. */
  function At(n: nat, q: nat): Index
    requires 0 < q
  {
    Index(Slot(n, WRAP), Slot(n, q))
  }

  function Advance(i: Index, q: nat): Index
    requires 0 < q
  {
    Index((i.version + 1) % WRAP, (i.index + 1) % q)
  }

  /** A data slot; Torn while a producer is in the middle of writing it. */
  datatype Cell<T> = Whole(value: T) | Torn

  /** Where a producer stands in Push.  `at`, `tailAt`, `headAt` and `pos` are history: the number of
      advances of the cell at the time it was loaded, and the position claimed. */
  datatype Producer<T> =
    | Idle
    | Trying(data: T, tries: nat)
    | Loaded(data: T, tries: nat, oldTail: Index, at: nat)
    | TailSeen(data: T, tries: nat, oldTail: Index, at: nat, tail: Index, tailAt: nat)
    | HeadSeen(data: T, tries: nat, oldTail: Index, at: nat, head: Index, headAt: nat)
    | Swapping(data: T, tries: nat, oldTail: Index, at: nat)
    | Claimed(data: T, slot: nat, pos: nat)
    | Writing(data: T, slot: nat, pos: nat)
    | Flagging(data: T, slot: nat, pos: nat)
  {
    predicate Owns() { Claimed? || Writing? || Flagging? }
  }

  /** Where the consumer stands in Pop. */
  datatype Consumer<T> =
    | Resting
    | EmptyTailSeen(tail: Index, tailAt: nat)
    | EmptyHeadSeen(head: Index)
    | LoadingHead
    | Testing(oldHead: Index)
    | Reading(oldHead: Index)
    | Clearing(oldHead: Index, got: Cell<T>)
    | Storing(oldHead: Index, got: Cell<T>)

  datatype Claim<T> = Claim(producer: nat, data: T)

  datatype State<T> = State(
    tail: Index, head: Index, data: seq<Cell<T>>, flag: seq<bool>,
    producers: seq<Producer<T>>, consumer: Consumer<T>,
    claims: seq<Claim<T>>, popped: seq<Cell<T>>, pushed: seq<seq<T>>)

  /** One access to shared memory, or a call. */
  datatype Event<T> =
    | StartPush(p: nat, data: T)
    | LoadTail(p: nat)
    | FullLoadsTail(p: nat)
    | FullLoadsHead(p: nat)
    | Swap(p: nat, spurious: bool)
    | WriteBegin(p: nat)
    | WriteEnd(p: nat)
    | StoreFlag(p: nat)
    | EmptyLoadsTail
    | EmptyLoadsHead
    | LoadHead
    | LoadFlag
    | ReadData
    | ClearFlag
    | StoreHead

  predicate Shaped<T>(s: State<T>)
  {
    2 <= |s.flag| == |s.data| && |s.pushed| == |s.producers|
  }

  function Init<T>(q: nat, producers: nat, x: T): State<T>
  {
    State(Index(0, 0), Index(0, 0), seq(q, _ => Whole(x)), seq(q, _ => false),
          seq(producers, _ => Idle), Resting, [], [], seq(producers, _ => []))
  }

  predicate Enabled<T>(s: State<T>, e: Event<T>)
    requires Shaped(s)
  {
    if e.EmptyLoadsTail? then s.consumer.Resting? || s.consumer.EmptyHeadSeen?
    else if e.EmptyLoadsHead? then s.consumer.Resting? || s.consumer.EmptyTailSeen?
    else if e.LoadHead? then s.consumer.LoadingHead?
    else if e.LoadFlag? then s.consumer.Testing? && s.consumer.oldHead.index < |s.flag|
    else if e.ReadData? then s.consumer.Reading? && s.consumer.oldHead.index < |s.flag|
    else if e.ClearFlag? then s.consumer.Clearing? && s.consumer.oldHead.index < |s.flag|
    else if e.StoreHead? then s.consumer.Storing?
    else
      && e.p < |s.producers|
      && var r := s.producers[e.p];
         match e
         case StartPush(_, _) => r.Idle?
         case LoadTail(_) => r.Trying?
         case FullLoadsTail(_) => r.Loaded? || r.HeadSeen?
         case FullLoadsHead(_) => r.Loaded? || r.TailSeen?
         case Swap(_, _) => r.Swapping?
         case WriteBegin(_) => r.Claimed? && r.slot < |s.flag|
         case WriteEnd(_) => r.Writing? && r.slot < |s.flag|
         case StoreFlag(_) => r.Flagging? && r.slot < |s.flag|
         case _ => false
  }

  function SetProducer<T>(s: State<T>, p: nat, r: Producer<T>): State<T>
    requires p < |s.producers|
  {
    s.(producers := s.producers[p := r])
  }

  /** IsFull on the two loaded cells. */
  predicate LooksFull(tail: Index, head: Index, q: nat)
    requires 0 < q
  {
    (tail.index + 1) % q == head.index
  }

  function Step<T>(s: State<T>, e: Event<T>): State<T>
    requires Shaped(s) && Enabled(s, e)
  {
    var q := |s.flag|;
    match e
    case StartPush(p, x) => SetProducer(s, p, Trying(x, 0))
    case LoadTail(p) =>
      var r := s.producers[p];
      SetProducer(s, p, if r.tries >= MAX_TRY_TIMES then Idle else Loaded(r.data, r.tries, s.tail, |s.claims|))
    case FullLoadsTail(p) =>
      var r := s.producers[p];
      SetProducer(s, p,
        if r.Loaded? then TailSeen(r.data, r.tries, r.oldTail, r.at, s.tail, |s.claims|)
        else if LooksFull(s.tail, r.head, q) then Idle
        else Swapping(r.data, r.tries + 1, r.oldTail, r.at))
    case FullLoadsHead(p) =>
      var r := s.producers[p];
      SetProducer(s, p,
        if r.Loaded? then HeadSeen(r.data, r.tries, r.oldTail, r.at, s.head, |s.popped|)
        else if LooksFull(r.tail, s.head, q) then Idle
        else Swapping(r.data, r.tries + 1, r.oldTail, r.at))
    case Swap(p, spurious) =>
      var r := s.producers[p];
      if s.tail == r.oldTail && !spurious then
        SetProducer(s, p, Claimed(r.data, r.oldTail.index, |s.claims|))
          .(tail := Advance(r.oldTail, q), claims := s.claims + [Claim(p, r.data)])
      else SetProducer(s, p, Trying(r.data, r.tries))
    case WriteBegin(p) =>
      var r := s.producers[p];
      SetProducer(s, p, Writing(r.data, r.slot, r.pos)).(data := s.data[r.slot := Torn])
    case WriteEnd(p) =>
      var r := s.producers[p];
      SetProducer(s, p, Flagging(r.data, r.slot, r.pos)).(data := s.data[r.slot := Whole(r.data)])
    case StoreFlag(p) =>
      var r := s.producers[p];
      SetProducer(s, p, Idle)
        .(flag := s.flag[r.slot := true], pushed := s.pushed[p := s.pushed[p] + [r.data]])
    case EmptyLoadsTail =>
      if s.consumer.Resting? then s.(consumer := EmptyTailSeen(s.tail, |s.claims|))
      else s.(consumer := if s.tail.index == s.consumer.head.index then Resting else LoadingHead)
    case EmptyLoadsHead =>
      if s.consumer.Resting? then s.(consumer := EmptyHeadSeen(s.head))
      else s.(consumer := if s.consumer.tail.index == s.head.index then Resting else LoadingHead)
    case LoadHead => s.(consumer := Testing(s.head))
    case LoadFlag => s.(consumer := if s.flag[s.consumer.oldHead.index] then Reading(s.consumer.oldHead) else Resting)
    case ReadData => s.(consumer := Clearing(s.consumer.oldHead, s.data[s.consumer.oldHead.index]))
    case ClearFlag =>
      s.(consumer := Storing(s.consumer.oldHead, s.consumer.got), flag := s.flag[s.consumer.oldHead.index := false])
    case StoreHead =>
      s.(consumer := Resting, head := Advance(s.consumer.oldHead, q), popped := s.popped + [s.consumer.got])
  }

  /** No producer sleeps through 2^32 pushes between its load of the tail and its compare-and-swap. */
  predicate Timely<T>(s: State<T>, e: Event<T>)
    requires Shaped(s) && Enabled(s, e)
  {
    e.Swap? ==> |s.claims| - s.producers[e.p].at < WRAP
  }

  // ------------------------------------------------------------ the invariant

  ghost predicate Bounds<T>(s: State<T>)
    requires Shaped(s)
  {
    var q, h, t := |s.flag|, |s.popped|, |s.claims|;
    && s.tail == At(t, q)
    && s.head == At(h, q)
    && h <= t < h + q
    && (forall i :: 0 <= i < h ==> s.popped[i] == Whole(s.claims[i].data))
  }

  ghost predicate ProducerOk<T>(s: State<T>, p: nat)
    requires Shaped(s) && p < |s.producers|
  {
    var q, h, t, r := |s.flag|, |s.popped|, |s.claims|, s.producers[p];
    if r.Owns() then
      && h <= r.pos < t
      && r.slot == Slot(r.pos, q)
      && s.claims[r.pos] == Claim(p, r.data)
      && !s.flag[r.slot]
      && !(s.consumer.Storing? && r.pos == h)
      && (r.Flagging? ==> s.data[r.slot] == Whole(r.data))
    else if r.Idle? || r.Trying? then true
    else
      && r.oldTail == At(r.at, q) && r.at <= t
      && (r.TailSeen? ==> r.tail == At(r.tailAt, q) && r.at <= r.tailAt <= t)
      && (r.HeadSeen? ==> r.head == At(r.headAt, q) && r.headAt <= h && (r.at == t ==> t < r.headAt + q))
      && (r.Swapping? ==> r.at == t ==> t + 1 < h + q)
  }

  /** A claimed and not yet popped position is either ready, or owned by its claimant, or just being
      given back by the consumer. */
  ghost predicate PositionOk<T>(s: State<T>, n: nat)
    requires Shaped(s) && n < |s.claims|
  {
    var slot, c := Slot(n, |s.flag|), s.claims[n];
    if s.flag[slot] then s.data[slot] == Whole(c.data)
    else if s.consumer.Storing? && n == |s.popped| then true
    else c.producer < |s.producers| && s.producers[c.producer].Owns() && s.producers[c.producer].pos == n
  }

  ghost predicate ConsumerOk<T>(s: State<T>)
    requires Shaped(s)
  {
    var q, h, t := |s.flag|, |s.popped|, |s.claims|;
    match s.consumer
    case Resting => true
    case EmptyTailSeen(tail, tailAt) => tail == At(tailAt, q) && h <= tailAt <= t
    case EmptyHeadSeen(head) => head == At(h, q)
    case LoadingHead => h < t
    case Testing(oldHead) => h < t && oldHead == At(h, q)
    case Reading(oldHead) => h < t && oldHead == At(h, q) && s.flag[Slot(h, q)]
    case Clearing(oldHead, got) => h < t && oldHead == At(h, q) && s.flag[Slot(h, q)] && got == Whole(s.claims[h].data)
    case Storing(oldHead, got) => h < t && oldHead == At(h, q) && !s.flag[Slot(h, q)] && got == Whole(s.claims[h].data)
  }

  /** The slots outside the claimed window are unflagged. */
  ghost predicate FreeOk<T>(s: State<T>)
    requires Shaped(s)
  {
    forall n: nat :: |s.claims| <= n < |s.popped| + |s.flag| ==> !s.flag[Slot(n, |s.flag|)]
  }

  /** What producer p claimed, in order. */
  ghost function ClaimsOf<T>(claims: seq<Claim<T>>, p: nat): seq<T>
  {
    if claims == [] then []
    else
      var c := claims[|claims| - 1];
      ClaimsOf(claims[..|claims| - 1], p) + (if c.producer == p then [c.data] else [])
  }

  ghost predicate HistoryOk<T>(s: State<T>, p: nat)
    requires Shaped(s) && p < |s.producers|
  {
    var r := s.producers[p];
    ClaimsOf(s.claims, p) == s.pushed[p] + (if r.Owns() then [r.data] else [])
  }

  ghost predicate Inv<T>(s: State<T>)
  {
    && Shaped(s)
    && Bounds(s)
    && (forall p: nat :: p < |s.producers| ==> ProducerOk(s, p))
    && (forall n: nat :: |s.popped| <= n < |s.claims| ==> PositionOk(s, n))
    && ConsumerOk(s)
    && FreeOk(s)
    && (forall p: nat :: p < |s.producers| ==> HistoryOk(s, p))
  }
}
