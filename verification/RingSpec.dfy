/** What the variable-length ring buffer means: where its items lie and how push and pop
    move them.  `n` is the size of the byte buffer and `h` the size of an item header. */
module RingSpec {
  import opened HeaderCodec

  type Item = seq<byte>

  /** The layouts of the buffer.
      Flat:    the items follow one another from `start`; the rest of the buffer is unused.
      Wrapped: `upper` runs from `start` towards the top of the buffer, the bytes between its
               last item and the top are a gap (skip bytes when no header fits there, one padding
               item otherwise), and `lower` runs from offset 0. */
  datatype Ring =
    | Flat(start: nat, items: seq<Item>)
    | Wrapped(start: nat, upper: seq<Item>, lower: seq<Item>)

  const EMPTY := Flat(0, [])

  /** `x % n`, with its value for the sums the code forms, which stay below twice the size. */
  function Mod(x: nat, n: nat): (m: nat)
    requires 0 < n
    ensures x < 2 * n ==> m == if x < n then x else x - n
  {
    x % n
  }

  /** Number of bytes a run of items takes, headers included. */
  function Extent(items: seq<Item>, h: nat): nat
  {
    if items == [] then 0 else h + |items[0]| + Extent(items[1..], h)
  }

  /** The stored byte strings, oldest first. */
  function Contents(r: Ring): seq<Item>
  {
    match r
    case Flat(_, items) => items
    case Wrapped(_, upper, lower) => upper + lower
  }

  /** Offset at which the next header would be written. */
  function End(r: Ring, h: nat): nat
  {
    match r
    case Flat(start, items) => start + Extent(items, h)
    case Wrapped(_, _, lower) => Extent(lower, h)
  }

  predicate WellFormed(r: Ring, n: nat, h: nat)
  {
    match r
    case Flat(start, items) =>
      if items == [] then start == 0 else start + Extent(items, h) + h <= n
    case Wrapped(start, upper, lower) =>
      upper != [] && start + Extent(upper, h) <= n && Extent(lower, h) <= start
  }

  function Used(r: Ring, n: nat, h: nat): nat
    requires WellFormed(r, n, h)
  {
    match r
    case Flat(_, items) => Extent(items, h)
    case Wrapped(start, upper, lower) => n - start + Extent(lower, h)
  }

  /** Whether the byte at offset `b` belongs to an item or to the gap. */
  predicate InUse(r: Ring, h: nat, b: nat)
  {
    match r
    case Flat(start, _) => start <= b < End(r, h)
    case Wrapped(start, _, _) => start <= b || b < End(r, h)
  }

  /** `need` consecutive bytes from offset `p` hold neither an item nor the gap. */
  predicate FreeRun(r: Ring, n: nat, h: nat, p: nat, need: nat)
  {
    p + need <= n && forall b :: p <= b < p + need ==> !InUse(r, h, b)
  }

  /** Some run of `need` consecutive bytes is free. */
  ghost predicate RoomFor(r: Ring, n: nat, h: nat, need: nat)
  {
    exists p: nat :: FreeRun(r, n, h, p, need)
  }

  /** Whether a push that may not overwrite is accepted. */
  predicate Accepts(r: Ring, n: nat, h: nat, need: nat)
  {
    match r
    case Flat(start, _) => End(r, h) + need <= n || need <= start
    case Wrapped(start, _, _) => End(r, h) + need <= start
  }

  lemma {:induction false} ExtentAppend(a: seq<Item>, b: seq<Item>, h: nat)
    ensures Extent(a + b, h) == Extent(a, h) + Extent(b, h)
  {
    if a == [] {
      assert a + b == b;
    } else {
      assert (a + b)[1..] == a[1..] + b;
      ExtentAppend(a[1..], b, h);
    }
  }

  /** Storing `x`: after the last item if it fits below the top of the buffer, else at offset 0
      behind padding.  When the item leaves no room for another header below the top, the few bytes
      left become a gap. */
  function Pushed(r: Ring, n: nat, h: nat, x: Item): (p: Ring)
    requires WellFormed(r, n, h) && Accepts(r, n, h, h + |x|)
    ensures h > 0 ==> WellFormed(p, n, h) && Contents(p) == Contents(r) + [x]
  {
    match r
    case Flat(start, items) =>
      ExtentAppend(items, [x], h);
      assert Extent([x], h) == h + |x|;
      if End(r, h) + h + |x| > n then Wrapped(start, items, [x])
      else if End(r, h) + h + |x| + h > n then Wrapped(start, items + [x], [])
      else Flat(start, items + [x])
    case Wrapped(start, upper, lower) =>
      ExtentAppend(lower, [x], h);
      assert upper + (lower + [x]) == upper + lower + [x];
      Wrapped(start, upper, lower + [x])
  }

  function Popped(r: Ring, n: nat, h: nat): (p: Ring)
    requires WellFormed(r, n, h) && Contents(r) != []
    ensures WellFormed(p, n, h)
    ensures Contents(p) == Contents(r)[1..]
  {
    match r
    case Flat(start, items) =>
      if |items| == 1 then EMPTY else Flat(start + h + |items[0]|, items[1..])
    case Wrapped(start, upper, lower) =>
      assert upper != [];
      if |upper| == 1 then Flat(0, lower) else Wrapped(start + h + |upper[0]|, upper[1..], lower)
  }

  /** A push that may overwrite: items are dropped, oldest first, while the push does not fit. */
  function OverPush(r: Ring, n: nat, h: nat, x: Item): (p: Ring)
    requires WellFormed(r, n, h) && 0 < h && h + |x| <= n
    decreases |Contents(r)|
  {
    if Accepts(r, n, h, h + |x|) then Pushed(r, n, h, x) else OverPush(Popped(r, n, h), n, h, x)
  }

  /** How many items such a push drops. */
  function Victims(r: Ring, n: nat, h: nat, x: Item): (k: nat)
    requires WellFormed(r, n, h) && 0 < h && h + |x| <= n
    ensures k <= |Contents(r)|
    decreases |Contents(r)|
  {
    if Accepts(r, n, h, h + |x|) then 0 else 1 + Victims(Popped(r, n, h), n, h, x)
  }

  // ------------------------------------------------------------ properties

  /** A push that may not overwrite is accepted exactly when the buffer has a free run of bytes
      long enough for the header and the payload, wherever that run lies. */
  lemma AcceptsIffRoom(r: Ring, n: nat, h: nat, need: nat)
    requires WellFormed(r, n, h) && 0 < h <= need
    ensures Accepts(r, n, h, need) <==> RoomFor(r, n, h, need)
  {
    if Accepts(r, n, h, need) {
      var p := if End(r, h) + need <= (if r.Flat? then n else r.start) then End(r, h) else 0;
      assert FreeRun(r, n, h, p, need);
    } else {
      forall p: nat ensures !FreeRun(r, n, h, p, need) {
        // the byte of a would-be run that is taken
        var b := if r.Wrapped? then (if p < End(r, h) then p else p + need - 1)
                 else if p < r.start then r.start
                 else if p < End(r, h) then p else p + need - 1;
        assert p <= b < p + need && (InUse(r, h, b) || p + need > n);
      }
    }
  }

  /** The `k`-fold pop. */
  function PopMany(r: Ring, n: nat, h: nat, k: nat): (p: Ring)
    requires WellFormed(r, n, h) && k <= |Contents(r)|
    ensures WellFormed(p, n, h) && Contents(p) == Contents(r)[k..]
    decreases k
  {
    if k == 0 then r else PopMany(Popped(r, n, h), n, h, k - 1)
  }

  /** Dropping any fewer items would not make room. */
  lemma {:induction false} FewerDoNotMakeRoom(r: Ring, n: nat, h: nat, x: Item, j: nat)
    requires WellFormed(r, n, h) && 0 < h && h + |x| <= n
    requires j < Victims(r, n, h, x)
    ensures j < |Contents(r)| && !Accepts(PopMany(r, n, h, j), n, h, h + |x|)
    decreases j
  {
    if j > 0 {
      FewerDoNotMakeRoom(Popped(r, n, h), n, h, x, j - 1);
    }
  }

  /** An overwriting push equals popping its victims and then doing a plain push. */
  lemma {:induction false} OverPushIsPopThenPush(r: Ring, n: nat, h: nat, x: Item)
    requires WellFormed(r, n, h) && 0 < h && h + |x| <= n
    ensures var k := Victims(r, n, h, x);
      && Accepts(PopMany(r, n, h, k), n, h, h + |x|)
      && OverPush(r, n, h, x) == Pushed(PopMany(r, n, h, k), n, h, x)
    decreases |Contents(r)|
  {
    if !Accepts(r, n, h, h + |x|) {
      OverPushIsPopThenPush(Popped(r, n, h), n, h, x);
    }
  }

  /** Overwriting is minimal eviction: with k the least number of pops after which a plain push is
      accepted, it drops exactly the k oldest items and leaves what that plain push would leave. */
  lemma OverPushIsMinimal(r: Ring, n: nat, h: nat, x: Item)
    requires WellFormed(r, n, h) && 0 < h && h + |x| <= n
    ensures exists k: nat ::
      && k <= |Contents(r)|
      && Accepts(PopMany(r, n, h, k), n, h, h + |x|)
      && (forall j: nat :: j < k ==> !Accepts(PopMany(r, n, h, j), n, h, h + |x|))
      && k == Victims(r, n, h, x)
      && OverPush(r, n, h, x) == Pushed(PopMany(r, n, h, k), n, h, x)
      && Contents(OverPush(r, n, h, x)) == Contents(r)[k..] + [x]
  {
    var k := Victims(r, n, h, x);
    OverPushIsPopThenPush(r, n, h, x);
    forall j: nat | j < k ensures !Accepts(PopMany(r, n, h, j), n, h, h + |x|) {
      FewerDoNotMakeRoom(r, n, h, x, j);
    }
  }

  /** One step of an overwriting push with the padding written and without it. */
  lemma PaddingStep(start: nat, items: seq<Item>, n: nat, h: nat, x: Item)
    requires items != [] && WellFormed(Flat(start, items), n, h) && 0 < h && h + |x| <= n
    requires start + Extent(items, h) + h + |x| > n
    ensures var f, p := Flat(start, items), Wrapped(start, items, []);
      && WellFormed(p, n, h)
      && (Accepts(f, n, h, h + |x|) <==> Accepts(p, n, h, h + |x|))
      && (Accepts(f, n, h, h + |x|) ==> Pushed(f, n, h, x) == Pushed(p, n, h, x))
      && Contents(f) == Contents(p) == items
      && (|items| == 1 ==> Popped(f, n, h) == Popped(p, n, h))
      && (|items| > 1 ==>
            && Popped(f, n, h) == Flat(start + h + |items[0]|, items[1..])
            && Popped(p, n, h) == Wrapped(start + h + |items[0]|, items[1..], [])
            && start + h + |items[0]| + Extent(items[1..], h) + h + |x| > n)
  {
    assert items + [] == items;
  }

  /** Writing the padding before the evictions instead of after them makes no difference. */
  lemma {:induction false} PaddingFirst(start: nat, items: seq<Item>, n: nat, h: nat, x: Item)
    requires items != [] && WellFormed(Flat(start, items), n, h) && 0 < h && h + |x| <= n
    requires start + Extent(items, h) + h + |x| > n
    ensures WellFormed(Wrapped(start, items, []), n, h)
    ensures OverPush(Flat(start, items), n, h, x) == OverPush(Wrapped(start, items, []), n, h, x)
    ensures Victims(Flat(start, items), n, h, x) == Victims(Wrapped(start, items, []), n, h, x)
    decreases |items|
  {
    hide WellFormed, Accepts, Pushed, Popped, Extent, Contents;
    PaddingStep(start, items, n, h, x);
    if !Accepts(Flat(start, items), n, h, h + |x|) && |items| > 1 {
      PaddingFirst(start + h + |items[0]|, items[1..], n, h, x);
    }
  }

  /** From `r0`, some items have been dropped (`seen`, oldest first) on the way to storing `x`;
      finishing the job from `r` gives what the whole job from `r0` must give. */
  ghost predicate OnTheWay(r0: Ring, r: Ring, seen: seq<Item>, n: nat, h: nat, x: Item)
    requires WellFormed(r0, n, h) && WellFormed(r, n, h) && 0 < h && h + |x| <= n
  {
    && OverPush(r, n, h, x) == OverPush(r0, n, h, x)
    && |seen| + Victims(r, n, h, x) == Victims(r0, n, h, x)
    && seen == Contents(r0)[..|seen|]
    && Contents(r) == Contents(r0)[|seen|..]
  }

  lemma OnTheWayStart(r: Ring, n: nat, h: nat, x: Item)
    requires WellFormed(r, n, h) && 0 < h && h + |x| <= n
    ensures OnTheWay(r, r, [], n, h, x)
  {
  }

  lemma OnTheWayDone(r0: Ring, r: Ring, seen: seq<Item>, n: nat, h: nat, x: Item)
    requires WellFormed(r0, n, h) && WellFormed(r, n, h) && 0 < h && h + |x| <= n
    requires OnTheWay(r0, r, seen, n, h, x) && Accepts(r, n, h, h + |x|)
    ensures Pushed(r, n, h, x) == OverPush(r0, n, h, x)
    ensures seen == Contents(r0)[..Victims(r0, n, h, x)]
  {
  }

  lemma OnTheWayPop(r0: Ring, r: Ring, seen: seq<Item>, n: nat, h: nat, x: Item)
    requires WellFormed(r0, n, h) && WellFormed(r, n, h) && 0 < h && h + |x| <= n
    requires OnTheWay(r0, r, seen, n, h, x) && !Accepts(r, n, h, h + |x|)
    ensures Contents(r) != []
    ensures OnTheWay(r0, Popped(r, n, h), seen + [Contents(r)[0]], n, h, x)
  {
    var p := Popped(r, n, h);
    assert OverPush(p, n, h, x) == OverPush(r, n, h, x);
    assert Victims(r, n, h, x) == 1 + Victims(p, n, h, x);
    hide Popped, OverPush, Victims, WellFormed, Accepts;
    assert Contents(r)[0] == Contents(r0)[|seen|];
  }

  lemma OnTheWayPadding(r0: Ring, r: Ring, seen: seq<Item>, n: nat, h: nat, x: Item)
    requires WellFormed(r0, n, h) && WellFormed(r, n, h) && 0 < h && h + |x| <= n
    requires OnTheWay(r0, r, seen, n, h, x)
    requires r.Flat? && r.items != [] && End(r, h) + h + |x| > n
    ensures WellFormed(Wrapped(r.start, r.items, []), n, h)
    ensures OnTheWay(r0, Wrapped(r.start, r.items, []), seen, n, h, x)
  {
    PaddingFirst(r.start, r.items, n, h, x);
    hide OverPush, Victims, WellFormed;
    assert r.items + [] == r.items;
  }

  lemma OnTheWayArrive(r0: Ring, r: Ring, seen: seq<Item>, more: seq<Item>, n: nat, h: nat, x: Item)
    requires WellFormed(r0, n, h) && WellFormed(r, n, h) && 0 < h && h + |x| <= n
    requires OnTheWay(r0, r, seen, n, h, x)
    requires more == Contents(r)[..Victims(r, n, h, x)]
    ensures OverPush(r, n, h, x) == OverPush(r0, n, h, x)
    ensures seen + more == Contents(r0)[..Victims(r0, n, h, x)]
  {
    hide OverPush, Victims, WellFormed, Contents;
  }

  // ------------------------------------------------------------ whole runs

  datatype Op = PushOp(item: Item, overWrite: bool) | PopOp | ClearOp

  /** One caller operation: the new layout, whether a push was accepted, and the items that left the
      buffer (popped, overwritten or cleared), in the order in which they left. */
  datatype Outcome = Outcome(ring: Ring, accepted: bool, left: seq<Item>)

  function Apply(r: Ring, op: Op, n: nat, h: nat): (o: Outcome)
    requires WellFormed(r, n, h) && 0 < h
  {
    match op
    case PushOp(x, over) =>
      if h + |x| > n || (!over && !Accepts(r, n, h, h + |x|)) then Outcome(r, false, [])
      else Outcome(OverPush(r, n, h, x), true, Contents(r)[..Victims(r, n, h, x)])
    case PopOp =>
      if Contents(r) == [] then Outcome(r, false, [])
      else Outcome(Popped(r, n, h), false, [Contents(r)[0]])
    case ClearOp => Outcome(EMPTY, false, Contents(r))
  }

  lemma OverPushContents(r: Ring, n: nat, h: nat, x: Item)
    requires WellFormed(r, n, h) && 0 < h && h + |x| <= n
    ensures WellFormed(OverPush(r, n, h, x), n, h)
    ensures Contents(OverPush(r, n, h, x)) == Contents(r)[Victims(r, n, h, x)..] + [x]
  {
    OverPushIsPopThenPush(r, n, h, x);
  }

  lemma SplitAndAppend(s: seq<Item>, k: nat, x: Item)
    requires k <= |s|
    ensures s[..k] + (s[k..] + [x]) == s + [x]
  {
  }

  /** No operation invents, loses or reorders an item. */
  lemma ApplyConserves(r: Ring, op: Op, n: nat, h: nat)
    requires WellFormed(r, n, h) && 0 < h
    ensures WellFormed(Apply(r, op, n, h).ring, n, h)
    ensures var o := Apply(r, op, n, h);
      o.left + Contents(o.ring) == Contents(r) + (if o.accepted then [op.item] else [])
  {
    match op
    case PushOp(x, over) =>
      if Apply(r, op, n, h).accepted {
        OverPushContents(r, n, h, x);
        SplitAndAppend(Contents(r), Victims(r, n, h, x), x);
      }
    case PopOp =>
      if Contents(r) != [] {
        assert Contents(r) == [Contents(r)[0]] + Contents(r)[1..];
      }
    case ClearOp =>
      assert Contents(EMPTY) == [];
  }

  /** A push is refused exactly when the item is larger than the buffer or, unless it may overwrite, when there is no
      free run of bytes for it; then nothing changes. Otherwise the item goes behind the others, of which as few as
      possible, the oldest, have left. */
  lemma PushAnswer(r: Ring, x: Item, over: bool, n: nat, h: nat)
    requires WellFormed(r, n, h) && 0 < h
    ensures var o := Apply(r, PushOp(x, over), n, h);
      && (o.accepted <==> h + |x| <= n && (over || RoomFor(r, n, h, h + |x|)))
      && (!o.accepted ==> o.ring == r && o.left == [])
      && (o.accepted ==>
            && |o.left| <= |Contents(r)| && o.left == Contents(r)[..|o.left|]
            && Contents(o.ring) == Contents(r)[|o.left|..] + [x]
            && RoomFor(PopMany(r, n, h, |o.left|), n, h, h + |x|)
            && (forall j: nat :: j < |o.left| ==> !RoomFor(PopMany(r, n, h, j), n, h, h + |x|)))
  {
    hide WellFormed, Accepts, RoomFor, OverPush, PopMany, Victims;
    AcceptsIffRoom(r, n, h, h + |x|);
    if h + |x| <= n {
      OverPushContents(r, n, h, x);
      VictimsMakeRoom(r, n, h, x);
      NoVictims(r, n, h, x);
      NoneLeft(Contents(r));
    }
  }

  lemma NoneLeft(s: seq<Item>)
    ensures s[..0] == [] && s[0..] == s
  {
  }

  /** There is room once the victims are popped, and not before. */
  lemma VictimsMakeRoom(r: Ring, n: nat, h: nat, x: Item)
    requires WellFormed(r, n, h) && 0 < h && h + |x| <= n
    ensures var v := Victims(r, n, h, x);
      && v <= |Contents(r)| && RoomFor(PopMany(r, n, h, v), n, h, h + |x|)
      && forall j: nat :: j < v ==> !RoomFor(PopMany(r, n, h, j), n, h, h + |x|)
  {
    hide WellFormed, Accepts, RoomFor, OverPush, Pushed, Popped, PopMany, Victims;
    OverPushIsPopThenPush(r, n, h, x);
    AcceptsIffRoom(PopMany(r, n, h, Victims(r, n, h, x)), n, h, h + |x|);
    forall j: nat | j < Victims(r, n, h, x) ensures !RoomFor(PopMany(r, n, h, j), n, h, h + |x|) {
      FewerDoNotMakeRoom(r, n, h, x, j);
      AcceptsIffRoom(PopMany(r, n, h, j), n, h, h + |x|);
    }
  }

  lemma NoVictims(r: Ring, n: nat, h: nat, x: Item)
    requires WellFormed(r, n, h) && 0 < h && h + |x| <= n
    ensures Accepts(r, n, h, h + |x|) <==> Victims(r, n, h, x) == 0
  {
  }

  /** A pop hands out the oldest item and keeps the rest; clearing gives up everything. */
  lemma PopAndClearAnswer(r: Ring, n: nat, h: nat)
    requires WellFormed(r, n, h) && 0 < h
    ensures var o := Apply(r, PopOp, n, h);
      if Contents(r) == [] then o.ring == r && o.left == []
      else o.left == [Contents(r)[0]] && Contents(o.ring) == Contents(r)[1..]
    ensures var o := Apply(r, ClearOp, n, h); o.left == Contents(r) && o.ring == Flat(0, [])
    ensures !Apply(r, PopOp, n, h).accepted && !Apply(r, ClearOp, n, h).accepted
  {
  }

  /** The layout after a run, every item accepted during it, and every item that left during it. */
  datatype Trace = Trace(ring: Ring, accepted: seq<Item>, left: seq<Item>)

  function Run(ops: seq<Op>, n: nat, h: nat): (t: Trace)
    requires 0 < h
    ensures WellFormed(t.ring, n, h)
  {
    if ops == [] then Trace(EMPTY, [], [])
    else
      var t := Run(ops[..|ops| - 1], n, h);
      var op := ops[|ops| - 1];
      ApplyConserves(t.ring, op, n, h);
      var o := Apply(t.ring, op, n, h);
      Trace(o.ring, t.accepted + (if o.accepted then [op.item] else []), t.left + o.left)
  }

  /** First in, first out, over every run: what left the buffer, followed by what is still in it, is
      what was accepted, in order: no item is lost, duplicated, reordered or changed. */
  lemma {:induction false} RunIsFifo(ops: seq<Op>, n: nat, h: nat)
    requires 0 < h
    ensures var t := Run(ops, n, h); t.accepted == t.left + Contents(t.ring)
  {
    if ops == [] {
    } else {
      var t := Run(ops[..|ops| - 1], n, h);
      var op := ops[|ops| - 1];
      RunIsFifo(ops[..|ops| - 1], n, h);
      ApplyConserves(t.ring, op, n, h);
      var o := Apply(t.ring, op, n, h);
      assert t.left + o.left + Contents(o.ring) == t.left + (o.left + Contents(o.ring));
    }
  }

  /** The counters the code keeps: bytes in use never exceed the buffer, agree with the two offsets
      modulo its size, and tell an empty from a full buffer where the offsets alone cannot. */
  lemma UsedAndOffsets(r: Ring, n: nat, h: nat)
    requires WellFormed(r, n, h) && 0 < n && 0 < h
    ensures 0 <= Used(r, n, h) <= n
    ensures (Used(r, n, h) - (End(r, h) - r.start)) % n == 0
    ensures Used(r, n, h) == 0 <==> Contents(r) == []
    ensures Contents(r) == [] ==> r.start == 0 && End(r, h) == 0
    ensures Contents(r) != [] ==> r.start + h <= n && End(r, h) + h <= n
    ensures r.start == End(r, h) <==> Used(r, n, h) == 0 || Used(r, n, h) == n
    ensures Extent(Contents(r), h) <= Used(r, n, h)
  {
    if r.Wrapped? {
      ExtentAppend(r.upper, r.lower, h);
      assert (Used(r, n, h) - (End(r, h) - r.start)) == n;
    }
  }

  /** What a push does to the counters, as the code computes them. */
  lemma PushFlatCounters(r: Ring, n: nat, h: nat, x: Item)
    requires r.Flat? && WellFormed(r, n, h) && 0 < h && End(r, h) + h + |x| <= n
    ensures var p, e := Pushed(r, n, h, x), Mod(End(r, h) + h + |x|, n);
      var skip := if e + h > n then n - e else 0;
      && e < n && 0 <= skip
      && End(p, h) == Mod(e + skip, n)
      && Used(p, n, h) == Used(r, n, h) + h + |x| + skip
      && p.start == r.start
      && |Contents(p)| == |Contents(r)| + 1
  {
    hide Mod;
    ExtentAppend(r.items, [x], h);
    assert Extent([x], h) == h + |x|;
  }

  lemma PushWrappedCounters(r: Ring, n: nat, h: nat, x: Item)
    requires r.Wrapped? && WellFormed(r, n, h) && 0 < h && End(r, h) + h + |x| <= r.start
    ensures var p := Pushed(r, n, h, x);
      && End(p, h) == End(r, h) + h + |x|
      && Used(p, n, h) == Used(r, n, h) + h + |x|
      && p.start == r.start
      && |Contents(p)| == |Contents(r)| + 1
  {
    ExtentAppend(r.lower, [x], h);
    assert Extent([x], h) == h + |x|;
  }

  lemma Shape(r: Ring, n: nat, h: nat)
    requires WellFormed(r, n, h) && 0 < h
    ensures r.start <= n
    ensures r.Flat? ==> r.start <= End(r, h)
    ensures r.Flat? && r.items != [] ==> 0 < End(r, h) && End(r, h) + h <= n
    ensures r.Wrapped? ==> End(r, h) <= r.start && (Used(r, n, h) < n ==> End(r, h) < r.start)
    ensures 0 < n && Used(r, n, h) >= n ==> r.Wrapped? && End(r, h) == r.start
    ensures Used(r, n, h) == 0 <==> Contents(r) == []
    ensures Contents(r) == [] ==> r == EMPTY
  {
  }

  lemma PopShape(r: Ring, n: nat, h: nat)
    requires WellFormed(r, n, h) && 0 < h && Contents(r) != []
    ensures Used(Popped(r, n, h), n, h) < Used(r, n, h)
    ensures r.Flat? ==> Popped(r, n, h).Flat?
    ensures r.Wrapped? ==>
      && End(Popped(r, n, h), h) == End(r, h)
      && if Popped(r, n, h).Wrapped? then Popped(r, n, h).lower == r.lower && Popped(r, n, h).start > r.start
         else Popped(r, n, h) == Flat(0, r.lower)
  {
    if r.Wrapped? && |r.upper| == 1 {
      assert Extent(r.upper, h) == h + |r.upper[0]|;
    }
  }
}
