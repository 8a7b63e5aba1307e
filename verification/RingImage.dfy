/** How a ring layout lies in the byte buffer. */
module RingImage {
  import opened HeaderCodec
  import opened RingSpec

  /** At `at` there is a header with flag 0 and the length of `x`, and behind it the bytes of `x`. */
  predicate Stored(b: seq<byte>, at: nat, x: Item, w: nat)
  {
    && 0 < w
    && at + 2 * w + |x| <= |b|
    && FlagAt(b, at) == 0
    && LenAt(b, at, w) == |x|
    && b[at + 2 * w..at + 2 * w + |x|] == x
  }

  /** The bytes from `at` on are the given items, one stored behind the other. */
  predicate Tiled(b: seq<byte>, at: nat, items: seq<Item>, w: nat)
    decreases |items|
  {
    items == [] ||
    (Stored(b, at, items[0], w) && Tiled(b, at + 2 * w + |items[0]|, items[1..], w))
  }

  /** The bytes from `top` up are the gap before the wrap: skip bytes if no header fits there, else
      one padding item that reaches to the end of the buffer. */
  predicate Gap(b: seq<byte>, top: nat, w: nat)
  {
    && 0 < w
    && top <= |b|
    && (top + 2 * w <= |b| ==> FlagAt(b, top) == 1 && LenAt(b, top, w) == |b| - top - 2 * w)
  }

  predicate Image(b: seq<byte>, r: Ring, w: nat)
  {
    match r
    case Flat(start, items) => Tiled(b, start, items, w)
    case Wrapped(start, upper, lower) =>
      && Tiled(b, start, upper, w)
      && Gap(b, start + Extent(upper, 2 * w), w)
      && Tiled(b, 0, lower, w)
  }

  /** The two byte strings differ at most between `lo` and `hi`. */
  predicate SameOutside(b: seq<byte>, c: seq<byte>, lo: nat, hi: nat)
  {
    |b| == |c| && forall i :: 0 <= i < |b| && !(lo <= i < hi) ==> b[i] == c[i]
  }

  lemma StoredFrame(b: seq<byte>, c: seq<byte>, at: nat, x: Item, w: nat)
    requires Stored(b, at, x, w) && |b| == |c|
    requires forall i :: at <= i < at + 2 * w + |x| ==> b[i] == c[i]
    ensures Stored(c, at, x, w)
  {
    assert b[at + w..at + 2 * w] == c[at + w..at + 2 * w];
    assert b[at + 2 * w..at + 2 * w + |x|] == c[at + 2 * w..at + 2 * w + |x|];
  }

  lemma GapFrame(b: seq<byte>, c: seq<byte>, top: nat, w: nat)
    requires Gap(b, top, w) && |b| == |c|
    requires forall i :: top <= i < |b| ==> b[i] == c[i]
    ensures Gap(c, top, w)
  {
    if top + 2 * w <= |b| {
      assert b[top + w..top + 2 * w] == c[top + w..top + 2 * w];
    }
  }

  /** Only the bytes between `at` and the end of the last item matter. */
  lemma {:induction false} TiledFrame(b: seq<byte>, c: seq<byte>, at: nat, items: seq<Item>, w: nat)
    requires Tiled(b, at, items, w) && |b| == |c|
    requires forall i :: at <= i < at + Extent(items, 2 * w) && i < |b| ==> b[i] == c[i]
    ensures Tiled(c, at, items, w)
    decreases |items|
  {
    if items != [] {
      StoredFrame(b, c, at, items[0], w);
      TiledFrame(b, c, at + 2 * w + |items[0]|, items[1..], w);
    }
  }

  lemma {:induction false} TiledAppend(b: seq<byte>, at: nat, items: seq<Item>, x: Item, w: nat)
    requires Tiled(b, at, items, w) && Stored(b, at + Extent(items, 2 * w), x, w)
    ensures Tiled(b, at, items + [x], w)
    decreases |items|
  {
    if items == [] {
      assert items + [x] == [x];
    } else {
      assert (items + [x])[1..] == items[1..] + [x];
      TiledAppend(b, at + 2 * w + |items[0]|, items[1..], x, w);
    }
  }

  /** Offset of the header of item `i`. */
  function ItemAt(r: Ring, i: nat, h: nat): nat
    requires i < |Contents(r)|
  {
    match r
    case Flat(start, items) => start + Extent(items[..i], h)
    case Wrapped(start, upper, lower) =>
      if i < |upper| then start + Extent(upper[..i], h) else Extent(lower[..i - |upper|], h)
  }

  lemma FirstAtStart(r: Ring, n: nat, h: nat)
    requires WellFormed(r, n, h) && Contents(r) != []
    ensures ItemAt(r, 0, h) == r.start
  {
  }

  lemma {:induction false} TiledAt(b: seq<byte>, at: nat, items: seq<Item>, i: nat, w: nat)
    requires Tiled(b, at, items, w) && i < |items|
    ensures Stored(b, at + Extent(items[..i], 2 * w), items[i], w)
    decreases i
  {
    if i > 0 {
      assert items[..i][1..] == items[1..][..i - 1];
      TiledAt(b, at + 2 * w + |items[0]|, items[1..], i - 1, w);
    }
  }

  /** Every item of a layout is stored where the layout says. */
  lemma ItemStored(b: seq<byte>, r: Ring, i: nat, w: nat)
    requires Image(b, r, w) && i < |Contents(r)|
    ensures Stored(b, ItemAt(r, i, 2 * w), Contents(r)[i], w)
  {
    hide Tiled, Stored, Gap, Extent;
    match r
    case Flat(start, items) => TiledAt(b, start, items, i, w);
    case Wrapped(start, upper, lower) =>
      if i < |upper| {
        TiledAt(b, start, upper, i, w);
        assert Contents(r)[i] == upper[i];
      } else {
        TiledAt(b, 0, lower, i - |upper|, w);
        assert Contents(r)[i] == lower[i - |upper|];
      }
  }

  /** Where the oldest item ends, in terms of what remains without it: `p` is that offset modulo the
      buffer size and `u` the bytes then in use.  Either no header fits at `p` and the skip bytes up
      to the top remain to be dropped; or nothing is left; or `p` holds padding, which reaches
      exactly to the wrap; or the next item starts at `p`. */
  predicate PopLeaves(b: seq<byte>, r: Ring, after: Ring, w: nat, p: nat, u: nat)
    requires WellFormed(after, |b|, 2 * w)
  {
    var n, h, rest := |b|, 2 * w, Used(after, |b|, 2 * w);
    && p < n
    && if p + h > n then
         u == rest + (n - p) && after.start == 0 && (u > 0 && rest > 0 ==> End(after, h) == End(r, h))
       else if u == 0 then rest == 0
       else
         && h <= u
         && (FlagAt(b, p) == 1 ==>
               LenAt(b, p, w) == n - p - h && u == rest + (n - p) && after.start == 0)
         && (FlagAt(b, p) != 1 ==> u == rest && after.start == p && rest > 0)
         && (rest > 0 ==> End(after, h) == End(r, h))
  }

  lemma PopImage(b: seq<byte>, r: Ring, w: nat)
    requires WellFormed(r, |b|, 2 * w) && Image(b, r, w) && Contents(r) != []
    ensures Image(b, Popped(r, |b|, 2 * w), w)
  {
    hide Stored, Gap, WellFormed;
  }

  lemma PopLeavesFlat(b: seq<byte>, r: Ring, w: nat)
    requires r.Flat? && r.items != [] && WellFormed(r, |b|, 2 * w) && Image(b, r, w)
    ensures 2 * w + |r.items[0]| <= Used(r, |b|, 2 * w)
    ensures PopLeaves(b, r, Popped(r, |b|, 2 * w), w, r.start + 2 * w + |r.items[0]|,
                      Used(r, |b|, 2 * w) - (2 * w + |r.items[0]|))
  {
    if |r.items| > 1 {
      var at := r.start + 2 * w + |r.items[0]|;
      assert Tiled(b, at, r.items[1..], w);
      assert Stored(b, at, r.items[1..][0], w);
    }
  }

  lemma PopLeavesUpper(b: seq<byte>, r: Ring, w: nat)
    requires r.Wrapped? && |r.upper| > 1 && WellFormed(r, |b|, 2 * w) && Image(b, r, w)
    ensures 2 * w + |r.upper[0]| <= Used(r, |b|, 2 * w)
    ensures PopLeaves(b, r, Popped(r, |b|, 2 * w), w, r.start + 2 * w + |r.upper[0]|,
                      Used(r, |b|, 2 * w) - (2 * w + |r.upper[0]|))
  {
    var at := r.start + 2 * w + |r.upper[0]|;
    assert Tiled(b, at, r.upper[1..], w);
    assert Stored(b, at, r.upper[1..][0], w);
  }

  lemma PopLeavesLower(b: seq<byte>, r: Ring, w: nat)
    requires r.Wrapped? && |r.upper| == 1 && WellFormed(r, |b|, 2 * w) && Image(b, r, w)
    ensures 2 * w + |r.upper[0]| <= Used(r, |b|, 2 * w)
    ensures r.start + 2 * w + |r.upper[0]| <= |b|
    ensures var top := r.start + 2 * w + |r.upper[0]|;
      PopLeaves(b, r, Popped(r, |b|, 2 * w), w, if top == |b| then 0 else top,
                Used(r, |b|, 2 * w) - (2 * w + |r.upper[0]|))
  {
    assert Extent(r.upper, 2 * w) == 2 * w + |r.upper[0]|;
    if r.lower != [] {
      assert Stored(b, 0, r.lower[0], w);
    }
  }

  /** The oldest item is stored at the offset of the layout's start. */
  lemma PopLeavesAll(b: seq<byte>, r: Ring, w: nat)
    requires WellFormed(r, |b|, 2 * w) && Image(b, r, w) && Contents(r) != []
    ensures Stored(b, r.start, Contents(r)[0], w)
    ensures var x := Contents(r)[0];
      && 2 * w + |x| <= Used(r, |b|, 2 * w)
      && PopLeaves(b, r, Popped(r, |b|, 2 * w), w, Mod(r.start + 2 * w + |x|, |b|),
                   Used(r, |b|, 2 * w) - (2 * w + |x|))
  {
    hide PopLeaves, Tiled, Stored, Used, Mod;
    ItemStored(b, r, 0, w);
    if r.Flat? {
      PopLeavesFlat(b, r, w);
    } else if |r.upper| > 1 {
      PopLeavesUpper(b, r, w);
    } else {
      PopLeavesLower(b, r, w);
    }
  }

  lemma PushFlatImage(b: seq<byte>, c: seq<byte>, r: Ring, x: Item, w: nat)
    requires r.Flat? && WellFormed(r, |b|, 2 * w) && Image(b, r, w) && End(r, 2 * w) + 2 * w + |x| <= |b|
    requires SameOutside(b, c, End(r, 2 * w), End(r, 2 * w) + 2 * w + |x|)
    requires Stored(c, End(r, 2 * w), x, w)
    ensures Image(c, Pushed(r, |b|, 2 * w, x), w)
  {
    hide Tiled, Stored, FlagAt, LenAt;
    TiledNothing(c, w);
    TiledFrame(b, c, r.start, r.items, w);
    TiledAppend(c, r.start, r.items, x, w);
    ExtentAppend(r.items, [x], 2 * w);
    assert Extent([x], 2 * w) == 2 * w + |x|;
  }

  lemma TiledNothing(c: seq<byte>, w: nat)
    ensures Tiled(c, 0, [], w)
  {
  }

  lemma PushWrappedImage(b: seq<byte>, c: seq<byte>, r: Ring, x: Item, w: nat)
    requires r.Wrapped? && WellFormed(r, |b|, 2 * w) && Image(b, r, w)
    requires SameOutside(b, c, End(r, 2 * w), End(r, 2 * w) + 2 * w + |x|)
    requires Stored(c, End(r, 2 * w), x, w) && End(r, 2 * w) + 2 * w + |x| <= r.start
    ensures Image(c, Pushed(r, |b|, 2 * w, x), w)
  {
    hide Tiled, Gap, Stored, Extent;
    TiledFrame(b, c, r.start, r.upper, w);
    GapFrame(b, c, r.start + Extent(r.upper, 2 * w), w);
    TiledFrame(b, c, 0, r.lower, w);
    TiledAppend(c, 0, r.lower, x, w);
  }

  /** One step of the walk over the items, from the header of item `i` to that of the next one. */
  predicate WalkStep(b: seq<byte>, r: Ring, i: nat, w: nat)
    requires i + 1 < |Contents(r)| && |b| > 0
  {
    var n, h := |b|, 2 * w;
    var q := Mod(ItemAt(r, i, h) + h + |Contents(r)[i]|, n);
    var to := ItemAt(r, i + 1, h);
    && q < n && to != End(r, h)
    && if q + h > n then to == 0
       else
         && q != End(r, h)
         && (FlagAt(b, q) == 1 ==> LenAt(b, q, w) == n - q - h && to == 0)
         && (FlagAt(b, q) != 1 ==> to == q)
  }

  lemma {:induction false} ExtentStep(items: seq<Item>, i: nat, h: nat)
    requires i < |items|
    ensures Extent(items[..i + 1], h) == Extent(items[..i], h) + h + |items[i]|
    ensures Extent(items[..i + 1], h) <= Extent(items, h)
    ensures i + 1 < |items| ==> Extent(items[..i + 1], h) + h <= Extent(items, h)
  {
    assert items[..i + 1] == items[..i] + [items[i]];
    ExtentAppend(items[..i], [items[i]], h);
    assert Extent([items[i]], h) == h + |items[i]|;
    assert items == items[..i + 1] + items[i + 1..];
    ExtentAppend(items[..i + 1], items[i + 1..], h);
  }

  /** The next item starts where this one ends. */
  lemma WalkStepAdjacent(b: seq<byte>, r: Ring, i: nat, w: nat)
    requires 0 < w && i + 1 < |Contents(r)| && |b| > 0
    requires Stored(b, ItemAt(r, i + 1, 2 * w), Contents(r)[i + 1], w)
    requires ItemAt(r, i + 1, 2 * w) == ItemAt(r, i, 2 * w) + 2 * w + |Contents(r)[i]| != End(r, 2 * w)
    ensures WalkStep(b, r, i, w)
  {
    hide Mod, ItemAt, Contents, End;
  }

  /** Where the next item starts, unless the wrap comes in between, and that it is not the end. */
  lemma NextItemAt(r: Ring, n: nat, i: nat, h: nat)
    requires WellFormed(r, n, h) && 0 < h && i + 1 < |Contents(r)| && (r.Flat? || i + 1 != |r.upper|)
    ensures ItemAt(r, i + 1, h) == ItemAt(r, i, h) + h + |Contents(r)[i]| != End(r, h)
  {
    if r.Flat? {
      ExtentStep(r.items, i, h);
      ExtentStep(r.items, i + 1, h);
    } else if i + 1 < |r.upper| {
      ExtentStep(r.upper, i, h);
      ExtentStep(r.upper, i + 1, h);
    } else {
      ExtentStep(r.lower, i - |r.upper|, h);
      ExtentStep(r.lower, i + 1 - |r.upper|, h);
    }
  }

  lemma WalkStepHolds(b: seq<byte>, r: Ring, i: nat, w: nat)
    requires WellFormed(r, |b|, 2 * w) && Image(b, r, w) && i + 1 < |Contents(r)|
    ensures WalkStep(b, r, i, w)
  {
    hide WellFormed, Image, Tiled, Mod, Stored, WalkStep, ItemAt, Extent, End;
    HasRoom(b, r, w);
    if r.Flat? || i + 1 != |r.upper| {
      ItemStored(b, r, i + 1, w);
      NextItemAt(r, |b|, i, 2 * w);
      WalkStepAdjacent(b, r, i, w);
    } else {
      WalkStepOver(b, r, w);
    }
  }

  lemma HasRoom(b: seq<byte>, r: Ring, w: nat)
    requires WellFormed(r, |b|, 2 * w) && Image(b, r, w) && Contents(r) != []
    ensures 0 < w && |b| > 0
  {
  }

  /** From the last upper item, over the gap, to the first lower one. */
  lemma WalkStepOver(b: seq<byte>, r: Ring, w: nat)
    requires WellFormed(r, |b|, 2 * w) && Image(b, r, w) && r.Wrapped? && r.lower != []
    ensures WalkStep(b, r, |r.upper| - 1, w)
  {
    hide Tiled, Mod;
    ExtentStep(r.upper, |r.upper| - 1, 2 * w);
    assert r.upper[..|r.upper|] == r.upper;
    assert r.lower[..0] == [];
    assert Extent(r.lower, 2 * w) >= 2 * w;
    ItemStored(b, r, |r.upper|, w);
  }

  /** The bytes and the four counters of the buffer stand for the layout `r`. */
  predicate Represents(b: seq<byte>, start: nat, end: nat, used: nat, num: nat, r: Ring, w: nat)
  {
    && 0 < w
    && 0 < |b| < Pow256(w)
    && WellFormed(r, |b|, 2 * w)
    && Image(b, r, w)
    && start == r.start
    && end == End(r, 2 * w)
    && used == Used(r, |b|, 2 * w)
    && num == |Contents(r)|
  }

  /** Writing an item below the top of the buffer, with the counters computed as the code does. */
  lemma WriteRepresents(b: seq<byte>, c: seq<byte>, start: nat, end: nat, used: nat, num: nat, r: Ring, x: Item, w: nat)
    requires Represents(b, start, end, used, num, r, w) && r.Flat? && end + 2 * w + |x| <= |b|
    requires SameOutside(b, c, end, end + 2 * w + |x|) && Stored(c, end, x, w)
    ensures var e := Mod(end + 2 * w + |x|, |b|);
      var skip := if e + 2 * w > |b| then |b| - e else 0;
      && e < |b|
      && Represents(c, start, Mod(e + skip, |b|), used + 2 * w + |x| + skip, num + 1, Pushed(r, |b|, 2 * w, x), w)
  {
    hide Mod, Image, Stored, Pushed, End, Used;
    assert |b| == |c|;
    PushFlatImage(b, c, r, x, w);
    PushFlatCounters(r, |b|, 2 * w, x);
  }

  /** Writing an item between the lower and the upper ones. */
  lemma WriteNoWrapRepresents(b: seq<byte>, c: seq<byte>, start: nat, end: nat, used: nat, num: nat,
                              r: Ring, x: Item, w: nat)
    requires Represents(b, start, end, used, num, r, w) && r.Wrapped? && end + 2 * w + |x| <= start
    requires SameOutside(b, c, end, end + 2 * w + |x|) && Stored(c, end, x, w)
    ensures Represents(c, start, end + 2 * w + |x|, used + 2 * w + |x|, num + 1, Pushed(r, |b|, 2 * w, x), w)
  {
    hide Image, Stored, Pushed, End, Used;
    assert |b| == |c|;
    PushWrappedImage(b, c, r, x, w);
    PushWrappedCounters(r, |b|, 2 * w, x);
  }

  lemma {:induction false} TiledPrefix(b: seq<byte>, at: nat, s: seq<Item>, t: seq<Item>, w: nat)
    requires Tiled(b, at, s, w) && Tiled(b, at, t, w) && |s| <= |t|
    ensures s == t[..|s|]
    decreases |s|
  {
    if s != [] {
      assert s[0] == t[0];
      TiledPrefix(b, at + 2 * w + |s[0]|, s[1..], t[1..], w);
      assert s == [s[0]] + s[1..] && t[..|s|] == [t[0]] + t[1..][..|s| - 1];
    }
  }

  lemma NoGapAtItem(b: seq<byte>, at: nat, items: seq<Item>, i: nat, w: nat)
    requires Tiled(b, at, items, w) && i < |items|
    ensures !Gap(b, at + Extent(items[..i], 2 * w), w)
  {
    TiledAt(b, at, items, i, w);
  }

  /** The gap is where the upper items end: a longer reading would find an item in it. */
  lemma UpperUnique(b: seq<byte>, start: nat, u: seq<Item>, v: seq<Item>, w: nat)
    requires Tiled(b, start, u, w) && Tiled(b, start, v, w) && |u| <= |v|
    requires Gap(b, start + Extent(u, 2 * w), w)
    ensures u == v
  {
    hide Tiled, Extent, Gap;
    TiledPrefix(b, start, u, v, w);
    if |u| < |v| {
      NoGapAtItem(b, start, v, |u|, w);
    } else {
      assert v[..|u|] == v;
    }
  }

  /** The bytes and the counters determine what the buffer holds, so whoever attaches to the same
      memory reads the same items at the same places. */
  lemma RepresentsUnique(b: seq<byte>, start: nat, end: nat, used: nat, num: nat, r: Ring, s: Ring, w: nat)
    requires Represents(b, start, end, used, num, r, w) && Represents(b, start, end, used, num, s, w)
    ensures r == s
  {
    hide Tiled, Gap, Pow256;
    if r.Flat? && s.Flat? {
      TiledPrefix(b, start, r.items, s.items, w);
      assert s.items[..|r.items|] == s.items;
    } else if r.Wrapped? && s.Wrapped? {
      if |r.upper| <= |s.upper| {
        UpperUnique(b, start, r.upper, s.upper, w);
      } else {
        UpperUnique(b, start, s.upper, r.upper, w);
      }
      TiledPrefix(b, 0, r.lower, s.lower, w);
      assert s.lower[..|r.lower|] == s.lower;
    }
  }
}
