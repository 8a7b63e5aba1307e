/** The ring buffer of variable-length items, on its bytes. */
module UnfixedRingBufs {
  import opened HeaderCodec
  import opened RingSpec
  import opened RingImage

  /** The payload described by a list of io vectors: their concatenation. */
  function Gather(iov: seq<seq<byte>>): (x: Item)
  {
    if iov == [] then [] else Gather(iov[..|iov| - 1]) + iov[|iov| - 1]
  }

  lemma {:induction false} GatherSum(iov: seq<seq<byte>>, i: nat)
    requires i <= |iov|
    ensures |Gather(iov[..i])| <= |Gather(iov)|
    decreases |iov|
  {
    if i == |iov| {
      assert iov[..i] == iov;
    } else {
      assert iov[..|iov| - 1][..i] == iov[..i];
      GatherSum(iov[..|iov| - 1], i);
    }
  }

  /** One io vector is its bytes, and vectors follow one another in their order. */
  lemma GatherOne(x: seq<byte>)
    ensures Gather([x]) == x
  {
    assert [x][..0] == [];
  }

  lemma {:induction false} GatherAppend(a: seq<seq<byte>>, b: seq<seq<byte>>)
    ensures Gather(a + b) == Gather(a) + Gather(b)
    decreases |b|
  {
    if b == [] {
      assert a + b == a;
    } else {
      var last := |b| - 1;
      GatherAppend(a, b[..last]);
      assert (a + b)[..|a + b| - 1] == a + b[..last];
      assert Gather(a) + Gather(b[..last]) + b[last] == Gather(a) + (Gather(b[..last]) + b[last]);
    }
  }

  /** Number of bytes in the vectors. */
  function TotalLen(iov: seq<seq<byte>>): (n: nat)
  {
    if iov == [] then 0 else |iov[0]| + TotalLen(iov[1..])
  }

  lemma {:induction false} GatherLen(iov: seq<seq<byte>>)
    ensures |Gather(iov)| == TotalLen(iov)
    decreases |iov|
  {
    if iov != [] {
      assert iov == [iov[0]] + iov[1..];
      GatherAppend([iov[0]], iov[1..]);
      GatherOne(iov[0]);
      GatherLen(iov[1..]);
    }
  }

  /** Byte j of vector i lies behind all earlier vectors. */
  lemma GatherByte(iov: seq<seq<byte>>, i: nat, j: nat)
    requires i < |iov| && j < |iov[i]|
    ensures TotalLen(iov[..i]) + j < |Gather(iov)| == TotalLen(iov)
    ensures Gather(iov)[TotalLen(iov[..i]) + j] == iov[i][j]
  {
    assert iov == iov[..i] + ([iov[i]] + iov[i + 1..]);
    GatherAppend(iov[..i], [iov[i]] + iov[i + 1..]);
    GatherAppend([iov[i]], iov[i + 1..]);
    GatherOne(iov[i]);
    GatherLen(iov[..i]);
    GatherLen(iov);
  }

  class UnfixedRingBuf {
    const w: nat          // width of the length type; a header takes 2 * w bytes
    const buf: array<byte>
    var start: nat
    var end: nat
    var usedSize: nat
    var itemNum: nat
    ghost var ring: Ring  // what the bytes mean

    ghost predicate Valid()
      reads this, buf
    {
      Represents(buf[..], start, end, usedSize, itemNum, ring, w)
    }

    constructor (size: nat, w: nat)
      requires 0 < w && 0 < size < Pow256(w)
      ensures Valid() && fresh(buf)
      ensures buf.Length == size && this.w == w && ring == EMPTY
    {
      this.w := w;
      buf := new byte[size];
      start, end, usedSize, itemNum := 0, 0, 0, 0;
      ring := EMPTY;
    }

    method Clear()
      requires Valid()
      modifies this
      ensures Valid() && ring == EMPTY
    {
      start := 0;
      end := 0;
      usedSize := 0;
      itemNum := 0;
      ring := EMPTY;
    }

    predicate Empty()
      reads this
    {
      usedSize == 0 && buf.Length > 0
    }

    predicate Full()
      reads this
    {
      usedSize >= buf.Length
    }

    /** Bytes left below the top of the buffer when a header does not fit there, else 0. */
    function NeedSkipBytes(pos: nat): nat
      requires pos <= buf.Length
    {
      if pos + 2 * w > buf.Length then buf.Length - pos else 0
    }

    function Flag(at: nat): byte
      reads buf
      requires at < buf.Length
    {
      FlagAt(buf[..], at)
    }

    function Len(at: nat): nat
      reads buf
      requires at + 2 * w <= buf.Length
    {
      LenAt(buf[..], at, w)
    }

    method StoreHeader(at: nat, len: nat, flag: byte)
      requires 0 < w && at + 2 * w <= buf.Length && len < Pow256(w)
      modifies buf
      ensures Flag(at) == flag && Len(at) == len
      ensures buf[at] == flag && buf[at + w..at + 2 * w] == EncodeLen(len, w)
      ensures forall i :: 0 <= i < buf.Length && !(at <= i < at + 2 * w) ==> buf[i] == old(buf[i])
    {
      var bytes := EncodeLen(len, w);
      forall i | 0 <= i < w {
        buf[at + w + i] := bytes[i];
      }
      buf[at] := flag;
      assert buf[at + w..at + 2 * w] == bytes;
      assert buf[..][at + w..at + 2 * w] == bytes;
      DecodeEncode(len, w);
    }

    /** The io vectors one after the other, from `at` on. */
    method CopyPayload(at: nat, iov: seq<seq<byte>>)
      requires at + |Gather(iov)| <= buf.Length
      modifies buf
      ensures buf[at..at + |Gather(iov)|] == Gather(iov)
      ensures forall j :: 0 <= j < buf.Length && !(at <= j < at + |Gather(iov)|) ==> buf[j] == old(buf[j])
    {
      var begin := at;
      var i := 0;
      while i < |iov|
        invariant 0 <= i <= |iov|
        invariant begin == at + |Gather(iov[..i])| <= at + |Gather(iov)|
        invariant buf[at..begin] == Gather(iov[..i])
        invariant forall j :: 0 <= j < buf.Length && !(at <= j < at + |Gather(iov)|) ==> buf[j] == old(buf[j])
      {
        ghost var done := buf[at..begin];
        assert iov[..i + 1][..i] == iov[..i];
        GatherSum(iov, i + 1);
        forall j | 0 <= j < |iov[i]| {
          buf[begin + j] := iov[i][j];
        }
        assert buf[at..begin + |iov[i]|] == done + iov[i];
        begin := begin + |iov[i]|;
        i := i + 1;
      }
      assert iov[..|iov|] == iov;
    }

    /** An item at `at`: its header and, behind it, the io vectors. */
    method CopyItem(at: nat, iov: seq<seq<byte>>, totalLen: nat)
      requires 0 < w && totalLen == |Gather(iov)| < Pow256(w)
      requires at + 2 * w + totalLen <= buf.Length
      modifies buf
      ensures Stored(buf[..], at, Gather(iov), w)
      ensures SameOutside(old(buf[..]), buf[..], at, at + 2 * w + totalLen)
    {
      StoreHeader(at, totalLen, 0);
      ghost var headed := buf[..];
      CopyPayload(at + 2 * w, iov);
      assert buf[..][at + w..at + 2 * w] == headed[at + w..at + 2 * w];
      assert buf[..][at + 2 * w..at + 2 * w + totalLen] == Gather(iov);
    }

    method WriteItem(iov: seq<seq<byte>>, totalLen: nat, needLen: nat)
      requires Valid() && ring.Flat?
      requires totalLen == |Gather(iov)| && needLen == 2 * w + totalLen
      requires end + needLen <= buf.Length
      modifies this, buf
      ensures Valid()
      ensures ring == Pushed(old(ring), buf.Length, 2 * w, Gather(iov))
    {
      hide Image, WellFormed, Stored, SameOutside, Gather, Used, End;
      CopyItem(end, iov, totalLen);
      WriteRepresents(old(buf[..]), buf[..], start, end, usedSize, itemNum, ring, Gather(iov), w);
      hide Represents;
      ring := Pushed(ring, buf.Length, 2 * w, Gather(iov));

      end := Mod(end + needLen, buf.Length);
      usedSize := usedSize + needLen;
      itemNum := itemNum + 1;
      var skip := NeedSkipBytes(end);
      end := Mod(end + skip, buf.Length);
      usedSize := usedSize + skip;
    }

    method WriteItemNoWrap(iov: seq<seq<byte>>, totalLen: nat, needLen: nat)
      requires Valid() && ring.Wrapped?
      requires totalLen == |Gather(iov)| && needLen == 2 * w + totalLen
      requires end + needLen <= start
      modifies this, buf
      ensures Valid()
      ensures ring == Pushed(old(ring), buf.Length, 2 * w, Gather(iov))
    {
      Shape(ring, buf.Length, 2 * w);
      hide Image, WellFormed, Stored, SameOutside, Gather, Used, End;
      CopyItem(end, iov, totalLen);
      WriteNoWrapRepresents(old(buf[..]), buf[..], start, end, usedSize, itemNum, ring, Gather(iov), w);
      hide Represents;
      ring := Pushed(ring, buf.Length, 2 * w, Gather(iov));

      end := end + needLen;
      usedSize := usedSize + needLen;
      itemNum := itemNum + 1;
    }

    /** Fills the room between the last item and the top of the buffer with a padding item. */
    method PushPadding()
      requires Valid() && ring.Flat? && ring.items != []
      modifies this, buf
      ensures Valid()
      ensures ring == Wrapped(old(ring.start), old(ring.items), [])
      ensures end == 0
    {
      hide Tiled, Stored;
      assert start <= end;
      StoreHeader(end, buf.Length - end - 2 * w, 1);
      TiledFrame(old(buf[..]), buf[..], ring.start, ring.items, w);
      TiledNothing(buf[..], w);
      ring := Wrapped(ring.start, ring.items, []);

      usedSize := usedSize + (buf.Length - end);
      end := 0;
      assert ring.upper + ring.lower == old(ring.items);
    }

    /** Steps over a padding item at `start`, if there is one. */
    method PopPadding()
      requires 0 < w && start + 2 * w <= buf.Length && 2 * w <= usedSize
      requires Flag(start) == 1 ==> 2 * w + Len(start) <= usedSize
      modifies this`start, this`usedSize
      ensures start == if Flag(old(start)) == 1 then Mod(old(start) + 2 * w + Len(old(start)), buf.Length) else old(start)
      ensures usedSize == old(usedSize) - (if Flag(old(start)) == 1 then 2 * w + Len(old(start)) else 0)
    {
      assert usedSize >= 2 * w;
      if Flag(start) == 1 {
        var len := Len(start);
        start := Mod(start + 2 * w + len, buf.Length);
        usedSize := usedSize - (2 * w + len);
      }
    }

    /** The last part of a pop: from the end of the dropped item over the skip bytes or the padding
        behind it, if the wrap comes next. */
    method StepOverGap(ghost r: Ring, ghost after: Ring)
      requires 0 < w && 0 < buf.Length && WellFormed(after, buf.Length, 2 * w)
      requires PopLeaves(buf[..], r, after, w, start, usedSize)
      modifies this`start, this`usedSize
      ensures usedSize == Used(after, buf.Length, 2 * w)
      ensures usedSize > 0 ==> start == after.start && End(after, 2 * w) == End(r, 2 * w)
    {
      hide Mod, FlagAt, LenAt, WellFormed, Used, End;
      var skip := NeedSkipBytes(start);
      if skip > 0 {
        start := Mod(start + skip, buf.Length);
        assert usedSize >= skip;
        usedSize := usedSize - skip;
      } else if !Empty() {
        PopPadding();
      }
    }

    /** Drops the oldest item; `seen` lists what the callback is given. */
    method Pop() returns (seen: seq<Item>)
      requires Valid()
      modifies this
      ensures Valid()
      ensures old(Contents(ring)) == [] ==> seen == [] && ring == old(ring)
      ensures old(Contents(ring)) != [] ==>
        seen == [old(Contents(ring))[0]] && ring == Popped(old(ring), buf.Length, 2 * w)
    {
      hide Mod, Image, Tiled, Popped, Extent, Used, End, WellFormed, Contents, FlagAt, LenAt, PopLeaves;
      UsedAndOffsets(ring, buf.Length, 2 * w);
      if Empty() {
        return [];
      }
      ghost var after := Popped(ring, buf.Length, 2 * w);
      PopLeavesAll(buf[..], ring, w);
      PopImage(buf[..], ring, w);
      UsedAndOffsets(after, buf.Length, 2 * w);

      assert usedSize >= 2 * w;
      assert Flag(start) == 0;
      var len := Len(start);
      seen := [buf[start + 2 * w..start + 2 * w + len]];

      start := Mod(start + 2 * w + len, buf.Length);
      assert usedSize >= 2 * w + len;
      usedSize := usedSize - (2 * w + len);
      assert itemNum > 0;
      itemNum := itemNum - 1;
      StepOverGap(ring, after);
      if Empty() {
        start := 0;
        end := 0;
      }
      ring := after;
    }

    /** On the way from the layout `r0` to storing `x` there, having dropped `seen`. */
    ghost predicate Storing(r0: Ring, x: Item, seen: seq<Item>)
      reads this, buf
    {
      && Valid()
      && 2 * w + |x| <= buf.Length
      && WellFormed(r0, buf.Length, 2 * w)
      && OnTheWay(r0, ring, seen, buf.Length, 2 * w, x)
    }

    /** Drops the oldest item on the way to storing `x`. */
    method PopFor(ghost r0: Ring, ghost x: Item, before: seq<Item>) returns (seen: seq<Item>)
      requires Storing(r0, x, before)
      requires !Accepts(ring, buf.Length, 2 * w, 2 * w + |x|)
      modifies this
      ensures Storing(r0, x, seen)
      ensures itemNum < old(itemNum)
      ensures old(ring).Flat? ==> ring.Flat?
      ensures old(ring).Wrapped? ==>
        && end == old(end)
        && if ring.Wrapped? then ring.lower == old(ring).lower && start > old(start)
           else ring == Flat(0, old(ring).lower)
    {
      hide Image, Extent, WellFormed, Victims, OverPush, OnTheWay, Popped, Accepts;
      OnTheWayPop(r0, ring, before, buf.Length, 2 * w, x);
      PopShape(ring, buf.Length, 2 * w);
      var dropped := Pop();
      seen := before + dropped;
    }

    /** After the top has been padded: drops items until the new one fits below the oldest. */
    method PopUntilRoomBelow(needLen: nat, ghost r0: Ring, ghost x: Item, before: seq<Item>) returns (seen: seq<Item>)
      requires Storing(r0, x, before) && needLen == 2 * w + |x|
      requires ring.Wrapped? && ring.lower == [] && end == 0
      modifies this
      ensures Storing(r0, x, seen)
      ensures end == 0 && itemNum <= old(itemNum)
    {
      hide Image, Extent, WellFormed, OnTheWay, End, Used;
      Shape(ring, buf.Length, 2 * w);
      seen := before;
      while !Empty() && start < needLen
        invariant Storing(r0, x, seen)
        invariant ring == EMPTY || (ring.Wrapped? && ring.lower == [])
        invariant end == 0 && itemNum <= old(itemNum)
        invariant Empty() <==> ring == EMPTY
        decreases itemNum
      {
        seen := PopFor(r0, x, seen);
        Shape(ring, buf.Length, 2 * w);
      }
    }

    /** Drops upper items until the new one fits between the lower items and them. */
    method PopUntilRoomBetween(needLen: nat, ghost r0: Ring, ghost x: Item, before: seq<Item>) returns (seen: seq<Item>)
      requires Storing(r0, x, before) && needLen == 2 * w + |x|
      requires ring.Wrapped? && end < start && end + needLen > start
      modifies this
      ensures Storing(r0, x, seen)
      ensures itemNum < old(itemNum)
    {
      hide Image, Extent, WellFormed, OnTheWay, End, Used;
      seen := before;
      while end < start && end + needLen > start
        invariant Storing(r0, x, seen)
        invariant if ring.Wrapped? then end < start else start == 0
        invariant itemNum < old(itemNum)
          || (ring == old(ring) && itemNum == old(itemNum) && start == old(start) && end == old(end))
        decreases itemNum
      {
        seen := PopFor(r0, x, seen);
      }
    }

    /** Drops all upper items. */
    method PopUpper(needLen: nat, ghost r0: Ring, ghost x: Item, before: seq<Item>) returns (seen: seq<Item>)
      requires Storing(r0, x, before) && needLen == 2 * w + |x|
      requires ring.Wrapped? && end < start && end + needLen > buf.Length
      modifies this
      ensures Storing(r0, x, seen)
      ensures ring.Flat? && start == 0 && end == old(end)
      ensures itemNum < old(itemNum)
    {
      hide Image, Extent, WellFormed, OnTheWay, End, Used;
      Shape(ring, buf.Length, 2 * w);
      seen := PopFor(r0, x, before);
      Shape(ring, buf.Length, 2 * w);
      while end < start
        invariant Storing(r0, x, seen)
        invariant if ring.Wrapped? then end < start <= buf.Length else start == 0
        invariant end == old(end) && itemNum < old(itemNum)
        decreases itemNum
      {
        seen := PopFor(r0, x, seen);
        Shape(ring, buf.Length, 2 * w);
      }
    }

    /** Pads the top of the buffer on the way to storing `x`, which does not fit there. */
    method PadFor(ghost r0: Ring, ghost x: Item, seen: seq<Item>)
      requires Storing(r0, x, seen)
      requires ring.Flat? && end + 2 * w + |x| > buf.Length
      modifies this, buf
      ensures Storing(r0, x, seen)
      ensures ring.Wrapped? && ring.lower == [] && end == 0 < old(end)
      ensures start == old(start) && itemNum == old(itemNum) && usedSize == buf.Length - start
    {
      hide Image, OnTheWay;
      Shape(ring, buf.Length, 2 * w);
      OnTheWayPadding(r0, ring, seen, buf.Length, 2 * w, x);
      PushPadding();
    }

    /** Stores the item, in overwrite mode after dropping as many of the oldest items as it takes. */
    method PushImpl(iov: seq<seq<byte>>, totalLen: nat, needLen: nat, overWrite: bool)
      returns (ok: bool, seen: seq<Item>)
      requires Valid()
      requires totalLen == |Gather(iov)| && needLen == 2 * w + totalLen <= buf.Length
      modifies this, buf
      ensures Valid()
      ensures ok == (overWrite || Accepts(old(ring), buf.Length, 2 * w, needLen))
      ensures !ok ==> seen == [] && ring == old(ring) && buf[..] == old(buf[..])
      ensures ok ==> ring == OverPush(old(ring), buf.Length, 2 * w, Gather(iov))
      ensures ok ==> seen == Contents(old(ring))[..Victims(old(ring), buf.Length, 2 * w, Gather(iov))]
      decreases itemNum, end
    {
      hide Image, Extent, Used, Gather, WellFormed, OnTheWay, Pushed, End, OverPush, Victims;
      ghost var n, h, x, r0 := buf.Length, 2 * w, Gather(iov), ring;
      Shape(ring, n, h);
      OnTheWayStart(ring, n, h, x);
      seen := [];
      if Full() {
        if !overWrite {
          return false, [];
        }
        seen := PopFor(r0, x, seen);
        Shape(ring, n, h);
      }

      if end >= start {
        assert ring.Flat?;
        if end + needLen <= buf.Length {
          OnTheWayDone(r0, ring, seen, n, h, x);
          WriteItem(iov, totalLen, needLen);
          return true, seen;
        }
        if !overWrite && start < needLen {
          return false, seen;
        }
        PadFor(r0, x, seen);
        if overWrite {
          seen := PopUntilRoomBelow(needLen, r0, x, seen);
        }
      } else {
        assert ring.Wrapped?;
        if end + needLen <= start {
          OnTheWayDone(r0, ring, seen, n, h, x);
          WriteItemNoWrap(iov, totalLen, needLen);
          return true, seen;
        }
        if !overWrite {
          return false, seen;
        }
        if end + needLen <= buf.Length {
          seen := PopUntilRoomBetween(needLen, r0, x, seen);
          var more;
          ghost var r1 := ring;
          ok, more := PushImpl(iov, totalLen, needLen, overWrite);
          OnTheWayArrive(r0, r1, seen, more, n, h, x);
          return ok, seen + more;
        }
        seen := PopUpper(needLen, r0, x, seen);
        PadFor(r0, x, seen);
        assert Full();
      }
      var more;
      ghost var r1 := ring;
      ok, more := PushImpl(iov, totalLen, needLen, overWrite);
      OnTheWayArrive(r0, r1, seen, more, n, h, x);
      return ok, seen + more;
    }

    /** Pushes the concatenation of the io vectors. */
    method Push(iov: seq<seq<byte>>, overWrite: bool) returns (ok: bool, seen: seq<Item>)
      requires Valid()
      modifies this, buf
      ensures Valid()
      ensures Outcome(ring, ok, seen) == Apply(old(ring), PushOp(Gather(iov), overWrite), buf.Length, 2 * w)
      ensures !ok ==> buf[..] == old(buf[..])
      ensures ok <==>
        2 * w + TotalLen(iov) <= buf.Length
        && (overWrite || RoomFor(old(ring), buf.Length, 2 * w, 2 * w + TotalLen(iov)))
      ensures ok ==>
        && seen <= old(Contents(ring))
        && Contents(ring) == old(Contents(ring))[|seen|..] + [Gather(iov)]
      ensures !ok ==> seen == [] && ring == old(ring)
    {
      hide Image, Extent, Used, End, WellFormed, Popped, Pushed, RoomFor, Contents;
      PushMeans(iov, overWrite);
      var totalLen := 0;
      var i := 0;
      while i < |iov|
        invariant 0 <= i <= |iov| && totalLen == |Gather(iov[..i])|
      {
        assert iov[..i + 1][..i] == iov[..i];
        totalLen := totalLen + |iov[i]|;
        i := i + 1;
      }
      assert iov[..|iov|] == iov;
      var needLen := totalLen + 2 * w;
      if needLen > buf.Length {
        return false, [];
      }
      ok, seen := PushImpl(iov, totalLen, needLen, overWrite);
    }

    lemma PushMeans(iov: seq<seq<byte>>, overWrite: bool)
      requires Valid()
      ensures |Gather(iov)| == TotalLen(iov)
      ensures WellFormed(ring, buf.Length, 2 * w) && 0 < w
      ensures var o := Apply(ring, PushOp(Gather(iov), overWrite), buf.Length, 2 * w);
        && (o.accepted <==>
              2 * w + TotalLen(iov) <= buf.Length
              && (overWrite || RoomFor(ring, buf.Length, 2 * w, 2 * w + TotalLen(iov))))
        && (o.accepted ==> o.left <= Contents(ring) && Contents(o.ring) == Contents(ring)[|o.left|..] + [Gather(iov)])
        && (!o.accepted ==> o.left == [] && o.ring == ring)
    {
      hide Image, Extent, Used, End, WellFormed, RoomFor, Apply, Contents;
      GatherLen(iov);
      PushAnswer(ring, Gather(iov), overWrite, buf.Length, 2 * w);
    }

    /** Offset of the header of item `index`, or the buffer size if there is no such item. */
    method FindStart(index: nat) returns (itemStart: nat)
      requires Valid()
      ensures index < |Contents(ring)| ==> itemStart == ItemAt(ring, index, 2 * w) && itemStart + 2 * w <= buf.Length
      ensures index >= |Contents(ring)| ==> itemStart == buf.Length
    {
      hide Image, Extent, Used, End, WellFormed, ItemAt, WalkStep, Mod;
      UsedAndOffsets(ring, buf.Length, 2 * w);
      if Empty() || index >= itemNum {
        return buf.Length;
      }
      FirstAtStart(ring, buf.Length, 2 * w);
      if index == 0 {
        return start;
      }
      itemStart := start;
      var i := 0;
      while i < index
        invariant 0 <= i <= index
        invariant itemStart == ItemAt(ring, i, 2 * w)
      {
        ItemStored(buf[..], ring, i, w);
        WalkStepHolds(buf[..], ring, i, w);
        itemStart := Advance(itemStart, i);
        assert itemStart != end;  // so the early return of the source is never taken
        i := i + 1;
      }
      ItemStored(buf[..], ring, index, w);
    }

    /** The body of the walk: over the item, then over the skip bytes or a padding item. */
    method Advance(itemStart: nat, ghost i: nat) returns (next: nat)
      requires Valid() && i + 1 < |Contents(ring)| && itemStart == ItemAt(ring, i, 2 * w)
      ensures next == ItemAt(ring, i + 1, 2 * w) && next != end
    {
      hide Image, Tiled, Extent, Used, End, WellFormed, ItemAt, Mod, Contents, FlagAt, LenAt;
      ItemStored(buf[..], ring, i, w);
      WalkStepHolds(buf[..], ring, i, w);
      next := Mod(itemStart + 2 * w + Len(itemStart), buf.Length);
      var skip := NeedSkipBytes(next);
      if skip > 0 {
        next := Mod(next + skip, buf.Length);
      } else if next != end {
        if Flag(next) == 1 {
          next := Mod(next + 2 * w + Len(next), buf.Length);
        }
      }
    }

    /** Where the payload of item `index` lies: `found` is false for the null pointer. */
    method Front(index: nat) returns (found: bool, at: nat, len: nat)
      requires Valid()
      ensures found == (index < |Contents(ring)|)
      ensures found ==> at + len <= buf.Length && buf[at..at + len] == Contents(ring)[index]
    {
      hide Image, Extent, Used, End, WellFormed, ItemAt, WalkStep, Mod;
      var itemStart := FindStart(index);
      if itemStart == buf.Length {
        return false, 0, 0;
      }
      ItemStored(buf[..], ring, index, w);
      return true, itemStart + 2 * w, Len(itemStart);
    }
  }
}
