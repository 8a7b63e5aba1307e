/** The pool of fixed-size blocks over one memory region. */
module MemPools {
  import opened HeaderCodec
  import opened Links
  import opened PoolLayout
  import opened PoolSpec

  class FixedMemPool {
    const base: int         // address of the region
    const maxNum: nat
    const tSize: nat        // distance between blocks
    const valueOffset: nat  // of the first block
    const link: array<Link>
    var usedNum: nat
    var rawUsedNum: nat
    var reclaimList: int
    var block: seq<seq<byte>>    // the bytes of each block
    ghost var live: seq<int>     // live blocks, most recently allocated first
    ghost var reclaim: seq<int>  // given back blocks, in the order in which they are taken again

    ghost predicate Valid()
      reads this, link
    {
      && 0 < base && 0 < tSize && link.Length == maxNum + 1 && |block| == maxNum
      && PoolOk(link[..], usedNum, rawUsedNum, reclaimList, live, reclaim)
    }

    /** Address of the block with the given number. */
    function IntToPtr(i: int): int
    {
      base + BlockStart(valueOffset, tSize, i)
    }

    function PtrToIndex(p: int): int
      requires 0 < tSize
    {
      PtrToInt(base, valueOffset, tSize, p)
    }

    /** init with check == false, for an alignment of 2^k, on a region whose blocks hold the given bytes. */
    constructor (base: int, maxNum: nat, nodeSize: nat, k: nat, block: seq<seq<byte>>)
      requires 0 < base && k <= WORD && 0 < nodeSize && nodeSize + Pow2(k) - 1 < Pow2(WORD)
      requires |block| == maxNum
      ensures Valid() && fresh(link) && this.block == block
      ensures this.base == base && this.maxNum == maxNum
      ensures tSize == AlignBytes(nodeSize, k) && valueOffset == ValueOffset(maxNum, k)
      ensures live == [] && reclaim == [] && rawUsedNum == 0
    {
      hide AlignBytes, Pow2, ValueOffset;
      AlignIsLeastMultiple(nodeSize, k);
      this.base := base;
      this.maxNum := maxNum;
      tSize := AlignBytes(nodeSize, k);
      valueOffset := ValueOffset(maxNum, k);
      link := new Link[maxNum + 1](_ => Link(0, 0));
      usedNum, rawUsedNum, reclaimList := 0, 0, 0;
      this.block := block;
      live, reclaim := [], [];
    }

    method Clear()
      requires Valid()
      modifies this, link
      ensures Valid() && live == [] && reclaim == [] && rawUsedNum == 0 && block == old(block)
    {
      usedNum := 0;
      rawUsedNum := 0;
      reclaimList := 0;
      link[0] := Link(0, 0);
      live, reclaim := [], [];
    }

    predicate Full()
      reads this
    {
      usedNum >= maxNum
    }

    predicate Empty()
      reads this
    {
      usedNum == 0
    }

    /** Puts a block at the front of the live list. */
    method LinkFront(index: int)
      requires 0 < index < link.Length && 0 <= link[0].next < link.Length && link[0].next != index
      modifies link
      ensures link[..] == PushedFront(old(link[..]), index)
    {
      var first := link[0].next;
      link[index] := Link(0, first);
      link[first] := link[first].(prev := index);
      link[0] := link[0].(next := index);
    }

    /** Allocates a block, on demand with all its bytes zero; 0 stands for the null pointer. No other block's bytes are
        touched. */
    method Alloc(zero: bool) returns (p: int)
      requires Valid()
      modifies this, link
      ensures Valid()
      ensures |old(live)| == maxNum ==>
        p == 0 && live == old(live) && reclaim == old(reclaim) && rawUsedNum == old(rawUsedNum) && block == old(block)
      ensures |old(live)| < maxNum ==>
        var x := if old(reclaim) != [] then old(reclaim)[0] else old(rawUsedNum) + 1;
        && 1 <= x <= maxNum && p == IntToPtr(x) && p > 0 && x !in old(live)
        && live == [x] + old(live)
        && reclaim == (if old(reclaim) != [] then old(reclaim)[1..] else [])
        && rawUsedNum == (if old(reclaim) != [] then old(rawUsedNum) else old(rawUsedNum) + 1)
        && block == (if zero then old(block)[x - 1 := seq(tSize, _ => 0)] else old(block))
      ensures |old(live)| <= maxNum
    {
      hide PoolOk, PushedFront;
      LiveCount();
      if Full() {
        return 0;
      }
      PoolAlloc(link[..], usedNum, rawUsedNum, reclaimList, live, reclaim);
      HeadIsFirst();
      var index := 0;
      if reclaimList != 0 {
        index := reclaimList;
        reclaimList := link[index].next;
        reclaim := reclaim[1..];
      } else {
        assert rawUsedNum < maxNum;
        index := rawUsedNum + 1;
        rawUsedNum := rawUsedNum + 1;
      }
      assert index > 0;
      LinkFront(index);
      usedNum := usedNum + 1;
      live := [index] + live;
      if zero {
        block := block[index - 1 := seq(tSize, _ => 0)];
      }
      p := IntToPtr(index);
      PtrPositive(index);
    }

    lemma LiveCount()
      requires Valid()
      ensures 0 < tSize && NoDup(live)
      ensures usedNum == |live| <= maxNum && rawUsedNum <= maxNum && usedNum + |reclaim| == rawUsedNum
      ensures forall x :: x in live || x in reclaim ==> 1 <= x <= rawUsedNum
      ensures forall x :: 1 <= x <= rawUsedNum ==> (x in live <==> x !in reclaim)
    {
      forall x | 1 <= x <= rawUsedNum ensures x in live <==> x !in reclaim {
        ReclaimNotLive(link[..], usedNum, rawUsedNum, reclaimList, live, reclaim, x);
      }
    }

    lemma HeadIsFirst()
      requires Valid()
      ensures reclaimList == if reclaim != [] then reclaim[0] else 0
    {
    }

    /** Redirects the neighbours of a block past it, marks it and puts it in front of the reclaim list. */
    method Unlink(index: int)
      requires 0 < index < link.Length && 0 <= reclaimList && link.Length == maxNum + 1
      requires 0 <= link[index].prev < link.Length && 0 <= link[index].next < link.Length
      modifies link
      ensures link[..] == FreedLinks(old(link[..]), index, reclaimList)
    {
      var prev := link[index].prev;
      var next := link[index].next;
      link[prev] := link[prev].(next := next);
      link[next] := link[next].(prev := prev);
      link[index] := Link(maxNum + 1, reclaimList);
    }

    /** Gives a block back; refused unless `p` is the start of a live block. */
    method Free(p: int) returns (ok: bool)
      requires Valid()
      modifies this, link
      ensures Valid() && block == old(block)
      ensures ok <==> exists x :: x in old(live) && p == IntToPtr(x)
      ensures ok ==>
        var x := PtrToIndex(p);
        && x in old(live) && reclaim == [x] + old(reclaim) && rawUsedNum == old(rawUsedNum)
        && exists i: nat :: i < |old(live)| && old(live)[i] == x && live == Without(old(live), i)
      ensures !ok ==> live == old(live) && reclaim == old(reclaim) && rawUsedNum == old(rawUsedNum)
    {
      hide PoolOk, FreedLinks, Unlinked;
      LiveCount();
      var index := PtrToIndex(p);
      PtrIndex(p);
      if Empty() {
        return false;
      }
      if index == 0 || index > maxNum {
        return false;
      }
      if index > rawUsedNum {
        return false;
      }
      ReclaimNotLive(link[..], usedNum, rawUsedNum, reclaimList, live, reclaim, index);
      if link[index].prev > maxNum {
        return false;
      }
      ghost var i: nat :| i < |live| && live[i] == index;
      PoolFree(link[..], usedNum, rawUsedNum, reclaimList, live, reclaim, i);
      Unlink(index);
      reclaimList := index;
      usedNum := usedNum - 1;
      live := Without(live, i);
      reclaim := [index] + reclaim;
      return true;
    }

    lemma PtrPositive(x: int)
      requires 0 < base && 1 <= x
      ensures IntToPtr(x) > 0
    {
      assert (x - 1) * tSize >= 0;
    }

    lemma PtrIndex(p: int)
      requires 0 < tSize
      ensures PtrToIndex(p) >= 0
      ensures forall x :: 1 <= x ==> (p == IntToPtr(x) <==> PtrToIndex(p) == x)
    {
      forall x | 1 <= x ensures p == IntToPtr(x) <==> PtrToIndex(p) == x {
        PtrIntInverse(base, valueOffset, tSize, p, x);
      }
      PtrNonNegative(base, valueOffset, tSize, p);
    }
  }
}
