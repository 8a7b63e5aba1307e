/** The fenced pool's attach to a region in use: it allocates every block, fences each block there is,
    and gives back the ones it allocated. */
module ProtectedPools {
  import opened Links
  import PoolSpec
  import opened MemPools

  function Reverse(s: seq<int>): (r: seq<int>)
    ensures |r| == |s|
    ensures forall i :: 0 <= i < |s| ==> r[i] == s[|s| - 1 - i]
  {
    seq(|s|, i requires 0 <= i < |s| => s[|s| - 1 - i])
  }

  lemma ReversePush(s: seq<int>, x: int)
    ensures Reverse(s + [x]) == [x] + Reverse(s)
  {
  }

  /** In a list without repetition, what is left without the last one of a reversed front part. */
  lemma WithoutLast(front: seq<int>, rest: seq<int>, all: seq<int>, i: nat)
    requires front != [] && all == Reverse(front) + rest && NoDup(all)
    requires i < |all| && all[i] == front[0]
    ensures Without(all, i) == Reverse(front[1..]) + rest
  {
    assert all[|front| - 1] == front[0];
    assert i == |front| - 1;
    assert all[..i] == Reverse(front[1..]);
    assert all[i + 1..] == rest;
  }

  /** `temp` are the addresses of `blocks`. */
  ghost predicate Addresses(pool: FixedMemPool, temp: seq<int>, blocks: seq<int>)
  {
    |temp| == |blocks| && forall i :: 0 <= i < |temp| ==> 1 <= blocks[i] && temp[i] == pool.IntToPtr(blocks[i])
  }

  /** Allocates until the pool is full; `temp` lists the blocks in the order of their allocation. */
  method Drain(pool: FixedMemPool) returns (temp: seq<int>, ghost blocks: seq<int>)
    requires pool.Valid()
    modifies pool, pool.link
    ensures pool.Valid() && |pool.live| == pool.maxNum
    ensures Addresses(pool, temp, blocks)
    ensures pool.live == Reverse(blocks) + old(pool.live) && pool.block == old(pool.block)
  {
    hide FixedMemPool.Valid, FixedMemPool.IntToPtr, Reverse;
    temp, blocks := [], [];
    assert Reverse([]) == [];
    var t := pool.Alloc(false);
    while t != 0
      invariant pool.Valid() && |pool.live| <= pool.maxNum && pool.block == old(pool.block)
      invariant Addresses(pool, temp, blocks)
      invariant t == 0 ==> |pool.live| == pool.maxNum && pool.live == Reverse(blocks) + old(pool.live)
      invariant t != 0 ==>
        exists x :: 1 <= x && t == pool.IntToPtr(x) && pool.live == [x] + (Reverse(blocks) + old(pool.live))
      decreases pool.maxNum - |pool.live|, t != 0
    {
      ghost var x :| 1 <= x && t == pool.IntToPtr(x) && pool.live == [x] + (Reverse(blocks) + old(pool.live));
      ReversePush(blocks, x);
      assert pool.live == Reverse(blocks + [x]) + old(pool.live);
      temp := temp + [t];
      blocks := blocks + [x];
      t := pool.Alloc(false);
    }
  }

  /** Gives the blocks back in the order of their allocation. */
  method Refill(pool: FixedMemPool, temp: seq<int>, ghost blocks: seq<int>, ghost rest: seq<int>)
    requires pool.Valid() && pool.live == Reverse(blocks) + rest
    requires Addresses(pool, temp, blocks)
    modifies pool, pool.link
    ensures pool.Valid() && pool.live == rest && pool.block == old(pool.block)
    ensures pool.reclaim == Reverse(blocks) + old(pool.reclaim) && pool.rawUsedNum == old(pool.rawUsedNum)
  {
    hide FixedMemPool.Valid, FixedMemPool.IntToPtr, Reverse;
    var j := 0;
    assert blocks[0..] == blocks && Reverse(blocks[..0]) == [] && Reverse([]) == [];
    while j < |temp|
      invariant 0 <= j <= |temp| && pool.block == old(pool.block)
      invariant pool.Valid() && pool.live == Reverse(blocks[j..]) + rest
      invariant pool.reclaim == Reverse(blocks[..j]) + old(pool.reclaim) && pool.rawUsedNum == old(pool.rawUsedNum)
    {
      ghost var before := pool.reclaim;
      FreeFirst(pool, temp[j], blocks[j..], rest);
      assert blocks[j..][1..] == blocks[j + 1..];
      assert blocks[..j + 1] == blocks[..j] + [blocks[j]];
      ReversePush(blocks[..j], blocks[j]);
      j := j + 1;
    }
    assert blocks[j..] == [] && blocks[..j] == blocks;
  }

  /** Gives back the block allocated first of those in `front`. */
  method FreeFirst(pool: FixedMemPool, p: int, ghost front: seq<int>, ghost rest: seq<int>)
    requires pool.Valid() && front != [] && pool.live == Reverse(front) + rest
    requires 1 <= front[0] && p == pool.IntToPtr(front[0])
    modifies pool, pool.link
    ensures pool.Valid() && pool.live == Reverse(front[1..]) + rest && pool.block == old(pool.block)
    ensures pool.reclaim == [front[0]] + old(pool.reclaim) && pool.rawUsedNum == old(pool.rawUsedNum)
  {
    hide PoolSpec.PoolOk, FixedMemPool.IntToPtr, FixedMemPool.PtrToIndex;
    ghost var all := pool.live;
    pool.LiveCount();
    pool.PtrIndex(p);
    assert all[|front| - 1] == front[0];
    var ok := pool.Free(p);
    ghost var i: nat :| i < |all| && all[i] == front[0] && pool.live == Without(all, i);
    WithoutLast(front, rest, all, i);
  }

  /** Fences every block that is live; `fenced` lists them. */
  method FenceAll(pool: FixedMemPool) returns (fenced: seq<int>)
    requires pool.Valid()
    ensures fenced == pool.live
  {
    hide PoolSpec.PoolOk;
    fenced := [];
    RingOfPool(pool, 0);
    var beg := pool.link[0].next;
    while beg != 0
      invariant |fenced| <= |pool.live| && fenced == pool.live[..|fenced|]
      invariant beg == Node(pool.live, |fenced| + 1)
      decreases |pool.live| - |fenced|
    {
      RingOfPool(pool, |fenced| + 1);
      fenced := fenced + [beg];
      beg := pool.link[beg].next;
    }
    RingOfPool(pool, |fenced| + 1);
  }

  lemma RingOfPool(pool: FixedMemPool, i: nat)
    requires pool.Valid()
    ensures i <= |pool.live| ==>
      0 <= Node(pool.live, i) < pool.link.Length && pool.link[Node(pool.live, i)].next == Node(pool.live, i + 1)
    ensures 1 <= i <= |pool.live| ==> Node(pool.live, i) != 0
  {
  }

  /** init with check == true, on a region that a pool is already using: afterwards every block of the
      region has been fenced exactly once and the live blocks are what they were, in their order and with their bytes. */
  method InitChecked(pool: FixedMemPool) returns (fenced: seq<int>)
    requires pool.Valid()
    modifies pool, pool.link
    ensures pool.Valid() && pool.live == old(pool.live) && pool.usedNum == old(pool.usedNum)
    ensures pool.block == old(pool.block)
    ensures NoDup(fenced) && |fenced| == pool.maxNum
    ensures forall x :: 1 <= x <= pool.maxNum <==> x in fenced
  {
    var savedSize := pool.usedNum;
    pool.LiveCount();
    ghost var before := pool.live;
    var temp;
    ghost var blocks;
    temp, blocks := Drain(pool);
    pool.LiveCount();
    fenced := FenceAll(pool);
    Refill(pool, temp, blocks, before);
    pool.LiveCount();
    assert savedSize == pool.usedNum;
  }
}
