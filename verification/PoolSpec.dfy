/** The bookkeeping of the fixed-size pool, on plain sequences: a ring of live blocks, a chain of given
    back blocks threaded through the same link nodes, and blocks that have never been used. */
module PoolSpec {
  import opened Links

  /** The `next` fields of the blocks' link nodes, entry x - 1 for block x. */
  function Nexts(links: seq<Link>): (nx: seq<int>)
    requires 0 < |links|
    ensures |nx| == |links| - 1
    ensures forall x :: 1 <= x < |links| ==> nx[x - 1] == links[x].next
  {
    seq(|links| - 1, i requires 0 <= i < |links| - 1 => links[i + 1].next)
  }

  /** Blocks 1 to `raw` have been used; each is live or in the reclaim list, and `prev` out of range
      marks the latter. */
  ghost predicate PoolOk(links: seq<Link>, used: nat, raw: nat, head: int, live: seq<int>, reclaim: seq<int>)
  {
    && 0 < |links|
    && Ring(links, live)
    && Chain(Nexts(links), head, reclaim)
    && raw < |links|
    && (forall x :: x in live ==> 1 <= x <= raw)
    && (forall x :: x in reclaim ==> 1 <= x <= raw && links[x].prev == |links|)
    && (forall x :: 1 <= x <= raw ==> x in live || x in reclaim)
    && used == |live|
    && used + |reclaim| == raw
  }

  lemma LiveLinks(links: seq<Link>, live: seq<int>, x: int)
    requires Ring(links, live) && (x in live || x == 0)
    ensures 0 <= x < |links| && links[x].prev < |links| && links[x].next < |links|
    ensures links[x].next == 0 || links[x].next in live
    ensures links[x].prev == 0 || links[x].prev in live
  {
    var i := 0;
    if x in live {
      i :| 0 <= i < |live| && live[i] == x;
      i := i + 1;
    }
    assert x == Node(live, i);
    assert links[x].next == Node(live, i + 1);
    if x == 0 {
      assert Node(live, |live| + 1) == 0 && links[0].prev == Node(live, |live|);
    } else {
      assert links[Node(live, i - 1 + 1)].prev == Node(live, i - 1);
    }
  }

  /** The block that the next allocation returns. */
  function Next(raw: nat, head: int): int
  {
    if head != 0 then head else raw + 1
  }

  /** The mark keeps the reclaim list and the live list apart. */
  lemma ReclaimNotLive(links: seq<Link>, used: nat, raw: nat, head: int, live: seq<int>, reclaim: seq<int>, y: int)
    requires PoolOk(links, used, raw, head, live, reclaim) && 0 < y <= raw
    ensures y in live <==> links[y].prev < |links|
    ensures y in reclaim <==> y !in live
  {
    if y in live {
      LiveLinks(links, live, y);
    }
  }

  lemma AllocChain(links: seq<Link>, head: int, live: seq<int>, reclaim: seq<int>, x: int)
    requires 0 < x < |links| && 0 <= links[0].next < |links| && (links[0].next == 0 || links[0].next in live)
    requires Chain(Nexts(links), head, reclaim) && x !in reclaim
    requires forall y :: y in reclaim ==> 1 <= y < |links| && y !in live
    ensures Chain(Nexts(PushedFront(links, x)), head, reclaim)
    ensures forall y :: y in reclaim ==> PushedFront(links, x)[y] == links[y]
  {
    ChainFrame(Nexts(links), Nexts(PushedFront(links, x)), head, reclaim);
  }

  lemma AllocReuse(links: seq<Link>, used: nat, raw: nat, head: int, live: seq<int>, reclaim: seq<int>)
    requires PoolOk(links, used, raw, head, live, reclaim) && head != 0
    ensures reclaim != [] && 0 < head < |links| && links[0].next < |links| && head !in live && links[0].next != head
    ensures PoolOk(PushedFront(links, head), used + 1, raw, links[head].next, [head] + live, reclaim[1..])
  {
    LiveLinks(links, live, 0);
    ChainNoDup(Nexts(links), head, reclaim);
    var rest := reclaim[1..];
    assert reclaim[0] in reclaim && reclaim == [reclaim[0]] + rest && head !in rest;
    assert Chain(Nexts(links), links[head].next, rest);
    hide Ring, Chain, NoDup, PushedFront, Nexts;
    forall y | y in reclaim ensures y !in live {
      ReclaimNotLive(links, used, raw, head, live, reclaim, y);
    }
    RingPushFront(links, live, head);
    assert forall y :: y in rest ==> y in reclaim;
    AllocChain(links, links[head].next, live, rest, head);
  }

  lemma AllocFresh(links: seq<Link>, used: nat, raw: nat, head: int, live: seq<int>, reclaim: seq<int>)
    requires PoolOk(links, used, raw, head, live, reclaim) && head == 0 && used + 1 < |links|
    ensures reclaim == [] && raw + 1 < |links| && links[0].next < |links| && raw + 1 !in live && links[0].next != raw + 1
    ensures PoolOk(PushedFront(links, raw + 1), used + 1, raw + 1, 0, [raw + 1] + live, [])
  {
    hide Ring, PushedFront, Nexts, NoDup;
    LiveLinks(links, live, 0);
    assert reclaim == [];
    RingPushFront(links, live, raw + 1);
  }

  /** Allocating puts a block at the front of the live list: the first one of the reclaim list, or one
      never used before when that list is empty. */
  lemma PoolAlloc(links: seq<Link>, used: nat, raw: nat, head: int, live: seq<int>, reclaim: seq<int>)
    requires PoolOk(links, used, raw, head, live, reclaim) && used + 1 < |links|
    ensures var x := Next(raw, head);
      && 0 < x < |links| && links[0].next < |links| && x !in live && links[0].next != x
      && (head != 0 <==> reclaim != [])
      && PoolOk(PushedFront(links, x), used + 1, if head != 0 then raw else raw + 1,
                if head != 0 then links[x].next else 0, [x] + live, if head != 0 then reclaim[1..] else [])
  {
    hide PoolOk;
    if head != 0 {
      AllocReuse(links, used, raw, head, live, reclaim);
    } else {
      AllocFresh(links, used, raw, head, live, reclaim);
    }
  }

  /** The link nodes after block `x` has been freed. */
  function FreedLinks(links: seq<Link>, x: int, head: int): (r: seq<Link>)
    requires 0 < x < |links| && links[x].prev < |links| && links[x].next < |links| && 0 <= head
    ensures |r| == |links| && r[x] == Link(|links|, head)
  {
    Unlinked(links, x)[x := Link(|links|, head)]
  }

  lemma FreeChain(links: seq<Link>, head: int, live: seq<int>, reclaim: seq<int>, x: int)
    requires 0 < x < |links| && links[x].prev < |links| && links[x].next < |links| && x in live && 0 <= head
    requires (links[x].next == 0 || links[x].next in live) && (links[x].prev == 0 || links[x].prev in live)
    requires Chain(Nexts(links), head, reclaim)
    requires forall y :: y in reclaim ==> 1 <= y < |links| && y !in live
    ensures Chain(Nexts(FreedLinks(links, x, head)), x, [x] + reclaim)
    ensures forall y :: y in reclaim ==> FreedLinks(links, x, head)[y] == links[y]
  {
    ChainPrepend(Nexts(links), head, reclaim, x);
    ChainFrame(Nexts(links)[x - 1 := head], Nexts(FreedLinks(links, x, head)), x, [x] + reclaim);
  }

  lemma FreeRing(links: seq<Link>, live: seq<int>, i: nat, head: int)
    requires Ring(links, live) && i < |live| && 0 <= head
    ensures var x := live[i];
      && 0 < x < |links| && links[x].prev < |links| && links[x].next < |links|
      && Ring(FreedLinks(links, x, head), Without(live, i))
  {
    WithoutNoDup(live, i);
    RingUnlink(links, live, i);
    RingFrame(Unlinked(links, live[i]), FreedLinks(links, live[i], head), Without(live, i));
  }

  /** Freeing a live block takes it out of the live list and puts it in front of the reclaim list. */
  lemma PoolFree(links: seq<Link>, used: nat, raw: nat, head: int, live: seq<int>, reclaim: seq<int>, i: nat)
    requires PoolOk(links, used, raw, head, live, reclaim) && i < |live|
    ensures 0 < live[i] < |links| && links[live[i]].prev < |links| && links[live[i]].next < |links|
    ensures used > 0 && 0 <= head
    ensures PoolOk(FreedLinks(links, live[i], head), used - 1, raw, live[i], Without(live, i), [live[i]] + reclaim)
  {
    var x := live[i];
    assert x in live && NoDup(live);
    assert 0 <= head by {
      assert reclaim != [] ==> head == reclaim[0] && reclaim[0] in reclaim;
    }
    hide Ring, Chain, NoDup, Without, FreedLinks, Nexts;
    LiveLinks(links, live, x);
    WithoutNoDup(live, i);
    FreeRing(links, live, i, head);
    forall y | y in reclaim ensures y !in live {
      ReclaimNotLive(links, used, raw, head, live, reclaim, y);
    }
    FreeChain(links, head, live, reclaim, x);
  }
}
