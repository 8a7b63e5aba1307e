/** Lists threaded through arrays of slot numbers.  Slot numbers start at 1; 0 ends a chain and is the
    sentinel of a ring. */
module Links {

  predicate NoDup<X(==)>(s: seq<X>)
  {
    forall i, j :: 0 <= i < j < |s| ==> s[i] != s[j]
  }

  function Without<X>(s: seq<X>, i: nat): (t: seq<X>)
    requires i < |s|
    ensures |t| == |s| - 1
  {
    s[..i] + s[i + 1..]
  }

  // ------------------------------------------------------------ singly linked chains

  /** The i-th slot of a chain, 0 past its end. */
  function At(c: seq<int>, i: nat): int
  {
    if i < |c| then c[i] else 0
  }

  /** The walk from `head` over `nx` (entry x - 1 is the successor of slot x) visits exactly `c`. */
  predicate Chain(nx: seq<int>, head: int, c: seq<int>)
    decreases |c|
  {
    if c == [] then head == 0
    else 1 <= head <= |nx| && head == c[0] && Chain(nx, nx[head - 1], c[1..])
  }

  lemma {:induction false} ChainAt(nx: seq<int>, head: int, c: seq<int>, i: nat)
    requires Chain(nx, head, c) && i < |c|
    ensures head == c[0] && 1 <= c[i] <= |nx| && nx[c[i] - 1] == At(c, i + 1)
    ensures Chain(nx, c[i], c[i..])
    decreases i
  {
    if i > 0 {
      ChainAt(nx, nx[head - 1], c[1..], i - 1);
      assert c[1..][i - 1..] == c[i..];
    }
  }

  /** A chain is determined by its head: there is one walk, and it ends. */
  lemma {:induction false} ChainUnique(nx: seq<int>, head: int, c: seq<int>, d: seq<int>)
    requires Chain(nx, head, c) && Chain(nx, head, d)
    ensures c == d
    decreases |c|
  {
    if c != [] && d != [] {
      ChainUnique(nx, nx[head - 1], c[1..], d[1..]);
      assert c == [c[0]] + c[1..] && d == [d[0]] + d[1..];
    }
  }

  /** So no slot comes twice: the walks from its two occurrences would have to be equally long. */
  lemma ChainNoDup(nx: seq<int>, head: int, c: seq<int>)
    requires Chain(nx, head, c)
    ensures NoDup(c)
  {
    forall i, j | 0 <= i < j < |c| ensures c[i] != c[j] {
      ChainAt(nx, head, c, i);
      ChainAt(nx, head, c, j);
      if c[i] == c[j] {
        ChainUnique(nx, c[i], c[i..], c[j..]);
      }
    }
  }

  /** Entries of slots outside the chain do not matter. */
  lemma {:induction false} ChainFrame(nx: seq<int>, mx: seq<int>, head: int, c: seq<int>)
    requires Chain(nx, head, c) && |nx| == |mx|
    requires forall x :: x in c && 1 <= x <= |nx| ==> nx[x - 1] == mx[x - 1]
    ensures Chain(mx, head, c)
    decreases |c|
  {
    if c != [] {
      assert head in c && forall x :: x in c[1..] ==> x in c;
      ChainFrame(nx, mx, nx[head - 1], c[1..]);
    }
  }

  lemma ChainPrepend(nx: seq<int>, head: int, c: seq<int>, x: int)
    requires Chain(nx, head, c) && 1 <= x <= |nx| && x !in c
    ensures Chain(nx[x - 1 := head], x, [x] + c)
  {
    ChainFrame(nx, nx[x - 1 := head], head, c);
    assert ([x] + c)[1..] == c;
  }

  /** Taking slot c[i] out by redirecting its predecessor. */
  lemma {:induction false} ChainUnlink(nx: seq<int>, head: int, c: seq<int>, i: nat)
    requires Chain(nx, head, c) && 0 < i < |c|
    ensures 1 <= c[i] <= |nx| && 1 <= c[i - 1] <= |nx|
    ensures Chain(nx[c[i - 1] - 1 := nx[c[i] - 1]], head, Without(c, i))
    decreases i
  {
    ChainAt(nx, head, c, i);
    ChainAt(nx, head, c, i - 1);
    if i == 1 {
      UnlinkSecond(nx, head, c);
    } else {
      hide At;
      ChainNoDup(nx, head, c);
      ChainUnlink(nx, nx[head - 1], c[1..], i - 1);
      assert Without(c, i)[1..] == Without(c[1..], i - 1);
    }
  }

  lemma UnlinkSecond(nx: seq<int>, head: int, c: seq<int>)
    requires Chain(nx, head, c) && 1 < |c|
    ensures 1 <= c[1] <= |nx| && 1 <= c[0] <= |nx|
    ensures Chain(nx[c[0] - 1 := nx[c[1] - 1]], head, Without(c, 1))
  {
    ChainNoDup(nx, head, c);
    assert Chain(nx, nx[head - 1], c[1..]);
    ChainFrame(nx, nx[c[0] - 1 := nx[c[1] - 1]], nx[c[1] - 1], c[1..][1..]);
    assert Without(c, 1)[1..] == c[1..][1..];
  }

  lemma NoDupAppend<X>(a: seq<X>, b: seq<X>)
    requires NoDup(a) && NoDup(b) && forall x :: x in a ==> x !in b
    ensures NoDup(a + b)
  {
    var c := a + b;
    forall i, j | 0 <= i < j < |c| ensures c[i] != c[j] {
      if i < |a| <= j {
        assert c[i] in a && c[j] == b[j - |a|];
      }
    }
  }

  lemma WithoutNoDup<X>(c: seq<X>, i: nat)
    requires i < |c| && NoDup(c)
    ensures NoDup(Without(c, i)) && c[i] !in Without(c, i)
    ensures forall x :: x in c <==> x == c[i] || x in Without(c, i)
  {
    var d := Without(c, i);
    assert forall j :: 0 <= j < |d| ==> d[j] == c[if j < i then j else j + 1];
    forall x | x in c && x != c[i] ensures x in d {
      var k :| 0 <= k < |c| && c[k] == x;
      assert d[if k < i then k else k - 1] == x;
    }
  }

  // ------------------------------------------------------------ doubly linked ring

  datatype Link = Link(prev: nat, next: nat)

  /** The i-th node of the ring whose slots are `order`; 0, the sentinel, comes before and after them. */
  function Node(order: seq<int>, i: nat): int
  {
    if 1 <= i <= |order| then order[i - 1] else 0
  }

  /** Following `next` from the sentinel visits exactly `order` and comes back, and `prev` goes the
      same way backwards. */
  predicate Ring(links: seq<Link>, order: seq<int>)
  {
    && 0 < |links|
    && NoDup(order)
    && (forall i :: 0 <= i < |order| ==> 1 <= order[i] < |links|)
    && (forall i: nat :: i <= |order| ==> links[Node(order, i)].next == Node(order, i + 1))
    && (forall i: nat :: i <= |order| ==> links[Node(order, i + 1)].prev == Node(order, i))
  }

  /** Redirecting the neighbours of `x` past it. */
  function Unlinked(links: seq<Link>, x: nat): (r: seq<Link>)
    requires x < |links| && links[x].prev < |links| && links[x].next < |links|
    ensures |r| == |links|
  {
    var next, prev := links[x].next, links[x].prev;
    var l := links[prev := links[prev].(next := next)];
    l[next := l[next].(prev := prev)]
  }

  /** Putting `x` between the sentinel and what was first. */
  function PushedFront(links: seq<Link>, x: nat): (r: seq<Link>)
    requires 0 < x < |links| && links[0].next < |links|
    ensures |r| == |links|
  {
    var first := links[0].next;
    var l := links[first := links[first].(prev := x)];
    var m := l[x := Link(0, first)];
    m[0 := m[0].(next := x)]
  }

  lemma RingUnlink(links: seq<Link>, order: seq<int>, i: nat)
    requires Ring(links, order) && i < |order|
    ensures links[order[i]].prev < |links| && links[order[i]].next < |links|
    ensures Ring(Unlinked(links, order[i]), Without(order, i))
    ensures order[i] !in Without(order, i)
  {
    var x, d := order[i], Without(order, i);
    assert x == Node(order, i + 1);
    assert links[x].next == Node(order, i + 2) && links[x].prev == Node(order, i);
    var m := Unlinked(links, x);
    forall j: nat | j <= |d|
      ensures m[Node(d, j)].next == Node(d, j + 1) && m[Node(d, j + 1)].prev == Node(d, j)
    {
      var k := if j <= i then j else j + 1;
      var k' := if j + 1 <= i then j + 1 else j + 2;
      assert Node(d, j) == Node(order, k) && Node(d, j + 1) == Node(order, k');
      NodesDiffer(order, k, i);
      NodesDiffer(order, k', i + 2);
    }
  }

  /** Nodes of the ring at different positions are different, up to the sentinel at both ends. */
  lemma NodesDiffer(order: seq<int>, i: nat, j: nat)
    requires NoDup(order) && 0 !in order && i <= |order| + 1 && j <= |order| + 1
    ensures Node(order, i) == Node(order, j) <==>
      i == j || ((i == 0 || i == |order| + 1) && (j == 0 || j == |order| + 1))
  {
  }

  lemma RingPushFront(links: seq<Link>, order: seq<int>, x: nat)
    requires Ring(links, order) && 0 < x < |links| && x !in order
    ensures links[0].next < |links|
    ensures Ring(PushedFront(links, x), [x] + order)
  {
    assert links[0].next == Node(order, 1) by { assert Node(order, 0) == 0; }
    var d, m := [x] + order, PushedFront(links, x);
    forall j: nat | j <= |d|
      ensures m[Node(d, j)].next == Node(d, j + 1) && m[Node(d, j + 1)].prev == Node(d, j)
    {
      if j > 0 {
        assert Node(d, j + 1) == Node(order, j);
        if j > 1 {
          assert Node(d, j) == Node(order, j - 1);
          NodesDiffer(order, j, 1);
        }
      }
    }
  }

  /** Only the entries of the sentinel and of the slots in the ring matter. */
  lemma RingFrame(links: seq<Link>, m: seq<Link>, order: seq<int>)
    requires Ring(links, order) && |links| == |m| && links[0] == m[0]
    requires forall i :: 0 <= i < |order| ==> links[order[i]] == m[order[i]]
    ensures Ring(m, order)
  {
    forall j: nat | j <= |order| + 1 ensures m[Node(order, j)] == links[Node(order, j)] {
    }
  }
}
