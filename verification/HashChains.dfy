/** Buckets of chained slots: the part that the hash set and the hash pool have in common.
    `bk` holds the head of each bucket, `nx` the successor and `ky` the key of each slot (entry x - 1
    for slot x), `chains` the slots of each bucket in order, and `slot` the slot of each stored key. */
module HashChains {
  import opened Links

  function BucketOf<K>(hash: K -> nat, k: K, buckets: nat): (b: nat)
    requires 0 < buckets
    ensures b < buckets
  {
    hash(k) % buckets
  }

  /** The map without one key. */
  function Minus<K, V>(m: map<K, V>, k: K): (r: map<K, V>)
    ensures r.Keys == m.Keys - {k} && forall l :: l in r ==> r[l] == m[l]
  {
    m - {k}
  }

  predicate Live<K>(ky: seq<K>, slot: map<K, int>, x: int)
  {
    1 <= x <= |ky| && ky[x - 1] in slot && slot[ky[x - 1]] == x
  }

  /** Every bucket is a chain of live slots whose keys hash to it, and the slot of every stored key is
      in the bucket of that key. */
  ghost predicate Table<K>(bk: seq<int>, nx: seq<int>, ky: seq<K>, hash: K -> nat, chains: seq<seq<int>>, slot: map<K, int>)
  {
    && 0 < |bk| == |chains|
    && |nx| == |ky|
    && (forall b: nat :: b < |bk| ==> Chain(nx, bk[b], chains[b]))
    && (forall k :: k in slot ==> Live(ky, slot, slot[k]) && ky[slot[k] - 1] == k)
    && (forall k :: k in slot ==> slot[k] in chains[BucketOf(hash, k, |bk|)])
    && (forall b: nat, x: int {:trigger x in chains[b]} :: b < |bk| && x in chains[b] ==>
          Live(ky, slot, x) && BucketOf(hash, ky[x - 1], |bk|) == b)
  }

  /** A slot is in at most one bucket, and in it once. */
  lemma OneBucket<K>(bk: seq<int>, nx: seq<int>, ky: seq<K>, hash: K -> nat, chains: seq<seq<int>>, slot: map<K, int>,
                     b: nat, c: nat, i: nat, j: nat)
    requires Table(bk, nx, ky, hash, chains, slot)
    requires b < |bk| && c < |bk| && i < |chains[b]| && j < |chains[c]|
    ensures chains[b][i] == chains[c][j] <==> b == c && i == j
  {
    ChainNoDup(nx, bk[b], chains[b]);
    assert chains[b][i] in chains[b] && chains[c][j] in chains[c];
  }

  lemma TableFrame<K>(bk: seq<int>, nx: seq<int>, mx: seq<int>, ky: seq<K>, ly: seq<K>, hash: K -> nat,
                      chains: seq<seq<int>>, slot: map<K, int>)
    requires Table(bk, nx, ky, hash, chains, slot) && |nx| == |mx| && |ky| == |ly|
    requires forall k :: k in slot ==> nx[slot[k] - 1] == mx[slot[k] - 1] && ky[slot[k] - 1] == ly[slot[k] - 1]
    ensures Table(bk, mx, ly, hash, chains, slot)
  {
    forall b: nat | b < |bk| ensures Chain(mx, bk[b], chains[b]) {
      ChainFrame(nx, mx, bk[b], chains[b]);
    }
  }

  lemma TableInsert<K>(bk: seq<int>, nx: seq<int>, ky: seq<K>, hash: K -> nat, chains: seq<seq<int>>, slot: map<K, int>,
                       k: K, x: int)
    requires Table(bk, nx, ky, hash, chains, slot)
    requires k !in slot && 1 <= x <= |nx| && forall l :: l in slot ==> slot[l] != x
    ensures var b := BucketOf(hash, k, |bk|);
      Table(bk[b := x], nx[x - 1 := bk[b]], ky[x - 1 := k], hash, chains[b := [x] + chains[b]], slot[k := x])
  {
    var b := BucketOf(hash, k, |bk|);
    var mx, ly, ds, after := nx[x - 1 := bk[b]], ky[x - 1 := k], chains[b := [x] + chains[b]], slot[k := x];
    assert x !in chains[b];
    forall c: nat | c < |bk| ensures Chain(mx, bk[b := x][c], ds[c]) {
      if c == b {
        ChainPrepend(nx, bk[b], chains[b], x);
      } else {
        ChainFrame(nx, mx, bk[c], chains[c]);
      }
    }
    hide Chain, BucketOf;
    forall c: nat, y: int | c < |bk| && y in ds[c]
      ensures Live(ly, after, y) && BucketOf(hash, ly[y - 1], |bk|) == c
    {
      if y != x {
        assert y in chains[c];
      }
    }
    forall l | l in after ensures after[l] in ds[BucketOf(hash, l, |bk|)] {
      if l == k {
        assert x == ds[b][0];
      } else {
        assert slot[l] in chains[BucketOf(hash, l, |bk|)];
      }
    }
  }

  /** Redirecting the bucket head past the first slot of its chain, if that is the one to go. */
  function HeadsWithout(bk: seq<int>, nx: seq<int>, b: nat, c: seq<int>, i: nat): (r: seq<int>)
    requires b < |bk| && i < |c| && 1 <= c[i] <= |nx|
    ensures |r| == |bk|
  {
    if i == 0 then bk[b := nx[c[0] - 1]] else bk
  }

  /** Redirecting the predecessor of the i-th slot past it, if it has one. */
  function LinksWithout(nx: seq<int>, c: seq<int>, i: nat): (r: seq<int>)
    requires i < |c| && 1 <= c[i] <= |nx| && (i > 0 ==> 1 <= c[i - 1] <= |nx|)
    ensures |r| == |nx|
    ensures forall y: nat :: y < |nx| && (i > 0 ==> y != c[i - 1] - 1) ==> r[y] == nx[y]
  {
    if i == 0 then nx else nx[c[i - 1] - 1 := nx[c[i] - 1]]
  }

  /** Taking the i-th slot of bucket `b` out: the effect on the chains. */
  lemma UnlinkFromBucket<K>(bk: seq<int>, nx: seq<int>, ky: seq<K>, hash: K -> nat, chains: seq<seq<int>>,
                            slot: map<K, int>, b: nat, i: nat)
    requires Table(bk, nx, ky, hash, chains, slot)
    requires b < |bk| && i < |chains[b]|
    ensures 1 <= chains[b][i] <= |nx| && (i > 0 ==> 1 <= chains[b][i - 1] <= |nx|)
    ensures var ds := chains[b := Without(chains[b], i)];
      forall c: nat :: c < |bk| ==>
        Chain(LinksWithout(nx, chains[b], i), HeadsWithout(bk, nx, b, chains[b], i)[c], ds[c])
  {
    hide BucketOf, Live;
    ChainAt(nx, bk[b], chains[b], i);
    if i > 0 {
      ChainAt(nx, bk[b], chains[b], i - 1);
    }
    var ds, mx := chains[b := Without(chains[b], i)], LinksWithout(nx, chains[b], i);
    forall c: nat | c < |bk| ensures Chain(mx, HeadsWithout(bk, nx, b, chains[b], i)[c], ds[c]) {
      if c != b {
        if i > 0 {
          assert chains[b][i - 1] in chains[b];
        }
        ChainFrame(nx, mx, bk[c], chains[c]);
      } else if i > 0 {
        ChainUnlink(nx, bk[b], chains[b], i);
      } else {
        assert Without(chains[b], 0) == chains[b][1..];
      }
    }
  }

  lemma TableErase<K>(bk: seq<int>, nx: seq<int>, ky: seq<K>, hash: K -> nat, chains: seq<seq<int>>, slot: map<K, int>,
                      b: nat, i: nat)
    requires Table(bk, nx, ky, hash, chains, slot)
    requires b < |bk| && i < |chains[b]|
    ensures 1 <= chains[b][i] <= |nx| && (i > 0 ==> 1 <= chains[b][i - 1] <= |nx|)
    ensures Table(HeadsWithout(bk, nx, b, chains[b], i), LinksWithout(nx, chains[b], i), ky, hash,
                  chains[b := Without(chains[b], i)], Minus(slot, ky[chains[b][i] - 1]))
  {
    hide Chain, BucketOf, Without, HeadsWithout, LinksWithout;
    UnlinkFromBucket(bk, nx, ky, hash, chains, slot, b, i);
    var x := chains[b][i];
    assert x in chains[b];
    ChainNoDup(nx, bk[b], chains[b]);
    WithoutNoDup(chains[b], i);
    var ds, after := chains[b := Without(chains[b], i)], Minus(slot, ky[x - 1]);
    forall c: nat, y: int | c < |bk| && y in ds[c]
      ensures Live(ky, after, y) && BucketOf(hash, ky[y - 1], |bk|) == c
    {
      assert y in chains[c];
    }
    forall l | l in after ensures after[l] in ds[BucketOf(hash, l, |bk|)] {
      assert slot[l] in chains[BucketOf(hash, l, |bk|)];
    }
  }
}
