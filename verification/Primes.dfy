/** Primality by trial division with divisors of the form 6k-1 and 6k+1, and the nearest prime below. */
module Primes {
  import opened Modular

  predicate Divides(d: nat, n: nat)
    requires d > 0
  {
    n % d == 0
  }

  /** Prime: at least two, and divided by one and itself only. */
  ghost predicate Prime(n: nat) {
    n >= 2 && forall d: nat :: 2 <= d < n ==> !Divides(d, n)
  }

  /** Nothing from two up to, but not including, i divides n. */
  ghost predicate NoneBelow(n: nat, i: nat) {
    forall d: nat :: 2 <= d < i ==> !Divides(d, n)
  }

  lemma DividesTransitive(a: nat, b: nat, n: nat)
    requires 0 < a && 0 < b && Divides(a, b) && Divides(b, n)
    ensures Divides(a, n)
  {
    var k, m := b / a, n / b;
    assert b == a * k && n == b * m;
    assert n == a * (k * m) by {
      assert n == (a * k) * m;
    }
    DivModUnique(n, a, k * m, 0);
  }

  /** A number whose least divisor is above its square root is prime: the other factor of any divisor is smaller. */
  lemma SquareRootSuffices(n: nat, i: nat)
    requires n >= 2 && NoneBelow(n, i) && i * i > n
    ensures Prime(n)
  {
    forall d: nat | 2 <= d < n ensures !Divides(d, n) {
      if Divides(d, n) {
        var k := n / d;
        assert n == d * k && k != 1;
        DivModUnique(n, k, d, 0);
        assert Divides(k, n);
        assert i <= d && i <= k;
        Products(i, d, k);
      }
    }
  }

  lemma Products(i: nat, d: nat, k: nat)
    requires i <= d && i <= k
    ensures i * i <= d * k
  {
    assert d * k >= i * k >= i * i by {
      assert (d - i) * k >= 0;
      assert i * (k - i) >= 0;
    }
  }

  /** One turn of the loop tries the two candidates next to a multiple of six; the four numbers after them are
      multiples of two or three, or wait for the next turn. */
  lemma SixApart(n: nat, i: nat)
    requires i >= 5 && i % 6 == 5 && NoneBelow(n, i)
    requires !Divides(i, n) && !Divides(i + 2, n) && !Divides(2, n) && !Divides(3, n)
    ensures NoneBelow(n, i + 6)
  {
    hide Divides;
    Neighbours(i);
    forall d: nat | 2 <= d < i + 6 ensures !Divides(d, n) {
      if d >= i && Divides(d, n) {
        if d == i + 1 || d == i + 3 || d == i + 5 {
          DividesTransitive(2, d, n);
        } else if d == i + 4 {
          DividesTransitive(3, d, n);
        }
      }
    }
  }

  lemma Neighbours(i: nat)
    requires i % 6 == 5
    ensures Divides(2, i + 1) && Divides(2, i + 3) && Divides(2, i + 5) && Divides(3, i + 4)
  {
    hide Divides;
    var m := i / 6;
    Multiple(2, 3 * m + 3);
    Multiple(2, 3 * m + 4);
    Multiple(2, 3 * m + 5);
    Multiple(3, 2 * m + 3);
  }

  lemma Multiple(d: nat, k: nat)
    requires d > 0
    ensures Divides(d, d * k)
  {
    DivModUnique(d * k, d, k, 0);
  }

  lemma SmallPrimes(n: nat)
    ensures n < 2 ==> !Prime(n)
    ensures 2 <= n < 4 ==> Prime(n)
  {
    if n == 3 {
      assert !Divides(2, 3);
    }
  }

  lemma Composite(n: nat, d: nat)
    requires 2 <= d < n && Divides(d, n)
    ensures !Prime(n)
  {
  }

  const U64: nat := 0x1_0000_0000_0000_0000

  /** The largest candidate whose square is computed exactly on 64 bits. */
  const TOP: nat := 4294967291

  function Square(i: nat): nat {
    i * i % U64
  }

  /** A candidate up to n at which the loop stops, its square being computed on 64 bits. */
  ghost predicate StopsInTime(n: nat) {
    exists i: nat :: 5 <= i <= n && i % 6 == 5 && Square(i) > n
  }

  lemma SquareExact(i: nat)
    requires i <= TOP
    ensures Square(i) == i * i
  {
    Products(i, TOP, TOP);
  }

  /** A candidate whose square falls just short of a multiple of 2^64. */
  const WITNESS: nat := 1852311383259529397

  lemma WitnessSquare()
    ensures Square(WITNESS) == U64 - 7 && WITNESS % 6 == 5
  {
    assert WITNESS * WITNESS == 185997997632698875 * U64 + (U64 - 7);
  }

  /** Below the top candidate the last one that is not above n stops the loop. */
  lemma StopsBelowTop(n: nat)
    requires 5 <= n < TOP
    ensures StopsInTime(n)
  {
    hide Square;
    var i := n - (n - 5) % 6;
    assert i % 6 == 5 && 5 <= i && n - 5 <= i;
    SquareExact(i);
    Products(5, i, i);
    assert (i - 5) * i >= 0;
  }

  /** The loop stops in time, before n is tried as its own divisor, for all but the last seven numbers of 64 bits: the
      squares that wrap round do no harm. */
  lemma StopsInTimeUpToLastSeven(n: nat)
    requires 5 <= n < U64 - 7
    ensures StopsInTime(n)
  {
    hide Square;
    if n >= TOP * TOP {
      WitnessSquare();
    } else if n >= TOP {
      SquareExact(TOP);
      assert TOP % 6 == 5;
    } else {
      StopsBelowTop(n);
    }
  }

  /** None of the last seven numbers of 64 bits is prime. */
  lemma LastSeven(n: nat)
    requires U64 - 7 <= n < U64
    ensures !Prime(n)
  {
    var d := if n % 2 == 0 then 2 else if n % 3 == 0 then 3 else if n == U64 - 5 then 11 else 13;
    assert Divides(d, n);
    Composite(n, d);
  }

  /** The loop has not stopped at a candidate before i. */
  ghost predicate NotYet(n: nat, i: nat) {
    forall j: nat :: 5 <= j < i && j % 6 == 5 ==> Square(j) <= n
  }

  lemma SelfDivides(n: nat)
    requires n > 0
    ensures Divides(n, n)
  {
    DivModUnique(n, n, 1, 0);
  }

  /** n divides itself, so the candidates never pass it. */
  lemma CandidatesWithin(n: nat, i: nat)
    requires n >= 2 && NoneBelow(n, i)
    ensures i <= n
  {
    SelfDivides(n);
  }

  lemma OwnDivisor(n: nat, d: nat)
    requires Prime(n) && 2 <= d <= n && Divides(d, n)
    ensures d == n
  {
  }

  lemma NoLaterCandidate(i: nat, j: nat, n: nat)
    requires i % 6 == 5 && j % 6 == 5 && i <= n <= i + 2 && j <= n
    ensures j <= i
  {
  }

  /** A divisor found is n itself only when no candidate up to n stops the loop. */
  lemma Found(n: nat, i: nat, d: nat)
    requires 5 <= i && i % 6 == 5 && NotYet(n, i) && Square(i) <= n
    requires (d == i || d == i + 2) && Divides(d, n) && d <= n
    ensures Prime(n) ==> !StopsInTime(n)
  {
    hide Prime, Divides, Square;
    if Prime(n) {
      OwnDivisor(n, d);
      forall j: nat | 5 <= j <= n && j % 6 == 5 ensures Square(j) <= n {
        NoLaterCandidate(i, j, n);
      }
    }
  }

  /** The second candidate of a turn is within n too. */
  lemma SecondWithin(n: nat, i: nat)
    requires 5 <= i <= n && i % 6 == 5 && !Divides(i, n) && !Divides(2, n)
    ensures i + 2 <= n
  {
    SelfDivides(n);
  }

  /** The answer is right for every number of 64 bits. */
  method IsPrime(n: nat) returns (prime: bool)
    requires n < U64
    ensures prime <==> Prime(n)
  {
    hide Prime, StopsInTime, NotYet, Square, NoneBelow, Divides;
    SmallPrimes(n);
    if n < 2 {
      return false;
    }
    if n < 4 {
      return true;
    }
    if Divides(2, n) || Divides(3, n) {
      Composite(n, if Divides(2, n) then 2 else 3);
      return false;
    }
    var i := 5;
    BelowFive(n);
    if n < U64 - 7 {
      StopsInTimeUpToLastSeven(n);
    } else {
      LastSeven(n);
    }
    while Square(i) <= n
      invariant i >= 5 && i % 6 == 5 && i <= n
      invariant NoneBelow(n, i) && NotYet(n, i)
      decreases n - i
    {
      if Divides(i, n) {
        Found(n, i, i);
        return false;
      }
      SecondWithin(n, i);
      if Divides(i + 2, n) {
        Found(n, i, i + 2);
        return false;
      }
      SixApart(n, i);
      NextCandidate(n, i);
      CandidatesWithin(n, i + 6);
      i := i + 6;
    }
    Stopped(n, i);
    return true;
  }

  lemma BelowFive(n: nat)
    requires n >= 4 && !Divides(2, n) && !Divides(3, n)
    ensures n >= 5 && NoneBelow(n, 5) && NotYet(n, 5)
  {
    forall d: nat | 2 <= d < 5 ensures !Divides(d, n) {
      if d == 4 && Divides(4, n) {
        assert Divides(2, 4);
        DividesTransitive(2, 4, n);
      }
    }
  }

  lemma NextCandidate(n: nat, i: nat)
    requires i % 6 == 5 && NotYet(n, i) && Square(i) <= n
    ensures NotYet(n, i + 6)
  {
  }

  lemma Stopped(n: nat, i: nat)
    requires n >= 2 && 5 <= i <= n && i % 6 == 5 && NoneBelow(n, i) && Square(i) > n
    ensures Prime(n) && StopsInTime(n)
  {
    assert Square(i) <= i * i;
    SquareRootSuffices(n, i);
  }

  const LARGEST: nat := 800001

  /** The nearest prime not above n, for n up to the limit; otherwise n itself. */
  method NearbyPrime(n: nat) returns (p: nat)
    ensures 2 <= n <= LARGEST ==> Prime(p) && p <= n && forall q: nat :: p < q <= n ==> !Prime(q)
    ensures n < 2 || n > LARGEST ==> p == n
  {
    if n > LARGEST {
      return n;
    }
    SmallPrimes(2);
    p := n;
    while p > 1
      invariant p <= n && (2 <= n ==> 2 <= p) && (n < 2 ==> p == n)
      invariant forall q: nat :: p < q <= n ==> !Prime(q)
    {
      var prime := IsPrime(p);
      if prime {
        break;
      }
      p := p - 1;
    }
  }
}
