/** The first 64 primes, which the constants of SHA-256 come from. */
module PrimeNumbers {
  import opened Bytes

  ghost predicate Prime(n: nat) {
    n >= 2 && forall d :: 2 <= d < n ==> n % d != 0
  }

  function Primes(): (ps: seq<nat>)
    ensures |ps| == 64
  {
    PrimeRow(0) + PrimeRow(1) + PrimeRow(2) + PrimeRow(3) + PrimeRow(4) + PrimeRow(5) + PrimeRow(6) + PrimeRow(7)
  }

  function PrimeRow(i: nat): (ps: seq<nat>)
    requires i < 8
    ensures |ps| == 8
  {
    match i
    case 0 => [2, 3, 5, 7, 11, 13, 17, 19]
    case 1 => [23, 29, 31, 37, 41, 43, 47, 53]
    case 2 => [59, 61, 67, 71, 73, 79, 83, 89]
    case 3 => [97, 101, 103, 107, 109, 113, 127, 131]
    case 4 => [137, 139, 149, 151, 157, 163, 167, 173]
    case 5 => [179, 181, 191, 193, 197, 199, 211, 223]
    case 6 => [227, 229, 233, 239, 241, 251, 257, 263]
    case _ => [269, 271, 277, 281, 283, 293, 307, 311]
  }

  /** Entry `t` stands in row `t / 8`. */
  lemma PrimeAt(t: nat)
    requires t < 64
    ensures Primes()[t] == PrimeRow(t / 8)[t % 8]
  {
    hide PrimeRow;
  }

  predicate Sieved(n: nat) {
    && n % 2 != 0 && n % 3 != 0 && n % 5 != 0 && n % 7 != 0
    && n % 11 != 0 && n % 13 != 0 && n % 17 != 0
  }

  lemma SmallFactor(n: nat, e: nat)
    requires 2 <= e < 19 && n % e == 0
    ensures !Sieved(n)
  {
    var q := n / e;
    assert n == e * q;
    var f :=
      if e % 2 == 0 then 2 else if e % 3 == 0 then 3 else if e % 5 == 0 then 5 else if e % 7 == 0 then 7 else e;
    FactorOfFactor(n, f, e / f, q);
  }

  lemma FactorOfFactor(n: nat, f: nat, g: nat, q: nat)
    requires f > 0 && n == f * g * q
    ensures n % f == 0
  {
    assert n == f * (g * q);
    MultipleRemainder(f, g * q);
  }

  lemma Times(f: int, a: int, b: int)
    requires f >= 0 && a <= b
    ensures f * a <= f * b
  {
    assert f * (b - a) >= 0;
  }

  lemma RemainderIs(n: int, d: int, q: int, r: int)
    requires d > 0 && n == d * q + r && 0 <= r < d
    ensures n % d == r
  {
    var p := n / d;
    assert d * (q - p) == n % d - r;
    if q > p {
      Times(d, 1, q - p);
    } else if q < p {
      Times(d, q - p, -1);
    }
  }

  lemma MultipleRemainder(f: nat, k: nat)
    requires f > 0
    ensures f * k % f == 0
  {
    RemainderIs(f * k, f, k, 0);
  }

  /** Up to 19 * 19 the primes below 19 are divisors enough to look for. */
  lemma Sieve(n: nat)
    requires 17 < n < 361
    ensures Prime(n) <==> Sieved(n)
  {
    if Sieved(n) {
      forall d | 2 <= d < n
        ensures n % d != 0
      {
        if n % d == 0 {
          var q := n / d;
          assert n == d * q;
          if d < 19 {
            SmallFactor(n, d);
          } else {
            CoFactor(n, d, q);
            SmallFactor(n, q);
          }
        }
      }
    }
  }

  lemma LargeFactors(d: nat, q: nat)
    requires d >= 19 && q >= 19
    ensures d * q >= 361
  {
    Times(d, 19, q);
  }

  lemma CoFactor(n: nat, d: nat, q: nat)
    requires n == d * q && 19 <= d < n < 361
    ensures 2 <= q < 19 && n % q == 0
  {
    MultipleRemainder(q, d);
    if q >= 19 {
      LargeFactors(d, q);
    }
  }

  /** Remainders by 30 that leave 2, 3 and 5 out. */
  lemma Wheel(r: nat)
    requires r < 30 && r % 2 != 0 && r % 3 != 0 && r % 5 != 0
    ensures r == 1 || r == 7 || r == 11 || r == 13 || r == 17 || r == 19 || r == 23 || r == 29
  {
  }

  lemma RemainderOfRemainder(n: nat, d: nat, e: nat)
    requires d > 0 && e > 0
    ensures n % (d * e) % d == n % d
  {
    var k, r := n / (d * e), n % (d * e);
    assert n == d * (e * k) + d * (r / d) + r % d;
    assert n == d * (e * k + r / d) + r % d;
    RemainderIs(n, d, e * k + r / d, r % d);
  }

  lemma WheelTurns(n: nat)
    requires n % 2 != 0 && n % 3 != 0 && n % 5 != 0
    ensures n % 30 % 2 != 0 && n % 30 % 3 != 0 && n % 30 % 5 != 0
  {
    RemainderOfRemainder(n, 2, 15);
    RemainderOfRemainder(n, 3, 10);
    RemainderOfRemainder(n, 5, 6);
  }

  /** The numbers up to 312 that leave 2, 3 and 5 out and are no primes. */
  function Composites(): seq<nat> {
    [49, 77, 91, 119, 121, 133, 143, 161, 169, 187, 203, 209, 217, 221, 247, 253, 259, 287, 289, 299, 301]
  }

  lemma CompositesFail()
    ensures forall n :: n in Composites() ==> !Sieved(n)
  {
    assert !Sieved(49) && !Sieved(77) && !Sieved(91) && !Sieved(119) && !Sieved(121) && !Sieved(133) && !Sieved(143);
    assert !Sieved(161) && !Sieved(169) && !Sieved(187) && !Sieved(203) && !Sieved(209) && !Sieved(217) && !Sieved(221);
    assert !Sieved(247) && !Sieved(253) && !Sieved(259) && !Sieved(287) && !Sieved(289) && !Sieved(299) && !Sieved(301);
  }

  lemma OnTheWheel(i: nat, n: nat)
    requires i < 8 && Max(18, PrimeRow(i)[0]) <= n < (if i < 7 then PrimeRow(i + 1)[0] else 312)
    requires var r := n % 30; r == 1 || r == 7 || r == 11 || r == 13 || r == 17 || r == 19 || r == 23 || r == 29
    ensures n in PrimeRow(i) || n in Composites()
  {
    var k := n / 30;
    assert n == 30 * k + n % 30;
  }

  lemma EntriesSieved(i: nat)
    requires i < 8
    ensures forall n :: n in PrimeRow(i) && n > 17 ==> Sieved(n)
  {
    if i < 4 {
      LowEntriesSieved(i);
    } else {
      HighEntriesSieved(i);
    }
  }

  lemma LowEntriesSieved(i: nat)
    requires i < 4
    ensures forall n :: n in PrimeRow(i) && n > 17 ==> Sieved(n)
  {
    match i
    case 0 => assert Sieved(19);
    case 1 =>
      assert Sieved(23) && Sieved(29) && Sieved(31) && Sieved(37);
      assert Sieved(41) && Sieved(43) && Sieved(47) && Sieved(53);
    case 2 =>
      assert Sieved(59) && Sieved(61) && Sieved(67) && Sieved(71);
      assert Sieved(73) && Sieved(79) && Sieved(83) && Sieved(89);
    case _ =>
      assert Sieved(97) && Sieved(101) && Sieved(103) && Sieved(107);
      assert Sieved(109) && Sieved(113) && Sieved(127) && Sieved(131);
  }

  lemma HighEntriesSieved(i: nat)
    requires 4 <= i < 8
    ensures forall n :: n in PrimeRow(i) && n > 17 ==> Sieved(n)
  {
    match i
    case 4 =>
      assert Sieved(137) && Sieved(139) && Sieved(149) && Sieved(151);
      assert Sieved(157) && Sieved(163) && Sieved(167) && Sieved(173);
    case 5 =>
      assert Sieved(179) && Sieved(181) && Sieved(191) && Sieved(193);
      assert Sieved(197) && Sieved(199) && Sieved(211) && Sieved(223);
    case 6 =>
      assert Sieved(227) && Sieved(229) && Sieved(233) && Sieved(239);
      assert Sieved(241) && Sieved(251) && Sieved(257) && Sieved(263);
    case _ =>
      assert Sieved(269) && Sieved(271) && Sieved(277) && Sieved(281);
      assert Sieved(283) && Sieved(293) && Sieved(307) && Sieved(311);
  }

  lemma SmallPrimes(n: nat)
    requires 2 <= n <= 17
    ensures Prime(n) <==> n in PrimeRow(0)
  {
    assert n % 2 == 0 || n % 3 == 0 || n in PrimeRow(0);
    forall d | n in PrimeRow(0) && 2 <= d < n ensures n % d != 0 {
    }
  }

  /** Each row holds exactly the primes from its first entry to that of the next. */
  lemma RowOfPrimes(i: nat, n: nat)
    requires i < 8 && PrimeRow(i)[0] <= n < (if i < 7 then PrimeRow(i + 1)[0] else 312)
    ensures Prime(n) <==> n in PrimeRow(i)
  {
    RowStart(i);
    hide PrimeRow, Sieved, Prime, Composites;
    if n <= 17 {
      assert i == 0;
      SmallPrimes(n);
    } else {
      Sieve(n);
      EntriesSieved(i);
      if Sieved(n) {
        SievedOnWheel(n);
        OnTheWheel(i, n);
        CompositesFail();
      }
    }
  }

  lemma RowStart(i: nat)
    requires i < 8
    ensures PrimeRow(i)[0] >= 2 && (i > 0 ==> PrimeRow(i)[0] > 17) && (i < 7 ==> PrimeRow(i + 1)[0] < 312)
  {
  }

  lemma SievedOnWheel(n: nat)
    requires Sieved(n)
    ensures var r := n % 30; r == 1 || r == 7 || r == 11 || r == 13 || r == 17 || r == 19 || r == 23 || r == 29
  {
    WheelTurns(n);
    Wheel(n % 30);
  }

  lemma RowsRise(i: nat, j: nat)
    requires i < 8 && j < 8
    ensures j > 0 ==> PrimeRow(i)[j - 1] < PrimeRow(i)[j]
    ensures i < 7 ==> PrimeRow(i)[j] < PrimeRow(i + 1)[0]
    ensures i == 7 ==> PrimeRow(i)[j] < 312
  {
  }

  lemma {:induction false} RowRises(i: nat, j: nat, k: nat)
    requires i < 8 && j < k < 8
    ensures PrimeRow(i)[j] < PrimeRow(i)[k]
    decreases k
  {
    hide PrimeRow;
    RowsRise(i, k);
    if j < k - 1 {
      RowRises(i, j, k - 1);
    }
  }

  /** Nothing between two neighbours of a row is in it. */
  lemma NoneBetween(i: nat, j: nat, n: nat)
    requires i < 8 && j < 8 && PrimeRow(i)[j] < n && (j < 7 ==> n < PrimeRow(i)[j + 1])
    ensures n !in PrimeRow(i)
  {
    hide PrimeRow;
    if n in PrimeRow(i) {
      var k :| 0 <= k < 8 && PrimeRow(i)[k] == n;
      if k < j {
        RowRises(i, k, j);
      } else if k > j + 1 {
        RowRises(i, j + 1, k);
      }
    }
  }

  /** From one entry to the next, within a row or across, there is no prime. */
  lemma Neighbours(i: nat, j: nat, n: nat)
    requires i < 8 && j < 8 && PrimeRow(i)[j] < n
    requires if j < 7 then n < PrimeRow(i)[j + 1] else i < 7 && n < PrimeRow(i + 1)[0]
    ensures !Prime(n)
  {
    hide PrimeRow, Prime;
    NoneBetween(i, j, n);
    RowBegins(i, j);
    if j < 7 {
      RowBegins(i, j + 1);
    }
    RowOfPrimes(i, n);
  }

  lemma EntryPrime(i: nat, j: nat)
    requires i < 8 && j < 8
    ensures Prime(PrimeRow(i)[j])
  {
    hide PrimeRow, Prime;
    RowBegins(i, j);
    RowOfPrimes(i, PrimeRow(i)[j]);
  }

  /** Entry `t - 1` is the left neighbour in the row, or the last of the row before. */
  lemma Before(t: nat)
    requires 0 < t < 64
    ensures
      var i, j := t / 8, t % 8;
      if j > 0 then (t - 1) / 8 == i && (t - 1) % 8 == j - 1 else i > 0 && (t - 1) / 8 == i - 1 && (t - 1) % 8 == 7
  {
  }

  /** The list holds the first 64 primes, one after the other. */
  lemma PrimesInOrder(t: nat)
    requires t < 64
    ensures Prime(Primes()[t])
    ensures t == 0 ==> Primes()[t] == 2
    ensures t > 0 ==> Primes()[t - 1] < Primes()[t]
    ensures t > 0 ==> forall n :: Primes()[t - 1] < n < Primes()[t] ==> !Prime(n)
  {
    FirstPrime();
    hide PrimeRow, Prime, Primes;
    PrimeAt(t);
    EntryPrime(t / 8, t % 8);
    if t > 0 {
      PrimeAt(t - 1);
      Before(t);
      var i, j := (t - 1) / 8, (t - 1) % 8;
      RowsRise(i, j);
      RowsRise(t / 8, t % 8);
      forall n | Primes()[t - 1] < n < Primes()[t] ensures !Prime(n) {
        Neighbours(i, j, n);
      }
    }
  }

  lemma FirstPrime()
    ensures PrimeRow(0)[0] == 2
  {
  }

  lemma RowBegins(i: nat, j: nat)
    requires i < 8 && j < 8
    ensures PrimeRow(i)[0] <= PrimeRow(i)[j]
    ensures i < 7 ==> PrimeRow(i)[j] < PrimeRow(i + 1)[0]
    ensures i == 7 ==> PrimeRow(i)[j] < 312
  {
    hide PrimeRow;
    RowsRise(i, j);
    if j > 0 {
      RowRises(i, 0, j);
    }
  }
}
