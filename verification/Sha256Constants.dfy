/** The constants of SHA-256, said independently of the table that holds them: they
    are the fractional parts of roots of the first primes (FIPS 180-4). */
module Sha256Constants {
  import opened Sha256

  // ---------------------------------------------------------- the first 64 primes

  function Prime(t: nat): nat
    requires t < 64
  {
    if t < 8 then [2, 3, 5, 7, 11, 13, 17, 19][t]
    else if t < 16 then [23, 29, 31, 37, 41, 43, 47, 53][t - 8]
    else if t < 24 then [59, 61, 67, 71, 73, 79, 83, 89][t - 16]
    else if t < 32 then [97, 101, 103, 107, 109, 113, 127, 131][t - 24]
    else if t < 40 then [137, 139, 149, 151, 157, 163, 167, 173][t - 32]
    else if t < 48 then [179, 181, 191, 193, 197, 199, 211, 223][t - 40]
    else if t < 56 then [227, 229, 233, 239, 241, 251, 257, 263][t - 48]
    else [269, 271, 277, 281, 283, 293, 307, 311][t - 56]
  }

  predicate IsPrime(q: int) {
    q >= 2 && forall d :: 2 <= d < q ==> q % d != 0
  }

  lemma Times(e: int, x: int)
    requires e > 0
    ensures x >= 1 ==> e * x >= e
    ensures x <= -1 ==> e * x <= 0 - e
  {
  }

  lemma MultipleLeavesNothing(n: int, k: int, e: int)
    requires e > 0 && n == k * e
    ensures n % e == 0
  {
    var q, r := n / e, n % e;
    assert n == e * q + r;
    assert r == e * (k - q);
    Times(e, k - q);
  }

  /** No prime below 19 divides `q` properly. */
  predicate Sieved(q: nat) {
    && (q % 2 != 0 || q == 2) && (q % 3 != 0 || q == 3) && (q % 5 != 0 || q == 5) && (q % 7 != 0 || q == 7)
    && (q % 11 != 0 || q == 11) && (q % 13 != 0 || q == 13) && (q % 17 != 0 || q == 17)
  }

  lemma Through(q: nat, d: nat, p: nat)
    requires p > 0 && d > 0 && q % d == 0 && d % p == 0
    ensures q % p == 0
  {
    var k, l := q / d, d / p;
    assert q == k * d && d == l * p;
    Reassociate(k, l, p);
    MultipleLeavesNothing(q, k * l, p);
  }

  lemma Reassociate(k: int, l: int, p: int)
    ensures k * (l * p) == (k * l) * p
  {
  }

  lemma SmallDivisor(q: nat, d: nat)
    requires 2 <= d < q && d < 19 && q % d == 0
    ensures !Sieved(q)
  {
    var p := if d % 2 == 0 then 2 else if d % 3 == 0 then 3 else if d % 5 == 0 then 5 else d;
    assert d % p == 0;
    Through(q, d, p);
    assert p == 2 || p == 3 || p == 5 || p == 7 || p == 11 || p == 13 || p == 17;
  }

  lemma Cofactor(q: nat, d: nat) returns (e: nat)
    requires 19 <= d < q < 361 && q % d == 0
    ensures 2 <= e < 19 && e < q && q % e == 0
  {
    e := q / d;
    assert q == d * e;
    MultipleLeavesNothing(q, d, e);
  }

  lemma SievedIsPrime(q: nat)
    requires 2 <= q < 361
    ensures Sieved(q) <==> IsPrime(q)
  {
    if d: nat :| 2 <= d < q && q % d == 0 {
      if d < 19 {
        SmallDivisor(q, d);
      } else {
        var e := Cofactor(q, d);
        SmallDivisor(q, e);
      }
    }
  }

  /** No number of [lo, hi) is sieved. */
  predicate Barren(lo: nat, hi: nat)
    decreases hi - lo
  {
    hi <= lo || (!Sieved(lo) && Barren(lo + 1, hi))
  }

  lemma {:induction false} BarrenHasNoPrime(lo: nat, hi: nat, q: nat)
    requires 2 <= lo <= q < hi < 361 && Barren(lo, hi)
    ensures !IsPrime(q)
    decreases hi - lo
  {
    if lo == q {
      SievedIsPrime(q);
    } else {
      BarrenHasNoPrime(lo + 1, hi, q);
    }
  }

  /** `q` is the next prime after `p`, as far as the sieve can tell. */
  predicate Follows(p: nat, q: nat) {
    2 <= p < q < 361 && Sieved(q) && Barren(p + 1, q)
  }

  predicate FollowsAt(t: nat)
    requires t < 63
  {
    Follows(Prime(t), Prime(t + 1))
  }

  lemma GapsRow0()
    ensures Follows(2, 3) && Follows(3, 5) && Follows(5, 7) && Follows(7, 11)
    ensures Follows(11, 13) && Follows(13, 17) && Follows(17, 19) && Follows(19, 23)
  {
  }

  lemma PrimesRow0()
    ensures forall t :: 0 <= t < 8 ==> FollowsAt(t)
  {
    hide Follows;
    GapsRow0();
  }

  lemma GapsRow1()
    ensures Follows(23, 29) && Follows(29, 31) && Follows(31, 37) && Follows(37, 41)
    ensures Follows(41, 43) && Follows(43, 47) && Follows(47, 53) && Follows(53, 59)
  {
  }

  lemma PrimesRow1()
    ensures forall t :: 8 <= t < 16 ==> FollowsAt(t)
  {
    hide Follows;
    GapsRow1();
  }

  lemma GapsRow2()
    ensures Follows(59, 61) && Follows(61, 67) && Follows(67, 71) && Follows(71, 73)
    ensures Follows(73, 79) && Follows(79, 83) && Follows(83, 89) && Follows(89, 97)
  {
  }

  lemma PrimesRow2()
    ensures forall t :: 16 <= t < 24 ==> FollowsAt(t)
  {
    hide Follows;
    GapsRow2();
  }

  lemma GapsRow3()
    ensures Follows(97, 101) && Follows(101, 103) && Follows(103, 107) && Follows(107, 109)
    ensures Follows(109, 113) && Follows(113, 127) && Follows(127, 131) && Follows(131, 137)
  {
  }

  lemma PrimesRow3()
    ensures forall t :: 24 <= t < 32 ==> FollowsAt(t)
  {
    hide Follows;
    GapsRow3();
  }

  lemma GapsRow4()
    ensures Follows(137, 139) && Follows(139, 149) && Follows(149, 151) && Follows(151, 157)
    ensures Follows(157, 163) && Follows(163, 167) && Follows(167, 173) && Follows(173, 179)
  {
  }

  lemma PrimesRow4()
    ensures forall t :: 32 <= t < 40 ==> FollowsAt(t)
  {
    hide Follows;
    GapsRow4();
  }

  lemma GapsRow5()
    ensures Follows(179, 181) && Follows(181, 191) && Follows(191, 193) && Follows(193, 197)
    ensures Follows(197, 199) && Follows(199, 211) && Follows(211, 223) && Follows(223, 227)
  {
  }

  lemma PrimesRow5()
    ensures forall t :: 40 <= t < 48 ==> FollowsAt(t)
  {
    hide Follows;
    GapsRow5();
  }

  lemma GapsRow6()
    ensures Follows(227, 229) && Follows(229, 233) && Follows(233, 239) && Follows(239, 241)
    ensures Follows(241, 251) && Follows(251, 257) && Follows(257, 263) && Follows(263, 269)
  {
  }

  lemma PrimesRow6()
    ensures forall t :: 48 <= t < 56 ==> FollowsAt(t)
  {
    hide Follows;
    GapsRow6();
  }

  lemma GapsRow7()
    ensures Follows(269, 271) && Follows(271, 277) && Follows(277, 281) && Follows(281, 283)
    ensures Follows(283, 293) && Follows(293, 307) && Follows(307, 311)
  {
  }

  lemma PrimesRow7()
    ensures forall t :: 56 <= t < 63 ==> FollowsAt(t)
  {
    hide Follows;
    GapsRow7();
  }

  /** `q` is the prime that comes after `p`. */
  ghost predicate IsNextPrime(p: nat, q: nat) {
    p < q && IsPrime(q) && forall x :: p < x < q ==> !IsPrime(x)
  }

  /** The list starts with 2, and every other number of it is the next prime. */
  lemma PrimesInOrder(t: nat)
    requires t < 63
    ensures Prime(0) == 2 && IsNextPrime(Prime(t), Prime(t + 1))
  {
    hide Follows, IsNextPrime;
    AllFollow(t);
    NextPrime(Prime(t), Prime(t + 1));
  }

  lemma AllFollow(t: nat)
    requires t < 63
    ensures FollowsAt(t)
  {
    hide FollowsAt;
    PrimesRow0();
    PrimesRow1();
    PrimesRow2();
    PrimesRow3();
    PrimesRow4();
    PrimesRow5();
    PrimesRow6();
    PrimesRow7();
  }

  lemma NextPrime(p: nat, q: nat)
    requires Follows(p, q)
    ensures IsNextPrime(p, q)
  {
    hide IsPrime, Sieved, Barren;
    SievedIsPrime(q);
    forall x | p < x < q ensures !IsPrime(x) {
      BarrenHasNoPrime(p + 1, q, x);
    }
  }

  // ------------------------------------------------------- sections 4.2.2 and 5.3.3

  function Cube(x: int): int { x * x * x }

  function Square(x: int): int { x * x }

  /** `k` is the first 32 bits after the point of the cube root of `p`, whose whole
      part is `n`. */
  predicate CubeRoot(p: nat, n: nat, k: Word) {
    var r := n * 0x1_0000_0000 + k as int;
    Cube(r) <= p * 0x1_0000_0000_0000_0000_0000_0000 < Cube(r + 1)
  }

  ghost predicate IsCubeRootFraction(p: nat, k: Word) {
    exists n :: CubeRoot(p, n, k)
  }

  predicate SquareRoot(p: nat, n: nat, k: Word) {
    var r := n * 0x1_0000_0000 + k as int;
    Square(r) <= p * 0x1_0000_0000_0000_0000 < Square(r + 1)
  }

  lemma CubesRow0()
    ensures CubeRoot(2, 1, 0x428a2f98)
    ensures CubeRoot(3, 1, 0x71374491)
    ensures CubeRoot(5, 1, 0xb5c0fbcf)
    ensures CubeRoot(7, 1, 0xe9b5dba5)
    ensures CubeRoot(11, 2, 0x3956c25b)
    ensures CubeRoot(13, 2, 0x59f111f1)
    ensures CubeRoot(17, 2, 0x923f82a4)
    ensures CubeRoot(19, 2, 0xab1c5ed5)
  {
  }

  lemma RootsRow0()
    ensures forall t :: 0 <= t < 8 ==> IsCubeRootFraction(Prime(t), K[t])
  {
    hide CubeRoot;
    CubesRow0();
    assert CubeRoot(Prime(0), 1, K[0]) && CubeRoot(Prime(1), 1, K[1]);
    assert CubeRoot(Prime(2), 1, K[2]) && CubeRoot(Prime(3), 1, K[3]);
    assert CubeRoot(Prime(4), 2, K[4]) && CubeRoot(Prime(5), 2, K[5]);
    assert CubeRoot(Prime(6), 2, K[6]) && CubeRoot(Prime(7), 2, K[7]);
  }

  lemma CubesRow1()
    ensures CubeRoot(23, 2, 0xd807aa98)
    ensures CubeRoot(29, 3, 0x12835b01)
    ensures CubeRoot(31, 3, 0x243185be)
    ensures CubeRoot(37, 3, 0x550c7dc3)
    ensures CubeRoot(41, 3, 0x72be5d74)
    ensures CubeRoot(43, 3, 0x80deb1fe)
    ensures CubeRoot(47, 3, 0x9bdc06a7)
    ensures CubeRoot(53, 3, 0xc19bf174)
  {
  }

  lemma RootsRow1()
    ensures forall t :: 8 <= t < 16 ==> IsCubeRootFraction(Prime(t), K[t])
  {
    hide CubeRoot;
    CubesRow1();
    assert CubeRoot(Prime(8), 2, K[8]) && CubeRoot(Prime(9), 3, K[9]);
    assert CubeRoot(Prime(10), 3, K[10]) && CubeRoot(Prime(11), 3, K[11]);
    assert CubeRoot(Prime(12), 3, K[12]) && CubeRoot(Prime(13), 3, K[13]);
    assert CubeRoot(Prime(14), 3, K[14]) && CubeRoot(Prime(15), 3, K[15]);
  }

  lemma CubesRow2()
    ensures CubeRoot(59, 3, 0xe49b69c1)
    ensures CubeRoot(61, 3, 0xefbe4786)
    ensures CubeRoot(67, 4, 0x0fc19dc6)
    ensures CubeRoot(71, 4, 0x240ca1cc)
    ensures CubeRoot(73, 4, 0x2de92c6f)
    ensures CubeRoot(79, 4, 0x4a7484aa)
    ensures CubeRoot(83, 4, 0x5cb0a9dc)
    ensures CubeRoot(89, 4, 0x76f988da)
  {
  }

  lemma RootsRow2()
    ensures forall t :: 16 <= t < 24 ==> IsCubeRootFraction(Prime(t), K[t])
  {
    hide CubeRoot;
    CubesRow2();
    assert CubeRoot(Prime(16), 3, K[16]) && CubeRoot(Prime(17), 3, K[17]);
    assert CubeRoot(Prime(18), 4, K[18]) && CubeRoot(Prime(19), 4, K[19]);
    assert CubeRoot(Prime(20), 4, K[20]) && CubeRoot(Prime(21), 4, K[21]);
    assert CubeRoot(Prime(22), 4, K[22]) && CubeRoot(Prime(23), 4, K[23]);
  }

  lemma CubesRow3()
    ensures CubeRoot(97, 4, 0x983e5152)
    ensures CubeRoot(101, 4, 0xa831c66d)
    ensures CubeRoot(103, 4, 0xb00327c8)
    ensures CubeRoot(107, 4, 0xbf597fc7)
    ensures CubeRoot(109, 4, 0xc6e00bf3)
    ensures CubeRoot(113, 4, 0xd5a79147)
    ensures CubeRoot(127, 5, 0x06ca6351)
    ensures CubeRoot(131, 5, 0x14292967)
  {
  }

  lemma RootsRow3()
    ensures forall t :: 24 <= t < 32 ==> IsCubeRootFraction(Prime(t), K[t])
  {
    hide CubeRoot;
    CubesRow3();
    assert CubeRoot(Prime(24), 4, K[24]) && CubeRoot(Prime(25), 4, K[25]);
    assert CubeRoot(Prime(26), 4, K[26]) && CubeRoot(Prime(27), 4, K[27]);
    assert CubeRoot(Prime(28), 4, K[28]) && CubeRoot(Prime(29), 4, K[29]);
    assert CubeRoot(Prime(30), 5, K[30]) && CubeRoot(Prime(31), 5, K[31]);
  }

  lemma CubesRow4()
    ensures CubeRoot(137, 5, 0x27b70a85)
    ensures CubeRoot(139, 5, 0x2e1b2138)
    ensures CubeRoot(149, 5, 0x4d2c6dfc)
    ensures CubeRoot(151, 5, 0x53380d13)
    ensures CubeRoot(157, 5, 0x650a7354)
    ensures CubeRoot(163, 5, 0x766a0abb)
    ensures CubeRoot(167, 5, 0x81c2c92e)
    ensures CubeRoot(173, 5, 0x92722c85)
  {
  }

  lemma RootsRow4()
    ensures forall t :: 32 <= t < 40 ==> IsCubeRootFraction(Prime(t), K[t])
  {
    hide CubeRoot;
    CubesRow4();
    assert CubeRoot(Prime(32), 5, K[32]) && CubeRoot(Prime(33), 5, K[33]);
    assert CubeRoot(Prime(34), 5, K[34]) && CubeRoot(Prime(35), 5, K[35]);
    assert CubeRoot(Prime(36), 5, K[36]) && CubeRoot(Prime(37), 5, K[37]);
    assert CubeRoot(Prime(38), 5, K[38]) && CubeRoot(Prime(39), 5, K[39]);
  }

  lemma CubesRow5()
    ensures CubeRoot(179, 5, 0xa2bfe8a1)
    ensures CubeRoot(181, 5, 0xa81a664b)
    ensures CubeRoot(191, 5, 0xc24b8b70)
    ensures CubeRoot(193, 5, 0xc76c51a3)
    ensures CubeRoot(197, 5, 0xd192e819)
    ensures CubeRoot(199, 5, 0xd6990624)
    ensures CubeRoot(211, 5, 0xf40e3585)
    ensures CubeRoot(223, 6, 0x106aa070)
  {
  }

  lemma RootsRow5()
    ensures forall t :: 40 <= t < 48 ==> IsCubeRootFraction(Prime(t), K[t])
  {
    hide CubeRoot;
    CubesRow5();
    assert CubeRoot(Prime(40), 5, K[40]) && CubeRoot(Prime(41), 5, K[41]);
    assert CubeRoot(Prime(42), 5, K[42]) && CubeRoot(Prime(43), 5, K[43]);
    assert CubeRoot(Prime(44), 5, K[44]) && CubeRoot(Prime(45), 5, K[45]);
    assert CubeRoot(Prime(46), 5, K[46]) && CubeRoot(Prime(47), 6, K[47]);
  }

  lemma CubesRow6()
    ensures CubeRoot(227, 6, 0x19a4c116)
    ensures CubeRoot(229, 6, 0x1e376c08)
    ensures CubeRoot(233, 6, 0x2748774c)
    ensures CubeRoot(239, 6, 0x34b0bcb5)
    ensures CubeRoot(241, 6, 0x391c0cb3)
    ensures CubeRoot(251, 6, 0x4ed8aa4a)
    ensures CubeRoot(257, 6, 0x5b9cca4f)
    ensures CubeRoot(263, 6, 0x682e6ff3)
  {
  }

  lemma RootsRow6()
    ensures forall t :: 48 <= t < 56 ==> IsCubeRootFraction(Prime(t), K[t])
  {
    hide CubeRoot;
    CubesRow6();
    assert CubeRoot(Prime(48), 6, K[48]) && CubeRoot(Prime(49), 6, K[49]);
    assert CubeRoot(Prime(50), 6, K[50]) && CubeRoot(Prime(51), 6, K[51]);
    assert CubeRoot(Prime(52), 6, K[52]) && CubeRoot(Prime(53), 6, K[53]);
    assert CubeRoot(Prime(54), 6, K[54]) && CubeRoot(Prime(55), 6, K[55]);
  }

  lemma CubesRow7()
    ensures CubeRoot(269, 6, 0x748f82ee)
    ensures CubeRoot(271, 6, 0x78a5636f)
    ensures CubeRoot(277, 6, 0x84c87814)
    ensures CubeRoot(281, 6, 0x8cc70208)
    ensures CubeRoot(283, 6, 0x90befffa)
    ensures CubeRoot(293, 6, 0xa4506ceb)
    ensures CubeRoot(307, 6, 0xbef9a3f7)
    ensures CubeRoot(311, 6, 0xc67178f2)
  {
  }

  lemma RootsRow7()
    ensures forall t :: 56 <= t < 64 ==> IsCubeRootFraction(Prime(t), K[t])
  {
    hide CubeRoot;
    CubesRow7();
    assert CubeRoot(Prime(56), 6, K[56]) && CubeRoot(Prime(57), 6, K[57]);
    assert CubeRoot(Prime(58), 6, K[58]) && CubeRoot(Prime(59), 6, K[59]);
    assert CubeRoot(Prime(60), 6, K[60]) && CubeRoot(Prime(61), 6, K[61]);
    assert CubeRoot(Prime(62), 6, K[62]) && CubeRoot(Prime(63), 6, K[63]);
  }

  /** FIPS 180-4, section 4.2.2: the constants are the first 32 bits of the fractional
      parts of the cube roots of the first 64 primes. */
  lemma ConstantsAreCubeRoots()
    ensures |K| == 64
    ensures forall t :: 0 <= t < 64 ==> IsCubeRootFraction(Prime(t), K[t])
  {
    hide IsCubeRootFraction;
    RootsRow0();
    RootsRow1();
    RootsRow2();
    RootsRow3();
    RootsRow4();
    RootsRow5();
    RootsRow6();
    RootsRow7();
  }

  lemma Squares()
    ensures SquareRoot(2, 1, 0x6a09e667)
    ensures SquareRoot(3, 1, 0xbb67ae85)
    ensures SquareRoot(5, 2, 0x3c6ef372)
    ensures SquareRoot(7, 2, 0xa54ff53a)
    ensures SquareRoot(11, 3, 0x510e527f)
    ensures SquareRoot(13, 3, 0x9b05688c)
    ensures SquareRoot(17, 4, 0x1f83d9ab)
    ensures SquareRoot(19, 4, 0x5be0cd19)
  {
  }

  /** FIPS 180-4, section 5.3.3: the same of the square roots of the first 8 primes. */
  lemma InitialIsSquareRoots()
    ensures forall t :: 0 <= t < 8 ==> exists n :: SquareRoot(Prime(t), n, WordOf(INITIAL, t))
  {
    hide SquareRoot;
    Squares();
    assert SquareRoot(Prime(0), 1, WordOf(INITIAL, 0)) && SquareRoot(Prime(1), 1, WordOf(INITIAL, 1));
    assert SquareRoot(Prime(2), 2, WordOf(INITIAL, 2)) && SquareRoot(Prime(3), 2, WordOf(INITIAL, 3));
    assert SquareRoot(Prime(4), 3, WordOf(INITIAL, 4)) && SquareRoot(Prime(5), 3, WordOf(INITIAL, 5));
    assert SquareRoot(Prime(6), 4, WordOf(INITIAL, 6)) && SquareRoot(Prime(7), 4, WordOf(INITIAL, 7));
  }
}
