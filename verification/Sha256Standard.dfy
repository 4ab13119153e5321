/**
 What FIPS 180-4 says about SHA-256, in terms of bits, integers and primes: the tables, the functions of section
 4.1.2, and the digest as what any computation ends with that follows sections 5.1.1 and 6.2.2 step by step.
 */
module Sha256Standard {
  import opened Bytes
  import opened PrimeNumbers
  import opened Sha256
  import opened WordBits

  // ---------- the tables ----------

  lemma ConstantAt(t: nat)
    requires t < 64
    ensures Constants()[t] == Row(t / 8)[t % 8]
  {
    hide Row;
  }

  function CubeRoot(p: nat): (c: nat)
    requires 1 <= p < 343
    ensures c * c * c <= p < (c + 1) * (c + 1) * (c + 1) && c <= 6
  {
    if p < 8 then 1 else if p < 27 then 2 else if p < 64 then 3 else if p < 125 then 4 else if p < 216 then 5 else 6
  }

  /** With the integer part `c` in front, `k` is the cube root of `p`, cut after 32 binary places. */
  predicate Cubic(p: nat, c: nat, k: word) {
    var x := c * 0x1_0000_0000 + k as nat;
    x * x * x <= p * 0x1_0000_0000 * 0x1_0000_0000 * 0x1_0000_0000 < (x + 1) * (x + 1) * (x + 1)
  }

  /** The same for the square root. */
  predicate Quadratic(p: nat, c: nat, k: word) {
    var x := c * 0x1_0000_0000 + k as nat;
    x * x <= p * 0x1_0000_0000 * 0x1_0000_0000 < (x + 1) * (x + 1)
  }

  lemma Row0Fits()
    ensures Cubic(2, 1, 0x428A2F98) && Cubic(3, 1, 0x71374491) && Cubic(5, 1, 0xB5C0FBCF) && Cubic(7, 1, 0xE9B5DBA5)
    ensures Cubic(11, 2, 0x3956C25B) && Cubic(13, 2, 0x59F111F1) && Cubic(17, 2, 0x923F82A4) && Cubic(19, 2, 0xAB1C5ED5)
  {
  }

  lemma Row1Fits()
    ensures Cubic(23, 2, 0xD807AA98) && Cubic(29, 3, 0x12835B01) && Cubic(31, 3, 0x243185BE) && Cubic(37, 3, 0x550C7DC3)
    ensures Cubic(41, 3, 0x72BE5D74) && Cubic(43, 3, 0x80DEB1FE) && Cubic(47, 3, 0x9BDC06A7) && Cubic(53, 3, 0xC19BF174)
  {
  }

  lemma Row2Fits()
    ensures Cubic(59, 3, 0xE49B69C1) && Cubic(61, 3, 0xEFBE4786) && Cubic(67, 4, 0x0FC19DC6) && Cubic(71, 4, 0x240CA1CC)
    ensures Cubic(73, 4, 0x2DE92C6F) && Cubic(79, 4, 0x4A7484AA) && Cubic(83, 4, 0x5CB0A9DC) && Cubic(89, 4, 0x76F988DA)
  {
  }

  lemma Row3Fits()
    ensures Cubic(97, 4, 0x983E5152) && Cubic(101, 4, 0xA831C66D)
    ensures Cubic(103, 4, 0xB00327C8) && Cubic(107, 4, 0xBF597FC7)
    ensures Cubic(109, 4, 0xC6E00BF3) && Cubic(113, 4, 0xD5A79147)
    ensures Cubic(127, 5, 0x06CA6351) && Cubic(131, 5, 0x14292967)
  {
  }

  lemma Row4Fits()
    ensures Cubic(137, 5, 0x27B70A85) && Cubic(139, 5, 0x2E1B2138)
    ensures Cubic(149, 5, 0x4D2C6DFC) && Cubic(151, 5, 0x53380D13)
    ensures Cubic(157, 5, 0x650A7354) && Cubic(163, 5, 0x766A0ABB)
    ensures Cubic(167, 5, 0x81C2C92E) && Cubic(173, 5, 0x92722C85)
  {
  }

  lemma Row5Fits()
    ensures Cubic(179, 5, 0xA2BFE8A1) && Cubic(181, 5, 0xA81A664B)
    ensures Cubic(191, 5, 0xC24B8B70) && Cubic(193, 5, 0xC76C51A3)
    ensures Cubic(197, 5, 0xD192E819) && Cubic(199, 5, 0xD6990624)
    ensures Cubic(211, 5, 0xF40E3585) && Cubic(223, 6, 0x106AA070)
  {
  }

  lemma Row6Fits()
    ensures Cubic(227, 6, 0x19A4C116) && Cubic(229, 6, 0x1E376C08)
    ensures Cubic(233, 6, 0x2748774C) && Cubic(239, 6, 0x34B0BCB5)
    ensures Cubic(241, 6, 0x391C0CB3) && Cubic(251, 6, 0x4ED8AA4A)
    ensures Cubic(257, 6, 0x5B9CCA4F) && Cubic(263, 6, 0x682E6FF3)
  {
  }

  lemma Row7Fits()
    ensures Cubic(269, 6, 0x748F82EE) && Cubic(271, 6, 0x78A5636F)
    ensures Cubic(277, 6, 0x84C87814) && Cubic(281, 6, 0x8CC70208)
    ensures Cubic(283, 6, 0x90BEFFFA) && Cubic(293, 6, 0xA4506CEB)
    ensures Cubic(307, 6, 0xBEF9A3F7) && Cubic(311, 6, 0xC67178F2)
  {
  }

  lemma EntryFits(i: nat, j: nat)
    requires i < 8 && j < 8
    ensures Cubic(PrimeRow(i)[j], CubeRoot(PrimeRow(i)[j]), Row(i)[j])
  {
    match i
    case 0 => Row0Fits();
    case 1 => Row1Fits();
    case 2 => Row2Fits();
    case 3 => Row3Fits();
    case 4 => Row4Fits();
    case 5 => Row5Fits();
    case 6 => Row6Fits();
    case _ => Row7Fits();
    hide Cubic;
  }

  /**
   Section 4.2.2: constant number `t` is made of the first 32 bits of the fractional part of the cube root of prime
   number `t`.
   */
  lemma ConstantsExact(t: nat)
    requires t < 64
    ensures
      var p := Primes()[t];
      && 0 < p < 343
      && var c := CubeRoot(p);
         var x := c * 0x1_0000_0000 + Constants()[t] as nat;
         && c * c * c <= p < (c + 1) * (c + 1) * (c + 1)
         && x * x * x <= p * 0x1_0000_0000_0000_0000_0000_0000 < (x + 1) * (x + 1) * (x + 1)
  {
    hide PrimeRow, Row, CubeRoot, Primes, Constants;
    PrimeAt(t);
    ConstantAt(t);
    RowBegins(t / 8, 0);
    RowBegins(t / 8, t % 8);
    RowStart(t / 8);
    EntryFits(t / 8, t % 8);
  }

  function SquareRoot(p: nat): (c: nat)
    requires 1 <= p < 25
    ensures c * c <= p < (c + 1) * (c + 1)
  {
    if p < 4 then 1 else if p < 9 then 2 else if p < 16 then 3 else 4
  }

  /** Section 5.3.3: the initial words are those of the square roots of the first eight primes. */
  lemma InitialExact(i: nat)
    requires i < 8
    ensures
      var p := Primes()[i];
      && 0 < p < 25
      && var c := SquareRoot(p);
         var x := c * 0x1_0000_0000 + Initial()[i] as nat;
         && c * c <= p < (c + 1) * (c + 1)
         && x * x <= p * 0x1_0000_0000_0000_0000 < (x + 1) * (x + 1)
  {
    PrimeAt(i);
    InitialFits();
    assert PrimeRow(0) == [2, 3, 5, 7, 11, 13, 17, 19];
    assert Quadratic(PrimeRow(0)[i], SquareRoot(PrimeRow(0)[i]), Initial()[i]) by {
      hide Quadratic;
    }
  }

  lemma InitialFits()
    ensures Quadratic(2, 1, 0x6A09E667) && Quadratic(3, 1, 0xBB67AE85) && Quadratic(5, 2, 0x3C6EF372)
    ensures Quadratic(7, 2, 0xA54FF53A) && Quadratic(11, 3, 0x510E527F) && Quadratic(13, 3, 0x9B05688C)
    ensures Quadratic(17, 4, 0x1F83D9AB) && Quadratic(19, 4, 0x5BE0CD19)
  {
  }

  // ---------- section 4.1.2 ----------

  lemma BackToBits(x: bits, w: word)
    requires w == x as word
    ensures w as bits == x
  {
  }

  /** `Ch` chooses, in every bit, by its first word. */
  lemma ChExact(x: word, y: word, z: word, a: bits, b: bits, c: bits, r: bits)
    requires a == x as bits && b == y as bits && c == z as bits && r == Ch(x, y, z) as bits
    ensures r & a == b & a && r & !a == c & !a
  {
    hide Ch, ChBits;
    ChOnBits(x, y, z, a, b, c, r);
    ChChooses(a, b, c, r);
  }

  lemma ChOnBits(x: word, y: word, z: word, a: bits, b: bits, c: bits, r: bits)
    requires a == x as bits && b == y as bits && c == z as bits && r == Ch(x, y, z) as bits
    ensures r == ChBits(a, b, c)
  {
    hide ChBits;
    BackToBits(ChBits(a, b, c), Ch(x, y, z));
  }

  /** `Maj` takes the majority in every bit. */
  lemma MajExact(x: word, y: word, z: word, a: bits, b: bits, c: bits, r: bits)
    requires a == x as bits && b == y as bits && c == z as bits && r == Maj(x, y, z) as bits
    ensures (r ^ a) & !(a ^ b) == 0 && (r ^ c) & (a ^ b) == 0
  {
    hide Maj, MajBits;
    MajOnBits(x, y, z, a, b, c, r);
    MajDecides(a, b, c, r);
  }

  lemma MajOnBits(x: word, y: word, z: word, a: bits, b: bits, c: bits, r: bits)
    requires a == x as bits && b == y as bits && c == z as bits && r == Maj(x, y, z) as bits
    ensures r == MajBits(a, b, c)
  {
    hide MajBits;
    BackToBits(MajBits(a, b, c), Maj(x, y, z));
  }

  // The four sigmas, in stretches of two copies of the word, with the distances of the standard.

  lemma BigSigma0Exact(v: word, x: bits, r: bits)
    requires x == v as bits && r == BigSigma0(v) as bits
    ensures
      var xx := ((x as bv64) << 32) | (x as bv64);
      r as bv64 == ((xx >> 2) ^ (xx >> 13) ^ (xx >> 22)) & 0xFFFF_FFFF
  {
    hide BigSigma0, BigSigma0Bits;
    BigSigma0OnBits(v, x, r);
    BigSigma0Turns(x, r);
  }

  lemma BigSigma0OnBits(v: word, x: bits, r: bits)
    requires x == v as bits && r == BigSigma0(v) as bits
    ensures r == BigSigma0Bits(x)
  {
    hide BigSigma0Bits;
    BackToBits(BigSigma0Bits(x), BigSigma0(v));
  }

  lemma BigSigma1Exact(v: word, x: bits, r: bits)
    requires x == v as bits && r == BigSigma1(v) as bits
    ensures
      var xx := ((x as bv64) << 32) | (x as bv64);
      r as bv64 == ((xx >> 6) ^ (xx >> 11) ^ (xx >> 25)) & 0xFFFF_FFFF
  {
    hide BigSigma1, BigSigma1Bits;
    BigSigma1OnBits(v, x, r);
    BigSigma1Turns(x, r);
  }

  lemma BigSigma1OnBits(v: word, x: bits, r: bits)
    requires x == v as bits && r == BigSigma1(v) as bits
    ensures r == BigSigma1Bits(x)
  {
    hide BigSigma1Bits;
    BackToBits(BigSigma1Bits(x), BigSigma1(v));
  }

  lemma SmallSigma0Exact(v: word, x: bits, r: bits)
    requires x == v as bits && r == SmallSigma0(v) as bits
    ensures
      var xx := ((x as bv64) << 32) | (x as bv64);
      r as bv64 == (((xx >> 7) ^ (xx >> 18)) & 0xFFFF_FFFF) ^ ((x as bv64) >> 3)
  {
    hide SmallSigma0, SmallSigma0Bits;
    SmallSigma0OnBits(v, x, r);
    SmallSigma0Turns(x, r);
  }

  lemma SmallSigma0OnBits(v: word, x: bits, r: bits)
    requires x == v as bits && r == SmallSigma0(v) as bits
    ensures r == SmallSigma0Bits(x)
  {
    hide SmallSigma0Bits;
    BackToBits(SmallSigma0Bits(x), SmallSigma0(v));
  }

  lemma SmallSigma1Exact(v: word, x: bits, r: bits)
    requires x == v as bits && r == SmallSigma1(v) as bits
    ensures
      var xx := ((x as bv64) << 32) | (x as bv64);
      r as bv64 == (((xx >> 17) ^ (xx >> 19)) & 0xFFFF_FFFF) ^ ((x as bv64) >> 10)
  {
    hide SmallSigma1, SmallSigma1Bits;
    SmallSigma1OnBits(v, x, r);
    SmallSigma1Turns(x, r);
  }

  lemma SmallSigma1OnBits(v: word, x: bits, r: bits)
    requires x == v as bits && r == SmallSigma1(v) as bits
    ensures r == SmallSigma1Bits(x)
  {
    hide SmallSigma1Bits;
    BackToBits(SmallSigma1Bits(x), SmallSigma1(v));
  }

  // ---------- sections 6.2.2 and 5.1.1 ----------

  /** The number that bytes stand for, the most significant first. */
  function BigEndian(b: seq<byte>): nat {
    if b == [] then 0 else 256 * BigEndian(b[..|b| - 1]) + b[|b| - 1] as nat
  }

  /** Word `t` of a message schedule (step 1). */
  ghost predicate IsScheduled(block: seq<byte>, w: seq<word>, t: nat)
    requires |block| == |w| == 64 && t < 64
  {
    w[t] as nat ==
      if t < 16 then BigEndian(block[4 * t..4 * t + 4])
      else (SmallSigma1(w[t - 2]) as nat + w[t - 7] as nat + SmallSigma0(w[t - 15]) as nat + w[t - 16] as nat) % WORD
  }

  ghost predicate IsSchedule(block: seq<byte>, w: seq<word>)
    requires |block| == 64
  {
    |w| == 64 && forall t :: 0 <= t < 64 ==> IsScheduled(block, w, t)
  }

  /** One round (step 3) from the working variables `v` to `r`. */
  ghost predicate IsRound(v: seq<word>, k: word, w: word, r: seq<word>) {
    && |v| == |r| == 8
    && var t1 := v[7] as nat + BigSigma1(v[4]) as nat + Ch(v[4], v[5], v[6]) as nat + k as nat + w as nat;
       var t2 := BigSigma0(v[0]) as nat + Maj(v[0], v[1], v[2]) as nat;
       && r[0] as nat == (t1 + t2) % WORD && r[4] as nat == (v[3] as nat + t1) % WORD
       && r[1] == v[0] && r[2] == v[1] && r[3] == v[2] && r[5] == v[4] && r[6] == v[5] && r[7] == v[6]
  }

  /** All rounds of one block, from the hash value `h`: the working variables before and after each. */
  ghost predicate AreRounds(h: seq<word>, w: seq<word>, vs: seq<seq<word>>)
    requires |w| == 64
  {
    && |vs| == 65 && vs[0] == h
    && forall t :: 0 <= t < 64 ==> IsRound(vs[t], Constants()[t], w[t], vs[t + 1])
  }

  lemma BigEndianIs(b: seq<byte>)
    requires |b| == 4
    ensures BigEndian(b) == b[0] as nat * 0x1000000 + b[1] as nat * 0x10000 + b[2] as nat * 0x100 + b[3] as nat
  {
    var c := b[..3];
    var d := b[..2];
    assert c[..2] == d && d[..1] == b[..1] && b[..1][..0] == [];
    assert BigEndian(d) == 256 * BigEndian(b[..1]) + b[1] as nat;
    assert BigEndian(c) == 256 * BigEndian(d) + b[2] as nat;
  }

  lemma WordIs(b: seq<byte>)
    requires |b| == 4
    ensures Word(b) as nat == BigEndian(b)
  {
    hide BigEndian;
    BigEndianIs(b);
  }

  lemma WordBytesAre(x: nat)
    requires x < WORD
    ensures BigEndian(WordBytes(x)) == x
  {
    hide BigEndian;
    BigEndianIs(WordBytes(x));
    Digits(x);
  }

  lemma Digits(x: nat)
    ensures x == x / 0x1000000 * 0x1000000 + x / 0x10000 % 256 * 0x10000 + x / 0x100 % 256 * 0x100 + x % 256
  {
    assert x == x / 256 * 256 + x % 256;
    var y := x / 256;
    assert y == x / 0x10000 * 256 + y % 256;
    var z := x / 0x10000;
    assert z == x / 0x1000000 * 256 + z % 256;
  }

  lemma Add4(a: word, b: word, c: word, d: word)
    ensures Add(Add(Add(a, b), c), d) as nat == (a as nat + b as nat + c as nat + d as nat) % WORD
  {
    hide Add;
    AddIs(a, b);
    AddIs(Add(a, b), c);
    AddIs(Add(Add(a, b), c), d);
    ModAdd(a as nat + b as nat, c as nat);
    ModAdd(a as nat + b as nat + c as nat, d as nat);
  }

  function ScheduleOf(block: seq<byte>): (w: seq<word>)
    requires |block| == 64
    ensures |w| == 64 && (forall t :: 0 <= t < 64 ==> w[t] == Schedule(block, t))
  {
    seq(64, t requires 0 <= t < 64 => Schedule(block, t))
  }

  lemma StartIs(block: seq<byte>, t: nat)
    requires |block| == 64 && t < 16
    ensures Schedule(block, t) as nat == BigEndian(block[4 * t..4 * t + 4])
  {
    hide BigEndian, Word;
    ScheduleStart(block, t);
    WordIs(block[4 * t..4 * t + 4]);
  }

  lemma NextIs(block: seq<byte>, t: nat)
    requires |block| == 64 && 16 <= t < 64
    ensures Schedule(block, t) as nat ==
      (SmallSigma1(Schedule(block, t - 2)) as nat + Schedule(block, t - 7) as nat
       + SmallSigma0(Schedule(block, t - 15)) as nat + Schedule(block, t - 16) as nat) % WORD
  {
    hide Add, SmallSigma0, SmallSigma1;
    Add4(SmallSigma1(Schedule(block, t - 2)), Schedule(block, t - 7), SmallSigma0(Schedule(block, t - 15)),
         Schedule(block, t - 16));
  }

  lemma ScheduledAt(block: seq<byte>, w: seq<word>, t: nat)
    requires |block| == 64 && IsSchedule(block, w) && t < 64
    ensures |w| == 64 && IsScheduled(block, w, t)
  {
    hide IsScheduled;
  }

  lemma {:induction false} ScheduleUnique(block: seq<byte>, w: seq<word>, t: nat)
    requires |block| == 64 && IsSchedule(block, w) && t < 64
    ensures w[t] == Schedule(block, t)
  {
    hide BigEndian, Schedule, SmallSigma0, SmallSigma1, IsSchedule;
    ScheduledAt(block, w, t);
    if t < 16 {
      StartIs(block, t);
    } else {
      NextIs(block, t);
      ScheduleUnique(block, w, t - 2);
      ScheduleUnique(block, w, t - 7);
      ScheduleUnique(block, w, t - 15);
      ScheduleUnique(block, w, t - 16);
    }
  }

  lemma ScheduleExists(block: seq<byte>, t: nat)
    requires |block| == 64 && t < 64
    ensures IsScheduled(block, ScheduleOf(block), t)
  {
    hide BigEndian, Schedule, SmallSigma0, SmallSigma1;
    if t < 16 {
      StartIs(block, t);
    } else {
      NextIs(block, t);
    }
  }

  /** There is one message schedule for a block, and this is it. */
  lemma ScheduleExact(block: seq<byte>, w: seq<word>)
    requires |block| == 64
    ensures IsSchedule(block, w) <==> w == ScheduleOf(block)
  {
    hide IsScheduled, Schedule;
    if IsSchedule(block, w) {
      forall t | 0 <= t < 64 ensures w[t] == Schedule(block, t) {
        ScheduleUnique(block, w, t);
      }
    } else if w == ScheduleOf(block) {
      forall t | 0 <= t < 64 ensures IsScheduled(block, w, t) {
        ScheduleExists(block, t);
      }
    }
  }

  lemma RoundSums(v: seq<word>, k: word, w: word)
    requires |v| == 8
    ensures
      var t1 := v[7] as nat + BigSigma1(v[4]) as nat + Ch(v[4], v[5], v[6]) as nat + k as nat + w as nat;
      var t2 := BigSigma0(v[0]) as nat + Maj(v[0], v[1], v[2]) as nat;
      var r := Round(v, k, w);
      r[0] as nat == (t1 + t2) % WORD && r[4] as nat == (v[3] as nat + t1) % WORD
  {
    hide Add, BigSigma0, BigSigma1, Ch, Maj;
    var t1 := v[7] as nat + BigSigma1(v[4]) as nat + Ch(v[4], v[5], v[6]) as nat + k as nat + w as nat;
    var t2 := BigSigma0(v[0]) as nat + Maj(v[0], v[1], v[2]) as nat;
    var four := Add(Add(Add(v[7], BigSigma1(v[4])), Ch(v[4], v[5], v[6])), k);
    Add4(v[7], BigSigma1(v[4]), Ch(v[4], v[5], v[6]), k);
    AddIs(four, w);
    ModAdd(t1 - w as nat, w as nat);
    AddIs(BigSigma0(v[0]), Maj(v[0], v[1], v[2]));
    AddIs(Add(four, w), Add(BigSigma0(v[0]), Maj(v[0], v[1], v[2])));
    ModAdd(t1, t2 % WORD);
    ModAdd(t2, t1);
    AddIs(v[3], Add(four, w));
    ModAdd(t1, v[3] as nat);
  }

  /** A round of the standard is this one. */
  lemma RoundExact(v: seq<word>, k: word, w: word, r: seq<word>)
    requires |v| == 8
    ensures IsRound(v, k, w, r) <==> r == Round(v, k, w)
  {
    hide Add, BigSigma0, BigSigma1, Ch, Maj;
    RoundSums(v, k, w);
  }

  lemma {:induction false} RoundsUnique(h: seq<word>, block: seq<byte>, w: seq<word>, vs: seq<seq<word>>, t: nat)
    requires |h| == 8 && |block| == 64 && IsSchedule(block, w) && AreRounds(h, w, vs) && t <= 64
    ensures vs[t] == Rounds(h, block, t)
  {
    if t > 0 {
      assert IsRound(vs[t - 1], Constants()[t - 1], w[t - 1], vs[t]);
      ScheduleUnique(block, w, t - 1);
      hide IsRound, Round, Constants, IsSchedule, AreRounds, Schedule;
      RoundsUnique(h, block, w, vs, t - 1);
      RoundExact(vs[t - 1], Constants()[t - 1], w[t - 1], vs[t]);
    }
  }

  /** What the rounds end with is added to the hash value (step 4). */
  ghost predicate AreSums(h: seq<word>, v: seq<word>, r: seq<word>) {
    && |h| == |v| == |r| == 8
    && forall i :: 0 <= i < 8 ==> r[i] as nat == (h[i] as nat + v[i] as nat) % WORD
  }

  lemma SumsExact(h: seq<word>, v: seq<word>, r: seq<word>)
    requires |h| == |v| == 8
    ensures AreSums(h, v, r) <==> r == AddWords(h, v)
  {
    forall i | 0 <= i < 8 ensures AddWords(h, v)[i] as nat == (h[i] as nat + v[i] as nat) % WORD {
      AddIs(h[i], v[i]);
    }
    hide Add;
    if AreSums(h, v, r) {
      assert forall i :: 0 <= i < 8 ==> r[i] == AddWords(h, v)[i];
    }
  }

  /** One block: any schedule and any rounds that follow the standard end with what `Compress` gives. */
  lemma CompressExact(h: seq<word>, block: seq<byte>, w: seq<word>, vs: seq<seq<word>>, r: seq<word>)
    requires |h| == 8 && |block| == 64 && IsSchedule(block, w) && AreRounds(h, w, vs)
    ensures AreSums(h, vs[64], r) <==> r == Compress(h, block)
  {
    hide Rounds, IsSchedule, AreSums, AddWords, IsRound, Constants;
    RoundsUnique(h, block, w, vs, 64);
    SumsExact(h, vs[64], r);
  }

  /** Such rounds exist. */
  lemma RoundsExist(h: seq<word>, block: seq<byte>) returns (vs: seq<seq<word>>)
    requires |h| == 8 && |block| == 64
    ensures AreRounds(h, ScheduleOf(block), vs)
  {
    hide Schedule;
    vs := seq(65, t requires 0 <= t < 65 => Rounds(h, block, t));
    forall t | 0 <= t < 64
      ensures IsRound(vs[t], Constants()[t], ScheduleOf(block)[t], vs[t + 1])
    {
      hide IsRound, Round, Constants;
      RoundExact(vs[t], Constants()[t], ScheduleOf(block)[t], vs[t + 1]);
    }
  }

  /** A padded message (section 5.1.1): a one bit, the fewest zeros that do, and the length in bits. */
  ghost predicate IsPadded(m: seq<byte>, p: seq<byte>) {
    && |p| % 64 == 0 && |m| + 9 <= |p| < |m| + 9 + 64
    && p[..|m|] == m
    && p[|m|] == 0x80
    && (forall i :: |m| < i < |p| - 8 ==> p[i] == 0)
    && BigEndian(p[|p| - 8..]) == 8 * |m|
  }

  function Pow256(n: nat): nat {
    if n == 0 then 1 else 256 * Pow256(n - 1)
  }

  lemma {:induction false} BigEndianAppend(a: seq<byte>, b: seq<byte>)
    ensures BigEndian(a + b) == BigEndian(a) * Pow256(|b|) + BigEndian(b)
    decreases |b|
  {
    if b == [] {
      assert a + b == a;
    } else {
      var c := b[..|b| - 1];
      assert (a + b)[..|a + b| - 1] == a + c;
      BigEndianAppend(a, c);
      assert 256 * (BigEndian(a) * Pow256(|c|)) == BigEndian(a) * (256 * Pow256(|c|));
    }
  }

  /** Bytes are determined by their number and the number they stand for. */
  lemma {:induction false} BigEndianInjective(a: seq<byte>, b: seq<byte>)
    requires |a| == |b| && BigEndian(a) == BigEndian(b)
    ensures a == b
  {
    if a != [] {
      var n := |a| - 1;
      BigEndianInjective(a[..n], b[..n]);
      assert a == a[..n] + [a[n]] && b == b[..n] + [b[n]];
    }
  }

  lemma LengthBytesAre(n: nat)
    requires n < 0x1_0000_0000_0000_0000
    ensures BigEndian(LengthBytes(n)) == n
  {
    var a, b := WordBytes(n / WORD), WordBytes(n % WORD);
    FourPlaces();
    hide WordBytes, BigEndian, Pow256;
    BigEndianAppend(a, b);
    WordBytesAre(n / WORD);
    WordBytesAre(n % WORD);
  }

  lemma FourPlaces()
    ensures Pow256(4) == WORD
  {
    assert Pow256(2) == 65536;
  }

  lemma PadParts(m: seq<byte>, p: seq<byte>)
    requires |m| < LIMIT && p == Pad(m)
    ensures
      var z := ZeroCount(|m|);
      && |p| == |m| + 9 + z && p[..|m|] == m && p[|m|] == 0x80
      && p[|m| + 1..|m| + 1 + z] == Zeros(z) && p[|p| - 8..] == LengthBytes(8 * |m|)
  {
    hide LengthBytes, ZeroCount, Zeros;
  }

  lemma PadIsPadded(m: seq<byte>)
    requires |m| < LIMIT
    ensures IsPadded(m, Pad(m))
  {
    var p, z := Pad(m), ZeroCount(|m|);
    PadParts(m, p);
    LengthBytesAre(8 * |m|);
    hide BigEndian, LengthBytes, Pad, ZeroCount;
    forall i | |m| < i < |p| - 8 ensures p[i] == 0 {
      assert p[i] == p[|m| + 1..|m| + 1 + z][i - |m| - 1];
    }
  }

  lemma PaddedUnique(m: seq<byte>, p: seq<byte>, q: seq<byte>)
    requires IsPadded(m, p) && IsPadded(m, q)
    ensures p == q
  {
    hide BigEndian;
    assert |p| == |q|;
    BigEndianInjective(p[|p| - 8..], q[|q| - 8..]);
    forall i | 0 <= i < |p| ensures p[i] == q[i] {
      if i < |m| {
        assert p[i] == p[..|m|][i] == q[..|m|][i] == q[i];
      } else if i >= |p| - 8 {
        assert p[i] == p[|p| - 8..][i - (|p| - 8)] == q[|q| - 8..][i - (|q| - 8)] == q[i];
      }
    }
  }

  /** There is one way of padding a message, and this is it. */
  lemma PadExact(m: seq<byte>, p: seq<byte>)
    requires |m| < LIMIT
    ensures IsPadded(m, p) <==> p == Pad(m)
  {
    hide IsPadded, Pad;
    PadIsPadded(m);
    if IsPadded(m, p) {
      PaddedUnique(m, p, Pad(m));
    }
  }

  // ---------- the digest ----------

  /** The hash values before, between and after the blocks of a padded message (section 6.2.2). */
  ghost predicate AreHashes(p: seq<byte>, hs: seq<seq<word>>)
    requires |p| % 64 == 0
  {
    && |hs| == |p| / 64 + 1 && hs[0] == Initial()
    && (forall i :: 0 <= i < |hs| ==> |hs[i]| == 8)
    && forall i :: 0 <= i < |p| / 64 ==> IsStep(hs[i], p[64 * i..64 * i + 64], hs[i + 1])
  }

  /** Some schedule and some rounds that follow the standard lead from one hash value to the next. */
  ghost predicate IsStep(h: seq<word>, block: seq<byte>, r: seq<word>)
    requires |h| == 8 && |block| == 64
  {
    exists w, vs ::
      |w| == 64 && |vs| == 65 && IsSchedule(block, w) && AreRounds(h, w, vs) && AreSums(h, vs[64], r)
  }

  lemma StepExact(h: seq<word>, block: seq<byte>, r: seq<word>)
    requires |h| == 8 && |block| == 64
    ensures IsStep(h, block, r) <==> r == Compress(h, block)
  {
    var vs := RoundsExist(h, block);
    assert |vs| == 65;
    hide IsSchedule, AreRounds, AreSums, Compress;
    if w, us :|
      |w| == 64 && |us| == 65 && IsSchedule(block, w) && AreRounds(h, w, us) && AreSums(h, us[64], r) {
      CompressExact(h, block, w, us, r);
    }
    ScheduleExact(block, ScheduleOf(block));
    CompressExact(h, block, ScheduleOf(block), vs, r);
  }

  /** The part of the padded message before block `i`. */
  function Before(p: seq<byte>, i: nat): (b: seq<byte>)
    requires 64 * i <= |p|
    ensures |b| == 64 * i && |b| % 64 == 0
  {
    p[..64 * i]
  }

  lemma StepAt(p: seq<byte>, hs: seq<seq<word>>, i: nat)
    requires |p| % 64 == 0 && AreHashes(p, hs) && i < |p| / 64
    ensures |hs[i]| == |hs[i + 1]| == 8 && 64 * i + 64 <= |p|
    ensures IsStep(hs[i], p[64 * i..64 * i + 64], hs[i + 1])
    ensures Before(p, i) + p[64 * i..64 * i + 64] == Before(p, i + 1)
  {
    hide IsStep;
    CutBlock(p, 64 * i);
  }

  lemma NextHash(m: seq<byte>, block: seq<byte>, h: seq<word>, r: seq<word>)
    requires |m| % 64 == 0 && |block| == 64 && |h| == 8
    requires h == HashBlocks(m) && IsStep(h, block, r)
    ensures |m + block| % 64 == 0 && r == HashBlocks(m + block)
  {
    hide IsStep, HashBlocks, Compress;
    StepExact(h, block, r);
    AppendBlock(m, block);
  }

  lemma HashesCount(p: seq<byte>, hs: seq<seq<word>>)
    requires |p| % 64 == 0 && AreHashes(p, hs)
    ensures |hs| == |p| / 64 + 1
  {
    hide IsStep;
  }

  lemma FirstHash(p: seq<byte>, hs: seq<seq<word>>)
    requires |p| % 64 == 0 && AreHashes(p, hs)
    ensures hs[0] == HashBlocks(Before(p, 0))
  {
    hide Compress, IsStep;
    assert Before(p, 0) == [];
  }

  lemma {:induction false} HashesUnique(p: seq<byte>, hs: seq<seq<word>>, i: nat)
    requires |p| % 64 == 0 && AreHashes(p, hs) && i <= |p| / 64
    ensures hs[i] == HashBlocks(Before(p, i))
  {
    hide *;
    HashesCount(p, hs);
    if i == 0 {
      FirstHash(p, hs);
    } else {
      HashesUnique(p, hs, i - 1);
      StepAt(p, hs, i - 1);
      NextHash(Before(p, i - 1), p[64 * (i - 1)..64 * (i - 1) + 64], hs[i - 1], hs[i]);
    }
  }

  lemma CutBlock(p: seq<byte>, n: nat)
    requires n + 64 <= |p|
    ensures p[..n] + p[n..n + 64] == p[..n + 64]
  {
  }

  lemma {:induction false} WordsBytesAt(h: seq<word>, i: nat)
    requires i < |h|
    ensures |WordsBytes(h)| == 4 * |h| && WordsBytes(h)[4 * i..4 * i + 4] == WordBytes(h[i] as nat)
  {
    hide WordBytes;
    var rest := WordsBytes(h[1..]);
    if i > 0 {
      WordsBytesAt(h[1..], i - 1);
      assert WordsBytes(h)[4 * i..4 * i + 4] == rest[4 * (i - 1)..4 * (i - 1) + 4];
    } else if |h| > 1 {
      WordsBytesAt(h[1..], 0);
    }
  }

  /**
   The digest is the last hash value, each word with its most significant byte first, of any computation that pads
   the message and goes through its blocks as the standard says.
   */
  lemma HashExact(m: seq<byte>, p: seq<byte>, hs: seq<seq<word>>, i: nat)
    requires |m| < LIMIT && IsPadded(m, p) && AreHashes(p, hs) && i < 8
    ensures |Hash(m)| == 32 && BigEndian(Hash(m)[4 * i..4 * i + 4]) == hs[|hs| - 1][i] as nat
  {
    hide IsPadded, Pad, WordBytes, BigEndian, WordsBytes, HashBlocks;
    PadExact(m, p);
    HashesUnique(p, hs, |p| / 64);
    assert Before(p, |p| / 64) == p;
    var h := HashBlocks(p);
    WordsBytesAt(h, i);
    WordBytesAre(h[i] as nat);
  }
}
