/**
 The incremental SHA-256 of src/sha256.c against the definition in FIPS 180-4: the hash of a message does not
 depend on how it was cut into updates.
 */
module Sha256 {
  import opened Bytes
  import opened WordBits

  newtype word = x: int | 0 <= x < 0x1_0000_0000

  const WORD := 0x1_0000_0000

  // ---------- FIPS 180-4 ----------

  /** Addition modulo 2^32 (section 2.2.2). */
  function Add(a: word, b: word): word {
    ((a as int + b as int) % WORD) as word
  }

  // Section 4.1.2
  function Ch(x: word, y: word, z: word): word { ChBits(x as bits, y as bits, z as bits) as word }
  function Maj(x: word, y: word, z: word): word { MajBits(x as bits, y as bits, z as bits) as word }
  function BigSigma0(v: word): word { BigSigma0Bits(v as bits) as word }
  function BigSigma1(v: word): word { BigSigma1Bits(v as bits) as word }
  function SmallSigma0(v: word): word { SmallSigma0Bits(v as bits) as word }
  function SmallSigma1(v: word): word { SmallSigma1Bits(v as bits) as word }

  /** Section 4.2.2: the first 32 bits of the fractional parts of the cube roots of the first 64 primes. */
  function Constants(): (k: seq<word>)
    ensures |k| == 64
  {
    Row(0) + Row(1) + Row(2) + Row(3) + Row(4) + Row(5) + Row(6) + Row(7)
  }

  function Row(i: nat): (k: seq<word>)
    requires i < 8
    ensures |k| == 8
  {
    match i
    case 0 => [0x428A2F98, 0x71374491, 0xB5C0FBCF, 0xE9B5DBA5, 0x3956C25B, 0x59F111F1, 0x923F82A4, 0xAB1C5ED5]
    case 1 => [0xD807AA98, 0x12835B01, 0x243185BE, 0x550C7DC3, 0x72BE5D74, 0x80DEB1FE, 0x9BDC06A7, 0xC19BF174]
    case 2 => [0xE49B69C1, 0xEFBE4786, 0x0FC19DC6, 0x240CA1CC, 0x2DE92C6F, 0x4A7484AA, 0x5CB0A9DC, 0x76F988DA]
    case 3 => [0x983E5152, 0xA831C66D, 0xB00327C8, 0xBF597FC7, 0xC6E00BF3, 0xD5A79147, 0x06CA6351, 0x14292967]
    case 4 => [0x27B70A85, 0x2E1B2138, 0x4D2C6DFC, 0x53380D13, 0x650A7354, 0x766A0ABB, 0x81C2C92E, 0x92722C85]
    case 5 => [0xA2BFE8A1, 0xA81A664B, 0xC24B8B70, 0xC76C51A3, 0xD192E819, 0xD6990624, 0xF40E3585, 0x106AA070]
    case 6 => [0x19A4C116, 0x1E376C08, 0x2748774C, 0x34B0BCB5, 0x391C0CB3, 0x4ED8AA4A, 0x5B9CCA4F, 0x682E6FF3]
    case _ => [0x748F82EE, 0x78A5636F, 0x84C87814, 0x8CC70208, 0x90BEFFFA, 0xA4506CEB, 0xBEF9A3F7, 0xC67178F2]
  }

  /** Section 5.3.3: the initial hash value. */
  function Initial(): (h: seq<word>)
    ensures |h| == 8
  {
    [0x6A09E667, 0xBB67AE85, 0x3C6EF372, 0xA54FF53A, 0x510E527F, 0x9B05688C, 0x1F83D9AB, 0x5BE0CD19]
  }

  /** A word from four bytes, the most significant first (section 3.1). */
  function Word(b: seq<byte>): word
    requires |b| == 4
  {
    (b[0] as int * 0x1000000 + b[1] as int * 0x10000 + b[2] as int * 0x100 + b[3] as int) as word
  }

  /** Section 6.2.2, step 1: the message schedule. */
  function Schedule(block: seq<byte>, t: nat): word
    requires |block| == 64 && t < 64
  {
    if t < 16 then Word(block[4 * t..4 * t + 4])
    else
      Add(Add(Add(SmallSigma1(Schedule(block, t - 2)), Schedule(block, t - 7)),
              SmallSigma0(Schedule(block, t - 15))), Schedule(block, t - 16))
  }

  /** Section 6.2.2, step 3, on the working variables a..h. */
  function Round(v: seq<word>, k: word, w: word): (r: seq<word>)
    requires |v| == 8
    ensures |r| == 8
  {
    var t1 := Add(Add(Add(Add(v[7], BigSigma1(v[4])), Ch(v[4], v[5], v[6])), k), w);
    var t2 := Add(BigSigma0(v[0]), Maj(v[0], v[1], v[2]));
    [Add(t1, t2), v[0], v[1], v[2], Add(v[3], t1), v[4], v[5], v[6]]
  }

  /** The working variables after `t` rounds. */
  function Rounds(v: seq<word>, block: seq<byte>, t: nat): (r: seq<word>)
    requires |v| == 8 && |block| == 64 && t <= 64
    ensures |r| == 8
  {
    if t == 0 then v else Round(Rounds(v, block, t - 1), Constants()[t - 1], Schedule(block, t - 1))
  }

  function AddWords(a: seq<word>, b: seq<word>): (r: seq<word>)
    requires |a| == |b| == 8
    ensures |r| == 8
  {
    seq(8, i requires 0 <= i < 8 => Add(a[i], b[i]))
  }

  /** Section 6.2.2: one block. */
  function Compress(h: seq<word>, block: seq<byte>): (r: seq<word>)
    requires |h| == 8 && |block| == 64
    ensures |r| == 8
  {
    AddWords(h, Rounds(h, block, 64))
  }

  /** Section 6.2.2: the hash value after all blocks. */
  function HashBlocks(m: seq<byte>): (h: seq<word>)
    requires |m| % 64 == 0
    ensures |h| == 8
    decreases |m|
  {
    if m == [] then Initial() else Compress(HashBlocks(m[..|m| - 64]), m[|m| - 64..])
  }

  function Zeros(n: nat): (z: seq<byte>)
    ensures |z| == n
  {
    seq(n, _ => 0)
  }

  /** Four bytes of a word, the most significant first. */
  function WordBytes(x: nat): (b: seq<byte>)
    requires x < 0x1_0000_0000
    ensures |b| == 4
  {
    [(x / 0x1000000) as byte, (x / 0x10000 % 256) as byte, (x / 0x100 % 256) as byte, (x % 256) as byte]
  }

  /** The 64-bit length in bits, the most significant byte first. */
  function LengthBytes(bits: nat): (b: seq<byte>)
    requires bits < 0x1_0000_0000_0000_0000
    ensures |b| == 8
  {
    WordBytes(bits / 0x1_0000_0000) + WordBytes(bits % 0x1_0000_0000)
  }

  const LIMIT := 0x2000_0000_0000_0000  // 2^61 bytes

  /** Section 5.1.1: how many zero bytes follow the one bit: the fewest that leave 8 bytes of the block. */
  function ZeroCount(length: nat): (z: nat)
    ensures (length + 1 + z + 8) % 64 == 0 && z < 64
  {
    if length % 64 < 56 then 55 - length % 64 else 119 - length % 64
  }

  /** Section 5.1.1: a one bit, zeros, and the length. */
  function Pad(m: seq<byte>): (p: seq<byte>)
    requires |m| < LIMIT
    ensures |p| % 64 == 0
  {
    m + [0x80] + Zeros(ZeroCount(|m|)) + LengthBytes(8 * |m|)
  }

  function WordsBytes(h: seq<word>): seq<byte> {
    if h == [] then [] else WordBytes(h[0] as nat) + WordsBytes(h[1..])
  }

  /** The hash of a message (section 6.2). */
  function Hash(m: seq<byte>): seq<byte>
    requires |m| < LIMIT
  {
    WordsBytes(HashBlocks(Pad(m)))
  }

  // ---------- the formulas as the source writes them ----------

  function MixedBits(e: bits, f: bits, g: bits): bits { g ^ (e & (f ^ g)) }
  function VotedBits(a: bits, b: bits, c: bits): bits { (a & b) | (c & (a | b)) }

  function Mixed(e: word, f: word, g: word): word { MixedBits(e as bits, f as bits, g as bits) as word }
  function Voted(a: word, b: word, c: word): word { VotedBits(a as bits, b as bits, c as bits) as word }

  function Temp1(e: word, f: word, g: word, h: word, k: word, w: word): word {
    Add(Add(Add(Add(h, BigSigma1(e)), Mixed(e, f, g)), k), w)
  }
  function Temp2(t: word, a: word, b: word, c: word): word { Add(Add(t, BigSigma0(a)), Voted(a, b, c)) }
  function Next(w16: word, w15: word, w7: word, w2: word): word {
    Add(Add(Add(w16, SmallSigma0(w15)), w7), SmallSigma1(w2))
  }

  lemma ChRewritten(x: bits, y: bits, z: bits)
    ensures MixedBits(x, y, z) == ChBits(x, y, z)
  {
    ChIdentity(x, y, z);
  }

  lemma ChIdentity(x: bits, y: bits, z: bits)
    ensures z ^ (x & (y ^ z)) == (x & y) ^ (!x & z)
  {
    hide *;
  }

  lemma MajRewritten(x: bits, y: bits, z: bits)
    ensures VotedBits(x, y, z) == MajBits(x, y, z)
  {
    MajIdentity(x, y, z);
  }

  lemma MajIdentity(x: bits, y: bits, z: bits)
    ensures (x & y) | (z & (x | y)) == (x & y) ^ (x & z) ^ (y & z)
  {
    hide *;
  }

  lemma AddIs(a: word, b: word)
    ensures Add(a, b) as nat == (a as nat + b as nat) % WORD
  {
  }

  lemma ModAdd(a: nat, b: nat)
    ensures (a % WORD + b) % WORD == (a + b) % WORD
  {
  }

  lemma SumRegrouped(a: word, b: word, c: word)
    ensures Add(Add(a, b), c) == Add(a, Add(b, c))
  {
    hide Add;
    AddIs(a, b);
    AddIs(Add(a, b), c);
    AddIs(b, c);
    AddIs(a, Add(b, c));
    ModAdd(a as nat + b as nat, c as nat);
    ModAdd(b as nat + c as nat, a as nat);
  }

  lemma SumCommutes(a: word, b: word)
    ensures Add(a, b) == Add(b, a)
  {
  }

  lemma SumReordered(a: word, b: word, c: word, d: word)
    ensures Add(Add(Add(a, b), c), d) == Add(Add(Add(d, c), b), a)
  {
    hide Add;
    calc {
      Add(Add(Add(a, b), c), d);
      { SumCommutes(Add(Add(a, b), c), d); SumCommutes(Add(a, b), c); }
      Add(d, Add(c, Add(a, b)));
      { SumRegrouped(d, c, Add(a, b)); SumCommutes(a, b); }
      Add(Add(d, c), Add(b, a));
      { SumRegrouped(Add(d, c), b, a); }
      Add(Add(Add(d, c), b), a);
    }
  }

  /** One round as the source computes it is one round of the standard. */
  lemma RoundRewritten(v: seq<word>, k: word, w: word)
    requires |v| == 8
    ensures
      var t := Temp1(v[4], v[5], v[6], v[7], k, w);
      [Temp2(t, v[0], v[1], v[2]), v[0], v[1], v[2], Add(v[3], t), v[4], v[5], v[6]] == Round(v, k, w)
  {
    hide ChBits, MajBits, MixedBits, VotedBits, BigSigma0, BigSigma1, Add;
    ChRewritten(v[4] as bits, v[5] as bits, v[6] as bits);
    MajRewritten(v[0] as bits, v[1] as bits, v[2] as bits);
    SumRegrouped(Temp1(v[4], v[5], v[6], v[7], k, w), BigSigma0(v[0]), Maj(v[0], v[1], v[2]));
  }

  lemma ScheduleStart(block: seq<byte>, t: nat)
    requires |block| == 64 && t < 16
    ensures Schedule(block, t) == Word(block[4 * t..4 * t + 4])
  {
  }

  /** One schedule word as the source computes it. */
  lemma ScheduleRewritten(block: seq<byte>, t: nat)
    requires |block| == 64 && 16 <= t < 64
    ensures
      Next(Schedule(block, t - 16), Schedule(block, t - 15), Schedule(block, t - 7), Schedule(block, t - 2))
      == Schedule(block, t)
  {
    hide SmallSigma0, SmallSigma1, Add;
    SumReordered(Schedule(block, t - 16), SmallSigma0(Schedule(block, t - 15)), Schedule(block, t - 7),
                 SmallSigma1(Schedule(block, t - 2)));
  }

  // ---------- blocks ----------

  /** The complete blocks of what has been read so far. */
  function Whole(m: seq<byte>): (w: seq<byte>)
    ensures |w| == |m| - |m| % 64 && |w| % 64 == 0
  {
    m[..|m| - |m| % 64]
  }

  /** What is left behind the last complete block. */
  function Tail(m: seq<byte>): (t: seq<byte>)
    ensures |t| == |m| % 64
  {
    m[|m| - |m| % 64..]
  }

  lemma AppendBlock(m: seq<byte>, block: seq<byte>)
    requires |m| % 64 == 0 && |block| == 64
    ensures |m + block| % 64 == 0
    ensures HashBlocks(m + block) == Compress(HashBlocks(m), block)
  {
    hide Compress;
    ConcatParts(m, block);
  }

  /** More bytes that do not complete a block only lengthen the tail. */
  lemma TailGrows(m: seq<byte>, chunk: seq<byte>)
    requires |m| % 64 + |chunk| < 64
    ensures Whole(m + chunk) == Whole(m) && Tail(m + chunk) == Tail(m) + chunk
  {
    assert |m + chunk| % 64 == |m| % 64 + |chunk|;
  }

  /** Bytes that complete the block empty the tail. */
  lemma TailCompletes(m: seq<byte>, chunk: seq<byte>)
    requires |m| % 64 + |chunk| == 64
    ensures Whole(m + chunk) == Whole(m) + (Tail(m) + chunk) && Tail(m + chunk) == []
    ensures HashBlocks(Whole(m + chunk)) == Compress(HashBlocks(Whole(m)), Tail(m) + chunk)
  {
    hide Compress, HashBlocks;
    assert |m + chunk| % 64 == 0;
    AppendBlock(Whole(m), Tail(m) + chunk);
  }

  // ---------- the padding of section 5.1.1 in at most two blocks ----------

  lemma PadOneBlock(m: seq<byte>)
    requires |m| < LIMIT && |m| % 64 < 56
    ensures
      var block := Tail(m) + [0x80] + Zeros(55 - |m| % 64) + LengthBytes(8 * |m|);
      |block| == 64 && Pad(m) == Whole(m) + block
  {
    hide LengthBytes;
    TakeDrop(m, |m| - |m| % 64);
    Regroup(Whole(m), Tail(m), [0x80], Zeros(55 - |m| % 64), LengthBytes(8 * |m|));
  }

  lemma PadTwoBlocks(m: seq<byte>)
    requires |m| < LIMIT && |m| % 64 >= 56
    ensures
      var first := Tail(m) + [0x80] + Zeros(63 - |m| % 64);
      var second := Zeros(56) + LengthBytes(8 * |m|);
      |first| == 64 && |second| == 64 && Pad(m) == Whole(m) + first + second
  {
    hide LengthBytes;
    var t := |m| % 64;
    assert Zeros(119 - t) == Zeros(63 - t) + Zeros(56);
    TakeDrop(m, |m| - t);
    Regroup(Whole(m), Tail(m), [0x80], Zeros(63 - t), Zeros(56) + LengthBytes(8 * |m|));
    ConcatAssociative(m + [0x80], Zeros(63 - t), Zeros(56));
    ConcatAssociative(m + [0x80] + Zeros(63 - t), Zeros(56), LengthBytes(8 * |m|));
    ConcatAssociative(Whole(m), Tail(m) + [0x80] + Zeros(63 - t), Zeros(56) + LengthBytes(8 * |m|));
  }

  lemma Regroup(a: seq<byte>, b: seq<byte>, c: seq<byte>, d: seq<byte>, e: seq<byte>)
    ensures (a + b) + c + d + e == a + (b + c + d + e)
  {
  }

  // ---------- the incremental hash ----------

  class Context {
    const h: array<word>
    const buf: array<byte>
    var length: nat

    constructor ()
      ensures h.Length == 8 && buf.Length == 64 && fresh(h) && fresh(buf)
      ensures Holds([])
    {
      h := new word[8];
      buf := new byte[64];
      length := 0;
      new;
      Start();
    }

    /** This state is the one reached after reading `m`, however it was cut up. */
    ghost predicate Holds(m: seq<byte>)
      reads this, h, buf
    {
      Sized() && length == |m| && Hashed(m)
    }

    ghost predicate Sized()
    {
      h.Length == 8 && buf.Length == 64
    }

    /** The complete blocks are folded into `h`, the rest is in `buf`. */
    ghost predicate Hashed(m: seq<byte>)
      requires Sized()
      reads h, buf
    {
      h[..] == HashBlocks(Whole(m)) && buf[..|m| % 64] == Tail(m)
    }

    method Start()
      requires Sized()
      modifies this`length, h
      ensures Holds([])
    {
      var initial := Initial();
      for i := 0 to 8
        invariant forall j :: 0 <= j < i ==> h[j] == initial[j]
      {
        h[i] := initial[i];
      }
      length := 0;
      assert h[..] == initial;
    }

    /** The message schedule. */
    method Expand(block: seq<byte>) returns (w: array<word>)
      requires |block| == 64
      ensures fresh(w) && w.Length == 64
      ensures forall t :: 0 <= t < 64 ==> w[t] == Schedule(block, t)
    {
      hide Word, Next, Schedule;
      w := new word[64];
      for i := 0 to 16
        invariant forall t :: 0 <= t < i ==> w[t] == Schedule(block, t)
      {
        ScheduleStart(block, i);
        w[i] := Word(block[4 * i..4 * i + 4]);
      }
      for i := 16 to 64
        invariant forall t :: 0 <= t < i ==> w[t] == Schedule(block, t)
      {
        ScheduleRewritten(block, i);
        w[i] := Next(w[i - 16], w[i - 15], w[i - 7], w[i - 2]);
      }
    }

    /** One turn of the rotated-register loop. */
    method Turn(s: array<word>, k: word, w: word)
      requires s.Length == 8
      modifies s
      ensures s[..] == Round(old(s[..]), k, w)
    {
      hide Temp1, Temp2, Round, Add;
      ghost var r := Round(s[..], k, w);
      RoundRewritten(s[..], k, w);
      var t := Temp1(s[4], s[5], s[6], s[7], k, w);
      s[7] := s[6];
      s[6] := s[5];
      s[5] := s[4];
      s[4] := Add(s[3], t);
      s[3] := s[2];
      s[2] := s[1];
      s[1] := s[0];
      s[0] := Temp2(t, s[1], s[2], s[3]);
      assert forall i :: 0 <= i < 8 ==> s[i] == r[i];
    }

    /** The 64 rounds over a copy of the hash value. */
    method Scramble(s: array<word>, block: seq<byte>)
      requires s.Length == 8 && |block| == 64
      modifies s
      ensures s[..] == Rounds(old(s[..]), block, 64)
    {
      hide Schedule, Round, Constants;
      ghost var v := s[..];
      var w := Expand(block);
      var k := Constants();
      for i := 0 to 64
        invariant forall t :: 0 <= t < 64 ==> w[t] == Schedule(block, t)
        invariant s[..] == Rounds(v, block, i)
      {
        Turn(s, k[i], w[i]);
      }
    }

    method Process(block: seq<byte>)
      requires Sized() && |block| == 64
      modifies h
      ensures h[..] == Compress(old(h[..]), block)
    {
      hide Rounds, Add;
      ghost var before := h[..];
      var s := new word[8];
      for i := 0 to 8
        invariant h[..] == before
        invariant forall j :: 0 <= j < i ==> s[j] == before[j]
      {
        s[i] := h[i];
      }
      assert s[..] == before;
      Scramble(s, block);
      ghost var r := s[..];
      for i := 0 to 8
        invariant s[..] == r
        invariant forall j :: 0 <= j < 8 ==> h[j] == if j < i then Add(before[j], r[j]) else before[j]
      {
        h[i] := Add(h[i], s[i]);
      }
      assert h[..] == AddWords(before, r);
    }

    /** Reading more input: only the concatenation of everything read matters. */
    method Update(input: seq<byte>, ghost m: seq<byte>)
      requires Holds(m)
      modifies this`length, h, buf
      ensures Holds(m + input)
    {
      hide Hashed;
      var pos := length % 64;
      length := length + |input|;
      var off := 0;
      ConcatAll(m, input);
      while off < |input|
        invariant off <= |input| && pos == |m + input[..off]| % 64
        invariant length == |m| + |input|
        invariant Hashed(m + input[..off])
        decreases |input| - off
      {
        var left := |input| - off;
        if left >= 64 && pos == 0 {
          ConcatSlice(m, input, off, 64);
          Direct(input[off..off + 64], m + input[..off]);
          off := off + 64;
        } else {
          var n := if left < 64 - pos then left else 64 - pos;
          ConcatSlice(m, input, off, n);
          pos := Fill(input[off..off + n], pos, m + input[..off]);
          off := off + n;
        }
      }
    }

    /** The branch of `Update` that processes a block where it lies in the input. */
    method Direct(block: seq<byte>, ghost m: seq<byte>)
      requires Sized() && Hashed(m) && |m| % 64 == 0 && |block| == 64
      modifies h
      ensures Hashed(m + block)
      ensures |m + block| % 64 == 0
    {
      hide HashBlocks, Compress;
      TailCompletes(m, block);
      ConcatEmpty(block);
      assert Tail(m) == [];
      Process(block);
    }

    /** The buffering branch of `Update`: at most enough bytes to complete the block. */
    method Fill(chunk: seq<byte>, pos0: nat, ghost m: seq<byte>) returns (pos: nat)
      requires Sized() && Hashed(m) && pos0 == |m| % 64 && pos0 + |chunk| <= 64
      modifies h, buf
      ensures Hashed(m + chunk) && pos == |m + chunk| % 64
    {
      hide HashBlocks, Compress;
      Copy(chunk, pos0);
      pos := pos0 + |chunk|;
      if pos == 64 {
        TailCompletes(m, chunk);
        assert buf[..] == Tail(m) + chunk;
        Process(buf[..]);
        pos := 0;
      } else {
        TailGrows(m, chunk);
      }
    }

    /** `memcpy(buf + pos, chunk)` */
    method Copy(chunk: seq<byte>, pos: nat)
      requires pos + |chunk| <= buf.Length
      modifies buf
      ensures buf[..pos + |chunk|] == old(buf[..pos]) + chunk
    {
      for i := 0 to |chunk|
        invariant forall j :: 0 <= j < pos + i ==> buf[j] == if j < pos then old(buf[j]) else chunk[j - pos]
      {
        buf[pos + i] := chunk[i];
      }
    }

    /** Zeros from `pos` up to `end`. */
    method Clear(pos: nat, end: nat)
      requires pos <= end <= buf.Length
      modifies buf
      ensures buf[..end] == old(buf[..pos]) + Zeros(end - pos)
    {
      var p := pos;
      while p < end
        invariant pos <= p <= end
        invariant forall j :: 0 <= j < p ==> buf[j] == if j < pos then old(buf[j]) else 0
      {
        buf[p] := 0;
        p := p + 1;
      }
    }

    /** The padded message is processed: one block, or two when the length does not fit. */
    method Close(ghost m: seq<byte>)
      requires Holds(m) && |m| < LIMIT
      modifies h, buf
      ensures h[..] == HashBlocks(Pad(m))
    {
      hide HashBlocks, Compress, LengthBytes, WordBytes, Pad, Zeros, ZeroCount;
      var high := length / 0x2000_0000 % 0x1_0000_0000;
      var low := length * 8 % 0x1_0000_0000;
      var lengthBytes := WordBytes(high) + WordBytes(low);
      LengthSplit(length);
      var pos := length % 64;
      ghost var whole, tail := Whole(m), Tail(m);
      Copy([0x80], pos);
      pos := pos + 1;
      if pos > 56 {
        PadTwoBlocks(m);
        Clear(pos, 64);
        ghost var first := tail + [0x80] + Zeros(64 - pos);
        assert buf[..] == first;
        Process(buf[..]);
        AppendBlock(whole, first);
        pos := 0;
        whole, tail := whole + first, [];
      } else {
        PadOneBlock(m);
        tail := tail + [0x80];
      }
      Clear(pos, 56);
      Copy(lengthBytes, 56);
      ghost var last := tail + Zeros(56 - pos) + lengthBytes;
      ConcatEmpty(Zeros(56 - pos));
      assert buf[..] == last;
      Process(buf[..]);
      AppendBlock(whole, last);
    }

    /** The digest is the standard's hash of everything that was read. */
    method Finish(ghost m: seq<byte>) returns (digest: seq<byte>)
      requires Holds(m) && |m| < LIMIT
      modifies h, buf
      ensures digest == Hash(m)
    {
      hide HashBlocks, WordBytes, Pad;
      Close(m);
      ghost var words := h[..];
      digest := [];
      for i := 0 to 8
        invariant h[..] == words
        invariant digest + WordsBytes(words[i..]) == Hash(m)
      {
        ConcatAssociative(digest, WordBytes(h[i] as nat), WordsBytes(words[i + 1..]));
        assert words[i..][1..] == words[i + 1..];
        digest := digest + WordBytes(h[i] as nat);
      }
      ConcatEmpty(digest);
    }
  }

  /** A message in any pieces, through one context: the digest is the hash of the whole. */
  method HashChunks(chunks: seq<seq<byte>>) returns (digest: seq<byte>)
    requires |Concat(chunks)| < LIMIT
    ensures digest == Hash(Concat(chunks))
  {
    var ctx := new Context();
    ghost var m: seq<byte> := [];
    for i := 0 to |chunks|
      invariant fresh(ctx) && fresh(ctx.h) && fresh(ctx.buf)
      invariant ctx.Holds(m) && m + Concat(chunks[i..]) == Concat(chunks)
    {
      ctx.Update(chunks[i], m);
      ConcatAssociative(m, chunks[i], Concat(chunks[i + 1..]));
      assert chunks[i..][1..] == chunks[i + 1..];
      m := m + chunks[i];
    }
    ConcatEmpty(m);
    digest := ctx.Finish(m);
  }

  // ---------- hexadecimal text ----------

  function HexDigit(d: byte): (c: char)
    requires d < 16
  {
    if d < 10 then ('0' as int + d as int) as char else ('a' as int + (d as int - 10)) as char
  }

  /** Two digits a byte, the high one first. */
  function Hex(digest: seq<byte>): (s: string)
    ensures |s| == 2 * |digest|
    ensures forall i :: 0 <= i < |digest| ==>
      s[2 * i] == HexDigit(digest[i] / 16) && s[2 * i + 1] == HexDigit(digest[i] % 16)
  {
    if digest == [] then ""
    else
      var last := |digest| - 1;
      Hex(digest[..last]) + [HexDigit(digest[last] / 16), HexDigit(digest[last] % 16)]
  }

  lemma HexDigitIs(d: byte)
    requires d < 16
    ensures HexDigit(d) == "0123456789abcdef"[d]
  {
  }

  lemma HexDigitsDiffer(a: byte, b: byte)
    requires a < 16 && b < 16 && HexDigit(a) == HexDigit(b)
    ensures a == b
  {
  }

  /** No two digests have the same text. */
  lemma HexIsFaithful(a: seq<byte>, b: seq<byte>)
    requires Hex(a) == Hex(b)
    ensures a == b
  {
    var s, t := Hex(a), Hex(b);
    hide Hex, HexDigit;
    assert |a| == |b|;
    forall i | 0 <= i < |a| ensures a[i] == b[i] {
      assert s[2 * i] == t[2 * i] && s[2 * i + 1] == t[2 * i + 1];
      HexDigitsDiffer(a[i] / 16, b[i] / 16);
      HexDigitsDiffer(a[i] % 16, b[i] % 16);
    }
  }

  lemma HexNext(digest: seq<byte>, i: nat)
    requires i < |digest|
    ensures Hex(digest[..i + 1]) == Hex(digest[..i]) + [HexDigit(digest[i] / 16)] + [HexDigit(digest[i] % 16)]
  {
    hide HexDigit;
    assert digest[..i + 1][..i] == digest[..i];
  }

  /** `Sha256Hasher::hash`: the digest of one input, as text. */
  method HashText(input: seq<byte>) returns (text: string)
    requires |input| < LIMIT
    ensures text == Hex(Hash(input))
  {
    hide Hex, HexDigit, Hash;
    var chunks := [input];
    OneChunk(input);
    var digest := HashChunks(chunks);
    text := "";
    NoHex();
    ConcatAll([], digest);
    for i := 0 to |digest|
      invariant text == Hex(digest[..i])
    {
      HexNext(digest, i);
      text := text + [HexDigit(digest[i] / 16)];
      text := text + [HexDigit(digest[i] % 16)];
    }
  }

  lemma OneChunk(input: seq<byte>)
    ensures Concat([input]) == input
  {
    assert [input][1..] == [];
    ConcatEmpty(input);
  }

  lemma NoHex()
    ensures Hex([]) == ""
  {
  }

  lemma ConcatSlice(m: seq<byte>, input: seq<byte>, off: nat, n: nat)
    requires off + n <= |input|
    ensures m + input[..off + n] == (m + input[..off]) + input[off..off + n]
  {
  }

  /** The two 32-bit halves of the bit length are computed without 64-bit arithmetic on bits. */
  lemma LengthSplit(length: nat)
    requires length < LIMIT
    ensures
      WordBytes(length / 0x2000_0000 % 0x1_0000_0000) + WordBytes(length * 8 % 0x1_0000_0000)
      == LengthBytes(8 * length)
  {
  }
}
