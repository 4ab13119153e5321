/** The bytes on the wire in closed form: what src/packet.cpp sends for a packet, and what it makes of what it gets. */
module WireFormat {
  import opened Bytes
  import opened PacketCodec
  import opened PacketFields

  // ---------- run reversal ----------

  /** A run with other elements, or none, on both sides is turned around where it stands. */
  lemma MiddleTurned<T>(p: seq<T>, q: seq<T>, r: seq<T>, m: T -> bool)
    requires q != [] && IsRun(q, m) && (p == [] || !m(p[|p| - 1])) && (r == [] || !m(r[0]))
    ensures
      && |ReverseRuns(p, m)| == |p|
      && ReverseRuns(p + (q + r), m) == ReverseRuns(p, m) + (Reverse(q) + ReverseRuns(r, m))
  {
    ReverseRunsSplit(p, q + r, m);
    RunThenRest(q, r, m);
  }

  lemma MiddleAt<T>(p: seq<T>, q: seq<T>, r: seq<T>, i: nat)
    requires |p| <= i < |p| + |q|
    ensures (p + (q + r))[i] == q[i - |p|]
  {
  }

  /**
   `DickWinder` in terms of positions: a zero key changes nothing; with any other, bytes that are no multiples of it
   stay, and a maximal run of multiples, from `a` up to `b`, is turned around.
   */
  lemma WindExact(s: seq<byte>, k: byte, a: nat, b: nat, i: nat)
    requires i < |s|
    ensures k == 0 || s[i] % k != 0 ==> Wind(s, k)[i] == s[i]
    ensures k != 0
      && a <= i < b <= |s| && (forall j :: a <= j < b ==> s[j] % k == 0)
      && (a == 0 || s[a - 1] % k != 0) && (b == |s| || s[b] % k != 0)
      ==> Wind(s, k)[i] == s[a + b - 1 - i]
  {
    if k != 0 {
      ReverseRunsKeepsClass(s, MultipleOf(k));
      if && a <= i < b <= |s| && (forall j :: a <= j < b ==> s[j] % k == 0)
         && (a == 0 || s[a - 1] % k != 0) && (b == |s| || s[b] % k != 0) {
        WindTurns(s, k, a, b, i);
      }
    }
  }

  lemma WindTurns(s: seq<byte>, k: byte, a: nat, b: nat, i: nat)
    requires k != 0 && a <= i < b <= |s| && (forall j :: a <= j < b ==> s[j] % k == 0)
    requires (a == 0 || s[a - 1] % k != 0) && (b == |s| || s[b] % k != 0)
    ensures Wind(s, k)[i] == s[a + b - 1 - i]
  {
    var m := MultipleOf(k);
    var p, q, r := s[..a], s[a..b], s[b..];
    assert s == p + (q + r);
    MiddleTurned(p, q, r, m);
    ReverseAt(q);
    hide ReverseRuns, Reverse;
    MiddleAt(ReverseRuns(p, m), Reverse(q), ReverseRuns(r, m), i);
  }

  // ---------- scrambling ----------

  lemma ScrambleAt(q: seq<byte>, t: nat)
    ensures 2 * t < |q| ==>
      Scramble(q)[2 * t] == if q[t] % 128 == 0 then q[t] else ((q[t] as int + 128) % 256) as byte
    ensures 2 * t + 1 < |q| ==>
      var b := q[|q| - 1 - t];
      Scramble(q)[2 * t + 1] == if b % 128 == 0 then b else ((b as int + 128) % 256) as byte
  {
  }

  /**
   What goes over the wire: INIT packets and packets without a key as they are; otherwise the two header bytes after
   reversal, and then the payload after reversal, taken alternately from its front and from its back. Every payload
   byte is moved by 128, except 0 and 128 themselves.
   */
  lemma EncodedExact(p: seq<byte>, k: byte, t: nat)
    requires |p| >= 4
    ensures |Encoded(p, k)| == |p|
    ensures k == 0 || (p[2] == 255 && p[3] == 255) ==> Encoded(p, k) == p
    ensures k != 0 && !(p[2] == 255 && p[3] == 255) ==>
      var (w, n, e) := (Wind(p, k), |p| - 2, Encoded(p, k));
      && e[0] == w[0] && e[1] == w[1]
      && (2 * t < n ==>
            var b := w[2 + t];
            e[2 + 2 * t] == if b == 0 || b == 128 then b else ((b as int + 128) % 256) as byte)
      && (2 * t + 1 < n ==>
            var b := w[|w| - 1 - t];
            e[3 + 2 * t] == if b == 0 || b == 128 then b else ((b as int + 128) % 256) as byte)
  {
    hide Scramble, Wind;
    ScrambleAt(Wind(p, k)[2..], t);
  }

  lemma UnscrambleEven(r: seq<byte>, t: nat)
    requires 2 * t < |r|
    ensures
      var b := r[2 * t];
      Unscramble(r)[t] == if t >= 2 && b % 128 == 0 then b else ((b as int + 128) % 256) as byte
  {
  }

  lemma UnscrambleOdd(r: seq<byte>, t: nat)
    requires 2 * t + 1 < |r|
    ensures
      var (b, j) := (r[2 * t + 1], |r| - 1 - t);
      Unscramble(r)[j] == if j >= 2 && b % 128 == 0 then b else ((b as int + 128) % 256) as byte
  {
  }

  /**
   What is made of a received payload: before the final reversal, its even places are the front and its odd ones,
   backwards, the back. Every byte is moved by 128, except 0 and 128 from the third place on.
   */
  lemma DecodedExact(r: seq<byte>, k: byte, t: nat)
    requires |r| >= 2
    ensures |Decoded(r, k)| == |r|
    ensures k == 0 || (r[0] == 255 && r[1] == 255) ==> Decoded(r, k) == r
    ensures k != 0 && !(r[0] == 255 && r[1] == 255) ==>
      var (u, n) := (Wind(Decoded(r, k), k), |r|);
      && (2 * t < n ==>
            var b := r[2 * t];
            u[t] == if t >= 2 && (b == 0 || b == 128) then b else ((b as int + 128) % 256) as byte)
      && (2 * t + 1 < n ==>
            var (b, j) := (r[2 * t + 1], n - 1 - t);
            u[j] == if j >= 2 && (b == 0 || b == 128) then b else ((b as int + 128) % 256) as byte)
  {
    hide Unscramble, Wind;
    WindInvolution(Unscramble(r), k);
    if 2 * t < |r| {
      UnscrambleEven(r, t);
    }
    if 2 * t + 1 < |r| {
      UnscrambleOdd(r, t);
    }
  }

  // ---------- numbers, fields and packets ----------

  /** Four bytes as a number: base 253, each byte one more than its digit; 254 stands for 1, and 0 for 128. */
  lemma NumberExact(b: seq<byte>, i: nat)
    requires |b| == 4 && i < 4
    ensures (forall j :: 0 <= j < 4 ==> b[j] != 0 && b[j] != 254) ==>
      Number(b) == b[0] as int - 1 + (b[1] as int - 1) * 253 + (b[2] as int - 1) * 64009 + (b[3] as int - 1) * 16194277
    ensures b[i] == 254 ==> Number(b) == Number(b[i := 1])
    ensures b[i] == 0 ==> Number(b) == Number(b[i := 128])
  {
  }

  /**
   A number as four bytes: below 253^4 its digits plus one add up to it, and there are fillers exactly where it has
   no digit.
   */
  lemma NumberBytesExact(n: uint)
    requires n < 253 * 253 * 253 * 253
    ensures
      var b := NumberBytes(n);
      && (forall i :: 0 <= i < 4 ==> 1 <= b[i] <= 254) && b[0] != 254
      && (b[1] == 254 <==> n < 253) && (b[2] == 254 <==> n < 64009) && (b[3] == 254 <==> n < 16194277)
      && n == b[0] as int - 1
           + (if b[1] == 254 then 0 else (b[1] as int - 1) * 253)
           + (if b[2] == 254 then 0 else (b[2] as int - 1) * 64009)
           + (if b[3] == 254 then 0 else (b[3] as int - 1) * 16194277)
  {
    DigitSplit(n);
    MissingDigits(n);
    DigitsOf(n);
    hide NumberBytes;
  }

  lemma DigitsOf(n: uint)
    requires n < 253 * 253 * 253 * 253
    ensures
      var b := NumberBytes(n);
      && b[0] as int == n % 253 + 1
      && (if n < 253 then b[1] == 254 else b[1] as int == n / 253 % 253 + 1)
      && (if n < 64009 then b[2] == 254 else b[2] as int == n / 64009 % 253 + 1)
      && (if n < 16194277 then b[3] == 254 else b[3] as int == n / 16194277 + 1)
  {
  }

  lemma MissingDigits(n: uint)
    requires n < 253 * 253 * 253 * 253
    ensures n / 16194277 < 253
    ensures n < 253 ==> n / 253 % 253 == 0
    ensures n < 64009 ==> n / 64009 % 253 == 0
    ensures n < 16194277 ==> n / 16194277 == 0
  {
  }

  /** Above that, the top digit is cut to a byte, and the others are as always. */
  lemma LargeNumberBytes(n: uint)
    requires n >= 253 * 253 * 253 * 253
    ensures
      var b := NumberBytes(n);
      && b[3] as int == (n / 16194277 + 1) % 256
      && n % 16194277 == b[0] as int - 1 + (b[1] as int - 1) * 253 + (b[2] as int - 1) * 64009
  {
    DigitSplit(n);
  }

  function Pow253(k: nat): nat {
    if k == 0 then 1 else 253 * Pow253(k - 1)
  }

  /** What each kind of field is for: bytes and strings come back as they are, numbers if their width is enough. */
  lemma MeaningExact(f: Field)
    ensures f.ByteField? ==> Meaning(f) == NumberValue(f.b as nat)
    ensures f.NumberField? && f.n < Pow253(f.width) ==> Meaning(f) == NumberValue(f.n)
    ensures f.NumberField? && f.width < 4 ==> Meaning(f) == NumberValue(f.n % Pow253(f.width))
    ensures f.FixedField? ==> Meaning(f) == StringValue(f.s)
    ensures f.BreakField? ==>
      && Meaning(f).StringValue? && |Meaning(f).s| == |f.s|
      && forall i :: 0 <= i < |f.s| ==> Meaning(f).s[i] == if f.s[i] == 255 then 121 else f.s[i]
  {
    assert Pow253(0) == 1 && Pow253(1) == 253 && Pow253(2) == 64009 && Pow253(3) == 16194277;
    assert Pow253(4) == 253 * Pow253(3);
  }

  /** How many bytes each kind of field takes, and which they are. */
  lemma WrittenExact(f: Field)
    ensures f.ByteField? ==> Written(f) == [f.b]
    ensures f.NumberField? ==> Written(f) == NumberBytes(f.n)[..f.width]
    ensures f.FixedField? ==> Written(f) == f.s
    ensures f.BreakField? ==> |Written(f)| == |f.s| + 1 && Written(f)[|f.s|] == 255 && 255 !in Written(f)[..|f.s|]
  {
  }

  /** A list of fields: one value each, in order. */
  lemma {:induction false} MeaningsExact(fs: seq<Field>, i: nat)
    requires i < |fs|
    ensures |MeaningAll(fs)| == |fs| && MeaningAll(fs)[i] == Meaning(fs[i])
    decreases |fs|
  {
    hide Meaning;
    if i > 0 {
      MeaningsExact(fs[1..], i - 1);
    } else if |fs| > 1 {
      MeaningsExact(fs[1..], 0);
    }
  }

  /** And their bytes one after the other. */
  lemma {:induction false} WrittenNext(fs: seq<Field>, f: Field)
    ensures WrittenAll([]) == [] && WrittenAll(fs + [f]) == WrittenAll(fs) + Written(f)
    decreases |fs|
  {
    hide Written;
    if fs == [] {
      ConcatEmpty(Written(f));
      assert [f][1..] == [];
    } else {
      WrittenNext(fs[1..], f);
      assert (fs + [f])[1..] == fs[1..] + [f];
      ConcatAssociative(Written(fs[0]), WrittenAll(fs[1..]), Written(f));
    }
  }

  /** A packet: what it announces follows its first two bytes; then action and family, then the data. */
  lemma PacketExact(id: nat, data: seq<byte>, addSize: nat)
    requires id < 65536 && |data| + 2 + addSize < 64009
    ensures
      var p := Packet(id, data, addSize);
      && Number([p[0], p[1], 254, 254]) == |data| + 2 + addSize
      && p[0] == NumberBytes(|data| + 2 + addSize)[0] && p[1] == NumberBytes(|data| + 2 + addSize)[1]
      && p[2] as nat * 256 + p[3] as nat == id && p[4..] == data
  {
    hide NumberBytes, Number;
    LengthHeader(id, data, addSize);
    var p := Packet(id, data, addSize);
    PacketParts(id, data, addSize);
    assert Padded(p[..2]) == [p[0], p[1], 254, 254] by {
      hide Packet;
    }
  }

  lemma PacketParts(id: nat, data: seq<byte>, addSize: nat)
    requires id < 65536 && |data| + 2 + addSize < 64009
    ensures
      var p, h := Packet(id, data, addSize), NumberBytes(|data| + 2 + addSize);
      && p[0] == h[0] && p[1] == h[1] && p[2] as nat * 256 + p[3] as nat == id && p[4..] == data
  {
    hide NumberBytes;
    assert (|data| + 2 + addSize) % UINT == |data| + 2 + addSize;
  }
}
