/**
 Packet scrambling as in src/packet.cpp: `DickWinder` reverses every run of multiples of the key, and
 `Encode`/`Decode` interleave the payload, flip its top bits and exchange 0 with 128.
 */
module PacketCodec {
  import opened Bytes

  const INIT: byte := 255  // both PACKET_F_INIT and PACKET_A_INIT

  // ---------- run reversal: reference definition ----------

  /** The number of leading elements of class `m`. */
  function RunLength<T>(s: seq<T>, m: T -> bool): (n: nat)
    ensures n <= |s|
    ensures forall i :: 0 <= i < n ==> m(s[i])
    ensures n < |s| ==> !m(s[n])
  {
    if s == [] || !m(s[0]) then 0 else 1 + RunLength(s[1..], m)
  }

  /** Every maximal run of elements of class `m` is reversed in place. */
  function ReverseRuns<T>(s: seq<T>, m: T -> bool): (r: seq<T>)
    ensures |r| == |s|
    decreases |s|
  {
    if s == [] then s
    else
      var n := RunLength(s, m);
      if n == 0 then [s[0]] + ReverseRuns(s[1..], m)
      else Reverse(s[..n]) + ReverseRuns(s[n..], m)
  }

  function MultipleOf(k: byte): byte -> bool
    requires k != 0
  {
    (c: byte) => c % k == 0
  }

  /** Reverses the runs of multiples of `k`; a zero key changes nothing. */
  function Wind(s: seq<byte>, k: byte): (r: seq<byte>)
    ensures |r| == |s|
  {
    if k == 0 then s else ReverseRuns(s, MultipleOf(k))
  }

  predicate IsRun<T>(s: seq<T>, m: T -> bool) {
    forall i :: 0 <= i < |s| ==> m(s[i])
  }

  lemma RunLengthIs<T>(s: seq<T>, m: T -> bool, n: nat)
    requires n <= |s| && (forall i :: 0 <= i < n ==> m(s[i]))
    requires n < |s| ==> !m(s[n])
    ensures RunLength(s, m) == n
  {
  }

  /** A run that the next element does not continue is reversed on its own. */
  lemma RunThenRest<T>(run: seq<T>, rest: seq<T>, m: T -> bool)
    requires IsRun(run, m)
    requires rest != [] ==> !m(rest[0])
    ensures ReverseRuns(run + rest, m) == Reverse(run) + ReverseRuns(rest, m)
  {
    var s := run + rest;
    if run == [] {
      assert s == rest;
    } else {
      assert s[..|run|] == run && s[|run|..] == rest;
      RunLengthIs(s, m, |run|);
    }
  }

  lemma BreakThenRest<T>(c: T, rest: seq<T>, m: T -> bool)
    requires !m(c)
    ensures ReverseRuns([c] + rest, m) == [c] + ReverseRuns(rest, m)
  {
    assert ([c] + rest)[1..] == rest;
  }

  /** Reversal keeps each position's class, and keeps every element outside the class. */
  lemma {:induction false} ReverseRunsKeepsClass<T>(s: seq<T>, m: T -> bool)
    ensures forall i :: 0 <= i < |s| ==> (m(ReverseRuns(s, m)[i]) <==> m(s[i]))
    ensures forall i :: 0 <= i < |s| && !m(s[i]) ==> ReverseRuns(s, m)[i] == s[i]
    decreases |s|
  {
    if s != [] {
      var n := RunLength(s, m);
      var cut := if n == 0 then 1 else n;
      ReverseRunsKeepsClass(s[cut..], m);
      ReverseAt(s[..n]);
      forall i | 0 <= i < |s|
        ensures m(ReverseRuns(s, m)[i]) <==> m(s[i])
        ensures !m(s[i]) ==> ReverseRuns(s, m)[i] == s[i]
      {
        if i >= cut {
          assert ReverseRuns(s, m)[i] == ReverseRuns(s[cut..], m)[i - cut] && s[i] == s[cut..][i - cut];
        } else if n > 0 {
          assert ReverseRuns(s, m)[i] == Reverse(s[..n])[i] == s[..n][n - 1 - i];
        }
      }
    }
  }

  lemma ReversedRun<T>(run: seq<T>, m: T -> bool)
    requires forall i :: 0 <= i < |run| ==> m(run[i])
    ensures |Reverse(run)| == |run| && forall i :: 0 <= i < |run| ==> m(Reverse(run)[i])
  {
    ReverseAt(run);
  }

  lemma {:induction false} ReverseRunsInvolution<T>(s: seq<T>, m: T -> bool)
    ensures ReverseRuns(ReverseRuns(s, m), m) == s
    decreases |s|
  {
    if s != [] {
      var n := RunLength(s, m);
      if n == 0 {
        ReverseRunsInvolution(s[1..], m);
        BreakThenRest(s[0], ReverseRuns(s[1..], m), m);
      } else {
        var rest := s[n..];
        ReverseRunsInvolution(rest, m);
        ReverseRunsKeepsClass(rest, m);
        ReversedRun(s[..n], m);
        assert ReverseRuns(s, m) == Reverse(s[..n]) + ReverseRuns(rest, m);
        hide ReverseRuns, Reverse;
        RunThenRest(Reverse(s[..n]), ReverseRuns(rest, m), m);
        ReverseReverse(s[..n]);
        assert s[..n] + rest == s;
      }
    }
  }

  /** Where the first run, or the first single element, of a string ends. */
  function FirstCut<T>(s: seq<T>, m: T -> bool): (cut: nat)
    requires s != []
    ensures 0 < cut <= |s|
  {
    var n := RunLength(s, m);
    if n == 0 then 1 else n
  }

  /** The piece before the cut is turned around, whatever follows it outside a run. */
  lemma FirstPiece<T>(a: seq<T>, b: seq<T>, m: T -> bool)
    requires a != [] && (b == [] || !m(a[|a| - 1]) || !m(b[0]))
    ensures
      var cut := FirstCut(a, m);
      ReverseRuns(a[..cut] + (a[cut..] + b), m) == Reverse(a[..cut]) + ReverseRuns(a[cut..] + b, m)
  {
    var cut := FirstCut(a, m);
    var rest := a[cut..] + b;
    if m(a[0]) {
      RunThenRest(a[..cut], rest, m);
    } else {
      BreakThenRest(a[0], rest, m);
      assert a[..1] == [a[0]] == Reverse([a[0]]);
    }
  }

  /** Reversal works on both sides independently wherever the cut is not inside a run. */
  lemma {:induction false} ReverseRunsSplit<T>(a: seq<T>, b: seq<T>, m: T -> bool)
    requires a == [] || b == [] || !m(a[|a| - 1]) || !m(b[0])
    ensures ReverseRuns(a + b, m) == ReverseRuns(a, m) + ReverseRuns(b, m)
    decreases |a|
  {
    if a == [] {
      ConcatEmpty(b);
      ConcatEmpty(ReverseRuns(b, m));
    } else {
      hide ReverseRuns, Reverse, RunLength;
      var cut := FirstCut(a, m);
      var head, rest := a[..cut], a[cut..];
      ReverseRunsSplit(rest, b, m);
      FirstPiece(a, b, m);
      FirstPiece(a, [], m);
      ConcatEmpty(rest);
      ConcatSplit(a, b, cut);
      TakeDrop(a, cut);
      ConcatAssociative(Reverse(head), ReverseRuns(rest, m), ReverseRuns(b, m));
    }
  }

  /** Run reversal is its own inverse, for every key and every string. */
  lemma WindInvolution(s: seq<byte>, k: byte)
    ensures Wind(Wind(s, k), k) == s
  {
    if k != 0 {
      ReverseRunsInvolution(s, MultipleOf(k));
    }
  }

  // ---------- run reversal: the loop ----------

  method ReverseBuffer<T>(buffer: seq<T>) returns (r: seq<T>)
    ensures r == Reverse(buffer)
  {
    r := [];
    for i := 0 to |buffer|
      invariant |r| == i
      invariant forall j :: 0 <= j < i ==> r[j] == buffer[|buffer| - 1 - j]
    {
      r := r + [buffer[|buffer| - 1 - i]];
    }
    ReverseAt(buffer);
  }

  method DickWinder(str: seq<byte>, emulti: byte) returns (newstr: seq<byte>)
    ensures newstr == Wind(str, emulti)
  {
    if emulti == 0 {
      return str;
    }
    hide ReverseRuns, Reverse;
    ghost var m := MultipleOf(emulti);
    newstr := [];
    var buffer: seq<byte> := [];
    var i := 0;
    ConcatEmpty(str);
    ConcatEmpty(ReverseRuns(str, m));
    while i < |str|
      invariant 0 <= i <= |str|
      invariant IsRun(buffer, m)
      invariant ReverseRuns(str, m) == newstr + ReverseRuns(buffer + str[i..], m)
    {
      var c := str[i];
      ghost var rest := str[i + 1..];
      LoopStep<byte>(newstr, buffer, c, rest, m);
      DropFirst(str, i);
      if c % emulti == 0 {
        buffer := buffer + [c];
      } else {
        if |buffer| > 0 {
          var reversed := ReverseBuffer(buffer);
          newstr := newstr + reversed;
          buffer := [];
        }
        newstr := newstr + [c];
      }
      i := i + 1;
    }
    RunThenRest<byte>(buffer, [], m);
    if |buffer| > 0 {
      var reversed := ReverseBuffer(buffer);
      newstr := newstr + reversed;
    }
  }

  /** What reading one more element does to the output and the pending run. */
  lemma LoopStep<T>(out: seq<T>, run: seq<T>, c: T, rest: seq<T>, m: T -> bool)
    requires IsRun(run, m)
    ensures m(c) ==> run + ([c] + rest) == (run + [c]) + rest
    ensures !m(c) ==>
      out + ReverseRuns(run + ([c] + rest), m)
      == (if run == [] then out else out + Reverse(run)) + [c] + ReverseRuns([] + rest, m)
  {
    ConcatAssociative(run, [c], rest);
    if !m(c) {
      RunThenRest(run, [c] + rest, m);
      BreakThenRest(c, rest, m);
      assert [] + rest == rest;
      var z := ReverseRuns(rest, m);
      ConcatAssociative(Reverse(run), [c], z);
      ConcatAssociative(out, Reverse(run) + [c], z);
      ConcatAssociative(out, Reverse(run), [c]);
      ConcatEmpty(out);
    }
  }

  // ---------- interleaving and masking ----------

  /** Exchanges 0 and 128. */
  function Swap(b: byte): byte {
    if b == 128 then 0 else if b == 0 then 128 else b
  }

  /** Where the scrambled payload of length `n` keeps payload byte `j`. */
  function Place(n: nat, j: nat): (i: nat)
    requires j < n
    ensures i < n
  {
    if j < (n + 1) / 2 then 2 * j else 2 * (n - 1 - j) + 1
  }

  /** Which payload byte the scrambled payload of length `n` shows at `i`. */
  function Source(n: nat, i: nat): (j: nat)
    requires i < n
    ensures j < n
  {
    if i % 2 == 0 then i / 2 else n - 1 - i / 2
  }

  lemma PlaceSource(n: nat, i: nat)
    requires i < n
    ensures Source(n, Place(n, i)) == i && Place(n, Source(n, i)) == i
  {
  }

  lemma PlaceInjective(n: nat)
    ensures forall t, u :: 0 <= t < n && 0 <= u < n && t != u ==> Place(n, t) != Place(n, u)
  {
  }

  function Scramble(q: seq<byte>): (r: seq<byte>)
    ensures |r| == |q|
  {
    seq(|q|, i requires 0 <= i < |q| => Swap(FlipTop(q[Source(|q|, i)])))
  }

  /** `Decode` exchanges 0 and 128 only from the third position on. */
  function UnscrambleAt(r: seq<byte>, j: nat): byte
    requires j < |r|
  {
    var b := FlipTop(r[Place(|r|, j)]);
    if j < 2 then b else Swap(b)
  }

  function Unscramble(r: seq<byte>): (q: seq<byte>)
    ensures |q| == |r|
  {
    seq(|r|, j requires 0 <= j < |r| => UnscrambleAt(r, j))
  }

  /** What is left of the first two payload bytes when only their top bits are restored. */
  function SwapFirstTwo(q: seq<byte>): (r: seq<byte>)
    ensures |r| == |q|
  {
    seq(|q|, j requires 0 <= j < |q| => if j < 2 then Swap(q[j]) else q[j])
  }

  lemma UnscrambleScramble(q: seq<byte>)
    ensures Unscramble(Scramble(q)) == SwapFirstTwo(q)
  {
    var n := |q|;
    forall j | 0 <= j < n
      ensures Unscramble(Scramble(q))[j] == SwapFirstTwo(q)[j]
    {
      PlaceSource(n, j);
      assert Scramble(q)[Place(n, j)] == Swap(FlipTop(q[j]));
    }
  }

  // ---------- Encode and Decode ----------

  ghost predicate IsInit(action: byte, family: byte) {
    action == INIT && family == INIT
  }

  /** The scrambled form of a packet whose first two bytes are its length header. */
  ghost function Encoded(p: seq<byte>, k: byte): (r: seq<byte>)
    requires |p| >= 4
    ensures |r| == |p|
  {
    if k == 0 || IsInit(p[2], p[3]) then p
    else Wind(p, k)[..2] + Scramble(Wind(p, k)[2..])
  }

  /** The packet without its header, recovered from its scrambled form. */
  ghost function Decoded(r: seq<byte>, k: byte): (q: seq<byte>)
    requires |r| >= 2
    ensures |q| == |r|
  {
    if k == 0 || IsInit(r[0], r[1]) then r else Wind(Unscramble(r), k)
  }

  /** The closing loop of both `Encode` and `Decode`. */
  method SwapZeros(a: array<byte>)
    modifies a
    ensures forall j :: 0 <= j < a.Length ==> a[j] == if j < 2 then old(a[j]) else Swap(old(a[j]))
  {
    var i := 2;
    while i < a.Length
      invariant 2 <= i
      invariant forall j :: 0 <= j < a.Length ==> a[j] == if 2 <= j < i then Swap(old(a[j])) else old(a[j])
    {
      if a[i] == 128 {
        a[i] := 0;
      } else if a[i] == 0 {
        a[i] := 128;
      }
      i := i + 1;
    }
  }

  /** The two middle loops of `Encode`: even payload positions going up, then odd ones coming down. */
  method Interleave(str: seq<byte>, newstr: array<byte>)
    requires |str| == newstr.Length >= 4
    modifies newstr
    ensures newstr[0] == old(newstr[0]) && newstr[1] == old(newstr[1])
    ensures var n := |str| - 2; forall t :: 0 <= t < n ==> newstr[2 + Place(n, t)] == FlipTop(str[2 + t])
  {
    var length := |str|;
    ghost var n := length - 2;
    PlaceInjective(n);
    var i, ii := 2, 2;
    while i < length
      invariant 2 <= ii && i == 2 * (ii - 2) + 2 <= length + 1
      invariant newstr[0] == old(newstr[0]) && newstr[1] == old(newstr[1])
      invariant forall t :: 0 <= t < ii - 2 ==> newstr[2 + Place(n, t)] == FlipTop(str[2 + t])
    {
      assert Place(n, ii - 2) == i - 2;
      newstr[i] := FlipTop(str[ii]);
      ii := ii + 1;
      i := i + 2;
    }
    i := length - 1;
    if length % 2 == 1 {
      i := i - 1;
    }
    while i >= 2
      invariant 1 <= i && i == 2 * (length - 1 - ii) + 3
      invariant ii - 2 >= (n + 1) / 2
      invariant newstr[0] == old(newstr[0]) && newstr[1] == old(newstr[1])
      invariant forall t :: 0 <= t < ii - 2 ==> newstr[2 + Place(n, t)] == FlipTop(str[2 + t])
    {
      assert Place(n, ii - 2) == i - 2;
      newstr[i] := FlipTop(str[ii]);
      ii := ii + 1;
      i := i - 2;
    }
  }

  method Encode(rawstr: seq<byte>, emulti_e: byte) returns (r: seq<byte>)
    requires |rawstr| >= 4
    ensures r == Encoded(rawstr, emulti_e)
  {
    if emulti_e == 0 || (rawstr[2] == INIT && rawstr[3] == INIT) {
      return rawstr;
    }
    var str := DickWinder(rawstr, emulti_e);
    var length := |str|;
    var newstr := new byte[length];
    newstr[0] := str[0];
    newstr[1] := str[1];
    Interleave(str, newstr);
    SwapZeros(newstr);
    r := newstr[..];
    ScrambledFrom(str, r);
  }

  lemma ScrambledFrom(str: seq<byte>, r: seq<byte>)
    requires |r| == |str| >= 4
    requires r[0] == str[0] && r[1] == str[1]
    requires var n := |str| - 2; forall t :: 0 <= t < n ==> r[2 + Place(n, t)] == Swap(FlipTop(str[2 + t]))
    ensures r == str[..2] + Scramble(str[2..])
  {
    var q := str[2..];
    var n := |q|;
    forall i | 0 <= i < n
      ensures r[i + 2] == Scramble(q)[i]
    {
      PlaceSource(n, i);
      assert r[2 + Place(n, Source(n, i))] == Swap(FlipTop(str[2 + Source(n, i)]));
    }
  }

  /** The two loops of `Decode`: even positions going up, then odd ones coming down. */
  method Deinterleave(str: seq<byte>, newstr: array<byte>)
    requires |str| == newstr.Length >= 2
    modifies newstr
    ensures forall j :: 0 <= j < |str| ==> newstr[j] == FlipTop(str[Place(|str|, j)])
  {
    var length := |str|;
    var i, ii := 0, 0;
    while i < length
      invariant i == 2 * ii <= length + 1
      invariant forall j :: 0 <= j < ii ==> newstr[j] == FlipTop(str[Place(length, j)])
    {
      newstr[ii] := FlipTop(str[i]);
      ii := ii + 1;
      i := i + 2;
    }
    i := i - 1;
    if length % 2 == 1 {
      i := i - 2;
    }
    // the source's do-while: its body always runs once before the test
    var again := true;
    while again
      invariant -1 <= i < length && (i == -1 || i % 2 == 1)
      invariant again <==> i >= 0
      invariant ii == length - (i + 1) / 2
      invariant forall j :: 0 <= j < ii ==> newstr[j] == FlipTop(str[Place(length, j)])
      decreases i
    {
      newstr[ii] := FlipTop(str[i]);
      ii := ii + 1;
      i := i - 2;
      again := i >= 0;
    }
  }

  method Decode(str: seq<byte>, emulti_d: byte) returns (r: seq<byte>)
    requires |str| >= 2
    ensures r == Decoded(str, emulti_d)
  {
    if emulti_d == 0 || (str[0] == INIT && str[1] == INIT) {
      return str;
    }
    var newstr := new byte[|str|];
    Deinterleave(str, newstr);
    SwapZeros(newstr);
    assert newstr[..] == Unscramble(str);
    r := DickWinder(newstr[..], emulti_d);
  }

  // ---------- when decoding undoes encoding ----------

  ghost predicate Survives(p: seq<byte>, k: byte)
    requires |p| >= 4
  {
    && Encoded(p, k)[..2] == p[..2]
    && Decoded(Encoded(p, k)[2..], k) == p[2..]
  }

  /** INIT packets and packets sent before the keys are set are never touched. */
  lemma InitSurvives(p: seq<byte>, k: byte)
    requires |p| >= 4
    requires k == 0 || IsInit(p[2], p[3])
    ensures Encoded(p, k) == p && Survives(p, k)
  {
  }

  /**
   The exact condition for every other packet: the reversed packet keeps the header, its payload (with 0
   and 128 exchanged in the first two places) is the reversed payload, and the scrambled payload does not
   look like an INIT packet.
   */
  lemma SurvivesIff(p: seq<byte>, k: byte)
    requires |p| >= 4 && k != 0 && !IsInit(p[2], p[3])
    ensures
      var w := Wind(p, k);
      Survives(p, k) <==>
        && w[..2] == p[..2]
        && SwapFirstTwo(w[2..]) == Wind(p[2..], k)
        && !(w[2] == 127 && w[|w| - 1] == 127)
  {
    var w := Wind(p, k);
    var q := w[2..];
    var n := |q|;
    var r := Scramble(q);
    assert Encoded(p, k)[..2] == w[..2] && Encoded(p, k)[2..] == r;
    assert r[0] == Swap(FlipTop(q[0])) && r[1] == Swap(FlipTop(q[n - 1]));
    assert q[n - 1] == w[|w| - 1];
    UnscrambleScramble(q);
    if IsInit(r[0], r[1]) {
      assert w[2] == 127 && w[|w| - 1] == 127;
      assert Decoded(r, k) != p[2..] by {
        assert p[2..][0] == p[2] && p[2..][1] == p[3];
      }
    } else {
      assert Decoded(r, k) == Wind(SwapFirstTwo(q), k);
      WindInvolution(p[2..], k);
      WindInvolution(SwapFirstTwo(q), k);
    }
  }

  /** Neither 0 nor 128. */
  predicate Plain(b: byte) {
    b != 0 && b != 128
  }

  ghost predicate PayloadSurvives(q: seq<byte>)
    requires |q| >= 2
  {
    Plain(q[0]) && Plain(q[1]) && !(q[0] == 127 && q[|q| - 1] == 127)
  }

  /** A header whose second byte is a multiple of the key is only kept if it reverses to itself. */
  predicate HeaderSurvives(p: seq<byte>, k: byte)
    requires |p| >= 2 && k != 0
  {
    p[1] % k != 0 || p[0] % k != 0 || p[0] == p[1]
  }

  lemma SwapFirstTwoFixed(q: seq<byte>)
    requires |q| >= 2
    ensures SwapFirstTwo(q) == q <==> Plain(q[0]) && Plain(q[1])
  {
    if SwapFirstTwo(q) == q {
      assert SwapFirstTwo(q)[0] == Swap(q[0]) && SwapFirstTwo(q)[1] == Swap(q[1]);
    }
  }

  /**
   When no run crosses from the header into the payload, decoding undoes encoding if and only if the
   header survives reversal, the first two reversed payload bytes are neither 0 nor 128, and the reversed
   payload does not both start and end with 127.
   */
  lemma SplitCase(p: seq<byte>, k: byte)
    requires |p| >= 4 && k != 0 && !IsInit(p[2], p[3])
    requires p[1] % k != 0 || p[2] % k != 0
    ensures Survives(p, k) <==> HeaderSurvives(p, k) && PayloadSurvives(Wind(p[2..], k))
  {
    hide Wind, Survives, Encoded, Decoded;
    SurvivesIff(p, k);
    var head, q := p[..2], Wind(p[2..], k);
    WindSplit(p, k);
    ConcatParts(Wind(head, k), q);
    SwapFirstTwoFixed(q);
    WindHeader(head, k);
  }

  lemma WindSplit(p: seq<byte>, k: byte)
    requires |p| >= 4 && k != 0 && (p[1] % k != 0 || p[2] % k != 0)
    ensures Wind(p, k) == Wind(p[..2], k) + Wind(p[2..], k)
  {
    TakeDrop(p, 2);
    ReverseRunsSplit(p[..2], p[2..], MultipleOf(k));
  }

  lemma WindHeader(h: seq<byte>, k: byte)
    requires |h| == 2 && k != 0
    ensures Wind(h, k) == if h[0] % k == 0 && h[1] % k == 0 then [h[1], h[0]] else h
  {
    var m := MultipleOf(k);
    var a, b := h[..1], h[1..];
    assert h == a + b == h + [];
    if m(h[0]) && m(h[1]) {
      RunThenRest(h, [], m);
    } else {
      ReverseRunsSplit(a, b, m);
      WindOne(h[0], m);
      WindOne(h[1], m);
    }
  }

  lemma WindOne<T>(c: T, m: T -> bool)
    ensures ReverseRuns([c], m) == [c]
  {
    assert [c] + [] == [c];
    if m(c) {
      RunThenRest([c], [], m);
    } else {
      BreakThenRest(c, [], m);
    }
  }

  // ---------- runs across the header ----------

  /** The last header byte and the first payload byte are in one run. */
  predicate Crosses(p: seq<byte>, k: byte)
    requires |p| >= 4 && k != 0
  {
    p[1] % k == 0 && p[2] % k == 0
  }

  /**
   What a run `r` at the start of the payload must look like when it begins with the header byte `h`: all `h`,
   the last but one exchanged if it is 0 or 128. `next` is the byte behind a run of one byte.
   */
  predicate RepeatsOne(h: byte, r: seq<byte>, next: byte)
    requires r != []
  {
    && (forall j :: 0 <= j < |r| ==> r[j] == if j == |r| - 2 then Swap(h) else h)
    && (|r| == 1 ==> Plain(h) && Plain(next))
  }

  /**
   The same for a run that begins with both header bytes: they alternate, and end with `b`, `a`. An even number
   only comes out if `a` and `b` are each other's exchange, an odd one only if they have none.
   */
  predicate RepeatsTwo(a: byte, b: byte, r: seq<byte>, next: byte)
    requires r != []
  {
    && (forall j :: 0 <= j < |r| - 2 ==> r[j] == if j % 2 == 0 then a else b)
    && r[|r| - 1] == a
    && (|r| >= 2 ==> r[|r| - 2] == b)
    && (if |r| % 2 == 0 then b == Swap(a) else Plain(a) && (|r| == 1 || Plain(b)))
    && (|r| == 1 ==> Plain(next))
  }

  /** The exact condition on the bytes of a run that crosses the header. */
  ghost predicate CrossingSurvives(p: seq<byte>, k: byte)
    requires |p| >= 4 && k != 0 && Crosses(p, k)
  {
    var n := RunLength(p[2..], MultipleOf(k));
    var r, rest := p[2..][..n], p[2..][n..];
    && n > 0
    && (if p[0] % k == 0 then RepeatsTwo(p[0], p[1], r, p[3]) else RepeatsOne(p[1], r, p[3]))
    && !((if p[0] % k == 0 then p[0] else p[1]) == 127 && (rest == [] || Wind(rest, k)[|rest| - 1] == 127))
  }

  /** What exchanging the first two bytes of `x` after its first `c` must give: the reversed run `s` and `w`. */
  ghost predicate Shifted(x: seq<byte>, c: nat, s: seq<byte>, w: seq<byte>)
    requires c + |s| + |w| == |x|
  {
    && (forall i :: 0 <= i < |s| ==> s[i] == if i < 2 then Swap(x[c + i]) else x[c + i])
    && (forall i :: 0 <= i < |w| ==> w[i] == if |s| + i < 2 then Swap(x[c + |s| + i]) else x[c + |s| + i])
  }

  lemma ShiftedIff(x: seq<byte>, c: nat, s: seq<byte>, w: seq<byte>)
    requires c + |s| + |w| == |x| && |s| + |w| >= 2
    ensures SwapFirstTwo(x[c..]) == s + w <==> Shifted(x, c, s, w)
  {
    var y, z := SwapFirstTwo(x[c..]), s + w;
    assert forall i :: 0 <= i < |y| ==> y[i] == if i < 2 then Swap(x[c + i]) else x[c + i];
    assert forall i :: 0 <= i < |s| ==> z[i] == s[i];
    assert forall i :: 0 <= i < |w| ==> z[|s| + i] == w[i];
    if Shifted(x, c, s, w) {
      forall i | 0 <= i < |z| ensures y[i] == z[i] {
        if i >= |s| {
          assert z[i] == w[i - |s|];
        }
      }
    }
  }

  /** `RepeatsOne` on the reversed run. */
  ghost predicate OneChain(h: byte, s: seq<byte>, w: seq<byte>)
    requires s != [] && |s| + |w| >= 2
  {
    (forall i :: 0 <= i < |s| ==> s[i] == if i == 1 then Swap(h) else h) && (|s| == 1 ==> Plain(h) && Plain(w[0]))
  }

  /** From the back, each byte is the one before it in the packet. */
  lemma {:induction false} OneBack(h: byte, s: seq<byte>, w: seq<byte>, i: nat)
    requires 2 <= i < |s| && Shifted(s + ([h] + w), 1, s, w)
    ensures s[i] == h
    decreases |s| - i
  {
    var x := s + ([h] + w);
    assert s[i] == x[1 + i];
    if i + 1 < |s| {
      OneBack(h, s, w, i + 1);
    }
  }

  lemma CrossOne(h: byte, s: seq<byte>, w: seq<byte>)
    requires s != [] && |s| + |w| >= 2
    ensures
      var x := s + ([h] + w);
      x[0] == h && SwapFirstTwo(x[1..]) == s + w <==> OneChain(h, s, w)
  {
    var x := s + ([h] + w);
    ShiftedIff(x, 1, s, w);
    assert x[|s|] == h && forall i :: 0 <= i < |w| ==> x[1 + |s| + i] == w[i];
    if x[0] == h && Shifted(x, 1, s, w) {
      hide SwapFirstTwo;
      forall i | 2 <= i < |s| ensures s[i] == h {
        OneBack(h, s, w, i);
      }
      assert s[0] == Swap(x[1]);
      assert |s| >= 2 ==> s[1] == Swap(x[2]);
      assert |s| == 1 ==> w[0] == Swap(x[2]);
    }
  }

  /** `RepeatsTwo` on the reversed run. */
  ghost predicate TwoChain(a: byte, b: byte, s: seq<byte>, w: seq<byte>)
    requires s != [] && |s| + |w| >= 2
  {
    && (forall i :: 2 <= i < |s| ==> s[i] == if (|s| - 1 - i) % 2 == 0 then a else b)
    && s[0] == a
    && (|s| >= 2 ==> s[1] == b)
    && (if |s| % 2 == 0 then b == Swap(a) else Plain(a) && (|s| == 1 || Plain(b)))
    && (|s| == 1 ==> Plain(w[0]))
  }

  lemma {:induction false} TwoBack(a: byte, b: byte, s: seq<byte>, w: seq<byte>, i: nat)
    requires 2 <= i < |s| && Shifted(s + ([b, a] + w), 2, s, w)
    ensures s[i] == if (|s| - 1 - i) % 2 == 0 then a else b
    decreases |s| - i
  {
    var x := s + ([b, a] + w);
    assert s[i] == x[2 + i];
    if i + 2 < |s| {
      TwoBack(a, b, s, w, i + 2);
    }
  }

  lemma CrossTwo(a: byte, b: byte, s: seq<byte>, w: seq<byte>)
    requires s != [] && |s| + |w| >= 2
    ensures
      var x := s + ([b, a] + w);
      x[0] == a && x[1] == b && SwapFirstTwo(x[2..]) == s + w <==> TwoChain(a, b, s, w)
  {
    var x := s + ([b, a] + w);
    ShiftedIff(x, 2, s, w);
    assert x[|s|] == b && x[|s| + 1] == a && forall i :: 0 <= i < |w| ==> x[2 + |s| + i] == w[i];
    hide SwapFirstTwo;
    if x[0] == a && x[1] == b && Shifted(x, 2, s, w) {
      TwoForward(a, b, s, w);
    }
    if TwoChain(a, b, s, w) {
      TwoBackward(a, b, s, w);
    }
  }

  lemma TwoForward(a: byte, b: byte, s: seq<byte>, w: seq<byte>)
    requires s != [] && |s| + |w| >= 2 && Shifted(s + ([b, a] + w), 2, s, w)
    requires var x := s + ([b, a] + w); x[0] == a && x[1] == b
    ensures TwoChain(a, b, s, w)
  {
    var x := s + ([b, a] + w);
    forall i | 2 <= i < |s| ensures s[i] == if (|s| - 1 - i) % 2 == 0 then a else b {
      TwoBack(a, b, s, w, i);
    }
    assert s[0] == Swap(x[2]);
    assert |s| >= 2 ==> s[1] == Swap(x[3]);
    assert |s| == 1 ==> w[0] == Swap(x[3]) && x[3] == w[0];
    assert x[|s|] == b && x[|s| + 1] == a;
  }

  lemma TwoBackward(a: byte, b: byte, s: seq<byte>, w: seq<byte>)
    requires s != [] && |s| + |w| >= 2 && TwoChain(a, b, s, w)
    ensures Shifted(s + ([b, a] + w), 2, s, w)
    ensures var x := s + ([b, a] + w); x[0] == a && x[1] == b
  {
    var x := s + ([b, a] + w);
    assert x[|s|] == b && x[|s| + 1] == a && forall i :: 0 <= i < |w| ==> x[2 + |s| + i] == w[i];
    forall i | 2 <= i < |s| ensures s[i] == x[2 + i] {
      if i + 2 < |s| {
        assert x[2 + i] == s[i + 2];
      }
    }
  }

  ghost predicate Mirrored(s: seq<byte>, r: seq<byte>) {
    && |s| == |r|
    && (forall i :: 0 <= i < |s| ==> s[i] == r[|r| - 1 - i])
    && (forall j :: 0 <= j < |r| ==> r[j] == s[|s| - 1 - j])
  }

  lemma ReverseMirrors(r: seq<byte>)
    ensures Mirrored(Reverse(r), r)
  {
    ReverseAt(r);
    var s := Reverse(r);
    forall j | 0 <= j < |r| ensures r[j] == s[|s| - 1 - j] {
      assert s[|s| - 1 - j] == r[|r| - 1 - (|s| - 1 - j)];
    }
  }

  lemma OneChainOf(h: byte, r: seq<byte>, s: seq<byte>, w: seq<byte>, next: byte)
    requires r != [] && |r| + |w| >= 2 && Mirrored(s, r) && (|r| == 1 ==> next == w[0])
    ensures OneChain(h, s, w) <==> RepeatsOne(h, r, next)
  {
    if OneChain(h, s, w) {
      forall j | 0 <= j < |r| ensures r[j] == if j == |r| - 2 then Swap(h) else h {
        assert r[j] == s[|s| - 1 - j];
      }
    }
    if RepeatsOne(h, r, next) {
      forall i | 0 <= i < |s| ensures s[i] == if i == 1 then Swap(h) else h {
        assert s[i] == r[|r| - 1 - i];
      }
    }
  }

  lemma TwoChainOf(a: byte, b: byte, r: seq<byte>, s: seq<byte>, w: seq<byte>, next: byte)
    requires r != [] && |r| + |w| >= 2 && Mirrored(s, r) && (|r| == 1 ==> next == w[0])
    ensures TwoChain(a, b, s, w) <==> RepeatsTwo(a, b, r, next)
  {
    assert r[|r| - 1] == s[0] && (|r| >= 2 ==> r[|r| - 2] == s[1]);
    if TwoChain(a, b, s, w) {
      forall j | 0 <= j < |r| - 2 ensures r[j] == if j % 2 == 0 then a else b {
        assert r[j] == s[|s| - 1 - j] && |s| - 1 - (|s| - 1 - j) == j;
      }
    }
    if RepeatsTwo(a, b, r, next) {
      forall i | 2 <= i < |s| ensures s[i] == if (|s| - 1 - i) % 2 == 0 then a else b {
        assert s[i] == r[|r| - 1 - i];
      }
    }
  }

  /** A run in two parts. */
  lemma RunInTwo<T>(u: seq<T>, r: seq<T>, rest: seq<T>, m: T -> bool)
    requires IsRun(u, m) && IsRun(r, m) && (rest != [] ==> !m(rest[0]))
    ensures ReverseRuns((u + r) + rest, m) == Reverse(r) + (Reverse(u) + ReverseRuns(rest, m))
  {
    hide ReverseRuns, Reverse;
    RunThenRest(u + r, rest, m);
    ReverseConcat(u, r);
    ConcatAssociative(Reverse(r), Reverse(u), ReverseRuns(rest, m));
  }

  lemma TwoThen<T>(p: seq<T>, n: nat)
    requires |p| >= 2 + n
    ensures p == ([p[0], p[1]] + p[2..][..n]) + p[2..][n..]
    ensures p == [p[0]] + (([p[1]] + p[2..][..n]) + p[2..][n..])
  {
  }

  /** The reversed payload, and the reversed packet, when a run crosses the header. */
  lemma WindCrossing(p: seq<byte>, k: byte)
    requires |p| >= 4 && k != 0 && Crosses(p, k)
    ensures
      var n := RunLength(p[2..], MultipleOf(k));
      && n > 0
      && (var s, w := Reverse(p[2..][..n]), Wind(p[2..][n..], k);
         && Wind(p[2..], k) == s + w
         && Wind(p, k) == (if p[0] % k == 0 then s + ([p[1], p[0]] + w) else [p[0]] + (s + ([p[1]] + w)))
         && (n == 1 ==> w != [] && w[0] == p[3]))
  {
    var m := MultipleOf(k);
    var q := p[2..];
    var n := RunLength(q, m);
    assert m(q[0]) && n > 0;
    var r, rest := q[..n], q[n..];
    hide ReverseRuns, Reverse, RunLength;
    TakeDrop(q, n);
    RunThenRest(r, rest, m);
    ReverseRunsKeepsClass(rest, m);
    TwoThen(p, n);
    if p[0] % k == 0 {
      RunInTwo([p[0], p[1]], r, rest, m);
      ReversePair(p[0], p[1]);
    } else {
      BreakThenRest(p[0], ([p[1]] + r) + rest, m);
      RunInTwo([p[1]], r, rest, m);
      ReverseSingle(p[1]);
    }
  }

  lemma ReverseSingle<T>(a: T)
    ensures Reverse([a]) == [a]
  {
  }

  lemma ReversePair<T>(a: T, b: T)
    ensures Reverse([a, b]) == [b, a]
  {
    assert [a, b][1..] == [b];
  }

  lemma CrossingTwo(p: seq<byte>, k: byte)
    requires |p| >= 4 && k != 0 && !IsInit(p[2], p[3]) && Crosses(p, k) && p[0] % k == 0
    ensures Survives(p, k) <==> CrossingSurvives(p, k)
  {
    var n := RunLength(p[2..], MultipleOf(k));
    var r, rest := p[2..][..n], p[2..][n..];
    var s, w := Reverse(r), Wind(rest, k);
    WindCrossing(p, k);
    hide Survives, Wind, Reverse, RunLength, SwapFirstTwo, RepeatsTwo, TwoChain, Mirrored;
    SurvivesIff(p, k);
    CrossTwo(p[0], p[1], s, w);
    ReverseMirrors(r);
    TwoChainOf(p[0], p[1], r, s, w, p[3]);
    TwoEnds(p[0], p[1], s, w);
    FirstTwo(Wind(p, k), p);
  }

  lemma FirstTwo<T>(x: seq<T>, p: seq<T>)
    requires |x| >= 2 && |p| >= 2
    ensures x[..2] == p[..2] <==> x[0] == p[0] && x[1] == p[1]
  {
    if x[..2] == p[..2] {
      assert x[0] == x[..2][0] == p[..2][0] && x[1] == x[..2][1] == p[..2][1];
    }
  }

  lemma CrossingOne(p: seq<byte>, k: byte)
    requires |p| >= 4 && k != 0 && !IsInit(p[2], p[3]) && Crosses(p, k) && p[0] % k != 0
    ensures Survives(p, k) <==> CrossingSurvives(p, k)
  {
    var n := RunLength(p[2..], MultipleOf(k));
    var r, rest := p[2..][..n], p[2..][n..];
    var s, w := Reverse(r), Wind(rest, k);
    WindCrossing(p, k);
    hide Survives, Wind, Reverse, RunLength, SwapFirstTwo, RepeatsOne, OneChain, Mirrored;
    SurvivesIff(p, k);
    CrossOne(p[1], s, w);
    ReverseMirrors(r);
    OneChainOf(p[1], r, s, w, p[3]);
    OneEnds(p[1], s, w);
    FirstTwo(Wind(p, k), p);
    DropOne(p[0], s + ([p[1]] + w));
  }

  lemma DropOne<T>(a: T, y: seq<T>)
    requires |y| >= 1
    ensures ([a] + y)[2..] == y[1..] && ([a] + y)[1] == y[0]
  {
  }

  /** When a run crosses the header, its bytes decide. */
  lemma CrossingCase(p: seq<byte>, k: byte)
    requires |p| >= 4 && k != 0 && !IsInit(p[2], p[3]) && Crosses(p, k)
    ensures Survives(p, k) <==> CrossingSurvives(p, k)
  {
    hide Survives, CrossingSurvives;
    if p[0] % k == 0 {
      CrossingTwo(p, k);
    } else {
      CrossingOne(p, k);
    }
  }

  lemma OneEnds(h: byte, s: seq<byte>, w: seq<byte>)
    requires s != [] && |s| + |w| >= 2
    ensures
      var y := s + ([h] + w);
      && (OneChain(h, s, w) ==> (y[1] == 127 <==> h == 127))
      && y[|y| - 1] == (if w == [] then h else w[|w| - 1])
  {
  }

  lemma TwoEnds(a: byte, b: byte, s: seq<byte>, w: seq<byte>)
    requires s != [] && |s| + |w| >= 2
    ensures
      var y := s + ([b, a] + w);
      && (TwoChain(a, b, s, w) ==> (y[2] == 127 <==> a == 127))
      && y[|y| - 1] == (if w == [] then a else w[|w| - 1])
  {
  }

  /**
   The exact condition on the bytes of any packet of at least 4 bytes that is not an INIT packet, for any key:
   a run that crosses the header must repeat itself in the stated way, and otherwise the header must survive its
   own reversal and the reversed payload must not hit the two special cases.
   */
  lemma SurvivesIffSplit(p: seq<byte>, k: byte)
    requires |p| >= 4 && k != 0 && !IsInit(p[2], p[3])
    ensures Survives(p, k) <==>
      if Crosses(p, k) then CrossingSurvives(p, k)
      else HeaderSurvives(p, k) && PayloadSurvives(Wind(p[2..], k))
  {
    hide Survives, Wind, CrossingSurvives, PayloadSurvives;
    if Crosses(p, k) {
      CrossingCase(p, k);
    } else {
      SplitCase(p, k);
    }
  }

  // ---------- header bytes in practice ----------

  /** The filler 254 is no multiple of any key the server hands out. */
  lemma FillerIsSafe(k: byte)
    requires 6 <= k <= 12
    ensures 254 % k != 0
  {
  }
}
