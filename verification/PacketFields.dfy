/**
 Packet bodies as in src/packet.cpp: base-253 numbers, break strings, `PacketBuilder` and `PacketReader`.
 */
module PacketFields {
  import opened Bytes

  const MAX1 := 253
  const MAX2 := 64009
  const MAX3 := 16194277
  const UINT := 0x1_0000_0000
  const FILLER: byte := 254
  const BREAK: byte := 255

  type Width = w: nat | 1 <= w <= 4 witness 1

  type uint = n: int | 0 <= n < 0x1_0000_0000

  // ---------- numbers ----------

  /** The digit one byte stands for: 254 is the filler for 0, and 0 is read as 128. */
  function Digit(b: byte): nat {
    if b == 254 then 0 else if b == 0 then 127 else b as int - 1
  }

  /** The base-253 value of four bytes. */
  function Number(b: seq<byte>): (n: uint)
    requires |b| == 4
  {
    Digit(b[3]) * MAX3 + Digit(b[2]) * MAX2 + Digit(b[1]) * MAX1 + Digit(b[0])
  }

  /**
   The four bytes of a number: its base-253 digits plus one, with the filler where the number has no such
   digit; the top digit is cut to a byte.
   */
  function NumberBytes(n: uint): (b: seq<byte>)
    ensures |b| == 4
  {
    [(n % 253 + 1) as byte,
     if n < MAX1 then FILLER else (n / MAX1 % 253 + 1) as byte,
     if n < MAX2 then FILLER else (n / MAX2 % 253 + 1) as byte,
     if n < MAX3 then FILLER else ((n / MAX3 + 1) % 256) as byte]
  }

  method ENumber(number0: uint) returns (r: seq<byte>)
    ensures r == NumberBytes(number0)
  {
    var bytes := new byte[4](_ => FILLER);
    var number: int := number0;
    var onumber := number0;
    if onumber >= MAX3 {
      bytes[3] := ((number / MAX3 + 1) % 256) as byte;
      number := number % MAX3;
    }
    DigitSplit(onumber);
    if onumber >= MAX2 {
      bytes[2] := (number / MAX2 + 1) as byte;
      number := number % MAX2;
    }
    if onumber >= MAX1 {
      bytes[1] := (number / MAX1 + 1) as byte;
      number := number % MAX1;
    }
    bytes[0] := (number + 1) as byte;
    r := bytes[..];
  }

  /** Dividing what is left of a number gives the same digits as dividing the number. */
  lemma DigitSplit(n: uint)
    ensures n % MAX3 / MAX2 == n / MAX2 % 253
    ensures n % MAX2 / MAX1 == n / MAX1 % 253 && n % MAX3 % MAX2 == n % MAX2
    ensures n % MAX2 % MAX1 == n % MAX1
    ensures n / MAX3 <= 265
    ensures n == n / MAX3 * MAX3 + n / MAX2 % 253 * MAX2 + n / MAX1 % 253 * MAX1 + n % MAX1
  {
    var a, b, c, d := n / MAX3, n % MAX3 / MAX2, n % MAX2 / MAX1, n % MAX1;
    assert n % MAX3 == b * MAX2 + n % MAX2;
    assert n % MAX2 == c * MAX1 + d;
  }

  /** Filling the places above the first `k` with the filler. */
  function Padded(b: seq<byte>): (r: seq<byte>)
    requires |b| <= 4
    ensures |r| == 4
  {
    seq(4, i requires 0 <= i < 4 => if i < |b| then b[i] else FILLER)
  }

  /** What reading `k` number bytes of `n` gives back. */
  function Kept(n: uint, k: Width): nat
  {
    if k == 1 then n % MAX1
    else if k == 2 then n % MAX2
    else if k == 3 then n % MAX3
    else if n / MAX3 == 253 || n / MAX3 > 254 then n % MAX3 + Digit(((n / MAX3 + 1) % 256) as byte) * MAX3
    else n
  }

  /** The first `k` bytes of a number read back as the number modulo 253^k. */
  lemma NumberRoundTrip(n: uint, k: Width)
    ensures Number(Padded(NumberBytes(n)[..k])) == Kept(n, k)
  {
    DigitSplit(n);
    var b := NumberBytes(n);
    var p := Padded(b[..k]);
    assert Digit(b[0]) == n % MAX1;
    assert Digit(b[1]) == n / MAX1 % 253;
    assert Digit(b[2]) == n / MAX2 % 253;
    assert forall i :: 0 <= i < k ==> p[i] == b[i];
    assert forall i :: k <= i < 4 ==> Digit(p[i]) == 0;
  }

  /** A 4-byte number reads back exactly when its top digit is not 253 and below 255. */
  lemma IntExactIff(n: uint)
    ensures Number(NumberBytes(n)) == n <==> n / MAX3 != 253 && n / MAX3 < 255
  {
    NumberRoundTrip(n, 4);
    assert Padded(NumberBytes(n)[..4]) == NumberBytes(n);
    DigitSplit(n);
  }

  /** Below 253^4 no byte of a number is 0 or the break byte. */
  lemma NumberBytesAreSafe(n: uint)
    requires n < 253 * MAX3
    ensures forall i :: 0 <= i < 4 ==> NumberBytes(n)[i] != 0 && NumberBytes(n)[i] != BREAK
  {
  }

  // ---------- fields ----------

  datatype Field =
    | ByteField(b: byte)
    | NumberField(n: uint, width: Width)
    | FixedField(s: seq<byte>)
    | BreakField(s: seq<byte>)

  datatype Shape = ByteShape | NumberShape(width: Width) | FixedShape(length: nat) | BreakShape

  datatype Value = NumberValue(n: nat) | StringValue(s: seq<byte>)

  function ShapeOf(f: Field): Shape {
    match f
    case ByteField(_) => ByteShape
    case NumberField(_, w) => NumberShape(w)
    case FixedField(s) => FixedShape(|s|)
    case BreakField(_) => BreakShape
  }

  /** Break bytes inside a break string become 'y'. */
  function Softened(s: seq<byte>, c: byte): (r: seq<byte>)
    ensures |r| == |s|
  {
    seq(|s|, i requires 0 <= i < |s| => if s[i] == c then 121 else s[i])
  }

  /** The bytes a builder appends for a field. */
  function Written(f: Field): seq<byte>
  {
    match f
    case ByteField(b) => [b]
    case NumberField(n, w) => NumberBytes(n)[..w]
    case FixedField(s) => s
    case BreakField(s) => Softened(s, BREAK) + [BREAK]
  }

  /** What the reader is promised to get for a field. */
  function Meaning(f: Field): Value
  {
    match f
    case ByteField(b) => NumberValue(b as int)
    case NumberField(n, w) => NumberValue(Kept(n, w))
    case FixedField(s) => StringValue(s)
    case BreakField(s) => StringValue(Softened(s, BREAK))
  }

  // ---------- reading ----------

  /** The value read at `pos` and the position after it. */
  function Read(data: seq<byte>, pos: nat, shape: Shape): (Value, nat)
    requires pos <= |data|
  {
    var remaining := |data| - pos;
    match shape
    case ByteShape => if remaining < 1 then (NumberValue(0), pos) else (NumberValue(data[pos] as int), pos + 1)
    case NumberShape(w) =>
      var got := Min(w, remaining);
      (NumberValue(Number(Padded(data[pos..pos + got]))), pos + got)
    case FixedShape(l) =>
      if remaining < l then (StringValue([]), pos) else (StringValue(data[pos..pos + l]), pos + l)
    case BreakShape =>
      var i := Find(data, BREAK, pos);
      if i < |data| then (StringValue(data[pos..i]), i + 1) else (StringValue([]), pos + 1)
  }

  class PacketReader {
    const data: seq<byte>
    var pos: nat

    ghost predicate Valid()
      reads this
    {
      2 <= pos <= |data|
    }

    constructor (data: seq<byte>)
      requires |data| >= 2
      ensures Valid() && this.data == data && pos == 2
    {
      this.data, pos := data, 2;
    }

    function Remaining(): nat
      requires Valid()
      reads this
    {
      |data| - pos
    }

    method GetNumber(length: Width) returns (n: uint)
      requires Valid()
      modifies this`pos
      ensures Valid() && (NumberValue(n), pos) == Read(data, old(pos), NumberShape(length))
      ensures pos == if old(pos) + length <= |data| then old(pos) + length else |data|
    {
      var bytes := new byte[4](_ => FILLER);
      var readLen := Min(length, Remaining());
      for i := 0 to readLen
        invariant pos == old(pos)
        invariant forall j :: 0 <= j < 4 ==> bytes[j] == if j < i then data[pos + j] else FILLER
      {
        bytes[i] := data[pos + i];
      }
      ghost var padded := Padded(data[pos..pos + readLen]);
      assert forall j :: 0 <= j < 4 ==> bytes[j] == padded[j];
      assert bytes[..] == padded;
      pos := pos + readLen;
      n := Number(bytes[..]);
    }

    method GetByte() returns (n: byte)
      requires Valid()
      modifies this`pos
      ensures Valid() && (NumberValue(n as int), pos) == Read(data, old(pos), ByteShape)
      ensures if old(pos) == |data| then n == 0 && pos == |data| else n == data[old(pos)] && pos == old(pos) + 1
    {
      if Remaining() < 1 {
        return 0;
      }
      n := data[pos];
      pos := pos + 1;
    }

    method GetFixedString(length: nat) returns (s: seq<byte>)
      requires Valid()
      modifies this`pos
      ensures Valid() && (StringValue(s), pos) == Read(data, old(pos), FixedShape(length))
      ensures
        if old(pos) + length > |data| then s == [] && pos == old(pos)
        else s == data[old(pos)..old(pos) + length] && pos == old(pos) + length
    {
      if Remaining() < length {
        return [];
      }
      s := data[pos..pos + length];
      pos := pos + |s|;
    }

    /**
     Without a break byte nothing is returned, yet one byte is skipped; at the end that leads past the data, and
     the reader is not to be used any more.
     */
    method GetBreakString() returns (s: seq<byte>)
      requires Valid()
      modifies this`pos
      ensures (StringValue(s), pos) == Read(data, old(pos), BreakShape)
      ensures Valid() <==> old(pos) < |data|
      ensures BREAK !in s && pos == old(pos) + |s| + 1
      ensures
        if BREAK in data[old(pos)..] then pos <= |data| && data[old(pos)..pos] == s + [BREAK]
        else s == []
    {
      var i := Find(data, BREAK, pos);
      if i < |data| {
        s := GetFixedString(i - pos);
      } else {
        s := [];
      }
      pos := pos + 1;
    }

    method GetEndString() returns (s: seq<byte>)
      requires Valid()
      modifies this`pos
      ensures Valid() && s == data[old(pos)..] && pos == |data|
    {
      s := GetFixedString(Remaining());
    }
  }

  // ---------- building ----------

  const INIT_ID: nat := 65535

  class PacketBuilder {
    var id: nat
    var data: seq<byte>
    var addSize: nat

    ghost predicate Valid()
      reads this
    {
      0 < id < 65536
    }

    constructor (family: byte, action: byte)
      ensures Valid() && data == [] && addSize == 0
      ensures id == if family == 0 && action == 0 then INIT_ID else family as int + 256 * action as int
    {
      var pid := family as int + 256 * action as int;
      id := if pid == 0 then INIT_ID else pid;
      data, addSize := [], 0;
    }

    method AddByte(b: byte)
      modifies this`data
      ensures data == old(data) + Written(ByteField(b)) == old(data) + [b]
    {
      data := data + [b];
    }

    method AddNumber(n: uint, width: Width)
      modifies this`data
      ensures data == old(data) + Written(NumberField(n, width)) == old(data) + NumberBytes(n)[..width]
    {
      var bytes := ENumber(n);
      data := data + bytes[..width];
    }

    method AddString(s: seq<byte>)
      modifies this`data
      ensures data == old(data) + Written(FixedField(s)) == old(data) + s
    {
      data := data + s;
    }

    method AddBreakString(s: seq<byte>)
      modifies this`data
      ensures data == old(data) + Written(BreakField(s))
      ensures |data| == |old(data)| + |s| + 1 && data[|data| - 1] == 255
      ensures forall i :: 0 <= i < |s| ==> data[|old(data)| + i] == if s[i] == 255 then 121 else s[i]
    {
      var temp := s;
      var at := Find(temp, BREAK, 0);
      while at < |temp|
        invariant at <= |temp| == |s|
        invariant at < |temp| ==> temp[at] == BREAK
        invariant forall j :: 0 <= j < |s| ==> temp[j] == if s[j] == BREAK && j < at then 121 else s[j]
        invariant forall j :: at <= j < |s| ==> temp[j] == s[j]
        decreases |temp| - at
      {
        temp := temp[at := 121];
        at := Find(temp, BREAK, at + 1);
      }
      assert temp == Softened(s, BREAK);
      data := data + temp;
      data := data + [BREAK];
    }

    method AddSize(size: nat)
      modifies this`addSize
      ensures addSize == old(addSize) + size
    {
      addSize := addSize + size;
    }

    method Get() returns (r: seq<byte>)
      requires Valid()
      ensures r == Packet(id, data, addSize)
      ensures |r| == |data| + 4 && r[2] as nat == id / 256 && r[3] as nat == id % 256 && r[4..] == data
    {
      var length := ENumber((|data| + 2 + addSize) % UINT);
      r := [];
      r := r + [length[0]];
      r := r + [length[1]];
      r := r + [(id / 256) as byte];
      r := r + [(id % 256) as byte];
      r := r + data;
    }
  }

  /** Length header, action, family, body. */
  function Packet(id: nat, data: seq<byte>, addSize: nat): (r: seq<byte>)
    requires id < 65536
    ensures |r| == |data| + 4
  {
    NumberBytes((|data| + 2 + addSize) % UINT)[..2] + [(id / 256) as byte, (id % 256) as byte] + data
  }

  // ---------- builder and reader are inverse ----------

  function WrittenAll(fs: seq<Field>): seq<byte>
  {
    if fs == [] then [] else Written(fs[0]) + WrittenAll(fs[1..])
  }

  function MeaningAll(fs: seq<Field>): seq<Value>
  {
    if fs == [] then [] else [Meaning(fs[0])] + MeaningAll(fs[1..])
  }

  /** Reads one field after the other; stops where a field would start past the end. */
  function ReadAll(data: seq<byte>, pos: nat, fs: seq<Field>): seq<Value>
    decreases |fs|
  {
    if fs == [] || pos > |data| then []
    else
      var (v, next) := Read(data, pos, ShapeOf(fs[0]));
      [v] + ReadAll(data, next, fs[1..])
  }

  lemma SoftenedHasNoBreak(s: seq<byte>, c: byte)
    requires c != 121
    ensures forall i :: 0 <= i < |s| ==> Softened(s, c)[i] != c
  {
  }

  /** One field, written anywhere in a packet, is read back, and the reader stands right after it. */
  lemma FieldRoundTrip(before: seq<byte>, f: Field, after: seq<byte>)
    ensures Read(before + (Written(f) + after), |before|, ShapeOf(f)) == (Meaning(f), |before| + |Written(f)|)
  {
    var w := Written(f);
    var data := before + (w + after);
    var pos := |before|;
    assert data[pos..pos + |w|] == w;
    match f
    case ByteField(b) => assert data[pos] == b;
    case NumberField(n, k) => NumberRoundTrip(n, k);
    case FixedField(s) =>
    case BreakField(s) =>
      var t := Softened(s, BREAK);
      SoftenedHasNoBreak(s, BREAK);
      var i := Find(data, BREAK, pos);
      assert forall j :: pos <= j < pos + |t| ==> data[j] == t[j - pos];
      assert data[pos + |t|] == BREAK;
      assert i == pos + |t|;
      assert data[pos..i] == t;
  }

  /** Reading back the types that were written gives the value of every field, wherever the list starts. */
  lemma {:induction false} FieldsRoundTrip(before: seq<byte>, fs: seq<Field>)
    ensures ReadAll(before + WrittenAll(fs), |before|, fs) == MeaningAll(fs)
    decreases |fs|
  {
    hide Written, Meaning, Read;
    if fs != [] {
      var w, rest := Written(fs[0]), WrittenAll(fs[1..]);
      ReadFirst(before, fs, rest);
      ConcatAssociative(before, w, rest);
      FieldsRoundTrip(before + w, fs[1..]);
    }
  }

  lemma ReadFirst(before: seq<byte>, fs: seq<Field>, rest: seq<byte>)
    requires fs != []
    ensures
      var data := before + (Written(fs[0]) + rest);
      ReadAll(data, |before|, fs) == [Meaning(fs[0])] + ReadAll(data, |before| + |Written(fs[0])|, fs[1..])
  {
    hide Written, Meaning, Read;
    FieldRoundTrip(before, fs[0], rest);
  }

  /** The length header of a packet reads back as the body length, modulo 253^2. */
  lemma LengthHeader(id: nat, data: seq<byte>, addSize: nat)
    requires id < 65536 && |data| + 2 + addSize < UINT
    ensures Number(Padded(Packet(id, data, addSize)[..2])) == (|data| + 2 + addSize) % MAX2
  {
    var n := |data| + 2 + addSize;
    var h := NumberBytes(n)[..2];
    assert Packet(id, data, addSize)[..2] == h by {
      assert n % UINT == n;
      HeaderFirst(h, [(id / 256) as byte, (id % 256) as byte], data);
    }
    NumberRoundTrip(n, 2);
  }

  lemma HeaderFirst(a: seq<byte>, b: seq<byte>, c: seq<byte>)
    ensures (a + b + c)[..|a|] == a
  {
  }
}
