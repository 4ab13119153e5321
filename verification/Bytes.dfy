/** Bytes and sequences, and the C++ integer conversions that several parts share. */
module Bytes {
  datatype Option<+T> = None | Some(value: T)

  const INT_MAX := 0x7fff_ffff

  /** The conversion of an int to a 16-bit `short`. */
  function Short(n: int): (r: int)
    ensures -32768 <= r < 32768
    ensures -32768 <= n < 32768 ==> r == n
  {
    (n + 32768) % 65536 - 32768
  }

  /** The C++ `unsigned char`: integers below 256. */
  newtype byte = b: int | 0 <= b < 256

  /** `b ^ 0x80` */
  function FlipTop(b: byte): byte {
    if b < 128 then b + 128 else b - 128
  }

  function Reverse<T>(s: seq<T>): (r: seq<T>)
    ensures |r| == |s|
  {
    if s == [] then [] else Reverse(s[1..]) + [s[0]]
  }

  lemma {:induction false} ReverseAt<T>(s: seq<T>)
    ensures forall i :: 0 <= i < |s| ==> Reverse(s)[i] == s[|s| - 1 - i]
  {
    if s != [] {
      ReverseAt(s[1..]);
    }
  }

  lemma ReverseReverse<T>(s: seq<T>)
    ensures Reverse(Reverse(s)) == s
  {
    ReverseAt(s);
    ReverseAt(Reverse(s));
  }

  lemma {:induction false} ReverseConcat<T>(a: seq<T>, b: seq<T>)
    ensures Reverse(a + b) == Reverse(b) + Reverse(a)
  {
    if a == [] {
      assert a + b == b;
    } else {
      ReverseConcat(a[1..], b);
      assert (a + b)[1..] == a[1..] + b;
    }
  }

  lemma ConcatAssociative<T>(a: seq<T>, b: seq<T>, c: seq<T>)
    ensures a + (b + c) == (a + b) + c
  {
  }

  lemma ConcatSplit<T>(a: seq<T>, b: seq<T>, i: nat)
    requires i <= |a|
    ensures a + b == a[..i] + (a[i..] + b)
  {
  }

  lemma DropFirst<T>(s: seq<T>, i: nat)
    requires i < |s|
    ensures s[i..] == [s[i]] + s[i + 1..]
  {
  }

  lemma ConcatEmpty<T>(s: seq<T>)
    ensures [] + s == s == s + []
  {
  }

  lemma TakeDrop<T>(s: seq<T>, i: nat)
    requires i <= |s|
    ensures s == s[..i] + s[i..]
  {
  }

  lemma ConcatParts<T>(a: seq<T>, b: seq<T>)
    ensures (a + b)[..|a|] == a && (a + b)[|a|..] == b
  {
  }

  lemma ConcatNext<T>(q: seq<T>, data: seq<T>, i: nat)
    requires i < |data|
    ensures q + data[..i] + [data[i]] == q + data[..i + 1]
  {
  }

  lemma ConcatAll<T>(q: seq<T>, data: seq<T>)
    ensures q == q + data[..0] && data[..|data|] == data
  {
  }

  /** Flattens a list of chunks. */
  function Concat<T>(chunks: seq<seq<T>>): seq<T> {
    if chunks == [] then [] else chunks[0] + Concat(chunks[1..])
  }

  function Min(a: int, b: int): int {
    if a < b then a else b
  }

  function Max(a: int, b: int): int {
    if a < b then b else a
  }

  /** `find`: the first place of `c` from `from` on, or the end. */
  function Find<T(==)>(s: seq<T>, c: T, from: nat): (i: nat)
    requires from <= |s|
    ensures from <= i <= |s|
    ensures i < |s| ==> s[i] == c
    ensures forall j :: from <= j < i ==> s[j] != c
    decreases |s| - from
  {
    if from == |s| || s[from] == c then from else Find(s, c, from + 1)
  }

  /** The first element with a property, or the end. */
  function First<T>(s: seq<T>, p: T -> bool): (i: nat)
    ensures i <= |s| && (forall j :: 0 <= j < i ==> !p(s[j]))
    ensures i < |s| ==> p(s[i])
  {
    if s == [] || p(s[0]) then 0 else 1 + First(s[1..], p)
  }

  lemma {:induction false} FirstIs<T>(s: seq<T>, p: T -> bool, i: nat)
    requires i <= |s| && (forall j :: 0 <= j < i ==> !p(s[j])) && (i < |s| ==> p(s[i]))
    ensures First(s, p) == i
  {
    if s != [] && !p(s[0]) {
      FirstIs(s[1..], p, i - 1);
    }
  }
}
