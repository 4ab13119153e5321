/**
 The ring buffers of src/socket.cpp as values: positions are advanced with `(pos + 1) & mask`, which is
 wrapping around the size exactly because sizes are powers of two.
 */
module Ring {
  import opened Bytes

  // ---------- masks ----------

  function BitAnd(a: nat, b: nat): nat {
    if a == 0 || b == 0 then 0 else a % 2 * (b % 2) + 2 * BitAnd(a / 2, b / 2)
  }

  ghost predicate PowerOfTwo(n: nat) {
    n == 1 || (n > 0 && n % 2 == 0 && PowerOfTwo(n / 2))
  }

  /** The remainder of `a` by `n`. */
  function Wrap(a: nat, n: nat): (r: nat)
    requires n > 0
    ensures r < n
  {
    if a < n then a else Wrap(a - n, n)
  }

  lemma WrapSmall(a: nat, n: nat)
    requires a < n
    ensures Wrap(a, n) == a
  {
  }

  lemma {:induction false} WrapHalves(a: nat, h: nat)
    requires h > 0
    ensures Wrap(a, 2 * h) == a % 2 + 2 * Wrap(a / 2, h)
    decreases a
  {
    if a >= 2 * h {
      WrapHalves(a - 2 * h, h);
      assert (a - 2 * h) / 2 == a / 2 - h && (a - 2 * h) % 2 == a % 2;
    }
  }

  /** Masking with a power of two minus one is wrapping around it. */
  lemma {:induction false} MaskIsWrap(a: nat, n: nat)
    requires PowerOfTwo(n)
    ensures BitAnd(a, n - 1) == Wrap(a, n)
    decreases n
  {
    if n == 1 {
      WrapOne(a);
    } else {
      var h := n / 2;
      MaskIsWrap(a / 2, h);
      WrapHalves(a, h);
      assert (n - 1) / 2 == h - 1 && (n - 1) % 2 == 1;
      if a == 0 {
        assert BitAnd(a, n - 1) == 0;
      }
    }
  }

  lemma WrapOne(a: nat)
    ensures Wrap(a, 1) == 0
  {
  }

  lemma {:induction false} WrapAdd(a: nat, b: nat, n: nat)
    requires n > 0
    ensures Wrap(Wrap(a, n) + b, n) == Wrap(a + b, n)
  {
    if a >= n {
      WrapAdd(a - n, b, n);
    }
  }

  /** Two positions that are the same slot stay so when both move on. */
  lemma WrapTogether(a: nat, b: nat, d: nat, n: nat)
    requires n > 0 && Wrap(a, n) == Wrap(b, n)
    ensures Wrap(a + d, n) == Wrap(b + d, n)
  {
    WrapAdd(a, d, n);
    WrapAdd(b, d, n);
  }

  /** Within one turn no slot is reached twice. */
  lemma {:induction false} WrapApart(a: nat, b: nat, n: nat)
    requires a < b < a + n
    ensures Wrap(a, n) != Wrap(b, n)
  {
    if a >= n {
      WrapApart(a - n, b - n, n);
    }
  }

  /** The size check: halve while even, then only 1 may be left. */
  method CheckPowerOfTwo(size0: nat) returns (ok: bool)
    requires size0 > 0
    ensures ok <==> PowerOfTwo(size0)
  {
    var size := size0;
    while size % 2 == 0
      invariant size > 0 && (PowerOfTwo(size) <==> PowerOfTwo(size0))
      decreases size
    {
      size := size / 2;
    }
    ok := size <= 1;
  }

  // ---------- queues ----------

  /** The slot that holds element number `i` after get position `g`. */
  function Slot(n: nat, g: nat, i: nat): (k: nat)
    requires n > 0
    ensures k < n
  {
    Wrap(g + 1 + i, n)
  }

  /** The put position, moved on with the mask, is the slot of the next element. */
  lemma NextSlot(p: nat, g: nat, i: nat, n: nat)
    requires PowerOfTwo(n) && Wrap(p, n) == Wrap(g + i, n)
    ensures BitAnd(p + 1, n - 1) == Wrap(p + 1, n) == Slot(n, g, i) == Wrap(g + (i + 1), n)
  {
    MaskIsWrap(p + 1, n);
    WrapTogether(p, g + i, 1, n);
  }

  /** The elements still to be taken: `used` slots, starting just after the get position. */
  ghost function Queue<T>(buf: seq<T>, g: nat, used: nat): (q: seq<T>)
    requires used <= |buf| && |buf| > 0
    ensures |q| == used
  {
    seq(used, i requires 0 <= i < used => buf[Slot(|buf|, g, i)])
  }

  /** Writing one slot past the last element appends. */
  lemma PutAppends<T>(buf: seq<T>, g: nat, used: nat, x: T)
    requires used < |buf|
    ensures var k := Slot(|buf|, g, used); Queue(buf[k := x], g, used + 1) == Queue(buf, g, used) + [x]
  {
    var n := |buf|;
    var k := Slot(n, g, used);
    forall i | 0 <= i < used
      ensures Slot(n, g, i) != k
    {
      WrapApart(g + 1 + i, g + 1 + used, n);
    }
  }

  /** Counting one element more without writing it appends whatever its slot holds. */
  lemma QueueMore<T>(buf: seq<T>, g: nat, used: nat)
    requires used < |buf|
    ensures Queue(buf, g, used + 1) == Queue(buf, g, used) + [buf[Slot(|buf|, g, used)]]
  {
  }

  /** Moving the get position on drops elements from the front. */
  lemma GetDrops<T>(buf: seq<T>, g: nat, used: nat, k: nat)
    requires k <= used <= |buf| && |buf| > 0
    ensures Queue(buf, Wrap(g + k, |buf|), used - k) == Queue(buf, g, used)[k..]
  {
    var n := |buf|;
    var q, r := Queue(buf, Wrap(g + k, n), used - k), Queue(buf, g, used)[k..];
    forall i | 0 <= i < used - k
      ensures q[i] == r[i]
    {
      WrapAdd(g + k, 1 + i, n);
    }
  }
}
