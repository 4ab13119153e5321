/** The scans of src/map.cpp that look for the lowest unused id and start over at every hit. */
module Ids {
  import opened Bytes

  predicate LeastFree(used: seq<int>, id: int) {
    && id >= 1
    && id !in used
    && (forall k :: 1 <= k < id ==> k in used)
  }

  lemma {:induction false} Pigeonhole(used: seq<int>, n: nat)
    requires forall k :: 1 <= k <= n ==> k in used
    ensures n <= |used|
    decreases n
  {
    if n > 0 {
      assert n in used;
      var p :| 0 <= p < |used| && used[p] == n;
      var others := used[..p] + used[p + 1..];
      forall k | 1 <= k <= n - 1 ensures k in others {
        assert k in used;
        var q :| 0 <= q < |used| && used[q] == k;
        assert others[if q < p then q else q - 1] == k;
      }
      Pigeonhole(others, n - 1);
    }
  }

  /** The least unused id from `id` on. */
  function NextId(used: seq<int>, id: int): (r: int)
    requires id >= 1 && (forall k :: 1 <= k < id ==> k in used)
    ensures LeastFree(used, r)
    decreases |used| + 1 - id
  {
    if id in used then Pigeonhole(used, id); NextId(used, id + 1) else id
  }

  lemma LeastFreeIsNext(used: seq<int>, id: int)
    requires LeastFree(used, id)
    ensures id == NextId(used, 1)
  {
    var r := NextId(used, 1);
    assert r < id ==> r in used;
    assert id < r ==> id in used;
  }

  /** The scan ends, finds the least positive id that no item has, and never goes further than one past their number. */
  method GenerateItemID(used: seq<int>) returns (id: int)
    ensures LeastFree(used, id) && id <= |used| + 1
  {
    id := 1;
    var i := 0;
    while i < |used|
      invariant 0 <= i <= |used| && 1 <= id
      invariant forall k :: 1 <= k < id ==> k in used
      invariant forall j :: 0 <= j < i ==> used[j] != id
      decreases |used| + 1 - id, |used| - i
    {
      if used[i] == id {
        Pigeonhole(used, id);
        id := used[i] + 1;
        i := 0;
      } else {
        i := i + 1;
      }
    }
    Pigeonhole(used, id - 1);
  }

  /** Where a byte comes in the order 1, 2, ..., 255, 0 in which the scan for an NPC index meets them. */
  function Place(b: byte): int {
    if b == 0 then 256 else b as int
  }

  /**
   The same scan on bytes wraps around at 255. It ends if some index is unused (with all 256 in use it would run
   forever) and finds the first unused one, 0 coming last.
   */
  method GenerateNPCIndex(used: seq<byte>) returns (id: byte)
    requires exists b: byte :: b !in used
    ensures id !in used
    ensures forall b: byte :: Place(b) < Place(id) ==> b in used
  {
    id := 1;
    var i := 0;
    while i < |used|
      invariant 0 <= i <= |used|
      invariant forall b: byte :: Place(b) < Place(id) ==> b in used
      invariant forall j :: 0 <= j < i ==> used[j] != id
      decreases 256 - Place(id), |used| - i
    {
      if used[i] == id {
        id := if used[i] == 255 then 0 else used[i] + 1;
        i := 0;
      } else {
        i := i + 1;
      }
    }
  }

  /** The candidate after one more scan, if that is not the last one. */
  function NextCandidate(used: seq<byte>, id: byte): byte {
    if id !in used then id else if id == 255 then 0 else id + 1
  }

  /** The candidate after `n` scans. */
  function Candidate(used: seq<byte>, n: nat): byte {
    if n == 0 then 1 else NextCandidate(used, Candidate(used, n - 1))
  }

  /** As long as every scan starts over, the candidates go through all bytes in order. */
  lemma {:induction false} CandidatesInOrder(used: seq<byte>, n: nat)
    requires n < 256 && (forall b: byte :: Place(b) <= n ==> b in used)
    ensures Place(Candidate(used, n)) == n + 1
  {
    if n > 0 {
      CandidatesInOrder(used, n - 1);
      assert Candidate(used, n - 1) in used;
    }
  }

  /** The scanning comes to an end if and only if an index is unused; with all 256 in use every scan starts over. */
  lemma ScanEndsIff(used: seq<byte>)
    ensures (exists n: nat :: Candidate(used, n) !in used) <==> exists b: byte :: b !in used
  {
    if b: byte :| b !in used {
      var first := LeastUnused(used, b);
      CandidatesInOrder(used, Place(first) - 1);
      assert Candidate(used, Place(first) - 1) == first by {
        PlaceInjective(Candidate(used, Place(first) - 1), first);
      }
    }
  }

  lemma PlaceInjective(a: byte, b: byte)
    ensures Place(a) == Place(b) <==> a == b
  {
  }

  /** The first unused index in the order of the scan. */
  lemma {:induction false} LeastUnused(used: seq<byte>, b: byte) returns (first: byte)
    requires b !in used
    ensures first !in used && forall c: byte :: Place(c) < Place(first) ==> c in used
    decreases Place(b)
  {
    first := b;
    if c: byte :| Place(c) < Place(b) && c !in used {
      first := LeastUnused(used, c);
    }
  }

  predicate AllDistinct(ids: seq<int>) {
    forall i, j :: 0 <= i < j < |ids| ==> ids[i] != ids[j]
  }

  ghost predicate AllShorts(ids: seq<int>) {
    forall i :: 0 <= i < |ids| ==> -32768 <= ids[i] <= 32767
  }

  predicate Storable(k: int) {
    1 <= k <= 32767 || k == -32768
  }

  /** The ids a scan can come out with, once stored as a short. */
  ghost function Pool(): (pool: set<int>)
    ensures forall k :: k in pool <==> 1 <= k <= 32767 || k == -32768
  {
    set k | -32768 <= k <= 32767 && Storable(k)
  }

  /** Those that are not in use. */
  ghost function Free(ids: seq<int>): set<int> {
    Pool() - (set i | 0 <= i < |ids| :: ids[i])
  }

  lemma InUse(ids: seq<int>, k: int)
    ensures k in Free(ids) <==> k in Pool() && k !in ids
  {
    var used := set i | 0 <= i < |ids| :: ids[i];
    assert k in used <==> k in ids;
  }

  /** What a scan comes out with: the least positive short that is free, or -32768 after all of them. */
  lemma NewIdStored(ids: seq<int>, id: int)
    requires AllShorts(ids) && LeastFree(ids, id)
    ensures Short(id) in Pool()
    ensures (exists k :: 1 <= k <= 32767 && k !in ids) ==> Short(id) == id <= 32767
    ensures !(exists k :: 1 <= k <= 32767 && k !in ids) ==> Short(id) == -32768
  {
    assert 32768 !in ids;
    if k :| 1 <= k <= 32767 && k !in ids {
      assert id <= k;
    } else {
      assert 1 <= id <= 32767 ==> id in ids;
      assert id == 32768;
    }
  }

  /**
   A new id stays distinct from the old ones, stored as a short, if and only if a positive one is free, or -32768
   is: there are 32768 ids in all.
   */
  lemma NewIdDistinct(ids: seq<int>, id: int)
    requires AllShorts(ids) && AllDistinct(ids) && LeastFree(ids, id)
    ensures AllDistinct(ids + [Short(id)]) <==> (exists k :: 1 <= k <= 32767 && k !in ids) || -32768 !in ids
    ensures AllDistinct(ids + [Short(id)]) <==> Free(ids) != {}
  {
    NewIdStored(ids, id);
    var s, more := Short(id), ids + [Short(id)];
    hide Short, LeastFree, Free, Pool;
    if s in ids {
      var i :| 0 <= i < |ids| && ids[i] == s;
      assert more[i] == more[|ids|] == s;
    }
    assert AllDistinct(more) <==> s !in ids;
    if s !in ids {
      InUse(ids, s);
    } else if k :| k in Free(ids) {
      InUse(ids, k);
    }
  }

  /** Every new id uses up one of them. */
  lemma NewIdTakesOne(ids: seq<int>, id: int)
    requires AllShorts(ids) && LeastFree(ids, id) && Free(ids) != {}
    ensures |Free(ids + [Short(id)])| == |Free(ids)| - 1
  {
    NewIdStored(ids, id);
    var s, more := Short(id), ids + [Short(id)];
    hide Short, LeastFree, Free, Pool;
    var f :| f in Free(ids);
    InUse(ids, f);
    InUse(ids, s);
    assert s in Free(ids);
    forall k ensures k in Free(more) <==> k in Free(ids) && k != s {
      InUse(ids, k);
      InUse(more, k);
      assert k in more <==> k in ids || k == s;
    }
    assert Free(more) == Free(ids) - {s};
  }

  /** A list that has lost its distinctness does not get it back by growing. */
  lemma StaysMixedUp(ids: seq<int>, id: int)
    ensures AllDistinct(ids + [id]) ==> AllDistinct(ids)
  {
    if AllDistinct(ids + [id]) {
      forall i, j | 0 <= i < j < |ids| ensures ids[i] != ids[j] {
        assert (ids + [id])[i] != (ids + [id])[j];
      }
    }
  }

  /** With all 32767 positive ids in use, two more items get the same one. */
  lemma IdsRunOut(ids: seq<int>, id: int)
    requires (forall k :: 1 <= k <= 32767 ==> k in ids) && (forall i :: 0 <= i < |ids| ==> ids[i] <= 32767)
    requires LeastFree(ids, id)
    ensures LeastFree(ids + [Short(id)], id) && Short(id) == -32768
  {
    assert 32768 !in ids;
    assert 1 <= id <= 32767 ==> id in ids;
    assert forall k :: k in ids ==> k in ids + [Short(id)];
  }
}
