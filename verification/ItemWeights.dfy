/** The carried weight of src/character.cpp, kept in a short. */
module ItemWeights {
  import opened Bytes
  import opened Ids
  import opened Items

  function OfStackWeight(r: Rules): Stack -> int
    requires r.items != []
  {
    (st: Stack) => r.Get(st.id).weight * st.amount
  }

  function OfSlotWeight(r: Rules): int -> int
    requires r.items != []
  {
    (id: int) => if id == 0 then 0 else r.Get(id).weight
  }

  /** What everything carried and worn really weighs. */
  function TrueWeight(r: Rules, h: Holdings): int
    requires r.items != []
  {
    Sum(h.inventory, OfStackWeight(r)) + Sum(h.doll, OfSlotWeight(r))
  }

  /** The most that a single stack may weigh. */
  const STACK_LIMIT := 32518

  /** Every stack weighs at most `limit`. */
  predicate AtMost(r: Rules, s: seq<Stack>, limit: int)
    requires r.items != []
  {
    forall st :: st in s ==> 0 <= r.Get(st.id).weight * st.amount <= limit
  }

  /** No single stack weighs so much that a short could overflow. */
  predicate Light(r: Rules, s: seq<Stack>)
    requires r.items != []
  {
    AtMost(r, s, STACK_LIMIT)
  }

  lemma {:induction false} InventoryExact(r: Rules, s: seq<Stack>, w: int)
    requires r.Valid() && Light(r, s) && 0 <= w < 250
    ensures
      var end, sum := InventoryWeight(r, s, w), w + Sum(s, OfStackWeight(r));
      if sum < 250 then end == sum else 250 <= end <= 32767 && sum >= end
    decreases |s|
  {
    if s != [] {
      assert s[0] in s;
      var next := w + r.Get(s[0].id).weight * s[0].amount;
      if next < 250 {
        InventoryExact(r, s[1..], next);
      } else {
        NonNegative(r, s[1..]);
      }
    }
  }

  lemma {:induction false} NonNegative(r: Rules, s: seq<Stack>)
    requires r.Valid() && Light(r, s)
    ensures Sum(s, OfStackWeight(r)) >= 0
  {
    if s != [] {
      assert s[0] in s;
      NonNegative(r, s[1..]);
    }
  }

  lemma OneSlot(r: Rules, id: int)
    requires r.Valid()
    ensures 0 <= OfSlotWeight(r)(id) <= 255
  {
    assert r.Get(id) in r.items;
  }

  lemma {:induction false} DollExact(r: Rules, doll: seq<int>, w: int)
    requires r.Valid() && 0 <= w && w + 255 * |doll| < 32768
    ensures DollWeight(r, doll, w) == w + Sum(doll, OfSlotWeight(r))
    ensures 0 <= Sum(doll, OfSlotWeight(r)) <= 255 * |doll|
    decreases |doll|
  {
    if doll != [] {
      OneSlot(r, doll[0]);
      DollExact(r, doll[1..], w + OfSlotWeight(r)(doll[0]));
    }
  }

  /** A sum that has reached 250, or has overflowed after that, stays so. */
  lemma {:induction false} DollHeavy(r: Rules, doll: seq<int>, w: int)
    requires r.Valid() && -32768 <= w <= 32767
    requires 250 <= w || w + 255 * |doll| < 0
    requires |doll| <= SLOTS
    ensures var end := DollWeight(r, doll, w); end < 0 || end >= 250
    decreases |doll|
  {
    if doll != [] {
      OneSlot(r, doll[0]);
      DollHeavy(r, doll[1..], Short(w + OfSlotWeight(r)(doll[0])));
    }
  }

  /**
   Leaving the loop early at 250 does not show: with stacks light enough for a short, the weight is the true one
   cut to 250.
   */
  lemma WeightExact(r: Rules, h: Holdings)
    requires r.Valid() && h.Valid() && Light(r, h.inventory) && !h.unlimited
    ensures Weight(r, h) == Min(250, TrueWeight(r, h)) && TrueWeight(r, h) >= 0
  {
    hide Sum, InventoryWeight, DollWeight;
    InventoryExact(r, h.inventory, 0);
    NonNegative(r, h.inventory);
    DollExact(r, h.doll, 0);
    var w := InventoryWeight(r, h.inventory, 0);
    if w < 250 {
      DollExact(r, h.doll, w);
    } else {
      DollHeavy(r, h.doll, w);
    }
  }

  lemma {:induction false} BareDoll(r: Rules, doll: seq<int>, w: int)
    requires r.items != [] && (forall id :: id in doll ==> id == 0)
    ensures DollWeight(r, doll, w) == w && Sum(doll, OfSlotWeight(r)) == 0
  {
    if doll != [] {
      assert doll[0] in doll;
      forall id | id in doll[1..] ensures id == 0 {
        assert id in doll;
      }
      BareDoll(r, doll[1..], w);
    }
  }

  /** Heavier stacks defeat it: 65536 items of weight 1 weigh nothing. */
  lemma HeavyStackWeighsNothing(h: Holdings)
    requires h.inventory == [Stack(1, 65536)] && (forall id :: id in h.doll ==> id == 0) && !h.unlimited
    ensures
      var one := ItemData(Normal, NotWorn, NoSubtype, false, 1);
      var r := Rules([one, one], true, INT_MAX, 200, INT_MAX, INT_MAX, INT_MAX, 8, 400);
      Weight(r, h) == 0 && TrueWeight(r, h) == 65536
  {
    var one := ItemData(Normal, NotWorn, NoSubtype, false, 1);
    var r := Rules([one, one], true, INT_MAX, 200, INT_MAX, INT_MAX, INT_MAX, 8, 400);
    assert h.inventory[1..] == [];
    assert InventoryWeight(r, h.inventory, 0) == InventoryWeight(r, [], 0);
    assert Sum(h.inventory, OfStackWeight(r)) == OfStackWeight(r)(h.inventory[0]) + Sum([], OfStackWeight(r));
    assert OfStackWeight(r)(h.inventory[0]) == 65536;
    BareDoll(r, h.doll, 0);
  }

  /** The weight is right. */
  ghost predicate Exact(r: Rules, h: Holdings)
    requires r.items != []
  {
    Weight(r, h) == Min(250, TrueWeight(r, h))
  }

  /** A character, not an administrator, whose stacks all weigh at most `limit`. */
  ghost predicate Ordinary(r: Rules, h: Holdings, limit: int) {
    r.Valid() && h.Valid() && !h.unlimited && AtMost(r, h.inventory, limit)
  }

  /** Items of weight 1, and stacks of 249, 32519, 32518 and 300 of them. */
  function Feather(): ItemData {
    ItemData(Normal, NotWorn, NoSubtype, false, 1)
  }

  function Feathers(): Rules {
    var f := Feather();
    Rules([f, f, f, f, f], true, INT_MAX, 200, INT_MAX, INT_MAX, INT_MAX, 8, 400)
  }

  function Overloaded(): (h: Holdings)
    ensures |h.doll| == SLOTS && (forall id :: id in h.doll ==> id == 0)
  {
    Holdings([Stack(1, 249), Stack(2, 32519), Stack(3, 32518), Stack(4, 300)], seq(SLOTS, i => 0), [], 0, 250, false, 0)
  }

  lemma FeatherWeight(id: int)
    ensures Feathers().items != [] && Feathers().Get(id).weight == 1
  {
  }

  lemma OneMoreStack(id: int, n: int, s: seq<Stack>, w: int)
    ensures InventoryWeight(Feathers(), [Stack(id, n)] + s, w) ==
      (if Short(w + n) >= 250 then Short(w + n) else InventoryWeight(Feathers(), s, Short(w + n)))
    ensures Sum([Stack(id, n)] + s, OfStackWeight(Feathers())) == n + Sum(s, OfStackWeight(Feathers()))
  {
    FeatherWeight(id);
    hide Feathers;
    assert ([Stack(id, n)] + s)[1..] == s;
  }

  lemma OverloadedInventory()
    ensures InventoryWeight(Feathers(), Overloaded().inventory, 0) == 50
    ensures Sum(Overloaded().inventory, OfStackWeight(Feathers())) == 65586
  {
    var s4: seq<Stack> := [];
    var s3 := [Stack(4, 300)] + s4;
    var s2 := [Stack(3, 32518)] + s3;
    var s1 := [Stack(2, 32519)] + s2;
    assert Overloaded().inventory == [Stack(1, 249)] + s1;
    FeatherWeight(0);
    assert Short(249 + 32519) == -32768 && Short(-32768 + 32518) == -250;
    hide *;
    OneMoreStack(4, 300, s4, -250);
    OneMoreStack(3, 32518, s3, -32768);
    OneMoreStack(2, 32519, s2, 249);
    OneMoreStack(1, 249, s1, 0);
    NoStacks(Feathers(), 50);
  }

  lemma OverloadedIsOrdinary()
    ensures Ordinary(Feathers(), Overloaded(), STACK_LIMIT + 1)
  {
    forall st | st in Overloaded().inventory
      ensures 0 <= Feathers().Get(st.id).weight * st.amount <= STACK_LIMIT + 1
    {
      FeatherWeight(st.id);
    }
  }

  /** With one more in a single stack, 65586 items of weight 1 weigh 50. */
  lemma OverloadedWeighsFifty()
    ensures Ordinary(Feathers(), Overloaded(), STACK_LIMIT + 1)
    ensures Weight(Feathers(), Overloaded()) == 50 && TrueWeight(Feathers(), Overloaded()) == 65586
  {
    FeatherWeight(0);
    hide InventoryWeight, DollWeight, Sum, Feathers, Ordinary;
    OverloadedIsOrdinary();
    OverloadedInventory();
    BareDoll(Feathers(), Overloaded().doll, 50);
  }

  lemma NoStacks(r: Rules, w: int)
    requires r.items != []
    ensures InventoryWeight(r, [], w) == w && Sum([], OfStackWeight(r)) == 0
  {
  }

  /** The bound is the best there is: weights are right for all stacks up to a limit if and only if it is no higher. */
  lemma StackLimitIsTight(limit: int)
    ensures (forall r: Rules, h: Holdings :: Ordinary(r, h, limit) ==> Exact(r, h)) <==> limit <= STACK_LIMIT
  {
    if limit <= STACK_LIMIT {
      forall r: Rules, h: Holdings | Ordinary(r, h, limit)
        ensures Exact(r, h)
      {
        WeightExact(r, h);
      }
    } else {
      OverloadedWeighsFifty();
      assert Ordinary(Feathers(), Overloaded(), limit) && !Exact(Feathers(), Overloaded());
    }
  }

  lemma PutWeight(r: Rules, s: seq<Stack>, id: int, n: int)
    requires r.Valid() && Stacked(s) && 0 < n
    ensures Sum(Put(r, s, id, n).1, OfStackWeight(r)) <= Sum(s, OfStackWeight(r)) + n * r.Get(id).weight
  {
    hide Sum;
    var i := Index(s, id);
    var w := r.Get(id).weight;
    if i < |s| {
      var cut := Min(s[i].amount + n, r.maxItem);
      SumUpdate(s, i, Stack(id, cut), OfStackWeight(r));
      assert w * cut <= w * (s[i].amount + n);
    } else {
      SumOne(s, Stack(id, n), OfStackWeight(r));
    }
  }

  lemma {:induction false} PartOfWeight(r: Rules, s: seq<Stack>, st: Stack)
    requires r.Valid() && Stacked(s) && st in s
    ensures 0 <= r.Get(st.id).weight * st.amount <= Sum(s, OfStackWeight(r))
  {
    if s[0] != st {
      PartOfWeight(r, s[1..], st);
      assert s[0] in s && r.Get(s[0].id).weight * s[0].amount >= 0;
    } else {
      forall t | t in s ensures r.Get(t.id).weight * t.amount >= 0 {
      }
      Positive(r, s[1..]);
    }
  }

  lemma {:induction false} Positive(r: Rules, s: seq<Stack>)
    requires r.Valid() && Stacked(s)
    ensures Sum(s, OfStackWeight(r)) >= 0
  {
    if s != [] {
      assert s[0] in s && r.Get(s[0].id).weight * s[0].amount >= 0;
      Positive(r, s[1..]);
    }
  }

  /**
   Taking no more than `CanHold` allows, from a chest, a locker or the floor, never makes a character overweight.
   */
  lemma TakingKeepsWeight(r: Rules, h: Holdings, id: int, amount: int)
    requires r.Valid() && h.Valid() && Light(r, h.inventory) && r.enforceWeight && !h.unlimited
    requires CanHold(r, h, id, amount) > 0
    ensures Weight(r, h.(inventory := Put(r, h.inventory, id, CanHold(r, h, id, amount)).1)) <= h.maxWeight
  {
    hide Sum, Weight, Put;
    var n := CanHold(r, h, id, amount);
    var s := Put(r, h.inventory, id, n).1;
    var h' := h.(inventory := s);
    WeightExact(r, h);
    if !r.Known(id) {
      UnknownIsNotPut(r, h, id, amount);
    } else if h.maxWeight < 250 {
      CanHoldFits(r, h, id, amount);
      PutWeight(r, h.inventory, id, n);
      PutCounts(r, h.inventory, id, n, 0);
      DollExact(r, h.doll, 0);
      forall st | st in s ensures 0 <= r.Get(st.id).weight * st.amount <= STACK_LIMIT {
        PartOfWeight(r, s, st);
      }
      WeightExact(r, h');
    } else {
      AtMost250(r, h');
    }
  }

  lemma UnknownIsNotPut(r: Rules, h: Holdings, id: int, amount: int)
    requires r.Valid() && r.enforceWeight && !h.unlimited && !r.Known(id) && CanHold(r, h, id, amount) > 0
    ensures Put(r, h.inventory, id, CanHold(r, h, id, amount)).1 == h.inventory && Weight(r, h) <= h.maxWeight
  {
    hide Weight;
  }

  lemma AtMost250(r: Rules, h: Holdings)
    requires r.items != []
    ensures Weight(r, h) <= 250
  {
  }

  lemma CanHoldFits(r: Rules, h: Holdings, id: int, amount: int)
    requires r.Valid() && r.enforceWeight && !h.unlimited && CanHold(r, h, id, amount) > 0
    requires r.Known(id)
    ensures Weight(r, h) <= h.maxWeight
    ensures Weight(r, h) + CanHold(r, h, id, amount) * r.Get(id).weight <= h.maxWeight
  {
    hide Weight, Room;
    var w := r.Get(id).weight;
    if w != 0 {
      var n := Room(h.maxWeight - Weight(r, h), w, amount);
      assert CanHold(r, h, id, amount) == Min(n, r.maxItem) <= n;
      assert CanHold(r, h, id, amount) * w <= n * w;
    }
  }
}
