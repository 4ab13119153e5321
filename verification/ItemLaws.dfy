/**
 What each request of a player does, said of how many items are where: when it is refused, how much it moves, and
 that it touches nothing else.
 */
module ItemLaws {
  import opened Bytes
  import opened Ids
  import opened Items
  import opened ItemRuns

  // ---------- counting ----------

  /** A count goes over all stacks. */
  lemma CountNext(s: seq<Stack>, st: Stack, x: int)
    ensures Count([], x) == 0
    ensures Count(s + [st], x) == Count(s, x) + (if st.id == x then st.amount else 0)
  {
    SumOne(s, st, OfStack(x));
  }

  lemma OnFloorNext(floor: seq<FloorItem>, it: FloorItem, x: int)
    ensures OnFloor([], x) == 0
    ensures OnFloor(floor + [it], x) == OnFloor(floor, x) + (if it.id == x then it.amount else 0)
  {
    SumOne(floor, it, OfFloor(x));
  }

  lemma InChestNext(c: Chest, it: ChestItem, x: int)
    ensures OfChest(x)(c.(items := [])) == 0
    ensures OfChest(x)(c.(items := c.items + [it])) == OfChest(x)(c) + (if it.id == x then it.amount else 0)
  {
    SumOne(c.items, it, OfChestItem(x));
  }

  lemma InChestsNext(chests: seq<Chest>, c: Chest, x: int)
    ensures InChests([], x) == 0 && InChests(chests + [c], x) == InChests(chests, x) + OfChest(x)(c)
  {
    SumOne(chests, c, OfChest(x));
  }

  predicate NothingAnywhere(h: Holdings) {
    h.inventory == [] && h.locker == [] && h.gold == 0 && forall k :: 0 <= k < |h.doll| ==> h.doll[k] == 0
  }

  /** Nothing anywhere is nothing owned; a stack, a worn item and gold (item 1) in the bank count for what they are. */
  lemma OwnedExact(h: Holdings, st: Stack, i: nat, id: int, x: int)
    requires i < |h.doll|
    ensures NothingAnywhere(h) && x != 0 ==> Owned(h, x) == 0
    ensures Owned(h.(inventory := h.inventory + [st]), x) == Owned(h, x) + (if st.id == x then st.amount else 0)
    ensures Owned(h.(locker := h.locker + [st]), x) == Owned(h, x) + (if st.id == x then st.amount else 0)
    ensures Owned(h.(doll := h.doll[i := id]), x)
      == Owned(h, x) + (if id == x then 1 else 0) - (if h.doll[i] == x then 1 else 0)
    ensures Owned(h.(gold := h.gold + st.amount), x) == Owned(h, x) + (if x == 1 then st.amount else 0)
  {
    CountNext(h.inventory, st, x);
    CountNext(h.locker, st, x);
    SumUpdate(h.doll, i, id, OfSlot(x));
    if (forall k :: 0 <= k < |h.doll| ==> h.doll[k] == 0) && x != 0 {
      NothingWorn(h.doll, x);
    }
    hide Sum;
  }

  lemma {:induction false} NothingWorn(doll: seq<int>, x: int)
    requires (forall k :: 0 <= k < |doll| ==> doll[k] == 0) && x != 0
    ensures Sum(doll, OfSlot(x)) == 0
  {
    if doll != [] {
      NothingWorn(doll[1..], x);
    }
  }

  /** The total over a world takes in every character, every chest and the floor, each once. */
  lemma TotalNext(w: World, h: Holdings, c: Chest, it: FloorItem, x: int)
    ensures Total(World([], [], []), x) == 0
    ensures Total(w.(chars := w.chars + [h]), x) == Total(w, x) + Owned(h, x)
    ensures Total(w.(chests := w.chests + [c]), x) == Total(w, x) + OfChest(x)(c)
    ensures Total(w.(floor := w.floor + [it]), x) == Total(w, x) + (if it.id == x then it.amount else 0)
  {
    SumOne(w.chars, h, OfHoldings(x));
    InChestsNext(w.chests, c, x);
    OnFloorNext(w.floor, it, x);
  }

  /** What is held of an item is the amount of its first stack. */
  lemma HeldExact(s: seq<Stack>, id: int, i: nat)
    ensures (forall st :: st in s ==> st.id != id) ==> Held(s, id) == 0
    ensures i < |s| && s[i].id == id && (forall j :: 0 <= j < i ==> s[j].id != id) ==> Held(s, id) == s[i].amount
  {
    if i < |s| && s[i].id == id && (forall j :: 0 <= j < i ==> s[j].id != id) {
      IndexIs(s, id, i);
    }
  }

  predicate Has(s: seq<Stack>, id: int) {
    exists i :: 0 <= i < |s| && s[i].id == id
  }

  // ---------- inventories ----------

  /**
   Adding to an inventory: an unknown item, nothing, or what overflows an int is refused; a new stack gets all of it,
   one that was there is filled up to the item limit.
   */
  lemma PutExact(r: Rules, s: seq<Stack>, id: int, amount: int, x: int)
    requires r.Valid()
    ensures
      var (ok, t) := Put(r, s, id, amount);
      && (ok <==> amount > 0 && 0 < id < |r.items| && (Has(s, id) ==> Held(s, id) + amount <= 0x7fff_ffff))
      && (!ok ==> t == s)
      && (ok ==> Held(t, id) == if Has(s, id) then Min(Held(s, id) + amount, r.maxItem) else amount)
      && (x != id ==> Held(t, x) == Held(s, x))
  {
    var i := Index(s, id);
    assert Has(s, id) <==> i < |s|;
    var t := Put(r, s, id, amount).1;
    if t != s {
      IndexIs(t, id, i);
      if x != id {
        OtherStack(s, t, i, x);
      }
    }
  }

  /** Changing or adding a stack of something else leaves the first stack of `x` alone. */
  lemma OtherStack(s: seq<Stack>, t: seq<Stack>, i: nat, x: int)
    requires i <= |s| && i < |t| && t[i].id != x && (i < |s| ==> s[i].id != x)
    requires |t| == (if i < |s| then |s| else |s| + 1)
    requires forall j :: 0 <= j < |s| && j != i ==> t[j] == s[j]
    ensures Held(t, x) == Held(s, x)
  {
    var k := Index(s, x);
    if k < |s| {
      IndexIs(t, x, k);
    } else {
      IndexIs(t, x, |t|);
    }
  }

  /**
   Taking away: refused for nothing or without a stack; otherwise the first stack loses the amount, or goes when no
   more than that is in it.
   */
  lemma TakenExact(s: seq<Stack>, id: int, amount: int, x: int)
    requires Stacked(s)
    ensures
      var (ok, t) := Taken(s, id, amount);
      && (ok <==> amount > 0 && Has(s, id))
      && (!ok ==> t == s)
      && Count(t, x) == Count(s, x) - (if ok && x == id then Min(amount, Held(s, id)) else 0)
      && (ok && amount < Held(s, id) ==> |t| == |s| && Held(t, id) == Held(s, id) - amount)
      && (ok && amount >= Held(s, id) ==> |t| == |s| - 1)
  {
    var i := Index(s, id);
    assert Has(s, id) <==> i < |s|;
    hide Sum;
    if amount > 0 && i < |s| {
      assert s[i] in s;
      SumRemove(s, i, OfStack(x));
      SumUpdate(s, i, Stack(id, s[i].amount - amount), OfStack(x));
      if amount < s[i].amount {
        IndexIs(Taken(s, id, amount).1, id, i);
      }
    }
  }

  // ---------- how much a character can take ----------

  /**
   A character can take `k` more of an item if and only if that many are there, the item limit allows as many, and,
   where weight counts, it is not overweight and would not be with them.
   */
  lemma CanHoldIff(r: Rules, h: Holdings, id: int, amount: int, k: int)
    requires r.Valid() && k > 0
    ensures k <= CanHold(r, h, id, amount) <==>
      && k <= amount && k <= r.maxItem
      && (!r.enforceWeight || h.unlimited
          || (Weight(r, h) <= h.maxWeight
              && (0 < id < |r.items| ==> Weight(r, h) + k * r.items[id].weight <= h.maxWeight)))
  {
    hide Weight;
    if r.enforceWeight && !h.unlimited && Weight(r, h) <= h.maxWeight && r.Known(id) {
      if r.Get(id).weight == 0 {
        assert k * 0 == 0;
      } else {
        RoomIff(h.maxWeight - Weight(r, h), r.Get(id).weight, amount, k);
        hide Room;
      }
    }
  }

  lemma RoomIff(space: int, weight: nat, amount: int, k: int)
    requires 0 <= space && 0 < weight
    ensures k <= Room(space, weight, amount) <==> k <= amount && k * weight <= space
  {
    var q := space / weight;
    assert q * weight <= space < q * weight + weight;
    if k <= q {
      Product(k, q, weight);
    } else {
      Product(q + 1, k, weight);
    }
  }

  lemma Product(a: int, b: int, c: nat)
    requires a <= b
    ensures a * c <= b * c
  {
    assert (b - a) * c >= 0;
  }

  /** So it is the greatest such number, and of nothing it is nothing. */
  lemma CanHoldGreatest(r: Rules, h: Holdings, id: int, amount: int)
    requires r.Valid() && amount >= 0
    ensures
      var n := CanHold(r, h, id, amount);
      && 0 <= n <= Min(amount, r.maxItem)
      && (n < Min(amount, r.maxItem) ==>
            r.enforceWeight && !h.unlimited && Weight(r, h) + (n + 1) * r.Get(id).weight > h.maxWeight)
  {
    hide Weight, CanHold;
    var n := CanHold(r, h, id, amount);
    CanHoldIff(r, h, id, amount, n + 1);
    assert (n + 1) * r.Get(id).weight >= 0;
  }

  // ---------- chests ----------

  predicate InChest(items: seq<ChestItem>, id: int) {
    exists i :: 0 <= i < |items| && items[i].id == id
  }

  lemma ChestHeldExact(items: seq<ChestItem>, id: int, i: nat)
    ensures !InChest(items, id) ==> ChestHeld(items, id) == 0
    ensures i < |items| && items[i].id == id && (forall j :: 0 <= j < i ==> items[j].id != id)
      ==> ChestHeld(items, id) == items[i].amount
  {
    if i < |items| && items[i].id == id && (forall j :: 0 <= j < i ==> items[j].id != id) {
      FirstIs(items, OfChestId(id), i);
    }
  }

  /** What players have put in is counted apart from what was spawned. */
  lemma {:induction false} UserItemsNext(items: seq<ChestItem>, it: ChestItem)
    ensures UserItems([]) == 0 && UserItems(items + [it]) == UserItems(items) + (if it.slot == 0 then 1 else 0)
  {
    if items == [] {
      assert ([] + [it])[1..] == [];
    } else {
      UserItemsNext(items[1..], it);
      assert (items + [it])[1..] == items[1..] + [it];
    }
  }

  /**
   A player's items go into a chest, all of them, if and only if they fit: on top of what is there, or, as a new item,
   without using up the places for spawns.
   */
  lemma ChestPutExact(c: Chest, id: int, amount: int)
    ensures
      var (n, d) := ChestPut(c, id, amount, 0);
      var accepted :=
        && amount > 0
        && (if InChest(c.items, id) then
              ChestHeld(c.items, id) + amount <= 0x7fff_ffff && ChestHeld(c.items, id) + amount <= c.maxChest
            else
              |c.items| < c.chestSlots && amount <= c.maxChest && UserItems(c.items) + c.slots < c.chestSlots);
      && n == (if accepted then amount else 0)
      && (!accepted ==> d == c)
      && (accepted ==> ChestHeld(d.items, id) == ChestHeld(c.items, id) + amount && d == c.(items := d.items))
  {
    var i := ChestIndex(c.items, id);
    assert InChest(c.items, id) <==> i < |c.items|;
    var d := ChestPut(c, id, amount, 0).1;
    if d != c {
      FirstIs(d.items, OfChestId(id), i);
    }
  }

  /** A spawn goes in front, if there is a place. */
  lemma ChestSpawnExact(c: Chest, id: int, amount: int, slot: int)
    requires slot != 0
    ensures ChestPut(c, id, amount, slot) ==
      if amount > 0 && |c.items| < c.chestSlots && amount <= c.maxChest
      then (amount, c.(items := [ChestItem(id, amount, slot)] + c.items))
      else (0, c)
  {
  }

  /**
   Of what is in a chest some is taken, and the rest is a player's from then on; or all of it goes. Nothing else in
   the chest changes.
   */
  lemma ChestTakenExact(c: Chest, id: int, amount: int, i: nat)
    requires i < |c.items| && c.items[i].id == id && (forall j :: 0 <= j < i ==> c.items[j].id != id)
    ensures
      var d := ChestTaken(c, id, amount);
      && d == c.(items := d.items)
      && d.items[..i] == c.items[..i]
      && (amount < c.items[i].amount ==>
            d.items[i..] == [ChestItem(id, c.items[i].amount - amount, 0)] + c.items[i + 1..])
      && (amount >= c.items[i].amount ==> d.items[i..] == c.items[i + 1..])
  {
    FirstIs(c.items, OfChestId(id), i);
  }

  /** The spawns of the slot that an item came from, and no others, start counting their time anew. */
  lemma MarkedExact(spawns: seq<Spawn>, items: seq<ChestItem>, id: int, now: int, i: nat, j: nat)
    requires i < |items| && items[i].id == id && (forall j :: 0 <= j < i ==> items[j].id != id)
    requires j < |spawns|
    ensures
      var after := MarkedFor(spawns, items, id, now);
      && |after| == |spawns| && after[j].slot == spawns[j].slot
      && after[j].lastTaken ==
           if items[i].slot != 0 && spawns[j].slot == items[i].slot then now else spawns[j].lastTaken
  {
    FirstIs(items, OfChestId(id), i);
  }

  /** The first chest at a place. */
  ghost predicate IsFirstAt(chests: seq<Chest>, x: int, y: int, k: nat) {
    && k < |chests| && chests[k].x == x && chests[k].y == y
    && forall j :: 0 <= j < k ==> !(chests[j].x == x && chests[j].y == y)
  }

  ghost predicate NoneAt(chests: seq<Chest>, x: int, y: int) {
    forall j :: 0 <= j < |chests| ==> !(chests[j].x == x && chests[j].y == y)
  }

  /**
   Putting into a chest: lore items, a place without a chest, more than is held, or what the chest refuses leave
   everything as it is. The amount is first cut to what the limit leaves; all of that moves.
   */
  lemma ChestAddExact(r: Rules, h: Holdings, chests: seq<Chest>, x: int, y: int, id: int, amount: int, k: nat)
    requires r.Valid() && h.Valid()
    ensures r.Get(id).special == Lore || NoneAt(chests, x, y) ==>
      ChestAdded(r, h, chests, x, y, id, amount) == (h, chests)
    ensures r.Get(id).special != Lore && IsFirstAt(chests, x, y, k) ==>
      var n := Min(amount, r.maxChest - ChestHeld(chests[k].items, id));
      var (put, c) := ChestPut(chests[k], id, n, 0);
      ChestAdded(r, h, chests, x, y, id, amount) ==
        if n > 0 && n <= Held(h.inventory, id) && put == n
        then (h.(inventory := Taken(h.inventory, id, n).1), chests[k := c])
        else (h, chests)
  {
    hide Taken, Held, ChestHeld, UserItems;
    var i := ChestAt(chests, x, y, 0);
    if IsFirstAt(chests, x, y, k) {
      assert i == k;
    }
  }

  /** A chest at a place from which something can be taken. */
  ghost predicate Yields(r: Rules, h: Holdings, chests: seq<Chest>, x: int, y: int, id: int, k: nat)
    requires r.Valid()
  {
    && k < |chests| && chests[k].x == x && chests[k].y == y
    && CanHold(r, h, id, ChestHeld(chests[k].items, id)) > 0
  }

  lemma {:induction false} TakingIs(r: Rules, h: Holdings, chests: seq<Chest>, x: int, y: int, id: int, i: nat)
    requires r.Valid() && i <= |chests|
    ensures
      var (k, n) := ChestTaking(r, h, chests, x, y, id, i);
      if n > 0 then
        && i <= k && Yields(r, h, chests, x, y, id, k) && n == CanHold(r, h, id, ChestHeld(chests[k].items, id))
        && (forall j :: i <= j < k ==> !Yields(r, h, chests, x, y, id, j))
      else forall j :: i <= j < |chests| ==> !Yields(r, h, chests, x, y, id, j)
    decreases |chests| - i
  {
    hide CanHold, ChestHeld;
    var k := ChestAt(chests, x, y, i);
    if k < |chests| && CanHold(r, h, id, ChestHeld(chests[k].items, id)) <= 0 {
      TakingIs(r, h, chests, x, y, id, k + 1);
    }
  }

  /**
   Taking from a chest: from the first one at the place that has something the character can hold, as much as it can
   hold; without one nothing happens.
   */
  lemma ChestTakeExact(r: Rules, h: Holdings, chests: seq<Chest>, x: int, y: int, id: int, k: nat)
    requires r.Valid()
    ensures (forall j :: 0 <= j < |chests| ==> !Yields(r, h, chests, x, y, id, j)) ==>
      ChestTook(r, h, chests, x, y, id) == (h, chests)
    ensures Yields(r, h, chests, x, y, id, k) && (forall j :: 0 <= j < k ==> !Yields(r, h, chests, x, y, id, j)) ==>
      var n := CanHold(r, h, id, ChestHeld(chests[k].items, id));
      ChestTook(r, h, chests, x, y, id) ==
        (h.(inventory := Put(r, h.inventory, id, n).1), chests[k := ChestTaken(chests[k], id, n)])
  {
    hide CanHold, ChestHeld, ChestTaken, Put, ChestTaking;
    TakingIs(r, h, chests, x, y, id, 0);
  }

  // ---------- locker and bank ----------

  /** What may be stored: not gold, not nothing, not more than is held, and no new item in a full locker. */
  ghost predicate Stores(h: Holdings, id: int, amount: int) {
    && id != 1 && amount > 0 && amount <= Held(h.inventory, id)
    && (if Has(h.locker, id) then Held(h.locker, id) + amount <= 0x7fff_ffff else |h.locker| < h.lockerMax)
  }

  /** The locker is filled up to its limit. */
  lemma LockerFilled(r: Rules, h: Holdings, id: int, amount: int, x: int)
    requires r.Valid() && h.Valid() && Stores(h, id, amount)
    ensures
      var after, had := LockerAdded(r, h, id, amount), Held(h.locker, id);
      && Held(after.locker, id) == Min(had + amount, r.maxBank)
      && (x != id ==> Held(after.locker, x) == Held(h.locker, x))
      && after.inventory == Taken(h.inventory, id, Min(amount, r.maxBank - had)).1
      && after == h.(inventory := after.inventory, locker := after.locker)
  {
    var i := Index(h.locker, id);
    assert Has(h.locker, id) <==> i < |h.locker|;
    hide Sum, Taken;
    var after := LockerAdded(r, h, id, amount);
    IndexIs(after.locker, id, i);
    if x != id {
      OtherStack(h.locker, after.locker, i, x);
    }
  }

  lemma NotStored(r: Rules, h: Holdings, id: int, amount: int)
    requires !Stores(h, id, amount)
    ensures LockerAdded(r, h, id, amount) == h
  {
    assert Has(h.locker, id) <==> Index(h.locker, id) < |h.locker|;
    hide Taken;
  }

  /** Storing: the locker is filled up to its limit, and only what goes in leaves the inventory. */
  lemma LockerAddExact(r: Rules, h: Holdings, id: int, amount: int, x: int)
    requires r.Valid() && h.Valid()
    ensures
      var after, had := LockerAdded(r, h, id, amount), Held(h.locker, id);
      && (!Stores(h, id, amount) ==> after == h)
      && after == h.(inventory := after.inventory, locker := after.locker)
      && (Stores(h, id, amount) ==>
            && Held(after.locker, id) == Min(had + amount, r.maxBank)
            && (x != id ==> Held(after.locker, x) == Held(h.locker, x))
            && Count(after.inventory, x) ==
                 Count(h.inventory, x) - (if x == id then Max(0, Min(amount, r.maxBank - had)) else 0))
  {
    hide LockerAdded, Sum, Taken, Index;
    if Stores(h, id, amount) {
      LockerFilled(r, h, id, amount, x);
      TakenExact(h.inventory, id, Min(amount, r.maxBank - Held(h.locker, id)), x);
      HasHeld(h.inventory, id);
      HasHeld(h.locker, id);
    } else {
      NotStored(r, h, id, amount);
    }
  }

  lemma HasHeld(s: seq<Stack>, id: int)
    requires Stacked(s)
    ensures Has(s, id) <==> Held(s, id) > 0
    ensures Held(s, id) >= 0
  {
    var i := Index(s, id);
    if i < |s| {
      assert s[i] in s;
    }
  }

  /** Fetching: as much as the character can hold of the first stack of an item, which goes if nothing is left. */
  lemma LockerTakeExact(r: Rules, h: Holdings, id: int, i: nat)
    requires r.Valid()
    ensures !Has(h.locker, id) ==> LockerTook(r, h, id) == h
    ensures i < |h.locker| && h.locker[i].id == id && (forall j :: 0 <= j < i ==> h.locker[j].id != id) ==>
      var n := CanHold(r, h, id, h.locker[i].amount);
      var rest := h.locker[i].amount - n;
      && LockerTook(r, h, id).inventory == Put(r, h.inventory, id, n).1
      && LockerTook(r, h, id).locker ==
           h.locker[..i] + (if rest > 0 then [Stack(id, rest)] else []) + h.locker[i + 1..]
      && LockerTook(r, h, id) ==
           h.(inventory := LockerTook(r, h, id).inventory, locker := LockerTook(r, h, id).locker)
  {
    hide Put, CanHold;
    if i < |h.locker| && h.locker[i].id == id && (forall j :: 0 <= j < i ==> h.locker[j].id != id) {
      IndexIs(h.locker, id, i);
    }
  }

  /** A deposit is cut to the gold that is held, and moves as a whole if the bank's limits allow it. */
  lemma DepositExact(r: Rules, h: Holdings, amount: int, x: int)
    requires r.Valid() && h.Valid()
    ensures
      var after, n := BankAdded(r, h, amount), Min(amount, Held(h.inventory, 1));
      if amount > 0 && h.gold + n <= 0x7fff_ffff && h.gold + n <= r.maxBankGold then
        && after == h.(gold := h.gold + n, inventory := after.inventory)
        && Count(after.inventory, x) == Count(h.inventory, x) - (if x == 1 then n else 0)
      else after == h
  {
    TakenExact(h.inventory, GOLD, Min(amount, Held(h.inventory, GOLD)), x);
    HasHeld(h.inventory, GOLD);
    hide Sum, Taken, Held;
  }

  /** A withdrawal needs as much gold in the bank; it leaves the bank as a whole. */
  lemma WithdrawExact(r: Rules, h: Holdings, amount: int)
    requires r.Valid()
    ensures BankTook(r, h, amount) ==
      if 0 < amount <= h.gold then h.(gold := h.gold - amount, inventory := Put(r, h.inventory, 1, amount).1) else h
  {
    hide Put;
  }

  // ---------- floor and junk ----------

  lemma {:induction false} OnTileNext(floor: seq<FloorItem>, it: FloorItem, x: int, y: int)
    ensures OnTile([], x, y) == 0
    ensures OnTile(floor + [it], x, y) == OnTile(floor, x, y) + (if it.x == x && it.y == y then 1 else 0)
  {
    if floor == [] {
      assert ([] + [it])[1..] == [];
    } else {
      OnTileNext(floor[1..], it, x, y);
      assert (floor + [it])[1..] == floor[1..] + [it];
    }
  }

  /**
   Dropping: lore items, nothing, or more than is held stay; otherwise the amount, cut to the drop limit, leaves the
   inventory. It lies on the floor then, with the least unused id, unless the tile or the map is full.
   */
  lemma DropExact(r: Rules, h: Holdings, floor: seq<FloorItem>, id: int, amount: int, x: int, y: int, z: int)
    requires r.Valid() && h.Valid()
    ensures
      var (after, floor') := ItemDropped(r, h, floor, id, amount, x, y);
      var n := Min(amount, r.maxDrop);
      if r.Get(id).special != Lore && 0 < n <= Held(h.inventory, id) then
        && after == h.(inventory := after.inventory)
        && Count(after.inventory, z) == Count(h.inventory, z) - (if z == id then n else 0)
        && if OnTile(floor, x, y) >= r.maxTile || |floor| >= r.maxMap then floor' == floor
           else
             && |floor'| == |floor| + 1 && floor'[..|floor|] == floor
             && var it := floor'[|floor|];
                && (it.id, it.amount, it.x, it.y) == (id, n, x, y)
                && exists uid :: LeastFree(Uids(floor), uid) && it.uid == Short(uid)
      else (after, floor') == (h, floor)
  {
    TakenExact(h.inventory, id, Min(amount, r.maxDrop), z);
    HasHeld(h.inventory, id);
    hide Sum, Taken, Held, OnTile;
    assert LeastFree(Uids(floor), NextId(Uids(floor), 1));
  }

  /** Throwing away: what is held of it is gone. */
  lemma JunkExact(h: Holdings, id: int, amount: int, x: int)
    requires h.Valid()
    ensures
      var after := ItemJunked(h, id, amount);
      if 0 < amount <= Held(h.inventory, id) then
        && after == h.(inventory := after.inventory)
        && Count(after.inventory, x) == Count(h.inventory, x) - (if x == id then amount else 0)
      else after == h
  {
    TakenExact(h.inventory, id, amount, x);
    HasHeld(h.inventory, id);
    hide Sum, Taken, Held;
  }

  /**
   Picking up: as much of the item as the character can hold goes into the inventory; the rest stays where it is, with
   its id, and all of it leaves the floor when nothing is left.
   */
  lemma PickUpExact(r: Rules, h: Holdings, floor: seq<FloorItem>, uid: int, i: nat)
    requires r.Valid()
    ensures (forall it :: it in floor ==> it.uid != uid) ==> ItemGot(r, h, floor, uid) == (h, floor)
    ensures i < |floor| && floor[i].uid == uid && (forall j :: 0 <= j < i ==> floor[j].uid != uid) ==>
      var n := CanHold(r, h, floor[i].id, floor[i].amount);
      ItemGot(r, h, floor, uid) ==
        if n <= 0 then (h, floor)
        else
          (h.(inventory := Put(r, h.inventory, floor[i].id, n).1),
           if n < floor[i].amount then floor[i := floor[i].(amount := floor[i].amount - n)]
           else floor[..i] + floor[i + 1..])
  {
    hide Put, CanHold;
    if i < |floor| && floor[i].uid == uid && (forall j :: 0 <= j < i ==> floor[j].uid != uid) {
      FirstIs(floor, OfUid(uid), i);
    }
  }

  // ---------- the paperdoll ----------

  /** Which type of item each slot is for. */
  function Layout(): (types: seq<ItemType>)
    ensures |types| == 15
  {
    [Boots, Accessory, Gloves, Belt, Armor, Necklace, Hat, Shield, Weapon]
    + [Ring, Ring, Armlet, Armlet, Bracer, Bracer]
  }

  /** An item goes to a slot of its type; of two such slots, to the second unless the first is asked for. */
  lemma SlotExact(t: ItemType, subloc: int)
    ensures SlotOf(t, subloc) == -1 <==> t == NotWorn
    ensures t != NotWorn ==> Layout()[SlotOf(t, subloc)] == t
    ensures t != NotWorn && (t == Ring || t == Armlet || t == Bracer) && subloc != 0 ==>
      Layout()[SlotOf(t, subloc) - 1] == t
    ensures t != NotWorn && subloc == 0 ==> SlotOf(t, 0) == 0 || Layout()[SlotOf(t, 0) - 1] != t
  {
  }

  /** And each slot is reached, under the number under which it is emptied. */
  lemma SlotsReached(slot: nat)
    requires slot < 15
    ensures SlotOf(Layout()[slot], SublocOf(slot)) == slot
    ensures SublocOf(slot) == (if slot == 10 || slot == 12 || slot == 14 then 1 else 0)
  {
  }

  /** Both hands are asked for: a two-handed weapon next to a shield that is not worn on the back. */
  predicate HandsClash(r: Rules, weapon: int, shield: int)
    requires r.items != []
  {
    && r.Get(weapon).subtype == TwoHanded
    && (r.Get(weapon).dual || !(r.Get(shield).subtype == Arrows || r.Get(shield).subtype == Wings))
  }

  /**
   Putting on: the item must be there and suit, its slot must be free, and the hands must not clash with what is in
   the other one. Then one of it moves from the inventory to the slot, and nothing else changes.
   */
  lemma EquipExact(r: Rules, h: Holdings, id: int, subloc: int, suits: bool, x: int)
    requires r.Valid() && h.Valid()
    ensures
      var (ok, after) := Equipped(r, h, id, subloc, suits);
      var t := r.Get(id).type_;
      && (ok <==>
            && Has(h.inventory, id) && suits && t != NotWorn && h.doll[SlotOf(t, subloc)] == 0
            && !(t == Weapon && h.doll[7] != 0 && HandsClash(r, id, h.doll[7]))
            && !(t == Shield && h.doll[8] != 0 && HandsClash(r, h.doll[8], id)))
      && (!ok ==> after == h)
      && (ok ==>
            && after == h.(inventory := after.inventory, doll := h.doll[SlotOf(t, subloc) := id])
            && Count(after.inventory, x) == Count(h.inventory, x) - (if x == id then 1 else 0))
  {
    TakenExact(h.inventory, id, 1, x);
    HasHeld(h.inventory, id);
    hide Sum, Taken, Held;
  }

  /** Taking off: the first slot with the item that answers to the number is emptied into the inventory. */
  lemma UnequipExact(r: Rules, h: Holdings, id: int, subloc: int, k: nat)
    requires h.Valid()
    ensures
      id == 0 || (forall j :: 0 <= j < 15 ==> !(h.doll[j] == id && SublocOf(j) == subloc)) ==>
        Unequipped(r, h, id, subloc) == (false, h)
    ensures
      && id != 0 && k < 15 && h.doll[k] == id && SublocOf(k) == subloc
      && (forall j :: 0 <= j < k ==> !(h.doll[j] == id && SublocOf(j) == subloc)) ==>
        Unequipped(r, h, id, subloc) ==
          (true, h.(doll := h.doll[k := 0], inventory := Put(r, h.inventory, id, 1).1))
  {
    hide Put;
  }

  /** One stack of each item. */
  ghost predicate Tidy(s: seq<Stack>) {
    forall i, j :: 0 <= i < j < |s| ==> s[i].id != s[j].id
  }

  /** Taking off right away what was put on gives everything back, if the item limit allows it. */
  lemma EquipThenUnequip(r: Rules, h: Holdings, id: int, subloc: int, suits: bool, x: int)
    requires r.Valid() && h.Valid() && r.Known(id) && Tidy(h.inventory) && Held(h.inventory, id) <= r.maxItem
    requires Equipped(r, h, id, subloc, suits).0 && id !in h.doll
    ensures
      var on := Equipped(r, h, id, subloc, suits).1;
      var (ok, off) := Unequipped(r, on, id, SublocOf(SlotOf(r.Get(id).type_, subloc)));
      ok && off.doll == h.doll && Count(off.inventory, x) == Count(h.inventory, x)
  {
    var slot := SlotOf(r.Get(id).type_, subloc);
    var on := Equipped(r, h, id, subloc, suits).1;
    EquipExact(r, h, id, subloc, suits, x);
    TakenCounts(h.inventory, id, 1, x);
    LessHeld(r, h.inventory, id);
    PutCounts(r, on.inventory, id, 1, x);
    hide Sum, Taken, Put, Held, Index, Fits, Spill, HandsAllow;
    UnequipExact(r, on, id, SublocOf(slot), slot);
    assert on.doll[slot := 0] == h.doll;
  }

  lemma LessHeld(r: Rules, s: seq<Stack>, id: int)
    requires r.Valid() && r.Known(id) && Stacked(s) && Tidy(s) && Held(s, id) <= r.maxItem && Has(s, id)
    ensures Fits(r, Taken(s, id, 1).1, id, 1)
  {
    TakenExact(s, id, 1, id);
    var i, t := Index(s, id), Taken(s, id, 1).1;
    assert s[i] in s;
    if Held(s, id) == 1 {
      IndexIs(t, id, |t|);
    }
  }

  // ---------- dying ----------

  /** Of the inventory exactly the lore items stay. */
  lemma {:induction false} LoreStays(r: Rules, s: seq<Stack>, floor: seq<FloorItem>, x: int, y: int, z: int)
    requires r.Valid()
    ensures
      var kept := StacksDropped(r, s, floor, x, y).0;
      Count(kept, z) == if r.Get(z).special == Lore then Count(s, z) else 0
    decreases |s|
  {
    hide Dropped;
    if s != [] {
      if r.Get(s[0].id).special == Lore {
        LoreStays(r, s[1..], floor, x, y, z);
        var kept := StacksDropped(r, s[1..], floor, x, y).0;
        assert ([s[0]] + kept)[1..] == kept;
      } else {
        LoreStays(r, s[1..], Dropped(floor, s[0].id, s[0].amount, x, y), x, y, z);
      }
    }
  }

  /** What was on the floor stays, and what comes lies at the place of death. */
  ghost predicate Strewn(floor: seq<FloorItem>, after: seq<FloorItem>, x: int, y: int) {
    && |floor| <= |after| && after[..|floor|] == floor
    && forall i :: |floor| <= i < |after| ==> after[i].x == x && after[i].y == y
  }

  lemma DroppedStrewn(floor: seq<FloorItem>, id: int, amount: int, x: int, y: int, after: seq<FloorItem>)
    requires Strewn(Dropped(floor, id, amount, x, y), after, x, y)
    ensures Strewn(floor, after, x, y)
  {
    hide Short, NextId;
    var d := Dropped(floor, id, amount, x, y);
    assert after[..|floor|] == after[..|d|][..|floor|] == floor;
    assert after[|floor|] == after[..|d|][|floor|] == d[|floor|];
  }

  lemma {:induction false} StacksStrewn(r: Rules, s: seq<Stack>, floor: seq<FloorItem>, x: int, y: int)
    requires r.Valid()
    ensures Strewn(floor, StacksDropped(r, s, floor, x, y).1, x, y)
    decreases |s|
  {
    hide Dropped, Strewn;
    if s == [] {
      NothingStrewn(floor, x, y);
    } else if r.Get(s[0].id).special == Lore {
      StacksStrewn(r, s[1..], floor, x, y);
    } else {
      StacksStrewn(r, s[1..], Dropped(floor, s[0].id, s[0].amount, x, y), x, y);
      DroppedStrewn(floor, s[0].id, s[0].amount, x, y, StacksDropped(r, s, floor, x, y).1);
    }
  }

  lemma NothingStrewn(floor: seq<FloorItem>, x: int, y: int)
    ensures Strewn(floor, floor, x, y)
  {
  }

  /** Of what is worn exactly the lore and cursed items stay. */
  lemma {:induction false} WornAfter(r: Rules, h: Holdings, floor: seq<FloorItem>, x: int, y: int, i: nat)
    requires r.Valid() && h.Valid() && AllLore(r, h.inventory) && i <= SLOTS
    requires forall j :: 0 <= j < i ==> Stays(r, h.doll[j])
    ensures
      var (after, floor') := DollDropped(r, h, floor, x, y, i);
      && after == h.(doll := after.doll) && |after.doll| == 15 && Strewn(floor, floor', x, y)
      && forall j :: 0 <= j < 15 ==>
           after.doll[j] ==
             if r.Get(h.doll[j]).special == Lore || r.Get(h.doll[j]).special == Cursed then h.doll[j] else 0
    decreases SLOTS - i
  {
    hide Dropped, Strewn, Taken, Unequipped;
    if i == SLOTS {
      NothingStrewn(floor, x, y);
    } else {
      var id := h.doll[i];
      if Stays(r, id) {
        WornAfter(r, h, floor, x, y, i + 1);
      } else {
        OneWornDropped(r, h, i);
        var d := Dropped(floor, id, 1, x, y);
        WornAfter(r, h.(doll := h.doll[i := 0]), d, x, y, i + 1);
        DroppedStrewn(floor, id, 1, x, y, DollDropped(r, h, floor, x, y, i).1);
      }
    }
  }

  /**
   Dying: exactly the lore items stay in the inventory and exactly the lore and cursed ones on the paperdoll; locker
   and bank are untouched; everything else comes to lie at the place of death.
   */
  lemma DieExact(r: Rules, h: Holdings, floor: seq<FloorItem>, x: int, y: int, z: int)
    requires r.Valid() && h.Valid()
    ensures
      var (after, floor') := AllDropped(r, h, floor, x, y);
      && after == h.(inventory := after.inventory, doll := after.doll) && |after.doll| == 15
      && Count(after.inventory, z) == (if r.Get(z).special == Lore then Count(h.inventory, z) else 0)
      && (forall j :: 0 <= j < 15 ==>
            after.doll[j] ==
              if r.Get(h.doll[j]).special == Lore || r.Get(h.doll[j]).special == Cursed then h.doll[j] else 0)
      && Strewn(floor, floor', x, y)
  {
    hide Sum, StacksDropped, DollDropped, Strewn;
    var (kept, floor1) := StacksDropped(r, h.inventory, floor, x, y);
    StacksDroppedCounts(r, h.inventory, floor, x, y, 0);
    LoreStays(r, h.inventory, floor, x, y, z);
    StacksStrewn(r, h.inventory, floor, x, y);
    WornAfter(r, h.(inventory := kept), floor1, x, y, 0);
    StrewnTwice(floor, floor1, AllDropped(r, h, floor, x, y).1, x, y);
  }

  lemma StrewnTwice(a: seq<FloorItem>, b: seq<FloorItem>, c: seq<FloorItem>, x: int, y: int)
    requires Strewn(a, b, x, y) && Strewn(b, c, x, y)
    ensures Strewn(a, c, x, y)
  {
    assert c[..|a|] == c[..|b|][..|a|];
    assert forall i :: 0 <= i < |b| ==> c[i] == c[..|b|][i] == b[i];
  }
}
