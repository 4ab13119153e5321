/**
 What every item operation does to stacks, paperdoll, locker, gold bank, chests and floor, as functions
 on their contents, and what it costs.
 */
module Items {
  import opened Bytes
  import opened Ids

  const GOLD := 1

  datatype Special = Normal | Lore | Cursed

  datatype ItemType =
    | Weapon | Shield | Hat | Boots | Gloves | Accessory | Belt | Armor | Necklace | Ring | Armlet | Bracer | NotWorn

  datatype Subtype = NoSubtype | TwoHanded | Arrows | Wings

  datatype ItemData = ItemData(special: Special, type_: ItemType, subtype: Subtype, dual: bool, weight: nat)

  /** The item table and the limits of the configuration. */
  datatype Rules = Rules(
    items: seq<ItemData>, enforceWeight: bool, maxItem: int, maxBank: int, maxBankGold: int, maxDrop: int,
    maxChest: int, maxTile: int, maxMap: int)
  {
    ghost predicate Valid() {
      items != [] && 0 < maxItem <= INT_MAX && 0 < maxBank && (forall d :: d in items ==> d.weight < 256)
    }

    predicate Known(id: int) {
      0 < id < |items|
    }

    /** Unknown ids get the blank entry. */
    function Get(id: int): ItemData
      requires items != []
    {
      if 0 <= id < |items| then items[id] else items[0]
    }
  }

  datatype Stack = Stack(id: int, amount: int)

  /** What one character owns; `maxWeight`, `unlimited` and `lockerMax` never change here. */
  datatype Holdings = Holdings(
    inventory: seq<Stack>, doll: seq<int>, locker: seq<Stack>, gold: int,
    maxWeight: int, unlimited: bool, lockerMax: nat)
  {
    ghost predicate Valid() {
      Stacked(inventory) && Stacked(locker) && |doll| == SLOTS && gold >= 0
    }
  }

  datatype ChestItem = ChestItem(id: int, amount: int, slot: int)

  datatype Chest = Chest(x: int, y: int, items: seq<ChestItem>, maxChest: int, chestSlots: int, slots: int)

  datatype FloorItem = FloorItem(uid: int, id: int, amount: int, x: int, y: int)

  ghost predicate Stacked(s: seq<Stack>) {
    forall st :: st in s ==> 0 < st.amount <= INT_MAX
  }

  // ---------- sums ----------

  function Sum<T>(s: seq<T>, f: T -> int): int {
    if s == [] then 0 else f(s[0]) + Sum(s[1..], f)
  }

  lemma {:induction false} SumAppend<T>(s: seq<T>, t: seq<T>, f: T -> int)
    ensures Sum(s + t, f) == Sum(s, f) + Sum(t, f)
  {
    if s == [] {
      assert s + t == t;
    } else {
      SumAppend(s[1..], t, f);
      assert (s + t)[1..] == s[1..] + t;
    }
  }

  lemma SumOne<T>(s: seq<T>, v: T, f: T -> int)
    ensures Sum(s + [v], f) == Sum(s, f) + f(v)
  {
    SumAppend(s, [v], f);
    assert [v][1..] == [];
  }

  lemma SumRemove<T>(s: seq<T>, i: nat, f: T -> int)
    requires i < |s|
    ensures Sum(s[..i] + s[i + 1..], f) == Sum(s, f) - f(s[i])
  {
    SumAppend(s[..i], s[i + 1..], f);
    SumAppend(s[..i], s[i..], f);
    assert s == s[..i] + s[i..];
    assert s[i..][1..] == s[i + 1..];
  }

  lemma SumUpdate<T>(s: seq<T>, i: nat, v: T, f: T -> int)
    requires i < |s|
    ensures Sum(s[i := v], f) == Sum(s, f) - f(s[i]) + f(v)
  {
    var t := s[i := v];
    SumRemove(s, i, f);
    SumRemove(t, i, f);
    assert t[..i] == s[..i] && t[i + 1..] == s[i + 1..];
  }

  function OfStack(x: int): Stack -> int {
    (st: Stack) => if st.id == x then st.amount else 0
  }

  function OfSlot(x: int): int -> int {
    (id: int) => if id == x then 1 else 0
  }

  function OfChestItem(x: int): ChestItem -> int {
    (it: ChestItem) => if it.id == x then it.amount else 0
  }

  function OfChest(x: int): Chest -> int {
    (c: Chest) => Sum(c.items, OfChestItem(x))
  }

  function OfFloor(x: int): FloorItem -> int {
    (it: FloorItem) => if it.id == x then it.amount else 0
  }

  function Count(s: seq<Stack>, x: int): int {
    Sum(s, OfStack(x))
  }

  /** How many of an item a character owns anywhere. */
  function Owned(h: Holdings, x: int): int {
    Count(h.inventory, x) + Sum(h.doll, OfSlot(x)) + Count(h.locker, x) + (if x == GOLD then h.gold else 0)
  }

  function InChests(chests: seq<Chest>, x: int): int {
    Sum(chests, OfChest(x))
  }

  function OnFloor(floor: seq<FloorItem>, x: int): int {
    Sum(floor, OfFloor(x))
  }

  // ---------- stacks ----------

  /** Where the first stack of an item is. */
  function Index(s: seq<Stack>, id: int): (i: nat)
    ensures i <= |s| && (forall j :: 0 <= j < i ==> s[j].id != id)
    ensures i < |s| ==> s[i].id == id
  {
    First(s, OfId(id))
  }

  function OfId(id: int): Stack -> bool {
    (st: Stack) => st.id == id
  }

  lemma IndexIs(s: seq<Stack>, id: int, i: nat)
    requires i <= |s| && (forall j :: 0 <= j < i ==> s[j].id != id) && (i < |s| ==> s[i].id == id)
    ensures Index(s, id) == i
  {
    FirstIs(s, OfId(id), i);
  }

  function Held(s: seq<Stack>, id: int): int {
    var i := Index(s, id);
    if i == |s| then 0 else s[i].amount
  }

  /** Adding to an inventory: only an existing stack is cut to `maxItem`. */
  function Put(r: Rules, s: seq<Stack>, id: int, amount: int): (bool, seq<Stack>) {
    if amount <= 0 || !r.Known(id) then (false, s)
    else
      var i := Index(s, id);
      if i == |s| then (true, s + [Stack(id, amount)])
      else if s[i].amount + amount > INT_MAX then (false, s)
      else (true, s[i := Stack(id, Min(s[i].amount + amount, r.maxItem))])
  }

  /** Taking away: a stack that would become empty goes. */
  function Taken(s: seq<Stack>, id: int, amount: int): (bool, seq<Stack>) {
    if amount <= 0 then (false, s)
    else
      var i := Index(s, id);
      if i == |s| then (false, s)
      else if s[i].amount < 0 || s[i].amount - amount <= 0 then (true, s[..i] + s[i + 1..])
      else (true, s[i := Stack(id, s[i].amount - amount)])
  }

  /** How much is lost when adding: not only what does not fit, but all that a stack had above the limit. */
  function Spill(r: Rules, s: seq<Stack>, id: int, amount: int): int {
    if !r.Known(id) then amount
    else if Index(s, id) == |s| then 0
    else if Held(s, id) + amount > INT_MAX then amount
    else if Held(s, id) + amount > r.maxItem then Held(s, id) + amount - r.maxItem
    else 0
  }

  /** There is room for all of it. */
  predicate Fits(r: Rules, s: seq<Stack>, id: int, amount: int) {
    r.Known(id) && (Index(s, id) == |s| || Held(s, id) + amount <= Min(r.maxItem, INT_MAX))
  }

  lemma PutCounts(r: Rules, s: seq<Stack>, id: int, amount: int, x: int)
    requires r.Valid() && Stacked(s) && 0 < amount <= INT_MAX
    ensures Stacked(Put(r, s, id, amount).1)
    ensures Count(Put(r, s, id, amount).1, x) == Count(s, x) + (if x == id then amount - Spill(r, s, id, amount) else 0)
    ensures Spill(r, s, id, amount) >= 0
    ensures Spill(r, s, id, amount) == 0 <==> Fits(r, s, id, amount)
  {
    hide Sum;
    var i := Index(s, id);
    if i < |s| {
      SumUpdate(s, i, Stack(id, Min(s[i].amount + amount, r.maxItem)), OfStack(x));
    } else {
      SumOne(s, Stack(id, amount), OfStack(x));
    }
  }

  lemma TakenCounts(s: seq<Stack>, id: int, amount: int, x: int)
    requires Stacked(s)
    ensures Stacked(Taken(s, id, amount).1)
    ensures 0 <= amount <= Held(s, id) ==>
      Count(Taken(s, id, amount).1, x) == Count(s, x) - (if x == id then amount else 0)
  {
    hide Sum;
    var i := Index(s, id);
    if i < |s| {
      SumRemove(s, i, OfStack(x));
      SumUpdate(s, i, Stack(id, s[i].amount - amount), OfStack(x));
    }
  }

  // ---------- weight ----------

  /** The sum over the inventory in a short, left as soon as it reaches 250. */
  function InventoryWeight(r: Rules, s: seq<Stack>, weight: int): int
    requires r.items != []
  {
    if s == [] then weight
    else
      var w := Short(weight + r.Get(s[0].id).weight * s[0].amount);
      if w >= 250 then w else InventoryWeight(r, s[1..], w)
  }

  function DollWeight(r: Rules, doll: seq<int>, weight: int): int
    requires r.items != []
  {
    if doll == [] then weight
    else DollWeight(r, doll[1..], if doll[0] == 0 then weight else Short(weight + r.Get(doll[0]).weight))
  }

  function Weight(r: Rules, h: Holdings): int
    requires r.items != []
  {
    var w := DollWeight(r, h.doll, InventoryWeight(r, h.inventory, 0));
    if h.unlimited then 0 else if w < 0 || w > 250 then 250 else w
  }

  lemma WeightOfBelongings(r: Rules, h: Holdings, h': Holdings)
    requires r.items != [] && h.inventory == h'.inventory && h.doll == h'.doll && h.unlimited == h'.unlimited
    ensures Weight(r, h) == Weight(r, h')
  {
  }

  /** How many items of a weight fit into some space, at most `amount`. */
  function Room(space: int, weight: nat, amount: int): (n: int)
    requires 0 <= space && 0 < weight
    ensures n <= amount && (amount >= 0 ==> 0 <= n) && (n > 0 ==> n * weight <= space)
  {
    assert space / weight * weight <= space;
    if space / weight < amount then space / weight
    else
      RoomLemma(space, weight, amount);
      amount
  }

  lemma RoomLemma(space: int, weight: nat, amount: int)
    requires 0 <= space && 0 < weight && amount <= space / weight
    ensures amount * weight <= space
  {
    assert amount * weight <= space / weight * weight;
  }

  /** How many more of an item a character may take, by weight and by the item limit. */
  function CanHold(r: Rules, h: Holdings, id: int, amount: int): (n: int)
    requires r.Valid()
    ensures n > 0 ==> n <= amount
    ensures amount >= 0 ==> n >= 0
    ensures n <= r.maxItem
  {
    var w := Weight(r, h);
    var n :=
      if !r.enforceWeight || h.unlimited then amount
      else if w > h.maxWeight then 0
      else if !r.Known(id) || r.Get(id).weight == 0 then amount
      else Room(h.maxWeight - w, r.Get(id).weight, amount);
    Min(n, r.maxItem)
  }

  // ---------- chests ----------

  function ChestIndex(items: seq<ChestItem>, id: int): (i: nat)
    ensures i <= |items| && (forall j :: 0 <= j < i ==> items[j].id != id)
    ensures i < |items| ==> items[i].id == id
  {
    First(items, OfChestId(id))
  }

  function OfChestId(id: int): ChestItem -> bool {
    (it: ChestItem) => it.id == id
  }

  function ChestHeld(items: seq<ChestItem>, id: int): int {
    var i := ChestIndex(items, id);
    if i == |items| then 0 else items[i].amount
  }

  function UserItems(items: seq<ChestItem>): nat {
    if items == [] then 0 else (if items[0].slot == 0 then 1 else 0) + UserItems(items[1..])
  }

  /**
   Adding for a player (slot 0) or for a spawn: how much was added, all or nothing, and the new contents. Only a
   player's items join an item that is there, and they keep clear of the places for spawns.
   */
  function ChestPut(c: Chest, id: int, amount: int, slot: int): (int, Chest) {
    var i := ChestIndex(c.items, id);
    if amount <= 0 then (0, c)
    else if slot == 0 && i < |c.items| then
      var sum := c.items[i].amount + amount;
      if sum > INT_MAX || sum > c.maxChest then (0, c)
      else (amount, c.(items := c.items[i := c.items[i].(amount := sum)]))
    else if |c.items| >= c.chestSlots || amount > c.maxChest then (0, c)
    else if slot != 0 then (amount, c.(items := [ChestItem(id, amount, slot)] + c.items))
    else if UserItems(c.items) + c.slots >= c.chestSlots then (0, c)
    else (amount, c.(items := c.items + [ChestItem(id, amount, 0)]))
  }

  /** Taking some of an item out; a spawned stack that is broken becomes a player's. */
  function ChestTaken(c: Chest, id: int, amount: int): Chest {
    var i := ChestIndex(c.items, id);
    if i == |c.items| then c
    else if amount < c.items[i].amount then
      c.(items := c.items[i := ChestItem(id, c.items[i].amount - amount, 0)])
    else c.(items := c.items[..i] + c.items[i + 1..])
  }

  lemma ChestPutCounts(c: Chest, id: int, amount: int, slot: int, x: int)
    ensures
      var (n, c') := ChestPut(c, id, amount, slot);
      && (n == 0 || n == amount > 0)
      && OfChest(x)(c') == OfChest(x)(c) + (if x == id then n else 0)
  {
    var i := ChestIndex(c.items, id);
    var f := OfChestItem(x);
    assert ([ChestItem(id, amount, slot)] + c.items)[1..] == c.items;
    assert Sum([ChestItem(id, amount, slot)] + c.items, f) == f(ChestItem(id, amount, slot)) + Sum(c.items, f);
    hide Sum;
    if i < |c.items| {
      SumUpdate(c.items, i, c.items[i].(amount := c.items[i].amount + amount), f);
    }
    SumOne(c.items, ChestItem(id, amount, 0), f);
  }

  /** A spawn remembers when it was last taken from. */
  datatype Spawn = Spawn(slot: int, lastTaken: int)

  function Marked(spawns: seq<Spawn>, slot: int, now: int): (marked: seq<Spawn>)
    ensures |marked| == |spawns|
  {
    seq(|spawns|, i requires 0 <= i < |spawns| =>
      if spawns[i].slot == slot then spawns[i].(lastTaken := now) else spawns[i])
  }

  /** The spawns after the first item of a kind was taken from: those of its slot, if it has one, are marked. */
  function MarkedFor(spawns: seq<Spawn>, items: seq<ChestItem>, id: int, now: int): seq<Spawn> {
    var i := ChestIndex(items, id);
    if i < |items| && items[i].slot != 0 then Marked(spawns, items[i].slot, now) else spawns
  }

  lemma ChestTakenCounts(c: Chest, id: int, amount: int, x: int)
    requires 0 < amount <= ChestHeld(c.items, id)
    ensures OfChest(x)(ChestTaken(c, id, amount)) == OfChest(x)(c) - (if x == id then amount else 0)
  {
    hide Sum;
    var i := ChestIndex(c.items, id);
    SumUpdate(c.items, i, ChestItem(id, c.items[i].amount - amount, 0), OfChestItem(x));
    SumRemove(c.items, i, OfChestItem(x));
  }

  /** The first chest at a place, from `i` on. */
  function ChestAt(chests: seq<Chest>, x: int, y: int, i: nat): (k: nat)
    requires i <= |chests|
    ensures i <= k <= |chests| && (forall j :: i <= j < k ==> !(chests[j].x == x && chests[j].y == y))
    ensures k < |chests| ==> chests[k].x == x && chests[k].y == y
    decreases |chests| - i
  {
    if i == |chests| || (chests[i].x == x && chests[i].y == y) then i else ChestAt(chests, x, y, i + 1)
  }

  // ---------- floor ----------

  function Uids(floor: seq<FloorItem>): (u: seq<int>)
    ensures |u| == |floor| && (forall i :: 0 <= i < |u| ==> u[i] == floor[i].uid)
  {
    seq(|floor|, i requires 0 <= i < |floor| => floor[i].uid)
  }

  /** Ids are distinct shorts, amounts positive. */
  ghost predicate FloorValid(floor: seq<FloorItem>) {
    && AllShorts(Uids(floor)) && AllDistinct(Uids(floor))
    && (forall it :: it in floor ==> 0 < it.amount <= INT_MAX)
  }

  /** How many more items can get an id of their own. */
  ghost function IdsLeft(floor: seq<FloorItem>): nat {
    |Free(Uids(floor))|
  }

  function Dropped(floor: seq<FloorItem>, id: int, amount: int, x: int, y: int): seq<FloorItem> {
    floor + [FloorItem(Short(NextId(Uids(floor), 1)), id, amount, x, y)]
  }

  lemma DroppedCounts(floor: seq<FloorItem>, id: int, amount: int, x: int, y: int, z: int)
    ensures OnFloor(Dropped(floor, id, amount, x, y), z) == OnFloor(floor, z) + (if z == id then amount else 0)
  {
    SumOne(floor, FloorItem(Short(NextId(Uids(floor), 1)), id, amount, x, y), OfFloor(z));
  }

  /** A dropped item gets an id of its own if and only if one is left, and then uses it up. */
  lemma DroppedValid(floor: seq<FloorItem>, id: int, amount: int, x: int, y: int)
    requires FloorValid(floor) && 0 < amount <= INT_MAX
    ensures FloorValid(Dropped(floor, id, amount, x, y)) <==> IdsLeft(floor) > 0
    ensures IdsLeft(floor) > 0 ==> IdsLeft(Dropped(floor, id, amount, x, y)) == IdsLeft(floor) - 1
  {
    var uids := Uids(floor);
    var uid := NextId(uids, 1);
    DroppedUids(floor, id, amount, x, y);
    DroppedAmounts(floor, id, amount, x, y);
    hide Free, Short, AllDistinct, Dropped, Uids;
    NewIdDistinct(uids, uid);
    if IdsLeft(floor) > 0 {
      NewIdTakesOne(uids, uid);
    }
  }

  lemma DroppedUids(floor: seq<FloorItem>, id: int, amount: int, x: int, y: int)
    ensures Uids(Dropped(floor, id, amount, x, y)) == Uids(floor) + [Short(NextId(Uids(floor), 1))]
    ensures AllShorts(Uids(floor)) ==> AllShorts(Uids(Dropped(floor, id, amount, x, y)))
  {
    hide NextId;
  }

  lemma DroppedAmounts(floor: seq<FloorItem>, id: int, amount: int, x: int, y: int)
    requires (forall it :: it in floor ==> 0 < it.amount <= INT_MAX) && 0 < amount <= INT_MAX
    ensures forall it :: it in Dropped(floor, id, amount, x, y) ==> 0 < it.amount <= INT_MAX
  {
    hide NextId;
  }

  /** Dropping more does not make two equal ids differ. */
  lemma DroppedInvalid(floor: seq<FloorItem>, id: int, amount: int, x: int, y: int)
    requires !FloorValid(floor)
    ensures !FloorValid(Dropped(floor, id, amount, x, y))
  {
    var uids := Uids(floor);
    var floor' := Dropped(floor, id, amount, x, y);
    assert Uids(floor') == uids + [Short(NextId(uids, 1))];
    assert forall i :: 0 <= i < |floor| ==> floor'[i] == floor[i] && Uids(floor')[i] == uids[i];
    if FloorValid(floor') {
      StaysMixedUp(uids, Short(NextId(uids, 1)));
      forall it | it in floor ensures 0 < it.amount <= INT_MAX {
        assert it in floor';
      }
    }
  }

  function OnTile(floor: seq<FloorItem>, x: int, y: int): nat {
    if floor == [] then 0 else (if floor[0].x == x && floor[0].y == y then 1 else 0) + OnTile(floor[1..], x, y)
  }

  predicate Full(r: Rules, floor: seq<FloorItem>, x: int, y: int) {
    OnTile(floor, x, y) >= r.maxTile || |floor| >= r.maxMap
  }

  function FloorIndex(floor: seq<FloorItem>, uid: int): (i: nat)
    ensures i <= |floor| && (forall j :: 0 <= j < i ==> floor[j].uid != uid)
    ensures i < |floor| ==> floor[i].uid == uid
  {
    First(floor, OfUid(uid))
  }

  function OfUid(uid: int): FloorItem -> bool {
    (it: FloorItem) => it.uid == uid
  }

  function PickedUp(floor: seq<FloorItem>, uid: int, amount: int): seq<FloorItem> {
    var i := FloorIndex(floor, uid);
    if amount < 0 || i == |floor| then floor
    else if amount < floor[i].amount then floor[i := floor[i].(amount := floor[i].amount - amount)]
    else floor[..i] + floor[i + 1..]
  }

  lemma PickedUpCounts(floor: seq<FloorItem>, uid: int, amount: int, x: int)
    requires FloorIndex(floor, uid) < |floor| && 0 <= amount <= floor[FloorIndex(floor, uid)].amount
    ensures OnFloor(PickedUp(floor, uid, amount), x)
      == OnFloor(floor, x) - (if x == floor[FloorIndex(floor, uid)].id then amount else 0)
  {
    hide Sum;
    var i := FloorIndex(floor, uid);
    SumUpdate(floor, i, floor[i].(amount := floor[i].amount - amount), OfFloor(x));
    SumRemove(floor, i, OfFloor(x));
  }

  lemma ShrunkValid(floor: seq<FloorItem>, i: nat, amount: int)
    requires FloorValid(floor) && i < |floor| && 0 < amount <= INT_MAX
    ensures FloorValid(floor[i := floor[i].(amount := amount)])
  {
    var after := floor[i := floor[i].(amount := amount)];
    assert Uids(after) == Uids(floor);
  }

  lemma RemovedValid(floor: seq<FloorItem>, i: nat)
    requires FloorValid(floor) && i < |floor|
    ensures FloorValid(floor[..i] + floor[i + 1..])
  {
    var after := floor[..i] + floor[i + 1..];
    var u := Uids(floor);
    assert Uids(after) == u[..i] + u[i + 1..];
  }

  lemma PickedUpValid(floor: seq<FloorItem>, uid: int, amount: int)
    requires FloorValid(floor) && 0 <= amount
    ensures FloorValid(PickedUp(floor, uid, amount)) && |PickedUp(floor, uid, amount)| <= |floor|
  {
    hide FloorValid;
    var i := FloorIndex(floor, uid);
    if i < |floor| {
      AmountInRange(floor, i);
      if amount < floor[i].amount {
        ShrunkValid(floor, i, floor[i].amount - amount);
      } else {
        RemovedValid(floor, i);
      }
    }
  }

  lemma AmountInRange(floor: seq<FloorItem>, i: nat)
    requires FloorValid(floor) && i < |floor|
    ensures 0 < floor[i].amount <= INT_MAX
  {
  }

  // ---------- paperdoll ----------

  const SLOTS := 15
  const SHIELD := 7
  const WEAPON := 8
  const RING2 := 10
  const ARMLET2 := 12
  const BRACER2 := 14

  /** The slot an item goes to, or -1. */
  function SlotOf(t: ItemType, subloc: int): (i: int)
    ensures -1 <= i < SLOTS
    ensures i == WEAPON <==> t == Weapon
    ensures i == SHIELD <==> t == Shield
  {
    match t
    case Boots => 0
    case Accessory => 1
    case Gloves => 2
    case Belt => 3
    case Armor => 4
    case Necklace => 5
    case Hat => 6
    case Shield => SHIELD
    case Weapon => WEAPON
    case Ring => if subloc == 0 then 9 else RING2
    case Armlet => if subloc == 0 then 11 else ARMLET2
    case Bracer => if subloc == 0 then 13 else BRACER2
    case NotWorn => -1
  }

  function SublocOf(slot: int): int {
    if slot == RING2 || slot == ARMLET2 || slot == BRACER2 then 1 else 0
  }

  /** A shield that leaves a hand free, as far as this weapon cares. */
  predicate HandsAgree(r: Rules, weapon: int, shield: int)
    requires r.items != []
  {
    r.Get(weapon).subtype == TwoHanded ==>
      !r.Get(weapon).dual && (r.Get(shield).subtype == Arrows || r.Get(shield).subtype == Wings)
  }

  /** Both hands are not asked for twice. */
  predicate HandsOk(r: Rules, doll: seq<int>)
    requires r.items != [] && |doll| == SLOTS
  {
    doll[WEAPON] != 0 && doll[SHIELD] != 0 ==> HandsAgree(r, doll[WEAPON], doll[SHIELD])
  }

  predicate HandsAllow(r: Rules, doll: seq<int>, id: int)
    requires r.items != [] && |doll| == SLOTS
  {
    && (r.Get(id).type_ == Weapon && doll[SHIELD] != 0 ==> HandsAgree(r, id, doll[SHIELD]))
    && (r.Get(id).type_ == Shield && doll[WEAPON] != 0 ==> HandsAgree(r, doll[WEAPON], id))
  }

  /** Wearing an item; `suits` are the requirements of gender, class, level and stats. */
  function Equipped(r: Rules, h: Holdings, id: int, subloc: int, suits: bool): (bool, Holdings)
    requires r.Valid() && h.Valid()
  {
    var slot := SlotOf(r.Get(id).type_, subloc);
    if Held(h.inventory, id) == 0 || !HandsAllow(r, h.doll, id) || !suits then (false, h)
    else if slot == -1 || h.doll[slot] != 0 then (false, h)
    else (true, h.(doll := h.doll[slot := id], inventory := Taken(h.inventory, id, 1).1))
  }

  /** The first slot from `i` on that has an item and answers to `subloc`. */
  function WornAt(doll: seq<int>, id: int, subloc: int, i: nat): (k: nat)
    requires i <= |doll|
    ensures i <= k <= |doll|
    ensures k < |doll| ==> doll[k] == id && SublocOf(k) == subloc
    ensures forall j :: i <= j < k ==> !(doll[j] == id && SublocOf(j) == subloc)
    decreases |doll| - i
  {
    if i == |doll| || (doll[i] == id && SublocOf(i) == subloc) then i else WornAt(doll, id, subloc, i + 1)
  }

  function Unequipped(r: Rules, h: Holdings, id: int, subloc: int): (bool, Holdings)
    requires h.Valid()
  {
    var k := WornAt(h.doll, id, subloc, 0);
    if id == 0 || k == |h.doll| then (false, h)
    else (true, h.(doll := h.doll[k := 0], inventory := Put(r, h.inventory, id, 1).1))
  }
}
