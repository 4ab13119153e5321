/** The requests that move items, over whole runs of several characters on one map. */
module ItemRuns {
  import opened Bytes
  import opened Ids
  import opened Items

  // ---------- the requests, once their guards have passed ----------

  function ChestAdded(r: Rules, h: Holdings, chests: seq<Chest>, x: int, y: int, id: int, amount: int):
    (Holdings, seq<Chest>)
    requires r.Valid()
  {
    var k := ChestAt(chests, x, y, 0);
    if r.Get(id).special == Lore || k == |chests| then (h, chests)
    else
      var n := Min(amount, r.maxChest - ChestHeld(chests[k].items, id));
      if Held(h.inventory, id) < n then (h, chests)
      else
        var (added, c) := ChestPut(chests[k], id, n, 0);
        if added == 0 then (h, chests)
        else (h.(inventory := Taken(h.inventory, id, n).1), chests[k := c])
  }

  /** The first chest at a place from which anything can be taken, and how much; otherwise nothing. */
  function ChestTaking(r: Rules, h: Holdings, chests: seq<Chest>, x: int, y: int, id: int, i: nat): (t: (nat, int))
    requires r.Valid() && i <= |chests|
    ensures t.1 >= 0
    ensures t.1 > 0 ==> t.0 < |chests| && t.1 <= ChestHeld(chests[t.0].items, id) && t.1 <= r.maxItem
    decreases |chests| - i
  {
    var k := ChestAt(chests, x, y, i);
    if k == |chests| then (k, 0)
    else
      var n := CanHold(r, h, id, ChestHeld(chests[k].items, id));
      if n > 0 then (k, n) else ChestTaking(r, h, chests, x, y, id, k + 1)
  }

  function ChestTook(r: Rules, h: Holdings, chests: seq<Chest>, x: int, y: int, id: int): (Holdings, seq<Chest>)
    requires r.Valid()
  {
    var (k, n) := ChestTaking(r, h, chests, x, y, id, 0);
    if n == 0 then (h, chests)
    else (h.(inventory := Put(r, h.inventory, id, n).1), chests[k := ChestTaken(chests[k], id, n)])
  }

  function LockerAdded(r: Rules, h: Holdings, id: int, amount: int): Holdings {
    if id == GOLD || amount <= 0 || Held(h.inventory, id) < amount then h
    else
      var i := Index(h.locker, id);
      if i < |h.locker| then
        if h.locker[i].amount + amount > INT_MAX then h
        else
          var n := Min(amount, r.maxBank - h.locker[i].amount);
          h.(locker := h.locker[i := Stack(id, h.locker[i].amount + n)], inventory := Taken(h.inventory, id, n).1)
      else if |h.locker| >= h.lockerMax then h
      else
        var n := Min(amount, r.maxBank);
        h.(locker := h.locker + [Stack(id, n)], inventory := Taken(h.inventory, id, n).1)
  }

  function LockerTook(r: Rules, h: Holdings, id: int): Holdings
    requires r.Valid()
  {
    var i := Index(h.locker, id);
    if i == |h.locker| then h
    else
      var n := CanHold(r, h, id, h.locker[i].amount);
      var rest := h.locker[i].amount - n;
      h.(inventory := Put(r, h.inventory, id, n).1,
         locker := if rest <= 0 then h.locker[..i] + h.locker[i + 1..] else h.locker[i := Stack(id, rest)])
  }

  function BankAdded(r: Rules, h: Holdings, amount: int): Holdings {
    var n := Min(amount, Held(h.inventory, GOLD));
    if amount <= 0 || h.gold + n > INT_MAX || h.gold + n > r.maxBankGold then h
    else h.(gold := h.gold + n, inventory := Taken(h.inventory, GOLD, n).1)
  }

  function BankTook(r: Rules, h: Holdings, amount: int): Holdings {
    if amount <= 0 || h.gold - amount < 0 then h
    else h.(gold := h.gold - amount, inventory := Put(r, h.inventory, GOLD, amount).1)
  }

  /** The item leaves the inventory whether or not the floor has room for it. */
  function ItemDropped(r: Rules, h: Holdings, floor: seq<FloorItem>, id: int, amount: int, x: int, y: int):
    (Holdings, seq<FloorItem>)
    requires r.Valid()
  {
    var n := Min(amount, r.maxDrop);
    if r.Get(id).special == Lore || n <= 0 || Held(h.inventory, id) < n then (h, floor)
    else
      (h.(inventory := Taken(h.inventory, id, n).1),
       if Full(r, floor, x, y) then floor else Dropped(floor, id, n, x, y))
  }

  function ItemJunked(h: Holdings, id: int, amount: int): Holdings {
    if amount <= 0 || Held(h.inventory, id) < amount then h
    else h.(inventory := Taken(h.inventory, id, amount).1)
  }

  function ItemGot(r: Rules, h: Holdings, floor: seq<FloorItem>, uid: int): (Holdings, seq<FloorItem>)
    requires r.Valid()
  {
    var i := FloorIndex(floor, uid);
    if i == |floor| then (h, floor)
    else
      var n := CanHold(r, h, floor[i].id, floor[i].amount);
      if n <= 0 then (h, floor)
      else (h.(inventory := Put(r, h.inventory, floor[i].id, n).1), PickedUp(floor, uid, n))
  }

  /** The inventory part of dying: everything but lore items goes to the floor. */
  function StacksDropped(r: Rules, s: seq<Stack>, floor: seq<FloorItem>, x: int, y: int): (seq<Stack>, seq<FloorItem>)
    requires r.Valid()
    decreases |s|
  {
    if s == [] then (s, floor)
    else if r.Get(s[0].id).special == Lore then
      var (kept, floor') := StacksDropped(r, s[1..], floor, x, y);
      ([s[0]] + kept, floor')
    else StacksDropped(r, s[1..], Dropped(floor, s[0].id, s[0].amount, x, y), x, y)
  }

  predicate Stays(r: Rules, id: int)
    requires r.Valid()
  {
    id == 0 || r.Get(id).special == Lore || r.Get(id).special == Cursed
  }

  /** The paperdoll part, from slot `i` on: dropped, taken off into the inventory, deleted there. */
  function DollDropped(r: Rules, h: Holdings, floor: seq<FloorItem>, x: int, y: int, i: nat): (Holdings, seq<FloorItem>)
    requires r.Valid() && h.Valid() && i <= SLOTS
    decreases SLOTS - i
  {
    if i == SLOTS then (h, floor)
    else
      var id := h.doll[i];
      if Stays(r, id) then DollDropped(r, h, floor, x, y, i + 1)
      else
        var off := Unequipped(r, h, id, SublocOf(i)).1;
        UnequippedValid(r, h, id, SublocOf(i));
        TakenCounts(off.inventory, id, 1, 0);
        var h' := off.(inventory := Taken(off.inventory, id, 1).1);
        DollDropped(r, h', Dropped(floor, id, 1, x, y), x, y, i + 1)
  }

  function AllDropped(r: Rules, h: Holdings, floor: seq<FloorItem>, x: int, y: int): (Holdings, seq<FloorItem>)
    requires r.Valid() && h.Valid()
  {
    var (kept, floor') := StacksDropped(r, h.inventory, floor, x, y);
    StacksDroppedCounts(r, h.inventory, floor, x, y, 0);
    DollDropped(r, h.(inventory := kept), floor', x, y, 0)
  }

  lemma UnequippedValid(r: Rules, h: Holdings, id: int, subloc: int)
    requires r.Valid() && h.Valid()
    ensures Unequipped(r, h, id, subloc).1.Valid()
  {
    PutCounts(r, h.inventory, id, 1, 0);
  }

  ghost predicate AllLore(r: Rules, s: seq<Stack>)
    requires r.Valid()
  {
    forall st :: st in s ==> r.Get(st.id).special == Lore
  }

  lemma {:induction false} StacksDroppedCounts(r: Rules, s: seq<Stack>, floor: seq<FloorItem>, x: int, y: int, z: int)
    requires r.Valid() && Stacked(s)
    ensures
      var (kept, floor') := StacksDropped(r, s, floor, x, y);
      && Stacked(kept) && AllLore(r, kept)
      && Count(kept, z) + OnFloor(floor', z) == Count(s, z) + OnFloor(floor, z)
      && |floor'| <= |floor| + |s|
    decreases |s|
  {
    hide Dropped;
    if s != [] {
      if r.Get(s[0].id).special == Lore {
        StacksDroppedCounts(r, s[1..], floor, x, y, z);
        var kept := StacksDropped(r, s[1..], floor, x, y).0;
        assert ([s[0]] + kept)[1..] == kept;
      } else {
        DroppedCounts(floor, s[0].id, s[0].amount, x, y, z);
        DroppedLonger(floor, s[0].id, s[0].amount, x, y);
        StacksDroppedCounts(r, s[1..], Dropped(floor, s[0].id, s[0].amount, x, y), x, y, z);
      }
    }
  }

  lemma DroppedLonger(floor: seq<FloorItem>, id: int, amount: int, x: int, y: int)
    ensures |Dropped(floor, id, amount, x, y)| == |floor| + 1
  {
  }

  /** Taking off and deleting one worn item, when the inventory has none of it, changes only its slot. */
  lemma OneWornDropped(r: Rules, h: Holdings, i: nat)
    requires r.Valid() && h.Valid() && AllLore(r, h.inventory) && i < SLOTS && !Stays(r, h.doll[i])
    requires forall j :: 0 <= j < i ==> Stays(r, h.doll[j])
    ensures
      var id := h.doll[i];
      var off := Unequipped(r, h, id, SublocOf(i)).1;
      off.(inventory := Taken(off.inventory, id, 1).1) == h.(doll := h.doll[i := 0])
  {
    var id := h.doll[i];
    assert WornAt(h.doll, id, SublocOf(i), 0) == i;
    IndexIs(h.inventory, id, |h.inventory|);
    if r.Known(id) {
      var s := h.inventory + [Stack(id, 1)];
      assert forall j :: 0 <= j < |h.inventory| ==> s[j] == h.inventory[j];
      IndexIs(s, id, |h.inventory|);
      assert s[..|h.inventory|] + s[|h.inventory| + 1..] == h.inventory;
    }
  }

  lemma {:induction false} DollDroppedCounts(r: Rules, h: Holdings, floor: seq<FloorItem>, x: int, y: int,
                                             i: nat, z: int)
    requires r.Valid() && h.Valid() && AllLore(r, h.inventory) && i <= SLOTS && z != 0
    requires forall j :: 0 <= j < i ==> Stays(r, h.doll[j])
    ensures
      var (h', floor') := DollDropped(r, h, floor, x, y, i);
      && h'.Valid()
      && h'.inventory == h.inventory && h'.locker == h.locker && h'.gold == h.gold
      && Sum(h'.doll, OfSlot(z)) + OnFloor(floor', z) == Sum(h.doll, OfSlot(z)) + OnFloor(floor, z)
      && |floor'| <= |floor| + (SLOTS - i)
    decreases SLOTS - i
  {
    hide Dropped, Sum, Taken, Unequipped;
    if i < SLOTS {
      var id := h.doll[i];
      if Stays(r, id) {
        DollDroppedCounts(r, h, floor, x, y, i + 1, z);
      } else {
        OneWornDropped(r, h, i);
        DroppedCounts(floor, id, 1, x, y, z);
        DroppedLonger(floor, id, 1, x, y);
        SumUpdate(h.doll, i, 0, OfSlot(z));
        DollDroppedCounts(r, h.(doll := h.doll[i := 0]), Dropped(floor, id, 1, x, y), x, y, i + 1, z);
      }
    }
  }

  // ---------- one request ----------

  datatype Request =
    | AddToChest(x: int, y: int, id: int, amount: int)
    | TakeFromChest(x: int, y: int, id: int)
    | AddToLocker(id: int, amount: int)
    | TakeFromLocker(id: int)
    | Deposit(amount: int)
    | Withdraw(amount: int)
    | Drop(id: int, amount: int, x: int, y: int)
    | Junk(id: int, amount: int)
    | PickUp(uid: int)
    | Equip(id: int, subloc: int, suits: bool)
    | Unequip(id: int, subloc: int)
    | Die(x: int, y: int)
    | NpcDrop(id: int, amount: int, x: int, y: int)  // a killed NPC leaves an item

  /** One character and what the map holds. */
  datatype Scene = Scene(h: Holdings, chests: seq<Chest>, floor: seq<FloorItem>)

  function Apply(r: Rules, s: Scene, q: Request): Scene
    requires r.Valid() && s.h.Valid()
  {
    match q
    case AddToChest(x, y, id, amount) =>
      var (h, chests) := ChestAdded(r, s.h, s.chests, x, y, id, amount); s.(h := h, chests := chests)
    case TakeFromChest(x, y, id) =>
      var (h, chests) := ChestTook(r, s.h, s.chests, x, y, id); s.(h := h, chests := chests)
    case AddToLocker(id, amount) => s.(h := LockerAdded(r, s.h, id, amount))
    case TakeFromLocker(id) => s.(h := LockerTook(r, s.h, id))
    case Deposit(amount) => s.(h := BankAdded(r, s.h, amount))
    case Withdraw(amount) => s.(h := BankTook(r, s.h, amount))
    case Drop(id, amount, x, y) =>
      var (h, floor) := ItemDropped(r, s.h, s.floor, id, amount, x, y); s.(h := h, floor := floor)
    case Junk(id, amount) => s.(h := ItemJunked(s.h, id, amount))
    case PickUp(uid) => var (h, floor) := ItemGot(r, s.h, s.floor, uid); s.(h := h, floor := floor)
    case Equip(id, subloc, suits) => s.(h := Equipped(r, s.h, id, subloc, suits).1)
    case Unequip(id, subloc) => s.(h := Unequipped(r, s.h, id, subloc).1)
    case Die(x, y) => var (h, floor) := AllDropped(r, s.h, s.floor, x, y); s.(h := h, floor := floor)
    case NpcDrop(id, amount, x, y) =>
      var n := Min(amount, r.maxItem);
      if !r.Known(id) || n <= 0 then s else s.(floor := Dropped(s.floor, id, n, x, y))
  }

  /** Which item a request destroys and how many of it; fewer than none is what an NPC brings into the world. */
  function Loss(r: Rules, s: Scene, q: Request): (int, int)
    requires r.Valid() && s.h.Valid()
  {
    var inv := s.h.inventory;
    match q
    case TakeFromChest(x, y, id) =>
      var n := ChestTaking(r, s.h, s.chests, x, y, id, 0).1;
      (id, if n > 0 then Spill(r, inv, id, n) else 0)
    case AddToLocker(id, amount) =>
      var had := Held(s.h.locker, id);
      (id, if id == GOLD || amount <= 0 || Held(inv, id) < amount || had + amount > INT_MAX || had <= r.maxBank then 0
           else had - r.maxBank)
    case TakeFromLocker(id) =>
      var n := CanHold(r, s.h, id, Held(s.h.locker, id));
      (id, if n > 0 then Spill(r, inv, id, n) else 0)
    case Withdraw(amount) => (GOLD, if 0 < amount <= s.h.gold then Spill(r, inv, GOLD, amount) else 0)
    case Drop(id, amount, x, y) =>
      var n := Min(amount, r.maxDrop);
      (id, if r.Get(id).special != Lore && 0 < n <= Held(inv, id) && Full(r, s.floor, x, y) then n else 0)
    case Junk(id, amount) => (id, if 0 < amount <= Held(inv, id) then amount else 0)
    case PickUp(uid) =>
      var i := FloorIndex(s.floor, uid);
      if i == |s.floor| then (0, 0)
      else
        var n := CanHold(r, s.h, s.floor[i].id, s.floor[i].amount);
        (s.floor[i].id, if n > 0 then Spill(r, inv, s.floor[i].id, n) else 0)
    case Unequip(id, subloc) =>
      (id, if id != 0 && WornAt(s.h.doll, id, subloc, 0) < SLOTS then Spill(r, inv, id, 1) else 0)
    case NpcDrop(id, amount, x, y) =>
      var n := Min(amount, r.maxItem);
      (id, if !r.Known(id) || n <= 0 then 0 else -n)
    case _ => (0, 0)
  }

  function SceneTotal(s: Scene, x: int): int {
    Owned(s.h, x) + InChests(s.chests, x) + OnFloor(s.floor, x)
  }

  /** Of item `x`, what a request destroys. */
  function LossOf(r: Rules, s: Scene, q: Request, x: int): int
    requires r.Valid() && s.h.Valid()
  {
    if Loss(r, s, q).0 == x then Loss(r, s, q).1 else 0
  }

  predicate InRange(q: Request) {
    match q
    case AddToChest(x, y, id, amount) => amount <= INT_MAX
    case AddToLocker(id, amount) => amount <= INT_MAX
    case Deposit(amount) => amount <= INT_MAX
    case Withdraw(amount) => amount <= INT_MAX
    case Drop(id, amount, x, y) => amount <= INT_MAX
    case Junk(id, amount) => amount <= INT_MAX
    case _ => true
  }

  ghost predicate Accounted(r: Rules, s: Scene, q: Request, x: int)
    requires r.Valid() && s.h.Valid()
  {
    && Apply(r, s, q).h.Valid()
    && SceneTotal(Apply(r, s, q), x) == SceneTotal(s, x) - LossOf(r, s, q, x)
    && (q.NpcDrop? || LossOf(r, s, q, x) >= 0)
  }

  lemma ChestAddAccounted(r: Rules, s: Scene, q: Request, x: int)
    requires r.Valid() && s.h.Valid() && q.AddToChest?
    ensures Accounted(r, s, q, x)
  {
    hide Sum, Index, Taken, ChestPut, ChestIndex;
    var inv := s.h.inventory;
    var k := ChestAt(s.chests, q.x, q.y, 0);
    if k < |s.chests| {
      var n := Min(q.amount, r.maxChest - ChestHeld(s.chests[k].items, q.id));
      ChestPutCounts(s.chests[k], q.id, n, 0, x);
      TakenCounts(inv, q.id, n, x);
      SumUpdate(s.chests, k, ChestPut(s.chests[k], q.id, n, 0).1, OfChest(x));
    }
  }

  lemma ChestTakeAccounted(r: Rules, s: Scene, q: Request, x: int)
    requires r.Valid() && s.h.Valid() && q.TakeFromChest?
    ensures Accounted(r, s, q, x)
  {
    hide Sum, Index, Put, ChestTaken, ChestIndex, Spill, ChestTaking;
    var (k, n) := ChestTaking(r, s.h, s.chests, q.x, q.y, q.id, 0);
    if n > 0 {
      ChestTakenCounts(s.chests[k], q.id, n, x);
      PutCounts(r, s.h.inventory, q.id, n, x);
      SumUpdate(s.chests, k, ChestTaken(s.chests[k], q.id, n), OfChest(x));
    }
  }

  lemma LockerAddedCounts(r: Rules, h: Holdings, id: int, amount: int, x: int)
    requires r.Valid() && h.Valid()
    ensures LockerAdded(r, h, id, amount).Valid()
    ensures
      var had := Held(h.locker, id);
      var refused := id == GOLD || amount <= 0 || Held(h.inventory, id) < amount || had + amount > INT_MAX;
      Owned(LockerAdded(r, h, id, amount), x) ==
        Owned(h, x) - (if x == id && !refused && had > r.maxBank then had - r.maxBank else 0)
  {
    hide Sum, Taken, Index;
    var locker := h.locker;
    var i := Index(locker, id);
    var n := Min(amount, r.maxBank - Held(locker, id));
    TakenCounts(h.inventory, id, n, x);
    NothingTaken(h.inventory, id, n);
    if i < |locker| {
      SumUpdate(locker, i, Stack(id, locker[i].amount + n), OfStack(x));
    } else {
      SumOne(locker, Stack(id, n), OfStack(x));
    }
  }

  lemma LockerAddAccounted(r: Rules, s: Scene, q: Request, x: int)
    requires r.Valid() && s.h.Valid() && q.AddToLocker?
    ensures Accounted(r, s, q, x)
  {
    hide Owned, LockerAdded, Held;
    LockerAddedCounts(r, s.h, q.id, q.amount, x);
  }

  lemma NothingTaken(s: seq<Stack>, id: int, amount: int)
    ensures amount <= 0 ==> Taken(s, id, amount).1 == s
  {
  }

  lemma LockerTookCounts(r: Rules, h: Holdings, id: int, x: int)
    requires r.Valid() && h.Valid()
    ensures LockerTook(r, h, id).Valid()
    ensures
      var n := CanHold(r, h, id, Held(h.locker, id));
      var lost := if n > 0 then Spill(r, h.inventory, id, n) else 0;
      lost >= 0 && Owned(LockerTook(r, h, id), x) == Owned(h, x) - (if x == id then lost else 0)
  {
    hide Sum, Put, Spill, CanHold, Index;
    var locker := h.locker;
    var i := Index(locker, id);
    var n := CanHold(r, h, id, Held(locker, id));
    if n > 0 {
      PutCounts(r, h.inventory, id, n, x);
    }
    NothingPut(r, h.inventory, id, n);
    if i < |locker| {
      SumUpdate(locker, i, Stack(id, locker[i].amount - n), OfStack(x));
      SumRemove(locker, i, OfStack(x));
    }
  }

  lemma LockerTakeAccounted(r: Rules, s: Scene, q: Request, x: int)
    requires r.Valid() && s.h.Valid() && q.TakeFromLocker?
    ensures Accounted(r, s, q, x)
  {
    hide Owned, LockerTook, Held, CanHold, Spill;
    LockerTookCounts(r, s.h, q.id, x);
  }

  lemma NothingPut(r: Rules, s: seq<Stack>, id: int, amount: int)
    ensures amount <= 0 ==> Put(r, s, id, amount).1 == s
  {
  }

  lemma BankAccounted(r: Rules, s: Scene, q: Request, x: int)
    requires r.Valid() && s.h.Valid() && InRange(q) && (q.Deposit? || q.Withdraw?)
    ensures Accounted(r, s, q, x)
  {
    hide Sum, Put, Taken, Spill;
    if q.Deposit? {
      TakenCounts(s.h.inventory, GOLD, Min(q.amount, Held(s.h.inventory, GOLD)), x);
    } else if q.amount > 0 {
      PutCounts(r, s.h.inventory, GOLD, q.amount, x);
    }
  }

  lemma DropAccounted(r: Rules, s: Scene, q: Request, x: int)
    requires r.Valid() && s.h.Valid() && q.Drop?
    ensures Accounted(r, s, q, x)
  {
    hide Sum, Taken, Index, Dropped, Full;
    var n := Min(q.amount, r.maxDrop);
    TakenCounts(s.h.inventory, q.id, n, x);
    DroppedCounts(s.floor, q.id, n, q.x, q.y, x);
  }

  lemma JunkAccounted(r: Rules, s: Scene, q: Request, x: int)
    requires r.Valid() && s.h.Valid() && q.Junk?
    ensures Accounted(r, s, q, x)
  {
    hide Sum, Taken, Index;
    TakenCounts(s.h.inventory, q.id, q.amount, x);
  }

  lemma PickUpAccounted(r: Rules, s: Scene, q: Request, x: int)
    requires r.Valid() && s.h.Valid() && q.PickUp?
    ensures Accounted(r, s, q, x)
  {
    hide Sum, Put, Index, PickedUp, Spill, CanHold;
    var i := FloorIndex(s.floor, q.uid);
    if i < |s.floor| {
      var n := CanHold(r, s.h, s.floor[i].id, s.floor[i].amount);
      if n > 0 {
        PickedUpCounts(s.floor, q.uid, n, x);
        PutCounts(r, s.h.inventory, s.floor[i].id, n, x);
      }
    }
  }

  lemma EquipAccounted(r: Rules, s: Scene, q: Request, x: int)
    requires r.Valid() && s.h.Valid() && q.Equip? && x != 0
    ensures Accounted(r, s, q, x)
  {
    hide Sum, Taken, HandsAllow;
    var slot := SlotOf(r.Get(q.id).type_, q.subloc);
    if Held(s.h.inventory, q.id) != 0 && slot >= 0 {
      assert s.h.inventory[Index(s.h.inventory, q.id)] in s.h.inventory;
      TakenCounts(s.h.inventory, q.id, 1, x);
      SumUpdate(s.h.doll, slot, q.id, OfSlot(x));
    }
  }

  lemma UnequipAccounted(r: Rules, s: Scene, q: Request, x: int)
    requires r.Valid() && s.h.Valid() && q.Unequip? && x != 0
    ensures Accounted(r, s, q, x)
  {
    hide Sum, Put, Index, Spill;
    var k := WornAt(s.h.doll, q.id, q.subloc, 0);
    PutCounts(r, s.h.inventory, q.id, 1, x);
    if k < SLOTS {
      SumUpdate(s.h.doll, k, 0, OfSlot(x));
    }
  }

  lemma DieAccounted(r: Rules, s: Scene, q: Request, x: int)
    requires r.Valid() && s.h.Valid() && q.Die? && x != 0
    ensures Accounted(r, s, q, x)
  {
    hide Sum, StacksDropped, DollDropped;
    StacksDroppedCounts(r, s.h.inventory, s.floor, q.x, q.y, x);
    var (kept, floor) := StacksDropped(r, s.h.inventory, s.floor, q.x, q.y);
    DollDroppedCounts(r, s.h.(inventory := kept), floor, q.x, q.y, 0, x);
  }

  lemma NpcDropAccounted(r: Rules, s: Scene, q: Request, x: int)
    requires r.Valid() && s.h.Valid() && q.NpcDrop?
    ensures Accounted(r, s, q, x)
  {
    hide Sum, Dropped;
    DroppedCounts(s.floor, q.id, Min(q.amount, r.maxItem), q.x, q.y, x);
  }

  /** Every request changes the total of every item by exactly its loss, and only an NPC's drop can raise it. */
  lemma ApplyAccounted(r: Rules, s: Scene, q: Request, x: int)
    requires r.Valid() && s.h.Valid() && InRange(q) && x != 0
    ensures Accounted(r, s, q, x)
  {
    hide Accounted;
    match q
    case AddToChest(_, _, _, _) => ChestAddAccounted(r, s, q, x);
    case TakeFromChest(_, _, _) => ChestTakeAccounted(r, s, q, x);
    case AddToLocker(_, _) => LockerAddAccounted(r, s, q, x);
    case TakeFromLocker(_) => LockerTakeAccounted(r, s, q, x);
    case Deposit(_) => BankAccounted(r, s, q, x);
    case Withdraw(_) => BankAccounted(r, s, q, x);
    case Drop(_, _, _, _) => DropAccounted(r, s, q, x);
    case Junk(_, _) => JunkAccounted(r, s, q, x);
    case PickUp(_) => PickUpAccounted(r, s, q, x);
    case Equip(_, _, _) => EquipAccounted(r, s, q, x);
    case Unequip(_, _) => UnequipAccounted(r, s, q, x);
    case Die(_, _) => DieAccounted(r, s, q, x);
    case NpcDrop(_, _, _, _) => NpcDropAccounted(r, s, q, x);
  }

  /** What a request must satisfy for nothing to be lost: room under the limits, on the tile, in the locker. */
  predicate Keeps(r: Rules, s: Scene, q: Request)
    requires r.Valid() && s.h.Valid()
  {
    var inv := s.h.inventory;
    match q
    case TakeFromChest(x, y, id) =>
      var n := ChestTaking(r, s.h, s.chests, x, y, id, 0).1; n == 0 || Fits(r, inv, id, n)
    case AddToLocker(id, amount) =>
      || id == GOLD || amount <= 0 || Held(inv, id) < amount
      || Held(s.h.locker, id) + amount > INT_MAX || Held(s.h.locker, id) <= r.maxBank
    case TakeFromLocker(id) =>
      var n := CanHold(r, s.h, id, Held(s.h.locker, id)); n <= 0 || Fits(r, inv, id, n)
    case Withdraw(amount) => !(0 < amount <= s.h.gold) || Fits(r, inv, GOLD, amount)
    case Drop(id, amount, x, y) =>
      var n := Min(amount, r.maxDrop);
      r.Get(id).special == Lore || n <= 0 || Held(inv, id) < n || !Full(r, s.floor, x, y)
    case Junk(id, amount) => amount <= 0 || Held(inv, id) < amount
    case PickUp(uid) =>
      var i := FloorIndex(s.floor, uid);
      i == |s.floor| ||
        (var n := CanHold(r, s.h, s.floor[i].id, s.floor[i].amount); n <= 0 || Fits(r, inv, s.floor[i].id, n))
    case Unequip(id, subloc) => id == 0 || WornAt(s.h.doll, id, subloc, 0) == SLOTS || Fits(r, inv, id, 1)
    case NpcDrop(id, amount, x, y) => !r.Known(id) || Min(amount, r.maxItem) <= 0
    case _ => true
  }

  lemma SpillIsNone(r: Rules, s: seq<Stack>, id: int, amount: int)
    requires r.Valid() && Stacked(s)
    ensures 0 < amount <= INT_MAX ==> (Spill(r, s, id, amount) == 0 <==> Fits(r, s, id, amount))
  {
    if 0 < amount <= INT_MAX {
      PutCounts(r, s, id, amount, 0);
    }
  }

  lemma LossIff(r: Rules, s: Scene, q: Request)
    requires r.Valid() && s.h.Valid() && InRange(q)
    ensures Loss(r, s, q).1 == 0 <==> Keeps(r, s, q)
  {
    hide Spill, Fits, Index, CanHold, ChestTaking, WornAt, Full;
    var inv := s.h.inventory;
    match q
    case TakeFromChest(x, y, id) => SpillIsNone(r, inv, id, ChestTaking(r, s.h, s.chests, x, y, id, 0).1);
    case TakeFromLocker(id) => SpillIsNone(r, inv, id, CanHold(r, s.h, id, Held(s.h.locker, id)));
    case Withdraw(amount) => SpillIsNone(r, inv, GOLD, amount);
    case PickUp(uid) =>
      var i := FloorIndex(s.floor, uid);
      if i < |s.floor| {
        SpillIsNone(r, inv, s.floor[i].id, CanHold(r, s.h, s.floor[i].id, s.floor[i].amount));
      }
    case Unequip(id, subloc) => SpillIsNone(r, inv, id, 1);
    case _ =>
  }

  /**
   A request leaves every item's total alone if and only if it runs into no limit (id 0 is no item).
   */
  lemma ConservedIff(r: Rules, s: Scene, q: Request)
    requires r.Valid() && s.h.Valid() && InRange(q)
    ensures (forall x :: x != 0 ==> SceneTotal(Apply(r, s, q), x) == SceneTotal(s, x))
      <==> Keeps(r, s, q) || Loss(r, s, q).0 == 0
  {
    hide Keeps, Loss, Apply, SceneTotal;
    LossIff(r, s, q);
    forall x | x != 0
      ensures SceneTotal(Apply(r, s, q), x) == SceneTotal(s, x) - LossOf(r, s, q, x)
    {
      ApplyAccounted(r, s, q, x);
    }
    var lost := Loss(r, s, q);
    if lost.1 != 0 && lost.0 != 0 {
      assert SceneTotal(Apply(r, s, q), lost.0) != SceneTotal(s, lost.0);
    }
  }

  /** A stack above the item limit shrinks to the limit when anything is added to it. */
  lemma AddingCanShrink(r: Rules, s: seq<Stack>, id: int, amount: int)
    requires r.Known(id) && Index(s, id) < |s|
    requires amount > 0 && r.maxItem < Held(s, id) && Held(s, id) + amount <= INT_MAX
    ensures Held(Put(r, s, id, amount).1, id) == r.maxItem < Held(s, id)
  {
    var i := Index(s, id);
    IndexIs(Put(r, s, id, amount).1, id, i);
  }

  // ---------- runs of several characters ----------

  datatype World = World(chars: seq<Holdings>, chests: seq<Chest>, floor: seq<FloorItem>)

  ghost predicate WorldValid(w: World) {
    forall h :: h in w.chars ==> h.Valid()
  }

  function SceneOf(w: World, k: nat): Scene
    requires k < |w.chars|
  {
    Scene(w.chars[k], w.chests, w.floor)
  }

  function Step(r: Rules, w: World, k: nat, q: Request): World
    requires r.Valid() && WorldValid(w) && k < |w.chars|
  {
    var s := Apply(r, SceneOf(w, k), q);
    World(w.chars[k := s.h], s.chests, s.floor)
  }

  function OfHoldings(x: int): Holdings -> int {
    (h: Holdings) => Owned(h, x)
  }

  function Total(w: World, x: int): int {
    Sum(w.chars, OfHoldings(x)) + InChests(w.chests, x) + OnFloor(w.floor, x)
  }

  lemma StepAccounted(r: Rules, w: World, k: nat, q: Request, x: int)
    requires r.Valid() && WorldValid(w) && k < |w.chars| && InRange(q) && x != 0
    ensures WorldValid(Step(r, w, k, q)) && |Step(r, w, k, q).chars| == |w.chars|
    ensures Total(Step(r, w, k, q), x) == Total(w, x) - LossOf(r, SceneOf(w, k), q, x)
    ensures !q.NpcDrop? ==> LossOf(r, SceneOf(w, k), q, x) >= 0
  {
    hide Sum, Apply, Loss, Owned;
    ApplyAccounted(r, SceneOf(w, k), q, x);
    SumUpdate(w.chars, k, Apply(r, SceneOf(w, k), q).h, OfHoldings(x));
  }

  datatype Act = Act(who: nat, request: Request)

  ghost predicate Acts(acts: seq<Act>, n: nat) {
    forall a :: a in acts ==> a.who < n && InRange(a.request)
  }

  /** The whole run, and what it destroys of an item along the way. */
  ghost function Run(r: Rules, w: World, acts: seq<Act>): World
    requires r.Valid() && WorldValid(w) && Acts(acts, |w.chars|)
    decreases |acts|
  {
    if acts == [] then w
    else
      StepAccounted(r, w, acts[0].who, acts[0].request, GOLD);
      Run(r, Step(r, w, acts[0].who, acts[0].request), acts[1..])
  }

  ghost function Losses(r: Rules, w: World, acts: seq<Act>, x: int): int
    requires r.Valid() && WorldValid(w) && Acts(acts, |w.chars|)
    decreases |acts|
  {
    if acts == [] then 0
    else
      StepAccounted(r, w, acts[0].who, acts[0].request, GOLD);
      LossOf(r, SceneOf(w, acts[0].who), acts[0].request, x)
        + Losses(r, Step(r, w, acts[0].who, acts[0].request), acts[1..], x)
  }

  /**
   Over any run, the total of an item over all characters, chests and the floor is what it was less exactly what
   single requests destroyed.
   */
  lemma {:induction false} RunAccounted(r: Rules, w: World, acts: seq<Act>, x: int)
    requires r.Valid() && WorldValid(w) && Acts(acts, |w.chars|) && x != 0
    ensures Total(Run(r, w, acts), x) == Total(w, x) - Losses(r, w, acts, x)
    ensures (forall a :: a in acts ==> !a.request.NpcDrop?) ==> Losses(r, w, acts, x) >= 0
    decreases |acts|
  {
    hide Total, Step, LossOf;
    if acts != [] {
      var k, q := acts[0].who, acts[0].request;
      assert acts[0] in acts;
      StepAccounted(r, w, k, q, x);
      RunAccounted(r, Step(r, w, k, q), acts[1..], x);
    }
  }

  /** No run of requests makes items out of nothing; only kills bring new ones. */
  lemma NothingIsMade(r: Rules, w: World, acts: seq<Act>, x: int)
    requires r.Valid() && WorldValid(w) && Acts(acts, |w.chars|) && x != 0
    requires forall a :: a in acts ==> !a.request.NpcDrop?
    ensures Total(Run(r, w, acts), x) <= Total(w, x)
  {
    hide Run, Losses, Total;
    RunAccounted(r, w, acts, x);
  }

  // ---------- what else every run keeps ----------

  lemma ApplyKeepsHands(r: Rules, s: Scene, q: Request)
    requires r.Valid() && s.h.Valid() && HandsOk(r, s.h.doll)
    ensures |Apply(r, s, q).h.doll| == SLOTS && HandsOk(r, Apply(r, s, q).h.doll)
  {
    hide Taken, Put, Held, CanHold, ChestTaking, StacksDropped, Dropped;
    if q.Die? {
      StacksDroppedCounts(r, s.h.inventory, s.floor, q.x, q.y, 0);
      var (kept, floor) := StacksDropped(r, s.h.inventory, s.floor, q.x, q.y);
      DollDroppedHands(r, s.h.(inventory := kept), floor, q.x, q.y, 0);
    }
  }

  lemma {:induction false} DollDroppedHands(r: Rules, h: Holdings, floor: seq<FloorItem>, x: int, y: int, i: nat)
    requires r.Valid() && h.Valid() && i <= SLOTS && HandsOk(r, h.doll)
    ensures
      var h' := DollDropped(r, h, floor, x, y, i).0;
      |h'.doll| == SLOTS && HandsOk(r, h'.doll)
    decreases SLOTS - i
  {
    hide Taken, Put, Dropped;
    if i < SLOTS {
      var id := h.doll[i];
      if Stays(r, id) {
        DollDroppedHands(r, h, floor, x, y, i + 1);
      } else {
        var off := Unequipped(r, h, id, SublocOf(i)).1;
        UnequippedValid(r, h, id, SublocOf(i));
        TakenCounts(off.inventory, id, 1, 0);
        DollDroppedHands(r, off.(inventory := Taken(off.inventory, id, 1).1), Dropped(floor, id, 1, x, y), x, y, i + 1);
      }
    }
  }

  ghost predicate AllHandsOk(r: Rules, w: World)
    requires r.Valid() && WorldValid(w)
  {
    forall h :: h in w.chars ==> HandsOk(r, h.doll)
  }

  /** No run ever puts a two-handed weapon and a real shield into the same hands. */
  lemma {:induction false} RunKeepsHands(r: Rules, w: World, acts: seq<Act>)
    requires r.Valid() && WorldValid(w) && Acts(acts, |w.chars|) && AllHandsOk(r, w)
    ensures WorldValid(Run(r, w, acts)) && AllHandsOk(r, Run(r, w, acts))
    decreases |acts|
  {
    hide Apply, HandsOk, Total;
    if acts != [] {
      var k, q := acts[0].who, acts[0].request;
      assert acts[0] in acts;
      StepAccounted(r, w, k, q, GOLD);
      ApplyKeepsHands(r, SceneOf(w, k), q);
      RunKeepsHands(r, Step(r, w, k, q), acts[1..]);
    }
  }

  // ---------- floor ids ----------

  /** How many of some stacks are not lore. */
  function Droppable(r: Rules, s: seq<Stack>): nat
    requires r.Valid()
  {
    if s == [] then 0 else (if r.Get(s[0].id).special == Lore then 0 else 1) + Droppable(r, s[1..])
  }

  /** How many worn items, from slot `i` on, do not stay. */
  function WornDroppable(r: Rules, doll: seq<int>, i: nat): nat
    requires r.Valid() && |doll| == SLOTS && i <= SLOTS
    decreases SLOTS - i
  {
    if i == SLOTS then 0 else (if Stays(r, doll[i]) then 0 else 1) + WornDroppable(r, doll, i + 1)
  }

  /** How many items a request puts on the floor. */
  function Drops(r: Rules, s: Scene, q: Request): nat
    requires r.Valid() && s.h.Valid()
  {
    match q
    case Drop(id, amount, x, y) =>
      var n := Min(amount, r.maxDrop);
      if r.Get(id).special != Lore && 0 < n <= Held(s.h.inventory, id) && !Full(r, s.floor, x, y) then 1 else 0
    case Die(x, y) => Droppable(r, s.h.inventory) + WornDroppable(r, s.h.doll, 0)
    case NpcDrop(id, amount, x, y) => if r.Known(id) && Min(amount, r.maxItem) > 0 then 1 else 0
    case _ => 0
  }

  /** The floor stays in order if and only if there are ids enough for `n` more items. */
  ghost predicate RoomFor(floor: seq<FloorItem>, n: nat, after: seq<FloorItem>) {
    && (FloorValid(after) <==> FloorValid(floor) && n <= IdsLeft(floor))
    && (FloorValid(after) ==> IdsLeft(after) == IdsLeft(floor) - n)
  }

  lemma DroppedRoom(floor: seq<FloorItem>, id: int, amount: int, x: int, y: int)
    requires 0 < amount <= INT_MAX
    ensures RoomFor(floor, 1, Dropped(floor, id, amount, x, y))
  {
    hide FloorValid, Dropped, IdsLeft;
    if FloorValid(floor) {
      DroppedValid(floor, id, amount, x, y);
    } else {
      DroppedInvalid(floor, id, amount, x, y);
    }
  }

  lemma {:induction false} StacksDroppedRoom(r: Rules, s: seq<Stack>, floor: seq<FloorItem>, x: int, y: int)
    requires r.Valid() && Stacked(s)
    ensures RoomFor(floor, Droppable(r, s), StacksDropped(r, s, floor, x, y).1)
    decreases |s|
  {
    hide Dropped, FloorValid, IdsLeft;
    if s != [] {
      if r.Get(s[0].id).special == Lore {
        StacksDroppedRoom(r, s[1..], floor, x, y);
      } else {
        DroppedRoom(floor, s[0].id, s[0].amount, x, y);
        StacksDroppedRoom(r, s[1..], Dropped(floor, s[0].id, s[0].amount, x, y), x, y);
      }
    }
  }

  lemma {:induction false} WornFrom(r: Rules, doll: seq<int>, other: seq<int>, i: nat)
    requires r.Valid() && |doll| == |other| == SLOTS && i <= SLOTS
    requires forall j :: i <= j < SLOTS ==> doll[j] == other[j]
    ensures WornDroppable(r, doll, i) == WornDroppable(r, other, i)
    decreases SLOTS - i
  {
    if i < SLOTS {
      WornFrom(r, doll, other, i + 1);
    }
  }

  lemma {:induction false} DollDroppedRoom(r: Rules, h: Holdings, floor: seq<FloorItem>, x: int, y: int, i: nat)
    requires r.Valid() && h.Valid() && AllLore(r, h.inventory) && i <= SLOTS
    requires forall j :: 0 <= j < i ==> Stays(r, h.doll[j])
    ensures RoomFor(floor, WornDroppable(r, h.doll, i), DollDropped(r, h, floor, x, y, i).1)
    decreases SLOTS - i
  {
    hide Dropped, FloorValid, IdsLeft, Taken, Unequipped, Stays;
    if i < SLOTS {
      var id := h.doll[i];
      if Stays(r, id) {
        DollDroppedRoom(r, h, floor, x, y, i + 1);
      } else {
        var h' := h.(doll := h.doll[i := 0]);
        OneWornDropped(r, h, i);
        DroppedRoom(floor, id, 1, x, y);
        WornFrom(r, h.doll, h'.doll, i + 1);
        EmptyStays(r);
        DollDroppedRoom(r, h', Dropped(floor, id, 1, x, y), x, y, i + 1);
      }
    }
  }

  lemma EmptyStays(r: Rules)
    requires r.Valid()
    ensures Stays(r, 0)
  {
  }

  lemma DieKeepsFloor(r: Rules, s: Scene, x: int, y: int)
    requires r.Valid() && s.h.Valid()
    ensures FloorValid(Apply(r, s, Die(x, y)).floor)
      <==> FloorValid(s.floor) && Drops(r, s, Die(x, y)) <= IdsLeft(s.floor)
  {
    hide Dropped, FloorValid, IdsLeft, StacksDropped, DollDropped, Droppable, WornDroppable;
    StacksDroppedCounts(r, s.h.inventory, s.floor, x, y, 0);
    StacksDroppedRoom(r, s.h.inventory, s.floor, x, y);
    var (kept, floor) := StacksDropped(r, s.h.inventory, s.floor, x, y);
    DollDroppedRoom(r, s.h.(inventory := kept), floor, x, y, 0);
  }

  /** After a request the ids on the floor are still distinct if and only if there were enough for what it drops. */
  lemma ApplyKeepsFloor(r: Rules, s: Scene, q: Request)
    requires r.Valid() && s.h.Valid() && InRange(q) && FloorValid(s.floor)
    ensures FloorValid(Apply(r, s, q).floor) <==> Drops(r, s, q) <= IdsLeft(s.floor)
  {
    hide Taken, Put, Held, CanHold, ChestTaking, StacksDropped, Dropped, FloorValid, DollDropped, IdsLeft, Full;
    match q
    case Drop(id, amount, x, y) =>
      if Min(amount, r.maxDrop) > 0 {
        DroppedRoom(s.floor, id, Min(amount, r.maxDrop), x, y);
      }
    case PickUp(uid) =>
      var i := FloorIndex(s.floor, uid);
      if i < |s.floor| && CanHold(r, s.h, s.floor[i].id, s.floor[i].amount) > 0 {
        PickedUpValid(s.floor, uid, CanHold(r, s.h, s.floor[i].id, s.floor[i].amount));
      }
    case Die(x, y) =>
      DieKeepsFloor(r, s, x, y);
    case NpcDrop(id, amount, x, y) =>
      if Min(amount, r.maxItem) > 0 {
        DroppedRoom(s.floor, id, Min(amount, r.maxItem), x, y);
      }
    case _ =>
  }

  /** At every step of a run there are ids enough for what is dropped. */
  ghost predicate EnoughIds(r: Rules, w: World, acts: seq<Act>)
    requires r.Valid() && WorldValid(w) && Acts(acts, |w.chars|)
    decreases |acts|
  {
    acts == [] || (
      StepAccounted(r, w, acts[0].who, acts[0].request, GOLD);
      && Drops(r, SceneOf(w, acts[0].who), acts[0].request) <= IdsLeft(w.floor)
      && EnoughIds(r, Step(r, w, acts[0].who, acts[0].request), acts[1..]))
  }

  /** The floor is in order after every step of a run. */
  ghost predicate FloorValidThroughout(r: Rules, w: World, acts: seq<Act>)
    requires r.Valid() && WorldValid(w) && Acts(acts, |w.chars|)
    decreases |acts|
  {
    FloorValid(w.floor) && (acts == [] || (
      StepAccounted(r, w, acts[0].who, acts[0].request, GOLD);
      FloorValidThroughout(r, Step(r, w, acts[0].who, acts[0].request), acts[1..])))
  }

  /**
   The ids of floor items stay distinct throughout a run of drops, deaths, kills and pick-ups if and only if at
   every step there are ids left for the items it drops.
   */
  lemma {:induction false} RunKeepsFloor(r: Rules, w: World, acts: seq<Act>)
    requires r.Valid() && WorldValid(w) && Acts(acts, |w.chars|) && FloorValid(w.floor)
    ensures FloorValidThroughout(r, w, acts) <==> EnoughIds(r, w, acts)
    ensures EnoughIds(r, w, acts) ==> FloorValid(Run(r, w, acts).floor)
    decreases |acts|
  {
    hide Apply, Total, FloorValid, IdsLeft, Drops;
    if acts != [] {
      var k, q := acts[0].who, acts[0].request;
      assert acts[0] in acts;
      StepAccounted(r, w, k, q, GOLD);
      ApplyKeepsFloor(r, SceneOf(w, k), q);
      if Drops(r, SceneOf(w, k), q) <= IdsLeft(w.floor) {
        RunKeepsFloor(r, Step(r, w, k, q), acts[1..]);
      }
    }
  }
}
