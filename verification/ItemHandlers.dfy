/** The objects of src/character.cpp and src/map.cpp that hold items, and the handlers that move them. */
module ItemHandlers {
  import opened Bytes
  import opened Ids
  import opened Items
  import opened ItemRuns

  /** The walk over a list of stacks to the first one of an item. */
  method FindStack(s: seq<Stack>, id: int) returns (i: nat)
    ensures i == Index(s, id)
  {
    i := 0;
    while i < |s| && s[i].id != id
      invariant i <= |s| && (forall j :: 0 <= j < i ==> s[j].id != id)
    {
      i := i + 1;
    }
    IndexIs(s, id, i);
  }

  class Character {
    const rules: Rules
    const maxWeight: int
    const unlimited: bool
    const lockerMax: nat
    const paperdoll: array<int>
    var inventory: seq<Stack>
    var bank: seq<Stack>
    var goldbank: int
    var weight: int
    var trading: bool
    var tradeInventory: seq<Stack>
    var noInteract: bool

    ghost function Holdings(): Holdings
      reads this, paperdoll
    {
      Items.Holdings(inventory, paperdoll[..], bank, goldbank, maxWeight, unlimited, lockerMax)
    }

    ghost predicate Valid()
      reads this, paperdoll
    {
      rules.Valid() && Holdings().Valid()
    }

    /** The weight kept is that of what is carried and worn now. */
    ghost predicate Weighed()
      requires rules.Valid()
      reads this, paperdoll
    {
      weight == Weight(rules, Holdings())
    }

    /** What a character has of an item apart from what it offers in a running trade. */
    function Available(id: int): int
      reads this
    {
      var i := Index(inventory, id);
      if trading && i < |inventory| && Index(tradeInventory, id) < |tradeInventory|
      then Max(inventory[i].amount - Held(tradeInventory, id), 0)
      else Held(inventory, id)
    }

    method HasItem(id: int, includeTrade: bool := false) returns (n: int)
      ensures n == if includeTrade then Held(inventory, id) else Available(id)
      ensures !trading ==> n == Held(inventory, id)
    {
      var i := FindStack(inventory, id);
      if i == |inventory| {
        return 0;
      }
      if trading && !includeTrade {
        var k := FindStack(tradeInventory, id);
        if k < |tradeInventory| {
          return Max(inventory[i].amount - tradeInventory[k].amount, 0);
        }
      }
      return inventory[i].amount;
    }

    method AddItem(id: int, amount: int) returns (ok: bool)
      requires rules.Valid()
      modifies this`inventory, this`weight
      ensures (ok, inventory) == Put(rules, old(inventory), id, amount)
      ensures if ok then Weighed() else weight == old(weight) && inventory == old(inventory)
    {
      if amount <= 0 {
        return false;
      }
      if id <= 0 || id >= |rules.items| {
        return false;
      }
      var i := FindStack(inventory, id);
      if i < |inventory| {
        if inventory[i].amount + amount > INT_MAX {
          return false;
        }
        inventory := inventory[i := Stack(id, inventory[i].amount + amount)];
        inventory := inventory[i := Stack(id, Min(inventory[i].amount, rules.maxItem))];
        assert inventory == old(inventory)[i := inventory[i]];
        CalculateStats();
        return true;
      }
      inventory := inventory + [Stack(id, amount)];
      CalculateStats();
      return true;
    }

    method DelItem(id: int, amount: int) returns (ok: bool)
      requires rules.Valid()
      modifies this`inventory, this`weight
      ensures (ok, inventory) == Taken(old(inventory), id, amount)
      ensures if ok then Weighed() else weight == old(weight) && inventory == old(inventory)
    {
      if amount <= 0 {
        return false;
      }
      var i := FindStack(inventory, id);
      if i == |inventory| {
        return false;
      }
      if inventory[i].amount < 0 || inventory[i].amount - amount <= 0 {
        inventory := inventory[..i] + inventory[i + 1..];
      } else {
        inventory := inventory[i := Stack(id, inventory[i].amount - amount)];
      }
      CalculateStats();
      return true;
    }

    method CanHoldItem(id: int, maxAmount: int) returns (n: int)
      requires rules.Valid() && Weighed()
      ensures n == CanHold(rules, Holdings(), id, maxAmount)
    {
      n := maxAmount;
      if rules.enforceWeight && !unlimited {
        var item := rules.Get(id);
        if weight > maxWeight {
          n := 0;
        } else if rules.Known(id) && item.weight != 0 {
          n := Room(maxWeight - weight, item.weight, maxAmount);
        }
      }
      n := Min(n, rules.maxItem);
    }

    /** The part that sums the weight. */
    method CalculateStats()
      requires rules.Valid()
      modifies this`weight
      ensures Weighed()
    {
      weight := 0;
      var i := 0;
      while i < |inventory|
        invariant i <= |inventory|
        invariant InventoryWeight(rules, inventory[i..], weight) == InventoryWeight(rules, inventory, 0)
      {
        weight := Short(weight + rules.Get(inventory[i].id).weight * inventory[i].amount);
        assert inventory[i..][1..] == inventory[i + 1..];
        if weight >= 250 {
          break;
        }
        i := i + 1;
      }
      assert weight == InventoryWeight(rules, inventory, 0);
      var k := 0;
      ghost var carried := weight;
      while k < paperdoll.Length
        invariant k <= paperdoll.Length
        invariant DollWeight(rules, paperdoll[k..], weight) == DollWeight(rules, paperdoll[..], carried)
      {
        if paperdoll[k] != 0 {
          weight := Short(weight + rules.Get(paperdoll[k]).weight);
        }
        assert paperdoll[k..][1..] == paperdoll[k + 1..];
        k := k + 1;
      }
      if weight < 0 || weight > 250 {
        weight := 250;
      }
      if unlimited {
        weight := 0;
      }
    }

    method Unequip(id: int, subloc: int) returns (ok: bool)
      requires Valid()
      modifies this`inventory, this`weight, paperdoll
      ensures Valid() && (ok, Holdings()) == Unequipped(rules, old(Holdings()), id, subloc)
      ensures if ok then Weighed() else weight == old(weight) && Holdings() == old(Holdings())
    {
      if id == 0 {
        return false;
      }
      var i := 0;
      while i < paperdoll.Length
        invariant i <= paperdoll.Length && WornAt(paperdoll[..], id, subloc, 0) == WornAt(paperdoll[..], id, subloc, i)
      {
        if paperdoll[i] == id {
          if SublocOf(i) == subloc {
            break;
          }
        }
        i := i + 1;
      }
      if i == paperdoll.Length {
        return false;
      }
      UnequippedValid(rules, Holdings(), id, subloc);
      paperdoll[i] := 0;
      var _ := AddItem(id, 1);
      CalculateStats();
      return true;
    }

    method EquipSlot(id: int, slot: nat) returns (ok: bool)
      requires Valid() && slot < SLOTS
      modifies this`inventory, this`weight, paperdoll
      ensures
        if old(paperdoll[slot]) != 0 then !ok && Holdings() == old(Holdings()) && weight == old(weight)
        else
          && ok && Weighed()
          && Holdings() == old(Holdings()).(
               doll := old(paperdoll[..])[slot := id], inventory := Taken(old(inventory), id, 1).1)
    {
      if paperdoll[slot] != 0 {
        return false;
      }
      paperdoll[slot] := id;
      var _ := DelItem(id, 1);
      CalculateStats();
      return true;
    }

    method Equip(id: int, subloc: int, suits: bool) returns (ok: bool)
      requires Valid()
      modifies this`inventory, this`weight, paperdoll
      ensures Valid() && (ok, Holdings()) ==
        if old(Available(id)) == 0 then (false, old(Holdings()))
        else Equipped(rules, old(Holdings()), id, subloc, suits)
      ensures if ok then Weighed() else weight == old(weight) && Holdings() == old(Holdings())
    {
      TakenCounts(inventory, id, 1, 0);
      var has := HasItem(id);
      if has == 0 {
        return false;
      }
      var item := rules.Get(id);
      if item.type_ == Weapon && item.subtype == TwoHanded {
        if paperdoll[SHIELD] != 0 {
          var shield := rules.Get(paperdoll[SHIELD]);
          if item.dual || (shield.subtype != Arrows && shield.subtype != Wings) {
            return false;
          }
        }
      }
      if item.type_ == Shield {
        if paperdoll[WEAPON] != 0 {
          var weapon := rules.Get(paperdoll[WEAPON]);
          if weapon.subtype == TwoHanded && (weapon.dual || (item.subtype != Arrows && item.subtype != Wings)) {
            return false;
          }
        }
      }
      if !suits {
        return false;
      }
      var slot := SlotOf(item.type_, subloc);
      if slot == -1 {
        return false;
      }
      ok := EquipSlot(id, slot);
    }
  }

  class MapChest {
    const x: int
    const y: int
    const maxChest: int
    const chestSlots: int
    const slots: int
    var items: seq<ChestItem>
    var spawns: seq<Spawn>

    ghost function Value(): Chest
      reads this
    {
      Chest(x, y, items, maxChest, chestSlots, slots)
    }

    method Find(id: int) returns (i: nat)
      ensures i == ChestIndex(items, id)
    {
      i := 0;
      while i < |items| && items[i].id != id
        invariant i <= |items| && (forall j :: 0 <= j < i ==> items[j].id != id)
      {
        i := i + 1;
      }
      FirstIs(items, OfChestId(id), i);
    }

    method HasItem(id: int) returns (n: int)
      ensures n == ChestHeld(items, id)
    {
      var i := Find(id);
      n := if i < |items| then items[i].amount else 0;
    }

    method AddItem(id: int, amount: int, slot: int := 0) returns (added: int)
      modifies this`items
      ensures (added, Value()) == ChestPut(old(Value()), id, amount, slot)
      ensures added == 0 ==> items == old(items)
    {
      if amount <= 0 {
        return 0;
      }
      if slot == 0 {
        var i := Find(id);
        if i < |items| {
          if items[i].amount + amount > INT_MAX || items[i].amount + amount > maxChest {
            return 0;
          }
          items := items[i := items[i].(amount := items[i].amount + amount)];
          return amount;
        }
      }
      if |items| >= chestSlots || amount > maxChest {
        return 0;
      }
      if slot == 0 {
        var userItems := CountUserItems();
        if userItems + slots >= chestSlots {
          return 0;
        }
        items := items + [ChestItem(id, amount, 0)];
      } else {
        items := [ChestItem(id, amount, slot)] + items;
      }
      return amount;
    }

    method CountUserItems() returns (userItems: nat)
      ensures userItems == UserItems(items)
    {
      userItems := 0;
      var j := 0;
      while j < |items|
        invariant j <= |items| && UserItems(items) == userItems + UserItems(items[j..])
      {
        assert items[j..][1..] == items[j + 1..];
        if items[j].slot == 0 {
          userItems := userItems + 1;
        }
        j := j + 1;
      }
    }

    /** The loop over the spawns of a slot that was taken from. */
    method MarkTaken(slot: int, now: int)
      modifies this`spawns
      ensures spawns == Marked(old(spawns), slot, now)
    {
      var j := 0;
      while j < |spawns|
        invariant j <= |spawns| == |old(spawns)|
        invariant forall i :: 0 <= i < j ==> spawns[i] == Marked(old(spawns), slot, now)[i]
        invariant forall i :: j <= i < |spawns| ==> spawns[i] == old(spawns)[i]
      {
        if spawns[j].slot == slot {
          spawns := spawns[j := spawns[j].(lastTaken := now)];
        }
        j := j + 1;
      }
    }

    method DelItem(id: int, now: int) returns (n: int)
      modifies this`items, this`spawns
      ensures n == ChestHeld(old(items), id) && spawns == MarkedFor(old(spawns), old(items), id, now)
      ensures
        var i := ChestIndex(old(items), id);
        items == if i == |old(items)| then old(items) else old(items)[..i] + old(items)[i + 1..]
    {
      var i := Find(id);
      if i == |items| {
        return 0;
      }
      n := items[i].amount;
      if items[i].slot != 0 {
        MarkTaken(items[i].slot, now);
      }
      items := items[..i] + items[i + 1..];
    }

    /** Answers what is left of the item, or all there was if all of it goes. */
    method DelSomeItem(id: int, amount: int, now: int) returns (n: int)
      modifies this`items, this`spawns
      ensures Value() == ChestTaken(old(Value()), id, amount) && spawns == MarkedFor(old(spawns), old(items), id, now)
      ensures
        var held := ChestHeld(old(items), id);
        n == if ChestIndex(old(items), id) < |old(items)| && amount < held then held - amount else held
    {
      var i := Find(id);
      if i == |items| {
        return 0;
      }
      if amount < items[i].amount {
        if items[i].slot != 0 {
          MarkTaken(items[i].slot, now);
        }
        items := items[i := ChestItem(id, items[i].amount - amount, 0)];
        return items[i].amount;
      }
      n := DelItem(id, now);
    }
  }

  class Map {
    const rules: Rules
    const chests: seq<MapChest>
    var items: seq<FloorItem>

    ghost predicate Valid() {
      rules.Valid() && (forall i, j :: 0 <= i < j < |chests| ==> chests[i] != chests[j])
    }

    ghost function Chests(): (s: seq<Chest>)
      reads chests
      ensures |s| == |chests| && (forall i :: 0 <= i < |s| ==> s[i] == chests[i].Value())
    {
      seq(|chests|, i requires 0 <= i < |chests| reads chests => chests[i].Value())
    }

    /** Puts an item on the floor. For a player's drop a full tile or map refuses it, with id 0 for an answer. */
    method AddItem(id: int, amount: int, x: int, y: int, fromPlayer: bool) returns (item: FloorItem)
      modifies this`items
      ensures items ==
        if fromPlayer && Full(rules, old(items), x, y) then old(items) else Dropped(old(items), id, amount, x, y)
      ensures (item.id, item.amount, item.x, item.y) == (id, amount, x, y)
      ensures if fromPlayer && Full(rules, old(items), x, y) then item.uid == 0 else item == items[|items| - 1]
    {
      item := FloorItem(0, id, amount, x, y);
      if fromPlayer {
        var onTile, onMap := 0, 0;
        while onMap < |items|
          invariant onMap <= |items| && OnTile(items, x, y) == onTile + OnTile(items[onMap..], x, y)
        {
          assert items[onMap..][1..] == items[onMap + 1..];
          if items[onMap].x == x && items[onMap].y == y {
            onTile := onTile + 1;
          }
          onMap := onMap + 1;
        }
        if onTile >= rules.maxTile || onMap >= rules.maxMap {
          return;
        }
      }
      var uids := Uids(items);
      var uid := GenerateItemID(uids);
      LeastFreeIsNext(uids, uid);
      item := item.(uid := Short(uid));
      items := items + [item];
    }

    method Find(uid: int) returns (i: nat)
      ensures i == FloorIndex(items, uid)
    {
      i := 0;
      while i < |items| && items[i].uid != uid
        invariant i <= |items| && (forall j :: 0 <= j < i ==> items[j].uid != uid)
      {
        i := i + 1;
      }
      FirstIs(items, OfUid(uid), i);
    }

    method DelSomeItem(uid: int, amount: int)
      modifies this`items
      ensures items == PickedUp(old(items), uid, amount)
    {
      if amount < 0 {
        return;
      }
      var i := Find(uid);
      if i < |items| {
        if amount < items[i].amount {
          items := items[i := items[i].(amount := items[i].amount - amount)];
        } else {
          items := items[..i] + items[i + 1..];
        }
      }
    }
  }

  /** A handler's world: one character on one map, apart from each other. */
  ghost predicate Ready(c: Character, m: Map)
    reads c, c.paperdoll
  {
    c.Valid() && c.Weighed() && m.Valid() && c.rules == m.rules
  }

  /** `near`: the place is at most one step away and is a chest. */
  method ChestAdd(c: Character, m: Map, near: bool, x: int, y: int, id: int, amount: int)
    requires Ready(c, m)
    modifies c`inventory, c`weight, m.chests
    ensures Ready(c, m)
    ensures (c.Holdings(), m.Chests()) ==
      if old(c.trading) || old(c.noInteract) || !near then (old(c.Holdings()), old(m.Chests()))
      else ChestAdded(c.rules, old(c.Holdings()), old(m.Chests()), x, y, id, amount)
  {
    hide ChestPut, Taken, ChestHeld, Weight;
    if c.trading || c.noInteract || c.rules.Get(id).special == Lore || !near {
      return;
    }
    var k := FindChest(m, x, y);
    if k == |m.chests| {
      return;
    }
    var there := m.chests[k].HasItem(id);
    var n := Min(amount, c.rules.maxChest - there);
    var has := c.HasItem(id);
    if has >= n {
      PutInto(c, m, k, id, n);
    }
  }

  /** The loop over the chests to the first one at a place. */
  method FindChest(m: Map, x: int, y: int) returns (k: nat)
    ensures k == ChestAt(m.Chests(), x, y, 0)
  {
    k := 0;
    while k < |m.chests| && !(m.chests[k].x == x && m.chests[k].y == y)
      invariant k <= |m.chests| && ChestAt(m.Chests(), x, y, 0) == ChestAt(m.Chests(), x, y, k)
    {
      k := k + 1;
    }
  }

  method PutInto(c: Character, m: Map, k: nat, id: int, n: int)
    requires Ready(c, m) && k < |m.chests|
    modifies c`inventory, c`weight, m.chests[k]
    ensures Ready(c, m)
    ensures
      var (added, chest) := ChestPut(old(m.Chests())[k], id, n, 0);
      (c.Holdings(), m.Chests()) ==
        if added == 0 then (old(c.Holdings()), old(m.Chests()))
        else (old(c.Holdings()).(inventory := Taken(old(c.inventory), id, n).1), old(m.Chests())[k := chest])
  {
    hide ChestPut, Taken, Weight;
    ghost var chests := m.Chests();
    var added := m.chests[k].AddItem(id, n);
    if added == 0 {
      assert m.Chests() == chests;
      return;
    }
    TakenCounts(c.inventory, id, n, 0);
    var _ := c.DelItem(id, n);
    assert m.Chests() == chests[k := m.chests[k].Value()];
  }

  method ChestTake(c: Character, m: Map, near: bool, x: int, y: int, id: int, now: int)
    requires Ready(c, m)
    modifies c`inventory, c`weight, m.chests
    ensures Ready(c, m)
    ensures (c.Holdings(), m.Chests()) ==
      if !near then (old(c.Holdings()), old(m.Chests()))
      else ChestTook(c.rules, old(c.Holdings()), old(m.Chests()), x, y, id)
  {
    hide Put, ChestTaken, ChestHeld, Weight, CanHold;
    if !near {
      return;
    }
    var k, taken := FindTaking(c, m, x, y, id);
    if taken > 0 {
      TakeFrom(c, m, k, id, taken, now);
    }
  }

  /** The loop over the chests: on to the next as long as nothing can be taken. */
  method FindTaking(c: Character, m: Map, x: int, y: int, id: int) returns (k: nat, taken: int)
    requires Ready(c, m)
    ensures (k, taken) == ChestTaking(c.rules, c.Holdings(), m.Chests(), x, y, id, 0)
  {
    hide ChestHeld, Weight, CanHold, ChestTaking;
    ghost var h, chests := c.Holdings(), m.Chests();
    k, taken := 0, 0;
    while k < |m.chests|
      invariant k <= |m.chests|
      invariant ChestTaking(c.rules, h, chests, x, y, id, 0) == ChestTaking(c.rules, h, chests, x, y, id, k)
    {
      TakingStep(c.rules, h, chests, x, y, id, k);
      var chest := m.chests[k];
      if chest.x == x && chest.y == y {
        var there := chest.HasItem(id);
        taken := c.CanHoldItem(id, there);
        if taken > 0 {
          return;
        }
      }
      k := k + 1;
    }
    TakingStep(c.rules, h, chests, x, y, id, k);
    taken := 0;
  }

  lemma TakingStep(r: Rules, h: Holdings, chests: seq<Chest>, x: int, y: int, id: int, k: nat)
    requires r.Valid() && k <= |chests|
    ensures ChestTaking(r, h, chests, x, y, id, k) ==
      if k == |chests| then (k, 0)
      else
        var n := CanHold(r, h, id, ChestHeld(chests[k].items, id));
        if chests[k].x == x && chests[k].y == y && n > 0 then (k, n)
        else ChestTaking(r, h, chests, x, y, id, k + 1)
  {
    hide CanHold, ChestHeld;
  }

  method TakeFrom(c: Character, m: Map, k: nat, id: int, taken: int, now: int)
    requires Ready(c, m) && k < |m.chests| && 0 < taken <= INT_MAX
    modifies c`inventory, c`weight, m.chests[k]
    ensures Ready(c, m)
    ensures c.Holdings() == old(c.Holdings()).(inventory := Put(c.rules, old(c.inventory), id, taken).1)
    ensures m.Chests() == old(m.Chests())[k := ChestTaken(old(m.Chests())[k], id, taken)]
  {
    hide Put, ChestTaken, Weight;
    var _ := m.chests[k].DelSomeItem(id, taken, now);
    PutCounts(c.rules, c.inventory, id, taken, 0);
    var _ := c.AddItem(id, taken);
  }

  method LockerAdd(c: Character, near: bool, id: int, amount0: int)
    requires c.Valid() && c.Weighed()
    modifies c`inventory, c`weight, c`bank
    ensures c.Valid() && c.Weighed()
    ensures c.Holdings() ==
      if old(c.trading) || !near then old(c.Holdings()) else LockerAdded(c.rules, old(c.Holdings()), id, amount0)
  {
    hide Taken, Weight;
    var amount := amount0;
    if c.trading || id == GOLD || amount <= 0 {
      return;
    }
    var has := c.HasItem(id);
    if has < amount || !near {
      return;
    }
    var i := FindStack(c.bank, id);
    if i < |c.bank| {
      if c.bank[i].amount + amount > INT_MAX {
        return;
      }
      amount := Min(amount, c.rules.maxBank - c.bank[i].amount);
      MoveToBank(c, c.bank[i := Stack(id, c.bank[i].amount + amount)], id, amount);
    } else {
      if |c.bank| >= c.lockerMax {
        return;
      }
      amount := Min(amount, c.rules.maxBank);
      MoveToBank(c, c.bank + [Stack(id, amount)], id, amount);
    }
  }

  /** The new locker, and what the two branches have in common. */
  method MoveToBank(c: Character, bank: seq<Stack>, id: int, amount: int)
    requires c.Valid() && Stacked(bank)
    modifies c`inventory, c`weight, c`bank
    ensures c.Valid() && c.Weighed()
    ensures c.Holdings() == old(c.Holdings()).(locker := bank, inventory := Taken(old(c.inventory), id, amount).1)
  {
    hide Taken, Weight;
    c.bank := bank;
    TakenCounts(c.inventory, id, amount, 0);
    var _ := c.DelItem(id, amount);
    c.CalculateStats();
  }

  /** The stack is added to the inventory first and shortened in the locker afterwards. */
  method LockerTake(c: Character, near: bool, id: int)
    requires c.Valid() && c.Weighed()
    modifies c`inventory, c`weight, c`bank
    ensures c.Valid() && c.Weighed()
    ensures c.Holdings() ==
      if old(c.trading) || !near then old(c.Holdings()) else LockerTook(c.rules, old(c.Holdings()), id)
  {
    hide Put, Weight, CanHold;
    if c.trading || !near {
      return;
    }
    var i := FindStack(c.bank, id);
    if i < |c.bank| {
      var taken := c.CanHoldItem(id, c.bank[i].amount);
      if taken > 0 {
        PutCounts(c.rules, c.inventory, id, taken, 0);
      }
      NothingPut(c.rules, c.inventory, id, taken);
      var _ := c.AddItem(id, taken);
      c.CalculateStats();
      ghost var h := c.Holdings();
      ShortenBank(c, i, taken);
      WeightOfBelongings(c.rules, h, c.Holdings());
    }
  }

  method ShortenBank(c: Character, i: nat, taken: int)
    requires i < |c.bank| && Stacked(c.bank) && taken >= 0
    modifies c`bank
    ensures
      var rest := old(c.bank)[i].amount - taken;
      c.bank == if rest <= 0 then old(c.bank)[..i] + old(c.bank)[i + 1..]
                else old(c.bank)[i := Stack(old(c.bank)[i].id, rest)]
    ensures Stacked(c.bank)
  {
    ListAfter(c.bank, i, Stack(c.bank[i].id, c.bank[i].amount - taken));
    c.bank := c.bank[i := Stack(c.bank[i].id, c.bank[i].amount - taken)];
    if c.bank[i].amount <= 0 {
      c.bank := c.bank[..i] + c.bank[i + 1..];
    }
  }

  lemma ListAfter<T>(s: seq<T>, i: nat, v: T)
    requires i < |s|
    ensures s[i := v][..i] + s[i := v][i + 1..] == s[..i] + s[i + 1..]
  {
  }

  method BankAdd(c: Character, atBank: bool, amount0: int)
    requires c.Valid() && c.Weighed() && amount0 <= INT_MAX
    modifies c`inventory, c`weight, c`goldbank
    ensures c.Valid() && c.Weighed()
    ensures c.Holdings() ==
      if old(c.trading) || !atBank then old(c.Holdings()) else BankAdded(c.rules, old(c.Holdings()), amount0)
  {
    hide Taken, Weight;
    if c.trading || amount0 <= 0 {
      return;
    }
    var has := c.HasItem(GOLD);
    var amount := Min(amount0, has);
    if atBank {
      var newGold := c.goldbank + amount;
      if newGold > INT_MAX || newGold > c.rules.maxBankGold {
        return;
      }
      TakenCounts(c.inventory, GOLD, amount, 0);
      HeldIsNotNegative(c.inventory, GOLD);
      var _ := c.DelItem(GOLD, amount);
      ghost var h := c.Holdings();
      c.goldbank := newGold;
      WeightOfBelongings(c.rules, h, c.Holdings());
    }
  }

  lemma HeldIsNotNegative(s: seq<Stack>, id: int)
    requires Stacked(s)
    ensures Held(s, id) >= 0
  {
  }

  method BankTake(c: Character, atBank: bool, amount: int)
    requires c.Valid() && c.Weighed() && amount <= INT_MAX
    modifies c`inventory, c`weight, c`goldbank
    ensures c.Valid() && c.Weighed()
    ensures c.Holdings() == if !atBank then old(c.Holdings()) else BankTook(c.rules, old(c.Holdings()), amount)
  {
    hide Put, Weight;
    if amount <= 0 {
      return;
    }
    if atBank {
      var newGold := c.goldbank - amount;
      if newGold < 0 {
        return;
      }
      PutCounts(c.rules, c.inventory, GOLD, amount, 0);
      ghost var h := c.Holdings();
      c.goldbank := newGold;
      WeightOfBelongings(c.rules, h, c.Holdings());
      var _ := c.AddItem(GOLD, amount);
    }
  }

  /** `near`: the place is walkable, within reach and not in the jail. */
  method ItemDrop(c: Character, m: Map, near: bool, id: int, amount0: int, x: int, y: int)
    requires Ready(c, m)
    modifies c`inventory, c`weight, m`items
    ensures Ready(c, m)
    ensures (c.Holdings(), m.items) ==
      if old(c.trading) || old(c.noInteract) || !near then (old(c.Holdings()), old(m.items))
      else ItemDropped(c.rules, old(c.Holdings()), old(m.items), id, amount0, x, y)
  {
    hide Taken, Weight, Dropped, Full;
    if c.trading || c.noInteract || c.rules.Get(id).special == Lore {
      return;
    }
    var amount := Min(amount0, c.rules.maxDrop);
    if amount <= 0 || !near {
      return;
    }
    var has := c.HasItem(id);
    if has >= amount {
      var _ := m.AddItem(id, amount, x, y, true);
      TakenCounts(c.inventory, id, amount, 0);
      var _ := c.DelItem(id, amount);
    }
  }

  method ItemJunk(c: Character, id: int, amount: int)
    requires c.Valid() && c.Weighed()
    modifies c`inventory, c`weight
    ensures c.Valid() && c.Weighed()
    ensures c.Holdings() == if old(c.trading) then old(c.Holdings()) else ItemJunked(old(c.Holdings()), id, amount)
  {
    hide Taken, Weight;
    if c.trading || amount <= 0 {
      return;
    }
    var has := c.HasItem(id);
    if has >= amount {
      TakenCounts(c.inventory, id, amount, 0);
      var _ := c.DelItem(id, amount);
    }
  }

  /** `near`: within reach, and not protected by its owner. */
  method ItemGet(c: Character, m: Map, near: bool, uid: int)
    requires Ready(c, m)
    modifies c`inventory, c`weight, m`items
    ensures Ready(c, m)
    ensures (c.Holdings(), m.items) ==
      if !near then (old(c.Holdings()), old(m.items)) else ItemGot(c.rules, old(c.Holdings()), old(m.items), uid)
  {
    hide Put, Weight, CanHold, PickedUp;
    var i := m.Find(uid);
    if i == |m.items| || !near {
      return;
    }
    var item := m.items[i];
    var taken := c.CanHoldItem(item.id, item.amount);
    if taken > 0 {
      PutCounts(c.rules, c.inventory, item.id, taken, 0);
      var _ := c.AddItem(item.id, taken);
      m.DelSomeItem(item.uid, taken);
    }
  }

  /** Dying: the inventory goes first, then what is worn, by way of the inventory. */
  method DropAll(c: Character, m: Map, x: int, y: int)
    requires Ready(c, m)
    modifies c`inventory, c`weight, c.paperdoll, m`items
    ensures Ready(c, m)
    ensures (c.Holdings(), m.items) ==
      if old(c.noInteract) then (old(c.Holdings()), old(m.items))
      else AllDropped(c.rules, old(c.Holdings()), old(m.items), x, y)
  {
    if c.noInteract {
      return;
    }
    StacksDroppedCounts(c.rules, c.inventory, m.items, x, y, 0);
    DropStacks(c, m, x, y);
    c.CalculateStats();
    DropDoll(c, m, x, y);
  }

  method DropStacks(c: Character, m: Map, x: int, y: int)
    requires c.rules.Valid() && m.rules == c.rules
    modifies c`inventory, m`items
    ensures (c.inventory, m.items) == StacksDropped(c.rules, old(c.inventory), old(m.items), x, y)
  {
    hide Dropped, Full;
    var k := 0;
    ghost var all := StacksDropped(c.rules, c.inventory, m.items, x, y);
    assert c.inventory[0..] == c.inventory && c.inventory[..0] + all.0 == all.0;
    while k < |c.inventory|
      invariant k <= |c.inventory|
      invariant all.0 == c.inventory[..k] + StacksDropped(c.rules, c.inventory[k..], m.items, x, y).0
      invariant all.1 == StacksDropped(c.rules, c.inventory[k..], m.items, x, y).1
      decreases |c.inventory| - k
    {
      var st := c.inventory[k];
      Shift(c.inventory, k, StacksDropped(c.rules, c.inventory[k + 1..], m.items, x, y).0);
      if c.rules.Get(st.id).special == Lore {
        k := k + 1;
      } else {
        var _ := m.AddItem(st.id, st.amount, x, y, false);
        c.inventory := c.inventory[..k] + c.inventory[k + 1..];
      }
    }
    assert c.inventory[k..] == [] && c.inventory[..k] + [] == c.inventory;
  }

  lemma Shift<T>(s: seq<T>, k: nat, t: seq<T>)
    requires k < |s|
    ensures s[k..] == [s[k]] + s[k + 1..] && s[k..][1..] == s[k + 1..] && s[k..] != []
    ensures s[..k] + ([s[k]] + t) == s[..k + 1] + t
    ensures (s[..k] + s[k + 1..])[..k] == s[..k] && (s[..k] + s[k + 1..])[k..] == s[k + 1..]
  {
  }

  method DropDoll(c: Character, m: Map, x: int, y: int)
    requires Ready(c, m)
    modifies c`inventory, c`weight, c.paperdoll, m`items
    ensures Ready(c, m)
    ensures (c.Holdings(), m.items) == DollDropped(c.rules, old(c.Holdings()), old(m.items), x, y, 0)
  {
    hide Dropped, Full, Unequipped, Taken, Weight;
    var i := 0;
    while i < c.paperdoll.Length
      invariant i <= SLOTS == c.paperdoll.Length && Ready(c, m)
      invariant DollDropped(c.rules, c.Holdings(), m.items, x, y, i)
        == DollDropped(c.rules, old(c.Holdings()), old(m.items), x, y, 0)
    {
      var id := c.paperdoll[i];
      if !Stays(c.rules, id) {
        var _ := m.AddItem(id, 1, x, y, false);
        var _ := c.Unequip(id, SublocOf(i));
        TakenCounts(c.inventory, id, 1, 0);
        var _ := c.DelItem(id, 1);
      }
      i := i + 1;
    }
  }

  /** Putting on: not while trading. */
  method PaperdollAdd(c: Character, id: int, subloc: int, suits: bool)
    requires c.Valid() && c.Weighed()
    modifies c`inventory, c`weight, c.paperdoll
    ensures c.Valid() && c.Weighed()
    ensures c.Holdings() ==
      if old(c.trading) then old(c.Holdings()) else Equipped(c.rules, old(c.Holdings()), id, subloc, suits).1
  {
    hide Weight, HandsAllow, Taken;
    if c.trading {
      return;
    }
    var _ := c.Equip(id, subloc, suits);
  }

  /** Taking off: anything but a cursed item. */
  method PaperdollRemove(c: Character, id: int, subloc: int)
    requires c.Valid() && c.Weighed()
    modifies c`inventory, c`weight, c.paperdoll
    ensures c.Valid() && c.Weighed()
    ensures c.Holdings() ==
      if c.rules.Get(id).special == Cursed then old(c.Holdings())
      else Unequipped(c.rules, old(c.Holdings()), id, subloc).1
  {
    hide Weight, Put;
    if c.rules.Get(id).special == Cursed {
      return;
    }
    var _ := c.Unequip(id, subloc);
  }
}
