/** Who damaged an NPC how much (src/npc.cpp), and the registrations that keep the list free of dead pointers. */
module DamageLedger {
  import opened Bytes
  import Shares

  datatype Opponent = Opponent(attacker: Character, damage: int)

  function Sum(list: seq<Opponent>): int {
    if list == [] then 0 else list[0].damage + Sum(list[1..])
  }

  /** Where a character is in the list. */
  function Entry(list: seq<Opponent>, c: Character): (i: nat)
    ensures i <= |list| && (forall j :: 0 <= j < i ==> list[j].attacker != c)
    ensures i < |list| ==> list[i].attacker == c
  {
    First(list, Is(c))
  }

  function Is(c: Character): Opponent -> bool {
    (o: Opponent) => o.attacker == c
  }

  lemma EntryIs(list: seq<Opponent>, c: Character, i: nat)
    requires i <= |list| && (forall j :: 0 <= j < i ==> list[j].attacker != c) && (i < |list| ==> list[i].attacker == c)
    ensures Entry(list, c) == i
  {
    FirstIs(list, Is(c), i);
  }

  predicate Distinct(list: seq<Opponent>) {
    forall i, j :: 0 <= i < j < |list| ==> list[i].attacker != list[j].attacker
  }

  predicate NonNegative(list: seq<Opponent>) {
    forall i :: 0 <= i < |list| ==> list[i].damage >= 0
  }

  const INT_MIN := -0x8000_0000

  /** The test `a + b > a` on a 32-bit int that wraps around. */
  predicate Adds(a: int, b: int) {
    (if a + b > INT_MAX then a + b - 0x1_0000_0000 else a + b) > a
  }

  /** What that test lets through: nothing that is not positive, and nothing that overflows. */
  lemma AddsIff(a: int, b: int)
    requires 0 <= a <= INT_MAX && INT_MIN <= b <= INT_MAX
    ensures Adds(a, b) <==> 0 < b && a + b <= INT_MAX
  {
  }

  /** How much a sum takes of an amount. */
  function Accepted(sum: int, amount: int): int {
    if 0 < amount && sum + amount <= INT_MAX then amount else 0
  }

  /** The list after a hit; a new entry gets the amount as it is. */
  function Struck(list: seq<Opponent>, c: Character, amount: int): seq<Opponent> {
    var i := Entry(list, c);
    if i == |list| then list + [Opponent(c, amount)]
    else list[i := Opponent(c, list[i].damage + Accepted(list[i].damage, amount))]
  }

  /**
   A hit adds to the attacker's entry what fits into an int, or makes a new last entry with all of it; no other entry
   changes.
   */
  lemma StruckExact(list: seq<Opponent>, c: Character, amount: int, i: nat)
    ensures
      var after := Struck(list, c, amount);
      && ((forall o :: o in list ==> o.attacker != c) ==> after == list + [Opponent(c, amount)])
      && (i < |list| && list[i].attacker == c && (forall j :: 0 <= j < i ==> list[j].attacker != c) ==>
            var sum := list[i].damage + amount;
            after == list[i := Opponent(c, if amount > 0 && sum <= 0x7fff_ffff then sum else list[i].damage)])
  {
    if forall o :: o in list ==> o.attacker != c {
      EntryIs(list, c, |list|);
    } else if i < |list| && list[i].attacker == c && (forall j :: 0 <= j < i ==> list[j].attacker != c) {
      EntryIs(list, c, i);
    }
  }

  /** Leaving takes the one entry away and no other. */
  lemma WithoutExact(list: seq<Opponent>, c: Character)
    requires Distinct(list)
    ensures forall o :: o in Without(list, c) <==> o in list && o.attacker != c
  {
    var i := Entry(list, c);
    var after := Without(list, c);
    forall o | o in list && o.attacker != c ensures o in after {
      var k :| 0 <= k < |list| && list[k] == o;
      if i < |list| {
        assert after[if k < i then k else k - 1] == o;
      }
    }
  }

  /** How much the list takes of a hit. */
  function Listed(list: seq<Opponent>, c: Character, amount: int): int {
    var i := Entry(list, c);
    if i == |list| then amount else Accepted(list[i].damage, amount)
  }

  /** The total and the list take the hit alike. */
  predicate Tallies(list: seq<Opponent>, total: int, c: Character, amount: int) {
    Accepted(total, amount) == Listed(list, c, amount)
  }

  function Without(list: seq<Opponent>, c: Character): seq<Opponent> {
    var i := Entry(list, c);
    if i < |list| then list[..i] + list[i + 1..] else list
  }

  lemma {:induction false} SumAppend(a: seq<Opponent>, b: seq<Opponent>)
    ensures Sum(a + b) == Sum(a) + Sum(b)
  {
    if a == [] {
      assert a + b == b;
    } else {
      SumAppend(a[1..], b);
      assert (a + b)[1..] == a[1..] + b;
    }
  }

  lemma SumRemove(list: seq<Opponent>, i: nat)
    requires i < |list|
    ensures Sum(list[..i] + list[i + 1..]) == Sum(list) - list[i].damage
  {
    SumAppend(list[..i], list[i + 1..]);
    SumAppend(list[..i], list[i..]);
    assert list == list[..i] + list[i..];
    assert list[i..][1..] == list[i + 1..];
  }

  lemma StruckSum(list: seq<Opponent>, c: Character, amount: int)
    ensures Sum(Struck(list, c, amount)) == Sum(list) + Listed(list, c, amount)
  {
    hide Sum;
    var i := Entry(list, c);
    if i == |list| {
      SumAppend(list, [Opponent(c, amount)]);
      SumOne(Opponent(c, amount));
    } else {
      var after := Struck(list, c, amount);
      SumRemove(list, i);
      SumRemove(after, i);
      assert after[..i] == list[..i] && after[i + 1..] == list[i + 1..];
    }
  }

  lemma SumOne(o: Opponent)
    ensures Sum([o]) == o.damage
  {
    assert [o][1..] == [];
  }

  lemma StruckDistinct(list: seq<Opponent>, c: Character, amount: int)
    requires Distinct(list)
    ensures Distinct(Struck(list, c, amount))
    ensures NonNegative(list) ==>
      (NonNegative(Struck(list, c, amount)) <==> amount >= 0 || Entry(list, c) < |list|)
  {
    var after := Struck(list, c, amount);
    if Entry(list, c) == |list| {
      assert after[|list|] == Opponent(c, amount);
      assert forall i :: 0 <= i < |list| ==> after[i] == list[i];
    }
  }

  lemma RemoveDistinct(list: seq<Opponent>, i: nat)
    requires Distinct(list) && i < |list|
    ensures
      var after := list[..i] + list[i + 1..];
      && Distinct(after)
      && (NonNegative(list) ==> NonNegative(after))
      && (forall j :: 0 <= j < |after| ==>
            after[j] == list[if j < i then j else j + 1] && after[j].attacker != list[i].attacker)
  {
  }

  lemma WithoutDistinct(list: seq<Opponent>, c: Character)
    requires Distinct(list)
    ensures Distinct(Without(list, c)) && (NonNegative(list) ==> NonNegative(Without(list, c)))
    ensures forall o :: o in Without(list, c) ==> o in list && o.attacker != c
    ensures Sum(Without(list, c)) == Sum(list) - (if Entry(list, c) < |list| then list[Entry(list, c)].damage else 0)
  {
    hide Sum, Distinct, NonNegative;
    var i := Entry(list, c);
    if i < |list| {
      SumRemove(list, i);
      RemoveDistinct(list, i);
    }
  }

  /** `std::remove` and `erase`. */
  function Removed(ns: seq<NPC>, n: NPC): seq<NPC> {
    if ns == [] then [] else (if ns[0] == n then [] else [ns[0]]) + Removed(ns[1..], n)
  }

  lemma {:induction false} RemovedIn(ns: seq<NPC>, n: NPC, m: NPC)
    ensures m in Removed(ns, n) <==> m in ns && m != n
  {
    if ns != [] {
      RemovedIn(ns[1..], n, m);
      assert m in ns <==> m == ns[0] || m in ns[1..];
    }
  }

  class Character {
    var unregister: seq<NPC>  // the NPCs whose lists may name this character
    var exp: int

    constructor ()
      ensures unregister == []
    {
      unregister, exp := [], 0;
    }
  }

  class NPC {
    const fights: bool  // passive or aggressive: not killed by any hit
    const maxHp: nat
    var hp: int
    var totalDamage: int
    var damageList: seq<Opponent>

    constructor (fights: bool, maxHp: nat)
      ensures Sound() && damageList == []
    {
      this.fights, this.maxHp, hp := fights, maxHp, maxHp;
      totalDamage, damageList := 0, [];
    }

    ghost predicate Sound()
      reads this
    {
      Distinct(damageList) && NonNegative(damageList) && totalDamage == Sum(damageList)
    }

    /** The ledger part of a hit: total and list still agree if and only if they took it alike. */
    method Enter(from: Character, limitAmount: int)
      requires Sound() && totalDamage <= INT_MAX && INT_MIN <= limitAmount <= INT_MAX
      modifies this`totalDamage, this`damageList, from`unregister
      ensures Distinct(damageList)
      ensures damageList == Struck(old(damageList), from, limitAmount)
      ensures totalDamage == old(totalDamage) + Accepted(old(totalDamage), limitAmount)
      ensures Sound() <==> Tallies(old(damageList), old(totalDamage), from, limitAmount)
      ensures
        var first := Entry(old(damageList), from) == |old(damageList)|;
        from.unregister == old(from.unregister) + (if first then [this] else [])
    {
      hide Sum, Distinct, Adds, Struck;
      StruckSum(damageList, from, limitAmount);
      StruckDistinct(damageList, from, limitAmount);
      SumNonNegative(damageList);
      EntriesBelowSum(damageList);
      AddsIff(totalDamage, limitAmount);
      StruckNew(damageList, from, limitAmount);
      if Adds(totalDamage, limitAmount) {
        totalDamage := totalDamage + limitAmount;
      }
      var found := Credit(from, limitAmount);
      if !found {
        from.unregister := from.unregister + [this];
        damageList := damageList + [Opponent(from, limitAmount)];
      }
    }

    /** The loop that adds to the attacker's entry. */
    method Credit(from: Character, limitAmount: int) returns (found: bool)
      requires Distinct(damageList) && INT_MIN <= limitAmount <= INT_MAX
      requires forall i :: 0 <= i < |damageList| ==> 0 <= damageList[i].damage <= INT_MAX
      modifies this`damageList
      ensures found == (Entry(old(damageList), from) < |old(damageList)|)
      ensures damageList == if found then Struck(old(damageList), from, limitAmount) else old(damageList)
    {
      hide Sum, Adds;
      found := false;
      ghost var at := Entry(damageList, from);
      var i := 0;
      while i < |damageList|
        invariant i <= |damageList| == |old(damageList)| && found == (at < i)
        invariant damageList == if found then Struck(old(damageList), from, limitAmount) else old(damageList)
        decreases |damageList| - i
      {
        if damageList[i].attacker == from {
          found := true;
          AddsIff(damageList[i].damage, limitAmount);
          if Adds(damageList[i].damage, limitAmount) {
            damageList := damageList[i := Opponent(from, damageList[i].damage + limitAmount)];
          }
        }
        i := i + 1;
      }
    }

    /** What `Killed` and `Die` both do to the ledger: every attacker forgets the NPC, and it forgets them. */
    method Clear()
      requires Distinct(damageList)
      modifies this`totalDamage, this`damageList, (set o | o in damageList :: o.attacker)`unregister
      ensures Sound() && damageList == [] && totalDamage == 0
      ensures forall o :: o in old(damageList) ==> o.attacker.unregister == Removed(old(o.attacker.unregister), this)
    {
      ghost var list := damageList;
      var i := 0;
      while i < |damageList|
        invariant i <= |damageList| && damageList == list
        invariant forall j :: 0 <= j < i ==>
          list[j].attacker.unregister == Removed(old(list[j].attacker.unregister), this)
        invariant forall j :: i <= j < |list| ==> list[j].attacker.unregister == old(list[j].attacker.unregister)
      {
        damageList[i].attacker.unregister := Removed(damageList[i].attacker.unregister, this);
        i := i + 1;
      }
      damageList := [];
      totalDamage := 0;
    }
  }

  lemma {:induction false} EntryBelowSum(list: seq<Opponent>, i: nat)
    requires NonNegative(list) && i < |list|
    ensures 0 <= list[i].damage <= Sum(list)
    decreases |list|
  {
    if i > 0 {
      EntryBelowSum(list[1..], i - 1);
    } else {
      SumNonNegative(list[1..]);
    }
  }

  lemma EntriesBelowSum(list: seq<Opponent>)
    requires NonNegative(list)
    ensures forall i :: 0 <= i < |list| ==> list[i].damage <= Sum(list)
  {
    forall i | 0 <= i < |list| ensures list[i].damage <= Sum(list) {
      EntryBelowSum(list, i);
    }
  }

  lemma {:induction false} SumNonNegative(list: seq<Opponent>)
    requires NonNegative(list)
    ensures Sum(list) >= 0
  {
    if list != [] {
      SumNonNegative(list[1..]);
    }
  }

  // ---------- all NPCs and characters together ----------

  /** Every list names only characters that are online, each once, and has its NPC registered with each of them. */
  ghost predicate Registered(npcs: set<NPC>, chars: set<Character>)
    reads npcs, chars
  {
    && (forall n :: n in npcs ==> Distinct(n.damageList))
    && (forall n, o :: n in npcs && o in n.damageList ==> o.attacker in chars && n in o.attacker.unregister)
    && (forall c, n :: c in chars && n in c.unregister ==> n in npcs)
  }

  /** And every list is sound. */
  ghost predicate Consistent(npcs: set<NPC>, chars: set<Character>)
    reads npcs, chars
  {
    (forall n :: n in npcs ==> n.Sound()) && Registered(npcs, chars)
  }

  /**
   A hit of any amount: only `min(hp, amount)` is entered, whatever is taken off; a kill clears the ledger of this
   NPC. `killed` says whether it died. Registration always stays in order, and so does every other NPC; this one does
   if and only if it died, or its total and its list took the hit alike.
   */
  method Damage(n: NPC, from: Character, amount0: int, limitDamage: bool,
                ghost npcs: set<NPC>, ghost chars: set<Character>)
    returns (killed: bool)
    requires Consistent(npcs, chars) && n in npcs && from in chars
    requires INT_MIN <= n.hp <= INT_MAX && INT_MIN <= amount0 <= INT_MAX && n.totalDamage <= INT_MAX
    modifies n, chars`unregister
    ensures Registered(npcs, chars) && (forall m :: m in npcs && m != n ==> m.Sound())
    ensures Consistent(npcs, chars)
      <==> killed || Tallies(old(n.damageList), old(n.totalDamage), from, Min(old(n.hp), amount0))
    ensures n.hp == if !n.fights then 0 else old(n.hp) - (if limitDamage then Min(old(n.hp), amount0) else amount0)
    ensures killed == (n.hp <= 0)
    ensures n.damageList == if killed then [] else Struck(old(n.damageList), from, Min(old(n.hp), amount0))
  {
    hide Sum, Distinct, NonNegative, Tallies;
    var limitAmount := Min(n.hp, amount0);
    var amount := if limitDamage then limitAmount else amount0;
    if n.fights {
      n.hp := n.hp - amount;
    } else {
      n.hp := 0;
      amount := 0;
    }
    EnterAll(n, from, limitAmount, npcs, chars);
    killed := n.hp <= 0;
    if killed {
      ClearAll(n, npcs, chars);
    }
  }

  /** Damage that is not negative always tallies, as long as the total does not overflow. */
  lemma UsuallyTallies(list: seq<Opponent>, total: int, c: Character, amount: int)
    requires Distinct(list) && NonNegative(list) && total == Sum(list)
    requires 0 <= amount && total + amount <= INT_MAX
    ensures Tallies(list, total, c, amount)
  {
    EntriesBelowSum(list);
  }

  method EnterAll(n: NPC, from: Character, limitAmount: int, ghost npcs: set<NPC>, ghost chars: set<Character>)
    requires Consistent(npcs, chars) && n in npcs && from in chars
    requires n.totalDamage <= INT_MAX && INT_MIN <= limitAmount <= INT_MAX
    modifies n`totalDamage, n`damageList, from`unregister
    ensures Registered(npcs, chars) && (forall m :: m in npcs && m != n ==> m.Sound())
    ensures n.Sound() <==> Tallies(old(n.damageList), old(n.totalDamage), from, limitAmount)
    ensures n.damageList == Struck(old(n.damageList), from, limitAmount)
  {
    hide Sum, Distinct, NonNegative, Struck, Tallies;
    StruckNames(n.damageList, from, limitAmount);
    n.Enter(from, limitAmount);
  }

  lemma StruckNames(list: seq<Opponent>, c: Character, amount: int)
    ensures forall o :: o in Struck(list, c, amount) ==>
      if o.attacker == c then true else o in list
    ensures Entry(list, c) < |list| ==> list[Entry(list, c)] in list
  {
  }

  lemma StruckNew(list: seq<Opponent>, c: Character, amount: int)
    ensures Entry(list, c) == |list| ==> Struck(list, c, amount) == list + [Opponent(c, amount)]
  {
  }

  method ClearAll(n: NPC, ghost npcs: set<NPC>, ghost chars: set<Character>)
    requires Registered(npcs, chars) && n in npcs && (forall m :: m in npcs && m != n ==> m.Sound())
    modifies n`totalDamage, n`damageList, chars`unregister
    ensures Consistent(npcs, chars) && n.damageList == []
  {
    hide Sum, Distinct, NonNegative, Removed;
    ghost var list := n.damageList;
    n.Clear();
    forall c | c in chars
      ensures forall m :: m in old(c.unregister) && m != n ==> m in c.unregister
      ensures forall m :: m in c.unregister ==> m in old(c.unregister)
    {
      forall m: NPC | true
        ensures m in Removed(old(c.unregister), n) <==> m in old(c.unregister) && m != n
      {
        RemovedIn(old(c.unregister), n, m);
      }
      if o :| o in list && o.attacker == c {
        assert c.unregister == Removed(old(c.unregister), n);
      } else {
        assert c.unregister == old(c.unregister);
      }
    }
  }

  lemma WithoutNothing(list: seq<Opponent>, c: Character)
    requires forall o :: o in list ==> o.attacker != c
    ensures Without(list, c) == list
  {
  }

  /** One pass of the loop in `Logout`: the NPC forgets the character. */
  method Forget(n: NPC, c: Character)
    requires n.Sound()
    modifies n`totalDamage, n`damageList
    ensures n.Sound() && n.damageList == Without(old(n.damageList), c)
  {
    hide Sum, Distinct, NonNegative;
    WithoutDistinct(n.damageList, c);
    var i := 0;
    while i < |n.damageList| && n.damageList[i].attacker != c
      invariant i <= |n.damageList| && (forall j :: 0 <= j < i ==> n.damageList[j].attacker != c)
      invariant n.totalDamage == old(n.totalDamage) && n.damageList == old(n.damageList)
    {
      i := i + 1;
    }
    assert i == Entry(n.damageList, c) by { EntryIs(n.damageList, c, i); }
    if i < |n.damageList| {
      n.totalDamage := n.totalDamage - n.damageList[i].damage;
      n.damageList := n.damageList[..i] + n.damageList[i + 1..];
    }
  }

  /**
   After a character has logged out no list names it any more, the other entries are as they were, and the rest
   stays consistent.
   */
  method Logout(c: Character, ghost npcs: set<NPC>, ghost chars: set<Character>)
    requires Consistent(npcs, chars) && c in chars
    modifies npcs
    ensures Consistent(npcs, chars - {c})
    ensures forall n :: n in npcs ==> n.damageList == Without(old(n.damageList), c)
    ensures forall n, o :: n in npcs && o in n.damageList ==> o.attacker != c
    ensures forall n, o :: n in npcs && o in old(n.damageList) && o.attacker != c ==> o in n.damageList
  {
    hide Sum, Distinct, NonNegative, Entry, Without;
    var i := 0;
    while i < |c.unregister|
      invariant i <= |c.unregister| && c.unregister == old(c.unregister)
      invariant forall n :: n in npcs ==> n.Sound()
      invariant forall n :: n in npcs && n in c.unregister[..i] ==> n.damageList == Without(old(n.damageList), c)
      invariant forall n :: n in npcs && n !in c.unregister[..i] ==> n.damageList == old(n.damageList)
    {
      var n := c.unregister[i];
      WithoutDistinct(old(n.damageList), c);
      WithoutNothing(Without(old(n.damageList), c), c);
      Forget(n, c);
      assert c.unregister[..i + 1] == c.unregister[..i] + [n];
      i := i + 1;
    }
    assert c.unregister[..i] == c.unregister;
    forall n | n in npcs
      ensures n.damageList == Without(old(n.damageList), c)
      ensures forall o :: o in n.damageList <==> o in old(n.damageList) && o.attacker != c
    {
      WithoutDistinct(old(n.damageList), c);
      WithoutExact(old(n.damageList), c);
      if n !in c.unregister {
        WithoutNothing(old(n.damageList), c);
      }
    }
  }

  // ---------- rewards by damage (mode 2, rate 1, no party sharing) ----------

  function Damages(list: seq<Opponent>): (ds: seq<nat>)
    requires NonNegative(list)
    ensures |ds| == |list|
    ensures Shares.Sum(ds) == Sum(list)
  {
    if list == [] then [] else [list[0].damage] + Damages(list[1..])
  }

  /** What one character gets for a kill worth `exp`. */
  function RewardOf(exp: nat, list: seq<Opponent>, total: nat, c: Character): nat
    requires NonNegative(list) && total > 0
  {
    var i := Entry(list, c);
    if i < |list| then Shares.CeilDiv(exp * list[i].damage, total) else 0
  }

  /** Of a kill worth `exp` everybody listed gets the part of its damage, rounded up, and nobody else anything. */
  lemma RewardExact(exp: nat, list: seq<Opponent>, total: nat, c: Character, i: nat)
    requires NonNegative(list) && total > 0
    ensures (forall o :: o in list ==> o.attacker != c) ==> RewardOf(exp, list, total, c) == 0
    ensures i < |list| && list[i].attacker == c && (forall j :: 0 <= j < i ==> list[j].attacker != c) ==>
      exp * list[i].damage <= RewardOf(exp, list, total, c) * total < exp * list[i].damage + total
  {
    hide Shares.CeilDiv;
    if forall o :: o in list ==> o.attacker != c {
      EntryIs(list, c, |list|);
    } else if i < |list| && list[i].attacker == c && (forall j :: 0 <= j < i ==> list[j].attacker != c) {
      EntryIs(list, c, i);
    }
  }

  function RewardSum(exp: nat, list: seq<Opponent>, total: nat, cs: seq<Character>): nat
    requires NonNegative(list) && total > 0
  {
    if cs == [] then 0 else RewardOf(exp, list, total, cs[0]) + RewardSum(exp, list, total, cs[1..])
  }

  predicate DistinctCharacters(cs: seq<Character>) {
    forall i, j :: 0 <= i < j < |cs| ==> cs[i] != cs[j]
  }

  lemma {:induction false} OneOpponentMore(exp: nat, list: seq<Opponent>, total: nat, cs: seq<Character>)
    requires list != [] && NonNegative(list) && Distinct(list) && total > 0 && DistinctCharacters(cs)
    ensures RewardSum(exp, list, total, cs) == RewardSum(exp, list[1..], total, cs)
      + (if list[0].attacker in cs then Shares.CeilDiv(exp * list[0].damage, total) else 0)
    decreases |cs|
  {
    if cs != [] {
      OneOpponentMore(exp, list, total, cs[1..]);
      if cs[0] == list[0].attacker {
        EntryIs(list[1..], cs[0], |list| - 1);
        assert cs[0] !in cs[1..];
      }
    }
  }

  lemma {:induction false} RewardSumIsPaid(exp: nat, list: seq<Opponent>, total: nat, cs: seq<Character>)
    requires NonNegative(list) && Distinct(list) && total > 0 && DistinctCharacters(cs)
    requires forall i :: 0 <= i < |list| ==> list[i].attacker in cs
    ensures RewardSum(exp, list, total, cs) == Shares.Paid(exp, Damages(list), total)
    decreases |list|
  {
    if list == [] {
      NobodyListed(exp, total, cs);
    } else {
      OneOpponentMore(exp, list, total, cs);
      RewardSumIsPaid(exp, list[1..], total, cs);
      assert Damages(list)[1..] == Damages(list[1..]);
    }
  }

  lemma {:induction false} NobodyListed(exp: nat, total: nat, cs: seq<Character>)
    requires total > 0
    ensures RewardSum(exp, [], total, cs) == 0
  {
    if cs != [] {
      NobodyListed(exp, total, cs[1..]);
    }
  }

  /** If all attackers are there, a kill pays at least its experience and less than one point more per attacker. */
  lemma RewardBounds(exp: nat, list: seq<Opponent>, cs: seq<Character>)
    requires NonNegative(list) && Distinct(list) && Sum(list) > 0 && DistinctCharacters(cs)
    requires forall i :: 0 <= i < |list| ==> list[i].attacker in cs
    ensures exp <= RewardSum(exp, list, Sum(list), cs) <= exp + |list| - 1
  {
    RewardSumIsPaid(exp, list, Sum(list), cs);
    Shares.PaidExact(exp, Damages(list));
  }

  /** A character's experience after a kill. */
  function Paid(exp: nat, list: seq<Opponent>, total: nat, c: Character, had: int, maxExp: int): int
    requires NonNegative(list) && total > 0
  {
    if exp == 0 || Entry(list, c) == |list| then had else Min(had + RewardOf(exp, list, total, c), maxExp)
  }

  /** It is paid out up to the experience limit; to those not listed, and for nothing, it makes no difference. */
  lemma PaidOut(exp: nat, list: seq<Opponent>, total: nat, c: Character, had: int, maxExp: int)
    requires NonNegative(list) && total > 0
    ensures exp > 0 && (exists i :: 0 <= i < |list| && list[i].attacker == c) ==>
      Paid(exp, list, total, c, had, maxExp) == Min(had + RewardOf(exp, list, total, c), maxExp)
    ensures exp == 0 || (forall i :: 0 <= i < |list| ==> list[i].attacker != c) ==>
      Paid(exp, list, total, c, had, maxExp) == had
  {
    hide RewardOf;
  }

  /** The reward of one character on the map. */
  method RewardOne(n: NPC, c: Character, exp: nat, maxExp: int) returns (reward: nat)
    requires n.Sound() && n.totalDamage > 0
    modifies c`exp
    ensures reward == RewardOf(exp, n.damageList, n.totalDamage, c)
    ensures c.exp == Paid(exp, n.damageList, n.totalDamage, c, old(c.exp), maxExp)
  {
    hide Sum;
    var k := 0;
    while k < |n.damageList| && n.damageList[k].attacker != c
      invariant k <= |n.damageList| && (forall j :: 0 <= j < k ==> n.damageList[j].attacker != c)
    {
      k := k + 1;
    }
    EntryIs(n.damageList, c, k);
    reward := 0;
    if k < |n.damageList| {
      reward := Shares.CeilDiv(exp * n.damageList[k].damage, n.totalDamage);
      if exp != 0 {
        if reward > 0 {
          c.exp := c.exp + reward;
        }
        c.exp := Min(c.exp, maxExp);
      }
    }
  }

  /**
   The loop over the characters on the map: each one listed gets its part, no further than the experience limit.
   `paid` is what all of them are given before that limit.
   */
  method Reward(n: NPC, cs: seq<Character>, exp: nat, maxExp: int) returns (paid: nat)
    requires n.Sound() && n.totalDamage > 0 && DistinctCharacters(cs)
    modifies cs`exp
    ensures paid == RewardSum(exp, n.damageList, n.totalDamage, cs)
    ensures forall i :: 0 <= i < |cs| ==>
      cs[i].exp == Paid(exp, n.damageList, n.totalDamage, cs[i], old(cs[i].exp), maxExp)
    ensures (forall o :: o in n.damageList ==> o.attacker in cs) ==> exp <= paid <= exp + |n.damageList| - 1
  {
    hide Sum, Entry, RewardOf, Paid;
    paid := 0;
    var i := 0;
    assert cs[0..] == cs;
    while i < |cs|
      invariant i <= |cs|
      invariant paid + RewardSum(exp, n.damageList, n.totalDamage, cs[i..])
        == RewardSum(exp, n.damageList, n.totalDamage, cs)
      invariant forall j :: i <= j < |cs| ==> cs[j].exp == old(cs[j].exp)
      invariant forall j :: 0 <= j < i ==>
        cs[j].exp == Paid(exp, n.damageList, n.totalDamage, cs[j], old(cs[j].exp), maxExp)
    {
      var reward := RewardOne(n, cs[i], exp, maxExp);
      assert cs[i..][1..] == cs[i + 1..] && cs[i..][0] == cs[i];
      paid := paid + reward;
      i := i + 1;
    }
    if forall o :: o in n.damageList ==> o.attacker in cs {
      RewardBounds(exp, n.damageList, cs);
    }
  }
}
