/**
 What each player sees, as kept up to date by the two `Map::Walk` functions of src/map.cpp: a step sends
 messages only for the two borders of the view diamond, never for its inside.
 */
module Visibility {

  datatype Pos = Pos(x: int, y: int)

  datatype Direction = Up | Right | Down | Left

  function Abs(n: int): nat {
    if n < 0 then -n else n
  }

  /** `util::path_length` */
  function Distance(p: Pos, q: Pos): nat {
    Abs(p.x - q.x) + Abs(p.y - q.y)
  }

  /** Sight is the diamond between four diagonals. */
  lemma SightIsDiamond(p: Pos, q: Pos, r: int)
    ensures
      var dx, dy := q.x - p.x, q.y - p.y;
      Distance(p, q) <= r <==> dx + dy <= r && dx - dy <= r && dy - dx <= r && -dx - dy <= r
  {
  }

  function Step(p: Pos, d: Direction): Pos {
    match d
    case Up => Pos(p.x, p.y - 1)
    case Right => Pos(p.x + 1, p.y)
    case Down => Pos(p.x, p.y + 1)
    case Left => Pos(p.x - 1, p.y)
  }

  // ---------- the two borders ----------

  /** Cell number `i` of the border that comes into view when a step in direction `d` ends at `p`. */
  function NewCell(p: Pos, d: Direction, r: int, i: int): Pos {
    match d
    case Up => Pos(p.x + i, p.y - r + Abs(i))
    case Right => Pos(p.x + r - Abs(i), p.y + i)
    case Down => Pos(p.x + i, p.y + r - Abs(i))
    case Left => Pos(p.x - r + Abs(i), p.y + i)
  }

  /** Cell number `i` of the border that goes out of view. */
  function OldCell(p: Pos, d: Direction, r: int, i: int): Pos {
    match d
    case Up => Pos(p.x + i, p.y + r + 1 - Abs(i))
    case Right => Pos(p.x - r - 1 + Abs(i), p.y + i)
    case Down => Pos(p.x + i, p.y - r - 1 + Abs(i))
    case Left => Pos(p.x + r + 1 - Abs(i), p.y + i)
  }

  /** The cell's number, counted along the step's cross axis. */
  function Across(p: Pos, d: Direction, c: Pos): int {
    if d.Up? || d.Down? then c.x - p.x else c.y - p.y
  }

  /** The new border is exactly what is near the new position and was not near the old one. */
  lemma NewBorderExact(from: Pos, d: Direction, r: int, c: Pos)
    ensures
      var p := Step(from, d);
      var i := Across(p, d, c);
      (Distance(p, c) <= r && Distance(from, c) > r) <==> (-r <= i <= r && c == NewCell(p, d, r, i))
  {
  }

  /** The old border is exactly what was near the old position and is not near the new one. */
  lemma OldBorderExact(from: Pos, d: Direction, r: int, c: Pos)
    ensures
      var p := Step(from, d);
      var i := Across(p, d, c);
      (Distance(from, c) <= r && Distance(p, c) > r) <==> (-r <= i <= r && c == OldCell(p, d, r, i))
  {
  }

  ghost predicate Distinct<T(!new)>(s: seq<T>) {
    forall i, j :: 0 <= i < j < |s| ==> s[i] != s[j]
  }

  /** The border loop of `Walk`: each border lists each of its cells once, and nothing else. */
  method Borders(ghost from: Pos, p: Pos, d: Direction, r: int) returns (coming: seq<Pos>, leaving: seq<Pos>)
    requires p == Step(from, d)
    ensures |coming| == |leaving| && Distinct(coming) && Distinct(leaving)
    ensures forall c :: c in coming <==> Distance(p, c) <= r && Distance(from, c) > r
    ensures forall c :: c in leaving <==> Distance(from, c) <= r && Distance(p, c) > r
  {
    coming, leaving := [], [];
    var i: int := -r;
    while i <= r
      invariant -r <= i && (i <= r + 1 || i == -r)
      invariant |coming| == |leaving| == i + r
      invariant forall j :: 0 <= j < i + r ==> coming[j] == NewCell(p, d, r, j - r)
      invariant forall j :: 0 <= j < i + r ==> leaving[j] == OldCell(p, d, r, j - r)
    {
      coming := coming + [NewCell(p, d, r, i)];
      leaving := leaving + [OldCell(p, d, r, i)];
      i := i + 1;
    }
    forall c
      ensures c in coming <==> Distance(p, c) <= r && Distance(from, c) > r
    {
      NewListed(from, d, r, coming, c);
    }
    forall c
      ensures c in leaving <==> Distance(from, c) <= r && Distance(p, c) > r
    {
      OldListed(from, d, r, leaving, c);
    }
  }

  lemma NewListed(from: Pos, d: Direction, r: int, cells: seq<Pos>, c: Pos)
    requires |cells| == if r < 0 then 0 else 2 * r + 1
    requires forall j :: 0 <= j < |cells| ==> cells[j] == NewCell(Step(from, d), d, r, j - r)
    ensures c in cells <==> Distance(Step(from, d), c) <= r && Distance(from, c) > r
  {
    var i := Across(Step(from, d), d, c);
    NewBorderExact(from, d, r, c);
    if -r <= i <= r {
      assert cells[i + r] == NewCell(Step(from, d), d, r, i);
    }
  }

  lemma OldListed(from: Pos, d: Direction, r: int, cells: seq<Pos>, c: Pos)
    requires |cells| == if r < 0 then 0 else 2 * r + 1
    requires forall j :: 0 <= j < |cells| ==> cells[j] == OldCell(Step(from, d), d, r, j - r)
    ensures c in cells <==> Distance(from, c) <= r && Distance(Step(from, d), c) > r
  {
    var i := Across(Step(from, d), d, c);
    OldBorderExact(from, d, r, c);
    if -r <= i <= r {
      assert cells[i + r] == OldCell(Step(from, d), d, r, i);
    }
  }

  // ---------- what clients are told ----------

  datatype Entity = Player(n: nat) | Npc(n: nat)

  datatype Message = Appear(e: Entity, p: Pos) | Remove(e: Entity) | Move(e: Entity, p: Pos)

  /** The entities a client shows, and where. */
  type View = map<Entity, Pos>

  function Apply(v: View, m: Message): View {
    match m
    case Appear(e, p) => v[e := p]
    case Remove(e) => v - {e}
    case Move(e, p) => if e in v then v[e := p] else v
  }

  datatype NpcState = NpcState(pos: Pos, alive: bool)

  ghost predicate Present(chars: seq<Pos>, npcs: seq<NpcState>, e: Entity) {
    match e
    case Player(n) => n < |chars|
    case Npc(n) => n < |npcs| && npcs[n].alive
  }

  ghost function Where(chars: seq<Pos>, npcs: seq<NpcState>, e: Entity): Pos
    requires Present(chars, npcs, e)
  {
    match e
    case Player(n) => chars[n]
    case Npc(n) => npcs[n].pos
  }

  /** What client `k` should show: everyone else within `r`, in the right place. */
  ghost predicate Shows(chars: seq<Pos>, npcs: seq<NpcState>, r: int, k: nat, e: Entity)
    requires k < |chars|
  {
    Present(chars, npcs, e) && e != Player(k) && Distance(chars[k], Where(chars, npcs, e)) <= r
  }

  ghost predicate Exact(chars: seq<Pos>, npcs: seq<NpcState>, r: int, k: nat, v: View)
    requires k < |chars|
  {
    forall e :: (e in v <==> Shows(chars, npcs, r, k, e)) && (e in v ==> v[e] == Where(chars, npcs, e))
  }

  /** The full view, as sent when a client enters a map. */
  function FullView(chars: seq<Pos>, npcs: seq<NpcState>, r: int, k: nat): View
    requires k < |chars|
  {
    (map n | 0 <= n < |chars| && n != k && Distance(chars[k], chars[n]) <= r :: Player(n) := chars[n])
    + (map n | 0 <= n < |npcs| && npcs[n].alive && Distance(chars[k], npcs[n].pos) <= r :: Npc(n) := npcs[n].pos)
  }

  lemma FullViewExact(chars: seq<Pos>, npcs: seq<NpcState>, r: int, k: nat)
    requires k < |chars|
    ensures Exact(chars, npcs, r, k, FullView(chars, npcs, r, k))
  {
  }

  /** There is only one exact view. */
  lemma ExactUnique(chars: seq<Pos>, npcs: seq<NpcState>, r: int, k: nat, v: View)
    requires k < |chars| && Exact(chars, npcs, r, k, v)
    ensures v == FullView(chars, npcs, r, k)
  {
    FullViewExact(chars, npcs, r, k);
    assert forall e :: e in v <==> e in FullView(chars, npcs, r, k);
  }

  ghost function Players(l: seq<nat>): set<Entity> {
    set k | k in l :: Player(k)
  }

  ghost function Npcs(l: seq<nat>): set<Entity> {
    set k | k in l :: Npc(k)
  }

  function PlayersAt(l: seq<nat>, chars: seq<Pos>): View {
    map k | k in l && k < |chars| :: Player(k) := chars[k]
  }

  function NpcsAt(l: seq<nat>, npcs: seq<NpcState>): View {
    map k | k in l && k < |npcs| :: Npc(k) := npcs[k].pos
  }

  function NpcCells(npcs: seq<NpcState>): (cells: seq<Pos>)
    ensures |cells| == |npcs|
    ensures forall n :: 0 <= n < |npcs| ==> cells[n] == npcs[n].pos
  {
    seq(|npcs|, n requires 0 <= n < |npcs| => npcs[n].pos)
  }

  function Dead(npcs: seq<NpcState>): set<nat> {
    set n: nat | n < |npcs| && !npcs[n].alive
  }

  /** The list of everyone, save those skipped, who is near `a` and not near `b`. */
  ghost predicate Crossing(l: seq<nat>, cells: seq<Pos>, skip: set<nat>, a: Pos, b: Pos, r: int) {
    && (forall k :: k in l ==> k < |cells|)
    && forall k :: 0 <= k < |cells| ==>
      (k in l <==> k !in skip && Distance(a, cells[k]) <= r && Distance(b, cells[k]) > r)
  }

  /** One more entity scanned. */
  lemma CrossingNext(l: seq<nat>, cells: seq<Pos>, k: nat, skip: set<nat>, a: Pos, b: Pos, r: int)
    requires k < |cells| && Crossing(l, cells[..k], skip, a, b, r) && Distinct(l)
    ensures
      var hit := k !in skip && Distance(a, cells[k]) <= r && Distance(b, cells[k]) > r;
      var l' := if hit then l + [k] else l;
      Crossing(l', cells[..k + 1], skip, a, b, r) && Distinct(l')
  {
    assert cells[..k + 1] == cells[..k] + [cells[k]];
  }

  lemma NobodyAdded(v: View, chars: seq<Pos>, npcs: seq<NpcState>)
    ensures v + PlayersAt([], chars) == v && v + NpcsAt([], npcs) == v
  {
  }

  lemma PlayersAtNext(v: View, l: seq<nat>, t: nat, chars: seq<Pos>)
    requires t < |l| && l[t] < |chars|
    ensures
      var e := Player(l[t]);
      v + PlayersAt(l[..t + 1], chars) == (v + PlayersAt(l[..t], chars))[e := chars[l[t]]]
  {
    assert l[..t + 1] == l[..t] + [l[t]];
    assert PlayersAt(l[..t + 1], chars) == PlayersAt(l[..t], chars)[Player(l[t]) := chars[l[t]]];
  }

  lemma NpcsAtNext(v: View, l: seq<nat>, t: nat, npcs: seq<NpcState>)
    requires t < |l| && l[t] < |npcs|
    ensures
      var e := Npc(l[t]);
      v + NpcsAt(l[..t + 1], npcs) == (v + NpcsAt(l[..t], npcs))[e := npcs[l[t]].pos]
  {
    assert l[..t + 1] == l[..t] + [l[t]];
    assert NpcsAt(l[..t + 1], npcs) == NpcsAt(l[..t], npcs)[Npc(l[t]) := npcs[l[t]].pos];
  }

  /** NPC messages do not touch the players in a view. */
  lemma OnlyPlayers(u: View, comeNpcs: seq<nat>, goneNpcs: seq<nat>, npcs: seq<NpcState>, k: nat)
    ensures
      var e := Player(k);
      var w := u + NpcsAt(comeNpcs, npcs) - Npcs(goneNpcs);
      (e in w <==> e in u) && (e in w ==> w[e] == u[e])
  {
  }

  /** Player messages do not touch the NPCs in a view. */
  lemma OnlyNpcs(v: View, gone: seq<nat>, come: seq<nat>, chars: seq<Pos>, n: nat)
    ensures
      var e := Npc(n);
      var u := v - Players(gone) + PlayersAt(come, chars);
      (e in u <==> e in v) && (e in u ==> u[e] == v[e])
  {
  }

  /** The view of a client that does not move, when a character or NPC does. */
  ghost function Watched(v: View, e: Entity, p: Pos, gone: bool, come: bool, near: bool): View {
    var v1 := if gone then v - {e} else v;
    var v2 := if come then v1[e := p] else v1;
    if near && e in v2 then v2[e := p] else v2
  }

  class Map {
    const width: nat
    const height: nat
    const seeDistance: int
    var chars: seq<Pos>
    var npcs: seq<NpcState>
    var seen: seq<View>  // what each client shows after all messages sent to it

    predicate InBounds(p: Pos) {
      0 <= p.x < width && 0 <= p.y < height
    }

    ghost predicate OnMap()
      reads this
    {
      && width <= 255 && height <= 255
      && |seen| == |chars|
      && (forall k :: 0 <= k < |chars| ==> InBounds(chars[k]))
      && (forall n :: 0 <= n < |npcs| ==> InBounds(npcs[n].pos))
    }

    /** Every client shows exactly the entities within sight. */
    ghost predicate Valid()
      reads this
    {
      OnMap() && forall k :: 0 <= k < |chars| ==> Exact(chars, npcs, seeDistance, k, seen[k])
    }

    constructor (width: nat, height: nat, seeDistance: int, chars: seq<Pos>, npcs: seq<NpcState>)
      requires width <= 255 && height <= 255
      requires forall k :: 0 <= k < |chars| ==> 0 <= chars[k].x < width && 0 <= chars[k].y < height
      requires forall n :: 0 <= n < |npcs| ==> 0 <= npcs[n].pos.x < width && 0 <= npcs[n].pos.y < height
      ensures Valid() && this.chars == chars && this.npcs == npcs
    {
      this.width, this.height, this.seeDistance := width, height, seeDistance;
      this.chars, this.npcs := chars, npcs;
      seen := seq(|chars|, k requires 0 <= k < |chars| => FullView(chars, npcs, seeDistance, k));
      new;
      forall k | 0 <= k < |chars|
        ensures Exact(chars, npcs, seeDistance, k, seen[k])
      {
        FullViewExact(chars, npcs, seeDistance, k);
      }
    }

    method Send(k: nat, m: Message)
      requires k < |seen|
      modifies this`seen
      ensures seen == old(seen)[k := Apply(old(seen)[k], m)]
    {
      seen := seen[k := Apply(seen[k], m)];
    }

    /** The scan over a list of entities: who stands on the border left behind, who on the new one. */
    method Classify(cells: seq<Pos>, skip: set<nat>, leaving: seq<Pos>, coming: seq<Pos>, ghost a: Pos, ghost b: Pos)
      returns (gone: seq<nat>, come: seq<nat>)
      requires |leaving| == |coming|
      requires forall c :: c in leaving <==> Distance(a, c) <= seeDistance && Distance(b, c) > seeDistance
      requires forall c :: c in coming <==> Distance(b, c) <= seeDistance && Distance(a, c) > seeDistance
      ensures Distinct(gone) && Distinct(come)
      ensures Crossing(gone, cells, skip, a, b, seeDistance)
      ensures Crossing(come, cells, skip, b, a, seeDistance)
    {
      gone, come := [], [];
      for k := 0 to |cells|
        invariant Distinct(gone) && Distinct(come)
        invariant Crossing(gone, cells[..k], skip, a, b, seeDistance)
        invariant Crossing(come, cells[..k], skip, b, a, seeDistance)
      {
        hide Crossing, Distinct;
        CrossingNext(gone, cells, k, skip, a, b, seeDistance);
        CrossingNext(come, cells, k, skip, b, a, seeDistance);
        if k in skip {
          continue;
        }
        var isGone, isCome := Scan(cells[k], leaving, coming);
        gone := if isGone then gone + [k] else gone;
        come := if isCome then come + [k] else come;
      }
      assert cells[..|cells|] == cells;
    }

    /** The inner loop: both lists are scanned together; no cell matches twice. */
    method Scan(c: Pos, leaving: seq<Pos>, coming: seq<Pos>) returns (isGone: bool, isCome: bool)
      requires |leaving| == |coming|
      requires forall c :: !(c in leaving && c in coming)
      ensures isGone <==> c in leaving
      ensures isCome <==> c in coming
    {
      isGone, isCome := false, false;
      for i := 0 to |leaving|
        invariant isGone <==> c in leaving[..i]
        invariant isCome <==> c in coming[..i]
      {
        assert leaving[..i + 1] == leaving[..i] + [leaving[i]];
        assert coming[..i + 1] == coming[..i] + [coming[i]];
        assert !(c == leaving[i] && c in coming);
        if c == leaving[i] {
          isGone := true;
        } else if c == coming[i] {
          isCome := true;
        }
      }
      assert leaving[..|leaving|] == leaving && coming[..|coming|] == coming;
    }

    /** The same message to every listed client. */
    method Tell(list: seq<nat>, m: Message)
      requires Distinct(list) && forall k :: k in list ==> k < |seen|
      modifies this`seen
      ensures |seen| == |old(seen)|
      ensures forall k :: 0 <= k < |seen| ==>
        seen[k] == if k in list then Apply(old(seen)[k], m) else old(seen)[k]
    {
      for t := 0 to |list|
        invariant |seen| == |old(seen)|
        invariant forall k :: 0 <= k < |seen| ==>
          seen[k] == if k in list[..t] then Apply(old(seen)[k], m) else old(seen)[k]
      {
        assert list[t] in list;
        Send(list[t], m);
        assert list[..t + 1] == list[..t] + [list[t]];
      }
      assert list[..|list|] == list;
    }

    /** Everyone in range of the entity that moved learns its new place. */
    method Report(e: Entity, p: Pos, skip: set<nat>)
      requires |seen| == |chars|
      modifies this`seen
      ensures |seen| == |old(seen)|
      ensures forall k :: 0 <= k < |seen| ==>
        seen[k] == if k !in skip && Distance(chars[k], p) <= seeDistance
                   then Apply(old(seen)[k], Move(e, p)) else old(seen)[k]
    {
      for t := 0 to |chars|
        invariant |seen| == |old(seen)|
        invariant forall k :: 0 <= k < |seen| ==>
          seen[k] == if k < t && k !in skip && Distance(chars[k], p) <= seeDistance
                     then Apply(old(seen)[k], Move(e, p)) else old(seen)[k]
      {
        if t in skip || Distance(chars[t], p) > seeDistance {
          continue;
        }
        Send(t, Move(e, p));
      }
    }

    /** Each listed client and client `from` drop each other. */
    method Part(from: nat, list: seq<nat>)
      requires Distinct(list) && from !in list && from < |seen|
      requires forall k :: k in list ==> k < |seen|
      modifies this`seen
      ensures |seen| == |old(seen)|
      ensures forall k :: 0 <= k < |seen| && k != from ==>
        seen[k] == if k in list then old(seen)[k] - {Player(from)} else old(seen)[k]
      ensures seen[from] == old(seen)[from] - Players(list)
    {
      assert seen[from] - Players([]) == seen[from];
      for t := 0 to |list|
        invariant |seen| == |old(seen)|
        invariant forall k :: 0 <= k < |seen| && k != from ==>
          seen[k] == if k in list[..t] then old(seen)[k] - {Player(from)} else old(seen)[k]
        invariant seen[from] == old(seen)[from] - Players(list[..t])
      {
        assert list[t] in list;
        Send(list[t], Remove(Player(from)));
        Send(from, Remove(Player(list[t])));
        assert list[..t + 1] == list[..t] + [list[t]];
        assert Players(list[..t + 1]) == Players(list[..t]) + {Player(list[t])};
      }
      assert list[..|list|] == list;
    }

    /** Each listed client and client `from`, now at `p`, appear to each other. */
    method Meet(from: nat, list: seq<nat>, p: Pos)
      requires Distinct(list) && from !in list && from < |seen| == |chars|
      requires forall k :: k in list ==> k < |seen|
      modifies this`seen
      ensures |seen| == |old(seen)|
      ensures forall k :: 0 <= k < |seen| && k != from ==>
        seen[k] == if k in list then old(seen)[k][Player(from) := p] else old(seen)[k]
      ensures seen[from] == old(seen)[from] + PlayersAt(list, chars)
    {
      hide PlayersAt;
      ghost var v := seen[from];
      NobodyAdded(v, chars, npcs);
      for t := 0 to |list|
        invariant |seen| == |old(seen)|
        invariant forall k :: 0 <= k < |seen| && k != from ==>
          seen[k] == if k in list[..t] then old(seen)[k][Player(from) := p] else old(seen)[k]
        invariant seen[from] == v + PlayersAt(list[..t], chars)
      {
        assert list[t] in list;
        Send(list[t], Appear(Player(from), p));
        Send(from, Appear(Player(list[t]), chars[list[t]]));
        PlayersAtNext(v, list, t, chars);
        assert list[..t + 1] == list[..t] + [list[t]];
      }
      assert list[..|list|] == list;
    }

    /** Only the walking client is told about NPCs. */
    method MeetNpcs(from: nat, list: seq<nat>)
      requires from < |seen| && forall n :: n in list ==> n < |npcs|
      modifies this`seen
      ensures seen == old(seen)[from := old(seen)[from] + NpcsAt(list, npcs)]
    {
      hide NpcsAt;
      ghost var v := seen[from];
      NobodyAdded(v, chars, npcs);
      assert seen == seen[from := v];
      for t := 0 to |list|
        invariant |seen| == |old(seen)|
        invariant seen == old(seen)[from := v + NpcsAt(list[..t], npcs)]
      {
        assert list[t] in list;
        Send(from, Appear(Npc(list[t]), npcs[list[t]].pos));
        NpcsAtNext(v, list, t, npcs);
      }
      assert list[..|list|] == list;
    }

    method PartNpcs(from: nat, list: seq<nat>)
      requires from < |seen|
      modifies this`seen
      ensures seen == old(seen)[from := old(seen)[from] - Npcs(list)]
    {
      ghost var v := seen[from];
      assert v - Npcs([]) == v && seen == seen[from := v];
      for t := 0 to |list|
        invariant |seen| == |old(seen)|
        invariant seen == old(seen)[from := v - Npcs(list[..t])]
      {
        Send(from, Remove(Npc(list[t])));
        assert list[..t + 1] == list[..t] + [list[t]];
        assert Npcs(list[..t + 1]) == Npcs(list[..t]) + {Npc(list[t])};
        assert v - Npcs(list[..t + 1]) == v - Npcs(list[..t]) - {Npc(list[t])};
      }
      assert list[..|list|] == list;
    }

    /** A step of a character; `allowed` stands for the tile, occupation and warp checks. */
    method WalkCharacter(c: nat, d: Direction, allowed: bool) returns (ok: bool)
      requires Valid() && c < |chars|
      modifies this`chars, this`seen
      ensures Valid()
      ensures ok <==> allowed && InBounds(Step(old(chars)[c], d))
      ensures chars == if ok then old(chars)[c := Step(old(chars)[c], d)] else old(chars)
      ensures
        var from := old(chars)[c];
        match d
        case Up => (ok <==> allowed && from.y > 0) && (ok ==> chars[c] == Pos(from.x, from.y - 1))
        case Right => (ok <==> allowed && from.x + 1 < width) && (ok ==> chars[c] == Pos(from.x + 1, from.y))
        case Down => (ok <==> allowed && from.y + 1 < height) && (ok ==> chars[c] == Pos(from.x, from.y + 1))
        case Left => (ok <==> allowed && from.x > 0) && (ok ==> chars[c] == Pos(from.x - 1, from.y))
    {
      hide Exact, Watched, Players, Npcs, PlayersAt, NpcsAt, Crossing;
      var from := chars[c];
      var wrapped, p := Target(from, d);
      if wrapped || !InBounds(p) || !allowed {
        return false;
      }
      chars := chars[c := p];
      var coming, leaving := Borders(from, p, d, seeDistance);
      var gone, come := Classify(chars, {c}, leaving, coming, from, p);
      var goneNpcs, comeNpcs := Classify(NpcCells(npcs), Dead(npcs), leaving, coming, from, p);
      Announce(c, p, gone, come, goneNpcs, comeNpcs, old(chars));
      ok := true;
    }

    /** The messages of a character's step. */
    method Announce(c: nat, p: Pos, gone: seq<nat>, come: seq<nat>, goneNpcs: seq<nat>, comeNpcs: seq<nat>,
                    ghost chars0: seq<Pos>)
      requires c < |chars0| == |seen| && chars == chars0[c := p]
      requires forall k :: 0 <= k < |chars| ==> Exact(chars0, npcs, seeDistance, k, seen[k])
      requires Distinct(gone) && Distinct(come)
      requires Crossing(gone, chars, {c}, chars0[c], p, seeDistance)
      requires Crossing(come, chars, {c}, p, chars0[c], seeDistance)
      requires Crossing(goneNpcs, NpcCells(npcs), Dead(npcs), chars0[c], p, seeDistance)
      requires Crossing(comeNpcs, NpcCells(npcs), Dead(npcs), p, chars0[c], seeDistance)
      modifies this`seen
      ensures |seen| == |chars|
      ensures forall k :: 0 <= k < |chars| ==> Exact(chars, npcs, seeDistance, k, seen[k])
    {
      hide Exact, Players, Npcs, PlayersAt, NpcsAt;
      ghost var before := seen;
      Part(c, gone);
      Meet(c, come, p);
      Report(Player(c), p, {c});
      MeetNpcs(c, comeNpcs);
      PartNpcs(c, goneNpcs);
      CharacterMoved(before, chars0, c, p, gone, come, goneNpcs, comeNpcs);
    }

    lemma CharacterMoved(before: seq<View>, chars0: seq<Pos>, c: nat, p: Pos,
                         gone: seq<nat>, come: seq<nat>, goneNpcs: seq<nat>, comeNpcs: seq<nat>)
      requires c < |chars0| == |before| == |seen| && chars == chars0[c := p]
      requires forall k :: 0 <= k < |chars| ==> Exact(chars0, npcs, seeDistance, k, before[k])
      requires Crossing(gone, chars, {c}, chars0[c], p, seeDistance)
      requires Crossing(come, chars, {c}, p, chars0[c], seeDistance)
      requires Crossing(goneNpcs, NpcCells(npcs), Dead(npcs), chars0[c], p, seeDistance)
      requires Crossing(comeNpcs, NpcCells(npcs), Dead(npcs), p, chars0[c], seeDistance)
      requires forall k :: 0 <= k < |chars| && k != c ==>
        seen[k] == Watched(before[k], Player(c), p, k in gone, k in come, Distance(chars[k], p) <= seeDistance)
      requires seen[c] == before[c] - Players(gone) + PlayersAt(come, chars) + NpcsAt(comeNpcs, npcs) - Npcs(goneNpcs)
      ensures forall k :: 0 <= k < |chars| ==> Exact(chars, npcs, seeDistance, k, seen[k])
    {
      forall k | 0 <= k < |chars|
        ensures Exact(chars, npcs, seeDistance, k, seen[k])
      {
        if k == c {
          OwnView(before[c], chars0, c, p, gone, come, goneNpcs, comeNpcs, seen[c]);
        } else {
          OtherView(before[k], chars0, k, c, p, seen[k]);
        }
      }
    }

    /** The view of a client that stands still while character `c` steps to `p`. */
    lemma OtherView(v: View, chars0: seq<Pos>, k: nat, c: nat, p: Pos, w: View)
      requires k < |chars0| && c < |chars0| && k != c && chars == chars0[c := p]
      requires Exact(chars0, npcs, seeDistance, k, v)
      requires
        var was := Distance(chars0[c], chars[k]) <= seeDistance;
        var near := Distance(p, chars[k]) <= seeDistance;
        w == Watched(v, Player(c), p, was && !near, near && !was, Distance(chars[k], p) <= seeDistance)
      ensures Exact(chars, npcs, seeDistance, k, w)
    {
      var e := Player(c);
      assert e in v <==> Shows(chars0, npcs, seeDistance, k, e);
      forall f
        ensures f in w <==> Shows(chars, npcs, seeDistance, k, f)
        ensures f in w ==> w[f] == Where(chars, npcs, f)
      {
        if f != e {
          assert f in v <==> Shows(chars0, npcs, seeDistance, k, f);
          assert f in w <==> f in v;
        }
      }
    }

    /** The stepping character's own view. */
    lemma OwnView(v: View, chars0: seq<Pos>, c: nat, p: Pos,
                  gone: seq<nat>, come: seq<nat>, goneNpcs: seq<nat>, comeNpcs: seq<nat>, w: View)
      requires c < |chars0| && chars == chars0[c := p]
      requires Exact(chars0, npcs, seeDistance, c, v)
      requires Crossing(gone, chars, {c}, chars0[c], p, seeDistance)
      requires Crossing(come, chars, {c}, p, chars0[c], seeDistance)
      requires Crossing(goneNpcs, NpcCells(npcs), Dead(npcs), chars0[c], p, seeDistance)
      requires Crossing(comeNpcs, NpcCells(npcs), Dead(npcs), p, chars0[c], seeDistance)
      requires w == v - Players(gone) + PlayersAt(come, chars) + NpcsAt(comeNpcs, npcs) - Npcs(goneNpcs)
      ensures Exact(chars, npcs, seeDistance, c, w)
    {
      hide Crossing, Players, Npcs, PlayersAt, NpcsAt;
      forall e
        ensures e in w <==> Shows(chars, npcs, seeDistance, c, e)
        ensures e in w ==> w[e] == Where(chars, npcs, e)
      {
        match e
        case Player(k) =>
          PlayerInOwnView(v, chars0, c, p, gone, come, k);
          OnlyPlayers(v - Players(gone) + PlayersAt(come, chars), comeNpcs, goneNpcs, npcs, k);
        case Npc(n) =>
          OnlyNpcs(v, gone, come, chars, n);
          NpcInOwnView(v - Players(gone) + PlayersAt(come, chars), v, chars0, c, p, goneNpcs, comeNpcs, n);
      }
    }

    lemma PlayerInOwnView(v: View, chars0: seq<Pos>, c: nat, p: Pos, gone: seq<nat>, come: seq<nat>, k: nat)
      requires c < |chars0| && chars == chars0[c := p]
      requires Exact(chars0, npcs, seeDistance, c, v)
      requires Crossing(gone, chars, {c}, chars0[c], p, seeDistance)
      requires Crossing(come, chars, {c}, p, chars0[c], seeDistance)
      ensures
        var e := Player(k);
        var w := v - Players(gone) + PlayersAt(come, chars);
        (e in w <==> Shows(chars, npcs, seeDistance, c, e)) && (e in w ==> w[e] == chars[k])
    {
      var e := Player(k);
      assert e in v <==> Shows(chars0, npcs, seeDistance, c, e);
      assert e in Players(gone) <==> k in gone;
    }

    lemma NpcInOwnView(u: View, v: View, chars0: seq<Pos>, c: nat, p: Pos,
                       goneNpcs: seq<nat>, comeNpcs: seq<nat>, n: nat)
      requires c < |chars0| && chars == chars0[c := p]
      requires Exact(chars0, npcs, seeDistance, c, v)
      requires (Npc(n) in u <==> Npc(n) in v) && (Npc(n) in u ==> u[Npc(n)] == v[Npc(n)])
      requires Crossing(goneNpcs, NpcCells(npcs), Dead(npcs), chars0[c], p, seeDistance)
      requires Crossing(comeNpcs, NpcCells(npcs), Dead(npcs), p, chars0[c], seeDistance)
      ensures
        var e := Npc(n);
        var w := u + NpcsAt(comeNpcs, npcs) - Npcs(goneNpcs);
        (e in w <==> Shows(chars, npcs, seeDistance, c, e)) && (e in w ==> w[e] == npcs[n].pos)
    {
      var e := Npc(n);
      assert e in v <==> Shows(chars0, npcs, seeDistance, c, e);
      assert e in Npcs(goneNpcs) <==> n in goneNpcs;
    }

    /** A step of an NPC; `allowed` stands for the tile and occupation checks. */
    method WalkNpc(n: nat, d: Direction, allowed: bool) returns (ok: bool)
      requires Valid() && n < |npcs| && npcs[n].alive
      modifies this`npcs, this`seen
      ensures Valid()
      ensures ok <==> allowed && InBounds(Step(old(npcs)[n].pos, d))
      ensures npcs == if ok then old(npcs)[n := NpcState(Step(old(npcs)[n].pos, d), true)] else old(npcs)
      ensures
        var from := old(npcs)[n].pos;
        match d
        case Up => (ok <==> allowed && from.y > 0) && (ok ==> npcs[n].pos == Pos(from.x, from.y - 1))
        case Right => (ok <==> allowed && from.x + 1 < width) && (ok ==> npcs[n].pos == Pos(from.x + 1, from.y))
        case Down => (ok <==> allowed && from.y + 1 < height) && (ok ==> npcs[n].pos == Pos(from.x, from.y + 1))
        case Left => (ok <==> allowed && from.x > 0) && (ok ==> npcs[n].pos == Pos(from.x - 1, from.y))
    {
      hide Exact, Crossing;
      var from := npcs[n].pos;
      var wrapped, p := Target(from, d);
      if wrapped || !InBounds(p) || !allowed {
        return false;
      }
      npcs := npcs[n := NpcState(p, true)];
      var coming, leaving := Borders(from, p, d, seeDistance);
      var gone, come := Classify(chars, {}, leaving, coming, from, p);
      AnnounceNpc(n, p, gone, come, old(npcs));
      ok := true;
    }

    /** The messages of an NPC's step. */
    method AnnounceNpc(n: nat, p: Pos, gone: seq<nat>, come: seq<nat>, ghost npcs0: seq<NpcState>)
      requires |seen| == |chars| && n < |npcs0| && npcs0[n].alive && npcs == npcs0[n := NpcState(p, true)]
      requires forall k :: 0 <= k < |chars| ==> Exact(chars, npcs0, seeDistance, k, seen[k])
      requires Distinct(gone) && Distinct(come)
      requires Crossing(gone, chars, {}, npcs0[n].pos, p, seeDistance)
      requires Crossing(come, chars, {}, p, npcs0[n].pos, seeDistance)
      modifies this`seen
      ensures |seen| == |chars|
      ensures forall k :: 0 <= k < |chars| ==> Exact(chars, npcs, seeDistance, k, seen[k])
    {
      hide Exact;
      ghost var before := seen;
      Tell(come, Appear(Npc(n), p));
      Report(Npc(n), p, {});
      Tell(gone, Remove(Npc(n)));
      forall k | 0 <= k < |chars|
        ensures Exact(chars, npcs, seeDistance, k, seen[k])
      {
        NpcWatched(before[k], k, npcs0, n, p, seen[k]);
      }
    }

    /** Why the three messages leave a client with the right view of an NPC that moved. */
    lemma NpcWatched(v: View, k: nat, npcs0: seq<NpcState>, n: nat, p: Pos, w: View)
      requires k < |chars| && n < |npcs0| && npcs0[n].alive
      requires npcs == npcs0[n := NpcState(p, true)]
      requires Exact(chars, npcs0, seeDistance, k, v)
      requires
        var was := Distance(chars[k], npcs0[n].pos) <= seeDistance;
        var near := Distance(chars[k], p) <= seeDistance;
        var e := Npc(n);
        var v1 := if near && !was then v[e := p] else v;
        var v2 := if near && e in v1 then v1[e := p] else v1;
        w == if was && !near then v2 - {e} else v2
      ensures Exact(chars, npcs, seeDistance, k, w)
    {
      var e := Npc(n);
      assert e in v <==> Shows(chars, npcs0, seeDistance, k, e);
      forall f
        ensures f in w <==> Shows(chars, npcs, seeDistance, k, f)
        ensures f in w ==> w[f] == Where(chars, npcs, f)
      {
        if f != e {
          assert f in v <==> Shows(chars, npcs0, seeDistance, k, f);
          assert f in w <==> f in v;
        }
      }
    }

    /** The cell a step leads to, in byte arithmetic, and whether the wrap-around test fires. */
    method Target(from: Pos, d: Direction) returns (wrapped: bool, p: Pos)
      requires InBounds(from) && width <= 255 && height <= 255
      ensures !wrapped ==> p == Step(from, d)
      ensures wrapped ==> !InBounds(Step(from, d))
    {
      match d
      case Up =>
        p := Pos(from.x, (from.y - 1) % 256);
        wrapped := p.y > from.y;
      case Right =>
        p := Pos((from.x + 1) % 256, from.y);
        wrapped := p.x < from.x;
      case Down =>
        // the source tests x here; in bounds, y cannot wrap
        p := Pos(from.x, (from.y + 1) % 256);
        wrapped := p.x < from.x;
      case Left =>
        p := Pos((from.x - 1) % 256, from.y);
        wrapped := p.x > from.x;
    }
  }
}
