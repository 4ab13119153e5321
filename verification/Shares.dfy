/** Sharing experience by rounding every share up, as src/npc.cpp and src/party.cpp do. */
module Shares {

  /** `ceil(a / b)` for non-negative `a`, without rounding errors. */
  function CeilDiv(a: nat, b: nat): (q: nat)
    requires b > 0
    ensures q * b >= a && q * b <= a + b - 1
  {
    (a + b - 1) / b
  }

  function Sum(ws: seq<nat>): nat {
    if ws == [] then 0 else ws[0] + Sum(ws[1..])
  }

  /** The sum of all shares of `exp` when each gets its part of `total`, rounded up. */
  function Paid(exp: nat, ws: seq<nat>, total: nat): nat
    requires total > 0
  {
    if ws == [] then 0 else CeilDiv(exp * ws[0], total) + Paid(exp, ws[1..], total)
  }

  lemma Distribute(a: int, b: int, c: int)
    ensures (a + b) * c == a * c + b * c
  {
  }

  lemma Monotone(a: int, b: int, c: nat)
    requires a <= b
    ensures a * c <= b * c
  {
    Distribute(a, b - a, c);
    assert (b - a) * c >= 0;
  }

  lemma OneMore(exp: nat, w: nat, s: nat, total: nat, first: nat, rest: nat, n: nat)
    requires total > 0 && exp * w <= first * total <= exp * w + total - 1
    requires exp * s <= rest * total <= exp * s + n * (total - 1)
    ensures exp * (w + s) <= (first + rest) * total <= exp * (w + s) + (n + 1) * (total - 1)
  {
    Distribute(first, rest, total);
    Distribute(w, s, exp);
    Distribute(n, 1, total - 1);
  }

  lemma {:induction false} PaidBounds(exp: nat, ws: seq<nat>, total: nat)
    requires total > 0
    ensures exp * Sum(ws) <= Paid(exp, ws, total) * total <= exp * Sum(ws) + |ws| * (total - 1)
  {
    hide CeilDiv;
    if ws != [] {
      PaidBounds(exp, ws[1..], total);
      OneMore(exp, ws[0], Sum(ws[1..]), total, CeilDiv(exp * ws[0], total), Paid(exp, ws[1..], total), |ws| - 1);
    }
  }

  lemma Between(exp: nat, n: nat, total: nat, paid: nat)
    requires total > 0 && n > 0 && exp * total <= paid * total <= exp * total + n * (total - 1)
    ensures exp <= paid <= exp + n - 1
  {
    if paid < exp {
      Monotone(paid + 1, exp, total);
      Distribute(paid, 1, total);
    } else if paid >= exp + n {
      Monotone(exp + n, paid, total);
      Distribute(exp, n, total);
      Distribute(total - 1, 1, n);
    }
  }

  /** Rounding up gives away at most one point less than there are shares, and never too little. */
  lemma PaidExact(exp: nat, ws: seq<nat>)
    requires Sum(ws) > 0
    ensures exp <= Paid(exp, ws, Sum(ws)) <= exp + |ws| - 1
  {
    hide Paid;
    PaidBounds(exp, ws, Sum(ws));
    assert ws != [];
    Between(exp, |ws|, Sum(ws), Paid(exp, ws, Sum(ws)));
  }

  /** A level of 0 counts as 1. */
  function Weight(level: nat): nat {
    if level == 0 then 1 else level
  }

  lemma {:induction false} SumAppend(ws: seq<nat>, w: nat)
    ensures Sum(ws + [w]) == Sum(ws) + w
  {
    if ws != [] {
      SumAppend(ws[1..], w);
      assert (ws + [w])[1..] == ws[1..] + [w];
    }
  }

  function WeightOf(level: nat, sharemode: int): (w: nat)
    ensures w > 0
  {
    if sharemode == 2 then Weight(level) else 1
  }

  datatype Rank = Rank(eligible: bool, level: nat)

  /** The weights of those that get anything. */
  function Weights(ranks: seq<Rank>, sharemode: int): (ws: seq<nat>)
    ensures |ws| <= |ranks| && |ws| <= Sum(ws)
    ensures sharemode != 2 ==> Sum(ws) == |ws|
  {
    if ranks == [] then []
    else
      var rest := Weights(ranks[1..], sharemode);
      if ranks[0].eligible then
        var ws := [WeightOf(ranks[0].level, sharemode)] + rest;
        assert ws[1..] == rest;
        ws
      else rest
  }

  lemma {:induction false} SameNumber(ranks: seq<Rank>, sharemode: int)
    ensures |Weights(ranks, sharemode)| == |Weights(ranks, 2)|
  {
    if ranks != [] {
      SameNumber(ranks[1..], sharemode);
    }
  }

  /** How much is shared: in other modes than these two, nothing. */
  function Shared(exp: nat, sharemode: int): nat {
    if sharemode == 1 || sharemode == 2 then exp else 0
  }

  lemma CeilZero(w: nat, b: nat)
    requires b > 0
    ensures CeilDiv(0 * w, b) == 0
  {
  }

  lemma {:induction false} PaidZero(ws: seq<nat>, total: nat)
    requires total > 0
    ensures Paid(0, ws, total) == 0
  {
    if ws != [] {
      CeilZero(ws[0], total);
      PaidZero(ws[1..], total);
    }
  }

  /** What one member is due. */
  function Due(exp: nat, rank: Rank, sharemode: int, total: nat): nat
    requires total > 0
  {
    if rank.eligible then CeilDiv(exp * WeightOf(rank.level, sharemode), total) else 0
  }

  /** What all members from number `i` on are due. */
  function DueFrom(exp: nat, ranks: seq<Rank>, i: nat, sharemode: int, total: nat): nat
    requires total > 0 && i <= |ranks|
  {
    Paid(exp, Weights(ranks[i..], sharemode), total)
  }

  lemma DueNext(exp: nat, ranks: seq<Rank>, i: nat, sharemode: int, total: nat)
    requires total > 0 && i < |ranks|
    ensures DueFrom(exp, ranks, i, sharemode, total)
      == Due(exp, ranks[i], sharemode, total) + DueFrom(exp, ranks, i + 1, sharemode, total)
  {
    hide CeilDiv, WeightOf;
    assert ranks[i..][1..] == ranks[i + 1..];
    if ranks[i].eligible {
      assert Weights(ranks[i..], sharemode)[1..] == Weights(ranks[i + 1..], sharemode);
    }
  }

  /** Everybody eligible counts, in mode 2 with the level, of which 0 counts as 1. */
  lemma {:induction false} WeightsNext(ranks: seq<Rank>, rank: Rank, sharemode: int)
    ensures
      var (ws, all) := (Weights(ranks, sharemode), Weights(ranks + [rank], sharemode));
      var w := if sharemode != 2 || rank.level == 0 then 1 else rank.level;
      if rank.eligible then |all| == |ws| + 1 && Sum(all) == Sum(ws) + w else |all| == |ws| && Sum(all) == Sum(ws)
  {
    if ranks == [] {
      assert [rank][1..] == [];
    } else {
      WeightsNext(ranks[1..], rank, sharemode);
      assert (ranks + [rank])[1..] == ranks[1..] + [rank];
      FirstWeight(ranks, sharemode);
      FirstWeight(ranks + [rank], sharemode);
    }
  }

  lemma FirstWeight(ranks: seq<Rank>, sharemode: int)
    requires ranks != []
    ensures
      var (ws, rest) := (Weights(ranks, sharemode), Weights(ranks[1..], sharemode));
      if ranks[0].eligible then |ws| == |rest| + 1 && Sum(ws) == WeightOf(ranks[0].level, sharemode) + Sum(rest)
      else ws == rest
  {
    if ranks[0].eligible {
      assert Weights(ranks, sharemode)[1..] == Weights(ranks[1..], sharemode);
    }
  }

  /**
   What a member gets: in mode 1 the experience by the number that share it, in mode 2 as much of it as its level is of
   all their levels, both rounded up; otherwise, or when it is not eligible, nothing.
   */
  lemma DueExact(exp: nat, rank: Rank, sharemode: int, total: nat)
    requires total > 0
    ensures
      var due := Due(Shared(exp, sharemode), rank, sharemode, total);
      && (!rank.eligible || (sharemode != 1 && sharemode != 2) ==> due == 0)
      && (rank.eligible && sharemode == 1 ==> exp <= due * total < exp + total)
      && (rank.eligible && sharemode == 2 ==>
            var w := if rank.level == 0 then 1 else rank.level; exp * w <= due * total < exp * w + total)
  {
    hide CeilDiv;
    CeilZero(WeightOf(rank.level, sharemode), total);
    assert exp * 1 == exp;
  }

  class Member {
    const able: bool  // can fight
    const here: bool  // is on the map in question, not nowhere
    var level: nat
    var exp: int

    function RankOf(): Rank
      reads this
    {
      Rank(able && here, level)
    }
  }

  class Party {
    const members: seq<Member>
    const maxLevel: nat
    const expTable: seq<int>

    predicate Valid() {
      && maxLevel < |expTable|
      && forall i, j :: 0 <= i < j < |members| ==> members[i] != members[j]
    }

    ghost function Ranks(): (ranks: seq<Rank>)
      reads members
      ensures |ranks| == |members| && (forall i :: 0 <= i < |members| ==> ranks[i] == members[i].RankOf())
    {
      seq(|members|, i requires 0 <= i < |members| reads members => members[i].RankOf())
    }

    /** The first loop: the sum of the levels and the number of members that share. */
    method Count() returns (sumLevel: nat, n: nat)
      ensures sumLevel == Sum(Weights(Ranks(), 2)) && n == |Weights(Ranks(), 2)|
    {
      sumLevel, n := 0, 0;
      ghost var ranks := Ranks();
      var i := 0;
      assert ranks[0..] == ranks;
      while i < |members|
        invariant i <= |members|
        invariant sumLevel + Sum(Weights(ranks[i..], 2)) == Sum(Weights(ranks, 2))
        invariant n + |Weights(ranks[i..], 2)| == |Weights(ranks, 2)|
      {
        var member := members[i];
        assert ranks[i..][1..] == ranks[i + 1..] && ranks[i..][0] == member.RankOf();
        if member.able && member.here {
          if member.level == 0 {
            sumLevel := sumLevel + 1;
          } else {
            sumLevel := sumLevel + member.level;
          }
          n := n + 1;
        }
        i := i + 1;
      }
    }

    /** Enough experience for the next level, which is there. */
    predicate RisesAt(rank: Rank, exp: int)
      requires Valid()
    {
      rank.eligible && rank.level < maxLevel && exp >= expTable[rank.level + 1]
    }

    /** One member's part of the second loop. */
    method Give(member: Member, exp: nat, sharemode: int, n: nat, sumLevel: nat) returns (reward: nat)
      requires Valid() && n > 0 && sumLevel > 0
      modifies member
      ensures reward
        == Due(Shared(exp, sharemode), old(member.RankOf()), sharemode, if sharemode == 2 then sumLevel else n)
      ensures member.exp == old(member.exp) + reward
      ensures member.level == old(member.level) + (if RisesAt(old(member.RankOf()), member.exp) then 1 else 0)
    {
      hide CeilDiv;
      reward := 0;
      if !member.able || !member.here {
        return;
      }
      match sharemode {
        case 1 => reward := CeilDiv(exp, n);
        case 2 => reward := CeilDiv(exp * (if member.level == 0 then 1 else member.level), sumLevel);
        case _ => CeilZero(1, n);
      }
      assert exp * 1 == exp;
      member.exp := member.exp + reward;
      if member.level < maxLevel && member.exp >= expTable[member.level + 1] {
        member.level := member.level + 1;
      }
    }

    /**
     Sharing in mode 1 (evenly) or 2 (by level). Every eligible member gets its part of `exp`, rounded up; together
     they get at least `exp` and less than one point more for each of them. In any other mode nobody gets anything.
     `rewards` are those sent to the members.
     */
    method ShareExp(exp: nat, sharemode: int) returns (rewards: seq<nat>)
      requires Valid()
      modifies members
      ensures |rewards| == |members|
      ensures forall i :: 0 <= i < |members| ==> members[i].exp == old(members[i].exp) + rewards[i]
      ensures
        var total := Sum(Weights(old(Ranks()), sharemode));
        forall i :: 0 <= i < |members| ==>
          rewards[i] == if total == 0 then 0 else Due(Shared(exp, sharemode), old(Ranks())[i], sharemode, total)
      ensures
        var n := |Weights(old(Ranks()), sharemode)|;
        if n == 0 || (sharemode != 1 && sharemode != 2) then Sum(rewards) == 0
        else exp <= Sum(rewards) <= exp + n - 1
      ensures forall i :: 0 <= i < |members| ==>
        members[i].level == old(members[i].level)
          + (if |Weights(old(Ranks()), sharemode)| > 0 && RisesAt(old(Ranks())[i], members[i].exp) then 1 else 0)
    {
      hide Due, Paid, Weights;
      var sumLevel, n := Count();
      ghost var ranks := Ranks();
      SameNumber(ranks, sharemode);
      ghost var part := Shared(exp, sharemode);
      if n == 0 || sumLevel == 0 {
        NoWeights(ranks, sharemode);
        rewards := Zeros(|members|);
        return;
      }
      ghost var total := Sum(Weights(ranks, sharemode));
      PaidExact(part, Weights(ranks, sharemode));
      PaidZero(Weights(ranks, sharemode), total);
      rewards := [];
      assert ranks[0..] == ranks;
      var i := 0;
      while i < |members|
        invariant i <= |members| && |rewards| == i
        invariant forall j :: i <= j < |members| ==> members[j].exp == old(members[j].exp)
        invariant forall j :: i <= j < |members| ==> members[j].RankOf() == ranks[j]
        invariant forall j :: 0 <= j < i ==> members[j].exp == old(members[j].exp) + rewards[j]
        invariant forall j :: 0 <= j < i ==> rewards[j] == Due(part, ranks[j], sharemode, total)
        invariant forall j :: 0 <= j < i ==>
          members[j].level == ranks[j].level + (if RisesAt(ranks[j], members[j].exp) then 1 else 0)
        invariant Sum(rewards) + DueFrom(part, ranks, i, sharemode, total) == DueFrom(part, ranks, 0, sharemode, total)
      {
        var reward := Give(members[i], exp, sharemode, n, sumLevel);
        DueNext(part, ranks, i, sharemode, total);
        SumAppend(rewards, reward);
        rewards := rewards + [reward];
        i := i + 1;
      }
      NothingDue(part, ranks, sharemode, total);
    }
  }

  lemma NoWeights(ranks: seq<Rank>, sharemode: int)
    ensures |Weights(ranks, sharemode)| == 0 ==> Sum(Weights(ranks, sharemode)) == 0
  {
  }

  lemma NothingDue(exp: nat, ranks: seq<Rank>, sharemode: int, total: nat)
    requires total > 0
    ensures DueFrom(exp, ranks, |ranks|, sharemode, total) == 0
  {
  }

  method Zeros(n: nat) returns (zs: seq<nat>)
    ensures |zs| == n && Sum(zs) == 0 && (forall i :: 0 <= i < n ==> zs[i] == 0)
  {
    zs := [];
    for i := 0 to n
      invariant |zs| == i && Sum(zs) == 0 && (forall j :: 0 <= j < i ==> zs[j] == 0)
    {
      SumAppend(zs, 0);
      zs := zs + [0];
    }
  }
}
