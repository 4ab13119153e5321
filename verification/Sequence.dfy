/**
 The packet sequence number of src/eoclient.cpp: ten numbers counted up from a start value that the server
 replaces now and then. Server and client must agree on it for every packet.
 */
module Sequence {
  import opened Bytes
  import PF = PacketFields

  const CONNECTION: byte := 1   // PACKET_CONNECTION
  const PING: byte := 240       // PACKET_PING
  const INIT: byte := 255       // PACKET_F_INIT
  const MAX_START := 1757

  // ---------- start values on the wire ----------

  /** C++ integer division, which truncates toward zero. */
  function Quotient(a: int, b: int): int
    requires b > 0
  {
    if a >= 0 then a / b else -(-a / b)
  }

  function InitLow(start: nat): int {
    Max(0, Quotient(start - 252 + 13 + 6, 7))
  }

  function InitHigh(start: nat): int {
    (start + 13) / 7
  }

  /** Whatever the server rolls between its limits, both bytes fit and give the start value back. */
  lemma InitBytesAgree(start: nat, s1: int)
    requires start <= MAX_START && InitLow(start) <= s1 <= InitHigh(start)
    ensures InitLow(start) <= InitHigh(start)
    ensures var s2 := start - s1 * 7 + 13; 0 <= s1 <= 252 && 0 <= s2 <= 252 && s1 * 7 + s2 - 13 == start
  {
  }

  /** The limits of the roll are exactly where both bytes fit into one number byte. */
  lemma InitBytesIff(start: nat, s1: int)
    requires start <= 1757
    ensures InitLow(start) <= s1 <= InitHigh(start) <==> 0 <= s1 && 0 <= start + 13 - 7 * s1 <= 252
  {
  }

  /** There is always something to roll. */
  lemma InitBytesExist(start: nat)
    requires start <= MAX_START
    ensures InitLow(start) <= InitHigh(start)
  {
  }

  /** The update bytes survive their trip as a short and a char. */
  lemma UpdateBytesAgree(start: nat, s1: nat)
    requires start <= MAX_START && start <= s1 <= start + 252
    ensures
      var s2 := s1 - start;
      && s2 < PF.MAX1 && PF.Kept(s1, 2) == s1 && PF.Kept(s2, 1) == s2
      && PF.Kept(s1, 2) - PF.Kept(s2, 1) == start
  {
  }

  // ---------- one packet ----------

  /** How a client writes its number: one byte below 253, two bytes from there on. */
  function NumberField(n: nat): (b: seq<byte>)
    requires n < PF.UINT
  {
    if n < PF.MAX1 then PF.NumberBytes(n)[..1] else PF.NumberBytes(n)[..2]
  }

  /** What the server reads when it expects `expected`. */
  function ReadNumber(q: seq<byte>, expected: int): nat
    requires |q| >= 2
  {
    PF.Read(q, 2, PF.NumberShape(if expected >= 253 then 2 else 1)).0.n
  }

  /** When the server expects the number the client wrote, it also reads it with the right width. */
  lemma NumberAgrees(id: seq<byte>, n: nat, body: seq<byte>)
    requires |id| == 2 && n <= MAX_START + 9
    ensures ReadNumber(id + (NumberField(n) + body), n) == n
  {
    var k: PF.Width := if n >= 253 then 2 else 1;
    PF.FieldRoundTrip(id, PF.NumberField(n, k), body);
  }

  /** Which bytes these are: one below 253, two from there on. */
  lemma NumberFieldExact(n: nat)
    requires n < 64009
    ensures
      var b := NumberField(n);
      if n < 253 then b == [(n + 1) as byte]
      else b == [(n % 253 + 1) as byte, (n / 253 + 1) as byte]
  {
  }

  /** And they are read from behind action and family, as many as the expected number has. */
  lemma ReadNumberExact(q: seq<byte>, expected: int)
    requires |q| >= 4
    ensures ReadNumber(q, expected) ==
      if expected < 253 then PF.Number([q[2], 254, 254, 254]) else PF.Number([q[2], q[3], 254, 254])
  {
    assert PF.Padded(q[2..3]) == [q[2], 254, 254, 254];
    assert PF.Padded(q[2..4]) == [q[2], q[3], 254, 254];
  }

  // ---------- the server's side ----------

  datatype Server = Server(start: int, upcoming: int, count: nat, needPong: bool)

  predicate IsPong(q: seq<byte>) {
    |q| >= 2 && q[1] == CONNECTION && q[0] == PING
  }

  /** The state in which a packet's number is checked: a pong first switches to the new start. */
  function Switched(s: Server, q: seq<byte>): Server
    requires |q| >= 2
  {
    if q[1] != INIT && IsPong(q) then s.(start := s.upcoming) else s
  }

  function Counted(s: Server): Server {
    s.(count := (s.count + 1) % 10)
  }

  predicate Accepts(s: Server, q: seq<byte>)
    requires |q| >= 2
  {
    var t := Switched(s, q);
    q[1] == INIT || ReadNumber(q, t.start + t.count) == t.start + t.count
  }

  /**
   Which packets the server takes: INIT packets always, others only with the number it expects, which is counted from
   the new start when the packet is a pong.
   */
  lemma AcceptsIff(s: Server, q: seq<byte>)
    requires |q| >= 2
    ensures
      var start := if q[0] == 240 && q[1] == 1 then s.upcoming else s.start;
      Accepts(s, q) <==> q[1] == 255 || ReadNumber(q, start + s.count) == start + s.count
  {
  }

  /** And what is counted: ten numbers, over and over, whatever the packet. */
  lemma CountedExact(s: Server, q: seq<byte>)
    requires |q| >= 2 && s.count < 10
    ensures
      var t := Counted(Switched(s, q));
      && t.count == (if s.count == 9 then 0 else s.count + 1)
      && t.start == (if q[0] == 240 && q[1] == 1 then s.upcoming else s.start)
      && t.upcoming == s.upcoming && t.needPong == s.needPong
  {
  }

  /** The sequence fields of a client object. */
  class SequenceState {
    var seqStart: int
    var upcomingSeqStart: int
    var count: nat
    var needPong: bool

    ghost function State(): Server
      reads this
    {
      Server(seqStart, upcomingSeqStart, count, needPong)
    }

    constructor ()
      ensures State() == Server(0, -1, 0, false)
    {
      seqStart, upcomingSeqStart, count, needPong := 0, -1, 0, false;
    }

    method InitNewSequence(roll: nat)
      requires roll <= MAX_START
      modifies this`seqStart
      ensures State() == old(State()).(start := roll)
    {
      seqStart := roll;
    }

    method PingNewSequence(roll: nat)
      requires roll <= MAX_START
      modifies this`upcomingSeqStart
      ensures State() == old(State()).(upcoming := roll)
    {
      upcomingSeqStart := roll;
    }

    method PongNewSequence()
      modifies this`seqStart
      ensures State() == old(State()).(start := old(upcomingSeqStart))
    {
      seqStart := upcomingSeqStart;
    }

    method GenSequence() returns (result: int)
      modifies this`count
      ensures result == old(seqStart + count)
      ensures State() == Counted(old(State()))
    {
      result := seqStart + count;
      count := (count + 1) % 10;
    }

    /** The part of `server_ping_all` for one client: an unanswered ping closes it. */
    method PingAll(roll: nat, s1: nat) returns (close: bool, ping: (nat, nat))
      requires roll <= MAX_START && roll <= s1 <= roll + 252
      modifies this`upcomingSeqStart, this`needPong
      ensures close == old(needPong)
      ensures close ==> State() == old(State())
      ensures !close ==> State() == old(State()).(upcoming := roll, needPong := true) && ping == (s1, s1 - roll)
    {
      if needPong {
        return true, (0, 0);
      }
      PingNewSequence(roll);
      needPong := true;
      return false, (s1, s1 - upcomingSeqStart);
    }

    /** `Execute` on an unscrambled packet; false means the client is closed for a wrong number. */
    method Execute(q: seq<byte>) returns (accepted: bool)
      requires |q| >= 2
      modifies this`seqStart, this`count
      ensures State() == Counted(Switched(old(State()), q))
      ensures accepted <==> Accepts(old(State()), q)
    {
      accepted := true;
      if q[1] != INIT {
        if q[1] == CONNECTION && q[0] == PING {
          PongNewSequence();
        }
        var serverSeq := GenSequence();
        var reader := new PF.PacketReader(q);
        var clientSeq;
        if serverSeq >= 253 {
          clientSeq := reader.GetNumber(2);
        } else {
          clientSeq := reader.GetNumber(1);
        }
        accepted := clientSeq == serverSeq;
      } else {
        var _ := GenSequence();
      }
    }

    /** `Connection_Ping`, run later from the action queue. */
    method HandlePong()
      modifies this`needPong
      ensures State() == old(State()).(needPong := false)
    {
      if needPong {
        needPong := false;
      }
    }
  }

  // ---------- server, client, and the two channels between them ----------

  datatype Peer = Peer(start: nat, count: nat)

  /** What travels to the client: the two numbers of a ping. */
  datatype Ping = Ping(s1: nat, s2: nat)

  datatype System = System(
    server: Server,
    peer: Peer,
    toClient: seq<Ping>,
    toServer: seq<seq<byte>>,
    pongs: nat,        // executed pongs whose handler has not run
    refused: bool)     // a packet was ever refused for its number

  datatype Event =
    | ClientSends(action: byte, family: byte, body: seq<byte>)
    | ClientAnswersPing
    | ServerPings(roll: nat, s1: nat)
    | ServerExecutes
    | ServerHandlesPong

  /** A conforming client's packet: its number comes first. */
  function PeerPacket(p: Peer, action: byte, family: byte, body: seq<byte>): (q: seq<byte>)
    requires p.start <= MAX_START && p.count < 10
    ensures |q| >= 2 && q[0] == action && q[1] == family
  {
    [action, family] + (NumberField(p.start + p.count) + body)
  }

  function PeerCounted(p: Peer): Peer {
    p.(count := (p.count + 1) % 10)
  }

  /** One step; an event that cannot happen changes nothing. */
  ghost function Next(s: System, e: Event): System
    requires Fits(s)
  {
    match e
    case ClientSends(action, family, body) =>
      if family == INIT || (family == CONNECTION && action == PING) then s
      else s.(peer := PeerCounted(s.peer), toServer := s.toServer + [PeerPacket(s.peer, action, family, body)])
    case ClientAnswersPing =>
      if s.toClient == [] || !(0 <= s.toClient[0].s1 - s.toClient[0].s2 <= MAX_START) then s
      else
        var p := s.peer.(start := s.toClient[0].s1 - s.toClient[0].s2);
        s.(peer := PeerCounted(p), toClient := s.toClient[1..],
           toServer := s.toServer + [PeerPacket(p, PING, CONNECTION, [107])])
    case ServerPings(roll, s1) =>
      if s.server.needPong || roll > MAX_START || !(roll <= s1 <= roll + 252) then s
      else s.(server := s.server.(upcoming := roll, needPong := true), toClient := s.toClient + [Ping(s1, s1 - roll)])
    case ServerExecutes =>
      if s.toServer == [] || |s.toServer[0]| < 2 then s
      else
        var q := s.toServer[0];
        s.(server := Counted(Switched(s.server, q)), toServer := s.toServer[1..],
           pongs := s.pongs + if IsPong(q) then 1 else 0,
           refused := s.refused || !Accepts(s.server, q))
    case ServerHandlesPong =>
      if s.pongs == 0 then s else s.(server := s.server.(needPong := false), pongs := s.pongs - 1)
  }

  ghost predicate Fits(s: System) {
    s.peer.start <= MAX_START && s.peer.count < 10
  }

  /** After the INIT exchange both sides hold the same start and count. */
  ghost predicate Initial(s: System) {
    && s.server.start == s.peer.start <= MAX_START
    && s.server.count == s.peer.count < 10
    && !s.server.needPong && s.toClient == [] && s.toServer == [] && s.pongs == 0 && !s.refused
  }

  /** A packet that starts with this start value plus this count. */
  ghost predicate WrittenWith(q: seq<byte>, start: int, count: nat) {
    && |q| >= 2 && q[1] != INIT
    && 0 <= start <= MAX_START && count < 10
    && var f := NumberField(start + count);
       |f| <= |q| - 2 && q[2..2 + |f|] == f
  }

  /** The packets on their way are counted up from `count`; those before the pong at `at` use the old start. */
  ghost predicate Numbered(queue: seq<seq<byte>>, at: nat, oldStart: int, newStart: int, count: nat) {
    && at <= |queue|
    && forall i :: 0 <= i < |queue| ==>
      && WrittenWith(queue[i], if i < at then oldStart else newStart, (count + i) % 10)
      && (IsPong(queue[i]) <==> i == at)
  }

  /**
   The invariant: `at` is where the pong is among the packets on their way, or their number if there is none.
   A ping is outstanding in exactly one place, and then the upcoming start is known to whoever needs it.
   */
  ghost predicate Agreed(s: System, at: nat) {
    && Fits(s) && s.server.count < 10 && !s.refused
    && s.peer.count == (s.server.count + |s.toServer|) % 10
    && Numbered(s.toServer, at, s.server.start, s.peer.start, s.server.count)
    && |s.toClient| + (if at < |s.toServer| then 1 else 0) + s.pongs == (if s.server.needPong then 1 else 0)
    && s.peer.start == (if at < |s.toServer| then s.server.upcoming else s.server.start)
    && (s.toClient != [] ==> PingFits(s.toClient[0], s.server.upcoming))
  }

  ghost predicate PingFits(p: Ping, upcoming: int) {
    0 <= upcoming <= MAX_START && p.s1 - p.s2 == upcoming
  }

  lemma InitiallyAgreed(s: System)
    requires Initial(s)
    ensures Agreed(s, 0)
  {
  }

  lemma WrittenAccepted(s: Server, q: seq<byte>, start: int)
    requires WrittenWith(q, start, s.count) && Switched(s, q).start == start
    ensures Accepts(s, q)
  {
    var n := start + s.count;
    var k := 2 + |NumberField(n)|;
    NumberAgrees(q[..2], n, q[k..]);
    CutTwice(q, 2, k);
  }

  lemma CutTwice(q: seq<byte>, i: nat, j: nat)
    requires i <= j <= |q|
    ensures q == q[..i] + (q[i..j] + q[j..])
  {
  }

  lemma NumberedPush(queue: seq<seq<byte>>, at: nat, a: int, b: int, count: nat, q: seq<byte>)
    requires Numbered(queue, at, a, b, count)
    requires WrittenWith(q, b, (count + |queue|) % 10)
    requires IsPong(q) <==> at == |queue|
    ensures Numbered(queue + [q], at, a, b, count)
  {
    hide WrittenWith, IsPong;
  }

  /** Another packet before any pong: the place where a pong would be moves on. */
  lemma NumberedPushOld(queue: seq<seq<byte>>, a: int, b: int, c: int, count: nat, q: seq<byte>)
    requires Numbered(queue, |queue|, a, b, count)
    requires WrittenWith(q, a, (count + |queue|) % 10) && !IsPong(q)
    ensures Numbered(queue + [q], |queue| + 1, a, c, count)
  {
    hide WrittenWith, IsPong;
  }

  /** Without a pong on its way the new start does not matter. */
  lemma NumberedAnyNew(queue: seq<seq<byte>>, a: int, b: int, c: int, count: nat)
    requires Numbered(queue, |queue|, a, b, count)
    ensures Numbered(queue, |queue|, a, c, count)
  {
    hide WrittenWith, IsPong;
  }

  lemma NumberedPop(queue: seq<seq<byte>>, at: nat, a: int, b: int, count: nat)
    requires queue != [] && Numbered(queue, at, a, b, count) && count < 10
    ensures
      if at == 0 then Numbered(queue[1..], |queue| - 1, b, b, (count + 1) % 10)
      else Numbered(queue[1..], at - 1, a, b, (count + 1) % 10)
  {
    hide WrittenWith, IsPong;
    var rest := queue[1..];
    var c := (count + 1) % 10;
    forall i | 0 <= i < |rest|
      ensures WrittenWith(rest[i], if i < at - 1 then a else b, (c + i) % 10)
      ensures IsPong(rest[i]) <==> i == at - 1
    {
      assert rest[i] == queue[i + 1] && (c + i) % 10 == (count + (i + 1)) % 10;
    }
  }

  /** Where the pong is after a step. */
  ghost function PongAfter(s: System, e: Event, at: nat): nat
    requires Fits(s)
  {
    var t := Next(s, e);
    match e
    case ClientSends(_, _, _) => if at == |s.toServer| then |t.toServer| else at
    case ClientAnswersPing => at
    case ServerPings(_, _) => at
    case ServerExecutes =>
      if t == s then at else if at == 0 then |t.toServer| else at - 1
    case ServerHandlesPong => at
  }

  lemma PacketWritten(p: Peer, action: byte, family: byte, body: seq<byte>)
    requires p.start <= MAX_START && p.count < 10 && family != INIT
    ensures WrittenWith(PeerPacket(p, action, family, body), p.start, p.count)
  {
    var f := NumberField(p.start + p.count);
    MiddlePart([action, family], f, body);
  }

  lemma PeerPong(p: Peer, action: byte, family: byte, body: seq<byte>)
    requires p.start <= MAX_START && p.count < 10
    ensures IsPong(PeerPacket(p, action, family, body)) <==> action == PING && family == CONNECTION
  {
    hide NumberField;
  }

  lemma MiddlePart(a: seq<byte>, b: seq<byte>, c: seq<byte>)
    ensures |a + (b + c)| == |a| + |b| + |c| && (a + (b + c))[|a|..|a| + |b|] == b
  {
  }

  lemma CountNext(count: nat, n: nat)
    ensures ((count + n) % 10 + 1) % 10 == (count + (n + 1)) % 10
  {
  }

  lemma ClientSendsAgreed(s: System, e: Event, at: nat)
    requires Agreed(s, at) && e.ClientSends?
    ensures Agreed(Next(s, e), PongAfter(s, e, at))
  {
    hide Numbered, PeerPacket, WrittenWith, PingFits, IsPong;
    if !(e.family == INIT || (e.family == CONNECTION && e.action == PING)) {
      var q := PeerPacket(s.peer, e.action, e.family, e.body);
      PacketWritten(s.peer, e.action, e.family, e.body);
      PeerPong(s.peer, e.action, e.family, e.body);
      CountNext(s.server.count, |s.toServer|);
      AtInQueue(s, at);
      if at == |s.toServer| {
        NumberedPushOld(s.toServer, s.server.start, s.peer.start, s.peer.start, s.server.count, q);
      } else {
        NumberedPush(s.toServer, at, s.server.start, s.peer.start, s.server.count, q);
      }
    }
  }

  lemma ClientAnswersAgreed(s: System, e: Event, at: nat)
    requires Agreed(s, at) && e.ClientAnswersPing?
    ensures Agreed(Next(s, e), PongAfter(s, e, at))
  {
    hide Numbered, PeerPacket, WrittenWith, IsPong;
    if s.toClient != [] {
      CountNext(s.server.count, |s.toServer|);
      PeerPong(s.peer.(start := s.toClient[0].s1 - s.toClient[0].s2), PING, CONNECTION, [107]);
      var p := s.peer.(start := s.server.upcoming);
      assert at == |s.toServer| by {
        AtInQueue(s, at);
      }
      PacketWritten(p, PING, CONNECTION, [107]);
      NumberedAnyNew(s.toServer, s.server.start, s.peer.start, p.start, s.server.count);
      NumberedPush(s.toServer, at, s.server.start, p.start, s.server.count, PeerPacket(p, PING, CONNECTION, [107]));
    }
  }

  lemma AtInQueue(s: System, at: nat)
    requires Agreed(s, at)
    ensures at <= |s.toServer|
  {
  }

  lemma ServerExecutesAgreed(s: System, e: Event, at: nat)
    requires Agreed(s, at) && e.ServerExecutes?
    ensures Agreed(Next(s, e), PongAfter(s, e, at))
  {
    if s.toServer != [] {
      hide Numbered, WrittenWith, Accepts, PeerPacket, IsPong, Switched;
      FrontPacket(s, at);
      PopCount(s.server.count, |s.toServer|);
      SwitchedKeeps(s.server, s.toServer[0]);
      NumberedPop(s.toServer, at, s.server.start, s.peer.start, s.server.count);
      AtInQueue(s, at);
    }
  }

  lemma PopCount(count: nat, n: nat)
    requires n > 0
    ensures ((count + 1) % 10 + (n - 1)) % 10 == (count + n) % 10
  {
  }

  lemma SwitchedKeeps(s: Server, q: seq<byte>)
    requires |q| >= 2
    ensures Switched(s, q) == s.(start := Switched(s, q).start)
  {
  }

  lemma FrontPacket(s: System, at: nat)
    requires Agreed(s, at) && s.toServer != []
    ensures
      var q := s.toServer[0];
      && |q| >= 2 && q[1] != INIT && Accepts(s.server, q)
      && (IsPong(q) <==> at == 0)
      && Switched(s.server, q).start == (if at > 0 then s.server.start else s.peer.start)
  {
    hide Accepts, NumberField;
    assert (s.server.count + 0) % 10 == s.server.count;
    WrittenAccepted(s.server, s.toServer[0], if at > 0 then s.server.start else s.peer.start);
  }

  /** Every step keeps the agreement. */
  lemma StepAgreed(s: System, e: Event, at: nat)
    requires Agreed(s, at)
    ensures Agreed(Next(s, e), PongAfter(s, e, at))
  {
    hide Numbered;
    match e
    case ClientSends(_, _, _) => ClientSendsAgreed(s, e, at);
    case ClientAnswersPing => ClientAnswersAgreed(s, e, at);
    case ServerPings(_, _) =>
    case ServerExecutes => ServerExecutesAgreed(s, e, at);
    case ServerHandlesPong =>
  }

  ghost function Run(s: System, es: seq<Event>): System
    requires Fits(s)
    decreases |es|
  {
    if es == [] then s
    else
      var t := Next(s, es[0]);
      if Fits(t) then Run(t, es[1..]) else t
  }

  /**
   In every run the server never refuses a packet of a conforming client, at most one ping is anywhere
   between being sent and being answered, and once all packets have arrived both sides agree.
   */
  lemma {:induction false} NeverRefused(s: System, es: seq<Event>, at: nat)
    requires Agreed(s, at)
    ensures
      var t := Run(s, es);
      && !t.refused
      && |t.toClient| + t.pongs <= 1
      && (t.toServer == [] ==> t.server.start == t.peer.start && t.server.count == t.peer.count)
    decreases |es|
  {
    if es != [] {
      StepAgreed(s, es[0], at);
      NeverRefused(Next(s, es[0]), es[1..], PongAfter(s, es[0], at));
    }
  }

  /** The same from the state after the INIT exchange. */
  lemma NeverRefusedFromStart(s: System, es: seq<Event>)
    requires Initial(s)
    ensures
      var t := Run(s, es);
      && !t.refused
      && |t.toClient| + t.pongs <= 1
      && (t.toServer == [] ==> t.server.start == t.peer.start && t.server.count == t.peer.count)
  {
    InitiallyAgreed(s);
    NeverRefused(s, es, 0);
  }
}
