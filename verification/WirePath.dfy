/**
 The whole way of a packet: fields are built, the packet is scrambled, the bytes travel as one stream, the
 receiver cuts out frames, unscrambles them and reads the fields.
 */
module WirePath {
  import opened Bytes
  import opened PacketCodec
  import opened PacketFields
  import opened Framing

  datatype Message = Message(id: nat, fields: seq<Field>)
  {
    ghost predicate Valid() {
      id < 65536 && |WrittenAll(fields)| + 2 < MAX2
    }

    ghost function Packet(): (p: seq<byte>)
      requires Valid()
      ensures |p| == |WrittenAll(fields)| + 4
    {
      PacketFields.Packet(id, WrittenAll(fields), 0)
    }
  }

  ghost predicate Sendable(ms: seq<Message>, k: byte) {
    forall m :: m in ms ==> m.Valid() && Survives(m.Packet(), k)
  }

  /**
   For the short packets and the keys the server uses, the filler in the second length byte keeps the header
   safe, so that a packet survives if and only if its reversed payload does.
   */
  lemma ShortMessageSurvivesIff(m: Message, k: byte)
    requires m.Valid() && |WrittenAll(m.fields)| + 2 < MAX1 && 6 <= k <= 12
    requires m.id != INIT_ID
    ensures Survives(m.Packet(), k) <==> PayloadSurvives(Wind(m.Packet()[2..], k))
  {
    var p := m.Packet();
    FillerIsSafe(k);
    assert p[1] == FILLER;
    SplitCase(p, k);
  }

  /** Everything the sender puts on the wire. */
  ghost function Stream(ms: seq<Message>, k: byte): seq<byte>
    requires Sendable(ms, k)
  {
    if ms == [] then [] else Encoded(ms[0].Packet(), k) + Stream(ms[1..], k)
  }

  ghost function Frames(ms: seq<Message>, k: byte): (fs: seq<seq<byte>>)
    requires Sendable(ms, k)
    ensures |fs| == |ms|
  {
    if ms == [] then [] else [Encoded(ms[0].Packet(), k)[2..]] + Frames(ms[1..], k)
  }

  /** The header of a sendable packet announces exactly the scrambled body. */
  lemma HeaderAnnounces(m: Message, k: byte)
    requires m.Valid() && Survives(m.Packet(), k)
    ensures var e := Encoded(m.Packet(), k); FrameLength(e[0], e[1]) == |e| - 2
  {
    var p := m.Packet();
    var e := Encoded(p, k);
    LengthHeader(m.id, WrittenAll(m.fields), 0);
    assert e[..2] == p[..2];
    assert e[0] == e[..2][0] == p[..2][0] && e[1] == e[..2][1] == p[..2][1];
    assert Padded(p[..2]) == [e[0], e[1], FILLER, FILLER];
  }

  /** The receiver cuts the stream exactly where the sender's packets end. */
  lemma {:induction false} StreamParses(ms: seq<Message>, k: byte)
    requires Sendable(ms, k)
    ensures Parse(Stream(ms, k)) == Parsed(Frames(ms, k), [])
    decreases |ms|
  {
    if ms != [] {
      assert ms[0] in ms;
      var e := Encoded(ms[0].Packet(), k);
      HeaderAnnounces(ms[0], k);
      StreamParses(ms[1..], k);
      ParseFrame(e[0], e[1], e[2..], Stream(ms[1..], k));
      HeaderAndBody(e);
    }
  }

  lemma HeaderAndBody(e: seq<byte>)
    requires |e| >= 2
    ensures e == [e[0], e[1]] + e[2..]
  {
  }

  /** A frame, unscrambled, carries a message: its action and family, and fields that read back as their values. */
  ghost predicate Carries(frame: seq<byte>, m: Message, k: byte) {
    && |frame| >= 2
    && var q := Decoded(frame, k);
       && q[0] as nat * 256 + q[1] as nat == m.id
       && ReadAll(q, 2, m.fields) == MeaningAll(m.fields)
  }

  lemma FrameReads(m: Message, k: byte)
    requires m.Valid() && Survives(m.Packet(), k)
    ensures Carries(Encoded(m.Packet(), k)[2..], m, k)
  {
    hide WrittenAll, Encoded, Decoded, NumberBytes, ReadAll, MeaningAll;
    var id := [(m.id / 256) as byte, (m.id % 256) as byte];
    var body := WrittenAll(m.fields);
    var q := Decoded(Encoded(m.Packet(), k)[2..], k);
    assert q == m.Packet()[2..];
    DropHeader(NumberBytes(|body| + 2)[..2], id, body);
    ConcatParts(id, body);
    FieldsRoundTrip(id, m.fields);
    assert q[..2] == id && q[0] == id[0] && q[1] == id[1];
  }

  lemma DropHeader(a: seq<byte>, b: seq<byte>, c: seq<byte>)
    requires |a| == 2
    ensures (a + b + c)[2..] == b + c
  {
  }

  lemma {:induction false} FrameOf(ms: seq<Message>, k: byte, i: nat)
    requires Sendable(ms, k) && i < |ms|
    ensures ms[i] in ms && Frames(ms, k)[i] == Encoded(ms[i].Packet(), k)[2..]
    decreases |ms|
  {
    if i > 0 {
      FrameOf(ms[1..], k, i - 1);
    }
  }

  /**
   End to end: once the stream of any list of sendable messages has arrived, in whatever pieces, and the
   receiver has ticked until it has nothing left to read, it has executed one packet per message, in order,
   and each reads back as the values of the message's fields.
   */
  method Receive(client: FramedClient, ghost ms: seq<Message>, ghost k: byte)
    requires client.Valid() && Sendable(ms, k) && client.sock.arrived == Stream(ms, k)
    modifies client`packetState, client`raw0, client`raw1, client`length, client`data, client`executed
    modifies client.sock.recv`gpos, client.sock.recv`used, client.sock`handled
    ensures |client.executed| == |ms|
    ensures forall i :: 0 <= i < |ms| ==> Carries(client.executed[i], ms[i], k)
  {
    hide Carries;
    client.TickAll();
    StreamParses(ms, k);
    forall i | 0 <= i < |ms|
      ensures Carries(client.executed[i], ms[i], k)
    {
      FrameOf(ms, k, i);
      FrameReads(ms[i], k);
    }
  }

  /**
   Packets the server can build that do not survive: with key 6 and action 18, any that announces 2783 to 3035
   bytes and whose family is no multiple of 6. Its second length byte, 12, and its action are in one run, so that the
   action lands in the header, unless the first length byte is 18 too.
   */
  lemma HeaderCanBeLost(id: nat, data: seq<byte>)
    requires id < 65536 && id / 256 == 18 && id % 256 % 6 != 0
    requires 2783 <= |data| + 2 < 3036 && (|data| + 2) % 253 != 17
    ensures
      var p := PacketFields.Packet(id, data, 0);
      Encoded(p, 6)[..2] != p[..2] && !Survives(p, 6)
  {
    hide Survives, Encoded, NumberBytes, PacketFields.Packet;
    ListPacket(id, data);
    LostHeader(PacketFields.Packet(id, data, 0));
  }

  /** The first four bytes of such a packet. */
  lemma ListPacket(id: nat, data: seq<byte>)
    requires id < 65536 && id / 256 == 18 && 2783 <= |data| + 2 < 3036
    ensures
      var p := PacketFields.Packet(id, data, 0);
      p[0] as int == (|data| + 2) % 253 + 1 && p[1] == 12 && p[2] == 18 && p[3] as int == id % 256
  {
    hide NumberBytes;
    LengthBytes(|data| + 2);
    var p := PacketFields.Packet(id, data, 0);
    assert p[..2] == NumberBytes(|data| + 2)[..2];
  }

  lemma LengthBytes(size: nat)
    requires 2783 <= size < 3036
    ensures size % UINT == size
    ensures NumberBytes(size)[0] as int == size % 253 + 1 && NumberBytes(size)[1] == 12
  {
    assert size / 253 == 11;
  }

  lemma LostHeader(p: seq<byte>)
    requires |p| >= 4 && p[1] == 12 && p[2] == 18 && p[3] % 6 != 0 && p[0] != 18
    ensures Encoded(p, 6)[..2] != p[..2] && !Survives(p, 6)
  {
    var m := MultipleOf(6);
    RunLengthIs(p[2..], m, 1);
    WindCrossing(p, 6);
    var s, w := Reverse(p[2..][..1]), Wind(p[2..][1..], 6);
    assert p[2..][..1] == [p[2]];
    ReverseSingle(p[2]);
    var x := Wind(p, 6);
    assert x[0] != p[0] || x[1] != p[1];
    FirstTwo(x, p);
    assert Encoded(p, 6)[..2] == x[..2];
  }
}
