/**
 Cutting the received byte stream into packets, as `EOClient::Tick` does in src/eoclient.cpp: one packet is
 collected over many ticks, each of which takes whatever part of it has arrived.
 */
module Framing {
  import opened Bytes
  import PacketFields
  import opened Socket

  /** The body length announced by two header bytes. */
  function FrameLength(a: byte, b: byte): nat {
    PacketFields.Number([a, b, 254, 254])
  }

  // ---------- the batch parse ----------

  datatype Parsed = Parsed(frames: seq<seq<byte>>, rest: seq<byte>)

  /**
   All complete frames at the front of `s`, and what is left. A frame announced with length zero blocks
   everything behind it.
   */
  function Parse(s: seq<byte>): Parsed
    decreases |s|
  {
    if |s| < 2 then Parsed([], s)
    else
      var n := FrameLength(s[0], s[1]);
      if n == 0 || |s| < 2 + n then Parsed([], s)
      else
        var p := Parse(s[2 + n..]);
        Parsed([s[2..2 + n]] + p.frames, p.rest)
  }

  /** A complete frame in front of anything. */
  lemma ParseFrame(a: byte, b: byte, body: seq<byte>, rest: seq<byte>)
    requires |body| == FrameLength(a, b) > 0
    ensures Parse([a, b] + body + rest) == Parsed([body] + Parse(rest).frames, Parse(rest).rest)
  {
    var s := [a, b] + body + rest;
    assert s[2..2 + |body|] == body && s[2 + |body|..] == rest;
  }

  /** Parsing can stop anywhere and go on later with what was left. */
  lemma {:induction false} ParseAppend(s: seq<byte>, t: seq<byte>)
    ensures Parse(s + t) == Parsed(Parse(s).frames + Parse(Parse(s).rest + t).frames, Parse(Parse(s).rest + t).rest)
    decreases |s|
  {
    var blocked := |s| < 2 || FrameLength(s[0], s[1]) == 0 || |s| < 2 + FrameLength(s[0], s[1]);
    if blocked {
      ConcatEmpty(Parse(s + t).frames);
    } else {
      var n := FrameLength(s[0], s[1]);
      var u := s[2 + n..];
      ParseAppend(u, t);
      DropFrame(s, t, 2 + n);
      ConcatAssociative([s[2..2 + n]], Parse(u).frames, Parse(Parse(u).rest + t).frames);
    }
  }

  lemma DropFrame(s: seq<byte>, t: seq<byte>, k: nat)
    requires 2 <= k <= |s|
    ensures (s + t)[k..] == s[k..] + t && (s + t)[2..k] == s[2..k] && (s + t)[0] == s[0] && (s + t)[1] == s[1]
  {
  }

  /** Bytes behind a blocking header never produce a frame. */
  lemma ParseBlocked(a: byte, b: byte, t: seq<byte>)
    requires FrameLength(a, b) == 0
    ensures Parse([a, b] + t) == Parsed([], [a, b] + t)
  {
  }

  /** A header that is not there yet, or announces more than is there, waits for the rest. */
  lemma ParseWaits(s: seq<byte>)
    requires |s| < 2 || |s| < 2 + FrameLength(s[0], s[1])
    ensures Parse(s) == Parsed([], s)
  {
  }

  // ---------- one tick at a time ----------

  datatype PacketState = ReadLen1 | ReadLen2 | ReadData

  class FramedClient {
    const sock: Client
    var packetState: PacketState
    var raw0: byte
    var raw1: byte
    var length: nat
    var data: seq<byte>
    var executed: seq<seq<byte>>  // every packet handed to Execute

    /** The consumed bytes that no executed packet accounts for. */
    ghost function Partial(): seq<byte>
      reads this
    {
      match packetState
      case ReadLen1 => []
      case ReadLen2 => [raw0]
      case ReadData => [raw0, raw1] + data
    }

    ghost predicate Collecting()
      reads this
    {
      && (packetState.ReadData? ==> |data| + length == FrameLength(raw0, raw1) && (length == 0 ==> data == []))
      && (!packetState.ReadData? ==> data == [])
    }

    /** Waiting for a packet of length zero: nothing will ever be read again. */
    predicate Stuck()
      reads this
    {
      packetState.ReadData? && length == 0
    }

    ghost function Footprint(): set<object>
      reads this, sock, sock.recv, sock.send
    {
      {this, sock, sock.recv, sock.recv.bytes, sock.send, sock.send.bytes}
    }

    /** Whatever the arrival schedule was: executed packets plus partial state are the batch parse. */
    ghost predicate Valid()
      reads Footprint()
    {
      && sock.Valid()
      && Collecting()
      && Parse(sock.handled) == Parsed(executed, Partial())
    }

    constructor (sock: Client)
      requires sock.Valid() && sock.handled == []
      ensures Valid() && this.sock == sock && executed == []
    {
      this.sock := sock;
      packetState, raw0, raw1, length, data, executed := ReadLen1, 0, 0, 0, [], [];
    }

    /** How much one tick asks for. */
    function Want(): nat
      reads this
    {
      if packetState.ReadData? then length else 1
    }

    method Execute(packet: seq<byte>)
      modifies this`executed
      ensures executed == old(executed) + [packet]
    {
      executed := executed + [packet];
    }

    /** The loop of `Tick` over the bytes just received; everything it is given is used up. */
    method Consume(input0: seq<byte>)
      requires Collecting() && |input0| <= Want()
      modifies this`packetState, this`raw0, this`raw1, this`length, this`data, this`executed
      ensures Collecting()
      ensures
        var p := Parse(old(Partial()) + input0);
        executed == old(executed) + p.frames && Partial() == p.rest
    {
      var input := input0;
      var done := false;
      ConcatEmpty(Partial());
      ConcatEmpty(executed);
      ParseNothingYet();
      while input != [] && !done
        invariant (input == input0 || input == []) && (done ==> input == [])
        invariant input == input0 ==> packetState == old(packetState) && length == old(length) && data == old(data)
        invariant input == input0 ==> raw0 == old(raw0) && raw1 == old(raw1) && executed == old(executed)
        invariant Collecting()
        invariant input == [] ==>
          var p := Parse(old(Partial()) + input0);
          executed == old(executed) + p.frames && Partial() == p.rest
        decreases |input|
      {
        if packetState.ReadLen1? {
          raw0 := input[0];
          input := input[1..];
          packetState := ReadLen2;
        } else if packetState.ReadLen2? {
          raw1 := input[0];
          input := input[1..];
          length := PacketFields.Number([raw0, raw1, 254, 254]);
          packetState := ReadData;
        } else {
          done := Collect(input);
          input := [];
        }
        ConcatEmpty(old(executed));
      }
    }

    /** With no input the partial state is its own parse. */
    lemma ParseNothingYet()
      requires Collecting()
      ensures Parse(Partial()) == Parsed([], Partial())
    {
    }

    /** The `ReadData` case: `input` is never longer than what is missing. */
    method Collect(input: seq<byte>) returns (done: bool)
      requires packetState.ReadData? && Collecting() && 0 < |input| <= length
      modifies this`packetState, this`length, this`data, this`executed
      ensures Collecting()
      ensures
        var p := Parse(old(Partial()) + input);
        executed == old(executed) + p.frames && Partial() == p.rest
    {
      ghost var before := Partial() + input;
      var oldLength := |data|;
      data := data + input;
      assert before == [raw0, raw1] + data;
      length := length - (|data| - oldLength);
      done := false;
      if length == 0 {
        ParseFrame(raw0, raw1, data, []);
        ConcatEmpty([raw0, raw1] + data);
        ConcatEmpty([data]);
        Execute(data);
        data := [];
        packetState := ReadLen1;
        done := true;
      } else {
        ConcatEmpty(executed);
      }
    }

    /** Bytes arrive between ticks, in whatever pieces the network delivers. */
    method Arrive(incoming: seq<byte>) returns (ok: bool)
      requires Valid() && |incoming| <= Min(sock.recv.Room(), CHUNK)
      modifies sock.recv`ppos, sock.recv`used, sock.recv.bytes, sock`arrived
      ensures Valid() && executed == old(executed)
      ensures sock.arrived == old(sock.arrived) + incoming
      ensures ok <==> incoming != []
    {
      ok := sock.DoRecv(incoming);
    }

    /** One tick outside an upload. */
    method Tick()
      requires Valid()
      modifies this`packetState, this`raw0, this`raw1, this`length, this`data, this`executed
      modifies sock.recv`gpos, sock.recv`used, sock`handled
      ensures Valid()
      ensures old(executed) <= executed
      ensures old(sock.recv.used) > 0 && !old(Stuck()) ==> sock.recv.used < old(sock.recv.used)
    {
      ghost var before, partial := sock.handled, Partial();
      var input := sock.Recv(Want());
      ParseAppend(before, input);
      Consume(input);
    }

    /** Ticking until nothing is left to read executes every complete frame that ever arrived. */
    method TickAll()
      requires Valid()
      modifies this`packetState, this`raw0, this`raw1, this`length, this`data, this`executed
      modifies sock.recv`gpos, sock.recv`used, sock`handled
      ensures Valid()
      ensures executed == Parse(sock.arrived).frames
    {
      while sock.recv.used > 0 && !Stuck()
        invariant Valid()
        decreases sock.recv.used
      {
        Tick();
      }
      hide Parse;
      var left := sock.recv.Contents();
      ParseAppend(sock.handled, left);
      if Stuck() {
        ParseBlocked(raw0, raw1, left);
        assert Partial() + left == [raw0, raw1] + left;
      } else {
        ParseNothingYet();
        ConcatEmpty(Partial());
      }
      ConcatEmpty(executed);
    }
  }
}
