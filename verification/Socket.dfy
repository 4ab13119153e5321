/** The receive and send ring buffers of one connection, as in src/socket.cpp. */
module Socket {
  import opened Bytes
  import opened Ring

  const CHUNK := 8192  // the stack buffer of DoRecv and DoSend

  /** One ring buffer: get position, put position and fill count over a fixed-size byte string. */
  class Buffer {
    var bytes: array<byte>
    var gpos: nat
    var ppos: nat
    var used: nat

    ghost predicate Valid()
      reads this, bytes
    {
      && PowerOfTwo(bytes.Length)
      && used <= bytes.Length
      && gpos < bytes.Length
      && ppos <= bytes.Length
      && Wrap(ppos, bytes.Length) == Wrap(gpos + used, bytes.Length)
    }

    ghost function Contents(): (q: seq<byte>)
      requires Valid()
      reads this, bytes
      ensures |q| == used
    {
      Queue(bytes[..], gpos, used)
    }

    constructor (size: nat)
      requires PowerOfTwo(size)
      ensures Valid() && fresh(bytes) && bytes.Length == size && Contents() == []
      ensures gpos == ppos == used == 0 && bytes[0] == 0
    {
      bytes := new byte[size](_ => 0);
      gpos, ppos, used := 0, 0, 0;
    }

    function Room(): nat
      requires Valid()
      reads this, bytes
    {
      bytes.Length - used
    }

    /** One turn of the loop below, `i` bytes in; `used` is settled at the end. */
    method PutByte(ghost i: nat, b: byte, mask: nat)
      requires PowerOfTwo(bytes.Length) && mask == bytes.Length - 1
      requires used + i < bytes.Length && Wrap(ppos, bytes.Length) == Wrap(gpos + (used + i), bytes.Length)
      modifies this`ppos, bytes
      ensures ppos == Wrap(gpos + (used + (i + 1)), bytes.Length) == Wrap(old(ppos) + 1, bytes.Length)
      ensures Queue(bytes[..], gpos, used + (i + 1)) == old(Queue(bytes[..], gpos, used + i)) + [b]
      ensures ppos != 0 ==> bytes[0] == old(bytes[0])
    {
      hide Queue, BitAnd, Wrap, PowerOfTwo;
      ghost var before, n := bytes[..], bytes.Length;
      NextSlot(ppos, gpos, used + i, n);
      ppos := BitAnd(ppos + 1, mask);
      bytes[ppos] := b;
      assert bytes[..] == before[Slot(n, gpos, used + i) := b];
      PutAppends(before, gpos, used + i, b);
    }

    /**
     Writes bytes one slot at a time after the put position, wrapping with the mask. Slot 0 is left alone when the
     end of the buffer is not reached.
     */
    method Put(data: seq<byte>)
      requires Valid() && |data| <= Room()
      modifies this`ppos, this`used, bytes
      ensures Valid() && bytes == old(bytes)
      ensures Contents() == old(Contents()) + data
      ensures used == old(used) + |data|
      ensures old(ppos) + |data| < bytes.Length ==> ppos == old(ppos) + |data| && bytes[0] == old(bytes[0])
    {
      hide Queue, Wrap, PowerOfTwo;
      var mask := bytes.Length - 1;
      var i := 0;
      ConcatAll(Contents(), data);
      while i < |data|
        invariant i <= |data| && used == old(used) && gpos == old(gpos) && ppos <= bytes.Length
        invariant Wrap(ppos, bytes.Length) == Wrap(gpos + (used + i), bytes.Length)
        invariant Queue(bytes[..], gpos, used + i) == old(Contents()) + data[..i]
        invariant old(ppos) + |data| < bytes.Length ==> ppos == old(ppos) + i && bytes[0] == old(bytes[0])
      {
        if old(ppos) + |data| < bytes.Length {
          WrapSmall(ppos + 1, bytes.Length);
        }
        PutByte(i, data[i], mask);
        WrapSmall(ppos, bytes.Length);
        ConcatNext(old(Contents()), data, i);
        i := i + 1;
      }
      used := used + |data|;
    }

    /** Reads bytes one slot at a time; the caller then settles `used`. */
    method Peek(length: nat) returns (data: seq<byte>)
      requires Valid() && length <= used
      modifies this`gpos
      ensures data == old(Contents())[..length]
      ensures gpos == Wrap(old(gpos) + length, bytes.Length)
    {
      hide BitAnd, Wrap, PowerOfTwo;
      var mask := bytes.Length - 1;
      var i := 0;
      data := [];
      WrapSmall(gpos, bytes.Length);
      while i < length
        invariant i <= length && used == old(used) && ppos == old(ppos)
        invariant gpos == Wrap(old(gpos) + i, bytes.Length)
        invariant data == old(Contents())[..i]
      {
        MaskIsWrap(gpos + 1, bytes.Length);
        WrapAdd(old(gpos) + i, 1, bytes.Length);
        gpos := BitAnd(gpos + 1, mask);
        assert bytes[gpos] == old(Contents())[i];
        data := data + [bytes[gpos]];
        i := i + 1;
      }
    }

    /** The counters after `length` bytes left from the front. */
    lemma Dropped(g: nat, length: nat)
      requires PowerOfTwo(bytes.Length) && g < bytes.Length
      requires length + used <= bytes.Length
      requires gpos == Wrap(g + length, bytes.Length) && ppos <= bytes.Length
      requires Wrap(ppos, bytes.Length) == Wrap(g + (length + used), bytes.Length)
      ensures Valid()
      ensures Contents() == Queue(bytes[..], g, length + used)[length..]
    {
      WrapAdd(g + length, used, bytes.Length);
      GetDrops(bytes[..], g, length + used, length);
    }

    /** The body of `Client::Recv`. */
    method Take(length0: nat) returns (ret: seq<byte>)
      requires Valid()
      modifies this`gpos, this`used
      ensures Valid()
      ensures ret == old(Contents())[..Min(length0, old(used))]
      ensures Contents() == old(Contents())[Min(length0, old(used))..]
    {
      var length := Min(length0, used);
      ghost var g := gpos;
      ret := Peek(length);
      used := used - length;
      Dropped(g, length);
    }

    /**
     The body of `Client::DoSend`; `result` is what the system call answered. After a failure the get
     position has moved although nothing was sent.
     */
    method Offer(result: int) returns (ok: bool)
      requires Valid()
      requires result <= Min(used, CHUNK)
      modifies this`gpos, this`used
      ensures ok <==> result >= 0
      ensures ok ==> Valid() && Contents() == old(Contents())[result..]
      ensures ok ==> gpos == Wrap(old(gpos) + result, bytes.Length)
      ensures !ok ==> used == old(used) && gpos == Wrap(old(gpos) + Min(used, CHUNK), bytes.Length)
    {
      var mask := bytes.Length - 1;
      var g := gpos;
      var toSend := Min(used, CHUNK);
      var buf := Peek(toSend);
      if result < 0 {
        return false;
      }
      MaskIsWrap(g + result, bytes.Length);
      gpos := BitAnd(g + result, mask);
      used := used - result;
      Dropped(g, result);
      ok := true;
    }
  }

  /** A client's two buffers, with everything that went into and came out of each. */
  class Client {
    const recv: Buffer
    const send: Buffer
    var connected: bool

    ghost var arrived: seq<byte>    // everything the network delivered
    ghost var handled: seq<byte>    // everything Recv returned
    ghost var accepted: seq<byte>   // everything Send took
    ghost var written: seq<byte>    // everything the network took

    /** Both buffers are FIFO queues between their two ends, until a failed write. */
    ghost predicate Valid()
      reads this, recv, recv.bytes, send, send.bytes
    {
      && recv != send && recv.bytes != send.bytes
      && recv.Valid() && send.Valid()
      && arrived == handled + recv.Contents()
      && accepted == written + send.Contents()
    }

    constructor (recvSize: nat, sendSize: nat)
      requires PowerOfTwo(recvSize) && PowerOfTwo(sendSize)
      ensures Valid() && connected && fresh(recv) && fresh(send) && fresh(recv.bytes) && fresh(send.bytes)
      ensures arrived == handled == accepted == written == []
    {
      recv := new Buffer(recvSize);
      send := new Buffer(sendSize);
      connected := true;
      arrived, handled, accepted, written := [], [], [], [];
    }

    /** At most `length` bytes from the front of the receive buffer. */
    method Recv(length: nat) returns (ret: seq<byte>)
      requires Valid()
      modifies recv`gpos, recv`used, this`handled
      ensures Valid()
      ensures ret == old(recv.Contents())[..Min(length, old(recv.used))]
      ensures recv.Contents() == old(recv.Contents())[Min(length, old(recv.used))..]
      ensures handled == old(handled) + ret
    {
      MoveAcross(handled, recv.Contents(), Min(length, recv.used));
      ret := recv.Take(length);
      handled := handled + ret;
    }

    /** Takes all of the data, or closes the connection when it does not fit. */
    method Send(data: seq<byte>)
      requires Valid()
      modifies send`ppos, send`used, send.bytes, this`accepted, this`connected
      ensures Valid()
      ensures
        if |data| <= send.bytes.Length - |old(send.Contents())|
        then connected == old(connected) && accepted == old(accepted) + data
          && send.Contents() == old(send.Contents()) + data
        else !connected && accepted == old(accepted) && send.Contents() == old(send.Contents())
    {
      if |data| > send.Room() {
        connected := false;
        return;
      }
      ConcatAssociative(written, send.Contents(), data);
      send.Put(data);
      accepted := accepted + data;
    }

    /** `incoming` is what the system call delivered: at most the room it was offered, empty on failure. */
    method DoRecv(incoming: seq<byte>) returns (ok: bool)
      requires Valid()
      requires |incoming| <= Min(recv.Room(), CHUNK)
      modifies recv`ppos, recv`used, recv.bytes, this`arrived
      ensures Valid()
      ensures ok <==> incoming != []
      ensures arrived == old(arrived) + incoming
      ensures recv.Contents() == old(recv.Contents()) + incoming
    {
      var toRecv := Min(recv.Room(), CHUNK);
      ConcatEmpty(arrived);
      ConcatEmpty(recv.Contents());
      if toRecv == 0 {
        return false;
      }
      if |incoming| > 0 {
        ConcatAssociative(handled, recv.Contents(), incoming);
        recv.Put(incoming);
        arrived := arrived + incoming;
      } else {
        return false;
      }
      ok := true;
    }

    /**
     `result` is what the system call answered: how many of the offered bytes it took, or a negative number.
     A failure ends the promise: the caller closes the connection.
     */
    method DoSend(result: int) returns (ok: bool)
      requires Valid()
      requires result <= Min(send.used, CHUNK)
      modifies send`gpos, send`used, this`written
      ensures ok <==> result >= 0
      ensures ok ==> Valid() && send.Contents() == old(send.Contents())[result..]
      ensures ok ==> written == old(written) + old(send.Contents())[..result]
      ensures !ok ==> written == old(written) && send.used == old(send.used)
    {
      ghost var before := send.Contents();
      ok := send.Offer(result);
      if ok {
        MoveAcross(written, before, result);
        written := written + before[..result];
      }
    }
  }

  lemma MoveAcross(done: seq<byte>, queue: seq<byte>, k: nat)
    requires k <= |queue|
    ensures done + queue == (done + queue[..k]) + queue[k..]
  {
  }
}
