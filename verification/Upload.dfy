/**
 File upload as in src/eoclient.cpp: while a file is sent, a temporary buffer takes the place of the send
 buffer, and everything else that is sent waits in the real one.
 */
module Upload {
  import opened Bytes
  import opened Ring
  import opened Socket
  import Framing
  import PF = PacketFields

  datatype FileType = FileMap | FilePub

  datatype Outcome = Started | NotOpened | AlreadyUploading

  /** The upload announcement: the length header counts the file too. */
  function Header(kind: FileType, reply: byte, size: nat): (h: seq<byte>)
    ensures |h| == HeaderLength(kind)
  {
    PF.Packet(PF.INIT_ID, HeaderData(kind, reply), size)
  }

  function HeaderData(kind: FileType, reply: byte): seq<byte> {
    PF.NumberBytes(reply as int)[..1] + if kind.FileMap? then [] else PF.NumberBytes(1)[..1]
  }

  /**
   The announcement counts the file as if it were part of the packet, names the INIT packet, and carries the reply
   and, for pub files, a 1.
   */
  lemma HeaderExact(kind: FileType, reply: byte, size: nat)
    requires |Header(kind, reply, size)| - 2 + size < 0x1_0000_0000
    ensures
      var h := Header(kind, reply, size);
      && Framing.FrameLength(h[0], h[1]) == (|h| - 2 + size) % 64009
      && |h| == (if kind.FileMap? then 5 else 6) && h[2] == 255 && h[3] == 255
      && PF.Number([h[4], 254, 254, 254]) == reply as nat % 253
      && (kind.FilePub? ==> h[5] == 2 && PF.Number([h[5], 254, 254, 254]) == 1)
  {
    hide PF.NumberBytes, PF.Number;
    var h := Header(kind, reply, size);
    var data := HeaderData(kind, reply);
    PF.LengthHeader(PF.INIT_ID, data, size);
    assert PF.Padded(h[..2]) == [h[0], h[1], 254, 254];
    OneByteNumber(reply as nat);
    OneByteNumber(1);
  }

  lemma OneByteNumber(n: nat)
    requires n < 256
    ensures |PF.NumberBytes(n)| == 4 && PF.Number([PF.NumberBytes(n)[0], 254, 254, 254]) == n % 253
    ensures n < 253 ==> PF.NumberBytes(n)[0] as nat == n + 1
  {
    PF.NumberRoundTrip(n, 1);
    assert PF.Padded(PF.NumberBytes(n)[..1]) == [PF.NumberBytes(n)[0], 254, 254, 254];
  }

  function HeaderLength(kind: FileType): nat {
    if kind.FileMap? then 5 else 6
  }

  /** The first doubling of the send buffer's size that holds the file and six more bytes. */
  function TempSize(size: nat, need: nat): (t: nat)
    requires size > 0
    ensures t >= size && t >= need
    decreases need - size
  {
    if size < need then TempSize(2 * size, need) else size
  }

  /** It is the first: half of it would not do, unless nothing was doubled. */
  lemma {:induction false} TempSizeLeast(size: nat, need: nat)
    requires size > 0
    ensures TempSize(size, need) == size || TempSize(size, need) / 2 < need
    decreases need - size
  {
    if size < need {
      TempSizeLeast(2 * size, need);
    }
  }

  lemma {:induction false} TempSizePower(size: nat, need: nat)
    requires PowerOfTwo(size)
    ensures PowerOfTwo(TempSize(size, need))
    decreases need - size
  {
    if size < need {
      assert PowerOfTwo(2 * size);
      TempSizePower(2 * size, need);
    }
  }

  /** The last slot a file is written to lies inside the buffer. */
  predicate Fits(kind: FileType, fileSize: nat, bufferSize: nat)
    requires bufferSize > 0
  {
    HeaderLength(kind) + fileSize < TempSize(bufferSize, fileSize + 6)
  }

  /**
   What the network gets for a file that is stored from slot `start + 1` on without wrapping around. A byte for the
   slot just behind the buffer is stored there all right, but slot 0, which holds 0, is read in its place.
   */
  function Arriving(file: seq<byte>, start: nat, length: nat): (a: seq<byte>)
    ensures |a| == |file|
  {
    if file == [] || start + |file| < length then file else file[..|file| - 1] + [0]
  }

  /** What the network gets for an uploaded file. */
  function Delivered(kind: FileType, contents: seq<byte>, bufferSize: nat): seq<byte>
    requires bufferSize > 0
  {
    Arriving(contents, HeaderLength(kind), TempSize(bufferSize, |contents| + 6))
  }

  lemma SixIsNoPower(n: nat)
    requires PowerOfTwo(n)
    ensures n != 6
  {
    assert !PowerOfTwo(3);
  }

  /**
   A file is delivered as it is if and only if it is a map, or it and six more bytes do not fill the temporary
   buffer exactly, or its last byte happens to be 0.
   */
  lemma DeliveredIff(kind: FileType, contents: seq<byte>, bufferSize: nat)
    requires PowerOfTwo(bufferSize)
    ensures Delivered(kind, contents, bufferSize) == contents <==>
      || kind.FileMap? || |contents| + 6 != TempSize(bufferSize, |contents| + 6)
      || contents == [] || contents[|contents| - 1] == 0
  {
    var t := TempSize(bufferSize, |contents| + 6);
    TempSizePower(bufferSize, |contents| + 6);
    SixIsNoPower(t);
    if contents != [] {
      var last := |contents| - 1;
      assert contents == contents[..last] + [contents[last]];
      assert (contents[..last] + [0])[last] == 0;
    }
  }

  /** All files of a size are delivered if and only if the last slot lies inside, which the sizes alone decide. */
  lemma FitsIff(kind: FileType, size: nat, bufferSize: nat)
    requires PowerOfTwo(bufferSize)
    ensures (forall contents: seq<byte> :: |contents| == size ==> Delivered(kind, contents, bufferSize) == contents)
      <==> kind.FileMap? || size + 6 != TempSize(bufferSize, size + 6)
    ensures Fits(kind, size, bufferSize) <==> kind.FileMap? || size + 6 != TempSize(bufferSize, size + 6)
  {
    hide Delivered;
    TempSizePower(bufferSize, size + 6);
    SixIsNoPower(TempSize(bufferSize, size + 6));
    var ones := seq(size, i => 1 as byte);
    DeliveredIff(kind, ones, bufferSize);
    forall contents: seq<byte> | |contents| == size && (kind.FileMap? || size + 6 != TempSize(bufferSize, size + 6))
      ensures Delivered(kind, contents, bufferSize) == contents
    {
      DeliveredIff(kind, contents, bufferSize);
    }
  }

  /** For example, a file of 8186 bytes sent to a client with a buffer of 8192 bytes. */
  lemma LastByteLost(contents: seq<byte>)
    requires |contents| == 8186 && contents[8185] != 0
    ensures Delivered(FilePub, contents, 8192) == contents[..8185] + [0] != contents
  {
    assert (contents[..8185] + [0])[8185] == 0;
  }

  class UploadClient {
    var active: Buffer      // the buffer the socket is fed from
    var other: Buffer?      // during an upload: the real send buffer
    var file: seq<byte>     // the open file
    var uploading: bool
    var pos: nat
    var connected: bool
    var behind: byte        // the slot just behind the active buffer, which no position ever leads to

    ghost var written: seq<byte>   // everything the network took
    ghost var promised: seq<byte>  // everything it must get, in order
    ghost var headerSize: nat

    ghost predicate Separate()
      reads this, active, other
    {
      other != null ==> active != other && active.bytes != other.bytes
    }

    ghost function Waiting(): seq<byte>
      requires uploading ==> other != null && other.Valid() && pos <= |file|
      reads this, active, other, if other != null then {other.bytes} else {}
    {
      if uploading then Coming()[pos..] + other.Contents() else []
    }

    /** The open file, as far as the network is concerned. */
    ghost function Coming(): (f: seq<byte>)
      reads this, active
      ensures |f| == |file|
    {
      Arriving(file, headerSize, active.bytes.Length)
    }

    /**
     What the network took, what the active buffer holds, the rest of the file, and what waits in the real
     buffer are together exactly what was promised.
     */
    ghost predicate Valid()
      reads this, active, active.bytes, other, if other != null then {other.bytes} else {}
    {
      && Separate()
      && active.Valid()
      && (uploading ==>
        && other != null && other.Valid()
        && pos <= |file|
        && active.ppos == headerSize + pos && headerSize + |file| <= active.bytes.Length
        && active.bytes[0] == 0)
      && promised == written + active.Contents() + Waiting()
    }

    constructor (size: nat)
      requires PowerOfTwo(size)
      ensures Valid() && connected && !uploading && promised == [] && fresh(active) && fresh(active.bytes)
    {
      active := new Buffer(size);
      other, file, uploading, pos, connected, behind := null, [], false, 0, true, 0;
      written, promised, headerSize := [], [], 0;
    }

    /** `found` is false when the file cannot be found. */
    method Upload(kind: FileType, reply: byte, contents: seq<byte>, found: bool) returns (r: Outcome)
      requires Valid()
      modifies this
      ensures Valid()
      ensures r == if old(uploading) then AlreadyUploading else if found then Started else NotOpened
      ensures r.Started? ==>
        && uploading
        && promised == old(written) + Header(kind, reply, |contents|)
            + Delivered(kind, contents, old(active.bytes.Length)) + old(active.Contents())
        && written == old(written)
        && fresh(active) && fresh(active.bytes) && other == old(active)
      ensures !r.Started? ==>
        && uploading == old(uploading) && promised == old(promised) && written == old(written)
        && active == old(active) && other == old(other)
    {
      if uploading {
        return AlreadyUploading;
      }
      if !found {
        return NotOpened;
      }
      hide Header, Arriving;
      var size := active.bytes.Length;
      while size < |contents| + 6
        invariant size > 0 && TempSize(size, |contents| + 6) == TempSize(active.bytes.Length, |contents| + 6)
        decreases |contents| + 6 - size
      {
        size := size * 2;
      }
      TempSizePower(active.bytes.Length, |contents| + 6);
      var temp := new Buffer(size);
      var header := Header(kind, reply, |contents|);
      temp.Put(header);
      ConcatEmpty(header);
      Begin(temp, header, contents);
      r := Started;
    }

    /** The temporary buffer, already holding the header, takes the real one's place. */
    method Begin(temp: Buffer, ghost header: seq<byte>, contents: seq<byte>)
      requires Valid() && !uploading
      requires temp.Valid() && temp != active && temp.bytes != active.bytes
      requires temp.Contents() == header && temp.ppos == |header| && temp.bytes[0] == 0
      requires |header| + |contents| <= temp.bytes.Length
      modifies this
      ensures Valid() && uploading && written == old(written)
      ensures promised
        == old(written) + header + Arriving(contents, |header|, temp.bytes.Length) + old(active.Contents())
      ensures active == temp && other == old(active)
    {
      ghost var pending := active.Contents();
      active, other := temp, active;
      file, pos, uploading := contents, 0, true;
      headerSize := |header|;
      ghost var coming := Arriving(contents, |header|, temp.bytes.Length);
      promised := written + header + coming + pending;
      ConcatAssociative(written + header, coming, pending);
      assert coming[0..] == coming;
    }

    /** Sending: during an upload the data waits in the real buffer; data that does not fit closes the client. */
    method Send(data: seq<byte>)
      requires Valid()
      modifies this`connected, this`promised
      modifies if uploading then {other, other.bytes} else {active, active.bytes}
      ensures Valid()
      ensures uploading == old(uploading) && active == old(active) && other == old(other)
      ensures
        if |data| <= old((if uploading then other else active).Room())
        then connected == old(connected) && promised == old(promised) + data
        else !connected && promised == old(promised)
    {
      if uploading {
        SendWaiting(data);
      } else {
        SendNow(data);
      }
    }

    /** The upload branch of `EOClient::Send`. */
    method SendWaiting(data: seq<byte>)
      requires Valid() && uploading
      modifies this`connected, this`promised, other, other.bytes
      ensures Valid()
      ensures
        if |data| <= old(other.Room()) then connected == old(connected) && promised == old(promised) + data
        else !connected && promised == old(promised)
    {
      hide Queue;
      if |data| > other.Room() {
        connected := false;
        return;
      }
      PushWaiting(written + active.Contents(), Coming()[pos..], other.Contents(), data);
      other.Put(data);
      promised := promised + data;
    }

    /** `Client::Send` */
    method SendNow(data: seq<byte>)
      requires Valid() && !uploading
      modifies this`connected, this`promised, active, active.bytes
      ensures Valid()
      ensures
        if |data| <= old(active.Room()) then connected == old(connected) && promised == old(promised) + data
        else !connected && promised == old(promised)
    {
      hide Queue;
      if |data| > active.Room() {
        connected := false;
        return;
      }
      PushActive(written, active.Contents(), data);
      active.Put(data);
      promised := promised + data;
    }

    /** The network takes some bytes from the active buffer, in order. */
    method DoSend(result: int) returns (ok: bool)
      requires Valid() && result <= Min(active.used, CHUNK)
      modifies active`gpos, active`used, this`written
      ensures ok <==> result >= 0
      ensures ok ==> Valid() && |written| == |old(written)| + result && old(written) <= written <= promised
    {
      ghost var before := active.Contents();
      ok := active.Offer(result);
      if ok {
        MoveAcross(written, before, result);
        written := written + before[..result];
        ConcatAssociative(written, active.Contents(), Waiting());
      }
    }

    /** Reads up to `got` more bytes of the file straight into the buffer behind the put position. */
    method ReadFile(got: nat)
      requires Valid() && uploading && got <= |file| - pos && got <= active.Room()
      modifies this`pos, this`behind, active`ppos, active`used, active.bytes
      ensures Valid() && pos == old(pos) + got
      ensures active.ppos == old(active.ppos) + got
    {
      hide Queue, Arriving, Wrap, PowerOfTwo;
      ghost var b, f, e := active.Contents(), Coming(), other.Contents();
      ReadMoves(written, b, f, pos, got, e);
      Load(got);
      assert Coming() == f && other.Valid() && other.Contents() == e;
      pos := pos + got;
      assert Waiting() == f[pos..] + e;
    }

    /** Bytes and counters of the buffer. */
    method Load(got: nat)
      requires Separate() && active.Valid() && got <= |file| - pos && pos <= |file| && got <= active.Room()
      requires active.ppos == headerSize + pos && headerSize + |file| <= active.bytes.Length && active.bytes[0] == 0
      modifies this`behind, active`ppos, active`used, active.bytes
      ensures active.Valid() && active.ppos == old(active.ppos) + got && active.bytes[0] == 0
      ensures active.Contents() == old(active.Contents()) + Coming()[pos..][..got]
    {
      hide Queue, Arriving, Wrap, PowerOfTwo;
      CopyFile(got);
      Settle(got);
    }

    /** The counters after `got` more bytes. */
    method Settle(got: nat)
      requires active.Valid() && got <= active.Room() && active.ppos + got <= active.bytes.Length
      modifies active`ppos, active`used
      ensures active.Valid() && active.ppos == old(active.ppos) + got
      ensures active.Contents() == old(Queue(active.bytes[..], active.gpos, active.used + got))
    {
      hide Queue;
      WrapTogether(active.ppos, active.gpos + active.used, got, active.bytes.Length);
      active.ppos := active.ppos + got;
      active.used := active.used + got;
    }

    /** `fread` into the slots behind the put position, which do not wrap around. */
    method CopyFile(got: nat)
      requires Separate() && active.Valid() && got <= |file| - pos && pos <= |file| && got <= active.Room()
      requires active.ppos == headerSize + pos && headerSize + |file| <= active.bytes.Length && active.bytes[0] == 0
      modifies this`behind, active.bytes
      ensures Queue(active.bytes[..], active.gpos, active.used + got) == old(active.Contents()) + Coming()[pos..][..got]
      ensures active.bytes[0] == 0
    {
      hide Queue, Arriving;
      ghost var before := active.Contents();
      ConcatAll(before, Coming()[pos..]);
      for i := 0 to got
        invariant active.bytes[0] == 0
        invariant Queue(active.bytes[..], active.gpos, active.used + i) == before + Coming()[pos..][..i]
      {
        CopyByte(i);
        ConcatNext(before, Coming()[pos..], i);
      }
    }

    /** One byte of the file, `i` bytes behind the put position. */
    method CopyByte(i: nat)
      requires Separate() && active.Valid() && pos + i < |file| && i < active.Room() && active.bytes[0] == 0
      requires active.ppos == headerSize + pos && headerSize + |file| <= active.bytes.Length
      modifies this`behind, active.bytes
      ensures Queue(active.bytes[..], active.gpos, active.used + (i + 1))
        == old(Queue(active.bytes[..], active.gpos, active.used + i)) + [Coming()[pos..][i]]
      ensures active.bytes[0] == 0
    {
      hide Queue, PowerOfTwo, Wrap;
      ghost var bytes, n, u := active.bytes[..], active.bytes.Length, active.used + i;
      WrapTogether(active.ppos, active.gpos + active.used, i + 1, n);
      var slot := active.ppos + 1 + i;
      assert Slot(n, active.gpos, u) == Wrap(slot, n);
      SlotOrZero(slot, n);
      if slot < active.bytes.Length {
        active.bytes[slot] := file[pos + i];
        assert active.bytes[..] == bytes[Slot(n, active.gpos, u) := file[pos + i]];
        PutAppends(bytes, active.gpos, u, file[pos + i]);
      } else {
        behind := file[pos + i];
        QueueMore(bytes, active.gpos, u);
      }
    }

    /** `Tick` during an upload; `got` is how many bytes the file read returned. */
    method Tick(got: nat)
      requires Valid() && uploading
      requires got <= Min(|file| - pos, active.Room())
      modifies this`pos, this`file, this`uploading, this`active, this`other, this`behind
      modifies active`ppos, active`used, active.bytes
      ensures Valid() && promised == old(promised) && written == old(written)
      ensures uploading <==> !(old(pos) == |old(file)| && old(active.used) == 0)
      ensures !uploading ==> active == old(other) && promised == written + active.Contents()
      ensures uploading ==> active == old(active) && other == old(other) && file == old(file)
      ensures uploading ==> pos == old(pos) + got
    {
      var available := Min(|file| - pos, active.Room());
      if available != 0 {
        ReadFile(got);
      } else if pos == |file| && active.Room() == active.bytes.Length {
        ConcatEmpty(other.Contents());
        ConcatEmpty(written);
        ConcatEmpty(written + other.Contents());
        uploading, pos, file := false, 0, [];
        active, other := other, null;
      }
    }
  }

  lemma SlotOrZero(slot: nat, n: nat)
    requires 0 < n && slot <= n
    ensures Wrap(slot, n) == if slot < n then slot else 0
  {
  }

  lemma ReadMoves(w: seq<byte>, b: seq<byte>, f: seq<byte>, pos: nat, got: nat, e: seq<byte>)
    requires pos + got <= |f|
    ensures w + b + (f[pos..] + e) == w + (b + f[pos..][..got]) + (f[pos + got..] + e)
  {
    assert f[pos..] == f[pos..][..got] + f[pos + got..];
  }

  lemma PushWaiting(a: seq<byte>, b: seq<byte>, c: seq<byte>, d: seq<byte>)
    ensures a + (b + (c + d)) == a + (b + c) + d
  {
  }

  lemma PushActive(a: seq<byte>, b: seq<byte>, d: seq<byte>)
    ensures a + (b + d) + [] == a + b + [] + d
  {
  }
}
