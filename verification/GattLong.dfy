/** Reading and writing characteristic values that are longer than one PDU. */
module GattLong {
  import opened Bytes
  import opened AttCodec

  const ATT_OP_READ_BLOB_RESP: uint8 := 0x0D

  /** What a server sends: a PDU, or an Error Response with its code. */
  datatype Reply = Pdu(pdu: octets) | Error(code: uint8)
  {
    predicate Valid() { if Pdu? then pdu != [] else code != 0 }
  }

  /** What a request's callback is given: a status, and the PDU, which is an Error Response if it is not 0. */
  datatype Response = Response(status: uint8, pdu: octets)
  {
    predicate Valid() { pdu != [] }
  }

  const ATT_OP_ERROR: uint8 := 0x01
  const ATT_OP_READ_BLOB_REQ: uint8 := 0x0C

  /** The Error Response to a request for one handle. */
  function ErrorTo(request: uint8, handle: uint16, code: uint8): Response
  {
    Response(code, [ATT_OP_ERROR, request] + PutLe16(handle) + [code])
  }

  // ---------------------------------------------------------------- long read: the client

  /** Waiting for the Read Response, waiting for a Read Blob Response, or done with the user's callback. */
  datatype Reading =
    | First
    | Blob(buffer: octets, size: uint16)
    | Reported(status: uint8, value: octets)
  {
    predicate Valid() { Blob? ==> size <= |buffer| }

    /** The offset of the Read Blob Request that is outstanding. */
    function Offset(): uint16 requires Blob? { Wrap16(size - 1) }
  }

  /**
   * `read_char_helper`, then `read_blob_helper`, for a PDU buffer of `mtu` octets. A failure of the first
   * request is reported as it is, and one of a later request is no failure.
   */
  function OnRead(mtu: nat, r: Reading, reply: Response): Reading
    requires r.Valid() && !r.Reported? && reply.Valid() && mtu <= 0xffff
  {
    match r
    case First =>
      if reply.status != 0 || |reply.pdu| < mtu then Reported(reply.status, reply.pdu)
      else Blob(reply.pdu, Wrap16(|reply.pdu|))
    case Blob(buffer, size) =>
      if reply.status != 0 || |reply.pdu| == 1 then Reported(0, buffer[..size])
      else
        var buffer', size' := buffer[..size] + reply.pdu[1..], Wrap16(size + |reply.pdu| - 1);
        if |reply.pdu| < mtu then Reported(0, buffer'[..size']) else Blob(buffer', size')
  }

  // ---------------------------------------------------------------- long read: the server

  /** The part of a value that fits a response. */
  function Piece(mtu: nat, v: octets, offset: nat): octets
    requires 1 <= mtu && offset <= |v|
  {
    if |v| - offset > mtu - 1 then v[offset..offset + mtu - 1] else v[offset..]
  }

  /**
   * The responses of a server that holds `v`: `enc_read_resp`, `enc_read_blob_resp`, and an error for
   * an offset past the end. At the very end some servers send an empty blob, others the error `atEnd`.
   */
  function Serve(mtu: nat, handle: uint16, v: octets, atEnd: uint8, r: Reading): (reply: Response)
    requires 1 <= mtu && r.Valid() && !r.Reported?
    ensures reply.Valid() && (reply.status == 0 ==> |reply.pdu| <= mtu)
  {
    if r.First? then Response(0, [ATT_OP_READ_RESP] + Piece(mtu, v, 0))
    else if r.Offset() > |v| then ErrorTo(ATT_OP_READ_BLOB_REQ, handle, 0x07)
    else if r.Offset() == |v| && atEnd != 0 then ErrorTo(ATT_OP_READ_BLOB_REQ, handle, atEnd)
    else Response(0, [ATT_OP_READ_BLOB_RESP] + Piece(mtu, v, r.Offset()))
  }

  /** The client after at most `n` responses. */
  function ReadRun(mtu: nat, handle: uint16, v: octets, atEnd: uint8, r: Reading, n: nat): Reading
    requires 1 <= mtu <= 0xffff && r.Valid()
    decreases n
  {
    if n == 0 || r.Reported? then r
    else
      var next := OnRead(mtu, r, Serve(mtu, handle, v, atEnd, r));
      ReadRun(mtu, handle, v, atEnd, next, n - 1)
  }

  /** One more blob: the buffer holds the opcode and a prefix of the value, and the prefix has grown. */
  lemma BlobStep(mtu: nat, handle: uint16, v: octets, atEnd: uint8, r: Reading)
    requires 2 <= mtu <= 0xffff && |v| <= 0xffff
    requires r.Blob? && 1 <= r.size <= |v| + 1 && r.size <= |r.buffer|
    requires r.buffer[..r.size] == [ATT_OP_READ_RESP] + v[..r.size - 1]
    ensures var next := OnRead(mtu, r, Serve(mtu, handle, v, atEnd, r));
            if |v| <= 0xfffe then
              || next == Reported(0, [ATT_OP_READ_RESP] + v)
              || (&& next.Blob? && r.size < next.size <= |v| + 1 && next.size <= |next.buffer|
                  && next.buffer[..next.size] == [ATT_OP_READ_RESP] + v[..next.size - 1])
            else
              || next == Reported(0, [])
              || (next.Blob? && next.size == 0 && r.size - 1 + (mtu - 1) == |v|)
              || (&& next.Blob? && r.size < next.size <= |v| && next.size <= |next.buffer|
                  && next.buffer[..next.size] == [ATT_OP_READ_RESP] + v[..next.size - 1])
  {
    var offset: int := r.size - 1;
    if offset < |v| {
      var piece := Piece(mtu, v, offset);
      var buffer := r.buffer[..r.size] + ([ATT_OP_READ_BLOB_RESP] + piece)[1..];
      assert piece == v[offset..offset + |piece|];
      assert buffer == [ATT_OP_READ_RESP] + v[..offset + |piece|];
      assert buffer[..|buffer|] == buffer;
      assert offset + |piece| == |v| ==> v[..|v|] == v;
    } else {
      assert v[..offset] == v;
    }
  }

  lemma {:induction false} BlobsRead(mtu: nat, handle: uint16, v: octets, atEnd: uint8, r: Reading, n: nat)
    requires 2 <= mtu <= 0xffff && |v| <= 0xfffe && r.Blob? && 1 <= r.size <= |v| + 1 && r.size <= |r.buffer|
    requires r.buffer[..r.size] == [ATT_OP_READ_RESP] + v[..r.size - 1]
    requires n >= |v| + 2 - r.size
    ensures ReadRun(mtu, handle, v, atEnd, r, n) == Reported(0, [ATT_OP_READ_RESP] + v)
    decreases n
  {
    BlobStep(mtu, handle, v, atEnd, r);
    var next := OnRead(mtu, r, Serve(mtu, handle, v, atEnd, r));
    if next.Blob? {
      BlobsRead(mtu, handle, v, atEnd, next, n - 1);
    }
  }

  /**
   * Whatever the MTU, and however the server answers a request at the very end, the callback gets the
   * whole value behind the opcode of the Read Response.
   */
  lemma ReadLong(mtu: nat, handle: uint16, v: octets, atEnd: uint8, n: nat)
    requires 2 <= mtu <= 0xffff && |v| <= 0xfffe && n >= |v| + 2
    ensures ReadRun(mtu, handle, v, atEnd, First, n) == Reported(0, [ATT_OP_READ_RESP] + v)
  {
    var pdu := [ATT_OP_READ_RESP] + Piece(mtu, v, 0);
    var next := OnRead(mtu, First, Response(0, pdu));
    assert v[0..] == v;
    if |pdu| == mtu {
      assert pdu == [ATT_OP_READ_RESP] + v[..mtu - 1] && pdu[..|pdu|] == pdu;
      BlobsRead(mtu, handle, v, atEnd, next, n - 1);
    }
  }

  /** The one longer value that the offsets can reach: its length wraps the 16-bit size to zero. */
  lemma {:induction false} BlobsLost(mtu: nat, handle: uint16, v: octets, atEnd: uint8, r: Reading, n: nat)
    requires 2 <= mtu <= 0xffff && |v| == 0xffff && r.Blob? && 1 <= r.size && r.size <= |r.buffer|
    requires r.buffer[..r.size] == [ATT_OP_READ_RESP] + v[..r.size - 1]
    requires n >= |v| + 3 - r.size
    ensures ReadRun(mtu, handle, v, atEnd, r, n) == Reported(0, [])
    decreases n
  {
    BlobStep(mtu, handle, v, atEnd, r);
    var next := OnRead(mtu, r, Serve(mtu, handle, v, atEnd, r));
    if next.Blob? && next.size > 0 {
      BlobsLost(mtu, handle, v, atEnd, next, n - 1);
    } else if next.Blob? {
      assert next.Offset() == |v| && next.buffer[..0] == [];
      var last := OnRead(mtu, next, Serve(mtu, handle, v, atEnd, next));
      assert last == Reported(0, []) && ReadRun(mtu, handle, v, atEnd, last, n - 2) == last;
    }
  }

  /** Among the values that 16-bit offsets can address, only those of the greatest length are lost. */
  lemma ReadLongExactly(mtu: nat, handle: uint16, v: octets, atEnd: uint8, n: nat)
    requires 2 <= mtu <= 0xffff && |v| <= 0xffff && n >= |v| + 3
    ensures ReadRun(mtu, handle, v, atEnd, First, n) == Reported(0, [ATT_OP_READ_RESP] + v) <==> |v| != 0xffff
  {
    if |v| != 0xffff {
      ReadLong(mtu, handle, v, atEnd, n);
    } else {
      var pdu := [ATT_OP_READ_RESP] + Piece(mtu, v, 0);
      assert pdu == [ATT_OP_READ_RESP] + v[..mtu - 1] && pdu[..|pdu|] == pdu;
      BlobsLost(mtu, handle, v, atEnd, OnRead(mtu, First, Response(0, pdu)), n - 1);
    }
  }

  // ---------------------------------------------------------------- long write

  /**
   * `offset` is how far the server has confirmed; done when Execute Write has been sent, or failed with
   * what the user was told.
   */
  datatype Writing = Writing(handle: uint16, value: octets, offset: uint16, done: bool, failed: Option<Response>)

  /** What there is to send from the offset on: past the value's end it is whatever memory holds there. */
  function Remaining(w: Writing, beyond: octets): octets
  {
    if w.offset <= |w.value| then w.value[w.offset..] else beyond
  }

  /** The Prepare Write Request that is outstanding: `prepare_write`. */
  function PreparePdu(mtu: nat, w: Writing, beyond: octets): octets
    requires 5 <= mtu
  {
    EncPrepWrite(ATT_OP_PREP_WRITE_REQ, Part(w.handle, w.offset, Remaining(w, beyond)), mtu)
  }

  /** `prepare_write_cb`, which trusts the length of the response. */
  function OnPrepared(w: Writing, reply: Response): Writing
  {
    if reply.status != 0 then w.(failed := Some(reply))
    else
      var offset := Wrap16(w.offset + |reply.pdu| - 5);
      w.(offset := offset, done := offset == |w.value|)
  }

  /** A write in progress, and the server's queue. */
  datatype Session = Session(client: Writing, queue: seq<Part>)

  /** The server queues the part that it decodes, and echoes it: the response is as long as the request. */
  function Prepare(mtu: nat, s: Session): Session
    requires 5 <= mtu && s.client.offset <= |s.client.value|
  {
    var pdu := PreparePdu(mtu, s.client, []);
    PrepWriteRoundTrip(ATT_OP_PREP_WRITE_REQ,
                       Part(s.client.handle, s.client.offset, s.client.value[s.client.offset..]), mtu);
    Session(OnPrepared(s.client, Response(0, pdu)), s.queue + [DecPrepWrite(pdu).value])
  }

  /** Up to `n` prepared parts; nothing happens any more once the writes are executed. */
  function WriteRun(mtu: nat, s: Session, n: nat): Session
    requires 5 <= mtu && s.client.offset <= |s.client.value|
    decreases n
  {
    if n == 0 || s.client.done then s
    else
      OffsetInside(mtu, s);
      WriteRun(mtu, Prepare(mtu, s), n - 1)
  }

  /** How much of the value the next part carries. */
  function PartLength(mtu: nat, w: Writing): nat
    requires 5 <= mtu && w.offset <= |w.value|
  {
    if |w.value| - w.offset > mtu - 5 then mtu - 5 else |w.value| - w.offset
  }

  /** The offset never passes the end of the value. */
  lemma OffsetInside(mtu: nat, s: Session)
    requires 5 <= mtu && s.client.offset <= |s.client.value|
    ensures var w, next := s.client, Prepare(mtu, s);
            && next.client == w.(offset := Wrap16(w.offset + PartLength(mtu, w)),
                                 done := Wrap16(w.offset + PartLength(mtu, w)) == |w.value|)
            && next.client.offset <= |next.client.value|
            && next.queue == s.queue + [Part(w.handle, w.offset, w.value[w.offset..][..PartLength(mtu, w)])]
  {
    var w := s.client;
    PrepWriteRoundTrip(ATT_OP_PREP_WRITE_REQ, Part(w.handle, w.offset, w.value[w.offset..]), mtu);
  }

  /** Executing a queued part: the value is cut at its offset and goes on with the part. */
  function Execute(before: octets, queue: seq<Part>): octets
  {
    if queue == [] then before
    else
      var last := queue[|queue| - 1];
      var v := Execute(before, queue[..|queue| - 1]);
      (if last.offset <= |v| then v[..last.offset] else v) + last.value
  }

  /** The parts follow each other without a gap and make up the value as far as `offset`. */
  predicate Contiguous(queue: seq<Part>, handle: uint16, value: octets, offset: nat)
    requires offset <= |value|
  {
    if queue == [] then offset == 0
    else
      var last := queue[|queue| - 1];
      && last.handle == handle && last.offset <= offset
      && last.value == value[last.offset..offset]
      && Contiguous(queue[..|queue| - 1], handle, value, last.offset)
  }

  lemma {:induction false} ContiguousExecutes(before: octets, queue: seq<Part>, handle: uint16, value: octets,
                                              offset: nat)
    requires offset <= |value| && Contiguous(queue, handle, value, offset) && queue != []
    ensures Execute(before, queue) == value[..offset]
  {
    var init, last := queue[..|queue| - 1], queue[|queue| - 1];
    if init != [] {
      ContiguousExecutes(before, init, handle, value, last.offset);
    }
    var v := Execute(before, init);
    assert v[..last.offset] == value[..last.offset];
    assert value[..last.offset] + value[last.offset..offset] == value[..offset];
  }

  lemma {:induction false} WriteProgress(mtu: nat, s: Session, n: nat)
    requires 6 <= mtu && 0 < |s.client.value| <= 0xffff && !s.client.done && s.client.offset < |s.client.value|
    requires Contiguous(s.queue, s.client.handle, s.client.value, s.client.offset)
    requires n >= |s.client.value| - s.client.offset
    ensures var end := WriteRun(mtu, s, n);
            && end.client == s.client.(offset := |s.client.value|, done := true)
            && end.queue != []
            && Contiguous(end.queue, s.client.handle, s.client.value, |s.client.value|)
    decreases n
  {
    hide Prepare;
    var w, next := s.client, Prepare(mtu, s);
    OffsetInside(mtu, s);
    var k := PartLength(mtu, w);
    assert w.value[w.offset..][..k] == w.value[w.offset..w.offset + k];
    assert next.queue[..|next.queue| - 1] == s.queue;
    if !next.client.done {
      WriteProgress(mtu, next, n - 1);
    }
  }

  function StartWrite(handle: uint16, value: octets): Session { Session(Writing(handle, value, 0, false, None), []) }

  /**
   * A long write, which `gatt_write_char` starts for a value that no Write Request has room for, ends,
   * and leaves the server with exactly the value that was written.
   */
  lemma WriteLong(mtu: nat, handle: uint16, value: octets, before: octets, n: nat)
    requires 6 <= mtu && |value| > mtu - 3 && |value| <= 0xffff && n >= |value|
    ensures var end := WriteRun(mtu, StartWrite(handle, value), n);
            && end.client.done
            && Contiguous(end.queue, handle, value, |value|)
            && Execute(before, end.queue) == value
  {
    WriteProgress(mtu, StartWrite(handle, value), n);
    var end := WriteRun(mtu, StartWrite(handle, value), n);
    ContiguousExecutes(before, end.queue, handle, value, |value|);
    assert value[..|value|] == value;
  }

  /** With no room for a value in a part, or more octets than 16-bit offsets reach, it never ends. */
  lemma {:induction false} WriteEndless(mtu: nat, s: Session, n: nat)
    requires 5 <= mtu && s.client.offset <= |s.client.value| && !s.client.done
    requires |s.client.value| > 0xffff || (mtu == 5 && s.client.offset < |s.client.value|)
    ensures !WriteRun(mtu, s, n).client.done
    decreases n
  {
    if n > 0 {
      OffsetInside(mtu, s);
      WriteEndless(mtu, Prepare(mtu, s), n - 1);
    }
  }

  /** When a long write ends at all. */
  lemma WriteLongExactly(mtu: nat, handle: uint16, value: octets, n: nat)
    requires 5 <= mtu && |value| > mtu - 3 && n >= |value|
    ensures WriteRun(mtu, StartWrite(handle, value), n).client.done <==> mtu >= 6 && |value| <= 0xffff
  {
    if mtu >= 6 && |value| <= 0xffff {
      WriteProgress(mtu, StartWrite(handle, value), n);
    } else {
      WriteEndless(mtu, StartWrite(handle, value), n);
    }
  }

  // ---------------------------------------------------------------- the callbacks, in place

  class LongReader {
    const mtu: nat
    var buffer: octets
    var size: uint16
    var started: bool
    /** The arguments of the user's callback, once it has been called. */
    var result: Option<Response>

    predicate Valid() reads this { mtu <= 0xffff && size <= |buffer| }

    function Value(): Reading
      reads this
    {
      if result.Some? then Reported(result.value.status, result.value.pdu)
      else if started then Blob(buffer, size)
      else First
    }

    constructor (mtu: nat)
      requires mtu <= 0xffff
      ensures Valid() && Value() == First && this.mtu == mtu
    {
      this.mtu := mtu;
      buffer, size, started, result := [], 0, false, None;
    }

    method ReadCharHelper(reply: Response)
      requires Valid() && Value().First? && reply.Valid()
      modifies this
      ensures Valid() && Value() == OnRead(mtu, old(Value()), reply)
    {
      if reply.status != 0 || |reply.pdu| < mtu {
        result := Some(reply);
        return;
      }
      buffer := reply.pdu;
      size := Wrap16(|reply.pdu|);
      started := true;
    }

    method ReadBlobHelper(reply: Response)
      requires Valid() && Value().Blob? && reply.Valid()
      modifies this
      ensures Valid() && Value() == OnRead(mtu, old(Value()), reply)
    {
      if reply.status != 0 || |reply.pdu| == 1 {
        result := Some(Response(0, buffer[..size]));
        return;
      }
      buffer := buffer[..size] + reply.pdu[1..];
      size := Wrap16(size + |reply.pdu| - 1);
      if |reply.pdu| < mtu {
        result := Some(Response(0, buffer[..size]));
      }
    }
  }

  class LongWriter {
    const mtu: nat
    const handle: uint16
    const value: octets
    var offset: uint16
    var executed: bool
    var failed: Option<Response>
    /** Every Prepare Write Request sent. */
    var requests: seq<octets>

    function Value(): Writing
      reads this
    {
      Writing(handle, value, offset, executed, failed)
    }

    constructor (mtu: nat, handle: uint16, value: octets)
      requires 5 <= mtu
      ensures Value() == Writing(handle, value, 0, false, None)
      ensures this.mtu == mtu && requests == [PreparePdu(mtu, Value(), [])]
    {
      this.mtu, this.handle, this.value := mtu, handle, value;
      offset, executed, failed := 0, false, None;
      requests := [EncPrepWrite(ATT_OP_PREP_WRITE_REQ, Part(handle, 0, value), mtu)];
      new;
      assert value[0..] == value;
    }

    /**
     * The answer to the request that is outstanding; `beyond` is what memory holds from the offset on, past
     * the value.
     */
    method PrepareWriteCb(reply: Response, beyond: octets)
      requires 5 <= mtu && !executed && failed.None? && |beyond| == mtu - 5
      modifies this
      ensures Value() == OnPrepared(old(Value()), reply)
      ensures requests == old(requests) + if executed || failed.Some? then [] else [PreparePdu(mtu, Value(), beyond)]
    {
      if reply.status != 0 {
        failed := Some(reply);
        return;
      }
      offset := Wrap16(offset + |reply.pdu| - 5);
      if offset == |value| {
        executed := true;
        return;
      }
      var rest := if offset <= |value| then value[offset..] else beyond;
      requests := requests + [EncPrepWrite(ATT_OP_PREP_WRITE_REQ, Part(handle, offset, rest), mtu)];
    }
  }
}
