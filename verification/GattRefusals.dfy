/** Long reads and long writes with a server that may refuse any request, or answer as it likes. */
module GattRefusals {
  import opened Bytes
  import opened AttCodec
  import opened GattLong

  // ---------------------------------------------------------------- long read, any server

  predicate AllValid(replies: seq<Response>) { forall k :: 0 <= k < |replies| ==> replies[k].Valid() }

  /** The client after these responses; those that come after the report are not looked at. */
  function ReadWith(mtu: nat, replies: seq<Response>): (r: Reading)
    requires mtu <= 0xffff && AllValid(replies)
    ensures r.Valid()
  {
    if replies == [] then First
    else
      var before := ReadWith(mtu, replies[..|replies| - 1]);
      if before.Reported? then before else OnRead(mtu, before, replies[|replies| - 1])
  }

  /** A 16-bit size keeps this much. */
  function Sized(s: octets): octets { s[..|s| % 0x1_0000] }

  /** The first PDU as it is, and what the later ones bring behind their opcode. */
  function Received(replies: seq<Response>): octets
    requires AllValid(replies)
  {
    if replies == [] then []
    else if |replies| == 1 then Sized(replies[0].pdu)
    else Sized(Received(replies[..|replies| - 1]) + replies[|replies| - 1].pdu[1..])
  }

  /** Response `k` is the last one: it is refused, shorter than the MTU, or an empty blob. */
  predicate Last(mtu: nat, replies: seq<Response>, k: nat)
    requires k < |replies|
  {
    replies[k].status != 0 || |replies[k].pdu| < mtu || (k > 0 && |replies[k].pdu| == 1)
  }

  predicate NoneLast(mtu: nat, replies: seq<Response>) { forall k :: 0 <= k < |replies| ==> !Last(mtu, replies, k) }

  lemma OneMoreBlob(mtu: nat, r: Reading, reply: Response)
    requires mtu <= 0xffff && r.Blob? && r.Valid() && reply.Valid()
    requires reply.status == 0 && |reply.pdu| >= mtu && |reply.pdu| != 1
    ensures var next, all := OnRead(mtu, r, reply), Sized(r.buffer[..r.size] + reply.pdu[1..]);
            next.Blob? && next.Valid() && next.size == |all| && next.buffer[..next.size] == all
  {
  }

  lemma {:induction false} StillReading(mtu: nat, replies: seq<Response>)
    requires mtu <= 0xffff && AllValid(replies) && replies != [] && NoneLast(mtu, replies)
    ensures var r := ReadWith(mtu, replies);
            r.Blob? && r.buffer[..r.size] == Received(replies) && r.size == |Received(replies)|
  {
    var n := |replies| - 1;
    var before := replies[..n];
    assert !Last(mtu, replies, n);
    if n > 0 {
      hide Sized, OnRead;
      forall k | 0 <= k < n ensures !Last(mtu, before, k) { assert !Last(mtu, replies, k); }
      StillReading(mtu, before);
      OneMoreBlob(mtu, ReadWith(mtu, before), replies[n]);
    } else {
      assert ReadWith(mtu, before) == First;
    }
  }

  /**
   * The report at response `k`: a refused first request is reported with its code and its PDU; a
   * refusal later on is no failure, and the value is what had been received by then.
   */
  lemma ReportedAt(mtu: nat, replies: seq<Response>)
    requires mtu <= 0xffff && AllValid(replies) && replies != []
    requires NoneLast(mtu, replies[..|replies| - 1]) && Last(mtu, replies, |replies| - 1)
    ensures var k := |replies| - 1;
            ReadWith(mtu, replies)
            == if k == 0 then Reported(replies[0].status, replies[0].pdu)
               else if replies[k].status != 0 then Reported(0, Received(replies[..k]))
               else Reported(0, Received(replies))
  {
    var k := |replies| - 1;
    if k > 0 {
      StillReading(mtu, replies[..k]);
      var r := ReadWith(mtu, replies[..k]);
      assert replies[k].pdu[1..] == [] ==> r.buffer[..r.size] + replies[k].pdu[1..] == r.buffer[..r.size];
    }
  }

  /** The user is called once: more responses change nothing. */
  lemma {:induction false} ReportedOnce(mtu: nat, replies: seq<Response>, more: seq<Response>)
    requires mtu <= 0xffff && AllValid(replies) && AllValid(more) && AllValid(replies + more)
    requires ReadWith(mtu, replies).Reported?
    ensures ReadWith(mtu, replies + more) == ReadWith(mtu, replies)
    decreases |more|
  {
    if more == [] {
      assert replies + more == replies;
    } else {
      var init := more[..|more| - 1];
      assert (replies + more)[..|replies + more| - 1] == replies + init;
      ReportedOnce(mtu, replies, init);
    }
  }

  /** A status other than 0 is reported exactly if the first request was refused. */
  lemma {:induction false} FailsIffFirstRefused(mtu: nat, replies: seq<Response>)
    requires mtu <= 0xffff && AllValid(replies) && replies != []
    ensures var r := ReadWith(mtu, replies);
            r.Reported? && r.status != 0 <==> replies[0].status != 0
    ensures replies[0].status != 0 ==> ReadWith(mtu, replies) == Reported(replies[0].status, replies[0].pdu)
  {
    var before := replies[..|replies| - 1];
    if before != [] {
      FailsIffFirstRefused(mtu, before);
    }
  }

  // ---------------------------------------------------------------- long read, a server that refuses

  /** The first `k` responses for the value `v`, all of them full. */
  function FullPieces(mtu: nat, v: octets, k: nat): (replies: seq<Response>)
    requires 2 <= mtu && k * (mtu - 1) <= |v|
    ensures |replies| == k
  {
    seq(k, j requires 0 <= j < k =>
      PieceBounds(mtu, |v|, k, j);
      Response(0, [if j == 0 then 0x0B else 0x0D] + v[j * (mtu - 1)..(j + 1) * (mtu - 1)]))
  }

  lemma PieceBounds(mtu: nat, length: nat, k: nat, j: nat)
    requires 2 <= mtu && k * (mtu - 1) <= length && j < k
    ensures 0 <= j * (mtu - 1) <= (j + 1) * (mtu - 1) <= length && (j + 1) * (mtu - 1) - j * (mtu - 1) == mtu - 1
  {
    assert (j + 1) * (mtu - 1) == j * (mtu - 1) + (mtu - 1);
    assert (j + 1) * (mtu - 1) <= k * (mtu - 1);
  }

  lemma PiecesFull(mtu: nat, v: octets, k: nat)
    requires 2 <= mtu && k * (mtu - 1) <= |v|
    ensures AllValid(FullPieces(mtu, v, k)) && NoneLast(mtu, FullPieces(mtu, v, k))
  {
    var replies := FullPieces(mtu, v, k);
    forall j | 0 <= j < k ensures |replies[j].pdu| == mtu && replies[j].status == 0 { PieceBounds(mtu, |v|, k, j); }
  }

  lemma Joined(first: octets, v: octets, from: nat, to: nat)
    requires from <= to <= |v|
    ensures first + v[..from] + v[from..to] == first + v[..to]
  {
    assert v[..from] + v[from..to] == v[..to];
  }

  lemma SizedShort(s: octets)
    requires |s| <= 0xffff
    ensures Sized(s) == s
  {
  }

  lemma OneMorePiece(replies: seq<Response>, v: octets, from: nat, to: nat)
    requires AllValid(replies) && |replies| >= 2 && from <= to <= |v| <= 0xfffe
    requires Received(replies[..|replies| - 1]) == [0x0B] + v[..from]
    requires replies[|replies| - 1].pdu[1..] == v[from..to]
    ensures Received(replies) == [0x0B] + v[..to]
  {
    hide Sized;
    Joined([0x0B], v, from, to);
    SizedShort([0x0B] + v[..to]);
  }

  lemma FewerPieces(mtu: nat, v: octets, k: nat)
    requires 2 <= mtu && 1 <= k && k * (mtu - 1) <= |v|
    ensures (k - 1) * (mtu - 1) + (mtu - 1) == k * (mtu - 1)
    ensures FullPieces(mtu, v, k)[..k - 1] == FullPieces(mtu, v, k - 1)
    ensures FullPieces(mtu, v, k)[k - 1].pdu
         == [if k == 1 then 0x0B else 0x0D] + v[(k - 1) * (mtu - 1)..k * (mtu - 1)]
  {
    PieceBounds(mtu, |v|, k, k - 1);
  }

  lemma {:induction false} PiecesReceived(mtu: nat, v: octets, k: nat)
    requires 2 <= mtu <= 0xffff && 1 <= k && k * (mtu - 1) <= |v| <= 0xfffe
    requires AllValid(FullPieces(mtu, v, k))
    ensures Received(FullPieces(mtu, v, k)) == [0x0B] + v[..k * (mtu - 1)]
  {
    hide FullPieces, Sized;
    FewerPieces(mtu, v, k);
    if k > 1 {
      hide Received;
      PiecesReceived(mtu, v, k - 1);
      OneMorePiece(FullPieces(mtu, v, k), v, (k - 1) * (mtu - 1), k * (mtu - 1));
    } else {
      OnePiece(mtu, v);
    }
  }

  lemma OnePiece(mtu: nat, v: octets)
    requires 2 <= mtu <= 0xffff && mtu - 1 <= |v|
    ensures AllValid(FullPieces(mtu, v, 1)) && Received(FullPieces(mtu, v, 1)) == [0x0B] + v[..mtu - 1]
  {
  }

  /**
   * A server that holds `v` refuses request `k`: the first refusal is what the user is told, any
   * later one ends the read with the part of the value that came before it.
   */
  lemma RefusedRead(mtu: nat, v: octets, k: nat, refusal: Response)
    requires 2 <= mtu <= 0xffff && k * (mtu - 1) <= |v| <= 0xfffe && refusal.status != 0 && refusal.Valid()
    ensures AllValid(FullPieces(mtu, v, k) + [refusal])
    ensures ReadWith(mtu, FullPieces(mtu, v, k) + [refusal])
         == if k == 0 then Reported(refusal.status, refusal.pdu) else Reported(0, [0x0B] + v[..k * (mtu - 1)])
  {
    var replies := FullPieces(mtu, v, k);
    PiecesFull(mtu, v, k);
    if k > 0 { PiecesReceived(mtu, v, k); }
    assert (replies + [refusal])[..k] == replies;
    ReportedAt(mtu, replies + [refusal]);
  }

  // ---------------------------------------------------------------- long write

  /** The server answers a prepared part as it should for 0, and refuses it with any other code. */
  function Answer(mtu: nat, s: Session, code: uint8): Session
    requires 5 <= mtu && s.client.offset <= |s.client.value|
  {
    if code == 0 then Prepare(mtu, s)
    else Session(OnPrepared(s.client, Refusal(s.client.handle, code)), s.queue)
  }

  /** The Error Response to a Prepare Write Request. */
  function Refusal(handle: uint16, code: uint8): Response
  {
    Response(code, [0x01, 0x16, handle % 0x100, handle / 0x100, code])
  }

  function WriteWith(mtu: nat, s: Session, codes: seq<uint8>): (end: Session)
    requires 5 <= mtu && s.client.offset <= |s.client.value|
    ensures end.client.offset <= |end.client.value| && end.client.value == s.client.value
    ensures end.client.handle == s.client.handle
  {
    if codes == [] then s
    else
      var before := WriteWith(mtu, s, codes[..|codes| - 1]);
      if before.client.done || before.client.failed.Some? then before
      else OffsetInside(mtu, before); Answer(mtu, before, codes[|codes| - 1])
  }

  /** How a write stands: the parts that were prepared follow each other, and only all of them are executed. */
  predicate Standing(s: Session, handle: uint16, value: octets)
  {
    && s.client.handle == handle && s.client.value == value && s.client.offset <= |value|
    && Contiguous(s.queue, handle, value, s.client.offset)
    && (s.client.done <==> s.client.offset == |value|)
    && (s.client.done ==> s.client.failed.None?)
  }

  lemma StandingKept(mtu: nat, s: Session, handle: uint16, value: octets, code: uint8)
    requires 6 <= mtu && 0 < |value| <= 0xffff && Standing(s, handle, value)
    requires !s.client.done && s.client.failed.None?
    ensures var next := Answer(mtu, s, code);
            && Standing(next, handle, value)
            && (code != 0 ==> next.client.failed == Some(Refusal(handle, code)) && next.queue == s.queue
                              && next.client.offset == s.client.offset && !next.client.done)
            && (code == 0 ==> next.client.failed.None? && |next.queue| == |s.queue| + 1)
  {
    hide Prepare;
    OffsetInside(mtu, s);
    if code == 0 {
      var w, next := s.client, Prepare(mtu, s);
      var n := PartLength(mtu, w);
      assert w.value[w.offset..][..n] == w.value[w.offset..w.offset + n];
      assert next.queue[..|next.queue| - 1] == s.queue;
    }
  }

  lemma {:induction false} StandsAlways(mtu: nat, handle: uint16, value: octets, codes: seq<uint8>)
    requires 6 <= mtu && 0 < |value| <= 0xffff
    ensures Standing(WriteWith(mtu, StartWrite(handle, value), codes), handle, value)
  {
    hide Prepare, Answer;
    if codes != [] {
      var n := |codes| - 1;
      StandsAlways(mtu, handle, value, codes[..n]);
      var before := WriteWith(mtu, StartWrite(handle, value), codes[..n]);
      if !before.client.done && before.client.failed.None? {
        StandingKept(mtu, before, handle, value, codes[n]);
      }
    }
  }

  predicate NoneRefused(codes: seq<uint8>) { forall j :: 0 <= j < |codes| ==> codes[j] == 0 }

  lemma {:induction false} ServedSoFar(mtu: nat, handle: uint16, value: octets, codes: seq<uint8>)
    requires 6 <= mtu && 0 < |value| <= 0xffff && NoneRefused(codes)
    ensures var s := WriteWith(mtu, StartWrite(handle, value), codes);
            s.client.failed.None? && (!s.client.done ==> |s.queue| == |codes|)
  {
    hide Prepare, Answer, Standing;
    if codes != [] {
      var n := |codes| - 1;
      ServedSoFar(mtu, handle, value, codes[..n]);
      StandsAlways(mtu, handle, value, codes[..n]);
      var before := WriteWith(mtu, StartWrite(handle, value), codes[..n]);
      if !before.client.done {
        StandingKept(mtu, before, handle, value, codes[n]);
      }
    }
  }

  lemma {:induction false} EndedForGood(mtu: nat, s: Session, codes: seq<uint8>, more: seq<uint8>)
    requires 5 <= mtu && s.client.offset <= |s.client.value|
    requires var now := WriteWith(mtu, s, codes).client; now.done || now.failed.Some?
    ensures WriteWith(mtu, s, codes + more) == WriteWith(mtu, s, codes)
    decreases |more|
  {
    hide Answer, Prepare;
    if more == [] {
      assert codes + more == codes;
    } else {
      var init := more[..|more| - 1];
      assert (codes + more)[..|codes + more| - 1] == codes + init;
      EndedForGood(mtu, s, codes, init);
    }
  }

  /**
   * A part that is refused ends the write: the user is told the code with its PDU, the parts before it
   * stay queued at the server, and nothing is executed, whatever comes afterwards.
   */
  lemma RefusedWrite(mtu: nat, handle: uint16, value: octets, served: seq<uint8>, code: uint8, more: seq<uint8>)
    requires 6 <= mtu && 0 < |value| <= 0xffff && NoneRefused(served) && code != 0
    requires !WriteWith(mtu, StartWrite(handle, value), served).client.done
    ensures var end := WriteWith(mtu, StartWrite(handle, value), served + [code] + more);
            && end.client.failed == Some(Refusal(handle, code)) && !end.client.done
            && |end.queue| == |served| && end.client.offset < |value|
            && Contiguous(end.queue, handle, value, end.client.offset)
  {
    hide Prepare, Answer, Contiguous;
    var s := StartWrite(handle, value);
    var before := WriteWith(mtu, s, served);
    ServedSoFar(mtu, handle, value, served);
    StandsAlways(mtu, handle, value, served);
    StandingKept(mtu, before, handle, value, code);
    assert (served + [code])[..|served|] == served;
    EndedForGood(mtu, s, served + [code], more);
  }

  /** The writes are executed only if no part was refused, and then the server has the whole value. */
  lemma ExecutedIfNoneRefused(mtu: nat, handle: uint16, value: octets, before: octets, codes: seq<uint8>)
    requires 6 <= mtu && 0 < |value| <= 0xffff && WriteWith(mtu, StartWrite(handle, value), codes).client.done
    ensures var end := WriteWith(mtu, StartWrite(handle, value), codes);
            end.client.failed.None? && Execute(before, end.queue) == value
  {
    hide Prepare, Answer, Execute;
    StandsAlways(mtu, handle, value, codes);
    var end := WriteWith(mtu, StartWrite(handle, value), codes);
    ContiguousExecutes(before, end.queue, handle, value, |value|);
    assert value[..|value|] == value;
  }
}
