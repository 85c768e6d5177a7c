/** The read callback itself: one static buffer, and the packet under construction. */
module H4Reader {
  import opened Bytes
  import opened H4

  class Reader {
    const framing: Framing
    const buf: array<uint8>
    var pktData: array?<uint8>
    var pktExpect: nat
    var pktLen: nat
    var pktOffset: nat

    /** Everything handed to `btdev_receive_h4` or written to the VHCI device. */
    var delivered: seq<octets>

    /** `pkt_data` is exactly as long as the packet, so that every copy below stays inside it. */
    predicate Valid()
      reads this, buf, pktData
    {
      && framing.Sound() && buf.Length == BUFFER_SIZE && pktOffset <= BUFFER_SIZE
      && (pktData != null ==>
            && pktData != buf && pktOffset == 0
            && 0 < pktExpect && framing.header <= pktLen && pktLen + pktExpect == pktData.Length
            && pktData[0] == framing.kind && Total(framing, pktData[..pktLen]) == pktData.Length)
    }

    function Kept(): (s: State)
      requires Valid()
      reads this, buf, pktData
      ensures s.Valid(framing)
    {
      if pktData == null then Idle(buf[..pktOffset]) else Within(pktData[..pktLen], pktExpect)
    }

    /** What is still to come of the parse, with `rest` left in the buffer. */
    function Ahead(rest: octets): Parsed
      requires Valid()
      reads this, buf, pktData
    {
      if pktData == null then Parse(framing, rest) else Resume(framing, pktData[..pktLen], pktExpect, rest)
    }

    static function After(out: seq<octets>, p: Parsed): Parsed { Parsed(out + p.packets, p.tail) }

    constructor (framing: Framing)
      requires framing.Sound()
      ensures Valid() && this.framing == framing && Kept() == Idle([]) && delivered == []
      ensures fresh(buf)
    {
      this.framing := framing;
      buf := new uint8[BUFFER_SIZE];
      pktData, pktExpect, pktLen, pktOffset, delivered := null, 0, 0, 0, [];
    }

    /** `memcpy`. */
    static method Copy(dst: array<uint8>, at: nat, src: array<uint8>, from: nat, n: nat)
      requires dst != src && at + n <= dst.Length && from + n <= src.Length
      modifies dst
      ensures dst[at..at + n] == src[from..from + n]
      ensures dst[..at] == old(dst[..at]) && dst[at + n..] == old(dst[at + n..])
    {
      for i := 0 to n
        invariant dst[at..at + i] == src[from..from + i]
        invariant dst[..at] == old(dst[..at]) && dst[at + n..] == old(dst[at + n..])
      {
        dst[at + i] := src[from + i];
      }
    }

    /** The kernel's part of `read`: `chunk` arrives behind what was kept. */
    method Fill(chunk: octets)
      requires Valid() && |chunk| <= Kept().Room()
      modifies buf
      ensures Valid() && Kept() == old(Kept())
      ensures buf[..pktOffset + |chunk|] == Buffered(Kept(), chunk)
    {
      for i := 0 to |chunk|
        invariant buf[..pktOffset + i] == old(buf[..pktOffset]) + chunk[..i]
        invariant pktData != null ==> pktData[..] == old(pktData[..])
      {
        buf[pktOffset + i] := chunk[i];
      }
    }

    /** A header has arrived at `ptr`: allocates the packet that it announces. */
    method Open(ptr: nat)
      requires Valid() && pktData == null && ptr + framing.header <= buf.Length
      modifies this`pktData, this`pktExpect, this`pktLen, this`pktOffset
      ensures pktData != null && fresh(pktData) && pktLen == pktOffset == 0
      ensures pktExpect == pktData.Length == Total(framing, buf[ptr..ptr + framing.header])
    {
      pktExpect := framing.header + buf[ptr + framing.header - 1];
      pktData := new uint8[pktExpect];
      pktLen := 0;
      pktOffset := 0;
    }

    /** The rest of the packet is in the buffer. */
    method Finish(ptr: nat)
      requires pktData != null && pktData != buf && pktLen + pktExpect == pktData.Length
      requires ptr + pktExpect <= buf.Length
      modifies this`pktData, this`delivered, pktData
      ensures pktData == null
      ensures delivered == old(delivered) + [old(pktData[..pktLen]) + buf[ptr..ptr + pktExpect]]
    {
      Copy(pktData, pktLen, buf, ptr, pktExpect);
      assert pktData[..pktLen + pktExpect] == pktData[..pktLen] + pktData[pktLen..pktLen + pktExpect];
      delivered := delivered + [pktData[..pktLen + pktExpect]];
      pktData := null;
    }

    /** Only a part of it is. */
    method Stow(ptr: nat, count: nat)
      requires pktData != null && pktData != buf && pktLen + pktExpect == pktData.Length
      requires count < pktExpect && ptr + count <= buf.Length
      modifies this`pktLen, this`pktExpect, pktData
      ensures pktLen == old(pktLen) + count && pktExpect == old(pktExpect) - count
      ensures pktData[..pktLen] == old(pktData[..pktLen]) + buf[ptr..ptr + count]
    {
      Copy(pktData, pktLen, buf, ptr, count);
      assert pktData[..pktLen + count] == pktData[..pktLen] + pktData[pktLen..pktLen + count];
      pktLen, pktExpect := pktLen + count, pktExpect - count;
    }

    /** Takes what the buffer holds of the packet under construction: all that is missing, or less. */
    method Consume(ptr: nat, count: nat) returns (used: nat)
      requires pktData != null && pktData != buf && framing.Sound() && buf.Length == BUFFER_SIZE && pktOffset == 0
      requires 0 < pktExpect && pktLen + pktExpect == pktData.Length && 0 < count && ptr + count <= buf.Length
      requires var now := pktData[..pktLen] + buf[ptr..ptr + count];
               framing.header <= |now| && now[0] == framing.kind && Total(framing, now) == pktData.Length
      modifies this`pktData, this`pktLen, this`pktExpect, this`delivered, pktData
      ensures Valid() && 0 < used <= count && (pktData == null || pktData == old(pktData))
      ensures After(delivered, Ahead(buf[ptr + used..ptr + count]))
           == old(After(delivered, Resume(framing, pktData[..pktLen], pktExpect, buf[ptr..ptr + count])))
      ensures if pktData == null then |delivered| > |old(delivered)| else used == count && delivered == old(delivered)
    {
      hide Parse;
      ghost var got, rest := pktData[..pktLen], buf[ptr..ptr + count];
      if count >= pktExpect {
        assert buf[ptr..ptr + pktExpect] == rest[..pktExpect];
        Finish(ptr);
        used := pktExpect;
        assert buf[ptr + used..ptr + count] == rest[used..];
        ghost var packet, more := got + rest[..used], Parse(framing, rest[used..]);
        assert old(delivered) + [packet] + more.packets == old(delivered) + ([packet] + more.packets);
      } else {
        Stow(ptr, count);
        used := count;
        assert pktData[..pktLen] + [] == got + rest;
      }
    }

    /** A packet that begins in the buffer is one of which nothing has been received yet. */
    static lemma NewPacket(f: Framing, rest: octets)
      requires f.Sound() && f.header <= |rest| && rest[0] == f.kind
      ensures Parse(f, rest) == Resume(f, [], Total(f, rest), rest)
    {
      var n := Total(f, rest);
      hide Total;
      assert [] + rest == rest;
      if n <= |rest| {
        var first := rest[..n];
        assert [] + first == first;
      }
    }

    /** One round of the loop, after its checks. */
    method Advance(ptr: nat, count: nat) returns (used: nat)
      requires Valid() && 0 < count && ptr + count <= buf.Length
      requires pktData == null ==> framing.header <= count && buf[ptr] == framing.kind
      modifies this, pktData
      ensures Valid() && pktOffset == 0 && 0 < used <= count
      ensures pktData == null || fresh(pktData) || pktData == old(pktData)
      ensures After(delivered, Ahead(buf[ptr + used..ptr + count]))
           == old(After(delivered, Ahead(buf[ptr..ptr + count])))
      ensures if pktData == null then |delivered| > |old(delivered)| else used == count && delivered == old(delivered)
    {
      hide Parse, Resume;
      ghost var rest := buf[ptr..ptr + count];
      if pktData == null {
        NewPacket(framing, rest);
        Open(ptr);
        assert rest[framing.header - 1] == buf[ptr..ptr + framing.header][framing.header - 1];
        assert pktData[..pktLen] == [] && [] + rest == rest;
      } else {
        assert (pktData[..pktLen] + rest)[framing.header - 1] == pktData[..pktLen][framing.header - 1];
      }
      used := Consume(ptr, count);
    }

    /** The parse is over: its tail is known, and the packets are those delivered meanwhile. */
    static lemma Concluded(before: seq<octets>, now: seq<octets>, scan: Parsed, rest: Parsed)
      requires After(now, rest) == After(before, scan) && rest.packets == []
      ensures scan.tail == rest.tail && now == before + scan.packets
    {
    }

    /** The read has come as far as `rest`, and what it delivered and what is ahead make up its parse. */
    ghost predicate Scanned(before: seq<octets>, scan: Parsed, rest: octets)
      requires Valid()
      reads this, buf, pktData
    {
      After(delivered, Ahead(rest)) == After(before, scan)
    }

    /** Whether something was consumed on the way, and what that means for the fields. */
    predicate Moved(s: State, before: seq<octets>, ptr: nat, count: nat)
      requires Valid()
      reads this, buf, pktData
    {
      if ptr == 0 then delivered == before && Kept() == s
      else pktOffset == 0 && if pktData == null then |delivered| > |before| else count == 0
    }

    /** One more round keeps both. */
    method Round(ptr: nat, count: nat, ghost s: State, ghost before: seq<octets>, ghost scan: Parsed)
      returns (used: nat)
      requires Valid() && 0 < count && ptr + count <= buf.Length
      requires pktData == null ==> framing.header <= count && buf[ptr] == framing.kind
      requires Scanned(before, scan, buf[ptr..ptr + count]) && Moved(s, before, ptr, count)
      modifies this, pktData
      ensures Valid() && 0 < used <= count
      ensures pktData == null || fresh(pktData) || pktData == old(pktData)
      ensures Scanned(before, scan, buf[ptr + used..ptr + count]) && Moved(s, before, ptr + used, count - used)
    {
      hide Parse, Resume, Total;
      used := Advance(ptr, count);
    }

    /** The loop ends at an unknown type, or inside a header, whose octets stay where they are. */
    method Stop(ptr: nat, count: nat, len: nat, ghost s: State, ghost chunk: octets, ghost before: seq<octets>)
      requires framing.Sound() && s.Valid(framing) && |chunk| == len <= s.Room()
      requires Valid() && pktData == null && 0 < count && ptr + count == |Buffered(s, chunk)| <= BUFFER_SIZE
      requires buf[..ptr + count] == Buffered(s, chunk) && pktOffset + len <= BUFFER_SIZE
      requires buf[ptr] != framing.kind || count < framing.header
      requires Scanned(before, ScanFrom(framing, s, chunk), buf[ptr..ptr + count]) && Moved(s, before, ptr, count)
      modifies this`pktOffset
      ensures Valid() && Kept() == Feed(framing, s, chunk).state
      ensures delivered == before + Feed(framing, s, chunk).packets
    {
      hide Parse, Resume, Total, ScanFrom;
      ghost var scan := ScanFrom(framing, s, chunk);
      Stops(framing, buf[ptr..ptr + count]);
      Concluded(before, delivered, scan, Ahead(buf[ptr..ptr + count]));
      if buf[ptr] == framing.kind {
        pktOffset := pktOffset + len;
      }
      assert buf[..pktOffset] == Buffered(s, chunk)[..pktOffset];
    }

    /** The loop has taken everything. */
    lemma End(s: State, chunk: octets, before: seq<octets>, ptr: nat)
      requires framing.Sound() && s.Valid(framing) && |chunk| <= s.Room() && Valid()
      requires Scanned(before, ScanFrom(framing, s, chunk), []) && Moved(s, before, ptr, 0)
      requires ptr == |Buffered(s, chunk)|
      ensures Kept() == Feed(framing, s, chunk).state
      ensures delivered == before + Feed(framing, s, chunk).packets
    {
      hide Parse, Resume, Total, ScanFrom;
      Ends();
      Concluded(before, delivered, ScanFrom(framing, s, chunk), Ahead([]));
      assert buf[..0] == [];
    }

    lemma Begins(s: State, chunk: octets)
      requires Valid() && s == Kept() && |chunk| <= s.Room()
      ensures Scanned(delivered, ScanFrom(framing, s, chunk), Buffered(s, chunk))
    {
      hide Parse, Resume;
    }

    /** One call of the callback, for a read that brings `chunk`. */
    method Read(chunk: octets)
      requires Valid() && |chunk| <= Kept().Room()
      modifies this, buf, pktData
      ensures Valid() && Kept() == Feed(framing, old(Kept()), chunk).state
      ensures delivered == old(delivered) + Feed(framing, old(Kept()), chunk).packets
      ensures pktData == null || fresh(pktData) || pktData == old(pktData)
    {
      hide Parse, Resume, Total, ScanFrom, Feed, Scanned;
      ghost var s, before, scan := Kept(), delivered, ScanFrom(framing, Kept(), chunk);
      Fill(chunk);
      Begins(s, chunk);
      var ptr: nat, count: nat := 0, pktOffset + |chunk|;
      assert buf[ptr..ptr + count] == Buffered(s, chunk);
      while count > 0
        invariant Valid() && ptr + count == |Buffered(s, chunk)| == old(pktOffset) + |chunk| <= BUFFER_SIZE
        invariant buf[..ptr + count] == Buffered(s, chunk) && pktOffset <= old(pktOffset)
        invariant Scanned(before, scan, buf[ptr..ptr + count]) && Moved(s, before, ptr, count)
        invariant pktData == null || fresh(pktData) || pktData == old(pktData)
      {
        if pktData == null && (buf[ptr] != framing.kind || count < framing.header) {
          Stop(ptr, count, |chunk|, s, chunk, before);
          return;
        }
        var used := Round(ptr, count, s, before, scan);
        ptr, count := ptr + used, count - used;
      }
      assert buf[ptr..ptr + count] == [];
      End(s, chunk, before, ptr);
    }

    static lemma Stops(f: Framing, rest: octets)
      requires f.Sound() && rest != [] && (rest[0] != f.kind || |rest| < f.header)
      ensures Parse(f, rest) == Parsed([], if rest[0] != f.kind then Unknown(rest) else Partial(rest))
    {
    }

    lemma Ends()
      requires Valid()
      ensures Ahead([]) == Parsed([], if pktData == null then Done else Mid(pktData[..pktLen], pktExpect))
    {
      if pktData != null {
        assert pktData[..pktLen] + [] == pktData[..pktLen];
      }
    }
  }
}
