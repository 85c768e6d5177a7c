/**
 * Packets written out octet by octet, and what the reader makes of a stream of them: here the
 * length octet, the type octet and the cuts between reads are given by position.
 */
module H4Packets {
  import opened Bytes
  import opened H4
  import opened H4Reader

  /** A packet is its type octet, the middle of its header, the number of its parameters, and these. */
  datatype Packet = Packet(middle: octets, params: octets)

  predicate FitsIn(f: Framing, p: Packet) { |p.middle| + 2 == f.header && |p.params| <= 255 }

  function Octets(f: Framing, p: Packet): (s: octets)
    requires FitsIn(f, p)
    ensures |s| == f.header + |p.params|
  {
    [f.kind] + p.middle + [|p.params|] + p.params
  }

  predicate AllFit(f: Framing, packets: seq<Packet>) { forall k :: 0 <= k < |packets| ==> FitsIn(f, packets[k]) }

  function Written(f: Framing, packets: seq<Packet>): (s: seq<octets>)
    requires AllFit(f, packets)
    ensures |s| == |packets|
  {
    seq(|packets|, k requires 0 <= k < |packets| => Octets(f, packets[k]))
  }

  lemma LengthOctet(f: Framing, p: Packet, behind: octets)
    requires f.Sound() && FitsIn(f, p)
    ensures var data := Octets(f, p) + behind;
            data[0] == f.kind && data[f.header - 1] == |p.params| && data[..f.header + |p.params|] == Octets(f, p)
  {
    assert (Octets(f, p) + behind)[f.header - 1] == ([f.kind] + p.middle + [|p.params|])[f.header - 1];
  }

  lemma WrittenIsFramed(f: Framing, p: Packet)
    requires f.Sound() && FitsIn(f, p)
    ensures WellFramed(f, Octets(f, p))
  {
    LengthOctet(f, p, []);
    assert Octets(f, p) + [] == Octets(f, p);
  }

  /** A packet is taken whole, whatever its parameters are and whatever follows. */
  lemma TakenWhole(f: Framing, p: Packet, behind: octets)
    requires f.Sound() && FitsIn(f, p)
    ensures Parse(f, Octets(f, p) + behind)
         == Parsed([Octets(f, p)] + Parse(f, behind).packets, Parse(f, behind).tail)
  {
    LengthOctet(f, p, behind);
    var data := Octets(f, p) + behind;
    assert data[|Octets(f, p)|..] == behind;
  }

  /** Everything that is delivered is such a packet: its length octet counts the octets behind the header. */
  lemma DeliveredIsWritten(f: Framing, data: octets, k: nat) returns (p: Packet)
    requires f.Sound() && k < |Parse(f, data).packets|
    ensures FitsIn(f, p) && Octets(f, p) == Parse(f, data).packets[k]
    ensures var packet := Parse(f, data).packets[k]; packet[f.header - 1] == |packet| - f.header
  {
    ParseConserves(f, data);
    hide Parse, Flat, WellFramed, Octets;
    p := FramedIsWritten(f, Parse(f, data).packets[k]);
  }

  lemma FramedIsWritten(f: Framing, packet: octets) returns (p: Packet)
    requires f.Sound() && WellFramed(f, packet)
    ensures FitsIn(f, p) && Octets(f, p) == packet && packet[f.header - 1] == |packet| - f.header
  {
    p := Packet(packet[1..f.header - 1], packet[f.header..]);
    var head := packet[..f.header];
    assert [packet[0]] + packet[1..f.header - 1] + [packet[f.header - 1]] == head;
    assert head + packet[f.header..] == packet;
  }

  // ---------------------------------------------------------------- a part of a stream

  /** Where packet `k` of a stream begins. */
  function Start(packets: seq<octets>, k: nat): nat
    requires k <= |packets|
  {
    |Flat(packets[..k])|
  }

  /** What is left of a packet of which `n` octets have arrived. */
  function CutTail(f: Framing, packet: octets, n: nat): Tail
    requires f.header <= |packet| && n < |packet|
  {
    if n == 0 then Done else if n < f.header then Partial(packet[..n]) else Mid(packet[..n], |packet| - n)
  }

  /** The first octets of a packet. */
  lemma CutPacket(f: Framing, p: Packet, n: nat)
    requires f.Sound() && FitsIn(f, p) && n < |Octets(f, p)|
    ensures Parse(f, Octets(f, p)[..n]) == Parsed([], CutTail(f, Octets(f, p), n))
  {
    LengthOctet(f, p, []);
    assert Octets(f, p) + [] == Octets(f, p);
  }

  /** A stream cut `n` octets into packet `k` has given the packets before it. */
  lemma {:induction false} CutStream(f: Framing, packets: seq<Packet>, k: nat, n: nat)
    requires f.Sound() && AllFit(f, packets) && k < |packets| && n < |Octets(f, packets[k])|
    ensures var all := Written(f, packets);
            && Start(all, k) + n <= |Flat(all)|
            && Parse(f, Flat(all)[..Start(all, k) + n]) == Parsed(all[..k], CutTail(f, all[k], n))
    decreases k
  {
    hide Parse, Octets, CutTail;
    var all := Written(f, packets);
    var head := all[0];
    assert Flat(all) == head + Flat(all[1..]);
    assert Written(f, packets[1..]) == all[1..];
    if k == 0 {
      assert all[..0] == [] && Flat(all)[..n] == head[..n];
      CutPacket(f, packets[0], n);
    } else {
      CutStream(f, packets[1..], k - 1, n);
      var rest := Flat(all[1..]);
      var m := Start(all[1..], k - 1) + n;
      assert all[..k][1..] == all[1..][..k - 1];
      assert Start(all, k) == |head| + Start(all[1..], k - 1);
      assert Flat(all)[..|head| + m] == head + rest[..m];
      TakenWhole(f, packets[0], rest[..m]);
      assert [head] + all[1..][..k - 1] == all[..k];
    }
  }

  lemma StartNext(packets: seq<octets>, k: nat)
    requires k < |packets|
    ensures Start(packets, k + 1) == Start(packets, k) + |packets[k]|
  {
    assert packets[..k + 1] == packets[..k] + [packets[k]];
    FlatLast(packets[..k], packets[k]);
  }

  lemma {:induction false} StartGrows(packets: seq<octets>, j: nat, k: nat)
    requires j <= k <= |packets|
    ensures Start(packets, j) <= Start(packets, k)
    decreases k - j
  {
    hide Start;
    if j < k {
      StartNext(packets, k - 1);
      StartGrows(packets, j, k - 1);
    }
  }

  /** Every position before the end lies in one packet. */
  lemma {:induction false} Locate(packets: seq<octets>, at: nat, upTo: nat) returns (k: nat)
    requires upTo <= |packets| && at < Start(packets, upTo)
    ensures k < upTo && Start(packets, k) <= at < Start(packets, k) + |packets[k]|
  {
    assert packets[..0] == [] && Start(packets, 0) == 0;
    hide Start;
    StartNext(packets, upTo - 1);
    if at >= Start(packets, upTo - 1) {
      k := upTo - 1;
    } else {
      k := Locate(packets, at, upTo - 1);
    }
  }

  /** What the first `at` octets of a stream parse to, by position. */
  lemma CutAt(f: Framing, packets: seq<Packet>, at: nat) returns (k: nat, n: nat)
    requires f.Sound() && AllFit(f, packets) && at <= |Flat(Written(f, packets))|
    ensures k <= |packets| && at == Start(Written(f, packets), k) + n
    ensures if k == |packets| then n == 0 else n < |Written(f, packets)[k]|
    ensures Parse(f, Flat(Written(f, packets))[..at])
         == Parsed(Written(f, packets)[..k], if n == 0 then Done else CutTail(f, Written(f, packets)[k], n))
  {
    hide Parse, Octets;
    var all := Written(f, packets);
    assert all[..|all|] == all && Flat(all)[..|Flat(all)|] == Flat(all);
    if at == |Flat(all)| {
      k, n := |packets|, 0;
      forall j | 0 <= j < |all| ensures WellFramed(f, all[j]) { WrittenIsFramed(f, packets[j]); }
      ParseOfFlat(f, all);
    } else {
      k := Locate(all, at, |all|);
      n := at - Start(all, k);
      CutStream(f, packets, k, n);
    }
  }

  // ---------------------------------------------------------------- reads

  /** The read of the octets from `from` to `to` ends inside a header that began after `from`. */
  predicate BreaksHeader(f: Framing, packets: seq<octets>, from: nat, to: nat)
  {
    exists k: nat | k < |packets| :: from < Start(packets, k) < to < Start(packets, k) + f.header
  }

  lemma BreaksOnly(f: Framing, packets: seq<octets>, from: nat, to: nat, k: nat, n: nat)
    requires k <= |packets| && to == Start(packets, k) + n
    requires if k == |packets| then n == 0 else n < |packets[k]|
    requires forall j :: 0 <= j < |packets| ==> |packets[j]| >= f.header
    ensures BreaksHeader(f, packets, from, to) <==> from < Start(packets, k) && 0 < n < f.header
  {
    hide Start;
    forall j: nat | j < |packets| && Start(packets, j) < to < Start(packets, j) + f.header ensures j == k {
      StartNext(packets, j);
      if j < k { StartGrows(packets, j + 1, k); }
      if k < j { StartNext(packets, k); StartGrows(packets, k + 1, j); }
    }
  }

  /** The state of a reader that has taken the first `at` octets as it should. */
  function StateAt(f: Framing, packets: seq<Packet>, at: nat): State
    requires f.Sound() && AllFit(f, packets) && at <= |Flat(Written(f, packets))|
  {
    StateOf(Parse(f, Flat(Written(f, packets))[..at]).tail)
  }

  lemma StateAtValid(f: Framing, packets: seq<Packet>, at: nat)
    requires f.Sound() && AllFit(f, packets) && at <= |Flat(Written(f, packets))|
    ensures StateAt(f, packets, at).Valid(f)
    ensures var before := Parse(f, Flat(Written(f, packets))[..at]); TailSound(f, before.tail) && !before.tail.Unknown?
  {
    ParseConserves(f, Flat(Written(f, packets))[..at]);
    var _, _ := CutAt(f, packets, at);
    hide Parse, Flat;
  }

  /** How far `to` is in packets and in the packet it lies in, and the same for an earlier `from`. */
  lemma CutsApart(packets: seq<octets>, k: nat, n: nat, k': nat, n': nat)
    requires k <= |packets| && k' <= |packets| && Start(packets, k) + n <= Start(packets, k') + n'
    requires if k == |packets| then n == 0 else n < |packets[k]|
    requires if k' == |packets| then n' == 0 else n' < |packets[k']|
    ensures k <= k' && (k < k' <==> Start(packets, k) + n < Start(packets, k'))
  {
    hide Start;
    if k' < k { StartNext(packets, k'); StartGrows(packets, k' + 1, k); }
    if k < k' { StartNext(packets, k); StartGrows(packets, k + 1, k'); }
  }

  /** A cut is bad exactly if the read ends inside a header and began before it. */
  lemma BadCutByPosition(f: Framing, packets: seq<Packet>, from: nat, to: nat)
    requires f.Sound() && AllFit(f, packets) && from <= to <= |Flat(Written(f, packets))|
    ensures var data, s := Flat(Written(f, packets)), StateAt(f, packets, from);
            s.Valid(f) && (BadCut(f, s, data[from..to]) <==> BreaksHeader(f, Written(f, packets), from, to))
    ensures Parse(f, Flat(Written(f, packets))[..to])
         == Continue(f, Parse(f, Flat(Written(f, packets))[..from]), Flat(Written(f, packets))[from..to])
  {
    hide Parse, Resume, Flat, Octets, Start, BreaksHeader;
    var all := Written(f, packets);
    var data := Flat(all);
    var chunk := data[from..to];
    assert data[..to] == data[..from] + chunk;
    StateAtValid(f, packets, from);
    ParseSplit(f, data[..from], chunk);
    ScanContinues(f, Parse(f, data[..from]), chunk);
    var k, n := CutAt(f, packets, from);
    var k', n' := CutAt(f, packets, to);
    CutsApart(all, k, n, k', n');
    BreaksOnly(f, all, from, to, k', n');
    var p := ScanFrom(f, StateAt(f, packets, from), chunk);
    assert |all[..k] + p.packets| == |all[..k']|;
  }

  /** No read breaks a header. */
  predicate HeadersWhole(f: Framing, packets: seq<octets>, from: nat, chunks: seq<octets>)
    decreases |chunks|
  {
    chunks != [] ==>
      && !BreaksHeader(f, packets, from, from + |chunks[0]|)
      && HeadersWhole(f, packets, from + |chunks[0]|, chunks[1..])
  }

  lemma {:induction false} GoodCutsByPosition(f: Framing, packets: seq<Packet>, from: nat, chunks: seq<octets>)
    requires f.Sound() && AllFit(f, packets) && from <= |Flat(Written(f, packets))|
    requires Flat(Written(f, packets))[from..] == Flat(chunks)
    requires StateAt(f, packets, from).Valid(f) && Fits(f, StateAt(f, packets, from), chunks)
    ensures GoodCuts(f, StateAt(f, packets, from), chunks) <==> HeadersWhole(f, Written(f, packets), from, chunks)
    decreases |chunks|
  {
    if chunks != [] {
      NextRead(f, packets, from, chunks);
      hide Parse, BadCut, Octets, BreaksHeader, Feed, StateAt;
      var to := from + |chunks[0]|;
      FeedValid(f, StateAt(f, packets, from), chunks[0]);
      if !BadCut(f, StateAt(f, packets, from), chunks[0]) {
        GoodCutsByPosition(f, packets, to, chunks[1..]);
      }
    }
  }

  lemma FirstRead(data: octets, from: nat, chunks: seq<octets>)
    requires from <= |data| && chunks != [] && data[from..] == Flat(chunks)
    ensures var to := from + |chunks[0]|;
            to <= |data| && data[from..to] == chunks[0] && data[to..] == Flat(chunks[1..])
  {
    var to, rest := from + |chunks[0]|, data[from..];
    assert rest == chunks[0] + Flat(chunks[1..]);
    assert data[from..to] == rest[..|chunks[0]|] && data[to..] == rest[|chunks[0]|..];
  }

  lemma NextRead(f: Framing, packets: seq<Packet>, from: nat, chunks: seq<octets>)
    requires f.Sound() && AllFit(f, packets) && from <= |Flat(Written(f, packets))| && chunks != []
    requires Flat(Written(f, packets))[from..] == Flat(chunks)
    requires StateAt(f, packets, from).Valid(f) && |chunks[0]| <= StateAt(f, packets, from).Room()
    ensures var to, s := from + |chunks[0]|, StateAt(f, packets, from);
            && to <= |Flat(Written(f, packets))|
            && Flat(Written(f, packets))[to..] == Flat(chunks[1..])
            && StateAt(f, packets, to).Valid(f)
            && (BadCut(f, s, chunks[0]) <==> BreaksHeader(f, Written(f, packets), from, to))
            && (!BadCut(f, s, chunks[0]) ==> Feed(f, s, chunks[0]).state == StateAt(f, packets, to))
  {
    hide Flat, Parse, BadCut, Octets, BreaksHeader, Feed, Continue, StateOf;
    var data, to := Flat(Written(f, packets)), from + |chunks[0]|;
    FirstRead(data, from, chunks);
    BadCutByPosition(f, packets, from, to);
    StateAtValid(f, packets, from);
    StateAtValid(f, packets, to);
    FeedRefines(f, Parse(f, data[..from]), chunks[0]);
  }

  /** With whole headers at most three octets are kept, so that reads of this size always fit. */
  lemma {:induction false} SmallReadsFit(f: Framing, packets: seq<Packet>, from: nat, chunks: seq<octets>)
    requires f.Sound() && AllFit(f, packets) && from <= |Flat(Written(f, packets))|
    requires Flat(Written(f, packets))[from..] == Flat(chunks) && StateAt(f, packets, from).Valid(f)
    requires HeadersWhole(f, Written(f, packets), from, chunks)
    requires forall j :: 0 <= j < |chunks| ==> |chunks[j]| <= 4093
    ensures Fits(f, StateAt(f, packets, from), chunks)
    decreases |chunks|
  {
    if chunks != [] {
      StateAtValid(f, packets, from);
      NextRead(f, packets, from, chunks);
      hide Parse, BadCut, Octets, BreaksHeader, Feed;
      SmallReadsFit(f, packets, from + |chunks[0]|, chunks[1..]);
    }
  }

  /**
   * A stream of packets, cut into reads of which none breaks a header: exactly those packets are
   * delivered, in order.
   */
  lemma PacketsReassembled(f: Framing, packets: seq<Packet>, chunks: seq<octets>)
    requires f.Sound() && AllFit(f, packets) && Flat(chunks) == Flat(Written(f, packets))
    requires Fits(f, Idle([]), chunks) && HeadersWhole(f, Written(f, packets), 0, chunks)
    ensures FeedAll(f, Idle([]), chunks) == Fed(Idle([]), Written(f, packets))
  {
    var all := Written(f, packets);
    assert Flat(all)[..0] == [] && Flat(all)[0..] == Flat(all);
    assert StateAt(f, packets, 0) == Idle([]);
    forall j | 0 <= j < |all| ensures WellFramed(f, all[j]) { WrittenIsFramed(f, packets[j]); }
    hide Parse, FeedAll, GoodCuts, Fits, Flat, WellFramed, Octets, HeadersWhole, StateAt;
    GoodCutsByPosition(f, packets, 0, chunks);
    Reassembled(f, all, chunks);
  }

  /** From an unknown type octet on, the rest of a read is dropped. */
  lemma UnknownDropped(f: Framing, packets: seq<Packet>, junk: octets)
    requires f.Sound() && AllFit(f, packets) && junk != [] && junk[0] != f.kind
    requires |Flat(Written(f, packets)) + junk| <= BUFFER_SIZE
    ensures Feed(f, Idle([]), Flat(Written(f, packets)) + junk) == Fed(Idle([]), Written(f, packets))
  {
    hide Flat, Octets;
    var all, data := Written(f, packets), Flat(Written(f, packets)) + junk;
    forall j | 0 <= j < |all| ensures WellFramed(f, all[j]) { WrittenIsFramed(f, packets[j]); }
    ParseOfFlat(f, all);
    ParseSplit(f, Flat(all), junk);
    assert all + [] == all && [] + data == data;
  }

  // ---------------------------------------------------------------- commands

  datatype Command = Command(opcode: uint16, params: octets)

  predicate Sendable(commands: seq<Command>) { forall k :: 0 <= k < |commands| ==> |commands[k].params| <= 255 }

  /** A command on the wire. */
  function OnWire(c: Command): (s: octets)
    requires |c.params| <= 255
  {
    [0x01, c.opcode % 0x100, c.opcode / 0x100, |c.params|] + c.params
  }

  function AllOnWire(commands: seq<Command>): (s: seq<octets>)
    requires Sendable(commands)
    ensures |s| == |commands|
  {
    seq(|commands|, k requires 0 <= k < |commands| => OnWire(commands[k]))
  }

  function AsPacket(c: Command): Packet { Packet([c.opcode % 0x100, c.opcode / 0x100], c.params) }

  function AsPackets(commands: seq<Command>): (s: seq<Packet>)
    ensures |s| == |commands|
  {
    seq(|commands|, k requires 0 <= k < |commands| => AsPacket(commands[k]))
  }

  lemma OnWireIsWritten(commands: seq<Command>)
    requires Sendable(commands)
    ensures AllFit(COMMAND, AsPackets(commands)) && Written(COMMAND, AsPackets(commands)) == AllOnWire(commands)
  {
    forall k | 0 <= k < |commands| ensures Octets(COMMAND, AsPacket(commands[k])) == OnWire(commands[k]) {}
  }

  /** A stream of commands in reads of at most 4093 octets, of which none breaks a header. */
  predicate Readable(commands: seq<Command>, chunks: seq<octets>)
    requires Sendable(commands)
  {
    && Flat(chunks) == Flat(AllOnWire(commands))
    && (forall j :: 0 <= j < |chunks| ==> |chunks[j]| <= 4093)
    && HeadersWhole(COMMAND, AllOnWire(commands), 0, chunks)
  }

  /** The reader takes every command as it was written, with its opcode and all its parameters. */
  lemma CommandsReassembled(commands: seq<Command>, chunks: seq<octets>)
    requires Sendable(commands) && Readable(commands, chunks)
    ensures Fits(COMMAND, Idle([]), chunks)
    ensures FeedAll(COMMAND, Idle([]), chunks) == Fed(Idle([]), AllOnWire(commands))
  {
    OnWireIsWritten(commands);
    var packets := AsPackets(commands);
    var data := Flat(Written(COMMAND, packets));
    assert data[..0] == [] && data[0..] == data;
    assert StateAt(COMMAND, packets, 0) == Idle([]);
    hide Parse, FeedAll, Fits, Flat, HeadersWhole, OnWire, StateAt;
    SmallReadsFit(COMMAND, packets, 0, chunks);
    PacketsReassembled(COMMAND, packets, chunks);
  }

  /** The main loop calls the read callback once for each read. */
  method ReadAll(reader: Reader, chunks: seq<octets>)
    requires reader.Valid() && Fits(reader.framing, reader.Kept(), chunks)
    modifies reader, reader.buf, reader.pktData
    ensures reader.Valid()
    ensures var fed := FeedAll(reader.framing, old(reader.Kept()), chunks);
            reader.Kept() == fed.state && reader.delivered == old(reader.delivered) + fed.packets
  {
    hide Parse, Feed;
    ghost var s := reader.Kept();
    var i := 0;
    while i < |chunks|
      invariant i <= |chunks| && reader.Valid()
      invariant reader.pktData == old(reader.pktData) || reader.pktData == null || fresh(reader.pktData)
      invariant Fits(reader.framing, reader.Kept(), chunks[i..])
      invariant var whole, rest := FeedAll(reader.framing, s, chunks),
                                   FeedAll(reader.framing, reader.Kept(), chunks[i..]);
                rest.state == whole.state && reader.delivered + rest.packets == old(reader.delivered) + whole.packets
    {
      assert chunks[i..][1..] == chunks[i + 1..];
      reader.Read(chunks[i]);
      i := i + 1;
    }
  }

  /** The callback hands on exactly the commands that were written, and is ready for the next. */
  method ReceiveCommands(reader: Reader, ghost commands: seq<Command>, chunks: seq<octets>)
    requires reader.Valid() && reader.framing == COMMAND && reader.pktData == null && reader.pktOffset == 0
    requires Sendable(commands) && Readable(commands, chunks)
    modifies reader, reader.buf, reader.pktData
    ensures reader.Valid() && reader.delivered == old(reader.delivered) + AllOnWire(commands)
    ensures reader.pktData == null && reader.pktOffset == 0
  {
    hide HeadersWhole, OnWire;
    assert reader.Kept() == Idle([]);
    CommandsReassembled(commands, chunks);
    ReadAll(reader, chunks);
  }
}
