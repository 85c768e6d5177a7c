/**
 * Reassembly of H4 packets from a byte stream: the read callbacks of `serial.c`, `b1ee.c` and the
 * command branch of `server.c` are one loop, over a 4-octet command header or a 3-octet event header.
 */
module H4 {
  import opened Bytes

  /** The packet type octet, and how many octets come before the parameters; the last is their length. */
  datatype Framing = Framing(kind: uint8, header: nat)
  {
    predicate Sound() { 2 <= header <= 4 }
  }

  const COMMAND := Framing(0x01, 4)
  const BUFFER_SIZE := 4096

  // ---------------------------------------------------------------- the whole-stream parser

  /** How a stream ends: between packets, inside a header, inside a packet, or at an unknown type. */
  datatype Tail =
    | Done
    | Partial(bytes: octets)
    | Mid(got: octets, want: nat)
    | Unknown(bytes: octets)

  datatype Parsed = Parsed(packets: seq<octets>, tail: Tail)

  function Total(f: Framing, data: octets): (n: nat)
    requires f.Sound() && f.header <= |data|
    ensures f.header <= n
  {
    var plen: int := data[f.header - 1];
    f.header + plen
  }

  function Parse(f: Framing, data: octets): Parsed
    requires f.Sound()
  {
    if data == [] then Parsed([], Done)
    else if data[0] != f.kind then Parsed([], Unknown(data))
    else if |data| < f.header then Parsed([], Partial(data))
    else
      var n := Total(f, data);
      if |data| < n then Parsed([], Mid(data, n - |data|)) else Prepend(data[..n], Parse(f, data[n..]))
  }

  function Prepend(packet: octets, rest: Parsed): Parsed { Parsed([packet] + rest.packets, rest.tail) }

  /** Parsing that goes on with a packet of which `want` octets are missing. */
  function Resume(f: Framing, got: octets, want: nat, data: octets): Parsed
    requires f.Sound() && want > 0
  {
    if |data| < want then Parsed([], Mid(got + data, want - |data|))
    else Prepend(got + data[..want], Parse(f, data[want..]))
  }

  /** Parsing that goes on from the end of another parse. */
  function Continue(f: Framing, before: Parsed, data: octets): Parsed
    requires f.Sound() && (before.tail.Mid? ==> before.tail.want > 0)
  {
    var rest := match before.tail
      case Done => Parse(f, data)
      case Partial(bytes) => Parse(f, bytes + data)
      case Mid(got, want) => Resume(f, got, want, data)
      case Unknown(bytes) => Parsed([], Unknown(bytes + data));
    Parsed(before.packets + rest.packets, rest.tail)
  }

  predicate WellFramed(f: Framing, packet: octets)
    requires f.Sound()
  {
    f.header <= |packet| == Total(f, packet) && packet[0] == f.kind
  }

  function TailBytes(tail: Tail): octets
  {
    match tail
    case Done => []
    case Partial(bytes) => bytes
    case Mid(got, _) => got
    case Unknown(bytes) => bytes
  }

  /** What a tail says about its octets: whole packets never stay behind. */
  predicate TailSound(f: Framing, tail: Tail)
    requires f.Sound()
  {
    match tail
    case Done => true
    case Partial(bytes) => 0 < |bytes| < f.header && bytes[0] == f.kind
    case Mid(got, want) => |got| >= f.header && got[0] == f.kind && want > 0 && Total(f, got) == |got| + want
    case Unknown(bytes) => bytes != [] && bytes[0] != f.kind
  }

  /** The parser loses nothing, invents nothing, and delivers only well-framed packets. */
  lemma ParseConserves(f: Framing, data: octets)
    requires f.Sound()
    ensures var p := Parse(f, data);
            && Flat(p.packets) + TailBytes(p.tail) == data
            && (forall k :: 0 <= k < |p.packets| ==> WellFramed(f, p.packets[k]))
            && TailSound(f, p.tail)
  {
    hide Parse, Flat;
    ParseFlat(f, data);
    ParseFramed(f, data);
  }

  lemma {:induction false} ParseFlat(f: Framing, data: octets)
    requires f.Sound()
    ensures Flat(Parse(f, data).packets) + TailBytes(Parse(f, data).tail) == data
    decreases |data|
  {
    if data != [] && data[0] == f.kind && |data| >= f.header && |data| >= Total(f, data) {
      var n := Total(f, data);
      ParseFlat(f, data[n..]);
      FlatPrepend(data[..n], Parse(f, data[n..]));
      assert data[..n] + data[n..] == data;
    } else {
      assert Flat([]) + data == data;
    }
  }

  lemma {:induction false} ParseFramed(f: Framing, data: octets)
    requires f.Sound()
    ensures forall k :: 0 <= k < |Parse(f, data).packets| ==> WellFramed(f, Parse(f, data).packets[k])
    ensures TailSound(f, Parse(f, data).tail)
    decreases |data|
  {
    if data != [] && data[0] == f.kind && |data| >= f.header && |data| >= Total(f, data) {
      var n := Total(f, data);
      ParseFramed(f, data[n..]);
      assert WellFramed(f, data[..n]);
    }
  }

  lemma FlatPrepend(packet: octets, rest: Parsed)
    ensures var p := Prepend(packet, rest);
            Flat(p.packets) + TailBytes(p.tail) == packet + (Flat(rest.packets) + TailBytes(rest.tail))
  {
    assert Prepend(packet, rest).packets[1..] == rest.packets;
  }

  /** There is only one way to read a stream: parsing undoes concatenation. */
  lemma {:induction false} ParseOfFlat(f: Framing, packets: seq<octets>)
    requires f.Sound() && forall k :: 0 <= k < |packets| ==> WellFramed(f, packets[k])
    ensures Parse(f, Flat(packets)) == Parsed(packets, Done)
  {
    if packets != [] {
      var data, head := Flat(packets), packets[0];
      ParseOfFlat(f, packets[1..]);
      assert WellFramed(f, head) && data[..|head|] == head && data[|head|..] == Flat(packets[1..]);
      assert data[f.header - 1] == head[f.header - 1] && data[0] == head[0];
    }
  }

  lemma ContinuePrepend(f: Framing, packet: octets, before: Parsed, data: octets)
    requires f.Sound() && TailSound(f, before.tail)
    ensures Continue(f, Prepend(packet, before), data) == Prepend(packet, Continue(f, before, data))
  {
    ContinueFrom(f, [packet], before, data);
  }

  /** Packets that are already out stay in front. */
  lemma ContinueFrom(f: Framing, out: seq<octets>, before: Parsed, data: octets)
    requires f.Sound() && TailSound(f, before.tail)
    ensures Continue(f, Parsed(out + before.packets, before.tail), data)
         == Parsed(out + Continue(f, before, data).packets, Continue(f, before, data).tail)
  {
    hide Parse, Resume;
    var rest := Continue(f, Parsed([], before.tail), data).packets;
    assert out + before.packets + rest == out + (before.packets + rest);
  }

  /** A stream that is no more than a part of a header, or does not begin like a packet. */
  predicate Headless(f: Framing, a: octets) { a == [] || a[0] != f.kind || |a| < f.header }

  lemma HeadlessSplit(f: Framing, a: octets, b: octets)
    requires f.Sound() && Headless(f, a)
    ensures Parse(f, a + b) == Continue(f, Parse(f, a), b)
  {
    if a == [] { assert a + b == b; }
  }

  /** Parsing a stream in two pieces is parsing it in one. */
  lemma {:induction false} ParseSplit(f: Framing, a: octets, b: octets)
    requires f.Sound()
    ensures TailSound(f, Parse(f, a).tail)
    ensures Parse(f, a + b) == Continue(f, Parse(f, a), b)
    decreases |a|
  {
    hide Parse, Flat, Continue, Resume, WellFramed;
    ParseConserves(f, a);
    if Headless(f, a) {
      HeadlessSplit(f, a, b);
    } else {
      var n := Total(f, a);
      if |a| < n {
        MidSplit(f, a, b, n);
        MidContinues(f, a, b, n);
      } else {
        PacketSplit(f, a, b, n);
        ParseSplit(f, a[n..], b);
        ContinuePrepend(f, a[..n], Parse(f, a[n..]), b);
      }
    }
  }

  lemma MidContinues(f: Framing, a: octets, b: octets, n: nat)
    requires f.Sound() && f.header <= |a| < n == Total(f, a) && a[0] == f.kind
    ensures Parse(f, a) == Parsed([], Mid(a, n - |a|))
    ensures Continue(f, Parse(f, a), b) == Resume(f, a, n - |a|, b)
  {
    hide Resume;
    assert [] + Resume(f, a, n - |a|, b).packets == Resume(f, a, n - |a|, b).packets;
  }

  lemma PacketSplit(f: Framing, a: octets, b: octets, n: nat)
    requires f.Sound() && f.header <= |a| && n == Total(f, a) <= |a| && a[0] == f.kind
    ensures Parse(f, a + b) == Prepend(a[..n], Parse(f, a[n..] + b)) && Parse(f, a) == Prepend(a[..n], Parse(f, a[n..]))
  {
    assert (a + b)[..n] == a[..n] && (a + b)[n..] == a[n..] + b;
  }

  lemma MidSplit(f: Framing, a: octets, b: octets, n: nat)
    requires f.Sound() && f.header <= |a| < n == Total(f, a) && a[0] == f.kind
    ensures Parse(f, a + b) == Resume(f, a, n - |a|, b)
  {
    var want, all := n - |a|, a + b;
    assert all[0] == a[0] && Total(f, all) == n;
    if |b| >= want {
      assert all[..n] == a + b[..want] && all[n..] == b[want..];
    }
  }

  // ---------------------------------------------------------------- what the callback keeps between reads

  /** Between packets, with the first `pkt_offset` octets of the buffer; or inside a packet. */
  datatype State = Idle(carry: octets) | Within(got: octets, want: nat)
  {
    predicate Valid(f: Framing)
      requires f.Sound()
    {
      if Idle? then |carry| <= BUFFER_SIZE
      else |got| >= f.header && want > 0 && Total(f, got) == |got| + want && got[0] == f.kind
    }

    /** How much the next read may bring. */
    function Room(): int { if Idle? then BUFFER_SIZE - |carry| else BUFFER_SIZE }
  }

  datatype Fed = Fed(state: State, packets: seq<octets>)

  /** What the buffer holds once a read has brought `chunk`. */
  function Buffered(s: State, chunk: octets): octets { if s.Idle? then s.carry + chunk else chunk }

  function ScanFrom(f: Framing, s: State, chunk: octets): Parsed
    requires f.Sound() && s.Valid(f)
  {
    if s.Idle? then Parse(f, s.carry + chunk) else Resume(f, s.got, s.want, chunk)
  }

  /** Some header was completed in this read, or the read began inside a packet: `pkt_offset` is then 0. */
  predicate Consumed(s: State, p: Parsed) { s.Within? || p.packets != [] || p.tail.Mid? }

  /** The effect of one call of the read callback, for a read that brings `chunk`. */
  function Feed(f: Framing, s: State, chunk: octets): Fed
    requires f.Sound() && s.Valid(f) && |chunk| <= s.Room()
  {
    var p, all := ScanFrom(f, s, chunk), Buffered(s, chunk);
    var offset := if Consumed(s, p) then 0 else |s.carry|;
    Fed(match p.tail
        case Done => Idle([])
        case Partial(_) => Idle(all[..offset + |chunk|])
        case Mid(got, want) => Within(got, want)
        case Unknown(_) => Idle(all[..offset]),
        p.packets)
  }

  lemma FeedValid(f: Framing, s: State, chunk: octets)
    requires f.Sound() && s.Valid(f) && |chunk| <= s.Room()
    ensures Feed(f, s, chunk).state.Valid(f)
  {
    if s.Idle? {
      ParseConserves(f, s.carry + chunk);
    } else if |chunk| >= s.want {
      ParseConserves(f, chunk[s.want..]);
    }
  }

  /** The state that stands for a stream whose parse ends in `tail`. */
  function StateOf(tail: Tail): State
  {
    match tail
    case Done => Idle([])
    case Partial(bytes) => Idle(bytes)
    case Mid(got, want) => Within(got, want)
    case Unknown(_) => Idle([])
  }

  /** The read leaves a partial header behind something that it consumed. */
  predicate BadCut(f: Framing, s: State, chunk: octets)
    requires f.Sound() && s.Valid(f)
  {
    var p := ScanFrom(f, s, chunk);
    p.tail.Partial? && Consumed(s, p)
  }

  /**
   * One read after a stream that ended in `before`: it delivers what the whole-stream parser would
   * add, and it leaves the right state exactly if the cut is not a bad one.
   */
  lemma FeedRefines(f: Framing, before: Parsed, chunk: octets)
    requires f.Sound() && TailSound(f, before.tail) && !before.tail.Unknown?
    requires StateOf(before.tail).Valid(f) && |chunk| <= StateOf(before.tail).Room()
    requires !Continue(f, before, chunk).tail.Unknown?
    ensures var fed, after := Feed(f, StateOf(before.tail), chunk), Continue(f, before, chunk);
            && after.packets == before.packets + fed.packets
            && (fed.state == StateOf(after.tail) <==> !BadCut(f, StateOf(before.tail), chunk))
  {
    hide Parse, Resume, Flat, Feed;
    var s := StateOf(before.tail);
    ScanContinues(f, before, chunk);
    FeedState(f, s, chunk);
  }

  lemma ScanContinues(f: Framing, before: Parsed, chunk: octets)
    requires f.Sound() && TailSound(f, before.tail) && !before.tail.Unknown? && StateOf(before.tail).Valid(f)
    ensures var p := ScanFrom(f, StateOf(before.tail), chunk);
            Continue(f, before, chunk) == Parsed(before.packets + p.packets, p.tail)
  {
    hide Parse, Resume;
    assert [] + chunk == chunk;
  }

  lemma FeedState(f: Framing, s: State, chunk: octets)
    requires f.Sound() && s.Valid(f) && |chunk| <= s.Room() && (s.Idle? ==> |s.carry| < f.header)
    requires !ScanFrom(f, s, chunk).tail.Unknown?
    ensures Feed(f, s, chunk).packets == ScanFrom(f, s, chunk).packets
    ensures Feed(f, s, chunk).state == StateOf(ScanFrom(f, s, chunk).tail) <==> !BadCut(f, s, chunk)
  {
    hide Parse;
    var p, all := ScanFrom(f, s, chunk), Buffered(s, chunk);
    if p.tail.Partial? {
      if BadCut(f, s, chunk) {
        LeftOver(f, s, chunk);
        assert |all[..|chunk|]| == |chunk|;
      } else {
        assert s.Idle? && p.packets == [];
        ParseConserves(f, all);
        assert Flat(p.packets) == [] && [] + p.tail.bytes == all;
        assert all[..|all|] == all;
      }
    }
  }

  /** A bad cut leaves over less than the read brought. */
  lemma LeftOver(f: Framing, s: State, chunk: octets)
    requires f.Sound() && s.Valid(f) && (s.Idle? ==> |s.carry| < f.header) && BadCut(f, s, chunk)
    ensures |TailBytes(ScanFrom(f, s, chunk).tail)| < |chunk|
  {
    hide Parse, Flat;
    if s.Within? {
      ParseConserves(f, chunk[s.want..]);
    } else {
      ConsumedMore(f, s.carry, chunk);
    }
  }

  /** A packet that is completed is longer than any partial header, so the bytes left over are too few. */
  lemma ConsumedMore(f: Framing, carry: octets, chunk: octets)
    requires f.Sound() && |carry| < f.header
    requires Parse(f, carry + chunk).packets != []
    ensures |TailBytes(Parse(f, carry + chunk).tail)| < |chunk|
  {
    ParseConserves(f, carry + chunk);
    var packets := Parse(f, carry + chunk).packets;
    assert Flat(packets) == packets[0] + Flat(packets[1..]) && WellFramed(f, packets[0]);
  }

  // ---------------------------------------------------------------- any sequence of reads

  /** No read brings more than the buffer has room for. */
  predicate Fits(f: Framing, s: State, chunks: seq<octets>)
    requires f.Sound() && s.Valid(f)
    decreases |chunks|
  {
    chunks != [] ==>
      && |chunks[0]| <= s.Room()
      && (FeedValid(f, s, chunks[0]); Fits(f, Feed(f, s, chunks[0]).state, chunks[1..]))
  }

  function FeedAll(f: Framing, s: State, chunks: seq<octets>): Fed
    requires f.Sound() && s.Valid(f) && Fits(f, s, chunks)
    decreases |chunks|
  {
    if chunks == [] then Fed(s, [])
    else
      FeedValid(f, s, chunks[0]);
      var first := Feed(f, s, chunks[0]);
      var rest := FeedAll(f, first.state, chunks[1..]);
      Fed(rest.state, first.packets + rest.packets)
  }

  /** No read leaves a partial header behind something that it consumed. */
  predicate GoodCuts(f: Framing, s: State, chunks: seq<octets>)
    requires f.Sound() && s.Valid(f) && Fits(f, s, chunks)
    decreases |chunks|
  {
    chunks != [] ==>
      && !BadCut(f, s, chunks[0])
      && (FeedValid(f, s, chunks[0]); GoodCuts(f, Feed(f, s, chunks[0]).state, chunks[1..]))
  }

  lemma {:induction false} UnknownStays(f: Framing, before: Parsed, chunks: seq<octets>)
    requires f.Sound() && before.tail.Unknown?
    ensures Continue(f, before, Flat(chunks)).tail.Unknown?
  {
  }

  lemma {:induction false} ContinueSplit(f: Framing, before: Parsed, a: octets, b: octets)
    requires f.Sound() && TailSound(f, before.tail)
    ensures TailSound(f, Continue(f, before, a).tail)
    ensures Continue(f, before, a + b) == Continue(f, Continue(f, before, a), b)
  {
    hide Parse, Resume, Continue;
    var end := Parsed([], before.tail);
    assert before.packets + [] == before.packets;
    ContinueTwice(f, before, a, b);
    ContinueFrom(f, before.packets, end, a);
    ContinueFrom(f, before.packets, end, a + b);
    ContinueFrom(f, before.packets, Continue(f, end, a), b);
  }

  lemma ContinueTwice(f: Framing, before: Parsed, a: octets, b: octets)
    requires f.Sound() && TailSound(f, before.tail)
    ensures var end := Parsed([], before.tail);
            TailSound(f, Continue(f, end, a).tail) && Continue(f, end, a + b) == Continue(f, Continue(f, end, a), b)
  {
    hide Parse, Resume;
    match before.tail
    case Done => ParseSplit(f, a, b);
    case Partial(bytes) =>
      assert bytes + (a + b) == bytes + a + b;
      ParseSplit(f, bytes + a, b);
    case Mid(got, want) =>
      ResumeSplit(f, got, want, a, b);
    case Unknown(bytes) =>
      assert bytes + (a + b) == bytes + a + b;
  }

  lemma ResumeSplit(f: Framing, got: octets, want: nat, a: octets, b: octets)
    requires f.Sound() && TailSound(f, Mid(got, want))
    ensures TailSound(f, Resume(f, got, want, a).tail)
    ensures Resume(f, got, want, a + b) == Continue(f, Resume(f, got, want, a), b)
  {
    hide Parse;
    if |a| >= want {
      assert (a + b)[..want] == a[..want] && (a + b)[want..] == a[want..] + b;
      ParseSplit(f, a[want..], b);
      ContinuePrepend(f, got + a[..want], Parse(f, a[want..]), b);
    } else {
      assert got + (a + b) == got + a + b;
      if |a + b| >= want {
        assert got + (a + b)[..want] == got + a + b[..want - |a|];
        assert (a + b)[want..] == b[want - |a|..];
      }
    }
  }

  lemma {:induction false} FeedAllRefines(f: Framing, before: Parsed, chunks: seq<octets>)
    requires f.Sound() && TailSound(f, before.tail) && !before.tail.Unknown?
    requires StateOf(before.tail).Valid(f) && Fits(f, StateOf(before.tail), chunks)
    requires GoodCuts(f, StateOf(before.tail), chunks)
    requires !Continue(f, before, Flat(chunks)).tail.Unknown?
    ensures var fed, after := FeedAll(f, StateOf(before.tail), chunks), Continue(f, before, Flat(chunks));
            fed.state == StateOf(after.tail) && before.packets + fed.packets == after.packets
    decreases |chunks|
  {
    hide Parse, Resume, Continue, Feed, BadCut;
    if chunks == [] {
      ContinueNothing(f, before);
    } else {
      var s, chunk := StateOf(before.tail), chunks[0];
      var next := Continue(f, before, chunk);
      ContinueSplit(f, before, chunk, Flat(chunks[1..]));
      if next.tail.Unknown? { UnknownStays(f, next, chunks[1..]); }
      FeedValid(f, s, chunk);
      FeedRefines(f, before, chunk);
      FeedAllRefines(f, next, chunks[1..]);
    }
  }

  lemma ContinueNothing(f: Framing, before: Parsed)
    requires f.Sound() && TailSound(f, before.tail)
    ensures Continue(f, before, []) == before
  {
    match before.tail
    case Done =>
    case Partial(bytes) => assert bytes + [] == bytes;
    case Mid(got, want) => assert got + [] == got;
    case Unknown(bytes) => assert bytes + [] == bytes;
  }

  /**
   * However a stream of packets is cut into reads, without bad cuts exactly those packets are
   * delivered, in order, and nothing is left over.
   */
  lemma Reassembled(f: Framing, packets: seq<octets>, chunks: seq<octets>)
    requires f.Sound() && forall k :: 0 <= k < |packets| ==> WellFramed(f, packets[k])
    requires Flat(chunks) == Flat(packets)
    requires Fits(f, Idle([]), chunks) && GoodCuts(f, Idle([]), chunks)
    ensures FeedAll(f, Idle([]), chunks) == Fed(Idle([]), packets)
  {
    hide Parse, FeedAll, GoodCuts, Fits, Flat, WellFramed;
    ParseOfFlat(f, packets);
    assert Continue(f, Parsed([], Done), Flat(chunks)) == Parsed(packets, Done);
    assert StateOf(Done) == Idle([]);
    FeedAllRefines(f, Parsed([], Done), chunks);
  }

  /** The state is right after every read exactly if every cut is good. */
  ghost predicate Tracks(f: Framing, before: Parsed, s: State, chunks: seq<octets>)
    requires f.Sound() && TailSound(f, before.tail) && s.Valid(f) && Fits(f, s, chunks)
    decreases |chunks|
  {
    && s == StateOf(before.tail)
    && (chunks != [] ==>
          (ContinueSplit(f, before, chunks[0], []);
           FeedValid(f, s, chunks[0]);
           Tracks(f, Continue(f, before, chunks[0]), Feed(f, s, chunks[0]).state, chunks[1..])))
  }

  lemma {:induction false} TracksIffGoodCuts(f: Framing, before: Parsed, chunks: seq<octets>)
    requires f.Sound() && TailSound(f, before.tail) && !before.tail.Unknown?
    requires StateOf(before.tail).Valid(f) && Fits(f, StateOf(before.tail), chunks)
    requires !Continue(f, before, Flat(chunks)).tail.Unknown?
    ensures Tracks(f, before, StateOf(before.tail), chunks) <==> GoodCuts(f, StateOf(before.tail), chunks)
    decreases |chunks|
  {
    if chunks != [] {
      var s, chunk := StateOf(before.tail), chunks[0];
      var next := Continue(f, before, chunk);
      ContinueSplit(f, before, chunk, Flat(chunks[1..]));
      if next.tail.Unknown? { UnknownStays(f, next, chunks[1..]); }
      FeedValid(f, s, chunk);
      FeedRefines(f, before, chunk);
      if !BadCut(f, s, chunk) {
        TracksIffGoodCuts(f, next, chunks[1..]);
      }
    }
  }

  /**
   * After a bad cut the buffer is taken to begin with as many octets as the read brought. The next read
   * parses them again, before what it brings itself.
   */
  lemma BadCutReplays(f: Framing, s: State, chunk: octets, second: octets)
    requires f.Sound() && s.Valid(f) && |chunk| <= s.Room() && BadCut(f, s, chunk)
    requires |chunk| + |second| <= BUFFER_SIZE
    ensures var once, stale := Feed(f, s, chunk), Buffered(s, chunk)[..|chunk|];
            && once.packets == ScanFrom(f, s, chunk).packets != []
            && once.state == Idle(stale)
            && Feed(f, once.state, second).packets == Parse(f, stale + second).packets
            && TailSound(f, Parse(f, stale).tail)
            && Parse(f, stale + second) == Continue(f, Parse(f, stale), second)
  {
    hide Parse;
    var stale := Buffered(s, chunk)[..|chunk|];
    ParseSplit(f, stale, second);
  }

  /** Between packets, what lies in those octets was delivered already, and arrives twice. */
  lemma ReplayedTwice(f: Framing, carry: octets, chunk: octets, second: octets)
    requires f.Sound() && |carry| + |chunk| <= BUFFER_SIZE && |chunk| + |second| <= BUFFER_SIZE
    requires BadCut(f, Idle(carry), chunk)
    ensures var once, stale := Feed(f, Idle(carry), chunk), (carry + chunk)[..|chunk|];
            && once.state == Idle(stale)
            && Parse(f, stale).packets <= once.packets
            && Parse(f, stale).packets <= Feed(f, once.state, second).packets
  {
    hide Parse;
    var all := carry + chunk;
    BadCutReplays(f, Idle(carry), chunk, second);
    ParseSplit(f, all[..|chunk|], all[|chunk|..]);
    assert all[..|chunk|] + all[|chunk|..] == all;
  }

  /**
   * Inside a packet, the octets parsed again begin in its middle. Unless they look like a packet, nothing
   * is delivered any more, whatever comes.
   */
  lemma {:induction false} JammedForGood(f: Framing, carry: octets, chunks: seq<octets>)
    requires f.Sound() && |carry| <= BUFFER_SIZE && Fits(f, Idle(carry), chunks)
    requires carry != [] && carry[0] != f.kind
    ensures FeedAll(f, Idle(carry), chunks) == Fed(Idle(carry), [])
    decreases |chunks|
  {
    if chunks != [] {
      assert (carry + chunks[0])[0] == carry[0] && (carry + chunks[0])[..|carry|] == carry;
      JammedForGood(f, carry, chunks[1..]);
    }
  }

  /** A bad cut jams the reader exactly if the read began inside a packet, and not like one. */
  lemma BadCutJams(f: Framing, s: State, chunk: octets)
    requires f.Sound() && s.Valid(f) && |chunk| <= s.Room() && BadCut(f, s, chunk)
    ensures var stale := Buffered(s, chunk)[..|chunk|];
            stale != [] && stale[0] != f.kind <==> s.Within? && chunk[0] != f.kind
  {
    if s.Idle? && chunk != [] {
      assert (s.carry + chunk)[0] == f.kind;
    }
  }

  /** Two commands in two reads, cut inside the second header, arrive as three. */
  lemma BadCutExample(reset: octets, version: octets)
    requires reset == [0x01, 0x03, 0x0c, 0x00] && version == [0x01, 0x01, 0x10, 0x00]
    ensures var first, second := reset + version[..1], version[1..];
            && Parse(COMMAND, first + second) == Parsed([reset, version], Done)
            && FeedAll(COMMAND, Idle([]), [first, second]).packets == [reset, reset, version]
  {
    var first, second := reset + version[..1], version[1..];
    assert first + second == reset + version;
    assert [] + first == first;
    assert [reset, version][1..] == [version];
    assert Flat([version]) == version;
    ParseOfFlat(COMMAND, [reset, version]);
    assert first[..4] == reset && first[4..] == version[..1];
    assert Parse(COMMAND, version[..1]) == Parsed([], Partial(version[..1]));
    assert Parse(COMMAND, first) == Parsed([reset], Partial(version[..1]));
    BadCutReplays(COMMAND, Idle([]), first, second);
    assert first[..|first|] == first;
    var once := Feed(COMMAND, Idle([]), first);
    var twice := Feed(COMMAND, once.state, second);
    assert once == Fed(Idle(first), [reset]) && twice.packets == [reset, version];
    assert [first, second][1..] == [second];
    assert FeedAll(COMMAND, once.state, [second]).packets == twice.packets;
  }
}
