/** One controller advertises and another scans: what of an advertising event is reported. */
module LeAir {
  import opened Bytes
  import opened LeLists
  import opened LeScheduler
  import opened LeReceive
  import opened LeStation

  /** Channels 37, 38 and 39 are the three lowest bits of the channel map. */
  predicate Mapped(bits: uint8, channel: nat)
  {
    || (channel == 37 && bits % 8 in {1, 3, 5, 7})
    || (channel == 38 && bits % 8 in {2, 3, 6, 7})
    || (channel == 39 && bits % 8 in {4, 5, 6, 7})
  }

  /** The address that an advertiser goes by: its random one for the types 1 and 3, else the null address. */
  function Name(adv: Station): Peer
  {
    var kind := adv.radio.advTo.ownType;
    Peer(kind, if kind == 1 || kind == 3 then adv.own.randomAddr else [0, 0, 0, 0, 0, 0])
  }

  /** The packet that an advertiser sends on a channel. */
  function OnChannel(adv: Station, channel: nat): Packet
  {
    Packet(channel, adv.radio.advType, Name(adv), Peer(adv.radio.advTo.directType, adv.radio.advTo.directAddr),
           adv.own.advData, adv.own.scanRsp)
  }

  function Once(yes: bool, pkt: Packet): seq<Packet> { if yes then [pkt] else [] }

  /** One packet on every channel of the map, lowest first. */
  function EventPackets(adv: Station): seq<Packet>
  {
    var bits := adv.radio.advTo.channelMap;
    Once(Mapped(bits, 37), OnChannel(adv, 37)) + Once(Mapped(bits, 38), OnChannel(adv, 38))
    + Once(Mapped(bits, 39), OnChannel(adv, 39))
  }

  lemma MapBits(m: uint8)
    ensures Mapped(m, 37) <==> (m as int) % 2 == 1
    ensures Mapped(m, 38) <==> (m as int) / 2 % 2 == 1
    ensures Mapped(m, 39) <==> (m as int) / 4 % 2 == 1
  {
    var low: int := m % 8;
    assert m == 8 * (m / 8) + low;
    assert low == 0 || low == 1 || low == 2 || low == 3 || low == 4 || low == 5 || low == 6 || low == 7;
  }

  lemma PacketsOfEvent(adv: Station)
    ensures AdvPackets(adv.radio, adv.own) == EventPackets(adv)
  {
    hide Mapped, Name, SenderAddr;
    MapBits(adv.radio.advTo.channelMap);
    SamePacket(adv, 37);
    SamePacket(adv, 38);
    SamePacket(adv, 39);
  }

  lemma SamePacket(adv: Station, channel: nat)
    ensures AdvPacket(adv.radio, adv.own, channel) == OnChannel(adv, channel)
  {
  }

  /** Whether or not the timer can be set again, a tick of it sends these packets. */
  lemma EventSends(adv: Station, delay: nat, ok: bool)
    requires adv.Valid() && Armed(adv.radio.advTimer)
    ensures Act(adv, Schedule(AdvTick(delay, ok))).air == adv.air + EventPackets(adv)
  {
    hide AdvPackets, EventPackets, Proper;
    PacketsOfEvent(adv);
  }

  function ReceiveEach(packets: seq<Packet>): (inputs: seq<Input>)
    ensures |inputs| == |packets|
  {
    seq(|packets|, i requires 0 <= i < |packets| => Receives(packets[i]))
  }

  lemma OffChannel(scan: Station, pkt: Packet)
    requires scan.Valid() && pkt.channel != scan.radio.channel
    ensures Act(scan, Receives(pkt)) == scan
  {
    hide Sender, Proper, Peers;
    assert scan.reports + [] == scan.reports;
  }

  lemma ReceiveLast(scan: Station, packets: seq<Packet>, pkt: Packet)
    requires scan.Valid()
    ensures ActAll(scan, ReceiveEach(packets)).Valid()
    ensures ActAll(scan, ReceiveEach(packets + [pkt])) == Act(ActAll(scan, ReceiveEach(packets)), Receives(pkt))
  {
    hide Act, Station.Valid;
    AllValid(scan, ReceiveEach(packets));
    var all := ReceiveEach(packets + [pkt]);
    assert all[..|all| - 1] == ReceiveEach(packets) && all[|all| - 1] == Receives(pkt);
  }

  /** Receiving one packet or none of a channel. */
  lemma ReceiveOnce(scan: Station, before: seq<Packet>, yes: bool, pkt: Packet)
    requires scan.Valid()
    ensures ActAll(scan, ReceiveEach(before)).Valid()
    ensures ActAll(scan, ReceiveEach(before + Once(yes, pkt)))
         == if yes then Act(ActAll(scan, ReceiveEach(before)), Receives(pkt)) else ActAll(scan, ReceiveEach(before))
  {
    hide Act, Station.Valid;
    if yes {
      ReceiveLast(scan, before, pkt);
    } else {
      AllValid(scan, ReceiveEach(before));
      assert before + [] == before;
    }
  }

  /** Of a whole advertising event a scanner takes at most the packet on its channel. */
  lemma EventReceived(adv: Station, scan: Station)
    requires scan.Valid()
    ensures ActAll(scan, ReceiveEach(EventPackets(adv)))
         == if Mapped(adv.radio.advTo.channelMap, scan.radio.channel)
            then Act(scan, Receives(OnChannel(adv, scan.radio.channel))) else scan
  {
    var bits := adv.radio.advTo.channelMap;
    var (p37, p38, p39) := (OnChannel(adv, 37), OnChannel(adv, 38), OnChannel(adv, 39));
    var a := Once(Mapped(bits, 37), p37);
    var b := a + Once(Mapped(bits, 38), p38);
    hide Act, ActAll, Once, OnChannel;
    assert [] + a == a;
    NothingYet(scan);
    ReceiveOnce(scan, [], Mapped(bits, 37), p37);
    ReceiveOnce(scan, a, Mapped(bits, 38), p38);
    ReceiveOnce(scan, b, Mapped(bits, 39), p39);
    ChannelOf(adv, 37);
    ChannelOf(adv, 38);
    ChannelOf(adv, 39);
    SkipsOthers(scan, p37);
    SkipsOthers(scan, p38);
    SkipsOthers(scan, p39);
    TakesKeepChannel(scan, p37);
    TakesKeepChannel(scan, p38);
  }

  lemma NothingYet(scan: Station)
    requires scan.Valid()
    ensures ActAll(scan, ReceiveEach([])) == scan
  {
  }

  lemma ChannelOf(adv: Station, channel: nat)
    ensures OnChannel(adv, channel).channel == channel
  {
  }

  lemma SkipsOthers(scan: Station, pkt: Packet)
    requires scan.Valid()
    ensures pkt.channel != scan.radio.channel ==> Act(scan, Receives(pkt)) == scan
  {
    hide Act;
    if pkt.channel != scan.radio.channel { OffChannel(scan, pkt); }
  }

  /** Whatever was taken, a packet on another channel changes nothing after it. */
  lemma TakesKeepChannel(scan: Station, pkt: Packet)
    requires scan.Valid()
    ensures var t := Act(scan, Receives(pkt));
            t.Valid() && t.radio == scan.radio
            && forall other: Packet :: other.channel != scan.radio.channel ==> Act(t, Receives(other)) == t
  {
    hide Receive, Proper, Peers;
    ActKeeps(scan, Receives(pkt));
    var t := Act(scan, Receives(pkt));
    forall other: Packet | other.channel != scan.radio.channel ensures Act(t, Receives(other)) == t {
      OffChannel(t, other);
    }
  }

  /** A scanner in its window that takes everything, and whose host asked for reports. */
  predicate Open(scan: Station)
  {
    && scan.Valid() && !scan.masked && !scan.metaMasked && scan.radio.windowActive
    && (scan.radio.scanPolicy == 0 || scan.radio.scanPolicy == 2) && scan.radio.filterDup == 0 && !scan.resolving
  }

  /**
   * An advertising event is heard once, if its channel map has the scanner's channel: its type, the name and
   * the data of the advertiser, and its scan response too in active scanning. Whom it is directed at
   * does not matter.
   */
  lemma EventHeard(adv: Station, scan: Station)
    requires Open(scan)
    ensures var heard := ActAll(scan, ReceiveEach(EventPackets(adv))).reports;
            heard == scan.reports
                     + if !Mapped(adv.radio.advTo.channelMap, scan.radio.channel) then []
                       else if scan.radio.scanType == 0 then [Report(adv.radio.advType, Name(adv), adv.own.advData)]
                       else [Report(adv.radio.advType, Name(adv), adv.own.advData),
                             Report(0x04, Name(adv), adv.own.scanRsp)]
  {
    EventReceived(adv, scan);
    var pkt := OnChannel(adv, scan.radio.channel);
    hide EventPackets, Mapped, Name, Proper, Peers, ActAll;
    assert scan.reports + [] == scan.reports;
    var first, second := Report(pkt.pduType, pkt.sender, pkt.data), Report(0x04, pkt.sender, pkt.response);
    assert [first] + [second] == [first, second] && [first] + [] == [first];
  }
}
