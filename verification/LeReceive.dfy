/** What the emulated LE controller reports of the advertising packets that it receives. */
module LeReceive {
  import opened Bytes
  import opened LeLists

  /** An advertising packet on the air, with its scan response. Nothing looks at whom it is for. */
  datatype Packet = Packet(channel: nat, pduType: uint8, sender: Peer, target: Peer, data: octets, response: octets)

  datatype Report = Report(eventType: uint8, peer: Peer, data: octets)

  /** Everything that decides about a report, the cache included. */
  datatype Receiver = Receiver(
    ah: Hash, masked: bool, metaMasked: bool, windowActive: bool, channel: nat, policy: uint8, filterDup: bool,
    active: bool, resolving: bool, resolv: seq<Slot>, white: set<Peer>, whiteFull: bool, cache: seq<Peer>)

  const SCAN_RSP: uint8 := 0x04

  /** `is_in_white_list`, where a free slot stands for an address of type 0xff. */
  predicate Listed(v: Receiver, p: Peer)
  {
    if p.kind == 0xff then p.addr == NO_ADDR && !v.whiteFull else p in v.white
  }

  /** The address under which the sender of a packet is reported. */
  function Sender(v: Receiver, pkt: Packet): Peer { Resolve(v.ah, v.resolving, v.resolv, pkt.sender) }

  /** The packet is received at all, on this channel and from this sender. */
  predicate Accepts(v: Receiver, pkt: Packet)
  {
    && !v.masked && v.windowActive && v.channel == pkt.channel
    && (v.policy == 0x01 || v.policy == 0x03 ==> Listed(v, Sender(v, pkt)))
  }

  /** `phy_recv_callback`: the next cache, and the reports. */
  function Receive(v: Receiver, pkt: Packet): (seq<Peer>, seq<Report>)
  {
    if !Accepts(v, pkt) then (v.cache, [])
    else
      var peer := Sender(v, pkt);
      var (cache, isNew) := if v.filterDup then Seen(v.cache, peer) else (v.cache, true);
      (cache,
       if !isNew || v.metaMasked then []
       else [Report(pkt.pduType, peer, pkt.data)] + if v.active then [Report(SCAN_RSP, peer, pkt.response)] else [])
  }

  /** Some entry of the resolving list holds the key that the address was made with. */
  ghost predicate Known(v: Receiver, p: Peer)
  {
    v.resolving && Resolvable(p) && exists i :: 0 <= i < |v.resolv| && Matches(v.ah, v.resolv[i], p)
  }

  /**
   * A white list policy accepts exactly the listed senders whose key is not known: an identity address
   * is marked as one, and no marked address is ever listed.
   */
  lemma WhiteListPolicy(v: Receiver, pkt: Packet)
    requires v.policy == 0x01 || v.policy == 0x03
    requires forall p :: p in v.white ==> p.kind <= 0x01
    ensures Accepts(v, pkt)
       <==> !v.masked && v.windowActive && v.channel == pkt.channel && Listed(v, pkt.sender) && !Known(v, pkt.sender)
  {
    ResolvedIsIdentity(v.ah, v.resolving, v.resolv, pkt.sender);
  }

  // ---------------------------------------------------------------- a scan session

  /** A packet, with the receiver as it is then; the receiver's cache is the one of the session. */
  datatype Step = Step(v: Receiver, pkt: Packet)

  /** The cache and the reports of a session that begins with `cache`, while the receiver may change all the time. */
  function Session(cache: seq<Peer>, steps: seq<Step>): (seq<Peer>, seq<Report>)
  {
    if steps == [] then (cache, [])
    else
      var (before, reports) := Session(cache, steps[..|steps| - 1]);
      var last := steps[|steps| - 1];
      var (after, more) := Receive(last.v.(cache := before), last.pkt);
      (after, reports + more)
  }

  /** The sender of a packet that is accepted, and whether the host hears of LE events at all. */
  datatype Reception = Reception(peer: Peer, told: bool)

  /** The senders of the packets that are accepted. */
  function Accepted(steps: seq<Step>): seq<Reception>
  {
    if steps == [] then []
    else
      var last := steps[|steps| - 1];
      Accepted(steps[..|steps| - 1])
      + if Accepts(last.v, last.pkt) then [Reception(Sender(last.v, last.pkt), !last.v.metaMasked)] else []
  }

  function PeersOf(seen: seq<Reception>): (peers: seq<Peer>)
    ensures |peers| == |seen| && forall i :: 0 <= i < |peers| ==> peers[i] == seen[i].peer
  {
    seq(|seen|, i requires 0 <= i < |seen| => seen[i].peer)
  }

  /** Those of a sequence of receptions that the duplicate filter lets pass, and that the host is told of. */
  function Passed(seen: seq<Reception>): seq<Peer>
  {
    if seen == [] then []
    else
      var n := |seen| - 1;
      Passed(seen[..n]) + if seen[n].told && ReportedAt(PeersOf(seen), n) then [seen[n].peer] else []
  }

  /** The addresses of the advertising reports, scan responses aside. */
  function Reported(reports: seq<Report>): seq<Peer>
  {
    if reports == [] then []
    else
      var last := reports[|reports| - 1];
      Reported(reports[..|reports| - 1]) + if last.eventType != SCAN_RSP then [last.peer] else []
  }

  lemma {:induction false} ReportedConcat(a: seq<Report>, b: seq<Report>)
    ensures Reported(a + b) == Reported(a) + Reported(b)
  {
    if b == [] {
      assert a + b == a;
    } else {
      var init := b[..|b| - 1];
      assert (a + b)[..|a + b| - 1] == a + init;
      ReportedConcat(a, init);
    }
  }

  lemma OneReported(r: Report, rsp: Report)
    requires r.eventType != SCAN_RSP && rsp.eventType == SCAN_RSP
    ensures Reported([r]) == [r.peer] && Reported([r] + [rsp]) == [r.peer] && Reported([r] + []) == [r.peer]
  {
    assert [r][..0] == [] && ([r] + [rsp])[..1] == [r] && [r] + [] == [r];
  }

  /**
   * With duplicate filtering a session reports exactly the accepted senders that the filter passes:
   * each when it is first received, and the first 64 of them only then. Channel, window, lists, policy
   * and masks may be others for every packet.
   */
  lemma {:induction false} SessionReports(steps: seq<Step>)
    requires forall k :: 0 <= k < |steps| ==> steps[k].v.filterDup && steps[k].pkt.pduType != SCAN_RSP
    ensures Session([], steps).0 == CacheAfter(PeersOf(Accepted(steps)))
    ensures Reported(Session([], steps).1) == Passed(Accepted(steps))
  {
    if steps != [] {
      hide Accepts, Sender, Seen, Receive, Passed, Reported, CacheAfter, PeersOf;
      var n := |steps| - 1;
      SessionReports(steps[..n]);
      var (cache, reports) := Session([], steps[..n]);
      OneMore(Accepted(steps[..n]), steps[n]);
      ReportedConcat(reports, Receive(steps[n].v.(cache := cache), steps[n].pkt).1);
      assert Accepted(steps[..n]) + [] == Accepted(steps[..n]);
    } else {
      NothingReported();
    }
  }

  /** All receptions that the host is told of. */
  function Told(seen: seq<Reception>): seq<Peer>
  {
    if seen == [] then []
    else
      var last := seen[|seen| - 1];
      Told(seen[..|seen| - 1]) + if last.told then [last.peer] else []
  }

  /** Without duplicate filtering every accepted sender is reported every time, and the cache stays as it is. */
  lemma {:induction false} SessionReportsAll(cache: seq<Peer>, steps: seq<Step>)
    requires forall k :: 0 <= k < |steps| ==> !steps[k].v.filterDup && steps[k].pkt.pduType != SCAN_RSP
    ensures Session(cache, steps).0 == cache && Reported(Session(cache, steps).1) == Told(Accepted(steps))
  {
    if steps != [] {
      hide Accepts, Sender, Seen;
      var n := |steps| - 1;
      var v, pkt, before := steps[n].v, steps[n].pkt, Accepted(steps[..n]);
      SessionReportsAll(cache, steps[..n]);
      var (_, reports) := Session(cache, steps[..n]);
      AcceptsSame(v, cache, pkt);
      OneReported(Report(pkt.pduType, Sender(v, pkt), pkt.data), Report(SCAN_RSP, Sender(v, pkt), pkt.response));
      ReportedConcat(reports, Receive(v.(cache := cache), pkt).1);
      assert before + [] == before && Told(before) + [] == Told(before);
      if Accepts(v, pkt) {
        assert Accepted(steps)[..|before|] == before;
      }
    }
  }

  /** Under a white list policy packets whose senders' keys are known then leave no trace in a session. */
  lemma {:induction false} KnownNeverReported(cache: seq<Peer>, steps: seq<Step>)
    requires forall k :: 0 <= k < |steps| ==>
               var v := steps[k].v;
               && (v.policy == 0x01 || v.policy == 0x03) && (forall p :: p in v.white ==> p.kind <= 0x01)
               && Known(v, steps[k].pkt.sender)
    ensures Session(cache, steps) == (cache, [])
  {
    if steps != [] {
      hide Accepts, Sender, Seen, Known;
      var n := |steps| - 1;
      KnownNeverReported(cache, steps[..n]);
      WhiteListPolicy(steps[n].v, steps[n].pkt);
      AcceptsSame(steps[n].v, cache, steps[n].pkt);
      assert Receive(steps[n].v.(cache := cache), steps[n].pkt) == (cache, []);
      assert Session(cache, steps[..n]).1 + [] == [];
    }
  }

  lemma NothingReported()
    ensures Session([], []) == ([], []) && Accepted([]) == [] && PeersOf([]) == [] && CacheAfter([]) == []
    ensures Reported([]) == Passed([]) == []
  {
  }

  /** What one more packet does to the cache and the reports of a session. */
  lemma OneMore(before: seq<Reception>, step: Step)
    requires step.v.filterDup && step.pkt.pduType != SCAN_RSP
    ensures var (cache, reports) := Receive(step.v.(cache := CacheAfter(PeersOf(before))), step.pkt);
            var seen := before + (if Accepts(step.v, step.pkt)
                                  then [Reception(Sender(step.v, step.pkt), !step.v.metaMasked)] else []);
            cache == CacheAfter(PeersOf(seen)) && Passed(before) + Reported(reports) == Passed(seen)
  {
    var v, pkt := step.v, step.pkt;
    var v' := v.(cache := CacheAfter(PeersOf(before)));
    AcceptsSame(v, v'.cache, pkt);
    hide Accepts, Sender, Seen;
    if Accepts(v, pkt) {
      var peer := Sender(v, pkt);
      var seen := before + [Reception(peer, !v.metaMasked)];
      var n := |before|;
      assert seen[..n] == before && seen[n].peer == peer;
      assert PeersOf(seen)[..n] == PeersOf(before);
      OneReported(Report(pkt.pduType, peer, pkt.data), Report(SCAN_RSP, peer, pkt.response));
      assert Passed(before) + [] == Passed(before);
    } else {
      assert before + [] == before && Passed(before) + [] == Passed(before);
    }
  }

  lemma AcceptsSame(v: Receiver, cache: seq<Peer>, pkt: Packet)
    ensures Accepts(v.(cache := cache), pkt) == Accepts(v, pkt) && Sender(v.(cache := cache), pkt) == Sender(v, pkt)
  {
    hide Resolve;
  }

  // ---------------------------------------------------------------- what the host is told, packet by packet

  /** The first 64 of some addresses. */
  function First64(peers: seq<Peer>): seq<Peer> { if |peers| <= 64 then peers else peers[..64] }

  /** A sender is passed over if it is among the first 64 that were received before. */
  predicate New(before: seq<Reception>, peer: Peer) { peer !in First64(Distinct(PeersOf(before))) }

  /** An advertising report, and in active scanning the scan response, if LE events are asked for. */
  function Says(v: Receiver, pkt: Packet): seq<Report>
  {
    if v.metaMasked then []
    else if v.active then
      [Report(pkt.pduType, Sender(v, pkt), pkt.data), Report(0x04, Sender(v, pkt), pkt.response)]
    else [Report(pkt.pduType, Sender(v, pkt), pkt.data)]
  }

  /** Every report of a session: those of each accepted packet whose sender is new, if that matters. */
  function Heard(steps: seq<Step>, filter: bool): seq<Report>
  {
    if steps == [] then []
    else
      var before, last := steps[..|steps| - 1], steps[|steps| - 1];
      Heard(before, filter)
      + if Accepts(last.v, last.pkt) && (filter ==> New(Accepted(before), Sender(last.v, last.pkt)))
        then Says(last.v, last.pkt) else []
  }

  predicate SameFilter(steps: seq<Step>, filter: bool)
  {
    forall k :: 0 <= k < |steps| ==> steps[k].v.filterDup == filter
  }

  lemma NewIsReported(peers: seq<Peer>, peer: Peer)
    ensures Seen(CacheAfter(peers), peer).1 <==> peer !in First64(Distinct(peers))
    ensures Seen(CacheAfter(peers), peer).0 == CacheAfter(peers + [peer])
  {
    CacheIsFirst64(peers);
    assert CacheAfter(peers) == First64(Distinct(peers));
    assert (peers + [peer])[..|peers|] == peers;
    hide First64, Distinct;
  }

  lemma PacketSays(cache: seq<Peer>, step: Step)
    ensures var (after, more) := Receive(step.v.(cache := cache), step.pkt);
            var peer := Sender(step.v, step.pkt);
            if !Accepts(step.v, step.pkt) then (after, more) == (cache, [])
            else if !step.v.filterDup then (after, more) == (cache, Says(step.v, step.pkt))
            else after == Seen(cache, peer).0 && more == if Seen(cache, peer).1 then Says(step.v, step.pkt) else []
  {
    hide Accepts, Sender, Seen;
    AcceptsSame(step.v, cache, step.pkt);
    var v, pkt := step.v, step.pkt;
    var first, second := Report(pkt.pduType, Sender(v, pkt), pkt.data), Report(0x04, Sender(v, pkt), pkt.response);
    assert [first] + [second] == [first, second] && [first] + [] == [first];
  }

  /** A session tells the host exactly that, and keeps the first 64 senders if it filters. */
  lemma {:induction false} SessionSays(steps: seq<Step>, filter: bool)
    requires SameFilter(steps, filter)
    ensures Session([], steps) == (if filter then CacheAfter(PeersOf(Accepted(steps))) else [], Heard(steps, filter))
  {
    if steps == [] {
      assert PeersOf(Accepted(steps)) == [];
    } else {
      hide Accepts, Sender, Seen, Receive, Says, CacheAfter, Distinct, First64;
      var before, last := steps[..|steps| - 1], steps[|steps| - 1];
      var peer := Sender(last.v, last.pkt);
      SessionSays(before, filter);
      PacketSays(Session([], before).0, last);
      NewIsReported(PeersOf(Accepted(before)), peer);
      assert PeersOf(Accepted(before) + [Reception(peer, !last.v.metaMasked)]) == PeersOf(Accepted(before)) + [peer];
      assert Accepted(before) + [] == Accepted(before);
    }
  }
}
