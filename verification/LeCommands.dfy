/** What the controller's commands and timers mean, in milliseconds, addresses and status codes. */
module LeCommands {
  import opened Bytes
  import opened LeLists
  import opened LeScheduler
  import opened LeReceive
  import opened LeStation

  // ---------------------------------------------------------------- address lists

  /** A list command answers by what is listed: 16 addresses at most, each once, public or random. */
  lemma AddAnswered(slots: seq<Slot>, s: Slot)
    requires Proper(slots) && |slots| == 16
    ensures var (after, status) := Added(slots, s);
            && Peers(after) == (if status == 0x00 then Peers(slots) + {Peer(s.kind, s.addr)} else Peers(slots))
            && status == if s.kind > 1 then 0x12
                         else if Peer(s.kind, s.addr) in Peers(slots) then 0x1f
                         else if |Peers(slots)| == 16 then 0x07
                         else 0x00
  {
    hide Peers, Proper, Added;
    AddedToSet(slots, s);
  }

  lemma RemoveAnswered(slots: seq<Slot>, kind: uint8, addr: octets)
    requires Proper(slots)
    ensures var (after, status) := Removed(slots, kind, addr);
            && Peers(after) == (if status == 0x00 then Peers(slots) - {Peer(kind, addr)} else Peers(slots))
            && status == if kind > 1 || Peer(kind, addr) !in Peers(slots) then 0x12 else 0x00
  {
    hide Peers, Proper, Removed;
    RemovedFromSet(slots, kind, addr);
  }

  /** An entry of the resolving list: an identity address and the peer's key, with the local one behind it. */
  function Entry(kind: uint8, id: octets, peerIrk: octets, localIrk: octets): Slot
  {
    Slot(kind, id, peerIrk + localIrk)
  }

  /** A resolvable private address: the hash of three random octets under a key, then these octets. */
  function Private(ah: Hash, irk: octets, prand: octets): Peer { Peer(0x01, ah(irk, prand) + prand) }

  /** Three octets that mark an address as resolvable: the two highest bits are 0 and 1. */
  predicate Marked(prand: octets) { |prand| == 3 && 0x40 <= prand[2] < 0x80 }

  /** No entry before the one at `k` holds a key under which the three octets have this hash. */
  predicate NoneBefore(ah: Hash, slots: seq<Slot>, k: nat, prand: octets, hash: octets)
    requires k <= |slots|
  {
    forall j :: 0 <= j < k ==> slots[j].kind > 1 || |slots[j].keys| != 32 || ah(slots[j].keys[..16], prand) != hash
  }

  /** An address made with the peer key of an entry is taken for that entry's identity, marked by 2. */
  lemma {:induction false} PrivateResolved(ah: Hash, slots: seq<Slot>, k: nat, kind: uint8, id: octets,
                                           irk: octets, local: octets, prand: octets)
    requires k < |slots| && kind <= 1 && |irk| == |local| == 16 && Marked(prand) && |ah(irk, prand)| == 3
    requires slots[k] == Entry(kind, id, irk, local) && NoneBefore(ah, slots, k, prand, ah(irk, prand))
    ensures Resolve(ah, true, slots, Private(ah, irk, prand)) == Peer(kind + 2, id)
    decreases k
  {
    var p := Private(ah, irk, prand);
    assert p.addr[..3] == ah(irk, prand) && p.addr[3..] == prand && p.addr[5] == prand[2];
    if k == 0 {
      assert (irk + local)[..16] == irk;
    } else {
      PrivateResolved(ah, slots[1..], k - 1, kind, id, irk, local, prand);
    }
  }

  /** Any other address stays what it is. */
  lemma {:induction false} OthersUnresolved(ah: Hash, enabled: bool, slots: seq<Slot>, p: Peer)
    requires !enabled || p.kind != 1 || |p.addr| != 6 || !Marked(p.addr[3..])
             || NoneBefore(ah, slots, |slots|, p.addr[3..], p.addr[..3])
    ensures Resolve(ah, enabled, slots, p) == p
    decreases |slots|
  {
    if enabled && p.kind == 1 && |p.addr| == 6 && Marked(p.addr[3..]) && slots != [] {
      assert !Matches(ah, slots[0], p);
      OthersUnresolved(ah, enabled, slots[1..], p);
    }
  }

  // ---------------------------------------------------------------- parameters

  /** In microseconds. */
  function Micros(units: uint16): nat { units * 625 }

  /** From the shortest interval allowed to 10.24 s, and in order. */
  predicate Interval(min: uint16, max: uint16, shortest: nat)
  {
    shortest <= Micros(min) <= Micros(max) <= 10_240_000
  }

  /** Undirected advertising from 20 ms, scannable and non-connectable from 100 ms; directed has no interval. */
  predicate AdvAllowed(p: AdvParams)
  {
    && ((p.kind == 0 && Interval(p.min, p.max, 20_000)) || (p.kind == 1 && p.to.directType <= 1)
        || ((p.kind == 2 || p.kind == 3) && Interval(p.min, p.max, 100_000)))
    && p.to.ownType <= 3 && p.to.policy <= 3 && 1 <= p.to.channelMap <= 7
  }

  /** A window from 2.5 ms within an interval up to 10.24 s. */
  predicate ScanAllowed(p: ScanParams)
  {
    2_500 <= Micros(p.window) <= Micros(p.interval) <= 10_240_000 && p.kind <= 1 && p.ownType <= 3 && p.policy <= 3
  }

  /** Parameters are refused while advertising is on, or if they are not allowed; else all of them are taken. */
  lemma AdvParamsTaken(r: Radio, p: AdvParams)
    requires ParamsInRange(r)
    ensures var done := On(r, SetAdvParams(p));
            && done.status == (if r.advEnable == 1 then 0x0c else if !AdvAllowed(p) then 0x12 else 0x00)
            && (done.status != 0x00 ==> done.radio == r)
            && (done.status == 0x00 ==>
                  && done.radio.advMin == p.min && done.radio.advMax == p.max && done.radio.advType == p.kind
                  && done.radio.advTo == p.to
                  && done.radio == r.(advMin := done.radio.advMin, advMax := done.radio.advMax,
                                      advType := done.radio.advType, advTo := done.radio.advTo))
  {
  }

  lemma ScanParamsTaken(r: Radio, p: ScanParams)
    requires ParamsInRange(r)
    ensures var done := On(r, SetScanParams(p));
            && done.status == (if r.scanEnable == 1 then 0x0c else if !ScanAllowed(p) then 0x12 else 0x00)
            && (done.status != 0x00 ==> done.radio == r)
            && (done.status == 0x00 ==>
                  && done.radio.interval == p.interval && done.radio.window == p.window
                  && done.radio.scanType == p.kind && done.radio.scanOwnType == p.ownType
                  && done.radio.scanPolicy == p.policy
                  && done.radio == r.(interval := done.radio.interval, window := done.radio.window,
                                      scanType := done.radio.scanType, scanOwnType := done.radio.scanOwnType,
                                      scanPolicy := done.radio.scanPolicy))
  {
  }

  // ---------------------------------------------------------------- enabling and disabling

  /** Whole milliseconds of so many units. */
  function Millis(units: nat): nat { units * 625 / 1000 }

  /**
   * Advertising goes on and off exactly if that is a change, and if there is no timer for it yet, or one to
   * stop; the first event comes after the shorter interval and the delay.
   */
  lemma AdvEnableAnswered(r: Radio, enable: uint8, delay: nat, ok: bool)
    requires ParamsInRange(r)
    ensures var done := On(r, SetAdvEnable(enable, delay, ok));
            var can := if enable == 1 then r.advTimer == None && ok else r.advTimer != None;
            && done.status == (if enable > 1 then 0x12 else if enable == r.advEnable then 0x0c
                               else if !can then 0x1f else 0x00)
            && done.radio == if done.status != 0x00 then r
                             else if enable == 1 then r.(advEnable := 1, advTimer := Some(Millis(r.advMin) + delay))
                             else r.(advEnable := 0, advTimer := None)
  {
  }

  /** The same for scanning, which opens its first window at once, on channel 37. */
  lemma ScanEnableAnswered(r: Radio, enable: uint8, dup: uint8, ok: bool)
    requires ParamsInRange(r)
    ensures var done := On(r, SetScanEnable(enable, dup, ok));
            var can := if enable == 1 then r.scanTimer == None && ok else r.scanTimer != None;
            && done.status == (if enable > 1 || dup > 1 then 0x12 else if enable == r.scanEnable then 0x0c
                               else if !can then 0x1f else 0x00)
            && done.radio == if done.status != 0x00 then r
                             else if enable == 1 then
                               r.(scanEnable := 1, filterDup := dup, scanTimer := Some(Millis(r.window)),
                                  windowActive := true, channel := 37)
                             else r.(scanEnable := 0, filterDup := dup, scanTimer := None, windowActive := false)
  {
  }

  /** Advertising events follow each other at the mean of the two intervals, and the delay. */
  lemma NextEvent(r: Radio, delay: nat, ok: bool)
    requires ParamsInRange(r) && r.advTimer.Some? && r.advTimer.value > 0
    ensures On(r, AdvTick(delay, ok)).radio
         == if ok then r.(advTimer := Some((Millis(r.advMin) + Millis(r.advMax)) / 2 + delay))
            else r.(advTimer := Some(0), advEnable := 0)
  {
  }

  /** The scanner's next period: the window of the next channel, or what the interval leaves behind a window. */
  lemma NextPeriod(r: Radio, ok: bool)
    requires ParamsInRange(r) && r.scanTimer.Some? && r.scanTimer.value > 0 && 37 <= r.channel <= 39
    ensures var after, opens := On(r, ScanTick(ok)).radio, !r.windowActive || r.window == r.interval;
            && after.channel == (if !opens then r.channel else if r.channel == 39 then 37 else r.channel + 1)
            && after == if !ok then
                          r.(scanTimer := Some(0), scanEnable := 0, windowActive := false, channel := after.channel)
                        else
                          r.(scanTimer := Some(Millis(if opens then r.window else r.interval - r.window)),
                             windowActive := opens, channel := after.channel)
  {
  }

  // ---------------------------------------------------------------- power-up and reset

  /** Nothing is on; advertising would come every 1.28 s, scanning would be passive, with windows of 10 ms on end. */
  predicate AtRest(r: Radio)
  {
    && r.advEnable == 0 && r.advTimer == None && r.scanEnable == 0 && r.scanTimer == None && !r.windowActive
    && Micros(r.advMin) == Micros(r.advMax) == 1_280_000 && r.advType == 0
    && r.advTo == AdvTarget(0, 0, [0, 0, 0, 0, 0, 0], 7, 0)
    && Micros(r.interval) == Micros(r.window) == 10_000
    && r.filterDup == 0 && r.scanType == 0 && r.scanOwnType == 0 && r.scanPolicy == 0
  }

  /** A reset leaves the controller as it comes up, but for the scan channel, the cache and what was said. */
  lemma ResetToRest(s: Station)
    requires s.Valid()
    ensures var t := Act(s, Schedule(Reset));
            && AtRest(t.radio) && Peers(t.white) == {} && Peers(t.resolv) == {} && !t.resolving
            && !t.masked && t.metaMasked && t.own == Own([0, 0, 0, 0, 0, 0], [], [])
            && t == PowerOn(s.ah).(radio := t.radio, cache := s.cache, reports := s.reports, air := s.air)
            && t.radio == PowerOn(s.ah).radio.(channel := s.radio.channel)
    ensures On(s.radio, Reset).status == 0x00
  {
    hide Proper, Peers;
    PeersOfFree(AllFree(LIST_SIZE));
  }

  // ---------------------------------------------------------------- masks and data

  /**
   * Without LE events in the event mask nothing is reported, though packets are taken; without advertising
   * reports in the LE event mask they are not even taken.
   */
  lemma MaskedReports(s: Station, pkt: Packet)
    requires s.Valid()
    ensures Act(Act(s, SetEventMask(false)), Receives(pkt)).reports == s.reports
    ensures Act(Act(s, SetEventMask(true)), Receives(pkt)) == Act(s.(metaMasked := false), Receives(pkt))
    ensures Act(Act(s, SetLeEventMask(false)), Receives(pkt)) == Act(s, SetLeEventMask(false))
    ensures Act(s, SetLeEventMask(true)) == s.(masked := false)
  {
    hide Sender, Proper, Peers, Seen;
    assert s.reports + [] == s.reports;
  }

  /** Address resolution goes on and off, and data of up to 31 octets is what is advertised from then on. */
  lemma SettingsTaken(s: Station, enable: uint8, length: uint8, data: Data31, random: octets)
    requires s.Valid()
    ensures Act(s, SetResolvEnable(enable)) == if enable > 1 then s else s.(resolving := enable == 1)
    ensures length <= 31 ==>
              Act(s, SetAdvData(length, data)).own == Own(s.own.randomAddr, data[..length], s.own.scanRsp)
    ensures length <= 31 ==>
              Act(s, SetScanRspData(length, data)).own == Own(s.own.randomAddr, s.own.advData, data[..length])
    ensures length > 31 ==> Act(s, SetAdvData(length, data)) == Act(s, SetScanRspData(length, data)) == s
    ensures Act(s, SetRandomAddress(random)).own == Own(random, s.own.advData, s.own.scanRsp)
  {
  }
}
