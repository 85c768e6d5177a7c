/** The controller's commands, timers and receiver, which update `struct bt_le` in place. */
module LeController {
  import opened Bytes
  import opened LeLists
  import opened LeScheduler
  import opened LeReceive
  import opened LeStation

  class Controller {
    const ah: Hash
    const white: SlotList
    const resolv: SlotList
    const cache: ScanCache
    var radio: Radio
    var resolvEnable: bool
    /** Bits of the two event masks: advertising reports, and LE events at all. */
    var advReportMasked: bool
    var metaMasked: bool
    var randomAddr: octets
    var advData: octets
    var scanRspData: octets
    /** Every advertising report sent to the host, and every packet sent to others. */
    var reports: seq<Report>
    var air: seq<Packet>

    predicate Valid()
      reads this, white, white.slots, resolv, resolv.slots, cache, cache.peers
    {
      && white.Valid() && resolv.Valid() && cache.Valid() && ParamsInRange(radio)
      && white != resolv && white.slots != resolv.slots
    }

    /** The controller as a value. */
    function Value(): Station
      requires Valid()
      reads this, white, white.slots, resolv, resolv.slots, cache, cache.peers
    {
      Station(ah, radio, resolvEnable, white.slots[..], resolv.slots[..], advReportMasked, metaMasked,
              Own(randomAddr, advData, scanRspData), cache.Contents(), reports, air)
    }

    constructor (ah: Hash)
      ensures Valid() && Value() == PowerOn(ah)
    {
      this.ah := ah;
      white := new SlotList();
      resolv := new SlotList();
      cache := new ScanCache();
      radio := RESET;
      resolvEnable, advReportMasked, metaMasked, reports, air := false, false, true, [], [];
      randomAddr, advData, scanRspData := NO_ADDR, [], [];
    }

    method StartAdvertising(delay: nat, ok: bool) returns (result: bool)
      modifies this`radio
      ensures result == (old(radio).advTimer.None? && ok)
      ensures radio == if result then old(radio).(advTimer := Some(Msec(old(radio).advMin) + delay)) else old(radio)
    {
      if radio.advTimer.Some? { return false; }
      var msec := (radio.advMin * 625) / 1000 + delay;
      if !ok { return false; }
      radio := radio.(advTimer := Some(msec));
      return true;
    }

    method StopAdvertising() returns (result: bool)
      modifies this`radio
      ensures result == old(radio).advTimer.Some? && radio == old(radio).(advTimer := None)
    {
      if radio.advTimer.None? { return false; }
      radio := radio.(advTimer := None);
      return true;
    }

    method StartScanning(ok: bool) returns (result: bool)
      modifies this`radio
      ensures result == (old(radio).scanTimer.None? && ok)
      ensures radio == if result
                       then old(radio).(scanTimer := Some(Msec(old(radio).window)), windowActive := true, channel := 37)
                       else old(radio)
    {
      if radio.scanTimer.Some? { return false; }
      if !ok { return false; }
      radio := radio.(scanTimer := Some((radio.window * 625) / 1000));
      radio := radio.(windowActive := true, channel := 37);
      return true;
    }

    method StopScanning() returns (result: bool)
      modifies this`radio
      ensures result == old(radio).scanTimer.Some?
      ensures radio == if result then old(radio).(scanTimer := None, windowActive := false) else old(radio)
    {
      if radio.scanTimer.None? { return false; }
      radio := radio.(scanTimer := None);
      radio := radio.(windowActive := false);
      return true;
    }

    method CmdSetAdvEnable(enable: uint8, delay: nat, ok: bool) returns (status: uint8)
      requires Valid()
      modifies this`radio
      ensures Valid() && Value() == Act(old(Value()), Schedule(SetAdvEnable(enable, delay, ok)))
      ensures status == On(old(radio), SetAdvEnable(enable, delay, ok)).status
    {
      if enable > 0x01 { return BT_HCI_ERR_INVALID_PARAMETERS; }
      if enable == radio.advEnable { return BT_HCI_ERR_COMMAND_DISALLOWED; }
      var result;
      if enable == 0x01 {
        result := StartAdvertising(delay, ok);
      } else {
        result := StopAdvertising();
      }
      if !result { return BT_HCI_ERR_UNSPECIFIED_ERROR; }
      radio := radio.(advEnable := enable);
      return BT_HCI_ERR_SUCCESS;
    }

    method CmdSetScanEnable(enable: uint8, filterDup: uint8, ok: bool) returns (status: uint8)
      requires Valid()
      modifies this`radio, cache, cache.peers
      ensures Valid() && Value() == Act(old(Value()), Schedule(SetScanEnable(enable, filterDup, ok)))
      ensures status == On(old(radio), SetScanEnable(enable, filterDup, ok)).status
    {
      if enable > 0x01 || filterDup > 0x01 { return BT_HCI_ERR_INVALID_PARAMETERS; }
      if enable == radio.scanEnable { return BT_HCI_ERR_COMMAND_DISALLOWED; }
      cache.Clear();
      var result;
      if enable == 0x01 {
        result := StartScanning(ok);
      } else {
        result := StopScanning();
      }
      if !result { return BT_HCI_ERR_UNSPECIFIED_ERROR; }
      radio := radio.(scanEnable := enable, filterDup := filterDup);
      return BT_HCI_ERR_SUCCESS;
    }

    method CmdSetScanParameters(p: ScanParams) returns (status: uint8)
      requires Valid()
      modifies this`radio
      ensures Valid() && Value() == Act(old(Value()), Schedule(SetScanParams(p)))
      ensures status == On(old(radio), SetScanParams(p)).status
    {
      if radio.scanEnable == 0x01 { return BT_HCI_ERR_COMMAND_DISALLOWED; }
      if p.kind > 0x01 { return BT_HCI_ERR_INVALID_PARAMETERS; }
      if p.interval < 0x0004 || p.interval > 0x4000 { return BT_HCI_ERR_INVALID_PARAMETERS; }
      if p.window < 0x0004 || p.window > 0x4000 { return BT_HCI_ERR_INVALID_PARAMETERS; }
      if p.window > p.interval { return BT_HCI_ERR_INVALID_PARAMETERS; }
      if p.ownType > 0x03 || p.policy > 0x03 { return BT_HCI_ERR_INVALID_PARAMETERS; }
      radio := radio.(scanType := p.kind, interval := p.interval, window := p.window);
      radio := radio.(scanOwnType := p.ownType, scanPolicy := p.policy);
      return BT_HCI_ERR_SUCCESS;
    }

    method CmdSetAdvParameters(p: AdvParams) returns (status: uint8)
      requires Valid()
      modifies this`radio
      ensures Valid() && Value() == Act(old(Value()), Schedule(SetAdvParams(p)))
      ensures status == On(old(radio), SetAdvParams(p)).status
    {
      if radio.advEnable == 0x01 { return BT_HCI_ERR_COMMAND_DISALLOWED; }
      if p.kind == 0x00 {
        if p.min < 0x0020 || p.min > 0x4000 { return BT_HCI_ERR_INVALID_PARAMETERS; }
        if p.max < 0x0020 || p.max > 0x4000 { return BT_HCI_ERR_INVALID_PARAMETERS; }
        if p.min > p.max { return BT_HCI_ERR_INVALID_PARAMETERS; }
      } else if p.kind == 0x01 {
        if p.to.directType > 0x01 { return BT_HCI_ERR_INVALID_PARAMETERS; }
      } else if p.kind == 0x02 || p.kind == 0x03 {
        if p.min < 0x00a0 || p.min > 0x4000 { return BT_HCI_ERR_INVALID_PARAMETERS; }
        if p.max < 0x00a0 || p.max > 0x4000 { return BT_HCI_ERR_INVALID_PARAMETERS; }
        if p.min > p.max { return BT_HCI_ERR_INVALID_PARAMETERS; }
      } else {
        return BT_HCI_ERR_INVALID_PARAMETERS;
      }
      if p.to.ownType > 0x03 { return BT_HCI_ERR_INVALID_PARAMETERS; }
      if p.to.channelMap < 0x01 || p.to.channelMap > 0x07 { return BT_HCI_ERR_INVALID_PARAMETERS; }
      if p.to.policy > 0x03 { return BT_HCI_ERR_INVALID_PARAMETERS; }
      radio := radio.(advMin := p.min, advMax := p.max, advType := p.kind, advTo := p.to);
      return BT_HCI_ERR_SUCCESS;
    }

    /** The next period of `scan_timeout_callback`, and its length. */
    method NextPeriod() returns (msec: nat)
      requires radio.interval >= radio.window
      modifies this`radio
      ensures radio.(scanTimer := Some(msec)) == OnScanTick(old(radio), true)
    {
      if radio.window == radio.interval || !radio.windowActive {
        msec := (radio.window * 625) / 1000;
        radio := radio.(windowActive := true, channel := radio.channel + 1);
        if radio.channel > 39 { radio := radio.(channel := 37); }
      } else {
        var rest: nat := radio.interval - radio.window;
        msec := (rest * 625) / 1000;
        radio := radio.(windowActive := false);
      }
    }

    method ScanTimeoutCallback(ok: bool)
      requires Valid() && Armed(radio.scanTimer)
      modifies this`radio
      ensures Valid() && Value() == Act(old(Value()), Schedule(ScanTick(ok)))
    {
      hide Proper, Msec;
      var msec := NextPeriod();
      radio := radio.(scanTimer := Some(0));
      if !ok {
        radio := radio.(scanEnable := 0x00, windowActive := false);
        return;
      }
      radio := radio.(scanTimer := Some(msec));
    }

    method SendAdvPkt(channel: nat)
      requires Valid()
      modifies this`air
      ensures Valid() && air == old(air) + [AdvPacket(radio, Value().own, channel)]
    {
      var sender := NO_ADDR;
      if radio.advTo.ownType == 0x01 || radio.advTo.ownType == 0x03 { sender := randomAddr; }
      air := air + [Packet(channel, radio.advType, Peer(radio.advTo.ownType, sender),
                           Peer(radio.advTo.directType, radio.advTo.directAddr), advData, scanRspData)];
    }

    /** The packets of `adv_timeout_callback`. */
    method SendOnChannels()
      requires Valid()
      modifies this`air
      ensures Valid() && air == old(air) + AdvPackets(radio, Value().own)
    {
      hide Proper, AdvPacket;
      var channels: int := radio.advTo.channelMap;
      if channels % 2 == 1 { SendAdvPkt(37); }
      if channels / 2 % 2 == 1 { SendAdvPkt(38); }
      if channels / 4 % 2 == 1 { SendAdvPkt(39); }
    }

    method AdvTimeoutCallback(delay: nat, ok: bool)
      requires Valid() && Armed(radio.advTimer)
      modifies this`radio, this`air
      ensures Valid() && Value() == Act(old(Value()), Schedule(AdvTick(delay, ok)))
    {
      hide Proper, AdvPackets;
      SendOnChannels();
      var minMsec, maxMsec := (radio.advMin * 625) / 1000, (radio.advMax * 625) / 1000;
      var msec := (minMsec + maxMsec) / 2 + delay;
      radio := radio.(advTimer := Some(0));
      if !ok {
        radio := radio.(advEnable := 0x00);
        return;
      }
      radio := radio.(advTimer := Some(msec));
    }

    /** `reset_defaults`, as far as single fields go. */
    method ResetFields()
      requires Valid()
      modifies this`radio, this`resolvEnable, this`advReportMasked, this`metaMasked
      modifies this`randomAddr, this`advData, this`scanRspData
      ensures Valid()
      ensures Value() == old(Value()).(radio := RESET.(channel := old(radio).channel), resolving := false,
                                       masked := false, metaMasked := true, own := NOTHING)
    {
      hide Proper;
      radio := RESET.(channel := radio.channel);
      resolvEnable, advReportMasked, metaMasked := false, false, true;
      randomAddr, advData, scanRspData := NO_ADDR, [], [];
    }

    /**
     * `cmd_reset`: stops both timers, and `reset_defaults` empties both lists and masks LE events until
     * the host asks for them. The scan cache is kept.
     */
    method CmdReset()
      requires Valid()
      modifies this, white.slots, resolv.slots
      ensures Valid() && Value() == Act(old(Value()), Schedule(Reset))
    {
      hide Proper, Peers, AllFree;
      var _ := StopAdvertising();
      var _ := StopScanning();
      ResetFields();
      white.Clear();
      resolv.Clear();
    }

    /** `cmd_set_event_mask`, as far as LE events go. */
    method CmdSetEventMask(meta: bool)
      requires Valid()
      modifies this`metaMasked
      ensures Valid() && Value() == Act(old(Value()), SetEventMask(meta))
    {
      metaMasked := !meta;
    }

    /** `cmd_le_set_event_mask`, as far as advertising reports go. */
    method CmdLeSetEventMask(advReports: bool)
      requires Valid()
      modifies this`advReportMasked
      ensures Valid() && Value() == Act(old(Value()), SetLeEventMask(advReports))
    {
      advReportMasked := !advReports;
    }

    method CmdLeSetRandomAddress(random: octets)
      requires Valid()
      modifies this`randomAddr
      ensures Valid() && Value() == Act(old(Value()), SetRandomAddress(random))
    {
      randomAddr := random;
    }

    method CmdLeSetAdvData(length: uint8, data: Data31) returns (status: uint8)
      requires Valid()
      modifies this`advData
      ensures Valid() && Value() == Act(old(Value()), SetAdvData(length, data))
      ensures status == if length > 0x1f then BT_HCI_ERR_INVALID_PARAMETERS else BT_HCI_ERR_SUCCESS
    {
      if length > 0x1f { return BT_HCI_ERR_INVALID_PARAMETERS; }
      advData := data[..length];
      return BT_HCI_ERR_SUCCESS;
    }

    method CmdLeSetScanRspData(length: uint8, data: Data31) returns (status: uint8)
      requires Valid()
      modifies this`scanRspData
      ensures Valid() && Value() == Act(old(Value()), SetScanRspData(length, data))
      ensures status == if length > 0x1f then BT_HCI_ERR_INVALID_PARAMETERS else BT_HCI_ERR_SUCCESS
    {
      if length > 0x1f { return BT_HCI_ERR_INVALID_PARAMETERS; }
      scanRspData := data[..length];
      return BT_HCI_ERR_SUCCESS;
    }

    method CmdLeSetResolvEnable(enable: uint8) returns (status: uint8)
      requires Valid()
      modifies this`resolvEnable
      ensures Valid() && Value() == Act(old(Value()), SetResolvEnable(enable))
      ensures status == if enable > 0x01 then BT_HCI_ERR_INVALID_PARAMETERS else BT_HCI_ERR_SUCCESS
    {
      if enable > 0x01 { return BT_HCI_ERR_INVALID_PARAMETERS; }
      resolvEnable := enable == 0x01;
      return BT_HCI_ERR_SUCCESS;
    }

    method CmdLeAddToWhiteList(kind: uint8, addr: octets) returns (status: uint8)
      requires Valid()
      modifies white.slots
      ensures Valid() && Value() == Act(old(Value()), AddWhite(kind, addr))
      ensures status == Added(old(white.slots[..]), Slot(kind, addr, [])).1
    {
      hide Proper, Added;
      status := white.Add(kind, addr, []);
    }

    method CmdLeRemoveFromWhiteList(kind: uint8, addr: octets) returns (status: uint8)
      requires Valid()
      modifies white.slots
      ensures Valid() && Value() == Act(old(Value()), RemoveWhite(kind, addr))
      ensures status == Removed(old(white.slots[..]), kind, addr).1
    {
      hide Proper, Removed;
      status := white.Remove(kind, addr);
    }

    method CmdLeClearWhiteList()
      requires Valid()
      modifies white.slots
      ensures Valid() && Value() == Act(old(Value()), ClearWhite)
    {
      hide Proper;
      white.Clear();
    }

    method CmdLeAddToResolvList(kind: uint8, addr: octets, keys: octets) returns (status: uint8)
      requires Valid()
      modifies resolv.slots
      ensures Valid() && Value() == Act(old(Value()), AddResolv(kind, addr, keys))
      ensures status == Added(old(resolv.slots[..]), Slot(kind, addr, keys)).1
    {
      hide Proper, Added;
      status := resolv.Add(kind, addr, keys);
    }

    method CmdLeRemoveFromResolvList(kind: uint8, addr: octets) returns (status: uint8)
      requires Valid()
      modifies resolv.slots
      ensures Valid() && Value() == Act(old(Value()), RemoveResolv(kind, addr))
      ensures status == Removed(old(resolv.slots[..]), kind, addr).1
    {
      hide Proper, Removed;
      status := resolv.Remove(kind, addr);
    }

    method CmdLeClearResolvList()
      requires Valid()
      modifies resolv.slots
      ensures Valid() && Value() == Act(old(Value()), ClearResolv)
    {
      hide Proper;
      resolv.Clear();
    }

    /** The checks with which `phy_recv_callback` begins, and the address that it reports. */
    method Screen(pkt: Packet) returns (accepted: bool, peer: Peer)
      requires Valid()
      ensures accepted == Accepts(Value().View(), pkt) && (accepted ==> peer == Sender(Value().View(), pkt))
    {
      hide Resolve;
      peer := pkt.sender;
      if advReportMasked || !radio.windowActive { return false, peer; }
      if radio.channel != pkt.channel { return false, peer; }
      peer := resolv.ResolvePeer(ah, resolvEnable, pkt.sender);
      accepted := true;
      if radio.scanPolicy == 0x01 || radio.scanPolicy == 0x03 {
        PeersCounted(white.slots[..]);
        accepted := white.Contains(peer.kind, peer.addr);
      }
    }

    /** What the white list policies mean for this controller. */
    lemma WhiteListed(pkt: Packet)
      requires Valid() && (radio.scanPolicy == 0x01 || radio.scanPolicy == 0x03)
      ensures var v := Value().View();
              Accepts(v, pkt) <==> !advReportMasked && radio.windowActive && radio.channel == pkt.channel
                                   && Listed(v, pkt.sender) && !Known(v, pkt.sender)
    {
      PeersKinds(white.slots[..]);
      WhiteListPolicy(Value().View(), pkt);
    }

    /** `phy_recv_callback` on an advertising packet. */
    method PhyReceive(pkt: Packet)
      requires Valid()
      modifies this`reports, cache, cache.peers
      ensures Valid() && Value() == Act(old(Value()), Receives(pkt))
    {
      hide Accepts, Sender, Seen, Proper, Peers;
      assert reports + [] == reports;
      var accepted, peer := Screen(pkt);
      if !accepted { return; }
      if radio.filterDup != 0 {
        var report := cache.Add(peer.kind, peer.addr);
        if !report { return; }
      }
      ghost var first, second := Report(pkt.pduType, peer, pkt.data), Report(SCAN_RSP, peer, pkt.response);
      assert [first] + [] == [first] && old(reports) + [first] + [second] == old(reports) + ([first] + [second]);
      if !metaMasked {
        reports := reports + [Report(pkt.pduType, peer, pkt.data)];
      }
      if radio.scanType == 0x00 { return; }
      if !metaMasked {
        reports := reports + [Report(SCAN_RSP, peer, pkt.response)];
      }
    }
  }
}
