/**
 * The emulated LE controller as one value: scheduler, address lists, masks, scan cache, what it advertises,
 * and all that it reported and sent.
 */
module LeStation {
  import opened Bytes
  import opened LeLists
  import opened LeScheduler
  import opened LeReceive

  /** What a controller advertises; its public address is never set. */
  datatype Own = Own(randomAddr: octets, advData: octets, scanRsp: octets)

  const NOTHING := Own(NO_ADDR, [], [])

  /** `reports` is all that the host was told, and `air` all that was sent. */
  datatype Station = Station(
    ah: Hash, radio: Radio, resolving: bool, white: seq<Slot>, resolv: seq<Slot>, masked: bool, metaMasked: bool,
    own: Own, cache: seq<Peer>, reports: seq<Report>, air: seq<Packet>)
  {
    predicate Valid()
    {
      ParamsInRange(radio) && Proper(white) && Proper(resolv) && |white| == |resolv| == LIST_SIZE
    }

    /** What decides about a packet. */
    function View(): Receiver
    {
      Receiver(ah, masked, metaMasked, radio.windowActive, radio.channel, radio.scanPolicy, radio.filterDup != 0,
               radio.scanType != 0, resolving, resolv, Peers(white), |Peers(white)| == LIST_SIZE, cache)
    }
  }

  /** `bt_le_new`: advertising reports are asked for, but LE events are masked. */
  function PowerOn(ah: Hash): Station
  {
    Station(ah, RESET, false, AllFree(LIST_SIZE), AllFree(LIST_SIZE), false, true, NOTHING, [], [], [])
  }

  /** The 31 octets of data that a command brings. */
  type Data31 = s: octets | |s| == 31 witness seq(31, _ => 0)

  /** Everything that reaches the controller: commands and timers, masks, list commands, and packets. */
  datatype Input =
    | Schedule(e: Event)
    | SetEventMask(meta: bool)
    | SetLeEventMask(advReports: bool)
    | SetResolvEnable(enable: uint8)
    | AddWhite(kind: uint8, addr: octets)
    | RemoveWhite(kind: uint8, addr: octets)
    | ClearWhite
    | AddResolv(kind: uint8, addr: octets, keys: octets)
    | RemoveResolv(kind: uint8, addr: octets)
    | ClearResolv
    | SetRandomAddress(random: octets)
    | SetAdvData(length: uint8, data: Data31)
    | SetScanRspData(length: uint8, data: Data31)
    | Receives(pkt: Packet)

  /** The address that `send_adv_pkt` puts into a packet. */
  function SenderAddr(ownType: uint8, own: Own): octets
  {
    if ownType == 0x01 || ownType == 0x03 then own.randomAddr else NO_ADDR
  }

  /** `send_adv_pkt`. */
  function AdvPacket(r: Radio, own: Own, channel: nat): Packet
  {
    Packet(channel, r.advType, Peer(r.advTo.ownType, SenderAddr(r.advTo.ownType, own)),
           Peer(r.advTo.directType, r.advTo.directAddr), own.advData, own.scanRsp)
  }

  /** The packets of one advertising event: one for every channel of the map. */
  function AdvPackets(r: Radio, own: Own): seq<Packet>
  {
    var channels: int := r.advTo.channelMap;
    (if channels % 2 == 1 then [AdvPacket(r, own, 37)] else [])
    + (if channels / 2 % 2 == 1 then [AdvPacket(r, own, 38)] else [])
    + (if channels / 4 % 2 == 1 then [AdvPacket(r, own, 39)] else [])
  }

  /** `cmd_le_set_scan_enable` gets as far as `clear_scan_cache`. */
  predicate EmptiesCache(r: Radio, e: Event)
  {
    e.SetScanEnable? && e.scanEnable <= 0x01 && e.filterDup <= 0x01 && e.scanEnable != r.scanEnable
  }

  function Scheduled(s: Station, e: Event): Station
    requires s.Valid()
  {
    var r := On(s.radio, e).radio;
    if e.Reset? then
      s.(radio := r, resolving := false, white := AllFree(LIST_SIZE), resolv := AllFree(LIST_SIZE),
         masked := false, metaMasked := true, own := NOTHING)
    else
      s.(radio := r, cache := if EmptiesCache(s.radio, e) then [] else s.cache,
         air := s.air + if e.AdvTick? && Armed(s.radio.advTimer) then AdvPackets(s.radio, s.own) else [])
  }

  function Act(s: Station, i: Input): Station
    requires s.Valid()
  {
    match i
    case Schedule(e) => Scheduled(s, e)
    case SetEventMask(meta) => s.(metaMasked := !meta)
    case SetLeEventMask(advReports) => s.(masked := !advReports)
    case SetResolvEnable(enable) => if enable > 0x01 then s else s.(resolving := enable == 0x01)
    case AddWhite(kind, addr) => s.(white := Added(s.white, Slot(kind, addr, [])).0)
    case RemoveWhite(kind, addr) => s.(white := Removed(s.white, kind, addr).0)
    case ClearWhite => s.(white := AllFree(LIST_SIZE))
    case AddResolv(kind, addr, keys) => s.(resolv := Added(s.resolv, Slot(kind, addr, keys)).0)
    case RemoveResolv(kind, addr) => s.(resolv := Removed(s.resolv, kind, addr).0)
    case ClearResolv => s.(resolv := AllFree(LIST_SIZE))
    case SetRandomAddress(random) => s.(own := s.own.(randomAddr := random))
    case SetAdvData(length, data) =>
      if length > 0x1f then s else s.(own := s.own.(advData := data[..length]))
    case SetScanRspData(length, data) =>
      if length > 0x1f then s else s.(own := s.own.(scanRsp := data[..length]))
    case Receives(pkt) =>
      var (cache, more) := Receive(s.View(), pkt);
      s.(cache := cache, reports := s.reports + more)
  }

  lemma ActKeeps(s: Station, i: Input)
    requires s.Valid()
    ensures Act(s, i).Valid()
  {
    hide Proper, Added, Removed, Receive, On, Peers;
    AllFreeProper(LIST_SIZE);
    match i
    case Schedule(e) => StaysInRange(s.radio, e);
    case AddWhite(kind, addr) => AddedToSet(s.white, Slot(kind, addr, []));
    case RemoveWhite(kind, addr) => RemovedFromSet(s.white, kind, addr);
    case AddResolv(kind, addr, keys) => AddedToSet(s.resolv, Slot(kind, addr, keys));
    case RemoveResolv(kind, addr) => RemovedFromSet(s.resolv, kind, addr);
    case _ =>
  }

  lemma StaysInRange(r: Radio, e: Event)
    requires ParamsInRange(r)
    ensures ParamsInRange(On(r, e).radio)
  {
    hide Msec;
  }

  lemma AllFreeProper(n: nat)
    ensures Proper(AllFree(n))
  {
  }

  function ActAll(s: Station, inputs: seq<Input>): Station
    requires s.Valid()
    decreases |inputs|, 0
  {
    if inputs == [] then s
    else
      AllValid(s, inputs[..|inputs| - 1]);
      Act(ActAll(s, inputs[..|inputs| - 1]), inputs[|inputs| - 1])
  }

  lemma {:induction false} AllValid(s: Station, inputs: seq<Input>)
    requires s.Valid()
    ensures ActAll(s, inputs).Valid()
    decreases |inputs|, 1
  {
    hide Act, Station.Valid;
    if inputs != [] {
      AllValid(s, inputs[..|inputs| - 1]);
      ActKeeps(ActAll(s, inputs[..|inputs| - 1]), inputs[|inputs| - 1]);
    }
  }

  // ---------------------------------------------------------------- what the scheduler sees

  function SchedulesOf(inputs: seq<Input>): seq<Event>
  {
    if inputs == [] then []
    else
      var last := inputs[|inputs| - 1];
      SchedulesOf(inputs[..|inputs| - 1]) + if last.Schedule? then [last.e] else []
  }

  /** List changes, masks and packets leave the scheduler alone. */
  lemma {:induction false} RadioRuns(s: Station, inputs: seq<Input>)
    requires s.Valid()
    ensures ActAll(s, inputs).radio == Run(s.radio, SchedulesOf(inputs))
  {
    if inputs != [] {
      var n := |inputs| - 1;
      RadioRuns(s, inputs[..n]);
      AllValid(s, inputs[..n]);
      var before := SchedulesOf(inputs[..n]);
      OneRadio(ActAll(s, inputs[..n]), inputs[n]);
      if inputs[n].Schedule? {
        RunStep(s.radio, before, inputs[n].e);
      } else {
        assert before + [] == before;
      }
    }
  }

  lemma OneRadio(s: Station, i: Input)
    requires s.Valid()
    ensures Act(s, i).radio == if i.Schedule? then On(s.radio, i.e).radio else s.radio
  {
    hide On, Proper, Receive, Peers;
  }

  lemma RunStep(r: Radio, before: seq<Event>, e: Event)
    requires ParamsInRange(r)
    ensures ParamsInRange(Run(r, before)) && Run(r, before + [e]) == On(Run(r, before), e).radio
  {
    hide On, ParamsInRange;
    RunInRange(r, before);
    assert (before + [e])[..|before|] == before;
  }
}
