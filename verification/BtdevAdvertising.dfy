/** Legacy advertising between the devices of the emulator: who is told of whom, and when. */
module BtdevAdvertising {
  import opened Bytes

  /** The fields of `struct btdev` that advertising and scanning read. */
  datatype Device = Device(
    bdaddr: octets, randomAddr: octets,
    advEnable: uint8, advType: uint8, advOwnAddr: uint8, directType: uint8, directAddr: octets,
    advData: octets, scanData: octets,
    scanEnable: uint8, scanType: uint8, scanOwnAddr: uint8, filterDup: uint8)

  /** An entry of `btdev_list`. */
  datatype Entry = Free | Used(dev: Device)

  type Devices = seq<Entry>

  datatype Report = Report(eventType: uint8, addrType: uint8, addr: octets, data: octets)

  /** A report that was sent, with the list positions of its receiver and its advertiser. */
  datatype Sent = Sent(to: nat, from: nat, report: Report)

  const ADV_IND: uint8 := 0x00
  const ADV_DIRECT_IND: uint8 := 0x01
  const ADV_SCAN_IND: uint8 := 0x02
  const ADV_DIRECT_IND_LOW: uint8 := 0x04
  const SCAN_RSP: uint8 := 0x04

  function ScanAddr(d: Device): octets { if d.scanOwnAddr == 0x01 then d.randomAddr else d.bdaddr }
  function AdvAddr(d: Device): octets { if d.advOwnAddr == 0x01 then d.randomAddr else d.bdaddr }

  /** `adv_match`. */
  predicate AdvMatch(scan: Device, adv: Device)
  {
    adv.advType == ADV_DIRECT_IND || adv.advType == ADV_DIRECT_IND_LOW ==>
      scan.scanOwnAddr == adv.directType && ScanAddr(scan) == adv.directAddr
  }

  /** `get_adv_report_type`. */
  function AdvReportType(advType: uint8): uint8 { if advType == ADV_DIRECT_IND_LOW then ADV_DIRECT_IND else advType }

  /** `le_send_adv_report`. */
  function AdvReport(adv: Device, eventType: uint8): Report
  {
    Report(eventType, adv.advOwnAddr, AdvAddr(adv), if eventType == SCAN_RSP then adv.scanData else adv.advData)
  }

  /** What a scanner hears of an advertiser: a report, and a scan response if it scans actively for a scannable one. */
  function Heard(scan: Device, adv: Device): seq<Report>
  {
    if adv.advEnable == 0 || scan.scanEnable == 0 || !AdvMatch(scan, adv) then []
    else
      [AdvReport(adv, AdvReportType(adv.advType))]
      + if scan.scanType == 0x01 && (adv.advType == ADV_IND || adv.advType == ADV_SCAN_IND)
        then [AdvReport(adv, SCAN_RSP)] else []
  }

  function Tagged(to: nat, from: nat, reports: seq<Report>): (r: seq<Sent>)
    ensures |r| == |reports|
  {
    seq(|reports|, i requires 0 <= i < |reports| => Sent(to, from, reports[i]))
  }

  /** What one entry of the list hears when `a` starts to advertise. */
  function ToEntry(devs: Devices, a: nat, i: nat): seq<Sent>
    requires a < |devs| && i < |devs| && devs[a].Used?
  {
    if i == a || devs[i].Free? then [] else Tagged(i, a, Heard(devs[i].dev, devs[a].dev))
  }

  /** What the first `n` entries of the list hear. */
  function AdvReports(devs: Devices, a: nat, n: nat): seq<Sent>
    requires a < |devs| && n <= |devs| && devs[a].Used?
  {
    if n == 0 then [] else AdvReports(devs, a, n - 1) + ToEntry(devs, a, n - 1)
  }

  /** What `s` hears of one entry of the list when it starts to scan. */
  function FromEntry(devs: Devices, s: nat, i: nat): seq<Sent>
    requires s < |devs| && i < |devs| && devs[s].Used?
  {
    if i == s || devs[i].Free? then [] else Tagged(s, i, Heard(devs[s].dev, devs[i].dev))
  }

  /** What `s` hears of the first `n` entries when it starts to scan. */
  function ScanReports(devs: Devices, s: nat, n: nat): seq<Sent>
    requires s < |devs| && n <= |devs| && devs[s].Used?
  {
    if n == 0 then [] else ScanReports(devs, s, n - 1) + FromEntry(devs, s, n - 1)
  }

  // ---------------------------------------------------------------- the two loops

  /** `le_set_adv_enable_complete`. */
  method LeSetAdvEnableComplete(devs: Devices, a: nat) returns (sent: seq<Sent>)
    requires a < |devs| && devs[a].Used? && devs[a].dev.advEnable != 0
    ensures sent == AdvReports(devs, a, |devs|)
  {
    var adv := devs[a].dev;
    var reportType := AdvReportType(adv.advType);
    sent := [];
    for i := 0 to |devs|
      invariant sent == AdvReports(devs, a, i)
    {
      ghost var before := sent;
      if devs[i].Free? || i == a { continue; }
      var scan := devs[i].dev;
      if scan.scanEnable == 0 { continue; }
      if !AdvMatch(scan, adv) { continue; }
      sent := sent + [Sent(i, a, AdvReport(adv, reportType))];
      if scan.scanType == 0x01 && (adv.advType == ADV_IND || adv.advType == ADV_SCAN_IND) {
        sent := sent + [Sent(i, a, AdvReport(adv, SCAN_RSP))];
      }
      assert sent == before + Tagged(i, a, Heard(scan, adv));
    }
  }

  /** `le_set_scan_enable_complete`. */
  method LeSetScanEnableComplete(devs: Devices, s: nat) returns (sent: seq<Sent>)
    requires s < |devs| && devs[s].Used? && devs[s].dev.scanEnable != 0
    ensures sent == ScanReports(devs, s, |devs|)
  {
    var scan := devs[s].dev;
    sent := [];
    for i := 0 to |devs|
      invariant sent == ScanReports(devs, s, i)
    {
      ghost var before := sent;
      if devs[i].Free? || i == s { continue; }
      var adv := devs[i].dev;
      if adv.advEnable == 0 { continue; }
      if !AdvMatch(scan, adv) { continue; }
      sent := sent + [Sent(s, i, AdvReport(adv, AdvReportType(adv.advType)))];
      if scan.scanType == 0x01 {
        if adv.advType == ADV_IND || adv.advType == ADV_SCAN_IND {
          sent := sent + [Sent(s, i, AdvReport(adv, SCAN_RSP))];
        }
      }
      assert sent == before + Tagged(s, i, Heard(scan, adv));
    }
  }

  // ---------------------------------------------------------------- the two commands

  const BT_HCI_ERR_SUCCESS: uint8 := 0x00
  const BT_HCI_ERR_COMMAND_DISALLOWED: uint8 := 0x0c

  datatype Result = Result(devs: Devices, status: uint8, sent: seq<Sent>)

  /** LE Set Advertising Enable at the device in entry `a`. */
  function SetAdvEnable(devs: Devices, a: nat, enable: uint8): Result
    requires a < |devs| && devs[a].Used?
  {
    if devs[a].dev.advEnable == enable then Result(devs, BT_HCI_ERR_COMMAND_DISALLOWED, [])
    else
      var devs' := devs[a := Used(devs[a].dev.(advEnable := enable))];
      Result(devs', BT_HCI_ERR_SUCCESS, if enable != 0 then AdvReports(devs', a, |devs'|) else [])
  }

  /** LE Set Scan Enable at the device in entry `s`; its completion looks at the flag and not at the status. */
  function SetScanEnable(devs: Devices, s: nat, enable: uint8, filterDup: uint8): Result
    requires s < |devs| && devs[s].Used?
  {
    var refused := devs[s].dev.scanEnable == enable;
    var devs' := if refused then devs else devs[s := Used(devs[s].dev.(scanEnable := enable, filterDup := filterDup))];
    Result(devs', if refused then BT_HCI_ERR_COMMAND_DISALLOWED else BT_HCI_ERR_SUCCESS,
           if devs'[s].dev.scanEnable != 0 && enable != 0 then ScanReports(devs', s, |devs'|) else [])
  }

  // ---------------------------------------------------------------- symmetry

  /** The reports from one device to another, in order. */
  function Between(sent: seq<Sent>, to: nat, from: nat): seq<Report>
  {
    if sent == [] then []
    else
      var last := sent[|sent| - 1];
      Between(sent[..|sent| - 1], to, from) + if last.to == to && last.from == from then [last.report] else []
  }

  lemma {:induction false} BetweenConcat(a: seq<Sent>, b: seq<Sent>, to: nat, from: nat)
    ensures Between(a + b, to, from) == Between(a, to, from) + Between(b, to, from)
  {
    if b == [] {
      assert a + b == a;
    } else {
      var init := b[..|b| - 1];
      assert (a + b)[..|a + b| - 1] == a + init;
      BetweenConcat(a, init, to, from);
    }
  }

  lemma {:induction false} BetweenTagged(to': nat, from': nat, reports: seq<Report>, to: nat, from: nat)
    ensures Between(Tagged(to', from', reports), to, from) == if to' == to && from' == from then reports else []
  {
    if reports != [] {
      var init := reports[..|reports| - 1];
      BetweenTagged(to', from', init, to, from);
      assert Tagged(to', from', reports)[..|reports| - 1] == Tagged(to', from', init);
    }
  }

  lemma BetweenNone(to: nat, from: nat)
    ensures Between([], to, from) == []
  {
  }

  lemma {:induction false} AdvReportsBetween(devs: Devices, a: nat, n: nat, to: nat, from: nat)
    requires a < |devs| && n <= |devs| && devs[a].Used?
    ensures Between(AdvReports(devs, a, n), to, from)
         == if from == a && to < n && to != a && devs[to].Used? then Heard(devs[to].dev, devs[a].dev) else []
  {
    hide Heard, Between, Tagged;
    BetweenNone(to, from);
    if n > 0 {
      AdvReportsBetween(devs, a, n - 1, to, from);
      BetweenConcat(AdvReports(devs, a, n - 1), ToEntry(devs, a, n - 1), to, from);
      if n - 1 != a && devs[n - 1].Used? {
        BetweenTagged(n - 1, a, Heard(devs[n - 1].dev, devs[a].dev), to, from);
      }
    }
  }

  lemma {:induction false} ScanReportsBetween(devs: Devices, s: nat, n: nat, to: nat, from: nat)
    requires s < |devs| && n <= |devs| && devs[s].Used?
    ensures Between(ScanReports(devs, s, n), to, from)
         == if to == s && from < n && from != s && devs[from].Used? then Heard(devs[s].dev, devs[from].dev) else []
  {
    hide Heard, Between, Tagged;
    BetweenNone(to, from);
    if n > 0 {
      var i := n - 1;
      ScanReportsBetween(devs, s, i, to, from);
      BetweenConcat(ScanReports(devs, s, i), FromEntry(devs, s, i), to, from);
      if i != s && devs[i].Used? {
        BetweenTagged(s, i, Heard(devs[s].dev, devs[i].dev), to, from);
      }
    }
  }

  /**
   * In every population of devices, a scanner hears the same of an advertiser whether the advertiser
   * or the scanner starts last: directed advertising, scan responses and all.
   */
  lemma LastToStartIsHeard(devs: Devices, a: nat, s: nat)
    requires a < |devs| && s < |devs| && a != s && devs[a].Used? && devs[s].Used?
    ensures Between(AdvReports(devs, a, |devs|), s, a) == Between(ScanReports(devs, s, |devs|), s, a)
         == Heard(devs[s].dev, devs[a].dev)
  {
    AdvReportsBetween(devs, a, |devs|, s, a);
    ScanReportsBetween(devs, s, |devs|, s, a);
  }

  /** Starting both, in either order, lets the scanner hear the same of the advertiser in all. */
  lemma StartOrder(devs: Devices, a: nat, s: nat, advOn: uint8, scanOn: uint8, dup: uint8)
    requires a < |devs| && s < |devs| && a != s && devs[a].Used? && devs[s].Used?
    requires devs[a].dev.advEnable == 0 && devs[s].dev.scanEnable == 0 && advOn != 0 && scanOn != 0
    ensures var scanFirst := SetScanEnable(devs, s, scanOn, dup);
            var thenAdv := SetAdvEnable(scanFirst.devs, a, advOn);
            var advFirst := SetAdvEnable(devs, a, advOn);
            var thenScan := SetScanEnable(advFirst.devs, s, scanOn, dup);
            && thenAdv.devs == thenScan.devs
            && Between(scanFirst.sent + thenAdv.sent, s, a) == Between(advFirst.sent + thenScan.sent, s, a)
            && Between(thenAdv.sent, s, a) == Heard(thenAdv.devs[s].dev, thenAdv.devs[a].dev)
  {
    hide Between, AdvMatch;
    var scanFirst := SetScanEnable(devs, s, scanOn, dup);
    var thenAdv := SetAdvEnable(scanFirst.devs, a, advOn);
    var advFirst := SetAdvEnable(devs, a, advOn);
    var thenScan := SetScanEnable(advFirst.devs, s, scanOn, dup);
    assert thenAdv.devs == thenScan.devs;
    LastToStartIsHeard(thenAdv.devs, a, s);
    LastToStartIsHeard(scanFirst.devs, a, s);
    LastToStartIsHeard(advFirst.devs, a, s);
    BetweenConcat(scanFirst.sent, thenAdv.sent, s, a);
    BetweenConcat(advFirst.sent, thenScan.sent, s, a);
  }

  // ---------------------------------------------------------------- refused requests

  /** Entry `i` is another device that advertises, and to this scanner. */
  predicate AdvertisesTo(devs: Devices, s: nat, i: nat)
    requires s < |devs| && i < |devs| && devs[s].Used?
  {
    i != s && devs[i].Used? && devs[i].dev.advEnable != 0 && AdvMatch(devs[s].dev, devs[i].dev)
  }

  lemma {:induction false} NothingToReport(devs: Devices, s: nat, n: nat)
    requires s < |devs| && n <= |devs| && devs[s].Used? && devs[s].dev.scanEnable != 0
    ensures ScanReports(devs, s, n) == [] <==> forall i :: 0 <= i < n ==> !AdvertisesTo(devs, s, i)
  {
    hide AdvMatch;
    if n > 0 {
      NothingToReport(devs, s, n - 1);
      assert FromEntry(devs, s, n - 1) == [] <==> !AdvertisesTo(devs, s, n - 1);
    }
  }

  /** What there is to hear of entry `a` at the device `s`, and nowhere else. */
  function Repeated(devs: Devices, s: nat, to: nat, a: nat): seq<Report>
    requires s < |devs| && devs[s].Used?
  {
    if to == s && a < |devs| && AdvertisesTo(devs, s, a) then Heard(devs[s].dev, devs[a].dev) else []
  }

  /**
   * A refused request changes nothing, and is silent exactly if it is one to stop or there is nobody to
   * report. Otherwise the scanner, and nobody else, hears of every advertiser.
   */
  lemma RefusedScanReportsAgain(devs: Devices, s: nat, enable: uint8, dup: uint8)
    requires s < |devs| && devs[s].Used? && devs[s].dev.scanEnable == enable
    ensures var r := SetScanEnable(devs, s, enable, dup);
            && r.status == BT_HCI_ERR_COMMAND_DISALLOWED && r.devs == devs
            && (r.sent == [] <==> enable == 0 || forall i :: 0 <= i < |devs| ==> !AdvertisesTo(devs, s, i))
            && (forall to: nat, a: nat :: Between(r.sent, to, a) == Repeated(devs, s, to, a))
  {
    var r := SetScanEnable(devs, s, enable, dup);
    if enable != 0 { NothingToReport(devs, s, |devs|); }
    forall to: nat, a: nat
      ensures Between(r.sent, to, a) == Repeated(devs, s, to, a)
    {
      if enable != 0 { ScanReportsBetween(devs, s, |devs|, to, a); } else { BetweenNone(to, a); }
    }
  }

  /** The same request so many times: the last state and status, and all that was sent. */
  function Asked(devs: Devices, s: nat, enable: uint8, dup: uint8, n: nat): (r: Result)
    requires s < |devs| && devs[s].Used?
    ensures |r.devs| == |devs| && r.devs[s].Used? && forall i :: 0 <= i < |devs| && i != s ==> r.devs[i] == devs[i]
    ensures n > 0 ==> r.devs[s].dev.scanEnable == enable
  {
    if n == 0 then Result(devs, BT_HCI_ERR_SUCCESS, [])
    else
      var before := Asked(devs, s, enable, dup, n - 1);
      var r := SetScanEnable(before.devs, s, enable, dup);
      Result(r.devs, r.status, before.sent + r.sent)
  }

  function Times(reports: seq<Report>, n: nat): seq<Report> { if n == 0 then [] else Times(reports, n - 1) + reports }

  /** A scanner hears of every advertiser as often as it asks, though all requests but the first are refused. */
  lemma {:induction false} HeardEachTime(devs: Devices, s: nat, enable: uint8, dup: uint8, n: nat, a: nat)
    requires s < |devs| && devs[s].Used? && a < |devs| && a != s && devs[a].Used?
    ensures var r := Asked(devs, s, enable, dup, n);
            && Between(r.sent, s, a) == Times(Heard(r.devs[s].dev, devs[a].dev), n)
            && (n > 1 ==> r.status == BT_HCI_ERR_COMMAND_DISALLOWED)
  {
    hide Heard, Between;
    BetweenNone(s, a);
    if n > 0 {
      HeardEachTime(devs, s, enable, dup, n - 1, a);
      var before := Asked(devs, s, enable, dup, n - 1);
      RequestHeard(before.devs, s, enable, dup, a);
      BetweenConcat(before.sent, SetScanEnable(before.devs, s, enable, dup).sent, s, a);
    }
  }

  lemma RequestHeard(devs: Devices, s: nat, enable: uint8, dup: uint8, a: nat)
    requires s < |devs| && devs[s].Used? && a < |devs| && a != s && devs[a].Used?
    ensures var r := SetScanEnable(devs, s, enable, dup);
            Between(r.sent, s, a) == Heard(r.devs[s].dev, devs[a].dev)
  {
    var r := SetScanEnable(devs, s, enable, dup);
    ScanReportsBetween(r.devs, s, |r.devs|, s, a);
  }

  // ---------------------------------------------------------------- what is heard

  /** The address that a device goes by: its random one for own address type 0x01, else its public one. */
  function Named(ownType: uint8, d: Device): octets { if ownType == 0x01 then d.randomAddr else d.bdaddr }

  /** An advertiser reaches a scanner, if it is directed only the one that goes by the address it names. */
  predicate Reaches(scan: Device, adv: Device)
  {
    || (adv.advType != 0x01 && adv.advType != 0x04)
    || (adv.directType == scan.scanOwnAddr && adv.directAddr == Named(scan.scanOwnAddr, scan))
  }

  /** The advertising data under the advertiser's address, and the scan data to an active scanner. */
  function HeardOf(scan: Device, adv: Device): seq<Report>
  {
    var addr := Named(adv.advOwnAddr, adv);
    var first := Report(if adv.advType == 0x04 then 0x01 else adv.advType, adv.advOwnAddr, addr, adv.advData);
    var second := Report(0x04, adv.advOwnAddr, addr, adv.scanData);
    if adv.advEnable == 0 || scan.scanEnable == 0 || !Reaches(scan, adv) then []
    else if scan.scanType == 0x01 && (adv.advType == 0x00 || adv.advType == 0x02) then [first, second]
    else [first]
  }

  lemma HeardIs(scan: Device, adv: Device)
    ensures Heard(scan, adv) == HeardOf(scan, adv)
  {
  }

  /** What one device of a population hears of another. */
  function HeardIn(devs: Devices, to: nat, from: nat): seq<Report>
  {
    if to < |devs| && from < |devs| && to != from && devs[to].Used? && devs[from].Used?
    then HeardOf(devs[to].dev, devs[from].dev) else []
  }

  /** A device that starts to advertise is heard by every other one as above, and nobody else is heard. */
  lemma AdvertisingHeard(devs: Devices, a: nat, enable: uint8)
    requires a < |devs| && devs[a].Used? && devs[a].dev.advEnable != enable
    ensures var r := SetAdvEnable(devs, a, enable);
            && r.status == 0x00 && r.devs == devs[a := Used(devs[a].dev.(advEnable := enable))]
            && forall to: nat, from: nat ::
                 Between(r.sent, to, from) == if from == a && enable != 0 then HeardIn(r.devs, to, a) else []
  {
    hide Heard, HeardOf, Between, Tagged;
    var r := SetAdvEnable(devs, a, enable);
    forall to: nat, from: nat
      ensures Between(r.sent, to, from) == if from == a && enable != 0 then HeardIn(r.devs, to, a) else []
    {
      BetweenNone(to, from);
      if enable != 0 { AdvReportsBetween(r.devs, a, |r.devs|, to, from); }
      if to < |r.devs| && r.devs[to].Used? { HeardIs(r.devs[to].dev, r.devs[a].dev); }
    }
  }

  /** The same command twice is refused, and then nothing is heard. */
  lemma AdvertisingRefused(devs: Devices, a: nat, enable: uint8)
    requires a < |devs| && devs[a].Used? && devs[a].dev.advEnable == enable
    ensures SetAdvEnable(devs, a, enable) == Result(devs, 0x0c, [])
  {
  }

  /** A device that asks to scan hears of every other one as above, even if it was scanning already. */
  lemma ScanningHears(devs: Devices, s: nat, enable: uint8, dup: uint8)
    requires s < |devs| && devs[s].Used?
    ensures var r, refused := SetScanEnable(devs, s, enable, dup), devs[s].dev.scanEnable == enable;
            && r.status == (if refused then 0x0c else 0x00)
            && r.devs == (if refused then devs
                          else devs[s := Used(devs[s].dev.(scanEnable := enable, filterDup := dup))])
            && forall to: nat, from: nat ::
                 Between(r.sent, to, from) == if to == s && enable != 0 then HeardIn(r.devs, s, from) else []
  {
    hide Heard, HeardOf, Between, Tagged;
    var r := SetScanEnable(devs, s, enable, dup);
    forall to: nat, from: nat
      ensures Between(r.sent, to, from) == if to == s && enable != 0 then HeardIn(r.devs, s, from) else []
    {
      BetweenNone(to, from);
      if enable != 0 { ScanReportsBetween(r.devs, s, |r.devs|, to, from); }
      if from < |r.devs| && r.devs[from].Used? { HeardIs(r.devs[s].dev, r.devs[from].dev); }
    }
  }
}
