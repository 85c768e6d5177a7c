/**
 * Advertising and scanning of the emulated LE controller: enable flags, timers, parameters, and the
 * scan channel.
 */
module LeScheduler {
  import opened Bytes
  import opened LeLists

  const BT_HCI_ERR_COMMAND_DISALLOWED: uint8 := 0x0c

  /**
   * The fields that the scheduler reads and writes. A timer that exists is the time in ms until it
   * fires, and never fires if that is 0: `mainloop_add_timeout` and `mainloop_modify_timeout` do not set
   * a timer to 0 ms, and one that could not be set again has run out for good.
   */
  datatype Radio = Radio(
    advEnable: uint8, advTimer: Option<nat>, advMin: uint16, advMax: uint16, advType: uint8, advTo: AdvTarget,
    scanEnable: uint8, scanTimer: Option<nat>, interval: uint16, window: uint16,
    windowActive: bool, channel: nat, filterDup: uint8, scanType: uint8, scanOwnType: uint8, scanPolicy: uint8)

  /** What an advertising packet says of its sender and its target, and where it is sent. */
  datatype AdvTarget = AdvTarget(
    ownType: uint8, directType: uint8, directAddr: octets, channelMap: uint8, policy: uint8)

  /** The timer will fire. */
  predicate Armed(timer: Option<nat>) { timer.Some? && timer.value > 0 }

  /** `bt_le_new` and `reset_defaults`. */
  const RESET := Radio(0, None, 0x0800, 0x0800, 0, AdvTarget(0, 0, NO_ADDR, 0x07, 0),
                       0, None, 0x0010, 0x0010, false, 0, 0, 0, 0, 0)

  /** Units of 0.625 ms, in whole ms. */
  function Msec(units: nat): nat { (units * 625) / 1000 }

  datatype AdvParams = AdvParams(min: uint16, max: uint16, kind: uint8, to: AdvTarget)

  datatype ScanParams = ScanParams(kind: uint8, interval: uint16, window: uint16, ownType: uint8, policy: uint8)

  /**
   * What can happen. `delay` is the pseudo-random advertising delay, and `ok` is whether the main loop
   * could set the timer. A tick of a timer that never fires does not happen.
   */
  datatype Event =
    | Reset
    | SetAdvParams(adv: AdvParams)
    | SetAdvEnable(enable: uint8, delay: nat, ok: bool)
    | SetScanParams(scan: ScanParams)
    | SetScanEnable(scanEnable: uint8, filterDup: uint8, ok: bool)
    | AdvTick(delay: nat, ok: bool)
    | ScanTick(ok: bool)

  predicate AdvParamsValid(p: AdvParams)
  {
    && (match p.kind
        case 0 => 0x0020 <= p.min <= p.max <= 0x4000
        case 1 => p.to.directType <= 0x01
        case 2 => 0x00a0 <= p.min <= p.max <= 0x4000
        case 3 => 0x00a0 <= p.min <= p.max <= 0x4000
        case _ => false)
    && p.to.ownType <= 0x03 && 0x01 <= p.to.channelMap <= 0x07 && p.to.policy <= 0x03
  }

  predicate ScanParamsValid(p: ScanParams)
  {
    p.kind <= 0x01 && 0x0004 <= p.window <= p.interval <= 0x4000 && p.ownType <= 0x03 && p.policy <= 0x03
  }

  /** The state after an event, and the status of its reply; ticks have no reply. */
  datatype Outcome = Outcome(radio: Radio, status: uint8)

  function StartAdv(r: Radio, delay: nat, ok: bool): Outcome
  {
    if r.advTimer.Some? || !ok then Outcome(r, BT_HCI_ERR_UNSPECIFIED_ERROR)
    else Outcome(r.(advTimer := Some(Msec(r.advMin) + delay), advEnable := 0x01), BT_HCI_ERR_SUCCESS)
  }

  function StopAdv(r: Radio): Outcome
  {
    if r.advTimer.None? then Outcome(r, BT_HCI_ERR_UNSPECIFIED_ERROR)
    else Outcome(r.(advTimer := None, advEnable := 0x00), BT_HCI_ERR_SUCCESS)
  }

  function StartScan(r: Radio, filterDup: uint8, ok: bool): Outcome
  {
    if r.scanTimer.Some? || !ok then Outcome(r, BT_HCI_ERR_UNSPECIFIED_ERROR)
    else Outcome(r.(scanTimer := Some(Msec(r.window)), windowActive := true, channel := 37,
                    scanEnable := 0x01, filterDup := filterDup), BT_HCI_ERR_SUCCESS)
  }

  function StopScan(r: Radio, filterDup: uint8): Outcome
  {
    if r.scanTimer.None? then Outcome(r, BT_HCI_ERR_UNSPECIFIED_ERROR)
    else Outcome(r.(scanTimer := None, windowActive := false, scanEnable := 0x00, filterDup := filterDup),
                 BT_HCI_ERR_SUCCESS)
  }

  /** `scan_timeout_callback`. */
  function OnScanTick(r: Radio, ok: bool): Radio
    requires r.interval >= r.window
  {
    var next :=
      if r.window == r.interval || !r.windowActive then
        r.(scanTimer := Some(Msec(r.window)), windowActive := true,
           channel := if r.channel + 1 > 39 then 37 else r.channel + 1)
      else r.(scanTimer := Some(Msec(r.interval - r.window)), windowActive := false);
    if ok then next else next.(scanTimer := Some(0), scanEnable := 0x00, windowActive := false)
  }

  /** `adv_timeout_callback`, besides the packets it sends. */
  function OnAdvTick(r: Radio, delay: nat, ok: bool): Radio
  {
    if ok then r.(advTimer := Some((Msec(r.advMin) + Msec(r.advMax)) / 2 + delay))
    else r.(advTimer := Some(0), advEnable := 0x00)
  }

  function On(r: Radio, e: Event): Outcome
    requires r.interval >= r.window
  {
    match e
    case Reset => Outcome(RESET.(channel := r.channel), BT_HCI_ERR_SUCCESS)
    case SetAdvParams(p) =>
      if r.advEnable == 0x01 then Outcome(r, BT_HCI_ERR_COMMAND_DISALLOWED)
      else if !AdvParamsValid(p) then Outcome(r, BT_HCI_ERR_INVALID_PARAMETERS)
      else Outcome(r.(advMin := p.min, advMax := p.max, advType := p.kind, advTo := p.to), BT_HCI_ERR_SUCCESS)
    case SetAdvEnable(enable, delay, ok) =>
      if enable > 0x01 then Outcome(r, BT_HCI_ERR_INVALID_PARAMETERS)
      else if enable == r.advEnable then Outcome(r, BT_HCI_ERR_COMMAND_DISALLOWED)
      else if enable == 0x01 then StartAdv(r, delay, ok)
      else StopAdv(r)
    case SetScanParams(p) =>
      if r.scanEnable == 0x01 then Outcome(r, BT_HCI_ERR_COMMAND_DISALLOWED)
      else if !ScanParamsValid(p) then Outcome(r, BT_HCI_ERR_INVALID_PARAMETERS)
      else
        Outcome(r.(interval := p.interval, window := p.window,
                   scanType := p.kind, scanOwnType := p.ownType, scanPolicy := p.policy), BT_HCI_ERR_SUCCESS)
    case SetScanEnable(enable, filterDup, ok) =>
      if enable > 0x01 || filterDup > 0x01 then Outcome(r, BT_HCI_ERR_INVALID_PARAMETERS)
      else if enable == r.scanEnable then Outcome(r, BT_HCI_ERR_COMMAND_DISALLOWED)
      else if enable == 0x01 then StartScan(r, filterDup, ok)
      else StopScan(r, filterDup)
    case AdvTick(delay, ok) => Outcome(if Armed(r.advTimer) then OnAdvTick(r, delay, ok) else r, BT_HCI_ERR_SUCCESS)
    case ScanTick(ok) => Outcome(if Armed(r.scanTimer) then OnScanTick(r, ok) else r, BT_HCI_ERR_SUCCESS)
  }

  /** The main loop could set a running timer again. */
  predicate Rearmed(e: Event) { (e.AdvTick? || e.ScanTick?) ==> e.ok }

  /** The advertising delay is one that `get_adv_delay` gives. */
  predicate Delayed(e: Event) { (e.AdvTick? || e.SetAdvEnable?) ==> e.delay <= 10 }

  // ---------------------------------------------------------------- what every sequence keeps

  predicate ParamsInRange(r: Radio) { 4 <= r.window <= r.interval <= 0x4000 }

  /** Enabled means that the timer exists. */
  predicate EnabledIffTimer(r: Radio)
  {
    && r.advEnable == (if r.advTimer.Some? then 0x01 else 0x00)
    && r.scanEnable == (if r.scanTimer.Some? then 0x01 else 0x00)
  }

  /** While scanning the channel is one of the three, and the running period is a window or the rest. */
  predicate Scanning(r: Radio)
  {
    if r.scanTimer.None? then !r.windowActive
    else
      && 37 <= r.channel <= 39
      && (!r.windowActive ==> r.window < r.interval)
      && r.scanTimer.value == (if r.windowActive then Msec(r.window) else Msec(r.interval - r.window))
  }

  /**
   * Advertising events come between the two intervals apart, and the delay. High duty cycle directed
   * advertising has no interval of its own, and its parameters are not checked.
   */
  predicate Advertising(r: Radio)
  {
    r.advType != 0x01 ==>
      && 0x0020 <= r.advMin <= r.advMax <= 0x4000
      && (r.advTimer.Some? ==> Msec(r.advMin) <= r.advTimer.value <= Msec(r.advMax) + 10)
  }

  /** Scanning is on, in the rest of an interval too short for a timer. */
  predicate Stalled(r: Radio) { r.scanEnable == 0x01 && !r.windowActive && r.interval == r.window + 1 }

  lemma EventKeeps(r: Radio, e: Event)
    requires ParamsInRange(r) && EnabledIffTimer(r) && Scanning(r) && Rearmed(e)
    ensures var r' := On(r, e).radio; ParamsInRange(r') && EnabledIffTimer(r') && Scanning(r')
  {
  }

  lemma EventKeepsAdvertising(r: Radio, e: Event)
    requires ParamsInRange(r) && EnabledIffTimer(r) && Advertising(r) && Rearmed(e) && Delayed(e)
    ensures Advertising(On(r, e).radio)
  {
    hide Msec;
    MsecMonotone(r.advMin, r.advMax);
  }

  lemma MsecMonotone(a: nat, b: nat)
    ensures a <= b ==> Msec(a) <= (Msec(a) + Msec(b)) / 2 <= Msec(b)
  {
  }

  /** A timer that exists fires, but for a stalled scan and for directed advertising. */
  lemma TimersFire(r: Radio)
    requires ParamsInRange(r) && EnabledIffTimer(r) && Scanning(r) && Advertising(r)
    ensures Armed(r.scanTimer) <==> r.scanEnable == 0x01 && !Stalled(r)
    ensures r.advType != 0x01 ==> (Armed(r.advTimer) <==> r.advEnable == 0x01)
  {
  }

  function Run(r: Radio, events: seq<Event>): Radio
    requires ParamsInRange(r)
    decreases |events|, 0
  {
    if events == [] then r
    else
      RunInRange(r, events[..|events| - 1]);
      On(Run(r, events[..|events| - 1]), events[|events| - 1]).radio
  }

  lemma {:induction false} RunInRange(r: Radio, events: seq<Event>)
    requires ParamsInRange(r)
    ensures ParamsInRange(Run(r, events))
    decreases |events|, 1
  {
    hide Msec;
    if events != [] { RunInRange(r, events[..|events| - 1]); }
  }

  /**
   * After any sequence of commands and ticks advertising and scanning are enabled exactly when their
   * timer exists, as long as running timers can be set again, and the parameters and periods are in
   * range. Besides stalled scans and directed advertising, every timer fires.
   */
  lemma {:induction false} RunKeeps(events: seq<Event>)
    requires forall e :: e in events ==> Rearmed(e) && Delayed(e)
    ensures var r := Run(RESET, events);
            && ParamsInRange(r) && EnabledIffTimer(r) && Scanning(r) && Advertising(r)
            && (Armed(r.scanTimer) <==> r.scanEnable == 0x01 && !Stalled(r))
            && (r.advType != 0x01 ==> (Armed(r.advTimer) <==> r.advEnable == 0x01))
  {
    hide On, Msec, EnabledIffTimer, Scanning, Advertising, Rearmed, Delayed, Stalled, Armed;
    if events != [] {
      var n := |events| - 1;
      RunKeeps(events[..n]);
      assert events[n] in events;
      EventKeeps(Run(RESET, events[..n]), events[n]);
      EventKeepsAdvertising(Run(RESET, events[..n]), events[n]);
    } else {
      ResetKeeps();
    }
    TimersFire(Run(RESET, events));
  }

  lemma ResetKeeps()
    ensures ParamsInRange(RESET) && EnabledIffTimer(RESET) && Scanning(RESET) && Advertising(RESET)
  {
  }

  /** A tick whose timer cannot be set again leaves the two apart, and only then do they come apart. */
  lemma RearmNeeded(r: Radio, e: Event)
    requires ParamsInRange(r) && EnabledIffTimer(r) && Scanning(r)
    ensures EnabledIffTimer(On(r, e).radio)
       <==> Rearmed(e) || (e.AdvTick? && !Armed(r.advTimer)) || (e.ScanTick? && !Armed(r.scanTimer))
  {
  }

  /** Scanning that was lost that way is off, without a window, and not to be enabled before the next reset. */
  lemma {:induction false} LostUntilReset(r: Radio, events: seq<Event>)
    requires ParamsInRange(r) && Armed(r.scanTimer)
    requires forall e :: e in events ==> !e.Reset?
    ensures var lost := On(r, ScanTick(false)).radio;
            && ParamsInRange(lost)
            && var r' := Run(lost, events);
            && r'.scanEnable == 0x00 && r'.scanTimer == Some(0) && !r'.windowActive
  {
    hide Msec;
    if events != [] {
      var n := |events| - 1;
      LostUntilReset(r, events[..n]);
      RunInRange(On(r, ScanTick(false)).radio, events[..n]);
    }
  }

  lemma RunOne(r: Radio, e: Event)
    requires ParamsInRange(r)
    ensures ParamsInRange(On(r, e).radio) && Run(r, [e]) == On(r, e).radio
  {
    RunInRange(r, [e]);
    hide On;
    assert [e][..0] == [];
  }

  lemma RunTwo(r: Radio, e: Event, f: Event)
    requires ParamsInRange(r)
    ensures ParamsInRange(On(r, e).radio) && Run(r, [e, f]) == On(On(r, e).radio, f).radio
  {
    hide On, ParamsInRange;
    RunOne(r, e);
    assert [e, f][..1] == [e];
  }

  // ---------------------------------------------------------------- scan windows

  /** A scan window has begun, and will end. */
  predicate InWindow(r: Radio)
  {
    ParamsInRange(r) && EnabledIffTimer(r) && Scanning(r) && r.scanTimer.Some? && r.windowActive
  }

  /** Scanning may be switched off by this event. */
  predicate SwitchesOff(e: Event) { e.Reset? || (e.SetScanEnable? && e.scanEnable == 0x00 && e.filterDup <= 0x01) }

  predicate StaysOn(events: seq<Event>) { forall e :: e in events ==> !SwitchesOff(e) }

  predicate AllRearmed(events: seq<Event>) { forall e :: e in events ==> Rearmed(e) }

  /** The event is a tick that opens another window. */
  predicate Opens(r: Radio, e: Event)
    requires ParamsInRange(r)
  {
    e.ScanTick? && Armed(r.scanTimer) && On(r, e).radio.windowActive
  }

  /** How many windows a sequence opens. */
  function Opened(r: Radio, events: seq<Event>): nat
    requires ParamsInRange(r)
  {
    if events == [] then 0
    else
      var n := |events| - 1;
      RunInRange(r, events[..n]);
      Opened(r, events[..n]) + if Opens(Run(r, events[..n]), events[n]) then 1 else 0
  }

  function Ticks(events: seq<Event>): nat
  {
    if events == [] then 0 else Ticks(events[..|events| - 1]) + if events[|events| - 1].ScanTick? then 1 else 0
  }

  /** The channel after some more windows: 37, 38 and 39 in turn. */
  function Advance(channel: nat, windows: nat): nat
    requires 37 <= channel <= 39
  {
    37 + (channel - 37 + windows) % 3
  }

  lemma AdvanceOnce(channel: nat, windows: nat)
    requires 37 <= channel <= 39
    ensures var now := Advance(channel, windows);
            37 <= now <= 39 && Advance(channel, windows + 1) == if now + 1 > 39 then 37 else now + 1
  {
  }

  /** Where scanning stands after so many ticks from the beginning of a window. */
  ghost predicate Cycled(r: Radio, s: Radio, ticks: nat, windows: nat)
    requires 37 <= r.channel <= 39
  {
    && ParamsInRange(s) && EnabledIffTimer(s) && Scanning(s) && s.scanTimer.Some?
    && s.interval == r.interval && s.window == r.window
    && windows == (if r.window == r.interval then ticks else ticks / 2)
    && (s.windowActive <==> r.window == r.interval || ticks % 2 == 0)
    && s.channel == Advance(r.channel, windows)
  }

  lemma EventCycles(r: Radio, s: Radio, e: Event, ticks: nat, windows: nat)
    requires 37 <= r.channel <= 39 && r.interval != r.window + 1 && Cycled(r, s, ticks, windows)
    requires !SwitchesOff(e) && Rearmed(e)
    ensures Cycled(r, On(s, e).radio, ticks + (if e.ScanTick? then 1 else 0), windows + (if Opens(s, e) then 1 else 0))
  {
    hide Msec, Advance, EnabledIffTimer, Scanning;
    EventKeeps(s, e);
    AdvanceOnce(r.channel, windows);
    assert Armed(s.scanTimer) && s.scanEnable == 0x01 by { OnAndArmed(s); }
  }

  lemma OnAndArmed(s: Radio)
    requires ParamsInRange(s) && EnabledIffTimer(s) && Scanning(s) && s.scanTimer.Some? && s.interval != s.window + 1
    ensures Armed(s.scanTimer) && s.scanEnable == 0x01
  {
  }

  /**
   * Whatever else is asked for between the ticks, a window opens at every tick if windows fill the
   * interval, and at every second one if not, each on the next channel.
   */
  lemma {:induction false} ChannelsCycle(r: Radio, events: seq<Event>)
    requires InWindow(r) && r.interval != r.window + 1 && StaysOn(events) && AllRearmed(events)
    ensures 37 <= r.channel <= 39 && Cycled(r, Run(r, events), Ticks(events), Opened(r, events))
  {
    assert 37 <= r.channel <= 39;
    hide On, Msec, EnabledIffTimer, Scanning, SwitchesOff, Rearmed, Opens, Cycled;
    if events != [] {
      var n := |events| - 1;
      RunInRange(r, events[..n]);
      ChannelsCycle(r, events[..n]);
      assert events[n] in events;
      EventCycles(r, Run(r, events[..n]), events[n], Ticks(events[..n]), Opened(r, events[..n]));
    } else {
      CycleBegins(r);
    }
  }

  lemma CycleBegins(r: Radio)
    requires InWindow(r)
    ensures 37 <= r.channel <= 39 && Cycled(r, r, 0, 0)
  {
  }

  /** One scan interval from the beginning of a window: one tick if the window fills it, else two. */
  function Period(r: Radio): seq<Event>
  {
    if r.window == r.interval then [ScanTick(true)] else [ScanTick(true), ScanTick(true)]
  }

  /** Every interval opens exactly one window, on the next channel, and changes nothing else. */
  lemma PeriodMovesOn(r: Radio)
    requires InWindow(r) && r.interval != r.window + 1
    ensures Run(r, Period(r)) == r.(channel := Advance(r.channel, 1)) && Opened(r, Period(r)) == 1
  {
    ChannelsCycle(r, Period(r));
    OnAndArmed(r);
    if r.window == r.interval {
      OneTick(r);
    } else {
      TwoTicks(r);
    }
  }

  lemma OneTick(r: Radio)
    requires InWindow(r) && Armed(r.scanTimer) && r.window == r.interval
    ensures var r' := Run(r, [ScanTick(true)]);
            r' == r.(channel := r'.channel) && Ticks([ScanTick(true)]) == 1
  {
    hide Msec;
    RunOne(r, ScanTick(true));
    assert [ScanTick(true)][..0] == [];
  }

  lemma TwoTicks(r: Radio)
    requires InWindow(r) && Armed(r.scanTimer) && r.window < r.interval && r.interval != r.window + 1
    ensures var ticks := [ScanTick(true), ScanTick(true)];
            var r' := Run(r, ticks);
            r' == r.(channel := r'.channel) && Ticks(ticks) == 2
  {
    hide Msec;
    var tick := ScanTick(true);
    RunTwo(r, tick, tick);
    OnAndArmed(On(r, tick).radio);
    assert [tick, tick][..1] == [tick] && [tick][..0] == [];
  }

  /** How long a sequence of ticks takes, in ms. */
  function Elapsed(r: Radio, ticks: seq<Event>): nat
    requires ParamsInRange(r)
  {
    if ticks == [] then 0
    else
      var n := |ticks| - 1;
      RunInRange(r, ticks[..n]);
      var timer := Run(r, ticks[..n]).scanTimer;
      Elapsed(r, ticks[..n]) + if timer.Some? then timer.value else 0
  }

  /** An interval is never longer than the parameters say, and less than 2 ms shorter. */
  lemma PeriodLength(r: Radio)
    requires InWindow(r) && r.interval != r.window + 1
    ensures r.interval as real * 0.625 - 2.0 < Elapsed(r, Period(r)) as real <= r.interval as real * 0.625
  {
    PeriodTimers(r);
    assert 1000 * Msec(r.window) <= 625 * r.window < 1000 * Msec(r.window) + 1000;
    var rest := r.interval - r.window;
    assert 1000 * Msec(rest) <= 625 * rest < 1000 * Msec(rest) + 1000;
  }

  lemma PeriodTimers(r: Radio)
    requires InWindow(r) && r.interval != r.window + 1
    ensures Elapsed(r, Period(r)) == Msec(r.window) + if r.window == r.interval then 0 else Msec(r.interval - r.window)
  {
    hide Msec;
    var tick := ScanTick(true);
    OnAndArmed(r);
    RunOne(r, tick);
    assert [tick][..0] == [] && Elapsed(r, [tick]) == r.scanTimer.value;
    if r.window != r.interval {
      assert [tick, tick][..1] == [tick];
      assert Elapsed(r, [tick, tick]) == Elapsed(r, [tick]) + On(r, tick).radio.scanTimer.value;
    }
  }

  // ---------------------------------------------------------------- windows one unit short

  /** The last window of a scan, or what is left when it has ended. */
  predicate LastWindow(s: Radio, channel: nat)
  {
    && ParamsInRange(s) && s.channel == channel && s.scanTimer.Some?
    && if s.windowActive then s.scanEnable == 0x01 && s.interval == s.window + 1 else s.scanTimer.value == 0
  }

  lemma EventNoWindow(s: Radio, channel: nat, e: Event)
    requires LastWindow(s, channel) && !SwitchesOff(e)
    ensures LastWindow(On(s, e).radio, channel) && !Opens(s, e)
  {
  }

  /**
   * A window that is one unit shorter than the interval is the last one: whatever is asked for and
   * however often timers fire, no other opens, and the channel stays, unless scanning is switched off.
   */
  lemma {:induction false} NeverAgain(r: Radio, events: seq<Event>)
    requires InWindow(r) && r.interval == r.window + 1 && StaysOn(events)
    ensures Opened(r, events) == 0 && LastWindow(Run(r, events), r.channel)
  {
    hide On, Msec, SwitchesOff, Opens, LastWindow;
    if events != [] {
      var n := |events| - 1;
      RunInRange(r, events[..n]);
      NeverAgain(r, events[..n]);
      assert events[n] in events;
      EventNoWindow(Run(r, events[..n]), r.channel, events[n]);
    } else {
      assert LastWindow(r, r.channel) by { WindowIsLast(r); }
    }
  }

  lemma WindowIsLast(r: Radio)
    requires InWindow(r) && r.interval == r.window + 1
    ensures LastWindow(r, r.channel)
  {
  }

  /** Some sequence opens another window without switching scanning off. */
  ghost predicate Reopens(r: Radio)
    requires ParamsInRange(r)
  {
    exists events :: StaysOn(events) && Opened(r, events) > 0
  }

  /** Scanning goes on after its first window exactly if the window is not one unit shorter than the interval. */
  lemma StallsIffOneShort(r: Radio)
    requires InWindow(r)
    ensures Reopens(r) <==> r.interval != r.window + 1
  {
    hide Scanning, EnabledIffTimer, Opened, Run;
    if r.interval == r.window + 1 {
      forall events | StaysOn(events) ensures Opened(r, events) == 0 {
        NeverAgain(r, events);
      }
    } else {
      PeriodMovesOn(r);
      assert StaysOn(Period(r));
    }
  }

  // ---------------------------------------------------------------- directed advertising

  /** The event is no request to stop advertising. */
  predicate KeepsAdvertising(e: Event) { !e.Reset? && (e.SetAdvEnable? ==> e.enable != 0x00) }

  /** What may happen while advertising goes on, if timers can be set and delays are those of the code. */
  predicate AdvEvents(events: seq<Event>)
  {
    forall e :: e in events ==> KeepsAdvertising(e) && Rearmed(e) && Delayed(e)
  }

  /** Advertising has stopped to happen, though it is still enabled. */
  predicate AdvDead(r: Radio) { ParamsInRange(r) && r.advTimer == Some(0) }

  /** Nothing is advertised again then before advertising is disabled. */
  lemma {:induction false} DeadStaysDead(r: Radio, events: seq<Event>)
    requires AdvDead(r) && forall e :: e in events ==> KeepsAdvertising(e)
    ensures AdvDead(Run(r, events)) && Run(r, events).advEnable == r.advEnable
  {
    hide Msec;
    if events != [] {
      DeadStaysDead(r, events[..|events| - 1]);
      assert events[|events| - 1] in events;
    }
  }

  /** No sequence of ticks and commands lets advertising die. */
  ghost predicate NeverDies(r: Radio)
    requires ParamsInRange(r)
  {
    forall events :: AdvEvents(events) ==> Armed(Run(r, events).advTimer)
  }

  /** Both timers of an advertising set are above 0 ms even without a delay. */
  predicate LongEnough(r: Radio) { r.advMin >= 2 && Msec(r.advMin) + Msec(r.advMax) >= 2 }

  lemma EventAdvertises(r: Radio, s: Radio, e: Event)
    requires LongEnough(r) && ParamsInRange(s) && s.advEnable == 0x01 && Armed(s.advTimer)
    requires s.advMin == r.advMin && s.advMax == r.advMax && KeepsAdvertising(e) && Rearmed(e)
    ensures var s' := On(s, e).radio;
            s'.advEnable == 0x01 && Armed(s'.advTimer) && s'.advMin == r.advMin && s'.advMax == r.advMax
  {
  }

  lemma {:induction false} RunAdvertises(r: Radio, events: seq<Event>)
    requires LongEnough(r) && ParamsInRange(r) && r.advEnable == 0x01 && Armed(r.advTimer) && AdvEvents(events)
    ensures var s := Run(r, events);
            s.advEnable == 0x01 && Armed(s.advTimer) && s.advMin == r.advMin && s.advMax == r.advMax
  {
    hide On, Msec, LongEnough, KeepsAdvertising, Rearmed, Delayed;
    if events != [] {
      var n := |events| - 1;
      RunInRange(r, events[..n]);
      RunAdvertises(r, events[..n]);
      assert events[n] in events;
      EventAdvertises(r, Run(r, events[..n]), events[n]);
    }
  }

  /**
   * Advertising that is enabled goes on whatever the delays exactly if both intervals leave a timer
   * above 0 ms. Only directed advertising can fail to, since its parameters are not checked.
   */
  lemma AdvertisesIffLongEnough(r: Radio)
    requires ParamsInRange(r) && r.advEnable == 0x00 && r.advTimer.None?
    ensures (forall delay: nat :: delay <= 10 ==> NeverDies(AdvStarted(r, delay))) <==> LongEnough(r)
    ensures Advertising(r) && r.advType != 0x01 ==> LongEnough(r)
  {
    hide Msec;
    MsecPositive(r.advMin);
    if LongEnough(r) {
      forall delay: nat | delay <= 10 ensures NeverDies(AdvStarted(r, delay)) {
        forall events | AdvEvents(events) ensures Armed(Run(AdvStarted(r, delay), events).advTimer) {
          RunAdvertises(AdvStarted(r, delay), events);
        }
      }
    } else {
      DiesWithoutDelay(r);
    }
    if Advertising(r) && r.advType != 0x01 {
      MsecPositive(r.advMax);
    }
  }

  lemma MsecPositive(units: nat)
    ensures Msec(units) >= 1 <==> units >= 2
  {
  }

  /** The state when advertising has just been enabled. */
  function AdvStarted(r: Radio, delay: nat): (s: Radio)
    requires ParamsInRange(r) && r.advEnable == 0x00 && r.advTimer.None?
    ensures ParamsInRange(s)
  {
    On(r, SetAdvEnable(0x01, delay, true)).radio
  }

  /** If not, then it takes no more than two delays of 0 ms. */
  lemma DiesWithoutDelay(r: Radio)
    requires ParamsInRange(r) && r.advEnable == 0x00 && r.advTimer.None? && !LongEnough(r)
    ensures !NeverDies(AdvStarted(r, 0))
  {
    var s, tick := AdvStarted(r, 0), AdvTick(0, true);
    RunOne(s, tick);
    assert AdvEvents([]) && AdvEvents([tick]);
    assert !Armed(Run(s, []).advTimer) || !Armed(Run(s, [tick]).advTimer);
  }
}
