/** Scan sessions: what is reported between one scan enable command and the next, whatever happens meanwhile. */
module LeSession {
  import opened Bytes
  import opened LeLists
  import opened LeScheduler
  import opened LeReceive
  import opened LeStation

  /** The command that enables scanning, with or without duplicate filtering. */
  function Enable(dup: uint8): Event { SetScanEnable(0x01, dup, true) }

  /** It succeeds. */
  predicate CanStart(s: Station, dup: uint8) { s.Valid() && On(s.radio, Enable(dup)).status == BT_HCI_ERR_SUCCESS }

  function Begun(s: Station, dup: uint8): (begun: Station)
    requires CanStart(s, dup)
    ensures begun.Valid()
  {
    ActKeeps(s, Schedule(Enable(dup)));
    Act(s, Schedule(Enable(dup)))
  }

  /** A policy that consults the white list. */
  predicate Strict(policy: uint8) { policy == 0x01 || policy == 0x03 }

  /** The input ends a session: a scan enable command that gets to the cache, or a reset. */
  predicate Ends(s: Station, i: Input) { i.Schedule? && (i.e.Reset? || EmptiesCache(s.radio, i.e)) }

  /** No input ends the session. */
  predicate Lasts(s: Station, inputs: seq<Input>)
    requires s.Valid()
  {
    inputs != [] ==>
      var n := |inputs| - 1;
      Lasts(s, inputs[..n]) && !Ends(ActAll(s, inputs[..n]), inputs[n])
  }

  /** The packets of a session, each with the receiver as it is when the packet comes. */
  function StepsOf(s: Station, inputs: seq<Input>): seq<Step>
    requires s.Valid()
  {
    if inputs == [] then []
    else
      var n := |inputs| - 1;
      StepsOf(s, inputs[..n])
      + if inputs[n].Receives? then [Step(ActAll(s, inputs[..n]).View(), inputs[n].pkt)] else []
  }

  /** One input of a session moves the cache and the reports by its packet only. */
  lemma InputStep(s: Station, i: Input)
    requires s.Valid() && !Ends(s, i)
    ensures Act(s, i).radio.filterDup == s.radio.filterDup
    ensures if i.Receives? then (Act(s, i).cache, Act(s, i).reports)
                                == (Receive(s.View(), i.pkt).0, s.reports + Receive(s.View(), i.pkt).1)
            else Act(s, i).cache == s.cache && Act(s, i).reports == s.reports
  {
    hide Proper, Peers, Receive, On, Added, Removed;
    if i.Schedule? { FilterStays(s.radio, i.e); }
  }

  lemma FilterStays(r: Radio, e: Event)
    requires ParamsInRange(r) && !e.Reset? && !EmptiesCache(r, e)
    ensures On(r, e).radio.filterDup == r.filterDup
  {
    hide Msec;
  }

  /** No packet passes for a scan response. */
  predicate NoneLikeResponse(steps: seq<Step>) { forall k :: 0 <= k < |steps| ==> steps[k].pkt.pduType != SCAN_RSP }

  /** The cache, the reports and the filter after a session's inputs. */
  predicate Reached(s: Station, steps: seq<Step>, t: Station)
  {
    && (t.cache, t.reports) == (Session(s.cache, steps).0, s.reports + Session(s.cache, steps).1)
    && t.radio.filterDup == s.radio.filterDup && SameFilter(steps, s.radio.filterDup != 0)
  }

  lemma {:induction false} SessionRuns(s: Station, inputs: seq<Input>)
    requires s.Valid() && Lasts(s, inputs)
    ensures Reached(s, StepsOf(s, inputs), ActAll(s, inputs))
  {
    hide Act, Ends, Station.Valid, Station.View, Reached;
    if inputs != [] {
      var n := |inputs| - 1;
      SessionRuns(s, inputs[..n]);
      AllValid(s, inputs[..n]);
      InputReached(s, StepsOf(s, inputs[..n]), ActAll(s, inputs[..n]), inputs[n]);
    } else {
      NothingReached(s);
    }
  }

  lemma NothingReached(s: Station)
    ensures Reached(s, [], s)
  {
    assert s.reports + [] == s.reports;
  }

  lemma InputReached(s: Station, steps: seq<Step>, t: Station, i: Input)
    requires t.Valid() && !Ends(t, i) && Reached(s, steps, t)
    ensures Reached(s, steps + (if i.Receives? then [Step(t.View(), i.pkt)] else []), Act(t, i))
  {
    hide Act, Ends, Station.Valid, Receive, Session;
    InputStep(t, i);
    if i.Receives? {
      OneStep(s.cache, steps, Step(t.View(), i.pkt));
      assert t.View().(cache := t.cache) == t.View();
      var reports, more := Session(s.cache, steps).1, Receive(t.View(), i.pkt).1;
      assert (s.reports + reports) + more == s.reports + (reports + more);
    } else {
      assert steps + [] == steps;
    }
  }

  lemma OneStep(cache: seq<Peer>, steps: seq<Step>, last: Step)
    ensures var (before, reports) := Session(cache, steps);
            var (after, more) := Receive(last.v.(cache := before), last.pkt);
            Session(cache, steps + [last]) == (after, reports + more)
  {
    hide Receive;
    assert (steps + [last])[..|steps|] == steps;
  }

  /**
   * From a command that enables scanning to the next one that gets to the cache, whatever commands,
   * timers, list changes and packets come between, the host is told exactly this, in this order: of each
   * packet that is accepted then, and with duplicate filtering only if its sender was not among the first
   * 64, its type, sender and advertising data, and in active scanning also its scan response; and
   * nothing while LE events are not asked for.
   */
  lemma ScanSession(s: Station, dup: uint8, inputs: seq<Input>)
    requires CanStart(s, dup) && Lasts(Begun(s, dup), inputs)
    ensures var t, steps := ActAll(Begun(s, dup), inputs), StepsOf(Begun(s, dup), inputs);
            && t.reports == s.reports + Heard(steps, dup == 0x01)
            && t.cache == if dup == 0x01 then First64(Distinct(PeersOf(Accepted(steps)))) else []
  {
    hide Lasts, StepsOf, Accepted, Heard, Session, Proper, Peers, Msec, PeersOf, CacheAfter, Begun, Distinct;
    BegunCache(s, dup);
    var begun := Begun(s, dup);
    var steps := StepsOf(begun, inputs);
    SessionRuns(begun, inputs);
    SessionSays(steps, dup == 0x01);
    CacheIsFirst64(PeersOf(Accepted(steps)));
  }

  /** The advertising reports of a session, scan responses aside: who is named in them, and how often. */
  lemma ScanSessionPeers(s: Station, dup: uint8, inputs: seq<Input>)
    requires CanStart(s, dup) && Lasts(Begun(s, dup), inputs) && NoneLikeResponse(StepsOf(Begun(s, dup), inputs))
    ensures var t, seen := ActAll(Begun(s, dup), inputs), Accepted(StepsOf(Begun(s, dup), inputs));
            && s.reports <= t.reports
            && Reported(t.reports[|s.reports|..]) == if dup == 0x01 then Passed(seen) else Told(seen)
  {
    hide Lasts, StepsOf, Accepted, Passed, Told, Reported, Session, Proper, Peers, Msec, PeersOf, CacheAfter, Begun;
    BegunCache(s, dup);
    var begun := Begun(s, dup);
    SessionRuns(begun, inputs);
    if dup == 0x01 {
      SessionReports(StepsOf(begun, inputs));
    } else {
      SessionReportsAll([], StepsOf(begun, inputs));
    }
    var reports := Session([], StepsOf(begun, inputs)).1;
    assert (s.reports + reports)[|s.reports|..] == reports;
  }

  lemma BegunCache(s: Station, dup: uint8)
    requires CanStart(s, dup)
    ensures var begun := Begun(s, dup);
            begun.cache == [] && begun.reports == s.reports && begun.radio.filterDup == dup <= 0x01
  {
    hide Proper, Peers;
  }

  // ---------------------------------------------------------------- on which channel, and in which window

  /**
   * When a session takes a packet: in a window, on the channel to which the windows opened so far have
   * brought it, and from a sender that the policy accepts as the lists are then.
   */
  lemma TakenOnChannel(s: Station, dup: uint8, inputs: seq<Input>, pkt: Packet)
    requires CanStart(s, dup) && EnabledIffTimer(s.radio) && s.radio.interval != s.radio.window + 1
    requires StaysOn(SchedulesOf(inputs)) && AllRearmed(SchedulesOf(inputs))
    ensures var r, t := s.radio, ActAll(Begun(s, dup), inputs);
            var ticks := Ticks(SchedulesOf(inputs));
            Accepts(t.View(), pkt)
            <==> && !t.masked && (r.window == r.interval || ticks % 2 == 0)
                 && pkt.channel == Advance(37, if r.window == r.interval then ticks else ticks / 2)
                 && (Strict(t.radio.scanPolicy) ==> Listed(t.View(), Sender(t.View(), pkt)))
  {
    hide Proper, Peers, Listed, Sender, Ticks, Advance, ActAll, StaysOn, AllRearmed, SchedulesOf;
    BegunInWindow(s, dup);
    hide Begun, On;
    RadioRuns(Begun(s, dup), inputs);
    ChannelsCycle(Begun(s, dup).radio, SchedulesOf(inputs));
  }

  lemma BegunInWindow(s: Station, dup: uint8)
    requires CanStart(s, dup) && EnabledIffTimer(s.radio)
    ensures var r := Begun(s, dup).radio;
            InWindow(r) && r.channel == 37 && r.interval == s.radio.interval && r.window == s.radio.window
  {
    hide Proper;
  }

  // ---------------------------------------------------------------- peers whose key is known

  /** The resolving list holds, for the identity `id`, the key that the address was made with. */
  ghost predicate Holds(s: Station, id: Peer, p: Peer)
  {
    && Resolvable(p)
    && exists i :: 0 <= i < |s.resolv| && PeerOf(s.resolv[i]) == id && Matches(s.ah, s.resolv[i], p)
  }

  /** The input takes the key away, or makes it irrelevant. */
  predicate Forgets(i: Input, id: Peer)
  {
    || (i.Schedule? && (i.e.Reset? || (i.e.SetScanParams? && !Strict(i.e.scan.policy))))
    || (i.SetResolvEnable? && i.enable == 0x00)
    || i == RemoveResolv(id.kind, id.addr) || i.ClearResolv?
  }

  ghost predicate Guarded(s: Station, id: Peer, p: Peer)
  {
    s.Valid() && s.resolving && Strict(s.radio.scanPolicy) && Holds(s, id, p)
  }

  lemma InputKeepsGuard(s: Station, id: Peer, p: Peer, i: Input)
    requires Guarded(s, id, p) && !Forgets(i, id)
    ensures Guarded(Act(s, i), id, p)
  {
    hide Proper, Peers, Receive, On;
    ActKeeps(s, i);
    if i.Schedule? { PolicyStays(s.radio, i.e); }
    var t := Act(s, i);
    var k :| 0 <= k < |s.resolv| && PeerOf(s.resolv[k]) == id && Matches(s.ah, s.resolv[k], p);
    if i.RemoveResolv? {
      StaysListed(s.resolv, t.resolv, k);
    } else if i.AddResolv? {
      StaysListed(s.resolv, t.resolv, k);
    }
    assert t.resolv[k] == s.resolv[k];
  }

  lemma PolicyStays(r: Radio, e: Event)
    requires ParamsInRange(r) && Strict(r.scanPolicy) && !e.Reset? && (e.SetScanParams? ==> Strict(e.scan.policy))
    ensures Strict(On(r, e).radio.scanPolicy)
  {
    hide Msec;
  }

  lemma StaysListed(before: seq<Slot>, after: seq<Slot>, k: nat)
    requires k < |before| && Live(before[k]) && |after| == |before|
    requires forall i :: 0 <= i < |before| && after[i] != before[i] ==> !Live(before[i]) || before[i] != before[k]
    ensures after[k] == before[k]
  {
  }

  /** A packet from such a peer has no effect at all. */
  lemma PacketIgnored(s: Station, id: Peer, pkt: Packet)
    requires Guarded(s, id, pkt.sender)
    ensures Act(s, Receives(pkt)) == s
  {
    hide Proper, Peers;
    PeersKinds(s.white);
    WhiteListPolicy(s.View(), pkt);
    assert Known(s.View(), pkt.sender);
    assert s.reports + [] == s.reports;
  }

  /** The inputs without the packets of one sender. */
  function Without(inputs: seq<Input>, p: Peer): seq<Input>
  {
    if inputs == [] then []
    else
      var last := inputs[|inputs| - 1];
      Without(inputs[..|inputs| - 1], p) + if last.Receives? && last.pkt.sender == p then [] else [last]
  }

  /**
   * Under a white list policy the packets of a peer whose key the controller was given change nothing,
   * whether or not the peer is listed: over every sequence of commands, timers, list changes and packets
   * that leaves the key where it is, the controller ends as if they had never been sent.
   */
  lemma {:induction false} KnownHasNoEffect(s: Station, id: Peer, p: Peer, inputs: seq<Input>)
    requires Guarded(s, id, p) && forall i :: i in inputs ==> !Forgets(i, id)
    ensures ActAll(s, inputs) == ActAll(s, Without(inputs, p)) && Guarded(ActAll(s, inputs), id, p)
  {
    hide Act, Holds, Forgets, Proper, Peers, ParamsInRange;
    if inputs != [] {
      var n := |inputs| - 1;
      KnownHasNoEffect(s, id, p, inputs[..n]);
      var t, rest, last := ActAll(s, inputs[..n]), Without(inputs[..n], p), inputs[n];
      assert last in inputs;
      InputKeepsGuard(t, id, p, last);
      if last.Receives? && last.pkt.sender == p {
        PacketIgnored(t, id, last.pkt);
        assert rest + [] == rest;
      } else {
        assert (rest + [last])[..|rest|] == rest;
      }
    }
  }
}
