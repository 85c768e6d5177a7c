/** Every schedule of moves stays on the path of phases: the invariant, and the bound on the work. */
module SmpReach {
  import opened SmpTypes
  import opened SmpSpec
  import opened SmpSystem
  import opened SmpPhases
  import opened SmpSteps
  import opened SmpHandlers

  // ---------------------------------------------------------------- what a step puts in flight

  lemma {:induction false} PdusOfConcat(a: seq<Down>, b: seq<Down>)
    ensures PdusOf(a + b) == PdusOf(a) + PdusOf(b)
  {
    if a == [] {
      assert a + b == b;
    } else {
      var rest := a[1..];
      assert (a + b)[1..] == rest + b && (a + b)[0] == a[0];
      PdusOfConcat(rest, b);
      var head := if a[0].Send? then [a[0].pdu] else [];
      assert PdusOf(a + b) == head + PdusOf(rest + b);
      assert head + (PdusOf(rest) + PdusOf(b)) == (head + PdusOf(rest)) + PdusOf(b);
    }
  }

  lemma {:induction false} PdusOfSends(pdus: seq<Pdu>)
    ensures PdusOf(Sends(pdus)) == pdus
  {
    if pdus != [] {
      assert Sends(pdus)[1..] == Sends(pdus[1..]);
      PdusOfSends(pdus[1..]);
      assert pdus == [pdus[0]] + pdus[1..];
    }
  }

  lemma {:induction false} PdusOfOrders(cmds: seq<Down>)
    requires forall j :: 0 <= j < |cmds| ==> !cmds[j].Send?
    ensures PdusOf(cmds) == []
  {
    if cmds != [] {
      PdusOfOrders(cmds[1..]);
    }
  }

  lemma PdusOfSteps(pdus: seq<Pdu>, cmds: seq<Down>)
    requires forall j :: 0 <= j < |cmds| ==> !cmds[j].Send?
    ensures PdusOf(Sends(pdus) + cmds) == pdus
  {
    PdusOfConcat(Sends(pdus), cmds);
    PdusOfSends(pdus);
    PdusOfOrders(cmds);
  }

  /** A step's output lengthens what is in flight by its PDUs and then its orders. */
  lemma InFlight(ups: seq<Up>, downs: seq<Down>, pdus: seq<Pdu>, cmds: seq<Down>)
    ensures OfUps(ups) + OfDowns(downs + (Sends(pdus) + cmds))
         == OfUps(ups) + OfDowns(downs) + Msgs(pdus) + OfDowns(cmds)
  {
  }

  /** The head of what is in flight is the head of the host's queue, if that has one. */
  lemma HeadTaken(ups: seq<Up>, downs: seq<Down>)
    requires ups != []
    ensures var flight := OfUps(ups) + OfDowns(downs);
            flight != [] && flight[0] == ForHost(ups[0]) && OfUps(ups[1..]) + OfDowns(downs) == flight[1..]
  {
  }

  // ---------------------------------------------------------------- the hosts

  /** Some event or PDU heads what is in flight to the initiator's host. */
  predicate AwaitedI(e: Env, p: Phase)
    requires Valid(e, p)
  {
    ToIAt(e, p) != [] && ToIAt(e, p)[0].ForHost?
  }

  predicate AwaitedR(e: Env, p: Phase)
    requires Valid(e, p)
  {
    ToRAt(e, p) != [] && ToRAt(e, p)[0].ForHost?
  }

  lemma LeadsI(e: Env, p: Phase)
    requires Honest(e) && Valid(e, p) && AwaitedI(e, p)
    ensures HandlesI(e, p) && BooksI(e, p, NextI(e, p))
  {
    hide HandlesI, BooksI;
    match p
    case RspSent => ResponseI(e); BooksResponseI(e);
    case LegacyCfm2 => LegacyConfirmI(e); BooksLegacyI(e);
    case LegacyRnd2 => LegacyRandomI(e); BooksLegacyI(e);
    case KeyAnswered => PublicKeyI(e); BooksPublicKeyI(e);
    case JwCfm => JustWorksConfirmI(e); BooksJustWorksConfirmI(e);
    case JwRnd2 => JustWorksRandomI(e); BooksJustWorksRandomI(e);
    case RoundCfm2(k) => RoundConfirmI(e, k); BooksRoundConfirmI(e, k);
    case RoundRnd2(k) =>
      BooksRoundRandomI(e, k);
      if k == 19 { LastRandomI(e); } else { RoundRandomI(e, k); }
    case Check2(failed) => CheckedI(e, failed); BooksCheckI(e, failed);
    case Refused => KeyMissingI(e); BooksRefusedI(e);
    case Keys(_, _, _, _) => KeysHandledI(e, p); BooksKeysI(e, p);
    case _ =>
  }

  lemma LeadsR(e: Env, p: Phase)
    requires Honest(e) && Valid(e, p) && AwaitedR(e, p)
    ensures HandlesR(e, p) && BooksR(e, p, NextR(e, p))
  {
    hide HandlesR, BooksR;
    match p
    case ReqSent => RequestR(e); BooksRequestR(e);
    case LegacyCfm1 => LegacyConfirmR(e); BooksLegacyR(e);
    case LegacyRnd1 => LegacyRandomR(e); BooksLegacyR(e);
    case KeySent => PublicKeyR(e); BooksPublicKeyR(e);
    case JwRnd1 => JustWorksR(e); BooksJustWorksR(e);
    case RoundCfm1(k) => RoundConfirmR(e, k); BooksRoundConfirmR(e, k);
    case RoundRnd1(k) => RoundRandomR(e, k); BooksRoundRandomR(e, k);
    case Check1 => CheckedR(e); BooksCheckR(e);
    case Encrypt(failed, atPeer) => LtkAskedR(e, failed, atPeer); BooksEncryptR(e, failed, atPeer);
    case Keys(_, _, _, _) => KeysHandledR(e, p); BooksKeysR(e, p);
    case _ =>
  }

  /** `Valid` first, so that the rest of the invariant can be hidden piece by piece. */
  lemma HostIKeepsInv(e: Env, s: System, p: Phase)
    requires Honest(e) && Inv(e, s, p) && s.iUp != []
    ensures Valid(e, p) && AwaitedI(e, p) && Valid(e, NextI(e, p))
    ensures Inv(e, Do(e, s, HostI), NextI(e, p)) && Rank(e, NextI(e, p)) < Rank(e, p)
    ensures |Do(e, s, HostI).iDown| <= |s.iDown| + 5
  {
    hide IAt, RAt, ToIAt, ToRAt, ILogAt, RLogAt, IDevAt, RDevAt, HostStep, SaidI, OrdersI, NextI, Rank, PdusOf;
    HeadTaken(s.iUp, s.rDown);
    LeadsI(e, p);
    NoSendOrdered(e, p);
    PdusOfSteps(SaidI(e, p), OrdersI(e, p));
    InFlight(s.rUp, s.iDown, SaidI(e, p), OrdersI(e, p));
  }

  lemma NoSendOrdered(e: Env, p: Phase)
    ensures forall j :: 0 <= j < |OrdersI(e, p)| ==> !OrdersI(e, p)[j].Send?
    ensures forall j :: 0 <= j < |OrdersR(e, p)| ==> !OrdersR(e, p)[j].Send?
  {
  }

  lemma HostRKeepsInv(e: Env, s: System, p: Phase)
    requires Honest(e) && Inv(e, s, p) && s.rUp != []
    ensures Valid(e, p) && AwaitedR(e, p) && Valid(e, NextR(e, p))
    ensures Inv(e, Do(e, s, HostR), NextR(e, p)) && Rank(e, NextR(e, p)) < Rank(e, p)
    ensures |Do(e, s, HostR).rDown| <= |s.rDown| + 5
  {
    hide IAt, RAt, ToIAt, ToRAt, ILogAt, RLogAt, IDevAt, RDevAt, HostStep, SaidR, OrdersR, NextR, Rank, PdusOf;
    HeadTaken(s.rUp, s.iDown);
    LeadsR(e, p);
    NoSendOrdered(e, p);
    PdusOfSteps(SaidR(e, p), OrdersR(e, p));
    InFlight(s.iUp, s.rDown, SaidR(e, p), OrdersR(e, p));
  }

  // ---------------------------------------------------------------- the controllers

  /** A controller that takes an ACL packet moves it along its way. */
  lemma Forwarded(ups: seq<Up>, downs: seq<Down>)
    requires downs != [] && downs[0].Send?
    ensures OfUps(ups + [Receive(downs[0].pdu)]) + OfDowns(downs[1..]) == OfUps(ups) + OfDowns(downs)
  {
  }

  lemma DeviceForwards(e: Env, s: System, p: Phase)
    requires Inv(e, s, p)
    ensures s.iDown != [] && s.iDown[0].Send? ==> Inv(e, Do(e, s, DeviceI), p)
    ensures s.rDown != [] && s.rDown[0].Send? ==> Inv(e, Do(e, s, DeviceR), p)
  {
    hide Valid, IAt, RAt, ToIAt, ToRAt, ILogAt, RLogAt, IDevAt, RDevAt, HostStep;
    if s.iDown != [] && s.iDown[0].Send? { Forwarded(s.rUp, s.iDown); }
    if s.rDown != [] && s.rDown[0].Send? { Forwarded(s.iUp, s.rDown); }
    assert s.iUp + [] == s.iUp && s.rUp + [] == s.rUp;
  }

  /** A command at the head of a controller's queue shows in what is in flight. */
  lemma OrderInFlight(ups: seq<Up>, downs: seq<Down>)
    requires downs != [] && !downs[0].Send?
    ensures var flight := OfUps(ups) + OfDowns(downs);
            && |flight| == |ups| + |downs| && flight[|ups|] == ForDevice(downs[0])
            && flight[..|ups|] == OfUps(ups)
  {
  }

  /** The only phases in which a controller has an order to carry out, and which one. */
  lemma OrderPhaseI(e: Env, p: Phase, j: nat)
    requires Valid(e, p) && j < |ToRAt(e, p)| && ToRAt(e, p)[j].ForDevice?
    ensures p.Encrypt? && !p.atPeer && ToRAt(e, p)[j] == ForDevice(StartEncrypt(Ltk(e)))
  {
    hide IAt, RAt, HostStep, ILogAt, RLogAt, Ltk, Mask, KeyPdus, PeerDone;
  }

  lemma OrderPhaseR(e: Env, p: Phase, j: nat)
    requires Valid(e, p) && j < |ToIAt(e, p)| && ToIAt(e, p)[j].ForDevice?
    ensures p.Replying? || p.Refusing?
  {
    hide IAt, RAt, HostStep, ILogAt, RLogAt, Ltk, Mask, KeyPdus, PeerDone;
  }

  lemma StartEncryptHead(e: Env, s: System, p: Phase)
    requires Inv(e, s, p) && s.iDown != [] && !s.iDown[0].Send?
    ensures p.Encrypt? && !p.atPeer && s.iDown == [StartEncrypt(Ltk(e))] && OfUps(s.rUp) == FailedItem(p.failed)
  {
    hide IAt, RAt, ToIAt, ILogAt, RLogAt, IDevAt, RDevAt, HostStep, Ltk;
    OrderInFlight(s.rUp, s.iDown);
    OrderPhaseI(e, p, |s.rUp|);
    assert ToRAt(e, p)[..|s.rUp|] == FailedItem(p.failed);
  }

  lemma StartEncryptTaken(e: Env, s: System, p: Phase)
    requires Inv(e, s, p) && s.iDown != [] && !s.iDown[0].Send?
    ensures p.Encrypt? && !p.atPeer && Inv(e, Do(e, s, DeviceI), Encrypt(p.failed, true))
  {
    hide Mask, KeyPdus, IKeyed, RKeyed, IPaired, RPaired, HostStep, Ltk, PairingI, PairingR;
    StartEncryptHead(e, s, p);
    assert OfUps(s.rUp + [LtkRequest]) == OfUps(s.rUp) + [ForHost(LtkRequest)];
  }

  lemma LtkReplyTaken(e: Env, s: System, p: Phase)
    requires Inv(e, s, p) && s.rDown != [] && !s.rDown[0].Send? && p.Replying?
    ensures Inv(e, Do(e, s, DeviceR), Keys(false, 0, false, 0)) && Rank(e, Keys(false, 0, false, 0)) < Rank(e, p)
  {
    hide IPaired, RPaired, HostStep, Ltk, PairingI, PairingR;
    OrderInFlight(s.iUp, s.rDown);
    PeerDoneLast(e, 0);
    PairedValues(e);
    DrainSteps(Mask(e), e.ra, 0);
    assert s.iUp == [] && s.rUp == [] && s.iDown == [] && s.rDown == [LtkReply(Ltk(e))];
  }

  lemma LtkNegReplyTaken(e: Env, s: System, p: Phase)
    requires Inv(e, s, p) && s.rDown != [] && !s.rDown[0].Send? && p.Refusing?
    ensures Inv(e, Do(e, s, DeviceR), Refused) && Rank(e, Refused) < Rank(e, p)
  {
    hide IPaired, RPaired, HostStep, Ltk, PairingI, PairingR;
    OrderInFlight(s.iUp, s.rDown);
    assert s.iUp == [] && s.rUp == [] && s.iDown == [] && s.rDown == [LtkNegReply];
  }

  // ---------------------------------------------------------------- every run

  /** What is left to do: the phases to come, and the packets that controllers still hold. */
  function Measure(e: Env, s: System, p: Phase): nat
    requires Valid(e, p)
  {
    6 * Rank(e, p) + |s.iDown| + |s.rDown|
  }

  lemma DeviceIKeepsInv(e: Env, s: System, p: Phase) returns (p': Phase)
    requires Inv(e, s, p) && s.iDown != []
    ensures Inv(e, Do(e, s, DeviceI), p') && Rank(e, p') <= Rank(e, p)
    ensures Measure(e, Do(e, s, DeviceI), p') < Measure(e, s, p)
  {
    hide IAt, RAt, ToIAt, ToRAt, ILogAt, RLogAt, IDevAt, RDevAt, HostStep, NextI, NextR;
    p' := p;
    if s.iDown[0].Send? {
      DeviceForwards(e, s, p);
    } else {
      StartEncryptTaken(e, s, p);
      p' := Encrypt(p.failed, true);
    }
  }

  lemma DeviceTakes(e: Env, s: System)
    requires s.rDown != []
    ensures var s' := Do(e, s, DeviceR); |s'.rDown| == |s.rDown| - 1 && s'.iDown == s.iDown
  {
    hide HostStep;
  }

  lemma OrderOfR(e: Env, s: System, p: Phase)
    requires Inv(e, s, p) && s.rDown != [] && !s.rDown[0].Send?
    ensures p.Replying? || p.Refusing?
  {
    hide IAt, RAt, ToIAt, ToRAt, ILogAt, RLogAt, IDevAt, RDevAt;
    OrderInFlight(s.iUp, s.rDown);
    OrderPhaseR(e, p, |s.iUp|);
  }

  lemma DeviceRKeepsInv(e: Env, s: System, p: Phase) returns (p': Phase)
    requires Inv(e, s, p) && s.rDown != []
    ensures Inv(e, Do(e, s, DeviceR), p') && Rank(e, p') <= Rank(e, p)
    ensures Measure(e, Do(e, s, DeviceR), p') < Measure(e, s, p)
  {
    hide Rank, Valid, Do, IAt, RAt, ToIAt, ToRAt, ILogAt, RLogAt, IDevAt, RDevAt, HostStep, NextI, NextR;
    p' := p;
    DeviceTakes(e, s);
    if s.rDown[0].Send? {
      DeviceForwards(e, s, p);
      return;
    }
    OrderOfR(e, s, p);
    if p.Replying? {
      LtkReplyTaken(e, s, p);
      p' := Keys(false, 0, false, 0);
    } else {
      LtkNegReplyTaken(e, s, p);
      p' := Refused;
    }
  }

  lemma MoveKeepsInv(e: Env, s: System, p: Phase, m: Move) returns (p': Phase)
    requires Honest(e) && Inv(e, s, p)
    ensures Inv(e, Do(e, s, m), p') && Rank(e, p') <= Rank(e, p)
    ensures Enabled(s, m) ==> Measure(e, Do(e, s, m), p') < Measure(e, s, p)
    ensures !Enabled(s, m) ==> p' == p && Do(e, s, m) == s
  {
    hide IAt, RAt, ToIAt, ToRAt, ILogAt, RLogAt, IDevAt, RDevAt, HostStep, NextI, NextR;
    p' := p;
    if !Enabled(s, m) { return; }
    match m
    case HostI =>
      HostIKeepsInv(e, s, p);
      p' := NextI(e, p);
    case HostR =>
      HostRKeepsInv(e, s, p);
      p' := NextR(e, p);
    case DeviceI => p' := DeviceIKeepsInv(e, s, p);
    case DeviceR => p' := DeviceRKeepsInv(e, s, p);
  }

  lemma StartKeepsInv(e: Env)
    ensures Inv(e, Start(e), ReqSent) && Measure(e, Start(e), ReqSent) == 619
  {
    hide HostStep;
    assert Start(e).iDown == [Send(PairingRequest(Req(e)))];
    assert PdusOf(Start(e).iDown) == [PairingRequest(Req(e))];
    assert OfDowns(Start(e).iDown) == [Msg(PairingRequest(Req(e)))];
  }

  /** Every schedule leads to a phase, and no schedule finds more than 619 moves to make. */
  lemma {:induction false} Reach(e: Env, moves: seq<Move>) returns (p: Phase)
    requires Honest(e)
    ensures Inv(e, Exec(e, moves), p)
    ensures Measure(e, Exec(e, moves), p) + Work(e, moves) <= 619
    decreases |moves|
  {
    hide IAt, RAt, ToIAt, ToRAt, ILogAt, RLogAt, IDevAt, RDevAt, HostStep, NextI, NextR, Do;
    if moves == [] {
      StartKeepsInv(e);
      p := ReqSent;
    } else {
      var p0 := Reach(e, moves[..|moves| - 1]);
      p := MoveKeepsInv(e, Exec(e, moves[..|moves| - 1]), p0, moves[|moves| - 1]);
    }
  }

  /** Continuing a run never goes back to an earlier phase. */
  lemma {:induction false} ReachOn(e: Env, moves: seq<Move>, more: seq<Move>, p: Phase) returns (p': Phase)
    requires Honest(e) && Inv(e, Exec(e, moves), p)
    ensures Inv(e, Exec(e, moves + more), p') && Rank(e, p') <= Rank(e, p)
    decreases |more|
  {
    hide IAt, RAt, ToIAt, ToRAt, ILogAt, RLogAt, IDevAt, RDevAt, HostStep, NextI, NextR, Do;
    if more == [] {
      assert moves + more == moves;
      p' := p;
    } else {
      var init, last := more[..|more| - 1], more[|more| - 1];
      var p0 := ReachOn(e, moves, init, p);
      assert (moves + more)[..|moves + more| - 1] == moves + init;
      p' := MoveKeepsInv(e, Exec(e, moves + init), p0, last);
    }
  }
}
