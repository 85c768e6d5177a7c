/** Each handler, run on the connection of its phase and the packet in flight, gives the next phase. */
module SmpHandlers {
  import opened Bytes
  import opened SmpTypes
  import opened SmpSpec
  import opened SmpSystem
  import opened SmpPhases
  import opened SmpSteps

  /** The initiator's handler does what `NextI`, `SaidI` and `OrdersI` say, and the responder is as before. */
  ghost predicate HandlesI(e: Env, p: Phase)
    requires Valid(e, p) && ToIAt(e, p) != [] && ToIAt(e, p)[0].ForHost?
  {
    && Valid(e, NextI(e, p))
    && HostStep(e, IAt(e, p), ToIAt(e, p)[0].up) == Step(IAt(e, NextI(e, p)), Sends(SaidI(e, p)) + OrdersI(e, p))
    && RAt(e, NextI(e, p)) == RAt(e, p)
  }

  ghost predicate HandlesR(e: Env, p: Phase)
    requires Valid(e, p) && ToRAt(e, p) != [] && ToRAt(e, p)[0].ForHost?
  {
    && Valid(e, NextR(e, p))
    && HostStep(e, RAt(e, p), ToRAt(e, p)[0].up) == Step(RAt(e, NextR(e, p)), Sends(SaidR(e, p)) + OrdersR(e, p))
    && IAt(e, NextR(e, p)) == IAt(e, p)
  }

  lemma SendsOne(p: Pdu)
    ensures Sends([p]) == [Send(p)]
  {
  }

  // ---------------------------------------------------------------- features

  lemma RequestR(e: Env)
    ensures HandlesR(e, ReqSent)
  {
    SendsOne(PairingResponse(Rsp(e)));
  }

  lemma ResponseI(e: Env)
    requires Honest(e)
    ensures HandlesI(e, RspSent)
  {
    SendsOne(PublicKeyPdu(PkI(e)));
    SendsOne(PairingConfirm(LegacyConfirm(e)));
  }

  // ---------------------------------------------------------------- legacy pairing

  lemma LegacyConfirmR(e: Env)
    requires Honest(e) && !Sc(e)
    ensures HandlesR(e, LegacyCfm1)
  {
    SendsOne(PairingConfirm(LegacyConfirm(e)));
  }

  lemma LegacyConfirmI(e: Env)
    requires Honest(e) && !Sc(e)
    ensures HandlesI(e, LegacyCfm2)
  {
    SendsOne(PairingRandom(ZERO));
  }

  lemma LegacyRandomR(e: Env)
    requires Honest(e) && !Sc(e)
    ensures HandlesR(e, LegacyRnd1)
  {
    SendsOne(PairingRandom(ZERO));
  }

  lemma LegacyRandomI(e: Env)
    requires Honest(e) && !Sc(e)
    ensures HandlesI(e, LegacyRnd2)
  {
  }

  // ---------------------------------------------------------------- public keys

  /** The responder answers a public key with its own, and with a confirm value unless a passkey is used. */
  lemma PublicKeyTaken(e: Env, c: Conn, key: PublicKey)
    requires !c.out
    ensures var mine := e.crypto.makeKey(e.skR);
            var next := c.(localSk := e.skR, localPk := mine, remotePk := key, dhkey := e.crypto.ecdh(key, e.skR),
                           assoc := SelectMethod(c.sc, c.initiator, c.prsp, c.preq));
            HostStep(e, c, Receive(PublicKeyPdu(key)))
            == Step(next, Sends([PublicKeyPdu(mine)]
                                + if IsPasskey(next.assoc) then []
                                  else [PairingConfirm(e.crypto.f4(mine, key, c.prnd, 0))]))
  {
    hide SelectMethod, ShiftRight;
    var mine := e.crypto.makeKey(e.skR);
    var confirm := PairingConfirm(e.crypto.f4(mine, key, c.prnd, 0));
    SendsOne(PublicKeyPdu(mine));
    assert Sends([PublicKeyPdu(mine)] + [confirm]) == [Send(PublicKeyPdu(mine)), Send(confirm)];
  }

  lemma PublicKeyR(e: Env)
    requires Sc(e)
    ensures HandlesR(e, KeySent)
  {
    hide HostStep, SelectMethod, ShiftRight;
    MethodsAgree(Req(e), Rsp(e), false, false);
    PublicKeyTaken(e, R1(e), PkI(e));
  }

  lemma PublicKeyI(e: Env)
    requires Sc(e)
    ensures HandlesI(e, KeyAnswered)
  {
    SendsOne(PairingConfirm(CfmI(e, 0)));
  }

  // ---------------------------------------------------------------- just works

  lemma JustWorksR(e: Env)
    requires Sc(e) && !Passkey(e)
    ensures HandlesR(e, JwRnd1)
  {
    MethodsAgree(Req(e), Rsp(e), false, false);
    SendsOne(PairingRandom(e.nonceR));
  }

  lemma JustWorksConfirmI(e: Env)
    requires Sc(e) && !Passkey(e)
    ensures HandlesI(e, JwCfm)
  {
    SendsOne(PairingRandom(e.nonceI));
  }

  lemma JustWorksRandomI(e: Env)
    requires Honest(e) && Sc(e) && !Passkey(e)
    ensures HandlesI(e, JwRnd2)
  {
    SendsOne(DhkeyCheck(CheckI(e)));
  }

  // ---------------------------------------------------------------- passkey rounds

  lemma RoundModeR(e: Env, k: nat)
    requires Sc(e) && Passkey(e) && k < 20
    ensures var c := RRound(e, k);
            !c.out && c.sc && IsPasskey(c.assoc) && c.passkeyRound == k && c.prnd == e.nonceR
  {
    hide ShiftRight, SelectMethod;
    MethodsAgree(Req(e), Rsp(e), false, false);
  }

  lemma RoundModeI(e: Env, k: nat)
    requires Sc(e) && Passkey(e) && k < 20
    ensures var c := IRound(e, k);
            c.out && c.sc && IsPasskey(c.assoc) && c.passkeyRound == k && c.prnd == e.nonceI
  {
    hide ShiftRight, SelectMethod;
  }

  /** The confirm value that each end stored is the one it computes from its peer's random value. */
  lemma RoundValues(e: Env, k: nat)
    requires Sc(e) && Passkey(e) && k < 20
    ensures var c := RRound(e, k).(pcnf := CfmI(e, k));
            c.pcnf == e.crypto.f4(c.remotePk, c.localPk, e.nonceI, PasskeyBit(c))
    ensures var c := IRound(e, k).(pcnf := CfmR(e, k));
            c.pcnf == e.crypto.f4(c.remotePk, c.localPk, e.nonceR, PasskeyBit(c))
  {
    hide ShiftRight, SelectMethod;
  }

  /** Where the responder stands after its half of round `k`; the last one derives the keys. */
  lemma RoundEndsR(e: Env, k: nat)
    requires Sc(e) && Passkey(e) && k < 20
    ensures var next := RRound(e, k).(pcnf := CfmI(e, k), rrnd := e.nonceI, passkeyRound := k + 1);
            if k == 19 then MackeyAndLtk(e.crypto, next) == RKeyed(e) else next == RRound(e, k + 1)
  {
    hide ShiftRight, SelectMethod;
  }

  /** Where the initiator stands; it derives the same keys because the shared secret is symmetric. */
  lemma RoundEndsI(e: Env, k: nat)
    requires Honest(e) && Sc(e) && Passkey(e) && k < 20
    ensures var next := IRound(e, k).(pcnf := CfmR(e, k), rrnd := e.nonceR, passkeyRound := k + 1);
            if k == 19 then MackeyAndLtk(e.crypto, next) == IKeyed(e) else next == IRound(e, k + 1)
  {
    hide ShiftRight, SelectMethod;
  }

  lemma ConfirmSentR(e: Env, c: Conn, value: Block)
    requires !c.out && c.sc && IsPasskey(c.assoc) && c.passkeyRound < 20
    ensures HostStep(e, c, Receive(PairingConfirm(value)))
         == Step(c.(pcnf := value), Sends([PairingConfirm(e.crypto.f4(c.localPk, c.remotePk, c.prnd, PasskeyBit(c)))]))
  {
    SendsOne(PairingConfirm(e.crypto.f4(c.localPk, c.remotePk, c.prnd, PasskeyBit(c))));
  }

  lemma RandomSentI(e: Env, c: Conn, value: Block)
    requires c.out && c.sc && (IsPasskey(c.assoc) ==> c.passkeyRound < 20)
    ensures HostStep(e, c, Receive(PairingConfirm(value))) == Step(c.(pcnf := value), Sends([PairingRandom(c.prnd)]))
  {
    SendsOne(PairingRandom(c.prnd));
  }

  lemma RoundConfirmR(e: Env, k: nat)
    requires Sc(e) && Passkey(e) && k < 20
    ensures HandlesR(e, RoundCfm1(k))
  {
    hide HostStep, RKeyed, IRound, IKeyed, ShiftRight;
    RoundModeR(e, k);
    ConfirmSentR(e, RRound(e, k), CfmI(e, k));
  }

  lemma RoundConfirmI(e: Env, k: nat)
    requires Sc(e) && Passkey(e) && k < 20
    ensures HandlesI(e, RoundCfm2(k))
  {
    hide HostStep, RRound, RKeyed, IRound, IKeyed, PasskeyBit, CfmI, CfmR;
    RoundModeI(e, k);
    RandomSentI(e, IRound(e, k), CfmR(e, k));
  }

  /** A random value that matches its confirm value ends the round at the responder. */
  lemma RoundAnswered(e: Env, c: Conn, rnd: Block)
    requires !c.out && c.sc && IsPasskey(c.assoc) && c.passkeyRound < 20
    requires c.pcnf == e.crypto.f4(c.remotePk, c.localPk, rnd, PasskeyBit(c))
    ensures var next := c.(rrnd := rnd, passkeyRound := c.passkeyRound + 1);
            HostStep(e, c, Receive(PairingRandom(rnd)))
            == Step(if c.passkeyRound == 19 then MackeyAndLtk(e.crypto, next) else next, Sends([PairingRandom(c.prnd)]))
  {
    SendsOne(PairingRandom(c.prnd));
  }

  /** The same at the initiator, which opens the next round or the DHKey checks. */
  lemma RoundClosed(e: Env, c: Conn, rnd: Block)
    requires c.out && c.sc && IsPasskey(c.assoc) && c.passkeyRound < 20
    requires c.pcnf == e.crypto.f4(c.remotePk, c.localPk, rnd, PasskeyBit(c))
    ensures var next := c.(rrnd := rnd, passkeyRound := c.passkeyRound + 1);
            HostStep(e, c, Receive(PairingRandom(rnd)))
            == if c.passkeyRound == 19 then SendDhkeyCheck(e.crypto, MackeyAndLtk(e.crypto, next))
               else PasskeySendConfirm(e.crypto, next)
  {
  }

  lemma RoundRandomR(e: Env, k: nat)
    requires Sc(e) && Passkey(e) && k < 20
    ensures HandlesR(e, RoundRnd1(k))
  {
    hide HostStep, RRound, RKeyed, IRound, IKeyed, MackeyAndLtk, PasskeyBit, CfmI, CfmR;
    RoundModeR(e, k);
    RoundValues(e, k);
    RoundEndsR(e, k);
    RoundAnswered(e, RRound(e, k).(pcnf := CfmI(e, k)), e.nonceI);
  }

  lemma RoundOpens(e: Env, k: nat)
    requires k < 20
    ensures PasskeySendConfirm(e.crypto, IRound(e, k)) == Step(IRound(e, k), Sends([PairingConfirm(CfmI(e, k))]))
  {
    hide HostStep, ShiftRight, SelectMethod;
    SendsOne(PairingConfirm(CfmI(e, k)));
  }

  lemma RoundRandomI(e: Env, k: nat)
    requires Honest(e) && Sc(e) && Passkey(e) && k < 19
    ensures HandlesI(e, RoundRnd2(k))
  {
    hide HostStep, RRound, RKeyed, IRound, IKeyed, MackeyAndLtk, PasskeyBit, CfmI, CfmR,
         SendDhkeyCheck, PasskeySendConfirm;
    RoundModeI(e, k);
    RoundValues(e, k);
    RoundEndsI(e, k);
    RoundClosed(e, IRound(e, k).(pcnf := CfmR(e, k)), e.nonceR);
    RoundOpens(e, k + 1);
  }

  lemma LastRandomI(e: Env)
    requires Honest(e) && Sc(e) && Passkey(e)
    ensures HandlesI(e, RoundRnd2(19))
  {
    hide HostStep, RRound, RKeyed, IRound, IKeyed, MackeyAndLtk, PasskeyBit, CfmI, CfmR,
         SendDhkeyCheck, PasskeySendConfirm;
    RoundModeI(e, 19);
    RoundValues(e, 19);
    RoundEndsI(e, 19);
    RoundClosed(e, IRound(e, 19).(pcnf := CfmR(e, 19)), e.nonceR);
    hide CheckI, Mackey, Ltk, SelectMethod;
    CheckSent(e);
  }

  // ---------------------------------------------------------------- DHKey checks

  /** What either end expects of its peer once the keys are derived. */
  lemma CheckValues(e: Env)
    requires Sc(e)
    ensures ExpectedCheck(e.crypto, RKeyed(e)) == CheckWithI(e, if Passkey(e) then PasskeyBlock(e.passkey) else ZERO)
    ensures ExpectedCheck(e.crypto, IKeyed(e)) == CheckWithR(e, if Passkey(e) then PasskeyBlock(e.passkey) else ZERO)
    ensures IKeyed(e).out && !RKeyed(e).out && IKeyed(e).ltk == Ltk(e)
  {
    hide HostStep;
    MethodsAgree(Req(e), Rsp(e), false, false);
  }

  lemma CheckSent(e: Env)
    requires Sc(e)
    ensures SendDhkeyCheck(e.crypto, RKeyed(e)) == Step(RKeyed(e), Sends([DhkeyCheck(CheckR(e))]))
    ensures SendDhkeyCheck(e.crypto, IKeyed(e)) == Step(IKeyed(e), Sends([DhkeyCheck(CheckI(e))]))
  {
    hide HostStep, ShiftRight, SelectMethod, Mackey;
    SendsOne(DhkeyCheck(CheckR(e)));
    SendsOne(DhkeyCheck(CheckI(e)));
  }

  lemma Checked(e: Env, c: Conn, check: Block)
    ensures HostStep(e, c, Receive(DhkeyCheck(check))) == OnDhkeyCheck(e.crypto, c, check)
  {
  }

  lemma CheckedR(e: Env)
    requires Sc(e)
    ensures HandlesR(e, Check1)
  {
    hide HostStep, RKeyed, IKeyed, ExpectedCheck, SendDhkeyCheck;
    CheckValues(e);
    CheckSent(e);
    Checked(e, RKeyed(e), CheckI(e));
    assert Sends(FailedPdu(true) + [DhkeyCheck(CheckR(e))])
        == [Send(PairingFailed(SMP_DHKEY_CHECK_FAILED)), Send(DhkeyCheck(CheckR(e)))];
    SendsOne(DhkeyCheck(CheckR(e)));
  }

  lemma CheckedI(e: Env, failed: bool)
    requires Valid(e, Check2(failed))
    ensures HandlesI(e, Check2(failed))
  {
    hide HostStep, RKeyed, IKeyed, ExpectedCheck;
    CheckValues(e);
    if failed {
      Ignored(e, IPaired(e), PairingFailed(SMP_DHKEY_CHECK_FAILED));
    } else {
      Checked(e, IKeyed(e), CheckR(e));
      SendsOne(PairingFailed(SMP_DHKEY_CHECK_FAILED));
    }
  }

  // ---------------------------------------------------------------- encryption and keys

  /** `smp_data` has no case for Pairing Failed, and its handlers for two of the key PDUs are empty. */
  lemma Ignored(e: Env, c: Conn, pdu: Pdu)
    requires pdu.PairingFailed? || pdu.EncryptInfo? || pdu.IdentAddrInfo?
    ensures HostStep(e, c, Receive(pdu)) == Step(c, [])
  {
  }

  lemma LtkAsked(e: Env, c: Conn)
    ensures HostStep(e, c, LtkRequest) == Step(c, if c.ltk == ZERO then [LtkNegReply] else [LtkReply(c.ltk)])
  {
  }

  lemma PairedValues(e: Env)
    ensures RPaired(e).ltk == IPaired(e).ltk == Ltk(e) && IPaired(e).out && !RPaired(e).out
    ensures RPaired(e).localKeyDist == RPaired(e).remoteKeyDist == Mask(e)
    ensures IPaired(e).localKeyDist == IPaired(e).remoteKeyDist == Mask(e)
    ensures IPaired(e).ia == e.ia && RPaired(e).ra == e.ra
  {
    hide HostStep;
    MaskValues(e);
  }

  lemma LtkAskedR(e: Env, failed: bool, atPeer: bool)
    requires Valid(e, Encrypt(failed, atPeer)) && (failed || atPeer)
    ensures HandlesR(e, Encrypt(failed, atPeer))
  {
    hide HostStep, RPaired, IPaired, Ltk;
    PairedValues(e);
    if failed {
      Ignored(e, RPaired(e), PairingFailed(SMP_DHKEY_CHECK_FAILED));
    } else {
      LtkAsked(e, RPaired(e));
    }
  }

  lemma EncryptSeen(e: Env, c: Conn, status: uint8)
    ensures HostStep(e, c, EncryptChange(status, 0x01))
         == if status != 0 || (c.out && c.remoteKeyDist != NO_KEYS) then Step(c, [])
            else Step(c, Sends(KeyPdus(c.localKeyDist, if c.out then c.ia else c.ra)))
    ensures HostStep(e, c, ENCRYPT_KEY_MISSING) == Step(c, [])
  {
  }

  lemma KeyMissingI(e: Env)
    requires Ltk(e) == ZERO
    ensures HandlesI(e, Refused)
  {
    hide HostStep, RPaired, IPaired, Ltk;
    EncryptSeen(e, IPaired(e), 0);
  }

  predicate IsKeyPdu(pdu: Pdu)
  {
    pdu.EncryptInfo? || pdu.MasterIdent? || pdu.IdentInfo? || pdu.IdentAddrInfo? || pdu.SigningInfo?
  }

  lemma KeyKinds(m: KeyMask, a: Addr)
    ensures forall n :: 0 <= n < |KeyPdus(m, a)| ==> IsKeyPdu(KeyPdus(m, a)[n])
  {
  }

  /** A key PDU of the peer clears its bit, and the initiator answers the last one. */
  lemma KeyTaken(e: Env, c: Conn, m: KeyMask, pdus: seq<Pdu>, n: nat)
    requires n < |pdus| && IsKeyPdu(pdus[n]) && c.remoteKeyDist == Drain(m, pdus[..n])
    ensures var pdu, left := pdus[n], Drain(m, pdus[..n + 1]);
            HostStep(e, c, Receive(pdu))
            == Step(c.(remoteKeyDist := left),
                    if c.out && !pdu.EncryptInfo? && !pdu.IdentAddrInfo? && left == NO_KEYS
                    then Sends(KeyPdus(c.localKeyDist, c.ia)) else [])
  {
    hide KeyPdus;
    assert pdus[..n + 1][..n] == pdus[..n];
  }

  lemma KeysHandledI(e: Env, p: Phase)
    requires p.Keys? && Valid(e, p) && (p.iSeen ==> p.rSeen && p.nI < |KeysR(e)|)
    ensures HandlesI(e, p)
  {
    hide HostStep, RPaired, IPaired, Ltk;
    PairedValues(e);
    MaskValues(e);
    PeerDoneLast(e, p.nI);
    if p.iSeen {
      PeerDoneLast(e, p.nI + 1);
      KeyKinds(Mask(e), e.ra);
      KeyTaken(e, IAt(e, p), Mask(e), KeysR(e), p.nI);
    } else {
      DrainSteps(Mask(e), e.ra, 0);
      EncryptSeen(e, IAt(e, p), 0);
    }
  }

  lemma KeysHandledR(e: Env, p: Phase)
    requires p.Keys? && Valid(e, p) && (p.rSeen ==> PeerDone(e, p.nI) && p.nR < |KeysI(e)|)
    ensures HandlesR(e, p)
  {
    hide HostStep, RPaired, IPaired, Ltk;
    PairedValues(e);
    PeerDoneLast(e, p.nI);
    if p.rSeen {
      KeyKinds(Mask(e), e.ia);
      KeyTaken(e, RAt(e, p), Mask(e), KeysI(e), p.nR);
    } else {
      EncryptSeen(e, RAt(e, p), 0);
    }
  }
}
