/** `struct smp_conn` and its handlers, which update the record in place. */
module SmpConnection {
  import opened Bytes
  import opened SmpTypes
  import opened SmpSpec

  class SmpConn {
    const host: Host
    const crypto: Crypto
    /** What `ecc_make_key` will draw on this connection. */
    const sk: SecretKey

    // No handler assigns these after smp_conn_add.
    const out: bool
    const initiator: bool
    const ia: Addr
    const ra: Addr
    const tk: Block
    const prnd: Block
    const passkeyNotify: uint8

    var sc: bool
    var assoc: Method
    var localKeyDist: KeyMask
    var remoteKeyDist: KeyMask
    var rrnd: Block
    var pcnf: Block
    var preq: Features
    var prsp: Features
    var ltk: Block
    var localSk: SecretKey
    var localPk: PublicKey
    var remotePk: PublicKey
    var dhkey: DhKey
    var mackey: Block
    var passkeyRound: nat

    /** Everything handed to `bthost_send_cid_v` and `bthost_le_start_encrypt`, oldest first. */
    var outbox: seq<Down>

    function State(): Conn
      reads this
    {
      Conn(out, sc, initiator, assoc, localKeyDist, remoteKeyDist, ia, ra, tk, prnd, rrnd, pcnf,
           preq, prsp, ltk, localSk, localPk, remotePk, dhkey, mackey, passkeyNotify, passkeyRound)
    }

    /** The record is now `step.conn`, and `step.sent` follows what had been sent before. */
    twostate predicate Took(step: Step)
      reads this
    {
      State() == step.conn && outbox == old(outbox) + step.sent
    }

    constructor (host: Host, crypto: Crypto, sk: SecretKey, ia: Addr, ra: Addr, out: bool,
                 prnd: Block, passkey: uint8)
      ensures State() == NewConn(ia, ra, out, prnd, passkey) && outbox == []
      ensures this.host == host && this.crypto == crypto && this.sk == sk
    {
      this.host, this.crypto, this.sk := host, crypto, sk;
      this.out, initiator, this.ia, this.ra, tk := out, false, ia, ra, ZERO;
      this.prnd, passkeyNotify := prnd, passkey;
      sc, assoc, localKeyDist, remoteKeyDist := false, JustWorks, NO_KEYS, NO_KEYS;
      rrnd, pcnf, ltk, mackey := ZERO, ZERO, ZERO, ZERO;
      preq, prsp := NO_FEATURES, NO_FEATURES;
      localSk, localPk, remotePk, dhkey := [], [], [], [];
      passkeyRound, outbox := 0, [];
    }

    method SmpSend(pdu: Pdu)
      modifies this`outbox
      ensures outbox == old(outbox) + [Send(pdu)]
    {
      outbox := outbox + [Send(pdu)];
    }

    method Pair(ioCap: uint8, authReq: AuthReq)
      modifies this
      ensures Took(SmpPair(host, old(State()), ioCap, authReq))
    {
      var dist := host.KeyDist();
      preq := Features(ioCap, 0, authReq, 0x10, dist, dist);
      SmpSend(PairingRequest(preq));
    }

    /** Takes the masks of the response, and drops what Secure Connections does not distribute. */
    method SetKeyDist(local: KeyMask, remote: KeyMask) returns (both: bool)
      modifies this`localKeyDist, this`remoteKeyDist, this`sc
      ensures both == BothSc(preq, prsp)
      ensures Took(Step(Accept(old(State()), preq, prsp, local, remote), []))
    {
      localKeyDist := local;
      remoteKeyDist := remote;
      both := prsp.authReq.sc && preq.authReq.sc;
      if both {
        sc := true;
        localKeyDist := localKeyDist.Without(SC_NO_DIST);
        remoteKeyDist := remoteKeyDist.Without(SC_NO_DIST);
      }
    }

    method PairingReq(req: Features)
      modifies this
      ensures Took(OnPairingReq(host, old(State()), req))
    {
      preq := req;
      prsp := ResponseTo(host, preq);
      var _ := SetKeyDist(prsp.respKeyDist, prsp.initKeyDist);
      SmpSend(PairingResponse(prsp));
    }

    method MakeAndSendPublicKey()
      modifies this
      ensures Took(SendPublicKey(crypto, old(State()), sk))
    {
      localSk := sk;
      localPk := crypto.makeKey(sk);
      SmpSend(PublicKeyPdu(localPk));
    }

    method PairingRsp(rsp: Features)
      modifies this
      ensures Took(OnPairingRsp(crypto, old(State()), rsp, sk))
    {
      prsp := rsp;
      var both := SetKeyDist(prsp.initKeyDist, prsp.respKeyDist);
      if both {
        MakeAndSendPublicKey();
        return;
      }
      SmpSend(PairingConfirm(crypto.c1(tk, prnd, prsp, preq, ia, ra)));
    }

    method ScMackeyAndLtk()
      modifies this
      ensures State() == MackeyAndLtk(crypto, old(State())) && outbox == old(outbox)
    {
      var na, nb;
      if out {
        na, nb := prnd, rrnd;
      } else {
        na, nb := rrnd, prnd;
      }
      var keys := crypto.f5(dhkey, na, nb, ia, ra);
      mackey, ltk := keys.0, keys.1;
    }

    method ScDhkeyCheck()
      modifies this`outbox
      ensures Took(SendDhkeyCheck(crypto, old(State())))
    {
      var local, remote, ioCap;
      if out {
        local, remote, ioCap := ia, ra, preq.IoCap();
      } else {
        local, remote, ioCap := ra, ia, prsp.IoCap();
      }
      SmpSend(DhkeyCheck(crypto.f6(mackey, prnd, rrnd, ZERO, ioCap, local, remote)));
    }

    method ScPasskeySendConfirm()
      modifies this`outbox
      ensures Took(PasskeySendConfirm(crypto, old(State())))
    {
      var r := PasskeyBit(State());
      SmpSend(PairingConfirm(crypto.f4(localPk, remotePk, prnd, r)));
    }

    method ScPasskeyRound(op: PasskeyOp) returns (reason: uint8)
      modifies this
      ensures Took(PasskeyRound(crypto, old(State()), op).0)
      ensures reason == PasskeyRound(crypto, old(State()), op).1
      decreases if op == OnRandom then 1 else 0
    {
      if passkeyRound >= 20 { return 0; }
      match op {
        case OnRandom =>
          var cfm := crypto.f4(remotePk, localPk, rrnd, PasskeyBit(State()));
          if pcnf != cfm { return SMP_CONFIRM_FAILED; }
          passkeyRound := passkeyRound + 1;
          if passkeyRound == 20 { ScMackeyAndLtk(); }
          if !out {
            SmpSend(PairingRandom(prnd));
            return 0;
          }
          if passkeyRound != 20 {
            reason := ScPasskeyRound(OnKey);
            return;
          }
          ScDhkeyCheck();
        case OnConfirm =>
          if out {
            SmpSend(PairingRandom(prnd));
            return 0;
          }
          ScPasskeySendConfirm();
        case OnKey =>
          if !out { return 0; }
          ScPasskeySendConfirm();
      }
      return 0;
    }

    method PairingCfm(value: Block)
      modifies this
      ensures Took(OnConfirmPdu(crypto, old(State()), value))
    {
      pcnf := value;
      if sc {
        if assoc == ReqPasskey || assoc == DspPasskey {
          var _ := ScPasskeyRound(OnConfirm);
        } else if out {
          SmpSend(PairingRandom(prnd));
        }
        return;
      }
      if out {
        SmpSend(PairingRandom(ZERO));
      } else {
        SmpSend(PairingConfirm(crypto.c1(tk, prnd, prsp, preq, ia, ra)));
      }
    }

    method ScRandomPdu() returns (reason: uint8)
      modifies this
      ensures Took(ScRandom(crypto, old(State())).0)
      ensures reason == ScRandom(crypto, old(State())).1
    {
      if assoc == ReqPasskey || assoc == DspPasskey {
        reason := ScPasskeyRound(OnRandom);
        return;
      }
      if out {
        if pcnf != crypto.f4(remotePk, localPk, rrnd, 0) { return 0x04; }
      } else {
        SmpSend(PairingRandom(prnd));
      }
      ScMackeyAndLtk();
      if out { ScDhkeyCheck(); }
      return 0;
    }

    method VerifyRandom() returns (ok: bool)
      modifies this
      ensures ok == (old(pcnf) == Confirm1(crypto, old(State()), old(rrnd)))
      ensures !ok ==> Took(Step(old(State()), []))
      ensures ok && out ==>
                var key := crypto.s1(tk, old(rrnd), prnd);
                Took(Step(old(State()).(ltk := key), [StartEncrypt(key)]))
      ensures ok && !out ==>
                Took(Step(old(State()).(ltk := crypto.s1(tk, prnd, old(rrnd))), []))
    {
      if pcnf != crypto.c1(tk, rrnd, prsp, preq, ia, ra) { return false; }
      if out {
        ltk := crypto.s1(tk, rrnd, prnd);
        outbox := outbox + [StartEncrypt(ltk)];
      } else {
        ltk := crypto.s1(tk, prnd, rrnd);
      }
      return true;
    }

    method PairingRnd(rnd: Block)
      modifies this
      ensures Took(OnRandomPdu(crypto, old(State()), rnd))
    {
      rrnd := rnd;
      if sc {
        var reason := ScRandomPdu();
        if reason != 0 { SmpSend(PairingFailed(reason)); }
        return;
      }
      var ok := VerifyRandom();
      if !ok || out { return; }
      SmpSend(PairingRandom(ZERO));
    }

    /** The encryption key, which is all zeros, and its identification. */
    method DistributeEnc()
      modifies this`outbox
      ensures outbox == old(outbox) + Sends(if localKeyDist.enc then [EncryptInfo(ZERO), MasterIdent] else [])
    {
      if localKeyDist.enc {
        SmpSend(EncryptInfo(ZERO));
        SmpSend(MasterIdent);
      }
    }

    /** The identity key and address. */
    method DistributeId(identity: Addr)
      modifies this`outbox
      ensures outbox == old(outbox)
                        + Sends(if localKeyDist.id then [IdentInfo(ZERO), IdentAddrInfo(identity)] else [])
    {
      if localKeyDist.id {
        SmpSend(IdentInfo(ZERO));
        SmpSend(IdentAddrInfo(identity));
      }
    }

    method Distribute()
      modifies this`outbox
      ensures Took(DistributeKeys(old(State())))
    {
      hide KeyPdus, Sends;
      var identity := if out then ia else ra;
      ghost var before := outbox;
      DistributeEnc();
      DistributeId(identity);
      SendsOne(SigningInfo(ZERO));
      KeysJoined(before, localKeyDist, identity);
      if localKeyDist.sign {
        SmpSend(SigningInfo(ZERO));
      }
    }

    static lemma SendsOne(p: Pdu)
      ensures Sends([]) == [] && Sends([p]) == [Send(p)]
    {
    }

    static lemma KeysJoined(before: seq<Down>, mask: KeyMask, identity: Addr)
      ensures var enc := if mask.enc then [EncryptInfo(ZERO), MasterIdent] else [];
              var id := if mask.id then [IdentInfo(ZERO), IdentAddrInfo(identity)] else [];
              var two := before + Sends(enc) + Sends(id);
              before + Sends(KeyPdus(mask, identity)) == if mask.sign then two + [Send(SigningInfo(ZERO))] else two
    {
    }

    method KeyReceived(bit: KeyMask)
      modifies this
      ensures Took(OnKeyPdu(old(State()), bit))
    {
      remoteKeyDist := remoteKeyDist.Without(bit);
      if out && remoteKeyDist == NO_KEYS { Distribute(); }
    }

    method DeriveDhKey(key: PublicKey)
      modifies this
      ensures Took(TakePublicKey(crypto, old(State()), key, sk))
    {
      remotePk := key;
      if !out { MakeAndSendPublicKey(); }
      dhkey := crypto.ecdh(remotePk, localSk);
      assoc := if out then SelectMethod(sc, initiator, preq, prsp)
               else SelectMethod(sc, initiator, prsp, preq);
    }

    method ReceivePublicKey(key: PublicKey)
      modifies this
      ensures Took(OnPublicKey(crypto, old(State()), key, sk))
    {
      DeriveDhKey(key);
      if assoc == DspPasskey || assoc == ReqPasskey {
        var _ := ScPasskeyRound(OnKey);
        return;
      }
      if out { return; }
      SmpSend(PairingConfirm(crypto.f4(localPk, remotePk, prnd, 0)));
    }

    method ReceiveDhkeyCheck(e: Block)
      modifies this`outbox
      ensures Took(OnDhkeyCheck(crypto, old(State()), e))
    {
      var local, remote, ioCap;
      if out {
        local, remote, ioCap := ia, ra, prsp.IoCap();
      } else {
        local, remote, ioCap := ra, ia, preq.IoCap();
      }
      var r := ZERO;
      if assoc == ReqPasskey || assoc == DspPasskey { r := PasskeyBlock(passkeyNotify); }
      if e != crypto.f6(mackey, rrnd, prnd, r, ioCap, remote, local) {
        SmpSend(PairingFailed(SMP_DHKEY_CHECK_FAILED));
      }
      if out {
        outbox := outbox + [StartEncrypt(ltk)];
      } else {
        ScDhkeyCheck();
      }
    }

    /** `smp_data`. */
    method Data(pdu: Pdu)
      modifies this
      ensures Took(SmpData(crypto, host, old(State()), pdu, sk))
    {
      match pdu {
        case PairingRequest(req) => PairingReq(req);
        case PairingResponse(rsp) => PairingRsp(rsp);
        case PairingConfirm(value) => PairingCfm(value);
        case PairingRandom(rnd) => PairingRnd(rnd);
        case MasterIdent => KeyReceived(DIST_ENC_KEY);
        case IdentInfo(_) => KeyReceived(DIST_ID_KEY);
        case SigningInfo(_) => KeyReceived(DIST_SIGN);
        case PublicKeyPdu(key) => ReceivePublicKey(key);
        case DhkeyCheck(e) => ReceiveDhkeyCheck(e);
        case PairingFailed(_) =>
        case EncryptInfo(_) =>
        case IdentAddrInfo(_) =>
      }
    }

    /** `smp_conn_encrypted`. */
    method Encrypted(encrypt: uint8)
      modifies this`outbox
      ensures Took(SmpConnEncrypted(old(State()), encrypt))
    {
      if encrypt == 0 { return; }
      if out && remoteKeyDist != NO_KEYS { return; }
      Distribute();
    }

    /** `smp_get_ltk`, and the command that `evt_le_ltk_request` issues on its result. */
    method LtkRequested()
      modifies this`outbox
      ensures Took(Step(old(State()), AnswerLtkRequest(old(State()))))
    {
      if ltk == ZERO {
        outbox := outbox + [LtkNegReply];
      } else {
        outbox := outbox + [LtkReply(ltk)];
      }
    }
  }
}
