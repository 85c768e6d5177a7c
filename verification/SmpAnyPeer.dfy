/** What one event does to a connection in any state, whatever the peer: the refusals are here. */
module SmpAnyPeer {
  import opened Bytes
  import opened SmpTypes
  import opened SmpSpec
  import opened SmpSystem
  import opened SmpTranscript

  /** The keys of a requested mask that a host grants. */
  function Granted(asked: KeyMask, h: Host): KeyMask
  {
    KeyMask(asked.enc, asked.id, asked.sign, asked.link && h.bredr)
  }

  /** Secure Connections distributes neither the LTK nor the link key. */
  function Distributed(sc: bool, m: KeyMask): KeyMask
  {
    KeyMask(m.enc && !sc, m.id, m.sign, m.link && !sc)
  }

  /** A request is answered with what it asked for and the host can give; the responder's own keys come second. */
  lemma RequestAnswered(cr: Crypto, h: Host, c: Conn, req: Features, sk: SecretKey)
    ensures var s := SmpData(cr, h, c, PairingRequest(req), sk);
            var sc := req.authReq.sc && WantsSc(h);
            var rsp := Features(h.ioCapability, 0, AuthReq(h.authReq.mitm, WantsSc(h), h.authReq.rest), 0x10,
                                Granted(req.initKeyDist, h), Granted(req.respKeyDist, h));
            && s.sent == [Send(PairingResponse(rsp))]
            && s.conn == c.(preq := req, prsp := rsp, sc := c.sc || sc,
                            localKeyDist := Distributed(sc, rsp.respKeyDist),
                            remoteKeyDist := Distributed(sc, rsp.initKeyDist))
  {
  }

  /** A response settles the masks the other way round, and opens the exchange that both asked for. */
  lemma ResponseAnswered(cr: Crypto, h: Host, c: Conn, rsp: Features, sk: SecretKey)
    ensures var s := SmpData(cr, h, c, PairingResponse(rsp), sk);
            var sc := rsp.authReq.sc && c.preq.authReq.sc;
            && s.sent == [Send(if sc then PublicKeyPdu(cr.makeKey(sk))
                               else PairingConfirm(cr.c1(c.tk, c.prnd, rsp, c.preq, c.ia, c.ra)))]
            && s.conn.localKeyDist == Distributed(sc, rsp.initKeyDist)
            && s.conn.remoteKeyDist == Distributed(sc, rsp.respKeyDist)
            && s.conn.prsp == rsp && s.conn.sc == (c.sc || sc)
  {
  }

  /** The value that a peer must have committed to with the nonce `rnd`. */
  function Committed(cr: Crypto, c: Conn, rnd: Block): Block
  {
    if !c.sc then cr.c1(c.tk, rnd, c.prsp, c.preq, c.ia, c.ra)
    else if c.assoc == ReqPasskey || c.assoc == DspPasskey then
      cr.f4(c.remotePk, c.localPk, rnd, 0x80 + Bit(c.passkeyNotify, c.passkeyRound))
    else cr.f4(c.remotePk, c.localPk, rnd, 0)
  }

  /** The ends that check a nonce: all but a just works responder, until the last round is done. */
  predicate Checks(c: Conn)
  {
    || !c.sc
    || (c.assoc != ReqPasskey && c.assoc != DspPasskey && c.out)
    || ((c.assoc == ReqPasskey || c.assoc == DspPasskey) && c.passkeyRound < 20)
  }

  lemma BitOfRound(c: Conn)
    ensures PasskeyBit(c) == 0x80 + Bit(c.passkeyNotify, c.passkeyRound)
  {
    RoundBit(c, c.passkeyRound);
    assert c.(passkeyRound := c.passkeyRound) == c;
  }

  /**
   * A nonce that the peer did not commit to derives no key, finishes no round and starts no
   * encryption; Secure Connections answers it with Confirm Value Failed, legacy pairing not at all.
   */
  lemma WrongNonceRefused(cr: Crypto, h: Host, c: Conn, rnd: Block, sk: SecretKey)
    requires Checks(c) && c.pcnf != Committed(cr, c, rnd)
    ensures SmpData(cr, h, c, PairingRandom(rnd), sk)
         == Step(c.(rrnd := rnd), if c.sc then [Send(PairingFailed(0x04))] else [])
  {
    BitOfRound(c.(rrnd := rnd));
    hide PasskeyBit, Bit;
  }

  /** After the last round a nonce is ignored. */
  lemma LateNonceIgnored(cr: Crypto, h: Host, c: Conn, rnd: Block, sk: SecretKey)
    requires c.sc && (c.assoc == ReqPasskey || c.assoc == DspPasskey) && c.passkeyRound >= 20
    ensures SmpData(cr, h, c, PairingRandom(rnd), sk) == Step(c.(rrnd := rnd), [])
  {
  }

  /** The check that an end sends over its own nonce and features, given which end it is. */
  function CheckOf(cr: Crypto, c: Conn, byI: bool, own: Block, other: Block, r: Block): Block
  {
    if byI then cr.f6(c.mackey, own, other, r, (c.preq.ioCapa, c.preq.oobData, c.preq.authReq), c.ia, c.ra)
    else cr.f6(c.mackey, own, other, r, (c.prsp.ioCapa, c.prsp.oobData, c.prsp.authReq), c.ra, c.ia)
  }

  /** What an end verifies with: the passkey if there was one. */
  function VerifiedOver(c: Conn): Block
  {
    if c.assoc == ReqPasskey || c.assoc == DspPasskey then PasskeyAsR(c.passkeyNotify) else NULL_BLOCK
  }

  /** A wrong DHKey Check is answered with Pairing Failed and then as if it had been right. */
  lemma CheckAnswered(cr: Crypto, h: Host, c: Conn, check: Block, sk: SecretKey)
    ensures var refused := check != CheckOf(cr, c, !c.out, c.rrnd, c.prnd, VerifiedOver(c));
            var next := if c.out then StartEncrypt(c.ltk)
                        else Send(DhkeyCheck(CheckOf(cr, c, false, c.prnd, c.rrnd, NULL_BLOCK)));
            SmpData(cr, h, c, DhkeyCheck(check), sk)
            == Step(c, (if refused then [Send(PairingFailed(0x0b))] else []) + [next])
  {
    assert PasskeyBlock(c.passkeyNotify) == PasskeyAsR(c.passkeyNotify);
  }

  /** The key PDUs of a mask, as an end with identity address `own` sends them. */
  function KeysSent(mask: KeyMask, own: Addr): seq<Down>
  {
    (if mask.enc then [Send(EncryptInfo(NULL_BLOCK)), Send(MasterIdent)] else [])
    + (if mask.id then [Send(IdentInfo(NULL_BLOCK)), Send(IdentAddrInfo(own))] else [])
    + (if mask.sign then [Send(SigningInfo(NULL_BLOCK))] else [])
  }

  /** The key of a mask that a PDU brings to its end, if any. */
  predicate Clears(key: Pdu) { key.MasterIdent? || key.IdentInfo? || key.SigningInfo? }

  /** A key clears its own bit, and the key that leaves none makes the initiator send its own. */
  lemma KeyClearsItsBit(cr: Crypto, h: Host, c: Conn, key: Pdu, sk: SecretKey)
    requires Clears(key) || key.EncryptInfo? || key.IdentAddrInfo?
    ensures var m := c.remoteKeyDist;
            var left := KeyMask(m.enc && !key.MasterIdent?, m.id && !key.IdentInfo?,
                                m.sign && !key.SigningInfo?, m.link);
            var last := Clears(key) && c.out && left == KeyMask(false, false, false, false);
            SmpData(cr, h, c, key, sk)
            == Step(c.(remoteKeyDist := left), if last then KeysSent(c.localKeyDist, c.ia) else [])
  {
    SendsKeys(c.localKeyDist, c.ia);
    hide KeyPdus, Sends, KeysSent;
  }

  lemma SendsKeys(m: KeyMask, a: Addr)
    ensures Sends(KeyPdus(m, a)) == KeysSent(m, a)
  {
  }

  /** Both hosts take the event that a controller has just reported to them. */
  function BothHostsAct(e: Env, s: System): System { Do(e, Do(e, s, HostI), HostR) }

  /**
   * The responder's controller answers with a key: the link is encrypted at both hosts exactly if
   * it is the key that the initiator's controller holds, whatever the two ends did before.
   */
  lemma EncryptedIffSameKey(e: Env, s: System, key: Block)
    requires s.rDown != [] && s.rDown[0] == LtkReply(key) && s.iUp == s.rUp == []
    ensures var t := Do(e, s, DeviceR);
            && t.iUp == t.rUp == [if key == s.iDevLtk then EncryptChange(0, 1) else EncryptChange(5, 0)]
            && t.rDevLtk == key && t.iDevLtk == s.iDevLtk
            && var done := BothHostsAct(e, t);
               && done.iEncr == (if key == s.iDevLtk then 1 else s.iEncr)
               && done.rEncr == (if key == s.iDevLtk then 1 else s.rEncr)
               && (key != s.iDevLtk ==> done.iLog == s.iLog && done.rLog == s.rLog)
  {
    hide SmpConnEncrypted, SmpData, AnswerLtkRequest;
  }

  /** Without a key the initiator alone is told, and nothing is encrypted or sent. */
  lemma MissingKeyReported(e: Env, s: System)
    requires s.rDown != [] && s.rDown[0] == LtkNegReply && s.iUp == s.rUp == []
    ensures var t := Do(e, s, DeviceR);
            && t.iUp == [EncryptChange(6, 0)] && t.rUp == []
            && var done := BothHostsAct(e, t);
               done.iEncr == s.iEncr && done.rEncr == s.rEncr && done.iLog == s.iLog && done.rLog == s.rLog
  {
    hide SmpConnEncrypted, SmpData, AnswerLtkRequest;
  }

  /** A host asked for a key gives the one it derived, unless that is all zero. */
  lemma KeyGiven(e: Env, s: System)
    requires s.rUp != [] && s.rUp[0] == LtkRequest
    ensures Do(e, s, HostR).rDown
         == s.rDown + [if s.r.ltk == NULL_BLOCK then LtkNegReply else LtkReply(s.r.ltk)]
    ensures Do(e, s, HostR).r == s.r && Do(e, s, HostR).rEncr == s.rEncr
  {
  }
}
