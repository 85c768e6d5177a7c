/**
 * What each SMP handler does to a connection, as functions from a connection record to the next
 * record and the packets it hands down. `SmpConn` proves its methods against these.
 */
module SmpSpec {
  import opened Bytes
  import opened SmpTypes

  /** The fields of `struct smp_conn` that an LE connection uses. */
  datatype Conn = Conn(
    out: bool, sc: bool, initiator: bool, assoc: Method,
    localKeyDist: KeyMask, remoteKeyDist: KeyMask,
    ia: Addr, ra: Addr, tk: Block, prnd: Block, rrnd: Block, pcnf: Block,
    preq: Features, prsp: Features, ltk: Block,
    localSk: SecretKey, localPk: PublicKey, remotePk: PublicKey, dhkey: DhKey, mackey: Block,
    passkeyNotify: uint8, passkeyRound: nat)

  datatype Step = Step(conn: Conn, sent: seq<Down>)

  /** `smp_conn_add`. The run's nonce and passkey are parameters; `smp_conn_add` leaves both zero. */
  function NewConn(ia: Addr, ra: Addr, out: bool, prnd: Block, passkey: uint8): Conn
  {
    Conn(out, false, false, JustWorks, NO_KEYS, NO_KEYS, ia, ra, ZERO, prnd, ZERO, ZERO, NO_FEATURES, NO_FEATURES,
         ZERO, [], [], [], [], ZERO, passkey, 0)
  }

  function Confirm1(cr: Crypto, c: Conn, rnd: Block): Block
  {
    cr.c1(c.tk, rnd, c.prsp, c.preq, c.ia, c.ra)
  }

  function RequestOf(h: Host, ioCap: uint8, authReq: AuthReq): Features
  {
    Features(ioCap, 0, authReq, 0x10, h.KeyDist(), h.KeyDist())
  }

  /** `smp_pair`. */
  function SmpPair(h: Host, c: Conn, ioCap: uint8, authReq: AuthReq): Step
  {
    Step(c.(preq := RequestOf(h, ioCap, authReq)), [Send(PairingRequest(RequestOf(h, ioCap, authReq)))])
  }

  /** Both sides asked for Secure Connections. */
  predicate BothSc(preq: Features, prsp: Features)
  {
    prsp.authReq.sc && preq.authReq.sc
  }

  /** The mask that is left once Secure Connections drops the keys it does not distribute. */
  function AgreedMask(sc: bool, dist: KeyMask): KeyMask { if sc then dist.Without(SC_NO_DIST) else dist }

  function ResponseTo(h: Host, req: Features): Features
  {
    Features(h.ioCapability, 0, h.Auth(), 0x10,
             req.initKeyDist.And(h.KeyDist()), req.respKeyDist.And(h.KeyDist()))
  }

  /** The connection once both feature sets are known, with the masks of the response. */
  function Accept(c: Conn, preq: Features, prsp: Features, local: KeyMask, remote: KeyMask): Conn
  {
    c.(preq := preq, prsp := prsp, sc := c.sc || BothSc(preq, prsp),
       localKeyDist := AgreedMask(BothSc(preq, prsp), local),
       remoteKeyDist := AgreedMask(BothSc(preq, prsp), remote))
  }

  /** `pairing_req`. */
  function OnPairingReq(h: Host, c: Conn, req: Features): Step
  {
    var rsp := ResponseTo(h, req);
    Step(Accept(c, req, rsp, rsp.respKeyDist, rsp.initKeyDist), [Send(PairingResponse(rsp))])
  }

  /** `send_public_key`, drawing the secret key `sk`. */
  function SendPublicKey(cr: Crypto, c: Conn, sk: SecretKey): Step
  {
    var pk := cr.makeKey(sk);
    Step(c.(localSk := sk, localPk := pk), [Send(PublicKeyPdu(pk))])
  }

  /** `pairing_rsp`. */
  function OnPairingRsp(cr: Crypto, c: Conn, rsp: Features, sk: SecretKey): Step
  {
    var c' := Accept(c, c.preq, rsp, rsp.initKeyDist, rsp.respKeyDist);
    if BothSc(c.preq, rsp) then SendPublicKey(cr, c', sk)
    else Step(c', [Send(PairingConfirm(Confirm1(cr, c', c'.prnd)))])
  }

  /** The value of `n >> k`. */
  function ShiftRight(n: nat, k: nat): nat { if k == 0 then n else ShiftRight(n / 2, k - 1) }

  /** The `r` octet of a passkey round. */
  function PasskeyBit(c: Conn): uint8 { 0x80 + ShiftRight(c.passkeyNotify, c.passkeyRound) % 2 }

  /** `sc_passkey_send_confirm`. */
  function PasskeySendConfirm(cr: Crypto, c: Conn): Step
  {
    Step(c, [Send(PairingConfirm(cr.f4(c.localPk, c.remotePk, c.prnd, PasskeyBit(c))))])
  }

  /** `sc_mackey_and_ltk`. */
  function MackeyAndLtk(cr: Crypto, c: Conn): Conn
  {
    var na, nb := if c.out then c.prnd else c.rrnd, if c.out then c.rrnd else c.prnd;
    var keys := cr.f5(c.dhkey, na, nb, c.ia, c.ra);
    c.(mackey := keys.0, ltk := keys.1)
  }

  /** `sc_dhkey_check`. */
  function SendDhkeyCheck(cr: Crypto, c: Conn): Step
  {
    var local, remote := if c.out then c.ia else c.ra, if c.out then c.ra else c.ia;
    var ioCap := if c.out then c.preq.IoCap() else c.prsp.IoCap();
    Step(c, [Send(DhkeyCheck(cr.f6(c.mackey, c.prnd, c.rrnd, ZERO, ioCap, local, remote)))])
  }

  /** The PDU that starts or continues a passkey round. */
  datatype PasskeyOp = OnKey | OnConfirm | OnRandom

  /** `sc_passkey_round`; the second result is the Pairing Failed reason, 0 for none. */
  function PasskeyRound(cr: Crypto, c: Conn, op: PasskeyOp): (Step, uint8)
    decreases if op == OnRandom then 1 else 0
  {
    if c.passkeyRound >= 20 then (Step(c, []), 0)
    else match op
      case OnRandom =>
        if c.pcnf != cr.f4(c.remotePk, c.localPk, c.rrnd, PasskeyBit(c)) then (Step(c, []), SMP_CONFIRM_FAILED)
        else
          var c1 := c.(passkeyRound := c.passkeyRound + 1);
          var c2 := if c1.passkeyRound == 20 then MackeyAndLtk(cr, c1) else c1;
          if !c2.out then (Step(c2, [Send(PairingRandom(c2.prnd))]), 0)
          else if c2.passkeyRound != 20 then PasskeyRound(cr, c2, OnKey)
          else (SendDhkeyCheck(cr, c2), 0)
      case OnConfirm =>
        if c.out then (Step(c, [Send(PairingRandom(c.prnd))]), 0)
        else (PasskeySendConfirm(cr, c), 0)
      case OnKey =>
        if !c.out then (Step(c, []), 0) else (PasskeySendConfirm(cr, c), 0)
  }

  /** `pairing_cfm`. */
  function OnConfirmPdu(cr: Crypto, c0: Conn, value: Block): Step
  {
    var c := c0.(pcnf := value);
    if c.sc then
      if IsPasskey(c.assoc) then PasskeyRound(cr, c, OnConfirm).0
      else if c.out then Step(c, [Send(PairingRandom(c.prnd))])
      else Step(c, [])
    else if c.out then Step(c, [Send(PairingRandom(ZERO))])
    else Step(c, [Send(PairingConfirm(Confirm1(cr, c, c.prnd)))])
  }

  /** `sc_random`; the second result is the Pairing Failed reason, 0 for none. */
  function ScRandom(cr: Crypto, c: Conn): (Step, uint8)
  {
    if IsPasskey(c.assoc) then PasskeyRound(cr, c, OnRandom)
    else if c.out then
      if c.pcnf != cr.f4(c.remotePk, c.localPk, c.rrnd, 0) then (Step(c, []), 0x04)
      else (SendDhkeyCheck(cr, MackeyAndLtk(cr, c)), 0)
    else (Step(MackeyAndLtk(cr, c), [Send(PairingRandom(c.prnd))]), 0)
  }

  /** `pairing_rnd`, with `verify_random` unfolded in the legacy branch. */
  function OnRandomPdu(cr: Crypto, c0: Conn, rnd: Block): Step
  {
    var c := c0.(rrnd := rnd);
    if c.sc then
      var (step, reason) := ScRandom(cr, c);
      if reason != 0 then step.(sent := step.sent + [Send(PairingFailed(reason))]) else step
    else if c.pcnf != Confirm1(cr, c, c.rrnd) then Step(c, [])
    else if c.out then
      var ltk := cr.s1(c.tk, c.rrnd, c.prnd);
      Step(c.(ltk := ltk), [StartEncrypt(ltk)])
    else
      Step(c.(ltk := cr.s1(c.tk, c.prnd, c.rrnd)), [Send(PairingRandom(ZERO))])
  }

  /** The PDUs of `distribute_keys` for a mask and the sender's identity address. */
  function KeyPdus(mask: KeyMask, identity: Addr): seq<Pdu>
  {
    (if mask.enc then [EncryptInfo(ZERO), MasterIdent] else [])
    + (if mask.id then [IdentInfo(ZERO), IdentAddrInfo(identity)] else [])
    + (if mask.sign then [SigningInfo(ZERO)] else [])
  }

  function Sends(pdus: seq<Pdu>): (s: seq<Down>)
    ensures |s| == |pdus|
  {
    seq(|pdus|, i requires 0 <= i < |pdus| => Send(pdus[i]))
  }

  /** `distribute_keys`. */
  function DistributeKeys(c: Conn): Step
  {
    Step(c, Sends(KeyPdus(c.localKeyDist, if c.out then c.ia else c.ra)))
  }

  /** `master_ident`, `ident_info` and `signing_info`, which clear one bit each. */
  function OnKeyPdu(c0: Conn, bit: KeyMask): Step
  {
    var c := c0.(remoteKeyDist := c0.remoteKeyDist.Without(bit));
    if c.out && c.remoteKeyDist == NO_KEYS then DistributeKeys(c) else Step(c, [])
  }

  /** The first half of `public_key`: the DHKey and the association model. */
  function TakePublicKey(cr: Crypto, c0: Conn, key: PublicKey, sk: SecretKey): Step
  {
    var c1 := c0.(remotePk := key);
    var mine := if c1.out then Step(c1, []) else SendPublicKey(cr, c1, sk);
    var c2 := mine.conn.(dhkey := cr.ecdh(mine.conn.remotePk, mine.conn.localSk));
    Step(c2.(assoc := if c2.out then SelectMethod(c2.sc, c2.initiator, c2.preq, c2.prsp)
                      else SelectMethod(c2.sc, c2.initiator, c2.prsp, c2.preq)), mine.sent)
  }

  /** The second half of `public_key`: who speaks next. */
  function AfterPublicKey(cr: Crypto, c: Conn): Step
  {
    if IsPasskey(c.assoc) then PasskeyRound(cr, c, OnKey).0
    else if c.out then Step(c, [])
    else Step(c, [Send(PairingConfirm(cr.f4(c.localPk, c.remotePk, c.prnd, 0)))])
  }

  /** `public_key`, drawing the secret key `sk` if this side has not sent its own yet. */
  function OnPublicKey(cr: Crypto, c: Conn, key: PublicKey, sk: SecretKey): Step
  {
    var took := TakePublicKey(cr, c, key, sk);
    var next := AfterPublicKey(cr, took.conn);
    next.(sent := took.sent + next.sent)
  }

  /** `put_le32(passkey_notify, r)` over a zeroed `r`. */
  function PasskeyBlock(n: uint8): Block { ZERO[0 := n] }

  /** The check value that this end expects from its peer. */
  function ExpectedCheck(cr: Crypto, c: Conn): Block
  {
    var local, remote := if c.out then c.ia else c.ra, if c.out then c.ra else c.ia;
    var ioCap := if c.out then c.prsp.IoCap() else c.preq.IoCap();
    var r := if IsPasskey(c.assoc) then PasskeyBlock(c.passkeyNotify) else ZERO;
    cr.f6(c.mackey, c.rrnd, c.prnd, r, ioCap, remote, local)
  }

  /** `dhkey_check`: a mismatch sends Pairing Failed and then carries on all the same. */
  function OnDhkeyCheck(cr: Crypto, c: Conn, e: Block): Step
  {
    var failed := if e != ExpectedCheck(cr, c) then [Send(PairingFailed(SMP_DHKEY_CHECK_FAILED))] else [];
    Step(c, failed + (if c.out then [StartEncrypt(c.ltk)] else SendDhkeyCheck(cr, c).sent))
  }

  /** `smp_data`. `sk` is the secret key that `ecc_make_key` would draw. */
  function SmpData(cr: Crypto, h: Host, c: Conn, pdu: Pdu, sk: SecretKey): Step
  {
    match pdu
    case PairingRequest(req) => OnPairingReq(h, c, req)
    case PairingResponse(rsp) => OnPairingRsp(cr, c, rsp, sk)
    case PairingConfirm(value) => OnConfirmPdu(cr, c, value)
    case PairingRandom(rnd) => OnRandomPdu(cr, c, rnd)
    case MasterIdent => OnKeyPdu(c, DIST_ENC_KEY)
    case IdentInfo(_) => OnKeyPdu(c, DIST_ID_KEY)
    case SigningInfo(_) => OnKeyPdu(c, DIST_SIGN)
    case PublicKeyPdu(key) => OnPublicKey(cr, c, key, sk)
    case DhkeyCheck(e) => OnDhkeyCheck(cr, c, e)
    case PairingFailed(_) => Step(c, [])
    case EncryptInfo(_) => Step(c, [])
    case IdentAddrInfo(_) => Step(c, [])
  }

  /** `smp_conn_encrypted` on an LE link. */
  function SmpConnEncrypted(c: Conn, encrypt: uint8): Step
  {
    if encrypt == 0 || (c.out && c.remoteKeyDist != NO_KEYS) then Step(c, []) else DistributeKeys(c)
  }

  /** `smp_get_ltk` and the reply that `evt_le_ltk_request` makes of it. */
  function AnswerLtkRequest(c: Conn): seq<Down>
  {
    if c.ltk == ZERO then [LtkNegReply] else [LtkReply(c.ltk)]
  }
}
