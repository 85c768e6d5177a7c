/**
 * The whole of an honest pairing, phase by phase: what each end holds, what is in flight in each
 * direction, and what each end has said. `Inv` ties a system state to a phase.
 */
module SmpPhases {
  import opened Bytes
  import opened SmpTypes
  import opened SmpSpec
  import opened SmpSystem

  // ---------------------------------------------------------------- what the run agrees on

  function Req(e: Env): Features { RequestOf(e.hostI, e.hostI.ioCapability, e.hostI.Auth()) }
  function Rsp(e: Env): Features { ResponseTo(e.hostR, Req(e)) }
  predicate Sc(e: Env) { BothSc(Req(e), Rsp(e)) }
  predicate Passkey(e: Env) { IsPasskey(SelectMethod(true, false, Req(e), Rsp(e))) }

  /** The one mask that both ends agree on, in both directions. */
  function Mask(e: Env): KeyMask { AgreedMask(Sc(e), e.hostI.KeyDist().And(e.hostR.KeyDist())) }

  function PkI(e: Env): PublicKey { e.crypto.makeKey(e.skI) }
  function PkR(e: Env): PublicKey { e.crypto.makeKey(e.skR) }
  function KeysI(e: Env): seq<Pdu> { KeyPdus(Mask(e), e.ia) }
  function KeysR(e: Env): seq<Pdu> { KeyPdus(Mask(e), e.ra) }

  /**
   * Diffie-Hellman works, and a legacy run uses the all-zero nonces that `smp_conn_add` leaves
   * in place: `pairing_cfm` and `pairing_rnd` send a literal zero, not `prnd`.
   */
  ghost predicate Honest(e: Env)
  {
    EcdhSymmetric(e.crypto) && (Sc(e) || (e.nonceI == ZERO && e.nonceR == ZERO))
  }

  // ---------------------------------------------------------------- the connections

  function I0(e: Env): Conn { NewConn(e.ia, e.ra, true, e.nonceI, e.passkey).(preq := Req(e)) }
  function R0(e: Env): Conn { NewConn(e.ia, e.ra, false, e.nonceR, e.passkey) }
  function I1(e: Env): Conn { Accept(I0(e), Req(e), Rsp(e), Rsp(e).initKeyDist, Rsp(e).respKeyDist) }
  function R1(e: Env): Conn { Accept(R0(e), Req(e), Rsp(e), Rsp(e).respKeyDist, Rsp(e).initKeyDist) }

  // Legacy pairing.
  function LegacyConfirm(e: Env): Block { e.crypto.c1(ZERO, ZERO, Rsp(e), Req(e), e.ia, e.ra) }
  function LegacyLtk(e: Env): Block { e.crypto.s1(ZERO, ZERO, ZERO) }

  // Secure Connections.
  function I2(e: Env): Conn { I1(e).(localSk := e.skI, localPk := PkI(e)) }
  function I3(e: Env): Conn
  {
    I2(e).(remotePk := PkR(e), dhkey := e.crypto.ecdh(PkR(e), e.skI),
           assoc := SelectMethod(true, false, Req(e), Rsp(e)))
  }
  function R2(e: Env): Conn
  {
    R1(e).(localSk := e.skR, localPk := PkR(e), remotePk := PkI(e), dhkey := e.crypto.ecdh(PkI(e), e.skR),
           assoc := SelectMethod(true, false, Rsp(e), Req(e)))
  }

  function CfmI(e: Env, k: nat): Block { e.crypto.f4(PkI(e), PkR(e), e.nonceI, PasskeyBit(I3(e).(passkeyRound := k))) }
  function CfmR(e: Env, k: nat): Block { e.crypto.f4(PkR(e), PkI(e), e.nonceR, PasskeyBit(R2(e).(passkeyRound := k))) }
  function CfmJw(e: Env): Block { e.crypto.f4(PkR(e), PkI(e), e.nonceR, 0) }

  /** The initiator when it has completed `k` rounds. */
  function IRound(e: Env, k: nat): Conn
  {
    if k == 0 then I3(e) else I3(e).(passkeyRound := k, pcnf := CfmR(e, k - 1), rrnd := e.nonceR)
  }
  function RRound(e: Env, k: nat): Conn
  {
    if k == 0 then R2(e) else R2(e).(passkeyRound := k, pcnf := CfmI(e, k - 1), rrnd := e.nonceI)
  }

  /** The keys of the run, as the responder derives them. */
  function Derived(e: Env): (Block, Block)
  {
    e.crypto.f5(e.crypto.ecdh(PkI(e), e.skR), e.nonceI, e.nonceR, e.ia, e.ra)
  }
  function Mackey(e: Env): Block { Derived(e).0 }
  function Ltk(e: Env): Block { if Sc(e) then Derived(e).1 else LegacyLtk(e) }

  /** Both ends once authentication stage 1 is over and the keys are derived. */
  function IKeyed(e: Env): Conn
  {
    (if Passkey(e) then IRound(e, 20) else I3(e).(pcnf := CfmJw(e), rrnd := e.nonceR))
    .(mackey := Mackey(e), ltk := Ltk(e))
  }
  function RKeyed(e: Env): Conn
  {
    (if Passkey(e) then RRound(e, 20) else R2(e).(rrnd := e.nonceI)).(mackey := Mackey(e), ltk := Ltk(e))
  }

  /** The DHKey check of the initiator, over an `r` value. */
  function CheckWithI(e: Env, r: Block): Block
  {
    e.crypto.f6(Mackey(e), e.nonceI, e.nonceR, r, Req(e).IoCap(), e.ia, e.ra)
  }
  function CheckWithR(e: Env, r: Block): Block
  {
    e.crypto.f6(Mackey(e), e.nonceR, e.nonceI, r, Rsp(e).IoCap(), e.ra, e.ia)
  }

  /** Both ends send a check over a zero `r`. */
  function CheckI(e: Env): Block { CheckWithI(e, ZERO) }
  function CheckR(e: Env): Block { CheckWithR(e, ZERO) }

  /** A passkey run verifies over the passkey instead, so the check may be refused. */
  predicate RefusedByR(e: Env)
  {
    Sc(e) && Passkey(e) && CheckWithI(e, ZERO) != CheckWithI(e, PasskeyBlock(e.passkey))
  }
  predicate RefusedByI(e: Env)
  {
    Sc(e) && Passkey(e) && CheckWithR(e, ZERO) != CheckWithR(e, PasskeyBlock(e.passkey))
  }

  /** Both ends when encryption can start. */
  function IPaired(e: Env): Conn
  {
    if Sc(e) then IKeyed(e) else I1(e).(pcnf := LegacyConfirm(e), rrnd := ZERO, ltk := Ltk(e))
  }
  function RPaired(e: Env): Conn
  {
    if Sc(e) then RKeyed(e) else R1(e).(pcnf := LegacyConfirm(e), rrnd := ZERO, ltk := Ltk(e))
  }

  /** A mask after the key PDUs of the peer have cleared their bits. */
  function Drain(mask: KeyMask, pdus: seq<Pdu>): KeyMask
  {
    if pdus == [] then mask
    else
      var before := Drain(mask, pdus[..|pdus| - 1]);
      match pdus[|pdus| - 1]
      case MasterIdent => before.Without(DIST_ENC_KEY)
      case IdentInfo(_) => before.Without(DIST_ID_KEY)
      case SigningInfo(_) => before.Without(DIST_SIGN)
      case _ => before
  }

  /** The initiator has taken `n` key PDUs and none of its peer's bits is left. */
  predicate PeerDone(e: Env, n: nat)
    requires n <= |KeysR(e)|
  {
    Drain(Mask(e), KeysR(e)[..n]) == NO_KEYS
  }

  // ---------------------------------------------------------------- phases

  datatype Phase =
    | ReqSent | RspSent
    | LegacyCfm1 | LegacyCfm2 | LegacyRnd1 | LegacyRnd2
    | KeySent | KeyAnswered | JwCfm | JwRnd1 | JwRnd2
    | RoundCfm1(k: nat) | RoundCfm2(k: nat) | RoundRnd1(k: nat) | RoundRnd2(k: nat)
    | Check1 | Check2(failed: bool)
    | Encrypt(failed: bool, atPeer: bool) | Replying | Refusing | Refused | Over
    | Keys(iSeen: bool, nI: nat, rSeen: bool, nR: nat)

  predicate Valid(e: Env, p: Phase)
  {
    match p
    case ReqSent => true
    case RspSent => true
    case LegacyCfm1 => !Sc(e)
    case LegacyCfm2 => !Sc(e)
    case LegacyRnd1 => !Sc(e)
    case LegacyRnd2 => !Sc(e)
    case KeySent => Sc(e)
    case KeyAnswered => Sc(e)
    case JwCfm => Sc(e) && !Passkey(e)
    case JwRnd1 => Sc(e) && !Passkey(e)
    case JwRnd2 => Sc(e) && !Passkey(e)
    case RoundCfm1(k) => Sc(e) && Passkey(e) && k < 20
    case RoundCfm2(k) => Sc(e) && Passkey(e) && k < 20
    case RoundRnd1(k) => Sc(e) && Passkey(e) && k < 20
    case RoundRnd2(k) => Sc(e) && Passkey(e) && k < 20
    case Check1 => Sc(e)
    case Check2(failed) => Sc(e) && (failed ==> RefusedByR(e))
    case Encrypt(failed, _) => failed ==> RefusedByI(e)
    case Replying => Ltk(e) != ZERO
    case Refusing => Ltk(e) == ZERO
    case Refused => Ltk(e) == ZERO
    case Over => Ltk(e) == ZERO
    case Keys(iSeen, nI, rSeen, nR) =>
      && Ltk(e) != ZERO
      && nI <= |KeysR(e)| && nR <= |KeysI(e)|
      && (!iSeen || !rSeen ==> nI == 0)
      && (!rSeen || !PeerDone(e, nI) ==> nR == 0)
  }

  function IAt(e: Env, p: Phase): Conn
    requires Valid(e, p)
  {
    match p
    case ReqSent => I0(e)
    case RspSent => I0(e)
    case LegacyCfm1 => I1(e)
    case LegacyCfm2 => I1(e)
    case LegacyRnd1 => I1(e).(pcnf := LegacyConfirm(e))
    case LegacyRnd2 => I1(e).(pcnf := LegacyConfirm(e))
    case KeySent => I2(e)
    case KeyAnswered => I2(e)
    case JwCfm => I3(e)
    case JwRnd1 => I3(e).(pcnf := CfmJw(e))
    case JwRnd2 => I3(e).(pcnf := CfmJw(e))
    case RoundCfm1(k) => IRound(e, k)
    case RoundCfm2(k) => IRound(e, k)
    case RoundRnd1(k) => IRound(e, k).(pcnf := CfmR(e, k))
    case RoundRnd2(k) => IRound(e, k).(pcnf := CfmR(e, k))
    case Keys(_, nI, _, _) => IPaired(e).(remoteKeyDist := Drain(Mask(e), KeysR(e)[..nI]))
    case _ => IPaired(e)
  }

  function RAt(e: Env, p: Phase): Conn
    requires Valid(e, p)
  {
    match p
    case ReqSent => R0(e)
    case RspSent => R1(e)
    case LegacyCfm1 => R1(e)
    case LegacyCfm2 => R1(e).(pcnf := LegacyConfirm(e))
    case LegacyRnd1 => R1(e).(pcnf := LegacyConfirm(e))
    case KeySent => R1(e)
    case KeyAnswered => R2(e)
    case JwCfm => R2(e)
    case JwRnd1 => R2(e)
    case RoundCfm1(k) => RRound(e, k)
    case RoundCfm2(k) => RRound(e, k).(pcnf := CfmI(e, k))
    case RoundRnd1(k) => RRound(e, k).(pcnf := CfmI(e, k))
    case RoundRnd2(k) => if k == 19 then RKeyed(e) else RRound(e, k + 1)
    case Keys(_, _, _, nR) => RPaired(e).(remoteKeyDist := Drain(Mask(e), KeysI(e)[..nR]))
    case _ => RPaired(e)
  }

  /** Something in flight: an event or PDU for the host, or a command for the controller. */
  datatype Item = ForHost(up: Up) | ForDevice(down: Down)

  function Msg(p: Pdu): Item { ForHost(Receive(p)) }

  function OfUps(s: seq<Up>): (r: seq<Item>)
    ensures |r| == |s|
  {
    seq(|s|, j requires 0 <= j < |s| => ForHost(s[j]))
  }

  function OfDown(d: Down): Item { if d.Send? then Msg(d.pdu) else ForDevice(d) }

  function OfDowns(s: seq<Down>): (r: seq<Item>)
    ensures |r| == |s|
  {
    seq(|s|, j requires 0 <= j < |s| => OfDown(s[j]))
  }

  function Msgs(s: seq<Pdu>): (r: seq<Item>)
    ensures |r| == |s|
  {
    seq(|s|, j requires 0 <= j < |s| => Msg(s[j]))
  }

  function FailedItem(failed: bool): seq<Item>
  {
    if failed then [Msg(PairingFailed(SMP_DHKEY_CHECK_FAILED))] else []
  }

  /** In flight towards the responder. */
  function ToRAt(e: Env, p: Phase): seq<Item>
    requires Valid(e, p)
  {
    match p
    case ReqSent => [Msg(PairingRequest(Req(e)))]
    case LegacyCfm1 => [Msg(PairingConfirm(LegacyConfirm(e)))]
    case LegacyRnd1 => [Msg(PairingRandom(ZERO))]
    case KeySent => [Msg(PublicKeyPdu(PkI(e)))]
    case JwRnd1 => [Msg(PairingRandom(e.nonceI))]
    case RoundCfm1(k) => [Msg(PairingConfirm(CfmI(e, k)))]
    case RoundRnd1(k) => [Msg(PairingRandom(e.nonceI))]
    case Check1 => [Msg(DhkeyCheck(CheckI(e)))]
    case Encrypt(failed, atPeer) =>
      FailedItem(failed) + [if atPeer then ForHost(LtkRequest) else ForDevice(StartEncrypt(Ltk(e)))]
    case Keys(_, nI, rSeen, nR) =>
      (if rSeen then [] else [ForHost(ENCRYPT_OK)]) + (if PeerDone(e, nI) then Msgs(KeysI(e)[nR..]) else [])
    case _ => []
  }

  /** In flight towards the initiator. */
  function ToIAt(e: Env, p: Phase): seq<Item>
    requires Valid(e, p)
  {
    match p
    case RspSent => [Msg(PairingResponse(Rsp(e)))]
    case LegacyCfm2 => [Msg(PairingConfirm(LegacyConfirm(e)))]
    case LegacyRnd2 => [Msg(PairingRandom(ZERO))]
    case KeyAnswered =>
      [Msg(PublicKeyPdu(PkR(e)))] + if Passkey(e) then [] else [Msg(PairingConfirm(CfmJw(e)))]
    case JwCfm => [Msg(PairingConfirm(CfmJw(e)))]
    case JwRnd2 => [Msg(PairingRandom(e.nonceR))]
    case RoundCfm2(k) => [Msg(PairingConfirm(CfmR(e, k)))]
    case RoundRnd2(k) => [Msg(PairingRandom(e.nonceR))]
    case Check2(failed) => FailedItem(failed) + [Msg(DhkeyCheck(CheckR(e)))]
    case Replying => [ForDevice(LtkReply(Ltk(e)))]
    case Refusing => [ForDevice(LtkNegReply)]
    case Refused => [ForHost(ENCRYPT_KEY_MISSING)]
    case Keys(iSeen, nI, rSeen, _) =>
      (if iSeen then [] else [ForHost(ENCRYPT_OK)]) + (if rSeen then Msgs(KeysR(e)[nI..]) else [])
    case _ => []
  }

  // ---------------------------------------------------------------- transcripts

  function RoundsI(e: Env, k: nat): seq<Pdu>
  {
    if k == 0 then [] else RoundsI(e, k - 1) + [PairingConfirm(CfmI(e, k - 1)), PairingRandom(e.nonceI)]
  }
  function RoundsR(e: Env, k: nat): seq<Pdu>
  {
    if k == 0 then [] else RoundsR(e, k - 1) + [PairingConfirm(CfmR(e, k - 1)), PairingRandom(e.nonceR)]
  }

  function OpeningI(e: Env): seq<Pdu> { [PairingRequest(Req(e)), PublicKeyPdu(PkI(e))] }
  function OpeningR(e: Env): seq<Pdu> { [PairingResponse(Rsp(e)), PublicKeyPdu(PkR(e))] }
  function StageI(e: Env): seq<Pdu>
  {
    OpeningI(e) + if Passkey(e) then RoundsI(e, 20) else [PairingRandom(e.nonceI)]
  }
  function StageR(e: Env): seq<Pdu>
  {
    OpeningR(e) + if Passkey(e) then RoundsR(e, 20) else [PairingConfirm(CfmJw(e)), PairingRandom(e.nonceR)]
  }
  function FailedPdu(failed: bool): seq<Pdu>
  {
    if failed then [PairingFailed(SMP_DHKEY_CHECK_FAILED)] else []
  }

  /** Everything the initiator says before it distributes keys. */
  function PairingI(e: Env): seq<Pdu>
  {
    if Sc(e) then StageI(e) + [DhkeyCheck(CheckI(e))] + FailedPdu(RefusedByI(e))
    else [PairingRequest(Req(e)), PairingConfirm(LegacyConfirm(e)), PairingRandom(ZERO)]
  }
  function PairingR(e: Env): seq<Pdu>
  {
    if Sc(e) then StageR(e) + FailedPdu(RefusedByR(e)) + [DhkeyCheck(CheckR(e))]
    else [PairingResponse(Rsp(e)), PairingConfirm(LegacyConfirm(e)), PairingRandom(ZERO)]
  }

  function ILogAt(e: Env, p: Phase): seq<Pdu>
    requires Valid(e, p)
  {
    match p
    case ReqSent => [PairingRequest(Req(e))]
    case RspSent => [PairingRequest(Req(e))]
    case LegacyCfm1 => [PairingRequest(Req(e)), PairingConfirm(LegacyConfirm(e))]
    case LegacyCfm2 => [PairingRequest(Req(e)), PairingConfirm(LegacyConfirm(e))]
    case KeySent => OpeningI(e)
    case KeyAnswered => OpeningI(e)
    case JwCfm => OpeningI(e)
    case JwRnd1 => StageI(e)
    case JwRnd2 => StageI(e)
    case RoundCfm1(k) => OpeningI(e) + RoundsI(e, k) + [PairingConfirm(CfmI(e, k))]
    case RoundCfm2(k) => OpeningI(e) + RoundsI(e, k) + [PairingConfirm(CfmI(e, k))]
    case RoundRnd1(k) => OpeningI(e) + RoundsI(e, k + 1)
    case RoundRnd2(k) => OpeningI(e) + RoundsI(e, k + 1)
    case Check1 => StageI(e) + [DhkeyCheck(CheckI(e))]
    case Check2(_) => StageI(e) + [DhkeyCheck(CheckI(e))]
    case Keys(_, nI, _, _) => PairingI(e) + if PeerDone(e, nI) then KeysI(e) else []
    case _ => PairingI(e)
  }

  function RLogAt(e: Env, p: Phase): seq<Pdu>
    requires Valid(e, p)
  {
    match p
    case ReqSent => []
    case RspSent => [PairingResponse(Rsp(e))]
    case LegacyCfm1 => [PairingResponse(Rsp(e))]
    case LegacyCfm2 => [PairingResponse(Rsp(e)), PairingConfirm(LegacyConfirm(e))]
    case LegacyRnd1 => [PairingResponse(Rsp(e)), PairingConfirm(LegacyConfirm(e))]
    case KeySent => [PairingResponse(Rsp(e))]
    case KeyAnswered => OpeningR(e) + if Passkey(e) then [] else [PairingConfirm(CfmJw(e))]
    case JwCfm => OpeningR(e) + [PairingConfirm(CfmJw(e))]
    case JwRnd1 => OpeningR(e) + [PairingConfirm(CfmJw(e))]
    case JwRnd2 => StageR(e)
    case RoundCfm1(k) => OpeningR(e) + RoundsR(e, k)
    case RoundCfm2(k) => OpeningR(e) + RoundsR(e, k) + [PairingConfirm(CfmR(e, k))]
    case RoundRnd1(k) => OpeningR(e) + RoundsR(e, k) + [PairingConfirm(CfmR(e, k))]
    case RoundRnd2(k) => OpeningR(e) + RoundsR(e, k + 1)
    case Check1 => StageR(e)
    case Keys(_, _, rSeen, _) => PairingR(e) + if rSeen then KeysR(e) else []
    case _ => PairingR(e)
  }

  // ---------------------------------------------------------------- the invariant

  /** `le_ltk` of the two controllers. */
  function IDevAt(e: Env, p: Phase): Block
  {
    match p
    case Encrypt(_, atPeer) => if atPeer then Ltk(e) else ZERO
    case Replying => Ltk(e)
    case Refusing => Ltk(e)
    case Refused => Ltk(e)
    case Over => Ltk(e)
    case Keys(_, _, _, _) => Ltk(e)
    case _ => ZERO
  }
  function RDevAt(e: Env, p: Phase): Block { if p.Keys? then Ltk(e) else ZERO }
  function IEncrAt(p: Phase): uint8 { if p.Keys? && p.iSeen then 1 else 0 }
  function REncrAt(p: Phase): uint8 { if p.Keys? && p.rSeen then 1 else 0 }

  ghost predicate Inv(e: Env, s: System, p: Phase)
  {
    && Valid(e, p)
    && s.i == IAt(e, p) && s.r == RAt(e, p)
    && OfUps(s.rUp) + OfDowns(s.iDown) == ToRAt(e, p)
    && OfUps(s.iUp) + OfDowns(s.rDown) == ToIAt(e, p)
    && s.iDevLtk == IDevAt(e, p) && s.rDevLtk == RDevAt(e, p)
    && s.iEncr == IEncrAt(p) && s.rEncr == REncrAt(p)
    && s.iLog == ILogAt(e, p) && s.rLog == RLogAt(e, p)
  }

  /** How many phases are still to come, at most. */
  function Rank(e: Env, p: Phase): nat
    requires Valid(e, p)
  {
    match p
    case ReqSent => 103
    case RspSent => 102
    case LegacyCfm1 => 20
    case LegacyCfm2 => 19
    case LegacyRnd1 => 18
    case LegacyRnd2 => 17
    case KeySent => 101
    case KeyAnswered => 100
    case JwCfm => 22
    case JwRnd1 => 21
    case JwRnd2 => 20
    case RoundCfm1(k) => 23 + 4 * (19 - k)
    case RoundCfm2(k) => 22 + 4 * (19 - k)
    case RoundRnd1(k) => 21 + 4 * (19 - k)
    case RoundRnd2(k) => 20 + 4 * (19 - k)
    case Check1 => 19
    case Check2(failed) => if failed then 18 else 17
    case Encrypt(failed, atPeer) => 14 + (if failed then 1 else 0) + (if atPeer then 0 else 1)
    case Replying => 13
    case Refusing => 2
    case Refused => 1
    case Over => 0
    case Keys(iSeen, nI, rSeen, nR) =>
      (if iSeen then 0 else 1) + (if rSeen then 0 else 1) + (|KeysR(e)| - nI) + (|KeysI(e)| - nR)
  }
}
