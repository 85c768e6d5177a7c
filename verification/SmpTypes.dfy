/** The data that Security Manager Protocol pairing exchanges, and the tables that choose a method. */
module SmpTypes {
  import opened Bytes

  /** A 16-octet value: nonce, confirm value, DHKey check, MacKey, LTK. */
  type Block = octets
  type PublicKey = octets
  type SecretKey = octets
  type DhKey = octets

  const ZERO: Block := [0, 0, 0, 0, 0, 0, 0, 0, 0, 0, 0, 0, 0, 0, 0, 0]

  datatype Addr = Addr(kind: uint8, bdaddr: octets)

  /** A key distribution octet: its four defined bits. */
  datatype KeyMask = KeyMask(enc: bool, id: bool, sign: bool, link: bool)
  {
    function And(other: KeyMask): KeyMask
    {
      KeyMask(enc && other.enc, id && other.id, sign && other.sign, link && other.link)
    }

    function Without(other: KeyMask): KeyMask
    {
      KeyMask(enc && !other.enc, id && !other.id, sign && !other.sign, link && !other.link)
    }
  }

  const NO_KEYS := KeyMask(false, false, false, false)
  const DIST_ENC_KEY := KeyMask(true, false, false, false)
  const DIST_ID_KEY := KeyMask(false, true, false, false)
  const DIST_SIGN := KeyMask(false, false, true, false)
  const SC_NO_DIST := KeyMask(true, false, false, true)

  /** An authentication requirements octet: the MITM bit, the Secure Connections bit and the rest. */
  datatype AuthReq = AuthReq(mitm: bool, sc: bool, rest: uint8)

  const SMP_CONFIRM_FAILED: uint8 := 0x04
  const SMP_DHKEY_CHECK_FAILED: uint8 := 0x0b

  const MAX_IO_CAP: uint8 := 0x04

  /** The payload shared by Pairing Request and Pairing Response. */
  datatype Features = Features(ioCapa: uint8, oobData: uint8, authReq: AuthReq, maxKeySize: uint8,
                               initKeyDist: KeyMask, respKeyDist: KeyMask)
  {
    /** The three octets that the DHKey check covers. */
    function IoCap(): (uint8, uint8, AuthReq) { (ioCapa, oobData, authReq) }
  }

  const NO_FEATURES := Features(0, 0, AuthReq(false, false, 0), 0, NO_KEYS, NO_KEYS)

  datatype Pdu =
    | PairingRequest(req: Features)
    | PairingResponse(rsp: Features)
    | PairingConfirm(value: Block)
    | PairingRandom(rnd: Block)
    | PairingFailed(reason: uint8)
    | EncryptInfo(ltk: Block)
    | MasterIdent
    | IdentInfo(irk: Block)
    | IdentAddrInfo(addr: Addr)
    | SigningInfo(csrk: Block)
    | PublicKeyPdu(key: PublicKey)
    | DhkeyCheck(e: Block)

  /** What a host hands to its controller. */
  datatype Down =
    | Send(pdu: Pdu)
    | StartEncrypt(key: Block)
    | LtkReply(key: Block)
    | LtkNegReply

  /** What a controller hands to its host. */
  datatype Up =
    | Receive(pdu: Pdu)
    | LtkRequest
    | EncryptChange(status: uint8, mode: uint8)

  /** The cryptographic toolbox, as arbitrary functions. `f5` gives the MacKey and the LTK. */
  datatype Crypto = Crypto(
    c1: (Block, Block, Features, Features, Addr, Addr) -> Block,
    s1: (Block, Block, Block) -> Block,
    f4: (PublicKey, PublicKey, Block, uint8) -> Block,
    f5: (DhKey, Block, Block, Addr, Addr) -> (Block, Block),
    f6: (Block, Block, Block, Block, (uint8, uint8, AuthReq), Addr, Addr) -> Block,
    makeKey: SecretKey -> PublicKey,
    ecdh: (PublicKey, SecretKey) -> DhKey)

  /** Both ends of a Diffie-Hellman exchange compute the same key. */
  ghost predicate EcdhSymmetric(c: Crypto)
  {
    forall a: SecretKey, b: SecretKey :: c.ecdh(c.makeKey(a), b) == c.ecdh(c.makeKey(b), a)
  }

  /** The settings of a `struct bthost` that pairing reads. */
  datatype Host = Host(ioCapability: uint8, authReq: AuthReq, scSupport: bool, bredr: bool)
  {
    /** `bthost_get_auth_req`, and the same computation in `bthost_request_auth`. */
    function Auth(): AuthReq { if scSupport then authReq.(sc := true) else authReq }

    /** `key_dist`. */
    function KeyDist(): KeyMask { KeyMask(true, true, true, bredr) }
  }

  datatype Method = JustWorks | JustCfm | ReqPasskey | CfmPasskey | ReqOob | DspPasskey | Overlap

  const GEN_METHOD: seq<seq<Method>> := [
    [JustWorks, JustCfm, ReqPasskey, JustWorks, ReqPasskey],
    [JustWorks, JustCfm, ReqPasskey, JustWorks, ReqPasskey],
    [CfmPasskey, CfmPasskey, ReqPasskey, JustWorks, CfmPasskey],
    [JustWorks, JustCfm, JustWorks, JustWorks, JustCfm],
    [CfmPasskey, CfmPasskey, ReqPasskey, JustWorks, Overlap]
  ]

  const SC_METHOD: seq<seq<Method>> := [
    [JustWorks, JustCfm, ReqPasskey, JustWorks, ReqPasskey],
    [JustWorks, CfmPasskey, ReqPasskey, JustWorks, CfmPasskey],
    [DspPasskey, DspPasskey, ReqPasskey, JustWorks, DspPasskey],
    [JustWorks, JustCfm, JustWorks, JustWorks, JustCfm],
    [DspPasskey, CfmPasskey, ReqPasskey, JustWorks, CfmPasskey]
  ]

  /** `get_auth_method`. */
  function GetAuthMethod(sc: bool, localIo: uint8, remoteIo: uint8): Method
  {
    if localIo > MAX_IO_CAP || remoteIo > MAX_IO_CAP then JustCfm
    else if sc then SC_METHOD[remoteIo][localIo]
    else GEN_METHOD[remoteIo][localIo]
  }

  /** `sc_select_method`, given which of the two PDUs is the local one. */
  function SelectMethod(sc: bool, initiator: bool, local: Features, remote: Features): Method
  {
    var chosen :=
      if local.authReq.mitm || remote.authReq.mitm
      then GetAuthMethod(sc, local.ioCapa, remote.ioCapa)
      else JustWorks;
    if chosen == JustCfm && initiator then JustWorks else chosen
  }

  predicate IsPasskey(m: Method) { m == ReqPasskey || m == DspPasskey }

  /**
   * For every request/response pair the two ends agree on whether the 20 passkey rounds run,
   * at least one of them asks the user for the passkey when they do, and they also agree on
   * numeric comparison.
   */
  lemma MethodsAgree(a: Features, b: Features, initA: bool, initB: bool)
    ensures IsPasskey(SelectMethod(true, initA, a, b)) <==> IsPasskey(SelectMethod(true, initB, b, a))
    ensures !(SelectMethod(true, initA, a, b) == DspPasskey && SelectMethod(true, initB, b, a) == DspPasskey)
    ensures SelectMethod(true, initA, a, b) == CfmPasskey <==> SelectMethod(true, initB, b, a) == CfmPasskey
  {
    if a.ioCapa <= MAX_IO_CAP && b.ioCapa <= MAX_IO_CAP {
      assert a.ioCapa in [0, 1, 2, 3, 4] && b.ioCapa in [0, 1, 2, 3, 4];
    }
  }
}
