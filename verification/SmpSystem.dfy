/**
 * Two honest hosts, each behind its emulated controller, over FIFO sockets. Packets and commands
 * travel host -> own controller -> peer's (or own) host, and any interleaving of the four
 * parties is a run.
 */
module SmpSystem {
  import opened Bytes
  import opened SmpTypes
  import opened SmpSpec

  /** Everything that a run does not decide itself. */
  datatype Env = Env(
    crypto: Crypto, hostI: Host, hostR: Host, skI: SecretKey, skR: SecretKey,
    ia: Addr, ra: Addr, nonceI: Block, nonceR: Block, passkey: uint8)

  /** `iDown` runs from host to controller, `iUp` from controller to host; `iDevLtk` is `le_ltk`. */
  datatype System = System(
    i: Conn, r: Conn,
    iDown: seq<Down>, rDown: seq<Down>, iUp: seq<Up>, rUp: seq<Up>,
    iDevLtk: Block, rDevLtk: Block,
    iEncr: uint8, rEncr: uint8,
    iLog: seq<Pdu>, rLog: seq<Pdu>)

  datatype Move = HostI | HostR | DeviceI | DeviceR

  /** The PDUs among what a host hands down. */
  function PdusOf(s: seq<Down>): seq<Pdu>
  {
    if s == [] then []
    else (if s[0].Send? then [s[0].pdu] else []) + PdusOf(s[1..])
  }

  /** After `smp_conn_add` at both ends and `bthost_request_auth` at the initiator. */
  function Start(e: Env): System
  {
    var step := SmpPair(e.hostI, NewConn(e.ia, e.ra, true, e.nonceI, e.passkey),
                        e.hostI.ioCapability, e.hostI.Auth());
    System(step.conn, NewConn(e.ia, e.ra, false, e.nonceR, e.passkey),
           step.sent, [], [], [], ZERO, ZERO, 0, 0, PdusOf(step.sent), [])
  }

  /** `bthost_receive_h4` for the events and data that pairing meets. */
  function HostStep(e: Env, c: Conn, up: Up): Step
  {
    match up
    case Receive(pdu) =>
      if c.out then SmpData(e.crypto, e.hostI, c, pdu, e.skI) else SmpData(e.crypto, e.hostR, c, pdu, e.skR)
    case LtkRequest => Step(c, AnswerLtkRequest(c))
    case EncryptChange(status, mode) => if status != 0 then Step(c, []) else SmpConnEncrypted(c, mode)
  }

  /** `conn->encr_mode` after an event. */
  function EncrAfter(encr: uint8, up: Up): uint8
  {
    if up.EncryptChange? && up.status == 0 then up.mode else encr
  }

  predicate Enabled(s: System, m: Move)
  {
    match m
    case HostI => s.iUp != []
    case HostR => s.rUp != []
    case DeviceI => s.iDown != []
    case DeviceR => s.rDown != []
  }

  const ENCRYPT_OK := EncryptChange(0x00, 0x01)
  const ENCRYPT_AUTH_FAILURE := EncryptChange(0x05, 0x00)
  const ENCRYPT_KEY_MISSING := EncryptChange(0x06, 0x00)

  /** The controller of one end takes `d`; the results are its `le_ltk` and the events at both hosts. */
  function DeviceStep(d: Down, own: Block, peer: Block): (Block, seq<Up>, seq<Up>)
  {
    match d
    case Send(pdu) => (own, [], [Receive(pdu)])
    case StartEncrypt(key) => (key, [], [LtkRequest])
    case LtkReply(key) =>
      var ev := if key == peer then ENCRYPT_OK else ENCRYPT_AUTH_FAILURE;
      (key, [ev], [ev])
    case LtkNegReply => (own, [], [ENCRYPT_KEY_MISSING])
  }

  /** One move; a move with nothing to do changes nothing. */
  function Do(e: Env, s: System, m: Move): System
  {
    if !Enabled(s, m) then s
    else match m
      case HostI =>
        var step := HostStep(e, s.i, s.iUp[0]);
        s.(i := step.conn, iUp := s.iUp[1..], iDown := s.iDown + step.sent,
           iEncr := EncrAfter(s.iEncr, s.iUp[0]), iLog := s.iLog + PdusOf(step.sent))
      case HostR =>
        var step := HostStep(e, s.r, s.rUp[0]);
        s.(r := step.conn, rUp := s.rUp[1..], rDown := s.rDown + step.sent,
           rEncr := EncrAfter(s.rEncr, s.rUp[0]), rLog := s.rLog + PdusOf(step.sent))
      case DeviceI =>
        var (ltk, mine, theirs) := DeviceStep(s.iDown[0], s.iDevLtk, s.rDevLtk);
        s.(iDown := s.iDown[1..], iDevLtk := ltk, iUp := s.iUp + mine, rUp := s.rUp + theirs)
      case DeviceR =>
        var (ltk, mine, theirs) := DeviceStep(s.rDown[0], s.rDevLtk, s.iDevLtk);
        s.(rDown := s.rDown[1..], rDevLtk := ltk, rUp := s.rUp + mine, iUp := s.iUp + theirs)
  }

  /** The state that a schedule of moves reaches. */
  function Exec(e: Env, moves: seq<Move>): System
  {
    if moves == [] then Start(e) else Do(e, Exec(e, moves[..|moves| - 1]), moves[|moves| - 1])
  }

  /** Nothing is left to deliver anywhere. */
  predicate Quiet(s: System) { s.iDown == [] && s.rDown == [] && s.iUp == [] && s.rUp == [] }

  /** How many moves of a schedule found something to do. */
  function Work(e: Env, moves: seq<Move>): nat
  {
    if moves == [] then 0
    else
      var before := moves[..|moves| - 1];
      Work(e, before) + if Enabled(Exec(e, before), moves[|moves| - 1]) then 1 else 0
  }
}
