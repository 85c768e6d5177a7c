/**
 * The choice of the association model from flags and capabilities, and what an honest pairing says
 * and ends with, written out in PDUs over the settings of the two hosts.
 */
module SmpTranscript {
  import opened Bytes
  import opened SmpTypes
  import opened SmpSpec
  import opened SmpSystem
  import opened SmpPhases
  import opened SmpSteps
  import opened SmpReach
  import opened SmpTheorems

  // ---------------------------------------------------------------- capabilities

  const DISPLAY_ONLY: uint8 := 0
  const DISPLAY_YES_NO: uint8 := 1
  const KEYBOARD_ONLY: uint8 := 2
  const NO_INPUT_NO_OUTPUT: uint8 := 3
  const KEYBOARD_DISPLAY: uint8 := 4

  predicate Known(io: uint8) { io <= KEYBOARD_DISPLAY }
  predicate Shows(io: uint8) { io == DISPLAY_ONLY || io == DISPLAY_YES_NO || io == KEYBOARD_DISPLAY }
  predicate Types(io: uint8) { io == KEYBOARD_ONLY || io == KEYBOARD_DISPLAY }
  predicate Answers(io: uint8) { io == DISPLAY_YES_NO || io == KEYBOARD_DISPLAY }

  /** Both users can compare a number and answer. */
  predicate NumericPair(a: uint8, b: uint8) { Answers(a) && Answers(b) }

  /** One user can type what the other end shows, or both type, and no comparison is possible. */
  predicate PasskeyPair(a: uint8, b: uint8)
  {
    || (a != NO_INPUT_NO_OUTPUT && b != NO_INPUT_NO_OUTPUT && (a == KEYBOARD_ONLY || b == KEYBOARD_ONLY))
    || (a == DISPLAY_ONLY && b == KEYBOARD_DISPLAY)
    || (a == KEYBOARD_DISPLAY && b == DISPLAY_ONLY)
  }

  predicate AnyPair(a: uint8, b: uint8) { NumericPair(a, b) || PasskeyPair(a, b) }

  /** The end with capability `mine` asks its user: it can type and need not show. */
  predicate Asks(mine: uint8, theirs: uint8) { Types(mine) && !(Shows(mine) && Types(theirs)) }

  lemma FiveCapabilities(io: uint8)
    requires Known(io)
    ensures io == 0 || io == 1 || io == 2 || io == 3 || io == 4
  {
  }

  /**
   * The association model of Secure Connections, at the end with features `a`: without MITM
   * protection on either side it is just works; with it, numeric comparison, a passkey that this
   * end asks for or shows, a confirmation, or just works, by the capabilities.
   */
  lemma ScMethodChosen(a: Features, b: Features, init: bool)
    ensures var m := SelectMethod(true, init, a, b);
            if !a.authReq.mitm && !b.authReq.mitm then m == JustWorks
            else if !Known(a.ioCapa) || !Known(b.ioCapa) then m == if init then JustWorks else JustCfm
            else
              && (m == CfmPasskey <==> NumericPair(a.ioCapa, b.ioCapa))
              && (m == ReqPasskey <==> PasskeyPair(a.ioCapa, b.ioCapa) && Asks(a.ioCapa, b.ioCapa))
              && (m == DspPasskey <==> PasskeyPair(a.ioCapa, b.ioCapa) && !Asks(a.ioCapa, b.ioCapa))
              && (m == JustCfm <==> !init && Answers(a.ioCapa) && !AnyPair(a.ioCapa, b.ioCapa))
              && m in {JustWorks, JustCfm, CfmPasskey, ReqPasskey, DspPasskey}
  {
    if Known(a.ioCapa) && Known(b.ioCapa) {
      FiveCapabilities(a.ioCapa);
      FiveCapabilities(b.ioCapa);
    }
  }

  /** The same for legacy pairing, which shows a passkey as `CfmPasskey` and knows no comparison. */
  lemma LegacyMethodChosen(a: Features, b: Features, init: bool)
    ensures var m := SelectMethod(false, init, a, b);
            if !a.authReq.mitm && !b.authReq.mitm then m == JustWorks
            else if !Known(a.ioCapa) || !Known(b.ioCapa) then m == if init then JustWorks else JustCfm
            else
              var both := a.ioCapa == KEYBOARD_DISPLAY && b.ioCapa == KEYBOARD_DISPLAY;
              var asks := b.ioCapa != NO_INPUT_NO_OUTPUT && Asks(a.ioCapa, b.ioCapa);
              var shows := Shows(a.ioCapa) && Types(b.ioCapa) && !both;
              && (m == Overlap <==> both)
              && (m == ReqPasskey <==> asks)
              && (m == CfmPasskey <==> shows)
              && (m == JustCfm <==> !init && Answers(a.ioCapa) && !both && !asks && !shows)
              && m in {JustWorks, JustCfm, CfmPasskey, ReqPasskey, Overlap}
  {
    if Known(a.ioCapa) && Known(b.ioCapa) {
      FiveCapabilities(a.ioCapa);
      FiveCapabilities(b.ioCapa);
    }
  }

  // ---------------------------------------------------------------- what the hosts settle

  /** The host sets the Secure Connections bit in what it sends. */
  predicate WantsSc(h: Host) { h.scSupport || h.authReq.sc }

  predicate ScHosts(e: Env) { WantsSc(e.hostI) && WantsSc(e.hostR) }

  /** Two hosts run the passkey rounds. */
  predicate PasskeyHosts(e: Env)
  {
    && (e.hostI.authReq.mitm || e.hostR.authReq.mitm)
    && Known(e.hostI.ioCapability) && Known(e.hostR.ioCapability)
    && PasskeyPair(e.hostI.ioCapability, e.hostR.ioCapability)
  }

  /** The features that a host offers or answers with, given whether a link key is in its masks. */
  function Offer(h: Host, link: bool): Features
  {
    var auth := AuthReq(h.authReq.mitm, WantsSc(h), h.authReq.rest);
    Features(h.ioCapability, 0, auth, 0x10, KeyMask(true, true, true, link), KeyMask(true, true, true, link))
  }

  lemma FeaturesSaid(e: Env)
    ensures Req(e) == Offer(e.hostI, e.hostI.bredr)
    ensures Rsp(e) == Offer(e.hostR, e.hostI.bredr && e.hostR.bredr)
    ensures Sc(e) <==> ScHosts(e)
    ensures Mask(e) == if ScHosts(e) then KeyMask(false, true, true, false)
                       else KeyMask(true, true, true, e.hostI.bredr && e.hostR.bredr)
  {
  }

  lemma PasskeyRunExactly(e: Env)
    ensures Passkey(e) <==> PasskeyHosts(e)
  {
    FeaturesSaid(e);
    ScMethodChosen(Req(e), Rsp(e), false);
    hide SelectMethod, Req, Rsp, Asks, PasskeyPair, NumericPair;
  }

  /** Bit `k` of the passkey octet, counted from the least significant one. */
  function Bit(n: uint8, k: nat): (b: uint8)
    ensures b <= 1
  {
    if k == 0 then n % 2
    else if k == 1 then n / 2 % 2
    else if k == 2 then n / 4 % 2
    else if k == 3 then n / 8 % 2
    else if k == 4 then n / 16 % 2
    else if k == 5 then n / 32 % 2
    else if k == 6 then n / 64 % 2
    else if k == 7 then n / 128 % 2
    else 0
  }

  lemma {:induction false} ShiftRightZero(k: nat)
    ensures ShiftRight(0, k) == 0
  {
    if k > 0 { ShiftRightZero(k - 1); }
  }

  lemma {:induction false} ShiftRightByFour(n: nat, k: nat)
    requires k >= 4
    ensures ShiftRight(n, k) == ShiftRight(n / 16, k - 4)
  {
    assert n / 2 / 2 / 2 / 2 == n / 16;
    assert ShiftRight(n, k) == ShiftRight(n / 2, k - 1);
    assert ShiftRight(n / 2, k - 1) == ShiftRight(n / 2 / 2, k - 2);
    assert ShiftRight(n / 2 / 2, k - 2) == ShiftRight(n / 2 / 2 / 2, k - 3);
    assert ShiftRight(n / 2 / 2 / 2, k - 3) == ShiftRight(n / 2 / 2 / 2 / 2, k - 4);
  }

  lemma {:induction false} ShiftRightFew(n: nat, k: nat)
    requires k < 4
    ensures ShiftRight(n, k) == if k == 0 then n else if k == 1 then n / 2 else if k == 2 then n / 4 else n / 8
  {
    assert n / 2 / 2 == n / 4 && n / 2 / 2 / 2 == n / 8;
    assert ShiftRight(n / 2, 1) == ShiftRight(n / 2 / 2, 0);
    assert ShiftRight(n / 2 / 2, 1) == ShiftRight(n / 2 / 2 / 2, 0);
    assert ShiftRight(n / 2, 2) == ShiftRight(n / 2 / 2, 1);
  }

  /** The `r` octet of round `k` is 0x80 with bit `k` of the passkey in its lowest place. */
  lemma RoundBit(c: Conn, k: nat)
    ensures PasskeyBit(c.(passkeyRound := k)) == 0x80 + Bit(c.passkeyNotify, k)
  {
    var n: nat := c.passkeyNotify;
    if k < 4 {
      ShiftRightFew(n, k);
    } else {
      ShiftRightByFour(n, k);
      if k < 8 {
        ShiftRightFew(n / 16, k - 4);
        assert n / 16 / 2 == n / 32 && n / 16 / 4 == n / 64 && n / 16 / 8 == n / 128;
      } else {
        ShiftRightByFour(n / 16, k - 4);
        assert n / 16 / 16 == 0;
        ShiftRightZero(k - 8);
      }
    }
  }

  lemma Halved(n: nat, d: nat, dd: nat)
    requires d in [1, 2, 4, 8, 16, 32, 64] && dd == 2 * d
    ensures n / d == 2 * (n / dd) + n / d % 2
  {
    assert n / d / 2 == n / dd;
  }

  lemma UpperBits(n: uint8)
    ensures n / 16 == n / 16 % 2 + 2 * (n / 32 % 2) + 4 * (n / 64 % 2) + 8 * (n / 128 % 2)
  {
    Halved(n, 16, 32);
    Halved(n, 32, 64);
    Halved(n, 64, 128);
  }

  lemma LowerBits(n: uint8)
    ensures n == n % 2 + 2 * (n / 2 % 2) + 4 * (n / 4 % 2) + 8 * (n / 8 % 2) + 16 * (n / 16)
  {
    Halved(n, 2, 4);
    Halved(n, 4, 8);
    Halved(n, 8, 16);
  }

  /** The bits of the rounds give the passkey back. */
  lemma BitsArePasskey(n: uint8)
    ensures n == Bit(n, 0) + 2 * Bit(n, 1) + 4 * Bit(n, 2) + 8 * Bit(n, 3)
                 + 16 * (Bit(n, 4) + 2 * Bit(n, 5) + 4 * Bit(n, 6) + 8 * Bit(n, 7))
  {
    LowerBits(n);
    UpperBits(n);
  }

  // ---------------------------------------------------------------- Secure Connections, in PDUs

  function PublicI(e: Env): PublicKey { e.crypto.makeKey(e.skI) }
  function PublicR(e: Env): PublicKey { e.crypto.makeKey(e.skR) }

  /** MacKey and LTK of a Secure Connections run. */
  function ScKeys(e: Env): (Block, Block)
  {
    e.crypto.f5(e.crypto.ecdh(PublicI(e), e.skR), e.nonceI, e.nonceR, e.ia, e.ra)
  }

  /** Twenty confirm values, each over one more bit of the passkey and followed by the nonce. */
  function TwentyRounds(e: Env, mine: PublicKey, theirs: PublicKey, nonce: Block): (s: seq<Pdu>)
    ensures |s| == 40
  {
    seq(40, j requires 0 <= j < 40 =>
      if j % 2 == 0 then PairingConfirm(e.crypto.f4(mine, theirs, nonce, 0x80 + Bit(e.passkey, j / 2)))
      else PairingRandom(nonce))
  }

  function ScCheckI(e: Env, r: Block): Block
  {
    var o := Offer(e.hostI, e.hostI.bredr);
    e.crypto.f6(ScKeys(e).0, e.nonceI, e.nonceR, r, (o.ioCapa, o.oobData, o.authReq), e.ia, e.ra)
  }

  function ScCheckR(e: Env, r: Block): Block
  {
    var o := Offer(e.hostR, false);
    e.crypto.f6(ScKeys(e).0, e.nonceR, e.nonceI, r, (o.ioCapa, o.oobData, o.authReq), e.ra, e.ia)
  }

  /** The passkey as the 16-octet `r` of a check. */
  function PasskeyAsR(n: uint8): Block { [n, 0, 0, 0, 0, 0, 0, 0, 0, 0, 0, 0, 0, 0, 0, 0] }

  const NULL_BLOCK: Block := [0, 0, 0, 0, 0, 0, 0, 0, 0, 0, 0, 0, 0, 0, 0, 0]

  const FAILED: Pdu := PairingFailed(0x0b)

  /** Everything that the initiator says in Secure Connections before keys are distributed. */
  function ScSaidByI(e: Env): seq<Pdu>
  {
    [PairingRequest(Offer(e.hostI, e.hostI.bredr)), PublicKeyPdu(PublicI(e))]
    + (if PasskeyHosts(e) then TwentyRounds(e, PublicI(e), PublicR(e), e.nonceI) else [PairingRandom(e.nonceI)])
    + [DhkeyCheck(ScCheckI(e, NULL_BLOCK))]
    + if PasskeyHosts(e) && ScCheckR(e, NULL_BLOCK) != ScCheckR(e, PasskeyAsR(e.passkey)) then [FAILED] else []
  }

  function ScSaidByR(e: Env): seq<Pdu>
  {
    [PairingResponse(Offer(e.hostR, e.hostI.bredr && e.hostR.bredr)), PublicKeyPdu(PublicR(e))]
    + (if PasskeyHosts(e) then TwentyRounds(e, PublicR(e), PublicI(e), e.nonceR)
       else [PairingConfirm(e.crypto.f4(PublicR(e), PublicI(e), e.nonceR, 0)), PairingRandom(e.nonceR)])
    + (if PasskeyHosts(e) && ScCheckI(e, NULL_BLOCK) != ScCheckI(e, PasskeyAsR(e.passkey)) then [FAILED] else [])
    + [DhkeyCheck(ScCheckR(e, NULL_BLOCK))]
  }

  /** The keys that each end distributes in Secure Connections: identity and signature, never the LTK. */
  function ScKeyPdus(own: Addr): seq<Pdu>
  {
    [IdentInfo(NULL_BLOCK), IdentAddrInfo(own), SigningInfo(NULL_BLOCK)]
  }

  // ---------------------------------------------------------------- legacy pairing, in PDUs

  function LegacySaid(e: Env, first: Pdu): seq<Pdu>
  {
    var request, response := Offer(e.hostI, e.hostI.bredr), Offer(e.hostR, e.hostI.bredr && e.hostR.bredr);
    [first, PairingConfirm(e.crypto.c1(NULL_BLOCK, NULL_BLOCK, response, request, e.ia, e.ra)),
     PairingRandom(NULL_BLOCK)]
  }

  function LegacyKeyPdus(own: Addr): seq<Pdu>
  {
    [EncryptInfo(NULL_BLOCK), MasterIdent, IdentInfo(NULL_BLOCK), IdentAddrInfo(own), SigningInfo(NULL_BLOCK)]
  }

  // ---------------------------------------------------------------- whole runs

  /** The key that a run encrypts with. */
  function RunKey(e: Env): Block
  {
    if ScHosts(e) then ScKeys(e).1 else e.crypto.s1(NULL_BLOCK, NULL_BLOCK, NULL_BLOCK)
  }

  function SaidByI(e: Env): seq<Pdu>
  {
    if ScHosts(e) then ScSaidByI(e) else LegacySaid(e, PairingRequest(Offer(e.hostI, e.hostI.bredr)))
  }

  function SaidByR(e: Env): seq<Pdu>
  {
    if ScHosts(e) then ScSaidByR(e)
    else LegacySaid(e, PairingResponse(Offer(e.hostR, e.hostI.bredr && e.hostR.bredr)))
  }

  /** Both ends distribute the same keys; the initiator holds them back if a link key was agreed. */
  function KeysSaidByI(e: Env): seq<Pdu>
  {
    if ScHosts(e) then ScKeyPdus(e.ia) else if e.hostI.bredr && e.hostR.bredr then [] else LegacyKeyPdus(e.ia)
  }

  function KeysSaidByR(e: Env): seq<Pdu>
  {
    if ScHosts(e) then ScKeyPdus(e.ra) else LegacyKeyPdus(e.ra)
  }

  lemma KeyOfRun(e: Env)
    ensures Ltk(e) == RunKey(e)
  {
    FeaturesSaid(e);
    hide Req, Rsp, Mask;
  }

  lemma ConfirmsOf(e: Env, k: nat)
    ensures CfmI(e, k) == e.crypto.f4(PublicI(e), PublicR(e), e.nonceI, 0x80 + Bit(e.passkey, k))
    ensures CfmR(e, k) == e.crypto.f4(PublicR(e), PublicI(e), e.nonceR, 0x80 + Bit(e.passkey, k))
  {
    hide Req, Rsp, SelectMethod, Bit, PasskeyBit;
    RoundBit(I3(e), k);
    RoundBit(R2(e), k);
  }

  lemma RoundsOf(e: Env)
    ensures RoundsI(e, 20) == TwentyRounds(e, PublicI(e), PublicR(e), e.nonceI)
    ensures RoundsR(e, 20) == TwentyRounds(e, PublicR(e), PublicI(e), e.nonceR)
  {
    hide RoundsI, RoundsR, CfmI, CfmR, Bit, PublicI, PublicR;
    RoundsShape(e, 20);
    forall j | 0 <= j < 40
      ensures RoundsI(e, 20)[j] == TwentyRounds(e, PublicI(e), PublicR(e), e.nonceI)[j]
      ensures RoundsR(e, 20)[j] == TwentyRounds(e, PublicR(e), PublicI(e), e.nonceR)[j]
    {
      ConfirmsOf(e, j / 2);
      assert j == 2 * (j / 2) || j == 2 * (j / 2) + 1;
    }
  }

  lemma ChecksOf(e: Env, r: Block)
    requires ScHosts(e)
    ensures CheckWithI(e, r) == ScCheckI(e, r) && CheckWithR(e, r) == ScCheckR(e, r)
  {
    FeaturesSaid(e);
    hide Req, Rsp, Mask;
  }

  lemma PairingSaid(e: Env)
    ensures PairingI(e) == SaidByI(e) && PairingR(e) == SaidByR(e)
  {
    FeaturesSaid(e);
    PasskeyRunExactly(e);
    hide Req, Rsp, Mask, Passkey, PasskeyHosts, Sc;
    if ScHosts(e) {
      ScPairingSaid(e);
    }
  }

  lemma ScPairingSaid(e: Env)
    requires ScHosts(e)
    ensures PairingI(e) == ScSaidByI(e) && PairingR(e) == ScSaidByR(e)
  {
    FeaturesSaid(e);
    PasskeyRunExactly(e);
    RoundsOf(e);
    ChecksOf(e, NULL_BLOCK);
    ChecksOf(e, PasskeyAsR(e.passkey));
    assert PasskeyBlock(e.passkey) == PasskeyAsR(e.passkey);
    hide Req, Rsp, Mask, Passkey, PasskeyHosts, RoundsI, RoundsR, TwentyRounds, CheckWithI, CheckWithR,
         ScCheckI, ScCheckR, ScHosts, PasskeyBlock, PasskeyAsR, Offer;
  }

  lemma KeysSaid(e: Env)
    ensures KeyPdus(Mask(e), e.ra) == KeysSaidByR(e)
    ensures (if Mask(e).link then [] else KeyPdus(Mask(e), e.ia)) == KeysSaidByI(e)
  {
    FeaturesSaid(e);
    hide Mask;
  }

  /**
   * A run with nothing left to do has said exactly the PDUs above and, unless its key is the
   * all-zero one, has encrypted the link with that key and distributed the keys above.
   */
  lemma WholeRun(e: Env, moves: seq<Move>)
    requires Honest(e) && Quiet(Exec(e, moves))
    ensures var s := Exec(e, moves);
            if RunKey(e) == NULL_BLOCK then s.iEncr == s.rEncr == 0 && s.iLog == SaidByI(e) && s.rLog == SaidByR(e)
            else
              && s.iEncr == s.rEncr == 1
              && s.i.ltk == s.r.ltk == s.iDevLtk == s.rDevLtk == RunKey(e)
              && s.iLog == SaidByI(e) + KeysSaidByI(e) && s.rLog == SaidByR(e) + KeysSaidByR(e)
  {
    hide Do, Exec, HostStep, Mask, Ltk, PairingI, PairingR, KeyPdus, RunKey, SaidByI, SaidByR, KeysSaidByI, KeysSaidByR;
    QuietRun(e, moves);
    KeyOfRun(e);
    PairingSaid(e);
    KeysSaid(e);
  }

  /** What an end has said only grows. */
  lemma {:induction false} LogsGrow(e: Env, moves: seq<Move>, more: seq<Move>)
    ensures Exec(e, moves).iLog <= Exec(e, moves + more).iLog
    ensures Exec(e, moves).rLog <= Exec(e, moves + more).rLog
  {
    hide HostStep, DeviceStep, PdusOf;
    if more == [] {
      assert moves + more == moves;
    } else {
      var init := more[..|more| - 1];
      assert (moves + more)[..|moves + more| - 1] == moves + init;
      LogsGrow(e, moves, init);
    }
  }

  /** At every moment of every run, each end has said a beginning of what the whole run says. */
  lemma SaidSoFar(e: Env, moves: seq<Move>)
    requires Honest(e)
    ensures Exec(e, moves).iLog <= SaidByI(e) + KeysSaidByI(e)
    ensures Exec(e, moves).rLog <= SaidByR(e) + KeysSaidByR(e)
  {
    hide Do, Exec, HostStep, RunKey, SaidByI, SaidByR, KeysSaidByI, KeysSaidByR;
    var more := Completes(e, moves);
    LogsGrow(e, moves, more);
    WholeRun(e, moves + more);
  }

  /**
   * In a Secure Connections run both ends have the method that their capabilities call for once a
   * DHKey Check is said, and have then done 20 rounds exactly if a passkey is called for.
   */
  lemma MethodOfRun(e: Env, moves: seq<Move>)
    requires Honest(e) && ScHosts(e) && (Has(ACheck, Exec(e, moves).iLog) || Has(ACheck, Exec(e, moves).rLog))
    ensures var s, i, r := Exec(e, moves), e.hostI.ioCapability, e.hostR.ioCapability;
            var secure := (e.hostI.authReq.mitm || e.hostR.authReq.mitm) && Known(i) && Known(r);
            && s.i.passkeyRound == s.r.passkeyRound == (if PasskeyHosts(e) then 20 else 0)
            && (s.i.assoc == ReqPasskey <==> PasskeyHosts(e) && Asks(i, r))
            && (s.i.assoc == DspPasskey <==> PasskeyHosts(e) && !Asks(i, r))
            && (s.r.assoc == ReqPasskey <==> PasskeyHosts(e) && Asks(r, i))
            && (s.r.assoc == DspPasskey <==> PasskeyHosts(e) && !Asks(r, i))
            && (s.i.assoc == CfmPasskey <==> s.r.assoc == CfmPasskey)
            && (s.i.assoc == CfmPasskey <==> secure && NumericPair(i, r))
  {
    hide Do, Exec, IAt, RAt, ToIAt, ToRAt, ILogAt, RLogAt, IDevAt, RDevAt, HostStep, Has, SelectMethod, Asks;
    var p := Reach(e, moves);
    PasskeyLockstep(e, moves);
    PasskeyRunExactly(e);
    FeaturesSaid(e);
    ScMethodChosen(Req(e), Rsp(e), false);
    ScMethodChosen(Rsp(e), Req(e), false);
    Said(e, p, ACheck);
    MethodAt(e, p);
    hide Req, Rsp, Sc, Rank, Passkey;
  }

  lemma PairedMethods(e: Env)
    requires Sc(e)
    ensures IPaired(e).assoc == SelectMethod(true, false, Req(e), Rsp(e))
    ensures RPaired(e).assoc == SelectMethod(true, false, Rsp(e), Req(e))
  {
    hide SelectMethod, Req, Rsp, HostStep, Mask, CfmI, CfmR, CfmJw, Mackey, Ltk, Passkey, Sc;
  }

  lemma MethodAt(e: Env, p: Phase)
    requires Valid(e, p) && Sc(e) && Rank(e, p) <= 19
    ensures IAt(e, p).assoc == SelectMethod(true, false, Req(e), Rsp(e))
    ensures RAt(e, p).assoc == SelectMethod(true, false, Rsp(e), Req(e))
  {
    hide SelectMethod, Req, Rsp, HostStep, Rank, IPaired, RPaired, Drain, Sc, Passkey;
    hide CfmI, CfmR, CfmJw, IRound, RRound, I1, I2, I3, R1, R2, RKeyed, KeysI, KeysR, Mask;
    LateChecking(e, p);
    PairedMethods(e);
  }
}
