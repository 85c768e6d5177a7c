/** Every step of either host leads from one phase of an honest pairing to the next. */
module SmpSteps {
  import opened SmpTypes
  import opened SmpSpec
  import opened SmpSystem
  import opened SmpPhases

  /** The phase after the initiator's host takes the head of what is in flight to it. */
  function NextI(e: Env, p: Phase): Phase
  {
    match p
    case RspSent => if Sc(e) then KeySent else LegacyCfm1
    case LegacyCfm2 => LegacyRnd1
    case LegacyRnd2 => Encrypt(false, false)
    case KeyAnswered => if Passkey(e) then RoundCfm1(0) else JwCfm
    case JwCfm => JwRnd1
    case JwRnd2 => Check1
    case RoundCfm2(k) => RoundRnd1(k)
    case RoundRnd2(k) => if k == 19 then Check1 else RoundCfm1(k + 1)
    case Check2(failed) => if failed then Check2(false) else Encrypt(RefusedByI(e), false)
    case Refused => Over
    case Keys(iSeen, nI, rSeen, nR) => if !iSeen then Keys(true, nI, rSeen, nR) else Keys(true, nI + 1, rSeen, nR)
    case _ => p
  }

  /** The phase after the responder's host takes the head of what is in flight to it. */
  function NextR(e: Env, p: Phase): Phase
  {
    match p
    case ReqSent => RspSent
    case LegacyCfm1 => LegacyCfm2
    case LegacyRnd1 => LegacyRnd2
    case KeySent => KeyAnswered
    case JwRnd1 => JwRnd2
    case RoundCfm1(k) => RoundCfm2(k)
    case RoundRnd1(k) => RoundRnd2(k)
    case Check1 => Check2(RefusedByR(e))
    case Encrypt(failed, atPeer) =>
      if failed then Encrypt(false, atPeer) else if Ltk(e) == ZERO then Refusing else Replying
    case Keys(iSeen, nI, rSeen, nR) => if !rSeen then Keys(iSeen, nI, true, nR) else Keys(iSeen, nI, true, nR + 1)
    case _ => p
  }

  /** What the initiator says on leaving `p`, and what it then orders from its controller. */
  function SaidI(e: Env, p: Phase): seq<Pdu>
    requires Valid(e, p)
  {
    match p
    case RspSent => if Sc(e) then [PublicKeyPdu(PkI(e))] else [PairingConfirm(LegacyConfirm(e))]
    case LegacyCfm2 => [PairingRandom(ZERO)]
    case KeyAnswered => if Passkey(e) then [PairingConfirm(CfmI(e, 0))] else []
    case JwCfm => [PairingRandom(e.nonceI)]
    case JwRnd2 => [DhkeyCheck(CheckI(e))]
    case RoundCfm2(k) => [PairingRandom(e.nonceI)]
    case RoundRnd2(k) => if k == 19 then [DhkeyCheck(CheckI(e))] else [PairingConfirm(CfmI(e, k + 1))]
    case Check2(failed) => if failed then [] else FailedPdu(RefusedByI(e))
    case Keys(iSeen, nI, _, _) => if iSeen && nI + 1 == |KeysR(e)| && PeerDone(e, nI + 1) then KeysI(e) else []
    case _ => []
  }
  function OrdersI(e: Env, p: Phase): seq<Down>
  {
    match p
    case LegacyRnd2 => [StartEncrypt(Ltk(e))]
    case Check2(failed) => if failed then [] else [StartEncrypt(Ltk(e))]
    case _ => []
  }

  /** The same for the responder. */
  function SaidR(e: Env, p: Phase): seq<Pdu>
    requires Valid(e, p)
  {
    match p
    case ReqSent => [PairingResponse(Rsp(e))]
    case LegacyCfm1 => [PairingConfirm(LegacyConfirm(e))]
    case LegacyRnd1 => [PairingRandom(ZERO)]
    case KeySent => [PublicKeyPdu(PkR(e))] + if Passkey(e) then [] else [PairingConfirm(CfmJw(e))]
    case JwRnd1 => [PairingRandom(e.nonceR)]
    case RoundCfm1(k) => [PairingConfirm(CfmR(e, k))]
    case RoundRnd1(k) => [PairingRandom(e.nonceR)]
    case Check1 => FailedPdu(RefusedByR(e)) + [DhkeyCheck(CheckR(e))]
    case Keys(_, _, rSeen, _) => if rSeen then [] else KeysR(e)
    case _ => []
  }
  function OrdersR(e: Env, p: Phase): seq<Down>
  {
    match p
    case Encrypt(failed, _) => if failed then [] else if Ltk(e) == ZERO then [LtkNegReply] else [LtkReply(Ltk(e))]
    case _ => []
  }

  // ---------------------------------------------------------------- masks and key distribution

  lemma MaskValues(e: Env)
    ensures Mask(e) in {KeyMask(false, true, true, false), KeyMask(true, true, true, false),
                        KeyMask(true, true, true, true)}
    ensures Mask(e).link <==> !Sc(e) && e.hostI.bredr && e.hostR.bredr
    ensures I1(e).localKeyDist == I1(e).remoteKeyDist == Mask(e)
    ensures R1(e).localKeyDist == R1(e).remoteKeyDist == Mask(e)
  {
  }

  lemma KeyAt(m: KeyMask, a: Addr, j: nat)
    requires m.id && m.sign
    ensures |KeyPdus(m, a)| == if m.enc then 5 else 3
    ensures j < |KeyPdus(m, a)| ==>
              KeyPdus(m, a)[j] == match |KeyPdus(m, a)| - j
                                  case 5 => EncryptInfo(ZERO)
                                  case 4 => MasterIdent
                                  case 3 => IdentInfo(ZERO)
                                  case 2 => IdentAddrInfo(a)
                                  case _ => SigningInfo(ZERO)
  {
  }

  /**
   * Which bits are left after `n` key PDUs: the signing bit stays set until the last one, and no
   * PDU clears the link key bit.
   */
  lemma {:induction false} DrainSteps(m: KeyMask, a: Addr, n: nat)
    requires m.id && m.sign && n <= |KeyPdus(m, a)|
    ensures var left := |KeyPdus(m, a)| - n;
            Drain(m, KeyPdus(m, a)[..n]) == KeyMask(m.enc && left > 3, left > 2, left > 0, m.link)
  {
    hide KeyPdus, HostStep;
    KeyAt(m, a, 0);
    if n > 0 {
      DrainSteps(m, a, n - 1);
      KeyAt(m, a, n - 1);
      DrainOne(m, KeyPdus(m, a), n);
    }
  }

  lemma DrainOne(m: KeyMask, keys: seq<Pdu>, n: nat)
    requires 0 < n <= |keys|
    ensures var before, last := Drain(m, keys[..n - 1]), keys[n - 1];
            Drain(m, keys[..n]) == if last.MasterIdent? then before.Without(DIST_ENC_KEY)
                                   else if last.IdentInfo? then before.Without(DIST_ID_KEY)
                                   else if last.SigningInfo? then before.Without(DIST_SIGN) else before
  {
    assert keys[..n][..n - 1] == keys[..n - 1];
  }

  /** The responder's bits are all cleared by its last key PDU, unless the link key bit was agreed. */
  lemma PeerDoneLast(e: Env, n: nat)
    requires n <= |KeysR(e)|
    ensures |KeysR(e)| == |KeysI(e)| == if Mask(e).enc then 5 else 3
    ensures PeerDone(e, n) <==> n == |KeysR(e)| && !Mask(e).link
  {
    MaskValues(e);
    DrainSteps(Mask(e), e.ra, n);
  }

  // ---------------------------------------------------------------- bookkeeping

  /** What `LeadsI` needs besides the handler itself, for a step of the initiator's host. */
  ghost predicate BooksI(e: Env, p: Phase, p': Phase)
    requires Valid(e, p) && ToIAt(e, p) != [] && ToIAt(e, p)[0].ForHost?
  {
    && Valid(e, p') && Rank(e, p') < Rank(e, p)
    && ToIAt(e, p') == ToIAt(e, p)[1..]
    && ToRAt(e, p') == ToRAt(e, p) + Msgs(SaidI(e, p)) + OfDowns(OrdersI(e, p))
    && ILogAt(e, p') == ILogAt(e, p) + SaidI(e, p) && RLogAt(e, p') == RLogAt(e, p)
    && IDevAt(e, p') == IDevAt(e, p) && RDevAt(e, p') == RDevAt(e, p)
    && REncrAt(p') == REncrAt(p) && IEncrAt(p') == EncrAfter(IEncrAt(p), ToIAt(e, p)[0].up)
    && |SaidI(e, p)| + |OrdersI(e, p)| <= 5
  }

  ghost predicate BooksR(e: Env, p: Phase, p': Phase)
    requires Valid(e, p) && ToRAt(e, p) != [] && ToRAt(e, p)[0].ForHost?
  {
    && Valid(e, p') && Rank(e, p') < Rank(e, p)
    && ToRAt(e, p') == ToRAt(e, p)[1..]
    && ToIAt(e, p') == ToIAt(e, p) + Msgs(SaidR(e, p)) + OfDowns(OrdersR(e, p))
    && RLogAt(e, p') == RLogAt(e, p) + SaidR(e, p) && ILogAt(e, p') == ILogAt(e, p)
    && IDevAt(e, p') == IDevAt(e, p) && RDevAt(e, p') == RDevAt(e, p)
    && IEncrAt(p') == IEncrAt(p) && REncrAt(p') == EncrAfter(REncrAt(p), ToRAt(e, p)[0].up)
    && |SaidR(e, p)| + |OrdersR(e, p)| <= 5
  }

  lemma BooksRequestR(e: Env)
    ensures BooksR(e, ReqSent, RspSent)
  {
  }

  lemma BooksResponseI(e: Env)
    ensures BooksI(e, RspSent, NextI(e, RspSent))
  {
  }

  lemma BooksLegacyR(e: Env)
    requires !Sc(e)
    ensures BooksR(e, LegacyCfm1, LegacyCfm2) && BooksR(e, LegacyRnd1, LegacyRnd2)
  {
  }

  lemma BooksLegacyI(e: Env)
    requires !Sc(e)
    ensures BooksI(e, LegacyCfm2, LegacyRnd1) && BooksI(e, LegacyRnd2, Encrypt(false, false))
  {
  }

  lemma BooksPublicKeyR(e: Env)
    requires Sc(e)
    ensures BooksR(e, KeySent, KeyAnswered)
  {
  }

  lemma BooksPublicKeyI(e: Env)
    requires Sc(e)
    ensures BooksI(e, KeyAnswered, NextI(e, KeyAnswered))
  {
  }

  lemma BooksJustWorksR(e: Env)
    requires Sc(e) && !Passkey(e)
    ensures BooksR(e, JwRnd1, JwRnd2)
  {
  }

  lemma BooksJustWorksConfirmI(e: Env)
    requires Sc(e) && !Passkey(e)
    ensures BooksI(e, JwCfm, JwRnd1)
  {
  }

  lemma BooksJustWorksRandomI(e: Env)
    requires Sc(e) && !Passkey(e)
    ensures BooksI(e, JwRnd2, Check1)
  {
  }

  lemma BooksRoundConfirmR(e: Env, k: nat)
    requires Sc(e) && Passkey(e) && k < 20
    ensures BooksR(e, RoundCfm1(k), RoundCfm2(k))
  {
  }

  lemma BooksRoundConfirmI(e: Env, k: nat)
    requires Sc(e) && Passkey(e) && k < 20
    ensures BooksI(e, RoundCfm2(k), RoundRnd1(k))
  {
  }

  lemma BooksRoundRandomR(e: Env, k: nat)
    requires Sc(e) && Passkey(e) && k < 20
    ensures BooksR(e, RoundRnd1(k), RoundRnd2(k))
  {
  }

  lemma BooksRoundRandomI(e: Env, k: nat)
    requires Sc(e) && Passkey(e) && k < 20
    ensures BooksI(e, RoundRnd2(k), NextI(e, RoundRnd2(k)))
  {
    hide CfmI, CfmR, CheckI, Req, Rsp, PkI, PkR, KeysI, KeysR, HostStep;
  }

  lemma BooksCheckR(e: Env)
    requires Sc(e)
    ensures BooksR(e, Check1, Check2(RefusedByR(e)))
  {
  }

  lemma BooksCheckI(e: Env, failed: bool)
    requires Valid(e, Check2(failed))
    ensures BooksI(e, Check2(failed), NextI(e, Check2(failed)))
  {
  }

  lemma BooksEncryptR(e: Env, failed: bool, atPeer: bool)
    requires Valid(e, Encrypt(failed, atPeer)) && (failed || atPeer)
    ensures BooksR(e, Encrypt(failed, atPeer), NextR(e, Encrypt(failed, atPeer)))
  {
    hide PairingI, PairingR, Ltk, KeysI, KeysR, HostStep;
  }

  lemma BooksRefusedI(e: Env)
    requires Ltk(e) == ZERO
    ensures BooksI(e, Refused, Over)
  {
  }

  lemma BooksKeysI(e: Env, p: Phase)
    requires p.Keys? && Valid(e, p) && (p.iSeen ==> p.rSeen && p.nI < |KeysR(e)|)
    ensures BooksI(e, p, NextI(e, p))
  {
    PeerDoneLast(e, p.nI);
    if p.iSeen {
      PeerDoneLast(e, p.nI + 1);
      BooksKeySeen(e, p);
    } else {
      BooksEncryptedI(e, p);
    }
  }

  lemma BooksKeySeen(e: Env, p: Phase)
    requires p.Keys? && Valid(e, p) && p.iSeen && p.rSeen && p.nI < |KeysR(e)|
    requires !PeerDone(e, p.nI) && (PeerDone(e, p.nI + 1) ==> p.nI + 1 == |KeysR(e)|) && |KeysI(e)| <= 5
    ensures BooksI(e, p, NextI(e, p))
  {
    hide KeysI, KeysR, PeerDone, PairingI, PairingR, HostStep, Msgs, Ltk;
    NextMessage(KeysR(e), p.nI);
    NoMessages(KeysI(e));
    assert p.nR == 0;
    assert PairingI(e) + [] == PairingI(e);
  }

  /** One of several messages is taken. */
  lemma NextMessage(pdus: seq<Pdu>, n: nat)
    requires n < |pdus|
    ensures Msgs(pdus[n..]) != [] && Msgs(pdus[n..])[0].ForHost? && Msgs(pdus[n..])[0].up == Receive(pdus[n])
    ensures [] + Msgs(pdus[n..]) == Msgs(pdus[n..]) && [] + Msgs(pdus[n + 1..]) == Msgs(pdus[n..])[1..]
  {
  }

  lemma NoMessages(pdus: seq<Pdu>)
    ensures Msgs([]) == [] && OfDowns([]) == [] && [] + [] + Msgs([]) + OfDowns([]) == []
    ensures pdus[0..] == pdus && [] + Msgs(pdus) == Msgs(pdus) && [] + [] + Msgs(pdus) + OfDowns([]) == Msgs(pdus)
  {
  }

  lemma BooksEncryptedI(e: Env, p: Phase)
    requires p.Keys? && Valid(e, p) && !p.iSeen
    ensures BooksI(e, p, NextI(e, p))
  {
    hide Mask, KeyPdus, PairingI, PairingR, HostStep;
  }

  lemma BooksKeysR(e: Env, p: Phase)
    requires p.Keys? && Valid(e, p) && (p.rSeen ==> PeerDone(e, p.nI) && p.nR < |KeysI(e)|)
    ensures BooksR(e, p, NextR(e, p))
  {
    PeerDoneLast(e, p.nI);
    if p.rSeen {
      assert Msgs(KeysI(e)[p.nR..])[1..] == Msgs(KeysI(e)[p.nR + 1..]);
    }
  }
}
