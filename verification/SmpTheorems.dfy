/** What pairing promises, for every schedule of two honest hosts and their controllers. */
module SmpTheorems {
  import opened SmpTypes
  import opened SmpSpec
  import opened SmpSystem
  import opened SmpPhases
  import opened SmpSteps
  import opened SmpHandlers
  import opened SmpReach

  // ---------------------------------------------------------------- the long-term key

  lemma PairedFrom(e: Env, p: Phase)
    requires Valid(e, p) && Rank(e, p) <= 16
    ensures IAt(e, p).ltk == RAt(e, p).ltk == Ltk(e) && IAt(e, p).mackey == RAt(e, p).mackey
  {
    hide IPaired, RPaired, KeysI, KeysR, Mask, HostStep;
    PairedValues(e);
    PairedMackeys(e);
  }

  lemma PairedMackeys(e: Env)
    ensures IPaired(e).mackey == RPaired(e).mackey == if Sc(e) then Mackey(e) else ZERO
  {
    hide HostStep, SelectMethod, ShiftRight;
  }

  lemma DownInFlight(ups: seq<Up>, downs: seq<Down>, j: nat)
    requires j < |downs|
    ensures |ups| + j < |OfUps(ups) + OfDowns(downs)|
    ensures (OfUps(ups) + OfDowns(downs))[|ups| + j] == OfDown(downs[j])
  {
  }

  /** The order to encrypt is given in one phase only, with the key of the run. */
  lemma EncryptOrdered(e: Env, s: System, p: Phase, key: Block)
    requires Inv(e, s, p) && StartEncrypt(key) in s.iDown
    ensures p.Encrypt? && key == Ltk(e)
  {
    hide Valid, IAt, RAt, ToRAt, ToIAt, ILogAt, RLogAt, IDevAt, RDevAt, HostStep, Ltk;
    var j :| 0 <= j < |s.iDown| && s.iDown[j] == StartEncrypt(key);
    DownInFlight(s.rUp, s.iDown, j);
    OrderPhaseI(e, p, |s.rUp| + j);
  }

  /**
   * From the moment the initiator starts encryption, both ends hold the key it encrypts with, and
   * the same MacKey, for ever.
   */
  lemma LtkAgreement(e: Env, moves: seq<Move>, more: seq<Move>, key: Block)
    requires Honest(e) && StartEncrypt(key) in Exec(e, moves).iDown
    ensures var s := Exec(e, moves + more);
            s.i.ltk == s.r.ltk == key && s.i.mackey == s.r.mackey
  {
    hide Do, IAt, RAt, ToIAt, ToRAt, ILogAt, RLogAt, IDevAt, RDevAt, HostStep;
    var p := Reach(e, moves);
    EncryptOrdered(e, Exec(e, moves), p, key);
    var p' := ReachOn(e, moves, more, p);
    PairedFrom(e, p');
  }

  // ---------------------------------------------------------------- passkey rounds

  datatype Kind = AFailure | ACheck | AKey

  predicate Is(kind: Kind, pdu: Pdu)
  {
    match kind
    case AFailure => pdu.PairingFailed?
    case ACheck => pdu.DhkeyCheck?
    case AKey => IsKeyPdu(pdu)
  }

  predicate Has(kind: Kind, log: seq<Pdu>) { exists pdu :: pdu in log && Is(kind, pdu) }

  lemma HasConcat(kind: Kind, a: seq<Pdu>, b: seq<Pdu>)
    ensures Has(kind, a + b) <==> Has(kind, a) || Has(kind, b)
  {
    if Has(kind, a) { var x :| x in a && Is(kind, x); assert x in a + b; }
    if Has(kind, b) { var x :| x in b && Is(kind, x); assert x in a + b; }
  }

  /** `k` rounds are `k` confirm values, each followed by a nonce, and nothing else. */
  lemma {:induction false} RoundsShape(e: Env, k: nat)
    ensures |RoundsI(e, k)| == |RoundsR(e, k)| == 2 * k
    ensures forall j :: 0 <= j < k ==>
              RoundsI(e, k)[2 * j] == PairingConfirm(CfmI(e, j)) && RoundsI(e, k)[2 * j + 1] == PairingRandom(e.nonceI)
    ensures forall j :: 0 <= j < k ==>
              RoundsR(e, k)[2 * j] == PairingConfirm(CfmR(e, j)) && RoundsR(e, k)[2 * j + 1] == PairingRandom(e.nonceR)
  {
    hide CfmI, CfmR, HostStep;
    if k > 0 {
      RoundsShape(e, k - 1);
    }
  }

  lemma {:induction false} RoundsPlain(e: Env, k: nat, kind: Kind)
    ensures !Has(kind, RoundsI(e, k)) && !Has(kind, RoundsR(e, k))
  {
    hide CfmI, CfmR, HostStep;
    if k > 0 {
      RoundsPlain(e, k - 1, kind);
      HasConcat(kind, RoundsI(e, k - 1), [PairingConfirm(CfmI(e, k - 1)), PairingRandom(e.nonceI)]);
      HasConcat(kind, RoundsR(e, k - 1), [PairingConfirm(CfmR(e, k - 1)), PairingRandom(e.nonceR)]);
    }
  }

  lemma StagePlain(e: Env, kind: Kind)
    ensures !Has(kind, StageI(e)) && !Has(kind, StageR(e)) && !Has(kind, OpeningI(e)) && !Has(kind, OpeningR(e))
  {
    hide CfmI, CfmR, CfmJw, RoundsI, RoundsR, Passkey, Req, Rsp, PkI, PkR, HostStep;
    RoundsPlain(e, 20, kind);
    HasConcat(kind, OpeningI(e), RoundsI(e, 20));
    HasConcat(kind, OpeningR(e), RoundsR(e, 20));
    HasConcat(kind, OpeningI(e), [PairingRandom(e.nonceI)]);
    HasConcat(kind, OpeningR(e), [PairingConfirm(CfmJw(e)), PairingRandom(e.nonceR)]);
  }

  lemma KeysOnly(e: Env, kind: Kind)
    ensures Has(kind, KeysI(e)) <==> kind == AKey
    ensures Has(kind, KeysR(e)) <==> kind == AKey
  {
    hide HostStep;
    MaskValues(e);
    hide Mask;
    var id := IdentInfo(ZERO);
    assert id in KeysI(e) && id in KeysR(e) && Is(AKey, id);
  }

  lemma PairingHas(e: Env, kind: Kind)
    ensures Has(kind, PairingI(e)) <==> (kind == ACheck && Sc(e)) || (kind == AFailure && RefusedByI(e))
    ensures Has(kind, PairingR(e)) <==> (kind == ACheck && Sc(e)) || (kind == AFailure && RefusedByR(e))
  {
    hide StageI, StageR, CheckI, CheckR, Req, Rsp, LegacyConfirm, HostStep;
    StagePlain(e, kind);
    var (ci, cr) := (DhkeyCheck(CheckI(e)), DhkeyCheck(CheckR(e)));
    var failed := PairingFailed(SMP_DHKEY_CHECK_FAILED);
    assert ci in [ci] && cr in [cr] && failed in FailedPdu(true);
    HasConcat(kind, StageI(e) + [ci], FailedPdu(RefusedByI(e)));
    HasConcat(kind, StageI(e), [ci]);
    HasConcat(kind, StageR(e) + FailedPdu(RefusedByR(e)), [cr]);
    HasConcat(kind, StageR(e), FailedPdu(RefusedByR(e)));
    assert Has(ACheck, [ci]) && Has(ACheck, [cr]) && Has(AFailure, FailedPdu(true));
  }

  lemma MidRound(e: Env, k: nat, kind: Kind)
    ensures !Has(kind, OpeningI(e) + RoundsI(e, k))
    ensures !Has(kind, OpeningI(e) + RoundsI(e, k) + [PairingConfirm(CfmI(e, k))])
    ensures !Has(kind, OpeningR(e) + RoundsR(e, k))
    ensures !Has(kind, OpeningR(e) + RoundsR(e, k) + [PairingConfirm(CfmR(e, k))])
  {
    hide CfmI, CfmR, CfmJw, RoundsI, RoundsR, Req, Rsp, PkI, PkR, HostStep;
    RoundsPlain(e, k, kind);
    HasConcat(kind, OpeningI(e), RoundsI(e, k));
    HasConcat(kind, OpeningI(e) + RoundsI(e, k), [PairingConfirm(CfmI(e, k))]);
    HasConcat(kind, OpeningR(e), RoundsR(e, k));
    HasConcat(kind, OpeningR(e) + RoundsR(e, k), [PairingConfirm(CfmR(e, k))]);
  }

  /** How far a run is once a log holds a PDU of some kind, while keys are distributed. */
  lemma SaidInKeys(e: Env, p: Phase, kind: Kind)
    requires p.Keys? && Valid(e, p)
    ensures Rank(e, p) <= 12
    ensures Has(kind, ILogAt(e, p)) ==>
              (kind == AFailure && RefusedByI(e)) || (kind == ACheck && Sc(e)) || (kind == AKey && PeerDone(e, p.nI))
    ensures Has(kind, RLogAt(e, p)) ==>
              (kind == AFailure && RefusedByR(e)) || (kind == ACheck && Sc(e)) || (kind == AKey && p.rSeen)
  {
    PeerDoneLast(e, p.nI);
    hide PairingI, PairingR, KeysI, KeysR, PeerDone, RefusedByI, RefusedByR, HostStep, Has;
    PairingHas(e, kind);
    KeysOnly(e, kind);
    HasConcat(kind, PairingI(e), if PeerDone(e, p.nI) then KeysI(e) else []);
    HasConcat(kind, PairingR(e), if p.rSeen then KeysR(e) else []);
    if Has(kind, []) { HasNone(kind); }
  }

  lemma HasNone(kind: Kind)
    ensures !Has(kind, [])
  {
  }

  /** The phases in which a DHKey Check has been said. */
  predicate Checking(p: Phase)
  {
    p.Check1? || p.Check2? || p.Encrypt? || p.Replying? || p.Refusing? || p.Refused? || p.Over?
  }

  lemma CheckingLate(e: Env, p: Phase)
    requires Valid(e, p) && Checking(p)
    ensures Rank(e, p) <= if p.Check1? then 19 else 18
  {
    hide HostStep;
  }

  lemma LegacyPlain(e: Env, kind: Kind)
    ensures !Has(kind, []) && !Has(kind, [PairingConfirm(CfmJw(e))])
    ensures !Has(kind, [PairingRequest(Req(e))]) && !Has(kind, [PairingResponse(Rsp(e))])
    ensures !Has(kind, [PairingRequest(Req(e)), PairingConfirm(LegacyConfirm(e))])
    ensures !Has(kind, [PairingResponse(Rsp(e)), PairingConfirm(LegacyConfirm(e))])
  {
    hide CfmJw, Req, Rsp, LegacyConfirm, HostStep;
  }

  predicate InRounds(p: Phase) { p.RoundCfm1? || p.RoundCfm2? || p.RoundRnd1? || p.RoundRnd2? }

  lemma RoundLogs(e: Env, p: Phase, kind: Kind)
    requires Valid(e, p) && InRounds(p)
    ensures !Has(kind, ILogAt(e, p)) && !Has(kind, RLogAt(e, p))
  {
    hide CfmI, CfmR, RoundsI, RoundsR, OpeningI, OpeningR, Passkey, Sc, Has, HostStep;
    MidRound(e, p.k, kind);
    MidRound(e, p.k + 1, kind);
  }

  /** The same for the earlier phases of the initiator. */
  lemma SaidByI(e: Env, p: Phase, kind: Kind)
    requires !p.Keys? && Valid(e, p) && Has(kind, ILogAt(e, p))
    ensures (kind == AFailure && RefusedByI(e)) || (kind == ACheck && Sc(e) && Rank(e, p) <= 19)
  {
    if Checking(p) { CheckingLate(e, p); }
    hide Rank, Has, StageI, CfmI, CfmJw, RoundsI, Req, Rsp, PkI, LegacyConfirm, PairingI, CheckI, HostStep,
         RefusedByI, OpeningI;
    StagePlain(e, kind);
    PairingHas(e, kind);
    LegacyPlain(e, kind);
    if InRounds(p) {
      RoundLogs(e, p, kind);
      return;
    }
    match p
    case Check1 => HasConcat(kind, StageI(e), [DhkeyCheck(CheckI(e))]);
    case Check2(_) => HasConcat(kind, StageI(e), [DhkeyCheck(CheckI(e))]);
    case _ =>
  }

  /** And of the responder. */
  lemma SaidByR(e: Env, p: Phase, kind: Kind)
    requires !p.Keys? && Valid(e, p) && Has(kind, RLogAt(e, p))
    ensures (kind == AFailure && RefusedByR(e)) || (kind == ACheck && Sc(e) && Rank(e, p) <= 18)
  {
    if Checking(p) { CheckingLate(e, p); }
    hide Rank, Has, StageR, CfmR, CfmJw, RoundsR, Req, Rsp, PkR, LegacyConfirm, PairingR, CheckR, HostStep,
         RefusedByR, OpeningR;
    StagePlain(e, kind);
    PairingHas(e, kind);
    LegacyPlain(e, kind);
    if InRounds(p) {
      RoundLogs(e, p, kind);
      return;
    }
    match p
    case KeyAnswered => HasConcat(kind, OpeningR(e), if Passkey(e) then [] else [PairingConfirm(CfmJw(e))]);
    case JwCfm => HasConcat(kind, OpeningR(e), [PairingConfirm(CfmJw(e))]);
    case JwRnd1 => HasConcat(kind, OpeningR(e), [PairingConfirm(CfmJw(e))]);
    case _ =>
  }

  lemma Said(e: Env, p: Phase, kind: Kind)
    requires Valid(e, p)
    ensures Has(kind, ILogAt(e, p)) ==>
              || (kind == AFailure && RefusedByI(e)) || (kind == ACheck && Sc(e) && Rank(e, p) <= 19)
              || (kind == AKey && p.Keys? && PeerDone(e, p.nI))
    ensures Has(kind, RLogAt(e, p)) ==>
              || (kind == AFailure && RefusedByR(e)) || (kind == ACheck && Sc(e) && Rank(e, p) <= 18)
              || (kind == AKey && p.Keys? && p.rSeen)
  {
    hide ILogAt, RLogAt, Rank, RefusedByI, RefusedByR, PeerDone, Has, Valid, HostStep;
    if p.Keys? {
      SaidInKeys(e, p, kind);
    } else {
      if Has(kind, ILogAt(e, p)) { SaidByI(e, p, kind); }
      if Has(kind, RLogAt(e, p)) { SaidByR(e, p, kind); }
    }
  }

  lemma CountersOf(e: Env, k: nat)
    ensures I0(e).passkeyRound == I1(e).passkeyRound == I3(e).passkeyRound == 0
    ensures R0(e).passkeyRound == R1(e).passkeyRound == 0
    ensures IRound(e, k).passkeyRound == RRound(e, k).passkeyRound == k
    ensures Sc(e) ==> RKeyed(e).passkeyRound == if Passkey(e) then 20 else 0
    ensures IPaired(e).passkeyRound == RPaired(e).passkeyRound == if Sc(e) && Passkey(e) then 20 else 0
  {
    hide CfmI, CfmR, CfmJw, SelectMethod, ShiftRight, Req, Rsp, Mackey, Ltk, Mask, HostStep, Passkey, Sc;
  }

  lemma LateChecking(e: Env, p: Phase)
    requires Valid(e, p) && Sc(e) && Rank(e, p) <= 19
    ensures Checking(p) || p.Keys?
  {
    hide HostStep;
  }

  /** The round counters of the two ends, phase by phase. */
  function DoneI(e: Env, p: Phase): nat
  {
    match p
    case RoundCfm1(k) => k
    case RoundCfm2(k) => k
    case RoundRnd1(k) => k
    case RoundRnd2(k) => k
    case _ => if (Checking(p) || p.Keys?) && Sc(e) && Passkey(e) then 20 else 0
  }

  function DoneR(e: Env, p: Phase): nat
  {
    if p.RoundRnd2? then p.k + 1 else DoneI(e, p)
  }

  lemma CounterI(e: Env, p: Phase)
    requires Valid(e, p)
    ensures IAt(e, p).passkeyRound == DoneI(e, p)
  {
    hide Rank, IRound, RRound, IPaired, RPaired, RKeyed, I0, I1, I3, R0, R1, CfmI, CfmR, CfmJw;
    hide KeysI, KeysR, Mask, HostStep, Passkey, Sc;
    CountersOf(e, if InRounds(p) then p.k else 0);
  }

  lemma CounterInRoundsR(e: Env, p: Phase)
    requires Valid(e, p) && InRounds(p)
    ensures RAt(e, p).passkeyRound == DoneR(e, p)
  {
    hide Rank, IRound, RRound, RPaired, RKeyed, R0, R1, R2, CfmI, CfmR, CfmJw, HostStep, Passkey, Sc;
    CountersOf(e, if p.RoundRnd2? then p.k + 1 else p.k);
  }

  lemma CounterR(e: Env, p: Phase)
    requires Valid(e, p)
    ensures RAt(e, p).passkeyRound == DoneR(e, p)
  {
    hide Rank, IRound, RRound, IPaired, RPaired, RKeyed, I0, I1, I3, R0, R1, CfmI, CfmR, CfmJw;
    hide KeysI, KeysR, Mask, HostStep, Passkey, Sc;
    if InRounds(p) {
      CounterInRoundsR(e, p);
    } else {
      CountersOf(e, 0);
    }
  }

  lemma RoundCounters(e: Env, p: Phase)
    requires Valid(e, p)
    ensures var i, r := IAt(e, p).passkeyRound, RAt(e, p).passkeyRound;
            i <= r <= i + 1 && r <= 20 && (Sc(e) && Rank(e, p) <= 19 ==> i == r == if Passkey(e) then 20 else 0)
  {
    hide Rank, IAt, RAt, HostStep, Passkey, Sc;
    if Sc(e) && Rank(e, p) <= 19 { LateChecking(e, p); }
    CounterI(e, p);
    CounterR(e, p);
  }

  lemma DerivedByThen(e: Env, p: Phase)
    requires Valid(e, p) && Sc(e) && Rank(e, p) <= 19
    ensures IAt(e, p).mackey == RAt(e, p).mackey == Mackey(e) && IAt(e, p).ltk == RAt(e, p).ltk == Ltk(e)
  {
    hide IPaired, RPaired, Mackey, Ltk, KeysI, KeysR, Mask, HostStep;
    PairedValues(e);
    PairedMackeys(e);
  }

  /**
   * The two ends run the passkey rounds in lockstep, the responder at most one ahead, and neither
   * says a DHKey Check before both have done all 20 rounds and hold the same MacKey and LTK.
   */
  lemma PasskeyLockstep(e: Env, moves: seq<Move>)
    requires Honest(e)
    ensures var s := Exec(e, moves);
            && s.i.passkeyRound <= s.r.passkeyRound <= s.i.passkeyRound + 1
            && s.r.passkeyRound <= 20
            && (Has(ACheck, s.iLog) || Has(ACheck, s.rLog) ==>
                  && s.i.passkeyRound == s.r.passkeyRound == (if Passkey(e) then 20 else 0)
                  && s.i.mackey == s.r.mackey == Mackey(e) && s.i.ltk == s.r.ltk == Ltk(e))
  {
    hide Do, IAt, RAt, ToIAt, ToRAt, ILogAt, RLogAt, IDevAt, RDevAt, HostStep, Has;
    var p := Reach(e, moves);
    RoundCounters(e, p);
    if Has(ACheck, ILogAt(e, p)) || Has(ACheck, RLogAt(e, p)) {
      Said(e, p, ACheck);
      DerivedByThen(e, p);
    }
  }

  // ---------------------------------------------------------------- Pairing Failed

  /** Pairing Failed is said only by an end that verifies the check over a non-zero passkey. */
  lemma FailureOnlyIfRefused(e: Env, moves: seq<Move>)
    requires Honest(e)
    ensures Has(AFailure, Exec(e, moves).iLog) ==> RefusedByI(e) && e.passkey != 0
    ensures Has(AFailure, Exec(e, moves).rLog) ==> RefusedByR(e) && e.passkey != 0
  {
    hide Do, IAt, RAt, ToIAt, ToRAt, ILogAt, RLogAt, IDevAt, RDevAt, HostStep, Has;
    var p := Reach(e, moves);
    Said(e, p, AFailure);
    assert PasskeyBlock(0) == ZERO;
  }

  // ---------------------------------------------------------------- key distribution

  /** The key distribution PDUs of a log, in order. */
  function KeyPart(log: seq<Pdu>): seq<Pdu>
  {
    if log == [] then []
    else
      var last := log[|log| - 1];
      KeyPart(log[..|log| - 1]) + if IsKeyPdu(last) then [last] else []
  }

  lemma {:induction false} KeyPartNone(log: seq<Pdu>)
    requires !Has(AKey, log)
    ensures KeyPart(log) == []
  {
    if log != [] {
      var init, last := log[..|log| - 1], log[|log| - 1];
      assert last in log;
      forall x | x in init ensures x in log {}
      KeyPartNone(init);
    }
  }

  lemma {:induction false} KeyPartConcat(a: seq<Pdu>, b: seq<Pdu>)
    ensures KeyPart(a + b) == KeyPart(a) + KeyPart(b)
  {
    if b == [] {
      assert a + b == a;
    } else {
      var init := b[..|b| - 1];
      assert (a + b)[..|a + b| - 1] == a + init;
      KeyPartConcat(a, init);
    }
  }

  lemma {:induction false} KeyPartAll(keys: seq<Pdu>)
    requires forall j :: 0 <= j < |keys| ==> IsKeyPdu(keys[j])
    ensures KeyPart(keys) == keys
  {
    if keys != [] {
      KeyPartAll(keys[..|keys| - 1]);
    }
  }

  /** The PDUs of a mask: each of its keys once, and no other. */
  lemma OnePduPerKey(m: KeyMask, a: Addr)
    ensures multiset(KeyPdus(m, a))
         == (if m.enc then multiset{EncryptInfo(ZERO), MasterIdent} else multiset{})
            + (if m.id then multiset{IdentInfo(ZERO), IdentAddrInfo(a)} else multiset{})
            + (if m.sign then multiset{SigningInfo(ZERO)} else multiset{})
  {
  }

  lemma KeyPartAt(e: Env, p: Phase)
    requires Valid(e, p)
    ensures KeyPart(ILogAt(e, p)) == if p.Keys? && PeerDone(e, p.nI) then KeysI(e) else []
    ensures KeyPart(RLogAt(e, p)) == if p.Keys? && p.rSeen then KeysR(e) else []
  {
    hide KeysI, KeysR, PairingI, PairingR, Has, PeerDone, Rank, Is, HostStep;
    if p.Keys? {
      KeyPartOfKeys(e);
      PairingHas(e, AKey);
      KeyPartNone(PairingI(e));
      KeyPartNone(PairingR(e));
      KeyPartConcat(PairingI(e), if PeerDone(e, p.nI) then KeysI(e) else []);
      KeyPartConcat(PairingR(e), if p.rSeen then KeysR(e) else []);
    } else {
      Said(e, p, AKey);
      KeyPartNone(ILogAt(e, p));
      KeyPartNone(RLogAt(e, p));
    }
  }

  lemma KeyPartOfKeys(e: Env)
    ensures KeyPart(KeysI(e)) == KeysI(e) && KeyPart(KeysR(e)) == KeysR(e)
  {
    KeyKinds(Mask(e), e.ia);
    KeyKinds(Mask(e), e.ra);
    KeyPartAll(KeysI(e));
    KeyPartAll(KeysR(e));
  }

  /** The masks that both ends distribute by, from the response on. */
  lemma MaskAtI(e: Env, p: Phase)
    requires Valid(e, p) && p != ReqSent && p != RspSent
    ensures IAt(e, p).localKeyDist == Mask(e)
  {
    hide Rank, Sc, Passkey, IRound, RRound, IPaired, RPaired, RKeyed, I1, I2, I3, R1, R2;
    hide CfmI, CfmR, CfmJw, KeysI, KeysR, Mask, HostStep;
    MasksOf(e, if InRounds(p) then p.k else 0);
  }

  lemma MaskAtR(e: Env, p: Phase)
    requires Valid(e, p) && p != ReqSent
    ensures RAt(e, p).localKeyDist == Mask(e)
  {
    hide Rank, Sc, Passkey, IRound, RRound, IPaired, RPaired, RKeyed, I1, I2, I3, R1, R2;
    hide CfmI, CfmR, CfmJw, KeysI, KeysR, Mask, HostStep;
    MasksOf(e, if p.RoundCfm1? || p.RoundCfm2? || p.RoundRnd1? then p.k else if p.RoundRnd2? then p.k + 1 else 0);
  }

  lemma MasksOf(e: Env, k: nat)
    ensures I1(e).localKeyDist == I2(e).localKeyDist == I3(e).localKeyDist == IRound(e, k).localKeyDist == Mask(e)
    ensures R1(e).localKeyDist == R2(e).localKeyDist == RRound(e, k).localKeyDist == RKeyed(e).localKeyDist == Mask(e)
    ensures IPaired(e).localKeyDist == RPaired(e).localKeyDist == Mask(e)
  {
    hide CfmI, CfmR, CfmJw, SelectMethod, ShiftRight, Mackey, Ltk, HostStep;
    MaskValues(e);
    hide Mask;
  }

  lemma DoneAtI(e: Env, p: Phase)
    requires Valid(e, p) && p.Keys? && PeerDone(e, p.nI)
    ensures ToIAt(e, p) == [] && IAt(e, p).remoteKeyDist == NO_KEYS && p.iSeen && p.rSeen && p.nI == |KeysR(e)|
  {
    hide IPaired, Ltk, Mask, KeyPdus, HostStep, Rank;
    PeerDoneLast(e, p.nI);
  }

  /**
   * Neither end sends a key twice or a key outside the agreed mask, and the initiator stays silent
   * until every key of the responder has reached it and cleared its remote mask.
   */
  lemma KeysInOrder(e: Env, moves: seq<Move>)
    requires Honest(e)
    ensures var s := Exec(e, moves);
            && KeyPart(s.rLog) in [[], KeyPdus(Mask(e), e.ra)]
            && KeyPart(s.iLog) in [[], KeyPdus(Mask(e), e.ia)]
            && (KeyPart(s.rLog) != [] ==> s.i.localKeyDist == s.r.localKeyDist == Mask(e))
            && (KeyPart(s.iLog) != [] ==>
                  && KeyPart(s.rLog) == KeyPdus(Mask(e), e.ra) && s.rDown == [] && s.iUp == []
                  && s.i.remoteKeyDist == NO_KEYS)
  {
    hide Do, Exec, Rank, IAt, RAt, ToRAt, ILogAt, RLogAt, IDevAt, RDevAt, HostStep, KeyPart, PeerDone, Mask, KeyPdus;
    var p := Reach(e, moves);
    KeyPartAt(e, p);
    if p != ReqSent && p != RspSent {
      MaskAtI(e, p);
      MaskAtR(e, p);
    }
    if p.Keys? && PeerDone(e, p.nI) {
      PeerDoneLast(e, p.nI);
      DoneAtI(e, p);
    }
  }

  // ---------------------------------------------------------------- the end of a run

  /** Nothing is in flight in these phases only. */
  lemma QuietPhases(e: Env, p: Phase)
    requires Valid(e, p) && ToIAt(e, p) == [] && ToRAt(e, p) == []
    ensures p.Over? || (p.Keys? && p.iSeen && p.rSeen && p.nI == |KeysR(e)|)
    ensures p.Keys? && !Mask(e).link ==> PeerDone(e, p.nI) && p.nR == |KeysI(e)|
    ensures p.Keys? && Mask(e).link ==> !PeerDone(e, p.nI)
  {
    hide Mask, KeyPdus, IAt, RAt, HostStep, Rank, ILogAt, RLogAt, Ltk;
    if p.Keys? {
      PeerDoneLast(e, p.nI);
      assert |ToIAt(e, p)| == 0 && |ToRAt(e, p)| == 0;
    }
  }

  /**
   * A run that has nothing left to do has encrypted the link at both ends, if the key is not the
   * all-zero one that `smp_get_ltk` takes for no key at all, and has distributed all keys but the
   * initiator's, which it holds back exactly if a link key was agreed.
   */
  lemma QuietRun(e: Env, moves: seq<Move>)
    requires Honest(e) && Quiet(Exec(e, moves))
    ensures var s := Exec(e, moves);
            if Ltk(e) == ZERO then
              && s.iEncr == s.rEncr == 0 && s.iLog == PairingI(e) && s.rLog == PairingR(e)
            else
              && s.iEncr == s.rEncr == 1
              && s.i.ltk == s.r.ltk == s.iDevLtk == s.rDevLtk == Ltk(e)
              && s.rLog == PairingR(e) + KeyPdus(Mask(e), e.ra)
              && s.iLog == PairingI(e) + if Mask(e).link then [] else KeyPdus(Mask(e), e.ia)
  {
    hide Do, Exec, Rank, IAt, RAt, HostStep, PeerDone, Mask, KeyPdus, Ltk, PairingI, PairingR;
    var p := Reach(e, moves);
    QuietPhases(e, p);
    OverOrKeys(e, p);
  }

  lemma OverOrKeys(e: Env, p: Phase)
    requires Valid(e, p) && (p.Over? || p.Keys?)
    ensures IAt(e, p).ltk == RAt(e, p).ltk == Ltk(e)
  {
    hide Mask, KeyPdus, Ltk, HostStep, IPaired, RPaired;
    PairedValues(e);
  }

  /** An end that refuses the check says so, and the link is encrypted all the same. */
  lemma RefusalIsNotFinal(e: Env, moves: seq<Move>)
    requires Honest(e) && Quiet(Exec(e, moves)) && Ltk(e) != ZERO
    ensures var s := Exec(e, moves);
            && (Has(AFailure, s.iLog) <==> RefusedByI(e)) && (Has(AFailure, s.rLog) <==> RefusedByR(e))
            && s.iEncr == s.rEncr == 1
  {
    hide Do, Exec, HostStep, Mask, KeyPdus, Ltk, PairingI, PairingR, RefusedByI, RefusedByR, Has;
    QuietRun(e, moves);
    PairingHas(e, AFailure);
    KeysOnly(e, AFailure);
    HasNone(AFailure);
    HasConcat(AFailure, PairingI(e), if Mask(e).link then [] else KeysI(e));
    HasConcat(AFailure, PairingR(e), KeysR(e));
  }

  /** Some party that has work, if there is one. */
  function Pick(s: System): Move
  {
    if s.iUp != [] then HostI else if s.rUp != [] then HostR else if s.iDown != [] then DeviceI else DeviceR
  }

  /** No run can go on for ever: every run can be, and every run that keeps moving is, brought to quiet. */
  lemma {:induction false} Completes(e: Env, moves: seq<Move>) returns (more: seq<Move>)
    requires Honest(e)
    ensures Quiet(Exec(e, moves + more)) && Work(e, moves + more) == Work(e, moves) + |more|
    decreases 619 - Work(e, moves)
  {
    hide Do, Inv, Measure, HostStep;
    var p := Reach(e, moves);
    var s := Exec(e, moves);
    if Quiet(s) {
      more := [];
      assert moves + [] == moves;
    } else {
      var m := Pick(s);
      assert (moves + [m])[..|moves + [m]| - 1] == moves;
      var rest := Completes(e, moves + [m]);
      more := [m] + rest;
      assert moves + more == moves + [m] + rest;
    }
  }

  /** At most 619 moves of any schedule find something to do. */
  lemma BoundedWork(e: Env, moves: seq<Move>)
    requires Honest(e)
    ensures Work(e, moves) <= 619
  {
    hide Do, Inv, Measure, Work, Exec, HostStep;
    var _ := Reach(e, moves);
  }
}
