/**
 * Pairing over hosts that must have a credit for every HCI command: starting encryption and answering
 * for a key may have to wait behind other commands. Every run is still one of those in which they do not.
 */
module SmpCredits {
  import opened Bytes
  import opened HciQueue
  import H = HciSystem
  import opened SmpTypes
  import opened SmpSpec
  import opened SmpSystem
  import opened SmpPhases
  import opened SmpSteps
  import opened SmpHandlers
  import opened SmpReach
  import opened SmpTheorems

  // ---------------------------------------------------------------- commands and data on their way

  /** The HCI command of an order to the controller, its key as the parameter. */
  function CommandFor(d: Down): Command
    requires !d.Send?
  {
    match d
    case StartEncrypt(key) => Command(LE_START_ENCRYPT, key)
    case LtkReply(key) => Command(LE_LTK_REQ_REPLY, key)
    case LtkNegReply => Command(LE_LTK_REQ_NEG_REPLY, [])
  }

  function OrdersOf(c: Command): (s: seq<Down>)
    ensures |s| <= 1 && forall d :: d in s ==> !d.Send?
  {
    if c.opcode == LE_START_ENCRYPT then [StartEncrypt(c.param)]
    else if c.opcode == LE_LTK_REQ_REPLY then [LtkReply(c.param)]
    else if c.opcode == LE_LTK_REQ_NEG_REPLY then [LtkNegReply]
    else []
  }

  /** Commands that leave keys and links alone. */
  predicate Neutral(c: Command)
  {
    || c.opcode == READ_LOCAL_FEATURES || c.opcode == READ_BD_ADDR
    || c.opcode == WRITE_SCAN_ENABLE || c.opcode == WRITE_SIMPLE_PAIRING_MODE
    || c.opcode == WRITE_LE_HOST_SUPPORTED || c.opcode == WRITE_SECURE_CONN_SUPPORT
    || c.opcode == LE_SET_ADV_DATA || c.opcode == LE_SET_ADV_PARAMETERS || c.opcode == LE_SET_ADV_ENABLE
    || c.opcode == LE_SET_EXT_ADV_DATA || c.opcode == LE_SET_EXT_ADV_PARAMS || c.opcode == LE_SET_EXT_ADV_ENABLE
  }

  predicate Meant(c: Command) { Neutral(c) || OrdersOf(c) != [] }

  /** The socket to the controller, and the one from it. */
  datatype Wire = Acl(pdu: Pdu) | Cmd(c: Command)
  datatype Event = ForSmp(up: Up) | Answer(r: H.Reply)

  /** A host's command queue and its two sockets; what the queue has sent is on the socket. */
  datatype End = End(q: Queue, down: seq<Wire>, up: seq<Event>)

  /** The two connections and controllers, whose own queues are not used, and the two ends. */
  datatype Linked = Linked(core: System, i: End, r: End)

  function Cmds(cs: seq<Command>): (s: seq<Wire>)
    ensures |s| == |cs|
  {
    seq(|cs|, k requires 0 <= k < |cs| => Cmd(cs[k]))
  }

  /** What the queue has sent goes to the socket. */
  function Drained(n: End, q: Queue): End { n.(q := q.(sent := []), down := n.down + Cmds(q.sent)) }

  function Put(n: End, d: Down): End
  {
    if d.Send? then n.(down := n.down + [Acl(d.pdu)]) else Drained(n, Issue(n.q, CommandFor(d)))
  }

  function PutAll(n: End, ds: seq<Down>): End
    decreases |ds|
  {
    if ds == [] then n else PutAll(Put(n, ds[0]), ds[1..])
  }

  // ---------------------------------------------------------------- moves

  datatype Turn = UserI(c: Command) | UserR(c: Command) | Party(m: Move)

  /** The host takes an event: a reply's credit, or one that pairing meets. */
  function HostTakes(e: Env, c: Conn, n: End): (Conn, End, seq<Down>)
    requires n.up != []
  {
    var rest := n.(up := n.up[1..]);
    match n.up[0]
    case Answer(_) => (c, Drained(rest, Credit(rest.q, H.CREDITS, [])), [])
    case ForSmp(up) =>
      var step := HostStep(e, c, up);
      (step.conn, PutAll(rest, step.sent), step.sent)
  }

  function Encr(encr: uint8, event: Event): uint8 { if event.ForSmp? then EncrAfter(encr, event.up) else encr }

  function Events(ups: seq<Up>): (s: seq<Event>)
    ensures |s| == |ups|
  {
    seq(|ups|, k requires 0 <= k < |ups| => ForSmp(ups[k]))
  }

  function Answers(rs: seq<H.Reply>): (s: seq<Event>)
    ensures |s| == |rs|
  {
    seq(|rs|, k requires 0 <= k < |rs| => Answer(rs[k]))
  }

  /** The controller answers a command, and carries out what it orders. */
  function DeviceTakes(t: H.DeviceType, w: Wire, own: Block, peer: Block): (Block, seq<Event>, seq<Event>)
  {
    match w
    case Acl(pdu) =>
      var (ltk, mine, theirs) := DeviceStep(Send(pdu), own, peer);
      (ltk, Events(mine), Events(theirs))
    case Cmd(c) =>
      var answers := Answers(H.Replies(t, true, c.opcode));
      if OrdersOf(c) == [] then (own, answers, [])
      else
        var (ltk, mine, theirs) := DeviceStep(OrdersOf(c)[0], own, peer);
        (ltk, answers + Events(mine), Events(theirs))
  }

  predicate Able(s: Linked, m: Move)
  {
    match m
    case HostI => s.i.up != []
    case HostR => s.r.up != []
    case DeviceI => s.i.down != []
    case DeviceR => s.r.down != []
  }

  function Take(e: Env, t: H.DeviceType, s: Linked, m: Turn): Linked
  {
    match m
    case UserI(c) => s.(i := Drained(s.i, Issue(s.i.q, c)))
    case UserR(c) => s.(r := Drained(s.r, Issue(s.r.q, c)))
    case Party(p) =>
      if !Able(s, p) then s
      else match p
        case HostI =>
          var (conn, end, sent) := HostTakes(e, s.core.i, s.i);
          var core := s.core.(i := conn, iEncr := Encr(s.core.iEncr, s.i.up[0]), iLog := s.core.iLog + PdusOf(sent));
          s.(core := core, i := end)
        case HostR =>
          var (conn, end, sent) := HostTakes(e, s.core.r, s.r);
          var core := s.core.(r := conn, rEncr := Encr(s.core.rEncr, s.r.up[0]), rLog := s.core.rLog + PdusOf(sent));
          s.(core := core, r := end)
        case DeviceI =>
          var (ltk, mine, theirs) := DeviceTakes(t, s.i.down[0], s.core.iDevLtk, s.core.rDevLtk);
          s.(core := s.core.(iDevLtk := ltk), i := s.i.(down := s.i.down[1..], up := s.i.up + mine),
             r := s.r.(up := s.r.up + theirs))
        case DeviceR =>
          var (ltk, mine, theirs) := DeviceTakes(t, s.r.down[0], s.core.rDevLtk, s.core.iDevLtk);
          s.(core := s.core.(rDevLtk := ltk), r := s.r.(down := s.r.down[1..], up := s.r.up + mine),
             i := s.i.(up := s.i.up + theirs))
  }

  /** Pairing begins when both hosts are idle, each with its one credit. */
  function Begin(e: Env): Linked
  {
    var idle := End(Queue(1, [], []), [], []);
    var core := Start(e);
    Linked(core.(iDown := []), PutAll(idle, core.iDown), idle)
  }

  function Course(e: Env, t: H.DeviceType, steps: seq<Turn>): Linked
  {
    if steps == [] then Begin(e) else Take(e, t, Course(e, t, steps[..|steps| - 1]), steps[|steps| - 1])
  }

  predicate Allowed(m: Turn) { (m.UserI? ==> Neutral(m.c)) && (m.UserR? ==> Neutral(m.c)) }

  // ---------------------------------------------------------------- the run without credits that it is

  /** What of the socket's content is pairing's. */
  function OfWire(w: Wire): (s: seq<Down>)
    ensures |s| <= 1
  {
    match w
    case Acl(pdu) => [Send(pdu)]
    case Cmd(c) => OrdersOf(c)
  }

  function SmpOf(ws: seq<Wire>): seq<Down>
  {
    if ws == [] then [] else SmpOf(ws[..|ws| - 1]) + OfWire(ws[|ws| - 1])
  }

  function OfEvent(event: Event): seq<Up> { if event.ForSmp? then [event.up] else [] }

  function UpsOf(events: seq<Event>): seq<Up>
  {
    if events == [] then [] else UpsOf(events[..|events| - 1]) + OfEvent(events[|events| - 1])
  }

  /** What the host has handed down, if waiting commands are taken to be on the socket already. */
  function DownOf(n: End): seq<Down> { SmpOf(n.down) + SmpOf(Cmds(n.q.waiting)) }

  function Abs(s: Linked): System
  {
    s.core.(iDown := DownOf(s.i), rDown := DownOf(s.r), iUp := UpsOf(s.i.up), rUp := UpsOf(s.r.up))
  }

  lemma {:induction false} SmpOfConcat(a: seq<Wire>, b: seq<Wire>)
    ensures SmpOf(a + b) == SmpOf(a) + SmpOf(b)
  {
    hide OfWire;
    if b == [] {
      assert a + b == a;
    } else {
      var init := b[..|b| - 1];
      assert (a + b)[..|a + b| - 1] == a + init;
      SmpOfConcat(a, init);
    }
  }

  lemma {:induction false} UpsOfConcat(a: seq<Event>, b: seq<Event>)
    ensures UpsOf(a + b) == UpsOf(a) + UpsOf(b)
  {
    hide OfEvent;
    if b == [] {
      assert a + b == a;
    } else {
      var init := b[..|b| - 1];
      assert (a + b)[..|a + b| - 1] == a + init;
      UpsOfConcat(a, init);
    }
  }

  lemma {:induction false} UpsOfEvents(ups: seq<Up>)
    ensures UpsOf(Events(ups)) == ups
  {
    if ups != [] {
      UpsOfEvents(ups[..|ups| - 1]);
      assert Events(ups)[..|ups| - 1] == Events(ups[..|ups| - 1]);
    }
  }

  lemma {:induction false} UpsOfAnswers(rs: seq<H.Reply>)
    ensures UpsOf(Answers(rs)) == []
  {
    if rs != [] {
      UpsOfAnswers(rs[..|rs| - 1]);
      assert Answers(rs)[..|rs| - 1] == Answers(rs[..|rs| - 1]);
    }
  }

  // ---------------------------------------------------------------- credits at one end

  function CmdCount(ws: seq<Wire>): nat
  {
    if ws == [] then 0 else CmdCount(ws[..|ws| - 1]) + if ws[|ws| - 1].Cmd? then 1 else 0
  }

  function AnswerCount(events: seq<Event>): nat
  {
    if events == [] then 0 else AnswerCount(events[..|events| - 1]) + if events[|events| - 1].Answer? then 1 else 0
  }

  lemma {:induction false} CmdCountConcat(a: seq<Wire>, b: seq<Wire>)
    ensures CmdCount(a + b) == CmdCount(a) + CmdCount(b)
  {
    if b == [] {
      assert a + b == a;
    } else {
      var init := b[..|b| - 1];
      assert (a + b)[..|a + b| - 1] == a + init;
      CmdCountConcat(a, init);
    }
  }

  lemma {:induction false} AnswerCountConcat(a: seq<Event>, b: seq<Event>)
    ensures AnswerCount(a + b) == AnswerCount(a) + AnswerCount(b)
  {
    if b == [] {
      assert a + b == a;
    } else {
      var init := b[..|b| - 1];
      assert (a + b)[..|a + b| - 1] == a + init;
      AnswerCountConcat(a, init);
    }
  }

  lemma {:induction false} NoAnswers(ups: seq<Up>)
    ensures AnswerCount(Events(ups)) == 0
  {
    if ups != [] {
      NoAnswers(ups[..|ups| - 1]);
      assert Events(ups)[..|ups| - 1] == Events(ups[..|ups| - 1]);
    }
  }

  /** One credit exists at an end, and no command waits while the host has it. */
  predicate Credited(n: End)
  {
    && n.q.sent == [] && n.q.ncmd + CmdCount(n.down) + AnswerCount(n.up) == 1
    && (n.q.waiting != [] ==> n.q.ncmd == 0)
    && (forall c :: c in n.q.waiting ==> Meant(c))
    && (forall w :: w in n.down ==> w.Cmd? ==> Meant(w.c))
  }

  lemma OneWire(w: Wire)
    ensures SmpOf([w]) == OfWire(w)
    ensures CmdCount([w]) == if w.Cmd? then 1 else 0
  {
    assert [w][..0] == [];
  }

  /** A command that is issued is on the socket or waits last. */
  lemma Issued(n: End, c: Command)
    requires Credited(n) && Meant(c)
    ensures var n' := Drained(n, Issue(n.q, c));
            Credited(n') && n'.up == n.up && DownOf(n') == DownOf(n) + OrdersOf(c)
  {
    hide Meant, OrdersOf, SmpOf, CmdCount, AnswerCount;
    if n.q.ncmd > 0 {
      IssuedAtOnce(n, c);
    } else {
      IssuedLater(n, c);
    }
  }

  lemma IssuedAtOnce(n: End, c: Command)
    requires n.q.waiting == [] && n.q.sent == []
    ensures var n' := n.(down := n.down + [Cmd(c)]);
            DownOf(n') == DownOf(n) + OrdersOf(c) && CmdCount(n'.down) == CmdCount(n.down) + 1
    ensures [] + [c] == [c] && Cmds([c]) == [Cmd(c)]
  {
    hide OrdersOf;
    OneWire(Cmd(c));
    SmpOfConcat(n.down, [Cmd(c)]);
    CmdCountConcat(n.down, [Cmd(c)]);
    assert SmpOf(Cmds([])) == [];
  }

  lemma IssuedLater(n: End, c: Command)
    ensures var n' := n.(q := n.q.(waiting := n.q.waiting + [c])); DownOf(n') == DownOf(n) + OrdersOf(c)
    ensures n.down + Cmds([]) == n.down
  {
    hide OrdersOf;
    OneWire(Cmd(c));
    assert Cmds(n.q.waiting + [c]) == Cmds(n.q.waiting) + [Cmd(c)];
    SmpOfConcat(Cmds(n.q.waiting), [Cmd(c)]);
  }

  /** Data goes to the socket, in front of nothing if no order waits. */
  lemma Sent(n: End, pdu: Pdu)
    requires Credited(n) && SmpOf(Cmds(n.q.waiting)) == []
    ensures var n' := Put(n, Send(pdu));
            Credited(n') && n'.up == n.up && n'.q == n.q && DownOf(n') == DownOf(n) + [Send(pdu)]
  {
    hide Meant, SmpOf, CmdCount, AnswerCount;
    OneWire(Acl(pdu));
    SmpOfConcat(n.down, [Acl(pdu)]);
    CmdCountConcat(n.down, [Acl(pdu)]);
    assert SmpOf(n.down) + [] == SmpOf(n.down) && SmpOf(n.down) + [Send(pdu)] + [] == SmpOf(n.down) + [Send(pdu)];
  }

  /** So a host's step is handed down in its order, if it ends with at most one order. */
  lemma {:induction false} StepPut(n: End, pdus: seq<Pdu>, orders: seq<Down>)
    requires Credited(n) && SmpOf(Cmds(n.q.waiting)) == [] && |orders| <= 1 && forall d :: d in orders ==> !d.Send?
    ensures var n' := PutAll(n, Sends(pdus) + orders);
            Credited(n') && n'.up == n.up && DownOf(n') == DownOf(n) + (Sends(pdus) + orders)
    decreases |pdus|
  {
    hide Credited, DownOf, Issue, CommandFor, OrdersOf, Meant;
    var all := Sends(pdus) + orders;
    if pdus != [] {
      assert all[0] == Send(pdus[0]) && all[1..] == Sends(pdus[1..]) + orders;
      Sent(n, pdus[0]);
      StepPut(Put(n, all[0]), pdus[1..], orders);
      assert DownOf(n) + [all[0]] + all[1..] == DownOf(n) + all;
    } else if orders != [] {
      assert all == [orders[0]] && all[1..] == [] && orders[0] in orders;
      OrderEncoded(orders[0]);
      Issued(n, CommandFor(orders[0]));
    } else {
      assert all == [] && DownOf(n) + [] == DownOf(n);
    }
  }

  lemma OrderEncoded(d: Down)
    requires !d.Send?
    ensures OrdersOf(CommandFor(d)) == [d] && Meant(CommandFor(d))
  {
  }

  /** A command that leaves the queue for the socket is handed down as before. */
  lemma HeadReleased(n: End)
    requires Credited(n.(q := n.q.(ncmd := 0))) && n.q.waiting != []
    ensures var head := n.q.waiting[0];
            var n' := n.(q := Queue(0, n.q.waiting[1..], []), down := n.down + [Cmd(head)]);
            && DownOf(n') == DownOf(n) && CmdCount(n'.down) == CmdCount(n.down) + 1
            && (forall c :: c in n'.q.waiting ==> Meant(c)) && (forall w :: w in n'.down ==> w.Cmd? ==> Meant(w.c))
  {
    hide Meant, OrdersOf, SmpOf, CmdCount;
    var head, tail := n.q.waiting[0], n.q.waiting[1..];
    assert Cmds(n.q.waiting) == [Cmd(head)] + Cmds(tail);
    OneWire(Cmd(head));
    SmpOfConcat(n.down, [Cmd(head)]);
    SmpOfConcat([Cmd(head)], Cmds(tail));
    CmdCountConcat(n.down, [Cmd(head)]);
    assert SmpOf(n.down) + (SmpOf([Cmd(head)]) + SmpOf(Cmds(tail)))
        == SmpOf(n.down) + SmpOf([Cmd(head)]) + SmpOf(Cmds(tail));
  }

  lemma AnswerTaken(n: End)
    requires n.up != [] && n.up[0].Answer?
    ensures AnswerCount(n.up) == 1 + AnswerCount(n.up[1..])
  {
    assert n.up == [n.up[0]] + n.up[1..];
    AnswerCountConcat([n.up[0]], n.up[1..]);
    assert [n.up[0]][..0] == [];
  }

  /** A credit releases the head of the queue, and hands nothing down that was not handed down. */
  lemma Released(n: End, rest: End)
    requires Credited(n) && n.up != [] && n.up[0].Answer? && rest == n.(up := n.up[1..])
    ensures var n' := Drained(rest, Credit(rest.q, H.CREDITS, []));
            Credited(n') && n'.up == rest.up && DownOf(n') == DownOf(n)
  {
    hide Meant, OrdersOf, SmpOf, CmdCount, AnswerCount, Credit;
    AnswerTaken(n);
    H.CreditEffect(rest.q, []);
    if n.q.waiting != [] {
      HeadReleased(n);
      assert [] + [n.q.waiting[0]] == [n.q.waiting[0]] && Cmds([n.q.waiting[0]]) == [Cmd(n.q.waiting[0])];
    } else {
      assert n.down + Cmds([]) == n.down;
    }
  }

  // ---------------------------------------------------------------- every move

  lemma OrderExcludesEvent(e: Env, p: Phase)
    requires Valid(e, p)
    ensures p.Encrypt? && !p.atPeer ==> ToIAt(e, p) == []
    ensures p.Replying? || p.Refusing? ==> ToRAt(e, p) == []
  {
  }

  /** While an event is on its way to a host no order of it is on its way to its controller. */
  lemma NoOrderWaitsI(e: Env, s: System, p: Phase)
    requires Inv(e, s, p) && s.iUp != []
    ensures forall j :: 0 <= j < |s.iDown| ==> s.iDown[j].Send?
  {
    hide Valid, IAt, RAt, ToIAt, ToRAt, ILogAt, RLogAt, IDevAt, RDevAt, HostStep;
    OrderExcludesEvent(e, p);
    forall j | 0 <= j < |s.iDown| ensures s.iDown[j].Send? {
      var k := |s.rUp| + j;
      assert ToRAt(e, p)[k] == OfDown(s.iDown[j]);
      if ToRAt(e, p)[k].ForDevice? { OrderPhaseI(e, p, k); }
    }
  }

  lemma NoOrderWaitsR(e: Env, s: System, p: Phase)
    requires Inv(e, s, p) && s.rUp != []
    ensures forall j :: 0 <= j < |s.rDown| ==> s.rDown[j].Send?
  {
    hide Valid, IAt, RAt, ToIAt, ToRAt, ILogAt, RLogAt, IDevAt, RDevAt, HostStep;
    OrderExcludesEvent(e, p);
    forall j | 0 <= j < |s.rDown| ensures s.rDown[j].Send? {
      var k := |s.iUp| + j;
      assert ToIAt(e, p)[k] == OfDown(s.rDown[j]);
      if ToIAt(e, p)[k].ForDevice? { OrderPhaseR(e, p, k); }
    }
  }

  /** Only data in what was handed down means that no order waits. */
  lemma OnlyData(n: End)
    requires forall j :: 0 <= j < |DownOf(n)| ==> DownOf(n)[j].Send?
    ensures SmpOf(Cmds(n.q.waiting)) == []
  {
    OrdersShow(n);
  }

  lemma OrdersShow(n: End)
    ensures SmpOf(Cmds(n.q.waiting)) != [] ==> exists j :: 0 <= j < |DownOf(n)| && !DownOf(n)[j].Send?
  {
    NoData(n.q.waiting);
    if SmpOf(Cmds(n.q.waiting)) != [] {
      assert !DownOf(n)[|SmpOf(n.down)|].Send?;
    }
  }

  lemma {:induction false} NoData(cs: seq<Command>)
    ensures forall j :: 0 <= j < |SmpOf(Cmds(cs))| ==> !SmpOf(Cmds(cs))[j].Send?
  {
    if cs != [] {
      NoData(cs[..|cs| - 1]);
      assert Cmds(cs)[..|cs| - 1] == Cmds(cs[..|cs| - 1]);
    }
  }

  ghost predicate Sound(e: Env, s: Linked, p: Phase)
  {
    Inv(e, Abs(s), p) && Credited(s.i) && Credited(s.r)
  }

  /** The move of the run without credits that a move is, if it is one. */
  ghost predicate Follows(e: Env, s: Linked, s': Linked, m: Move)
  {
    Abs(s') == Abs(s) || Abs(s') == Do(e, Abs(s), m)
  }

  lemma UpHead(n: End)
    requires n.up != []
    ensures UpsOf(n.up) == OfEvent(n.up[0]) + UpsOf(n.up[1..])
  {
    assert n.up == [n.up[0]] + n.up[1..];
    UpsOfConcat([n.up[0]], n.up[1..]);
    assert [n.up[0]][..0] == [];
  }

  lemma CreditedRest(n: End)
    requires Credited(n) && n.up != [] && n.up[0].ForSmp?
    ensures Credited(n.(up := n.up[1..]))
  {
    assert n.up == [n.up[0]] + n.up[1..];
    AnswerCountConcat([n.up[0]], n.up[1..]);
    assert [n.up[0]][..0] == [];
  }

  lemma HostITakes(e: Env, t: H.DeviceType, s: Linked, p: Phase)
    requires Honest(e) && Sound(e, s, p)
    ensures var s' := Take(e, t, s, Party(HostI)); Credited(s'.i) && Credited(s'.r) && Follows(e, s, s', HostI)
  {
    hide Inv, Credited, HostStep, DownOf, PutAll;
    if s.i.up == [] { return; }
    var n, rest := s.i, s.i.(up := s.i.up[1..]);
    UpHead(n);
    if n.up[0].Answer? {
      Released(n, rest);
      assert s.core.iLog + PdusOf([]) == s.core.iLog;
    } else {
      CreditedRest(n);
      StepOfI(e, Abs(s), p);
      NoOrderWaitsI(e, Abs(s), p);
      OnlyData(n);
      StepPut(rest, SaidI(e, p), OrdersI(e, p));
      SameDown(n, rest);
    }
  }

  lemma SameDown(n: End, rest: End)
    requires n.q == rest.q && n.down == rest.down
    ensures DownOf(n) == DownOf(rest)
  {
  }

  lemma StepOfI(e: Env, s: System, p: Phase)
    requires Honest(e) && Inv(e, s, p) && s.iUp != []
    ensures Valid(e, p) && HostStep(e, s.i, s.iUp[0]).sent == Sends(SaidI(e, p)) + OrdersI(e, p)
    ensures |OrdersI(e, p)| <= 1 && forall d :: d in OrdersI(e, p) ==> !d.Send?
  {
    hide IAt, RAt, ToIAt, ToRAt, ILogAt, RLogAt, IDevAt, RDevAt, HostStep, SaidI, NextI;
    HeadTaken(s.iUp, s.rDown);
    LeadsI(e, p);
  }

  lemma StepOfR(e: Env, s: System, p: Phase)
    requires Honest(e) && Inv(e, s, p) && s.rUp != []
    ensures Valid(e, p) && HostStep(e, s.r, s.rUp[0]).sent == Sends(SaidR(e, p)) + OrdersR(e, p)
    ensures |OrdersR(e, p)| <= 1 && forall d :: d in OrdersR(e, p) ==> !d.Send?
  {
    hide IAt, RAt, ToIAt, ToRAt, ILogAt, RLogAt, IDevAt, RDevAt, HostStep, SaidR, NextR;
    HeadTaken(s.rUp, s.iDown);
    LeadsR(e, p);
  }

  lemma HostRTakes(e: Env, t: H.DeviceType, s: Linked, p: Phase)
    requires Honest(e) && Sound(e, s, p)
    ensures var s' := Take(e, t, s, Party(HostR)); Credited(s'.i) && Credited(s'.r) && Follows(e, s, s', HostR)
  {
    hide Inv, Credited, HostStep, DownOf, PutAll;
    if s.r.up == [] { return; }
    var n, rest := s.r, s.r.(up := s.r.up[1..]);
    UpHead(n);
    if n.up[0].Answer? {
      Released(n, rest);
      assert s.core.rLog + PdusOf([]) == s.core.rLog;
    } else {
      CreditedRest(n);
      StepOfR(e, Abs(s), p);
      NoOrderWaitsR(e, Abs(s), p);
      OnlyData(n);
      StepPut(rest, SaidR(e, p), OrdersR(e, p));
      SameDown(n, rest);
    }
  }

  /** A controller takes the head of its socket: the head of what was handed down, or another command. */
  lemma DownHead(n: End)
    requires n.down != []
    ensures DownOf(n) == OfWire(n.down[0]) + DownOf(n.(down := n.down[1..]))
    ensures CmdCount(n.down) == (if n.down[0].Cmd? then 1 else 0) + CmdCount(n.down[1..])
  {
    hide OfWire;
    assert n.down == [n.down[0]] + n.down[1..];
    SmpOfConcat([n.down[0]], n.down[1..]);
    CmdCountConcat([n.down[0]], n.down[1..]);
    OneWire(n.down[0]);
  }

  lemma OneAnswer(t: H.DeviceType, c: Command)
    requires t != H.BREDR && Meant(c)
    ensures |H.Replies(t, true, c.opcode)| == 1
  {
    assert c.opcode != ADD_SCO_CONN;
    hide Meant;
    H.AnsweredOnce(t, true, c.opcode);
  }

  /** What a controller's step comes to at its own end, and at the other. */
  lemma DeviceEffect(t: H.DeviceType, n: End, other: End, own: Block, peer: Block)
    requires t != H.BREDR && Credited(n) && Credited(other) && n.down != []
    ensures var (ltk, mine, theirs) := DeviceTakes(t, n.down[0], own, peer);
            var n', other' := n.(down := n.down[1..], up := n.up + mine), other.(up := other.up + theirs);
            && Credited(n') && Credited(other')
            && var orders := OfWire(n.down[0]);
            && DownOf(n) == orders + DownOf(n') && DownOf(other') == DownOf(other)
            && if orders == [] then ltk == own && UpsOf(n'.up) == UpsOf(n.up) && UpsOf(other'.up) == UpsOf(other.up)
               else
                 var (ltk', mine', theirs') := DeviceStep(orders[0], own, peer);
                 ltk == ltk' && UpsOf(n'.up) == UpsOf(n.up) + mine' && UpsOf(other'.up) == UpsOf(other.up) + theirs'
  {
    hide DeviceStep, Meant, SmpOf, CmdCount, AnswerCount, UpsOf, DownOf, OrdersOf;
    var w := n.down[0];
    DownHead(n);
    assert w in n.down;
    SameDown(n.(down := n.down[1..]), n.(down := n.down[1..], up := n.up + DeviceTakes(t, w, own, peer).1));
    SameDown(other, other.(up := other.up + DeviceTakes(t, w, own, peer).2));
    var orders := OfWire(w);
    var answers := if w.Cmd? then Answers(H.Replies(t, true, w.c.opcode)) else [];
    if w.Cmd? {
      OneAnswer(t, w.c);
      UpsOfAnswers(H.Replies(t, true, w.c.opcode));
      OneAnswerCounted(answers);
    } else {
      NothingUp();
    }
    AnswersFirst(n.up, answers, if orders == [] then [] else DeviceStep(orders[0], own, peer).1);
    NothingUp();
    AnswersFirst(other.up, [], if orders == [] then [] else DeviceStep(orders[0], own, peer).2);
  }

  lemma NothingUp()
    ensures UpsOf([]) == [] && AnswerCount([]) == 0
    ensures forall s: seq<Event> :: [] + s == s && s + [] == s
  {
  }

  lemma OneAnswerCounted(answers: seq<Event>)
    requires |answers| == 1 && answers[0].Answer?
    ensures AnswerCount(answers) == 1
  {
  }

  lemma AnswersFirst(up: seq<Event>, answers: seq<Event>, ups: seq<Up>)
    requires UpsOf(answers) == []
    ensures UpsOf(up + (answers + Events(ups))) == UpsOf(up) + ups && UpsOf(up + Events(ups)) == UpsOf(up) + ups
    ensures UpsOf(up + answers) == UpsOf(up)
    ensures AnswerCount(up + (answers + Events(ups))) == AnswerCount(up) + AnswerCount(answers)
    ensures AnswerCount(up + Events(ups)) == AnswerCount(up)
    ensures AnswerCount(up + answers) == AnswerCount(up) + AnswerCount(answers)
  {
    UpsOfConcat(up, answers + Events(ups));
    UpsOfConcat(answers, Events(ups));
    UpsOfConcat(up, Events(ups));
    UpsOfConcat(up, answers);
    UpsOfEvents(ups);
    AnswerCountConcat(up, answers + Events(ups));
    AnswerCountConcat(answers, Events(ups));
    AnswerCountConcat(up, Events(ups));
    AnswerCountConcat(up, answers);
    NoAnswers(ups);
  }

  lemma DeviceITakes(e: Env, t: H.DeviceType, s: Linked)
    requires t != H.BREDR && Credited(s.i) && Credited(s.r)
    ensures var s' := Take(e, t, s, Party(DeviceI)); Credited(s'.i) && Credited(s'.r) && Follows(e, s, s', DeviceI)
  {
    hide Credited, DeviceTakes, DeviceStep, DownOf, HostStep;
    if s.i.down != [] { DeviceEffect(t, s.i, s.r, s.core.iDevLtk, s.core.rDevLtk); }
  }

  lemma DeviceRTakes(e: Env, t: H.DeviceType, s: Linked)
    requires t != H.BREDR && Credited(s.i) && Credited(s.r)
    ensures var s' := Take(e, t, s, Party(DeviceR)); Credited(s'.i) && Credited(s'.r) && Follows(e, s, s', DeviceR)
  {
    hide Credited, DeviceTakes, DeviceStep, DownOf, HostStep;
    if s.r.down != [] { DeviceEffect(t, s.r, s.i, s.core.rDevLtk, s.core.iDevLtk); }
  }

  lemma UserTakes(e: Env, t: H.DeviceType, s: Linked, m: Turn)
    requires Credited(s.i) && Credited(s.r) && !m.Party? && Allowed(m)
    ensures var s' := Take(e, t, s, m); Credited(s'.i) && Credited(s'.r) && Abs(s') == Abs(s)
  {
    hide Credited, DownOf;
    assert OrdersOf(m.c) == [];
    if m.UserI? { Issued(s.i, m.c); } else { Issued(s.r, m.c); }
  }

  // ---------------------------------------------------------------- every run

  /** Each step is a move of the run without credits, or none. */
  lemma StepRefines(e: Env, t: H.DeviceType, s: Linked, p: Phase, m: Turn) returns (base: seq<Move>, p': Phase)
    requires Honest(e) && t != H.BREDR && Sound(e, s, p) && Allowed(m)
    ensures |base| <= 1 && Sound(e, Take(e, t, s, m), p')
    ensures Abs(Take(e, t, s, m)) == if base == [] then Abs(s) else Do(e, Abs(s), base[0])
  {
    hide Take, Inv, Credited, Abs, Do;
    base, p' := [], p;
    var s' := Take(e, t, s, m);
    match m {
      case Party(HostI) => HostITakes(e, t, s, p);
      case Party(HostR) => HostRTakes(e, t, s, p);
      case Party(DeviceI) => DeviceITakes(e, t, s);
      case Party(DeviceR) => DeviceRTakes(e, t, s);
      case UserI(_) => UserTakes(e, t, s, m);
      case UserR(_) => UserTakes(e, t, s, m);
    }
    if Abs(s') != Abs(s) {
      base := [m.m];
      p' := MoveKeepsInv(e, Abs(s), p, m.m);
    }
  }

  lemma BeginSound(e: Env)
    ensures Sound(e, Begin(e), ReqSent) && Abs(Begin(e)) == Exec(e, [])
  {
    hide Inv, HostStep;
    StartKeepsInv(e);
    var core, idle := Start(e), End(Queue(1, [], []), [], []);
    assert core.iDown == [Send(PairingRequest(Req(e)))] by { StartSends(e); }
    assert SmpOf(Cmds([])) == [] && Credited(idle);
    assert core.iDown == Sends([PairingRequest(Req(e))]) + [];
    StepPut(idle, [PairingRequest(Req(e))], []);
    assert DownOf(idle) == [] && UpsOf([]) == [];
    assert [] + core.iDown == core.iDown;
  }

  lemma StartSends(e: Env)
    ensures Start(e).iDown == [Send(PairingRequest(Req(e)))]
    ensures Start(e).iUp == Start(e).rUp == [] && Start(e).rDown == []
  {
  }

  /**
   * Every run of the hosts with their command queues, whatever other commands their users issue, is a run
   * of pairing without credits: waiting for a credit only delays an order.
   */
  lemma {:induction false} Refines(e: Env, t: H.DeviceType, steps: seq<Turn>) returns (moves: seq<Move>, p: Phase)
    requires Honest(e) && t != H.BREDR && forall m :: m in steps ==> Allowed(m)
    ensures Abs(Course(e, t, steps)) == Exec(e, moves) && Sound(e, Course(e, t, steps), p)
  {
    hide Take, Inv, Credited, Abs, Do, Begin, Start, Allowed, Sound;
    if steps == [] {
      BeginSound(e);
      moves, p := [], ReqSent;
    } else {
      var n := |steps| - 1;
      var before, p0 := Refines(e, t, steps[..n]);
      assert steps[n] in steps;
      moves, p := RefinesOnce(e, t, steps, before, p0);
    }
  }

  lemma RefinesOnce(e: Env, t: H.DeviceType, steps: seq<Turn>, before: seq<Move>, p0: Phase)
    returns (moves: seq<Move>, p: Phase)
    requires Honest(e) && t != H.BREDR && steps != [] && Allowed(steps[|steps| - 1])
    requires var s := Course(e, t, steps[..|steps| - 1]); Abs(s) == Exec(e, before) && Sound(e, s, p0)
    ensures before <= moves && Abs(Course(e, t, steps)) == Exec(e, moves) && Sound(e, Course(e, t, steps), p)
  {
    hide Take, Inv, Credited, Abs, Do, Begin, Start, Allowed, Sound;
    var s := Course(e, t, steps[..|steps| - 1]);
    var base, p1 := StepRefines(e, t, s, p0, steps[|steps| - 1]);
    moves, p := before + base, p1;
    if base != [] {
      assert moves[..|moves| - 1] == before && moves[|moves| - 1] == base[0];
    } else {
      assert moves == before;
    }
  }

  lemma {:induction false} RefinesOn(e: Env, t: H.DeviceType, steps: seq<Turn>, more: seq<Turn>,
                                     before: seq<Move>, p0: Phase)
    returns (moves: seq<Move>, p: Phase)
    requires Honest(e) && t != H.BREDR && forall m :: m in more ==> Allowed(m)
    requires Abs(Course(e, t, steps)) == Exec(e, before) && Sound(e, Course(e, t, steps), p0)
    ensures before <= moves && Abs(Course(e, t, steps + more)) == Exec(e, moves)
    ensures Sound(e, Course(e, t, steps + more), p)
    decreases |more|
  {
    hide Take, Inv, Credited, Abs, Do, Begin, Start, Allowed, Sound;
    if more == [] {
      assert steps + more == steps;
      moves, p := before, p0;
    } else {
      var init, all := more[..|more| - 1], steps + more;
      var mid, p1 := RefinesOn(e, t, steps, init, before, p0);
      assert all[..|all| - 1] == steps + init && all[|all| - 1] == more[|more| - 1];
      assert more[|more| - 1] in more;
      moves, p := RefinesOnce(e, t, all, mid, p1);
    }
  }

  /** The two ends still agree on the key from the moment encryption is ordered, even while the order waits. */
  lemma LtkAgreementWithCredits(e: Env, t: H.DeviceType, steps: seq<Turn>, more: seq<Turn>, key: Block)
    requires Honest(e) && t != H.BREDR && forall m :: m in steps + more ==> Allowed(m)
    requires StartEncrypt(key) in Abs(Course(e, t, steps)).iDown
    ensures var core := Course(e, t, steps + more).core;
            core.i.ltk == core.r.ltk == key && core.i.mackey == core.r.mackey
  {
    hide Take, Inv, Credited, Do, Course, Begin, Start, Allowed, Sound, DownOf, Exec;
    forall m | m in steps ensures Allowed(m) { assert m in steps + more; }
    forall m | m in more ensures Allowed(m) { assert m in steps + more; }
    var before, p := Refines(e, t, steps);
    var moves, _ := RefinesOn(e, t, steps, more, before, p);
    assert moves == before + moves[|before|..];
    LtkAgreement(e, before, moves[|before|..], key);
  }

  predicate AllDelivered(s: Linked) { s.i.down == [] && s.r.down == [] && s.i.up == [] && s.r.up == [] }

  /** When nothing is left to deliver no command waits any more, and pairing has ended as it does without credits. */
  lemma QuietRunWithCredits(e: Env, t: H.DeviceType, steps: seq<Turn>)
    requires Honest(e) && t != H.BREDR && (forall m :: m in steps ==> Allowed(m)) && AllDelivered(Course(e, t, steps))
    ensures var s := Course(e, t, steps);
            && s.i.q.waiting == s.r.q.waiting == []
            && var core := s.core;
            if Ltk(e) == ZERO then
              core.iEncr == core.rEncr == 0 && core.iLog == PairingI(e) && core.rLog == PairingR(e)
            else
              && core.iEncr == core.rEncr == 1
              && core.i.ltk == core.r.ltk == core.iDevLtk == core.rDevLtk == Ltk(e)
              && core.rLog == PairingR(e) + KeyPdus(Mask(e), e.ra)
              && core.iLog == PairingI(e) + if Mask(e).link then [] else KeyPdus(Mask(e), e.ia)
  {
    hide Take, Inv, Do, Course, Begin, Start, Allowed, Exec, PairingI, PairingR, Ltk, Mask, KeyPdus, Meant;
    var moves, p := Refines(e, t, steps);
    var s := Course(e, t, steps);
    NothingWaits(s.i);
    NothingWaits(s.r);
    assert UpsOf([]) == [];
    QuietRun(e, moves);
  }

  lemma NothingWaits(n: End)
    requires Credited(n) && n.down == [] && n.up == []
    ensures n.q.waiting == [] && DownOf(n) == []
  {
    assert Cmds([]) == [];
  }
}
