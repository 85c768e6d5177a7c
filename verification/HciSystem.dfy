/** The host's command queue, closed with the emulated controller that answers its commands. */
module HciSystem {
  import opened Bytes
  import opened HciQueue

  datatype DeviceType = BREDRLE | BREDR | LE | AMP | BREDR20 | BREDRLE50

  datatype Reply =
    | CommandComplete(opcode: Opcode)
    | CommandStatus(opcode: Opcode, status: uint8)

  const BT_HCI_ERR_SUCCESS: uint8 := 0x00
  const BT_HCI_ERR_UNKNOWN_COMMAND: uint8 := 0x01
  const BT_HCI_ERR_UNKNOWN_CONN_ID: uint8 := 0x02

  /** Whether `default_cmd` has a case for the command on this type of device. */
  predicate Supported(t: DeviceType, op: Opcode)
  {
    match op
    case RESET => true
    case READ_LOCAL_FEATURES => true
    case READ_BD_ADDR => true
    case DISCONNECT => true
    case WRITE_LE_HOST_SUPPORTED => t == BREDRLE || t == BREDRLE50
    case WRITE_SECURE_CONN_SUPPORT => t == BREDRLE || t == BREDRLE50
    case LE_EXT_CREATE_CONN => t == BREDRLE50
    case LE_SET_EXT_ADV_DATA => t == BREDRLE50
    case LE_SET_EXT_ADV_PARAMS => t == BREDRLE50
    case LE_SET_EXT_ADV_ENABLE => t == BREDRLE50
    case LE_CREATE_CONN => t != BREDR
    case LE_CONN_UPDATE => t != BREDR
    case LE_SET_ADV_DATA => t != BREDR
    case LE_SET_ADV_PARAMETERS => t != BREDR
    case LE_SET_ADV_ENABLE => t != BREDR
    case LE_START_ENCRYPT => t != BREDR
    case LE_LTK_REQ_REPLY => t != BREDR
    case LE_LTK_REQ_NEG_REPLY => t != BREDR
    case _ => t != LE
  }

  /** Commands that are answered before they are carried out. */
  predicate StatusFirst(op: Opcode)
  {
    || op == ACCEPT_CONN_REQUEST || op == SET_CONN_ENCRYPT || op == CREATE_CONN || op == DISCONNECT
    || op == AUTH_REQUESTED || op == LE_CREATE_CONN || op == LE_EXT_CREATE_CONN || op == LE_CONN_UPDATE
  }

  /** What `default_cmd` and `default_cmd_completion` send back to the host for one command. */
  function Replies(t: DeviceType, connected: bool, op: Opcode): seq<Reply>
  {
    if !Supported(t, op) then [CommandStatus(op, BT_HCI_ERR_UNKNOWN_COMMAND)]
    else if StatusFirst(op) then [CommandStatus(op, BT_HCI_ERR_SUCCESS)]
    else if op == LE_START_ENCRYPT then
      [CommandStatus(op, if connected then BT_HCI_ERR_SUCCESS else BT_HCI_ERR_UNKNOWN_CONN_ID)]
    else if op == ADD_SCO_CONN then []
    else [CommandComplete(op)]
  }

  /** `default_cmd`: the case of each command that the host issues, and of Add SCO Connection. */
  method DefaultCmd(t: DeviceType, connected: bool, op: Opcode) returns (sent: seq<Reply>)
    ensures sent == Replies(t, connected, op)
  {
    var unsupported := [CommandStatus(op, BT_HCI_ERR_UNKNOWN_COMMAND)];
    match op
    case RESET | READ_LOCAL_FEATURES | READ_BD_ADDR =>
      return [CommandComplete(op)];
    case DISCONNECT =>
      return [CommandStatus(op, BT_HCI_ERR_SUCCESS)];
    case CREATE_CONN | ACCEPT_CONN_REQUEST | AUTH_REQUESTED | SET_CONN_ENCRYPT =>
      if t == LE { return unsupported; }
      return [CommandStatus(op, BT_HCI_ERR_SUCCESS)];
    case LINK_KEY_REQUEST_NEG_REPLY | PIN_CODE_REQUEST_REPLY | PIN_CODE_REQUEST_NEG_REPLY | WRITE_SCAN_ENABLE
       | WRITE_SIMPLE_PAIRING_MODE | IO_CAPABILITY_REQUEST_REPLY | USER_CONFIRM_REQUEST_REPLY
       | USER_CONFIRM_REQUEST_NEG_REPLY =>
      if t == LE { return unsupported; }
      return [CommandComplete(op)];
    case WRITE_LE_HOST_SUPPORTED | WRITE_SECURE_CONN_SUPPORT =>
      if t != BREDRLE && t != BREDRLE50 { return unsupported; }
      return [CommandComplete(op)];
    case LE_CREATE_CONN | LE_CONN_UPDATE =>
      if t == BREDR { return unsupported; }
      return [CommandStatus(op, BT_HCI_ERR_SUCCESS)];
    case LE_SET_ADV_DATA | LE_SET_ADV_PARAMETERS | LE_SET_ADV_ENABLE | LE_LTK_REQ_REPLY | LE_LTK_REQ_NEG_REPLY =>
      if t == BREDR { return unsupported; }
      return [CommandComplete(op)];
    case LE_START_ENCRYPT =>
      if t == BREDR { return unsupported; }
      if !connected { return [CommandStatus(op, BT_HCI_ERR_UNKNOWN_CONN_ID)]; }
      return [CommandStatus(op, BT_HCI_ERR_SUCCESS)];
    case LE_EXT_CREATE_CONN =>
      if t != BREDRLE50 { return unsupported; }
      return [CommandStatus(op, BT_HCI_ERR_SUCCESS)];
    case LE_SET_EXT_ADV_DATA | LE_SET_EXT_ADV_PARAMS | LE_SET_EXT_ADV_ENABLE =>
      if t != BREDRLE50 { return unsupported; }
      return [CommandComplete(op)];
    case ADD_SCO_CONN =>
      if t == LE { return unsupported; }
      return [];
  }

  /** Every command is answered exactly once, by every type of device, except Add SCO Connection. */
  lemma AnsweredOnce(t: DeviceType, connected: bool, op: Opcode)
    ensures |Replies(t, connected, op)| == 1 <==> op != ADD_SCO_CONN || t == LE
    ensures forall r :: r in Replies(t, connected, op) ==> r.opcode == op
  {
  }

  /** The opcode on the wire: six bits of group and ten bits of command. */
  function Number(op: Opcode): (n: uint16)
  {
    match op
    case CREATE_CONN => 0x0405
    case DISCONNECT => 0x0406
    case ADD_SCO_CONN => 0x0407
    case ACCEPT_CONN_REQUEST => 0x0409
    case LINK_KEY_REQUEST_NEG_REPLY => 0x040c
    case PIN_CODE_REQUEST_REPLY => 0x040d
    case PIN_CODE_REQUEST_NEG_REPLY => 0x040e
    case AUTH_REQUESTED => 0x0411
    case SET_CONN_ENCRYPT => 0x0413
    case IO_CAPABILITY_REQUEST_REPLY => 0x042b
    case USER_CONFIRM_REQUEST_REPLY => 0x042c
    case USER_CONFIRM_REQUEST_NEG_REPLY => 0x042d
    case RESET => 0x0c03
    case WRITE_SCAN_ENABLE => 0x0c1a
    case WRITE_SIMPLE_PAIRING_MODE => 0x0c56
    case WRITE_LE_HOST_SUPPORTED => 0x0c6d
    case WRITE_SECURE_CONN_SUPPORT => 0x0c7a
    case READ_LOCAL_FEATURES => 0x1003
    case READ_BD_ADDR => 0x1009
    case LE_SET_ADV_PARAMETERS => 0x2006
    case LE_SET_ADV_DATA => 0x2008
    case LE_SET_ADV_ENABLE => 0x200a
    case LE_CREATE_CONN => 0x200d
    case LE_CONN_UPDATE => 0x2013
    case LE_START_ENCRYPT => 0x2019
    case LE_LTK_REQ_REPLY => 0x201a
    case LE_LTK_REQ_NEG_REPLY => 0x201b
    case LE_SET_EXT_ADV_PARAMS => 0x2036
    case LE_SET_EXT_ADV_DATA => 0x2037
    case LE_SET_EXT_ADV_ENABLE => 0x2039
    case LE_EXT_CREATE_CONN => 0x2043
  }

  /** Link control and link policy, or controller and baseband: not for a device without BR/EDR, but for a few. */
  predicate ForBredr(n: uint16) { (n / 0x400 == 0x01 || n / 0x400 == 0x03) && n !in {0x0406, 0x0c03} }
  predicate ForDual(n: uint16) { n == 0x0c6d || n == 0x0c7a }
  predicate ForLe(n: uint16) { n / 0x400 == 0x08 }
  predicate ForExtended(n: uint16) { n / 0x400 == 0x08 && n >= 0x2036 }

  /** The groups of commands that a type of device does not know. */
  predicate Unknown(t: DeviceType, n: uint16)
  {
    || (t == LE && ForBredr(n)) || (t == BREDR && ForLe(n))
    || (t != BREDRLE && t != BREDRLE50 && ForDual(n)) || (t != BREDRLE50 && ForExtended(n))
  }

  /** The commands that are answered with a status before they are carried out, Start Encryption aside. */
  predicate Accepted(n: uint16) { n in {0x0405, 0x0406, 0x0409, 0x0411, 0x0413, 0x200d, 0x2013, 0x2043} }

  lemma SupportedByGroup(t: DeviceType, op: Opcode)
    ensures Supported(t, op) <==> !Unknown(t, Number(op))
  {
  }

  lemma StatusByNumber(op: Opcode)
    ensures StatusFirst(op) <==> Accepted(Number(op))
    ensures op == ADD_SCO_CONN <==> Number(op) == 0x0407
    ensures op == LE_START_ENCRYPT <==> Number(op) == 0x2019
  {
  }

  /** Each command is refused, accepted or completed by its group, the type of device and the link. */
  lemma AnsweredByGroup(t: DeviceType, connected: bool, op: Opcode)
    ensures var n := Number(op);
            var answer :=
              if Unknown(t, n) then [CommandStatus(op, 0x01)]
              else if n == 0x0407 then []
              else if n == 0x2019 then [CommandStatus(op, if connected then 0x00 else 0x02)]
              else if Accepted(n) then [CommandStatus(op, 0x00)]
              else [CommandComplete(op)];
            Replies(t, connected, op) == answer
  {
    hide Supported, StatusFirst, Unknown, Number;
    SupportedByGroup(t, op);
    StatusByNumber(op);
  }

  // ---------------------------------------------------------------- runs

  /** `down` and `up` are the socket; `issued` and `executed` are histories. */
  datatype System = System(
    host: Queue, down: seq<Command>, up: seq<Reply>, issued: seq<Command>, executed: seq<Command>)

  /** `Host(during)` is an event whose callback issues `during`; `connected` is the controller's link. */
  datatype Move = User(c: Command) | Device(connected: bool) | Host(during: seq<Command>)

  /** `evt_cmd_status` calls back on a failure only. */
  predicate CallsBack(r: Reply) { r.CommandComplete? || r.status != BT_HCI_ERR_SUCCESS }

  /** The controller gives one credit with every reply. */
  const CREDITS: nat := 1

  /** What the host hands down is what its queue has sent since. */
  function Handed(before: Queue, after: Queue): seq<Command>
    requires |before.sent| <= |after.sent|
  {
    after.sent[|before.sent|..]
  }

  lemma {:induction false} SentGrows(q: Queue, cs: seq<Command>)
    ensures q.sent <= IssueAll(q, cs).sent
    decreases |cs|
  {
    if cs != [] { SentGrows(Issue(q, cs[0]), cs[1..]); }
  }

  function Do(t: DeviceType, s: System, m: Move): System
  {
    match m
    case User(c) =>
      var q := Issue(s.host, c);
      s.(host := q, down := s.down + Handed(s.host, q), issued := s.issued + [c])
    case Device(connected) =>
      if s.down == [] then s
      else s.(down := s.down[1..], up := s.up + Replies(t, connected, s.down[0].opcode),
              executed := s.executed + [s.down[0]])
    case Host(during) =>
      if s.up == [] then s
      else
        var cs := if CallsBack(s.up[0]) then during else [];
        SentGrows(s.host.(ncmd := CREDITS), cs);
        var q := Credit(s.host, CREDITS, cs);
        s.(host := q, up := s.up[1..], down := s.down + Handed(s.host, q), issued := s.issued + cs)
  }

  function DoAll(t: DeviceType, s: System, moves: seq<Move>): System
    decreases |moves|
  {
    if moves == [] then s else DoAll(t, Do(t, s, moves[0]), moves[1..])
  }

  const START := [Command(RESET, []), Command(READ_LOCAL_FEATURES, []), Command(READ_BD_ADDR, [])]

  /** `bthost_start`, after commands that were issued while there was no credit yet. */
  function Start(early: seq<Command>): System
  {
    SentGrows(Queue(1, early, []), START);
    var q := IssueAll(Queue(1, early, []), START);
    System(q, q.sent, [], early + START, [])
  }

  /** A host comes up with three commands, of which one is on its way and the others wait for credits. */
  lemma StartCommands()
    ensures var reset, features, address := Command(RESET, []), Command(READ_LOCAL_FEATURES, []),
                                            Command(READ_BD_ADDR, []);
            Start([]) == System(Queue(0, [features, address], [reset]), [reset], [], [reset, features, address], [])
  {
    var q := Queue(1, [], []);
    var one := Issue(q, START[0]);
    var two := Issue(one, START[1]);
    assert START[1..][0] == START[1] && START[1..][1..] == [START[2]] && [START[2]][1..] == [];
    assert IssueAll(q, START) == IssueAll(one, START[1..]) == IssueAll(two, [START[2]]);
    assert IssueAll(two, [START[2]]) == Issue(two, START[2]);
    assert [] + START == START;
  }

  /** No command in the system is one that goes unanswered. */
  predicate Answerable(t: DeviceType, c: Command) { c.opcode != ADD_SCO_CONN || t == LE }

  predicate AllAnswerable(t: DeviceType, cs: seq<Command>) { forall c :: c in cs ==> Answerable(t, c) }

  predicate MoveAnswerable(t: DeviceType, m: Move)
  {
    match m
    case User(c) => Answerable(t, c)
    case Device(_) => true
    case Host(during) => AllAnswerable(t, during)
  }

  // ---------------------------------------------------------------- credits

  /** One credit exists, and it is with the host, under way with a command, or under way with a reply. */
  predicate OneCredit(s: System) { s.host.ncmd + |s.down| + |s.up| == 1 }

  predicate Balanced(t: DeviceType, s: System)
  {
    && OneCredit(s)
    && (s.host.waiting != [] ==> s.host.ncmd == 0)
    && AllAnswerable(t, s.host.waiting) && AllAnswerable(t, s.down)
  }

  /** Issuing more commands with one credit in hand sends the first and queues the rest. */
  lemma {:induction false} IssueAllEffect(q: Queue, cs: seq<Command>)
    ensures var r := IssueAll(q, cs);
            if q.ncmd <= |cs| then r == Queue(0, q.waiting + cs[q.ncmd..], q.sent + cs[..q.ncmd])
            else r == Queue(q.ncmd - |cs|, q.waiting, q.sent + cs)
    decreases |cs|
  {
    if cs != [] {
      IssueAllEffect(Issue(q, cs[0]), cs[1..]);
      var k := if q.ncmd == 0 then 0 else q.ncmd - 1;
      if q.ncmd == 0 {
        assert q.waiting + [cs[0]] + cs[1..] == q.waiting + cs;
        assert cs[1..][0..] == cs[1..] && cs[0..] == cs;
        assert q.sent + cs[1..][..0] == q.sent + cs[..0];
      } else if q.ncmd <= |cs| {
        assert cs[1..][k..] == cs[q.ncmd..];
        assert q.sent + [cs[0]] + cs[1..][..k] == q.sent + cs[..q.ncmd];
      } else {
        assert q.sent + [cs[0]] + cs[1..] == q.sent + cs;
      }
    }
  }

  /** What one reply's credit does: it goes to the callback's first command, else to the head of the queue. */
  lemma CreditEffect(q: Queue, cs: seq<Command>)
    ensures Credit(q, 1, cs)
         == if cs != [] then Queue(0, q.waiting + cs[1..], q.sent + [cs[0]])
            else if q.waiting != [] then Queue(0, q.waiting[1..], q.sent + [q.waiting[0]])
            else Queue(1, [], q.sent)
  {
    IssueAllEffect(q.(ncmd := 1), cs);
    if cs != [] {
      assert cs[..1] == [cs[0]];
    } else {
      assert q.sent + [] == q.sent;
    }
  }

  /**
   * A reply at the host: a command that was accepted with a status has its callback still to come, any
   * other reply calls back; and of what there is to send then, one command goes out.
   */
  lemma ReplyTaken(t: DeviceType, s: System, during: seq<Command>)
    requires s.up != []
    ensures var next := Do(t, s, Host(during));
            var issued := if s.up[0] == CommandStatus(s.up[0].opcode, 0x00) then [] else during;
            && next.up == s.up[1..] && next.issued == s.issued + issued && next.executed == s.executed
            && if issued != [] then
                 next.down == s.down + [issued[0]] && next.host.waiting == s.host.waiting + issued[1..]
               else if s.host.waiting != [] then
                 next.down == s.down + [s.host.waiting[0]] && next.host.waiting == s.host.waiting[1..]
               else next.down == s.down && next.host.waiting == [] && next.host.ncmd == 1
  {
    var issued := if CallsBack(s.up[0]) then during else [];
    CreditEffect(s.host, issued);
    SentGrows(s.host.(ncmd := CREDITS), issued);
    if issued != [] || s.host.waiting != [] {
      var c := if issued != [] then issued[0] else s.host.waiting[0];
      assert (s.host.sent + [c])[|s.host.sent|..] == [c];
    } else {
      assert s.down + s.host.sent[|s.host.sent|..] == s.down;
    }
  }

  lemma DoBalanced(t: DeviceType, s: System, m: Move)
    requires Balanced(t, s) && MoveAnswerable(t, m)
    ensures Balanced(t, Do(t, s, m))
  {
    match m
    case User(c) =>
    case Device(connected) =>
      if s.down != [] {
        assert s.down[0] in s.down;
        AnsweredOnce(t, connected, s.down[0].opcode);
      }
    case Host(during) =>
      if s.up != [] {
        var cs := if CallsBack(s.up[0]) then during else [];
        CreditEffect(s.host, cs);
      }
  }

  lemma StartBalanced(t: DeviceType, early: seq<Command>)
    requires AllAnswerable(t, early)
    ensures Start(early).host == Queue(0, early + START[1..], [START[0]])
    ensures Balanced(t, Start(early))
  {
    IssueAllEffect(Queue(1, early, []), START);
    assert [] + START[..1] == [START[0]];
  }

  lemma {:induction false} RunBalanced(t: DeviceType, s: System, moves: seq<Move>)
    requires Balanced(t, s) && forall m :: m in moves ==> MoveAnswerable(t, m)
    ensures Balanced(t, DoAll(t, s, moves))
    decreases |moves|
  {
    if moves != [] {
      DoBalanced(t, s, moves[0]);
      RunBalanced(t, Do(t, s, moves[0]), moves[1..]);
    }
  }

  /** In every run at most one command is outstanding, and no command waits while there is a credit. */
  lemma CreditsKept(t: DeviceType, early: seq<Command>, moves: seq<Move>)
    requires AllAnswerable(t, early) && forall m :: m in moves ==> MoveAnswerable(t, m)
    ensures var s := DoAll(t, Start(early), moves);
            && s.host.ncmd + |s.down| + |s.up| == 1
            && (s.host.waiting != [] ==> s.host.ncmd == 0)
  {
    StartBalanced(t, early);
    RunBalanced(t, Start(early), moves);
  }

  // ---------------------------------------------------------------- order

  /** Commands that have left for the controller, then those that wait: so are they executed. */
  function Order(s: System): seq<Command> { s.executed + s.down + s.host.waiting }

  /** Which commands an event's callback gets to issue. */
  function Called(s: System, m: Move): seq<Command>
  {
    if m.Host? && s.up != [] && CallsBack(s.up[0]) then m.during else []
  }

  /** How one move changes the order: commands from a callback go before what waits, the first of them. */
  lemma OrderAfter(t: DeviceType, s: System, m: Move)
    requires Balanced(t, s)
    ensures var cs := Called(s, m);
            Order(Do(t, s, m))
            == if m.User? then Order(s) + [m.c]
               else if cs == [] then Order(s)
               else s.executed + s.down + [cs[0]] + s.host.waiting + cs[1..]
    ensures Do(t, s, m).issued == s.issued + if m.User? then [m.c] else Called(s, m)
  {
    match m
    case User(c) =>
      if s.host.ncmd > 0 {
        assert s.executed + (s.down + [c]) + [] == s.executed + s.down + [] + [c];
      } else {
        assert s.down + [] == s.down;
        assert s.executed + s.down + (s.host.waiting + [c]) == Order(s) + [c];
      }
    case Device(_) =>
      if s.down != [] {
        assert s.executed + [s.down[0]] + s.down[1..] == s.executed + s.down;
      }
    case Host(during) =>
      if s.up != [] { OrderAfterEvent(t, s, during); }
  }

  lemma OrderAfterEvent(t: DeviceType, s: System, during: seq<Command>)
    requires Balanced(t, s) && s.up != []
    ensures var cs := Called(s, Host(during));
            Order(Do(t, s, Host(during)))
            == if cs == [] then Order(s) else s.executed + s.down + [cs[0]] + s.host.waiting + cs[1..]
  {
    var cs, q := Called(s, Host(during)), s.host;
    var after := Credit(q, 1, cs);
    CreditEffect(q, cs);
    if cs != [] {
      assert Handed(q, after) == [cs[0]];
      assert s.executed + (s.down + [cs[0]]) + (q.waiting + cs[1..])
          == s.executed + s.down + [cs[0]] + q.waiting + cs[1..];
    } else if q.waiting != [] {
      assert Handed(q, after) == [q.waiting[0]];
      assert s.executed + (s.down + [q.waiting[0]]) + q.waiting[1..] == Order(s);
    } else {
      assert Handed(q, after) == [] && s.down + [] == s.down;
    }
  }

  /** No callback ever issues a command while another one waits. */
  predicate NoOvertaking(t: DeviceType, s: System, moves: seq<Move>)
    decreases |moves|
  {
    moves != [] ==>
      && (Called(s, moves[0]) != [] ==> s.host.waiting == [])
      && NoOvertaking(t, Do(t, s, moves[0]), moves[1..])
  }

  lemma {:induction false} RunInOrder(t: DeviceType, s: System, moves: seq<Move>)
    requires Balanced(t, s) && Order(s) == s.issued
    requires (forall m :: m in moves ==> MoveAnswerable(t, m)) && NoOvertaking(t, s, moves)
    ensures Order(DoAll(t, s, moves)) == DoAll(t, s, moves).issued
    decreases |moves|
  {
    if moves != [] {
      var m := moves[0];
      OrderAfter(t, s, m);
      DoBalanced(t, s, m);
      var cs := Called(s, m);
      if cs != [] {
        assert s.executed + s.down + [cs[0]] + [] + cs[1..] == Order(s) + cs;
      } else {
        assert s.issued + [] == s.issued;
      }
      RunInOrder(t, Do(t, s, m), moves[1..]);
    }
  }

  /**
   * Started with an empty queue, commands reach the controller exactly once and in the order in
   * which they were issued, as long as no callback issues one while another waits.
   */
  lemma ExecutedInOrder(t: DeviceType, moves: seq<Move>)
    requires (forall m :: m in moves ==> MoveAnswerable(t, m)) && NoOvertaking(t, Start([]), moves)
    ensures var s := DoAll(t, Start([]), moves);
            s.executed + s.down + s.host.waiting == s.issued
  {
    StartBalanced(t, []);
    assert Order(Start([])) == START by { assert [] + [START[0]] + ([] + START[1..]) == START; }
    assert Start([]).issued == START;
    RunInOrder(t, Start([]), moves);
  }

  /** A callback that issues one command keeps the order exactly if nothing else was waiting. */
  lemma CallbackOvertakes(t: DeviceType, s: System, c: Command)
    requires Balanced(t, s) && Order(s) == s.issued && s.up != [] && CallsBack(s.up[0])
    ensures var s' := Do(t, s, Host([c]));
            Order(s') == s'.issued <==> forall w :: w in s.host.waiting ==> w == c
  {
    hide Do, Balanced;
    var head, waiting := s.executed + s.down, s.host.waiting;
    OrderAfter(t, s, Host([c]));
    Regrouped(head, c, waiting);
    Commutes(c, waiting);
    SameBehind(head, [c] + waiting, waiting + [c]);
  }

  lemma Regrouped(head: seq<Command>, c: Command, waiting: seq<Command>)
    ensures head + [c] + waiting + [c][1..] == head + ([c] + waiting)
    ensures head + waiting + [c] == head + (waiting + [c])
  {
  }

  lemma SameBehind(head: seq<Command>, a: seq<Command>, b: seq<Command>)
    ensures head + a == head + b <==> a == b
  {
    if head + a == head + b {
      assert a == (head + a)[|head|..] && b == (head + b)[|head|..];
    }
  }

  lemma {:induction false} Commutes(c: Command, s: seq<Command>)
    ensures [c] + s == s + [c] <==> forall w :: w in s ==> w == c
  {
    if [c] + s == s + [c] {
      forall w | w in s ensures w == c {
        var i :| 0 <= i < |s| && s[i] == w;
        AllEqual(c, s, i);
      }
    }
    if forall w :: w in s ==> w == c {
      forall i | 0 <= i < |s| ensures s[i] == c { assert s[i] in s; }
      assert forall i :: 0 <= i <= |s| ==> ([c] + s)[i] == c && (s + [c])[i] == c;
    }
  }

  lemma {:induction false} AllEqual(c: Command, s: seq<Command>, i: nat)
    requires [c] + s == s + [c] && i < |s|
    ensures s[i] == c
  {
    assert ([c] + s)[i] == (s + [c])[i] == s[i];
    if i > 0 { AllEqual(c, s, i - 1); }
  }

  lemma MoveConserves(t: DeviceType, s: System, m: Move)
    requires Balanced(t, s) && multiset(Order(s)) == multiset(s.issued)
    ensures multiset(Order(Do(t, s, m))) == multiset(Do(t, s, m).issued)
  {
    hide Do;
    OrderAfter(t, s, m);
    var cs := Called(s, m);
    if cs != [] {
      assert cs == [cs[0]] + cs[1..];
    }
  }

  /** Even then no command is lost and none is sent twice. */
  lemma {:induction false} RunConserves(t: DeviceType, s: System, moves: seq<Move>)
    requires Balanced(t, s) && multiset(Order(s)) == multiset(s.issued)
    requires forall m :: m in moves ==> MoveAnswerable(t, m)
    ensures multiset(Order(DoAll(t, s, moves))) == multiset(DoAll(t, s, moves).issued)
    decreases |moves|
  {
    hide Do, Order;
    if moves != [] {
      MoveConserves(t, s, moves[0]);
      DoBalanced(t, s, moves[0]);
      RunConserves(t, Do(t, s, moves[0]), moves[1..]);
    }
  }

  // ---------------------------------------------------------------- progress

  /** Moves that deliver something. */
  predicate Works(s: System, m: Move)
  {
    match m
    case User(_) => false
    case Device(_) => s.down != []
    case Host(during) => s.up != [] && Called(s, m) == []
  }

  /** Twice what waits, and what the outstanding command still has to do. */
  function Backlog(s: System): nat { 2 * |s.host.waiting| + 2 * |s.down| + |s.up| }

  /** Without new commands every delivery brings the end nearer, and at the end all has been executed. */
  lemma WorkShrinks(t: DeviceType, s: System, m: Move)
    requires Balanced(t, s) && Works(s, m) && MoveAnswerable(t, m)
    ensures Backlog(Do(t, s, m)) < Backlog(s) && Do(t, s, m).issued == s.issued
  {
    OrderAfter(t, s, m);
    match m
    case Device(connected) =>
      AnsweredOnce(t, connected, s.down[0].opcode);
    case Host(during) =>
      CreditEffect(s.host, []);
    case User(_) =>
  }

  lemma Stuck(t: DeviceType, s: System)
    requires Balanced(t, s) && s.down == [] && s.up == []
    ensures s.host.waiting == [] && Order(s) == s.executed && s.host.ncmd == 1
  {
  }

  /** From every state, letting the two ends run brings every command issued so far to the controller. */
  lemma {:induction false} EventuallyExecuted(t: DeviceType, s: System) returns (moves: seq<Move>)
    requires Balanced(t, s)
    ensures |moves| <= Backlog(s) && DoAll(t, s, moves).executed == Order(s)
    ensures DoAll(t, s, moves).issued == s.issued && DoAll(t, s, moves).host.ncmd == 1
    decreases Backlog(s)
  {
    if s.down == [] && s.up == [] {
      Stuck(t, s);
      return [];
    }
    var m := if s.down != [] then Device(true) else Host([]);
    WorkShrinks(t, s, m);
    OrderAfter(t, s, m);
    DoBalanced(t, s, m);
    var rest := EventuallyExecuted(t, Do(t, s, m));
    moves := [m] + rest;
    assert moves[0] == m && moves[1..] == rest;
  }

  lemma Unanswered(t: DeviceType, connected: bool, op: Opcode)
    requires op == ADD_SCO_CONN && t != LE
    ensures Replies(t, connected, op) == []
  {
  }

  /** A command that is never answered takes the only credit with it: whatever waits behind it waits for ever. */
  lemma UnansweredBlocks(t: DeviceType, s: System, connected: bool, moves: seq<Move>)
    requires OneCredit(s) && |s.down| == 1 && !Answerable(t, s.down[0])
    ensures var s' := DoAll(t, Do(t, s, Device(connected)), moves);
            s'.executed == s.executed + s.down && s.host.waiting <= s'.host.waiting && s'.host.ncmd == 0
  {
    hide DoAll, Supported, StatusFirst;
    Unanswered(t, connected, s.down[0].opcode);
    var next := Do(t, s, Device(connected));
    assert next.up == s.up + [] && s.executed + [s.down[0]] == s.executed + s.down;
    StaysBlocked(t, next, moves);
  }

  lemma {:induction false} StaysBlocked(t: DeviceType, s: System, moves: seq<Move>)
    requires s.host.ncmd == 0 && s.down == [] && s.up == []
    ensures var s' := DoAll(t, s, moves);
            s'.executed == s.executed && s.host.waiting <= s'.host.waiting && s'.host.ncmd == 0
    decreases |moves|
  {
    if moves != [] {
      StaysBlocked(t, Do(t, s, moves[0]), moves[1..]);
    }
  }
}
