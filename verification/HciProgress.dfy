/** When a command that waits is executed: for every run, with and without callbacks that issue commands. */
module HciProgress {
  import opened Bytes
  import opened HciQueue
  import opened HciSystem

  /** The move delivers something: a command to the controller, or a reply to the host. */
  predicate Delivers(s: System, m: Move)
  {
    (m.Device? && s.down != []) || (m.Host? && s.up != [])
  }

  function Deliveries(t: DeviceType, s: System, moves: seq<Move>): nat
    decreases |moves|
  {
    if moves == [] then 0
    else (if Delivers(s, moves[0]) then 1 else 0) + Deliveries(t, Do(t, s, moves[0]), moves[1..])
  }

  predicate AllMovesAnswerable(t: DeviceType, moves: seq<Move>) { forall m :: m in moves ==> MoveAnswerable(t, m) }

  // ---------------------------------------------------------------- runs whose callbacks issue nothing

  predicate Plain(moves: seq<Move>) { forall m :: m in moves ==> m.Host? ==> m.during == [] }

  /** Every delivery brings execution half a command further, and users' commands only line up behind. */
  lemma PlainStep(t: DeviceType, s: System, m: Move)
    requires Balanced(t, s) && MoveAnswerable(t, m) && (m.Host? ==> m.during == [])
    ensures var s' := Do(t, s, m);
            && 2 * |s'.executed| - |s'.up| == 2 * |s.executed| - |s.up| + (if Delivers(s, m) then 1 else 0)
            && Order(s) <= Order(s')
  {
    hide Supported, StatusFirst, Credit;
    OrderAfter(t, s, m);
    if m.Device? && s.down != [] {
      assert s.down[0] in s.down;
      AnsweredOnce(t, m.connected, s.down[0].opcode);
    }
  }

  lemma {:induction false} PlainRun(t: DeviceType, s: System, moves: seq<Move>)
    requires Balanced(t, s) && AllMovesAnswerable(t, moves) && Plain(moves)
    ensures var s' := DoAll(t, s, moves);
            && 2 * |s'.executed| - |s'.up| == 2 * |s.executed| - |s.up| + Deliveries(t, s, moves)
            && Order(s) <= Order(s')
    decreases |moves|
  {
    hide Do, Order, Balanced, MoveAnswerable, Delivers;
    if moves != [] {
      PlainStep(t, s, moves[0]);
      DoBalanced(t, s, moves[0]);
      PlainRun(t, Do(t, s, moves[0]), moves[1..]);
    }
  }

  /**
   * In every run whose callbacks issue nothing, however users' commands and deliveries interleave, the
   * first `n` commands in the order have been executed, in that order, after two deliveries for each and
   * one for a reply on its way. Until then there is always something to deliver.
   */
  lemma EveryRunExecutes(t: DeviceType, s: System, moves: seq<Move>, n: nat)
    requires Balanced(t, s) && AllMovesAnswerable(t, moves) && Plain(moves) && n <= |Order(s)|
    ensures var s' := DoAll(t, s, moves);
            && (Deliveries(t, s, moves) >= 2 * (n - |s.executed|) + |s.up| ==>
                  |s'.executed| >= n && s'.executed[..n] == Order(s)[..n])
            && (|s'.executed| < n ==> s'.down != [] || s'.up != [])
  {
    hide Do;
    PlainRun(t, s, moves);
    RunBalanced(t, s, moves);
    var s' := DoAll(t, s, moves);
    if |s'.executed| >= n {
      assert Order(s')[..n] == s'.executed[..n];
    } else if s'.down == [] && s'.up == [] {
      Stuck(t, s');
    }
  }

  // ---------------------------------------------------------------- any run at all

  /** A reply is delivered whose callback issues nothing, so that its credit is for what waits. */
  predicate Frees(s: System, m: Move) { m.Host? && s.up != [] && Called(s, m) == [] }

  /** What `next_cmd` takes from the queue in a run. */
  function Released(t: DeviceType, s: System, moves: seq<Move>): seq<Command>
    decreases |moves|
  {
    if moves == [] then []
    else
      (if Frees(s, moves[0]) && s.host.waiting != [] then [s.host.waiting[0]] else [])
      + Released(t, Do(t, s, moves[0]), moves[1..])
  }

  /** What is put into it: users' commands without a credit, and all but the first of a callback. */
  function QueuedBy(s: System, m: Move): seq<Command>
  {
    if m.User? then (if s.host.ncmd == 0 then [m.c] else [])
    else if Called(s, m) != [] then Called(s, m)[1..]
    else []
  }

  function Queued(t: DeviceType, s: System, moves: seq<Move>): seq<Command>
    decreases |moves|
  {
    if moves == [] then [] else QueuedBy(s, moves[0]) + Queued(t, Do(t, s, moves[0]), moves[1..])
  }

  lemma QueueStep(t: DeviceType, s: System, m: Move)
    requires Balanced(t, s)
    ensures var taken := if Frees(s, m) && s.host.waiting != [] then [s.host.waiting[0]] else [];
            taken + Do(t, s, m).host.waiting == s.host.waiting + QueuedBy(s, m)
    ensures Frees(s, m) && s.host.waiting != [] ==> Do(t, s, m).down == s.down + [s.host.waiting[0]]
  {
    if m.Host? && s.up != [] {
      CreditEffect(s.host, Called(s, m));
      assert Frees(s, m) && s.host.waiting != [] ==> [s.host.waiting[0]] + s.host.waiting[1..] == s.host.waiting;
    }
    assert s.host.waiting + [] == s.host.waiting;
  }

  /**
   * In every run what waits is served in the order in which it was queued, one command for every reply
   * whose callback issues nothing, and none for any other.
   */
  lemma {:induction false} WaitingIsFifo(t: DeviceType, s: System, moves: seq<Move>)
    requires Balanced(t, s) && AllMovesAnswerable(t, moves)
    ensures Released(t, s, moves) + DoAll(t, s, moves).host.waiting == s.host.waiting + Queued(t, s, moves)
    decreases |moves|
  {
    hide Do, Balanced, MoveAnswerable, Frees, QueuedBy;
    if moves != [] {
      var m, s' := moves[0], Do(t, s, moves[0]);
      QueueStep(t, s, m);
      DoBalanced(t, s, m);
      WaitingIsFifo(t, s', moves[1..]);
      var taken := if Frees(s, m) && s.host.waiting != [] then [s.host.waiting[0]] else [];
      Rejoined(taken, Released(t, s', moves[1..]), DoAll(t, s', moves[1..]).host.waiting,
               s.host.waiting, s'.host.waiting, QueuedBy(s, m), Queued(t, s', moves[1..]));
    } else {
      assert s.host.waiting + [] == s.host.waiting;
    }
  }

  lemma Rejoined(taken: seq<Command>, released: seq<Command>, left: seq<Command>,
                 before: seq<Command>, after: seq<Command>, queued: seq<Command>, more: seq<Command>)
    requires taken + after == before + queued && released + left == after + more
    ensures (taken + released) + left == before + (queued + more)
  {
    assert (taken + released) + left == taken + (released + left);
    assert taken + (after + more) == (taken + after) + more;
    assert (before + queued) + more == before + (queued + more);
  }

  function FreeReplies(t: DeviceType, s: System, moves: seq<Move>): nat
    decreases |moves|
  {
    if moves == [] then 0 else (if Frees(s, moves[0]) then 1 else 0) + FreeReplies(t, Do(t, s, moves[0]), moves[1..])
  }

  /**
   * So the command at position `k` of the queue has left it exactly if more than `k` replies came whose
   * callbacks issued nothing: with fewer it waits, however many commands the callbacks have executed.
   */
  lemma {:induction false} ReleasedExactly(t: DeviceType, s: System, moves: seq<Move>, k: nat)
    requires Balanced(t, s) && AllMovesAnswerable(t, moves) && k < |s.host.waiting|
    ensures |Released(t, s, moves)| > k <==> FreeReplies(t, s, moves) > k
    ensures FreeReplies(t, s, moves) > k ==> Released(t, s, moves)[k] == s.host.waiting[k]
    decreases |moves|
  {
    hide Do, Balanced, MoveAnswerable, Frees, QueuedBy;
    if moves != [] {
      var m, s' := moves[0], Do(t, s, moves[0]);
      QueueStep(t, s, m);
      DoBalanced(t, s, m);
      var served := Frees(s, m);
      assert s'.host.waiting == (s.host.waiting + QueuedBy(s, m))[if served then 1 else 0..];
      if served && k > 0 {
        assert s'.host.waiting[k - 1] == s.host.waiting[k];
        ReleasedExactly(t, s', moves[1..], k - 1);
      } else if !served {
        assert s'.host.waiting[k] == s.host.waiting[k];
        ReleasedExactly(t, s', moves[1..], k);
      }
    }
  }

  // ---------------------------------------------------------------- starvation

  /** A callback that issues the same command again on every reply, `n` times. */
  function Rounds(c: Command, n: nat): seq<Move> { if n == 0 then [] else [Device(true), Host([c])] + Rounds(c, n - 1) }

  /** The reply to the command calls back. */
  predicate AnsweredWithCallback(t: DeviceType, c: Command)
  {
    forall r :: r in Replies(t, true, c.opcode) ==> CallsBack(r)
  }

  lemma OneRound(t: DeviceType, s: System, c: Command)
    requires Balanced(t, s) && s.down == [c]
    ensures var s' := Do(t, Do(t, s, Device(true)), Host([c]));
            if AnsweredWithCallback(t, c) then s'.down == [c] && s'.host.waiting == s.host.waiting && Balanced(t, s')
            else Frees(Do(t, s, Device(true)), Host([c]))
    ensures Do(t, s, Device(true)).host == s.host && Balanced(t, Do(t, s, Device(true)))
    ensures AnsweredWithCallback(t, c) ==> !Frees(Do(t, s, Device(true)), Host([c]))
  {
    hide Supported, StatusFirst;
    assert c in s.down;
    AnsweredOnce(t, true, c.opcode);
    DoBalanced(t, s, Device(true));
    var mid := Do(t, s, Device(true));
    assert mid.up == Replies(t, true, c.opcode) && mid.up[0] in mid.up;
    CreditEffect(mid.host, Called(mid, Host([c])));
    if AnsweredWithCallback(t, c) {
      assert Answerable(t, c);
      DoBalanced(t, mid, Host([c]));
      QueueStep(t, mid, Host([c]));
    }
  }

  lemma RoundUnfolds(t: DeviceType, s: System, c: Command, n: nat)
    requires n > 0
    ensures var mid := Do(t, s, Device(true));
            var s' := Do(t, mid, Host([c]));
            && DoAll(t, s, Rounds(c, n)) == DoAll(t, s', Rounds(c, n - 1))
            && FreeReplies(t, s, Rounds(c, n))
               == (if Frees(mid, Host([c])) then 1 else 0) + FreeReplies(t, s', Rounds(c, n - 1))
  {
    hide Do, Frees;
    var moves := Rounds(c, n);
    assert moves[1..] == [Host([c])] + Rounds(c, n - 1) && moves[1..][1..] == Rounds(c, n - 1);
    assert !Frees(s, Device(true)) by { DeviceFreesNothing(s); }
  }

  lemma DeviceFreesNothing(s: System)
    ensures !Frees(s, Device(true))
  {
  }

  lemma {:induction false} RoundsStarve(t: DeviceType, s: System, c: Command, n: nat)
    requires Balanced(t, s) && s.down == [c] && AnsweredWithCallback(t, c)
    ensures var s' := DoAll(t, s, Rounds(c, n));
            s'.host.waiting == s.host.waiting && FreeReplies(t, s, Rounds(c, n)) == 0
    decreases n
  {
    hide Do, Balanced, AnsweredWithCallback, Frees;
    if n > 0 {
      OneRound(t, s, c);
      RoundUnfolds(t, s, c, n);
      RoundsStarve(t, Do(t, Do(t, s, Device(true)), Host([c])), c, n - 1);
    }
  }

  /**
   * A callback that issues its own command again each time keeps everything else waiting for ever,
   * exactly if the reply to that command calls back.
   */
  lemma StarvesIff(t: DeviceType, s: System, c: Command)
    requires Balanced(t, s) && s.down == [c]
    ensures (forall n: nat :: FreeReplies(t, s, Rounds(c, n)) == 0) <==> AnsweredWithCallback(t, c)
    ensures AnsweredWithCallback(t, c) ==> forall n: nat :: DoAll(t, s, Rounds(c, n)).host.waiting == s.host.waiting
  {
    hide Do, Balanced, AnsweredWithCallback, Frees;
    if AnsweredWithCallback(t, c) {
      forall n: nat
        ensures FreeReplies(t, s, Rounds(c, n)) == 0 && DoAll(t, s, Rounds(c, n)).host.waiting == s.host.waiting
      {
        RoundsStarve(t, s, c, n);
      }
    } else {
      OneRound(t, s, c);
      RoundUnfolds(t, s, c, 1);
    }
  }

  /** Reading the address is such a command, and disconnecting is not. */
  lemma StarvingCommands(t: DeviceType, param: octets)
    ensures AnsweredWithCallback(t, Command(READ_BD_ADDR, param))
    ensures !AnsweredWithCallback(t, Command(DISCONNECT, param))
  {
    var status := CommandStatus(DISCONNECT, BT_HCI_ERR_SUCCESS);
    assert status in Replies(t, true, DISCONNECT);
  }
}
