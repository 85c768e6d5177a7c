/** The host's command queue: a doubly linked list and a credit counter. */
module HciQueue {
  import opened Bytes

  /** The commands that the host issues, and one that it does not. */
  datatype Opcode =
    | RESET | READ_LOCAL_FEATURES | READ_BD_ADDR
    | ACCEPT_CONN_REQUEST | SET_CONN_ENCRYPT | PIN_CODE_REQUEST_REPLY | PIN_CODE_REQUEST_NEG_REPLY
    | LINK_KEY_REQUEST_NEG_REPLY | IO_CAPABILITY_REQUEST_REPLY | USER_CONFIRM_REQUEST_REPLY
    | USER_CONFIRM_REQUEST_NEG_REPLY | CREATE_CONN | DISCONNECT | AUTH_REQUESTED | WRITE_SCAN_ENABLE
    | WRITE_SIMPLE_PAIRING_MODE | WRITE_LE_HOST_SUPPORTED | WRITE_SECURE_CONN_SUPPORT
    | LE_CREATE_CONN | LE_EXT_CREATE_CONN | LE_CONN_UPDATE | LE_SET_ADV_DATA | LE_SET_ADV_PARAMETERS
    | LE_SET_ADV_ENABLE | LE_SET_EXT_ADV_DATA | LE_SET_EXT_ADV_PARAMS | LE_SET_EXT_ADV_ENABLE
    | LE_START_ENCRYPT | LE_LTK_REQ_REPLY | LE_LTK_REQ_NEG_REPLY
    | ADD_SCO_CONN

  datatype Command = Command(opcode: Opcode, param: octets)

  /** The queue as a value: credits, what waits, and what has been handed to the controller. */
  datatype Queue = Queue(ncmd: nat, waiting: seq<Command>, sent: seq<Command>)

  /** `send_command`. */
  function Issue(q: Queue, c: Command): Queue
  {
    if q.ncmd > 0 then Queue(q.ncmd - 1, q.waiting, q.sent + [c])
    else q.(waiting := q.waiting + [c])
  }

  /** `next_cmd`. */
  function Release(q: Queue): Queue
  {
    if q.waiting == [] || q.ncmd == 0 then q
    else Queue(q.ncmd - 1, q.waiting[1..], q.sent + [q.waiting[0]])
  }

  function IssueAll(q: Queue, cs: seq<Command>): Queue
    decreases |cs|
  {
    if cs == [] then q else IssueAll(Issue(q, cs[0]), cs[1..])
  }

  /** The common part of `evt_cmd_complete` and `evt_cmd_status`, whose callback issues `during`. */
  function Credit(q: Queue, ncmd: nat, during: seq<Command>): Queue
  {
    Release(IssueAll(q.(ncmd := ncmd), during))
  }

  // ---------------------------------------------------------------- the linked list

  class Cmd {
    const data: Command
    var prev: Cmd?
    var next: Cmd?

    constructor (data: Command)
      ensures this.data == data && prev == null && next == null
    {
      this.data, prev, next := data, null, null;
    }
  }

  /** The two link fields of a node that has `nodes` around it. */
  ghost predicate Linked(nodes: seq<Cmd>, head: Cmd?, tail: Cmd?)
    reads nodes
  {
    && (forall i, j :: 0 <= i < j < |nodes| ==> nodes[i] != nodes[j])
    && head == (if nodes == [] then null else nodes[0])
    && tail == (if nodes == [] then null else nodes[|nodes| - 1])
    && (forall i, j :: 0 <= i && j == i + 1 < |nodes| ==> nodes[i].next == nodes[j] && nodes[j].prev == nodes[i])
    && (nodes != [] ==> nodes[0].prev == null && nodes[|nodes| - 1].next == null)
  }

  ghost function DataOf(nodes: seq<Cmd>): (s: seq<Command>)
    ensures |s| == |nodes|
  {
    seq(|nodes|, i requires 0 <= i < |nodes| => nodes[i].data)
  }

  class CommandQueue {
    var ncmd: nat
    var head: Cmd?
    var tail: Cmd?
    var sent: seq<Command>
    ghost var nodes: seq<Cmd>

    ghost predicate Valid()
      reads this, nodes
    {
      Linked(nodes, head, tail)
    }

    ghost function Value(): Queue
      reads this
    {
      Queue(ncmd, DataOf(nodes), sent)
    }

    constructor ()
      ensures Valid() && Value() == Queue(0, [], []) && nodes == []
    {
      ncmd, head, tail, sent, nodes := 0, null, null, [], [];
    }

    method QueueCommand(c: Command)
      requires Valid()
      modifies this`head, this`tail, this`nodes, if tail != null then {tail} else {}
      ensures Valid() && Value() == old(Value()).(waiting := old(Value()).waiting + [c])
      ensures |nodes| == |old(nodes)| + 1 && nodes[..|old(nodes)|] == old(nodes) && fresh(nodes[|old(nodes)|])
    {
      var cmd := new Cmd(c);
      if tail != null {
        tail.next := cmd;
      } else {
        head := cmd;
      }
      cmd.prev := tail;
      tail := cmd;
      nodes := nodes + [cmd];
      assert DataOf(nodes) == old(DataOf(nodes)) + [c];
    }

    method SendCommand(c: Command)
      requires Valid()
      modifies this, if tail != null then {tail} else {}
      ensures Valid() && Value() == Issue(old(Value()), c)
      ensures forall n :: n in nodes ==> n in old(nodes) || fresh(n)
    {
      if ncmd > 0 {
        sent := sent + [c];
        ncmd := ncmd - 1;
      } else {
        QueueCommand(c);
      }
    }

    method NextCmd()
      requires Valid()
      modifies this, if head != null && head.next != null then {head.next} else {}
      ensures Valid() && Value() == Release(old(Value()))
      ensures forall n :: n in nodes ==> n in old(nodes)
    {
      if head == null { return; }
      var next := head.next;
      if ncmd == 0 { return; }
      sent := sent + [head.data];
      ncmd := ncmd - 1;
      if next != null {
        next.prev := null;
      } else {
        tail := null;
      }
      head := next;
      nodes := nodes[1..];
      assert DataOf(nodes) == old(DataOf(nodes))[1..];
    }

    /** A Command Complete or Command Status event; its callback, if it runs, issues `during`. */
    method Replied(credits: nat, during: seq<Command>)
      requires Valid()
      modifies this, nodes
      ensures Valid() && Value() == Credit(old(Value()), credits, during)
    {
      ncmd := credits;
      ghost var start := Value();
      for k := 0 to |during|
        invariant Valid() && IssueAll(start, during) == IssueAll(Value(), during[k..])
        invariant forall n :: n in nodes ==> n in old(nodes) || fresh(n)
      {
        assert tail != null ==> tail in nodes;
        SendCommand(during[k]);
        assert during[k..][1..] == during[k + 1..];
      }
      assert head != null && head.next != null ==> head.next == nodes[1] && nodes[1] in nodes;
      NextCmd();
    }

    /** The queue part of `bthost_destroy`: follows the `prev` links from the tail, and meets every command. */
    method Drain() returns (freed: seq<Command>)
      requires Valid()
      modifies this`tail
      ensures |freed| == |old(nodes)| && tail == null
      ensures forall k :: 0 <= k < |freed| ==> freed[k] == old(Value()).waiting[|freed| - 1 - k]
    {
      freed := [];
      while tail != null
        invariant |freed| <= |nodes| && nodes == old(nodes) && DataOf(nodes) == old(Value()).waiting
        invariant forall i, j :: 0 <= i && j == i + 1 < |nodes| ==> nodes[j].prev == nodes[i]
        invariant nodes != [] ==> nodes[0].prev == null
        invariant tail == if |freed| == |nodes| then null else nodes[|nodes| - 1 - |freed|]
        invariant forall k :: 0 <= k < |freed| ==> freed[k] == DataOf(nodes)[|nodes| - 1 - k]
        decreases |nodes| - |freed|
      {
        var cmd := tail;
        tail := cmd.prev;
        freed := freed + [cmd.data];
      }
    }
  }
}
