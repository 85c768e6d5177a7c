/**
 * Included service discovery: one search request after another, and one read request for every
 * include whose 128-bit UUID does not fit the search response, all holding a reference.
 */
module GattIncluded {
  import opened Bytes
  import opened AttCodec
  import opened AttPdu
  import opened GattLong
  import opened GattDiscover

  /** `struct gatt_included`; the UUID is empty until it is resolved. */
  datatype Include = Include(handle: uint16, start: uint16, end: uint16, uuid: octets)

  datatype Request = Find(start: uint16) | Resolve(incl: Include)

  datatype Call = Call(err: uint8, includes: seq<Include>)

  /** `struct included_discovery`, the requests that are outstanding, and the user's callbacks. */
  datatype Isd = Isd(refs: int, err: uint8, start: uint16, end: uint16, includes: seq<Include>,
                     queue: seq<Request>, calls: seq<Call>, finds: nat)

  /** `find_included`: the request takes a reference. */
  function SendFind(s: Isd, start: uint16): Isd
  {
    s.(refs := s.refs + 1, queue := s.queue + [Find(start)], finds := s.finds + 1)
  }

  /** `resolve_included_uuid`, which takes one as well. */
  function SendResolve(s: Isd, incl: Include): Isd
  {
    s.(refs := s.refs + 1, queue := s.queue + [Resolve(incl)])
  }

  /** `isd_unref`: the last reference reports. */
  function Unref(s: Isd): Isd
  {
    var s' := s.(refs := s.refs - 1);
    if s'.refs > 0 then s'
    else s'.(calls := s'.calls + [Call(s'.err, if s'.err != 0 then [] else s'.includes)])
  }

  /** The first error wins. */
  function Note(s: Isd, err: uint8): Isd { if s.err == 0 then s.(err := err) else s }

  /** `gatt_find_included`. */
  function FirstFind(start: uint16, end: uint16): Isd { SendFind(Isd(0, 0, start, end, [], [], [], 0), start) }

  /** `included_from_buf`. */
  function IncludeOf(e: octets): Include
    requires |e| == 6 || |e| == 8
  {
    Include(GetLe16(e, 0), GetLe16(e, 2), GetLe16(e, 4), if |e| == 8 then Uuid128(e[6..]) else [])
  }

  /** The loop over the entries of a search response. */
  function TakeIncludes(s: Isd, entries: seq<octets>): Isd
    requires forall i :: 0 <= i < |entries| ==> |entries[i]| == 6 || |entries[i]| == 8
  {
    if entries == [] then s
    else
      var n := |entries| - 1;
      var before, incl := TakeIncludes(s, entries[..n]), IncludeOf(entries[n]);
      if |entries[n]| == 6 then SendResolve(before, incl) else before.(includes := before.includes + [incl])
  }

  /** `find_included_cb`, before its reference is dropped. */
  function OnFind(s: Isd, reply: Reply): Isd
    requires reply.Valid()
  {
    if reply.Error? then Note(s, if reply.code == ATT_ECODE_ATTR_NOT_FOUND then 0 else reply.code)
    else
      var list := DecReadByType(reply.pdu);
      if list.None? || (list.value.len != 6 && list.value.len != 8) then Note(s, ATT_ECODE_IO)
      else
        Decoded(ATT_OP_READ_BY_TYPE_RESP, 5, 3, reply.pdu);
        var entries := list.value.data;
        var taken, last := TakeIncludes(s, entries), GetLe16(entries[|entries| - 1], 0);
        if last < s.start then taken.(err := ATT_ECODE_UNLIKELY)
        else
          var next := taken.(start := Wrap16(last + 1));
          if last < s.end then SendFind(next, next.start) else next
  }

  /** `resolve_included_uuid_cb`, before its reference is dropped. */
  function OnResolve(s: Isd, incl: Include, reply: Reply): Isd
    requires reply.Valid()
  {
    if reply.Error? then Note(s, reply.code)
    else if reply.pdu[0] != ATT_OP_READ_RESP || |reply.pdu| != 17 then Note(s, ATT_ECODE_IO)
    else s.(includes := s.includes + [incl.(uuid := Uuid128(reply.pdu[1..]))])
  }

  /** The request at position `i` is answered. */
  function Answer(s: Isd, i: nat, reply: Reply): Isd
    requires i < |s.queue| && reply.Valid()
  {
    var rest := s.(queue := s.queue[..i] + s.queue[i + 1..]);
    Unref(match s.queue[i]
          case Find(_) => OnFind(rest, reply)
          case Resolve(incl) => OnResolve(rest, incl, reply))
  }

  // ---------------------------------------------------------------- references, for any server and any order

  /** One reference for every request that is outstanding, and one call when there is none any more. */
  predicate Counted(s: Isd)
  {
    && s.refs == |s.queue|
    && (if s.queue == [] then |s.calls| == 1 else s.calls == [])
  }

  lemma {:induction false} TakeIncludesCounts(s: Isd, entries: seq<octets>)
    requires forall i :: 0 <= i < |entries| ==> |entries[i]| == 6 || |entries[i]| == 8
    ensures var t := TakeIncludes(s, entries);
            && t.refs - |t.queue| == s.refs - |s.queue| && t.refs >= s.refs && t.calls == s.calls
            && t.start == s.start && t.end == s.end && t.err == s.err && t.finds == s.finds
            && s.queue <= t.queue && forall k :: |s.queue| <= k < |t.queue| ==> t.queue[k].Resolve?
  {
    if entries != [] { TakeIncludesCounts(s, entries[..|entries| - 1]); }
  }

  lemma AnswerKeepsCount(s: Isd, i: nat, reply: Reply)
    requires Counted(s) && i < |s.queue| && reply.Valid()
    ensures Counted(Answer(s, i, reply))
  {
    hide TakeIncludes, DecList, Slices, Uuid128;
    var rest := s.(queue := s.queue[..i] + s.queue[i + 1..]);
    if s.queue[i].Find? && reply.Pdu? {
      var list := DecReadByType(reply.pdu);
      if list.Some? && (list.value.len == 6 || list.value.len == 8) {
        Decoded(ATT_OP_READ_BY_TYPE_RESP, 5, 3, reply.pdu);
        TakeIncludesCounts(rest, list.value.data);
      }
    }
  }

  /** An answer to one of the outstanding requests. */
  datatype Event = Event(index: nat, reply: Reply)

  function AnswerAll(s: Isd, events: seq<Event>): Isd
    requires forall e :: e in events ==> e.reply.Valid()
    decreases |events|
  {
    if events == [] then s
    else AnswerAll(if events[0].index < |s.queue| then Answer(s, events[0].index, events[0].reply) else s, events[1..])
  }

  /** Whatever is answered, and in whatever order, the user is called back exactly once, at the end. */
  lemma {:induction false} CalledBackOnce(s: Isd, events: seq<Event>)
    requires Counted(s) && forall e :: e in events ==> e.reply.Valid()
    ensures var end := AnswerAll(s, events);
            && end.refs == |end.queue|
            && (if end.queue == [] then |end.calls| == 1 else end.calls == [])
    decreases |events|
  {
    if events != [] {
      if events[0].index < |s.queue| {
        AnswerKeepsCount(s, events[0].index, events[0].reply);
        CalledBackOnce(Answer(s, events[0].index, events[0].reply), events[1..]);
      } else {
        CalledBackOnce(s, events[1..]);
      }
    }
  }

  /** At most one search is outstanding, and each started behind the one before. */
  predicate Advancing(s: Isd, first: uint16)
  {
    && s.finds <= 0x1_0000 - first
    && (forall i :: 0 <= i < |s.queue| && s.queue[i].Find? ==>
          s.queue[i].start == s.start && first <= s.start && s.finds <= s.start - first + 1)
    && (forall i, j :: 0 <= i < j < |s.queue| ==> s.queue[i].Resolve? || s.queue[j].Resolve?)
  }

  predicate OnlyResolves(queue: seq<Request>) { forall i :: 0 <= i < |queue| ==> queue[i].Resolve? }

  lemma FindAdvances(s: Isd, first: uint16, reply: Reply)
    requires reply.Valid() && OnlyResolves(s.queue) && first <= s.start && s.finds <= s.start - first + 1
    ensures Advancing(OnFind(s, reply), first)
  {
    hide TakeIncludes, DecList, Slices, Uuid128;
    if reply.Pdu? {
      var list := DecReadByType(reply.pdu);
      if list.Some? && (list.value.len == 6 || list.value.len == 8) {
        Decoded(ATT_OP_READ_BY_TYPE_RESP, 5, 3, reply.pdu);
        TakeIncludesCounts(s, list.value.data);
        var queue := TakeIncludes(s, list.value.data).queue;
        assert forall k :: 0 <= k < |s.queue| ==> queue[k] == s.queue[k];
      }
    }
  }

  lemma AnswerAdvances(s: Isd, first: uint16, i: nat, reply: Reply)
    requires Advancing(s, first) && i < |s.queue| && reply.Valid()
    ensures Advancing(Answer(s, i, reply), first)
  {
    hide TakeIncludes, DecList, Slices, Uuid128, OnFind, OnResolve;
    var rest := s.(queue := s.queue[..i] + s.queue[i + 1..]);
    assert forall k :: 0 <= k < |rest.queue| ==> rest.queue[k] == if k < i then s.queue[k] else s.queue[k + 1];
    match s.queue[i]
    case Find(_) => FindAdvances(rest, first, reply);
    case Resolve(incl) => ResolveChanges(rest, incl, reply);
  }

  lemma ResolveChanges(s: Isd, incl: Include, reply: Reply)
    requires reply.Valid()
    ensures var t := OnResolve(s, incl, reply);
            t.queue == s.queue && t.start == s.start && t.finds == s.finds && t.refs == s.refs && t.calls == s.calls
  {
    hide Uuid128;
  }

  /** No server can make the client search more often than there are handles to search from. */
  lemma {:induction false} SearchesBounded(s: Isd, first: uint16, events: seq<Event>)
    requires Advancing(s, first) && forall e :: e in events ==> e.reply.Valid()
    ensures AnswerAll(s, events).finds <= 0x1_0000 - first
    decreases |events|
  {
    hide Answer;
    if events != [] {
      if events[0].index < |s.queue| {
        AnswerAdvances(s, first, events[0].index, events[0].reply);
        SearchesBounded(Answer(s, events[0].index, events[0].reply), first, events[1..]);
      } else {
        SearchesBounded(s, first, events[1..]);
      }
    }
  }

  // ---------------------------------------------------------------- against a server that follows the rules

  /** An include as the server holds it; its UUID is in wire form. */
  datatype Held = Held(handle: uint16, start: uint16, end: uint16, uuid: octets)
  {
    /** The entry of a search response: a 128-bit UUID is left out. */
    function Wire(): octets
    {
      PutLe16(handle) + PutLe16(start) + PutLe16(end) + if |uuid| == 2 then uuid else []
    }

    function Found(): Include { Include(handle, start, end, Uuid128(uuid)) }
  }

  /** In handle order, and one service has one UUID. */
  predicate WellHeld(db: seq<Held>, end: uint16)
  {
    && (forall i :: 0 <= i < |db| ==> IsUuid(db[i].uuid) && 1 <= db[i].handle <= end)
    && (forall i, j :: 0 <= i < j < |db| ==> db[i].handle < db[j].handle)
    && (forall i, j :: 0 <= i < j < |db| && db[i].start == db[j].start ==> db[i].uuid == db[j].uuid)
  }

  function WiresOf(hs: seq<Held>): (r: seq<octets>)
    ensures |r| == |hs| && forall i :: 0 <= i < |r| ==> r[i] == hs[i].Wire()
  {
    seq(|hs|, i requires 0 <= i < |hs| => hs[i].Wire())
  }

  function FoundOf(hs: seq<Held>): (r: seq<Include>)
    ensures |r| == |hs| && forall i :: 0 <= i < |r| ==> r[i] == hs[i].Found()
  {
    seq(|hs|, i requires 0 <= i < |hs| => hs[i].Found())
  }

  function SearchPdu(hs: seq<Held>): (pdu: octets)
    requires hs != [] && |hs[0].Wire()| <= 0xff
    ensures pdu != []
  {
    [ATT_OP_READ_BY_TYPE_RESP, |hs[0].Wire()|] + Flat(WiresOf(hs))
  }

  /** The entries from index `i` on that a response takes: `n` of the same kind. */
  predicate SameKind(hs: seq<Held>) { forall i :: 0 <= i < |hs| ==> |hs[i].uuid| == |hs[0].uuid| }

  /** The `n` entries from index `i` are the first at or after `start`, and of one kind. */
  ghost predicate LegalRun(db: seq<Held>, start: uint16, i: nat, n: nat)
  {
    && 0 < n && i + n <= |db| && SameKind(db[i..i + n]) && IsUuid(db[i].uuid)
    && db[i].handle >= start && forall j :: 0 <= j < i ==> db[j].handle < start
  }

  function RunPdu(db: seq<Held>, i: nat, n: nat): octets
  {
    if 0 < n && i + n <= |db| && IsUuid(db[i].uuid) then SearchPdu(db[i..i + n]) else []
  }

  /** A legal answer to the request at the head of the queue. */
  ghost predicate Legal(db: seq<Held>, request: Request, reply: Reply)
  {
    match request
    case Find(start) =>
      || (reply == Error(ATT_ECODE_ATTR_NOT_FOUND) && forall i :: 0 <= i < |db| ==> db[i].handle < start)
      || (exists i, n :: LegalRun(db, start, i, n) && reply == Pdu(RunPdu(db, i, n)))
    case Resolve(incl) =>
      exists i :: 0 <= i < |db| && db[i].start == incl.start && reply == Pdu([ATT_OP_READ_RESP] + db[i].uuid)
  }

  /** Requests are answered in the order in which they were sent, as the Attribute Protocol does. */
  function Fifo(s: Isd, replies: seq<Reply>): Isd
    decreases |replies|
  {
    if replies == [] || s.queue == [] || !replies[0].Valid() then s else Fifo(Answer(s, 0, replies[0]), replies[1..])
  }

  ghost predicate LegalReplies(db: seq<Held>, s: Isd, replies: seq<Reply>)
    decreases |replies|
  {
    replies != [] && s.queue != [] ==>
      && replies[0].Valid() && Legal(db, s.queue[0], replies[0])
      && LegalReplies(db, Answer(s, 0, replies[0]), replies[1..])
  }

  function Unresolved(h: Held): (r: Request)
    ensures r.Resolve?
  {
    Resolve(Include(h.handle, h.start, h.end, []))
  }

  function UnresolvedOf(hs: seq<Held>): (r: seq<Request>)
    ensures |r| == |hs| && forall i :: 0 <= i < |r| ==> r[i] == Unresolved(hs[i])
  {
    seq(|hs|, i requires 0 <= i < |hs| => Unresolved(hs[i]))
  }

  /** The first `i` includes are reported, those up to `j` are being resolved, and the rest is still searched for. */
  ghost predicate Reached(db: seq<Held>, s: Isd, i: nat, j: nat)
    requires i <= j <= |db|
  {
    && s.err == 0 && s.includes == FoundOf(db[..i]) && s.calls == [] && s.refs == |s.queue| > 0
    && (forall k :: i <= k < j ==> |db[k].uuid| == 16)
    && (if s.queue == UnresolvedOf(db[i..j]) then j == |db|
        else
          && s.queue == UnresolvedOf(db[i..j]) + [Find(s.start)]
          && (forall k :: 0 <= k < j ==> db[k].handle < s.start)
          && forall k :: j <= k < |db| ==> s.start <= db[k].handle)
  }

  /** The user has everything. */
  predicate Complete(db: seq<Held>, s: Isd) { s.queue == [] && s.calls == [Call(0, FoundOf(db))] }

  lemma ResolveTaken(db: seq<Held>, s: Isd, i: nat, j: nat, reply: Reply, end: uint16)
    requires WellHeld(db, end) && i < j <= |db| && Reached(db, s, i, j)
    requires s.queue[0] == Unresolved(db[i]) && Legal(db, s.queue[0], reply)
    ensures reply.Valid()
    ensures var t := Answer(s, 0, reply);
            if t.queue == [] then Complete(db, t) else Reached(db, t, i + 1, j)
    ensures Answer(s, 0, reply).end == s.end
  {
    hide Held.Found, IsUuid, WellHeld;
    ResolveAnswered(db, s, i, reply, end);
    assert db[..i + 1] == db[..i] + [db[i]];
    assert FoundOf(db[..i + 1]) == FoundOf(db[..i]) + [db[i].Found()];
    assert UnresolvedOf(db[i..j])[1..] == UnresolvedOf(db[i + 1..j]);
    assert db[..|db|] == db;
  }

  lemma ResolveAnswered(db: seq<Held>, s: Isd, i: nat, reply: Reply, end: uint16)
    requires WellHeld(db, end) && i < |db| && |db[i].uuid| == 16
    requires s.queue != [] && s.queue[0] == Unresolved(db[i]) && Legal(db, s.queue[0], reply)
    ensures reply.Valid()
    ensures Answer(s, 0, reply) == Unref(s.(queue := s.queue[1..], includes := s.includes + [db[i].Found()]))
  {
    hide Uuid128, IsUuid, Unref;
    var k :| 0 <= k < |db| && db[k].start == db[i].start && reply == Pdu([ATT_OP_READ_RESP] + db[k].uuid);
    assert db[k].uuid == db[i].uuid;
    assert ([ATT_OP_READ_RESP] + db[k].uuid)[1..] == db[i].uuid;
    assert s.queue[..0] + s.queue[1..] == s.queue[1..];
  }

  lemma HeldDecodes(h: Held)
    requires IsUuid(h.uuid)
    ensures |h.Wire()| == if |h.uuid| == 2 then 8 else 6
    ensures IncludeOf(h.Wire()) == if |h.uuid| == 2 then h.Found() else Unresolved(h).incl
    ensures GetLe16(h.Wire(), 0) == h.handle
  {
    hide Uuid128;
    var w := h.Wire();
    assert w[0..2] == PutLe16(h.handle) && w[2..4] == PutLe16(h.start) && w[4..6] == PutLe16(h.end);
    if |h.uuid| == 2 { assert w[6..] == h.uuid; }
  }

  lemma NoneTaken(s: Isd)
    ensures TakeIncludes(s, []) == s
  {
  }

  lemma OneTaken(s: Isd, entries: seq<octets>)
    requires entries != [] && forall i :: 0 <= i < |entries| ==> |entries[i]| == 6 || |entries[i]| == 8
    ensures var n := |entries| - 1;
            var before, incl := TakeIncludes(s, entries[..n]), IncludeOf(entries[n]);
            TakeIncludes(s, entries)
            == if |entries[n]| == 6 then SendResolve(before, incl) else before.(includes := before.includes + [incl])
  {
  }

  lemma OneMore(hs: seq<Held>)
    requires hs != []
    ensures var n := |hs| - 1;
            && WiresOf(hs)[..n] == WiresOf(hs[..n]) && WiresOf(hs)[n] == hs[n].Wire()
            && FoundOf(hs) == FoundOf(hs[..n]) + [hs[n].Found()]
            && UnresolvedOf(hs) == UnresolvedOf(hs[..n]) + [Unresolved(hs[n])]
    ensures FoundOf([]) == [] && UnresolvedOf([]) == []
  {
    hide Held.Wire, Held.Found, Unresolved;
  }

  predicate AllShort(hs: seq<Held>) { hs != [] && |hs[0].uuid| == 2 }

  /** The loop reports a run of short UUIDs, and sends a request for each long one. */
  lemma {:induction false} RunTaken(s: Isd, hs: seq<Held>)
    requires SameKind(hs) && forall h :: h in hs ==> IsUuid(h.uuid)
    requires forall i :: 0 <= i < |hs| ==> |WiresOf(hs)[i]| == 6 || |WiresOf(hs)[i]| == 8
    ensures TakeIncludes(s, WiresOf(hs))
         == if AllShort(hs) then s.(includes := s.includes + FoundOf(hs))
            else s.(refs := s.refs + |hs|, queue := s.queue + UnresolvedOf(hs))
  {
    hide IncludeOf, IsUuid, TakeIncludes, Unresolved, Held.Found, Held.Wire;
    if hs == [] {
      NoneTaken(s);
      assert s.queue + UnresolvedOf([]) == s.queue && WiresOf([]) == [];
    } else {
      var n := |hs| - 1;
      OneMore(hs);
      RunTaken(s, hs[..n]);
      OneTaken(s, WiresOf(hs));
      HeldDecodes(hs[n]);
      assert n > 0 ==> hs[..n][0] == hs[0];
      assert |hs[n].uuid| == |hs[0].uuid|;
      var before := TakeIncludes(s, WiresOf(hs[..n]));
      hide WiresOf, FoundOf, UnresolvedOf, SameKind;
      if n == 0 {
        assert hs[..n] == [] && s.queue + [] == s.queue && s.includes + [] == s.includes;
        assert before == s;
      }
      if AllShort(hs) {
        assert before == s.(includes := s.includes + FoundOf(hs[..n]));
        assert s.includes + FoundOf(hs[..n]) + [hs[n].Found()] == s.includes + FoundOf(hs);
      } else {
        assert before == s.(refs := s.refs + n, queue := s.queue + UnresolvedOf(hs[..n]));
        assert s.queue + UnresolvedOf(hs[..n]) + [Unresolved(hs[n])] == s.queue + UnresolvedOf(hs);
      }
    }
  }

  /** The client after a run: its entries are taken, and the search goes on if the range does. */
  function AfterRun(s: Isd, hs: seq<Held>): Isd
    requires hs != []
  {
    var last := hs[|hs| - 1].handle;
    var taken := (if AllShort(hs) then s.(includes := s.includes + FoundOf(hs))
                  else s.(refs := s.refs + |hs|, queue := s.queue + UnresolvedOf(hs))).(start := Wrap16(last + 1));
    if last < s.end then SendFind(taken, Wrap16(last + 1)) else taken
  }

  /** A run decodes, and is taken whole. */
  lemma RunAnswered(s: Isd, hs: seq<Held>)
    requires hs != [] && SameKind(hs) && forall h :: h in hs ==> IsUuid(h.uuid)
    requires s.start <= hs[|hs| - 1].handle
    ensures |hs[0].Wire()| <= 0xff && OnFind(s, Pdu(SearchPdu(hs))) == AfterRun(s, hs)
  {
    hide Flat, DecList, TakeIncludes, IsUuid, IncludeOf, Held.Wire, FoundOf, UnresolvedOf;
    WiresFit(hs);
    RunTaken(s, hs);
    HeldDecodes(hs[|hs| - 1]);
    ListDecodes(ATT_OP_READ_BY_TYPE_RESP, 5, 3, WiresOf(hs), |hs[0].Wire()|);
  }

  lemma WiresFit(hs: seq<Held>)
    requires hs != [] && SameKind(hs) && forall h :: h in hs ==> IsUuid(h.uuid)
    ensures |hs[0].Wire()| == 6 || |hs[0].Wire()| == 8
    ensures forall i :: 0 <= i < |hs| ==> |WiresOf(hs)[i]| == |hs[0].Wire()|
  {
    forall i | 0 <= i < |hs|
      ensures |WiresOf(hs)[i]| == |hs[0].Wire()| && (|hs[i].Wire()| == 6 || |hs[i].Wire()| == 8)
    {
      HeldDecodes(hs[i]);
      HeldDecodes(hs[0]);
    }
  }

  /** A legal answer to a search that has seen `i` includes starts with include `i`. */
  lemma NextRun(db: seq<Held>, s: Isd, i: nat, reply: Reply) returns (n: nat)
    requires WellHeld(db, s.end) && i <= |db|
    requires forall k :: 0 <= k < i ==> db[k].handle < s.start
    requires forall k :: i <= k < |db| ==> s.start <= db[k].handle
    requires Legal(db, Find(s.start), reply)
    ensures i == |db| ==> reply == Error(ATT_ECODE_ATTR_NOT_FOUND)
    ensures i < |db| ==> 0 < n && i + n <= |db| && SameKind(db[i..i + n]) && reply == Pdu(RunPdu(db, i, n))
  {
    hide SameKind, RunPdu, IsUuid;
    n := 0;
    var here := if i < |db| then db[i].handle else s.start;
    if reply == Error(ATT_ECODE_ATTR_NOT_FOUND) && forall k :: 0 <= k < |db| ==> db[k].handle < s.start {
      assert here >= s.start;
    } else {
      var i': nat, n': nat :| LegalRun(db, s.start, i', n') && reply == Pdu(RunPdu(db, i', n'));
      var there := db[i'].handle;
      assert here >= s.start && there >= s.start;
      n := n';
    }
  }

  /** The search that went out is answered by a run. */
  lemma RunStep(db: seq<Held>, s: Isd, i: nat, n: nat)
    requires WellHeld(db, s.end) && 0 < n && i + n <= |db| && SameKind(db[i..i + n])
    requires (forall k :: i <= k < |db| ==> s.start <= db[k].handle) && s.queue == [Find(s.start)]
    ensures Answer(s, 0, Pdu(RunPdu(db, i, n))) == Unref(AfterRun(s.(queue := []), db[i..i + n]))
  {
    hide Answer, OnFind, SearchPdu, WellHeld, SameKind, IsUuid, Unref, AfterRun, Held.Wire;
    var hs := db[i..i + n];
    assert hs[0] == db[i] && hs[n - 1] == db[i + n - 1];
    RunFacts(db, s, i, n);
    assert IsUuid(db[i].uuid);
    RunAnswered(s.(queue := []), hs);
    HeadAnswered(s, Pdu(SearchPdu(hs)));
  }

  lemma HeadAnswered(s: Isd, reply: Reply)
    requires s.queue == [Find(s.start)] && reply.Valid()
    ensures Answer(s, 0, reply) == Unref(OnFind(s.(queue := []), reply))
  {
    hide OnFind, Unref;
    assert s.queue[..0] + s.queue[1..] == [];
  }

  /** A run of short UUIDs is reported at once. */
  lemma ShortRun(db: seq<Held>, s: Isd, i: nat, n: nat)
    requires WellHeld(db, s.end) && 0 < n && i + n <= |db| && SameKind(db[i..i + n]) && |db[i].uuid| == 2
    requires Reached(db, s, i, i) && s.queue == [Find(s.start)]
    ensures var t, j := Answer(s, 0, Pdu(RunPdu(db, i, n))), i + n;
            t.end == s.end && if t.queue == [] then Complete(db, t) else Reached(db, t, j, j)
  {
    hide Answer, RunPdu, WellHeld, SameKind, IsUuid, Held.Found, Unresolved;
    var j := i + n;
    var hs := db[i..j];
    assert hs[0] == db[i] && hs[n - 1] == db[j - 1];
    RunFacts(db, s, i, n);
    RunStep(db, s, i, n);
    assert FoundOf(db[..i]) + FoundOf(hs) == FoundOf(db[..j]);
    assert UnresolvedOf(db[j..j]) == [];
    assert j == |db| ==> db[..j] == db;
    hide FoundOf, UnresolvedOf;
  }

  /** A run of long UUIDs is resolved first. */
  lemma LongRun(db: seq<Held>, s: Isd, i: nat, n: nat)
    requires WellHeld(db, s.end) && 0 < n && i + n <= |db| && SameKind(db[i..i + n]) && |db[i].uuid| == 16
    requires Reached(db, s, i, i) && s.queue == [Find(s.start)]
    ensures var t, j := Answer(s, 0, Pdu(RunPdu(db, i, n))), i + n;
            t.end == s.end && t.queue != [] && Reached(db, t, i, j)
  {
    hide Unref, AfterRun, Answer, RunPdu, WellHeld, SameKind, IsUuid, FoundOf, Unresolved, UnresolvedOf;
    var hs := db[i..i + n];
    assert hs[0] == db[i] && hs[n - 1] == db[i + n - 1];
    RunFacts(db, s, i, n);
    RunStep(db, s, i, n);
    LongAfter(s, hs);
  }

  lemma LongAfter(s: Isd, hs: seq<Held>)
    requires hs != [] && !AllShort(hs) && s.refs == 1 && s.calls == []
    ensures var last := hs[|hs| - 1].handle;
            var queue := UnresolvedOf(hs) + if last < s.end then [Find(Wrap16(last + 1))] else [];
            && queue != []
            && Unref(AfterRun(s.(queue := []), hs))
               == s.(queue := queue, refs := |queue|, start := Wrap16(last + 1),
                     finds := s.finds + if last < s.end then 1 else 0)
  {
    hide UnresolvedOf, Unresolved;
    assert [] + UnresolvedOf(hs) == UnresolvedOf(hs);
    assert UnresolvedOf(hs) + [] == UnresolvedOf(hs);
  }

  /** What `WellHeld` says of a run. */
  lemma RunFacts(db: seq<Held>, s: Isd, i: nat, n: nat)
    requires WellHeld(db, s.end) && 0 < n && i + n <= |db| && SameKind(db[i..i + n])
    requires forall k :: i <= k < |db| ==> s.start <= db[k].handle
    ensures forall h :: h in db[i..i + n] ==> IsUuid(h.uuid)
    ensures forall k :: i <= k < i + n ==> IsUuid(db[k].uuid) && |db[k].uuid| == |db[i].uuid|
    ensures s.start <= db[i + n - 1].handle <= s.end
    ensures forall k :: 0 <= k < i + n ==> db[k].handle < db[i + n - 1].handle + 1
    ensures forall k :: i + n <= k < |db| ==> db[i + n - 1].handle + 1 <= db[k].handle
    ensures !(db[i + n - 1].handle < s.end) ==> i + n == |db|
  {
    forall k | i <= k < i + n ensures |db[k].uuid| == |db[i].uuid| {
      assert db[i..i + n][k - i] == db[k] && db[i..i + n][0] == db[i];
    }
    if i + n < |db| { assert db[i + n - 1].handle < db[i + n].handle <= s.end; }
  }

  lemma NotFoundTaken(db: seq<Held>, s: Isd)
    requires Reached(db, s, |db|, |db|) && s.queue == [Find(s.start)]
    ensures Complete(db, Answer(s, 0, Error(ATT_ECODE_ATTR_NOT_FOUND)))
  {
    assert db[..|db|] == db;
  }

  lemma {:induction false} SearchCompletes(db: seq<Held>, s: Isd, i: nat, j: nat, replies: seq<Reply>)
    requires WellHeld(db, s.end) && i <= j <= |db| && Reached(db, s, i, j) && LegalReplies(db, s, replies)
    requires |replies| > 2 * (|db| - i) - (j - i)
    ensures Complete(db, Fifo(s, replies))
    decreases |replies|
  {
    hide Answer, Legal, WellHeld, SameKind, IsUuid, RunPdu;
    var reply := replies[0];
    if i < j {
      assert s.queue[0] == Unresolved(db[i]);
      ResolveTaken(db, s, i, j, reply, s.end);
      var t := Answer(s, 0, reply);
      if t.queue != [] { SearchCompletes(db, t, i + 1, j, replies[1..]); }
    } else {
      assert UnresolvedOf(db[i..j]) == [];
      assert s.queue == [Find(s.start)];
      var n := NextRun(db, s, i, reply);
      if i == |db| {
        NotFoundTaken(db, s);
      } else {
        KindOf(db, s.end, i);
        var t := Answer(s, 0, reply);
        if |db[i].uuid| == 2 {
          ShortRun(db, s, i, n);
          if t.queue != [] { SearchCompletes(db, t, i + n, i + n, replies[1..]); }
        } else {
          LongRun(db, s, i, n);
          SearchCompletes(db, t, i, i + n, replies[1..]);
        }
      }
    }
  }

  lemma KindOf(db: seq<Held>, end: uint16, i: nat)
    requires WellHeld(db, end) && i < |db|
    ensures |db[i].uuid| == 2 || |db[i].uuid| == 16
  {
  }

  /**
   * Whatever legal packing the server chooses, the user is told once, without an error, of every
   * include exactly once and in handle order, those with long UUIDs resolved.
   */
  lemma IncludesDiscovered(db: seq<Held>, start: uint16, end: uint16, replies: seq<Reply>)
    requires WellHeld(db, end) && forall k :: 0 <= k < |db| ==> start <= db[k].handle
    requires LegalReplies(db, FirstFind(start, end), replies) && |replies| > 2 * |db|
    ensures Complete(db, Fifo(FirstFind(start, end), replies))
  {
    var s := FirstFind(start, end);
    assert s.queue == [Find(start)] && UnresolvedOf(db[0..0]) == [] && FoundOf(db[..0]) == [];
    SearchCompletes(db, s, 0, 0, replies);
  }

  // ---------------------------------------------------------------- the callbacks, in place

  class IncludedDiscovery {
    var refs: int
    var err: uint8
    var startHandle: uint16
    const endHandle: uint16
    var includes: seq<Include>
    /** Requests that are not answered yet, and how many searches were sent in all. */
    var queue: seq<Request>
    var finds: nat
    var calls: seq<Call>

    function Value(): Isd
      reads this
    {
      Isd(refs, err, startHandle, endHandle, includes, queue, calls, finds)
    }

    constructor (start: uint16, end: uint16)
      ensures Value() == FirstFind(start, end)
    {
      refs, err, startHandle, endHandle := 0, 0, start, end;
      includes, queue, finds, calls := [], [], 0, [];
      new;
      FindIncluded(start);
    }

    method FindIncluded(start: uint16)
      modifies this
      ensures Value() == SendFind(old(Value()), start)
    {
      refs := refs + 1;
      queue := queue + [Find(start)];
      finds := finds + 1;
    }

    method ResolveIncludedUuid(incl: Include)
      modifies this
      ensures Value() == SendResolve(old(Value()), incl)
    {
      refs := refs + 1;
      queue := queue + [Resolve(incl)];
    }

    method IsdUnref()
      modifies this
      ensures Value() == Unref(old(Value()))
    {
      refs := refs - 1;
      if refs > 0 { return; }
      calls := calls + [Call(err, if err != 0 then [] else includes)];
    }

    method FindIncludedCb(reply: Reply)
      requires reply.Valid()
      modifies this
      ensures Value() == OnFind(old(Value()), reply)
    {
      var code: uint8 := 0;
      if reply.Error? {
        code := if reply.code == ATT_ECODE_ATTR_NOT_FOUND then 0 else reply.code;
      } else {
        code := FindIncludedPdu(reply.pdu);
      }
      if err == 0 { err := code; }
    }

    /** The part of `find_included_cb` that reads the response. */
    method FindIncludedPdu(pdu: octets) returns (code: uint8)
      requires pdu != []
      modifies this
      ensures Note(Value(), code) == OnFind(old(Value()), Pdu(pdu))
    {
      hide DecList, Slices, Uuid128, TakeIncludes;
      var list := DecReadByTypeResp(pdu);
      if list.None? { return ATT_ECODE_IO; }
      if list.value.len != 6 && list.value.len != 8 { return ATT_ECODE_IO; }
      Decoded(ATT_OP_READ_BY_TYPE_RESP, 5, 3, pdu);
      var entries := list.value.data;
      assert forall i :: 0 <= i < |entries| ==> |entries[i]| == 6 || |entries[i]| == 8;
      TakeIncludesCounts(Value(), entries);
      var lastHandle := endHandle;
      NoneTaken(Value());
      for i := 0 to |entries|
        invariant Value() == TakeIncludes(old(Value()), entries[..i])
        invariant i > 0 ==> lastHandle == GetLe16(entries[i - 1], 0)
      {
        OneTaken(old(Value()), entries[..i + 1]);
        assert entries[..i + 1][..i] == entries[..i];
        var incl := IncludeOf(entries[i]);
        lastHandle := incl.handle;
        if list.value.len == 6 {
          ResolveIncludedUuid(incl);
        } else {
          includes := includes + [incl];
        }
      }
      assert entries[..|entries|] == entries;
      if lastHandle < startHandle {
        err := ATT_ECODE_UNLIKELY;
        return 0;
      }
      startHandle := Wrap16(lastHandle as int + 1);
      if lastHandle < endHandle { FindIncluded(startHandle); }
      return 0;
    }

    method ResolveIncludedUuidCb(incl: Include, reply: Reply)
      requires reply.Valid()
      modifies this
      ensures Value() == OnResolve(old(Value()), incl, reply)
    {
      var code: uint8 := if reply.Error? then reply.code else 0;
      if reply.Pdu? {
        if reply.pdu[0] != ATT_OP_READ_RESP || |reply.pdu| != 17 {
          code := ATT_ECODE_IO;
        } else {
          includes := includes + [incl.(uuid := Uuid128(reply.pdu[1..]))];
        }
      }
      if err == 0 { err := code; }
    }

    /** The request at position `i` is answered: its callback runs, and then its reference goes. */
    method Answered(i: nat, reply: Reply)
      requires i < |queue| && reply.Valid()
      modifies this
      ensures Value() == Answer(old(Value()), i, reply)
    {
      var request := queue[i];
      queue := queue[..i] + queue[i + 1..];
      match request {
        case Find(_) => FindIncludedCb(reply);
        case Resolve(incl) => ResolveIncludedUuidCb(incl, reply);
      }
      IsdUnref();
    }
  }
}
