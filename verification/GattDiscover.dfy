/** Service, characteristic and descriptor discovery, one response at a time. */
module GattDiscover {
  import opened Bytes
  import opened AttCodec
  import opened GattLong

  const ATT_ECODE_INVALID_HANDLE: uint8 := 0x01
  const ATT_ECODE_INVALID_PDU: uint8 := 0x04
  const ATT_ECODE_ATTR_NOT_FOUND: uint8 := 0x0A
  const ATT_ECODE_UNLIKELY: uint8 := 0x0E
  const ATT_ECODE_IO: uint8 := 0x80

  // ---------------------------------------------------------------- UUIDs

  /** A UUID as it travels: 2 or 16 octets, least significant first. */
  predicate IsUuid(wire: octets) { |wire| == 2 || |wire| == 16 }

  /** The Bluetooth Base UUID below its 16-bit part, in wire order. */
  const BASE_UUID: octets := [0xFB, 0x34, 0x9B, 0x5F, 0x80, 0x00, 0x00, 0x80, 0x00, 0x10, 0x00, 0x00]

  /** `get_uuid128`: every UUID is reported in its 128-bit form. */
  function Uuid128(wire: octets): octets { if |wire| == 2 then BASE_UUID + wire + [0, 0] else wire }

  /** Different 16-bit UUIDs stay different. */
  lemma Uuid128Injective(a: octets, b: octets)
    requires |a| == |b| && IsUuid(a) && Uuid128(a) == Uuid128(b)
    ensures a == b
  {
    if |a| == 2 {
      assert a == Uuid128(a)[12..14] && b == Uuid128(b)[12..14];
    }
  }

  // ---------------------------------------------------------------- the client

  datatype Found =
    | Service(start: uint16, end: uint16, uuid: octets)
    | Handles(start: uint16, end: uint16)
    | Characteristic(handle: uint16, properties: uint8, valueHandle: uint16, uuid: octets)
    | Descriptor(handle: uint16, uuid: octets)

  datatype Procedure =
    | AllPrimary
    | PrimaryByUuid
    | Characteristics(end: uint16, only: Option<octets>)
    | Descriptors(end: uint16, only: Option<octets>)

  /** The octets that memory holds behind an entry, which a callback reads with an entry that is too short. */
  type Stray = s: octets | |s| == 18 witness seq(18, _ => 0)

  /** `calls` are the error codes with which the user has been called back. */
  datatype Discovery = Discovery(
    proc: Procedure, start: uint16, found: seq<Found>, pending: bool, calls: seq<uint8>, stray: Stray)

  function Begin(proc: Procedure, start: uint16, stray: Stray): Discovery
  {
    Discovery(proc, start, [], true, [], stray)
  }

  function Report(d: Discovery, err: uint8): Discovery { d.(pending := false, calls := d.calls + [err]) }

  /** The found items of a response, and the handle that the search goes on after. */
  function Continue(d: Discovery, found: seq<Found>, last: uint16, more: bool): Discovery
  {
    var d' := d.(found := d.found + found);
    if last < d.start then Report(d', ATT_ECODE_UNLIKELY)
    else
      var next := d'.(start := Wrap16(last + 1));
      if more then next else Report(next, 0)
  }

  function ServiceOf(e: octets): Found
    requires |e| == 6 || |e| == 20
  {
    Service(GetLe16(e, 0), GetLe16(e, 2), Uuid128(e[4..]))
  }

  function ServicesOf(entries: seq<octets>): (r: seq<Found>)
    requires forall i :: 0 <= i < |entries| ==> |entries[i]| == 6 || |entries[i]| == 20
    ensures |r| == |entries|
  {
    seq(|entries|, i requires 0 <= i < |entries| => ServiceOf(entries[i]))
  }

  /** A decoded list has entries, all of its length. */
  lemma Decoded(op: uint8, minLen: nat, minEntry: nat, pdu: octets)
    requires pdu != [] && 2 < minLen && 0 < minEntry && DecList(op, minLen, minEntry, pdu).Some?
    ensures var list := DecList(op, minLen, minEntry, pdu).value;
            && list.data != [] && list.len >= minEntry
            && forall i :: 0 <= i < |list.data| ==> |list.data[i]| == list.len
  {
    var elen, n := pdu[1] as int, |pdu| - 2;
    assert (n / elen) * elen + n % elen == n;
  }

  /** `primary_all_cb` on a Read By Group Type Response. */
  function OnGroups(d: Discovery, pdu: octets): Discovery
    requires pdu != []
  {
    var list := DecReadByGroup(pdu);
    if list.None? then Report(d, ATT_ECODE_IO)
    else if list.value.len != 6 && list.value.len != 20 then Report(d, ATT_ECODE_INVALID_PDU)
    else
      Decoded(ATT_OP_READ_BY_GROUP_RESP, 7, 5, pdu);
      var found := ServicesOf(list.value.data);
      var last := found[|found| - 1].end;
      Continue(d, found, last, last != 0xffff)
  }

  function HandlesOf(ranges: seq<Range>): (r: seq<Found>)
    ensures |r| == |ranges|
  {
    seq(|ranges|, i requires 0 <= i < |ranges| => Handles(ranges[i].start, ranges[i].end))
  }

  /** `primary_by_uuid_cb` on a Find By Type Value Response, which reports end 0xffff before it looks at order. */
  function OnRanges(d: Discovery, pdu: octets): Discovery
  {
    var ranges := DecFindByType(pdu);
    if ranges == [] then Report(d, 0)
    else
      var last := ranges[|ranges| - 1].end;
      if last == 0xffff then Report(d.(found := d.found + HandlesOf(ranges)), 0)
      else Continue(d, HandlesOf(ranges), last, true)
  }

  function CharacteristicOf(e: octets): (c: Found)
    requires |e| == 7 || |e| == 21
    ensures c.Characteristic?
  {
    Characteristic(GetLe16(e, 0), e[2], GetLe16(e, 3), Uuid128(e[5..]))
  }

  /**
   * An entry as a callback reads it: with a 16-bit UUID if it is `short` octets long, and otherwise with
   * a 128-bit one, which makes `long` octets.
   */
  function Read(e: octets, short: nat, long: nat, stray: Stray): (r: octets)
    requires |e| + 18 >= long
    ensures |r| == short || |r| == long
    ensures |e| == short || |e| == long ==> r == e
  {
    if |e| == short then e else (e + stray)[..long]
  }

  function ReadAll(entries: seq<octets>, short: nat, long: nat, stray: Stray): (r: seq<octets>)
    requires forall i :: 0 <= i < |entries| ==> |entries[i]| + 18 >= long
    ensures |r| == |entries| && forall i :: 0 <= i < |r| ==> r[i] == Read(entries[i], short, long, stray)
  {
    seq(|entries|, i requires 0 <= i < |entries| => Read(entries[i], short, long, stray))
  }

  predicate Wanted(only: Option<octets>, uuid: octets) { only.None? || only.value == uuid }

  function CharacteristicsOf(entries: seq<octets>, only: Option<octets>): seq<Found>
    requires forall i :: 0 <= i < |entries| ==> |entries[i]| == 7 || |entries[i]| == 21
  {
    if entries == [] then []
    else
      var n := |entries| - 1;
      var c := CharacteristicOf(entries[n]);
      CharacteristicsOf(entries[..n], only) + if Wanted(only, c.uuid) then [c] else []
  }

  /** `char_discovered_cb` on a Read By Type Response. */
  function OnDeclarations(d: Discovery, pdu: octets): Discovery
    requires pdu != [] && d.proc.Characteristics?
  {
    var list := DecReadByType(pdu);
    if list.None? then Report(d, ATT_ECODE_IO)
    else
      Decoded(ATT_OP_READ_BY_TYPE_RESP, 5, 3, pdu);
      var entries := ReadAll(list.value.data, 7, 21, d.stray);
      var last := GetLe16(entries[|entries| - 1], 0);
      Continue(d, CharacteristicsOf(entries, d.proc.only), last, last != 0 && Wrap16(last + 1) < d.proc.end)
  }

  function DescriptorOf(e: octets): (c: Found)
    requires |e| == 4 || |e| == 18
    ensures c.Descriptor?
  {
    Descriptor(GetLe16(e, 0), Uuid128(e[2..]))
  }

  /** The descriptors of a list; a search for one UUID stops at the first match. */
  function DescriptorsOf(entries: seq<octets>, only: Option<octets>): seq<Found>
    requires forall i :: 0 <= i < |entries| ==> |entries[i]| == 4 || |entries[i]| == 18
  {
    if entries == [] then []
    else
      var c := DescriptorOf(entries[0]);
      if only.None? then [c] + DescriptorsOf(entries[1..], only)
      else if only.value == c.uuid then [c]
      else DescriptorsOf(entries[1..], only)
  }

  /** The last handle that the loop of `desc_discovered_cb` looked at. */
  function LastLooked(entries: seq<octets>, only: Option<octets>): uint16
    requires forall i :: 0 <= i < |entries| ==> |entries[i]| == 4 || |entries[i]| == 18
  {
    if entries == [] then 0xffff
    else
      var c := DescriptorOf(entries[0]);
      if |entries| == 1 || (only.Some? && only.value == c.uuid) then c.handle else LastLooked(entries[1..], only)
  }

  /** What the rest of a list comes to, by its first entry. */
  lemma FirstLooked(rest: seq<octets>, only: Option<octets>)
    requires rest != [] && forall i :: 0 <= i < |rest| ==> |rest[i]| == 4 || |rest[i]| == 18
    ensures var c, tail := DescriptorOf(rest[0]), rest[1..];
            if only.None? then
              && DescriptorsOf(rest, only) == [c] + DescriptorsOf(tail, only)
              && LastLooked(rest, only) == if tail == [] then c.handle else LastLooked(tail, only)
            else if only.value == c.uuid then
              DescriptorsOf(rest, only) == [c] && LastLooked(rest, only) == c.handle
            else
              && DescriptorsOf(rest, only) == DescriptorsOf(tail, only)
              && LastLooked(rest, only) == if tail == [] then c.handle else LastLooked(tail, only)
  {
    hide DescriptorOf;
  }

  lemma NoneLooked(only: Option<octets>)
    ensures DescriptorsOf([], only) == [] && LastLooked([], only) == 0xffff
  {
  }

  lemma DecodedInformation(pdu: octets)
    requires HasFormat(pdu) && DecFindInfo(pdu).Some?
    ensures forall i :: 0 <= i < |DecFindInfo(pdu).value.data| ==> |DecFindInfo(pdu).value.data[i]| >= 2
  {
  }

  /** `desc_discovered_cb` on a Find Information Response. */
  function OnInformation(d: Discovery, pdu: octets): Discovery
    requires HasFormat(pdu) && d.proc.Descriptors?
  {
    var list := DecFindInfo(pdu);
    if list.None? then Report(d, ATT_ECODE_IO)
    else
      DecodedInformation(pdu);
      var entries := ReadAll(list.value.data, 4, 18, d.stray);
      var found := DescriptorsOf(entries, d.proc.only);
      var last := LastLooked(entries, d.proc.only);
      Continue(d, found, last, last < d.proc.end && (d.proc.only.None? || found == []))
  }

  /** What a response of any server must be for a callback to make something of it. */
  predicate Readable(proc: Procedure, reply: Reply)
  {
    reply.Valid() && (reply.Pdu? && proc.Descriptors? ==> HasFormat(reply.pdu))
  }

  /** One callback of the procedure's request. */
  function On(d: Discovery, reply: Reply): Discovery
    requires d.pending && Readable(d.proc, reply)
  {
    if reply.Error? then
      if reply.code != ATT_ECODE_ATTR_NOT_FOUND then Report(d, reply.code)
      else if d.proc.AllPrimary? || d.proc.PrimaryByUuid? || d.found != [] then Report(d, 0)
      else Report(d, reply.code)
    else match d.proc
      case AllPrimary => OnGroups(d, reply.pdu)
      case PrimaryByUuid => OnRanges(d, reply.pdu)
      case Characteristics(_, _) => OnDeclarations(d, reply.pdu)
      case Descriptors(_, _) => OnInformation(d, reply.pdu)
  }

  lemma ProcKept(d: Discovery, reply: Reply)
    requires d.pending && Readable(d.proc, reply)
    ensures On(d, reply).proc == d.proc && On(d, reply).stray == d.stray
  {
  }

  // ---------------------------------------------------------------- against any server at all

  /** The client after a sequence of responses; once it has reported it listens no more. */
  function Run(d: Discovery, replies: seq<Reply>): Discovery
    requires forall r :: r in replies ==> Readable(d.proc, r)
    decreases |replies|
  {
    if replies == [] || !d.pending then d
    else
      ProcKept(d, replies[0]);
      Run(On(d, replies[0]), replies[1..])
  }

  /** A response whose last declaration is at the last handle of all. */
  predicate Wraps(proc: Procedure, reply: Reply)
    requires Readable(proc, reply)
  {
    proc.Characteristics? && reply.Pdu? && DecReadByType(reply.pdu).Some? &&
    (Decoded(ATT_OP_READ_BY_TYPE_RESP, 5, 3, reply.pdu);
     var data := DecReadByType(reply.pdu).value.data;
     GetLe16(data[|data| - 1], 0) == 0xffff)
  }

  /**
   * A search that goes on goes on strictly later, except after a declaration at the last handle of all,
   * which sends it back to handle 0, and which never ends it.
   */
  lemma StartGrows(d: Discovery, reply: Reply)
    requires d.pending && Readable(d.proc, reply)
    ensures On(d, reply).pending ==> (On(d, reply).start > d.start <==> !Wraps(d.proc, reply))
    ensures Wraps(d.proc, reply) ==> On(d, reply).start == 0 && (On(d, reply).pending <==> d.proc.end > 0)
    ensures On(d, reply).pending ==> On(d, reply).calls == d.calls
  {
    hide On, Wraps;
    if d.proc.Characteristics? { DeclarationsGrow(d, reply); } else { OthersGrow(d, reply); }
  }

  lemma OthersGrow(d: Discovery, reply: Reply)
    requires d.pending && Readable(d.proc, reply) && !d.proc.Characteristics?
    ensures On(d, reply).pending ==> On(d, reply).start > d.start && On(d, reply).calls == d.calls
    ensures !Wraps(d.proc, reply)
  {
    match d.proc
    case AllPrimary =>
    case PrimaryByUuid =>
    case Descriptors(_, _) =>
  }

  lemma DeclarationsGrow(d: Discovery, reply: Reply)
    requires d.pending && Readable(d.proc, reply) && d.proc.Characteristics?
    ensures On(d, reply).pending ==> (On(d, reply).start > d.start <==> !Wraps(d.proc, reply))
    ensures Wraps(d.proc, reply) ==> On(d, reply).start == 0 && (On(d, reply).pending <==> d.proc.end > 0)
    ensures On(d, reply).pending ==> On(d, reply).calls == d.calls
  {
    hide DecReadByType, ReadAll, CharacteristicsOf, OnDeclarations;
    if reply.Pdu? && DecReadByType(reply.pdu).Some? {
      DeclarationsLast(d, reply.pdu);
    } else if reply.Pdu? {
      NoDeclarations(d, reply.pdu);
    }
  }

  lemma NoDeclarations(d: Discovery, pdu: octets)
    requires d.proc.Characteristics? && pdu != [] && DecReadByType(pdu).None?
    ensures OnDeclarations(d, pdu) == Report(d, ATT_ECODE_IO)
  {
  }

  /** The last handle is read from the entry itself. */
  lemma DeclarationsLast(d: Discovery, pdu: octets)
    requires d.proc.Characteristics? && pdu != [] && DecReadByType(pdu).Some?
    ensures DecReadByType(pdu).value.data != []
    ensures forall e :: e in DecReadByType(pdu).value.data ==> |e| >= 3
    ensures var data := DecReadByType(pdu).value.data;
            var last := GetLe16(data[|data| - 1], 0);
            var found := CharacteristicsOf(ReadAll(data, 7, 21, d.stray), d.proc.only);
            OnDeclarations(d, pdu) == Continue(d, found, last, last != 0 && Wrap16(last + 1) < d.proc.end)
  {
    Decoded(ATT_OP_READ_BY_TYPE_RESP, 5, 3, pdu);
    hide DecList, CharacteristicsOf, Uuid128;
  }

  lemma Stops(d: Discovery, reply: Reply)
    requires d.pending && Readable(d.proc, reply) && !On(d, reply).pending
    ensures exists err :: On(d, reply).calls == d.calls + [err]
  {
  }

  /** How many responses send the search back to handle 0. */
  function WrapCount(proc: Procedure, replies: seq<Reply>): nat
    requires forall r :: r in replies ==> Readable(proc, r)
  {
    if replies == [] then 0 else (if Wraps(proc, replies[0]) then 1 else 0) + WrapCount(proc, replies[1..])
  }

  /**
   * Whatever a server answers, a discovery calls the user back at most once, and does so after at most
   * as many responses as there are handles from the first. Only characteristic discovery can take
   * longer, and only by that many again for every response that ends at the last handle of all.
   */
  lemma {:induction false} ReportsOnce(d: Discovery, replies: seq<Reply>)
    requires d.pending && d.calls == []
    requires forall r :: r in replies ==> Readable(d.proc, r)
    ensures var end := Run(d, replies);
            && (if end.pending then end.calls == [] else |end.calls| == 1)
            && (|replies| > 0xffff - d.start + 0x1_0000 * WrapCount(d.proc, replies) ==> !end.pending)
    ensures !d.proc.Characteristics? ==> WrapCount(d.proc, replies) == 0
    decreases |replies|
  {
    hide On, Wraps;
    if replies != [] {
      var next := On(d, replies[0]);
      ProcKept(d, replies[0]);
      OnlyDeclarationsWrap(d.proc, replies[0]);
      if next.pending {
        StartGrows(d, replies[0]);
        ReportsOnce(next, replies[1..]);
      } else {
        Stops(d, replies[0]);
        NoWraps(d.proc, replies[1..]);
      }
    }
  }

  lemma OnlyDeclarationsWrap(proc: Procedure, reply: Reply)
    requires Readable(proc, reply)
    ensures Wraps(proc, reply) ==> proc.Characteristics?
  {
  }

  lemma {:induction false} NoWraps(proc: Procedure, replies: seq<Reply>)
    requires forall r :: r in replies ==> Readable(proc, r)
    ensures !proc.Characteristics? ==> WrapCount(proc, replies) == 0
  {
    if replies != [] {
      OnlyDeclarationsWrap(proc, replies[0]);
      NoWraps(proc, replies[1..]);
    }
  }

  /** A response with one declaration, at the last handle of all. */
  const LAST_DECLARATION: octets := [0x09, 0x07, 0xff, 0xff, 0x02, 0xff, 0xff, 0x00, 0x2a]

  function Repeat(reply: Reply, n: nat): (r: seq<Reply>) ensures |r| == n && forall x :: x in r ==> x == reply
  {
    if n == 0 then [] else [reply] + Repeat(reply, n - 1)
  }

  lemma LastDeclarationWraps(proc: Procedure)
    requires proc.Characteristics?
    ensures Readable(proc, Pdu(LAST_DECLARATION)) && Wraps(proc, Pdu(LAST_DECLARATION))
  {
    var body := LAST_DECLARATION[2..];
    assert |LAST_DECLARATION| == 9 && LAST_DECLARATION[1] == 7;
    assert body[0..7] == body && Slices(body, 7, 0) == [];
    assert Slices(body, 7, 1) == [body];
    assert (|LAST_DECLARATION| - 2) % 7 == 0 && (|LAST_DECLARATION| - 2) / 7 == 1;
    assert LAST_DECLARATION[0] == ATT_OP_READ_BY_TYPE_RESP;
  }

  predicate KeepsGoing(d: Discovery, replies: seq<Reply>, n: nat)
  {
    |replies| == n && (forall r :: r in replies ==> Readable(d.proc, r)) && Run(d, replies).pending
  }

  /** Some server keeps the discovery going for so many responses. */
  ghost predicate CanLast(d: Discovery, n: nat) { exists replies: seq<Reply> :: KeepsGoing(d, replies, n) }

  lemma {:induction false} GoingOn(d: Discovery, n: nat)
    requires d.proc.Characteristics? && d.pending && d.proc.end > 0
    ensures KeepsGoing(d, Repeat(Pdu(LAST_DECLARATION), n), n)
    decreases n
  {
    hide On, Wraps;
    if n > 0 {
      var reply := Pdu(LAST_DECLARATION);
      LastDeclarationWraps(d.proc);
      StartGrows(d, reply);
      ProcKept(d, reply);
      GoingOn(On(d, reply), n - 1);
      assert Repeat(reply, n)[1..] == Repeat(reply, n - 1);
    }
  }

  /** Exactly the searches for characteristics can be kept going for ever, unless they look for none at all. */
  lemma EndlessIff(d: Discovery)
    requires d.pending && d.calls == []
    ensures (forall n: nat :: CanLast(d, n)) <==> d.proc.Characteristics? && d.proc.end > 0
  {
    hide Run, Readable, KeepsGoing;
    if d.proc.Characteristics? && d.proc.end > 0 {
      forall n: nat ensures CanLast(d, n) {
        GoingOn(d, n);
      }
    } else if CanLast(d, 0x1_0001) {
      var replies: seq<Reply> :| KeepsGoing(d, replies, 0x1_0001);
      NotThatLong(d, replies);
    }
  }

  lemma NotThatLong(d: Discovery, replies: seq<Reply>)
    requires d.pending && d.calls == [] && !(d.proc.Characteristics? && d.proc.end > 0)
    ensures !KeepsGoing(d, replies, 0x1_0001)
  {
    if |replies| == 0x1_0001 && forall r :: r in replies ==> Readable(d.proc, r) {
      if d.proc.Characteristics? {
        ProcKept(d, replies[0]);
        assert !On(d, replies[0]).pending;
        assert Run(d, replies) == Run(On(d, replies[0]), replies[1..]) == On(d, replies[0]);
      } else {
        ReportsOnce(d, replies);
      }
    }
  }
}
