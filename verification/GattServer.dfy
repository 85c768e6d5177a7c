/**
 * Discovery against a server that answers by the rules: from the entries at or after the requested
 * handle it packs any non-empty run of equal length into a response.
 */
module GattServer {
  import opened Bytes
  import opened AttCodec
  import opened GattLong
  import opened GattDiscover

  /** An entry of a response: the handles it covers, its octets, and what the client makes of it. */
  datatype Entry = Entry(first: uint16, last: uint16, wire: octets, found: Found)

  function ServiceEntry(start: uint16, end: uint16, uuid: octets): Entry
  {
    Entry(start, end, PutLe16(start) + PutLe16(end) + uuid, Service(start, end, Uuid128(uuid)))
  }

  function HandlesEntry(start: uint16, end: uint16): Entry
  {
    Entry(start, end, PutLe16(start) + PutLe16(end), Handles(start, end))
  }

  function CharacteristicEntry(handle: uint16, properties: uint8, valueHandle: uint16, uuid: octets): Entry
  {
    Entry(handle, handle, PutLe16(handle) + [properties] + PutLe16(valueHandle) + uuid,
          Characteristic(handle, properties, valueHandle, Uuid128(uuid)))
  }

  function DescriptorEntry(handle: uint16, uuid: octets): Entry
  {
    Entry(handle, handle, PutLe16(handle) + uuid, Descriptor(handle, Uuid128(uuid)))
  }

  /** The entry is one of the kind that the procedure asks for. */
  ghost predicate Fits(proc: Procedure, e: Entry)
  {
    match proc
    case AllPrimary => exists u :: IsUuid(u) && e == ServiceEntry(e.first, e.last, u)
    case PrimaryByUuid => e == HandlesEntry(e.first, e.last)
    case Characteristics(end, _) =>
      e.first <= end && exists p, v, u :: IsUuid(u) && e == CharacteristicEntry(e.first, p, v, u)
    case Descriptors(end, _) =>
      e.first <= end && exists u :: IsUuid(u) && e == DescriptorEntry(e.first, u)
  }

  /** The last handle that the requests of a procedure ask for. */
  function LastHandle(proc: Procedure): uint16
  {
    match proc
    case AllPrimary => 0xffff
    case PrimaryByUuid => 0xffff
    case Characteristics(end, _) => end
    case Descriptors(end, _) => end
  }

  /**
   * Entries in handle order that do not overlap. The value of a characteristic follows its declaration,
   * so that there is a handle between the last two if the last is where the search ends.
   */
  ghost predicate WellFormed(proc: Procedure, db: seq<Entry>)
  {
    && (forall i :: 0 <= i < |db| ==> Fits(proc, db[i]) && 1 <= db[i].first <= db[i].last)
    && (forall i, j :: 0 <= i < j < |db| ==> db[i].last < db[j].first)
    && (proc.Characteristics? ==>
          forall i, j :: 0 <= i < j < |db| && db[j].first == proc.end ==> db[i].last + 1 < proc.end)
  }

  function Wires(es: seq<Entry>): (r: seq<octets>)
    ensures |r| == |es| && forall i :: 0 <= i < |r| ==> r[i] == es[i].wire
  {
    seq(|es|, i requires 0 <= i < |es| => es[i].wire)
  }

  predicate SameLength(es: seq<Entry>) { forall i :: 0 <= i < |es| ==> |es[i].wire| == |es[0].wire| }

  /** The response that carries `es`. */
  function Packed(proc: Procedure, es: seq<Entry>): octets
    requires es != [] && 3 <= |es[0].wire| <= 0xff
  {
    var body := Flat(Wires(es));
    match proc
    case AllPrimary => [ATT_OP_READ_BY_GROUP_RESP, |es[0].wire|] + body
    case PrimaryByUuid => [ATT_OP_FIND_BY_TYPE_RESP] + body
    case Characteristics(_, _) => [ATT_OP_READ_BY_TYPE_RESP, |es[0].wire|] + body
    case Descriptors(_, _) => [ATT_OP_FIND_INFO_RESP, if |es[0].wire| == 4 then 0x01 else 0x02] + body
  }

  /** The range of a request is one that a server accepts. */
  predicate RangeValid(proc: Procedure, start: uint16) { 0 < start <= LastHandle(proc) }

  /** A legal answer to a request from `start` on. */
  ghost predicate Legal(proc: Procedure, db: seq<Entry>, start: uint16, reply: Reply)
    requires WellFormed(proc, db)
  {
    if !RangeValid(proc, start) then reply == Error(ATT_ECODE_INVALID_HANDLE) else
    || (reply == Error(ATT_ECODE_ATTR_NOT_FOUND) && forall i :: 0 <= i < |db| ==> db[i].first < start)
    || (exists i, n :: LegalRun(db, start, i, n) && reply == Pdu(PackedRun(proc, db, i, n)))
  }

  /** The `n` entries from index `i` are the first ones at or after `start`, and as long as each other. */
  ghost predicate LegalRun(db: seq<Entry>, start: uint16, i: nat, n: nat)
  {
    && 0 < n && i + n <= |db| && SameLength(db[i..i + n])
    && db[i].first >= start && forall j :: 0 <= j < i ==> db[j].first < start
  }

  function PackedRun(proc: Procedure, db: seq<Entry>, i: nat, n: nat): octets
  {
    if 0 < n && i + n <= |db| && 3 <= |db[i].wire| <= 0xff then Packed(proc, db[i..i + n]) else []
  }

  // ---------------------------------------------------------------- one response

  predicate Matching(proc: Procedure, e: Entry)
  {
    match proc
    case Characteristics(_, only) => !e.found.Characteristic? || Wanted(only, e.found.uuid)
    case Descriptors(_, only) => !e.found.Descriptor? || Wanted(only, e.found.uuid)
    case _ => true
  }

  /** A search for the descriptor with one UUID, which ends when it has found one. */
  predicate ForOne(proc: Procedure) { proc.Descriptors? && proc.only.Some? }

  /** What a search keeps of the entries that it sees. */
  function Kept(proc: Procedure, es: seq<Entry>): seq<Found>
  {
    if es == [] then []
    else
      var n := |es| - 1;
      var before := Kept(proc, es[..n]);
      if !Matching(proc, es[n]) || (ForOne(proc) && before != []) then before else before + [es[n].found]
  }

  lemma {:induction false} KeptConcat(proc: Procedure, a: seq<Entry>, b: seq<Entry>)
    ensures Kept(proc, a + b)
         == if ForOne(proc) && Kept(proc, a) != [] then Kept(proc, a) else Kept(proc, a) + Kept(proc, b)
  {
    hide Matching;
    if b == [] {
      assert a + b == a;
    } else {
      var n := |b| - 1;
      KeptConcat(proc, a, b[..n]);
      assert (a + b)[..|a + b| - 1] == a + b[..n];
    }
  }

  /** There is more to look for behind handle `last`. */
  predicate MoreAfter(proc: Procedure, last: uint16)
  {
    match proc
    case AllPrimary => last != 0xffff
    case PrimaryByUuid => last != 0xffff
    case Characteristics(end, _) => last == 0xffff || last + 1 < end
    case Descriptors(end, _) => last < end
  }

  predicate GoesOn(proc: Procedure, es: seq<Entry>)
    requires es != []
  {
    MoreAfter(proc, es[|es| - 1].last) && !(ForOne(proc) && Kept(proc, es) != [])
  }

  /** The response has been taken: its entries are kept, and the search goes on behind them or has ended well. */
  ghost predicate TookAll(d: Discovery, es: seq<Entry>, d': Discovery)
    requires es != []
  {
    && d'.proc == d.proc && d'.found == d.found + Kept(d.proc, es)
    && (if GoesOn(d.proc, es) then d'.pending && d'.start == Wrap16(es[|es| - 1].last + 1) && d'.calls == d.calls
        else !d'.pending && d'.calls == d.calls + [0])
  }

  lemma {:induction false} KeptAll(proc: Procedure, es: seq<Entry>)
    requires proc.AllPrimary? || proc.PrimaryByUuid?
    ensures |Kept(proc, es)| == |es| && forall i :: 0 <= i < |es| ==> Kept(proc, es)[i] == es[i].found
  {
    if es != [] { KeptAll(proc, es[..|es| - 1]); }
  }

  lemma GroupsTaken(d: Discovery, es: seq<Entry>)
    requires d.proc.AllPrimary? && d.pending && es != [] && SameLength(es)
    requires (forall i :: 0 <= i < |es| ==> Fits(d.proc, es[i])) && es[|es| - 1].last >= d.start
    ensures 3 <= |es[0].wire| <= 0xff && Packed(d.proc, es) != []
    ensures TookAll(d, es, On(d, Pdu(Packed(d.proc, es))))
  {
    hide DecList, Flat, Slices, Kept, Uuid128, ServiceOf, Fits;
    ServiceDecodes(es[|es| - 1]);
    forall i | 0 <= i < |es| ensures (|es[i].wire| == 6 || |es[i].wire| == 20) && ServiceOf(es[i].wire) == es[i].found {
      ServiceDecodes(es[i]);
    }
    ListDecodes(ATT_OP_READ_BY_GROUP_RESP, 7, 5, Wires(es), |es[0].wire|);
    KeptAll(d.proc, es);
    assert ServicesOf(Wires(es)) == Kept(d.proc, es);
  }

  lemma ServiceDecodes(e: Entry)
    requires Fits(AllPrimary, e)
    ensures (|e.wire| == 6 || |e.wire| == 20) && ServiceOf(e.wire) == e.found && e.found.end == e.last
  {
    var u :| IsUuid(u) && e == ServiceEntry(e.first, e.last, u);
    assert e.wire[4..] == u;
    assert e.wire[0..2] == PutLe16(e.first) && e.wire[2..4] == PutLe16(e.last);
  }

  lemma RangesTaken(d: Discovery, es: seq<Entry>)
    requires d.proc.PrimaryByUuid? && d.pending && es != [] && SameLength(es)
    requires (forall i :: 0 <= i < |es| ==> Fits(d.proc, es[i])) && es[|es| - 1].last >= d.start
    ensures 3 <= |es[0].wire| <= 0xff && Packed(d.proc, es) != []
    ensures TookAll(d, es, On(d, Pdu(Packed(d.proc, es))))
  {
    hide DecFindByType, Flat, Slices, Kept;
    var ranges := seq(|es|, i requires 0 <= i < |es| => Range(es[i].first, es[i].last));
    forall i | 0 <= i < |es|
      ensures es[i].wire == RangeOctets(ranges[i]) && es[i].found == Handles(es[i].first, es[i].last)
    {
      assert Fits(d.proc, es[i]);
    }
    assert Wires(es) == RangeEntries(ranges);
    DecPacked(RangeEntries(ranges));
    RangesRoundTrip(ranges);
    KeptAll(d.proc, es);
    assert HandlesOf(ranges) == Kept(d.proc, es);
  }

  /** Entries of either length are read as they are, whatever lies behind them. */
  lemma ReadWhole(entries: seq<octets>, short: nat, long: nat, stray: Stray)
    requires long <= short + 18 && forall i :: 0 <= i < |entries| ==> |entries[i]| == short || |entries[i]| == long
    ensures ReadAll(entries, short, long, stray) == entries
  {
  }

  lemma DeclarationsTaken(d: Discovery, es: seq<Entry>)
    requires d.proc.Characteristics? && d.pending && es != [] && SameLength(es)
    requires (forall i :: 0 <= i < |es| ==> Fits(d.proc, es[i])) && es[|es| - 1].last >= d.start
    requires es[|es| - 1].first >= 1
    ensures 3 <= |es[0].wire| <= 0xff && Packed(d.proc, es) != []
    ensures TookAll(d, es, On(d, Pdu(Packed(d.proc, es))))
  {
    hide DecList, Flat, Slices, Kept, Uuid128, CharacteristicOf, ReadAll;
    forall i | 0 <= i < |es| ensures
      && (|es[i].wire| == 7 || |es[i].wire| == 21)
      && CharacteristicOf(es[i].wire) == es[i].found && es[i].last <= d.proc.end
    {
      DeclarationDecodes(d.proc, es[i]);
    }
    ListDecodes(ATT_OP_READ_BY_TYPE_RESP, 5, 3, Wires(es), |es[0].wire|);
    DeclarationDecodes(d.proc, es[|es| - 1]);
    ReadWhole(Wires(es), 7, 21, d.stray);
    KeptDeclarations(d.proc, es);
  }

  lemma DeclarationDecodes(proc: Procedure, e: Entry)
    requires proc.Characteristics? && Fits(proc, e)
    ensures (|e.wire| == 7 || |e.wire| == 21) && CharacteristicOf(e.wire) == e.found
    ensures GetLe16(e.wire, 0) == e.first == e.last <= proc.end
  {
    var p, v, u :| IsUuid(u) && e == CharacteristicEntry(e.first, p, v, u);
    assert e.wire[5..] == u;
    assert e.wire[0..2] == PutLe16(e.first) && e.wire[3..5] == PutLe16(v);
  }

  lemma {:induction false} KeptDeclarations(proc: Procedure, es: seq<Entry>)
    requires proc.Characteristics?
    requires forall i :: 0 <= i < |es| ==>
               (|es[i].wire| == 7 || |es[i].wire| == 21) && CharacteristicOf(es[i].wire) == es[i].found
    ensures CharacteristicsOf(Wires(es), proc.only) == Kept(proc, es)
  {
    if es != [] {
      var n := |es| - 1;
      KeptDeclarations(proc, es[..n]);
      assert Wires(es)[..n] == Wires(es[..n]);
    }
  }

  lemma InformationTaken(d: Discovery, es: seq<Entry>)
    requires d.proc.Descriptors? && d.pending && es != [] && SameLength(es)
    requires (forall i :: 0 <= i < |es| ==> Fits(d.proc, es[i]) && es[i].last >= d.start)
    ensures 3 <= |es[0].wire| <= 0xff && Packed(d.proc, es) != [] && Readable(d.proc, Pdu(Packed(d.proc, es)))
    ensures TookAll(d, es, On(d, Pdu(Packed(d.proc, es))))
  {
    hide DecFindInfo, Flat, Slices, Kept, Uuid128, DescriptorOf, ReadAll, DescriptorsOf, LastLooked;
    forall i | 0 <= i < |es| ensures
      && (|es[i].wire| == 4 || |es[i].wire| == 18)
      && DescriptorOf(es[i].wire) == es[i].found && es[i].found.handle == es[i].last
    {
      InformationDecodes(d.proc, es[i]);
    }
    InfoListDecodes(Packed(d.proc, es)[1], Wires(es));
    ReadWhole(Wires(es), 4, 18, d.stray);
    KeptDescriptors(d.proc, es, d.start);
  }

  lemma InfoListDecodes(format: uint8, entries: seq<octets>)
    requires entries != [] && forall i :: 0 <= i < |entries| ==> |entries[i]| == InfoLength(format)
    ensures DecFindInfo([ATT_OP_FIND_INFO_RESP, format] + Flat(entries)) == Some(DataList(InfoLength(format), entries))
  {
    hide Flat, Slices;
    var pdu, l := [ATT_OP_FIND_INFO_RESP, format] + Flat(entries), InfoLength(format);
    FlatLength(entries, l);
    ExactlyCounted(|entries|, l);
    assert pdu[2..] == Flat(entries) + [];
    SlicesOfFlat(entries, l, []);
  }

  lemma InformationDecodes(proc: Procedure, e: Entry)
    requires proc.Descriptors? && Fits(proc, e)
    ensures (|e.wire| == 4 || |e.wire| == 18) && DescriptorOf(e.wire) == e.found && e.found.handle == e.last == e.first
  {
    var u :| IsUuid(u) && e == DescriptorEntry(e.first, u);
    assert e.wire[2..] == u && e.wire[0..2] == PutLe16(e.first);
  }

  lemma {:induction false} KeptDescriptors(proc: Procedure, es: seq<Entry>, start: uint16)
    requires proc.Descriptors? && es != []
    requires forall i :: 0 <= i < |es| ==>
               && (|es[i].wire| == 4 || |es[i].wire| == 18) && es[i].last >= start
               && DescriptorOf(es[i].wire) == es[i].found && es[i].found.handle == es[i].last
    ensures DescriptorsOf(Wires(es), proc.only) == Kept(proc, es)
    ensures !(ForOne(proc) && Kept(proc, es) != []) ==> LastLooked(Wires(es), proc.only) == es[|es| - 1].last
    ensures LastLooked(Wires(es), proc.only) >= start
    decreases |es|
  {
    hide Kept, DescriptorOf, Uuid128, Flat, Slices, DescriptorsOf, LastLooked, Matching;
    FirstLooked(Wires(es), proc.only);
    NoneLooked(proc.only);
    KeptFront(proc, es);
    DescriptorMatches(proc, es[0]);
    assert Wires(es)[1..] == Wires(es[1..]);
    if |es| > 1 {
      KeptDescriptors(proc, es[1..], start);
    }
  }

  lemma DescriptorMatches(proc: Procedure, e: Entry)
    requires proc.Descriptors? && e.found.Descriptor?
    ensures Matching(proc, e) <==> proc.only.None? || proc.only.value == e.found.uuid
  {
  }

  /** What is kept of a list, by its first entry. */
  lemma KeptFront(proc: Procedure, es: seq<Entry>)
    requires es != []
    ensures Kept(proc, es) == if !Matching(proc, es[0]) then Kept(proc, es[1..])
                              else if ForOne(proc) then [es[0].found] else [es[0].found] + Kept(proc, es[1..])
    ensures |es| == 1 ==> Kept(proc, es[1..]) == []
  {
    hide Matching, Kept;
    assert es == [es[0]] + es[1..];
    KeptConcat(proc, [es[0]], es[1..]);
    KeptSingle(proc, es[0]);
    KeptNothing(proc);
    assert |es| == 1 ==> es[1..] == [];
  }

  lemma KeptSingle(proc: Procedure, e: Entry)
    ensures Kept(proc, [e]) == if Matching(proc, e) then [e.found] else []
  {
    assert [e][..0] == [];
  }

  lemma KeptNothing(proc: Procedure)
    ensures Kept(proc, []) == []
  {
  }

  lemma Taken(d: Discovery, es: seq<Entry>)
    requires d.pending && es != [] && SameLength(es)
    requires (forall i :: 0 <= i < |es| ==> Fits(d.proc, es[i]) && es[i].last >= d.start && es[i].first >= 1)
    ensures 3 <= |es[0].wire| <= 0xff && Readable(d.proc, Pdu(Packed(d.proc, es)))
    ensures TookAll(d, es, On(d, Pdu(Packed(d.proc, es))))
  {
    match d.proc
    case AllPrimary => GroupsTaken(d, es);
    case PrimaryByUuid => RangesTaken(d, es);
    case Characteristics(_, _) => DeclarationsTaken(d, es);
    case Descriptors(_, _) => InformationTaken(d, es);
  }

  // ---------------------------------------------------------------- whole searches

  /** Every response is a legal answer to the request it answers. */
  ghost predicate LegalReplies(db: seq<Entry>, d: Discovery, replies: seq<Reply>)
    requires WellFormed(d.proc, db)
    decreases |replies|
  {
    replies != [] && d.pending ==>
      && Legal(d.proc, db, d.start, replies[0])
      && Readable(d.proc, replies[0])
      && (ProcKept(d, replies[0]); LegalReplies(db, On(d, replies[0]), replies[1..]))
  }

  function AfterRun(d: Discovery, replies: seq<Reply>): Discovery
    decreases |replies|
  {
    if replies == [] || !d.pending || !Readable(d.proc, replies[0]) then d
    else AfterRun(On(d, replies[0]), replies[1..])
  }

  /** A search that has seen the first `i` entries, and all of them, and has not found the one it is for. */
  ghost predicate Seen(db: seq<Entry>, d: Discovery, i: nat)
    requires i <= |db|
  {
    && d.pending && d.calls == [] && d.found == Kept(d.proc, db[..i]) && !(ForOne(d.proc) && d.found != [])
    && RangeValid(d.proc, d.start)
    && (forall j :: 0 <= j < i ==> db[j].last < d.start)
    && (forall j :: i <= j < |db| ==> d.start <= db[j].first)
    && (i == 0 || MoreAfter(d.proc, db[i - 1].last))
  }

  /** A declaration is at the last handle of all. */
  predicate DeclaredLast(proc: Procedure, db: seq<Entry>)
  {
    proc.Characteristics? && exists e :: e in db && e.last == 0xffff
  }

  /** The search that a declaration at the last handle sends back to handle 0. */
  predicate Wrapped(db: seq<Entry>, d: Discovery)
  {
    d.pending && d.calls == [] && d.found == Kept(d.proc, db) && d.start == 0 && DeclaredLast(d.proc, db)
  }

  /**
   * How a search ends: by a server's error after a declaration at the last handle of all, and otherwise
   * well, unless it has found nothing and reached no end of its own.
   */
  function FinalCode(proc: Procedure, db: seq<Entry>): uint8
  {
    if DeclaredLast(proc, db) then ATT_ECODE_INVALID_HANDLE
    else if proc.AllPrimary? || proc.PrimaryByUuid? || Kept(proc, db) != [] then 0
    else if db != [] && !MoreAfter(proc, db[|db| - 1].last) then 0
    else ATT_ECODE_ATTR_NOT_FOUND
  }

  /** The user has been called back once, with everything that there is. */
  predicate Complete(db: seq<Entry>, d: Discovery)
  {
    !d.pending && d.found == Kept(d.proc, db) && d.calls == [FinalCode(d.proc, db)]
  }

  /** A legal answer to a search that has seen `i` entries starts with entry `i`. */
  lemma NextRun(db: seq<Entry>, d: Discovery, i: nat, reply: Reply) returns (n: nat)
    requires WellFormed(d.proc, db) && i <= |db| && Seen(db, d, i) && Legal(d.proc, db, d.start, reply)
    ensures i == |db| ==> reply == Error(ATT_ECODE_ATTR_NOT_FOUND)
    ensures i < |db| ==> 0 < n && i + n <= |db| && SameLength(db[i..i + n]) && reply == Pdu(PackedRun(d.proc, db, i, n))
  {
    hide Kept, PackedRun, SameLength, Fits, MoreAfter;
    n := 0;
    var here := if i < |db| then db[i].first else d.start;
    if reply == Error(ATT_ECODE_ATTR_NOT_FOUND) && forall k :: 0 <= k < |db| ==> db[k].first < d.start {
      assert here >= d.start;
    } else {
      var i': nat, n': nat :| LegalRun(db, d.start, i', n') && reply == Pdu(PackedRun(d.proc, db, i', n'));
      SameIndex(d.proc, db, d, i, i', n');
      n := n';
    }
  }

  lemma SameIndex(proc: Procedure, db: seq<Entry>, d: Discovery, i: nat, i': nat, n: nat)
    requires WellFormed(proc, db) && i <= |db| && Seen(db, d, i) && LegalRun(db, d.start, i', n)
    ensures i' == i
  {
    hide Kept, SameLength, Fits, MoreAfter;
    var here, there := if i < |db| then db[i].first else d.start, db[i'].last;
    assert here >= d.start && there >= db[i'].first;
  }

  /** The response with one more run has been taken. */
  ghost predicate TookRun(db: seq<Entry>, d: Discovery, i: nat, n: nat, d': Discovery)
    requires i + n <= |db| && 0 < n
  {
    && d'.proc == d.proc && d'.found == Kept(d.proc, db[..i + n])
    && (if GoesOn(d.proc, db[i..i + n])
        then d'.pending && d'.start == Wrap16(db[i + n - 1].last + 1) && d'.calls == []
        else !d'.pending && d'.calls == [0])
  }

  lemma RunTook(db: seq<Entry>, d: Discovery, i: nat, n: nat)
    requires WellFormed(d.proc, db) && i + n <= |db| && 0 < n && Seen(db, d, i) && SameLength(db[i..i + n])
    ensures var reply := Pdu(PackedRun(d.proc, db, i, n));
            Readable(d.proc, reply) && TookRun(db, d, i, n, On(d, reply))
  {
    hide Kept, TookAll, Packed, On, Fits, MoreAfter, GoesOn;
    var es := db[i..i + n];
    Taken(d, es);
    KeptConcat(d.proc, db[..i], es);
    assert db[..i] + es == db[..i + n] && es[n - 1] == db[i + n - 1];
    TookOpen(d, es, On(d, Pdu(Packed(d.proc, es))));
  }

  /** One more run: the search has seen it, or has wrapped behind it, or is complete. */
  lemma RunTaken(db: seq<Entry>, d: Discovery, i: nat, n: nat, d': Discovery)
    requires WellFormed(d.proc, db) && i + n <= |db| && 0 < n && Seen(db, d, i) && TookRun(db, d, i, n, d')
    ensures Seen(db, d', i + n) || (i + n == |db| && Wrapped(db, d')) || Complete(db, d')
  {
    hide Kept, Fits, MoreAfter, WellFormed;
    var es := db[i..i + n];
    KeptConcat(d.proc, db[..i], es);
    assert db[..i] + es == db[..i + n] && es[n - 1] == db[i + n - 1];
    if !GoesOn(d.proc, es) {
      RunEnds(db, d, i, n, d');
    } else if db[i + n - 1].last == 0xffff {
      LastOfAll(d.proc, db, i + n - 1);
      assert db[..i + n] == db && db[i + n - 1] in db;
    } else {
      GoesOnInRange(d.proc, db, i + n);
      BothSides(d.proc, db, i + n);
    }
  }

  lemma BothSides(proc: Procedure, db: seq<Entry>, i: nat)
    requires WellFormed(proc, db) && 0 < i <= |db|
    ensures forall j :: 0 <= j < i ==> db[j].last <= db[i - 1].last
    ensures forall j :: i <= j < |db| ==> db[i - 1].last < db[j].first
  {
    hide Fits;
  }

  lemma TookOpen(d: Discovery, es: seq<Entry>, d': Discovery)
    requires es != [] && TookAll(d, es, d')
    ensures d'.proc == d.proc && d'.found == d.found + Kept(d.proc, es)
    ensures if GoesOn(d.proc, es) then d'.pending && d'.start == Wrap16(es[|es| - 1].last + 1) && d'.calls == d.calls
            else !d'.pending && d'.calls == d.calls + [0]
  {
  }

  /** Nothing comes behind the last handle of all, and only a characteristic search goes on behind it. */
  lemma LastOfAll(proc: Procedure, db: seq<Entry>, k: nat)
    requires WellFormed(proc, db) && k < |db| && db[k].last == 0xffff
    ensures k == |db| - 1 && (MoreAfter(proc, 0xffff) ==> proc.Characteristics?)
  {
    hide Fits;
    var next: int := if k + 1 < |db| then db[k + 1].first else 0x1_0000;
    assert next > db[k].last;
  }

  lemma GoesOnInRange(proc: Procedure, db: seq<Entry>, i: nat)
    requires WellFormed(proc, db) && 0 < i <= |db| && MoreAfter(proc, db[i - 1].last) && db[i - 1].last != 0xffff
    ensures RangeValid(proc, Wrap16(db[i - 1].last + 1)) && Wrap16(db[i - 1].last + 1) == db[i - 1].last + 1
  {
  }

  /** A search that ends of itself has seen everything, or the one descriptor that it is for. */
  lemma RunEnds(db: seq<Entry>, d: Discovery, i: nat, n: nat, d': Discovery)
    requires WellFormed(d.proc, db) && i + n <= |db| && 0 < n
    requires !(ForOne(d.proc) && Kept(d.proc, db[..i]) != [])
    requires !GoesOn(d.proc, db[i..i + n]) && TookRun(db, d, i, n, d')
    ensures Complete(db, d')
  {
    hide Kept, MoreAfter, WellFormed, DeclaredLast;
    var es, seen := db[i..i + n], db[..i + n];
    KeptConcat(d.proc, db[..i], es);
    assert db[..i] + es == seen && es[n - 1] == db[i + n - 1];
    NothingMissed(d.proc, db, i + n);
    NotDeclaredLast(d.proc, db, i + n);
    KeptConcat(d.proc, seen, db[i + n..]);
    assert seen + db[i + n..] == db;
    assert i + n == |db| ==> seen == db;
  }

  lemma NotDeclaredLast(proc: Procedure, db: seq<Entry>, i: nat)
    requires WellFormed(proc, db) && 0 < i <= |db|
    ensures proc.Characteristics? && !MoreAfter(proc, db[i - 1].last) ==> !DeclaredLast(proc, db)
    ensures !proc.Characteristics? ==> !DeclaredLast(proc, db)
  {
    hide Fits;
    NothingMissed(proc, db, i);
    if e :| e in db && e.last == 0xffff {
      var k :| 0 <= k < |db| && db[k] == e;
      LastOfAll(proc, db, k);
    }
  }

  /** The search does not stop while there is an entry to come. */
  lemma NothingMissed(proc: Procedure, db: seq<Entry>, i: nat)
    requires WellFormed(proc, db) && 0 < i <= |db|
    ensures !MoreAfter(proc, db[i - 1].last) ==> i == |db|
  {
    if i < |db| {
      assert Fits(proc, db[i]) && Fits(proc, db[i - 1]) && db[i - 1].last < db[i].first;
    }
  }

  lemma {:induction false} SearchCompletes(db: seq<Entry>, d: Discovery, i: nat, replies: seq<Reply>)
    requires WellFormed(d.proc, db) && i <= |db| && Seen(db, d, i)
    requires LegalReplies(db, d, replies) && |replies| > |db| - i
    ensures Complete(db, AfterRun(d, replies)) && AfterRun(d, replies).proc == d.proc
    decreases |replies|
  {
    hide Kept, On, Legal, WellFormed, Complete, Seen, Wrapped;
    SeenPending(db, d, i);
    var n := NextRun(db, d, i, replies[0]);
    var d' := On(d, replies[0]);
    if i == |db| {
      NotFoundReported(db, d);
      Ended(db, d', replies[1..]);
    } else {
      RunTook(db, d, i, n);
      RunTaken(db, d, i, n, d');
      assert d'.proc == d.proc;
      if Seen(db, d', i + n) {
        SearchCompletes(db, d', i + n, replies[1..]);
      } else if Complete(db, d') {
        Ended(db, d', replies[1..]);
      } else {
        WrapReported(db, d', replies[1..]);
      }
    }
  }

  lemma SeenPending(db: seq<Entry>, d: Discovery, i: nat)
    requires i <= |db| && Seen(db, d, i)
    ensures d.pending
  {
  }

  lemma Ended(db: seq<Entry>, d: Discovery, replies: seq<Reply>)
    requires Complete(db, d)
    ensures AfterRun(d, replies) == d
  {
  }

  /** The request from handle 0 is refused, and the user gets the error. */
  lemma WrapReported(db: seq<Entry>, d: Discovery, replies: seq<Reply>)
    requires WellFormed(d.proc, db) && Wrapped(db, d) && LegalReplies(db, d, replies) && replies != []
    ensures Complete(db, AfterRun(d, replies)) && AfterRun(d, replies).proc == d.proc
  {
    hide Kept, Fits;
    Refused(db, d, replies);
  }

  lemma Refused(db: seq<Entry>, d: Discovery, replies: seq<Reply>)
    requires WellFormed(d.proc, db) && d.pending && !RangeValid(d.proc, d.start)
    requires LegalReplies(db, d, replies) && replies != []
    ensures AfterRun(d, replies) == Report(d, ATT_ECODE_INVALID_HANDLE)
  {
    hide WellFormed;
    assert replies[0] == Error(ATT_ECODE_INVALID_HANDLE);
    assert AfterRun(On(d, replies[0]), replies[1..]) == On(d, replies[0]);
  }

  lemma NotFoundReported(db: seq<Entry>, d: Discovery)
    requires WellFormed(d.proc, db) && Seen(db, d, |db|)
    ensures var d' := On(d, Error(ATT_ECODE_ATTR_NOT_FOUND)); Complete(db, d') && d'.proc == d.proc
  {
    hide Kept, Fits, MoreAfter;
    assert db[..|db|] == db;
    if db != [] { NotDeclaredLast(d.proc, db, |db|); }
    forall e | e in db ensures e.last != 0xffff {
      var k :| 0 <= k < |db| && db[k] == e;
    }
  }

  /**
   * For every well-formed database, and whatever legal packing the server chooses for each response,
   * the search ends after at most one response per entry and one more, and reports exactly the
   * entries of the database, in order, or the first descriptor that it is for. Only a range that no
   * server accepts, and characteristics declared at the last handle of all, make it fail.
   */
  lemma Discovered(proc: Procedure, start: uint16, stray: Stray, db: seq<Entry>, replies: seq<Reply>)
    requires WellFormed(proc, db) && forall j :: 0 <= j < |db| ==> start <= db[j].first
    requires LegalReplies(db, Begin(proc, start, stray), replies) && |replies| > |db|
    ensures var d := AfterRun(Begin(proc, start, stray), replies);
            if RangeValid(proc, start) then Complete(db, d) && d.proc == proc
            else d == Report(Begin(proc, start, stray), ATT_ECODE_INVALID_HANDLE)
  {
    if RangeValid(proc, start) {
      SearchCompletes(db, Begin(proc, start, stray), 0, replies);
    } else {
      Refused(db, Begin(proc, start, stray), replies);
    }
  }

  /** Whatever was found before, the user gets an error exactly if a declaration is at the last handle of all. */
  lemma FailsIffDeclaredLast(end: uint16, only: Option<octets>, start: uint16, stray: Stray, db: seq<Entry>,
                             replies: seq<Reply>)
    requires var proc := Characteristics(end, only);
             && WellFormed(proc, db) && (forall j :: 0 <= j < |db| ==> start <= db[j].first) && 0 < start <= end
             && LegalReplies(db, Begin(proc, start, stray), replies) && |replies| > |db|
             && Kept(proc, db) != []
    ensures var d := AfterRun(Begin(Characteristics(end, only), start, stray), replies);
            && d.calls != [0] <==> exists e :: e in db && e.first == 0xffff
  {
    var proc := Characteristics(end, only);
    hide Kept;
    Discovered(proc, start, stray, db, replies);
    forall e | e in db ensures e.first == e.last {
      var k :| 0 <= k < |db| && db[k] == e;
      assert Fits(proc, db[k]);
    }
  }
}
