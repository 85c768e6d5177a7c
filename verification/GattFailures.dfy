/** What the user is told when a server refuses, answers nonsense, or goes back: by the octets of its answer. */
module GattFailures {
  import opened Bytes
  import opened AttCodec
  import opened AttWire
  import opened GattLong
  import opened GattDiscover
  import Inc = GattIncluded

  // ---------------------------------------------------------------- UUIDs and the end of a list

  /** A 16-bit UUID is two octets of the Bluetooth Base UUID. */
  lemma BaseUuid(wire: octets)
    requires |wire| == 2
    ensures Uuid128(wire) == [0xFB, 0x34, 0x9B, 0x5F, 0x80, 0x00, 0x00, 0x80, 0x00, 0x10, 0x00, 0x00,
                              wire[0], wire[1], 0x00, 0x00]
  {
    assert wire == [wire[0], wire[1]];
  }

  /** A word at an offset of a PDU, low octet first. */
  function Word(pdu: octets, at: nat): nat
    requires at + 2 <= |pdu|
  {
    var lo: int, hi: int := pdu[at], pdu[at + 1];
    lo + 0x100 * hi
  }

  /** A PDU with a list of entries as long as its second octet says, and at least `min`. */
  predicate IsList(op: uint8, min: nat, pdu: octets)
    requires min > 0
  {
    |pdu| >= 2 + min && pdu[0] == op && min <= pdu[1] <= |pdu| - 2 && (|pdu| - 2) % pdu[1] == 0
  }

  lemma LastOfList(op: uint8, min: nat, pdu: octets)
    requires 2 <= min && IsList(op, min, pdu)
    ensures var list := DecList(op, 2 + min, min, pdu);
            && list.Some? && list.value.data != [] && list.value.len == pdu[1] <= |pdu| - 2
            && list.value.data[|list.value.data| - 1] == pdu[|pdu| - pdu[1]..]
  {
    var l: int, n := pdu[1], |pdu| - 2;
    CountedFits(n, l);
    Whole(n, l);
    var k := n / l;
    assert k > 0 && (k - 1) * l == n - l;
    assert Slices(pdu[2..], l, k)[k - 1] == pdu[2..][(k - 1) * l..k * l];
    assert pdu[2..][n - l..n] == pdu[|pdu| - l..];
  }

  lemma NotList(op: uint8, min: nat, pdu: octets)
    requires min > 0 && pdu != [] && !IsList(op, min, pdu)
    ensures DecList(op, 2 + min, min, pdu).None?
  {
    if |pdu| >= 2 + min && pdu[1] > |pdu| - 2 { SmallRemainder(|pdu| - 2, pdu[1]); }
  }

  lemma SmallRemainder(n: nat, l: nat)
    requires 0 < n < l
    ensures n % l != 0
  {
    assert n / l == 0;
  }

  // ---------------------------------------------------------------- discovery

  lemma {:induction false} RunOn(d: Discovery, before: seq<Reply>, after: seq<Reply>)
    requires forall r :: r in before + after ==> Readable(d.proc, r)
    ensures (forall r :: r in before ==> Readable(d.proc, r)) && Run(d, before).proc == d.proc
    ensures (forall r :: r in after ==> Readable(d.proc, r)) && Run(d, before + after) == Run(Run(d, before), after)
    decreases |before|
  {
    hide On, Readable;
    forall r | r in before ensures Readable(d.proc, r) { assert r in before + after; }
    forall r | r in after ensures Readable(d.proc, r) { assert r in before + after; }
    if before == [] {
      assert before + after == after;
    } else if d.pending {
      ProcKept(d, before[0]);
      assert (before + after)[1..] == before[1..] + after;
      RunOn(On(d, before[0]), before[1..], after);
    }
  }

  /** The search ended with this code, and with what had been found before. */
  predicate EndedAs(before: Discovery, end: Discovery, code: uint8)
  {
    !end.pending && end.found == before.found && end.calls == before.calls + [code]
  }

  /** The code that a refusal is reported with: none, if there is nothing more to find and that is no failure. */
  function RefusalCode(d: Discovery, code: uint8): uint8
  {
    if code == 0x0A && (d.proc.AllPrimary? || d.proc.PrimaryByUuid? || d.found != []) then 0 else code
  }

  /**
   * Whatever was answered before: a refusal ends the search with its code and with what had been found by
   * then, and Attribute Not Found is no failure for a service search, or once something has been found.
   */
  lemma RefusedDiscovery(d: Discovery, before: seq<Reply>, code: uint8, after: seq<Reply>)
    requires code != 0 && forall r :: r in before + ([Error(code)] + after) ==> Readable(d.proc, r)
    requires (forall r :: r in before ==> Readable(d.proc, r)) && Run(d, before).pending
    ensures var now := Run(d, before);
            EndedAs(now, Run(d, before + ([Error(code)] + after)), RefusalCode(now, code))
  {
    hide Readable, On, Run;
    RunOn(d, before, [Error(code)] + after);
    Refused(Run(d, before), code);
    EndsAtOnce(Run(d, before), Error(code), after);
  }

  lemma EndsAtOnce(d: Discovery, reply: Reply, after: seq<Reply>)
    requires d.pending && forall r :: r in [reply] + after ==> Readable(d.proc, r)
    requires Readable(d.proc, reply) && !On(d, reply).pending
    ensures Run(d, [reply] + after) == On(d, reply)
  {
    hide On, Readable;
    ProcKept(d, reply);
    assert ([reply] + after)[1..] == after;
  }

  lemma Refused(d: Discovery, code: uint8)
    requires code != 0 && d.pending
    ensures Readable(d.proc, Error(code)) && EndedAs(d, On(d, Error(code)), RefusalCode(d, code))
  {
  }

  /** The response is not one that the procedure can read, and this is what it makes of that. */
  predicate Nonsense(proc: Procedure, pdu: octets, code: uint8)
    requires pdu != []
  {
    match proc
    case AllPrimary =>
      (!IsList(0x11, 5, pdu) && code == 0x80) || (IsList(0x11, 5, pdu) && pdu[1] != 6 && pdu[1] != 20 && code == 0x04)
    case PrimaryByUuid => (|pdu| < 5 || pdu[0] != 0x07 || (|pdu| - 1) % 4 != 0) && code == 0
    case Characteristics(_, _) => !IsList(0x09, 3, pdu) && code == 0x80
    case Descriptors(_, _) => pdu[0] != 0x05 && code == 0x80
  }

  /** Such a response ends the search with that code, and nothing of it is kept. */
  lemma NonsenseDiscovery(d: Discovery, before: seq<Reply>, pdu: octets, code: uint8, after: seq<Reply>)
    requires pdu != [] && forall r :: r in before + ([Pdu(pdu)] + after) ==> Readable(d.proc, r)
    requires (forall r :: r in before ==> Readable(d.proc, r)) && Run(d, before).pending
    requires Nonsense(d.proc, pdu, code)
    ensures EndedAs(Run(d, before), Run(d, before + ([Pdu(pdu)] + after)), code)
  {
    hide Readable, On, Run, Nonsense;
    RunOn(d, before, [Pdu(pdu)] + after);
    assert Pdu(pdu) in [Pdu(pdu)] + after;
    NonsenseEnds(Run(d, before), pdu, code);
    EndsAtOnce(Run(d, before), Pdu(pdu), after);
  }

  lemma NonsenseEnds(d: Discovery, pdu: octets, code: uint8)
    requires d.pending && pdu != [] && Readable(d.proc, Pdu(pdu)) && Nonsense(d.proc, pdu, code)
    ensures EndedAs(d, On(d, Pdu(pdu)), code)
  {
    hide IsList, Slices;
    match d.proc
    case AllPrimary =>
      if IsList(0x11, 5, pdu) { LastOfList(0x11, 5, pdu); } else { NotList(0x11, 5, pdu); }
    case PrimaryByUuid => RangesAreWritten(pdu);
    case Characteristics(_, _) => NotList(0x09, 3, pdu);
    case Descriptors(_, _) =>
  }

  /** A response with descriptors of one length, none of them cut short. */
  predicate IsInformation(format: uint8, l: nat, pdu: octets)
    requires l > 0
  {
    |pdu| >= 2 + l && pdu[0] == 0x05 && pdu[1] == format && (|pdu| - 2) % l == 0
  }

  lemma LastInformation(format: uint8, l: nat, pdu: octets)
    requires l == InfoLength(format) && IsInformation(format, l, pdu)
    ensures var list := DecFindInfo(pdu);
            list.Some? && list.value.data != [] && list.value.data[|list.value.data| - 1] == pdu[|pdu| - l..]
  {
    var n := |pdu| - 2;
    CountedFits(n, l);
    Whole(n, l);
    var k := n / l;
    assert k > 0 && (k - 1) * l == n - l;
    assert Slices(pdu[2..], l, k)[k - 1] == pdu[2..][(k - 1) * l..k * l];
    assert pdu[2..][n - l..n] == pdu[|pdu| - l..];
  }

  lemma {:induction false} LastOfAll(entries: seq<octets>)
    requires entries != [] && forall i :: 0 <= i < |entries| ==> |entries[i]| == 4 || |entries[i]| == 18
    ensures LastLooked(entries, None) == GetLe16(entries[|entries| - 1], 0)
    decreases |entries|
  {
    if |entries| > 1 { LastOfAll(entries[1..]); }
  }

  /** A response with something in it; a search for one descriptor may end before its last entry. */
  predicate Listed(proc: Procedure, pdu: octets)
  {
    match proc
    case AllPrimary => IsList(0x11, 5, pdu) && (pdu[1] == 6 || pdu[1] == 20)
    case PrimaryByUuid => |pdu| >= 5 && pdu[0] == 0x07 && (|pdu| - 1) % 4 == 0
    case Characteristics(_, _) => IsList(0x09, 3, pdu)
    case Descriptors(_, only) => only.None? && (IsInformation(0x01, 4, pdu) || IsInformation(0x02, 18, pdu))
  }

  /** Its last handle: the end of the last service, or the handle of the last entry. */
  function LastOf(proc: Procedure, pdu: octets): nat
    requires Listed(proc, pdu)
  {
    match proc
    case AllPrimary => Word(pdu, |pdu| - pdu[1] + 2)
    case PrimaryByUuid => Word(pdu, |pdu| - 2)
    case Characteristics(_, _) => Word(pdu, |pdu| - pdu[1])
    case Descriptors(_, _) => Word(pdu, |pdu| - if pdu[1] == 1 then 4 else 18)
  }

  predicate MoreBehind(proc: Procedure, last: nat)
  {
    match proc
    case AllPrimary => last != 0xffff
    case PrimaryByUuid => last != 0xffff
    case Characteristics(end, _) => last != 0 && (last + 1) % 0x1_0000 < end
    case Descriptors(end, _) => last < end
  }

  /** The search goes on behind `last`, or is over; one that would go back ends with Unlikely Error. */
  predicate Moved(d: Discovery, next: Discovery, last: nat)
  {
    && d.found <= next.found
    && if last < d.start && !(d.proc.PrimaryByUuid? && last == 0xffff) then
         !next.pending && next.calls == d.calls + [0x0E]
       else if MoreBehind(d.proc, last) then
         next.pending && next.start == (last + 1) % 0x1_0000 && next.calls == d.calls
       else !next.pending && next.calls == d.calls + [0]
  }

  lemma InformationMoves(d: Discovery, format: uint8, l: nat, pdu: octets)
    requires d.pending && d.proc.Descriptors? && d.proc.only.None? && l == InfoLength(format) && (l == 4 || l == 18)
    requires |pdu| >= 2 + l && IsInformation(format, l, pdu)
    ensures Moved(d, On(d, Pdu(pdu)), Word(pdu, |pdu| - l))
  {
    hide DecFindInfo, DescriptorsOf, LastLooked, IsInformation, Read;
    LastInformation(format, l, pdu);
    DecodedInformation(pdu);
    var data := DecFindInfo(pdu).value.data;
    LastOfAll(ReadAll(data, 4, 18, d.stray));
    LastWord(pdu, data[|data| - 1]);
  }

  lemma GroupsMove(d: Discovery, pdu: octets)
    requires d.pending && d.proc.AllPrimary? && pdu != [] && Listed(d.proc, pdu)
    ensures Moved(d, On(d, Pdu(pdu)), LastOf(d.proc, pdu))
  {
    hide DecList, Uuid128;
    LastOfList(0x11, 5, pdu);
    Decoded(ATT_OP_READ_BY_GROUP_RESP, 7, 5, pdu);
  }

  lemma DeclarationsMove(d: Discovery, pdu: octets)
    requires d.pending && d.proc.Characteristics? && pdu != [] && Listed(d.proc, pdu)
    ensures Moved(d, On(d, Pdu(pdu)), LastOf(d.proc, pdu))
  {
    hide DecList, CharacteristicsOf, OnDeclarations;
    LastOfList(0x09, 3, pdu);
    DeclarationsLast(d, pdu);
    var data := DecReadByType(pdu).value.data;
    LastWord(pdu, data[|data| - 1]);
  }

  /** What a search does after a response, by the last handle in it. */
  lemma ListMoves(d: Discovery, pdu: octets)
    requires d.pending && pdu != [] && Listed(d.proc, pdu)
    ensures Moved(d, On(d, Pdu(pdu)), LastOf(d.proc, pdu))
  {
    match d.proc
    case AllPrimary => GroupsMove(d, pdu);
    case PrimaryByUuid => LastRange(pdu);
    case Characteristics(_, _) => DeclarationsMove(d, pdu);
    case Descriptors(_, _) =>
      if IsInformation(0x01, 4, pdu) { InformationMoves(d, 0x01, 4, pdu); }
      else { InformationMoves(d, 0x02, 18, pdu); }
  }

  lemma LastRange(pdu: octets)
    requires |pdu| >= 5 && pdu[0] == 0x07 && (|pdu| - 1) % 4 == 0
    ensures DecFindByType(pdu) != [] && DecFindByType(pdu)[|DecFindByType(pdu)| - 1].end == Word(pdu, |pdu| - 2)
  {
    var k := (|pdu| - 1) / 4;
    assert Slices(pdu[1..], 4, k)[k - 1] == pdu[1..][(k - 1) * 4..k * 4];
  }

  // ---------------------------------------------------------------- included services

  /** A search response with includes of either length. */
  predicate IsIncludes(pdu: octets) { IsList(0x09, 3, pdu) && (pdu[1] == 6 || pdu[1] == 8) }

  /** The answer to a search for includes that would go back. */
  predicate IncludesGoBack(s: Inc.Isd, request: Inc.Request, reply: Reply)
  {
    request.Find? && reply.Pdu? && IsIncludes(reply.pdu) && Word(reply.pdu, |reply.pdu| - reply.pdu[1]) < s.start
  }

  /** What an answer is blamed for: its own code, Not Found to a search aside, or I/O error for nonsense. */
  function Blame(request: Inc.Request, reply: Reply): uint8
    requires reply.Valid()
  {
    match request
    case Find(_) =>
      if reply.Error? then (if reply.code == 0x0A then 0 else reply.code)
      else if IsIncludes(reply.pdu) then 0 else 0x80
    case Resolve(_) =>
      if reply.Error? then reply.code
      else if |reply.pdu| == 17 && reply.pdu[0] == 0x0B then 0 else 0x80
  }

  /** The error after one more answer: the first one stays, unless a search goes back. */
  function ErrorAfter(s: Inc.Isd, request: Inc.Request, reply: Reply): uint8
    requires reply.Valid()
  {
    if IncludesGoBack(s, request, reply) then 0x0E else if s.err != 0 then s.err else Blame(request, reply)
  }

  lemma FindError(s: Inc.Isd, start: uint16, reply: Reply)
    requires reply.Valid()
    ensures Inc.OnFind(s, reply).err == ErrorAfter(s, Inc.Find(start), reply)
  {
    if reply.Pdu? {
      hide IsList, DecList, Word, Inc.TakeIncludes;
      if IsList(0x09, 3, reply.pdu) {
        LastOfList(0x09, 3, reply.pdu);
        Decoded(ATT_OP_READ_BY_TYPE_RESP, 5, 3, reply.pdu);
        var entries := DecReadByType(reply.pdu).value.data;
        LastWord(reply.pdu, entries[|entries| - 1]);
        if IsIncludes(reply.pdu) { Inc.TakeIncludesCounts(s, entries); }
      } else {
        NotList(0x09, 3, reply.pdu);
      }
    }
  }

  lemma LastWord(pdu: octets, last: octets)
    requires 2 <= |last| <= |pdu| && last == pdu[|pdu| - |last|..]
    ensures GetLe16(last, 0) == Word(pdu, |pdu| - |last|)
  {
  }

  /**
   * Whatever is answered, to whichever request: the error that will be reported is the first one met, or
   * Unlikely Error; and the last answer reports it, with the includes only if there is none.
   */
  lemma IncludeAnswered(s: Inc.Isd, i: nat, reply: Reply)
    requires Inc.Counted(s) && i < |s.queue| && reply.Valid()
    ensures var next := Inc.Answer(s, i, reply);
            && next.err == ErrorAfter(s, s.queue[i], reply)
            && (next.queue == [] ==> next.calls == [Inc.Call(next.err, if next.err == 0 then next.includes else [])])
            && (next.queue != [] ==> next.calls == [])
  {
    hide ErrorAfter, Inc.OnFind;
    var rest := s.(queue := s.queue[..i] + s.queue[i + 1..]);
    Inc.AnswerKeepsCount(s, i, reply);
    SameError(s, rest, s.queue[i], reply);
    match s.queue[i]
    case Find(start) =>
      FindError(rest, start, reply);
      FindKeepsCalls(rest, reply);
    case Resolve(incl) => ResolveError(rest, incl, reply);
  }

  lemma SameError(s: Inc.Isd, t: Inc.Isd, request: Inc.Request, reply: Reply)
    requires reply.Valid() && s.err == t.err && s.start == t.start
    ensures ErrorAfter(s, request, reply) == ErrorAfter(t, request, reply)
  {
  }

  lemma ResolveError(s: Inc.Isd, incl: Inc.Include, reply: Reply)
    requires reply.Valid()
    ensures Inc.OnResolve(s, incl, reply).err == ErrorAfter(s, Inc.Resolve(incl), reply)
  {
  }

  lemma FindKeepsCalls(s: Inc.Isd, reply: Reply)
    requires reply.Valid()
    ensures Inc.OnFind(s, reply).calls == s.calls
  {
    hide DecList, Inc.TakeIncludes;
    if reply.Pdu? && DecReadByType(reply.pdu).Some? {
      Decoded(ATT_OP_READ_BY_TYPE_RESP, 5, 3, reply.pdu);
      var list := DecReadByType(reply.pdu).value;
      if list.len == 6 || list.len == 8 { Inc.TakeIncludesCounts(s, list.data); }
    }
  }

  /** A search response sends the search on behind its last handle exactly if that is not where it was to end. */
  lemma IncludesMove(s: Inc.Isd, pdu: octets)
    requires pdu != [] && IsIncludes(pdu)
    ensures var next, last := Inc.OnFind(s, Pdu(pdu)), Word(pdu, |pdu| - pdu[1]);
            if last < s.start then next.err == 0x0E && next.finds == s.finds && next.start == s.start
            else
              && next.err == s.err && next.start == (last + 1) % 0x1_0000
              && next.finds == s.finds + (if last < s.end then 1 else 0)
              && (last < s.end ==> next.queue != [] && next.queue[|next.queue| - 1] == Inc.Find(last + 1))
  {
    hide IsList, DecList, Word, Inc.TakeIncludes;
    LastOfList(0x09, 3, pdu);
    Decoded(ATT_OP_READ_BY_TYPE_RESP, 5, 3, pdu);
    var entries := DecReadByType(pdu).value.data;
    LastWord(pdu, entries[|entries| - 1]);
    Inc.TakeIncludesCounts(s, entries);
  }
}
