/** Included service discovery when the outstanding requests are answered in any order. */
module GattIncludedAny {
  import opened Bytes
  import opened AttCodec
  import opened GattLong
  import opened GattDiscover
  import opened GattIncluded

  /** Every event is a legal answer to one of the requests that are outstanding then. */
  ghost predicate LegalEvents(db: seq<Held>, s: Isd, events: seq<Event>)
    decreases |events|
  {
    events != [] && s.queue != [] ==>
      && events[0].index < |s.queue| && events[0].reply.Valid()
      && Legal(db, s.queue[events[0].index], events[0].reply)
      && LegalEvents(db, Answer(s, events[0].index, events[0].reply), events[1..])
  }

  /** The requests for the UUIDs of `open`, and the search, if it goes on. */
  function Outstanding(open: seq<Held>, find: seq<Request>): seq<Request> { UnresolvedOf(open) + find }

  /** Each of the first `j` includes has been reported, or is among those that are being resolved. */
  ghost predicate Booked(db: seq<Held>, includes: seq<Include>, open: seq<Held>, j: nat)
    requires j <= |db|
  {
    multiset(includes) + multiset(FoundOf(open)) == multiset(FoundOf(db[..j]))
  }

  ghost predicate HeldLong(db: seq<Held>, open: seq<Held>) { forall h :: h in open ==> h in db && |h.uuid| == 16 }

  /** The search that goes on, if one does, is for the includes from index `j` on. */
  predicate SearchedFrom(db: seq<Held>, s: Isd, j: nat, find: seq<Request>)
    requires j <= |db|
  {
    if find == [] then j == |db|
    else
      && find == [Find(s.start)]
      && (forall k :: 0 <= k < j ==> db[k].handle < s.start)
      && forall k :: j <= k < |db| ==> s.start <= db[k].handle
  }

  ghost predicate Open(db: seq<Held>, s: Isd, j: nat, open: seq<Held>, find: seq<Request>)
    requires j <= |db|
  {
    && s.err == 0 && s.calls == [] && s.queue == Outstanding(open, find) && s.refs == |s.queue| > 0
    && HeldLong(db, open) && Booked(db, s.includes, open, j) && SearchedFrom(db, s, j, find)
  }

  /** The user has been told once, without an error, and of every include as often as the server holds it. */
  ghost predicate Told(db: seq<Held>, s: Isd)
  {
    s.queue == [] && s.calls == [Call(0, s.includes)] && multiset(s.includes) == multiset(FoundOf(db))
  }

  function Drop<T>(s: seq<T>, k: nat): seq<T> requires k < |s| { s[..k] + s[k + 1..] }

  lemma DropOpen(open: seq<Held>, find: seq<Request>, k: nat)
    requires k < |open|
    ensures Drop(Outstanding(open, find), k) == Outstanding(Drop(open, k), find)
    ensures multiset(FoundOf(open)) == multiset(FoundOf(Drop(open, k))) + multiset{open[k].Found()}
  {
    hide Held.Found, Unresolved;
    assert UnresolvedOf(Drop(open, k)) == UnresolvedOf(open)[..k] + UnresolvedOf(open)[k + 1..];
    assert FoundOf(Drop(open, k)) == FoundOf(open)[..k] + FoundOf(open)[k + 1..];
    assert FoundOf(open) == FoundOf(open)[..k] + [open[k].Found()] + FoundOf(open)[k + 1..];
  }

  lemma ResolveAnsweredAt(db: seq<Held>, s: Isd, k: nat, h: Held, reply: Reply, end: uint16)
    requires WellHeld(db, end) && h in db && |h.uuid| == 16
    requires k < |s.queue| && s.queue[k] == Unresolved(h) && Legal(db, s.queue[k], reply)
    ensures reply.Valid()
    ensures Answer(s, k, reply) == Unref(s.(queue := Drop(s.queue, k), includes := s.includes + [h.Found()]))
  {
    hide Uuid128, IsUuid, Unref;
    var i :| 0 <= i < |db| && db[i].start == h.start && reply == Pdu([ATT_OP_READ_RESP] + db[i].uuid);
    var l :| 0 <= l < |db| && db[l] == h;
    assert db[i].uuid == h.uuid;
    assert ([ATT_OP_READ_RESP] + db[i].uuid)[1..] == h.uuid;
  }

  lemma ResolveStep(db: seq<Held>, s: Isd, j: nat, open: seq<Held>, find: seq<Request>, k: nat, reply: Reply)
    requires WellHeld(db, s.end) && j <= |db| && Open(db, s, j, open, find)
    requires k < |open| && Legal(db, s.queue[k], reply)
    ensures reply.Valid()
    ensures var t := Answer(s, k, reply);
            t.end == s.end && if t.queue == [] then Told(db, t) else Open(db, t, j, Drop(open, k), find)
  {
    hide Held.Found, Unresolved, IsUuid, WellHeld, Legal, Answer, FoundOf, UnresolvedOf, Outstanding;
    var h := open[k];
    assert s.queue[k] == Unresolved(h) by { AtOutstanding(open, find, k); }
    ResolveAnsweredAt(db, s, k, h, reply, s.end);
    DropOpen(open, find, k);
    assert multiset(s.includes + [h.Found()]) == multiset(s.includes) + multiset{h.Found()};
    forall x | x in Drop(open, k) ensures x in open {
    }
    NothingOpen(open, find, k);
    assert db[..|db|] == db;
  }

  lemma AtOutstanding(open: seq<Held>, find: seq<Request>, k: nat)
    requires k < |open|
    ensures |Outstanding(open, find)| == |open| + |find| && Outstanding(open, find)[k] == Unresolved(open[k])
  {
    hide Unresolved;
  }

  lemma NothingOpen(open: seq<Held>, find: seq<Request>, k: nat)
    requires k < |open|
    ensures Outstanding(Drop(open, k), find) == [] ==> find == [] && FoundOf(Drop(open, k)) == []
    ensures |Outstanding(Drop(open, k), find)| == |Outstanding(open, find)| - 1
  {
  }

  // ---------------------------------------------------------------- the answer to the search

  /** The client after the run `hs`, with the reference of the search gone. */
  function Went(s: Isd, open: seq<Held>, hs: seq<Held>): Isd
    requires hs != []
  {
    var last := hs[|hs| - 1].handle;
    var find := NextFind(s, hs);
    s.(queue := Outstanding(if AllShort(hs) then open else open + hs, find),
       includes := if AllShort(hs) then s.includes + FoundOf(hs) else s.includes,
       refs := |open| + (if AllShort(hs) then 0 else |hs|) + |find|,
       start := Wrap16(last + 1), finds := s.finds + |find|)
  }

  function Finished(s: Isd): Isd
  {
    if s.refs > 0 then s else s.(calls := s.calls + [Call(s.err, if s.err != 0 then [] else s.includes)])
  }

  lemma RunWent(s: Isd, open: seq<Held>, hs: seq<Held>)
    requires hs != [] && s.refs == |open| + 1
    ensures Unref(AfterRun(s.(queue := UnresolvedOf(open)), hs)) == Finished(Went(s, open, hs))
  {
    hide Unresolved, Held.Found, AllShort;
    assert UnresolvedOf(open + hs) == UnresolvedOf(open) + UnresolvedOf(hs);
    assert UnresolvedOf(open) + [] == UnresolvedOf(open) && UnresolvedOf(open + hs) + [] == UnresolvedOf(open + hs);
  }

  lemma FindAnswered(db: seq<Held>, s: Isd, j: nat, open: seq<Held>, n: nat)
    requires WellHeld(db, s.end) && 0 < n && j + n <= |db| && SameKind(db[j..j + n])
    requires (forall k :: j <= k < |db| ==> s.start <= db[k].handle)
    requires s.queue == Outstanding(open, [Find(s.start)]) && s.refs == |s.queue|
    ensures Answer(s, |open|, Pdu(RunPdu(db, j, n))) == Finished(Went(s, open, db[j..j + n]))
  {
    hide OnFind, SearchPdu, WellHeld, SameKind, IsUuid, Unref, AfterRun, Held.Wire, Went, Finished;
    var hs, rest := db[j..j + n], s.(queue := UnresolvedOf(open));
    assert hs[0] == db[j] && hs[n - 1] == db[j + n - 1];
    RunFacts(db, s, j, n);
    assert IsUuid(db[j].uuid);
    RunAnswered(rest, hs);
    RunWent(s, open, hs);
    assert s.queue[..|open|] + s.queue[|open| + 1..] == UnresolvedOf(open);
  }

  lemma FindStep(db: seq<Held>, s: Isd, j: nat, open: seq<Held>, n: nat)
    requires WellHeld(db, s.end) && 0 < n && j + n <= |db| && SameKind(db[j..j + n])
    requires Open(db, s, j, open, [Find(s.start)])
    ensures var t, hs := Answer(s, |open|, Pdu(RunPdu(db, j, n))), db[j..j + n];
            var open' := if AllShort(hs) then open else open + hs;
            && t.end == s.end && |open'| <= |open| + n
            && if t.queue == [] then Told(db, t) else Open(db, t, j + n, open', NextFind(s, hs))
  {
    hide Answer, RunPdu, WellHeld, SameKind, IsUuid, Unresolved, AllShort, Outstanding, FoundOf, Told,
         HeldLong, Booked;
    FindAnswered(db, s, j, open, n);
    if AllShort(db[j..j + n]) { ShortStep(db, s, j, open, n); } else { LongStep(db, s, j, open, n); }
  }

  /** The search that the client sends next. */
  function NextFind(s: Isd, hs: seq<Held>): seq<Request>
    requires hs != []
  {
    var last := hs[|hs| - 1].handle;
    if last < s.end then [Find(Wrap16(last + 1))] else []
  }

  lemma SearchGoesOn(db: seq<Held>, s: Isd, j: nat, n: nat, t: Isd)
    requires WellHeld(db, s.end) && 0 < n && j + n <= |db| && SameKind(db[j..j + n])
    requires SearchedFrom(db, s, j, [Find(s.start)])
    requires t.start == Wrap16(db[j + n - 1].handle + 1)
    ensures db[j..j + n][n - 1] == db[j + n - 1] && SearchedFrom(db, t, j + n, NextFind(s, db[j..j + n]))
  {
    hide WellHeld, SameKind, IsUuid;
    RunFacts(db, s, j, n);
    assert db[j..j + n][n - 1] == db[j + n - 1];
  }

  lemma BookedShort(db: seq<Held>, includes: seq<Include>, open: seq<Held>, j: nat, n: nat)
    requires j + n <= |db| && Booked(db, includes, open, j)
    ensures Booked(db, includes + FoundOf(db[j..j + n]), open, j + n)
  {
    hide FoundOf;
    FoundSplit(db, j, n);
  }

  lemma BookedLong(db: seq<Held>, includes: seq<Include>, open: seq<Held>, j: nat, n: nat)
    requires j + n <= |db| && Booked(db, includes, open, j)
    ensures Booked(db, includes, open + db[j..j + n], j + n)
  {
    hide FoundOf;
    FoundSplit(db, j, n);
    FoundConcat(open, db[j..j + n]);
  }

  lemma BookedAll(db: seq<Held>, includes: seq<Include>, open: seq<Held>)
    requires Booked(db, includes, open, |db|) && FoundOf(open) == []
    ensures multiset(includes) == multiset(FoundOf(db))
  {
    hide FoundOf;
    assert db[..|db|] == db;
  }

  lemma ShortStep(db: seq<Held>, s: Isd, j: nat, open: seq<Held>, n: nat)
    requires WellHeld(db, s.end) && 0 < n && j + n <= |db| && SameKind(db[j..j + n]) && AllShort(db[j..j + n])
    requires Open(db, s, j, open, [Find(s.start)])
    ensures var t := Finished(Went(s, open, db[j..j + n]));
            && t.end == s.end
            && if t.queue == [] then Told(db, t) else Open(db, t, j + n, open, NextFind(s, db[j..j + n]))
  {
    hide WellHeld, SameKind, IsUuid, AllShort, Outstanding, FoundOf, HeldLong, Booked, SearchedFrom;
    var hs := db[j..j + n];
    CountOutstanding(open, NextFind(s, hs));
    SearchGoesOn(db, s, j, n, Went(s, open, hs));
    BookedShort(db, s.includes, open, j, n);
    if Outstanding(open, NextFind(s, hs)) == [] {
      SearchOver(db, Went(s, open, hs), j + n);
      BookedAll(db, s.includes + FoundOf(hs), open);
    }
  }

  lemma SearchOver(db: seq<Held>, s: Isd, j: nat)
    requires j <= |db| && SearchedFrom(db, s, j, [])
    ensures j == |db|
  {
  }

  lemma LongStep(db: seq<Held>, s: Isd, j: nat, open: seq<Held>, n: nat)
    requires WellHeld(db, s.end) && 0 < n && j + n <= |db| && SameKind(db[j..j + n]) && !AllShort(db[j..j + n])
    requires Open(db, s, j, open, [Find(s.start)])
    ensures var t, hs := Finished(Went(s, open, db[j..j + n])), db[j..j + n];
            t.end == s.end && t.queue != [] && Open(db, t, j + n, open + hs, NextFind(s, hs))
  {
    hide WellHeld, SameKind, IsUuid, AllShort, Outstanding, FoundOf, HeldLong, Booked, SearchedFrom;
    var hs := db[j..j + n];
    CountOutstanding(open + hs, NextFind(s, hs));
    SearchGoesOn(db, s, j, n, Went(s, open, hs));
    BookedLong(db, s.includes, open, j, n);
    OpenLong(db, s, j, n, open);
  }

  lemma FoundSplit(db: seq<Held>, j: nat, n: nat)
    requires j + n <= |db|
    ensures FoundOf(db[..j + n]) == FoundOf(db[..j]) + FoundOf(db[j..j + n])
  {
    hide Held.Found;
  }

  lemma FoundConcat(a: seq<Held>, b: seq<Held>)
    ensures FoundOf(a + b) == FoundOf(a) + FoundOf(b)
  {
    hide Held.Found;
  }

  lemma OpenLong(db: seq<Held>, s: Isd, j: nat, n: nat, open: seq<Held>)
    requires WellHeld(db, s.end) && 0 < n && j + n <= |db| && SameKind(db[j..j + n])
    requires HeldLong(db, open)
    ensures !AllShort(db[j..j + n]) ==> HeldLong(db, open + db[j..j + n])
  {
    var hs := db[j..j + n];
    KindOf(db, s.end, j);
    assert hs[0] == db[j];
    hide WellHeld;
  }

  lemma CountOutstanding(open: seq<Held>, find: seq<Request>)
    ensures |Outstanding(open, find)| == |open| + |find|
    ensures Outstanding(open, find) == [] ==> find == [] && FoundOf(open) == []
  {
  }

  /** The search finds nothing more. */
  lemma NotFoundStep(db: seq<Held>, s: Isd, open: seq<Held>)
    requires Open(db, s, |db|, open, [Find(s.start)])
    ensures var t := Answer(s, |open|, Error(ATT_ECODE_ATTR_NOT_FOUND));
            t.end == s.end && if t.queue == [] then Told(db, t) else Open(db, t, |db|, open, [])
  {
    hide Unresolved, Held.Found, FoundOf;
    assert s.queue[..|open|] + s.queue[|open| + 1..] == Outstanding(open, []);
    CountOutstanding(open, []);
    assert db[..|db|] == db;
  }

  // ---------------------------------------------------------------- whole runs

  lemma {:induction false} AnsweredInAnyOrder(db: seq<Held>, s: Isd, j: nat, open: seq<Held>, find: seq<Request>,
                                              events: seq<Event>)
    requires WellHeld(db, s.end) && j <= |db| && Open(db, s, j, open, find) && LegalEvents(db, s, events)
    requires forall e :: e in events ==> e.reply.Valid()
    requires |events| >= 2 * (|db| - j) + |open| + |find|
    ensures Told(db, AnswerAll(s, events))
    decreases |events|
  {
    hide Answer, Legal, WellHeld, SameKind, RunPdu, Open, Told, AllShort, AnswerAll;
    OpenFacts(db, s, j, open, find);
    var k, reply := events[0].index, events[0].reply;
    var t := Answer(s, k, reply);
    OneAnswer(s, events);
    if k < |open| {
      ResolveStep(db, s, j, open, find, k, reply);
      if t.queue == [] { ToldStays(db, t, events[1..]); }
      else { AnsweredInAnyOrder(db, t, j, Drop(open, k), find, events[1..]); }
    } else {
      var n := FindReply(db, s, j, open, find, reply);
      if j == |db| {
        NotFoundStep(db, s, open);
        if t.queue == [] { ToldStays(db, t, events[1..]); }
        else { AnsweredInAnyOrder(db, t, j, open, [], events[1..]); }
      } else {
        var hs := db[j..j + n];
        FindStep(db, s, j, open, n);
        if t.queue == [] { ToldStays(db, t, events[1..]); }
        else {
          AnsweredInAnyOrder(db, t, j + n, if AllShort(hs) then open else open + hs,
                             NextFind(s, hs), events[1..]);
        }
      }
    }
  }

  lemma OpenFacts(db: seq<Held>, s: Isd, j: nat, open: seq<Held>, find: seq<Request>)
    requires j <= |db| && Open(db, s, j, open, find)
    ensures |s.queue| == |open| + |find| > 0 && (find == [] || find == [Find(s.start)])
  {
  }

  lemma OneAnswer(s: Isd, events: seq<Event>)
    requires events != [] && events[0].index < |s.queue| && forall e :: e in events ==> e.reply.Valid()
    ensures AnswerAll(s, events) == AnswerAll(Answer(s, events[0].index, events[0].reply), events[1..])
  {
    hide Answer;
  }

  lemma {:induction false} ToldStays(db: seq<Held>, s: Isd, events: seq<Event>)
    requires s.queue == [] && Told(db, s) && forall e :: e in events ==> e.reply.Valid()
    ensures Told(db, AnswerAll(s, events))
    decreases |events|
  {
    hide Answer, Told;
    if events != [] { ToldStays(db, s, events[1..]); }
  }

  lemma FindReply(db: seq<Held>, s: Isd, j: nat, open: seq<Held>, find: seq<Request>, reply: Reply) returns (n: nat)
    requires WellHeld(db, s.end) && j <= |db| && Open(db, s, j, open, find) && |open| < |s.queue|
    requires Legal(db, s.queue[|open|], reply)
    ensures find == [Find(s.start)]
    ensures j == |db| ==> reply == Error(ATT_ECODE_ATTR_NOT_FOUND)
    ensures j < |db| ==> 0 < n && j + n <= |db| && SameKind(db[j..j + n]) && reply == Pdu(RunPdu(db, j, n))
  {
    hide WellHeld, Legal, SameKind, RunPdu, FoundOf, Unresolved;
    assert s.queue[|open|] == Find(s.start);
    n := NextRun(db, s, j, reply);
  }

  /**
   * Even if requests are answered out of order, and whatever legal packing the server chooses, the user
   * is told once, without an error, of every include as often as there is one.
   */
  lemma IncludesInAnyOrder(db: seq<Held>, start: uint16, end: uint16, events: seq<Event>)
    requires WellHeld(db, end) && forall k :: 0 <= k < |db| ==> start <= db[k].handle
    requires LegalEvents(db, FirstFind(start, end), events) && |events| > 2 * |db|
    requires forall e :: e in events ==> e.reply.Valid()
    ensures Told(db, AnswerAll(FirstFind(start, end), events))
  {
    hide WellHeld, LegalEvents, AnswerAll, Told;
    var s := FirstFind(start, end);
    assert Outstanding([], [Find(start)]) == [Find(start)] && FoundOf(db[..0]) == FoundOf([]) == [];
    AnsweredInAnyOrder(db, s, 0, [], [Find(start)], events);
  }
}
