/**
 * What a registered characteristic may be used for: its attributes in the database, over the options
 * that were given for it and the bits of its properties.
 */
module GattPermissions {
  import opened Bytes
  import opened GattService

  // ---------------------------------------------------------------- the option list

  function Join(groups: seq<seq<Opt>>): seq<Opt> { if groups == [] then [] else groups[0] + Join(groups[1..]) }

  /** A group has its UUID option in front, if anywhere. */
  predicate UuidInFront(group: seq<Opt>) { forall j :: 0 < j < |group| ==> !group[j].ChrUuid? }

  lemma {:induction false} JoinLast(groups: seq<seq<Opt>>, last: seq<Opt>)
    ensures Join(groups + [last]) == Join(groups) + last
  {
    if groups == [] {
      assert [last][1..] == [];
    } else {
      assert (groups + [last])[1..] == groups[1..] + [last];
      JoinLast(groups[1..], last);
    }
  }

  /** The list in its order, cut before every UUID option but the very first option. */
  predicate Grouped(groups: seq<seq<Opt>>, opts: seq<Opt>)
  {
    && groups != [] && Join(groups) == opts && (opts != [] ==> groups[0] != [])
    && (forall k :: 0 <= k < |groups| ==> UuidInFront(groups[k]))
    && (forall k :: 1 <= k < |groups| ==> groups[k] != [] && groups[k][0].ChrUuid?)
  }

  lemma OpensGroup(groups: seq<seq<Opt>>, opts: seq<Opt>, opt: Opt)
    requires Grouped(groups, opts) && opts != [] && opt.ChrUuid?
    ensures Grouped(groups + [[opt]], opts + [opt])
  {
    JoinLast(groups, [opt]);
  }

  lemma JoinsGroup(groups: seq<seq<Opt>>, opts: seq<Opt>, opt: Opt)
    requires Grouped(groups, opts) && (opts != [] ==> !opt.ChrUuid?)
    ensures Grouped(groups[|groups| - 1 := groups[|groups| - 1] + [opt]], opts + [opt])
  {
    hide Join;
    var init, last := groups[..|groups| - 1], groups[|groups| - 1];
    assert groups == init + [last];
    assert groups[|groups| - 1 := last + [opt]] == init + [last + [opt]];
    JoinLast(init, last);
    JoinLast(init, last + [opt]);
    if opts == [] {
      assert last == [];
    }
    assert Join(init) + (last + [opt]) == opts + [opt];
  }

  lemma {:induction false} GroupsAreList(opts: seq<Opt>)
    ensures Grouped(Groups(opts), opts)
  {
    if opts == [] {
      JoinLast([], []);
      assert Groups(opts) == [] + [[]];
    } else {
      hide Grouped;
      var n := |opts| - 1;
      assert opts == opts[..n] + [opts[n]];
      GroupsAreList(opts[..n]);
      if opts[n].ChrUuid? && n > 0 {
        OpensGroup(Groups(opts[..n]), opts[..n], opts[n]);
      } else {
        JoinsGroup(Groups(opts[..n]), opts[..n], opts[n]);
      }
    }
  }

  // ---------------------------------------------------------------- the options of one characteristic

  predicate MayRead(props: uint8) { var p: int := props; p / 0x02 % 2 == 1 }
  predicate MayWriteCommand(props: uint8) { var p: int := props; p / 0x04 % 2 == 1 }
  predicate MayWrite(props: uint8) { var p: int := props; p / 0x08 % 2 == 1 }
  predicate MayNotify(props: uint8) { var p: int := props; p / 0x10 % 2 == 1 }
  predicate MayIndicate(props: uint8) { var p: int := props; p / 0x20 % 2 == 1 }

  /** The last option of its kind counts. */
  function UuidGiven(group: seq<Opt>): octets
  {
    if group == [] then []
    else if group[|group| - 1].ChrUuid? then group[|group| - 1].uuid
    else UuidGiven(group[..|group| - 1])
  }

  function PropsGiven(group: seq<Opt>): uint8
  {
    if group == [] then 0
    else if group[|group| - 1].ChrProps? then group[|group| - 1].props
    else PropsGiven(group[..|group| - 1])
  }

  function AuthorizationGiven(group: seq<Opt>): Access
  {
    if group == [] then NoAccess
    else if group[|group| - 1].ChrAuthorization? then group[|group| - 1].access
    else AuthorizationGiven(group[..|group| - 1])
  }

  function AuthenticationGiven(group: seq<Opt>): Access
  {
    if group == [] then NoAccess
    else if group[|group| - 1].ChrAuthentication? then group[|group| - 1].access
    else AuthenticationGiven(group[..|group| - 1])
  }

  predicate ForReading(access: Access) { access == ReadAccess || access == BothAccess }
  predicate ForWriting(access: Access) { access == WriteAccess || access == BothAccess }

  /** A security option for reading makes a value readable even without the property. */
  predicate Readable(group: seq<Opt>)
  {
    || ForReading(AuthorizationGiven(group)) || ForReading(AuthenticationGiven(group))
    || MayRead(PropsGiven(group))
  }

  predicate Writable(group: seq<Opt>)
  {
    || ForWriting(AuthorizationGiven(group)) || ForWriting(AuthenticationGiven(group))
    || MayWrite(PropsGiven(group)) || MayWriteCommand(PropsGiven(group))
  }

  predicate Configurable(group: seq<Opt>) { MayNotify(PropsGiven(group)) || MayIndicate(PropsGiven(group)) }

  /** All that a characteristic needs: a UUID, properties, and a callback for whatever it allows. */
  predicate Complete(group: seq<Opt>)
  {
    && (|UuidGiven(group)| == 2 || |UuidGiven(group)| == 16)
    && PropsGiven(group) != 0
    && (Readable(group) ==> ChrValueRead in group)
    && (Writable(group) ==> ChrValueWrite in group)
  }

  lemma {:induction false} GivenIsParsed(group: seq<Opt>)
    ensures var info := InfoOf(group);
            && info.uuid == UuidGiven(group) && info.props == PropsGiven(group)
            && info.authorization == AuthorizationGiven(group) && info.authentication == AuthenticationGiven(group)
            && info.readCb == (ChrValueRead in group) && info.writeCb == (ChrValueWrite in group)
  {
    if group != [] {
      var before, last := group[..|group| - 1], group[|group| - 1];
      GivenIsParsed(before);
      assert group == before + [last];
    }
  }

  lemma PropertyBits(props: uint8)
    ensures Reads(props) <==> MayRead(props)
    ensures Writes(props) <==> MayWrite(props) || MayWriteCommand(props)
    ensures Notifies(props) <==> MayNotify(props) || MayIndicate(props)
  {
    var p: int := props;
    assert p / 0x04 / 2 == p / 0x08 && p / 0x10 / 2 == p / 0x20;
  }

  lemma CompleteIsAcceptable(group: seq<Opt>)
    ensures Complete(group) <==> Acceptable(InfoOf(group))
    ensures InfoOf(group).Used() == HandlesOf(group)
  {
    GivenIsParsed(group);
    PropertyBits(PropsGiven(group));
    hide InfoOf, MayRead, MayWrite, MayWriteCommand, MayNotify, MayIndicate, Reads, Writes, Notifies, UuidGiven,
         PropsGiven, AuthorizationGiven, AuthenticationGiven;
  }

  // ---------------------------------------------------------------- its attributes

  function HandlesOf(group: seq<Opt>): nat { if Configurable(group) then 3 else 2 }

  /** The handle at which characteristic `k` of a service begins. */
  function HandleAt(first: nat, groups: seq<seq<Opt>>, k: nat): nat
    requires k <= |groups|
  {
    if k == 0 then first else HandleAt(first, groups, k - 1) + HandlesOf(groups[k - 1])
  }

  /** Who may read a value: authorization comes before authentication, and both before the property. */
  predicate ReadAsGiven(group: seq<Opt>, req: Requirement)
  {
    && (req == ATT_AUTHORIZATION <==> ForReading(AuthorizationGiven(group)))
    && (req == ATT_AUTHENTICATION <==>
          !ForReading(AuthorizationGiven(group)) && ForReading(AuthenticationGiven(group)))
    && (req == ATT_NOT_PERMITTED <==> !Readable(group))
  }

  predicate WriteAsGiven(group: seq<Opt>, req: Requirement)
  {
    && (req == ATT_AUTHORIZATION <==> ForWriting(AuthorizationGiven(group)))
    && (req == ATT_AUTHENTICATION <==>
          !ForWriting(AuthorizationGiven(group)) && ForWriting(AuthenticationGiven(group)))
    && (req == ATT_NOT_PERMITTED <==> !Writable(group))
  }

  /** A characteristic at `h`: its declaration, its value and, if it has one, its configuration. */
  predicate CharacteristicAt(db: Db, h: nat, group: seq<Opt>)
  {
    && h + HandlesOf(group) <= 0x1_0000 && h in db && h + 1 in db
    && db[h] == Attribute([0x03, 0x28], ATT_NONE, ATT_NOT_PERMITTED,
                          [PropsGiven(group), (h + 1) % 0x100, (h + 1) / 0x100] + UuidGiven(group))
    && db[h + 1].uuid == UuidGiven(group) && db[h + 1].value == []
    && ReadAsGiven(group, db[h + 1].readReq) && WriteAsGiven(group, db[h + 1].writeReq)
    && (Configurable(group) ==>
          h + 2 in db && db[h + 2] == Attribute([0x02, 0x29], ATT_NONE, ATT_AUTHENTICATION, [0x00, 0x00]))
  }

  lemma RequirementsAreGiven(group: seq<Opt>)
    ensures ReadAsGiven(group, AttReadReq(InfoOf(group))) && WriteAsGiven(group, AttWriteReq(InfoOf(group)))
  {
    hide InfoOf, MayRead, MayWrite, MayWriteCommand, Reads, Writes, PropsGiven, AuthorizationGiven, AuthenticationGiven;
    GivenIsParsed(group);
    PropertyBits(PropsGiven(group));
  }

  lemma AttributesAreGiven(db: Db, h: nat, group: seq<Opt>)
    requires h + HandlesOf(group) <= 0x1_0000 && h + InfoOf(group).Used() <= 0x1_0000
    requires Holds(db, Attributes(h, InfoOf(group)))
    ensures CharacteristicAt(db, h, group)
  {
    hide InfoOf, MayNotify, MayIndicate, Notifies, UuidGiven, PropsGiven, ReadAsGiven, WriteAsGiven, AttReadReq,
         AttWriteReq;
    GivenIsParsed(group);
    PropertyBits(PropsGiven(group));
    RequirementsAreGiven(group);
    var info := InfoOf(group);
    var m := Attributes(h, info);
    assert h in m && h + 1 in m && (Notifies(info.props) ==> h + 2 in m);
    assert m[h] == Declaration(h, info) && m[h + 1] == Value(info);
    assert [info.props] + PutLe16(h + 1) == [info.props, (h + 1) % 0x100, (h + 1) / 0x100];
  }

  lemma {:induction false} UsedIsHandles(first: nat, groups: seq<seq<Opt>>)
    ensures first + UsedBy(InfosOf(groups)) == HandleAt(first, groups, |groups|)
    decreases |groups|
  {
    hide InfoOf, HandlesOf;
    if groups != [] {
      var rest := groups[1..];
      UsedIsHandles(first + HandlesOf(groups[0]), rest);
      CompleteIsAcceptable(groups[0]);
      assert InfosOf(groups)[1..] == InfosOf(rest);
      HandleShift(first, groups, |rest|);
    }
  }

  lemma {:induction false} HandleShift(first: nat, groups: seq<seq<Opt>>, k: nat)
    requires groups != [] && k < |groups|
    ensures HandleAt(first, groups, k + 1) == HandleAt(first + HandlesOf(groups[0]), groups[1..], k)
  {
    hide HandlesOf;
    if k > 0 { HandleShift(first, groups, k - 1); }
  }

  /** Every characteristic of a layout is where its predecessors leave it. */
  lemma {:induction false} LayoutHolds(db: Db, first: nat, groups: seq<seq<Opt>>, k: nat)
    requires k < |groups| && first + UsedBy(InfosOf(groups)) <= 0x1_0000
    requires Holds(db, Layout(first, InfosOf(groups)))
    ensures CharacteristicAt(db, HandleAt(first, groups, k), groups[k])
    decreases k
  {
    hide InfoOf, HandlesOf, CharacteristicAt, Attributes, Holds;
    var infos, rest := InfosOf(groups), groups[1..];
    var next := first + infos[0].Used();
    CompleteIsAcceptable(groups[0]);
    assert infos[1..] == InfosOf(rest);
    HoldsSplit(db, Attributes(first, infos[0]), Layout(next, infos[1..]));
    if k == 0 {
      AttributesAreGiven(db, first, groups[0]);
    } else {
      HandleShift(first, groups, k - 1);
      LayoutHolds(db, next, rest, k - 1);
    }
  }

  /** A registration succeeds exactly if there was room and every characteristic was given completely. */
  lemma RegistersExactly(db: Db, start: uint16, kind: octets, uuid: octets, opts: seq<Opt>)
    requires RoomAt(db, start, Parse(opts))
    ensures ServiceAdd(db, start, kind, uuid, opts).1 <==> start != 0 && forall g :: g in Groups(opts) ==> Complete(g)
  {
    hide Parse, InfoOf, Layout, Groups, Complete, Acceptable, ServiceAdd, RoomAt;
    ServiceAddExactly(db, start, kind, uuid, opts);
    ParsedByGroup(opts);
    var infos, groups := Parse(opts), Groups(opts);
    forall k | 0 <= k < |groups| ensures Acceptable(infos[k]) <==> Complete(groups[k]) {
      CompleteIsAcceptable(groups[k]);
    }
    assert (forall g :: g in groups ==> Complete(g)) <==> forall k :: 0 <= k < |groups| ==> Complete(groups[k]);
  }

  lemma RegisteredLayout(db: Db, start: uint16, kind: octets, uuid: octets, opts: seq<Opt>)
    requires RoomAt(db, start, Parse(opts)) && ServiceAdd(db, start, kind, uuid, opts).1
    ensures var infos := InfosOf(Groups(opts));
            && start + 1 + UsedBy(infos) <= 0x1_0000
            && HandleAt(start + 1, Groups(opts), |Groups(opts)|) == start + 1 + UsedBy(infos)
            && ServiceAdd(db, start, kind, uuid, opts).0
               == db + map[start := Attribute(kind, ATT_NONE, ATT_NOT_PERMITTED, uuid)] + Layout(start + 1, infos)
            && Free(db, start, start + 1 + UsedBy(infos))
  {
    hide Parse, InfoOf, Groups, Acceptable, ServiceAdd, HandleAt, CountedBy, UsedBy, Layout, Good;
    ServiceAddExactly(db, start, kind, uuid, opts);
    NeverTooFew(opts);
    ParsedByGroup(opts);
    GoodFits(Parse(opts));
    assert start != 0 && Good(Parse(opts)) == Parse(opts);
    UsedIsHandles(start + 1, Groups(opts));
  }

  /**
   * After a registration the database holds, besides what it held, the service declaration and each
   * characteristic as its options say: readable, writable and configurable exactly as given.
   */
  lemma RegisteredAsGiven(db: Db, start: uint16, kind: octets, uuid: octets, opts: seq<Opt>)
    requires RoomAt(db, start, Parse(opts)) && ServiceAdd(db, start, kind, uuid, opts).1
    ensures var after, groups := ServiceAdd(db, start, kind, uuid, opts).0, Groups(opts);
            var end := HandleAt(start + 1, groups, |groups|);
            && end <= 0x1_0000
            && (forall h :: h in after <==> h in db || start <= h < end)
            && (forall h :: h in db ==> after[h] == db[h])
            && start in after && after[start] == Attribute(kind, ATT_NONE, ATT_NOT_PERMITTED, uuid)
            && (forall k :: 0 <= k < |groups| ==>
                  CharacteristicAt(after, HandleAt(start + 1, groups, k), groups[k]))
  {
    hide Parse, InfoOf, Groups, ServiceAdd, CharacteristicAt, HandleAt, RoomAt, UsedBy, Layout;
    RegisteredLayout(db, start, kind, uuid, opts);
    var after, groups := ServiceAdd(db, start, kind, uuid, opts).0, Groups(opts);
    assert Holds(after, Layout(start + 1, InfosOf(groups)));
    forall k | 0 <= k < |groups| ensures CharacteristicAt(after, HandleAt(start + 1, groups, k), groups[k]) {
      LayoutHolds(after, start + 1, groups, k);
    }
  }
}
