/**
 * Registering a service: the option list, the number of handles it takes, the attributes that are
 * added, and what a client discovers of them afterwards.
 */
module GattService {
  import opened Bytes
  import opened AttCodec
  import opened GattLong
  import opened GattDiscover
  import opened GattServer

  const GATT_CHARAC_UUID: octets := [0x03, 0x28]
  const GATT_CLIENT_CHARAC_CFG_UUID: octets := [0x02, 0x29]

  // ---------------------------------------------------------------- options

  datatype Access = NoAccess | ReadAccess | WriteAccess | BothAccess

  /** `gatt_option` with its argument. The options that only ask for a handle change nothing here. */
  datatype Opt =
    | ChrUuid(uuid: octets)
    | ChrProps(props: uint8)
    | ChrValueRead
    | ChrValueWrite
    | ChrAuthentication(access: Access)
    | ChrAuthorization(access: Access)

  /** `struct gatt_info`; an empty UUID is one that was never set. */
  datatype Info = Info(
    uuid: octets, props: uint8, authentication: Access, authorization: Access,
    readCb: bool, writeCb: bool, numAttrs: nat)
  {
    /** Handles that `add_characteristic` uses. */
    function Used(): nat { if Notifies(props) then 3 else 2 }
  }

  const NO_INFO := Info([], 0, NoAccess, NoAccess, false, false, 0)

  /** The notify or the indicate property. */
  predicate Notifies(props: uint8) { var p: int := props; p / 0x10 % 4 != 0 }
  predicate Reads(props: uint8) { var p: int := props; p / 0x02 % 2 != 0 }
  predicate Writes(props: uint8) { var p: int := props; p / 0x04 % 4 != 0 }

  /** One option of a characteristic. */
  function Apply(info: Info, opt: Opt): Info
  {
    match opt
    case ChrUuid(uuid) => info.(uuid := uuid, numAttrs := info.numAttrs + 2)
    case ChrProps(props) => info.(props := props, numAttrs := info.numAttrs + if Notifies(props) then 1 else 0)
    case ChrValueRead => info.(readCb := true)
    case ChrValueWrite => info.(writeCb := true)
    case ChrAuthentication(access) => info.(authentication := access)
    case ChrAuthorization(access) => info.(authorization := access)
  }

  /** Every UUID option but the very first option opens a new characteristic. */
  function Parse(opts: seq<Opt>): (infos: seq<Info>)
    ensures infos != []
  {
    if opts == [] then [NO_INFO]
    else
      var n := |opts| - 1;
      var before, opt := Parse(opts[..n]), opts[n];
      if opt.ChrUuid? && n > 0 then before + [Apply(NO_INFO, opt)]
      else before[|before| - 1 := Apply(before[|before| - 1], opt)]
  }

  /** `parse_opts`. */
  method ParseOpts(opts: seq<Opt>) returns (infos: seq<Info>)
    ensures infos == Parse(opts)
  {
    infos := [NO_INFO];
    for i := 0 to |opts|
      invariant infos == if i < |opts| && i > 0 && opts[i].ChrUuid? then Parse(opts[..i]) + [NO_INFO]
                         else Parse(opts[..i])
    {
      var k := |infos| - 1;
      infos := infos[k := Apply(infos[k], opts[i])];
      assert opts[..i + 1][..i] == opts[..i];
      if i + 1 < |opts| && opts[i + 1].ChrUuid? {
        infos := infos + [NO_INFO];
      }
    }
    assert opts[..|opts|] == opts;
  }

  /** The number of attributes that `gatt_service_add` reserves besides the service declaration. */
  function CountedBy(infos: seq<Info>): nat
  {
    if infos == [] then 0 else infos[0].numAttrs + CountedBy(infos[1..])
  }

  /** The number that it uses, if every characteristic is added. */
  function UsedBy(infos: seq<Info>): nat
  {
    if infos == [] then 0 else infos[0].Used() + UsedBy(infos[1..])
  }

  // ---------------------------------------------------------------- attributes

  datatype Requirement = ATT_NONE | ATT_AUTHENTICATION | ATT_AUTHORIZATION | ATT_NOT_PERMITTED

  datatype Attribute = Attribute(uuid: octets, readReq: Requirement, writeReq: Requirement, value: octets)

  type Db = map<uint16, Attribute>

  function AttReadReq(info: Info): Requirement
  {
    if info.authorization == ReadAccess || info.authorization == BothAccess then ATT_AUTHORIZATION
    else if info.authentication == ReadAccess || info.authentication == BothAccess then ATT_AUTHENTICATION
    else if !Reads(info.props) then ATT_NOT_PERMITTED
    else ATT_NONE
  }

  function AttWriteReq(info: Info): Requirement
  {
    if info.authorization == WriteAccess || info.authorization == BothAccess then ATT_AUTHORIZATION
    else if info.authentication == WriteAccess || info.authentication == BothAccess then ATT_AUTHENTICATION
    else if !Writes(info.props) then ATT_NOT_PERMITTED
    else ATT_NONE
  }

  /** The checks with which `add_characteristic` begins. */
  predicate Acceptable(info: Info)
  {
    && IsUuid(info.uuid) && info.props != 0
    && (AttReadReq(info) != ATT_NOT_PERMITTED ==> info.readCb)
    && (AttWriteReq(info) != ATT_NOT_PERMITTED ==> info.writeCb)
  }

  function Declaration(h: uint16, info: Info): Attribute
  {
    Attribute(GATT_CHARAC_UUID, ATT_NONE, ATT_NOT_PERMITTED, [info.props] + PutLe16(Wrap16(h + 1)) + info.uuid)
  }

  function Value(info: Info): Attribute { Attribute(info.uuid, AttReadReq(info), AttWriteReq(info), []) }

  const CONFIGURATION := Attribute(GATT_CLIENT_CHARAC_CFG_UUID, ATT_NONE, ATT_AUTHENTICATION, [0x00, 0x00])

  datatype Added = Added(db: Db, next: uint16, ok: bool)

  /** `attrib_db_add` refuses a handle that is taken. */
  function DbAdd(a: Added, attr: Attribute): Added
  {
    if !a.ok || a.next in a.db then a.(ok := false)
    else Added(a.db[a.next := attr], Wrap16(a.next + 1), true)
  }

  /** `add_characteristic`; on a failure the caller's handle stays, and what was added stays too. */
  function AddCharacteristic(db: Db, h: uint16, info: Info): (a: Added)
    ensures !a.ok ==> a.next == h
  {
    if !Acceptable(info) then Added(db, h, false)
    else
      var two := DbAdd(DbAdd(Added(db, h, true), Declaration(h, info)), Value(info));
      var all := if Notifies(info.props) then DbAdd(two, CONFIGURATION) else two;
      if all.ok then all else all.(next := h)
  }

  function AddAll(db: Db, h: uint16, infos: seq<Info>): Added
    decreases |infos|
  {
    if infos == [] then Added(db, h, true)
    else
      var first := AddCharacteristic(db, h, infos[0]);
      if !first.ok then first else AddAll(first.db, first.next, infos[1..])
  }

  /** `service_attr_del`. */
  function Without(db: Db, start: uint16, end: uint16): Db
  {
    map h | h in db && !(start <= h <= end) :: db[h]
  }

  function ServiceDeclaration(kind: octets, uuid: octets): Attribute
  {
    Attribute(kind, ATT_NONE, ATT_NOT_PERMITTED, uuid)
  }

  /** `gatt_service_add`, once `attrib_db_find_avail` has given `start`, 0 if there is no room. */
  function ServiceAdd(db: Db, start: uint16, kind: octets, uuid: octets, opts: seq<Opt>): (Db, bool)
  {
    var declared := DbAdd(Added(db, start, true), ServiceDeclaration(kind, uuid));
    if start == 0 || !declared.ok then (db, false)
    else
      var added := AddAll(declared.db, declared.next, Parse(opts));
      if added.ok then (added.db, true) else (Without(added.db, start, Wrap16(added.next - 1)), false)
  }

  // ---------------------------------------------------------------- handles counted and handles used

  /** The options of each characteristic: all that come before the next UUID option. */
  function Groups(opts: seq<Opt>): (groups: seq<seq<Opt>>)
    ensures groups != []
  {
    if opts == [] then [[]]
    else
      var n := |opts| - 1;
      var before, opt := Groups(opts[..n]), opts[n];
      if opt.ChrUuid? && n > 0 then before + [[opt]] else before[|before| - 1 := before[|before| - 1] + [opt]]
  }

  /** What the options of one characteristic come to. */
  function InfoOf(group: seq<Opt>): Info
  {
    if group == [] then NO_INFO else Apply(InfoOf(group[..|group| - 1]), group[|group| - 1])
  }

  function InfosOf(groups: seq<seq<Opt>>): (infos: seq<Info>)
    ensures |infos| == |groups| && forall k :: 0 <= k < |infos| ==> infos[k] == InfoOf(groups[k])
  {
    seq(|groups|, k requires 0 <= k < |groups| => InfoOf(groups[k]))
  }

  /** Parsing the list in one pass is parsing each group by itself. */
  lemma {:induction false} ParsedByGroup(opts: seq<Opt>)
    ensures Parse(opts) == InfosOf(Groups(opts))
  {
    hide Apply;
    if opts != [] {
      var n := |opts| - 1;
      ParsedByGroup(opts[..n]);
      var groups := Groups(opts[..n]);
      if opts[n].ChrUuid? && n > 0 {
        OneMore([], opts[n]);
      } else {
        OneMore(groups[|groups| - 1], opts[n]);
      }
    } else {
      assert InfosOf([[]])[0] == NO_INFO;
    }
  }

  lemma OneMore(group: seq<Opt>, opt: Opt)
    ensures InfoOf(group + [opt]) == Apply(InfoOf(group), opt) && InfoOf([]) == NO_INFO
    ensures InfoOf([opt]) == Apply(NO_INFO, opt)
  {
    hide Apply;
    assert (group + [opt])[..|group|] == group && [opt][..0] == [];
  }

  function UuidOptions(group: seq<Opt>): nat
  {
    if group == [] then 0
    else UuidOptions(group[..|group| - 1]) + if group[|group| - 1].ChrUuid? then 1 else 0
  }

  function PropsOptions(group: seq<Opt>): nat
  {
    if group == [] then 0
    else PropsOptions(group[..|group| - 1]) + if group[|group| - 1].ChrProps? then 1 else 0
  }

  /** The PROPS options that ask for notifications or indications. */
  function NotifyOptions(group: seq<Opt>): nat
  {
    if group == [] then 0
    else
      var last := group[|group| - 1];
      NotifyOptions(group[..|group| - 1]) + if last.ChrProps? && Notifies(last.props) then 1 else 0
  }

  /** The properties that the last PROPS option leaves. */
  function FinalProps(group: seq<Opt>): uint8
  {
    if group == [] then 0
    else
      var last := group[|group| - 1];
      if last.ChrProps? then last.props else FinalProps(group[..|group| - 1])
  }

  lemma NoneNotifies()
    ensures !Notifies(0)
  {
  }

  /** `parse_opts` counts two handles for a UUID option, and one for every PROPS option that notifies. */
  lemma {:induction false} CountOfGroup(group: seq<Opt>)
    ensures var info := InfoOf(group);
            && info.numAttrs == 2 * UuidOptions(group) + NotifyOptions(group)
            && info.props == FinalProps(group)
            && (info.uuid != [] ==> UuidOptions(group) >= 1)
    ensures Notifies(FinalProps(group)) ==> NotifyOptions(group) >= 1
    ensures PropsOptions(group) <= 1 ==> NotifyOptions(group) == if Notifies(FinalProps(group)) then 1 else 0
    ensures PropsOptions(group) == 0 ==> NotifyOptions(group) == FinalProps(group) == 0
  {
    hide Notifies;
    NoneNotifies();
    if group != [] { CountOfGroup(group[..|group| - 1]); }
  }

  /** A UUID option opens every group but the first, and is the only one in its group. */
  lemma {:induction false} UuidOptionsOf(opts: seq<Opt>)
    ensures var groups := Groups(opts);
            && UuidOptions(groups[0]) == (if opts != [] && opts[0].ChrUuid? then 1 else 0)
            && forall k :: 1 <= k < |groups| ==> UuidOptions(groups[k]) == 1
  {
    if opts != [] {
      var n := |opts| - 1;
      UuidOptionsOf(opts[..n]);
      var groups := Groups(opts[..n]);
      assert n == 0 ==> groups == [[]];
      UuidOneMore(groups[|groups| - 1], opts[n]);
      UuidOneMore([], opts[n]);
      assert [] + [opts[n]] == [opts[n]];
    }
  }

  lemma UuidOneMore(group: seq<Opt>, opt: Opt)
    ensures UuidOptions(group + [opt]) == UuidOptions(group) + (if opt.ChrUuid? then 1 else 0) && UuidOptions([]) == 0
  {
    assert (group + [opt])[..|group|] == group;
  }

  /** So no characteristic ever uses more handles than were counted for it. */
  lemma NeverTooFew(opts: seq<Opt>)
    ensures forall k :: 0 <= k < |Parse(opts)| ==>
              (Parse(opts)[k].uuid != [] ==> Parse(opts)[k].numAttrs >= Parse(opts)[k].Used())
  {
    hide Notifies, Parse, InfoOf, Groups, UuidOptions, NotifyOptions, FinalProps, PropsOptions;
    ParsedByGroup(opts);
    forall k | 0 <= k < |Parse(opts)|
      ensures Parse(opts)[k].uuid != [] ==> Parse(opts)[k].numAttrs >= Parse(opts)[k].Used()
    {
      CountOfGroup(Groups(opts)[k]);
    }
  }

  /** Where nothing is counted short, only an exact count for each adds up to what is used. */
  lemma {:induction false} NoneShort(infos: seq<Info>)
    requires forall k :: 0 <= k < |infos| ==> infos[k].numAttrs >= infos[k].Used()
    ensures CountedBy(infos) >= UsedBy(infos)
    ensures CountedBy(infos) == UsedBy(infos) <==> forall k :: 0 <= k < |infos| ==> infos[k].numAttrs == infos[k].Used()
  {
    hide Notifies;
    if infos != [] {
      var rest := infos[1..];
      NoneShort(rest);
      if forall k :: 0 <= k < |rest| ==> rest[k].numAttrs == rest[k].Used() {
        assert forall k :: 1 <= k < |infos| ==> infos[k] == rest[k - 1];
      }
    }
  }

  /** The characteristic was given as many notifying PROPS options as its last one needs. */
  predicate NotifiesOnce(group: seq<Opt>)
  {
    NotifyOptions(group) == if Notifies(FinalProps(group)) then 1 else 0
  }

  /**
   * What `gatt_service_add` asserts at its end: the handles counted are the handles used, exactly if
   * every characteristic was given as many notifying PROPS options as its last one needs. A list that
   * does not begin with a UUID is refused before that.
   */
  lemma CountedIsUsed(opts: seq<Opt>)
    ensures if opts != [] && opts[0].ChrUuid? then
              && CountedBy(Parse(opts)) >= UsedBy(Parse(opts))
              && (CountedBy(Parse(opts)) == UsedBy(Parse(opts)) <==> forall g :: g in Groups(opts) ==> NotifiesOnce(g))
            else !Acceptable(Parse(opts)[0])
  {
    hide Notifies, Parse, InfoOf, Groups, UuidOptions, NotifyOptions, FinalProps, PropsOptions, CountedBy, UsedBy;
    var infos, groups := Parse(opts), Groups(opts);
    ParsedByGroup(opts);
    UuidOptionsOf(opts);
    CountOfGroup(groups[0]);
    if opts != [] && opts[0].ChrUuid? {
      forall k | 0 <= k < |infos|
        ensures infos[k].numAttrs >= infos[k].Used()
        ensures infos[k].numAttrs == infos[k].Used() <==> NotifiesOnce(groups[k])
      {
        CountOfGroup(groups[k]);
      }
      NoneShort(infos);
      assert (forall g :: g in groups ==> NotifiesOnce(g))
        <==> forall k :: 0 <= k < |groups| ==> NotifiesOnce(groups[k]);
    }
  }

  /** In particular if no characteristic was given its properties more than once. */
  lemma OnePropsEach(opts: seq<Opt>)
    requires opts != [] && opts[0].ChrUuid? && forall g :: g in Groups(opts) ==> PropsOptions(g) <= 1
    ensures CountedBy(Parse(opts)) == UsedBy(Parse(opts))
  {
    hide Notifies, Parse, Groups, PropsOptions, NotifyOptions, FinalProps, CountedBy, UsedBy;
    CountedIsUsed(opts);
    forall g | g in Groups(opts) ensures NotifiesOnce(g) {
      CountOfGroup(g);
    }
  }

  /** Notifications asked for twice are counted twice: four handles, of which three are used. */
  lemma CountedTwice(uuid: octets)
    ensures var opts := [ChrUuid(uuid), ChrProps(0x10), ChrProps(0x10)];
            CountedBy(Parse(opts)) == 4 && UsedBy(Parse(opts)) == 3
  {
    var opts := [ChrUuid(uuid), ChrProps(0x10), ChrProps(0x10)];
    assert opts[..2][..1] == opts[..1] && opts[..1][..0] == [];
    var first := Apply(NO_INFO, opts[0]);
    assert Parse(opts[..1]) == [first];
    assert Parse(opts[..2]) == [Apply(first, opts[1])];
    var last := Apply(Apply(first, opts[1]), opts[2]);
    assert Parse(opts) == [last] && [last][1..] == [];
  }

  // ---------------------------------------------------------------- what is registered

  /** The attributes of one characteristic. */
  function Attributes(h: nat, info: Info): (m: Db)
    requires h + info.Used() <= 0x1_0000
    ensures forall k: uint16 :: k in m <==> h <= k < h + info.Used()
  {
    var two: Db := map[h := Declaration(h, info), h + 1 := Value(info)];
    if Notifies(info.props) then two[h + 2 := CONFIGURATION] else two
  }

  /** The attributes of all characteristics, one after the other. */
  function Layout(h: nat, infos: seq<Info>): (m: Db)
    requires h + UsedBy(infos) <= 0x1_0000
    ensures forall k: uint16 :: k in m <==> h <= k < h + UsedBy(infos)
    decreases |infos|
  {
    if infos == [] then map[]
    else Attributes(h, infos[0]) + Layout(h + infos[0].Used(), infos[1..])
  }

  predicate Free(db: Db, start: nat, end: nat) { forall h: uint16 :: start <= h < end ==> h !in db }

  lemma AddCharacteristicWorks(db: Db, h: uint16, info: Info)
    requires Acceptable(info) && h + info.Used() <= 0x1_0000 && Free(db, h, h + info.Used())
    ensures AddCharacteristic(db, h, info) == Added(db + Attributes(h, info), Wrap16(h + info.Used()), true)
  {
  }

  /** The characteristics before the first one that is not acceptable. */
  function Good(infos: seq<Info>): (r: seq<Info>)
    ensures r <= infos && (r == infos <==> forall k :: 0 <= k < |infos| ==> Acceptable(infos[k]))
    ensures forall k :: 0 <= k < |r| ==> Acceptable(r[k])
  {
    if infos == [] || !Acceptable(infos[0]) then []
    else
      var rest := Good(infos[1..]);
      assert rest == infos[1..] ==> forall k :: 1 <= k < |infos| ==> infos[k] == rest[k - 1];
      [infos[0]] + rest
  }

  lemma AddedInTurn(db: Db, a: Db, b: Db)
    ensures (db + a) + b == db + (a + b)
  {
  }

  lemma GoodSplit(infos: seq<Info>)
    requires infos != [] && Acceptable(infos[0])
    ensures var good, rest := Good(infos), Good(infos[1..]);
            good == [infos[0]] + rest && good[1..] == rest && good[0] == infos[0]
            && UsedBy(good) == infos[0].Used() + UsedBy(rest)
            && (good == infos <==> rest == infos[1..])
  {
    hide Notifies, Acceptable;
    assert infos == [infos[0]] + infos[1..];
    assert ([infos[0]] + Good(infos[1..]))[1..] == Good(infos[1..]);
  }

  lemma FreeSplit(db: Db, h: nat, info: Info, more: nat)
    requires h + info.Used() + more <= 0x1_0000 && Free(db, h, h + info.Used() + more)
    ensures Free(db, h, h + info.Used())
    ensures Free(db + Attributes(h, info), h + info.Used(), h + info.Used() + more)
  {
    hide Notifies, Attributes;
  }

  lemma OneAdded(db: Db, h: nat, infos: seq<Info>)
    requires infos != [] && Acceptable(infos[0]) && h + infos[0].Used() <= 0x1_0000 && Free(db, h, h + infos[0].Used())
    ensures AddAll(db, Wrap16(h), infos)
         == AddAll(db + Attributes(h, infos[0]), Wrap16(h + infos[0].Used()), infos[1..])
  {
    hide Notifies, AddCharacteristic, Attributes, Acceptable, Free;
    AddCharacteristicWorks(db, h, infos[0]);
  }

  lemma LayoutSplit(h: nat, info: Info, rest: seq<Info>)
    requires h + info.Used() + UsedBy(rest) <= 0x1_0000
    ensures UsedBy([info] + rest) == info.Used() + UsedBy(rest)
    ensures Layout(h, [info] + rest) == Attributes(h, info) + Layout(h + info.Used(), rest)
  {
    hide Notifies, Attributes;
    assert ([info] + rest)[1..] == rest;
  }

  lemma {:induction false} AddAllWorks(db: Db, h: nat, infos: seq<Info>)
    requires h + UsedBy(Good(infos)) <= 0x1_0000 && Free(db, h, h + UsedBy(Good(infos)))
    ensures AddAll(db, Wrap16(h), infos)
         == Added(db + Layout(h, Good(infos)), Wrap16(h + UsedBy(Good(infos))), Good(infos) == infos)
    decreases |infos|
  {
    hide Notifies, Attributes, Acceptable, AddCharacteristic, Good, AddAll, UsedBy, Free, Layout, Wrap16;
    if infos == [] || !Acceptable(infos[0]) {
      NoneAdded(db, h, infos);
    } else {
      var info, rest := infos[0], infos[1..];
      var more := Good(rest);
      GoodSplit(infos);
      FreeSplit(db, h, info, UsedBy(more));
      OneAdded(db, h, infos);
      LayoutSplit(h, info, more);
      AddAllWorks(db + Attributes(h, info), h + info.Used(), rest);
      AddedInTurn(db, Attributes(h, info), Layout(h + info.Used(), more));
    }
  }

  lemma NoneAdded(db: Db, h: nat, infos: seq<Info>)
    requires h <= 0x1_0000 && (infos == [] || !Acceptable(infos[0]))
    ensures h + UsedBy(Good(infos)) == h
    ensures AddAll(db, Wrap16(h), infos)
         == Added(db + Layout(h, Good(infos)), Wrap16(h + UsedBy(Good(infos))), Good(infos) == infos)
  {
    hide Notifies, Acceptable;
    assert Good(infos) == [] && db + map[] == db;
  }

  /** The acceptable characteristics never use more than what was counted for all of them. */
  lemma {:induction false} GoodFits(infos: seq<Info>)
    requires forall k :: 0 <= k < |infos| ==> (infos[k].uuid != [] ==> infos[k].numAttrs >= infos[k].Used())
    ensures UsedBy(Good(infos)) <= CountedBy(infos)
  {
    hide Notifies;
    if infos != [] && Acceptable(infos[0]) {
      GoodFits(infos[1..]);
      assert Good(infos)[1..] == Good(infos[1..]);
    }
  }

  /** `attrib_db_find_avail` has found room for what was counted, or none. */
  predicate RoomAt(db: Db, start: uint16, infos: seq<Info>)
  {
    start != 0 ==>
      && start + CountedBy(infos) <= 0xffff
      && Free(db, start, start + 1 + CountedBy(infos))
  }

  /**
   * Registration succeeds exactly if there was room and every characteristic is acceptable. It then
   * adds the service declaration and the characteristics in order, and otherwise leaves the database
   * as it was.
   */
  lemma ServiceAddExactly(db: Db, start: uint16, kind: octets, uuid: octets, opts: seq<Opt>)
    requires RoomAt(db, start, Parse(opts))
    ensures var (db', ok) := ServiceAdd(db, start, kind, uuid, opts);
            var infos := Parse(opts);
            && (ok <==> start != 0 && forall k :: 0 <= k < |infos| ==> Acceptable(infos[k]))
            && (!ok ==> db' == db)
            && (ok ==> start + UsedBy(infos) <= 0xffff
                       && db' == db + map[start := ServiceDeclaration(kind, uuid)] + Layout(start + 1, infos))
  {
    hide Parse, Layout, AddAll, Acceptable, ServiceAdd, Without;
    var infos := Parse(opts);
    NeverTooFew(opts);
    GoodFits(infos);
    if start == 0 {
      NoRoom(db, kind, uuid, opts);
    } else {
      AddsGood(db, start, kind, uuid, opts);
      if Good(infos) != infos { Undone(db, start, ServiceDeclaration(kind, uuid), Good(infos)); }
    }
  }

  /**
   * The two assertions at the end of a successful registration, that not all handles are needed and that
   * as many were used as were counted, hold exactly for such option lists, unless they take all handles.
   */
  lemma AssertionHolds(db: Db, start: uint16, kind: octets, uuid: octets, opts: seq<Opt>)
    requires RoomAt(db, start, Parse(opts)) && ServiceAdd(db, start, kind, uuid, opts).1
    ensures var h := AddAll(db[start := ServiceDeclaration(kind, uuid)], Wrap16(start + 1), Parse(opts)).next;
            var size := CountedBy(Parse(opts)) + 1;
            size < 0xffff && (h == 0 || h - start == size)
            <==> (forall g :: g in Groups(opts) ==> NotifiesOnce(g)) && !(start == 1 && size == 0xffff)
  {
    hide Parse, Layout, AddAll, Acceptable, ServiceAdd, Groups, NotifiesOnce, CountedBy, UsedBy;
    var infos, declaration := Parse(opts), ServiceDeclaration(kind, uuid);
    ServiceAddExactly(db, start, kind, uuid, opts);
    CountedIsUsed(opts);
    assert Acceptable(infos[0]) && Good(infos) == infos;
    AddAllWorks(db[start := declaration], start + 1, infos);
  }

  lemma NoRoom(db: Db, kind: octets, uuid: octets, opts: seq<Opt>)
    ensures ServiceAdd(db, 0, kind, uuid, opts) == (db, false)
  {
    hide Parse, AddAll;
  }

  lemma AddsGood(db: Db, start: uint16, kind: octets, uuid: octets, opts: seq<Opt>)
    requires start != 0 && start + UsedBy(Good(Parse(opts))) <= 0xffff
    requires Free(db, start, start + 1 + UsedBy(Good(Parse(opts))))
    ensures var infos := Parse(opts);
            var all := db + map[start := ServiceDeclaration(kind, uuid)] + Layout(start + 1, Good(infos));
            ServiceAdd(db, start, kind, uuid, opts)
            == if Good(infos) == infos then (all, true)
               else (Without(all, start, start + UsedBy(Good(infos))), false)
  {
    hide Notifies, Parse, Layout, AddAll, Good, Without;
    var infos, declaration := Parse(opts), ServiceDeclaration(kind, uuid);
    assert db[start := declaration] == db + map[start := declaration];
    assert start !in db;
    AddAllWorks(db[start := declaration], start + 1, infos);
  }

  lemma Undone(db: Db, start: uint16, declaration: Attribute, infos: seq<Info>)
    requires start + UsedBy(infos) <= 0xffff && Free(db, start, start + 1 + UsedBy(infos))
    ensures var end := start + UsedBy(infos);
            Without(db + map[start := declaration] + Layout(start + 1, infos), start, end) == db
  {
    hide Notifies;
  }

  // ---------------------------------------------------------------- what is discovered

  /** The characteristic declarations of a range, as a Read By Type response carries them. */
  function Declared(db: Db, h: nat, end: nat): seq<Entry>
    requires end <= 0xffff
    decreases end + 1 - h
  {
    if h > end then []
    else
      var rest := Declared(db, h + 1, end);
      if h in db && Uuid128(db[h].uuid) == Uuid128(GATT_CHARAC_UUID) then
        var wire := PutLe16(h) + db[h].value;
        [Entry(h, h, wire, if |wire| == 7 || |wire| == 21 then CharacteristicOf(wire) else Descriptor(h, []))] + rest
      else rest
  }

  /** The entries that were registered. */
  function Registered(h: nat, infos: seq<Info>): (r: seq<Entry>)
    requires h + UsedBy(infos) <= 0x1_0000
    ensures |r| == |infos|
    decreases |infos|
  {
    if infos == [] then []
    else
      [CharacteristicEntry(h, infos[0].props, h + 1, infos[0].uuid)] + Registered(h + infos[0].Used(), infos[1..])
  }

  /** A characteristic that can be told from a declaration. */
  predicate Proper(info: Info) { Acceptable(info) && Uuid128(info.uuid) != Uuid128(GATT_CHARAC_UUID) }

  lemma DeclarationEntry(h: uint16, info: Info)
    requires Proper(info) && h < 0xffff
    ensures var wire := PutLe16(h) + Declaration(h, info).value;
            && (|wire| == 7 || |wire| == 21)
            && Entry(h, h, wire, CharacteristicOf(wire)) == CharacteristicEntry(h, info.props, h + 1, info.uuid)
  {
    var wire := PutLe16(h) + Declaration(h, info).value;
    assert wire == PutLe16(h) + [info.props] + PutLe16(h + 1) + info.uuid;
    assert wire[5..] == info.uuid && wire[0..2] == PutLe16(h) && wire[3..5] == PutLe16(h + 1);
  }

  lemma ConfigurationIsNoDeclaration()
    ensures Uuid128(GATT_CLIENT_CHARAC_CFG_UUID) != Uuid128(GATT_CHARAC_UUID)
  {
    if Uuid128(GATT_CLIENT_CHARAC_CFG_UUID) == Uuid128(GATT_CHARAC_UUID) {
      Uuid128Injective(GATT_CLIENT_CHARAC_CFG_UUID, GATT_CHARAC_UUID);
    }
  }

  predicate Holds(db: Db, m: Db) { forall k :: k in m ==> k in db && db[k] == m[k] }

  lemma HoldsSplit(db: Db, a: Db, b: Db)
    requires Holds(db, a + b) && forall k :: k in a ==> k !in b
    ensures Holds(db, a) && Holds(db, b)
  {
    forall k | k in a ensures k in db && db[k] == a[k] { assert k in a + b; }
    forall k | k in b ensures k in db && db[k] == b[k] { assert k in a + b; }
  }

  /** Reading the declarations of a registered range gives the registered characteristics. */
  lemma {:induction false} DeclaredIsRegistered(db: Db, h: nat, infos: seq<Info>, end: nat)
    requires end + 1 == h + UsedBy(infos) <= 0x1_0000
    requires (forall k :: 0 <= k < |infos| ==> Proper(infos[k])) && Holds(db, Layout(h, infos))
    ensures Declared(db, h, end) == Registered(h, infos)
    decreases |infos|
  {
    hide Notifies, Attributes, Holds, Proper;
    if infos != [] {
      var info, h' := infos[0], h + infos[0].Used();
      HoldsSplit(db, Attributes(h, info), Layout(h', infos[1..]));
      OneDeclared(db, h, info, end);
      DeclaredIsRegistered(db, h', infos[1..], end);
    }
  }

  lemma OneDeclared(db: Db, h: nat, info: Info, end: nat)
    requires Proper(info) && h + info.Used() <= end + 1 <= 0x1_0000 && Holds(db, Attributes(h, info))
    ensures Declared(db, h, end)
         == [CharacteristicEntry(h, info.props, h + 1, info.uuid)] + Declared(db, h + info.Used(), end)
  {
    hide Notifies, Uuid128, CharacteristicOf;
    DeclarationEntry(h, info);
    ConfigurationIsNoDeclaration();
    assert h in Attributes(h, info) && h + 1 in Attributes(h, info);
    assert db[h] == Declaration(h, info) && db[h + 1] == Value(info);
    assert Declared(db, h + 1, end) == Declared(db, h + 2, end);
    if Notifies(info.props) {
      assert h + 2 in Attributes(h, info) && db[h + 2] == CONFIGURATION;
      assert Declared(db, h + 2, end) == Declared(db, h + 3, end);
    }
  }

  lemma {:induction false} RegisteredWellFormed(proc: Procedure, h: nat, infos: seq<Info>, end: uint16)
    requires proc.Characteristics? && proc.end == end && 1 <= h && end + 1 == h + UsedBy(infos) <= 0x1_0000
    requires forall k :: 0 <= k < |infos| ==> Proper(infos[k])
    ensures WellFormed(proc, Registered(h, infos))
    ensures forall e :: e in Registered(h, infos) ==> h <= e.first && e.last < end
    decreases |infos|
  {
    hide Notifies, Acceptable, Uuid128, CharacteristicEntry, Fits;
    if infos != [] {
      var info, h' := infos[0], h + infos[0].Used();
      RegisteredWellFormed(proc, h', infos[1..], end);
      OneFits(proc, h, info);
      Prepended(proc, CharacteristicEntry(h, info.props, h + 1, info.uuid), Registered(h', infos[1..]), h');
    }
  }

  lemma OneFits(proc: Procedure, h: nat, info: Info)
    requires Proper(info) && proc.Characteristics? && h < proc.end
    ensures var e := CharacteristicEntry(h, info.props, h + 1, info.uuid); Fits(proc, e) && e.first == e.last == h
  {
    hide Notifies, Uuid128;
  }

  lemma Prepended(proc: Procedure, e: Entry, rest: seq<Entry>, h: nat)
    requires Fits(proc, e) && 1 <= e.first <= e.last && e.last + 1 < h && WellFormed(proc, rest)
    requires forall x :: x in rest ==> h <= x.first
    ensures WellFormed(proc, [e] + rest)
  {
    hide Fits;
    var all := [e] + rest;
    forall i, j | 0 <= i < j < |all|
      ensures all[i].last < all[j].first
      ensures proc.Characteristics? && all[j].first == proc.end ==> all[i].last + 1 < proc.end
    {
      assert all[j] == rest[j - 1] && rest[j - 1] in rest;
    }
  }

  /** What a client should be told about them. */
  function Expected(h: nat, infos: seq<Info>): seq<Found>
    requires h + UsedBy(infos) <= 0x1_0000
    decreases |infos|
  {
    if infos == [] then []
    else
      [Characteristic(h, infos[0].props, h + 1, Uuid128(infos[0].uuid))] + Expected(h + infos[0].Used(), infos[1..])
  }

  lemma {:induction false} KeptIsExpected(proc: Procedure, h: nat, infos: seq<Info>)
    requires proc.Characteristics? && proc.only.None? && h + UsedBy(infos) <= 0x1_0000
    ensures Kept(proc, Registered(h, infos)) == Expected(h, infos)
    decreases |infos|
  {
    hide Notifies;
    if infos != [] {
      var h' := h + infos[0].Used();
      var e, rest := CharacteristicEntry(h, infos[0].props, h + 1, infos[0].uuid), Registered(h', infos[1..]);
      KeptIsExpected(proc, h', infos[1..]);
      KeptConcat(proc, [e], rest);
      assert [e][..0] == [];
      assert Kept(proc, [e]) == [e.found];
    }
  }

  /** The database after a registration, and the last handle of the service. */
  predicate WasRegistered(db: Db, start: uint16, kind: octets, uuid: octets, opts: seq<Opt>, end: uint16)
  {
    && start != 0 && RoomAt(db, start, Parse(opts))
    && Uuid128(kind) != Uuid128(GATT_CHARAC_UUID)
    && (forall k :: 0 <= k < |Parse(opts)| ==> Proper(Parse(opts)[k]))
    && end == start + UsedBy(Parse(opts))
  }

  lemma RegisteredRange(db: Db, start: uint16, kind: octets, uuid: octets, opts: seq<Opt>, end: uint16)
    requires WasRegistered(db, start, kind, uuid, opts, end)
    ensures Declared(ServiceAdd(db, start, kind, uuid, opts).0, start, end) == Registered(start + 1, Parse(opts))
    ensures WellFormed(Characteristics(end, None), Registered(start + 1, Parse(opts)))
    ensures forall e :: e in Registered(start + 1, Parse(opts)) ==> start + 1 <= e.first && e.last < end
  {
    hide Notifies, Uuid128, Parse, ServiceAdd, Acceptable, CountedBy, Registered, WellFormed;
    var infos := Parse(opts);
    ServiceAddExactly(db, start, kind, uuid, opts);
    var db' := ServiceAdd(db, start, kind, uuid, opts).0;
    assert db'[start] == ServiceDeclaration(kind, uuid);
    DeclaredIsRegistered(db', start + 1, infos, end);
    RegisteredWellFormed(Characteristics(end, None), start + 1, infos, end);
  }

  /**
   * What is registered is what is discovered: for every legal way in which the server packs its
   * responses, discovering the service's range reports exactly its characteristics, in order, with
   * their handles, properties, value handles and UUIDs.
   */
  lemma RegisteredIsDiscovered(db: Db, start: uint16, kind: octets, uuid: octets, opts: seq<Opt>, end: uint16,
                               stray: Stray, replies: seq<Reply>)
    requires WasRegistered(db, start, kind, uuid, opts, end)
    requires (RegisteredRange(db, start, kind, uuid, opts, end);
              LegalReplies(Declared(ServiceAdd(db, start, kind, uuid, opts).0, start, end),
                           Begin(Characteristics(end, None), start, stray), replies))
    requires |replies| > |Parse(opts)|
    ensures var d := AfterRun(Begin(Characteristics(end, None), start, stray), replies);
            !d.pending && d.calls == [0] && d.found == Expected(start + 1, Parse(opts))
  {
    hide Notifies, Parse, Uuid128, ServiceAdd, Proper, CountedBy, Declared, Registered, Kept, RoomAt, WellFormed,
         AfterRun, LegalReplies, FinalCode, Expected;
    var proc, infos := Characteristics(end, None), Parse(opts);
    RegisteredRange(db, start, kind, uuid, opts, end);
    StartInRange(db, start, kind, uuid, opts, end);
    Discovered(proc, start, stray, Registered(start + 1, infos), replies);
    KeptIsExpected(proc, start + 1, infos);
    EndsWell(proc, Registered(start + 1, infos), Expected(start + 1, infos));
  }

  lemma StartInRange(db: Db, start: uint16, kind: octets, uuid: octets, opts: seq<Opt>, end: uint16)
    requires WasRegistered(db, start, kind, uuid, opts, end)
    ensures start < end && start + 1 + UsedBy(Parse(opts)) <= 0x1_0000 && Expected(start + 1, Parse(opts)) != []
  {
    hide Notifies, Parse, Acceptable, Uuid128;
  }

  /** A search that finds something, and nothing at the last handle of all, reports no error. */
  lemma EndsWell(proc: Procedure, db: seq<Entry>, found: seq<Found>)
    requires proc.Characteristics? && (forall e :: e in db ==> e.last < proc.end) && Kept(proc, db) == found != []
    ensures FinalCode(proc, db) == 0
  {
    hide Kept;
  }
}
