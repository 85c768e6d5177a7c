/** Where a service goes in the handle space: 16-bit services from below, 128-bit services from above. */
module GattAvail {
  import opened Bytes
  import opened GattDiscover
  import opened GattService

  /** An attribute of the database list: whether it declares a service, and the length of its value. */
  datatype Item = Item(handle: uint16, service: bool, len: nat)

  /** The list is sorted by handle, and handle 0 is none. */
  predicate Sorted(items: seq<Item>)
  {
    && (forall i :: 0 <= i < |items| ==> 1 <= items[i].handle)
    && (forall i, j :: 0 <= i < j < |items| ==> items[i].handle < items[j].handle)
  }

  /** `n` handles from `start` on exist and are taken by no item. */
  predicate FreeRange(items: seq<Item>, start: nat, n: nat)
  {
    1 <= start && start + n <= 0x1_0000 && forall i :: 0 <= i < |items| ==> !(start <= items[i].handle < start + n)
  }

  /** The handle of the item is one of `n` from `start` on. */
  predicate Within(item: Item, start: nat, n: nat) { start <= item.handle < start + n }

  /** Services are the first things in the list, as they are if all attributes were added with one. */
  predicate ServiceFirst(items: seq<Item>) { items != [] ==> items[0].service }

  /** The item comes before any service. */
  predicate Loose(items: seq<Item>, i: nat)
    requires i < |items|
  {
    forall k :: 0 <= k <= i ==> !items[k].service
  }

  // ---------------------------------------------------------------- gaps

  /** The handles before item `i`, or behind the last: from the one behind the item before. */
  function GapStart(items: seq<Item>, i: nat): nat
    requires i <= |items|
  {
    if i == 0 then 1 else items[i - 1].handle + 1
  }

  /** And up to the one before this. */
  function GapEnd(items: seq<Item>, i: nat): nat
    requires i <= |items|
  {
    if i == |items| then 0x1_0000 else items[i].handle
  }

  /** There are `n` handles before item `i`, which is a service, or behind all items. */
  predicate Gap(items: seq<Item>, i: nat, n: nat)
  {
    i <= |items| && (i < |items| ==> items[i].service) && GapEnd(items, i) - GapStart(items, i) >= n
  }

  /** Such a gap below all 128-bit services. */
  predicate Fits16(items: seq<Item>, i: nat, n: nat)
  {
    Gap(items, i, n) && forall k :: 0 <= k < i ==> !(items[k].service && items[k].len == 16)
  }

  predicate NoneShort(items: seq<Item>, i: nat)
  {
    forall k :: i <= k < |items| ==> !(items[k].service && items[k].len == 2)
  }

  /** Such a gap behind some service, and above all others that are 16-bit services. */
  predicate Fits128(items: seq<Item>, i: nat, n: nat)
  {
    Gap(items, i, n) && NoneShort(items, i) && exists k :: 0 <= k < i && items[k].service
  }

  /** Where the first service is, or the end of the list. */
  function FirstService(items: seq<Item>): (i: nat)
    ensures i <= |items| && (i < |items| ==> items[i].service) && forall k :: 0 <= k < i ==> !items[k].service
  {
    if items == [] || items[0].service then 0
    else
      var rest := FirstService(items[1..]);
      assert forall k :: 1 <= k < rest + 1 ==> items[k] == items[1..][k - 1];
      rest + 1
  }

  /** There is room before the first service, of one handle more than is needed, and no 16-bit service. */
  predicate FitsBelow(items: seq<Item>, n: nat)
  {
    NoneShort(items, 0) && GapEnd(items, FirstService(items)) >= n + 2
  }

  /**
   * `find_uuid16_avail`: the first gap that is large enough, if there is one below all 128-bit services.
   */
  method FindUuid16Avail(items: seq<Item>, nitems: uint16) returns (start: uint16)
    requires Sorted(items) && nitems > 0
    ensures start != 0 <==> exists i: nat :: Fits16(items, i, nitems)
    ensures start != 0 ==> exists i: nat :: Fits16(items, i, nitems) && start == GapStart(items, i)
                                       && forall k :: 0 <= k < i ==> !Fits16(items, k, nitems)
    ensures start != 0 ==> FreeRange(items, start, nitems)
    ensures start != 0 ==>
              forall i :: 0 <= i < |items| && items[i].service && items[i].len == 16 ==> start < items[i].handle
  {
    if items == [] {
      assert Fits16(items, 0, nitems);
      return 1;
    }
    var handle: nat := 1;
    for i := 0 to |items|
      invariant 1 <= handle <= 0xffff && handle == GapStart(items, i)
      invariant forall k :: 0 <= k < i ==> !Fits16(items, k, nitems)
      invariant forall k :: 0 <= k < i ==> items[k].handle < handle && !(items[k].service && items[k].len == 16)
      invariant forall k :: i <= k < |items| ==> handle <= items[k].handle
    {
      var a := items[i];
      if a.service && a.handle - handle >= nitems {
        assert Fits16(items, i, nitems);
        return handle;
      }
      if a.service && a.len == 16 { return 0; }
      if a.handle == 0xffff { return 0; }
      handle := a.handle + 1;
    }
    if 0xffff - handle + 1 >= nitems {
      assert Fits16(items, |items|, nitems);
      return handle;
    }
    return 0;
  }

  /** The gaps from index `i` on do not fit. */
  predicate NoneFrom(items: seq<Item>, i: nat, n: nat) { forall k :: i <= k <= |items| ==> !Fits128(items, k, n) }

  /**
   * `find_uuid128_avail`: the end of the last gap that is large enough, if there is one above all 16-bit
   * services. It overlooks what comes before the first service, and nothing else.
   */
  method FindUuid128Avail(items: seq<Item>, nitems: uint16) returns (start: uint16)
    requires Sorted(items) && nitems > 0
    ensures items == [] ==> start == 0x1_0000 - nitems
    ensures items != [] && NoneFrom(items, 0, nitems) ==>
              start == if FitsBelow(items, nitems) then GapEnd(items, FirstService(items)) - nitems else 0
    ensures !NoneFrom(items, 0, nitems) ==>
              exists i: nat :: Fits128(items, i, nitems) && start == GapEnd(items, i) - nitems
                             && NoneFrom(items, i + 1, nitems)
    ensures start != 0 ==> start + nitems <= 0x1_0000
    ensures start != 0 ==> forall i :: 0 <= i < |items| && Within(items[i], start, nitems) ==> Loose(items, i)
    ensures start != 0 && ServiceFirst(items) ==> FreeRange(items, start, nitems)
    ensures start != 0 ==>
              forall i :: 0 <= i < |items| && items[i].service && items[i].len == 2 ==> items[i].handle < start
  {
    if items == [] { return 0xffff - nitems + 1; }
    hide Fits128, FitsBelow, NoneFrom, NoneShort, FreeRange, Loose, Within, Sorted;
    var handle: nat, end: nat := 0, 0xffff;
    var i := |items|;
    ghost var gap := i;
    NothingAbove(items, nitems);
    while i > 0
      invariant 0 <= i <= gap <= |items| && end + 1 == GapEnd(items, gap) && (gap < |items| ==> items[gap].service)
      invariant if handle == 0 then gap == i else i < gap && handle == items[gap - 1].handle
      invariant forall k :: i <= k < gap ==> !items[k].service
      invariant NoneFrom(items, gap + 1, nitems) && NoneShort(items, gap)
    {
      i := i - 1;
      var a := items[i];
      ItemHandle(items, i);
      if handle == 0 { handle := a.handle; }
      if a.service {
        if end - handle >= nitems {
          GapFits(items, i, gap, nitems);
          GapIsFree(items, gap, nitems);
          return end - nitems + 1;
        }
        NothingBetween(items, i, gap, nitems);
        if a.len == 2 || a.handle == 1 {
          Exhausted(items, i, nitems);
          return 0;
        }
        end := a.handle - 1;
        handle := 0;
        gap := i;
      }
    }
    OnlyBelow(items, gap, nitems);
    if end - 1 >= nitems {
      BelowIsFree(items, nitems);
      return end - nitems + 1;
    }
    return 0;
  }

  lemma NothingAbove(items: seq<Item>, n: nat)
    ensures NoneFrom(items, |items| + 1, n) && NoneShort(items, |items|)
  {
  }

  lemma ItemHandle(items: seq<Item>, i: nat)
    requires Sorted(items) && i < |items|
    ensures 1 <= items[i].handle && (items[i].handle == 1 ==> i == 0)
  {
    var first := items[0].handle;
    assert i > 0 ==> first < items[i].handle;
  }

  lemma GapFits(items: seq<Item>, i: nat, gap: nat, n: nat)
    requires i < gap && Gap(items, gap, n) && NoneShort(items, gap) && items[i].service
    requires NoneFrom(items, gap + 1, n)
    ensures Fits128(items, gap, n) && !NoneFrom(items, 0, n)
  {
  }

  /** The gaps down to a service have been looked at, and none fits; so may the ones below it. */
  lemma NothingBetween(items: seq<Item>, i: nat, gap: nat, n: nat)
    requires i < gap <= |items| && NoneFrom(items, gap + 1, n) && !Gap(items, gap, n) && NoneShort(items, gap)
    requires forall k :: i < k < gap ==> !items[k].service
    ensures NoneFrom(items, i + 1, n) && (items[i].len != 2 ==> NoneShort(items, i))
  {
  }

  /** Below a 16-bit service, and below handle 1, there is nothing to find. */
  lemma Exhausted(items: seq<Item>, i: nat, n: nat)
    requires Sorted(items) && i < |items| && items[i].service && NoneFrom(items, i + 1, n)
    requires items[i].len == 2 || items[i].handle == 1
    ensures NoneFrom(items, 0, n) && !FitsBelow(items, n)
  {
    ItemHandle(items, i);
    if items[i].len == 2 {
      assert forall k :: 0 <= k <= i ==> !NoneShort(items, k);
    }
  }

  /** When all items have been looked at, only the handles below the first service are left. */
  lemma OnlyBelow(items: seq<Item>, gap: nat, n: nat)
    requires gap <= |items| && (gap < |items| ==> items[gap].service) && forall k :: 0 <= k < gap ==> !items[k].service
    requires NoneFrom(items, gap + 1, n) && NoneShort(items, gap)
    ensures FirstService(items) == gap && NoneFrom(items, 0, n)
    ensures FitsBelow(items, n) <==> GapEnd(items, gap) >= n + 2
  {
  }

  /** The end of a gap is free, and behind everything that comes before the gap. */
  lemma GapIsFree(items: seq<Item>, i: nat, n: nat)
    requires Sorted(items) && Gap(items, i, n) && 0 < n
    ensures FreeRange(items, GapEnd(items, i) - n, n)
    ensures forall k :: 0 <= k < i ==> items[k].handle < GapEnd(items, i) - n
  {
  }

  /** What lies below the first service may be taken, by what comes before it. */
  lemma BelowIsFree(items: seq<Item>, n: nat)
    requires Sorted(items) && FitsBelow(items, n)
    ensures var start := GapEnd(items, FirstService(items)) - n;
            && forall k :: 0 <= k < |items| && Within(items[k], start, n) ==> Loose(items, k)
    ensures ServiceFirst(items) ==> FreeRange(items, GapEnd(items, FirstService(items)) - n, n)
  {
  }

  /** There are handles for `n` attributes of a service with this UUID. */
  ghost predicate RoomFor(items: seq<Item>, uuid: octets, n: nat)
  {
    if |uuid| == 2 then exists i: nat :: Fits16(items, i, n)
    else |uuid| == 16 && (items == [] || FitsBelow(items, n) || exists i: nat :: Fits128(items, i, n))
  }

  /** `attrib_db_find_avail`. */
  method FindAvail(items: seq<Item>, uuid: octets, nitems: uint16) returns (start: uint16)
    requires Sorted(items) && nitems > 0
    ensures start != 0 <==> RoomFor(items, uuid, nitems)
    ensures start != 0 && (|uuid| == 2 || ServiceFirst(items)) ==> FreeRange(items, start, nitems)
    ensures !IsUuid(uuid) ==> start == 0
  {
    if |uuid| == 2 {
      start := FindUuid16Avail(items, nitems);
    } else if |uuid| == 16 {
      start := FindUuid128Avail(items, nitems);
    } else {
      start := 0;
    }
  }

  /** The list that a database map stands for holds every handle that is taken. */
  predicate Lists(items: seq<Item>, db: Db)
  {
    forall h :: h in db ==> exists i :: 0 <= i < |items| && items[i].handle == h
  }

  /** The handles that were found are room for what `parse_opts` counted. */
  lemma FoundIsRoom(items: seq<Item>, db: Db, start: uint16, opts: seq<Opt>)
    requires Lists(items, db) && (start != 0 ==> FreeRange(items, start, 1 + CountedBy(Parse(opts))))
    ensures RoomAt(db, start, Parse(opts))
  {
    hide Parse, CountedBy;
    var size := 1 + CountedBy(Parse(opts));
    assert start != 0 ==> Free(db, start, start + size);
  }

  /**
   * Registration from the search for handles on: it succeeds exactly if there was room and every
   * characteristic is acceptable.
   */
  method RegisterService(items: seq<Item>, db: Db, kind: octets, uuid: octets, opts: seq<Opt>)
    returns (db': Db, start: uint16, ok: bool)
    requires Sorted(items) && (|uuid| == 16 ==> ServiceFirst(items)) && Lists(items, db)
    requires CountedBy(Parse(opts)) < 0xffff
    ensures ok <==> && RoomFor(items, uuid, CountedBy(Parse(opts)) + 1)
                    && forall k :: 0 <= k < |Parse(opts)| ==> Acceptable(Parse(opts)[k])
    ensures !ok ==> db' == db
    ensures ok ==> && start + UsedBy(Parse(opts)) <= 0xffff
                   && (forall h: uint16 :: start <= h <= start + UsedBy(Parse(opts)) ==> h !in db)
                   && db' == db + map[start := ServiceDeclaration(kind, uuid)] + Layout(start + 1, Parse(opts))
  {
    var size := CountedBy(Parse(opts)) + 1;
    start := FindAvail(items, uuid, size);
    assert start != 0 ==> IsUuid(uuid);
    FoundIsRoom(items, db, start, opts);
    ServiceAddExactly(db, start, kind, uuid, opts);
    NeverTooFew(opts);
    GoodFits(Parse(opts));
    var added := ServiceAdd(db, start, kind, uuid, opts);
    db', ok := added.0, added.1;
  }
}
