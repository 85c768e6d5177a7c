/** The discovery callbacks, which update their procedure's record in place. */
module GattClient {
  import opened Bytes
  import opened AttCodec
  import opened AttPdu
  import opened GattLong
  import opened GattDiscover

  class Search {
    const proc: Procedure
    const stray: Stray
    var start: uint16
    var found: seq<Found>
    var pending: bool
    /** The error codes with which the user has been called back. */
    var calls: seq<uint8>

    function Value(): Discovery
      reads this
    {
      Discovery(proc, start, found, pending, calls, stray)
    }

    constructor (proc: Procedure, start: uint16, stray: Stray)
      ensures Value() == Begin(proc, start, stray)
    {
      this.proc, this.stray, this.start, found, pending, calls := proc, stray, start, [], true, [];
    }

    /** `dp->cb`, `dc->cb` and `dd->cb`: no request follows. */
    method Done(err: uint8)
      modifies this`pending, this`calls
      ensures Value() == Report(old(Value()), err)
    {
      pending := false;
      calls := calls + [err];
    }

    /** The end of every callback: goes on behind `last`, unless that is no progress or the end. */
    method Next(last: uint16, more: bool)
      modifies this`start, this`pending, this`calls
      ensures Value() == Continue(old(Value()), [], last, more)
    {
      assert found + [] == found;
      if last < start {
        Done(ATT_ECODE_UNLIKELY);
        return;
      }
      start := Wrap16(last + 1);
      if !more { Done(0); }
    }

    method Failed(code: uint8)
      requires pending && code != 0
      modifies this
      ensures Value() == On(old(Value()), Error(code))
    {
      if code != ATT_ECODE_ATTR_NOT_FOUND || proc.AllPrimary? || proc.PrimaryByUuid? {
        Done(if code == ATT_ECODE_ATTR_NOT_FOUND then 0 else code);
      } else {
        Done(if found != [] then 0 else code);
      }
    }

    method PrimaryAllCb(pdu: octets)
      requires pending && proc.AllPrimary? && pdu != []
      modifies this
      ensures Value() == On(old(Value()), Pdu(pdu))
    {
      var list := DecReadByGroupResp(pdu);
      if list.None? {
        Done(ATT_ECODE_IO);
        return;
      }
      var entries := list.value.data;
      if list.value.len != 6 && list.value.len != 20 {
        Done(ATT_ECODE_INVALID_PDU);
        return;
      }
      Decoded(ATT_OP_READ_BY_GROUP_RESP, 7, 5, pdu);
      ghost var services := ServicesOf(entries);
      var end: uint16 := 0;
      for i := 0 to |entries|
        invariant Value() == old(Value()).(found := old(found) + services[..i])
        invariant i > 0 ==> end == services[i - 1].end
      {
        end := GetLe16(entries[i], 2);
        found := found + [ServiceOf(entries[i])];
      }
      assert services[..|entries|] == services;
      Next(end, end != 0xffff);
    }

    method PrimaryByUuidCb(pdu: octets)
      requires pending && proc.PrimaryByUuid? && pdu != []
      modifies this
      ensures Value() == On(old(Value()), Pdu(pdu))
    {
      var ranges := DecFindByTypeResp(pdu);
      if ranges == [] {
        Done(0);
        return;
      }
      found := found + HandlesOf(ranges);
      var last := ranges[|ranges| - 1].end;
      if last == 0xffff {
        Done(0);
        return;
      }
      Next(last, true);
    }

    method CharDiscoveredCb(pdu: octets)
      requires pending && proc.Characteristics? && pdu != []
      modifies this
      ensures Value() == On(old(Value()), Pdu(pdu))
    {
      hide DecList, Flat, Slices, Uuid128, CharacteristicOf, Read, ReadAll, Wanted;
      var list := DecReadByTypeResp(pdu);
      if list.None? {
        Done(ATT_ECODE_IO);
        return;
      }
      Decoded(ATT_OP_READ_BY_TYPE_RESP, 5, 3, pdu);
      var data := list.value.data;
      ghost var entries := ReadAll(data, 7, 21, stray);
      var last: uint16 := 0;
      for i := 0 to |data|
        invariant Value() == old(Value()).(found := old(found) + CharacteristicsOf(entries[..i], proc.only))
        invariant i > 0 ==> last == GetLe16(entries[i - 1], 0)
      {
        assert entries[..i + 1][..i] == entries[..i];
        var value := Read(data[i], 7, 21, stray);
        last := GetLe16(value, 0);
        var c := CharacteristicOf(value);
        if Wanted(proc.only, c.uuid) {
          found := found + [c];
        }
      }
      assert entries[..|entries|] == entries;
      Next(last, last != 0 && Wrap16(last + 1) < proc.end);
    }

    method DescDiscoveredCb(pdu: octets)
      requires pending && proc.Descriptors? && HasFormat(pdu)
      modifies this
      ensures Value() == On(old(Value()), Pdu(pdu))
    {
      hide DecFindInfo, Flat, Slices, Uuid128, DescriptorOf, DescriptorsOf, LastLooked, Read;
      var list, _ := DecFindInfoResp(pdu);
      if list.None? {
        Done(ATT_ECODE_IO);
        return;
      }
      DecodedInformation(pdu);
      var data := list.value.data;
      ghost var entries := ReadAll(data, 4, 18, stray);
      NoneLooked(proc.only);
      ghost var all, lastOfAll := DescriptorsOf(entries, proc.only), LastLooked(entries, proc.only);
      var last: uint16, uuidFound, i := 0xffff, false, 0;
      assert entries[0..] == entries;
      while i < |data| && !uuidFound
        invariant i <= |data| && pending && start == old(start) && calls == old(calls)
        invariant uuidFound ==> proc.only.Some? && found == old(found) + all && all != [] && last == lastOfAll
        invariant !uuidFound && proc.only.Some? ==> found == old(found)
        invariant !uuidFound ==> found + DescriptorsOf(entries[i..], proc.only) == old(found) + all
        invariant !uuidFound ==> lastOfAll == if i < |entries| then LastLooked(entries[i..], proc.only) else last
      {
        ghost var rest := entries[i..];
        FirstLooked(rest, proc.only);
        assert rest[1..] == entries[i + 1..] && rest[0] == entries[i];
        var c := DescriptorOf(Read(data[i], 4, 18, stray));
        last := c.handle;
        i := i + 1;
        if proc.only.Some? && proc.only.value != c.uuid {
          continue;
        }
        if proc.only.Some? { uuidFound := true; }
        assert found + ([c] + DescriptorsOf(rest[1..], proc.only)) == found + [c] + DescriptorsOf(rest[1..], proc.only);
        found := found + [c];
      }
      assert !uuidFound ==> entries[i..] == [] && found + [] == found;
      Next(last, last < proc.end && !uuidFound);
    }
  }
}
