/** The attribute database of an adapter, and `gatt_service_add` as it updates it. */
module GattRegistry {
  import opened Bytes
  import opened GattDiscover
  import opened GattService

  class Registry {
    var db: Db

    constructor ()
      ensures db == map[]
    {
      db := map[];
    }

    /** `attrib_db_add`: refuses a handle that is taken. */
    method DbAddAttribute(handle: uint16, attr: Attribute) returns (ok: bool)
      modifies this
      ensures Added(db, if ok then Wrap16(handle + 1) else handle, ok) == DbAdd(Added(old(db), handle, true), attr)
    {
      if handle in db { return false; }
      db := db[handle := attr];
      return true;
    }

    /** `add_characteristic`, which moves the handle on only if everything was added. */
    method AddOne(handle: uint16, info: Info) returns (next: uint16, ok: bool)
      modifies this
      ensures Added(db, next, ok) == AddCharacteristic(old(db), handle, info)
    {
      next := handle;
      if !IsUuid(info.uuid) || info.props == 0 { return next, false; }
      var readReq, writeReq := AttReadReq(info), AttWriteReq(info);
      if readReq != ATT_NOT_PERMITTED && !info.readCb { return next, false; }
      if writeReq != ATT_NOT_PERMITTED && !info.writeCb { return next, false; }
      var h := handle;
      ok := DbAddAttribute(h, Declaration(handle, info));
      if !ok { return; }
      h := Wrap16(h as int + 1);
      ok := DbAddAttribute(h, Attribute(info.uuid, readReq, writeReq, []));
      if !ok { return; }
      h := Wrap16(h as int + 1);
      if Notifies(info.props) {
        ok := DbAddAttribute(h, CONFIGURATION);
        if !ok { return; }
        h := Wrap16(h as int + 1);
      }
      next := h;
    }

    /** `service_attr_del`, whose loop must stop at the wrap from the last handle to 0. */
    method ServiceAttrDel(start: uint16, end: uint16)
      requires start != 0
      modifies this
      ensures db == Without(old(db), start, end)
    {
      var handle := start;
      while handle != 0 && handle <= end
        invariant handle == 0 || start <= handle
        invariant handle == 0 ==> end == 0xffff
        invariant forall h :: h in db <==> h in old(db) && !(start <= h <= end && (handle == 0 || h < handle))
        invariant forall h :: h in db ==> db[h] == old(db)[h]
        decreases if handle == 0 then 0 else 0x1_0000 - handle
      {
        db := db - {handle};
        handle := Wrap16(handle as int + 1);
      }
    }

    /** `gatt_service_add` from the handle that `attrib_db_find_avail` gave. */
    method GattServiceAdd(start: uint16, kind: octets, uuid: octets, opts: seq<Opt>) returns (ok: bool)
      modifies this
      ensures (db, ok) == ServiceAdd(old(db), start, kind, uuid, opts)
    {
      hide Parse, Notifies, Acceptable, AddCharacteristic, Without;
      var infos := ParseOpts(opts);
      if start == 0 { return false; }
      ok := DbAddAttribute(start, ServiceDeclaration(kind, uuid));
      if !ok { return; }
      var h := Wrap16(start as int + 1);
      ghost var declared := db;
      for i := 0 to |infos|
        invariant ok && AddAll(declared, Wrap16(start + 1), infos) == AddAll(db, h, infos[i..])
      {
        assert infos[i..][1..] == infos[i + 1..];
        var next;
        next, ok := AddOne(h, infos[i]);
        if !ok {
          ServiceAttrDel(start, Wrap16(h as int - 1));
          return;
        }
        h := next;
      }
    }
  }
}
