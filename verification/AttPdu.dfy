/** The encoders and decoders of `AttCodec`, as the loops over a PDU buffer that they are. */
module AttPdu {
  import opened Bytes
  import opened AttCodec

  /** `memcpy` into a PDU. */
  method Put(pdu: array<uint8>, at: nat, bytes: octets)
    requires at + |bytes| <= pdu.Length
    modifies pdu
    ensures pdu[..at + |bytes|] == old(pdu[..at]) + bytes
    ensures pdu[at + |bytes|..] == old(pdu[at + |bytes|..])
  {
    for i := 0 to |bytes|
      invariant pdu[..at + i] == old(pdu[..at]) + bytes[..i]
      invariant pdu[at + i..] == old(pdu[at + i..])
    {
      pdu[at + i] := bytes[i];
    }
  }

  lemma FlatStep(entries: seq<octets>, i: nat)
    requires i < |entries|
    ensures Flat(entries[..i + 1]) == Flat(entries[..i]) + entries[i]
  {
    FlatLast(entries[..i], entries[i]);
    assert entries[..i + 1] == entries[..i] + [entries[i]];
  }

  /** The loop of the encoders: entries cut to `l` octets, as many as fit after a header of `start` octets. */
  method PutEntries(list: DataList, l: nat, start: nat, pdu: array<uint8>, len: nat) returns (w: nat)
    requires list.Valid() && l <= list.len && start <= len <= pdu.Length
    modifies pdu
    ensures w <= len
    ensures pdu[..w] == old(pdu[..start]) + Flat(Packed(list, l, start, len)) && pdu[w..] == old(pdu[w..])
  {
    var i := 0;
    w := start;
    ghost var n := |list.data|;
    ghost var packed := Packed(list, l, start, len);
    while i < |list.data| && w + l <= len
      invariant i <= n && w <= len && i + Fitting(w, l, n - i, len) == Fitting(start, l, n, len)
      invariant pdu[..w] == old(pdu[..start]) + Flat(packed[..i]) && pdu[w..] == old(pdu[w..])
    {
      FlatStep(packed, i);
      Put(pdu, w, list.data[i][..l]);
      i, w := i + 1, w + l;
    }
    assert packed[..i] == packed;
  }

  method EncReadByGroupResp(list: DataList, pdu: array<uint8>, len: nat) returns (w: nat)
    requires list.Valid() && len <= pdu.Length
    modifies pdu
    ensures w <= len && pdu[..w] == EncList(ATT_OP_READ_BY_GROUP_RESP, list.len, list, len)
    ensures pdu[w..] == old(pdu[w..])
  {
    if len < list.len + 2 { return 0; }
    pdu[0] := ATT_OP_READ_BY_GROUP_RESP;
    pdu[1] := list.len;
    w := PutEntries(list, list.len, 2, pdu, len);
  }

  method EncFindInfoResp(format: uint8, list: DataList, pdu: array<uint8>, len: nat) returns (w: nat)
    requires list.Valid() && len <= pdu.Length
    modifies pdu
    ensures w <= len && pdu[..w] == EncList(ATT_OP_FIND_INFO_RESP, format, list, len)
    ensures pdu[w..] == old(pdu[w..])
  {
    if len < list.len + 2 { return 0; }
    pdu[0] := ATT_OP_FIND_INFO_RESP;
    pdu[1] := format;
    w := PutEntries(list, list.len, 2, pdu, len);
  }

  method EncReadByTypeResp(list: DataList, pdu: array<uint8>, len: nat) returns (w: nat)
    requires list.Valid() && 2 <= len <= pdu.Length
    modifies pdu
    ensures w <= len && pdu[..w] == EncReadByType(list, len)
    ensures pdu[w..] == old(pdu[w..])
  {
    var l := if len - 2 < list.len then len - 2 else list.len;
    pdu[0] := ATT_OP_READ_BY_TYPE_RESP;
    pdu[1] := l;
    w := PutEntries(list, l, 2, pdu, len);
  }

  method EncFindByTypeResp(ranges: seq<Range>, pdu: array<uint8>, len: nat) returns (w: nat)
    requires 1 <= len <= pdu.Length
    modifies pdu
    ensures w <= len && pdu[..w] == EncFindByType(ranges, len)
    ensures pdu[w..] == old(pdu[w..])
  {
    pdu[0] := ATT_OP_FIND_BY_TYPE_RESP;
    w := PutEntries(DataList(4, RangeEntries(ranges)), 4, 1, pdu, len);
  }

  /** The loop of the decoders: `num` entries of `elen` octets. */
  method TakeEntries(pdu: octets, start: nat, elen: nat, num: nat) returns (data: seq<octets>)
    requires start + num * elen <= |pdu|
    ensures data == Slices(pdu[start..], elen, num)
  {
    data := [];
    var ptr := start;
    for i := 0 to num
      invariant i * elen <= num * elen && ptr == start + i * elen
      invariant data == Slices(pdu[start..], elen, i)
    {
      assert (i + 1) * elen == i * elen + elen <= num * elen by { Monotone(i + 1, num, elen); }
      assert pdu[ptr..ptr + elen] == pdu[start..][i * elen..(i + 1) * elen];
      data := data + [pdu[ptr..ptr + elen]];
      ptr := ptr + elen;
    }
  }

  lemma Monotone(a: nat, b: nat, l: nat)
    requires a <= b
    ensures a * l <= b * l
  {
  }

  method DecReadByGroupResp(pdu: octets) returns (list: Option<DataList>)
    requires pdu != []
    ensures list == DecReadByGroup(pdu)
  {
    if pdu[0] != ATT_OP_READ_BY_GROUP_RESP { return None; }
    if |pdu| < 7 { return None; }
    var elen: int := pdu[1];
    if elen < 5 { return None; }
    if (|pdu| - 2) % elen != 0 { return None; }
    var num := (|pdu| - 2) / elen;
    CountedFits(|pdu| - 2, elen);
    var data := TakeEntries(pdu, 2, elen, num);
    return Some(DataList(elen, data));
  }

  method DecReadByTypeResp(pdu: octets) returns (list: Option<DataList>)
    requires pdu != []
    ensures list == DecReadByType(pdu)
  {
    if pdu[0] != ATT_OP_READ_BY_TYPE_RESP { return None; }
    if |pdu| < 5 { return None; }
    var elen: int := pdu[1];
    if elen < 3 { return None; }
    if (|pdu| - 2) % elen != 0 { return None; }
    var num := (|pdu| - 2) / elen;
    CountedFits(|pdu| - 2, elen);
    var data := TakeEntries(pdu, 2, elen, num);
    return Some(DataList(elen, data));
  }

  method DecFindInfoResp(pdu: octets) returns (list: Option<DataList>, format: uint8)
    requires HasFormat(pdu)
    ensures list == DecFindInfo(pdu) && (list.Some? ==> format == pdu[1])
  {
    format := 0;
    if pdu[0] != ATT_OP_FIND_INFO_RESP { return None, format; }
    format := pdu[1];
    var elen := 2;
    if format == 0x01 {
      elen := elen + 2;
    } else if format == 0x02 {
      elen := elen + 16;
    }
    var num := (|pdu| - 2) / elen;
    CountedFits(|pdu| - 2, elen);
    var data := TakeEntries(pdu, 2, elen, num);
    list := Some(DataList(elen, data));
  }

  method DecFindByTypeResp(pdu: octets) returns (matches: seq<Range>)
    ensures matches == DecFindByType(pdu)
  {
    if |pdu| < 5 { return []; }
    if pdu[0] != ATT_OP_FIND_BY_TYPE_RESP { return []; }
    if (|pdu| - 1) % 4 != 0 { return []; }
    matches := [];
    var offset := 1;
    ghost var num := (|pdu| - 1) / 4;
    ghost var entries := Slices(pdu[1..], 4, num);
    while |pdu| >= offset + 4
      invariant offset == 1 + 4 * |matches| && |matches| <= num
      invariant matches == RangesOf(Slices(pdu[1..], 4, |matches|))
      decreases |pdu| - offset
    {
      assert pdu[1..][4 * |matches|..4 * |matches| + 4] == pdu[offset..offset + 4];
      matches := matches + [Range(GetLe16(pdu, offset), GetLe16(pdu, offset + 2))];
      offset := offset + 4;
    }
  }
}
