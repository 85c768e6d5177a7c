/** The list responses of the Attribute Protocol, and the two Prepare Write PDUs. */
module AttCodec {
  import opened Bytes

  const ATT_OP_FIND_INFO_RESP: uint8 := 0x05
  const ATT_OP_FIND_BY_TYPE_RESP: uint8 := 0x07
  const ATT_OP_READ_BY_TYPE_RESP: uint8 := 0x09
  const ATT_OP_READ_RESP: uint8 := 0x0B
  const ATT_OP_READ_BY_GROUP_RESP: uint8 := 0x11
  const ATT_OP_PREP_WRITE_REQ: uint8 := 0x16
  const ATT_OP_PREP_WRITE_RESP: uint8 := 0x17

  /** `struct att_data_list`: every entry is `len` octets long, and `att_data_list_alloc` takes at most 255. */
  datatype DataList = DataList(len: nat, data: seq<octets>)
  {
    ghost predicate Valid()
    {
      len <= 0xff && forall i :: 0 <= i < |data| ==> |data[i]| == len
    }
  }

  /** Every entry cut to its first `l` octets. */
  function Cut(entries: seq<octets>, l: nat): (r: seq<octets>)
    requires forall i :: 0 <= i < |entries| ==> l <= |entries[i]|
    ensures |r| == |entries| && forall i :: 0 <= i < |r| ==> r[i] == entries[i][..l]
  {
    seq(|entries|, i requires 0 <= i < |entries| => entries[i][..l])
  }

  // ---------------------------------------------------------------- how many entries fit

  /** `n` entries of `l` octets, `w` octets into a PDU of at most `len`: how many the loop writes. */
  function Fitting(w: nat, l: nat, n: nat, len: nat): nat
    decreases n
  {
    if n == 0 || w + l > len then 0 else 1 + Fitting(w + l, l, n - 1, len)
  }

  /** They are as many as there is room for. */
  lemma {:induction false} FittingIsLongest(w: nat, l: nat, n: nat, len: nat)
    requires w <= len
    ensures var k := Fitting(w, l, n, len);
            k <= n && w + k * l <= len && (k < n ==> w + (k + 1) * l > len)
    decreases n
  {
    if n > 0 && w + l <= len {
      FittingIsLongest(w + l, l, n - 1, len);
    }
  }

  lemma {:induction false} FlatLength(entries: seq<octets>, l: nat)
    requires forall i :: 0 <= i < |entries| ==> |entries[i]| == l
    ensures |Flat(entries)| == |entries| * l
  {
    if entries != [] {
      FlatLength(entries[1..], l);
      assert |entries| * l == |entries[1..]| * l + l;
    }
  }

  // ---------------------------------------------------------------- what the encoders write

  /** The entries of a list that a PDU of `len` octets takes after `w` octets of header, cut to `l`. */
  function Packed(list: DataList, l: nat, w: nat, len: nat): (r: seq<octets>)
    requires list.Valid() && l <= list.len && w <= len
    ensures |r| == Fitting(w, l, |list.data|, len) <= |list.data|
    ensures forall i :: 0 <= i < |r| ==> r[i] == list.data[i][..l]
  {
    FittingIsLongest(w, l, |list.data|, len);
    Cut(list.data[..Fitting(w, l, |list.data|, len)], l)
  }

  /** `enc_read_by_grp_resp` and `enc_find_info_resp`: no PDU at all if not even one entry would fit. */
  function EncList(op: uint8, second: uint8, list: DataList, len: nat): octets
    requires list.Valid()
  {
    if len < list.len + 2 then [] else [op, second] + Flat(Packed(list, list.len, 2, len))
  }

  /** `enc_read_by_type_resp`, which cuts entries that are too long. */
  function EncReadByType(list: DataList, len: nat): octets
    requires list.Valid() && 2 <= len
  {
    var l := if len - 2 < list.len then len - 2 else list.len;
    [ATT_OP_READ_BY_TYPE_RESP, l] + Flat(Packed(list, l, 2, len))
  }

  datatype Range = Range(start: uint16, end: uint16)

  function RangeOctets(r: Range): (s: octets) ensures |s| == 4 { PutLe16(r.start) + PutLe16(r.end) }

  function RangeEntries(ranges: seq<Range>): (r: seq<octets>)
    ensures |r| == |ranges| && forall i :: 0 <= i < |r| ==> |r[i]| == 4
  {
    seq(|ranges|, i requires 0 <= i < |ranges| => RangeOctets(ranges[i]))
  }

  /** `enc_find_by_type_resp`. */
  function EncFindByType(ranges: seq<Range>, len: nat): octets
    requires 1 <= len
  {
    [ATT_OP_FIND_BY_TYPE_RESP] + Flat(Packed(DataList(4, RangeEntries(ranges)), 4, 1, len))
  }

  // ---------------------------------------------------------------- what the decoders read

  /** `num` entries of `elen` octets, one after the other. */
  function Slices(data: octets, elen: nat, num: nat): (r: seq<octets>)
    requires num * elen <= |data|
    ensures |r| == num && forall i :: 0 <= i < num ==> |r[i]| == elen
  {
    if num == 0 then []
    else
      assert num * elen == (num - 1) * elen + elen;
      Slices(data, elen, num - 1) + [data[(num - 1) * elen..num * elen]]
  }

  lemma CountedFits(n: nat, elen: nat)
    requires elen > 0
    ensures (n / elen) * elen <= n
  {
  }

  /** `dec_read_by_grp_resp` and `dec_read_by_type_resp`, with their limits on the PDU and on an entry. */
  function DecList(op: uint8, minLen: nat, minEntry: nat, pdu: octets): Option<DataList>
    requires pdu != [] && 2 <= minLen && 0 < minEntry
  {
    if pdu[0] != op || |pdu| < minLen then None
    else
      var elen: int := pdu[1];
      if elen < minEntry || (|pdu| - 2) % elen != 0 then None
      else
        CountedFits(|pdu| - 2, elen);
        Some(DataList(elen, Slices(pdu[2..], elen, (|pdu| - 2) / elen)))
  }

  function DecReadByGroup(pdu: octets): Option<DataList>
    requires pdu != []
  {
    DecList(ATT_OP_READ_BY_GROUP_RESP, 7, 5, pdu)
  }

  function DecReadByType(pdu: octets): Option<DataList>
    requires pdu != []
  {
    DecList(ATT_OP_READ_BY_TYPE_RESP, 5, 3, pdu)
  }

  /** The entry length that `dec_find_info_resp` takes from the format octet. */
  function InfoLength(format: uint8): nat { if format == 0x01 then 4 else if format == 0x02 then 18 else 2 }

  /** An information response has a format octet for the decoder to read. */
  predicate HasFormat(pdu: octets) { pdu != [] && (pdu[0] == ATT_OP_FIND_INFO_RESP ==> |pdu| >= 2) }

  /** `dec_find_info_resp`: a trailing part of an entry is dropped. */
  function DecFindInfo(pdu: octets): Option<DataList>
    requires HasFormat(pdu)
  {
    if pdu[0] != ATT_OP_FIND_INFO_RESP then None
    else
      var elen := InfoLength(pdu[1]);
      CountedFits(|pdu| - 2, elen);
      Some(DataList(elen, Slices(pdu[2..], elen, (|pdu| - 2) / elen)))
  }

  function RangesOf(entries: seq<octets>): (r: seq<Range>)
    requires forall i :: 0 <= i < |entries| ==> |entries[i]| == 4
    ensures |r| == |entries|
  {
    seq(|entries|, i requires 0 <= i < |entries| => Range(GetLe16(entries[i], 0), GetLe16(entries[i], 2)))
  }

  /** `dec_find_by_type_resp`, where no list is the same as an empty one. */
  function DecFindByType(pdu: octets): seq<Range>
  {
    if |pdu| < 5 || pdu[0] != ATT_OP_FIND_BY_TYPE_RESP || (|pdu| - 1) % 4 != 0 then []
    else
      CountedFits(|pdu| - 1, 4);
      RangesOf(Slices(pdu[1..], 4, (|pdu| - 1) / 4))
  }

  // ---------------------------------------------------------------- round trips

  /** Slicing undoes joining, whatever follows. */
  lemma {:induction false} SlicesOfFlat(entries: seq<octets>, l: nat, more: octets)
    requires forall i :: 0 <= i < |entries| ==> |entries[i]| == l
    ensures |Flat(entries)| == |entries| * l <= |Flat(entries) + more|
    ensures Slices(Flat(entries) + more, l, |entries|) == entries
  {
    FlatLength(entries, l);
    if entries != [] {
      var n := |entries|;
      var init, last := entries[..n - 1], entries[n - 1];
      SlicesOfFlat(init, l, last + more);
      FlatLast(init, last);
      assert entries == init + [last];
      assert Flat(entries) + more == Flat(init) + (last + more);
      assert n * l == (n - 1) * l + l;
      assert (Flat(init) + (last + more))[(n - 1) * l..n * l] == last;
    }
  }

  lemma ExactlyCounted(k: nat, l: nat)
    requires l > 0
    ensures (k * l) % l == 0 && (k * l) / l == k
  {
    ModOfProduct(k, l);
  }

  lemma {:induction false} ModOfProduct(k: nat, l: nat)
    requires l > 0
    ensures (k * l) % l == 0 && (k * l) / l == k
  {
    if k > 0 {
      ModOfProduct(k - 1, l);
      assert k * l == (k - 1) * l + l;
      AddOne((k - 1) * l, l);
    }
  }

  lemma AddOne(a: nat, l: nat)
    requires l > 0
    ensures (a + l) % l == a % l && (a + l) / l == a / l + 1
  {
    var q := a / l;
    assert a + l == (q + 1) * l + a % l;
    QuotientUnique(a + l, l, q + 1, a % l);
  }

  lemma QuotientUnique(n: nat, l: nat, q: nat, r: nat)
    requires l > 0 && n == q * l + r && r < l
    ensures n / l == q && n % l == r
  {
    var d: int := n / l - q;
    assert d * l == r - n % l by { assert (n / l) * l + n % l == n; }
    MultipleIsFar(d, l);
  }

  lemma MultipleIsFar(d: int, l: int)
    requires l > 0
    ensures d > 0 ==> d * l >= l
    ensures d < 0 ==> d * l <= -l
  {
  }

  /**
   * Decoding an encoded list gives back the longest prefix that fits, exactly if an entry is at
   * least as long as the decoder demands and at least one fits.
   */
  lemma ListRoundTrip(op: uint8, minLen: nat, minEntry: nat, list: DataList, l: uint8, len: nat)
    requires list.Valid() && l <= list.len && 2 <= len && 2 < minLen && minLen == 2 + minEntry
    ensures var pdu := [op, l] + Flat(Packed(list, l, 2, len));
            DecList(op, minLen, minEntry, pdu) == Some(DataList(l, Packed(list, l, 2, len)))
            <==> minEntry <= l && Packed(list, l, 2, len) != []
  {
    hide Flat, Slices;
    var packed := Packed(list, l, 2, len);
    var pdu := [op, l] + Flat(packed);
    FlatLength(packed, l);
    FittingIsLongest(2, l, |list.data|, len);
    if minEntry <= l && packed != [] {
      assert |packed| * l >= l;
      ExactlyCounted(|packed|, l);
      assert pdu[2..] == Flat(packed) + [];
      SlicesOfFlat(packed, l, []);
    }
  }

  /** A list response decodes into its entries. */
  lemma ListDecodes(op: uint8, minLen: nat, minEntry: nat, entries: seq<octets>, l: uint8)
    requires entries != [] && minEntry <= l && minLen == 2 + minEntry && 0 < minEntry
    requires forall i :: 0 <= i < |entries| ==> |entries[i]| == l
    ensures DecList(op, minLen, minEntry, [op, l] + Flat(entries)) == Some(DataList(l, entries))
  {
    hide Flat, Slices;
    var pdu := [op, l] + Flat(entries);
    FlatLength(entries, l);
    AtLeastOne(|entries|, l);
    ExactlyCounted(|entries|, l);
    assert pdu[2..] == Flat(entries) + [];
    SlicesOfFlat(entries, l, []);
  }

  lemma AtLeastOne(n: nat, l: nat)
    requires n > 0
    ensures n * l >= l
  {
  }

  /** Entries that are not cut are packed as they are. */
  lemma PackedWhole(list: DataList, w: nat, len: nat)
    requires list.Valid() && w <= len
    ensures Packed(list, list.len, w, len) == list.data[..|Packed(list, list.len, w, len)|]
  {
    var packed := Packed(list, list.len, w, len);
    forall i | 0 <= i < |packed| ensures packed[i] == list.data[i] {
      assert list.data[i][..list.len] == list.data[i];
    }
  }

  lemma GroupRoundTrip(list: DataList, len: nat)
    requires list.Valid() && list.len + 2 <= len
    ensures var k := Fitting(2, list.len, |list.data|, len);
            && k <= |list.data|
            && var decoded := DecReadByGroup(EncList(ATT_OP_READ_BY_GROUP_RESP, list.len, list, len));
            && (decoded == Some(DataList(list.len, list.data[..k])) <==> list.len >= 5 && list.data != [])
  {
    FittingIsLongest(2, list.len, |list.data|, len);
    var k := Fitting(2, list.len, |list.data|, len);
    PackedWhole(list, 2, len);
    ListRoundTrip(ATT_OP_READ_BY_GROUP_RESP, 7, 5, list, list.len, len);
  }

  lemma TypeRoundTrip(list: DataList, len: nat)
    requires list.Valid() && 2 <= len
    ensures var l := if len - 2 < list.len then len - 2 else list.len;
            DecReadByType(EncReadByType(list, len)) == Some(DataList(l, Packed(list, l, 2, len)))
            <==> l >= 3 && list.data != []
  {
    var l := if len - 2 < list.len then len - 2 else list.len;
    ListRoundTrip(ATT_OP_READ_BY_TYPE_RESP, 5, 3, list, l, len);
  }

  lemma FindInfoRoundTrip(format: uint8, list: DataList, len: nat)
    requires list.Valid() && list.len + 2 <= len
    ensures var k := Fitting(2, list.len, |list.data|, len);
            && k <= |list.data|
            && var decoded := DecFindInfo(EncList(ATT_OP_FIND_INFO_RESP, format, list, len));
            && (decoded == Some(DataList(list.len, list.data[..k])) <==> list.len == InfoLength(format))
  {
    FittingIsLongest(2, list.len, |list.data|, len);
    var k := Fitting(2, list.len, |list.data|, len);
    var packed := list.data[..k];
    PackedWhole(list, 2, len);
    FlatLength(packed, list.len);
    var pdu := EncList(ATT_OP_FIND_INFO_RESP, format, list, len);
    if list.len == InfoLength(format) {
      ExactlyCounted(k, list.len);
      assert pdu[2..] == Flat(packed) + [];
      SlicesOfFlat(packed, list.len, []);
    }
  }

  lemma RangesRoundTrip(ranges: seq<Range>)
    ensures RangesOf(RangeEntries(ranges)) == ranges
  {
  }

  lemma FindByTypeRoundTrip(ranges: seq<Range>, len: nat)
    requires 1 <= len
    ensures var k := Fitting(1, 4, |ranges|, len);
            k <= |ranges| && DecFindByType(EncFindByType(ranges, len)) == ranges[..k]
  {
    FittingIsLongest(1, 4, |ranges|, len);
    var k := Fitting(1, 4, |ranges|, len);
    var list := DataList(4, RangeEntries(ranges));
    PackedWhole(list, 1, len);
    var packed := RangeEntries(ranges[..k]);
    assert packed == list.data[..k];
    FlatLength(packed, 4);
    if k > 0 {
      DecPacked(packed);
      RangesRoundTrip(ranges[..k]);
    }
  }

  lemma DecPacked(packed: seq<octets>)
    requires packed != [] && forall i :: 0 <= i < |packed| ==> |packed[i]| == 4
    ensures DecFindByType([ATT_OP_FIND_BY_TYPE_RESP] + Flat(packed)) == RangesOf(packed)
  {
    hide Flat, Slices;
    var pdu := [ATT_OP_FIND_BY_TYPE_RESP] + Flat(packed);
    FlatLength(packed, 4);
    ExactlyCounted(|packed|, 4);
    assert pdu[1..] == Flat(packed) + [];
    SlicesOfFlat(packed, 4, []);
  }

  // ---------------------------------------------------------------- prepared writes

  datatype Part = Part(handle: uint16, offset: uint16, value: octets)

  /** `enc_prep_write_req` and `enc_prep_write_resp`, which cut the value to what fits. */
  function EncPrepWrite(op: uint8, part: Part, len: nat): octets
    requires 5 <= len
  {
    var vlen := if |part.value| > len - 5 then len - 5 else |part.value|;
    [op] + PutLe16(part.handle) + PutLe16(part.offset) + part.value[..vlen]
  }

  /** `dec_prep_write_req` and `dec_prep_write_resp`; both test for the opcode of the request. */
  function DecPrepWrite(pdu: octets): Option<Part>
  {
    if |pdu| < 5 || pdu[0] != ATT_OP_PREP_WRITE_REQ then None
    else Some(Part(GetLe16(pdu, 1), GetLe16(pdu, 3), pdu[5..]))
  }

  /** A prepared part survives the trip if it is sent as a request, and never if it is sent as a response. */
  lemma PrepWriteRoundTrip(op: uint8, part: Part, len: nat)
    requires 5 <= len && (op == ATT_OP_PREP_WRITE_REQ || op == ATT_OP_PREP_WRITE_RESP)
    ensures var vlen := if |part.value| > len - 5 then len - 5 else |part.value|;
            DecPrepWrite(EncPrepWrite(op, part, len))
            == if op == ATT_OP_PREP_WRITE_REQ then Some(part.(value := part.value[..vlen])) else None
  {
    var pdu := EncPrepWrite(op, part, len);
    assert pdu[1..3] == PutLe16(part.handle) && pdu[3..5] == PutLe16(part.offset);
    assert GetLe16(pdu, 1) == GetLe16(pdu[1..3], 0) && GetLe16(pdu, 3) == GetLe16(pdu[3..5], 0);
  }
}
