/** The same PDUs octet by octet, and what a decoder's answer says about the PDU it was given. */
module AttWire {
  import opened Bytes
  import opened AttCodec

  /** The low octet goes first. */
  lemma WordOnWire(v: uint16)
    ensures PutLe16(v) == [v % 0x100, v / 0x100] && GetLe16([v % 0x100, v / 0x100], 0) == v
  {
  }

  /** How many entries of `l` octets there are room for behind a header of `w`. */
  predicate LongestFit(k: nat, entries: nat, l: nat, w: nat, len: nat)
  {
    k <= entries && w + k * l <= len && (k < entries ==> w + (k + 1) * l > len)
  }

  /** A list response is its opcode, the length of an entry or the format, and the entries that fit. */
  lemma ListOnWire(list: DataList, format: uint8, len: nat) returns (k: nat)
    requires list.Valid() && list.len + 2 <= len
    ensures LongestFit(k, |list.data|, list.len, 2, len)
    ensures EncList(ATT_OP_READ_BY_GROUP_RESP, list.len, list, len) == [0x11, list.len] + Flat(list.data[..k])
    ensures EncList(ATT_OP_FIND_INFO_RESP, format, list, len) == [0x05, format] + Flat(list.data[..k])
    ensures EncReadByType(list, len) == [0x09, list.len] + Flat(list.data[..k])
  {
    hide Flat;
    k := Fitting(2, list.len, |list.data|, len);
    FittingIsLongest(2, list.len, |list.data|, len);
    PackedWhole(list, 2, len);
  }

  /** Without room for a whole entry there is no response at all, or one with entries that are cut. */
  lemma ShortOnWire(list: DataList, op: uint8, second: uint8, len: nat)
    requires list.Valid() && 2 <= len < list.len + 2 && list.data != []
    ensures EncList(op, second, list, len) == []
    ensures EncReadByType(list, len)
         == [0x09, len - 2] + (if len == 2 then [] else list.data[0][..len - 2])
  {
    var l := len - 2;
    if l == 0 {
      ZeroFlat(Packed(list, 0, 2, len));
    } else {
      var packed := Packed(list, l, 2, len);
      assert Fitting(2, l, |list.data|, len) == 1;
      assert packed == [list.data[0][..l]];
      assert packed[1..] == [] && Flat(packed) == packed[0] + Flat([]);
      assert Flat(packed) == list.data[0][..l];
    }
  }

  lemma {:induction false} ZeroFlat(entries: seq<octets>)
    requires forall i :: 0 <= i < |entries| ==> |entries[i]| == 0
    ensures Flat(entries) == []
  {
    if entries != [] { ZeroFlat(entries[1..]); }
  }

  /** A pair of handles, low octets first. */
  lemma RangeOnWire(r: Range)
    ensures RangeOctets(r) == [r.start % 0x100, r.start / 0x100, r.end % 0x100, r.end / 0x100]
  {
  }

  /** A prepared part: opcode, handle, offset, and as much of the value as fits behind these five octets. */
  lemma PartOnWire(op: uint8, part: Part, len: nat)
    requires 5 <= len
    ensures var header := [op, part.handle % 0x100, part.handle / 0x100, part.offset % 0x100, part.offset / 0x100];
            EncPrepWrite(op, part, len)
            == header + if |part.value| <= len - 5 then part.value else part.value[..len - 5]
  {
    var n := if |part.value| > len - 5 then len - 5 else |part.value|;
    assert part.value[..|part.value|] == part.value;
    assert [op] + PutLe16(part.handle) + PutLe16(part.offset)
        == [op, part.handle % 0x100, part.handle / 0x100, part.offset % 0x100, part.offset / 0x100];
  }

  // ---------------------------------------------------------------- what was decoded is what was written

  lemma {:induction false} SlicesJoin(data: octets, elen: nat, num: nat)
    requires num * elen <= |data|
    ensures Flat(Slices(data, elen, num)) == data[..num * elen]
  {
    if num > 0 {
      assert num * elen == (num - 1) * elen + elen;
      var init := Slices(data, elen, num - 1);
      var last := data[(num - 1) * elen..num * elen];
      SlicesJoin(data, elen, num - 1);
      FlatLast(init, last);
      JoinedPrefix(data, (num - 1) * elen, num * elen);
    }
  }

  lemma JoinedPrefix(data: octets, from: nat, to: nat)
    requires from <= to <= |data|
    ensures data[..from] + data[from..to] == data[..to]
  {
  }

  lemma Whole(n: nat, l: nat)
    requires l > 0 && n % l == 0
    ensures (n / l) * l == n
  {
  }

  /**
   * A list response that is taken is exactly its opcode, its entry length and the entries, of which there
   * is at least one; and every such PDU is taken.
   */
  lemma TakenIsWritten(op: uint8, minEntry: nat, pdu: octets)
    requires pdu != [] && 0 < minEntry
    ensures match DecList(op, 2 + minEntry, minEntry, pdu)
            case Some(list) => 2 < |pdu| && list.len == pdu[1] && minEntry <= list.len && list.data != []
                               && (forall i :: 0 <= i < |list.data| ==> |list.data[i]| == list.len)
                               && pdu == [op, pdu[1]] + Flat(list.data)
            case None => pdu[0] != op || |pdu| < 2 + minEntry || pdu[1] < minEntry || (|pdu| - 2) % pdu[1] != 0
  {
    if pdu[0] == op && |pdu| >= 2 + minEntry && pdu[1] >= minEntry && (|pdu| - 2) % pdu[1] == 0 {
      var elen: int, n := pdu[1], |pdu| - 2;
      Whole(n, elen);
      CountedFits(n, elen);
      SlicesJoin(pdu[2..], elen, n / elen);
      assert pdu[2..][..n] == pdu[2..];
      assert pdu == [op, pdu[1]] + pdu[2..];
      assert n / elen != 0;
      hide Slices, Flat;
    }
  }

  /** The two decoders of lists by their limits. */
  lemma TakenByLimits(pdu: octets)
    requires pdu != []
    ensures DecReadByGroup(pdu).Some? <==> pdu[0] == 0x11 && |pdu| >= 7 && pdu[1] >= 5 && (|pdu| - 2) % pdu[1] == 0
    ensures DecReadByType(pdu).Some? <==> pdu[0] == 0x09 && |pdu| >= 5 && pdu[1] >= 3 && (|pdu| - 2) % pdu[1] == 0
  {
  }

  /** An information response: entries of 4 octets for format 1, of 18 for format 2; a trailing part is dropped. */
  lemma InformationIsWritten(pdu: octets)
    requires HasFormat(pdu)
    ensures match DecFindInfo(pdu)
            case Some(list) => pdu[0] == 0x05 && list.len == (if pdu[1] == 1 then 4 else if pdu[1] == 2 then 18 else 2)
                               && (forall i :: 0 <= i < |list.data| ==> |list.data[i]| == list.len)
                               && |Flat(list.data)| + list.len > |pdu| - 2
                               && Flat(list.data) <= pdu[2..]
            case None => pdu[0] != 0x05
  {
    if pdu[0] == ATT_OP_FIND_INFO_RESP {
      var elen := InfoLength(pdu[1]);
      CountedFits(|pdu| - 2, elen);
      SlicesJoin(pdu[2..], elen, (|pdu| - 2) / elen);
      assert (|pdu| - 2) % elen == (|pdu| - 2) - (|pdu| - 2) / elen * elen;
      hide Slices, Flat;
    }
  }

  /** A list of ranges that is not empty is the whole PDU. */
  lemma RangesAreWritten(pdu: octets)
    ensures var ranges := DecFindByType(pdu);
            && (ranges != [] ==> pdu == [0x07] + Flat(RangeEntries(ranges)))
            && (ranges == [] <==> |pdu| < 5 || pdu[0] != 0x07 || (|pdu| - 1) % 4 != 0)
  {
    if |pdu| >= 5 && pdu[0] == 0x07 && (|pdu| - 1) % 4 == 0 {
      var entries := Slices(pdu[1..], 4, (|pdu| - 1) / 4);
      SlicesJoin(pdu[1..], 4, (|pdu| - 1) / 4);
      assert pdu[1..][..|pdu| - 1] == pdu[1..] && pdu == [0x07] + pdu[1..];
      forall i | 0 <= i < |entries| ensures RangeEntries(RangesOf(entries))[i] == entries[i] {
        ReadBack(entries[i]);
      }
      assert RangeEntries(RangesOf(entries)) == entries;
      hide Slices, Flat;
    }
  }

  lemma ReadBack(s: octets)
    requires |s| == 4
    ensures RangeOctets(Range(GetLe16(s, 0), GetLe16(s, 2))) == s
  {
  }
}
