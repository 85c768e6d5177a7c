/** Octets, 16-bit words and optional values as the emulator and the ATT code use them. */
module Bytes {

  type uint8 = x: int | 0 <= x < 0x100
  type uint16 = x: int | 0 <= x < 0x1_0000
  type octets = seq<uint8>

  datatype Option<T> = None | Some(value: T)

  /** The value an assignment to a `uint16_t` keeps. */
  function Wrap16(x: int): (r: uint16)
    ensures 0 <= x < 0x1_0000 ==> r == x
  {
    x % 0x1_0000
  }

  /** `put_le16`. */
  function PutLe16(v: uint16): (s: octets)
    ensures |s| == 2 && GetLe16(s, 0) == v
  {
    [v % 0x100, v / 0x100]
  }

  /** `get_le16` at an offset. */
  function GetLe16(s: octets, at: nat): uint16
    requires at + 2 <= |s|
  {
    var lo: int, hi: int := s[at], s[at + 1];
    lo + 0x100 * hi
  }

  /** Pieces of a stream, or entries of a list, one after the other. */
  function Flat(parts: seq<octets>): octets
  {
    if parts == [] then [] else parts[0] + Flat(parts[1..])
  }

  lemma {:induction false} FlatLast(parts: seq<octets>, last: octets)
    ensures Flat(parts + [last]) == Flat(parts) + last
  {
    if parts != [] {
      FlatLast(parts[1..], last);
      assert (parts + [last])[1..] == parts[1..] + [last];
    }
  }
}
