/**
 * The white list, the resolving list and the scan cache of the emulated LE controller: fixed arrays
 * of slots that stand for bounded sets.
 */
module LeLists {
  import opened Bytes

  const BT_HCI_ERR_SUCCESS: uint8 := 0x00
  const BT_HCI_ERR_MEM_CAPACITY_EXCEEDED: uint8 := 0x07
  const BT_HCI_ERR_INVALID_PARAMETERS: uint8 := 0x12
  const BT_HCI_ERR_UNSPECIFIED_ERROR: uint8 := 0x1f

  const LIST_SIZE: nat := 16
  const SCAN_CACHE_SIZE: nat := 64

  const NO_ADDR: octets := [0, 0, 0, 0, 0, 0]

  /** An address with its type, 0xff for a free slot. The white list holds no keys. */
  datatype Slot = Slot(kind: uint8, addr: octets, keys: octets)

  datatype Peer = Peer(kind: uint8, addr: octets)

  const FREE := Slot(0xff, NO_ADDR, [])

  predicate Live(s: Slot) { s.kind != 0xff }

  function PeerOf(s: Slot): Peer { Peer(s.kind, s.addr) }

  /** The set that the slots stand for. */
  function Peers(slots: seq<Slot>): set<Peer>
  {
    if slots == [] then {}
    else
      var last := slots[|slots| - 1];
      Peers(slots[..|slots| - 1]) + if Live(last) then {PeerOf(last)} else {}
  }

  function LiveCount(slots: seq<Slot>): nat
  {
    if slots == [] then 0 else LiveCount(slots[..|slots| - 1]) + if Live(slots[|slots| - 1]) then 1 else 0
  }

  /** Slots are free or hold a public or random address, and no address twice. */
  predicate Proper(slots: seq<Slot>)
  {
    && (forall i :: 0 <= i < |slots| ==> slots[i].kind <= 0x01 || slots[i] == FREE)
    && (forall i, j :: 0 <= i < j < |slots| && Live(slots[i]) && Live(slots[j]) ==>
          PeerOf(slots[i]) != PeerOf(slots[j]))
  }

  lemma {:induction false} PeersMembers(slots: seq<Slot>, p: Peer)
    ensures p in Peers(slots) <==> exists i :: 0 <= i < |slots| && Live(slots[i]) && PeerOf(slots[i]) == p
  {
    if slots != [] {
      var n := |slots| - 1;
      PeersMembers(slots[..n], p);
      if p in Peers(slots[..n]) {
        var i :| 0 <= i < n && Live(slots[..n][i]) && PeerOf(slots[..n][i]) == p;
        assert slots[i] == slots[..n][i];
      }
      if i :| 0 <= i < n && Live(slots[i]) && PeerOf(slots[i]) == p {
        assert slots[..n][i] == slots[i];
      }
    }
  }

  /** Only public and random addresses are ever listed. */
  lemma PeersKinds(slots: seq<Slot>)
    requires Proper(slots)
    ensures forall p :: p in Peers(slots) ==> p.kind <= 0x01
  {
    forall p | p in Peers(slots) ensures p.kind <= 0x01 {
      PeersMembers(slots, p);
    }
  }

  lemma {:induction false} PeersSize(slots: seq<Slot>)
    requires Proper(slots)
    ensures |Peers(slots)| == LiveCount(slots)
  {
    if slots != [] {
      ProperPrefix(slots);
      if Live(slots[|slots| - 1]) { NotTwice(slots); }
      hide Proper, Live;
      PeersSize(slots[..|slots| - 1]);
    }
  }

  lemma ProperPrefix(slots: seq<Slot>)
    requires Proper(slots) && slots != []
    ensures Proper(slots[..|slots| - 1])
  {
  }

  lemma {:induction false} FullWhenAllLive(slots: seq<Slot>)
    ensures LiveCount(slots) <= |slots|
    ensures LiveCount(slots) == |slots| <==> forall i :: 0 <= i < |slots| ==> Live(slots[i])
  {
    hide Live;
    if slots != [] {
      var init := slots[..|slots| - 1];
      FullWhenAllLive(init);
      assert forall i :: 0 <= i < |init| ==> init[i] == slots[i];
    }
  }

  /** A list with as many addresses as slots is one without a free slot, because none is there twice. */
  lemma PeersCounted(slots: seq<Slot>)
    requires Proper(slots)
    ensures |Peers(slots)| <= |slots|
    ensures |Peers(slots)| == |slots| <==> forall i :: 0 <= i < |slots| ==> Live(slots[i])
  {
    PeersSize(slots);
    FullWhenAllLive(slots);
  }

  lemma NotTwice(slots: seq<Slot>)
    requires Proper(slots) && slots != [] && Live(slots[|slots| - 1])
    ensures PeerOf(slots[|slots| - 1]) !in Peers(slots[..|slots| - 1])
  {
    var n := |slots| - 1;
    PeersMembers(slots[..n], PeerOf(slots[n]));
  }

  /** Filling a free slot adds its address to the set. */
  lemma PeersFilled(slots: seq<Slot>, pos: nat, s: Slot)
    requires pos < |slots| && !Live(slots[pos]) && Live(s)
    ensures Peers(slots[pos := s]) == Peers(slots) + {PeerOf(s)}
  {
    var slots' := slots[pos := s];
    forall p ensures p in Peers(slots') <==> p in Peers(slots) + {PeerOf(s)} {
      PeersMembers(slots, p);
      PeersMembers(slots', p);
      if p in Peers(slots) {
        var i :| 0 <= i < |slots| && Live(slots[i]) && PeerOf(slots[i]) == p;
        assert slots'[i] == slots[i];
      }
      assert slots'[pos] == s;
    }
  }

  lemma FilledProper(slots: seq<Slot>, pos: nat, s: Slot)
    requires Proper(slots) && pos < |slots| && s.kind <= 0x01 && PeerOf(s) !in Peers(slots)
    ensures Proper(slots[pos := s])
  {
    hide Peers;
    PeersMembers(slots, PeerOf(s));
  }

  /** Freeing the one slot that holds an address takes it out of the set. */
  lemma PeersFreed(slots: seq<Slot>, pos: nat)
    requires Proper(slots) && pos < |slots| && Live(slots[pos])
    ensures Peers(slots[pos := FREE]) == Peers(slots) - {PeerOf(slots[pos])}
  {
    var slots' := slots[pos := FREE];
    forall p ensures p in Peers(slots') <==> p in Peers(slots) - {PeerOf(slots[pos])} {
      PeersMembers(slots, p);
      PeersMembers(slots', p);
      if p in Peers(slots) && p != PeerOf(slots[pos]) {
        var i :| 0 <= i < |slots| && Live(slots[i]) && PeerOf(slots[i]) == p;
        assert slots'[i] == slots[i];
      }
    }
  }

  lemma {:induction false} PeersOfFree(slots: seq<Slot>)
    requires forall i :: 0 <= i < |slots| ==> slots[i] == FREE
    ensures Peers(slots) == {}
  {
    if slots != [] { PeersOfFree(slots[..|slots| - 1]); }
  }

  // ---------------------------------------------------------------- adding and removing

  /** The index of the first slot with this type and address, or the length of the list. */
  function Find(slots: seq<Slot>, kind: uint8, addr: octets): (i: nat)
    ensures i <= |slots| && (i < |slots| ==> slots[i].kind == kind && slots[i].addr == addr)
    ensures forall k :: 0 <= k < i ==> !(slots[k].kind == kind && slots[k].addr == addr)
  {
    if slots == [] || (slots[0].kind == kind && slots[0].addr == addr) then 0
    else
      var rest := Find(slots[1..], kind, addr);
      assert forall k :: 1 <= k < rest + 1 ==> slots[k] == slots[1..][k - 1];
      rest + 1
  }

  /** The index of the first free slot, or the length of the list. */
  function FirstFree(slots: seq<Slot>): (i: nat)
    ensures i <= |slots| && (i < |slots| ==> !Live(slots[i]))
    ensures forall k :: 0 <= k < i ==> Live(slots[k])
  {
    if slots == [] || !Live(slots[0]) then 0
    else
      var rest := FirstFree(slots[1..]);
      assert forall k :: 1 <= k < rest + 1 ==> slots[k] == slots[1..][k - 1];
      rest + 1
  }

  /** `cmd_le_add_to_white_list` and `cmd_le_add_to_resolv_list`: the list, and the status. */
  function Added(slots: seq<Slot>, s: Slot): (seq<Slot>, uint8)
  {
    if s.kind > 0x01 then (slots, BT_HCI_ERR_INVALID_PARAMETERS)
    else if Find(slots, s.kind, s.addr) < |slots| then (slots, BT_HCI_ERR_UNSPECIFIED_ERROR)
    else if FirstFree(slots) == |slots| then (slots, BT_HCI_ERR_MEM_CAPACITY_EXCEEDED)
    else (slots[FirstFree(slots) := s], BT_HCI_ERR_SUCCESS)
  }

  /** `cmd_le_remove_from_white_list` and `cmd_le_remove_from_resolv_list`. */
  function Removed(slots: seq<Slot>, kind: uint8, addr: octets): (seq<Slot>, uint8)
  {
    var i := Find(slots, kind, addr);
    if kind > 0x01 || i == |slots| then (slots, BT_HCI_ERR_INVALID_PARAMETERS)
    else (slots[i := FREE], BT_HCI_ERR_SUCCESS)
  }

  lemma FindIsMember(slots: seq<Slot>, kind: uint8, addr: octets)
    requires kind <= 0x01
    ensures Find(slots, kind, addr) < |slots| <==> Peer(kind, addr) in Peers(slots)
  {
    hide Peers;
    PeersMembers(slots, Peer(kind, addr));
  }

  /** What a command to add does to the set: it answers for what was in it, and adds at most its address. */
  lemma AddedToSet(slots: seq<Slot>, s: Slot)
    requires Proper(slots)
    ensures var (after, status) := Added(slots, s);
            && Proper(after) && |after| == |slots|
            && Peers(after) == Peers(slots) + (if status == BT_HCI_ERR_SUCCESS then {PeerOf(s)} else {})
            && status == if s.kind > 0x01 then BT_HCI_ERR_INVALID_PARAMETERS
                         else if PeerOf(s) in Peers(slots) then BT_HCI_ERR_UNSPECIFIED_ERROR
                         else if |Peers(slots)| == |slots| then BT_HCI_ERR_MEM_CAPACITY_EXCEEDED
                         else BT_HCI_ERR_SUCCESS
  {
    hide Peers, Proper;
    PeersCounted(slots);
    if s.kind <= 0x01 {
      FindIsMember(slots, s.kind, s.addr);
      if Added(slots, s).1 == BT_HCI_ERR_SUCCESS {
        PeersFilled(slots, FirstFree(slots), s);
        FilledProper(slots, FirstFree(slots), s);
      }
    }
  }

  lemma RemovedFromSet(slots: seq<Slot>, kind: uint8, addr: octets)
    requires Proper(slots)
    ensures var (after, status) := Removed(slots, kind, addr);
            && Proper(after) && |after| == |slots|
            && Peers(after) == Peers(slots) - (if status == BT_HCI_ERR_SUCCESS then {Peer(kind, addr)} else {})
            && status == if kind > 0x01 || Peer(kind, addr) !in Peers(slots) then BT_HCI_ERR_INVALID_PARAMETERS
                         else BT_HCI_ERR_SUCCESS
  {
    hide Peers;
    if kind <= 0x01 {
      FindIsMember(slots, kind, addr);
      if Removed(slots, kind, addr).1 == BT_HCI_ERR_SUCCESS {
        PeersFreed(slots, Find(slots, kind, addr));
      }
    }
  }

  // ---------------------------------------------------------------- address resolution

  /** The first three octets of a resolvable address are a hash of the last three under an IRK. */
  type Hash = (octets, octets) -> octets

  predicate Resolvable(p: Peer) { p.kind == 0x01 && |p.addr| == 6 && (p.addr[5] as int) / 0x40 == 1 }

  predicate Matches(ah: Hash, s: Slot, p: Peer)
    requires |p.addr| == 6
  {
    s.kind <= 0x01 && |s.keys| == 32 && p.addr[..3] == ah(s.keys[..16], p.addr[3..])
  }

  /** `resolve_peer_addr`: the identity address of the first slot whose IRK matches. */
  function Resolve(ah: Hash, enabled: bool, slots: seq<Slot>, p: Peer): Peer
  {
    if !enabled || !Resolvable(p) || slots == [] then p
    else if Matches(ah, slots[0], p) then Peer(slots[0].kind + 2, slots[0].addr)
    else Resolve(ah, enabled, slots[1..], p)
  }

  /** A resolved address is marked as one, and belongs to an entry with a matching key. */
  lemma {:induction false} ResolvedIsIdentity(ah: Hash, enabled: bool, slots: seq<Slot>, p: Peer)
    ensures var r := Resolve(ah, enabled, slots, p);
            || r == p
            || (exists i :: 0 <= i < |slots| && Resolvable(p) && Matches(ah, slots[i], p)
                            && r == Peer(slots[i].kind + 2, slots[i].addr))
    ensures enabled && Resolvable(p) ==>
              (Resolve(ah, enabled, slots, p).kind >= 0x02
               <==> exists i :: 0 <= i < |slots| && Matches(ah, slots[i], p))
    decreases |slots|
  {
    if enabled && Resolvable(p) && slots != [] && !Matches(ah, slots[0], p) {
      var rest := slots[1..];
      ResolvedIsIdentity(ah, enabled, rest, p);
      if i :| 0 <= i < |rest| && Matches(ah, rest[i], p)
              && Resolve(ah, enabled, rest, p) == Peer(rest[i].kind + 2, rest[i].addr) {
        assert slots[i + 1] == rest[i];
      }
      if i :| 0 <= i < |rest| && Matches(ah, rest[i], p) {
        assert slots[i + 1] == rest[i];
      }
      if i :| 0 <= i < |slots| && Matches(ah, slots[i], p) {
        assert rest[i - 1] == slots[i];
      }
    }
  }

  // ---------------------------------------------------------------- the slot arrays

  function AllFree(n: nat): (slots: seq<Slot>)
    ensures |slots| == n && forall i :: 0 <= i < n ==> slots[i] == FREE
  {
    seq(n, _ => FREE)
  }

  class SlotList {
    const slots: array<Slot>

    predicate Valid()
      reads this, slots
    {
      slots.Length == LIST_SIZE && Proper(slots[..])
    }

    function Set(): set<Peer>
      reads this, slots
    {
      Peers(slots[..])
    }

    constructor ()
      ensures Valid() && Set() == {} && fresh(slots) && slots[..] == AllFree(LIST_SIZE)
    {
      slots := new Slot[LIST_SIZE](_ => FREE);
      new;
      PeersOfFree(slots[..]);
    }

    /** The search of the two add commands: for the address, and for the first free slot. */
    method FindSlot(kind: uint8, addr: octets) returns (found: bool, pos: int)
      requires Valid() && kind <= 0x01
      ensures found <==> Find(slots[..], kind, addr) < LIST_SIZE
      ensures !found ==> pos == if FirstFree(slots[..]) < LIST_SIZE then FirstFree(slots[..]) else -1
    {
      found, pos := false, -1;
      var i := 0;
      while i < slots.Length && !found
        invariant 0 <= i <= slots.Length
        invariant found <==> exists k :: 0 <= k < i && slots[..][k].kind == kind && slots[..][k].addr == addr
        invariant -1 <= pos < i && (pos >= 0 ==> !Live(slots[..][pos]))
        invariant !found ==> forall k :: 0 <= k < (if pos < 0 then i else pos) ==> Live(slots[..][k])
      {
        if slots[i].kind == kind && slots[i].addr == addr {
          assert slots[..][i] == slots[i];
          found := true;
        } else if pos < 0 && slots[i].kind == 0xff {
          pos := i;
        }
        i := i + 1;
      }
    }

    /** `cmd_le_add_to_white_list` and `cmd_le_add_to_resolv_list`. */
    method Add(kind: uint8, addr: octets, keys: octets) returns (status: uint8)
      requires Valid()
      modifies slots
      ensures Valid() && (slots[..], status) == Added(old(slots[..]), Slot(kind, addr, keys))
      ensures status == if kind > 0x01 then BT_HCI_ERR_INVALID_PARAMETERS
                        else if Peer(kind, addr) in old(Set()) then BT_HCI_ERR_UNSPECIFIED_ERROR
                        else if |old(Set())| == LIST_SIZE then BT_HCI_ERR_MEM_CAPACITY_EXCEEDED
                        else BT_HCI_ERR_SUCCESS
      ensures Set() == old(Set()) + if status == BT_HCI_ERR_SUCCESS then {Peer(kind, addr)} else {}
    {
      hide Peers, Proper;
      ghost var before, s := slots[..], Slot(kind, addr, keys);
      AddedToSet(before, s);
      if kind > 0x01 { return BT_HCI_ERR_INVALID_PARAMETERS; }
      var found, pos := FindSlot(kind, addr);
      if found { return BT_HCI_ERR_UNSPECIFIED_ERROR; }
      if pos < 0 { return BT_HCI_ERR_MEM_CAPACITY_EXCEEDED; }
      slots[pos] := Slot(kind, addr, keys);
      assert slots[..] == before[pos := s];
      return BT_HCI_ERR_SUCCESS;
    }

    /** `cmd_le_remove_from_white_list` and `cmd_le_remove_from_resolv_list`. */
    method Remove(kind: uint8, addr: octets) returns (status: uint8)
      requires Valid()
      modifies slots
      ensures Valid() && (slots[..], status) == Removed(old(slots[..]), kind, addr)
      ensures status == if kind > 0x01 || Peer(kind, addr) !in old(Set()) then BT_HCI_ERR_INVALID_PARAMETERS
                        else BT_HCI_ERR_SUCCESS
      ensures Set() == old(Set()) - if status == BT_HCI_ERR_SUCCESS then {Peer(kind, addr)} else {}
    {
      hide Peers, Proper;
      ghost var before := slots[..];
      RemovedFromSet(before, kind, addr);
      if kind > 0x01 { return BT_HCI_ERR_INVALID_PARAMETERS; }
      var pos := -1;
      var i := 0;
      while i < slots.Length && pos < 0
        invariant 0 <= i <= slots.Length && -1 <= pos < i && slots[..] == before
        invariant if pos >= 0 then pos == Find(before, kind, addr) else i <= Find(before, kind, addr)
      {
        if slots[i].kind == kind && slots[i].addr == addr { pos := i; }
        i := i + 1;
      }
      if pos < 0 { return BT_HCI_ERR_INVALID_PARAMETERS; }
      slots[pos] := FREE;
      assert slots[..] == before[pos := FREE];
      return BT_HCI_ERR_SUCCESS;
    }

    /** `clear_white_list` and `clear_resolv_list`. */
    method Clear()
      requires Valid()
      modifies slots
      ensures Valid() && Set() == {} && slots[..] == AllFree(LIST_SIZE)
    {
      for i := 0 to slots.Length
        invariant forall k :: 0 <= k < i ==> slots[k] == FREE
      {
        slots[i] := FREE;
      }
      PeersOfFree(slots[..]);
    }

    /** `is_in_white_list`, which also takes a free slot for an address of type 0xff. */
    method Contains(kind: uint8, addr: octets) returns (found: bool)
      requires Valid()
      ensures kind != 0xff ==> (found <==> Peer(kind, addr) in Set())
      ensures kind == 0xff ==> (found <==> addr == NO_ADDR && |Set()| < LIST_SIZE)
    {
      PeersMembers(slots[..], Peer(kind, addr));
      PeersCounted(slots[..]);
      found := false;
      var i := 0;
      while i < slots.Length && !found
        invariant 0 <= i <= slots.Length
        invariant found <==> exists k :: 0 <= k < i && slots[k].kind == kind && slots[k].addr == addr
      {
        if slots[i].kind == kind && slots[i].addr == addr { found := true; }
        i := i + 1;
      }
      if found {
        var k :| 0 <= k < i && slots[k].kind == kind && slots[k].addr == addr;
        assert slots[..][k] == slots[k];
      }
      assert kind == 0xff && (exists k :: 0 <= k < slots.Length && !Live(slots[..][k])) ==>
          exists k :: 0 <= k < slots.Length && slots[k] == FREE;
    }

    /** `resolve_peer_addr`. */
    method ResolvePeer(ah: Hash, enabled: bool, p: Peer) returns (r: Peer)
      requires Valid()
      ensures r == Resolve(ah, enabled, slots[..], p)
    {
      if !enabled || !Resolvable(p) { return p; }
      for i := 0 to slots.Length
        invariant Resolve(ah, enabled, slots[..], p) == Resolve(ah, enabled, slots[i..], p)
      {
        assert slots[i..][1..] == slots[i + 1..];
        if Matches(ah, slots[i], p) { return Peer(slots[i].kind + 2, slots[i].addr); }
      }
      return p;
    }
  }

  // ---------------------------------------------------------------- the scan cache

  /** The cache after one more address, and whether the address is reported. */
  function Seen(cache: seq<Peer>, p: Peer): (seq<Peer>, bool)
  {
    if p in cache then (cache, false)
    else if |cache| >= SCAN_CACHE_SIZE then (cache, true)
    else (cache + [p], true)
  }

  /** The cache after a whole session, which `clear_scan_cache` begins. */
  function CacheAfter(seen: seq<Peer>): (cache: seq<Peer>)
    ensures |cache| <= SCAN_CACHE_SIZE
  {
    if seen == [] then [] else Seen(CacheAfter(seen[..|seen| - 1]), seen[|seen| - 1]).0
  }

  /** The distinct addresses of a session, in the order of their first reception. */
  function Distinct(seen: seq<Peer>): seq<Peer>
  {
    if seen == [] then []
    else
      var before, p := Distinct(seen[..|seen| - 1]), seen[|seen| - 1];
      if p in before then before else before + [p]
  }

  /** The cache is the first 64 distinct addresses. */
  lemma {:induction false} CacheIsFirst64(seen: seq<Peer>)
    ensures CacheAfter(seen)
         == if |Distinct(seen)| <= SCAN_CACHE_SIZE then Distinct(seen) else Distinct(seen)[..SCAN_CACHE_SIZE]
    ensures forall p :: p in Distinct(seen) <==> p in seen
  {
    if seen != [] {
      var n := |seen| - 1;
      CacheIsFirst64(seen[..n]);
      assert seen == seen[..n] + [seen[n]];
    }
  }

  /** The reception at index `i` of a session is reported. */
  predicate ReportedAt(seen: seq<Peer>, i: nat)
    requires i < |seen|
  {
    Seen(CacheAfter(seen[..i]), seen[i]).1
  }

  /** The cache only grows. */
  lemma {:induction false} CacheGrows(seen: seq<Peer>, i: nat)
    requires i <= |seen|
    ensures CacheAfter(seen[..i]) <= CacheAfter(seen)
  {
    if i < |seen| {
      var init := seen[..|seen| - 1];
      assert init[..i] == seen[..i];
      CacheGrows(init, i);
    } else {
      assert seen[..i] == seen;
    }
  }

  /**
   * With duplicate filtering every address is reported when it is first received, and never again
   * if it is one of the first 64.
   */
  lemma DuplicateFilter(seen: seq<Peer>, i: nat)
    requires i < |seen|
    ensures seen[i] !in seen[..i] ==> ReportedAt(seen, i)
    ensures seen[i] in CacheAfter(seen) ==> (ReportedAt(seen, i) <==> seen[i] !in seen[..i])
    ensures seen[i] !in CacheAfter(seen) ==> ReportedAt(seen, i)
  {
    CacheIsFirst64(seen[..i]);
    CacheGrows(seen, i);
    var p, cache := seen[i], CacheAfter(seen[..i]);
    if p in CacheAfter(seen) && p in seen[..i] && p !in cache {
      FullStays(seen, i);
    }
  }

  /** Once an address was left out for want of room, nothing is added any more. */
  lemma {:induction false} FullStays(seen: seq<Peer>, i: nat)
    requires i <= |seen| && |CacheAfter(seen[..i])| == SCAN_CACHE_SIZE
    ensures CacheAfter(seen) == CacheAfter(seen[..i])
  {
    CacheGrows(seen, i);
  }

  class ScanCache {
    const peers: array<Peer>
    var count: nat

    predicate Valid()
      reads this, peers
    {
      peers.Length == SCAN_CACHE_SIZE && count <= SCAN_CACHE_SIZE
    }

    function Contents(): seq<Peer>
      requires Valid()
      reads this, peers
    {
      peers[..count]
    }

    constructor ()
      ensures Valid() && Contents() == [] && fresh(peers)
    {
      peers := new Peer[SCAN_CACHE_SIZE](_ => Peer(0, NO_ADDR));
      count := 0;
    }

    method Clear()
      requires Valid()
      modifies this, peers
      ensures Valid() && Contents() == []
    {
      for i := 0 to peers.Length {
        peers[i] := Peer(0, NO_ADDR);
      }
      count := 0;
    }

    /** `add_to_scan_cache`. */
    method Add(kind: uint8, addr: octets) returns (report: bool)
      requires Valid()
      modifies this, peers
      ensures Valid() && (Contents(), report) == Seen(old(Contents()), Peer(kind, addr))
    {
      for i := 0 to count
        invariant Peer(kind, addr) !in peers[..i]
      {
        if peers[i].kind == kind && peers[i].addr == addr {
          assert peers[..count][i] == Peer(kind, addr);
          return false;
        }
      }
      if count >= SCAN_CACHE_SIZE { return true; }
      ghost var before := peers[..count];
      peers[count] := Peer(kind, addr);
      count := count + 1;
      assert peers[..count] == before + [Peer(kind, addr)];
      return true;
    }
  }
}
