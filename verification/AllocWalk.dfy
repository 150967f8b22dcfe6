/** The allocation listing: a walk over every address of a block. */
module AllocWalk {
  import opened PolTypes
  import opened AddressArithmetic

  datatype Status =
    | NetworkBase
    | Broadcast
    | OutOfPool
    | AllocatedTo(pod: string)
    | AllocatedUnknown
    | Free

  datatype Line = Line(ip: IP, status: Status)

  /** The library's reading of an address in prefix notation. */
  type CidrParser = string -> Option<IP>

  /** What a listing is made from: the block's first address, its bit array, the pool bounds as offsets,
      whether everything is shown, the addresses asked for, and the endpoints known. */
  datatype Request = Request(
    ip0: IP, bits: seq<bool>, iStart: uint32, iEnd: uint32, showAll: bool, wanted: IP -> bool,
    eps: seq<DanmEp>, v6: bool, parse: CidrParser)

  predicate ValidRequest(r: Request) {
    IsAddress(r.ip0) && |r.bits| < TWO_TO_THE_32
  }

  /** The text was read as this address, in four or in sixteen bytes. */
  predicate IsIP(read: Option<IP>, ip: IP) {
    read.Some? && IsAddress(read.value) && IsAddress(ip) && To16(read.value) == To16(ip)
  }

  /** The endpoint has this address. */
  predicate HasIP(ep: DanmEp, ip: IP, v6: bool, parse: CidrParser) {
    IsIP(parse(if v6 then ep.addressIPv6 else ep.address), ip)
  }

  /** The first endpoint of the list whose IPv4 text is read as the address. */
  ghost predicate IsFirstByAddress(eps: seq<DanmEp>, ip: IP, parse: CidrParser, r: Option<DanmEp>) {
    if r.None? then forall i :: 0 <= i < |eps| ==> !IsIP(parse(eps[i].address), ip)
    else exists i :: 0 <= i < |eps| && eps[i] == r.value && IsIP(parse(eps[i].address), ip)
                     && forall k :: 0 <= k < i ==> !IsIP(parse(eps[k].address), ip)
  }

  /** The first endpoint of the list whose IPv6 text is read as the address. */
  ghost predicate IsFirstByAddressIPv6(eps: seq<DanmEp>, ip: IP, parse: CidrParser, r: Option<DanmEp>) {
    if r.None? then forall i :: 0 <= i < |eps| ==> !IsIP(parse(eps[i].addressIPv6), ip)
    else exists i :: 0 <= i < |eps| && eps[i] == r.value && IsIP(parse(eps[i].addressIPv6), ip)
                     && forall k :: 0 <= k < i ==> !IsIP(parse(eps[k].addressIPv6), ip)
  }

  method FindEpByIP(eps: seq<DanmEp>, ip: IP, v6: bool, parse: CidrParser) returns (r: Option<DanmEp>)
    ensures !v6 ==> IsFirstByAddress(eps, ip, parse, r)
    ensures v6 ==> IsFirstByAddressIPv6(eps, ip, parse, r)
    ensures r == FirstWithIP(eps, ip, v6, parse)
  {
    for i := 0 to |eps|
      invariant forall k :: 0 <= k < i ==> !IsIP(parse(if v6 then eps[k].addressIPv6 else eps[k].address), ip)
      invariant FirstWithIP(eps, ip, v6, parse) == FirstWithIP(eps[i..], ip, v6, parse)
    {
      assert eps[i..][1..] == eps[i + 1..];
      if HasIP(eps[i], ip, v6, parse) {
        return Some(eps[i]);
      }
    }
    r := None;
  }

  function FirstWithIP(eps: seq<DanmEp>, ip: IP, v6: bool, parse: CidrParser): Option<DanmEp> {
    if eps == [] then None
    else if HasIP(eps[0], ip, v6, parse) then Some(eps[0])
    else FirstWithIP(eps[1..], ip, v6, parse)
  }

  function AddressAt(r: Request, i: nat): IP
    requires ValidRequest(r) && i < |r.bits|
  {
    Advanced(To16(r.ip0), i)
  }

  /** The status position and bit of an address call for. */
  function StatusAt(r: Request, i: nat): Status
    requires ValidRequest(r) && i < |r.bits|
  {
    if i == 0 then NetworkBase
    else if i == |r.bits| - 1 then Broadcast
    else if i < r.iStart || i > r.iEnd then OutOfPool
    else if r.bits[i] then
      var ep := FirstWithIP(r.eps, AddressAt(r, i), r.v6, r.parse);
      if ep.Some? then AllocatedTo(ep.value.pod) else AllocatedUnknown
    else Free
  }

  predicate Shown(r: Request, i: nat)
    requires ValidRequest(r) && i < |r.bits|
  {
    && r.wanted(AddressAt(r, i))
    && (r.showAll || !(StatusAt(r, i) in {OutOfPool, Free}))
  }

  function LineAt(r: Request, i: nat): Line
    requires ValidRequest(r) && i < |r.bits|
  {
    Line(AddressAt(r, i), StatusAt(r, i))
  }

  /** The lines for the first n addresses. */
  function Listing(r: Request, n: nat): seq<Line>
    requires ValidRequest(r) && n <= |r.bits|
  {
    if n == 0 then []
    else Listing(r, n - 1) + (if Shown(r, n - 1) then [LineAt(r, n - 1)] else [])
  }

  method Walk(r: Request) returns (lines: seq<Line>)
    requires ValidRequest(r)
    ensures lines == Listing(r, |r.bits|)
  {
    lines := [];
    var i := 0;
    while i < |r.bits|
      invariant 0 <= i <= |r.bits|
      invariant lines == Listing(r, i)
    {
      var at := AddIP(r.ip0, i);
      var ip := at[..];
      i := i + 1;
      if !r.wanted(ip) {
        continue;
      }
      var status;
      if i - 1 == 0 {
        status := NetworkBase;
      } else if i - 1 == |r.bits| - 1 {
        status := Broadcast;
      } else if i - 1 < r.iStart || i - 1 > r.iEnd {
        if !r.showAll {
          continue;
        }
        status := OutOfPool;
      } else if r.bits[i - 1] {
        var ep := FindEpByIP(r.eps, ip, r.v6, r.parse);
        if ep.Some? {
          status := AllocatedTo(ep.value.pod);
        } else {
          status := AllocatedUnknown;
        }
      } else {
        if !r.showAll {
          continue;
        }
        status := Free;
      }
      lines := lines + [Line(ip, status)];
    }
  }

  // ---- What a listing shows ----

  function Pow2(n: nat): (p: nat)
    ensures p > 0
  {
    if n == 0 then 1 else 2 * Pow2(n - 1)
  }

  /** The last `n` binary digits of a number are zeros. */
  predicate EndsInZeros(x: nat, n: nat) {
    n == 0 || (x % 2 == 0 && EndsInZeros(x / 2, n - 1))
  }

  /** The bit array covers no more than the block that starts at `ip0` and leaves `hostBits` bits to the hosts
      (section 3.1 of RFC 4632). */
  predicate CoversBlock(r: Request, hostBits: nat)
    requires ValidRequest(r)
  {
    EndsInZeros(Low32(To16(r.ip0)), hostBits) && |r.bits| <= Pow2(hostBits)
  }

  /** A number that ends in `n` zeros leaves room for `n` more digits below the next power of two. */
  lemma {:induction false} RoomAbove(x: nat, n: nat, m: nat)
    requires EndsInZeros(x, n) && x < Pow2(m)
    ensures x == 0 || x + Pow2(n) <= Pow2(m)
  {
    if n > 0 && m > 0 {
      RoomAbove(x / 2, n - 1, m - 1);
    }
  }

  lemma Pow2Of32()
    ensures Pow2(32) == TWO_TO_THE_32
  {
    assert Pow2(8) == 0x100;
    assert Pow2(16) == 0x1_0000;
    assert Pow2(24) == 0x100_0000;
  }

  /** Addresses of a block never wrap around. */
  lemma NoWrapAround(r: Request, hostBits: nat)
    requires ValidRequest(r) && CoversBlock(r, hostBits)
    ensures Low32(To16(r.ip0)) + |r.bits| <= TWO_TO_THE_32
  {
    Pow2Of32();
    RoomAbove(Low32(To16(r.ip0)), hostBits, 32);
  }

  /** The i-th address of a block is i more than the first, as a number. */
  lemma AddressIsOffset(r: Request, hostBits: nat, i: nat)
    requires ValidRequest(r) && CoversBlock(r, hostBits) && i < |r.bits|
    ensures |AddressAt(r, i)| == 16 && Value(AddressAt(r, i)) == Value(To16(r.ip0)) + i
  {
    var first, ip := To16(r.ip0), AddressAt(r, i);
    NoWrapAround(r, hostBits);
    LowOfAdvanced(first, i);
    WrapCases(Low32(first) + i);
    ValueParts(first);
    ValueParts(ip);
  }

  lemma {:induction false} ListingOfAll(r: Request, n: nat)
    requires ValidRequest(r) && n <= |r.bits| && r.showAll && forall ip :: r.wanted(ip)
    ensures |Listing(r, n)| == n && forall i :: 0 <= i < n ==> Listing(r, n)[i] == LineAt(r, i)
  {
    if n > 0 {
      ListingOfAll(r, n - 1);
    }
  }

  /** The pool bounds are computed as offsets, and no end of the pool lies before the block or shares fewer than its
      first twelve bytes: neither offset wraps around. */
  predicate PoolInside(r: Request, poolStart: IP, poolEnd: IP)
    requires ValidRequest(r)
  {
    && IsAddress(poolStart) && IsAddress(poolEnd)
    && r.iStart == DiffIP(r.ip0, poolStart) && r.iEnd == DiffIP(r.ip0, poolEnd)
    && To16(poolStart)[..12] == To16(r.ip0)[..12] == To16(poolEnd)[..12]
    && Low32(To16(poolStart)) == Low32(To16(r.ip0)) + r.iStart
    && Low32(To16(poolEnd)) == Low32(To16(r.ip0)) + r.iEnd
  }

  /** The address lies numerically between the pool's ends. */
  predicate InPool(ip: IP, poolStart: IP, poolEnd: IP)
    requires IsAddress(ip) && IsAddress(poolStart) && IsAddress(poolEnd)
  {
    Value(To16(poolStart)) <= Value(To16(ip)) <= Value(To16(poolEnd))
  }

  /** The offset of an address of the block lies between the pool's offsets when the address is in the pool. */
  lemma PoolOffsets(r: Request, hostBits: nat, poolStart: IP, poolEnd: IP, i: nat)
    requires ValidRequest(r) && CoversBlock(r, hostBits) && PoolInside(r, poolStart, poolEnd) && i < |r.bits|
    ensures r.iStart <= i <= r.iEnd <==> InPool(AddressAt(r, i), poolStart, poolEnd)
  {
    AddressIsOffset(r, hostBits, i);
    ValueParts(To16(r.ip0));
    ValueParts(To16(poolStart));
    ValueParts(To16(poolEnd));
  }

  /** What an address's position, the pool's ends, its bit and the endpoints call for. */
  ghost predicate StatusFits(r: Request, poolStart: IP, poolEnd: IP, i: nat, status: Status)
    requires ValidRequest(r) && i < |r.bits| && IsAddress(poolStart) && IsAddress(poolEnd)
  {
    var ip := AddressAt(r, i);
    if i == 0 then status == NetworkBase
    else if i == |r.bits| - 1 then status == Broadcast
    else if !InPool(ip, poolStart, poolEnd) then status == OutOfPool
    else if !r.bits[i] then status == Free
    else exists ep ::
           && (if r.v6 then IsFirstByAddressIPv6(r.eps, ip, r.parse, ep) else IsFirstByAddress(r.eps, ip, r.parse, ep))
           && status == if ep.None? then AllocatedUnknown else AllocatedTo(ep.value.pod)
  }

  lemma {:induction false} FirstIsFirst(eps: seq<DanmEp>, ip: IP, v6: bool, parse: CidrParser)
    ensures var r := FirstWithIP(eps, ip, v6, parse);
            if r.None? then forall i :: 0 <= i < |eps| ==> !HasIP(eps[i], ip, v6, parse)
            else exists i :: 0 <= i < |eps| && eps[i] == r.value && HasIP(eps[i], ip, v6, parse)
                             && forall k :: 0 <= k < i ==> !HasIP(eps[k], ip, v6, parse)
  {
    if eps != [] && !HasIP(eps[0], ip, v6, parse) {
      var rest := eps[1..];
      FirstIsFirst(rest, ip, v6, parse);
      assert forall k :: 0 < k < |eps| ==> eps[k] == rest[k - 1];
      var r := FirstWithIP(rest, ip, v6, parse);
      if r.Some? {
        var i :| 0 <= i < |rest| && rest[i] == r.value && HasIP(rest[i], ip, v6, parse)
                 && forall k :: 0 <= k < i ==> !HasIP(rest[k], ip, v6, parse);
        assert eps[i + 1] == r.value;
      }
    }
  }

  lemma FirstOfTexts(eps: seq<DanmEp>, ip: IP, v6: bool, parse: CidrParser)
    ensures var r := FirstWithIP(eps, ip, v6, parse);
            if v6 then IsFirstByAddressIPv6(eps, ip, parse, r) else IsFirstByAddress(eps, ip, parse, r)
  {
    FirstIsFirst(eps, ip, v6, parse);
    forall i | 0 <= i < |eps|
      ensures HasIP(eps[i], ip, v6, parse) <==> IsIP(parse(if v6 then eps[i].addressIPv6 else eps[i].address), ip)
    {
    }
  }

  lemma StatusByPool(r: Request, hostBits: nat, poolStart: IP, poolEnd: IP, i: nat)
    requires ValidRequest(r) && CoversBlock(r, hostBits) && PoolInside(r, poolStart, poolEnd) && i < |r.bits|
    ensures StatusFits(r, poolStart, poolEnd, i, StatusAt(r, i))
  {
    PoolOffsets(r, hostBits, poolStart, poolEnd, i);
    FirstOfTexts(r.eps, AddressAt(r, i), r.v6, r.parse);
  }

  /** Showing everything lists each address of the block once, one after the other, with the status that its position
      and its bit call for, and, when the pool is inside the block, its place in the pool. */
  lemma FullListing(r: Request, hostBits: nat, poolStart: IP, poolEnd: IP)
    requires ValidRequest(r) && CoversBlock(r, hostBits) && r.showAll && forall ip :: r.wanted(ip)
    ensures var lines := Listing(r, |r.bits|);
            && |lines| == |r.bits|
            && forall i :: 0 <= i < |lines| ==>
                 && lines[i] == LineAt(r, i)
                 && Value(lines[i].ip) == Value(To16(r.ip0)) + i
                 && (PoolInside(r, poolStart, poolEnd) ==> StatusFits(r, poolStart, poolEnd, i, lines[i].status))
  {
    ListingOfAll(r, |r.bits|);
    forall i | 0 <= i < |r.bits|
      ensures Value(AddressAt(r, i)) == Value(To16(r.ip0)) + i
      ensures PoolInside(r, poolStart, poolEnd) ==> StatusFits(r, poolStart, poolEnd, i, StatusAt(r, i))
    {
      AddressIsOffset(r, hostBits, i);
      if PoolInside(r, poolStart, poolEnd) {
        StatusByPool(r, hostBits, poolStart, poolEnd, i);
      }
    }
  }

  lemma {:induction false} ListingMembers(r: Request, n: nat, line: Line)
    requires ValidRequest(r) && n <= |r.bits|
    ensures line in Listing(r, n) <==> exists i :: 0 <= i < n && Shown(r, i) && line == LineAt(r, i)
  {
    if n > 0 {
      ListingMembers(r, n - 1, line);
      if line in Listing(r, n) && line !in Listing(r, n - 1) {
        assert Shown(r, n - 1) && line == LineAt(r, n - 1);
      }
    }
  }

  /** The position of an address that the default listing shows. */
  predicate ShownByDefault(r: Request, poolStart: IP, poolEnd: IP, i: nat)
    requires ValidRequest(r) && i < |r.bits| && IsAddress(poolStart) && IsAddress(poolEnd)
  {
    i == 0 || i == |r.bits| - 1 || (InPool(AddressAt(r, i), poolStart, poolEnd) && r.bits[i])
  }

  /** The default listing shows exactly the two ends of the block and the allocated addresses in the pool. */
  lemma DefaultListing(r: Request, hostBits: nat, poolStart: IP, poolEnd: IP, line: Line)
    requires ValidRequest(r) && CoversBlock(r, hostBits) && PoolInside(r, poolStart, poolEnd)
    requires !r.showAll && forall ip :: r.wanted(ip)
    ensures line in Listing(r, |r.bits|)
            <==> exists i :: 0 <= i < |r.bits| && ShownByDefault(r, poolStart, poolEnd, i) && line == LineAt(r, i)
  {
    ListingMembers(r, |r.bits|, line);
    forall i | 0 <= i < |r.bits| ensures Shown(r, i) <==> ShownByDefault(r, poolStart, poolEnd, i) {
      PoolOffsets(r, hostBits, poolStart, poolEnd, i);
    }
  }

  /** A listing never shows an address twice. */
  lemma {:induction false} ListingIncreases(r: Request, hostBits: nat, n: nat)
    requires ValidRequest(r) && CoversBlock(r, hostBits) && n <= |r.bits|
    ensures forall line :: line in Listing(r, n) ==> Value(line.ip) < Value(To16(r.ip0)) + n
    ensures forall i, j :: 0 <= i < j < |Listing(r, n)| ==> Value(Listing(r, n)[i].ip) < Value(Listing(r, n)[j].ip)
  {
    if n > 0 {
      ListingIncreases(r, hostBits, n - 1);
      AddressIsOffset(r, hostBits, n - 1);
      var before := Listing(r, n - 1);
      assert forall i :: 0 <= i < |before| ==> before[i] in before;
    }
  }

  // ---- What plays no part ----

  /** The endpoints differ in nothing but, perhaps, the address texts of the family that is not listed. */
  ghost predicate SameButOther(eps: seq<DanmEp>, eps': seq<DanmEp>, v6: bool) {
    && |eps| == |eps'|
    && forall i :: 0 <= i < |eps| ==>
         if v6 then eps'[i] == eps[i].(address := eps'[i].address) else eps'[i] == eps[i].(addressIPv6 := eps'[i].addressIPv6)
  }

  lemma {:induction false} FirstOfFamily(eps: seq<DanmEp>, eps': seq<DanmEp>, ip: IP, v6: bool, parse: CidrParser)
    requires SameButOther(eps, eps', v6)
    ensures var r, r' := FirstWithIP(eps, ip, v6, parse), FirstWithIP(eps', ip, v6, parse);
            (r.None? <==> r'.None?) && (r.Some? ==> r.value.pod == r'.value.pod)
  {
    if eps != [] {
      FirstOfFamily(eps[1..], eps'[1..], ip, v6, parse);
    }
  }

  /** A listing of one family does not depend on the address texts of the other. */
  lemma {:induction false} OtherFamilyPlaysNoPart(r: Request, eps': seq<DanmEp>, n: nat)
    requires ValidRequest(r) && n <= |r.bits| && SameButOther(r.eps, eps', r.v6)
    ensures Listing(r.(eps := eps'), n) == Listing(r, n)
  {
    if n > 0 {
      OtherFamilyPlaysNoPart(r, eps', n - 1);
      FirstOfFamily(r.eps, eps', AddressAt(r, n - 1), r.v6, r.parse);
    }
  }

  /** The lines for the wanted addresses. */
  function Restricted(lines: seq<Line>, wanted: IP -> bool): seq<Line> {
    if lines == [] then []
    else
      var n := |lines| - 1;
      Restricted(lines[..n], wanted) + (if wanted(lines[n].ip) then [lines[n]] else [])
  }

  lemma RestrictedOneMore(lines: seq<Line>, line: Line, wanted: IP -> bool)
    ensures Restricted(lines + [line], wanted) == Restricted(lines, wanted) + (if wanted(line.ip) then [line] else [])
  {
    assert (lines + [line])[..|lines|] == lines;
  }

  /** `all` is the same request without a filter. */
  ghost predicate Unfiltered(r: Request, all: Request) {
    all == r.(wanted := all.wanted) && forall ip :: all.wanted(ip)
  }

  lemma SameLine(r: Request, all: Request, i: nat)
    requires ValidRequest(r) && i < |r.bits| && Unfiltered(r, all)
    ensures ValidRequest(all) && |all.bits| == |r.bits| && LineAt(all, i) == LineAt(r, i)
    ensures Shown(r, i) <==> Shown(all, i) && r.wanted(LineAt(r, i).ip)
  {
  }

  lemma FilteredOneMore(r: Request, all: Request, n: nat, before: seq<Line>)
    requires ValidRequest(r) && n < |r.bits| && Unfiltered(r, all) && ValidRequest(all) && |all.bits| == |r.bits|
    ensures Restricted(before + (if Shown(all, n) then [LineAt(all, n)] else []), r.wanted)
            == Restricted(before, r.wanted) + (if Shown(r, n) then [LineAt(r, n)] else [])
  {
    SameLine(r, all, n);
    RestrictedOneMore(before, LineAt(r, n), r.wanted);
    if !Shown(all, n) {
      assert before + [] == before;
    }
  }

  /** A listing under a filter is the unfiltered one, restricted to the addresses the filter wants. */
  lemma {:induction false} FilteredListing(r: Request, all: Request, n: nat)
    requires ValidRequest(r) && ValidRequest(all) && n <= |r.bits| == |all.bits| && Unfiltered(r, all)
    ensures Listing(r, n) == Restricted(Listing(all, n), r.wanted)
  {
    if n > 0 {
      FilteredListing(r, all, n - 1);
      FilteredOneMore(r, all, n - 1, Listing(all, n - 1));
    }
  }
}
