/** Address arithmetic on the last four bytes, wrapping around at 32 bits. */
module AddressArithmetic {

  type byte = x: int | 0 <= x < 256
  type uint32 = x: int | 0 <= x < 0x1_0000_0000

  const TWO_TO_THE_32 := 0x1_0000_0000

  type IP = seq<byte>

  /** An address in its four-byte or its sixteen-byte form. */
  predicate IsAddress(ip: IP) {
    |ip| == 4 || |ip| == 16
  }

  /** The IPv4-mapped prefix (section 2.5.5.2 of RFC 4291). */
  const V4_PREFIX: IP := [0, 0, 0, 0, 0, 0, 0, 0, 0, 0, 255, 255]

  function To16(ip: IP): (r: IP)
    requires IsAddress(ip)
    ensures |r| == 16
  {
    if |ip| == 4 then V4_PREFIX + ip else ip
  }

  /** Of a four-byte address, the last bytes are its own, after ten zeros and two bytes of ones. */
  lemma MappedForm(a: byte, b: byte, c: byte, d: byte)
    ensures To16([a, b, c, d]) == [0, 0, 0, 0, 0, 0, 0, 0, 0, 0, 0xff, 0xff, a, b, c, d]
  {
  }

  /** Four bytes as one number, most significant first. */
  function Number(a: int, b: int, c: int, d: int): int {
    a * 0x100_0000 + b * 0x1_0000 + c * 0x100 + d
  }

  /** The last four bytes as one number. */
  function Low32(ip: IP): uint32
    requires |ip| == 16
  {
    Number(ip[12], ip[13], ip[14], ip[15])
  }

  /** Unsigned 32-bit arithmetic wraps around. */
  function Wrap(v: int): uint32 {
    v % TWO_TO_THE_32
  }

  lemma WrapCases(v: int)
    requires -TWO_TO_THE_32 <= v < 2 * TWO_TO_THE_32
    ensures Wrap(v) == if v < 0 then v + TWO_TO_THE_32 else if v < TWO_TO_THE_32 then v else v - TWO_TO_THE_32
  {
  }

  function Bytes(v: uint32): IP {
    [v / 0x100_0000, v / 0x1_0000 % 0x100, v / 0x100 % 0x100, v % 0x100]
  }

  /** The sum of the address and a number; the first twelve bytes take no part. */
  function Advanced(ip: IP, num: uint32): (r: IP)
    requires |ip| == 16
    ensures |r| == 16
  {
    ip[..12] + Bytes(Wrap(Low32(ip) + num))
  }

  function DiffIP(ip1: IP, ip2: IP): uint32
    requires IsAddress(ip1) && IsAddress(ip2)
  {
    Wrap(Low32(To16(ip2)) - Low32(To16(ip1)))
  }

  method AddIP(ip: IP, num: uint32) returns (newIP: array<byte>)
    requires IsAddress(ip)
    ensures fresh(newIP) && newIP[..] == Advanced(To16(ip), num)
  {
    var oldIP := To16(ip);
    newIP := new byte[16](i requires 0 <= i < 16 => oldIP[i]);
    var v: uint32 := Low32(oldIP);
    v := Wrap(v + num);
    newIP[15] := v % 0x100;
    newIP[14] := v / 0x100 % 0x100;
    newIP[13] := v / 0x1_0000 % 0x100;
    newIP[12] := v / 0x100_0000 % 0x100;
    assert newIP[..12] == oldIP[..12];
    assert newIP[12..] == Bytes(v);
    assert newIP[..] == newIP[..12] + newIP[12..];
  }

  /** Splitting a number into bytes and putting them together again. */
  lemma BytesRoundTrip(v: uint32)
    ensures var b := Bytes(v); Number(b[0], b[1], b[2], b[3]) == v
  {
    assert v / 0x1_0000 == v / 0x100_0000 * 0x100 + v / 0x1_0000 % 0x100;
    assert v / 0x100 == v / 0x1_0000 * 0x100 + v / 0x100 % 0x100;
  }

  lemma DivisionIsUnique(v: int, k: int, q: int, r: int)
    requires k > 0 && v == q * k + r && 0 <= r < k
    ensures v / k == q && v % k == r
  {
    var d := v / k - q;
    assert v / k * k + v % k == v;
    assert d * k == r - v % k;
    assert d > 0 ==> d * k >= k;
    assert d < 0 ==> d * k <= -k;
  }

  lemma BytesOfNumber(a: byte, b: byte, c: byte, d: byte)
    ensures Bytes(Number(a, b, c, d)) == [a, b, c, d]
  {
    var v := Number(a, b, c, d);
    DivisionIsUnique(v, 0x100, Number(0, a, b, c), d);
    DivisionIsUnique(Number(0, a, b, c), 0x100, Number(0, 0, a, b), c);
    DivisionIsUnique(Number(0, 0, a, b), 0x100, a, b);
    DivisionIsUnique(v, 0x1_0000, Number(0, 0, a, b), Number(0, 0, c, d));
    DivisionIsUnique(v, 0x100_0000, a, Number(0, b, c, d));
  }

  lemma LowOfAdvanced(ip: IP, num: uint32)
    requires |ip| == 16
    ensures Low32(Advanced(ip, num)) == Wrap(Low32(ip) + num)
    ensures Advanced(ip, num)[..12] == ip[..12]
  {
    BytesRoundTrip(Wrap(Low32(ip) + num));
  }

  /** An address is its first twelve bytes and its last four as a number. */
  lemma AddressParts(a: IP, b: IP)
    requires |a| == 16 && |b| == 16
    ensures a == b <==> a[..12] == b[..12] && Low32(a) == Low32(b)
  {
    BytesOfNumber(a[12], a[13], a[14], a[15]);
    BytesOfNumber(b[12], b[13], b[14], b[15]);
    assert a == a[..12] + [a[12], a[13], a[14], a[15]];
    assert b == b[..12] + [b[12], b[13], b[14], b[15]];
  }

  /** An address as one number, most significant byte first. */
  function Value(ip: IP): nat {
    if ip == [] then 0 else Value(ip[..|ip| - 1]) * 0x100 + ip[|ip| - 1]
  }

  lemma ValueParts(ip: IP)
    requires |ip| == 16
    ensures Value(ip) == Value(ip[..12]) * TWO_TO_THE_32 + Low32(ip)
  {
    assert ip[..15][..14] == ip[..14] && ip[..14][..13] == ip[..13] && ip[..13][..12] == ip[..12];
    assert Value(ip) == Value(ip[..15]) * 0x100 + ip[15];
    assert Value(ip[..15]) == Value(ip[..14]) * 0x100 + ip[14];
    assert Value(ip[..14]) == Value(ip[..13]) * 0x100 + ip[13];
    assert Value(ip[..13]) == Value(ip[..12]) * 0x100 + ip[12];
  }

  /** The difference undoes the sum, for every number. */
  lemma DiffUndoesAdd(ip: IP, num: uint32)
    requires IsAddress(ip)
    ensures DiffIP(ip, Advanced(To16(ip), num)) == num
  {
    var x := Low32(To16(ip));
    LowOfAdvanced(To16(ip), num);
    WrapCases(x + num);
    WrapCases(Wrap(x + num) - x);
  }

  /** The sum undoes the difference exactly when the addresses agree in their first twelve bytes. */
  lemma AddUndoesDiffExactly(a: IP, b: IP)
    requires IsAddress(a) && IsAddress(b)
    ensures Advanced(To16(a), DiffIP(a, b)) == To16(b) <==> To16(a)[..12] == To16(b)[..12]
  {
    var x, y := Low32(To16(a)), Low32(To16(b));
    LowOfAdvanced(To16(a), DiffIP(a, b));
    WrapCases(y - x);
    WrapCases(x + Wrap(y - x));
    AddressParts(Advanced(To16(a), DiffIP(a, b)), To16(b));
  }

  /** Sums compose, modulo 2^32. */
  lemma AddComposes(ip: IP, m: uint32, n: uint32)
    requires |ip| == 16
    ensures Advanced(Advanced(ip, m), n) == Advanced(ip, Wrap(m + n))
  {
    var x := Low32(ip);
    LowOfAdvanced(ip, m);
    LowOfAdvanced(Advanced(ip, m), n);
    LowOfAdvanced(ip, Wrap(m + n));
    WrapCases(x + m);
    WrapCases(Wrap(x + m) + n);
    WrapCases(m + n);
    WrapCases(x + Wrap(m + n));
    AddressParts(Advanced(Advanced(ip, m), n), Advanced(ip, Wrap(m + n)));
  }
}
