/** Addresses as oidentd handles them: IPv4 and IPv6 socket addresses, the
    IPv4-mapped IPv6 form (::ffff:a.b.c.d) and the host/network byte order of
    ports. */
module Inet {
  import opened Common

  type Ip4 = s: seq<Byte> | |s| == 4 witness [0, 0, 0, 0]
  type Ip6 = s: seq<Byte> | |s| == 16 witness [0, 0, 0, 0, 0, 0, 0, 0, 0, 0, 0, 0, 0, 0, 0, 0]

  /** The address family (AF_INET or AF_INET6) together with the address. */
  datatype IpAddr = V4(v4: Ip4) | V6(v6: Ip6)

  /** A sockaddr_storage: the address and its ss_len field, a u_int8_t.
      Ports are carried separately, as the request handler does. */
  datatype SockAddr = SockAddr(ip: IpAddr, len: Byte)

  /** sizeof(struct sockaddr_in) and sizeof(struct sockaddr_in6) on a BSD
      system: the ss_len of an address rebuilt by sin_setv4 / sin_setv6. */
  const SockaddrIn4Len: Byte := 16
  const SockaddrIn6Len: Byte := 28

  /** The first twelve octets of an IPv4-mapped IPv6 address. */
  const V4MappedPrefix: seq<Byte> := [0, 0, 0, 0, 0, 0, 0, 0, 0, 0, 0xff, 0xff]

  /** IN6_IS_ADDR_V4MAPPED */
  predicate IsV4Mapped(a: Ip6) {
    a[..12] == V4MappedPrefix
  }

  /** sin_extractv4: the IPv4 address held in the last four octets. */
  function ExtractV4(a: Ip6): (r: Ip4)
    ensures forall i :: 0 <= i < 4 ==> r[i] == a[12 + i]
  {
    a[12..]
  }

  /** sin_mapv4to6: the IPv4-mapped IPv6 form of an IPv4 address. */
  function MapV4To6(a: Ip4): (r: Ip6)
    ensures IsV4Mapped(r)
    ensures ExtractV4(r) == a
  {
    var r := V4MappedPrefix + a;
    assert r[..12] == V4MappedPrefix;
    assert r[12..] == a;
    r
  }

  /** Mapping back a mapped address gives the address itself: the two forms
      carry the same information. */
  lemma MapExtractRoundTrip(a: Ip6)
    requires IsV4Mapped(a)
    ensures MapV4To6(ExtractV4(a)) == a
  {
    assert a == a[..12] + a[12..];
  }

  /** No IPv4 address has two mapped forms, and no two IPv4 addresses share one. */
  lemma MapV4To6Injective(a: Ip4, b: Ip4)
    ensures MapV4To6(a) == MapV4To6(b) <==> a == b
  {
    if MapV4To6(a) == MapV4To6(b) {
      assert ExtractV4(MapV4To6(a)) == ExtractV4(MapV4To6(b));
    }
  }

  /** htons and ntohs, which are the same mapping: the identity on a
      big-endian host and a swap of the two octets on a little-endian one. */
  function HostNet(p: Port16, littleEndian: bool): (r: Port16)
    ensures !littleEndian ==> r == p
    ensures littleEndian ==> r % 0x100 == p / 0x100 && r / 0x100 == p % 0x100
  {
    if littleEndian then (p % 0x100) * 0x100 + p / 0x100 else p
  }

  /** Converting twice gives back the port (ntohs(htons(p)) == p). */
  lemma HostNetInvolutive(p: Port16, littleEndian: bool)
    ensures HostNet(HostNet(p, littleEndian), littleEndian) == p
  {
    var r := HostNet(p, littleEndian);
    var s := HostNet(r, littleEndian);
    if littleEndian {
      assert s % 0x100 == p % 0x100 && s / 0x100 == p / 0x100;
      assert s == (s / 0x100) * 0x100 + s % 0x100;
      assert p == (p / 0x100) * 0x100 + p % 0x100;
    }
  }

  /** On a little-endian host a conversion changes every port whose two
      octets differ. */
  lemma HostNetMovesPort(p: Port16)
    requires p % 0x100 != p / 0x100
    ensures HostNet(p, true) != p
  {
  }
}
