/** Socket addresses, and the addresses no node is ever accepted from. */
module Net {
  import opened Ids

  type Ip4 = s: seq<Byte> | |s| == 4 witness [0, 0, 0, 0]
  type Ip6 = s: seq<Byte> | |s| == 16 witness [0, 0, 0, 0, 0, 0, 0, 0, 0, 0, 0, 0, 0, 0, 0, 0]
  type Port = p: int | 0 <= p < 0x10000

  datatype Addr = V4(ip4: Ip4, port: Port) | V6(ip6: Ip6, port: Port)

  const V4_PREFIX: seq<Byte> := [0, 0, 0, 0, 0, 0, 0, 0, 0, 0, 0xFF, 0xFF]

  predicate IsMartian(sa: Addr)
  {
    match sa
    case V4(ip, port) =>
      port == 0 || ip[0] == 0 || ip[0] == 127 || ip[0] & 0xE0 == 0xE0
    case V6(ip, port) =>
      || port == 0 || ip[0] == 0xFF
      || (ip[0] == 0xFE && ip[1] & 0xC0 == 0x80)
      || ((forall i | 0 <= i < 15 :: ip[i] == 0) && (ip[15] == 0 || ip[15] == 1))
      || ip[..12] == V4_PREFIX
  }
}
