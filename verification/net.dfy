/**
 * Vocabulary shared by the root (udp-server.c) and the leaf (udp-client.c):
 * IPv6 addresses, datagrams, the outbox entries a send produces, the clock
 * rate of the target and the fixed wire payloads.
 */
module Net {

  /** C `uint8_t` and `uint16_t`. */
  newtype uint8 = x: int | 0 <= x < 0x100
  newtype uint16 = x: int | 0 <= x < 0x1_0000

  /** A `uip_ipaddr_t`: eight 16-bit groups, as `uip_ip6addr` fills them. */
  type Address = a: seq<uint16> | |a| == 8 witness [0, 0, 0, 0, 0, 0, 0, 0]

  /** The all-zero address, which the root uses to mean "no leaf known". */
  const Zero: Address := [0, 0, 0, 0, 0, 0, 0, 0]

  datatype Option<T> = None | Some(value: T)

  /** A datagram handed to a receive callback: its sender and its payload bytes. */
  datatype Datagram = Datagram(sender: Address, payload: string)

  /** One `simple_udp_sendto` call: destination and payload bytes. */
  datatype Send = Send(dest: Address, payload: string)

  /** Clock ticks per second (`CLOCK_SECOND`) on the MSP430 Tmote Sky target. */
  const ClockSecond: nat := 128

  /** Registration payload the leaf sends and the root recognises. */
  const Syn: string := "SYN"

  /** Poll request payload the root sends. */
  const Req: string := "REQ"
}
