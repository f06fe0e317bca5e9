/** Connection identities. */
module Net {
  import Framing

  /** A peer's socket address: the key of every server-side table. */
  datatype SocketAddr = SocketAddr(ip: seq<Framing.Byte>, port: nat)
}
