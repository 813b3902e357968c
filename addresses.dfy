/** Remote endpoints as the connection manager compares them: the literal host-name
    string and the port of an InetSocketAddress. No name is ever resolved, so two
    spellings of the same host are two different addresses. */
module Addresses {

  import opened Options

  datatype SocketAddress = SocketAddress(hostName: string, port: int)

  /** compareAddress: two addresses are the same endpoint exactly when neither is
      null and they agree on host-name string and on port. */
  function CompareAddress(a: Option<SocketAddress>, b: Option<SocketAddress>): (same: bool)
    ensures same <==> a.Some? && b.Some? && a.value == b.value
    ensures a.None? || b.None? ==> !same
  {
    if a.Some? && b.Some? then
      a.value.hostName == b.value.hostName && a.value.port == b.value.port
    else
      false
  }

  /** The comparison is symmetric and transitive, so deduplicating by it is consistent
      whichever of two equal addresses is met first. */
  lemma CompareAddressSymmetricTransitive(a: Option<SocketAddress>, b: Option<SocketAddress>, c: Option<SocketAddress>)
    ensures CompareAddress(a, b) == CompareAddress(b, a)
    ensures CompareAddress(a, b) && CompareAddress(b, c) ==> CompareAddress(a, c)
  {
  }

}
