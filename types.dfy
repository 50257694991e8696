/** Values shared by the server's state: peer identities and the two kinds of record. */
module Types {

  /** A peer's address as raw bytes. Addresses reach the server through
      net.ParseIP, which yields either the 16-byte form or nil (the empty
      sequence here) for a host it cannot parse. On those values net.IP.Equal
      is equality of the byte sequences, so every peer whose host does not
      parse shares the identity []. */
  type IP = seq<bv8>

  datatype Option<T> = None | Some(value: T)

  /** knockSession: a peer and the ports it has knocked on so far, oldest first. */
  datatype KnockSession = KnockSession(ip: IP, knocks: seq<int>)

  /** allowedPeer: a peer granted access from start until end (integer clock ticks). */
  datatype AllowedPeer = AllowedPeer(ip: IP, start: int, end: int)
}
