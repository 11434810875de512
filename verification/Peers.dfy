/** Peers, by the hash of their public key. */
module Peers {
  datatype Peer = Peer(hashcode: nat)
}
