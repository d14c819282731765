/** L2 block references, shared by the sequencer and the rollup node. */
module L2Chain {
  type Hash = nat

  datatype Origin = Origin(number: nat, hash: Hash)

  datatype L2Head = L2Head(number: nat, timestamp: nat, parentHash: Hash, hash: Hash, origin: Origin, seqNum: nat)
}
