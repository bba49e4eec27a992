/** What the cache stores: blocks of bytes under content-addressed ids. */
module BlockTypes {
  newtype byte = x: int | 0 <= x < 256

  type BlockId = seq<byte>

  /** The length of a well-formed block id. */
  const HASH_SIZE: nat := 32

  datatype Block = Block(id: BlockId, parent: BlockId, model: string, payload: seq<byte>, tokens: nat, cost: nat)
}
