/** Identifiers shared by every component: bytes, 32-byte keys, node hashes and stack ids. */
module Ids {

  datatype Option<+T> = None | Some(value: T)

  datatype Result<+T, +E> = Ok(value: T) | Err(error: E)

  /** A `u8`. */
  type Byte = b: int | 0 <= b < 256

  type Blob = seq<Byte>

  const KEY_SIZE := 32

  /** A `[u8; 32]`. */
  type Bytes32 = s: seq<Byte> | |s| == KEY_SIZE witness seq(KEY_SIZE, _ => 0)

  datatype NodeHash = NodeHash(bytes: Bytes32)

  /** The only chain the system supports is Solana, so a stack id is an account's public key. */
  datatype StackID = SolanaPublicKey(key: Bytes32)

  datatype StackOwner = Solana(key: Bytes32)

  const TWO_64 := 0x1_0000_0000_0000_0000
  const TWO_128 := 0x1_0000_0000_0000_0000_0000_0000_0000_0000

  type U16 = n: int | 0 <= n < 0x1_0000
  type U32 = n: int | 0 <= n < 0x1_0000_0000
  type U64 = n: int | 0 <= n < TWO_64
  type U128 = n: int | 0 <= n < TWO_128

  datatype SolanaStackMetadata = SolanaStackMetadata(accountId: Bytes32, owner: Bytes32)

  /** A stack definition as the chain delivers it. `manifest` stands for the validated stack,
      which neither the scheduler nor the stack index looks into. */
  datatype StackWithMetadata = StackWithMetadata(
    manifest: string, name: string, revision: U32, metadata: SolanaStackMetadata)
  {
    function Id(): StackID {
      SolanaPublicKey(metadata.accountId)
    }

    function Owner(): StackOwner {
      Solana(metadata.owner)
    }
  }
}
