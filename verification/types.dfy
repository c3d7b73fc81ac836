/** Keys of the Solana accounts the program talks about. */
module Types {

  /** A Solana public key: 32 bytes. */
  type Pubkey = k: seq<bv8> | |k| == 32 witness seq(32, _ => 0 as bv8)

  /** The admin list stored in the global state (a `Vec<Pubkey>`). */
  type PublicKeys = seq<Pubkey>
}
