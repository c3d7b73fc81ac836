/** The accounts the instructions read and write: the global-state account, which exists only
    once it has been created, and the lamports of every wallet and of every wallet's escrow.
    An escrow account is identified by the wallet it belongs to. */
module Accounts {
  import opened Types
  import opened Global

  /** The lamports of `k` in `m`; an account that does not exist holds none. */
  function Lamports(m: map<Pubkey, nat>, k: Pubkey): nat
  {
    if k in m then m[k] else 0
  }

  /** Lamports held in wallets, and in the escrow of each wallet. */
  datatype Balances = Balances(wallets: map<Pubkey, nat>, escrows: map<Pubkey, nat>)

  /** What an owner has in all: its wallet plus its escrow. */
  function Holdings(b: Balances, owner: Pubkey): nat
  {
    Lamports(b.wallets, owner) + Lamports(b.escrows, owner)
  }

  /** Two ledgers that agree on every account's lamports (absent and empty accounts alike). */
  ghost predicate SameLamports(b: Balances, c: Balances)
  {
    forall k :: Lamports(b.wallets, k) == Lamports(c.wallets, k) && Lamports(b.escrows, k) == Lamports(c.escrows, k)
  }

  /** Everything except the accounts of `owner` is as in `b`. */
  ghost predicate OthersUnchanged(b: Balances, c: Balances, owner: Pubkey)
  {
    forall k :: k != owner ==>
      Lamports(c.wallets, k) == Lamports(b.wallets, k) && Lamports(c.escrows, k) == Lamports(b.escrows, k)
  }

  /** A system transfer of `amount` lamports from `owner`'s wallet to its escrow. */
  function MoveToEscrow(b: Balances, owner: Pubkey, amount: nat): (r: Balances)
    requires amount <= Lamports(b.wallets, owner)
    ensures Lamports(r.wallets, owner) == Lamports(b.wallets, owner) - amount
    ensures Lamports(r.escrows, owner) == Lamports(b.escrows, owner) + amount
    ensures OthersUnchanged(b, r, owner)
    ensures Holdings(r, owner) == Holdings(b, owner)
  {
    Balances(b.wallets[owner := Lamports(b.wallets, owner) - amount],
             b.escrows[owner := Lamports(b.escrows, owner) + amount])
  }

  /** A system transfer of `amount` lamports from `owner`'s escrow back to its wallet. */
  function MoveToWallet(b: Balances, owner: Pubkey, amount: nat): (r: Balances)
    requires amount <= Lamports(b.escrows, owner)
    ensures Lamports(r.escrows, owner) == Lamports(b.escrows, owner) - amount
    ensures Lamports(r.wallets, owner) == Lamports(b.wallets, owner) + amount
    ensures OthersUnchanged(b, r, owner)
    ensures Holdings(r, owner) == Holdings(b, owner)
  {
    Balances(b.wallets[owner := Lamports(b.wallets, owner) + amount],
             b.escrows[owner := Lamports(b.escrows, owner) - amount])
  }

  /** The on-chain state this program sees. */
  class Cluster {
    /** The account at the fixed `GLOBAL` seed; null until `initialize` creates it. */
    var global: GlobalState?
    var wallets: map<Pubkey, nat>
    var escrows: map<Pubkey, nat>

    function Ledger(): Balances
      reads this
    {
      Balances(wallets, escrows)
    }

    /** A cluster on which the program has not been initialized and no escrow holds anything. */
    constructor (wallets: map<Pubkey, nat>)
      ensures global == null
      ensures Ledger() == Balances(wallets, map[])
    {
      global := null;
      this.wallets := wallets;
      escrows := map[];
    }
  }
}
