/** The `withdraw` instruction: move lamports from a wallet's escrow back to the wallet, once the
    council has approved. */
module Withdraw {
  import opened Types
  import opened Errors
  import opened Global
  import opened Accounts
  import opened Deposit

  /** The ledger after `wallet` withdraws `amount`, under a global state with the given
      threshold and favourable tally, or the reason it cannot. The escrow's balance is checked
      first, then the gate; whether a vote was cast is not looked at. */
  function Withdrawn(b: Balances, threshold: nat, favourableVotes: nat, wallet: Pubkey, amount: nat): (r: Result<Balances>)
    ensures Lamports(b.escrows, wallet) < amount ==> r == Err(Custom(InsufficientFunds))
    ensures amount <= Lamports(b.escrows, wallet) && favourableVotes < threshold ==> r == Err(Custom(ThresholdNotMet))
    ensures r.Ok? <==> amount <= Lamports(b.escrows, wallet) && threshold <= favourableVotes
    ensures r.Ok? ==>
      && Lamports(r.value.escrows, wallet) == Lamports(b.escrows, wallet) - amount
      && Lamports(r.value.wallets, wallet) == Lamports(b.wallets, wallet) + amount
      && Holdings(r.value, wallet) == Holdings(b, wallet)
      && OthersUnchanged(b, r.value, wallet)
  {
    if Lamports(b.escrows, wallet) < amount then
      Err(Custom(InsufficientFunds))
    else if !(threshold <= favourableVotes) then
      Err(Custom(ThresholdNotMet))
    else
      Ok(MoveToWallet(b, wallet, amount))
  }

  /** The signing wallet takes `amount` lamports back from its escrow. The global state is only
      read: it must exist, and it is left exactly as it was. */
  method Withdraw(c: Cluster, wallet: Pubkey, amount: nat) returns (r: Result<()>)
    modifies c`wallets, c`escrows
    ensures c.global == old(c.global)
    ensures old(c.global) == null ==> r == Err(AccountNotInitialized) && c.Ledger() == old(c.Ledger())
    ensures old(c.global) != null ==>
      var w := Withdrawn(old(c.Ledger()), c.global.threshold, c.global.favourableVotes, wallet, amount);
      && (w.Ok? ==> r == Ok(()) && c.Ledger() == w.value)
      && (w.Err? ==> r == Err(w.error) && c.Ledger() == old(c.Ledger()))
  {
    if c.global == null {
      return Err(AccountNotInitialized);
    }
    if Lamports(c.escrows, wallet) < amount {
      return Err(Custom(InsufficientFunds));
    }
    if !(c.global.threshold <= c.global.favourableVotes) {
      return Err(Custom(ThresholdNotMet));
    }
    c.escrows := c.escrows[wallet := Lamports(c.escrows, wallet) - amount];
    c.wallets := c.wallets[wallet := Lamports(c.wallets, wallet) + amount];
    return Ok(());
  }

  /** Withdrawing `x` and then `y` succeeds exactly when withdrawing `x + y` at once does, and
      leaves the same ledger. */
  lemma WithdrawalsCompose(b: Balances, threshold: nat, favourableVotes: nat, wallet: Pubkey, x: nat, y: nat)
    ensures var first := Withdrawn(b, threshold, favourableVotes, wallet, x);
      Withdrawn(b, threshold, favourableVotes, wallet, x + y).Ok? <==>
        first.Ok? && Withdrawn(first.value, threshold, favourableVotes, wallet, y).Ok?
    ensures var first := Withdrawn(b, threshold, favourableVotes, wallet, x);
      Withdrawn(b, threshold, favourableVotes, wallet, x + y).Ok? ==>
        Withdrawn(first.value, threshold, favourableVotes, wallet, y) == Withdrawn(b, threshold, favourableVotes, wallet, x + y)
  {
    if Withdrawn(b, threshold, favourableVotes, wallet, x + y).Ok? {
      var once := Withdrawn(b, threshold, favourableVotes, wallet, x).value;
      var w, e := Lamports(b.wallets, wallet), Lamports(b.escrows, wallet);
      assert once.wallets[wallet := w + x + y] == b.wallets[wallet := w + (x + y)];
      assert once.escrows[wallet := e - x - y] == b.escrows[wallet := e - (x + y)];
    }
  }

  /** The gate does not close after a withdrawal: while funds remain, the next one succeeds too. */
  lemma WithdrawalsKeepSucceeding(b: Balances, threshold: nat, favourableVotes: nat, wallet: Pubkey, x: nat, y: nat)
    requires Withdrawn(b, threshold, favourableVotes, wallet, x).Ok?
    requires y <= Lamports(Withdrawn(b, threshold, favourableVotes, wallet, x).value.escrows, wallet)
    ensures Withdrawn(Withdrawn(b, threshold, favourableVotes, wallet, x).value, threshold, favourableVotes, wallet, y).Ok?
  {
  }

  /** Once the escrow has been emptied, any positive withdrawal is refused for lack of funds. */
  lemma DrainedEscrowRefuses(b: Balances, threshold: nat, favourableVotes: nat, wallet: Pubkey, amount: nat)
    requires Withdrawn(b, threshold, favourableVotes, wallet, Lamports(b.escrows, wallet)).Ok?
    requires amount > 0
    ensures Withdrawn(Withdrawn(b, threshold, favourableVotes, wallet, Lamports(b.escrows, wallet)).value,
                      threshold, favourableVotes, wallet, amount) == Err(Custom(InsufficientFunds))
  {
  }

  /** With a threshold of zero the gate is always open: no vote is needed to withdraw. */
  lemma ZeroThresholdNeedsNoVote(b: Balances, wallet: Pubkey, amount: nat)
    requires amount <= Lamports(b.escrows, wallet)
    ensures Withdrawn(b, 0, 0, wallet, amount).Ok?
  {
  }

  /** Depositing `amount` and withdrawing it again, with the gate open, restores every balance. */
  lemma DepositThenWithdrawRestores(b: Balances, threshold: nat, favourableVotes: nat, wallet: Pubkey, amount: nat)
    requires amount <= Lamports(b.wallets, wallet)
    requires threshold <= favourableVotes
    ensures Deposited(b, wallet, amount).Ok?
    ensures Withdrawn(Deposited(b, wallet, amount).value, threshold, favourableVotes, wallet, amount).Ok?
    ensures SameLamports(Withdrawn(Deposited(b, wallet, amount).value, threshold, favourableVotes, wallet, amount).value, b)
  {
  }
}
