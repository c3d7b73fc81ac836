/** The `deposit` instruction: move lamports from a wallet into that wallet's escrow. */
module Deposit {
  import opened Types
  import opened Errors
  import opened Accounts

  /** The ledger after `wallet` deposits `amount`, or the reason it cannot. Only the wallet's
      own balance is checked; the global state plays no part. */
  function Deposited(b: Balances, wallet: Pubkey, amount: nat): (r: Result<Balances>)
    ensures r.Err? <==> Lamports(b.wallets, wallet) < amount
    ensures r.Err? ==> r.error == Custom(InsufficientFunds)
    ensures r.Ok? ==>
      && Lamports(r.value.wallets, wallet) == Lamports(b.wallets, wallet) - amount
      && Lamports(r.value.escrows, wallet) == Lamports(b.escrows, wallet) + amount
      && Holdings(r.value, wallet) == Holdings(b, wallet)
      && OthersUnchanged(b, r.value, wallet)
  {
    if Lamports(b.wallets, wallet) < amount then
      Err(Custom(InsufficientFunds))
    else
      Ok(MoveToEscrow(b, wallet, amount))
  }

  /** The signing wallet pays `amount` lamports into its escrow, if it holds that many. */
  method Deposit(c: Cluster, wallet: Pubkey, amount: nat) returns (r: Result<()>)
    modifies c`wallets, c`escrows
    ensures c.global == old(c.global)
    ensures Deposited(old(c.Ledger()), wallet, amount).Ok? ==>
      r == Ok(()) && c.Ledger() == Deposited(old(c.Ledger()), wallet, amount).value
    ensures Deposited(old(c.Ledger()), wallet, amount).Err? ==>
      r == Err(Deposited(old(c.Ledger()), wallet, amount).error) && c.Ledger() == old(c.Ledger())
  {
    if Lamports(c.wallets, wallet) < amount {
      return Err(Custom(InsufficientFunds));
    }
    c.wallets := c.wallets[wallet := Lamports(c.wallets, wallet) - amount];
    c.escrows := c.escrows[wallet := Lamports(c.escrows, wallet) + amount];
    return Ok(());
  }

  /** Depositing `x` and then `y` leaves the same ledger as depositing `x + y` at once. */
  lemma DepositsAccumulate(b: Balances, wallet: Pubkey, x: nat, y: nat)
    requires x + y <= Lamports(b.wallets, wallet)
    ensures Deposited(b, wallet, x).Ok?
    ensures Deposited(Deposited(b, wallet, x).value, wallet, y) == Deposited(b, wallet, x + y)
  {
    var once := Deposited(b, wallet, x).value;
    var w, e := Lamports(b.wallets, wallet), Lamports(b.escrows, wallet);
    assert once.wallets[wallet := w - x - y] == b.wallets[wallet := w - (x + y)];
    assert once.escrows[wallet := e + x + y] == b.escrows[wallet := e + (x + y)];
  }
}
