/** The `initialize` instruction: create the global-state account and store the configuration. */
module Initialize {
  import opened Types
  import opened Errors
  import opened Global
  import opened Accounts

  /** Create the global state at the fixed seed and save `admins` and `threshold` in it. The
      account is created with `init`, so a second call is rejected. No relation between the
      threshold and the number of admins is checked. */
  method Initialize(c: Cluster, admins: PublicKeys, threshold: nat) returns (r: Result<()>)
    modifies c`global
    ensures old(c.global) != null ==> r == Err(AccountAlreadyInUse) && c.global == old(c.global)
    ensures old(c.global) == null ==>
      && r == Ok(())
      && c.global != null && fresh(c.global)
      && c.global.Record() == Saved(Zeroed, admins, threshold)
    ensures c.Ledger() == old(c.Ledger())
  {
    if c.global != null {
      return Err(AccountAlreadyInUse);
    }
    var g := new GlobalState();
    g.Save(admins, threshold);
    c.global := g;
    return Ok(());
  }
}
