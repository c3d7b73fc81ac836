/** The `reset_global_state` instruction: overwrite the configuration of the existing global state. */
module Reset {
  import opened Types
  import opened Errors
  import opened Global
  import opened Accounts

  /** Save `admins` and `threshold` in the existing global state. The account is taken `mut`,
      so it must exist; no signer is asked for; the vote's outcome is left as it was. */
  method ResetGlobalState(c: Cluster, admins: PublicKeys, threshold: nat) returns (r: Result<()>)
    modifies c.global
    ensures c.global == old(c.global)
    ensures old(c.global) == null ==> r == Err(AccountNotInitialized)
    ensures old(c.global) != null ==>
      r == Ok(()) && c.global.Record() == Saved(old(c.global.Record()), admins, threshold)
    ensures c.Ledger() == old(c.Ledger())
  {
    if c.global == null {
      return Err(AccountNotInitialized);
    }
    c.global.Save(admins, threshold);
    return Ok(());
  }
}
