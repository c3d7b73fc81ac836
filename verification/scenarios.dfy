/** Concrete runs of the instructions: a council of three, one wallet. */
module Scenarios {
  import opened Types
  import opened Errors
  import opened ProposalState
  import opened Global
  import opened Accounts
  import opened Initialize
  import opened Reset
  import opened Council
  import opened Deposit
  import opened Withdraw

  /** The key whose 32 bytes are all `b`. */
  function Key(b: bv8): (k: Pubkey)
    ensures k[0] == b
  {
    seq(32, _ => b)
  }

  /** Admins approve with two votes of three: the vote is taken and the tally is two. */
  lemma TwoOfThreeApprove()
    ensures VoteOutcome(false, [Key(1), Key(2), Key(3)],
                        [Proposal(Key(1), true), Proposal(Key(2), true), Proposal(Key(3), false)]) == Ok(2)
  {
    var ps := [Proposal(Key(1), true), Proposal(Key(2), true), Proposal(Key(3), false)];
    assert Voters(ps) == [Key(1), Key(2), Key(3)];
    assert FavourIndices(ps) == {0, 1};
  }

  /** A vote with one favourable ballot of three is taken all the same; it is the withdrawal
      that the threshold of two then stops. */
  lemma MinorityVoteIsTakenButGateStaysShut(b: Balances, wallet: Pubkey, amount: nat)
    requires amount <= Lamports(b.escrows, wallet)
    ensures VoteOutcome(false, [Key(1), Key(2), Key(3)],
                        [Proposal(Key(1), false), Proposal(Key(2), false), Proposal(Key(3), true)]) == Ok(1)
    ensures Withdrawn(b, 2, 1, wallet, amount) == Err(Custom(ThresholdNotMet))
  {
    var ps := [Proposal(Key(1), false), Proposal(Key(2), false), Proposal(Key(3), true)];
    assert Voters(ps) == [Key(1), Key(2), Key(3)];
    assert FavourIndices(ps) == {2};
  }

  /** The council votes in another order: rejected as incomplete. */
  lemma ReorderedCouncilRejected()
    ensures VoteOutcome(false, [Key(1), Key(2), Key(3)],
                        [Proposal(Key(2), true), Proposal(Key(1), true), Proposal(Key(3), true)]) == Err(Custom(NotAllVoters))
  {
  }

  /** The whole council votes in order, followed by one outsider: rejected as an outsider vote. */
  lemma TrailingOutsiderRejected()
    ensures VoteOutcome(false, [Key(1), Key(2), Key(3)],
                        [Proposal(Key(1), true), Proposal(Key(2), true), Proposal(Key(3), true), Proposal(Key(4), true)])
            == Err(Custom(OutsiderVote))
  {
  }

  /** Initialize, vote, deposit, drain the escrow, then reset: the instructions in sequence. */
  method Lifecycle()
  {
    var wallet := Key(9);
    var c := new Cluster(map[wallet := 1000]);
    var admins := [Key(1), Key(2), Key(3)];
    var ballot := Proposals([Proposal(Key(1), true), Proposal(Key(2), true), Proposal(Key(3), false)]);

    var r := CastVote(c, ballot);
    assert r == Err(AccountNotInitialized);

    r := Initialize.Initialize(c, admins, 2);
    assert r == Ok(());
    r := Initialize.Initialize(c, admins, 2);
    assert r == Err(AccountAlreadyInUse);
    var g := c.global;

    TwoOfThreeApprove();
    r := CastVote(c, ballot);
    assert r == Ok(()) && g.favourableVotes == 2 && g.isVoted;
    r := CastVote(c, ballot);
    assert r == Err(Custom(VoteAlreadyCasted));

    r := Deposit.Deposit(c, wallet, 1001);
    assert r == Err(Custom(InsufficientFunds));
    r := Deposit.Deposit(c, wallet, 1000);
    assert r == Ok(());
    assert Lamports(c.escrows, wallet) == 1000 && Lamports(c.wallets, wallet) == 0;

    r := Withdraw.Withdraw(c, wallet, 1000);
    assert r == Ok(());
    assert Lamports(c.escrows, wallet) == 0 && Lamports(c.wallets, wallet) == 1000;
    r := Withdraw.Withdraw(c, wallet, 1);
    assert r == Err(Custom(InsufficientFunds));

    r := ResetGlobalState(c, admins, 2);
    assert r == Ok(()) && g.isVoted && g.favourableVotes == 2;
    r := CastVote(c, ballot);
    assert r == Err(Custom(VoteAlreadyCasted));
  }
}
