# Multisig escrow: governance state and escrow ledger

A model of the on-chain program `multisig-transaction`, an Anchor (Solana) program. Each wallet
keeps lamports in its own escrow account. A council of admins votes once on whether
withdrawals may go ahead. A withdrawal is allowed when the favourable tally reaches the
configured threshold.

The model has these parts:

- `Global`: the singleton global-state account. `GlobalState` is a class with the fields `admins`,
  `threshold`, `favourableVotes` and `isVoted`. `Save` overwrites the admins and the threshold.
  `GlobalRecord` is the same data as a value.
- `Accounts`: the `Cluster` class. It holds the global-state account, which is null until
  `initialize` creates it. It also holds a lamport map for wallets and one for escrows, both
  keyed by the wallet's key. `Balances` is the same ledger as a value.
- `Initialize`, `Reset`, `Council`, `Deposit`, `Withdraw`: one module per instruction handler.
  Each state-changing method is proved against a pure function of the old state:
  `VoteOutcome` and `Voted`, `Deposited`, `Withdrawn`, `Saved`. The properties are lemmas about those
  functions.
- `Errors` holds the custom error enum, plus the two runtime account errors the instructions
  can hit: `init` on an account that exists, and a missing account. `ProposalState` holds the
  ballot types. `Types` holds the 32-byte `Pubkey`.
- `Scenarios`: concrete council-of-three runs, and a method that calls the instructions in
  sequence.

## Behaviour as written

The model follows the code as written, including where it departs from what a multisig escrow
would be expected to do (a threshold check on the vote, a reset that reopens voting, an
authority check on reset):

- `GlobalState` (`states/global.rs:4-7`) declares neither `is_voted` nor `favourable_votes`.
  The handlers use both (`council.rs:13,34,40`, `withdraw.rs:24`), so the model adds them.
- The handlers call `store` (`initialize.rs:6`, `reset.rs:6`), but only `save` is defined
  (`global.rs:10-13`). The model treats `store` as `save`: it writes the admins and the
  threshold and nothing else.
- The vote is checked by position. Admin `i` must be the voter of ballot entry `i`. A ballot
  from exactly the council in another order is rejected with `NotAllVoters`.
- `VoteAlreadyCasted` is checked before the membership checks.
- The vote has no threshold check. Any complete ballot is recorded, even one below the
  threshold. The threshold is checked only when a wallet withdraws.
- The withdrawal gate is `threshold <= favourable_votes`. It never reads `is_voted`. With a
  threshold of 0, withdrawals work without any vote.
- `reset_global_state` keeps `is_voted` and `favourable_votes` as they were. Once a vote is
  cast, no later vote is accepted, even after a reset.
- No range check relates the threshold to the number of admins.
- `reset_global_state` asks for no signer.
- The `council` instruction asks for no signer either (`council.rs:45-57`). Anyone can submit a
  ballot that names the admins; the model's `CastVote` takes no signer.
- `lib.rs:18-45` does not dispatch `reset_global_state`. The model includes it anyway, as the
  source defines it.

## Model

| member | source | states |
|---|---|---|
| Global.Saved | programs/multisig-transaction/src/states/global.rs:10-13 | save sets `admins` to the given owners and `threshold` to the given value, and leaves `favourable_votes` and `is_voted` as they were |
| Global.SaveIdempotent | programs/multisig-transaction/src/states/global.rs:10-13 | saving the same owners and threshold twice leaves the same data as saving once |
| Global.SaveLastWriteWins | programs/multisig-transaction/src/states/global.rs:10-13 | after two saves, only the second save's admins and threshold remain |
| Global.GlobalState.constructor | programs/multisig-transaction/src/instructions/initialize.rs:14-21 | a global-state account created by `init` starts with every field zero: no admins, threshold 0, no votes, not voted |
| Global.GlobalState.Save | programs/multisig-transaction/src/states/global.rs:10-13 | `save` updates the account in place; the new data is `Saved` of the old data |
| Accounts.MoveToEscrow | programs/multisig-transaction/src/instructions/deposit.rs:18-25 | a transfer from wallet to escrow takes exactly the amount from the wallet and adds it to the escrow; the owner's total is conserved and every other account is unchanged |
| Accounts.MoveToWallet | programs/multisig-transaction/src/instructions/withdraw.rs:34-42 | a transfer from escrow to wallet takes exactly the amount from the escrow, so the escrow never goes negative, and adds it to the wallet; the owner's total is conserved and every other account is unchanged |
| Initialize.Initialize | programs/multisig-transaction/src/instructions/initialize.rs:4-21 | when the global account exists, fails with "already in use" and changes nothing; otherwise creates the account with the given admins and threshold, whatever their values, and zero votes; no balance changes |
| Reset.ResetGlobalState | programs/multisig-transaction/src/instructions/reset.rs:4-19 | a missing global account is an error; otherwise the given admins and threshold are saved, the vote outcome is kept, and no balance changes |
| Council.Count | programs/multisig-transaction/src/instructions/council.rs:16-21 | `filter(..).count()` over a sequence of tests is at most the sequence's length |
| Council.CountIsCardinality | programs/multisig-transaction/src/instructions/council.rs:16-21 | the count equals the number of positions whose test holds |
| Council.CountAll | programs/multisig-transaction/src/instructions/council.rs:16-26 | the count equals the length exactly when every test holds |
| Council.Matching | programs/multisig-transaction/src/instructions/council.rs:16-21 | `matching` is the number of indices below the shorter of admins and ballot where the admin equals the voter, so it is at most both lengths |
| Council.Favourable | programs/multisig-transaction/src/instructions/council.rs:34-38 | the favourable tally is the number of ballot entries with `can_withdraw`, so it is at most the ballot's length |
| Council.AllAdminsMatchIff | programs/multisig-transaction/src/instructions/council.rs:16-26 | `matching == admins.len()` exactly when the admin list is a prefix of the ballot's voters |
| Council.VoteOutcome | programs/multisig-transaction/src/instructions/council.rs:13-38 | a cast vote fails with `VoteAlreadyCasted` before anything else. Otherwise, a missing or misplaced admin fails with `NotAllVoters`, and a complete council followed by extra votes fails with `OutsiderVote`. Success happens exactly when the ballot's voters equal the admins, in order. The tally is then the number of favourable votes, at most the number of admins, with no threshold check |
| Council.Voted | programs/multisig-transaction/src/instructions/council.rs:34-42 | after an accepted vote the record holds the tally and the vote flag is set; a rejected vote leaves the record as it was; admins and threshold never change |
| Council.CastVote | programs/multisig-transaction/src/instructions/council.rs:9-57 | a missing global account is an error (the account is taken `mut`). Otherwise the account's new data is `Voted` of the old data, and the result is `Ok` or the error `VoteOutcome` gives. No balance changes |
| Council.PermutedCouncilRejected | programs/multisig-transaction/src/instructions/council.rs:16-26 | a ballot from exactly the council, in a different order, fails with `NotAllVoters` |
| Council.SecondVoteRejected | programs/multisig-transaction/src/instructions/council.rs:13 | after a vote has been accepted, the stored vote flag makes every further ballot fail with `VoteAlreadyCasted`, and that ballot leaves the record unchanged |
| Council.SaveKeepsVoteClosed | programs/multisig-transaction/src/instructions/reset.rs:6 | after a vote has been cast, saving a new configuration (as reset does) leaves every vote failing with `VoteAlreadyCasted` |
| Deposit.Deposited | programs/multisig-transaction/src/instructions/deposit.rs:7-28 | a deposit fails with `InsufficientFunds` exactly when the wallet holds less than the amount. On success the wallet loses and the escrow gains exactly the amount, the wallet's total is conserved, and other wallets and escrows are unchanged. The global state plays no part |
| Deposit.Deposit | programs/multisig-transaction/src/instructions/deposit.rs:7-49 | the instruction moves the ledger to `Deposited` of the old ledger, or leaves it unchanged and returns the error; the global account is not touched |
| Deposit.DepositsAccumulate | programs/multisig-transaction/src/instructions/deposit.rs:13-25 | depositing `x` then `y` leaves the same ledger as depositing `x + y`, when the wallet holds enough |
| Withdraw.Withdrawn | programs/multisig-transaction/src/instructions/withdraw.rs:8-45 | an escrow holding less than the amount fails with `InsufficientFunds`, checked before the gate. Otherwise fewer favourable votes than the threshold fails with `ThresholdNotMet`. Success happens exactly when funds suffice and `threshold <= favourable_votes`, whether or not a vote was cast. The escrow then loses and the wallet gains exactly the amount, the total is conserved, and other wallets and escrows are unchanged |
| Withdraw.Withdraw | programs/multisig-transaction/src/instructions/withdraw.rs:8-77 | the global account must exist and is only read. The instruction moves the ledger to `Withdrawn` of the old ledger under the stored threshold and tally, or leaves it unchanged and returns the error |
| Withdraw.WithdrawalsCompose | programs/multisig-transaction/src/instructions/withdraw.rs:17-42 | withdrawing `x` then `y` succeeds exactly when withdrawing `x + y` does, and leaves the same ledger |
| Withdraw.WithdrawalsKeepSucceeding | programs/multisig-transaction/src/instructions/withdraw.rs:54-58 | a withdrawal does not close the gate: while the escrow still holds enough, the next withdrawal succeeds |
| Withdraw.DrainedEscrowRefuses | programs/multisig-transaction/src/instructions/withdraw.rs:17-20 | after the escrow is drained to zero, any positive withdrawal fails with `InsufficientFunds` |
| Withdraw.ZeroThresholdNeedsNoVote | programs/multisig-transaction/src/instructions/withdraw.rs:23-26 | with threshold 0 and no favourable votes, any withdrawal the escrow can cover succeeds |
| Withdraw.DepositThenWithdrawRestores | programs/multisig-transaction/src/instructions/withdraw.rs:34-42 | depositing an amount and withdrawing it again, with the gate open, leaves every wallet and escrow with the lamports it had |
| Scenarios.TwoOfThreeApprove | programs/multisig-transaction/src/instructions/council.rs:16-40 | council A, B, C voting yes, yes, no in order is accepted with a tally of 2 |
| Scenarios.MinorityVoteIsTakenButGateStaysShut | programs/multisig-transaction/src/instructions/council.rs:34-40 | voting no, no, yes is accepted with a tally of 1; with threshold 2 a withdrawal then fails with `ThresholdNotMet` |
| Scenarios.ReorderedCouncilRejected | programs/multisig-transaction/src/instructions/council.rs:23-26 | council A, B, C voting in the order B, A, C fails with `NotAllVoters` |
| Scenarios.TrailingOutsiderRejected | programs/multisig-transaction/src/instructions/council.rs:29-32 | council A, B, C voting in order, followed by outsider D, fails with `OutsiderVote` |

## Left out

- System-program transfers (`invoke`, `invoke_signed`, `system_instruction::transfer`) are modelled only by their net effect: one map entry loses lamports and another gains them.
- The runtime's rent-exemption minimum and transaction fees are not modelled. A transfer that would leave an account below the rent minimum is accepted here.
- Program-derived addresses and the bump search (`find_program_address`) are left out. An escrow is keyed directly by its wallet's key. A signer that does not match its escrow's seeds cannot be expressed, so there is no ownership-mismatch error.
- Integer widths: lamports, amounts, the threshold (`usize` in `initialize`, `u64` in `reset`) and the tally (`count() as u64`) are unbounded naturals. u64 overflow is not modelled.
- Initialize.Initialize: the rent lamports the authority pays for the new account are not deducted from its wallet. The authority is not recorded.
- Account space sizing (`space = size_of::<GlobalState>() + 8`) and serialization are left out. Admin lists of any length are stored.
- The instruction dispatch in `lib.rs` and the Anchor account-constraint machinery are reduced to one check: whether the global account exists.
- `types.rs` and `constants.rs` are not part of this model. `PublicKeys` is taken to be a list of `Pubkey`, and the `GLOBAL` and `ESCROW` seeds only name accounts.
- The client test `tests/multisig-transaction.ts` asserts nothing, so no property comes from it.
