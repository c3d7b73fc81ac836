/** The program's error codes, and the outcome of an instruction. */
module Errors {

  /** The custom error codes the instruction handlers raise. */
  datatype CustomError =
    | NotAllVoters       // not every admin voted, in position
    | ThresholdNotMet    // fewer favourable votes than the threshold
    | VoteAlreadyCasted  // the council has voted already
    | InsufficientFunds  // the paying account holds too few lamports
    | OutsiderVote       // someone outside the council voted

  /** Every way an instruction of this program can be rejected: its own codes, and the two
      account checks the runtime makes before a handler runs. */
  datatype Error =
    | Custom(code: CustomError)
    | AccountAlreadyInUse    // `init` on an account that already exists
    | AccountNotInitialized  // `mut` or a read on an account that does not exist

  /** What an instruction returns: a value, or the error that rejected it. */
  datatype Result<+T> = Ok(value: T) | Err(error: Error)
}
