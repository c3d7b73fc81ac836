/** The ballot the council submits with a vote. */
module ProposalState {
  import opened Types

  /** One admin's vote: who votes, and whether they allow the withdrawal. */
  datatype Proposal = Proposal(admin: Pubkey, canWithdraw: bool)

  /** The whole ballot, in the order the votes were submitted. */
  datatype Proposals = Proposals(proposals: seq<Proposal>)

  /** The voters of a ballot, position by position. */
  function Voters(ps: seq<Proposal>): (vs: seq<Pubkey>)
    ensures |vs| == |ps|
    ensures forall i :: 0 <= i < |ps| ==> vs[i] == ps[i].admin
  {
    seq(|ps|, i requires 0 <= i < |ps| => ps[i].admin)
  }
}
