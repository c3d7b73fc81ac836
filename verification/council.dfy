/** The `council` instruction: the admins vote, all at once, on whether withdrawals may go ahead. */
module Council {
  import opened Types
  import opened Errors
  import opened ProposalState
  import opened Global
  import opened Accounts

  function Min(x: nat, y: nat): nat
  {
    if x <= y then x else y
  }

  /** The positions of `flags` from `k` on that hold `true`. */
  function TrueIndicesFrom(flags: seq<bool>, k: nat): set<nat>
  {
    set i: nat | k <= i < |flags| && flags[i]
  }

  /** The number of `true` entries of `flags` from position `k` on, counted front to back
      (an iterator's `filter(..).count()`). */
  function CountFrom(flags: seq<bool>, k: nat): (n: nat)
    requires k <= |flags|
    ensures n <= |flags| - k
    decreases |flags| - k
  {
    if k == |flags| then 0 else (if flags[k] then 1 else 0) + CountFrom(flags, k + 1)
  }

  /** The number of `true` entries of `flags`. */
  function Count(flags: seq<bool>): (n: nat)
    ensures n <= |flags|
  {
    CountFrom(flags, 0)
  }

  lemma {:induction false} CountFromIsCardinality(flags: seq<bool>, k: nat)
    requires k <= |flags|
    ensures CountFrom(flags, k) == |TrueIndicesFrom(flags, k)|
    decreases |flags| - k
  {
    if k == |flags| {
      assert TrueIndicesFrom(flags, k) == {};
    } else {
      CountFromIsCardinality(flags, k + 1);
      var rest := TrueIndicesFrom(flags, k + 1);
      if flags[k] {
        assert TrueIndicesFrom(flags, k) == rest + {k};
      } else {
        assert TrueIndicesFrom(flags, k) == rest;
      }
    }
  }

  /** Counting is the number of positions that hold `true`. */
  lemma CountIsCardinality(flags: seq<bool>)
    ensures Count(flags) == |TrueIndicesFrom(flags, 0)|
  {
    CountFromIsCardinality(flags, 0);
  }

  lemma {:induction false} CountFromAll(flags: seq<bool>, k: nat)
    requires k <= |flags|
    ensures CountFrom(flags, k) == |flags| - k <==> forall i :: k <= i < |flags| ==> flags[i]
    decreases |flags| - k
  {
    if k < |flags| {
      CountFromAll(flags, k + 1);
    }
  }

  /** Every entry is counted exactly when every entry is `true`. */
  lemma CountAll(flags: seq<bool>)
    ensures Count(flags) == |flags| <==> forall i :: 0 <= i < |flags| ==> flags[i]
  {
    CountFromAll(flags, 0);
  }

  /** Admins zipped with the ballot: at each position the shorter list still reaches, whether
      the admin there is the one who voted there. */
  function MatchFlags(admins: PublicKeys, proposals: seq<Proposal>): (flags: seq<bool>)
    ensures |flags| == Min(|admins|, |proposals|)
  {
    seq(Min(|admins|, |proposals|),
        i requires 0 <= i < Min(|admins|, |proposals|) => admins[i] == proposals[i].admin)
  }

  /** The positions where the ballot names the admin at that position. */
  function MatchIndices(admins: PublicKeys, proposals: seq<Proposal>): set<nat>
  {
    set i: nat | i < |admins| && i < |proposals| && admins[i] == proposals[i].admin
  }

  /** The positions of the votes in favour. */
  function FavourIndices(proposals: seq<Proposal>): set<nat>
  {
    set i: nat | i < |proposals| && proposals[i].canWithdraw
  }

  /** `matching`: admins zipped with the ballot, counting the positions, up to the end of the
      shorter list, where admin and voter agree; so it is at most the length of either list. */
  function Matching(admins: PublicKeys, proposals: seq<Proposal>): (m: nat)
    ensures m == |MatchIndices(admins, proposals)|
    ensures m <= |admins| && m <= |proposals|
  {
    var flags := MatchFlags(admins, proposals);
    CountIsCardinality(flags);
    assert TrueIndicesFrom(flags, 0) == MatchIndices(admins, proposals);
    Count(flags)
  }

  /** The favourable tally: the number of votes in favour, so at most the ballot's length. */
  function Favourable(proposals: seq<Proposal>): (n: nat)
    ensures n == |FavourIndices(proposals)|
    ensures n <= |proposals|
  {
    var flags := seq(|proposals|, i requires 0 <= i < |proposals| => proposals[i].canWithdraw);
    CountIsCardinality(flags);
    assert TrueIndicesFrom(flags, 0) == FavourIndices(proposals);
    Count(flags)
  }

  /** Every admin matches exactly when the admin list is a prefix of the ballot's voters: each
      admin voted at its own position, and any further votes come after. */
  lemma AllAdminsMatchIff(admins: PublicKeys, proposals: seq<Proposal>)
    ensures Matching(admins, proposals) == |admins| <==> admins <= Voters(proposals)
  {
    var flags := MatchFlags(admins, proposals);
    CountAll(flags);
    if admins <= Voters(proposals) {
      assert forall i :: 0 <= i < |flags| ==> flags[i];
    }
    if Matching(admins, proposals) == |admins| {
      assert |admins| <= |proposals|;
      assert forall i :: 0 <= i < |admins| ==> flags[i] && admins[i] == proposals[i].admin;
      assert admins == Voters(proposals)[..|admins|];
    }
  }

  /** The outcome of a vote on a global state whose vote flag is `isVoted` and whose admins are
      `admins`: the favourable tally to store, or why the vote is rejected. */
  function VoteOutcome(isVoted: bool, admins: PublicKeys, proposals: seq<Proposal>): (r: Result<nat>)
    ensures isVoted ==> r == Err(Custom(VoteAlreadyCasted))
    ensures !isVoted && !(admins <= Voters(proposals)) ==> r == Err(Custom(NotAllVoters))
    ensures !isVoted && admins < Voters(proposals) ==> r == Err(Custom(OutsiderVote))
    ensures r.Ok? <==> !isVoted && Voters(proposals) == admins
    ensures r.Ok? ==> r.value == |FavourIndices(proposals)| && r.value <= |admins|
  {
    AllAdminsMatchIff(admins, proposals);
    if isVoted then
      Err(Custom(VoteAlreadyCasted))
    else if Matching(admins, proposals) != |admins| then
      Err(Custom(NotAllVoters))
    else if Matching(admins, proposals) != |proposals| then
      Err(Custom(OutsiderVote))
    else
      Ok(Favourable(proposals))
  }

  /** The global-state data after a vote: on success the tally is stored and the vote is marked
      as cast; a rejected vote leaves the data as it was. */
  function Voted(g: GlobalRecord, proposals: seq<Proposal>): (r: GlobalRecord)
    ensures r.admins == g.admins && r.threshold == g.threshold
    ensures VoteOutcome(g.isVoted, g.admins, proposals).Ok? ==>
      r.favourableVotes == VoteOutcome(g.isVoted, g.admins, proposals).value && r.isVoted
    ensures VoteOutcome(g.isVoted, g.admins, proposals).Err? ==> r == g
  {
    match VoteOutcome(g.isVoted, g.admins, proposals)
    case Ok(tally) => g.(favourableVotes := tally, isVoted := true)
    case Err(_) => g
  }

  /** The council votes. The global-state account is taken `mut`, so it must exist. Rejected
      if a vote was already cast, if some admin did not vote at its own position, or if there
      are more votes than admins; otherwise the favourable tally is stored, whatever the
      threshold, and the vote is marked as cast. No signer is asked for. */
  method CastVote(c: Cluster, votings: Proposals) returns (r: Result<()>)
    modifies c.global
    ensures c.global == old(c.global)
    ensures old(c.global) == null ==> r == Err(AccountNotInitialized)
    ensures old(c.global) != null ==>
      && c.global.Record() == Voted(old(c.global.Record()), votings.proposals)
      && r == (match VoteOutcome(old(c.global.isVoted), old(c.global.admins), votings.proposals)
               case Ok(_) => Ok(())
               case Err(e) => Err(e))
    ensures c.Ledger() == old(c.Ledger())
  {
    if c.global == null {
      return Err(AccountNotInitialized);
    }
    var g := c.global;
    if g.isVoted {
      return Err(Custom(VoteAlreadyCasted));
    }
    var matching := Matching(g.admins, votings.proposals);
    if matching != |g.admins| {
      return Err(Custom(NotAllVoters));
    }
    if matching != |votings.proposals| {
      return Err(Custom(OutsiderVote));
    }
    g.favourableVotes := Favourable(votings.proposals);
    g.isVoted := true;
    return Ok(());
  }

  /** A ballot from exactly the council, but not in the council's order, is rejected as
      incomplete. */
  lemma PermutedCouncilRejected(admins: PublicKeys, proposals: seq<Proposal>)
    requires multiset(Voters(proposals)) == multiset(admins)
    requires Voters(proposals) != admins
    ensures VoteOutcome(false, admins, proposals) == Err(Custom(NotAllVoters))
  {
    assert |Voters(proposals)| == |admins| by {
      assert |multiset(Voters(proposals))| == |multiset(admins)|;
    }
  }

  /** After a vote has been taken, every further ballot is rejected with `VoteAlreadyCasted`
      and leaves the data as the first vote left it. */
  lemma SecondVoteRejected(g: GlobalRecord, first: seq<Proposal>, second: seq<Proposal>)
    requires VoteOutcome(g.isVoted, g.admins, first).Ok?
    ensures VoteOutcome(Voted(g, first).isVoted, Voted(g, first).admins, second) == Err(Custom(VoteAlreadyCasted))
    ensures Voted(Voted(g, first), second) == Voted(g, first)
  {
  }

  /** Saving a new configuration does not reopen a vote that has been cast. */
  lemma SaveKeepsVoteClosed(g: GlobalRecord, owners: PublicKeys, threshold: nat, proposals: seq<Proposal>)
    requires g.isVoted
    ensures VoteOutcome(Saved(g, owners, threshold).isVoted, owners, proposals) == Err(Custom(VoteAlreadyCasted))
  {
  }
}
