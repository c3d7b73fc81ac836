/** The singleton governance account: council, threshold and the outcome of the vote. */
module Global {
  import opened Types

  /** The data the global-state account holds. `favourableVotes` and `isVoted` are written by
      the vote and read by the withdrawal gate. */
  datatype GlobalRecord = GlobalRecord(
    admins: PublicKeys,
    threshold: nat,
    favourableVotes: nat,
    isVoted: bool)

  /** The data of a freshly created account: every field zero. */
  const Zeroed := GlobalRecord([], 0, 0, false)

  /** What `save` leaves behind: the new admins and threshold, everything else as it was. */
  function Saved(g: GlobalRecord, owners: PublicKeys, threshold: nat): (r: GlobalRecord)
    ensures r.admins == owners && r.threshold == threshold
    ensures r.favourableVotes == g.favourableVotes && r.isVoted == g.isVoted
  {
    g.(admins := owners, threshold := threshold)
  }

  /** Saving the same configuration twice is saving it once. */
  lemma SaveIdempotent(g: GlobalRecord, owners: PublicKeys, threshold: nat)
    ensures Saved(Saved(g, owners, threshold), owners, threshold) == Saved(g, owners, threshold)
  {
  }

  /** Of two saves, only the second one's configuration remains. */
  lemma SaveLastWriteWins(g: GlobalRecord, a: PublicKeys, t: nat, b: PublicKeys, u: nat)
    ensures Saved(Saved(g, a, t), b, u) == Saved(g, b, u)
  {
  }

  /** The global-state account, updated in place by the instructions. */
  class GlobalState {
    var admins: PublicKeys
    var threshold: nat
    var favourableVotes: nat
    var isVoted: bool

    /** The account's data as a value. */
    function Record(): GlobalRecord
      reads this
    {
      GlobalRecord(admins, threshold, favourableVotes, isVoted)
    }

    /** A newly created account, whose data starts out zeroed. */
    constructor ()
      ensures Record() == Zeroed
    {
      admins, threshold, favourableVotes, isVoted := [], 0, 0, false;
    }

    /** Overwrite the admin list and the threshold. */
    method Save(owners: PublicKeys, threshold: nat)
      modifies this
      ensures Record() == Saved(old(Record()), owners, threshold)
    {
      this.admins := owners;
      this.threshold := threshold;
    }
  }
}
