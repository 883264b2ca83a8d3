/** Ballots: the lexicographic order, initial and recovery ballots, and the successor owned by a replica. */
module Ballots {
  import opened Types

  datatype Ballot = Ballot(epoch: U64, number: U64, replica: ReplicaID) {
    predicate Less(other: Ballot) {
      if epoch != other.epoch then epoch < other.epoch
      else if number != other.number then number < other.number
      else replica < other.replica
    }

    predicate AtMost(other: Ballot) {
      this == other || Less(other)
    }

    /** The ballot as one number, epoch first and replica last. */
    function Rank(): nat {
      (epoch * (MAX_U64 + 1) + number) * (MAX_U64 + 1) + replica
    }

    /** The exact epoch-zero ballot an instance starts with. */
    predicate IsInitialFor(id: ReplicaID) {
      id != 0 && epoch == 0 && number == 0 && replica == id
    }

    predicate IsRecovery() {
      epoch != 0 || number != 0
    }

    /** The next ballot of replica id; None when the ballot space is exhausted. */
    function Next(id: ReplicaID): (next: Option<Ballot>)
      ensures next.Some? ==> Less(next.value) && next.value.replica == id && next.value.IsRecovery()
      ensures next.None? <==> number == MAX_U64 && epoch == MAX_U64
      ensures next.Some? ==> forall b: Ballot | Less(b) && b.replica == id ::
                b == next.value || next.value.Less(b) || (b.epoch == epoch && b.number == number)
    {
      if number != MAX_U64 then Some(Ballot(epoch, number + 1, id))
      else if epoch == MAX_U64 then None
      else Some(Ballot(epoch + 1, 0, id))
    }
  }

  const ZERO := Ballot(0, 0, 0)

  function Initial(owner: ReplicaID): Ballot {
    Ballot(0, 0, owner)
  }

  function Higher(a: Ballot, b: Ballot): Ballot {
    if a.Less(b) then b else a
  }

  /** Ballots compare as their ranks, and different ballots have different ranks. */
  lemma LessByRank(a: Ballot, b: Ballot)
    ensures a.Less(b) <==> a.Rank() < b.Rank()
    ensures a == b <==> a.Rank() == b.Rank()
    ensures a.AtMost(b) <==> a.Rank() <= b.Rank()
    ensures Higher(a, b).Rank() == if a.Rank() < b.Rank() then b.Rank() else a.Rank()
  {
    var w := MAX_U64 + 1;
    RankPair(a.epoch, a.number, b.epoch, b.number);
    RankPair(a.epoch * w + a.number, a.replica, b.epoch * w + b.number, b.replica);
  }

  lemma RankPair(x: nat, y: U64, x': nat, y': U64)
    ensures x * (MAX_U64 + 1) + y < x' * (MAX_U64 + 1) + y' <==> x < x' || (x == x' && y < y')
  {
  }

  /** The initial ballot is the owner's lowest, and every other ballot of the owner's is a recovery ballot. */
  lemma InitialIsLowest(b: Ballot, owner: ReplicaID)
    requires owner != 0 && b.replica == owner
    ensures b.IsInitialFor(owner) <==> b == Initial(owner)
    ensures Initial(owner).AtMost(b) && (b.IsRecovery() <==> b != Initial(owner)) && !b.IsInitialFor(0)
    ensures forall other: ReplicaID | other != owner :: !b.IsInitialFor(other)
  {
  }
}
