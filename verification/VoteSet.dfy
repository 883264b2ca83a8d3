/** Votes counted once per sender: a bit mask over the voters' slots beside a fixed array. */
module VoteSet {
  import opened Types

  const WIDTH := 7

  function Bit(slot: nat): bv8
    requires slot < WIDTH
  {
    [1, 2, 4, 8, 16, 32, 64][slot]
  }

  predicate HasSlot(m: bv8, slot: nat)
    requires slot < WIDTH
  {
    m & Bit(slot) != 0
  }

  function One(b: bool): nat {
    if b then 1 else 0
  }

  /** The set bits among the first k slots. */
  function Count(m: bv8, k: nat): nat
    requires k <= WIDTH
  {
    if k == 0 then 0 else Count(m, k - 1) + One(HasSlot(m, k - 1))
  }

  lemma CountBits(m: bv8)
    ensures Count(m, WIDTH) ==
            One(m & 1 != 0) + One(m & 2 != 0) + One(m & 4 != 0) + One(m & 8 != 0) + One(m & 16 != 0)
            + One(m & 32 != 0) + One(m & 64 != 0)
  {
    assert Count(m, 1) == One(m & 1 != 0);
    assert Count(m, 2) == Count(m, 1) + One(m & 2 != 0);
    assert Count(m, 3) == Count(m, 2) + One(m & 4 != 0);
    assert Count(m, 4) == Count(m, 3) + One(m & 8 != 0);
    assert Count(m, 5) == Count(m, 4) + One(m & 16 != 0);
    assert Count(m, 6) == Count(m, 5) + One(m & 32 != 0);
    assert Count(m, 7) == Count(m, 6) + One(m & 64 != 0);
  }

  /** Taking one away from a mask clears its lowest bit and sets only lower ones. */
  lemma ClearsOne(m: bv8)
    requires m != 0 && m & 128 == 0
    ensures m & (m - 1) & 128 == 0 && Count(m & (m - 1), WIDTH) + 1 == Count(m, WIDTH)
  {
    var c := m & (m - 1);
    CountBits(m);
    CountBits(c);
  }

  /** voterMask.len: one round per set bit. */
  method Len(mask: bv8) returns (count: nat)
    requires mask & 128 == 0
    ensures count == Count(mask, WIDTH)
  {
    var m := mask;
    count := 0;
    while m != 0
      invariant m & 128 == 0 && count + Count(m, WIDTH) == Count(mask, WIDTH)
      decreases Count(m, WIDTH)
    {
      ClearsOne(m);
      m := m & (m - 1);
      count := count + 1;
    }
    CountBits(0);
  }

  lemma SetBit(m: bv8, slot: nat)
    requires slot < WIDTH && m & 128 == 0
    ensures (m | Bit(slot)) & 128 == 0 && HasSlot(m | Bit(slot), slot)
    ensures forall other: nat | other < WIDTH && other != slot :: HasSlot(m | Bit(slot), other) <==> HasSlot(m, other)
  {
    forall other: nat | other < WIDTH && other != slot
      ensures HasSlot(m | Bit(slot), other) <==> HasSlot(m, other)
    {
      SetBitApart(m, slot, other);
    }
    assert Bit(slot) & 128 == 0 && Bit(slot) != 0;
  }

  lemma SetBitApart(m: bv8, slot: nat, other: nat)
    requires slot < WIDTH && other < WIDTH && other != slot
    ensures HasSlot(m | Bit(slot), other) <==> HasSlot(m, other)
  {
    assert Bit(slot) & Bit(other) == 0;
  }

  /** ConfState.Index: the slot of a voter. */
  method Index(voters: seq<ReplicaID>, id: ReplicaID) returns (slot: Option<nat>)
    ensures slot.Some? <==> id in voters
    ensures slot.Some? ==> slot.value < |voters| && voters[slot.value] == id
  {
    for i := 0 to |voters|
      invariant id !in voters[..i]
    {
      if voters[i] == id {
        return Some(i);
      }
    }
    slot := None;
  }

  /** The voters whose bit is set. */
  function Senders(voters: seq<ReplicaID>, m: bv8): set<ReplicaID>
    requires |voters| <= WIDTH
  {
    set i: nat | i < |voters| && HasSlot(m, i) :: voters[i]
  }

  ghost predicate OffAt(m: bv8, n: nat, i: nat) {
    n <= i < WIDTH ==> !HasSlot(m, i)
  }

  ghost function ContentsOf<T>(voters: seq<ReplicaID>, m: bv8, s: seq<T>): map<ReplicaID, T>
    requires |voters| <= WIDTH == |s|
  {
    map id | id in Senders(voters, m) :: s[SlotOf(voters, id)]
  }

  ghost predicate Distinct(voters: seq<ReplicaID>) {
    forall i, j | 0 <= i < j < |voters| :: voters[i] != voters[j]
  }

  ghost function SendersBelow(voters: seq<ReplicaID>, m: bv8, k: nat): set<ReplicaID>
    requires k <= |voters| <= WIDTH
  {
    set i: nat | i < k && HasSlot(m, i) :: voters[i]
  }

  /** Over distinct voters, as many senders as set bits. */
  lemma {:induction false} BitsAreSenders(voters: seq<ReplicaID>, m: bv8, k: nat)
    requires k <= |voters| <= WIDTH && Distinct(voters)
    ensures |SendersBelow(voters, m, k)| == Count(m, k)
  {
    if k > 0 {
      var init := SendersBelow(voters, m, k - 1);
      BitsAreSenders(voters, m, k - 1);
      assert voters[k - 1] !in init;
      assert SendersBelow(voters, m, k) == if HasSlot(m, k - 1) then init + {voters[k - 1]} else init;
    }
  }

  lemma {:induction false} NoneBeyond(m: bv8, n: nat, k: nat)
    requires n <= k <= WIDTH && forall i: nat :: OffAt(m, n, i)
    ensures Count(m, k) == Count(m, n)
    decreases k
  {
    if n < k {
      assert OffAt(m, n, k - 1);
      NoneBeyond(m, n, k - 1);
    }
  }

  /** attrVoteSet and recordVoteSet: at most one vote per voter, in the voter's slot. */
  class Tally<T(0)> {
    const voters: seq<ReplicaID>
    var mask: bv8
    var votes: array<T>

    ghost predicate Valid()
      reads this
    {
      && 1 <= |voters| <= WIDTH && Distinct(voters) && votes.Length == WIDTH && mask & 128 == 0
      && forall i: nat :: OffAt(mask, |voters|, i)
    }

    /** Who has voted, and what. */
    ghost function Contents(): map<ReplicaID, T>
      requires Valid()
      reads this, votes
    {
      ContentsOf(voters, mask, votes[..])
    }

    constructor (voters: seq<ReplicaID>)
      requires 1 <= |voters| <= WIDTH && Distinct(voters)
      ensures Valid() && fresh(votes) && this.voters == voters && Contents() == map[]
    {
      this.voters := voters;
      mask := 0;
      votes := new T[WIDTH];
      new;
      assert Senders(voters, 0) == {};
    }

    /** add: a voter's first vote is kept, any other refused. */
    method Add(sender: ReplicaID, vote: T) returns (ok: bool)
      requires Valid()
      modifies this, votes
      ensures Valid() && votes == old(votes)
      ensures ok <==> sender in voters && sender !in old(Contents())
      ensures Contents() == if ok then old(Contents())[sender := vote] else old(Contents())
    {
      var slot := Index(voters, sender);
      if slot.None? || HasSlot(mask, slot.value) {
        return false;
      }
      var next := mask | Bit(slot.value);
      BitAdded(voters, mask, slot.value, next);
      ContentsAdded(voters, mask, next, votes[..], slot.value, vote);
      ghost var before := votes[..];
      votes[slot.value] := vote;
      assert votes[..] == before[slot.value := vote];
      mask := next;
      ok := true;
    }

    /** get. */
    method Get(sender: ReplicaID) returns (r: Option<T>)
      requires Valid()
      ensures r == if sender in Contents() then Some(Contents()[sender]) else None
    {
      var slot := Index(voters, sender);
      if slot.None? || !HasSlot(mask, slot.value) {
        return None;
      }
      r := Some(votes[slot.value]);
    }

    /** len: the number of voters that have voted. */
    method Size() returns (count: nat)
      requires Valid()
      ensures count == |Contents()|
    {
      count := Len(mask);
      NoneBeyond(mask, |voters|, WIDTH);
      BitsAreSenders(voters, mask, |voters|);
      assert Contents().Keys == Senders(voters, mask) == SendersBelow(voters, mask, |voters|);
      assert |Contents()| == |Contents().Keys|;
    }

    /** reset. */
    method Reset()
      requires Valid()
      modifies this
      ensures Valid() && votes == old(votes) && Contents() == map[]
    {
      mask := 0;
      assert Senders(voters, 0) == {};
    }
  }

  function SlotOf(voters: seq<ReplicaID>, id: ReplicaID): (slot: nat)
    requires id in voters
    ensures slot < |voters| && voters[slot] == id
  {
    if voters[0] == id then 0 else 1 + SlotOf(voters[1..], id)
  }

  /** A voter's own slot is the only one that names it. */
  lemma SlotsApart(voters: seq<ReplicaID>, slot: nat)
    requires slot < |voters| && Distinct(voters)
    ensures SlotOf(voters, voters[slot]) == slot
  {
  }

  lemma BitAdded(voters: seq<ReplicaID>, m: bv8, slot: nat, next: bv8)
    requires slot < |voters| <= WIDTH && Distinct(voters) && m & 128 == 0 && next == m | Bit(slot)
    requires forall i: nat :: OffAt(m, |voters|, i)
    ensures next & 128 == 0 && Senders(voters, next) == Senders(voters, m) + {voters[slot]}
    ensures forall i: nat :: OffAt(next, |voters|, i)
    ensures !HasSlot(m, slot) ==> voters[slot] !in Senders(voters, m)
  {
    SetBit(m, slot);
    forall i: nat
      ensures OffAt(next, |voters|, i)
    {
      assert OffAt(m, |voters|, i);
    }
  }

  lemma ContentsAdded<T>(voters: seq<ReplicaID>, m: bv8, next: bv8, s: seq<T>, slot: nat, vote: T)
    requires slot < |voters| <= WIDTH == |s| && Distinct(voters)
             && Senders(voters, next) == Senders(voters, m) + {voters[slot]}
    ensures ContentsOf(voters, next, s[slot := vote]) == ContentsOf(voters, m, s)[voters[slot] := vote]
  {
    SlotsApart(voters, slot);
  }
}
