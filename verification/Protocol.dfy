/**
 One instance of the replicated protocol: records, messages, what a durable log may do next, and
 what a message vouches for. Agreement is a consequence of these facts alone.
 */
module Protocol {
  import opened Types
  import opened Ballots
  import opened Attributes
  import Q = Quorum

  datatype Value = NoOp | Entry(kind: nat, content: seq<nat>)

  /** What the instance decides: the ordered attributes and the value. */
  datatype Tuple = Tuple(attrs: Attrs, value: Value)

  datatype Status = Empty | PreAccepted | Accepted | Committed | Executed {
    predicate Final() {
      Committed? || Executed?
    }
  }

  datatype Rec = Rec(ballot: Ballot, recordBallot: Ballot, status: Status, tuple: Tuple, eligible: bool)

  const BLANK := Rec(ZERO, ZERO, Empty, Tuple(NO_ATTRS, NoOp), false)

  /** Which request a rejection answers. */
  datatype Round = PreAcceptRound | PrepareRound | TryRound | AcceptRound

  datatype Message =
    | PreAccept(from: ReplicaID, ballot: Ballot, tuple: Tuple)
    | PreAcceptResp(from: ReplicaID, ballot: Ballot, attrs: Attrs, eligible: bool, committed: set<nat>)
    | Prepare(from: ReplicaID, ballot: Ballot)
    | PrepareResp(from: ReplicaID, ballot: Ballot, rec: Rec)
    | Accept(from: ReplicaID, ballot: Ballot, tuple: Tuple)
    | AcceptResp(from: ReplicaID, ballot: Ballot, recordBallot: Ballot, attrs: Attrs)
    | Commit(from: ReplicaID, ballot: Ballot, recordBallot: Ballot, tuple: Tuple)
    | TryPreAccept(from: ReplicaID, ballot: Ballot, tuple: Tuple)
    | TryPreAcceptResp(from: ReplicaID, ballot: Ballot, attrs: Attrs)
    | TryConflict(from: ReplicaID, ballot: Ballot)
    | TryRefused(from: ReplicaID, ballot: Ballot)
    | Reject(from: ReplicaID, ballot: Ballot, round: Round)

  const MEMBERSHIP := 4

  /** The instance's owner, the ordered voters of its configuration, and whether a voter plan reserves the reference. */
  datatype Group = Group(owner: ReplicaID, voters: seq<ReplicaID>, reserved: bool) {
    function Initial(): Ballot {
      Ballots.Initial(owner)
    }

    ghost predicate Valid() {
      && owner in voters && owner != 0 && 2 <= |voters| <= 7
      && forall i, j | 0 <= i < j < |voters| :: voters[i] != voters[j]
    }

    ghost function Set(): set<ReplicaID> {
      set id | id in voters
    }

    ghost predicate SlowQuorum(q: set<ReplicaID>) {
      q <= Set() && |q| >= Q.Slow(|voters|)
    }
  }

  /** Each replica's records in the order it enqueued them; the first durable of them have been persisted. */
  datatype History = History(log: seq<Rec>, durable: nat)

  /** What agreement looks at: every replica's record history and the messages that were ever sent. */
  datatype Ledger = Ledger(histories: map<ReplicaID, History>, net: set<Message>)

  ghost function Log(l: Ledger, i: ReplicaID): seq<Rec> {
    if i in l.histories then l.histories[i].log else []
  }

  ghost function Durable(l: Ledger, i: ReplicaID): nat {
    if i in l.histories then l.histories[i].durable else 0
  }

  function Previous(log: seq<Rec>, k: nat): Rec
    requires k <= |log|
  {
    if k == 0 then BLANK else log[k - 1]
  }

  /** A raised promise keeps everything else. */
  ghost predicate Promises(prev: Rec, next: Rec) {
    prev.ballot.Less(next.ballot) && next.ballot.IsRecovery() && next == prev.(ballot := next.ballot)
  }

  /** The owner proposes its own tuple under the initial ballot. */
  ghost predicate Proposes(g: Group, i: ReplicaID, k: nat, next: Rec) {
    i == g.owner && k == 0 && next == Rec(g.Initial(), g.Initial(), PreAccepted, next.tuple, true)
  }

  /** A voter pre-accepts the owner's message, eligible exactly when it changed nothing. */
  ghost predicate PreAccepts(g: Group, net: set<Message>, i: ReplicaID, prev: Rec, next: Rec) {
    exists t :: PreAcceptsFrom(g, net, i, prev, next, t)
  }

  ghost predicate PreAcceptsFrom(g: Group, net: set<Message>, i: ReplicaID, prev: Rec, next: Rec, t: Tuple) {
    && i != g.owner && PreAccept(g.owner, g.Initial(), t) in net
    && prev.ballot.AtMost(g.Initial())
    && (prev.status.Empty? || (prev.status.PreAccepted? && prev.ballot != g.Initial()))
    && next.ballot == next.recordBallot == g.Initial() && next.status.PreAccepted?
    && next.tuple.value == t.value && (next.eligible <==> next.tuple.attrs == t.attrs)
  }

  /** A voter accepts what the ballot's owner proposes. */
  ghost predicate Accepts(g: Group, net: set<Message>, i: ReplicaID, prev: Rec, next: Rec) {
    && (next.ballot == g.Initial() || next.ballot.IsRecovery()) && i != next.ballot.replica
    && Accept(next.ballot.replica, next.ballot, next.tuple) in net
    && prev.ballot.AtMost(next.ballot) && !prev.status.Final()
    && next == Rec(next.ballot, next.ballot, Accepted, next.tuple, false)
  }

  /** The owner moves its own proposal to the accept phase. */
  ghost predicate AcceptsOwn(g: Group, i: ReplicaID, prev: Rec, next: Rec) {
    && i == g.owner && prev.status.PreAccepted? && prev.ballot == g.Initial()
    && next == Rec(g.Initial(), g.Initial(), Accepted, Tuple(next.tuple.attrs, prev.tuple.value), false)
  }

  /**
   What a recovering coordinator knows: answers to its Prepare from a slow quorum, its own record
   among them.
   */
  ghost predicate Surveyed(g: Group, net: set<Message>, i: ReplicaID, prev: Rec, answers: map<ReplicaID, Rec>) {
    && prev.ballot.IsRecovery() && prev.ballot.replica == i && !prev.status.Final()
    && g.SlowQuorum(answers.Keys) && i in answers && answers[i] == prev
    && forall j :: AnswerSafe(g, net, i, prev.ballot, answers, j)
  }

  /** Each answer was sent, none is final, and none was accepted at this very ballot. */
  ghost predicate AnswerSafe(g: Group, net: set<Message>, i: ReplicaID, b: Ballot, answers: map<ReplicaID, Rec>,
                             j: ReplicaID) {
    j in answers ==>
      && !answers[j].status.Final()
      && (j != i ==> PrepareResp(j, b, answers[j]) in net)
      && (answers[j].status.Accepted? ==> answers[j].recordBallot.Less(b))
  }

  /** A recovering coordinator accepts at its own ballot what a slow quorum of answers lets it. */
  ghost predicate AcceptsRecovered(g: Group, net: set<Message>, i: ReplicaID, prev: Rec, next: Rec) {
    exists answers :: RecoveredFrom(g, net, i, prev, next, answers)
  }

  ghost predicate RecoveredFrom(g: Group, net: set<Message>, i: ReplicaID, prev: Rec, next: Rec,
                                answers: map<ReplicaID, Rec>) {
    && Surveyed(g, net, i, prev, answers)
    && next == Rec(prev.ballot, prev.ballot, Accepted, next.tuple, false)
    && ValueFrom(g, answers, next.tuple.value)
    && (forall j :: AnswerFollowed(answers, next.tuple, j))
    && ((forall j :: PlainAnswer(g, answers, j)) ==> !TryCandidate(g, answers))
  }

  /** The coordinator stores the tuple that may have been committed fast, and asks the voters to try it. */
  ghost predicate TriesOwn(g: Group, net: set<Message>, i: ReplicaID, prev: Rec, next: Rec) {
    exists answers :: TriedFrom(g, net, i, prev, next, answers)
  }

  ghost predicate TriedFrom(g: Group, net: set<Message>, i: ReplicaID, prev: Rec, next: Rec, answers: map<ReplicaID,
                            Rec>) {
    && Surveyed(g, net, i, prev, answers) && prev.recordBallot != prev.ballot && !prev.status.Accepted?
    && next == Rec(prev.ballot, prev.ballot, PreAccepted, next.tuple, false)
    && (forall j :: NotAccepted(answers, j))
    && exists j :: EligibleAnswer(answers, next.tuple, j)
  }

  ghost predicate EligibleAnswer(answers: map<ReplicaID, Rec>, t: Tuple, j: ReplicaID) {
    j in answers && answers[j].eligible && answers[j].tuple == t
  }

  /** A voter stores the tuple a coordinator tries. */
  ghost predicate Tries(net: set<Message>, i: ReplicaID, prev: Rec, next: Rec) {
    && i != next.ballot.replica && next.ballot.IsRecovery()
    && TryPreAccept(next.ballot.replica, next.ballot, next.tuple) in net
    && prev.ballot.AtMost(next.ballot)
    && (prev.status.Empty? || (prev.status.PreAccepted? && prev.recordBallot != next.ballot))
    && next == Rec(next.ballot, next.ballot, PreAccepted, next.tuple, false)
  }

  /** After its Try round the coordinator accepts the tried value, with more dependencies if the round met conflicts. */
  ghost predicate AcceptsTried(i: ReplicaID, prev: Rec, next: Rec) {
    && prev.status.PreAccepted? && prev.ballot.IsRecovery() && prev.ballot.replica == i
    && prev.recordBallot == prev.ballot
    && next == Rec(prev.ballot, prev.ballot, Accepted, Tuple(next.tuple.attrs, prev.tuple.value), false)
  }

  ghost predicate NotAccepted(answers: map<ReplicaID, Rec>, j: ReplicaID) {
    j in answers ==> !answers[j].status.Accepted?
  }

  /** An answer that shows nothing beyond the owner's initial ballot. */
  ghost predicate Plain(g: Group, rec: Rec) {
    rec.status.Empty? || (rec.status.PreAccepted? && rec.recordBallot == g.Initial())
  }

  ghost predicate PlainAnswer(g: Group, answers: map<ReplicaID, Rec>, j: ReplicaID) {
    j in answers ==> Plain(g, answers[j])
  }

  /** The answerers whose eligible record carries t. */
  function EligibleIn(answers: map<ReplicaID, Rec>, t: Tuple): set<ReplicaID> {
    set j | j in answers && answers[j].eligible && answers[j].tuple == t
  }

  /** Enough eligible answers agree that the tuple may have been committed fast. */
  predicate TryCandidate(g: Group, answers: map<ReplicaID, Rec>) {
    |g.voters| >= 1 && exists j <- answers ::
        answers[j].eligible && |EligibleIn(answers, answers[j].tuple)| >= Q.Witness(|g.voters|)
  }

  /** What is written when nobody knows a value: a no-op, or at a reserved reference a membership command. */
  predicate Fallback(g: Group, value: Value) {
    value == NoOp || (g.reserved && value.Entry? && value.kind == MEMBERSHIP)
  }

  /** The value is one an answer carries, or the coordinator's own when no answer carries any. */
  ghost predicate ValueFrom(g: Group, answers: map<ReplicaID, Rec>, value: Value) {
    || (exists h :: CarriesValue(answers, value, h))
    || (Fallback(g, value) && forall h :: EmptyAnswer(answers, h))
  }

  ghost predicate CarriesValue(answers: map<ReplicaID, Rec>, value: Value, h: ReplicaID) {
    h in answers && !answers[h].status.Empty? && answers[h].tuple.value == value
  }

  ghost predicate EmptyAnswer(answers: map<ReplicaID, Rec>, h: ReplicaID) {
    h in answers ==> answers[h].status.Empty?
  }

  /** An accepted answer is followed, or outranked by another accepted answer that is. */
  ghost predicate AnswerFollowed(answers: map<ReplicaID, Rec>, t: Tuple, j: ReplicaID) {
    j in answers && answers[j].status.Accepted? ==> exists h :: Outranks(answers, t, j, h)
  }

  ghost predicate Outranks(answers: map<ReplicaID, Rec>, t: Tuple, j: ReplicaID, h: ReplicaID) {
    && h in answers && answers[h].status.Accepted? && answers[h].tuple == t
    && j in answers && answers[j].recordBallot.AtMost(answers[h].recordBallot)
  }

  /** A coordinator restarted inside its own ballot accepts the same tuple again. */
  ghost predicate AcceptsAgain(prev: Rec, next: Rec) {
    && prev.status.Accepted? && prev.recordBallot == prev.ballot
    && next == Rec(prev.ballot, prev.ballot, Accepted, prev.tuple, false)
  }

  /** The tuple of an accepted record is committed once a slow quorum has accepted it at its ballot. */
  ghost predicate CommitsAccepted(g: Group, net: set<Message>, i: ReplicaID, prev: Rec, next: Rec) {
    exists q :: AcceptedBy(g, net, i, prev, next, q)
  }

  ghost predicate AcceptedBy(g: Group, net: set<Message>, i: ReplicaID, prev: Rec, next: Rec, q: set<ReplicaID>) {
    && prev.status.Accepted? && prev.recordBallot == prev.ballot
    && next == prev.(status := Committed, eligible := false)
    && g.SlowQuorum(q) && (i in q ==> i == prev.ballot.replica)
    && forall j :: Acknowledged(net, i, prev, q, j)
  }

  ghost predicate Acknowledged(net: set<Message>, i: ReplicaID, prev: Rec, q: set<ReplicaID>, j: ReplicaID) {
    j in q && j != i ==> AcceptResp(j, prev.ballot, prev.ballot, prev.tuple.attrs) in net
  }

  /** The owner commits fast: a fast quorum, itself included, stored the same attributes. */
  ghost predicate CommitsFast(g: Group, net: set<Message>, i: ReplicaID, prev: Rec, next: Rec) {
    && i == g.owner && prev.status.PreAccepted? && prev.ballot == g.Initial() && prev.eligible
    && next == prev.(status := Committed, tuple := Tuple(next.tuple.attrs, prev.tuple.value), eligible := false)
    && FastBacked(g, net, next.tuple.attrs)
  }

  ghost predicate FastBacked(g: Group, net: set<Message>, attrs: Attrs) {
    exists q :: BackedBy(g, net, attrs, q)
  }

  ghost predicate BackedBy(g: Group, net: set<Message>, attrs: Attrs, q: set<ReplicaID>) {
    && g.owner in q && q <= g.Set() && |g.voters| >= 1 && |q| >= Q.Fast(|g.voters|)
    && forall j :: Backs(g, net, attrs, q, j)
  }

  ghost predicate Backs(g: Group, net: set<Message>, attrs: Attrs, q: set<ReplicaID>, j: ReplicaID) {
    j in q && j != g.owner ==> exists committed :: PreAcceptResp(j, g.Initial(), attrs, true, committed) in net
  }

  /** A commit is learned from a Commit message or from a final answer to a Prepare. */
  ghost predicate CommitsLearned(g: Group, net: set<Message>, prev: Rec, next: Rec) {
    && !prev.status.Final() && next.status == Committed && !next.eligible && prev.ballot.AtMost(next.ballot)
    && next.recordBallot.AtMost(next.ballot) && (next.ballot == g.Initial() || next.ballot.IsRecovery())
    && exists m <- net :: Teaches(m, next)
  }

  ghost predicate Teaches(m: Message, next: Rec) {
    || (m.Commit? && m.recordBallot == next.recordBallot && m.tuple == next.tuple)
    || (m.PrepareResp? && m.rec.status.Final() && m.rec.recordBallot == next.recordBallot && m.rec.tuple == next.tuple)
  }

  ghost predicate Executes(prev: Rec, next: Rec) {
    prev.status.Committed? && next == prev.(status := Executed)
  }

  /** Everything a replica may do to its record. */
  ghost predicate Evolves(g: Group, net: set<Message>, i: ReplicaID, k: nat, prev: Rec, next: Rec) {
    Moves(g, net, i, k, prev, next) && (next.status.Empty? || next.tuple.attrs.seqNo >= 1)
  }

  ghost predicate Moves(g: Group, net: set<Message>, i: ReplicaID, k: nat, prev: Rec, next: Rec) {
    || Promises(prev, next)
    || Proposes(g, i, k, next)
    || PreAccepts(g, net, i, prev, next)
    || Accepts(g, net, i, prev, next)
    || AcceptsOwn(g, i, prev, next)
    || AcceptsRecovered(g, net, i, prev, next)
    || TriesOwn(g, net, i, prev, next)
    || Tries(net, i, prev, next)
    || AcceptsTried(i, prev, next)
    || AcceptsAgain(prev, next)
    || CommitsAccepted(g, net, i, prev, next)
    || CommitsFast(g, net, i, prev, next)
    || CommitsLearned(g, net, prev, next)
    || Executes(prev, next)
  }

  /** What a message says about the record its sender held when it was enqueued. */
  ghost predicate Vouches(g: Group, m: Message, r: Rec) {
    match m
    case PreAccept(from, b, t) =>
      from == g.owner && b == g.Initial() && r.status.PreAccepted? && r.ballot == r.recordBallot == b && r.tuple == t
    case PreAcceptResp(_, b, attrs, eligible, _) =>
      r.ballot == b && r.tuple.attrs == attrs && (eligible ==> r.status.PreAccepted? && r.recordBallot == b)
    case PrepareResp(_, b, rec) => rec == r && r.ballot == b
    case Accept(from, b, t) => from == b.replica && r.status.Accepted? && r.ballot == r.recordBallot == b
        && r.tuple == t
    case AcceptResp(_, b, rb, attrs) => r.status.Accepted? && r.ballot == r.recordBallot == b == rb
        && r.tuple.attrs == attrs
    case Commit(_, b, rb, t) => r.status.Final() && r.ballot == b && r.recordBallot == rb && r.tuple == t
    case Prepare(_, b) => b.IsRecovery()
    case TryPreAccept(from, b, t) =>
      from == b.replica && b.IsRecovery() && r.status.PreAccepted? && r.ballot == r.recordBallot == b && r.tuple == t
    case TryRefused(_, _) => true
    case TryPreAcceptResp(_, _, _) => true
    case TryConflict(_, _) => true
    case Reject(_, _, _) => true
  }

  ghost predicate EvolvesAt(g: Group, l: Ledger, i: ReplicaID, k: int) {
    i in g.voters && 0 <= k < |Log(l, i)| ==> Evolves(g, l.net, i, k, Previous(Log(l, i), k), Log(l, i)[k])
  }

  ghost predicate Backed(g: Group, l: Ledger, m: Message) {
    m in l.net ==> m.from in g.voters && (m.TryConflict? || exists k :: BackedAt(g, l, m, k))
  }

  ghost predicate BackedAt(g: Group, l: Ledger, m: Message, k: int) {
    0 <= k < Durable(l, m.from) <= |Log(l, m.from)| && Vouches(g, m, Log(l, m.from)[k])
  }

  /** A record in a log. */
  ghost predicate At(l: Ledger, i: ReplicaID, k: int, r: Rec) {
    0 <= k < |Log(l, i)| && Log(l, i)[k] == r
  }

  /** The tuple was accepted at b by a slow quorum of durable records. */
  ghost predicate Chosen(g: Group, l: Ledger, b: Ballot, t: Tuple) {
    exists q :: ChosenBy(g, l, b, t, q)
  }

  ghost predicate ChosenBy(g: Group, l: Ledger, b: Ballot, t: Tuple, q: set<ReplicaID>) {
    g.SlowQuorum(q) && forall j :: HoldsDurably(l, b, t, q, j)
  }

  ghost predicate HoldsDurably(l: Ledger, b: Ballot, t: Tuple, q: set<ReplicaID>, j: ReplicaID) {
    j in q ==> exists k :: k < Durable(l, j) && Votes(l, j, k, b, t)
  }

  /** Entry k of j's log is an accepted record of ballot b carrying t. */
  ghost predicate Votes(l: Ledger, j: ReplicaID, k: int, b: Ballot, t: Tuple) {
    0 <= k < |Log(l, j)| && Log(l, j)[k].status.Accepted? && Log(l, j)[k].recordBallot == b && Log(l, j)[k].tuple == t
  }

  /** The owner's log commits t fast at entry m. */
  ghost predicate FastCommitAt(g: Group, l: Ledger, m: int, t: Tuple) {
    && 0 < m < |Log(l, g.owner)| && Log(l, g.owner)[m].tuple == t
    && CommitsFast(g, l.net, g.owner, Log(l, g.owner)[m - 1], Log(l, g.owner)[m])
  }

  /** A final record was chosen by a slow quorum, or fast-committed by the owner, durably before others learned it. */
  ghost predicate Decided(g: Group, l: Ledger, i: ReplicaID, k: int) {
    i in g.voters && 0 <= k < |Log(l, i)| && Log(l, i)[k].status.Final() ==>
      Chosen(g, l, Log(l, i)[k].recordBallot, Log(l, i)[k].tuple) || FastDecided(g, l, i, k, Log(l, i)[k].tuple)
  }

  ghost predicate FastDecided(g: Group, l: Ledger, i: ReplicaID, k: int, t: Tuple) {
    exists m :: FastDecidedAt(g, l, i, k, t, m)
  }

  ghost predicate FastDecidedAt(g: Group, l: Ledger, i: ReplicaID, k: int, t: Tuple, m: int) {
    FastCommitAt(g, l, m, t) && (if i == g.owner then m <= k else m < Durable(l, g.owner))
  }

  ghost predicate Justified(g: Group, l: Ledger) {
    && (forall i, k :: EvolvesAt(g, l, i, k))
    && (forall m :: Backed(g, l, m))
    && (forall i :: Durable(l, i) <= |Log(l, i)|)
  }

  ghost predicate Sound(g: Group, l: Ledger) {
    Justified(g, l) && forall i, k :: Decided(g, l, i, k)
  }
}
