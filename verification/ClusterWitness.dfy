/**
  Runs of Redis Cluster in which two slaves take over for the same epoch, because one of
  them counts ACKs of its previous attempt after scheduling the next one
  (project/network/redis/redis-3.2/src/cluster.c, lines 2842-2843, 1960-1963 and 2901-2915).

  There is one for every number m of masters.  They are the nodes 1 to m and serve one slot
  each; nodes m + 1 and m + 2 are slaves of node 1, which is to be replaced by hand.  Every
  state agrees on the electorate.  One stray ACK is enough if m is odd, two if it is even.
*/
module ClusterWitness {
  import opened Options
  import opened ClusterNode
  import opened ClusterNetwork

  predicate Between(lo: nat, i: nat, hi: nat) {
    lo <= i < hi
  }

  /** The numbers from lo up to hi, hi excluded */
  function Range(lo: nat, hi: nat): set<Id> {
    set i: Id | lo <= i < hi && Between(lo, i, hi)
  }

  lemma InRange(lo: nat, i: nat, hi: nat)
    ensures i in Range(lo, hi) <==> lo <= i < hi
  {
    assert Between(lo, i, hi) <==> lo <= i < hi;
  }

  lemma {:induction false} RangeSize(lo: nat, hi: nat)
    requires lo <= hi
    ensures |Range(lo, hi)| == hi - lo
  {
    if lo < hi {
      RangeSize(lo, hi - 1);
      assert Range(lo, hi) == Range(lo, hi - 1) + {hi - 1};
    } else {
      assert Range(lo, hi) == {};
    }
  }

  function Masters(m: nat): set<Id> {
    Range(1, m + 1)
  }

  function Elect(m: nat): Electorate {
    e => Masters(m)
  }

  function Role(m: nat, i: Id): Info {
    if i <= m then Info(0, true, None, false) else Info(0, false, Some(1), false)
  }

  function Table(m: nat): map<Id, Info> {
    map i | i in Range(1, m + 3) :: Role(m, i)
  }

  lemma InTable(m: nat, i: Id)
    ensures i in Table(m) <==> 1 <= i <= m + 2
    ensures i in Table(m) ==> Table(m)[i] == Role(m, i)
  {
    InRange(1, i, m + 3);
  }

  function Owner(m: nat): seq<Option<Id>> {
    seq(m, j => Some(j + 1))
  }

  function Quorum(m: nat): nat {
    m / 2 + 1
  }

  predicate IsVoter(m: nat, i: Id) {
    1 <= i <= m
  }

  predicate IsSlave(m: nat, i: Id) {
    m >= 1 && (i == m + 1 || i == m + 2)
  }

  function Voter(m: nat, id: Id, epoch: nat): Node {
    Node(id, epoch, epoch, 0, 0, false, false, {}, 0, Table(m), Owner(m), {}, m)
  }

  function Candidate(m: nat, id: Id, epoch: nat, sent: bool, counted: set<Id>, stray: nat): Node {
    Node(id, epoch, 0, epoch, |counted| + stray, sent, false, counted, stray, Table(m), Owner(m), {}, m)
  }

  function SlaveHeader(id: Id, epoch: nat): Header {
    Header(id, epoch, 0, {0}, Some(1))
  }

  function VoteOf(id: Id, epoch: nat, candidate: Id): Ack
    requires id > 0
  {
    Ack(Header(id, epoch, 0, {id - 1}, None), candidate)
  }

  lemma Slots(m: nat, n: Node, x: Id)
    requires n.owner == Owner(m)
    ensures Served(n, x) == if IsVoter(m, x) then {x - 1} else {}
  {
    assert IsVoter(m, x) ==> n.owner[x - 1] == Some(x);
  }

  // --- what one node does ----------------------------------------------------------------

  lemma SameTable(m: nat, n: Node, h: Header)
    requires n.table == Table(m) && 1 <= h.sender <= m + 2 && h.configEpoch == 0 && n.currentEpoch <= h.currentEpoch
    ensures ProcessHeader(n, h) == n.(currentEpoch := h.currentEpoch)
  {
    InTable(m, h.sender);
    assert n.table[h.sender := n.table[h.sender]] == n.table;
  }

  /** A voter grants its vote to a slave with a new epoch. */
  lemma VoterVotes(m: nat, id: Id, last: nat, c: Id, epoch: nat)
    requires IsVoter(m, id) && IsSlave(m, c) && last < epoch
    ensures HandleRequest(Voter(m, id, last), SlaveHeader(c, epoch), true, false) ==
            (Voter(m, id, epoch), Some(VoteOf(id, epoch, c)))
  {
    var n := Voter(m, id, last);
    SameTable(m, n, SlaveHeader(c, epoch));
    var n1 := n.(currentEpoch := epoch);
    Slots(m, n1, id);
    InTable(m, c);
    InTable(m, id);
    assert Get(n1, c) == Info(0, false, Some(1), false) && Self(n1) == Info(0, true, None, false);
    assert forall j | 0 <= j < m :: EpochOfOwner(n1, j) == 0;
  }

  lemma SlaveFacts(m: nat, n: Node)
    requires n.table == Table(m) && n.owner == Owner(m) && IsSlave(m, n.id)
    ensures CanFailOver(n) && HeaderOf(n) == SlaveHeader(n.id, n.currentEpoch)
  {
    InTable(m, n.id);
    InTable(m, 1);
    Slots(m, n, 1);
  }

  lemma SlaveIgnores(m: nat, n: Node, h: Header)
    requires IsSlave(m, n.id) && n.table == Table(m) && n.currentEpoch <= h.currentEpoch
    requires IsSlave(m, h.sender) && h == SlaveHeader(h.sender, h.currentEpoch)
    ensures HandleRequest(n, h, true, false) == (n.(currentEpoch := h.currentEpoch), None)
  {
    SameTable(m, n, h);
  }

  /** The candidate after it has counted `count` ACKs, those of `voters` if it is waiting for votes */
  function AfterAcks(n: Node, count: nat, voters: set<Id>): (n': Node)
    ensures n'.authEpoch == n.authEpoch && n'.currentEpoch == n.currentEpoch
  {
    if Waiting(n) then n.(authCount := n.authCount + count, counted := n.counted + voters)
    else n.(authCount := n.authCount + count, stray := n.stray + count)
  }

  lemma AckCounts(m: nat, n: Node, x: Id)
    requires n.table == Table(m) && n.owner == Owner(m) && IsVoter(m, x) && n.authEpoch == n.currentEpoch
    ensures HandleAck(n, VoteOf(x, n.authEpoch, n.id).hdr) == AfterAcks(n, 1, {x})
  {
    var h := VoteOf(x, n.authEpoch, n.id).hdr;
    SameTable(m, n, h);
    assert n.(currentEpoch := h.currentEpoch) == n;
    Slots(m, n, x);
  }

  // --- the network while everyone still has the initial tables -------------------------------

  ghost predicate Settled(m: nat, s: Network) {
    && m >= 1 && Reachable(s, Elect(m)) && s.nodes.Keys == Range(1, m + 3)
    && forall i | i in s.nodes :: Plain(m, i, s.nodes[i])
  }

  ghost predicate Plain(m: nat, i: Id, n: Node) {
    n.id == i && n.table == Table(m) && n.owner == Owner(m) && n.size == m
  }

  lemma SettledAgrees(m: nat, s: Network)
    requires Settled(m, s)
    ensures ViewsAgree(s, Elect(m))
  {
    RangeSize(1, m + 1);
    forall i, x | i in s.nodes && Get(s.nodes[i], x).master
      ensures x in Masters(m)
    {
      assert Plain(m, i, s.nodes[i]);
    }
  }

  // One node of a settled network moves on.
  ghost predicate Moves(m: nat, s: Network, s': Network, i: Id, n: Node) {
    Settled(m, s) && Settled(m, s') && i in s.nodes && s'.nodes == s.nodes[i := n] && s'.winners == s.winners
  }

  lemma StepMoves(m: nat, s: Network, step: Step, n: Node)
    requires Settled(m, s) && Enabled(s, step) && Apply(s, step).nodes == s.nodes[step.i := n]
    requires Plain(m, step.i, n) && !step.Win?
    ensures Moves(m, s, Apply(s, step), step.i, n)
  {
    SettledAgrees(m, s);
    Extend(s, Elect(m), step);
    StillSettled(m, s, Apply(s, step), step.i, n);
    WinnersSame(s, step);
  }

  lemma StillSettled(m: nat, s: Network, s': Network, i: Id, n: Node)
    requires Settled(m, s) && Reachable(s', Elect(m)) && i in s.nodes && s'.nodes == s.nodes[i := n] && Plain(m, i, n)
    ensures Settled(m, s')
  {
    assert s'.nodes.Keys == s.nodes.Keys;
  }

  lemma WinnersSame(s: Network, step: Step)
    requires Enabled(s, step) && !step.Win?
    ensures Apply(s, step).winners == s.winners
  {
  }

  lemma Begins(m: nat, s: Network, i: Id) returns (s': Network)
    requires Settled(m, s) && IsSlave(m, i) && !s.nodes[i].authSent
    ensures Moves(m, s, s', i, StartElection(s.nodes[i])) && s'.acks == s.acks
    ensures s'.messages == s.messages + {Request(SlaveHeader(i, s.nodes[i].currentEpoch + 1), true)}
  {
    assert Plain(m, i, s.nodes[i]);
    SlaveFacts(m, s.nodes[i]);
    SlaveFacts(m, StartElection(s.nodes[i]));
    StepMoves(m, s, Start(i, true), StartElection(s.nodes[i]));
    s' := Apply(s, Start(i, true));
  }

  lemma Reschedules(m: nat, s: Network, i: Id) returns (s': Network)
    requires Settled(m, s) && IsSlave(m, i)
    ensures Moves(m, s, s', i, ScheduleElection(s.nodes[i])) && s'.messages == s.messages && s'.acks == s.acks
  {
    assert Plain(m, i, s.nodes[i]);
    SlaveFacts(m, s.nodes[i]);
    StepMoves(m, s, Schedule(i), ScheduleElection(s.nodes[i]));
    s' := Apply(s, Schedule(i));
  }

  // A slave hears of an epoch from a request that it does not vote on.
  lemma Hears(m: nat, s: Network, i: Id, c: Id, epoch: nat) returns (s': Network)
    requires Settled(m, s) && IsSlave(m, i) && IsSlave(m, c) && i != c
    requires Request(SlaveHeader(c, epoch), true) in s.messages && s.nodes[i].currentEpoch <= epoch
    ensures Moves(m, s, s', i, s.nodes[i].(currentEpoch := epoch)) && s'.messages == s.messages && s'.acks == s.acks
  {
    var step := Deliver(i, Request(SlaveHeader(c, epoch), true), false);
    assert Plain(m, i, s.nodes[i]);
    SlaveIgnores(m, s.nodes[i], SlaveHeader(c, epoch));
    s' := Apply(s, step);
    StepMoves(m, s, step, s.nodes[i].(currentEpoch := epoch));
  }

  lemma Votes(m: nat, s: Network, i: Id, last: nat, c: Id, epoch: nat) returns (s': Network)
    requires Settled(m, s) && IsVoter(m, i) && IsSlave(m, c) && s.nodes[i] == Voter(m, i, last) && last < epoch
    requires Request(SlaveHeader(c, epoch), true) in s.messages
    ensures Moves(m, s, s', i, Voter(m, i, epoch))
    ensures s'.messages == s.messages && s'.acks == s.acks + {VoteOf(i, epoch, c)}
  {
    VoterVotes(m, i, last, c, epoch);
    var step := Deliver(i, Request(SlaveHeader(c, epoch), true), false);
    s' := Apply(s, step);
    StepMoves(m, s, step, Voter(m, i, epoch));
  }

  lemma Counts(m: nat, s: Network, i: Id, x: Id, epoch: nat) returns (s': Network)
    requires Settled(m, s) && IsSlave(m, i) && IsVoter(m, x)
    requires VoteOf(x, epoch, i) in s.acks && epoch == s.nodes[i].authEpoch == s.nodes[i].currentEpoch
    ensures Moves(m, s, s', i, AfterAcks(s.nodes[i], 1, {x}))
    ensures s'.messages == s.messages && s'.acks == s.acks - {VoteOf(x, epoch, i)}
  {
    var step := DeliverAck(i, VoteOf(x, epoch, i));
    assert Plain(m, i, s.nodes[i]);
    AckCounts(m, s.nodes[i], x);
    s' := Apply(s, step);
    StepMoves(m, s, step, AfterAcks(s.nodes[i], 1, {x}));
  }

  // --- many voters -------------------------------------------------------------------------------

  /** A voter that has not voted in this epoch yet */
  ghost predicate Ready(m: nat, i: Id, n: Node, epoch: nat) {
    n.currentEpoch < epoch && n == Voter(m, i, n.currentEpoch)
  }

  ghost predicate AllReady(m: nat, s: Network, lo: nat, hi: nat, epoch: nat) {
    forall i | lo <= i < hi :: i in s.nodes && Ready(m, i, s.nodes[i], epoch)
  }

  /** The votes of lo..hi for this candidate are under way. */
  ghost predicate Underway(s: Network, lo: nat, hi: nat, c: Id, epoch: nat)
    requires lo > 0
  {
    forall i | lo <= i < hi :: VoteOf(i, epoch, c) in s.acks
  }

  /** All but the given nodes are as they were, and so is the record of winners. */
  ghost predicate Others(s: Network, s': Network, lo: nat, hi: nat) {
    && s'.winners == s.winners && s'.nodes.Keys == s.nodes.Keys
    && forall i | i in s.nodes && !(lo <= i < hi) :: s'.nodes[i] == s.nodes[i]
  }

  /** The voters lo..hi have voted for one candidate. */
  ghost predicate Voted(m: nat, s: Network, s': Network, lo: nat, hi: nat, c: Id, epoch: nat)
    requires lo > 0
  {
    && s'.messages == s.messages && Others(s, s', lo, hi)
    && s.acks <= s'.acks && Underway(s', lo, hi, c, epoch)
    && forall i | lo <= i < hi :: i in s'.nodes && s'.nodes[i] == Voter(m, i, epoch)
  }

  lemma VotedMore(m: nat, s: Network, s1: Network, s': Network, lo: nat, x: nat, c: Id, epoch: nat)
    requires 1 <= lo <= x && Voted(m, s, s1, lo, x, c, epoch) && x in s1.nodes
    requires s'.nodes == s1.nodes[x := Voter(m, x, epoch)] && s'.winners == s1.winners
    requires s'.messages == s1.messages && s'.acks == s1.acks + {VoteOf(x, epoch, c)}
    ensures Voted(m, s, s', lo, x + 1, c, epoch)
  {
  }

  lemma {:induction false} VoteRange(m: nat, s: Network, lo: nat, hi: nat, c: Id, epoch: nat) returns (s': Network)
    requires Settled(m, s) && 1 <= lo <= hi <= m + 1 && IsSlave(m, c) && AllReady(m, s, lo, hi, epoch)
    requires Request(SlaveHeader(c, epoch), true) in s.messages
    ensures Settled(m, s') && Voted(m, s, s', lo, hi, c, epoch)
    decreases hi
  {
    if lo == hi {
      s' := s;
    } else {
      var x := hi - 1;
      var s1 := VoteRange(m, s, lo, x, c, epoch);
      assert Ready(m, x, s.nodes[x], epoch) && s1.nodes[x] == s.nodes[x];
      s' := Votes(m, s1, x, s.nodes[x].currentEpoch, c, epoch);
      VotedMore(m, s, s1, s', lo, x, c, epoch);
    }
  }

  /** A candidate has counted the votes of lo..hi. */
  ghost predicate Counted(s: Network, s': Network, lo: nat, hi: nat, c: Id) {
    && s'.messages == s.messages && Others(s, s', c, c + 1)
    && lo <= hi && c in s.nodes && s'.nodes[c] == AfterAcks(s.nodes[c], hi - lo, Range(lo, hi))
    && forall a | a in s.acks && (a.candidate != c || a.hdr.sender >= hi) :: a in s'.acks
  }

  lemma CountedMore(s: Network, s1: Network, s': Network, lo: nat, x: nat, c: Id, epoch: nat)
    requires 1 <= lo <= x && Counted(s, s1, lo, x, c)
    requires s'.nodes == s1.nodes[c := AfterAcks(s1.nodes[c], 1, {x})] && s'.winners == s1.winners
    requires s'.messages == s1.messages && s'.acks == s1.acks - {VoteOf(x, epoch, c)}
    ensures Counted(s, s', lo, x + 1, c)
  {
    assert Range(lo, x + 1) == Range(lo, x) + {x};
    OneMore(s.nodes[c], x - lo, Range(lo, x), x);
  }

  lemma {:induction false} CountRange(m: nat, s: Network, lo: nat, hi: nat, c: Id, epoch: nat) returns (s': Network)
    requires Settled(m, s) && 1 <= lo <= hi <= m + 1 && IsSlave(m, c) && Underway(s, lo, hi, c, epoch)
    requires epoch == s.nodes[c].authEpoch == s.nodes[c].currentEpoch
    ensures Settled(m, s') && Counted(s, s', lo, hi, c)
    decreases hi
  {
    if lo == hi {
      s' := s;
      NoneCounted(s.nodes[c], lo);
    } else {
      var x := hi - 1;
      var s1 := CountRange(m, s, lo, x, c, epoch);
      StillUnderway(s, s1, lo, x, c, epoch);
      s' := Counts(m, s1, c, x, epoch);
      CountedMore(s, s1, s', lo, x, c, epoch);
    }
  }

  lemma StillUnderway(s: Network, s': Network, lo: nat, x: nat, c: Id, epoch: nat)
    requires 1 <= lo <= x && Counted(s, s', lo, x, c) && VoteOf(x, epoch, c) in s.acks
    ensures VoteOf(x, epoch, c) in s'.acks && c in s'.nodes
    ensures s'.nodes[c].authEpoch == s.nodes[c].authEpoch && s'.nodes[c].currentEpoch == s.nodes[c].currentEpoch
  {
  }

  lemma NoneCounted(n: Node, lo: nat)
    ensures AfterAcks(n, 0, Range(lo, lo)) == n
  {
    assert Range(lo, lo) == {};
  }

  lemma OneMore(n: Node, count: nat, voters: set<Id>, x: Id)
    ensures AfterAcks(AfterAcks(n, count, voters), 1, {x}) == AfterAcks(n, count + 1, voters + {x})
  {
    assert n.counted + voters + {x} == n.counted + (voters + {x});
  }

  // --- the run -------------------------------------------------------------------------------------

  lemma Beginning(m: nat) returns (s: Network)
    requires m >= 1
    ensures Settled(m, s) && s.messages == {} && s.acks == {} && s.winners == {}
    ensures AllReady(m, s, 1, m + 1, 1)
    ensures s.nodes[m + 1] == Candidate(m, m + 1, 0, false, {}, 0)
    ensures s.nodes[m + 2] == Candidate(m, m + 2, 0, false, {}, 0)
  {
    var nodes := map i | i in Range(1, m + 3) :: FirstState(m, i);
    s := Network(nodes, {}, {}, {}, {});
    forall i | i in nodes
      ensures AtRest(i, nodes[i])
    {
      AtRestFirst(m, i);
    }
    assert EndsIn([s], [], Elect(m), s);
    forall i: Id | 1 <= i < m + 3
      ensures i in nodes
    {
      InRange(1, i, m + 3);
    }
  }

  function FirstState(m: nat, i: Id): Node {
    if i <= m then Voter(m, i, 0) else Candidate(m, i, 0, false, {}, 0)
  }

  lemma AtRestFirst(m: nat, i: Id)
    ensures AtRest(i, FirstState(m, i))
  {
    forall x | x in Table(m)
      ensures Table(m)[x].configEpoch == 0
    {
      InTable(m, x);
    }
  }

  /** Where the run goes in a few words: who has voted last when, and where the two candidates stand. */
  ghost predicate At(m: nat, s: Network, a: Node, b: Node, epoch: nat) {
    && Settled(m, s) && s.winners == {} && AllReady(m, s, 1, m + 1, epoch)
    && m + 1 in s.nodes && m + 2 in s.nodes && s.nodes[m + 1] == a && s.nodes[m + 2] == b
  }

  // Node m + 1 asks for votes in epoch 1 and gets some, which stay under way.
  lemma FirstElection(m: nat, k: nat) returns (s: Network)
    requires 1 <= m && k <= m
    ensures At(m, s, Candidate(m, m + 1, 1, true, {}, 0), Candidate(m, m + 2, 0, false, {}, 0), 2)
    ensures Underway(s, 1, k + 1, m + 1, 1) && Request(SlaveHeader(m + 1, 1), true) in s.messages
  {
    var s0 := Beginning(m);
    var s1 := Begins(m, s0, m + 1);
    StillReady(m, s0, s1, m + 1, s1.nodes[m + 1], 1, 1);
    s := VoteRange(m, s1, 1, k + 1, m + 1, 1);
    ReadyAgain(m, s1, s, k + 1, m + 1, 1);
    assert s.nodes[m + 1] == s1.nodes[m + 1] && s.nodes[m + 2] == s1.nodes[m + 2];
  }

  /** Those who have voted and those who have not are ready for the next epoch. */
  lemma ReadyAgain(m: nat, s: Network, s': Network, hi: nat, c: Id, epoch: nat)
    requires AllReady(m, s, 1, m + 1, epoch) && Voted(m, s, s', 1, hi, c, epoch)
    ensures AllReady(m, s', 1, m + 1, epoch + 1)
  {
    forall i | 1 <= i < m + 1
      ensures i in s'.nodes && Ready(m, i, s'.nodes[i], epoch + 1)
    {
      assert Ready(m, i, s.nodes[i], epoch);
    }
  }

  /** Nodes below m + 1 are as ready as they were. */
  lemma StillReady(m: nat, s: Network, s': Network, c: Id, n: Node, lo: nat, epoch: nat)
    requires AllReady(m, s, lo, m + 1, epoch) && c > m && s'.nodes == s.nodes[c := n]
    ensures AllReady(m, s', lo, m + 1, epoch)
  {
  }

  // It schedules another attempt and counts them before it asks again.
  lemma StrayAcks(m: nat, k: nat) returns (s: Network)
    requires 1 <= m && k <= m
    ensures At(m, s, Candidate(m, m + 1, 1, false, {}, k), Candidate(m, m + 2, 0, false, {}, 0), 2)
    ensures Request(SlaveHeader(m + 1, 1), true) in s.messages
  {
    var s0 := FirstElection(m, k);
    var s1 := Reschedules(m, s0, m + 1);
    StillReady(m, s0, s1, m + 1, s1.nodes[m + 1], 1, 2);
    s := CountStrays(m, s1, k, Candidate(m, m + 2, 0, false, {}, 0));
  }

  lemma CountStrays(m: nat, s: Network, k: nat, b: Node) returns (s': Network)
    requires At(m, s, Candidate(m, m + 1, 1, false, {}, 0), b, 2) && k <= m && Underway(s, 1, k + 1, m + 1, 1)
    ensures At(m, s', Candidate(m, m + 1, 1, false, {}, k), b, 2) && s'.messages == s.messages
  {
    s' := CountRange(m, s, 1, k + 1, m + 1, 1);
    ReadyAside(m, s, s', m + 1, 2);
  }

  lemma ReadyAside(m: nat, s: Network, s': Network, c: Id, epoch: nat)
    requires AllReady(m, s, 1, m + 1, epoch) && c > m && Others(s, s', c, c + 1)
    ensures AllReady(m, s', 1, m + 1, epoch)
  {
    forall i | 1 <= i < m + 1
      ensures i in s'.nodes && Ready(m, i, s'.nodes[i], epoch)
    {
      assert Ready(m, i, s.nodes[i], epoch);
    }
  }

  // It asks for votes in epoch 2, and so does the other slave.
  lemma BothAsk(m: nat, k: nat) returns (s: Network)
    requires 1 <= m && k <= m
    ensures At(m, s, Candidate(m, m + 1, 2, true, {}, k), Candidate(m, m + 2, 2, true, {}, 0), 2)
    ensures Request(SlaveHeader(m + 1, 2), true) in s.messages && Request(SlaveHeader(m + 2, 2), true) in s.messages
  {
    var s0 := StrayAcks(m, k);
    var s1 := Begins(m, s0, m + 1);
    StillReady(m, s0, s1, m + 1, s1.nodes[m + 1], 1, 2);
    var s2 := Hears(m, s1, m + 2, m + 1, 1);
    StillReady(m, s1, s2, m + 2, s2.nodes[m + 2], 1, 2);
    s := Begins(m, s2, m + 2);
    StillReady(m, s2, s, m + 2, s.nodes[m + 2], 1, 2);
    assert s.nodes[m + 1] == Candidate(m, m + 1, 2, true, {}, k);
    assert s.nodes[m + 2] == Candidate(m, m + 2, 2, true, {}, 0);
  }

  ghost predicate Stand(m: nat, s: Network, a: Node, b: Node) {
    && Settled(m, s) && s.winners == {}
    && m + 1 in s.nodes && m + 2 in s.nodes && s.nodes[m + 1] == a && s.nodes[m + 2] == b
  }

  // The other slave gets q votes, and node m + 1 the rest.
  lemma BothGetVotes(m: nat, k: nat, q: nat) returns (s: Network)
    requires 1 <= m && k <= m && q <= m
    ensures Stand(m, s, Candidate(m, m + 1, 2, true, {}, k), Candidate(m, m + 2, 2, true, {}, 0))
    ensures Underway(s, 1, q + 1, m + 2, 2) && Underway(s, q + 1, m + 1, m + 1, 2)
  {
    var s0 := BothAsk(m, k);
    var s1 := VoteRange(m, s0, 1, q + 1, m + 2, 2);
    forall i | q + 1 <= i < m + 1
      ensures i in s1.nodes && Ready(m, i, s1.nodes[i], 2)
    {
      assert Ready(m, i, s0.nodes[i], 2);
    }
    s := VoteRange(m, s1, q + 1, m + 1, m + 1, 2);
  }

  lemma BothCount(m: nat, k: nat, q: nat) returns (s: Network)
    requires 1 <= m && k <= m && q <= m
    ensures Stand(m, s, Candidate(m, m + 1, 2, true, Range(q + 1, m + 1), k),
                  Candidate(m, m + 2, 2, true, Range(1, q + 1), 0))
  {
    var s0 := BothGetVotes(m, k, q);
    var s1 := CountAll(m, s0, 1, q + 1, m + 2, 0);
    StayUnderway(s0, s1, 1, q + 1, m + 2, q + 1, m + 1, m + 1, 2);
    s := CountAll(m, s1, q + 1, m + 1, m + 1, k);
  }

  lemma CountAll(m: nat, s: Network, lo: nat, hi: nat, c: Id, k: nat) returns (s': Network)
    requires Settled(m, s) && 1 <= lo <= hi <= m + 1 && IsSlave(m, c) && Underway(s, lo, hi, c, 2)
    requires c in s.nodes && s.nodes[c] == Candidate(m, c, 2, true, {}, k)
    ensures Settled(m, s') && Counted(s, s', lo, hi, c) && s'.nodes[c] == Candidate(m, c, 2, true, Range(lo, hi), k)
  {
    s' := CountRange(m, s, lo, hi, c, 2);
    Tally(m, c, lo, hi, k);
  }

  lemma Tally(m: nat, c: Id, lo: nat, hi: nat, k: nat)
    requires lo <= hi
    ensures AfterAcks(Candidate(m, c, 2, true, {}, k), hi - lo, Range(lo, hi)) ==
            Candidate(m, c, 2, true, Range(lo, hi), k)
  {
    RangeSize(lo, hi);
    assert {} + Range(lo, hi) == Range(lo, hi);
  }

  lemma StayUnderway(s: Network, s': Network, lo: nat, hi: nat, c: Id, lo': nat, hi': nat, c': Id, epoch: nat)
    requires Counted(s, s', lo, hi, c) && c' != c && lo' > 0 && Underway(s, lo', hi', c', epoch)
    ensures Underway(s', lo', hi', c', epoch)
  {
    forall i | lo' <= i < hi'
      ensures VoteOf(i, epoch, c') in s'.acks
    {
      assert VoteOf(i, epoch, c').candidate == c';
    }
  }

  ghost predicate TwoWinners(s: Network, strays: nat) {
    exists v, w | v in s.winners && w in s.winners ::
      v.epoch == w.epoch && v.candidate != w.candidate && v.stray + w.stray == strays
  }

  lemma OneHasWon(m: nat, k: nat, q: nat) returns (s': Network)
    requires 1 <= m && k <= m && q == Quorum(m)
    ensures Reachable(s', Elect(m)) && ViewsAgree(s', Elect(m)) && m + 1 in s'.nodes
    ensures s'.nodes[m + 1] == Candidate(m, m + 1, 2, true, Range(q + 1, m + 1), k)
    ensures Winner(m + 2, 2, Range(1, q + 1), 0) in s'.winners
  {
    var s := BothCount(m, k, q);
    RangeSize(1, q + 1);
    s' := FirstWins(m, s, m + 2, Range(1, q + 1), 0);
  }

  lemma FirstWins(m: nat, s: Network, i: Id, voters: set<Id>, k: nat) returns (s': Network)
    requires Settled(m, s) && IsSlave(m, i) && i in s.nodes && |voters| + k >= Quorum(m)
    requires s.nodes[i] == Candidate(m, i, 2, true, voters, k)
    ensures Reachable(s', Elect(m)) && ViewsAgree(s', Elect(m)) && Winner(i, 2, voters, k) in s'.winners
    ensures s'.nodes.Keys == s.nodes.Keys && forall j | j in s.nodes && j != i :: s'.nodes[j] == s.nodes[j]
  {
    SettledAgrees(m, s);
    Quorate(m, i, voters, k, s.nodes[i]);
    s' := Wins(m, s, i);
    OthersAgree(m, s, s', i);
  }

  lemma Quorate(m: nat, i: Id, voters: set<Id>, k: nat, n: Node)
    requires IsSlave(m, i) && n == Candidate(m, i, 2, true, voters, k) && |voters| + k >= Quorum(m)
    ensures CanFailOver(n) && HasQuorum(n) && !n.won && !Waiting(TakeOver(n))
  {
    SlaveFacts(m, n);
  }

  lemma Wins(m: nat, s: Network, i: Id) returns (s': Network)
    requires Reachable(s, Elect(m)) && ViewsAgree(s, Elect(m)) && i in s.nodes
    requires CanFailOver(s.nodes[i]) && HasQuorum(s.nodes[i]) && !s.nodes[i].won
    ensures Reachable(s', Elect(m)) && s'.nodes == s.nodes[i := TakeOver(s.nodes[i])]
    ensures var n := s.nodes[i]; s'.winners == s.winners + {Winner(i, n.authEpoch, n.counted, n.stray)}
  {
    Extend(s, Elect(m), Win(i));
    s' := Apply(s, Win(i));
  }

  /** A node that has won waits no longer, so its new table does not matter. */
  lemma OthersAgree(m: nat, s: Network, s': Network, i: Id)
    requires ViewsAgree(s, Elect(m)) && i in s'.nodes && !Waiting(s'.nodes[i]) && s'.nodes == s.nodes[i := s'.nodes[i]]
    ensures ViewsAgree(s', Elect(m))
  {
  }

  /**
    For every number of masters: two slaves take over for epoch 2 although all views agree on the
    electorate throughout, with no more stray ACKs than ElectionSafety must exclude.
  */
  lemma StrayAcksElectTwo(m: nat)
    requires m >= 1
    ensures forall e :: |Elect(m)(e)| == m
    ensures exists s: Network :: Reachable(s, Elect(m)) && TwoWinners(s, StraysNeeded(m))
  {
    var k, q := StraysNeeded(m), Quorum(m);
    RangeSize(1, m + 1);
    RangeSize(1, q + 1);
    RangeSize(q + 1, m + 1);
    var s := OneHasWon(m, k, q);
    Quorate(m, m + 1, Range(q + 1, m + 1), k, s.nodes[m + 1]);
    var s' := Wins(m, s, m + 1);
    AreTwo(s', Winner(m + 2, 2, Range(1, q + 1), 0), Winner(m + 1, 2, Range(q + 1, m + 1), k));
  }

  lemma AreTwo(s: Network, v: Winner, w: Winner)
    requires v in s.winners && w in s.winners && v.epoch == w.epoch && v.candidate != w.candidate
    ensures TwoWinners(s, v.stray + w.stray)
  {
  }
}
