/**
  Redis Cluster as a whole: nodes and the messages between them, and what holds in
  every state of every run.

  The network keeps all pings, updates and vote requests forever and may deliver any
  of them any number of times, in any order, or never.  A vote (FAILOVER_AUTH_ACK) is
  delivered at most once.  `votes` and `winners` record what has happened so far.
*/
module ClusterNetwork {
  import opened Options
  import opened ClusterNode

  datatype Vote = Vote(voter: Id, epoch: nat, candidate: Id)
  datatype Winner = Winner(candidate: Id, epoch: nat, backers: set<Id>, stray: nat)

  datatype Network = Network(
    nodes: map<Id, Node>,
    messages: set<Message>,
    acks: set<Ack>,
    votes: set<Vote>,
    winners: set<Winner>)

  datatype Step =
    | SendPing(i: Id)
    | SendUpdate(i: Id, about: Id)
    | Deliver(i: Id, m: Message, lately: bool)
    | DeliverAck(i: Id, a: Ack)
    | Schedule(i: Id)
    | Start(i: Id, force: bool)
    | Win(i: Id)
    | Bump(i: Id)
    | Observe(i: Id, table: map<Id, Info>, owner: seq<Option<Id>>, importing: set<Slot>, size: nat)

  function Receive(n: Node, m: Message, lately: bool): (Node, Option<Ack>) {
    match m
    case Ping(h) => (HandlePing(n, h), None)
    case Update(h, about, epoch, slots) => (HandleUpdate(n, h, about, epoch, slots), None)
    case Request(h, force) => HandleRequest(n, h, force, lately)
  }

  function With(s: Network, i: Id, n: Node): Network {
    s.(nodes := s.nodes[i := n])
  }

  /** May this step be taken here? */
  ghost predicate Enabled(s: Network, step: Step) {
    step.i in s.nodes && var n := s.nodes[step.i];
    match step
    case Deliver(i, m, _) => m in s.messages && m.hdr.sender != i
    case DeliverAck(i, a) => a in s.acks && a.candidate == i
    case Schedule(i) => CanFailOver(n)
    case Start(i, _) => CanFailOver(n) && !n.authSent
    case Win(i) => CanFailOver(n) && HasQuorum(n)
    case Observe(i, table, owner, _, _) => SameEpochs(n.table, table)
    case _ => true
  }

  /**
    Failure flags, roles set by an administrator, the slot table and the cluster size may be
    changed from outside a handler; epochs may not.
  */
  predicate SameEpochs(t: map<Id, Info>, t': map<Id, Info>) {
    forall x | x in t' :: (if x in t then t[x].configEpoch else 0) == t'[x].configEpoch
  }

  ghost function Apply(s: Network, step: Step): Network
    requires Enabled(s, step)
  {
    var n := s.nodes[step.i];
    match step
    case SendPing(i) => s.(messages := s.messages + {Ping(HeaderOf(n))})
    case SendUpdate(i, x) =>
      s.(messages := s.messages + {Update(HeaderOf(n), x, Get(n, x).configEpoch, Served(n, x))})
    case Deliver(i, m, lately) =>
      var (n', ack) := Receive(n, m, lately);
      if ack.None? then With(s, i, n')
      else With(s, i, n').(acks := s.acks + {ack.value},
                           votes := s.votes + {Vote(i, ack.value.hdr.currentEpoch, ack.value.candidate)})
    case DeliverAck(i, a) => With(s, i, HandleAck(n, a.hdr)).(acks := s.acks - {a})
    case Schedule(i) => With(s, i, ScheduleElection(n))
    case Start(i, force) =>
      var n' := StartElection(n);
      With(s, i, n').(messages := s.messages + {Request(HeaderOf(n'), force)})
    case Win(i) =>
      With(s, i, TakeOver(n)).(winners := s.winners +
        if n.won then {} else {Winner(i, n.authEpoch, n.counted, n.stray)})
    case Bump(i) => With(s, i, BumpWithoutConsensus(n))
    case Observe(i, table, owner, importing, size) =>
      With(s, i, n.(table := table, owner := owner, importing := importing, size := size))
  }

  ghost predicate Init(s: Network) {
    && s.messages == {} && s.acks == {} && s.votes == {} && s.winners == {}
    && forall i | i in s.nodes :: AtRest(i, s.nodes[i])
  }

  /** A node that takes part in no election yet. */
  ghost predicate AtRest(i: Id, n: Node) {
    && n.id == i && n.lastVoteEpoch <= n.currentEpoch && n.authEpoch <= n.currentEpoch
    && n.authCount == 0 && !n.authSent && !n.won && n.counted == {} && n.stray == 0
    && Bounded(n)
  }

  // --- the epoch bound ------------------------------------------------------------------

  /** currentEpoch is at least every configEpoch in the table. */
  ghost predicate Bounded(n: Node) {
    forall x | x in n.table :: n.table[x].configEpoch <= n.currentEpoch
  }

  ghost predicate MessageBounded(m: Message) {
    && m.hdr.configEpoch <= m.hdr.currentEpoch
    && (m.Update? ==> m.epoch <= m.hdr.currentEpoch)
    && (m.Request? ==> m.hdr.configEpoch < m.hdr.currentEpoch)
  }

  /** What most handlers leave alone: the candidate's fields.  Epochs never go back. */
  ghost predicate OnlyEpochsAndTables(n: Node, n': Node) {
    && n'.id == n.id && n'.currentEpoch >= n.currentEpoch && n'.lastVoteEpoch == n.lastVoteEpoch
    && n'.authEpoch == n.authEpoch && n'.authCount == n.authCount && n'.authSent == n.authSent
    && n'.counted == n.counted && n'.stray == n.stray && n'.won == n.won
  }

  lemma HeaderBounded(n: Node)
    requires Bounded(n)
    ensures HeaderOf(n).configEpoch <= HeaderOf(n).currentEpoch == n.currentEpoch && HeaderOf(n).sender == n.id
  {
  }

  lemma UpdateSlotsFrame(n: Node, x: Id, epoch: nat, claimed: set<Slot>)
    requires Bounded(n)
    ensures OnlyEpochsAndTables(n, UpdateSlots(n, x, epoch, claimed)) && Bounded(UpdateSlots(n, x, epoch, claimed))
  {
  }

  lemma HeaderFrame(n: Node, h: Header)
    requires Bounded(n) && h.configEpoch <= h.currentEpoch
    ensures OnlyEpochsAndTables(n, ProcessHeader(n, h)) && Bounded(ProcessHeader(n, h))
  {
  }

  lemma SwitchRoleFrame(n: Node, h: Header)
    requires Bounded(n)
    ensures OnlyEpochsAndTables(n, SwitchRole(n, h)) && Bounded(SwitchRole(n, h))
  {
  }

  lemma CollisionFrame(n: Node, h: Header)
    requires Bounded(n)
    ensures OnlyEpochsAndTables(n, ResolveCollision(n, h)) && Bounded(ResolveCollision(n, h))
  {
  }

  lemma PingFrame(n: Node, h: Header)
    requires Bounded(n) && h.configEpoch <= h.currentEpoch
    ensures OnlyEpochsAndTables(n, HandlePing(n, h)) && Bounded(HandlePing(n, h))
  {
    if h.sender in n.table {
      var n0 := ProcessHeader(n, h);
      HeaderFrame(n, h);
      var n1 := SwitchRole(n0, h);
      SwitchRoleFrame(n0, h);
      UpdateSlotsFrame(n1, h.sender, h.configEpoch, h.slots);
      var n2 := if Get(n1, h.sender).master && Served(n1, h.sender) != h.slots
                then UpdateSlots(n1, h.sender, h.configEpoch, h.slots) else n1;
      CollisionFrame(n2, h);
    }
  }

  lemma UpdateFrame(n: Node, h: Header, about: Id, epoch: nat, slots: set<Slot>)
    requires Bounded(n) && h.configEpoch <= h.currentEpoch && epoch <= h.currentEpoch
    ensures OnlyEpochsAndTables(n, HandleUpdate(n, h, about, epoch, slots))
    ensures Bounded(HandleUpdate(n, h, about, epoch, slots))
  {
    if h.sender in n.table {
      var n1 := ProcessHeader(n, h);
      HeaderFrame(n, h);
      var n2 := SetAsMaster(n1, about);
      if about in n1.table && Get(n1, about).configEpoch < epoch {
        UpdateSlotsFrame(Put(n2, about, Get(n2, about).(configEpoch := epoch)), about, epoch, slots);
      }
    }
  }

  // --- the invariant --------------------------------------------------------------------

  ghost predicate NodeOk(i: Id, n: Node) {
    && n.id == i && Bounded(n)
    && n.lastVoteEpoch <= n.currentEpoch && n.authEpoch <= n.currentEpoch
    && n.authCount == |n.counted| + n.stray && (!n.authSent ==> n.counted == {})
  }

  ghost predicate NodesOk(s: Network) {
    forall i | i in s.nodes :: NodeOk(i, s.nodes[i])
  }

  ghost predicate MessageOk(s: Network, m: Message) {
    && MessageBounded(m) && m.hdr.sender in s.nodes
    && (m.Request? ==> m.hdr.currentEpoch <= s.nodes[m.hdr.sender].authEpoch)
  }

  ghost predicate MessagesOk(s: Network) {
    forall m | m in s.messages :: MessageOk(s, m)
  }

  /** A voter has voted at most once per epoch, and only for elections that were started. */
  ghost predicate VoteOk(s: Network, v: Vote) {
    && v.voter in s.nodes && v.epoch <= s.nodes[v.voter].lastVoteEpoch
    && v.candidate in s.nodes && v.epoch <= s.nodes[v.candidate].authEpoch
  }

  ghost predicate VotesOk(s: Network) {
    && (forall v | v in s.votes :: VoteOk(s, v))
    && (forall v, w | v in s.votes && w in s.votes :: v.voter == w.voter && v.epoch == w.epoch ==> v == w)
  }

  ghost predicate AckOk(s: Network, a: Ack) {
    && Vote(a.hdr.sender, a.hdr.currentEpoch, a.candidate) in s.votes
    && a.hdr.configEpoch <= a.hdr.currentEpoch
    && (a.candidate in s.nodes && s.nodes[a.candidate].authEpoch == a.hdr.currentEpoch ==>
          a.hdr.sender !in s.nodes[a.candidate].counted)
  }

  /** A vote that is still under way has not been counted, and is under way once. */
  ghost predicate AcksOk(s: Network) {
    && (forall a | a in s.acks :: AckOk(s, a))
    && (forall a, b | a in s.acks && b in s.acks ::
          a.hdr.sender == b.hdr.sender && a.hdr.currentEpoch == b.hdr.currentEpoch ==> a == b)
  }

  type Electorate = nat -> set<Id>

  /** The voters counted by a candidate voted for it in its current epoch. */
  ghost predicate CountedOk(s: Network, elect: Electorate) {
    forall i, x | i in s.nodes && x in s.nodes[i].counted ::
      Vote(x, s.nodes[i].authEpoch, i) in s.votes && x in elect(s.nodes[i].authEpoch)
  }

  ghost predicate WinnerOk(s: Network, elect: Electorate, w: Winner) {
    && (forall x | x in w.backers :: Vote(x, w.epoch, w.candidate) in s.votes && x in elect(w.epoch))
    && 2 * (|w.backers| + w.stray) > |elect(w.epoch)|
  }

  ghost predicate WinnersOk(s: Network, elect: Electorate) {
    forall w | w in s.winners :: WinnerOk(s, elect, w)
  }

  ghost predicate Inv(s: Network, elect: Electorate) {
    NodesOk(s) && MessagesOk(s) && VotesOk(s) && AcksOk(s) && CountedOk(s, elect) && WinnersOk(s, elect)
  }

  /**
    The electorate of an epoch: while a node waits for votes in epoch e, the masters with slots
    that it knows are among elect(e), and its cluster size is at least their number.
  */
  ghost predicate ViewsAgree(s: Network, elect: Electorate) {
    forall i | i in s.nodes && Waiting(s.nodes[i]) :: var n := s.nodes[i];
      && |elect(n.authEpoch)| <= n.size
      && forall x | Get(n, x).master && Served(n, x) != {} :: x in elect(n.authEpoch)
  }

  lemma InitInv(s: Network, elect: Electorate)
    requires Init(s)
    ensures Inv(s, elect)
  {
  }

  /** Replacing one node by a later version of it keeps what is known about messages, votes and winners. */
  lemma LaterNode(s: Network, s': Network, elect: Electorate, i: Id)
    requires MessagesOk(s) && VotesOk(s) && WinnersOk(s, elect) && i in s.nodes && i in s'.nodes
    requires s'.nodes == s.nodes[i := s'.nodes[i]]
    requires s'.nodes[i].lastVoteEpoch >= s.nodes[i].lastVoteEpoch && s'.nodes[i].authEpoch >= s.nodes[i].authEpoch
    requires s.messages <= s'.messages && forall m | m in s'.messages - s.messages :: MessageOk(s', m)
    requires s'.votes == s.votes && s'.winners == s.winners
    ensures MessagesOk(s') && VotesOk(s') && WinnersOk(s', elect)
  {
    forall m | m in s'.messages ensures MessageOk(s', m) {
      if m in s.messages {
        assert MessageOk(s, m);
      }
    }
    forall v | v in s'.votes ensures VoteOk(s', v) {
      assert VoteOk(s, v);
    }
    forall w | w in s'.winners ensures WinnerOk(s', elect, w) {
      assert WinnerOk(s, elect, w);
    }
  }

  /** The same election as before, with the same count. */
  ghost predicate SameCandidacy(n: Node, n': Node) {
    && n'.lastVoteEpoch >= n.lastVoteEpoch && n'.authEpoch == n.authEpoch && n'.counted == n.counted
  }

  /** A step that changes one node outside its election fields and adds bounded messages. */
  lemma QuietStep(s: Network, s': Network, elect: Electorate, i: Id)
    requires Inv(s, elect) && i in s.nodes && i in s'.nodes
    requires s'.nodes == s.nodes[i := s'.nodes[i]] && NodeOk(i, s'.nodes[i])
    requires SameCandidacy(s.nodes[i], s'.nodes[i])
    requires s.messages <= s'.messages && forall m | m in s'.messages - s.messages :: MessageOk(s', m)
    requires s'.acks == s.acks && s'.votes == s.votes && s'.winners == s.winners
    ensures Inv(s', elect)
  {
    LaterNode(s, s', elect, i);
    forall a | a in s'.acks ensures AckOk(s', a) {
      assert AckOk(s, a);
    }
  }

  // --- one lemma per kind of step ---------------------------------------------------------

  lemma SendPreserves(s: Network, elect: Electorate, step: Step)
    requires Inv(s, elect) && Enabled(s, step) && (step.SendPing? || step.SendUpdate?)
    ensures Inv(Apply(s, step), elect)
  {
    HeaderBounded(s.nodes[step.i]);
    assert s.nodes[step.i := s.nodes[step.i]] == s.nodes;
    QuietStep(s, Apply(s, step), elect, step.i);
  }

  lemma DeliverQuietly(s: Network, elect: Electorate, step: Step)
    requires Inv(s, elect) && Enabled(s, step) && step.Deliver? && !step.m.Request?
    ensures Inv(Apply(s, step), elect)
  {
    var n, h := s.nodes[step.i], step.m.hdr;
    assert MessageOk(s, step.m);
    if step.m.Ping? {
      PingFrame(n, h);
    } else {
      UpdateFrame(n, h, step.m.about, step.m.epoch, step.m.slots);
    }
    QuietStep(s, Apply(s, step), elect, step.i);
  }

  lemma LocalPreserves(s: Network, elect: Electorate, step: Step)
    requires Inv(s, elect) && Enabled(s, step) && (step.Bump? || step.Observe?)
    ensures Inv(Apply(s, step), elect)
  {
    QuietStep(s, Apply(s, step), elect, step.i);
  }

  lemma TakeOverFrame(n: Node)
    requires Bounded(n) && n.authEpoch <= n.currentEpoch
    ensures OnlyEpochsAndTables(n.(won := true), TakeOver(n)) && Bounded(TakeOver(n))
  {
  }

  lemma WinPreserves(s: Network, elect: Electorate, step: Step)
    requires Inv(s, elect) && Enabled(s, step) && step.Win? && ViewsAgree(s, elect)
    ensures Inv(Apply(s, step), elect)
  {
    var n, s' := s.nodes[step.i], Apply(s, step);
    TakeOverFrame(n);
    var mid := With(s, step.i, TakeOver(n));
    assert NodeOk(step.i, n);
    QuietStep(s, mid, elect, step.i);
    forall w | w in s'.winners ensures WinnerOk(s', elect, w) {
      if w in s.winners {
        assert WinnerOk(mid, elect, w);
      } else {
        assert Waiting(n);
      }
    }
    SameButWinners(mid, s', elect);
  }

  lemma SameButWinners(s: Network, s': Network, elect: Electorate)
    requires Inv(s, elect) && s' == s.(winners := s'.winners) && WinnersOk(s', elect)
    ensures Inv(s', elect)
  {
    assert forall m | m in s'.messages :: MessageOk(s, m);
    assert forall v | v in s'.votes :: VoteOk(s, v);
    assert forall a | a in s'.acks :: AckOk(s, a);
  }

  /** When an election is scheduled or started no voter has been counted for it. */
  lemma CandidatePreserves(s: Network, s': Network, elect: Electorate, i: Id)
    requires Inv(s, elect) && i in s.nodes && i in s'.nodes
    requires s'.nodes == s.nodes[i := s'.nodes[i]] && NodeOk(i, s'.nodes[i])
    requires s'.nodes[i].lastVoteEpoch >= s.nodes[i].lastVoteEpoch && s'.nodes[i].authEpoch >= s.nodes[i].authEpoch
    requires s'.nodes[i].counted == {}
    requires s.messages <= s'.messages && forall m | m in s'.messages - s.messages :: MessageOk(s', m)
    requires s'.acks == s.acks && s'.votes == s.votes && s'.winners == s.winners
    ensures Inv(s', elect)
  {
    LaterNode(s, s', elect, i);
    forall a | a in s'.acks ensures AckOk(s', a) {
      assert AckOk(s, a);
    }
  }

  lemma SchedulePreserves(s: Network, elect: Electorate, step: Step)
    requires Inv(s, elect) && Enabled(s, step) && step.Schedule?
    ensures Inv(Apply(s, step), elect)
  {
    CandidatePreserves(s, Apply(s, step), elect, step.i);
  }

  lemma StartPreserves(s: Network, elect: Electorate, step: Step)
    requires Inv(s, elect) && Enabled(s, step) && step.Start?
    ensures Inv(Apply(s, step), elect)
  {
    var n := s.nodes[step.i];
    HeaderBounded(n);
    CandidatePreserves(s, Apply(s, step), elect, step.i);
  }

  /** A vote is new: the voter has voted in no epoch as late as this one. */
  lemma RequestPreserves(s: Network, elect: Electorate, step: Step)
    requires Inv(s, elect) && Enabled(s, step) && step.Deliver? && step.m.Request?
    ensures Inv(Apply(s, step), elect)
  {
    var i, h := step.i, step.m.hdr;
    var n := s.nodes[i];
    assert MessageOk(s, step.m);
    HeaderFrame(n, h);
    var n1 := ProcessHeader(n, h);
    if h.sender !in n.table {
      assert s.nodes[i := n] == s.nodes;
      QuietStep(s, Apply(s, step), elect, i);
    } else if !GrantsVote(n1, h, step.m.force, step.lately) {
      QuietStep(s, Apply(s, step), elect, i);
    } else {
      VotePreserves(s, elect, step);
    }
  }

  lemma VotePreserves(s: Network, elect: Electorate, step: Step)
    requires Inv(s, elect) && Enabled(s, step) && step.Deliver? && step.m.Request?
    requires step.m.hdr.sender in s.nodes[step.i].table
    requires GrantsVote(ProcessHeader(s.nodes[step.i], step.m.hdr), step.m.hdr, step.m.force, step.lately)
    ensures Inv(Apply(s, step), elect)
  {
    var i, h := step.i, step.m.hdr;
    var n := s.nodes[i];
    assert MessageOk(s, step.m);
    HeaderFrame(n, h);
    var n1 := ProcessHeader(n, h);
    HeaderBounded(n1);
    var e := n1.currentEpoch;
    assert e == h.currentEpoch && n.lastVoteEpoch < e;
    var mid := With(s, i, n1.(lastVoteEpoch := e));
    QuietStep(s, mid, elect, i);
    assert forall w | w in s.votes && w.voter == i :: VoteOk(s, w);
    AddVote(mid, elect, Ack(HeaderOf(n1), h.sender));
    assert Apply(s, step) == WithVote(mid, Ack(HeaderOf(n1), h.sender));
  }

  function WithVote(s: Network, a: Ack): Network {
    s.(acks := s.acks + {a}, votes := s.votes + {Vote(a.hdr.sender, a.hdr.currentEpoch, a.candidate)})
  }

  lemma AddVote(s: Network, elect: Electorate, a: Ack)
    requires Inv(s, elect) && a.hdr.sender in s.nodes && a.candidate in s.nodes
    requires a.hdr.configEpoch <= a.hdr.currentEpoch <= s.nodes[a.hdr.sender].lastVoteEpoch
    requires a.hdr.currentEpoch <= s.nodes[a.candidate].authEpoch
    requires forall w | w in s.votes && w.voter == a.hdr.sender :: w.epoch < a.hdr.currentEpoch
    ensures Inv(WithVote(s, a), elect)
  {
    var s' := WithVote(s, a);
    assert forall b | b in s.acks && b.hdr.sender == a.hdr.sender :: AckOk(s, b);
    forall m | m in s'.messages ensures MessageOk(s', m) {
      assert MessageOk(s, m);
    }
    forall w | w in s.votes ensures VoteOk(s', w) {
      assert VoteOk(s, w);
    }
    forall b | b in s.acks ensures AckOk(s', b) {
      assert AckOk(s, b);
    }
    assert AckOk(s', a);
    forall w | w in s'.winners ensures WinnerOk(s', elect, w) {
      assert WinnerOk(s, elect, w);
    }
  }

  lemma DropAck(s: Network, elect: Electorate, a: Ack)
    requires Inv(s, elect)
    ensures Inv(s.(acks := s.acks - {a}), elect)
  {
    var s' := s.(acks := s.acks - {a});
    assert forall m | m in s'.messages :: MessageOk(s, m);
    assert forall v | v in s'.votes :: VoteOk(s, v);
    assert forall b | b in s'.acks :: AckOk(s, b);
    assert forall w | w in s'.winners :: WinnerOk(s, elect, w);
  }

  /** An ACK that is counted after the votes were asked for is a vote of this very election. */
  lemma AckIsCurrent(s: Network, elect: Electorate, a: Ack)
    requires Inv(s, elect) && ViewsAgree(s, elect) && a in s.acks && a.candidate in s.nodes
    requires Waiting(s.nodes[a.candidate]) && CountsAck(ProcessHeader(s.nodes[a.candidate], a.hdr), a.hdr)
    ensures var n := s.nodes[a.candidate];
      && a.hdr.currentEpoch == n.authEpoch && a.hdr.sender !in n.counted
      && a.hdr.sender in elect(n.authEpoch) && Vote(a.hdr.sender, n.authEpoch, a.candidate) in s.votes
  {
    var n, x := s.nodes[a.candidate], a.hdr.sender;
    assert AckOk(s, a) && VoteOk(s, Vote(x, a.hdr.currentEpoch, a.candidate));
    assert Served(ProcessHeader(n, a.hdr), x) == Served(n, x);
    assert Get(n, x).master;
  }

  lemma AckPreserves(s: Network, elect: Electorate, step: Step)
    requires Inv(s, elect) && Enabled(s, step) && step.DeliverAck? && ViewsAgree(s, elect)
    ensures Inv(Apply(s, step), elect)
  {
    var i, a, h, s' := step.i, step.a, step.a.hdr, Apply(s, step);
    var n, n' := s.nodes[i], HandleAck(s.nodes[i], step.a.hdr);
    assert AckOk(s, a) && NodeOk(i, n);
    DropAck(s, elect, a);
    var s1 := s.(acks := s.acks - {a});
    HeaderFrame(n, h);
    if h.sender !in n.table || !CountsAck(ProcessHeader(n, h), h) {
      QuietStep(s1, s', elect, i);
    } else if Waiting(n) {
      AckIsCurrent(s, elect, a);
      CountVoter(s1, s', elect, i, h.sender);
    } else {
      QuietStep(s1, s', elect, i);
    }
  }

  lemma CountVoter(s: Network, s': Network, elect: Electorate, i: Id, x: Id)
    requires Inv(s, elect) && i in s.nodes && i in s'.nodes
    requires s'.nodes == s.nodes[i := s'.nodes[i]] && NodeOk(i, s'.nodes[i])
    requires s'.nodes[i].lastVoteEpoch == s.nodes[i].lastVoteEpoch && s'.nodes[i].authEpoch == s.nodes[i].authEpoch
    requires s'.nodes[i].counted == s.nodes[i].counted + {x}
    requires x in elect(s.nodes[i].authEpoch) && Vote(x, s.nodes[i].authEpoch, i) in s.votes
    requires forall b | b in s.acks && b.hdr.sender == x :: b.hdr.currentEpoch != s.nodes[i].authEpoch
    requires s'.messages == s.messages && s'.acks == s.acks && s'.votes == s.votes && s'.winners == s.winners
    ensures Inv(s', elect)
  {
    LaterNode(s, s', elect, i);
    forall b | b in s'.acks ensures AckOk(s', b) {
      assert AckOk(s, b);
    }
  }

  lemma StepPreserves(s: Network, elect: Electorate, step: Step)
    requires Inv(s, elect) && Enabled(s, step) && ViewsAgree(s, elect)
    ensures Inv(Apply(s, step), elect)
  {
    match step
    case SendPing(_) => SendPreserves(s, elect, step);
    case SendUpdate(_, _) => SendPreserves(s, elect, step);
    case Deliver(_, m, _) =>
      if m.Request? {
        RequestPreserves(s, elect, step);
      } else {
        DeliverQuietly(s, elect, step);
      }
    case DeliverAck(_, _) => AckPreserves(s, elect, step);
    case Schedule(_) => SchedulePreserves(s, elect, step);
    case Start(_, _) => StartPreserves(s, elect, step);
    case Win(_) => WinPreserves(s, elect, step);
    case Bump(_) => LocalPreserves(s, elect, step);
    case Observe(_, _, _, _, _) => LocalPreserves(s, elect, step);
  }

  ghost predicate Recorded(s: Network, i: Id, e: nat) {
    exists w | w in s.winners :: w.candidate == i && w.epoch == e
  }

  /** A node that has won its election is on record. */
  ghost predicate WonOk(s: Network) {
    forall i | i in s.nodes && s.nodes[i].won && s.nodes[i].authSent :: Recorded(s, i, s.nodes[i].authEpoch)
  }

  /** Only TakeOver sets `won`, and it puts the winner on record. */
  lemma StepKeepsRecord(s: Network, step: Step)
    requires WonOk(s) && NodesOk(s) && Enabled(s, step)
    requires step.Deliver? ==> MessageOk(s, step.m)
    requires step.DeliverAck? ==> step.a.hdr.configEpoch <= step.a.hdr.currentEpoch
    ensures WonOk(Apply(s, step))
  {
    var i, s' := step.i, Apply(s, step);
    var n := s.nodes[i];
    assert NodeOk(i, n);
    forall k | k in s'.nodes && s'.nodes[k].won && s'.nodes[k].authSent
      ensures Recorded(s', k, s'.nodes[k].authEpoch)
    {
      if k == i {
        WonUnchanged(s, step);
      }
      if !step.Win? || k != i || n.won {
        assert Recorded(s, k, s'.nodes[k].authEpoch);
        var w :| w in s.winners && w.candidate == k && w.epoch == s'.nodes[k].authEpoch;
        assert w in s'.winners;
      } else {
        TakeOverFrame(n);
        assert Winner(i, n.authEpoch, n.counted, n.stray) in s'.winners;
      }
    }
  }

  lemma WonUnchanged(s: Network, step: Step)
    requires NodesOk(s) && Enabled(s, step)
    requires step.Deliver? ==> MessageOk(s, step.m)
    requires step.DeliverAck? ==> step.a.hdr.configEpoch <= step.a.hdr.currentEpoch
    ensures var n, n' := s.nodes[step.i], Apply(s, step).nodes[step.i];
      n'.won && n'.authSent ==> n.authSent && n'.authEpoch == n.authEpoch && (n.won || step.Win?)
  {
    var n := s.nodes[step.i];
    assert NodeOk(step.i, n);
    match step
    case Deliver(_, m, _) =>
      HeaderFrame(n, m.hdr);
      match m {
        case Ping(h) => PingFrame(n, h);
        case Update(h, about, epoch, slots) => UpdateFrame(n, h, about, epoch, slots);
        case Request(_, _) =>
      }
    case DeliverAck(_, a) => HeaderFrame(n, a.hdr);
    case Win(_) => TakeOverFrame(n);
    case _ =>
  }

  // --- whole runs -------------------------------------------------------------------------

  /** A run in which the views of candidates agree with the electorate of their epoch. */
  ghost predicate Run(states: seq<Network>, steps: seq<Step>, elect: Electorate) {
    && |states| == |steps| + 1 && Init(states[0])
    && forall k | 0 <= k < |steps| ::
      ViewsAgree(states[k], elect) && Enabled(states[k], steps[k]) && states[k + 1] == Apply(states[k], steps[k])
  }

  lemma {:induction false} RunInv(states: seq<Network>, steps: seq<Step>, elect: Electorate, k: nat)
    requires Run(states, steps, elect) && k < |states|
    ensures Inv(states[k], elect) && WonOk(states[k])
  {
    if k == 0 {
      InitInv(states[0], elect);
    } else {
      var s, step := states[k - 1], steps[k - 1];
      RunInv(states, steps, elect, k - 1);
      StepPreserves(s, elect, step);
      assert step.Deliver? ==> MessageOk(s, step.m);
      assert step.DeliverAck? ==> AckOk(s, step.a);
      StepKeepsRecord(s, step);
    }
  }

  /** Two sets of voters that together are more than the electorate share one. */
  lemma QuorumsIntersect(e: set<Id>, a: set<Id>, b: set<Id>)
    requires a <= e && b <= e && |a| + |b| > |e|
    ensures a * b != {}
  {
    if a * b == {} {
      SubsetSize(a + b, e);
    }
  }

  lemma SubsetSize(a: set<Id>, b: set<Id>)
    requires a <= b
    ensures |a| <= |b|
  {
    assert b == a + (b - a);
  }

  /** Winners of one epoch whose counted voters are together more than the electorate are the same node. */
  lemma BackersDecide(states: seq<Network>, steps: seq<Step>, elect: Electorate, k: nat, v: Winner, w: Winner)
    requires Run(states, steps, elect) && k < |states|
    requires v in states[k].winners && w in states[k].winners && v.epoch == w.epoch
    requires |v.backers| + |w.backers| > |elect(v.epoch)|
    ensures v.candidate == w.candidate
  {
    RunInv(states, steps, elect, k);
    var s := states[k];
    assert WinnerOk(s, elect, v) && WinnerOk(s, elect, w);
    QuorumsIntersect(elect(v.epoch), v.backers, w.backers);
    var x :| x in v.backers && x in w.backers;
    assert Vote(x, v.epoch, v.candidate) in s.votes && Vote(x, v.epoch, w.candidate) in s.votes;
  }

  /** How many stray ACKs two winners must have counted before they can be different nodes */
  function StraysNeeded(electorate: nat): nat {
    2 - electorate % 2
  }

  /**
    Election safety: in every state of every run, two candidates that passed the quorum test for the same
    epoch are the same node, unless together they counted as many ACKs at the wrong time as an even
    electorate (two) or an odd one (a single one) takes.  ClusterWitness shows that no more can be allowed.
  */
  lemma ElectionSafety(states: seq<Network>, steps: seq<Step>, elect: Electorate, k: nat, v: Winner, w: Winner)
    requires Run(states, steps, elect) && k < |states|
    requires v in states[k].winners && w in states[k].winners && v.epoch == w.epoch
    requires v.stray + w.stray < StraysNeeded(|elect(v.epoch)|)
    ensures v.candidate == w.candidate
  {
    RunInv(states, steps, elect, k);
    assert WinnerOk(states[k], elect, v) && WinnerOk(states[k], elect, w);
    BackersDecide(states, steps, elect, k, v, w);
  }

  /** In every state of every run epochs are bounded, in tables and in messages. */
  lemma EpochsBounded(states: seq<Network>, steps: seq<Step>, elect: Electorate, k: nat)
    requires Run(states, steps, elect) && k < |states|
    ensures forall i, x | i in states[k].nodes && x in states[k].nodes[i].table ::
      states[k].nodes[i].table[x].configEpoch <= states[k].nodes[i].currentEpoch
    ensures forall m | m in states[k].messages ::
      m.hdr.configEpoch <= m.hdr.currentEpoch && (m.Update? ==> m.epoch <= m.hdr.currentEpoch)
  {
    RunInv(states, steps, elect, k);
    var s := states[k];
    forall i, x | i in s.nodes && x in s.nodes[i].table
      ensures s.nodes[i].table[x].configEpoch <= s.nodes[i].currentEpoch
    {
      assert NodeOk(i, s.nodes[i]);
    }
    forall m | m in s.messages ensures MessageBounded(m) {
      assert MessageOk(s, m);
    }
  }

  /**
    When a vote is granted, the epoch voted in is above the epoch of every owner of a slot the
    candidate claims, in the voter's table at that moment.
  */
  lemma VoteEpochIsNew(states: seq<Network>, steps: seq<Step>, elect: Electorate, k: nat, j: Slot)
    requires Run(states, steps, elect) && k < |steps| && steps[k].Deliver? && steps[k].m.Request?
    requires Receive(states[k].nodes[steps[k].i], steps[k].m, steps[k].lately).1.Some?
    requires j in steps[k].m.hdr.slots && j < |states[k].nodes[steps[k].i].owner|
    ensures var n := states[k + 1].nodes[steps[k].i];
      && n.lastVoteEpoch == n.currentEpoch == steps[k].m.hdr.currentEpoch
      && j < |n.owner| && (n.owner[j].Some? ==> EpochOfOwner(n, j) < n.lastVoteEpoch)
  {
    RunInv(states, steps, elect, k);
    assert MessageOk(states[k], steps[k].m);
  }

  /** Whoever takes over for an epoch is on record as a winner of that epoch. */
  lemma WinsAreRecorded(states: seq<Network>, steps: seq<Step>, elect: Electorate, k: nat)
    requires Run(states, steps, elect) && k < |steps| && steps[k].Win?
    ensures Recorded(states[k + 1], steps[k].i, states[k].nodes[steps[k].i].authEpoch)
  {
    RunInv(states, steps, elect, k);
    RunInv(states, steps, elect, k + 1);
    assert NodeOk(steps[k].i, states[k].nodes[steps[k].i]);
    TakeOverFrame(states[k].nodes[steps[k].i]);
  }

  ghost predicate EndsIn(states: seq<Network>, steps: seq<Step>, elect: Electorate, s: Network) {
    Run(states, steps, elect) && states[|steps|] == s
  }

  ghost predicate Reachable(s: Network, elect: Electorate) {
    exists states, steps :: EndsIn(states, steps, elect, s)
  }

  lemma Extend(s: Network, elect: Electorate, step: Step)
    requires Reachable(s, elect) && ViewsAgree(s, elect) && Enabled(s, step)
    ensures Reachable(Apply(s, step), elect)
  {
    var states, steps :| EndsIn(states, steps, elect, s);
    ExtendRun(states, steps, elect, step);
    assert EndsIn(states + [Apply(s, step)], steps + [step], elect, Apply(s, step));
  }

  lemma ExtendRun(states: seq<Network>, steps: seq<Step>, elect: Electorate, step: Step)
    requires Run(states, steps, elect)
    requires ViewsAgree(states[|steps|], elect) && Enabled(states[|steps|], step)
    ensures Run(states + [Apply(states[|steps|], step)], steps + [step], elect)
  {
    var states', steps' := states + [Apply(states[|steps|], step)], steps + [step];
    forall k | 0 <= k < |steps'|
      ensures ViewsAgree(states'[k], elect) && Enabled(states'[k], steps'[k])
      ensures states'[k + 1] == Apply(states'[k], steps'[k])
    {
      assert states'[k] == states[k];
      if k < |steps| {
        assert steps'[k] == steps[k] && states'[k + 1] == states[k + 1];
      }
    }
  }
}
