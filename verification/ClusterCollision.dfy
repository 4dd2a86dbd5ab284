/**
  Resolution of configEpoch collisions between masters
  (project/network/redis/redis-3.2/src/cluster.c:1062-1077, 1899-1906).  Runs are those of
  the network, with duplicated and stale messages, in which every node stays a master
  and nobody asks for a new epoch by hand.
*/
module ClusterCollision {
  import opened Options
  import opened ClusterNode
  import opened ClusterNetwork
  import opened SlotOwnership

  /** A node's own configEpoch. */
  function Own(s: Network, i: Id): nat {
    if i in s.nodes then Self(s.nodes[i]).configEpoch else 0
  }

  ghost predicate AllMasters(s: Network) {
    forall i | i in s.nodes :: Self(s.nodes[i]).master && Self(s.nodes[i]).slaveof.None?
  }

  /** Nobody knows a node by an epoch it has not reached. */
  ghost predicate KnownEpochs(s: Network) {
    forall i, x | i in s.nodes && x in s.nodes :: Get(s.nodes[i], x).configEpoch <= Own(s, x)
  }

  ghost predicate SentEpochs(s: Network) {
    forall m | m in s.messages :: m.hdr.sender in s.nodes && SentBelow(s, m)
  }

  ghost predicate SentBelow(s: Network, m: Message) {
    && m.hdr.configEpoch <= Own(s, m.hdr.sender) && m.hdr.slaveof.None?
    && (m.Update? && m.about in s.nodes ==> m.epoch <= Own(s, m.about))
  }

  ghost predicate Calm(states: seq<Network>, steps: seq<Step>, elect: Electorate) {
    && Run(states, steps, elect) && KnownEpochs(states[0])
    && (forall k | 0 <= k < |states| :: AllMasters(states[k]))
    && (forall k | 0 <= k < |steps| :: !steps[k].Bump?)
  }

  // --- what one step does to epochs -------------------------------------------------------

  /** Own epoch as before, or the collision rule fired on a message with that very epoch. */
  ghost predicate KeepsOrBumps(n: Node, n': Node, h: Header, ping: bool) {
    || Self(n').configEpoch == Self(n).configEpoch
    || (ping && h.configEpoch == Self(n).configEpoch && h.sender > n.id && Self(n').configEpoch > Self(n).configEpoch)
  }

  /** Every other entry as before, or as high as the message says. */
  ghost predicate LearnsAtMost(n: Node, n': Node, m: Message) {
    forall y: Id | y != n.id ::
      || Get(n', y).configEpoch <= Get(n, y).configEpoch
      || (y == m.hdr.sender && Get(n', y).configEpoch <= m.hdr.configEpoch)
      || (m.Update? && y == m.about && Get(n', y).configEpoch <= m.epoch)
  }

  lemma CollisionEpochs(n: Node, h: Header)
    requires Bounded(n) && h.sender != n.id
    ensures KeepsOrBumps(n, ResolveCollision(n, h), h, true) && LearnsAtMost(n, ResolveCollision(n, h), Ping(h))
  {
  }

  lemma HeaderEpochs(n: Node, h: Header, m: Message)
    requires h == m.hdr && h.sender != n.id
    ensures Self(ProcessHeader(n, h)).configEpoch == Self(n).configEpoch && LearnsAtMost(n, ProcessHeader(n, h), m)
  {
  }

  lemma UpdateKeepsEpochs(n: Node, x: Id, epoch: nat, claimed: set<Slot>)
    ensures SameTableEpochs(n, UpdateSlots(n, x, epoch, claimed)) && UpdateSlots(n, x, epoch, claimed).id == n.id
  {
  }

  /** The node as clusterProcessPacket has it when it reaches the test at line 1901. */
  function BeforeCollision(n: Node, h: Header): Node {
    var n1 := SwitchRole(ProcessHeader(n, h), h);
    if Get(n1, h.sender).master && Served(n1, h.sender) != h.slots
    then UpdateSlots(n1, h.sender, h.configEpoch, h.slots) else n1
  }

  lemma BeforeCollisionEpochs(n: Node, h: Header)
    requires Bounded(n) && h.configEpoch <= h.currentEpoch
    ensures SameTableEpochs(ProcessHeader(n, h), BeforeCollision(n, h))
    ensures Bounded(BeforeCollision(n, h)) && BeforeCollision(n, h).id == n.id
  {
    var n0 := ProcessHeader(n, h);
    HeaderFrame(n, h);
    var n1 := SwitchRole(n0, h);
    SwitchKeepsEpochs(n0, h);
    SwitchRoleFrame(n0, h);
    UpdateSlotsFrame(n1, h.sender, h.configEpoch, h.slots);
    UpdateKeepsEpochs(n1, h.sender, h.configEpoch, h.slots);
  }

  lemma PingEpochs(n: Node, h: Header)
    requires Bounded(n) && h.configEpoch <= h.currentEpoch && h.sender != n.id
    ensures KeepsOrBumps(n, HandlePing(n, h), h, true) && LearnsAtMost(n, HandlePing(n, h), Ping(h))
  {
    if h.sender in n.table {
      HeaderEpochs(n, h, Ping(h));
      BeforeCollisionEpochs(n, h);
      CollisionEpochs(BeforeCollision(n, h), h);
    }
  }

  lemma UpdateEpochs(n: Node, h: Header, about: Id, epoch: nat, slots: set<Slot>)
    requires h.sender != n.id && (about == n.id ==> epoch <= Self(n).configEpoch)
    ensures var n' := HandleUpdate(n, h, about, epoch, slots);
      && Self(n').configEpoch == Self(n).configEpoch && n'.id == n.id
      && LearnsAtMost(n, n', Update(h, about, epoch, slots))
  {
    if h.sender in n.table {
      var n1 := ProcessHeader(n, h);
      HeaderEpochs(n, h, Update(h, about, epoch, slots));
      if about in n1.table && Get(n1, about).configEpoch < epoch {
        var n2 := SetAsMaster(n1, about);
        var n3 := Put(n2, about, Get(n2, about).(configEpoch := epoch));
        UpdateKeepsEpochs(n3, about, epoch, slots);
      }
    }
  }

  // --- the invariant of a calm run -----------------------------------------------------------

  ghost predicate CalmInv(s: Network) {
    KnownEpochs(s) && SentEpochs(s) && s.acks == {} && forall m | m in s.messages :: !m.Request?
  }

  /** Did node i leave its epoch because of a message from a node with a greater name? */
  ghost predicate Collides(s: Network, step: Step, i: Id) {
    && i in s.nodes && step.Deliver? && step.i == i && step.m in s.messages && step.m.Ping?
    && step.m.hdr.sender > i && step.m.hdr.configEpoch == Own(s, i)
  }

  ghost predicate Quiet(s: Network) {
    NodesOk(s) && MessagesOk(s) && AllMasters(s) && CalmInv(s)
  }

  lemma DeliverStep(s: Network, step: Step)
    requires Quiet(s) && Enabled(s, step) && step.Deliver?
    ensures var n, n' := s.nodes[step.i], Receive(s.nodes[step.i], step.m, step.lately).0;
      && n'.id == n.id && LearnsAtMost(n, n', step.m)
      && (|| Self(n').configEpoch == Self(n).configEpoch
          || (Collides(s, step, step.i) && Self(n').configEpoch > Self(n).configEpoch))
  {
    var n, m := s.nodes[step.i], step.m;
    assert NodeOk(step.i, n) && MessageOk(s, m) && SentBelow(s, m);
    match m
    case Ping(h) =>
      PingFrame(n, h);
      PingEpochs(n, h);
    case Update(h, about, epoch, slots) => UpdateEpochs(n, h, about, epoch, slots);
  }

  lemma OtherStep(s: Network, step: Step)
    requires Quiet(s) && Enabled(s, step) && !step.Bump? && !step.Deliver? && AllMasters(Apply(s, step))
    ensures var n, n' := s.nodes[step.i], Apply(s, step).nodes[step.i];
      && n'.id == n.id && Self(n').configEpoch == Self(n).configEpoch
      && forall y: Id :: Get(n', y).configEpoch <= Get(n, y).configEpoch
  {
    assert NodeOk(step.i, s.nodes[step.i]);
    if step.Observe? {
      assert Self(Apply(s, step).nodes[step.i]).master;
    }
  }

  /** What a step does to epochs. */
  ghost predicate Moves(s: Network, s': Network, step: Step) {
    && s'.nodes.Keys == s.nodes.Keys && step.i in s.nodes
    && (forall j | j in s.nodes && j != step.i :: s'.nodes[j] == s.nodes[j])
    && (forall j | j in s.nodes :: Own(s', j) == Own(s, j) || (Own(s', j) > Own(s, j) && Collides(s, step, j)))
    && var n, n' := s.nodes[step.i], s'.nodes[step.i];
      && n.id == n'.id == step.i
      && (if step.Deliver? then step.m in s.messages && LearnsAtMost(n, n', step.m)
          else forall y: Id :: Get(n', y).configEpoch <= Get(n, y).configEpoch)
  }

  lemma OthersStay(s: Network, step: Step)
    requires Enabled(s, step)
    ensures Apply(s, step).nodes.Keys == s.nodes.Keys
    ensures forall j | j in s.nodes && j != step.i :: Apply(s, step).nodes[j] == s.nodes[j]
    ensures step.Deliver? ==> Apply(s, step).nodes[step.i] == Receive(s.nodes[step.i], step.m, step.lately).0
  {
  }

  lemma StepMoves(s: Network, step: Step)
    requires Quiet(s) && Enabled(s, step) && !step.Bump? && AllMasters(Apply(s, step))
    ensures Moves(s, Apply(s, step), step)
  {
    assert NodeOk(step.i, s.nodes[step.i]);
    OthersStay(s, step);
    if step.Deliver? {
      DeliverStep(s, step);
    } else {
      OtherStep(s, step);
    }
  }

  lemma NewMessages(s: Network, step: Step, m: Message)
    requires Quiet(s) && Enabled(s, step) && m in Apply(s, step).messages && m !in s.messages
    ensures step.SendPing? || step.SendUpdate?
    ensures m.hdr.sender == step.i && m.hdr.configEpoch == Own(s, step.i) && m.hdr.slaveof.None?
    ensures m.Ping? || (m.Update? && m.epoch == Get(s.nodes[step.i], m.about).configEpoch)
  {
    assert NodeOk(step.i, s.nodes[step.i]);
  }

  lemma MovesKeepKnown(s: Network, s': Network, step: Step)
    requires KnownEpochs(s) && SentEpochs(s) && Moves(s, s', step)
    ensures KnownEpochs(s')
  {
    forall i, x | i in s'.nodes && x in s'.nodes
      ensures Get(s'.nodes[i], x).configEpoch <= Own(s', x)
    {
      assert Get(s.nodes[i], x).configEpoch <= Own(s, x) <= Own(s', x);
      if i == step.i && x != i && step.Deliver? {
        assert SentBelow(s, step.m);
      }
    }
  }

  lemma StepCalm(s: Network, step: Step)
    requires Quiet(s) && Enabled(s, step) && Moves(s, Apply(s, step), step)
    ensures CalmInv(Apply(s, step))
  {
    var s' := Apply(s, step);
    MovesKeepKnown(s, s', step);
    forall m | m in s'.messages
      ensures m.hdr.sender in s'.nodes && SentBelow(s', m) && !m.Request?
    {
      if m in s.messages {
        assert SentBelow(s, m);
      } else {
        NewMessages(s, step, m);
      }
    }
    assert s'.acks == {};
  }

  lemma {:induction false} CalmRun(states: seq<Network>, steps: seq<Step>, elect: Electorate, k: nat)
    requires Calm(states, steps, elect) && k < |states|
    ensures Quiet(states[k])
  {
    RunInv(states, steps, elect, k);
    if k > 0 {
      CalmRun(states, steps, elect, k - 1);
      StepMoves(states[k - 1], steps[k - 1]);
      StepCalm(states[k - 1], steps[k - 1]);
    }
  }

  // --- the bound ------------------------------------------------------------------------------

  /** The epochs that node i has held until states[k]. */
  ghost function Held(states: seq<Network>, i: Id, k: nat): set<nat>
    requires k < |states|
  {
    if k == 0 then {Own(states[0], i)} else Held(states, i, k - 1) + {Own(states[k], i)}
  }

  /** How often it has changed its epoch until then. */
  ghost function Bumps(states: seq<Network>, i: Id, k: nat): nat
    requires k < |states|
  {
    if k == 0 then 0
    else Bumps(states, i, k - 1) + if Own(states[k], i) == Own(states[k - 1], i) then 0 else 1
  }

  /** Epochs only grow, so none is held twice. */
  ghost predicate Counted(states: seq<Network>, i: Id, k: nat)
    requires k < |states|
  {
    && |Held(states, i, k)| == 1 + Bumps(states, i, k) && Own(states[k], i) in Held(states, i, k)
    && forall v | v in Held(states, i, k) :: v <= Own(states[k], i)
  }

  /** An epoch that i has given up is one that a node with a greater name has held. */
  ghost predicate LeftToGreater(states: seq<Network>, i: Id, k: nat)
    requires k < |states|
  {
    forall v | v in Held(states, i, k) && v != Own(states[k], i) :: HeldAbove(states, i, v, k)
  }

  ghost predicate HeldAbove(states: seq<Network>, i: Id, v: nat, k: nat)
    requires k < |states|
  {
    exists j :: j in states[k].nodes && j > i && v in Held(states, j, k)
  }

  ghost predicate SentHeld(states: seq<Network>, k: nat)
    requires k < |states|
  {
    forall m | m in states[k].messages ::
      m.hdr.sender in states[k].nodes && m.hdr.configEpoch in Held(states, m.hdr.sender, k)
  }

  lemma CountOne(states: seq<Network>, steps: seq<Step>, k: nat, i: Id)
    requires 0 < k < |states| && k <= |steps| && i in states[k - 1].nodes
    requires Moves(states[k - 1], states[k], steps[k - 1])
    requires Counted(states, i, k - 1)
    ensures Counted(states, i, k)
  {
  }

  lemma LeaveOne(states: seq<Network>, steps: seq<Step>, k: nat, i: Id)
    requires 0 < k < |states| && k <= |steps| && i in states[k - 1].nodes
    requires Moves(states[k - 1], states[k], steps[k - 1])
    requires LeftToGreater(states, i, k - 1) && SentHeld(states, k - 1)
    ensures LeftToGreater(states, i, k)
  {
    forall v | v in Held(states, i, k) && v != Own(states[k], i)
      ensures HeldAbove(states, i, v, k)
    {
      if v == Own(states[k - 1], i) {
        var m := steps[k - 1].m;
        assert m.hdr.sender in states[k].nodes && v in Held(states, m.hdr.sender, k);
      } else {
        assert HeldAbove(states, i, v, k - 1);
        var j :| j in states[k - 1].nodes && j > i && v in Held(states, j, k - 1);
        assert v in Held(states, j, k);
      }
    }
  }

  lemma {:induction false} HeldInv(states: seq<Network>, steps: seq<Step>, elect: Electorate, k: nat)
    requires Calm(states, steps, elect) && k < |states|
    ensures SentHeld(states, k)
    ensures forall i | i in states[k].nodes :: Counted(states, i, k) && LeftToGreater(states, i, k)
  {
    if k > 0 {
      HeldInv(states, steps, elect, k - 1);
      CalmAt(states, steps, elect, k);
      MovesAndSends(states[k - 1], steps[k - 1], states[k]);
      forall i | i in states[k].nodes
        ensures Counted(states, i, k) && LeftToGreater(states, i, k)
      {
        CountOne(states, steps, k, i);
        LeaveOne(states, steps, k, i);
      }
      SendOne(states, steps, k);
    }
  }

  ghost predicate Goes(s: Network, step: Step, s': Network) {
    Quiet(s) && Enabled(s, step) && !step.Bump? && s' == Apply(s, step) && AllMasters(s')
  }

  lemma CalmAt(states: seq<Network>, steps: seq<Step>, elect: Electorate, k: nat)
    requires Calm(states, steps, elect) && 0 < k < |states|
    ensures Goes(states[k - 1], steps[k - 1], states[k])
  {
    CalmRun(states, steps, elect, k - 1);
    assert states[(k - 1) + 1] == states[k];
  }

  /** One step of a calm run, as far as it matters here. */
  lemma MovesAndSends(s: Network, step: Step, s': Network)
    requires Goes(s, step, s')
    ensures Moves(s, s', step) && SendsOwn(s, s')
  {
    StepMoves(s, step);
    StepSendsOwn(s, step);
  }

  lemma StepSendsOwn(s: Network, step: Step)
    requires Quiet(s) && Enabled(s, step)
    ensures SendsOwn(s, Apply(s, step))
  {
    forall m | m in Apply(s, step).messages && m !in s.messages
      ensures m.hdr.sender in s.nodes && m.hdr.configEpoch == Own(s, m.hdr.sender)
    {
      NewMessages(s, step, m);
    }
  }

  /** Whatever is new among the messages carries its sender's own epoch. */
  ghost predicate SendsOwn(s: Network, s': Network) {
    forall m | m in s'.messages && m !in s.messages ::
      m.hdr.sender in s.nodes && m.hdr.configEpoch == Own(s, m.hdr.sender)
  }

  lemma {:induction false} OwnIsHeld(states: seq<Network>, i: Id, k: nat)
    requires k < |states|
    ensures Own(states[k], i) in Held(states, i, k)
  {
  }

  lemma SendOne(states: seq<Network>, steps: seq<Step>, k: nat)
    requires 0 < k < |states| && k <= |steps| && SentHeld(states, k - 1)
    requires Moves(states[k - 1], states[k], steps[k - 1]) && SendsOwn(states[k - 1], states[k])
    ensures SentHeld(states, k)
  {
    forall m | m in states[k].messages
      ensures m.hdr.sender in states[k].nodes && m.hdr.configEpoch in Held(states, m.hdr.sender, k)
    {
      OwnIsHeld(states, m.hdr.sender, k - 1);
    }
  }

  /** The nodes with a greater name. */
  function Greater(s: Network, i: Id): set<Id> {
    set j | j in s.nodes && j > i
  }

  /** All epochs held by the nodes in a set that contains, with each node, the greater ones: one per node at most. */
  lemma {:induction false} HeldTogether(states: seq<Network>, k: nat, up: set<Id>) returns (all: set<nat>)
    requires k < |states| && up <= states[k].nodes.Keys
    requires forall i, j | i in up && j in states[k].nodes && j > i :: j in up
    requires forall i | i in up :: LeftToGreater(states, i, k)
    ensures |all| <= |up| && forall i, v | i in up && v in Held(states, i, k) :: v in all
    decreases |up|
  {
    if up == {} {
      all := {};
    } else {
      var least := Least(up);
      var rest := HeldTogether(states, k, up - {least});
      all := rest + {Own(states[k], least)};
    }
  }

  lemma {:induction false} Least(ids: set<Id>) returns (x: Id)
    requires ids != {}
    ensures x in ids && forall y | y in ids :: x <= y
    decreases |ids|
  {
    var z :| z in ids;
    x := z;
    if ids != {z} {
      var y := Least(ids - {z});
      x := if z < y then z else y;
      assert forall w | w in ids :: w == z || w in ids - {z};
    }
  }

  /**
    Under any schedule, a master with k greater masters changes its configEpoch at most k times;
    the greatest never does.
  */
  lemma BumpsBounded(states: seq<Network>, steps: seq<Step>, elect: Electorate, k: nat, i: Id)
    requires Calm(states, steps, elect) && k < |states| && i in states[k].nodes
    ensures Bumps(states, i, k) <= |Greater(states[k], i)|
  {
    HeldInv(states, steps, elect, k);
    BoundFromInv(states, k, i);
  }

  lemma BoundFromInv(states: seq<Network>, k: nat, i: Id)
    requires k < |states| && i in states[k].nodes && Counted(states, i, k)
    requires forall j | j in states[k].nodes :: LeftToGreater(states, j, k)
    ensures Bumps(states, i, k) <= |Greater(states[k], i)|
  {
    var all := HeldTogether(states, k, Greater(states[k], i));
    var left := Held(states, i, k) - {Own(states[k], i)};
    forall v | v in left
      ensures v in all
    {
      assert HeldAbove(states, i, v, k);
    }
    SubsetSize(left, all);
  }

  // --- the end ----------------------------------------------------------------------------------

  /** No fresh ping would make a node change its epoch. */
  ghost predicate Resolved(s: Network) {
    forall i, j | i in s.nodes && j in s.nodes && i != j ::
      Self(HandlePing(s.nodes[i], HeaderOf(s.nodes[j]))).configEpoch == Own(s, i)
  }

  ghost predicate AllKnown(s: Network) {
    forall i, j | i in s.nodes && j in s.nodes :: j in s.nodes[i].table
  }

  /** A claim that is not newer takes nothing from this node, so it stays a master. */
  lemma StaysMaster(n: Node, x: Id, epoch: nat, claimed: set<Slot>)
    requires Self(n).master && epoch <= Self(n).configEpoch
    ensures Self(UpdateSlots(n, x, epoch, claimed)) == Self(n)
  {
  }

  lemma BeforeCollisionRoles(n: Node, h: Header)
    requires Self(n).master && h.sender != n.id && h.slaveof.None? && h.configEpoch <= Self(n).configEpoch
    ensures Self(BeforeCollision(n, h)).master && Get(BeforeCollision(n, h), h.sender).master
  {
    var n1 := SwitchRole(ProcessHeader(n, h), h);
    assert Self(n1) == Self(n) && Get(n1, h.sender).master;
    StaysMaster(n1, h.sender, h.configEpoch, h.slots);
  }

  /** The rule fires on a fresh ping from a greater node with the same epoch. */
  lemma CollisionFires(n: Node, h: Header)
    requires Bounded(n) && h.configEpoch <= h.currentEpoch && h.sender in n.table && h.sender > n.id
    requires Self(n).master && h.slaveof.None? && h.configEpoch == Self(n).configEpoch
    requires Get(n, h.sender).configEpoch <= h.configEpoch
    ensures Self(HandlePing(n, h)).configEpoch > Self(n).configEpoch
  {
    BeforeCollisionRoles(n, h);
    BeforeCollisionEpochs(n, h);
    HeaderEpochs(n, h, Ping(h));
  }

  /** Once no fresh ping changes anything, all masters have distinct epochs. */
  lemma ResolvedMeansDistinct(states: seq<Network>, steps: seq<Step>, elect: Electorate, k: nat, i: Id, j: Id)
    requires Calm(states, steps, elect) && k < |states| && AllKnown(states[k]) && Resolved(states[k])
    requires i in states[k].nodes && j in states[k].nodes && i != j
    ensures Own(states[k], i) != Own(states[k], j)
  {
    var s := states[k];
    CalmRun(states, steps, elect, k);
    var a, b := if i < j then i else j, if i < j then j else i;
    assert NodeOk(a, s.nodes[a]) && NodeOk(b, s.nodes[b]);
    if Own(s, a) == Own(s, b) {
      HeaderBounded(s.nodes[b]);
      CollisionFires(s.nodes[a], HeaderOf(s.nodes[b]));
    }
  }
}
