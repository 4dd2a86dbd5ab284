/**
  One node of Redis Cluster (project/network/redis/redis-3.2/src/cluster.c): its
  tables, the messages it sends and how it reacts to those it receives.

  Clocks, failure detection and administrator commands decide when a handler runs
  and which nodes are flagged as failed; here they are left open, so that every
  statement holds for any timing.
*/
module ClusterNode {
  import opened Options

  type Id = nat   // node names, in the order memcmp gives them
  type Slot = nat

  const SLOTS: nat := 16384

  /** What a node knows about another node, or about itself. */
  datatype Info = Info(configEpoch: nat, master: bool, slaveof: Option<Id>, failed: bool)

  /**
    server.cluster of one node, with three history fields: `won` says that the current election
    has been won, and `counted` and `stray` split failover_auth_count into the voters counted
    while waiting for votes and the ACKs counted at any other time.
  */
  datatype Node = Node(
    id: Id,
    currentEpoch: nat,
    lastVoteEpoch: nat,
    authEpoch: nat,
    authCount: nat,
    authSent: bool,
    won: bool,
    counted: set<Id>,
    stray: nat,
    table: map<Id, Info>,
    owner: seq<Option<Id>>,
    importing: set<Slot>,
    size: nat)

  /** clusterBuildMessageHdr: a slave announces its master's slots and configEpoch. */
  datatype Header = Header(sender: Id, currentEpoch: nat, configEpoch: nat, slots: set<Slot>, slaveof: Option<Id>)

  datatype Message =
    | Ping(hdr: Header)
    | Update(hdr: Header, about: Id, epoch: nat, slots: set<Slot>)
    | Request(hdr: Header, force: bool)

  datatype Ack = Ack(hdr: Header, candidate: Id)

  // --- tables ----------------------------------------------------------------------

  function Get(n: Node, x: Id): Info {
    if x in n.table then n.table[x] else Info(0, false, None, false)
  }

  function Put(n: Node, x: Id, info: Info): Node {
    n.(table := n.table[x := info])
  }

  function Self(n: Node): Info {
    Get(n, n.id)
  }

  /** The slots a node is known to serve: its bitmap. */
  function Served(n: Node, x: Id): set<Slot> {
    set j | 0 <= j < |n.owner| && n.owner[j] == Some(x)
  }

  function EpochOfOwner(n: Node, j: Slot): nat
    requires j < |n.owner|
  {
    if n.owner[j].None? then 0 else Get(n, n.owner[j].value).configEpoch
  }

  // myself, or my master if I am a slave that knows it
  function MasterOfMine(n: Node): Id {
    if !Self(n).master && Self(n).slaveof.Some? then Self(n).slaveof.value else n.id
  }

  function HeaderOf(n: Node): Header {
    Header(n.id, n.currentEpoch, Get(n, MasterOfMine(n)).configEpoch, Served(n, MasterOfMine(n)), Self(n).slaveof)
  }

  function Max(a: nat, b: nat): nat {
    if a < b then b else a
  }

  // --- handlers ----------------------------------------------------------------------

  // Lines 1626-1639, for a known sender that is not in handshake.
  function ProcessHeader(n: Node, h: Header): Node {
    var s := Get(n, h.sender);
    Put(n.(currentEpoch := Max(n.currentEpoch, h.currentEpoch)), h.sender,
        s.(configEpoch := Max(s.configEpoch, h.configEpoch)))
  }

  // clusterSetNodeAsMaster
  function SetAsMaster(n: Node, x: Id): Node {
    if Get(n, x).master then n else Put(n, x, Get(n, x).(master := true, slaveof := None))
  }

  /** The table after all slots of x have been bound to `o`. */
  function Rebind(owner: seq<Option<Id>>, x: Id, o: Option<Id>): seq<Option<Id>> {
    seq(|owner|, j requires 0 <= j < |owner| => if owner[j] == Some(x) then o else owner[j])
  }

  // clusterDelNodeSlots
  function ReleaseSlots(n: Node, x: Id): Node {
    n.(owner := Rebind(n.owner, x, None))
  }

  // Lines 1793-1827: a role switch of the sender.
  function SwitchRole(n: Node, h: Header): Node {
    if h.slaveof.None? then SetAsMaster(n, h.sender)
    else
      var n1 := if Get(n, h.sender).master
                then Put(ReleaseSlots(n, h.sender), h.sender, Get(n, h.sender).(master := false)) else n;
      if h.slaveof.value in n1.table then Put(n1, h.sender, Get(n1, h.sender).(slaveof := h.slaveof)) else n1
  }

  /** Lines 1492-1509: does a claim of slot j by `x` with this epoch take it over? */
  predicate Rebinds(n: Node, x: Id, epoch: nat, claimed: set<Slot>, j: Slot)
    requires j < |n.owner|
  {
    && j in claimed && n.owner[j] != Some(x) && j !in n.importing
    && (n.owner[j].None? || EpochOfOwner(n, j) < epoch)
  }

  function Rebound(n: Node, x: Id, epoch: nat, claimed: set<Slot>): seq<Option<Id>> {
    seq(|n.owner|, j requires 0 <= j < |n.owner| => if Rebinds(n, x, epoch, claimed, j) then Some(x) else n.owner[j])
  }

  // clusterSetMaster: becoming a slave also closes all importing slots.
  function SetMaster(n: Node, x: Id): Node {
    Put(if Self(n).master then n.(importing := {}) else n, n.id, Self(n).(master := false, slaveof := Some(x)))
  }

  /** Does a claim take over a slot that is bound as `current` says?  None is a slot that is free. */
  predicate LosesSlot(n: Node, x: Id, epoch: nat, claimed: set<Slot>, current: Option<Id>) {
    exists j | 0 <= j < |n.owner| :: n.owner[j] == current && Rebinds(n, x, epoch, claimed, j)
  }

  // curmaster at line 1485
  function CurrentMaster(n: Node): Option<Id> {
    if Self(n).master then Some(n.id) else Self(n).slaveof
  }

  /**
    The path to line 1538 with newmaster set and curmaster a null pointer, which is then followed: a
    free slot has been taken for one of the missing master.
  */
  predicate FollowsNull(n: Node, x: Id, epoch: nat, claimed: set<Slot>) {
    x != n.id && CurrentMaster(n).None? && LosesSlot(n, x, epoch, claimed, CurrentMaster(n))
  }

  /**
    This happens exactly when a slave that does not know its master hears another node claim a free slot
    that it is not importing.
  */
  lemma FollowsNullIff(n: Node, x: Id, epoch: nat, claimed: set<Slot>)
    ensures FollowsNull(n, x, epoch, claimed) <==>
      && x != n.id && !Self(n).master && Self(n).slaveof.None?
      && exists j :: 0 <= j < |n.owner| && n.owner[j].None? && j in claimed && j !in n.importing
  {
    forall j | 0 <= j < |n.owner| && n.owner[j].None?
      ensures Rebinds(n, x, epoch, claimed, j) <==> j in claimed && j !in n.importing
    {
    }
  }

  // clusterUpdateSlotsConfigWith; where it follows a null pointer, the slots have changed hands
  function UpdateSlots(n: Node, x: Id, epoch: nat, claimed: set<Slot>): Node {
    if x == n.id then n
    else
      var n1 := n.(owner := Rebound(n, x, epoch, claimed));
      match CurrentMaster(n)
      case None => n1
      case Some(current) =>
        if LosesSlot(n, x, epoch, claimed, Some(current)) && Served(n1, current) == {} then SetMaster(n1, x) else n1
  }

  // clusterHandleConfigEpochCollision behind the test at line 1901
  function ResolveCollision(n: Node, h: Header): Node {
    if Self(n).master && Get(n, h.sender).master && h.configEpoch == Self(n).configEpoch
       && Get(n, h.sender).configEpoch == Self(n).configEpoch && h.sender > n.id
    then BumpEpoch(n)
    else n
  }

  function BumpEpoch(n: Node): Node {
    Put(n.(currentEpoch := n.currentEpoch + 1), n.id, Self(n).(configEpoch := n.currentEpoch + 1))
  }

  // clusterProcessPacket for PING, PONG and MEET
  function HandlePing(n: Node, h: Header): Node {
    if h.sender !in n.table then n
    else
      var n1 := SwitchRole(ProcessHeader(n, h), h);
      var s := Get(n1, h.sender);
      var dirty := Served(n1, h.sender) != h.slots;
      ResolveCollision(if s.master && dirty then UpdateSlots(n1, h.sender, h.configEpoch, h.slots) else n1, h)
  }

  // clusterProcessPacket for UPDATE
  function HandleUpdate(n: Node, h: Header, about: Id, epoch: nat, slots: set<Slot>): Node {
    if h.sender !in n.table then n
    else
      var n1 := ProcessHeader(n, h);
      if about !in n1.table || Get(n1, about).configEpoch >= epoch then n1
      else
        var n2 := SetAsMaster(n1, about);
        UpdateSlots(Put(n2, about, Get(n2, about).(configEpoch := epoch)), about, epoch, slots)
  }

  /** The conditions of clusterSendFailoverAuthIfNeeded; `lately` is its test on voted_time. */
  predicate GrantsVote(n: Node, h: Header, force: bool, lately: bool) {
    var candidate := Get(n, h.sender);
    && Self(n).master && Served(n, n.id) != {}
    && h.currentEpoch >= n.currentEpoch
    && n.lastVoteEpoch != n.currentEpoch
    && !candidate.master && candidate.slaveof.Some? && (Get(n, candidate.slaveof.value).failed || force)
    && !lately
    && forall j :: 0 <= j < |n.owner| && j in h.slots ==> n.owner[j].None? || EpochOfOwner(n, j) <= h.configEpoch
  }

  // clusterProcessPacket for FAILOVER_AUTH_REQUEST: the new state and the vote, if any
  function HandleRequest(n: Node, h: Header, force: bool, lately: bool): (Node, Option<Ack>) {
    if h.sender !in n.table then (n, None)
    else
      var n1 := ProcessHeader(n, h);
      if GrantsVote(n1, h, force, lately)
      then (n1.(lastVoteEpoch := n1.currentEpoch), Some(Ack(HeaderOf(n1), h.sender)))
      else (n1, None)
  }

  // The test at lines 1960-1961.
  predicate CountsAck(n: Node, h: Header) {
    Get(n, h.sender).master && Served(n, h.sender) != {} && h.currentEpoch >= n.authEpoch
  }

  /** Votes have been asked for and the election is not yet won. */
  predicate Waiting(n: Node) {
    n.authSent && !n.won
  }

  // clusterProcessPacket for FAILOVER_AUTH_ACK
  function HandleAck(n: Node, h: Header): Node {
    if h.sender !in n.table then n
    else
      var n1 := ProcessHeader(n, h);
      if !CountsAck(n1, h) then n1
      else if Waiting(n1) then n1.(authCount := n1.authCount + 1, counted := n1.counted + {h.sender})
      else n1.(authCount := n1.authCount + 1, stray := n1.stray + 1)
  }

  /** The tests at lines 2795-2798, apart from the failure flag and a manual request. */
  predicate CanFailOver(n: Node) {
    !Self(n).master && Self(n).slaveof.Some? && Served(n, Self(n).slaveof.value) != {}
  }

  // Lines 2838-2866: a new attempt is scheduled.
  function ScheduleElection(n: Node): Node {
    n.(authCount := 0, authSent := false, counted := {}, stray := 0)
  }

  // Lines 2901-2907: votes are asked for.
  function StartElection(n: Node): Node
    requires !n.authSent
  {
    n.(currentEpoch := n.currentEpoch + 1, authEpoch := n.currentEpoch + 1, authSent := true, won := false)
  }

  // Line 2915: the quorum test.
  predicate HasQuorum(n: Node) {
    n.authSent && n.authCount >= n.size / 2 + 1
  }

  // Lines 2921-2930 with clusterFailoverReplaceYourMaster.
  function TakeOver(n: Node): Node {
    var n1 := Put(n.(won := true), n.id, Self(n).(configEpoch := Max(Self(n).configEpoch, n.authEpoch)));
    if Self(n).master || Self(n).slaveof.None? then n1
    else
      var oldMaster := Self(n).slaveof.value;
      SetAsMaster(n1, n.id).(owner := Rebind(n.owner, oldMaster, Some(n.id)))
  }

  /** Is there an epoch above mine, currentEpoch included? */
  predicate IsOutdated(n: Node) {
    n.currentEpoch > Self(n).configEpoch || exists x | x in n.table :: n.table[x].configEpoch > Self(n).configEpoch
  }

  // clusterBumpConfigEpochWithoutConsensus
  function BumpWithoutConsensus(n: Node): Node {
    if Self(n).configEpoch == 0 || IsOutdated(n) then BumpEpoch(n) else n
  }
}
