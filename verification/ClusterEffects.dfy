/**
  What each message and each step does to a node of Redis Cluster
  (project/network/redis/redis-3.2/src/cluster.c), in terms of its tables alone: who votes
  and when, who counts a vote, what a claim does to slots, epochs and roles, and what a
  winner takes.  The handlers of module ClusterNode are not named in what is promised.
*/
module ClusterEffects {
  import opened Options
  import opened ClusterNode
  import opened ClusterNetwork

  // --- a node's tables ---------------------------------------------------------------------

  predicate IsMaster(n: Node, x: Id) {
    x in n.table && n.table[x].master
  }

  predicate IsFailed(n: Node, x: Id) {
    x in n.table && n.table[x].failed
  }

  function EpochOf(n: Node, x: Id): nat {
    if x in n.table then n.table[x].configEpoch else 0
  }

  /** The master that x is known to be a slave of */
  function MasterOf(n: Node, x: Id): Option<Id> {
    if x in n.table then n.table[x].slaveof else None
  }

  /** The master whose slots are at stake for node i: itself, or its own */
  function Throne(n: Node, i: Id): Option<Id> {
    if IsMaster(n, i) then Some(i) else MasterOf(n, i)
  }

  ghost predicate Serves(n: Node, x: Id) {
    exists j :: 0 <= j < |n.owner| && n.owner[j] == Some(x)
  }

  ghost predicate SameEntry(n: Node, n': Node, y: Id) {
    (y in n'.table <==> y in n.table) && (y in n.table ==> n'.table[y] == n.table[y])
  }

  function Greater(a: nat, b: nat): nat {
    if a >= b then a else b
  }

  lemma ServedIffServes(n: Node, x: Id)
    ensures Served(n, x) != {} <==> Serves(n, x)
  {
    if Serves(n, x) {
      var j :| 0 <= j < |n.owner| && n.owner[j] == Some(x);
      assert j in Served(n, x);
    }
    if Served(n, x) != {} {
      var j :| j in Served(n, x);
    }
  }

  // --- what a node says about itself -----------------------------------------------------------

  /** The node whose slots and epoch are announced: a slave speaks for its master. */
  function SpeaksFor(n: Node, i: Id): Id {
    if !IsMaster(n, i) && MasterOf(n, i).Some? then MasterOf(n, i).value else i
  }

  ghost predicate Announces(n: Node, i: Id, h: Header) {
    && h.sender == i && h.currentEpoch == n.currentEpoch && h.slaveof == MasterOf(n, i)
    && h.configEpoch == EpochOf(n, SpeaksFor(n, i))
    && forall j: Slot :: j in h.slots <==> j < |n.owner| && n.owner[j] == Some(SpeaksFor(n, i))
  }

  lemma HeaderAnnounces(n: Node)
    ensures Announces(n, n.id, HeaderOf(n))
  {
  }

  // --- votes -------------------------------------------------------------------------------------

  /**
    A serving master that has not voted in this epoch votes for a slave whose master it flags as failed,
    or that may go ahead without, unless it voted for that master lately or knows a newer owner of a
    slot that is claimed.
  */
  ghost predicate MustVote(n: Node, i: Id, h: Header, force: bool, lately: bool) {
    && h.sender in n.table && IsMaster(n, i) && Serves(n, i)
    && h.currentEpoch >= n.currentEpoch && n.lastVoteEpoch != h.currentEpoch
    && !IsMaster(n, h.sender) && MasterOf(n, h.sender).Some?
    && (force || IsFailed(n, MasterOf(n, h.sender).value)) && !lately
    && forall j :: 0 <= j < |n.owner| && j in h.slots && n.owner[j].Some? ==>
         EpochOf(n, n.owner[j].value) <= h.configEpoch
  }

  lemma HeaderKeeps(n: Node, h: Header)
    requires h.sender in n.table
    ensures var n1 := ProcessHeader(n, h);
      && n1 == n.(currentEpoch := Greater(n.currentEpoch, h.currentEpoch), table := n1.table)
      && n1.table.Keys == n.table.Keys
      && (forall y :: y in n.table && y != h.sender ==> n1.table[y] == n.table[y])
      && n1.table[h.sender] == n.table[h.sender].(configEpoch := Greater(n.table[h.sender].configEpoch, h.configEpoch))
  {
  }

  lemma GrantsIff(n: Node, h: Header, force: bool, lately: bool)
    requires h.sender in n.table && h.sender != n.id
    ensures GrantsVote(ProcessHeader(n, h), h, force, lately) <==> MustVote(n, n.id, h, force, lately)
  {
    var n1 := ProcessHeader(n, h);
    HeaderKeeps(n, h);
    ServedIffServes(n1, n.id);
    assert Serves(n1, n.id) == Serves(n, n.id);
    forall j | 0 <= j < |n.owner| && n.owner[j].Some?
      ensures EpochOfOwner(n1, j) <= h.configEpoch <==> EpochOf(n, n.owner[j].value) <= h.configEpoch
    {
    }
  }

  /** What a request for votes does to a node and whether it is granted */
  lemma RequestEffect(n: Node, h: Header, force: bool, lately: bool)
    requires h.sender != n.id
    ensures var (n', ack) := HandleRequest(n, h, force, lately);
      && (ack.Some? <==> MustVote(n, n.id, h, force, lately))
      && (ack.Some? ==> ack.value.candidate == h.sender && Announces(n', n.id, ack.value.hdr))
      && n'.lastVoteEpoch == (if ack.Some? then h.currentEpoch else n.lastVoteEpoch)
      && n'.currentEpoch == (if h.sender in n.table then Greater(n.currentEpoch, h.currentEpoch) else n.currentEpoch)
      && n'.owner == n.owner && n'.importing == n.importing && n'.authEpoch == n.authEpoch
      && n'.authCount == n.authCount && n'.authSent == n.authSent
  {
    if h.sender in n.table {
      GrantsIff(n, h, force, lately);
      HeaderKeeps(n, h);
      var n1 := ProcessHeader(n, h);
      HeaderAnnounces(n1);
    }
  }

  /** In every run: a request adds exactly the votes it must. */
  lemma VotesGranted(states: seq<Network>, steps: seq<Step>, elect: Electorate, k: nat)
    requires Run(states, steps, elect) && k < |steps| && steps[k].Deliver? && steps[k].m.Request?
    ensures var i, h := steps[k].i, steps[k].m.hdr;
      states[k + 1].votes == states[k].votes +
        if MustVote(states[k].nodes[i], i, h, steps[k].m.force, steps[k].lately)
        then {Vote(i, h.currentEpoch, h.sender)} else {}
  {
    RunInv(states, steps, elect, k);
    var i, h := steps[k].i, steps[k].m.hdr;
    var n := states[k].nodes[i];
    assert NodeOk(i, n);
    RequestEffect(n, h, steps[k].m.force, steps[k].lately);
    if HandleRequest(n, h, steps[k].m.force, steps[k].lately).1.Some? {
      RequestEpoch(n, h, steps[k].m.force, steps[k].lately);
    }
  }

  lemma RequestEpoch(n: Node, h: Header, force: bool, lately: bool)
    requires h.sender != n.id && HandleRequest(n, h, force, lately).1.Some?
    ensures HandleRequest(n, h, force, lately).1.value.hdr.currentEpoch == h.currentEpoch
  {
    RequestEffect(n, h, force, lately);
  }

  /** So a vote for a request that asks for no exception means that the candidate's master is flagged as failed. */
  lemma VoteMeansFailure(states: seq<Network>, steps: seq<Step>, elect: Electorate, k: nat)
    requires Run(states, steps, elect) && k < |steps| && steps[k].Deliver? && steps[k].m.Request? && !steps[k].m.force
    requires states[k + 1].votes != states[k].votes
    ensures var n, c := states[k].nodes[steps[k].i], steps[k].m.hdr.sender;
      MasterOf(n, c).Some? && IsFailed(n, MasterOf(n, c).value)
  {
    VotesGranted(states, steps, elect, k);
  }

  // --- counting -------------------------------------------------------------------------------------

  /** An ACK of a serving master is counted unless it belongs to an older election. */
  lemma AckEffect(n: Node, h: Header)
    requires h.sender != n.id
    ensures var n' := HandleAck(n, h);
      var counts := IsMaster(n, h.sender) && Serves(n, h.sender) && h.currentEpoch >= n.authEpoch;
      && n'.authCount == n.authCount + (if counts then 1 else 0)
      && n'.counted == (if counts && n.authSent && !n.won then n.counted + {h.sender} else n.counted)
      && n'.stray == n.stray + (if counts && !(n.authSent && !n.won) then 1 else 0)
      && n'.currentEpoch == (if h.sender in n.table then Greater(n.currentEpoch, h.currentEpoch) else n.currentEpoch)
      && n'.owner == n.owner && n'.authEpoch == n.authEpoch && n'.authSent == n.authSent
      && n'.lastVoteEpoch == n.lastVoteEpoch
      && forall y: Id :: EpochOf(n', y) ==
           if y == h.sender && y in n.table then Greater(EpochOf(n, y), h.configEpoch) else EpochOf(n, y)
  {
    if h.sender in n.table {
      HeaderKeeps(n, h);
      var n1 := ProcessHeader(n, h);
      ServedIffServes(n1, h.sender);
      assert Serves(n1, h.sender) == Serves(n, h.sender);
    }
  }

  // --- claims: slots ----------------------------------------------------------------------------------

  /** A claim of slot j takes it if it is free or its owner less recent, importing slots excepted. */
  predicate Takes(n: Node, x: Id, epoch: nat, claimed: set<Slot>, j: Slot)
    requires j < |n.owner|
  {
    && j in claimed && j !in n.importing && n.owner[j] != Some(x)
    && (n.owner[j].None? || EpochOf(n, n.owner[j].value) < epoch)
  }

  /** The owners after a ping: a master claims its slots, a master that became a slave gives them up. */
  function OwnerAfterPing(n: Node, h: Header, j: Slot): Option<Id>
    requires j < |n.owner|
  {
    if h.slaveof.None? then (if Takes(n, h.sender, h.configEpoch, h.slots, j) then Some(h.sender) else n.owner[j])
    else if IsMaster(n, h.sender) && n.owner[j] == Some(h.sender) then None
    else n.owner[j]
  }

  lemma ReboundIs(n: Node, n1: Node, x: Id, epoch: nat, claimed: set<Slot>)
    requires n1.owner == n.owner && n1.importing == n.importing
    requires forall y: Id :: y != x ==> EpochOf(n1, y) == EpochOf(n, y)
    ensures var o := Rebound(n1, x, epoch, claimed);
      && |o| == |n.owner|
      && forall j :: 0 <= j < |o| ==> o[j] == if Takes(n, x, epoch, claimed, j) then Some(x) else n.owner[j]
  {
  }

  lemma SwitchedIs(n: Node, h: Header)
    requires h.sender in n.table && h.sender != n.id
    ensures var n1 := SwitchRole(ProcessHeader(n, h), h);
      && n1.importing == n.importing && n1.id == n.id && n1.table.Keys == n.table.Keys
      && (forall y :: y in n.table && y != h.sender ==> n1.table[y] == n.table[y])
      && n1.table[h.sender].configEpoch == Greater(EpochOf(n, h.sender), h.configEpoch)
      && (n1.table[h.sender].master <==> h.slaveof.None?)
      && n1.currentEpoch == Greater(n.currentEpoch, h.currentEpoch)
      && (h.slaveof.None? ==> n1.owner == n.owner)
      && |n1.owner| == |n.owner|
      && (h.slaveof.Some? ==> forall j :: 0 <= j < |n.owner| ==> n1.owner[j] == OwnerAfterPing(n, h, j))
  {
    HeaderKeeps(n, h);
  }

  /** Every slot after a ping from a known node */
  lemma PingSlots(n: Node, h: Header)
    requires h.sender in n.table && h.sender != n.id
    ensures var n' := HandlePing(n, h);
      |n'.owner| == |n.owner| && forall j :: 0 <= j < |n.owner| ==> n'.owner[j] == OwnerAfterPing(n, h, j)
  {
    var n1 := SwitchRole(ProcessHeader(n, h), h);
    SwitchedIs(n, h);
    if h.slaveof.None? {
      ReboundIs(n, n1, h.sender, h.configEpoch, h.slots);
      if Served(n1, h.sender) == h.slots {
        forall j | 0 <= j < |n.owner|
          ensures !Takes(n, h.sender, h.configEpoch, h.slots, j)
        {
          assert j in h.slots ==> j in Served(n1, h.sender);
        }
      }
    }
  }

  // --- claims: roles ------------------------------------------------------------------------------------

  /** Node i lost a slot that it, or its master, had to x, and none is left. */
  ghost predicate Dethroned(n: Node, n': Node, i: Id, x: Id) {
    var c := Throne(n, i);
    && c.Some? && c != Some(x) && |n'.owner| == |n.owner| && !Serves(n', c.value)
    && exists j :: 0 <= j < |n.owner| && n.owner[j] == c && n'.owner[j] == Some(x)
  }

  ghost predicate SameRole(n: Node, n': Node, i: Id) {
    IsMaster(n', i) == IsMaster(n, i) && MasterOf(n', i) == MasterOf(n, i) && n'.importing == n.importing
  }

  ghost predicate SlaveOf(n: Node, n': Node, i: Id, x: Id) {
    && !IsMaster(n', i) && MasterOf(n', i) == Some(x)
    && n'.importing == if IsMaster(n, i) then {} else n.importing
  }

  /** Taking slots demotes a node exactly when it is left without any. */
  lemma UpdateSlotsRole(n: Node, x: Id, epoch: nat, claimed: set<Slot>)
    requires x != n.id
    ensures var n' := UpdateSlots(n, x, epoch, claimed);
      && n'.owner == Rebound(n, x, epoch, claimed)
      && if Dethroned(n, n', n.id, x) then SlaveOf(n, n', n.id, x) else SameRole(n, n', n.id)
  {
    var n1 := n.(owner := Rebound(n, x, epoch, claimed));
    var c := Throne(n, n.id);
    assert c == CurrentMaster(n);
    if c.Some? {
      ServedIffServes(n1, c.value);
      LosesIff(n, n1, x, epoch, claimed, c);
    }
  }

  lemma LosesIff(n: Node, n1: Node, x: Id, epoch: nat, claimed: set<Slot>, c: Option<Id>)
    requires n1.owner == Rebound(n, x, epoch, claimed) && c.Some?
    ensures LosesSlot(n, x, epoch, claimed, c) <==>
      c != Some(x) && exists j :: 0 <= j < |n.owner| && n.owner[j] == c && n1.owner[j] == Some(x)
  {
    if LosesSlot(n, x, epoch, claimed, c) {
      var j :| 0 <= j < |n.owner| && n.owner[j] == c && Rebinds(n, x, epoch, claimed, j);
      assert n1.owner[j] == Some(x);
    }
  }

  /** A ping makes its receiver a slave of the sender exactly when it leaves it, or its master, without slots. */
  lemma PingRole(n: Node, h: Header)
    requires h.sender in n.table && h.sender != n.id
    ensures var n' := HandlePing(n, h);
      if Dethroned(n, n', n.id, h.sender) then SlaveOf(n, n', n.id, h.sender) else SameRole(n, n', n.id)
  {
    var n1 := SwitchRole(ProcessHeader(n, h), h);
    SwitchedIs(n, h);
    var n2 := if n1.table[h.sender].master && Served(n1, h.sender) != h.slots
              then UpdateSlots(n1, h.sender, h.configEpoch, h.slots) else n1;
    UpdateSlotsRole(n1, h.sender, h.configEpoch, h.slots);
    CollisionKeepsRole(n2, h);
    PingSlots(n, h);
    assert Throne(n1, n.id) == Throne(n, n.id);
  }

  lemma CollisionKeepsRole(n: Node, h: Header)
    ensures var n' := ResolveCollision(n, h); SameRole(n, n', n.id) && n'.owner == n.owner && n'.id == n.id
  {
  }

  // --- claims: epochs and other entries -------------------------------------------------------------------

  /** The receiver and the sender are masters with the same epoch, and the receiver has the smaller name. */
  ghost predicate MustBump(n: Node, n': Node, h: Header) {
    && IsMaster(n', n.id) && h.slaveof.None? && h.sender > n.id
    && h.configEpoch == EpochOf(n, n.id) && EpochOf(n, h.sender) <= h.configEpoch
  }

  // The state before a collision is looked for
  function AfterClaim(n: Node, h: Header): Node {
    var n1 := SwitchRole(ProcessHeader(n, h), h);
    if Get(n1, h.sender).master && Served(n1, h.sender) != h.slots
    then UpdateSlots(n1, h.sender, h.configEpoch, h.slots) else n1
  }

  lemma ClaimTable(n: Node, h: Header)
    requires h.sender in n.table && h.sender != n.id
    ensures var n2 := AfterClaim(n, h);
      && n2.id == n.id && n2.currentEpoch == Greater(n.currentEpoch, h.currentEpoch)
      && (forall y: Id :: y != h.sender && y != n.id ==> SameEntry(n, n2, y))
      && h.sender in n2.table && EpochOf(n2, h.sender) == Greater(EpochOf(n, h.sender), h.configEpoch)
      && (IsMaster(n2, h.sender) <==> h.slaveof.None?) && EpochOf(n2, n.id) == EpochOf(n, n.id)
  {
    var n1 := SwitchRole(ProcessHeader(n, h), h);
    SwitchedIs(n, h);
    UpdateSlotsTable(n1, h.sender, h.configEpoch, h.slots);
    assert SameEntry(n1, AfterClaim(n, h), h.sender);
  }

  /** What a ping does to the epochs and to the sender's entry; nobody else's changes. */
  lemma PingTable(n: Node, h: Header)
    requires h.sender in n.table && h.sender != n.id
    ensures var n' := HandlePing(n, h);
      && (forall y: Id :: y != h.sender && y != n.id ==> SameEntry(n, n', y))
      && EpochOf(n', h.sender) == Greater(EpochOf(n, h.sender), h.configEpoch)
      && (IsMaster(n', h.sender) <==> h.slaveof.None?)
      && var e := Greater(n.currentEpoch, h.currentEpoch);
         if MustBump(n, n', h) then n'.currentEpoch == EpochOf(n', n.id) == e + 1
         else n'.currentEpoch == e && EpochOf(n', n.id) == EpochOf(n, n.id)
  {
    var n2 := AfterClaim(n, h);
    ClaimTable(n, h);
    CollisionTable(n2, h);
    assert HandlePing(n, h) == ResolveCollision(n2, h);
    assert SameEntry(n2, HandlePing(n, h), h.sender);
  }

  lemma UpdateSlotsTable(n: Node, x: Id, epoch: nat, claimed: set<Slot>)
    ensures var n' := UpdateSlots(n, x, epoch, claimed);
      && n'.currentEpoch == n.currentEpoch && n'.id == n.id && EpochOf(n', n.id) == EpochOf(n, n.id)
      && forall y: Id :: y != n.id ==> SameEntry(n, n', y)
  {
  }

  lemma CollisionTable(n: Node, h: Header)
    requires h.sender in n.table && h.sender != n.id
    ensures var n' := ResolveCollision(n, h);
      && (forall y: Id :: y != n.id ==> SameEntry(n, n', y)) && IsMaster(n', n.id) == IsMaster(n, n.id)
      && if IsMaster(n, n.id) && IsMaster(n, h.sender) && h.sender > n.id
            && h.configEpoch == EpochOf(n, n.id) == EpochOf(n, h.sender)
         then n'.currentEpoch == EpochOf(n', n.id) == n.currentEpoch + 1
         else n' == n
  {
  }

  /** The master that a slave announces is taken over if it is known. */
  lemma PingMaster(n: Node, h: Header)
    requires h.sender in n.table && h.sender != n.id
    ensures MasterOf(HandlePing(n, h), h.sender) ==
      if h.slaveof.None? then (if IsMaster(n, h.sender) then MasterOf(n, h.sender) else None)
      else if h.slaveof.value in n.table then h.slaveof else MasterOf(n, h.sender)
  {
    var n1 := SwitchRole(ProcessHeader(n, h), h);
    SwitchedIs(n, h);
    HeaderKeeps(n, h);
    var n2 := if n1.table[h.sender].master && Served(n1, h.sender) != h.slots
              then UpdateSlots(n1, h.sender, h.configEpoch, h.slots) else n1;
    UpdateSlotsTable(n1, h.sender, h.configEpoch, h.slots);
    CollisionTable(n2, h);
    assert SameEntry(n1, n2, h.sender);
  }

  /** A message from a node that is not known changes nothing. */
  lemma StrangerIsIgnored(n: Node, m: Message, lately: bool)
    requires m.hdr.sender !in n.table
    ensures Receive(n, m, lately) == (n, None)
  {
  }

  // --- UPDATE ----------------------------------------------------------------------------------------------

  /** An UPDATE is news if its epoch is greater than the one known, the sender's own header considered. */
  predicate IsNews(n: Node, h: Header, about: Id, epoch: nat) {
    && h.sender in n.table && about in n.table
    && epoch > if about == h.sender then Greater(EpochOf(n, about), h.configEpoch) else EpochOf(n, about)
  }

  // The state before its claim is looked at
  function Adopted(n: Node, h: Header, about: Id, epoch: nat): Node {
    var n2 := SetAsMaster(ProcessHeader(n, h), about);
    Put(n2, about, Get(n2, about).(configEpoch := epoch))
  }

  lemma AdoptedIs(n: Node, h: Header, about: Id, epoch: nat)
    requires h.sender in n.table && about in n.table && h.sender != n.id
    ensures var n3 := Adopted(n, h, about, epoch);
      && n3.owner == n.owner && n3.importing == n.importing && n3.id == n.id
      && n3.currentEpoch == Greater(n.currentEpoch, h.currentEpoch)
      && IsMaster(n3, about) && EpochOf(n3, about) == epoch
      && (h.sender != about ==> EpochOf(n3, h.sender) == Greater(EpochOf(n, h.sender), h.configEpoch))
      && (forall y: Id :: y != about && y != h.sender ==> SameEntry(n, n3, y))
  {
    HeaderKeeps(n, h);
  }

  lemma AdoptedTakes(n: Node, h: Header, about: Id, epoch: nat, slots: set<Slot>, j: Slot)
    requires h.sender in n.table && about in n.table && h.sender != n.id && j < |n.owner|
    ensures Adopted(n, h, about, epoch).owner == n.owner
    ensures Takes(Adopted(n, h, about, epoch), about, epoch, slots, j) <==>
            Takes(n, about, epoch, slots, j) && TakesStill(n, h, about, epoch, j)
  {
    var n3 := Adopted(n, h, about, epoch);
    AdoptedIs(n, h, about, epoch);
    if n.owner[j].Some? && n.owner[j].value != about && n.owner[j].value != h.sender {
      assert SameEntry(n, n3, n.owner[j].value);
    }
  }

  /** News about another node: its claim is treated like one in a ping. */
  lemma UpdateClaims(n: Node, h: Header, about: Id, epoch: nat, slots: set<Slot>)
    requires IsNews(n, h, about, epoch) && about != n.id && h.sender != n.id
    ensures var n' := HandleUpdate(n, h, about, epoch, slots);
      && |n'.owner| == |n.owner|
      && forall j :: 0 <= j < |n.owner| ==>
           n'.owner[j] == if Takes(n, about, epoch, slots, j) && TakesStill(n, h, about, epoch, j)
                          then Some(about) else n.owner[j]
  {
    HeaderKeeps(n, h);
    var n3 := Adopted(n, h, about, epoch);
    assert HandleUpdate(n, h, about, epoch, slots) == UpdateSlots(n3, about, epoch, slots);
    UpdateSlotsRole(n3, about, epoch, slots);
    ReboundIs(n3, n3, about, epoch, slots);
    forall j | 0 <= j < |n.owner|
      ensures Takes(n3, about, epoch, slots, j) <==>
              Takes(n, about, epoch, slots, j) && TakesStill(n, h, about, epoch, j)
    {
      AdoptedTakes(n, h, about, epoch, slots, j);
    }
    AdoptedIs(n, h, about, epoch);
  }

  /** It is a master with that epoch, and the receiver's role changes as with a ping. */
  lemma UpdateEffect(n: Node, h: Header, about: Id, epoch: nat, slots: set<Slot>)
    requires IsNews(n, h, about, epoch) && about != n.id && h.sender != n.id
    ensures var n' := HandleUpdate(n, h, about, epoch, slots);
      && IsMaster(n', about) && EpochOf(n', about) == epoch && EpochOf(n', n.id) == EpochOf(n, n.id)
      && n'.currentEpoch == Greater(n.currentEpoch, h.currentEpoch)
      && (forall y: Id :: y != about && y != h.sender && y != n.id ==> SameEntry(n, n', y))
      && if Dethroned(n, n', n.id, about) then SlaveOf(n, n', n.id, about) else SameRole(n, n', n.id)
  {
    HeaderKeeps(n, h);
    var n3 := Adopted(n, h, about, epoch);
    AdoptedIs(n, h, about, epoch);
    assert HandleUpdate(n, h, about, epoch, slots) == UpdateSlots(n3, about, epoch, slots);
    UpdateSlotsRole(n3, about, epoch, slots);
    UpdateSlotsTable(n3, about, epoch, slots);
    assert SameEntry(n, n3, n.id) && SameEntry(n3, HandleUpdate(n, h, about, epoch, slots), about);
    assert Throne(n3, n.id) == Throne(n, n.id);
  }

  /** ... where the epoch of the sender, if it owns the slot, is the one it just announced. */
  predicate TakesStill(n: Node, h: Header, about: Id, epoch: nat, j: Slot)
    requires j < |n.owner|
  {
    n.owner[j] == Some(h.sender) && h.sender != about ==> h.configEpoch < epoch
  }

  /** News about the receiver itself: it takes the epoch and becomes a master, and keeps its slots. */
  lemma UpdateAboutMe(n: Node, h: Header, epoch: nat, slots: set<Slot>)
    requires IsNews(n, h, n.id, epoch) && h.sender != n.id
    ensures var n' := HandleUpdate(n, h, n.id, epoch, slots);
      && n'.owner == n.owner && n'.importing == n.importing && IsMaster(n', n.id) && EpochOf(n', n.id) == epoch
      && MasterOf(n', n.id) == (if IsMaster(n, n.id) then MasterOf(n, n.id) else None)
      && n'.currentEpoch == Greater(n.currentEpoch, h.currentEpoch)
  {
    HeaderKeeps(n, h);
  }

  /** What is not news is believed only as far as the header goes. */
  lemma UpdateIsOld(n: Node, h: Header, about: Id, epoch: nat, slots: set<Slot>)
    requires h.sender in n.table && !IsNews(n, h, about, epoch)
    ensures var n' := HandleUpdate(n, h, about, epoch, slots);
      && n' == n.(currentEpoch := Greater(n.currentEpoch, h.currentEpoch), table := n'.table)
      && (forall y: Id :: y != h.sender ==> SameEntry(n, n', y))
      && EpochOf(n', h.sender) == Greater(EpochOf(n, h.sender), h.configEpoch)
      && IsMaster(n', h.sender) == IsMaster(n, h.sender) && MasterOf(n', h.sender) == MasterOf(n, h.sender)
  {
    HeaderKeeps(n, h);
  }

  /** In every run, whatever message arrives: a node changes its role only as told above. */
  lemma DeliveryRole(states: seq<Network>, steps: seq<Step>, elect: Electorate, k: nat)
    requires Run(states, steps, elect) && k < |steps| && steps[k].Deliver?
    ensures var i, m := steps[k].i, steps[k].m;
      var n, n' := states[k].nodes[i], states[k + 1].nodes[i];
      match m
      case Ping(h) =>
        if h.sender in n.table && Dethroned(n, n', i, h.sender) then SlaveOf(n, n', i, h.sender) else SameRole(n, n', i)
      case Update(h, about, epoch, _) =>
        if !IsNews(n, h, about, epoch) then SameRole(n, n', i)
        else if about == i then IsMaster(n', i)
        else if Dethroned(n, n', i, about) then SlaveOf(n, n', i, about)
        else SameRole(n, n', i)
      case Request(_, _) => SameRole(n, n', i)
  {
    RunInv(states, steps, elect, k);
    var i, m := steps[k].i, steps[k].m;
    var n := states[k].nodes[i];
    assert NodeOk(i, n);
    if m.hdr.sender !in n.table {
      StrangerIsIgnored(n, m, steps[k].lately);
    } else {
      match m
      case Ping(h) => PingRole(n, h);
      case Update(h, about, epoch, slots) =>
        if !IsNews(n, h, about, epoch) {
          UpdateIsOld(n, h, about, epoch, slots);
        } else if about == i {
          UpdateAboutMe(n, h, epoch, slots);
        } else {
          UpdateEffect(n, h, about, epoch, slots);
        }
      case Request(h, force) => HeaderKeeps(n, h);
    }
  }

  // --- elections ---------------------------------------------------------------------------------------------

  /** What a winner takes: the role, every slot of its old master and the epoch of the election, if its own is less. */
  lemma WinEffect(states: seq<Network>, steps: seq<Step>, elect: Electorate, k: nat)
    requires Run(states, steps, elect) && k < |steps| && steps[k].Win?
    ensures var i := steps[k].i; var n, n' := states[k].nodes[i], states[k + 1].nodes[i];
      && !IsMaster(n, i) && MasterOf(n, i).Some? && Serves(n, MasterOf(n, i).value)
      && IsMaster(n', i) && MasterOf(n', i).None? && |n'.owner| == |n.owner|
      && EpochOf(n', i) == (if EpochOf(n, i) < n.authEpoch then n.authEpoch else EpochOf(n, i))
      && (forall j :: 0 <= j < |n.owner| ==>
            n'.owner[j] == if n.owner[j] == MasterOf(n, i) then Some(i) else n.owner[j])
      && (forall y: Id :: y != i ==> SameEntry(n, n', y))
      && n'.currentEpoch == n.currentEpoch && n'.importing == n.importing && n'.lastVoteEpoch == n.lastVoteEpoch
  {
    RunInv(states, steps, elect, k);
    var i := steps[k].i;
    var n := states[k].nodes[i];
    assert NodeOk(i, n);
    ServedIffServes(n, MasterOf(n, i).value);
  }

  /** More than half of the cluster's size has been counted. */
  lemma WinNeedsMajority(states: seq<Network>, steps: seq<Step>, elect: Electorate, k: nat)
    requires Run(states, steps, elect) && k < |steps| && steps[k].Win?
    ensures var n := states[k].nodes[steps[k].i];
      n.authSent && 2 * n.authCount > n.size && n.authCount == |n.counted| + n.stray
  {
    RunInv(states, steps, elect, k);
    assert NodeOk(steps[k].i, states[k].nodes[steps[k].i]);
  }

  /** A slave whose master serves slots asks for votes in a new epoch, which is the greatest it knows. */
  lemma StartEffect(states: seq<Network>, steps: seq<Step>, elect: Electorate, k: nat)
    requires Run(states, steps, elect) && k < |steps| && steps[k].Start?
    ensures var i := steps[k].i; var n, n' := states[k].nodes[i], states[k + 1].nodes[i];
      && !IsMaster(n, i) && MasterOf(n, i).Some? && Serves(n, MasterOf(n, i).value) && !n.authSent
      && n' == n.(currentEpoch := n.currentEpoch + 1, authEpoch := n.currentEpoch + 1, authSent := true, won := false)
      && exists h: Header :: Announces(n', i, h) &&
           states[k + 1].messages == states[k].messages + {Request(h, steps[k].force)}
  {
    RunInv(states, steps, elect, k);
    var i := steps[k].i;
    var n, n' := states[k].nodes[i], states[k + 1].nodes[i];
    assert NodeOk(i, n);
    ServedIffServes(n, MasterOf(n, i).value);
    HeaderAnnounces(n');
    assert Announces(n', i, HeaderOf(n'));
  }

  /** A new attempt forgets the votes of the last one. */
  lemma ScheduleEffect(states: seq<Network>, steps: seq<Step>, elect: Electorate, k: nat)
    requires Run(states, steps, elect) && k < |steps| && steps[k].Schedule?
    ensures var n, n' := states[k].nodes[steps[k].i], states[k + 1].nodes[steps[k].i];
      n' == n.(authCount := 0, authSent := false, counted := {}, stray := 0)
  {
  }

  /** CLUSTER BUMPEPOCH: a node without the greatest epoch it knows of, or without any, gets a new one. */
  lemma BumpEffect(states: seq<Network>, steps: seq<Step>, elect: Electorate, k: nat)
    requires Run(states, steps, elect) && k < |steps| && steps[k].Bump?
    ensures var i := steps[k].i; var n, n' := states[k].nodes[i], states[k + 1].nodes[i];
      if EpochOf(n, i) > 0 && EpochOf(n, i) == n.currentEpoch then n' == n
      else
        && EpochOf(n', i) == n'.currentEpoch == n.currentEpoch + 1
        && (forall y: Id :: y != i ==> SameEntry(n, n', y) && EpochOf(n', y) < EpochOf(n', i))
        && SameRole(n, n', i) && n'.owner == n.owner
  {
    RunInv(states, steps, elect, k);
    assert NodeOk(steps[k].i, states[k].nodes[steps[k].i]);
  }

  /** Whatever is sent speaks the truth about its sender; an UPDATE also about the node it is about. */
  lemma MessagesAnnounce(states: seq<Network>, steps: seq<Step>, elect: Electorate, k: nat, m: Message)
    requires Run(states, steps, elect) && k < |steps| && m in states[k + 1].messages && m !in states[k].messages
    ensures var i := steps[k].i; var n' := states[k + 1].nodes[i];
      && i in states[k + 1].nodes && Announces(n', i, m.hdr)
      && (m.Update? ==> m.epoch == EpochOf(n', m.about))
      && (m.Update? ==> forall j: Slot :: j in m.slots <==> j < |n'.owner| && n'.owner[j] == Some(m.about))
  {
    RunInv(states, steps, elect, k);
    var i := steps[k].i;
    assert NodeOk(i, states[k].nodes[i]);
    HeaderAnnounces(states[k + 1].nodes[i]);
  }

  // --- who holds which epoch ------------------------------------------------------------------------------------

  lemma {:induction false} WinnersStay(states: seq<Network>, steps: seq<Step>, elect: Electorate, j: nat, k: nat)
    requires Run(states, steps, elect) && j <= k < |states|
    ensures states[j].winners <= states[k].winners
    decreases k - j
  {
    if j < k {
      WinnersStay(states, steps, elect, j, k - 1);
      assert states[k] == Apply(states[k - 1], steps[k - 1]) by {
        assert states[(k - 1) + 1] == states[k];
      }
    }
  }

  /** A node wins an election that it has not won before. */
  ghost predicate FirstWin(states: seq<Network>, steps: seq<Step>, k: nat) {
    && k < |steps| && k + 1 < |states| && steps[k].Win? && steps[k].i in states[k].nodes
    && !states[k].nodes[steps[k].i].won
  }

  lemma WinIsRecorded(states: seq<Network>, steps: seq<Step>, elect: Electorate, k: nat)
    requires Run(states, steps, elect) && FirstWin(states, steps, k)
    ensures var n := states[k].nodes[steps[k].i];
      Winner(steps[k].i, n.authEpoch, n.counted, n.stray) in states[k + 1].winners
  {
  }

  /**
    Two nodes that win with few enough stray ACKs, and had smaller configEpochs before, hold different
    configEpochs right after winning.
  */
  lemma WinnersHoldDifferentEpochs(states: seq<Network>, steps: seq<Step>, elect: Electorate, j: nat, k: nat)
    requires Run(states, steps, elect) && FirstWin(states, steps, j) && FirstWin(states, steps, k) && j < k
    requires var v, w := states[j].nodes[steps[j].i], states[k].nodes[steps[k].i];
      && steps[j].i != steps[k].i
      && EpochOf(v, steps[j].i) < v.authEpoch && EpochOf(w, steps[k].i) < w.authEpoch
      && v.stray + w.stray < StraysNeeded(|elect(v.authEpoch)|)
    ensures EpochOf(states[j + 1].nodes[steps[j].i], steps[j].i) != EpochOf(states[k + 1].nodes[steps[k].i], steps[k].i)
  {
    var v, w := states[j].nodes[steps[j].i], states[k].nodes[steps[k].i];
    WinEffect(states, steps, elect, j);
    WinEffect(states, steps, elect, k);
    WinIsRecorded(states, steps, elect, j);
    WinIsRecorded(states, steps, elect, k);
    WinnersStay(states, steps, elect, j + 1, k + 1);
    if v.authEpoch == w.authEpoch {
      ElectionSafety(states, steps, elect, k + 1, Winner(steps[j].i, v.authEpoch, v.counted, v.stray),
                     Winner(steps[k].i, w.authEpoch, w.counted, w.stray));
    }
  }
}
