/**
  How messages move slots from one owner to another
  (project/network/redis/redis-3.2/src/cluster.c): only to a claimant with a greater
  configEpoch, unless the slot is free or its owner announces that it became a slave.
*/
module SlotOwnership {
  import opened Options
  import opened ClusterNode
  import opened ClusterNetwork

  /** The node a message speaks for, the slots it claims for it and the epoch of the claim. */
  function Claimant(m: Message): Id {
    if m.Update? then m.about else m.hdr.sender
  }

  function ClaimedSlots(m: Message): set<Slot> {
    match m
    case Ping(h) => h.slots
    case Update(_, _, _, slots) => slots
    case Request(_, _) => {}
  }

  function ClaimEpoch(m: Message): nat {
    if m.Update? then m.epoch else m.hdr.configEpoch
  }

  predicate Released(n: Node, n': Node, m: Message, j: Slot)
    requires j < |n.owner| == |n'.owner|
  {
    m.Ping? && m.hdr.slaveof.Some? && n.owner[j] == Some(m.hdr.sender) && n'.owner[j] == None
  }

  predicate Claimed(n: Node, n': Node, m: Message, j: Slot)
    requires j < |n.owner| == |n'.owner|
  {
    && n'.owner[j] == Some(Claimant(m)) != n.owner[j] && j in ClaimedSlots(m) && j !in n.importing
    && (n.owner[j].None? || EpochOfOwner(n, j) < ClaimEpoch(m))
  }

  // --- the parts of a handler ----------------------------------------------------------

  /** No epoch in the table goes back, none but x's changes, and the slots stay. */
  ghost predicate Raises(n: Node, n': Node, x: Id) {
    && n'.importing == n.importing && n'.owner == n.owner
    && (forall y: Id :: Get(n', y).configEpoch >= Get(n, y).configEpoch)
    && (forall y: Id :: y != x ==> Get(n', y).configEpoch == Get(n, y).configEpoch)
  }

  ghost predicate SameTableEpochs(n: Node, n': Node) {
    forall y: Id :: Get(n', y).configEpoch == Get(n, y).configEpoch
  }

  lemma HeaderRaises(n: Node, h: Header)
    ensures Raises(n, ProcessHeader(n, h), h.sender)
    ensures Get(ProcessHeader(n, h), h.sender).configEpoch >= h.configEpoch
  {
  }

  lemma SwitchKeepsEpochs(n: Node, h: Header)
    ensures SameTableEpochs(n, SwitchRole(n, h)) && SwitchRole(n, h).importing == n.importing
    ensures |SwitchRole(n, h).owner| == |n.owner|
  {
  }

  lemma SwitchReleases(n: Node, h: Header, j: Slot)
    requires j < |n.owner|
    ensures |SwitchRole(n, h).owner| == |n.owner|
    ensures || SwitchRole(n, h).owner[j] == n.owner[j]
            || (h.slaveof.Some? && n.owner[j] == Some(h.sender) && SwitchRole(n, h).owner[j] == None)
  {
  }

  lemma UpdateMoves(n: Node, x: Id, epoch: nat, claimed: set<Slot>, j: Slot)
    requires j < |n.owner|
    ensures SameTableEpochs(n, UpdateSlots(n, x, epoch, claimed))
    ensures |UpdateSlots(n, x, epoch, claimed).owner| == |n.owner|
    ensures UpdateSlots(n, x, epoch, claimed).owner[j] ==
            if x != n.id && Rebinds(n, x, epoch, claimed, j) then Some(x) else n.owner[j]
  {
  }

  lemma AdoptRaises(n: Node, x: Id, epoch: nat)
    requires Get(n, x).configEpoch < epoch
    ensures var n' := SetAsMaster(n, x); Raises(n, Put(n', x, Get(n', x).(configEpoch := epoch)), x)
  {
  }

  /** Epochs that rose before the slots were updated do not blur the comparison. */
  lemma RaisedThenUpdated(n: Node, n1: Node, m: Message, j: Slot)
    requires j < |n.owner| && !m.Request? && n1.owner == n.owner && n1.importing == n.importing
    requires forall y: Id :: Get(n1, y).configEpoch >= Get(n, y).configEpoch
    requires Get(n1, Claimant(m)).configEpoch >= ClaimEpoch(m)
    ensures MovesUp(n, UpdateSlots(n1, Claimant(m), ClaimEpoch(m), ClaimedSlots(m)), m, j)
  {
    UpdateMoves(n1, Claimant(m), ClaimEpoch(m), ClaimedSlots(m), j);
  }

  lemma CollisionKeepsSlots(n: Node, h: Header)
    requires Bounded(n)
    ensures ResolveCollision(n, h).owner == n.owner
    ensures forall y: Id :: Get(ResolveCollision(n, h), y).configEpoch >= Get(n, y).configEpoch
  {
  }

  // --- what one message can do to one slot ----------------------------------------------

  /** The two ways a slot changes hands, and its owner's epoch never goes back unless it is released. */
  ghost predicate MovesUp(n: Node, n': Node, m: Message, j: Slot) {
    && j < |n.owner| == |n'.owner|
    && (n'.owner[j] == n.owner[j] || Released(n, n', m, j) || Claimed(n, n', m, j))
    && (Released(n, n', m, j) || EpochOfOwner(n', j) >= EpochOfOwner(n, j))
    && (n.owner[j].Some? && n'.owner[j].Some? && n'.owner[j] != n.owner[j] ==> EpochOfOwner(n', j) > EpochOfOwner(n, j))
  }

  lemma PingMoves(n: Node, h: Header, j: Slot)
    requires Bounded(n) && h.configEpoch <= h.currentEpoch && h.sender != n.id && j < |n.owner|
    ensures MovesUp(n, HandlePing(n, h), Ping(h), j)
  {
    if h.sender in n.table {
      var n0 := ProcessHeader(n, h);
      HeaderRaises(n, h);
      HeaderFrame(n, h);
      var n1 := SwitchRole(n0, h);
      SwitchKeepsEpochs(n0, h);
      SwitchReleases(n0, h, j);
      SwitchRoleFrame(n0, h);
      UpdateMoves(n1, h.sender, h.configEpoch, h.slots, j);
      UpdateSlotsFrame(n1, h.sender, h.configEpoch, h.slots);
      var n2 := if Get(n1, h.sender).master && Served(n1, h.sender) != h.slots
                then UpdateSlots(n1, h.sender, h.configEpoch, h.slots) else n1;
      CollisionKeepsSlots(n2, h);
    }
  }

  lemma UpdateMessageMoves(n: Node, h: Header, about: Id, epoch: nat, slots: set<Slot>, j: Slot)
    requires j < |n.owner|
    ensures MovesUp(n, HandleUpdate(n, h, about, epoch, slots), Update(h, about, epoch, slots), j)
  {
    if h.sender in n.table {
      var n1 := ProcessHeader(n, h);
      HeaderRaises(n, h);
      if about in n1.table && Get(n1, about).configEpoch < epoch {
        var n2 := SetAsMaster(n1, about);
        var n3 := Put(n2, about, Get(n2, about).(configEpoch := epoch));
        AdoptRaises(n1, about, epoch);
        RaisedThenUpdated(n, n3, Update(h, about, epoch, slots), j);
      }
    }
  }

  /**
    In every reachable state, whatever message is delivered: a slot keeps its owner, or a free or
    less recent owner loses it to the claimant, or the sender gives it up by becoming a slave.
  */
  lemma DeliveryMovesUp(states: seq<Network>, steps: seq<Step>, elect: Electorate, k: nat, j: Slot)
    requires Run(states, steps, elect) && k < |steps| && steps[k].Deliver?
    requires j < |states[k].nodes[steps[k].i].owner|
    ensures MovesUp(states[k].nodes[steps[k].i], states[k + 1].nodes[steps[k].i], steps[k].m, j)
  {
    RunInv(states, steps, elect, k);
    var n, m := states[k].nodes[steps[k].i], steps[k].m;
    assert MessageOk(states[k], m) && NodeOk(steps[k].i, n);
    match m
    case Ping(h) => PingMoves(n, h, j);
    case Update(h, about, epoch, slots) => UpdateMessageMoves(n, h, about, epoch, slots, j);
    case Request(h, force) => HeaderRaises(n, h);
  }

  // --- what a message must do -------------------------------------------------------------------

  /** A claim that must win: the slot is free, or its owner less recent. */
  predicate Winning(n: Node, epoch: nat, claimed: set<Slot>, j: Slot) {
    j < |n.owner| && j in claimed && j !in n.importing && (n.owner[j].None? || EpochOfOwner(n, j) < epoch)
  }

  /** A master's ping binds every slot that it claims and that is free or whose owner is less recent. */
  lemma PingBinds(n: Node, h: Header, j: Slot)
    requires Bounded(n) && h.configEpoch <= h.currentEpoch && h.sender in n.table && h.sender != n.id
    requires h.slaveof.None? && Winning(n, h.configEpoch, h.slots, j)
    ensures var n' := HandlePing(n, h);
      |n'.owner| == |n.owner| && n'.owner[j] == Some(h.sender) && Get(n', h.sender).configEpoch >= h.configEpoch
  {
    var n0 := ProcessHeader(n, h);
    HeaderRaises(n, h);
    HeaderFrame(n, h);
    var n1 := SwitchRole(n0, h);
    SwitchKeepsEpochs(n0, h);
    SwitchRoleFrame(n0, h);
    assert n1.owner == n.owner && Get(n1, h.sender).master;
    if n.owner[j] != Some(h.sender) {
      assert j !in Served(n1, h.sender);
    }
    UpdateMoves(n1, h.sender, h.configEpoch, h.slots, j);
    UpdateSlotsFrame(n1, h.sender, h.configEpoch, h.slots);
    var n2 := if Served(n1, h.sender) != h.slots then UpdateSlots(n1, h.sender, h.configEpoch, h.slots) else n1;
    CollisionKeepsSlots(n2, h);
  }

  /** A ping from a slave that was known as a master frees all slots it had. */
  lemma PingReleases(n: Node, h: Header, j: Slot)
    requires Bounded(n) && h.configEpoch <= h.currentEpoch && h.sender in n.table && h.sender != n.id
    requires h.slaveof.Some? && Get(n, h.sender).master && j < |n.owner|
    ensures var n' := HandlePing(n, h);
      |n'.owner| == |n.owner| && n'.owner[j] == (if n.owner[j] == Some(h.sender) then None else n.owner[j])
      && !Get(n', h.sender).master
  {
  }

  /** An UPDATE with a newer epoch is believed: role, epoch and every slot that the claim must win. */
  lemma UpdateBinds(n: Node, h: Header, about: Id, epoch: nat, slots: set<Slot>, j: Slot)
    requires h.sender in n.table && about in n.table && about != n.id
    requires var n1 := ProcessHeader(n, h); Get(n1, about).configEpoch < epoch && Winning(n1, epoch, slots, j)
    ensures var n' := HandleUpdate(n, h, about, epoch, slots);
      && |n'.owner| == |n.owner| && n'.owner[j] == Some(about)
      && Get(n', about).configEpoch == epoch && Get(n', about).master
  {
    var n1 := ProcessHeader(n, h);
    var n2 := SetAsMaster(n1, about);
    var n3 := Put(n2, about, Get(n2, about).(configEpoch := epoch));
    UpdateMoves(n3, about, epoch, slots, j);
  }

  /** A winner takes every slot of its old master, which keeps none, and the epoch of the election. */
  lemma TakeOverClaims(n: Node, j: Slot)
    requires CanFailOver(n) && j < |n.owner| && Self(n).slaveof.value != n.id
    ensures var n' := TakeOver(n); var oldMaster := Self(n).slaveof.value;
      && |n'.owner| == |n.owner| && Self(n').master && Self(n').slaveof.None?
      && Self(n').configEpoch == (if Self(n).configEpoch < n.authEpoch then n.authEpoch else Self(n).configEpoch)
      && n'.owner[j] == (if n.owner[j] == Some(oldMaster) then Some(n.id) else n.owner[j])
      && Served(n', oldMaster) == {}
  {
  }
}
