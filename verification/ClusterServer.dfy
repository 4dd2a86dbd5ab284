/**
  The election code of project/network/redis/redis-3.2/src/cluster.c as it is written:
  methods that change server.cluster in place.  Each is tied to the function of module
  ClusterNode that the network model is made of.
*/
module ClusterServer {
  import opened Options
  import opened ClusterNode

  class Cluster {
    const id: Id
    var currentEpoch: nat
    var lastVoteEpoch: nat
    var authEpoch: nat    // failover_auth_epoch
    var authCount: nat    // failover_auth_count
    var authSent: bool    // failover_auth_sent
    var table: map<Id, Info>
    var slots: seq<Option<Id>>
    var importing: set<Slot>
    var size: nat
    ghost var won: bool
    ghost var counted: set<Id>
    ghost var stray: nat

    ghost function View(): Node
      reads this
    {
      Node(id, currentEpoch, lastVoteEpoch, authEpoch, authCount, authSent, won, counted, stray,
           table, slots, importing, size)
    }

    function Known(x: Id): (info: Info)
      reads this
      ensures info == Get(View(), x)
    {
      if x in table then table[x] else Info(0, false, None, false)
    }

    /** Does a node serve any slot, that is, is its numslots above 0? */
    method ServesAny(x: Id) returns (any: bool)
      ensures any <==> Served(View(), x) != {}
    {
      var j := 0;
      while j < |slots|
        invariant j <= |slots| && forall i :: 0 <= i < j ==> slots[i] != Some(x)
      {
        if slots[j] == Some(x) {
          assert j in Served(View(), x);
          return true;
        }
        j := j + 1;
      }
      assert Served(View(), x) == {};
      return false;
    }

    /** Lines 1626-1639, for a known sender */
    method ProcessHeader(h: Header)
      modifies `currentEpoch, `table
      ensures View() == ClusterNode.ProcessHeader(old(View()), h)
    {
      if h.currentEpoch > currentEpoch {
        currentEpoch := h.currentEpoch;
      }
      var sender := Known(h.sender);
      table := table[h.sender := sender.(configEpoch := Max(sender.configEpoch, h.configEpoch))];
    }

    /** Lines 2606-2622: is every claimed slot owned by someone with no greater configEpoch? */
    method ClaimIsRecent(h: Header) returns (ok: bool)
      ensures ok <==> forall j :: 0 <= j < |slots| && j in h.slots ==>
                        slots[j].None? || EpochOfOwner(View(), j) <= h.configEpoch
    {
      var j := 0;
      while j < |slots|
        invariant j <= |slots|
        invariant forall i :: 0 <= i < j && i in h.slots ==> slots[i].None? || EpochOfOwner(View(), i) <= h.configEpoch
      {
        if j in h.slots && slots[j].Some? && Known(slots[j].value).configEpoch > h.configEpoch {
          assert EpochOfOwner(View(), j) > h.configEpoch;
          return false;
        }
        j := j + 1;
      }
      return true;
    }

    /** clusterSendFailoverAuthIfNeeded: a vote, under exactly the conditions for one, or no change */
    method SendFailoverAuthIfNeeded(h: Header, force: bool, lately: bool) returns (vote: Option<Ack>)
      modifies `lastVoteEpoch
      ensures vote.Some? <==> GrantsVote(old(View()), h, force, lately)
      ensures vote.Some? ==> vote.value == Ack(HeaderOf(old(View())), h.sender)
      ensures View() == if vote.Some? then old(View()).(lastVoteEpoch := currentEpoch) else old(View())
    {
      var myself, candidate := Known(id), Known(h.sender);
      var serving := ServesAny(id);
      if !myself.master || !serving {
        return None;
      }
      if h.currentEpoch < currentEpoch {
        return None;
      }
      if lastVoteEpoch == currentEpoch {
        return None;
      }
      if candidate.master || candidate.slaveof.None? || (!Known(candidate.slaveof.value).failed && !force) {
        return None;
      }
      if lately {
        return None;
      }
      var recent := ClaimIsRecent(h);
      if !recent {
        return None;
      }
      vote := Some(Ack(Announce(), h.sender));
      lastVoteEpoch := currentEpoch;
    }

    /** clusterBuildMessageHdr */
    function Announce(): (h: Header)
      reads this
      ensures h == HeaderOf(View())
    {
      var me := Known(id);
      var master := if !me.master && me.slaveof.Some? then me.slaveof.value else id;
      var mine := set j | 0 <= j < |slots| && slots[j] == Some(master);
      Header(id, currentEpoch, Known(master).configEpoch, mine, me.slaveof)
    }

    /** clusterProcessPacket for FAILOVER_AUTH_REQUEST */
    method ReceiveRequest(h: Header, force: bool, lately: bool) returns (vote: Option<Ack>)
      modifies `currentEpoch, `table, `lastVoteEpoch
      ensures (View(), vote) == HandleRequest(old(View()), h, force, lately)
    {
      if h.sender !in table {
        return None;
      }
      ProcessHeader(h);
      vote := SendFailoverAuthIfNeeded(h, force, lately);
    }

    /** clusterProcessPacket for FAILOVER_AUTH_ACK */
    method ReceiveAck(h: Header)
      modifies `currentEpoch, `table, `authCount, `counted, `stray
      ensures View() == HandleAck(old(View()), h)
    {
      if h.sender !in table {
        return;
      }
      ProcessHeader(h);
      var serving := ServesAny(h.sender);
      if Known(h.sender).master && serving && h.currentEpoch >= authEpoch {
        authCount := authCount + 1;
        if Waiting(View()) {
          counted := counted + {h.sender};
        } else {
          stray := stray + 1;
        }
      }
    }

    /** clusterHandleConfigEpochCollision, behind the test at line 1901 */
    method HandleCollision(h: Header)
      modifies `currentEpoch, `table
      ensures View() == ResolveCollision(old(View()), h)
    {
      var sender, myself := Known(h.sender), Known(id);
      if !myself.master || !sender.master || h.configEpoch != myself.configEpoch {
        return;
      }
      if sender.configEpoch != myself.configEpoch {
        return;
      }
      if h.sender <= id {
        return;
      }
      currentEpoch := currentEpoch + 1;
      table := table[id := myself.(configEpoch := currentEpoch)];
    }

    /**
      clusterHandleSlaveFailover.  What the clock and the failure flags decide comes from outside:
      whether there is a reason to fail over, whether the data is recent enough, whether the last
      attempt is over, whether the delay has passed and whether the attempt has expired.
    */
    method HandleSlaveFailover(reason: bool, recent: bool, retry: bool, delayed: bool, expired: bool)
      returns (request: Option<Header>)
      modifies this
      ensures View() == var n := old(View());
        if !CanFailOver(n) || !reason || !recent then n
        else if retry then ScheduleElection(n)
        else if delayed || expired then n
        else if !n.authSent then StartElection(n)
        else if HasQuorum(n) then TakeOver(n) else n
      ensures request.Some? <==> !old(authSent) && authSent
      ensures request.Some? ==> request.value == HeaderOf(View())
    {
      request := None;
      var myself := Known(id);
      if myself.master || myself.slaveof.None? || !reason {
        return;
      }
      var serving := ServesAny(myself.slaveof.value);
      if !serving || !recent {
        return;
      }
      if retry {
        authCount, authSent := 0, false;
        counted, stray := {}, 0;
        return;
      }
      if delayed || expired {
        return;
      }
      if !authSent {
        currentEpoch := currentEpoch + 1;
        authEpoch, authSent, won := currentEpoch, true, false;
        request := Some(Announce());
        return;
      }
      if authCount >= size / 2 + 1 {
        Promote(myself.slaveof.value);
      }
    }

    /** Lines 2921-2930 and clusterFailoverReplaceYourMaster */
    method Promote(oldMaster: Id)
      requires !Self(View()).master && Self(View()).slaveof == Some(oldMaster)
      modifies `won, `table, `slots
      ensures View() == TakeOver(old(View()))
    {
      var myself := Known(id);
      won := true;
      if myself.configEpoch < authEpoch {
        myself := myself.(configEpoch := authEpoch);
      }
      table := table[id := myself];
      table := table[id := myself.(master := true, slaveof := None)];
      slots := Rebind(slots, oldMaster, Some(id));
    }
  }
}
