/**
  Slot ownership in project/network/redis/redis-3.2/src/cluster.c: the table
  server.cluster->slots and the bitmap and counter each node carries, kept in step by
  clusterAddSlot and clusterDelSlot and by the loops that move many slots.
*/
module SlotTable {
  import opened Options
  import opened ClusterNode

  function Count(bits: seq<bool>): nat {
    if bits == [] then 0 else (if bits[0] then 1 else 0) + Count(bits[1..])
  }

  lemma {:induction false} CountUpdate(bits: seq<bool>, j: nat, b: bool)
    requires j < |bits|
    ensures Count(bits[j := b]) == Count(bits) - (if bits[j] then 1 else 0) + (if b then 1 else 0)
  {
    if j == 0 {
      assert bits[0 := b][1..] == bits[1..];
    } else {
      CountUpdate(bits[1..], j - 1, b);
      assert bits[j := b][1..] == bits[1..][j - 1 := b];
    }
  }

  lemma {:induction false} CountZero(bits: seq<bool>)
    ensures Count(bits) == 0 <==> forall j :: 0 <= j < |bits| ==> !bits[j]
  {
    if bits != [] {
      CountZero(bits[1..]);
      assert forall j :: 0 < j < |bits| ==> bits[j] == bits[1..][j - 1];
      assert forall j :: 0 <= j < |bits[1..]| ==> bits[1..][j] == bits[j + 1];
    }
  }

  lemma {:induction false} CountAll(bits: seq<bool>)
    ensures Count(bits) <= |bits|
    ensures Count(bits) == |bits| <==> forall j :: 0 <= j < |bits| ==> bits[j]
  {
    if bits != [] {
      CountAll(bits[1..]);
      assert forall j :: 0 < j < |bits| ==> bits[j] == bits[1..][j - 1];
      assert forall j :: 0 <= j < |bits[1..]| ==> bits[1..][j] == bits[j + 1];
    }
  }

  /** Bit j of node n is set exactly when slot j is bound to it, and `num` counts its bits. */
  ghost predicate Agrees(slots: seq<Option<Id>>, n: Id, bits: seq<bool>, num: nat) {
    && |bits| == |slots| && num == Count(bits)
    && forall j :: 0 <= j < |slots| ==> (bits[j] <==> slots[j] == Some(n))
  }

  lemma BindAgrees(slots: seq<Option<Id>>, n: Id, bits: seq<bool>, num: nat, j: nat, o: Option<Id>)
    requires Agrees(slots, n, bits, num) && j < |slots|
    ensures o == Some(n) && slots[j] != Some(n) ==> Agrees(slots[j := o], n, bits[j := true], num + 1)
    ensures o != Some(n) && slots[j] == Some(n) ==> num > 0 && Agrees(slots[j := o], n, bits[j := false], num - 1)
    ensures o != Some(n) && slots[j] != Some(n) ==> Agrees(slots[j := o], n, bits, num)
  {
    CountUpdate(bits, j, true);
    CountUpdate(bits, j, false);
  }

  /** Slots are bound to known nodes only, whose bitmaps and counters agree with the table. */
  ghost predicate Consistent(slots: seq<Option<Id>>, bitmap: map<Id, seq<bool>>, numslots: map<Id, nat>) {
    && |slots| == SLOTS && bitmap.Keys == numslots.Keys
    && (forall j :: 0 <= j < SLOTS && slots[j].Some? ==> slots[j].value in bitmap)
    && (forall n :: n in bitmap ==> Agrees(slots, n, bitmap[n], numslots[n]))
  }

  lemma BindKeeps(slots: seq<Option<Id>>, bitmap: map<Id, seq<bool>>, numslots: map<Id, nat>, n: Id, j: Slot)
    requires Consistent(slots, bitmap, numslots) && n in bitmap && j < SLOTS && slots[j].None?
    ensures |bitmap[n]| == SLOTS && !bitmap[n][j]
    ensures Consistent(slots[j := Some(n)], bitmap[n := bitmap[n][j := true]], numslots[n := numslots[n] + 1])
  {
    forall m | m in bitmap
      ensures m != n ==> Agrees(slots[j := Some(n)], m, bitmap[m], numslots[m])
      ensures m == n ==> Agrees(slots[j := Some(n)], m, bitmap[m][j := true], numslots[m] + 1) && !bitmap[m][j]
    {
      BindAgrees(slots, m, bitmap[m], numslots[m], j, Some(n));
    }
  }

  lemma FreeKeeps(slots: seq<Option<Id>>, bitmap: map<Id, seq<bool>>, numslots: map<Id, nat>, n: Id, j: Slot)
    requires Consistent(slots, bitmap, numslots) && j < SLOTS && slots[j] == Some(n)
    ensures n in bitmap && |bitmap[n]| == SLOTS && bitmap[n][j] && numslots[n] > 0
    ensures Consistent(slots[j := None], bitmap[n := bitmap[n][j := false]], numslots[n := numslots[n] - 1])
  {
    forall m | m in bitmap
      ensures m != n ==> Agrees(slots[j := None], m, bitmap[m], numslots[m])
      ensures m == n ==> bitmap[m][j] && numslots[m] > 0 &&
                         Agrees(slots[j := None], m, bitmap[m][j := false], numslots[m] - 1)
    {
      BindAgrees(slots, m, bitmap[m], numslots[m], j, None);
    }
  }

  class SlotTable {
    var slots: seq<Option<Id>>
    var bitmap: map<Id, seq<bool>>
    var numslots: map<Id, nat>

    ghost predicate Valid()
      reads this
    {
      Consistent(slots, bitmap, numslots)
    }

    /** A table in which no slot is bound, for the given nodes */
    constructor (nodes: seq<Id>)
      ensures Valid() && fresh(this) && slots == seq(SLOTS, _ => None) && forall n :: n in nodes <==> n in bitmap
    {
      slots := seq(SLOTS, _ => None);
      bitmap := map n | n in nodes :: seq(SLOTS, _ => false);
      numslots := map n | n in nodes :: 0;
      new;
      CountZero(seq(SLOTS, _ => false));
    }

    /** clusterAddSlot */
    method AddSlot(n: Id, j: Slot) returns (ok: bool)
      requires Valid() && n in bitmap && j < SLOTS
      modifies this
      ensures Valid() && bitmap.Keys == old(bitmap.Keys)
      ensures ok <==> old(slots[j]).None?
      ensures slots == if ok then old(slots)[j := Some(n)] else old(slots)
    {
      if slots[j].Some? {
        return false;
      }
      BindKeeps(slots, bitmap, numslots, n, j);
      if !bitmap[n][j] {
        numslots := numslots[n := numslots[n] + 1];
      }
      bitmap := bitmap[n := bitmap[n][j := true]];
      slots := slots[j := Some(n)];
      return true;
    }

    /** clusterDelSlot, whose assert that the owner's bit was set never fails */
    method DelSlot(j: Slot) returns (ok: bool)
      requires Valid() && j < SLOTS
      modifies this
      ensures Valid() && bitmap.Keys == old(bitmap.Keys)
      ensures ok <==> old(slots[j]).Some?
      ensures slots == old(slots)[j := None]
    {
      if slots[j].None? {
        return false;
      }
      var n := slots[j].value;
      FreeKeeps(slots, bitmap, numslots, n, j);
      assert bitmap[n][j];
      numslots := numslots[n := numslots[n] - 1];
      bitmap := bitmap[n := bitmap[n][j := false]];
      slots := slots[j := None];
      return true;
    }

    /** clusterDelSlot followed by clusterAddSlot, as every caller that moves a slot does */
    method MoveSlot(n: Id, j: Slot)
      requires Valid() && n in bitmap && j < SLOTS
      modifies this
      ensures Valid() && bitmap.Keys == old(bitmap.Keys)
      ensures slots == old(slots)[j := Some(n)]
    {
      ghost var was := slots;
      var _ := DelSlot(j);
      var _ := AddSlot(n, j);
      assert slots == was[j := Some(n)];
    }

    /** A node's bit, which is what the loops test */
    method HasSlot(n: Id, j: Slot) returns (b: bool)
      requires Valid() && n in bitmap && j < SLOTS
      ensures b <==> slots[j] == Some(n)
    {
      assert Agrees(slots, n, bitmap[n], numslots[n]);
      b := bitmap[n][j];
    }

    lemma NoSlots(was: seq<Option<Id>>, n: Id, o: Option<Id>)
      requires Valid() && n in bitmap && slots == Rebind(was, n, o) && o != Some(n)
      ensures numslots[n] == 0
    {
      assert Agrees(slots, n, bitmap[n], numslots[n]);
      CountZero(bitmap[n]);
    }

    lemma AllSlots(n: Id)
      requires Valid() && n in bitmap
      ensures numslots[n] == SLOTS <==> forall j :: 0 <= j < SLOTS ==> slots[j] == Some(n)
    {
      assert Agrees(slots, n, bitmap[n], numslots[n]);
      CountAll(bitmap[n]);
    }

    /**
      clusterDelNodeSlots: the node ends without slots and nobody else loses any.  The result is meant to
      be the number of slots the node had; it is if and only if the node had all there are.
    */
    method DelNodeSlots(n: Id) returns (deleted: nat)
      requires Valid() && n in bitmap
      modifies this
      ensures Valid() && bitmap.Keys == old(bitmap.Keys)
      ensures slots == Rebind(old(slots), n, None) && numslots[n] == 0 && deleted == SLOTS
      ensures deleted == old(numslots[n]) <==> forall j :: 0 <= j < SLOTS ==> old(slots)[j] == Some(n)
    {
      ghost var was := slots;
      AllSlots(n);
      deleted := 0;
      var j := 0;
      while j < SLOTS
        invariant deleted == j <= SLOTS && Valid() && bitmap.Keys == old(bitmap.Keys)
        invariant slots == Partly(was, Rebind(was, n, None), j)
      {
        Advance(was, Rebind(was, n, None), j);
        DelSlotOf(n, j);
        deleted := deleted + 1;
        j := j + 1;
      }
      NoSlots(was, n, None);
    }

    // Turns of the loops of DelNodeSlots, ReplaceMaster and UpdateWith.

    method DelSlotOf(n: Id, j: Slot)
      requires Valid() && n in bitmap && j < SLOTS
      modifies this
      ensures Valid() && bitmap.Keys == old(bitmap.Keys)
      ensures slots == if old(slots)[j] == Some(n) then old(slots)[j := None] else old(slots)
    {
      var bit := HasSlot(n, j);
      if bit {
        var _ := DelSlot(j);
      }
    }

    method MoveSlotOf(n: Id, to: Id, j: Slot)
      requires Valid() && n in bitmap && to in bitmap && j < SLOTS
      modifies this
      ensures Valid() && bitmap.Keys == old(bitmap.Keys)
      ensures slots == if old(slots)[j] == Some(n) then old(slots)[j := Some(to)] else old(slots)
    {
      var bit := HasSlot(n, j);
      if bit {
        MoveSlot(to, j);
      }
    }

    method MoveIfClaimed(n: Node, x: Id, epoch: nat, claimed: set<Slot>, current: Option<Id>, j: Slot)
      returns (lost: bool)
      requires Valid() && x in bitmap && j < SLOTS && |n.owner| == SLOTS && n.owner[j] == slots[j]
      modifies this
      ensures Valid() && bitmap.Keys == old(bitmap.Keys)
      ensures slots == if Rebinds(n, x, epoch, claimed, j) then old(slots)[j := Some(x)] else old(slots)
      ensures lost <==> Rebinds(n, x, epoch, claimed, j) && n.owner[j] == current
    {
      lost := false;
      if j in claimed && slots[j] != Some(x) && j !in n.importing {
        if slots[j].None? || Get(n, slots[j].value).configEpoch < epoch {
          if slots[j] == current {
            lost := true;
          }
          MoveSlot(x, j);
        }
      }
    }

    // One turn of the loop of clusterUpdateSlotsConfigWith
    method UpdateAt(n: Node, x: Id, epoch: nat, claimed: set<Slot>, current: Option<Id>, j: Slot,
                    ghost goal: seq<Option<Id>>)
      returns (lost: bool)
      requires Valid() && x in bitmap && j < SLOTS && |n.owner| == SLOTS
      requires goal == Rebound(n, x, epoch, claimed) && slots == Partly(n.owner, goal, j)
      modifies this
      ensures Valid() && bitmap.Keys == old(bitmap.Keys) && slots == Partly(n.owner, goal, j + 1)
      ensures LostBefore(n, x, epoch, claimed, current, j + 1) <==>
              LostBefore(n, x, epoch, claimed, current, j) || lost
    {
      Advance(n.owner, goal, j);
      LostAt(n, x, epoch, claimed, current, j);
      lost := MoveIfClaimed(n, x, epoch, claimed, current, j);
    }

    /**
      The loop of clusterUpdateSlotsConfigWith on a node whose slot table this is: exactly the
      slots that were unbound, or whose claim is newer, move to the claimant.  `lost` says that one
      of them was bound to `current`.
    */
    method UpdateWith(n: Node, x: Id, epoch: nat, claimed: set<Slot>, current: Option<Id>) returns (lost: bool)
      requires Valid() && x in bitmap && n.owner == slots
      modifies this
      ensures Valid() && bitmap.Keys == old(bitmap.Keys)
      ensures slots == Rebound(n, x, epoch, claimed)
      ensures lost <==> LosesSlot(n, x, epoch, claimed, current)
    {
      ghost var goal := Rebound(n, x, epoch, claimed);
      LostNever(n, x, epoch, claimed, current);
      lost := false;
      var j := 0;
      while j < SLOTS
        invariant j <= SLOTS && |goal| == SLOTS && Valid() && bitmap.Keys == old(bitmap.Keys)
        invariant slots == Partly(n.owner, goal, j)
        invariant lost <==> LostBefore(n, x, epoch, claimed, current, j)
      {
        var here := UpdateAt(n, x, epoch, claimed, current, j, goal);
        lost := lost || here;
        j := j + 1;
      }
      LostAll(n, x, epoch, claimed, current);
    }

    /** The loop of clusterFailoverReplaceYourMaster: every slot of the old master, and it keeps none. */
    method ReplaceMaster(me: Id, oldMaster: Id)
      requires Valid() && me in bitmap && oldMaster in bitmap && me != oldMaster
      modifies this
      ensures Valid() && bitmap.Keys == old(bitmap.Keys)
      ensures slots == Rebind(old(slots), oldMaster, Some(me)) && numslots[oldMaster] == 0
    {
      ghost var was := slots;
      var j := 0;
      while j < SLOTS
        invariant j <= SLOTS && Valid() && bitmap.Keys == old(bitmap.Keys)
        invariant slots == Partly(was, Rebind(was, oldMaster, Some(me)), j)
      {
        Advance(was, Rebind(was, oldMaster, Some(me)), j);
        MoveSlotOf(oldMaster, me, j);
        j := j + 1;
      }
      NoSlots(was, oldMaster, Some(me));
    }
  }

  /** A node with one slot gives it up, and clusterDelNodeSlots reports 16384. */
  method DeletedIsNotCounted(n: Id, j: Slot) returns (had: nat, deleted: nat)
    requires j < SLOTS
    ensures had == 1 && deleted == 16384
  {
    var t := new SlotTable([n]);
    var bound := t.AddSlot(n, j);
    assert Agrees(t.slots, n, t.bitmap[n], t.numslots[n]);
    CountOne(t.bitmap[n], j);
    had := t.numslots[n];
    deleted := t.DelNodeSlots(n);
  }

  lemma CountOne(bits: seq<bool>, j: nat)
    requires j < |bits| && forall i :: 0 <= i < |bits| ==> (bits[i] <==> i == j)
    ensures Count(bits) == 1
  {
    CountUpdate(bits, j, false);
    CountZero(bits[j := false]);
  }

  /** A slave without a master and a table without slots: the first claim sets newmaster, and curmaster is null. */
  method LonelySlave(x: Id, epoch: nat, j: Slot) returns (newmaster: bool)
    requires x != 0 && j < SLOTS
    ensures newmaster
    ensures exists n: Node :: n.id == 0 && FollowsNull(n, x, epoch, {j})
  {
    var t := new SlotTable([x]);
    var n := Node(0, 0, 0, 0, 0, false, false, {}, 0, map[0 := Info(0, false, None, false)], t.slots, {}, 1);
    assert n.owner[j] == None && Rebinds(n, x, epoch, {j}, j);
    newmaster := t.UpdateWith(n, x, epoch, {j}, CurrentMaster(n));
    assert FollowsNull(n, x, epoch, {j});
  }

  // --- the loops above, on sequences -----------------------------------------------------

  /** The first j slots as in `goal`, the others as they were. */
  ghost function Partly(was: seq<Option<Id>>, goal: seq<Option<Id>>, j: nat): (r: seq<Option<Id>>)
    requires j <= |was| == |goal|
    ensures |r| == |was| && (j < |was| ==> r[j] == was[j]) && (j == |was| ==> r == goal)
  {
    goal[..j] + was[j..]
  }

  lemma Advance(was: seq<Option<Id>>, goal: seq<Option<Id>>, j: nat)
    requires j < |was| == |goal|
    ensures Partly(was, goal, j + 1) == Partly(was, goal, j)[j := goal[j]]
    ensures was[j] == goal[j] ==> Partly(was, goal, j + 1) == Partly(was, goal, j)
  {
  }

  ghost predicate LostBefore(n: Node, x: Id, epoch: nat, claimed: set<Slot>, current: Option<Id>, j: nat) {
    exists i | 0 <= i < |n.owner| && i < j :: n.owner[i] == current && Rebinds(n, x, epoch, claimed, i)
  }

  lemma LostAt(n: Node, x: Id, epoch: nat, claimed: set<Slot>, current: Option<Id>, j: nat)
    requires j < |n.owner|
    ensures LostBefore(n, x, epoch, claimed, current, j + 1) <==>
            (|| LostBefore(n, x, epoch, claimed, current, j)
             || (n.owner[j] == current && Rebinds(n, x, epoch, claimed, j)))
  {
  }

  lemma LostNever(n: Node, x: Id, epoch: nat, claimed: set<Slot>, current: Option<Id>)
    ensures !LostBefore(n, x, epoch, claimed, current, 0)
  {
  }

  lemma LostAll(n: Node, x: Id, epoch: nat, claimed: set<Slot>, current: Option<Id>)
    ensures LostBefore(n, x, epoch, claimed, current, |n.owner|) == LosesSlot(n, x, epoch, claimed, current)
  {
  }
}
