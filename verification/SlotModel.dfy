/**
 Slot ownership as a value: the table of owners and, for each node, the bitmap of
 its slots and their number, which must always say the same as the table.
 */
module SlotModel {
  import opened Wrappers
  import opened ClusterNode

  type Slots = seq<Option<NodeId>>

  /** The part of clusterNode that concerns slots. */
  datatype Node = Node(configEpoch: nat, isMaster: bool, slaveof: Option<NodeId>, bits: seq<bool>, numslots: nat)

  type Nodes = map<NodeId, Node>

  function Count(b: seq<bool>): nat
    decreases |b|
  {
    if b == [] then 0 else Count(b[..|b| - 1]) + if b[|b| - 1] then 1 else 0
  }

  lemma {:induction false} CountSet(b: seq<bool>, j: nat)
    requires j < |b| && !b[j]
    ensures Count(b[j := true]) == Count(b) + 1
    decreases |b|
  {
    var last := |b| - 1;
    if j == last {
      assert b[j := true][..last] == b[..last];
    } else {
      CountSet(b[..last], j);
      assert b[j := true][..last] == b[..last][j := true];
    }
  }

  lemma {:induction false} CountClear(b: seq<bool>, j: nat)
    requires j < |b| && b[j]
    ensures Count(b[j := false]) + 1 == Count(b)
  {
    CountSet(b[j := false], j);
    assert b[j := false][j := true] == b;
  }

  lemma {:induction false} CountZero(b: seq<bool>)
    ensures Count(b) == 0 <==> forall j :: 0 <= j < |b| ==> !b[j]
    decreases |b|
  {
    if b != [] {
      var c := b[..|b| - 1];
      CountZero(c);
      assert forall j :: 0 <= j < |b| ==> b[j] == if j < |c| then c[j] else b[|b| - 1];
    }
  }

  // ----- the table and the nodes agree -----

  ghost predicate KnownRefs(refs: Slots, nodes: Nodes) {
    forall j :: 0 <= j < |refs| && refs[j].Some? ==> refs[j].value in nodes
  }

  ghost predicate NodeAgrees(slots: Slots, n: NodeId, node: Node) {
    && |node.bits| == |slots| && (forall j :: 0 <= j < |slots| ==> (node.bits[j] <==> slots[j] == Some(n)))
    && node.numslots == Count(node.bits)
  }

  ghost predicate TableOk(slots: Slots, nodes: Nodes) {
    |slots| == CLUSTER_SLOTS && KnownRefs(slots, nodes) && forall n :: n in nodes ==> NodeAgrees(slots, n, nodes[n])
  }

  predicate SameRole(a: Node, b: Node) { b.configEpoch == a.configEpoch && b.isMaster == a.isMaster && b.slaveof == a.slaveof }

  ghost predicate SameRoles(nodes: Nodes, nodes': Nodes) {
    nodes'.Keys == nodes.Keys && forall n :: n in nodes ==> SameRole(nodes[n], nodes'[n])
  }

  function WithBit(node: Node, j: nat): Node
    requires j < |node.bits|
  {
    node.(bits := node.bits[j := true], numslots := if node.bits[j] then node.numslots else node.numslots + 1)
  }

  function WithoutBit(node: Node, j: nat): Node
    requires j < |node.bits| && (node.bits[j] ==> node.numslots > 0)
  {
    node.(bits := node.bits[j := false], numslots := if node.bits[j] then node.numslots - 1 else node.numslots)
  }

  lemma {:induction false} BitSet(slots: Slots, n: NodeId, node: Node, j: nat)
    requires NodeAgrees(slots, n, node) && j < |slots| && slots[j].None?
    ensures j < |node.bits| && NodeAgrees(slots[j := Some(n)], n, WithBit(node, j))
  {
    CountSet(node.bits, j);
    hide Count;
  }

  lemma {:induction false} BitCleared(slots: Slots, n: NodeId, node: Node, j: nat)
    requires NodeAgrees(slots, n, node) && j < |slots| && slots[j] == Some(n)
    ensures j < |node.bits| && node.bits[j] && node.numslots > 0 && NodeAgrees(slots[j := None], n, WithoutBit(node, j))
  {
    CountClear(node.bits, j);
    hide Count;
  }

  lemma {:induction false} OtherAgrees(slots: Slots, n: NodeId, node: Node, j: nat, o: Option<NodeId>)
    requires NodeAgrees(slots, n, node) && j < |slots| && slots[j] != Some(n) && o != Some(n)
    ensures NodeAgrees(slots[j := o], n, node)
  {
    hide Count;
  }

  /** Assigning an unassigned slot, and recording it with the node. */
  lemma {:induction false} AssignKeeps(slots: Slots, nodes: Nodes, n: NodeId, j: nat)
    requires TableOk(slots, nodes) && n in nodes && j < |slots| && slots[j].None?
    ensures j < |nodes[n].bits| && !nodes[n].bits[j]
    ensures TableOk(slots[j := Some(n)], nodes[n := WithBit(nodes[n], j)]) && SameRoles(nodes, nodes[n := WithBit(nodes[n], j)])
  {
    BitSet(slots, n, nodes[n], j);
    assert KnownRefs(slots[j := Some(n)], nodes);
    forall m | m in nodes && m != n ensures NodeAgrees(slots[j := Some(n)], m, nodes[m]) {
      OtherAgrees(slots, m, nodes[m], j, Some(n));
    }
    assert !nodes[n].bits[j];
    hide NodeAgrees;
  }

  /** Unassigning a slot: its bit was set, so the assertion of clusterDelSlot holds. */
  lemma {:induction false} UnassignKeeps(slots: Slots, nodes: Nodes, j: nat)
    requires TableOk(slots, nodes) && j < |slots| && slots[j].Some?
    ensures var n := slots[j].value;
            && n in nodes && j < |nodes[n].bits| && nodes[n].bits[j] && nodes[n].numslots > 0
            && TableOk(slots[j := None], nodes[n := WithoutBit(nodes[n], j)]) && SameRoles(nodes, nodes[n := WithoutBit(nodes[n], j)])
  {
    var n := slots[j].value;
    BitCleared(slots, n, nodes[n], j);
    forall m | m in nodes && m != n ensures NodeAgrees(slots[j := None], m, nodes[m]) {
      OtherAgrees(slots, m, nodes[m], j, None);
    }
    hide NodeAgrees;
  }

  ghost predicate Serves(slots: Slots, n: NodeId) { exists j :: 0 <= j < |slots| && slots[j] == Some(n) }

  lemma {:induction false} ServesIff(slots: Slots, nodes: Nodes, n: NodeId)
    requires TableOk(slots, nodes) && n in nodes
    ensures nodes[n].numslots == 0 <==> !Serves(slots, n)
  {
    assert NodeAgrees(slots, n, nodes[n]);
    CountZero(nodes[n].bits);
    hide Count;
  }

  // ----- the slots add up -----

  ghost function SumSlots(nodes: Nodes, ids: set<NodeId>): nat
    requires ids <= nodes.Keys
    decreases |ids|
  {
    if ids == {} then 0 else var n :| n in ids; nodes[n].numslots + SumSlots(nodes, ids - {n})
  }

  /** Which slots belong to one of the given nodes. */
  ghost function OwnedBy(slots: Slots, ids: set<NodeId>): (b: seq<bool>)
    ensures |b| == |slots| && forall j :: 0 <= j < |slots| ==> (b[j] <==> slots[j].Some? && slots[j].value in ids)
  {
    seq(|slots|, j requires 0 <= j < |slots| => slots[j].Some? && slots[j].value in ids)
  }

  lemma {:induction false} CountApart(a: seq<bool>, b: seq<bool>, c: seq<bool>)
    requires |a| == |b| == |c| && forall j :: 0 <= j < |a| ==> (c[j] <==> a[j] || b[j]) && !(a[j] && b[j])
    ensures Count(c) == Count(a) + Count(b)
    decreases |a|
  {
    if a != [] {
      CountApart(a[..|a| - 1], b[..|a| - 1], c[..|a| - 1]);
      assert c[|a| - 1] <==> a[|a| - 1] || b[|a| - 1];
    }
  }

  lemma {:induction false} SumIsOwned(slots: Slots, nodes: Nodes, ids: set<NodeId>)
    requires TableOk(slots, nodes) && ids <= nodes.Keys
    ensures SumSlots(nodes, ids) == Count(OwnedBy(slots, ids))
    decreases |ids|
  {
    hide Count;
    if ids == {} {
      CountZero(OwnedBy(slots, ids));
    } else {
      var n :| n in ids && SumSlots(nodes, ids) == nodes[n].numslots + SumSlots(nodes, ids - {n});
      SumIsOwned(slots, nodes, ids - {n});
      assert NodeAgrees(slots, n, nodes[n]);
      CountApart(nodes[n].bits, OwnedBy(slots, ids - {n}), OwnedBy(slots, ids));
    }
  }

  /** The numslots of all nodes sum to the number of assigned slots. */
  lemma {:induction false} SlotsAddUp(slots: Slots, nodes: Nodes)
    requires TableOk(slots, nodes)
    ensures SumSlots(nodes, nodes.Keys) == Count(seq(|slots|, j requires 0 <= j < |slots| => slots[j].Some?))
  {
    SumIsOwned(slots, nodes, nodes.Keys);
    hide Count, NodeAgrees;
    assert OwnedBy(slots, nodes.Keys) == seq(|slots|, j requires 0 <= j < |slots| => slots[j].Some?);
  }

  // ----- claims -----

  /** The sender takes slot j: it claims it, does not have it, nobody imports it, and no owner is as new. */
  predicate Takes(slots: Slots, importing: Slots, nodes: Nodes, sender: NodeId, epoch: nat, claimed: seq<bool>, j: nat) {
    && j < |slots| && j < |claimed| && j < |importing| && claimed[j] && slots[j] != Some(sender) && importing[j].None?
    && (slots[j].None? || (slots[j].value in nodes && nodes[slots[j].value].configEpoch < epoch))
  }

  function OwnerAfter(slots: Slots, importing: Slots, nodes: Nodes, sender: NodeId, epoch: nat, claimed: seq<bool>, j: nat): Option<NodeId>
    requires j < |slots|
  {
    if Takes(slots, importing, nodes, sender, epoch, claimed, j) then Some(sender) else slots[j]
  }

  /** The table after a claim. */
  function Claimed(slots: Slots, importing: Slots, nodes: Nodes, sender: NodeId, epoch: nat, claimed: seq<bool>): (r: Slots)
    ensures |r| == |slots| && forall j :: 0 <= j < |slots| ==> r[j] == OwnerAfter(slots, importing, nodes, sender, epoch, claimed, j)
  {
    seq(|slots|, j requires 0 <= j < |slots| => OwnerAfter(slots, importing, nodes, sender, epoch, claimed, j))
  }

  /** Some slot of owner o changed hands. */
  ghost predicate TookFrom(slots: Slots, slots': Slots, o: Option<NodeId>) {
    exists j :: 0 <= j < |slots| && j < |slots'| && slots[j] == o && slots'[j] != slots[j]
  }

  /** The test clusterProcessPacket makes first is sound: a claim equal to the bitmap we have changes nothing. */
  lemma {:induction false} KnownClaimIsIdle(slots: Slots, importing: Slots, nodes: Nodes, sender: NodeId, epoch: nat)
    requires TableOk(slots, nodes) && sender in nodes
    ensures Claimed(slots, importing, nodes, sender, epoch, nodes[sender].bits) == slots
  {
    hide Count;
    assert NodeAgrees(slots, sender, nodes[sender]);
  }

  function OwnerEpoch(o: Option<NodeId>, nodes: Nodes): int { if o.Some? && o.value in nodes then nodes[o.value].configEpoch else -1 }

  /** A slot changes hands only for a strictly newer configuration: no owner's epoch goes back, and an equal one takes nothing. */
  lemma {:induction false} ClaimsOnlyRenew(slots: Slots, importing: Slots, nodes: Nodes, sender: NodeId, epoch: nat, claimed: seq<bool>, j: nat)
    requires KnownRefs(slots, nodes) && sender in nodes && nodes[sender].configEpoch == epoch
    requires |claimed| == |importing| == |slots| && j < |slots|
    ensures var r := Claimed(slots, importing, nodes, sender, epoch, claimed);
            r[j] != slots[j] <==> claimed[j] && importing[j].None? && OwnerEpoch(slots[j], nodes) < epoch && r[j] == Some(sender)
  {
  }

  /** A claim takes an unassigned slot exactly when it claims one that is not being imported. */
  lemma {:induction false} TookUnassignedIff(slots: Slots, importing: Slots, nodes: Nodes, sender: NodeId, epoch: nat, claimed: seq<bool>)
    requires |claimed| == |importing| == |slots|
    ensures TookFrom(slots, Claimed(slots, importing, nodes, sender, epoch, claimed), None)
       <==> exists j :: 0 <= j < |slots| && claimed[j] && slots[j].None? && importing[j].None?
  {
    var r := Claimed(slots, importing, nodes, sender, epoch, claimed);
    if j :| 0 <= j < |slots| && claimed[j] && slots[j].None? && importing[j].None? {
      assert r[j] == OwnerAfter(slots, importing, nodes, sender, epoch, claimed, j) == Some(sender);
    }
    if j :| 0 <= j < |slots| && slots[j] == None && r[j] != slots[j] {
      assert r[j] == OwnerAfter(slots, importing, nodes, sender, epoch, claimed, j);
    }
  }

  // ----- claims converge -----

  datatype Claim = Claim(epoch: nat, bits: seq<bool>)

  datatype View = View(slots: Slots, nodes: Nodes)

  /** A PING of n with this claim: its config epoch is adopted if newer, then its slots. */
  function Heard(v: View, importing: Slots, n: NodeId, c: Claim): View
    requires n in v.nodes
  {
    var nodes := v.nodes[n := v.nodes[n].(configEpoch := Max(v.nodes[n].configEpoch, c.epoch))];
    View(Claimed(v.slots, importing, nodes, n, c.epoch, c.bits), nodes)
  }

  ghost predicate ClaimsOk(v: View, importing: Slots, claims: map<NodeId, Claim>) {
    && |v.slots| == |importing| && claims.Keys <= v.nodes.Keys
    && (forall j :: 0 <= j < |importing| ==> importing[j].None?)
    && (forall n :: n in claims ==> |claims[n].bits| == |v.slots| && v.nodes[n].configEpoch <= claims[n].epoch)
    && (forall n, m :: n in claims && m in claims && claims[n].epoch == claims[m].epoch ==> n == m)
  }

  /** The claims heard in the given order. */
  function HeardAll(v: View, importing: Slots, claims: map<NodeId, Claim>, order: seq<NodeId>): (r: View)
    requires claims.Keys <= v.nodes.Keys && forall i :: 0 <= i < |order| ==> order[i] in claims
    ensures r.nodes.Keys == v.nodes.Keys
    decreases |order|
  {
    if order == [] then v
    else
      var w := HeardAll(v, importing, claims, order[..|order| - 1]);
      var n := order[|order| - 1];
      Heard(w, importing, n, claims[n])
  }

  /** Slot j belongs to the claimant with the highest epoch among those heard, or to nobody if none claimed it. */
  ghost predicate BestClaimant(claims: map<NodeId, Claim>, heard: seq<NodeId>, j: nat, o: Option<NodeId>) {
    && (forall m :: m in heard && m in claims && j < |claims[m].bits| && claims[m].bits[j] ==>
          o.Some? && o.value in claims && claims[m].epoch <= claims[o.value].epoch)
    && (o.Some? ==> o.value in heard && o.value in claims && j < |claims[o.value].bits| && claims[o.value].bits[j])
  }

  ghost predicate EpochsHeard(nodes: Nodes, claims: map<NodeId, Claim>, heard: seq<NodeId>) {
    forall n :: n in claims && n in nodes ==>
      if n in heard then nodes[n].configEpoch == claims[n].epoch else nodes[n].configEpoch <= claims[n].epoch
  }

  lemma {:induction false} BestAfter(w: View, importing: Slots, claims: map<NodeId, Claim>, heard: seq<NodeId>, n: NodeId, j: nat)
    requires n in claims && claims.Keys <= w.nodes.Keys && |w.slots| == |importing| && j < |w.slots| && importing[j].None?
    requires |claims[n].bits| == |w.slots| && EpochsHeard(w.nodes, claims, heard) && BestClaimant(claims, heard, j, w.slots[j])
    requires forall m :: m in claims && claims[m].epoch == claims[n].epoch ==> m == n
    ensures BestClaimant(claims, heard + [n], j, Heard(w, importing, n, claims[n]).slots[j])
  {
    var nodes := w.nodes[n := w.nodes[n].(configEpoch := Max(w.nodes[n].configEpoch, claims[n].epoch))];
    var o := OwnerAfter(w.slots, importing, nodes, n, claims[n].epoch, claims[n].bits, j);
    assert Heard(w, importing, n, claims[n]).slots[j] == o;
    assert forall m :: m in heard + [n] <==> m in heard || m == n;
  }

  lemma {:induction false} AllHeard(v: View, importing: Slots, claims: map<NodeId, Claim>, order: seq<NodeId>)
    requires ClaimsOk(v, importing, claims) && (forall j :: 0 <= j < |v.slots| ==> v.slots[j].None?)
    requires forall i :: 0 <= i < |order| ==> order[i] in claims
    ensures var r := HeardAll(v, importing, claims, order);
            && |r.slots| == |v.slots| && EpochsHeard(r.nodes, claims, order)
            && forall j :: 0 <= j < |v.slots| ==> BestClaimant(claims, order, j, r.slots[j])
    decreases |order|
  {
    hide BestClaimant, EpochsHeard, Heard;
    if order == [] {
      NoneHeard(v, importing, claims);
    } else {
      var front, n := order[..|order| - 1], order[|order| - 1];
      AllHeard(v, importing, claims, front);
      var w := HeardAll(v, importing, claims, front);
      var r := Heard(w, importing, n, claims[n]);
      EpochHeard(w, importing, claims, front, n);
      assert front + [n] == order;
      forall j | 0 <= j < |v.slots| ensures BestClaimant(claims, order, j, r.slots[j]) {
        BestAfter(w, importing, claims, front, n, j);
      }
    }
  }

  lemma {:induction false} NoneHeard(v: View, importing: Slots, claims: map<NodeId, Claim>)
    requires ClaimsOk(v, importing, claims) && (forall j :: 0 <= j < |v.slots| ==> v.slots[j].None?)
    ensures EpochsHeard(v.nodes, claims, []) && forall j :: 0 <= j < |v.slots| ==> BestClaimant(claims, [], j, v.slots[j])
  {
  }

  lemma {:induction false} EpochHeard(w: View, importing: Slots, claims: map<NodeId, Claim>, heard: seq<NodeId>, n: NodeId)
    requires n in claims && claims.Keys <= w.nodes.Keys && EpochsHeard(w.nodes, claims, heard)
    ensures |Heard(w, importing, n, claims[n]).slots| == |w.slots|
    ensures EpochsHeard(Heard(w, importing, n, claims[n]).nodes, claims, heard + [n])
  {
    assert forall m :: m in heard + [n] <==> m in heard || m == n;
  }

  /**
   Slot claims converge: from an unassigned table with no importing slot, whatever
   the order and the repetitions in which the claims are heard, each slot ends with
   the claimant of highest epoch.
   */
  lemma {:induction false} ClaimsConverge(v: View, importing: Slots, claims: map<NodeId, Claim>, order: seq<NodeId>, j: nat)
    requires ClaimsOk(v, importing, claims) && (forall i :: 0 <= i < |v.slots| ==> v.slots[i].None?) && j < |v.slots|
    requires (forall i :: 0 <= i < |order| ==> order[i] in claims) && (forall n :: n in claims ==> n in order)
    ensures var o := HeardAll(v, importing, claims, order).slots;
            && j < |o|
            && (o[j].None? <==> forall n :: n in claims ==> !claims[n].bits[j])
            && (o[j].Some? ==> o[j].value in claims && claims[o[j].value].bits[j]
                               && forall n :: n in claims && claims[n].bits[j] && n != o[j].value ==> claims[n].epoch < claims[o[j].value].epoch)
  {
    AllHeard(v, importing, claims, order);
    assert BestClaimant(claims, order, j, HeardAll(v, importing, claims, order).slots[j]);
    hide HeardAll, Heard;
  }

  /** Two nodes that heard the same claims, each in its own order, have the same table. */
  lemma {:induction false} OrderDoesNotMatter(v: View, importing: Slots, claims: map<NodeId, Claim>, order: seq<NodeId>, order': seq<NodeId>)
    requires ClaimsOk(v, importing, claims) && (forall i :: 0 <= i < |v.slots| ==> v.slots[i].None?)
    requires (forall i :: 0 <= i < |order| ==> order[i] in claims) && (forall n :: n in claims ==> n in order)
    requires (forall i :: 0 <= i < |order'| ==> order'[i] in claims) && (forall n :: n in claims ==> n in order')
    ensures HeardAll(v, importing, claims, order).slots == HeardAll(v, importing, claims, order').slots
  {
    hide HeardAll, Heard;
    var r, r' := HeardAll(v, importing, claims, order).slots, HeardAll(v, importing, claims, order').slots;
    AllHeard(v, importing, claims, order);
    AllHeard(v, importing, claims, order');
    forall j | 0 <= j < |v.slots| ensures r[j] == r'[j] {
      ClaimsConverge(v, importing, claims, order, j);
      ClaimsConverge(v, importing, claims, order', j);
    }
  }
}
