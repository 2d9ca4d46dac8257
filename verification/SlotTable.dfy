/**
 The slot table of a node, updated in place: the owner of each slot, the importing
 and migrating entries, and the bitmaps and counters kept with the nodes.
 */
module SlotTable {
  import opened Wrappers
  import opened ClusterNode
  import opened SlotModel

  /** How clusterUpdateSlotsConfigWith ends. */
  datatype Reaction =
    | Ignored                      // the claim is about ourselves
    | Settled(dirty: seq<nat>)     // we keep our role; the keys of these slots must go
    | Replica                      // we replicate the sender from now on
    | NoMaster                     // we are a slave of an unknown master, which is dereferenced
    | SlaveWithSlots               // we must follow the sender but own slots: clusterSetMaster asserts we do not

  /** The slots taken from us that still hold keys, in ascending order. */
  ghost function Dirty(slots: Slots, slots': Slots, me: NodeId, keys: seq<bool>, k: nat): seq<nat>
    requires k <= |slots| == |slots'| == |keys|
  {
    if k == 0 then []
    else Dirty(slots, slots', me, keys, k - 1) + if slots[k - 1] == Some(me) && slots'[k - 1] != slots[k - 1] && keys[k - 1] then [k - 1] else []
  }

  /** The master whose slots we watch: ourselves, or the one we replicate. */
  function CurMaster(nodes: Nodes, me: NodeId): Option<NodeId>
    requires me in nodes
  {
    if nodes[me].isMaster then Some(me) else nodes[me].slaveof
  }

  ghost function React(slots: Slots, slots': Slots, nodes: Nodes, me: NodeId, keys: seq<bool>): Reaction
    requires |slots| == |slots'| == |keys| && me in nodes
  {
    var cur := CurMaster(nodes, me);
    if !TookFrom(slots, slots', cur) then Settled(Dirty(slots, slots', me, keys, |slots|))
    else if cur.None? then NoMaster
    else if Serves(slots', cur.value) then Settled(Dirty(slots, slots', me, keys, |slots|))
    else if Serves(slots', me) then SlaveWithSlots
    else Replica
  }

  /**
   The pointer to our master is dereferenced while it is null exactly when we are a
   slave that does not know its master and the claim covers an unassigned slot that
   we are not importing.
   */
  lemma {:induction false} NoMasterIff(slots: Slots, importing: Slots, nodes: Nodes, sender: NodeId, epoch: nat, claimed: seq<bool>,
                                       me: NodeId, keys: seq<bool>)
    requires |claimed| == |importing| == |slots| == |keys| && me in nodes
    ensures React(slots, Claimed(slots, importing, nodes, sender, epoch, claimed), nodes, me, keys) == NoMaster
       <==> !nodes[me].isMaster && nodes[me].slaveof.None?
            && exists j :: 0 <= j < |slots| && claimed[j] && slots[j].None? && importing[j].None?
  {
    TookUnassignedIff(slots, importing, nodes, sender, epoch, claimed);
    hide Claimed, TookFrom, Serves, Dirty;
  }

  /** A slot is dirty exactly when it was ours, is no longer, and still holds keys; the list is ascending. */
  lemma {:induction false} DirtyMeans(slots: Slots, slots': Slots, me: NodeId, keys: seq<bool>, k: nat)
    requires k <= |slots| == |slots'| == |keys|
    ensures var d := Dirty(slots, slots', me, keys, k);
            && (forall j :: 0 <= j < k ==> (j in d <==> slots[j] == Some(me) && slots'[j] != Some(me) && keys[j]))
            && (forall a :: 0 <= a < |d| ==> d[a] < k) && (forall a, b :: 0 <= a < b < |d| ==> d[a] < d[b])
  {
    if k > 0 {
      DirtyMeans(slots, slots', me, keys, k - 1);
      var d, before := Dirty(slots, slots', me, keys, k), Dirty(slots, slots', me, keys, k - 1);
      assert forall j :: j in d <==> j in before || (|d| > |before| && j == k - 1);
    }
  }

  /** Slot j was the master's and is no longer. */
  predicate Lost(slots: Slots, slots': Slots, master: NodeId, j: nat) {
    j < |slots| == |slots'| && slots[j] == Some(master) && slots'[j] != Some(master)
  }

  /**
   We turn into a replica exactly when a slot was taken from the master we watch, that
   is ourselves or the one we replicate, and neither it nor we have a slot left.
   */
  lemma {:induction false} ReplicaIff(slots: Slots, slots': Slots, nodes: Nodes, nodes': Nodes, me: NodeId, keys: seq<bool>, master: NodeId)
    requires |slots| == |slots'| == |keys| && me in nodes && me in nodes' && master in nodes' && TableOk(slots', nodes')
    requires (nodes[me].isMaster && master == me) || (!nodes[me].isMaster && nodes[me].slaveof == Some(master))
    ensures var r := React(slots, slots', nodes, me, keys);
            && (r == Replica <==> (exists j :: Lost(slots, slots', master, j)) && nodes'[master].numslots == 0 && nodes'[me].numslots == 0)
            && (r.Settled? <==> (forall j :: !Lost(slots, slots', master, j)) || nodes'[master].numslots > 0)
            && r != NoMaster && r != Ignored && (r.Settled? ==> r.dirty == Dirty(slots, slots', me, keys, |slots|))
  {
    ServesIff(slots', nodes', master);
    ServesIff(slots', nodes', me);
    hide TableOk, Serves, Dirty;
    if j :| Lost(slots, slots', master, j) { assert TookFrom(slots, slots', Some(master)); }
    if TookFrom(slots, slots', Some(master)) {
      var j :| 0 <= j < |slots| && slots[j] == Some(master) && slots'[j] != slots[j];
      assert Lost(slots, slots', master, j);
    }
  }

  function Unless(o: Option<NodeId>, n: NodeId): Option<NodeId> { if o == Some(n) then None else o }

  /** The entries that refer to n, cleared. */
  function Without(refs: Slots, n: NodeId): (r: Slots)
    ensures |r| == |refs| && forall j :: 0 <= j < |refs| ==> r[j] == if refs[j] == Some(n) then None else refs[j]
  {
    seq(|refs|, j requires 0 <= j < |refs| => Unless(refs[j], n))
  }

  function Inherited(refs: Slots, from: NodeId, to: NodeId): (r: Slots)
    ensures |r| == |refs| && forall j :: 0 <= j < |refs| ==> r[j] == if refs[j] == Some(from) then Some(to) else refs[j]
  {
    seq(|refs|, j requires 0 <= j < |refs| => if refs[j] == Some(from) then Some(to) else refs[j])
  }

  /** A node that has a master has one we know: deleting a node clears the references of its slaves. */
  ghost predicate MastersKnown(nodes: Nodes) {
    forall n :: n in nodes && nodes[n].slaveof.Some? ==> nodes[n].slaveof.value in nodes
  }

  lemma {:induction false} RoleChange(slots: Slots, nodes: Nodes, n: NodeId, node: Node)
    requires TableOk(slots, nodes) && n in nodes && node.bits == nodes[n].bits && node.numslots == nodes[n].numslots
    ensures TableOk(slots, nodes[n := node])
  {
    hide Count;
    assert NodeAgrees(slots, n, nodes[n]);
  }

  lemma {:induction false} RolesReflexive(nodes: Nodes)
    ensures SameRoles(nodes, nodes)
  {
  }

  lemma {:induction false} RolesKeys(a: Nodes, b: Nodes)
    requires SameRoles(a, b)
    ensures a.Keys == b.Keys
  {
  }

  lemma {:induction false} CurMasterKept(a: Nodes, b: Nodes, me: NodeId)
    requires SameRoles(a, b) && me in a && me in b
    ensures CurMaster(a, me) == CurMaster(b, me)
  {
  }

  lemma {:induction false} KnownAt(slots: Slots, nodes: Nodes, j: nat)
    requires TableOk(slots, nodes) && j < |slots| && slots[j].Some?
    ensures slots[j].value in nodes
  {
  }

  /** Whether the sender takes slot j depends only on its owner and the epochs. */
  lemma {:induction false} TakesSame(slots: Slots, slots': Slots, importing: Slots, nodes: Nodes, nodes': Nodes, sender: NodeId, epoch: nat,
                                     claimed: seq<bool>, j: nat)
    requires SameRoles(nodes, nodes') && j < |slots| == |slots'| && slots[j] == slots'[j]
    ensures Takes(slots, importing, nodes, sender, epoch, claimed, j) == Takes(slots', importing, nodes', sender, epoch, claimed, j)
    ensures var goal := Claimed(slots, importing, nodes, sender, epoch, claimed);
            && goal[j] == (if Takes(slots', importing, nodes', sender, epoch, claimed, j) then Some(sender) else slots[j])
            && (goal[j] != slots[j] <==> Takes(slots', importing, nodes', sender, epoch, claimed, j))
  {
  }

  ghost predicate TookBelow(slots: Slots, slots': Slots, o: Option<NodeId>, k: nat) {
    exists j :: 0 <= j < k && j < |slots| && j < |slots'| && slots[j] == o && slots'[j] != slots[j]
  }

  lemma {:induction false} TookNone(slots: Slots, slots': Slots, o: Option<NodeId>)
    ensures !TookBelow(slots, slots', o, 0)
  {
  }

  lemma {:induction false} TookNext(slots: Slots, slots': Slots, o: Option<NodeId>, k: nat)
    requires k < |slots| == |slots'|
    ensures TookBelow(slots, slots', o, k + 1) <==> TookBelow(slots, slots', o, k) || (slots[k] == o && slots'[k] != slots[k])
  {
  }

  lemma {:induction false} TookAll(slots: Slots, slots': Slots, o: Option<NodeId>)
    ensures TookBelow(slots, slots', o, |slots|) == TookFrom(slots, slots', o)
  {
  }

  lemma {:induction false} SameRolesTrans(a: Nodes, b: Nodes, c: Nodes)
    requires SameRoles(a, b) && SameRoles(b, c)
    ensures SameRoles(a, c)
  {
  }

  // ----- loops over the slots -----

  /** Below j the entries are as they shall be, from j on as they were. */
  ghost predicate UpTo(now: Slots, goal: Slots, before: Slots, j: nat) {
    && |now| == |goal| == |before|
    && (forall i :: 0 <= i < |now| && i < j ==> now[i] == goal[i]) && (forall i :: 0 <= i < |now| && j <= i ==> now[i] == before[i])
  }

  lemma {:induction false} UpToStart(before: Slots, goal: Slots)
    requires |before| == |goal|
    ensures UpTo(before, goal, before, 0)
  {
  }

  lemma {:induction false} UpToNext(now: Slots, goal: Slots, before: Slots, j: nat)
    requires UpTo(now, goal, before, j) && j < |before|
    ensures j < |now| == |goal| && now[j] == before[j] && UpTo(now[j := goal[j]], goal, before, j + 1)
    ensures now[j] == goal[j] ==> now[j := goal[j]] == now
  {
  }

  lemma {:induction false} UpToEnd(now: Slots, goal: Slots, before: Slots)
    requires UpTo(now, goal, before, |before|)
    ensures now == goal
  {
  }

  lemma {:induction false} RefsKept(refs: Slots, nodes: Nodes, n: NodeId)
    requires KnownRefs(refs, nodes) && forall j :: 0 <= j < |refs| ==> refs[j] != Some(n)
    ensures KnownRefs(refs, map m | m in nodes && m != n :: Orphaned(nodes[m], n))
  {
  }

  /** A slave of the deleted node has no master from now on. */
  function Orphaned(node: Node, n: NodeId): Node { if node.slaveof == Some(n) then node.(slaveof := None) else node }

  lemma {:induction false} RemoveKeeps(slots: Slots, nodes: Nodes, n: NodeId)
    requires TableOk(slots, nodes) && forall j :: 0 <= j < |slots| ==> slots[j] != Some(n)
    ensures TableOk(slots, map m | m in nodes && m != n :: Orphaned(nodes[m], n))
  {
    hide Count;
    forall m | m in nodes ensures NodeAgrees(slots, m, Orphaned(nodes[m], n)) {
      assert NodeAgrees(slots, m, nodes[m]);
    }
  }

  lemma {:induction false} BitIsOwner(slots: Slots, nodes: Nodes, n: NodeId, j: nat)
    requires TableOk(slots, nodes) && n in nodes && j < |slots|
    ensures j < |nodes[n].bits| && (nodes[n].bits[j] <==> slots[j] == Some(n))
  {
    assert NodeAgrees(slots, n, nodes[n]);
  }

  class Table {
    const me: NodeId
    const slots: array<Option<NodeId>>
    const importing: array<Option<NodeId>>
    const migrating: array<Option<NodeId>>
    var nodes: Nodes

    ghost predicate Valid()
      reads this, slots, importing, migrating
    {
      && slots.Length == importing.Length == migrating.Length == CLUSTER_SLOTS
      && slots != importing && slots != migrating && importing != migrating && me in nodes
      && TableOk(slots[..], nodes) && KnownRefs(importing[..], nodes) && KnownRefs(migrating[..], nodes) && MastersKnown(nodes)
    }

    constructor (me: NodeId)
      ensures Valid() && this.me == me && fresh(slots) && fresh(importing) && fresh(migrating) && nodes.Keys == {me}
      ensures forall j :: 0 <= j < CLUSTER_SLOTS ==> slots[j].None? && importing[j].None? && migrating[j].None?
    {
      this.me := me;
      slots := new Option<NodeId>[CLUSTER_SLOTS](_ => None);
      importing := new Option<NodeId>[CLUSTER_SLOTS](_ => None);
      migrating := new Option<NodeId>[CLUSTER_SLOTS](_ => None);
      var bits := seq(CLUSTER_SLOTS, _ => false);
      nodes := map[me := Node(0, true, None, bits, 0)];
      CountZero(bits);
    }

    /** clusterAddSlot: refused when the slot has an owner. */
    method AddSlot(n: NodeId, j: nat) returns (ok: bool)
      requires Valid() && n in nodes && j < CLUSTER_SLOTS
      modifies this`nodes, slots
      ensures Valid() && SameRoles(old(nodes), nodes) && ok == old(slots[j]).None?
      ensures slots[..] == if ok then old(slots[..])[j := Some(n)] else old(slots[..])
    {
      hide TableOk;
      if slots[j].Some? { return false; }
      AssignKeeps(slots[..], nodes, n, j);
      var node := nodes[n];
      var bit := node.bits[j];
      node := node.(bits := node.bits[j := true]);
      if !bit { node := node.(numslots := node.numslots + 1); }
      nodes := nodes[n := node];
      slots[j] := Some(n);
      return true;
    }

    /** clusterDelSlot: refused when the slot has no owner; the bit of the owner was set. */
    method DelSlot(j: nat) returns (ok: bool)
      requires Valid() && j < CLUSTER_SLOTS
      modifies this`nodes, slots
      ensures Valid() && SameRoles(old(nodes), nodes) && ok == old(slots[j]).Some?
      ensures slots[..] == old(slots[..])[j := None]
    {
      hide TableOk;
      if slots[j].None? { return false; }
      var n := slots[j].value;
      UnassignKeeps(slots[..], nodes, j);
      var node := nodes[n];
      var bit := node.bits[j];
      node := node.(bits := node.bits[j := false]);
      if bit { node := node.(numslots := node.numslots - 1); }
      nodes := nodes[n := node];
      assert bit;
      slots[j] := None;
      return true;
    }

    /** clusterDelNodeSlots. The number returned counts every slot looked at, not only those deleted. */
    method DelNodeSlots(n: NodeId) returns (deleted: nat)
      requires Valid() && n in nodes
      modifies this`nodes, slots
      ensures Valid() && SameRoles(old(nodes), nodes) && deleted == CLUSTER_SLOTS
      ensures slots[..] == Without(old(slots[..]), n) && nodes[n].numslots == 0
    {
      hide TableOk, KnownRefs, UpTo, Without;
      deleted := 0;
      var j := 0;
      ghost var goal := Without(slots[..], n);
      UpToStart(slots[..], goal);
      while j < CLUSTER_SLOTS
        invariant 0 <= j <= CLUSTER_SLOTS && deleted == j
        invariant Valid() && SameRoles(old(nodes), nodes)
        invariant UpTo(slots[..], goal, old(slots[..]), j)
      {
        BitIsOwner(slots[..], nodes, n, j);
        UpToNext(slots[..], goal, old(slots[..]), j);
        if nodes[n].bits[j] { var _ := DelSlot(j); }
        deleted := deleted + 1;
        j := j + 1;
      }
      UpToEnd(slots[..], goal, old(slots[..]));
      ServesIff(slots[..], nodes, n);
    }

    /** One round of the loop of clusterDelNode. */
    method ForgetAt(n: NodeId, j: nat)
      requires Valid() && n in nodes && j < CLUSTER_SLOTS
      modifies this`nodes, slots, importing, migrating
      ensures Valid() && SameRoles(old(nodes), nodes)
      ensures slots[..] == old(slots[..])[j := Unless(old(slots[j]), n)]
      ensures importing[..] == old(importing[..])[j := Unless(old(importing[j]), n)]
      ensures migrating[..] == old(migrating[..])[j := Unless(old(migrating[j]), n)]
    {
      hide TableOk;
      if importing[j] == Some(n) { importing[j] := None; }
      if migrating[j] == Some(n) { migrating[j] := None; }
      if slots[j] == Some(n) { var _ := DelSlot(j); }
    }

    /** clusterDelNode: nothing refers to the node any more. */
    method DelNode(n: NodeId)
      requires Valid() && n in nodes && n != me
      modifies this`nodes, slots, importing, migrating
      ensures Valid() && nodes.Keys == old(nodes).Keys - {n}
      ensures slots[..] == Without(old(slots[..]), n)
      ensures importing[..] == Without(old(importing[..]), n) && migrating[..] == Without(old(migrating[..]), n)
      ensures forall m :: m in nodes ==>
                && nodes[m].configEpoch == old(nodes)[m].configEpoch && nodes[m].isMaster == old(nodes)[m].isMaster
                && nodes[m].slaveof == if old(nodes)[m].slaveof == Some(n) then None else old(nodes)[m].slaveof
    {
      hide TableOk, KnownRefs, UpTo, Without;
      var j := 0;
      ghost var s, i, g := Without(slots[..], n), Without(importing[..], n), Without(migrating[..], n);
      UpToStart(slots[..], s);
      UpToStart(importing[..], i);
      UpToStart(migrating[..], g);
      while j < CLUSTER_SLOTS
        invariant 0 <= j <= CLUSTER_SLOTS && Valid() && SameRoles(old(nodes), nodes)
        invariant UpTo(slots[..], s, old(slots[..]), j)
        invariant UpTo(importing[..], i, old(importing[..]), j)
        invariant UpTo(migrating[..], g, old(migrating[..]), j)
      {
        UpToNext(slots[..], s, old(slots[..]), j);
        UpToNext(importing[..], i, old(importing[..]), j);
        UpToNext(migrating[..], g, old(migrating[..]), j);
        ForgetAt(n, j);
        j := j + 1;
      }
      UpToEnd(slots[..], s, old(slots[..]));
      UpToEnd(importing[..], i, old(importing[..]));
      UpToEnd(migrating[..], g, old(migrating[..]));
      RemoveKeeps(slots[..], nodes, n);
      RefsKept(importing[..], nodes, n);
      RefsKept(migrating[..], nodes, n);
      nodes := map m | m in nodes && m != n :: Orphaned(nodes[m], n);
    }

    /** clusterCloseAllSlots. */
    method CloseAllSlots()
      requires Valid()
      modifies importing, migrating
      ensures Valid() && forall j :: 0 <= j < CLUSTER_SLOTS ==> importing[j].None? && migrating[j].None?
    {
      hide TableOk;
      forall j | 0 <= j < migrating.Length { migrating[j] := None; }
      forall j | 0 <= j < importing.Length { importing[j] := None; }
      assert slots[..] == old(slots[..]);
    }

    /** clusterSetMaster, past its assertions: a master that turns into a slave closes its slots. */
    method SetMaster(n: NodeId)
      requires Valid() && n in nodes && n != me && nodes[me].numslots == 0
      modifies this`nodes, importing, migrating
      ensures Valid() && nodes == old(nodes)[me := old(nodes)[me].(isMaster := false, slaveof := Some(n))]
      ensures if old(nodes)[me].isMaster then forall j :: 0 <= j < CLUSTER_SLOTS ==> importing[j].None? && migrating[j].None?
              else importing[..] == old(importing[..]) && migrating[..] == old(migrating[..])
    {
      hide TableOk;
      if nodes[me].isMaster { CloseAllSlots(); }
      RoleChange(slots[..], nodes, me, nodes[me].(isMaster := false, slaveof := Some(n)));
      nodes := nodes[me := nodes[me].(isMaster := false, slaveof := Some(n))];
    }

    /** The body of the loop of clusterUpdateSlotsConfigWith: whether slot j was rebound. */
    method RebindSlot(sender: NodeId, epoch: nat, claimed: seq<bool>, j: nat) returns (taken: bool)
      requires Valid() && sender in nodes && |claimed| == CLUSTER_SLOTS && j < CLUSTER_SLOTS
      modifies this`nodes, slots
      ensures Valid() && SameRoles(old(nodes), nodes)
      ensures taken == Takes(old(slots[..]), importing[..], old(nodes), sender, epoch, claimed, j)
      ensures slots[..] == if taken then old(slots[..])[j := Some(sender)] else old(slots[..])
    {
      if slots[j].Some? { KnownAt(slots[..], nodes, j); }
      hide TableOk, KnownRefs, SameRoles, MastersKnown;
      if !claimed[j] || slots[j] == Some(sender) { return false; }
      if importing[j].Some? { return false; }
      if slots[j].None? || nodes[slots[j].value].configEpoch < epoch {
        GiveTo(sender, j);
        return true;
      }
      return false;
    }

    method RebindSlots(sender: NodeId, epoch: nat, claimed: seq<bool>, keys: seq<bool>) returns (newmaster: bool, dirty: seq<nat>)
      requires Valid() && sender in nodes && |claimed| == |keys| == CLUSTER_SLOTS && sender != me
      modifies this`nodes, slots
      ensures Valid() && SameRoles(old(nodes), nodes)
      ensures slots[..] == Claimed(old(slots[..]), importing[..], old(nodes), sender, epoch, claimed)
      ensures newmaster == TookFrom(old(slots[..]), slots[..], CurMaster(nodes, me))
      ensures dirty == Dirty(old(slots[..]), slots[..], me, keys, CLUSTER_SLOTS)
    {
      hide TableOk, KnownRefs, SameRoles, MastersKnown, Claimed, UpTo, TookFrom, TookBelow, Takes;
      var curmaster := CurMaster(nodes, me);
      newmaster, dirty := false, [];
      ghost var before, nodes0 := slots[..], nodes;
      ghost var goal := Claimed(before, importing[..], nodes0, sender, epoch, claimed);
      UpToStart(before, goal);
      TookNone(before, goal, curmaster);
      RolesReflexive(nodes);
      var j := 0;
      while j < CLUSTER_SLOTS
        invariant 0 <= j <= CLUSTER_SLOTS && Valid() && SameRoles(nodes0, nodes) && sender in nodes
        invariant UpTo(slots[..], goal, before, j)
        invariant newmaster == TookBelow(before, goal, curmaster, j)
        invariant dirty == Dirty(before, goal, me, keys, j)
      {
        UpToNext(slots[..], goal, before, j);
        TakesSame(before, slots[..], importing[..], nodes0, nodes, sender, epoch, claimed, j);
        TookNext(before, goal, curmaster, j);
        ghost var middle := nodes;
        var owner := slots[j];
        var taken := RebindSlot(sender, epoch, claimed, j);
        if taken {
          if owner == Some(me) && keys[j] { dirty := dirty + [j]; }
          if owner == curmaster { newmaster := true; }
        }
        SameRolesTrans(nodes0, middle, nodes);
        RolesKeys(nodes0, nodes);
        j := j + 1;
      }
      UpToEnd(slots[..], goal, before);
      TookAll(before, goal, curmaster);
      CurMasterKept(nodes0, nodes, me);
    }

    /**
     clusterUpdateSlotsConfigWith. keys says which slots hold keys here. The slots
     claimed go to the sender unless they are being imported or have a newer owner.
     */
    method UpdateSlotsConfigWith(sender: NodeId, epoch: nat, claimed: seq<bool>, keys: seq<bool>) returns (r: Reaction)
      requires Valid() && sender in nodes && |claimed| == |keys| == CLUSTER_SLOTS
      modifies this`nodes, slots, importing, migrating
      ensures Valid()
      ensures sender == me ==> r == Ignored && slots[..] == old(slots[..]) && nodes == old(nodes)
      ensures sender != me ==>
                && slots[..] == Claimed(old(slots[..]), old(importing[..]), old(nodes), sender, epoch, claimed)
                && r == React(old(slots[..]), slots[..], old(nodes), me, keys)
      ensures SameRoles(if r == Replica then old(nodes)[me := old(nodes)[me].(isMaster := false, slaveof := Some(sender))] else old(nodes), nodes)
      ensures if r == Replica && old(nodes)[me].isMaster then forall j :: 0 <= j < CLUSTER_SLOTS ==> importing[j].None? && migrating[j].None?
              else importing[..] == old(importing[..]) && migrating[..] == old(migrating[..])
    {
      hide TableOk, KnownRefs, Claimed, Serves, UpTo, TookFrom;
      if sender == me { return Ignored; }
      var newmaster, dirty := RebindSlots(sender, epoch, claimed, keys);
      var cur := CurMaster(nodes, me);
      if !newmaster { return Settled(dirty); }
      if cur.None? { return NoMaster; }
      ServesIff(slots[..], nodes, cur.value);
      if nodes[cur.value].numslots != 0 { return Settled(dirty); }
      ServesIff(slots[..], nodes, me);
      if nodes[me].numslots != 0 { return SlaveWithSlots; }
      SetMaster(sender);
      return Replica;
    }

    /** clusterFailoverReplaceYourMaster: a slave turns into a master that owns all the slots its master had. */
    method ReplaceMaster()
      requires Valid()
      modifies this`nodes, slots
      ensures Valid()
      ensures var was := old(nodes)[me];
              if was.isMaster || was.slaveof.None? then slots[..] == old(slots[..]) && nodes == old(nodes)
              else slots[..] == Inherited(old(slots[..]), was.slaveof.value, me)
                   && SameRoles(old(nodes)[me := was.(isMaster := true, slaveof := None)], nodes)
    {
      hide TableOk, SameRoles, UpTo, Inherited;
      if nodes[me].isMaster || nodes[me].slaveof.None? { return; }
      var master := nodes[me].slaveof.value;
      RoleChange(slots[..], nodes, me, nodes[me].(isMaster := true, slaveof := None));
      nodes := nodes[me := nodes[me].(isMaster := true, slaveof := None)];
      ghost var before, goal, nodes0 := slots[..], Inherited(slots[..], master, me), nodes;
      UpToStart(before, goal);
      RolesReflexive(nodes);
      var j := 0;
      while j < CLUSTER_SLOTS
        invariant 0 <= j <= CLUSTER_SLOTS && Valid() && SameRoles(nodes0, nodes) && master in nodes
        invariant UpTo(slots[..], goal, before, j)
      {
        BitIsOwner(slots[..], nodes, master, j);
        UpToNext(slots[..], goal, before, j);
        ghost var middle := nodes;
        if nodes[master].bits[j] {
          GiveTo(me, j);
        } else {
          RolesReflexive(nodes);
        }
        SameRolesTrans(nodes0, middle, nodes);
        RolesKeys(nodes0, nodes);
        j := j + 1;
      }
      UpToEnd(slots[..], goal, before);
    }

    /** clusterDelSlot and then clusterAddSlot: the slot goes to n, whoever had it. */
    method GiveTo(n: NodeId, j: nat)
      requires Valid() && n in nodes && j < CLUSTER_SLOTS
      modifies this`nodes, slots
      ensures Valid() && SameRoles(old(nodes), nodes) && slots[..] == old(slots[..])[j := Some(n)]
    {
      hide TableOk, KnownRefs, SameRoles, MastersKnown;
      ghost var before := nodes;
      var _ := DelSlot(j);
      ghost var between := nodes;
      RolesKeys(before, between);
      var _ := AddSlot(n, j);
      SameRolesTrans(before, between, nodes);
    }

    /** CLUSTER SETSLOT j NODE n on a master; keys says whether the slot holds keys here. */
    method SetSlotNode(j: nat, n: NodeId, keys: bool) returns (ok: bool)
      requires Valid() && j < CLUSTER_SLOTS
      modifies this`nodes, slots, importing, migrating
      ensures Valid() && SameRoles(old(nodes), nodes)
      ensures ok == (nodes[me].isMaster && n in nodes && !(old(slots[j]) == Some(me) && n != me && keys))
      ensures slots[..] == if ok then old(slots[..])[j := Some(n)] else old(slots[..])
      ensures migrating[..] == if ok && !keys then old(migrating[..])[j := None] else old(migrating[..])
      ensures importing[..] == if ok && n == me then old(importing[..])[j := None] else old(importing[..])
    {
      hide TableOk;
      if !nodes[me].isMaster { return false; }
      if n !in nodes { return false; }
      if slots[j] == Some(me) && n != me && keys { return false; }
      if !keys && migrating[j].Some? { migrating[j] := None; }
      if n == me && importing[j].Some? { importing[j] := None; }
      assert slots[..] == old(slots[..]);
      GiveTo(n, j);
      return true;
    }
  }
}
