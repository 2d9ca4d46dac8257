/**
 One node of the cluster: the epochs, the voting state and the view of the other
 nodes, and the handlers that change them, as functions on that state.
 */
module ClusterNode {
  import opened Wrappers

  const CLUSTER_SLOTS := 16384

  /** Node names are compared with memcmp: any totally ordered set of names will do. */
  type NodeId = nat

  /** clusterNode, as this node sees it. */
  datatype Peer = Peer(isMaster: bool, slaveof: Option<NodeId>, failed: bool, numslots: nat, votedTime: int, configEpoch: nat)

  /** clusterState; myself is the peer named me. */
  datatype Server = Server(me: NodeId, currentEpoch: nat, lastVoteEpoch: nat,
                           authTime: int, authCount: nat, authSent: bool, authRank: nat, authEpoch: nat,
                           size: nat, manual: bool, canStart: bool,
                           peers: map<NodeId, Peer>, slots: seq<Option<NodeId>>)
  {
    function Myself(): Peer
      requires me in peers
    {
      peers[me]
    }
  }

  /** The packets that carry epochs. */
  datatype Msg =
    | Ping(src: NodeId, dst: NodeId, currentEpoch: nat, configEpoch: nat)
    | AuthRequest(src: NodeId, dst: NodeId, currentEpoch: nat, configEpoch: nat, claimed: set<nat>, forceAck: bool)
    | AuthAck(src: NodeId, dst: NodeId, currentEpoch: nat, configEpoch: nat)
    | Update(src: NodeId, dst: NodeId, currentEpoch: nat, configEpoch: nat, about: NodeId, aboutEpoch: nat)

  function Max(a: nat, b: nat): nat { if a < b then b else a }

  ghost predicate WellFormed(s: Server) {
    s.me in s.peers && |s.slots| == CLUSTER_SLOTS
  }

  /** A handler changes neither who the node is, nor whom it knows, nor the slot table. */
  predicate SameShape(s: Server, r: Server) {
    r.me == s.me && r.peers.Keys == s.peers.Keys && r.slots == s.slots
  }

  /** The votes collected and the epoch of the election. */
  predicate SameElection(s: Server, r: Server) {
    r.authCount == s.authCount && r.authEpoch == s.authEpoch
  }

  /** The config epoch a node puts in a header: its master's if it is a slave with a known master. */
  function HeaderConfigEpoch(s: Server): nat
    requires s.me in s.peers
  {
    var p := s.peers[s.me];
    if !p.isMaster && p.slaveof.Some? && p.slaveof.value in s.peers then s.peers[p.slaveof.value].configEpoch
    else p.configEpoch
  }

  // ----- receiving -----

  /** The part of clusterProcessPacket common to all packets: adopt newer epochs. */
  function MergeHeader(s: Server, m: Msg): (r: Server)
    ensures SameShape(s, r) && SameElection(s, r) && r.lastVoteEpoch == s.lastVoteEpoch && r.currentEpoch >= s.currentEpoch
  {
    if m.src !in s.peers then s
    else
      var p := s.peers[m.src];
      s.(currentEpoch := Max(s.currentEpoch, m.currentEpoch),
         peers := s.peers[m.src := p.(configEpoch := Max(p.configEpoch, m.configEpoch))])
  }

  /** clusterHandleConfigEpochCollision, with the test its caller makes first. */
  function Collision(s: Server, m: Msg): (r: Server)
    ensures SameShape(s, r) && SameElection(s, r) && r.lastVoteEpoch == s.lastVoteEpoch && r.currentEpoch >= s.currentEpoch
  {
    if m.src !in s.peers || s.me !in s.peers then s
    else if !(s.peers[s.me].isMaster && s.peers[m.src].isMaster && m.configEpoch == s.peers[s.me].configEpoch) then s
    else if s.peers[m.src].configEpoch != s.peers[s.me].configEpoch then s
    else if m.src <= s.me then s
    else MintEpoch(s)
  }

  /** currentEpoch++ and take it as config epoch. */
  function MintEpoch(s: Server): (r: Server)
    requires s.me in s.peers
    ensures SameShape(s, r) && SameElection(s, r) && r.lastVoteEpoch == s.lastVoteEpoch && r.currentEpoch >= s.currentEpoch
  {
    s.(currentEpoch := s.currentEpoch + 1, peers := s.peers[s.me := s.peers[s.me].(configEpoch := s.currentEpoch + 1)])
  }

  /** A slot claimed in the request is served, as far as we know, by a newer configuration. */
  predicate NewerOwner(s: Server, m: Msg, j: nat)
    requires m.AuthRequest?
  {
    && j in m.claimed && j < |s.slots| && s.slots[j].Some? && s.slots[j].value in s.peers
    && s.peers[s.slots[j].value].configEpoch > m.configEpoch
  }

  /** The tests of clusterSendFailoverAuthIfNeeded, in their order. */
  ghost predicate Grants(s: Server, m: Msg, now: int, nodeTimeout: int)
    requires m.AuthRequest? && s.me in s.peers
  {
    && m.src in s.peers
    && !(!s.peers[s.me].isMaster || s.peers[s.me].numslots == 0)
    && !(m.currentEpoch < s.currentEpoch)
    && !(s.lastVoteEpoch == s.currentEpoch)
    && var p := s.peers[m.src];
       && !p.isMaster && p.slaveof.Some? && p.slaveof.value in s.peers
       && (s.peers[p.slaveof.value].failed || m.forceAck)
       && !(now - s.peers[p.slaveof.value].votedTime < nodeTimeout * 2)
       && forall j :: 0 <= j < CLUSTER_SLOTS ==> !NewerOwner(s, m, j)
  }

  /** The vote recorded: no second one in this epoch. */
  function RecordVote(s: Server, candidate: NodeId, now: int): (r: Server)
    requires candidate in s.peers && s.peers[candidate].slaveof.Some? && s.peers[candidate].slaveof.value in s.peers
    ensures SameShape(s, r) && SameElection(s, r) && r.lastVoteEpoch == r.currentEpoch == s.currentEpoch
  {
    var master := s.peers[candidate].slaveof.value;
    s.(lastVoteEpoch := s.currentEpoch, peers := s.peers[master := s.peers[master].(votedTime := now)])
  }

  /** FAILOVER_AUTH_ACK: the sender is a master serving slots and at least as far as our election. */
  predicate CountsAck(s: Server, m: Msg)
    requires m.AuthAck?
  {
    m.src in s.peers && s.peers[m.src].isMaster && s.peers[m.src].numslots > 0 && m.currentEpoch >= s.authEpoch
  }

  /** UPDATE: adopt a newer config epoch of the node it is about, which is a master from now on. */
  function ApplyUpdate(s: Server, m: Msg): (r: Server)
    requires m.Update?
    ensures SameShape(s, r) && SameElection(s, r) && r.lastVoteEpoch == s.lastVoteEpoch && r.currentEpoch == s.currentEpoch
  {
    if m.src !in s.peers || m.about !in s.peers || s.peers[m.about].configEpoch >= m.aboutEpoch then s
    else
      var n := s.peers[m.about];
      var n' := if n.isMaster then n else n.(isMaster := true, slaveof := None);
      s.(peers := s.peers[m.about := n'.(configEpoch := m.aboutEpoch)])
  }

  // ----- failover -----

  /** What a call of clusterHandleSlaveFailover reads beside the node state. */
  datatype Inputs = Inputs(now: int, nodeTimeout: int, dataTooOld: bool, rank: nat, random: nat)

  datatype Outcome = Nothing | Scheduled | Delayed | Started | Won

  function AuthTimeout(nodeTimeout: int): int { if nodeTimeout * 2 < 2000 then 2000 else nodeTimeout * 2 }

  /** The slave serves a failed, slot-serving master, or a manual failover is under way. */
  predicate MayFailover(s: Server)
    requires s.me in s.peers
  {
    var p := s.peers[s.me];
    var manual := s.manual && s.canStart;
    && !p.isMaster && p.slaveof.Some? && p.slaveof.value in s.peers
    && (s.peers[p.slaveof.value].failed || manual)
    && s.peers[p.slaveof.value].numslots != 0
  }

  function Quorum(size: nat): nat { size / 2 + 1 }

  /** Which of its branches clusterHandleSlaveFailover takes. */
  function FailoverOutcome(s: Server, i: Inputs): Outcome
    requires s.me in s.peers
  {
    var age := i.now - s.authTime;
    var manual := s.manual && s.canStart;
    var time := AdjustedTime(s, i);
    if !MayFailover(s) then Nothing
    else if i.dataTooOld && !manual then Nothing
    else if age > AuthTimeout(i.nodeTimeout) * 2 then Scheduled
    else if i.now < time then Delayed
    else if age > AuthTimeout(i.nodeTimeout) then Delayed
    else if !s.authSent then Started
    else if s.authCount >= Quorum(s.size) then Won
    else Delayed
  }

  /** The delay grows when the rank got worse since it was computed. */
  function AdjustedTime(s: Server, i: Inputs): int {
    if !s.authSent && !s.manual && i.rank > s.authRank then s.authTime + (i.rank - s.authRank) * 1000 else s.authTime
  }

  function AdjustRank(s: Server, i: Inputs): Server {
    s.(authTime := AdjustedTime(s, i),
       authRank := if !s.authSent && !s.manual && i.rank > s.authRank then i.rank else s.authRank)
  }

  /** The state after clusterHandleSlaveFailover. */
  function AfterFailover(s: Server, i: Inputs): (r: Server)
    requires s.me in s.peers
    ensures SameShape(s, r) && r.lastVoteEpoch == s.lastVoteEpoch && r.currentEpoch >= s.currentEpoch
  {
    match FailoverOutcome(s, i)
    case Nothing => s
    case Scheduled =>
      if s.manual then s.(authTime := i.now, authCount := 0, authSent := false, authRank := 0)
      else s.(authTime := i.now + 500 + i.random % 500 + i.rank * 1000, authCount := 0, authSent := false, authRank := i.rank)
    case Delayed => AdjustRank(s, i)
    case Started =>
      AdjustRank(s, i).(currentEpoch := s.currentEpoch + 1, authEpoch := s.currentEpoch + 1, authSent := true)
    case Won =>
      var p := s.peers[s.me];
      AdjustRank(s, i).(manual := false, canStart := false,
        peers := s.peers[s.me := p.(isMaster := true, slaveof := None, configEpoch := Max(p.configEpoch, s.authEpoch))])
  }

  // ----- epochs minted without an election -----

  /** clusterGetMaxEpoch is currentEpoch unless some known config epoch is greater. */
  ghost predicate IsMaxEpoch(s: Server, max: nat) {
    && max >= s.currentEpoch && (forall p :: p in s.peers ==> s.peers[p].configEpoch <= max)
    && (max == s.currentEpoch || exists p :: p in s.peers && s.peers[p].configEpoch == max)
  }

  /** clusterBumpConfigEpochWithoutConsensus, given the result of clusterGetMaxEpoch. */
  function Bump(s: Server, max: nat): (r: Server)
    requires s.me in s.peers
    ensures SameShape(s, r) && SameElection(s, r) && r.lastVoteEpoch == s.lastVoteEpoch && r.currentEpoch >= s.currentEpoch
  {
    if s.peers[s.me].configEpoch == 0 || s.peers[s.me].configEpoch != max then MintEpoch(s) else s
  }

  /** CLUSTER SET-CONFIG-EPOCH: only on a node that knows no other and has no epoch yet. */
  function SetConfigEpoch(s: Server, epoch: nat): (r: Server)
    requires s.me in s.peers
    ensures SameShape(s, r) && SameElection(s, r) && r.lastVoteEpoch == s.lastVoteEpoch && r.currentEpoch >= s.currentEpoch
  {
    if |s.peers| > 1 || s.peers[s.me].configEpoch != 0 then s
    else s.(currentEpoch := Max(s.currentEpoch, epoch), peers := s.peers[s.me := s.peers[s.me].(configEpoch := epoch)])
  }

  // ----- the handlers in place -----

  class ServerState {
    const me: NodeId
    const slots: array<Option<NodeId>>
    var currentEpoch: nat
    var lastVoteEpoch: nat
    var authTime: int
    var authCount: nat
    var authSent: bool
    var authRank: nat
    var authEpoch: nat
    var size: nat
    var manual: bool
    var canStart: bool
    var peers: map<NodeId, Peer>

    function View(): Server
      reads this, slots
    {
      Server(me, currentEpoch, lastVoteEpoch, authTime, authCount, authSent, authRank, authEpoch,
             size, manual, canStart, peers, slots[..])
    }

    ghost predicate Valid()
      reads this
    {
      me in peers && slots.Length == CLUSTER_SLOTS
    }

    constructor (me: NodeId)
      ensures Valid() && this.me == me && fresh(slots)
      ensures peers == map[me := Peer(true, None, false, 0, 0, 0)]
      ensures currentEpoch == lastVoteEpoch == authEpoch == authCount == 0 && !authSent
      ensures forall j :: 0 <= j < slots.Length ==> slots[j].None?
    {
      this.me := me;
      slots := new Option<NodeId>[CLUSTER_SLOTS](_ => None);
      currentEpoch, lastVoteEpoch, authTime, authCount, authSent, authRank, authEpoch := 0, 0, 0, 0, false, 0, 0;
      size, manual, canStart := 1, false, false;
      peers := map[me := Peer(true, None, false, 0, 0, 0)];
    }

    method MergeEpochs(m: Msg)
      requires Valid()
      modifies this`currentEpoch, this`peers
      ensures Valid() && View() == MergeHeader(old(View()), m)
    {
      if m.src in peers {
        if m.currentEpoch > currentEpoch { currentEpoch := m.currentEpoch; }
        if m.configEpoch > peers[m.src].configEpoch {
          peers := peers[m.src := peers[m.src].(configEpoch := m.configEpoch)];
        }
      }
      assert peers == MergeHeader(old(View()), m).peers;
    }

    /** clusterSendFailoverAuthIfNeeded: true when the vote is cast. */
    method SendFailoverAuthIfNeeded(m: Msg, now: int, nodeTimeout: int) returns (granted: bool)
      requires Valid() && m.AuthRequest?
      modifies this`lastVoteEpoch, this`peers
      ensures Valid() && granted == Grants(old(View()), m, now, nodeTimeout)
      ensures View() == if granted then RecordVote(old(View()), m.src, now) else old(View())
    {
      if m.src !in peers { return false; }
      if !peers[me].isMaster || peers[me].numslots == 0 { return false; }
      if m.currentEpoch < currentEpoch { return false; }
      if lastVoteEpoch == currentEpoch { return false; }
      var node := peers[m.src];
      if node.isMaster || node.slaveof.None? || node.slaveof.value !in peers { return false; }
      var master := node.slaveof.value;
      if !peers[master].failed && !m.forceAck { return false; }
      if now - peers[master].votedTime < nodeTimeout * 2 { return false; }
      var j := 0;
      while j < CLUSTER_SLOTS
        invariant 0 <= j <= CLUSTER_SLOTS && View() == old(View())
        invariant forall i :: 0 <= i < j ==> !NewerOwner(View(), m, i)
      {
        if j in m.claimed && slots[j].Some? && slots[j].value in peers && peers[slots[j].value].configEpoch > m.configEpoch {
          assert NewerOwner(View(), m, j);
          return false;
        }
        j := j + 1;
      }
      lastVoteEpoch := currentEpoch;
      peers := peers[master := peers[master].(votedTime := now)];
      return true;
    }

    /** clusterGetMaxEpoch: the loop over the known nodes. */
    method GetMaxEpoch() returns (max: nat)
      ensures max >= currentEpoch && forall p :: p in peers ==> peers[p].configEpoch <= max
      ensures max == currentEpoch || exists p :: p in peers && peers[p].configEpoch == max
      ensures IsMaxEpoch(View(), max)
    {
      max := 0;
      var rest := peers.Keys;
      while rest != {}
        invariant rest <= peers.Keys && forall p :: p in peers && p !in rest ==> peers[p].configEpoch <= max
        invariant max == 0 || exists p :: p in peers && peers[p].configEpoch == max
        decreases |rest|
      {
        var p :| p in rest;
        if peers[p].configEpoch > max { max := peers[p].configEpoch; }
        rest := rest - {p};
      }
      if max < currentEpoch { max := currentEpoch; }
    }

    /** A new attempt: forget the votes and choose when to start. */
    method Schedule(i: Inputs)
      requires Valid()
      modifies this`authTime, this`authCount, this`authSent, this`authRank
      ensures View() == if manual then old(View()).(authTime := i.now, authCount := 0, authSent := false, authRank := 0)
                        else old(View()).(authTime := i.now + 500 + i.random % 500 + i.rank * 1000, authCount := 0, authSent := false, authRank := i.rank)
    {
      authTime := i.now + 500 + i.random % 500;
      authCount, authSent, authRank := 0, false, i.rank;
      authTime := authTime + authRank * 1000;
      if manual { authTime, authRank := i.now, 0; }
    }

    /** The preconditions of a failover. */
    method MayFailoverNow() returns (ok: bool)
      requires Valid()
      ensures ok == MayFailover(View())
    {
      var my := peers[me];
      if my.isMaster || my.slaveof.None? || my.slaveof.value !in peers { return false; }
      if !peers[my.slaveof.value].failed && !(manual && canStart) { return false; }
      return peers[my.slaveof.value].numslots != 0;
    }

    /** The election won: take the epoch of the election, turn into a master. */
    method Promote()
      requires Valid()
      modifies this`peers, this`manual, this`canStart
      ensures Valid() && View() == var p := old(View()).peers[me];
                old(View()).(manual := false, canStart := false,
                  peers := old(View()).peers[me := p.(isMaster := true, slaveof := None, configEpoch := Max(p.configEpoch, authEpoch))])
    {
      var epoch := if peers[me].configEpoch < authEpoch then authEpoch else peers[me].configEpoch;
      peers := peers[me := peers[me].(isMaster := true, slaveof := None, configEpoch := epoch)];
      manual, canStart := false, false;
    }

    /** clusterHandleSlaveFailover. */
    method HandleSlaveFailover(i: Inputs) returns (o: Outcome)
      requires Valid()
      modifies this
      ensures Valid() && o == FailoverOutcome(old(View()), i) && View() == AfterFailover(old(View()), i)
    {
      hide MayFailover, AuthTimeout, Quorum, Max;
      var age := i.now - authTime;
      var isManual := manual && canStart;
      var may := MayFailoverNow();
      if !may { return Nothing; }
      if i.dataTooOld && !isManual { return Nothing; }
      if age > AuthTimeout(i.nodeTimeout) * 2 {
        Schedule(i);
        return Scheduled;
      }
      if !authSent && !manual && i.rank > authRank {
        authTime, authRank := authTime + (i.rank - authRank) * 1000, i.rank;
      }
      if i.now < authTime || age > AuthTimeout(i.nodeTimeout) { return Delayed; }
      if !authSent {
        currentEpoch := currentEpoch + 1;
        authEpoch := currentEpoch;
        authSent := true;
        return Started;
      }
      if authCount >= Quorum(size) {
        Promote();
        return Won;
      }
      return Delayed;
    }
  }
}
