/**
 What each handler of a node does, said in terms of its fields, and what this means
 for the votes of whole runs.
 */
module ClusterHandlers {
  import opened Wrappers
  import opened ClusterNode
  import opened ClusterProtocol
  import opened ClusterSafety

  // ----- headers -----

  /** A slave with a known master publishes its master's config epoch, any other node its own. */
  lemma {:induction false} HeaderMeans(s: Server)
    requires s.me in s.peers
    ensures var p := s.peers[s.me];
            && (!p.isMaster && p.slaveof.Some? && p.slaveof.value in s.peers ==> HeaderConfigEpoch(s) == s.peers[p.slaveof.value].configEpoch)
            && (p.isMaster || p.slaveof.None? || p.slaveof.value !in s.peers ==> HeaderConfigEpoch(s) == p.configEpoch)
  {
  }

  /** Reading a header: the greater of the epochs, of a known sender only, and nothing else changes. */
  lemma {:induction false} MergeMeans(s: Server, m: Msg)
    ensures var r := MergeHeader(s, m);
            && (m.src !in s.peers ==> r == s)
            && (m.src in s.peers ==>
                 && r == s.(currentEpoch := r.currentEpoch, peers := r.peers)
                 && r.currentEpoch == (if m.currentEpoch > s.currentEpoch then m.currentEpoch else s.currentEpoch)
                 && r.peers[m.src] == s.peers[m.src].(configEpoch := r.peers[m.src].configEpoch)
                 && r.peers[m.src].configEpoch == (if m.configEpoch > s.peers[m.src].configEpoch then m.configEpoch else s.peers[m.src].configEpoch)
                 && forall p :: p in s.peers && p != m.src ==> r.peers[p] == s.peers[p])
  {
  }

  /** A node mints an epoch on a collision exactly when both are masters, the epoch is the same, and its name is the smaller one. */
  lemma {:induction false} CollisionIff(s: Server, m: Msg)
    requires s.me in s.peers && m.src in s.peers
    ensures var r, me, it := Collision(s, m), s.peers[s.me], s.peers[m.src];
            if me.isMaster && it.isMaster && m.configEpoch == me.configEpoch && it.configEpoch == me.configEpoch && s.me < m.src
            then r == s.(currentEpoch := s.currentEpoch + 1, peers := s.peers[s.me := me.(configEpoch := s.currentEpoch + 1)])
            else r == s
  {
  }

  /** A vote is counted exactly when it comes from a known master with slots that has reached the epoch of the election. */
  lemma {:induction false} AckCountedIff(s: Server, m: Msg)
    requires m.AuthAck?
    ensures CountsAck(s, m) <==>
              m.src in s.peers && s.peers[m.src].isMaster && s.peers[m.src].numslots >= 1 && s.authEpoch <= m.currentEpoch
  {
  }

  /** An UPDATE from a known sender about a known node is adopted exactly when its epoch is greater than the known one. */
  lemma {:induction false} UpdateMeans(s: Server, m: Msg)
    requires m.Update?
    ensures var r := ApplyUpdate(s, m);
            if m.src in s.peers && m.about in s.peers && s.peers[m.about].configEpoch < m.aboutEpoch
            then && r == s.(peers := s.peers[m.about := r.peers[m.about]])
                 && r.peers[m.about].isMaster && r.peers[m.about].configEpoch == m.aboutEpoch
                 && r.peers[m.about].slaveof == (if s.peers[m.about].isMaster then s.peers[m.about].slaveof else None)
                 && r.peers[m.about].numslots == s.peers[m.about].numslots && r.peers[m.about].failed == s.peers[m.about].failed
            else r == s
  {
  }

  /** There is exactly one number that is a greatest epoch. */
  lemma {:induction false} MaxEpochIsUnique(s: Server, a: nat, b: nat)
    ensures IsMaxEpoch(s, a) && IsMaxEpoch(s, b) ==> a == b
    ensures IsMaxEpoch(s, a) <==> (a == s.currentEpoch || exists p :: p in s.peers && s.peers[p].configEpoch == a)
                                  && a >= s.currentEpoch && forall p :: p in s.peers ==> s.peers[p].configEpoch <= a
  {
  }

  /** A bump without consensus does nothing exactly when the node already has the greatest epoch, and it is not zero. */
  lemma {:induction false} BumpIff(s: Server, max: nat)
    requires s.me in s.peers
    ensures var r, e := Bump(s, max), s.peers[s.me].configEpoch;
            if e != 0 && e == max then r == s
            else r == s.(currentEpoch := s.currentEpoch + 1, peers := s.peers[s.me := s.peers[s.me].(configEpoch := s.currentEpoch + 1)])
  {
  }

  /** The first config epoch can be set exactly on a node that knows no other and has none. */
  lemma {:induction false} SetEpochIff(s: Server, epoch: nat)
    requires s.me in s.peers
    ensures var r := SetConfigEpoch(s, epoch);
            if |s.peers| <= 1 && s.peers[s.me].configEpoch == 0
            then && r.peers[s.me].configEpoch == epoch
                 && r.currentEpoch == (if s.currentEpoch < epoch then epoch else s.currentEpoch)
                 && r == s.(currentEpoch := r.currentEpoch, peers := s.peers[s.me := s.peers[s.me].(configEpoch := epoch)])
            else r == s
  {
  }

  // ----- votes -----

  /** The voter may vote at all, and the candidate may be voted for. */
  predicate MayVote(s: Server, m: Msg)
    requires m.AuthRequest?
  {
    && s.me in s.peers && s.peers[s.me].isMaster && s.peers[s.me].numslots >= 1
    && m.src in s.peers && !s.peers[m.src].isMaster && s.peers[m.src].slaveof.Some? && s.peers[m.src].slaveof.value in s.peers
    && (s.peers[s.peers[m.src].slaveof.value].failed || m.forceAck)
  }

  /** The last vote for a slave of that master is at least two node timeouts old. */
  predicate Rested(s: Server, m: Msg, now: int, nodeTimeout: int)
    requires m.AuthRequest? && MayVote(s, m)
  {
    now - s.peers[s.peers[m.src].slaveof.value].votedTime >= 2 * nodeTimeout
  }

  /** Every claimed slot with a known owner belongs to a configuration no newer than the request. */
  ghost predicate ClaimsCurrent(s: Server, m: Msg)
    requires m.AuthRequest?
  {
    forall j :: 0 <= j < |s.slots| && j in m.claimed && s.slots[j].Some? && s.slots[j].value in s.peers ==>
      s.peers[s.slots[j].value].configEpoch <= m.configEpoch
  }

  /** A vote is granted exactly when all of this holds, the request is not of the past, and the node has not voted in this epoch. */
  lemma {:induction false} VoteGrantedIff(s: Server, m: Msg, now: int, nodeTimeout: int)
    requires m.AuthRequest? && s.me in s.peers && |s.slots| == 16384
    ensures Grants(s, m, now, nodeTimeout) <==>
              && MayVote(s, m) && Rested(s, m, now, nodeTimeout) && ClaimsCurrent(s, m)
              && m.currentEpoch >= s.currentEpoch && s.lastVoteEpoch != s.currentEpoch
  {
    if ClaimsCurrent(s, m) {
      forall j | 0 <= j < CLUSTER_SLOTS ensures !NewerOwner(s, m, j) {}
    }
    if j :| 0 <= j < |s.slots| && j in m.claimed && s.slots[j].Some? && s.slots[j].value in s.peers
            && s.peers[s.slots[j].value].configEpoch > m.configEpoch {
      assert NewerOwner(s, m, j);
    }
  }

  /** The vote recorded: its epoch at the voter, its time at the master of the candidate, and nothing else. */
  lemma {:induction false} VoteRecordedMeans(s: Server, candidate: NodeId, now: int)
    requires candidate in s.peers && s.peers[candidate].slaveof.Some? && s.peers[candidate].slaveof.value in s.peers
    ensures var master := s.peers[candidate].slaveof.value;
            RecordVote(s, candidate, now) == s.(lastVoteEpoch := s.currentEpoch, peers := s.peers[master := s.peers[master].(votedTime := now)])
  {
  }

  /** In this state the packet id is a request that warrants a vote of v for the candidate in epoch e, at this time. */
  ghost predicate Warranted(c: Cluster, id: nat, now: int, nodeTimeout: int, v: NodeId, e: nat, candidate: NodeId) {
    && id in c.net && c.net[id].AuthRequest? && v in c.servers
    && var m, s := c.net[id], c.servers[v];
       && m.dst == v && m.src == candidate && m.currentEpoch == e && s.lastVoteEpoch < e && s.currentEpoch <= e
       && MayVote(s, m) && Rested(s, m, now, nodeTimeout) && ClaimsCurrent(s, m)
  }

  /** Reading the header of a request changes nothing the decision rests on but the epochs. */
  lemma {:induction false} MergedVote(s: Server, m: Msg, now: int, nodeTimeout: int)
    requires m.AuthRequest? && s.me in s.peers && |s.slots| == 16384 && Grants(MergeHeader(s, m), m, now, nodeTimeout)
    ensures MayVote(s, m) && Rested(s, m, now, nodeTimeout) && ClaimsCurrent(s, m)
  {
    VoteGrantedIff(MergeHeader(s, m), m, now, nodeTimeout);
    MergeMeans(s, m);
    hide Grants, MergeHeader;
    var r := MergeHeader(s, m);
    assert ClaimsCurrent(r, m);
    forall j | 0 <= j < |s.slots| && j in m.claimed && s.slots[j].Some? && s.slots[j].value in s.peers
      ensures s.peers[s.slots[j].value].configEpoch <= m.configEpoch {
      assert r.peers[s.slots[j].value].configEpoch <= m.configEpoch;
    }
  }

  ghost predicate WarrantedStep(c: Cluster, step: Step, v: NodeId, e: nat, candidate: NodeId) {
    step.DeliverStep? && Warranted(c, step.id, step.now, step.nodeTimeout, v, e, candidate)
  }

  lemma {:induction false} DeliveryWarrants(c: Cluster, c': Cluster, id: nat, now: int, nodeTimeout: int, linkUp: bool, v: NodeId, e: nat)
    requires Inv(c) && Shape(c) && id in c.net && Delivered(c, c', id, now, nodeTimeout, linkUp)
    requires (v, e) in c'.votes && (v, e) !in c.votes
    ensures Warranted(c, id, now, nodeTimeout, v, e, c'.votes[(v, e)])
  {
    hide Inv, Shape, Grants, CountsAck, MergeHeader, Collision, ApplyUpdate, RecordVote, HeaderConfigEpoch, EpochsOk, MayVote, Rested, ClaimsCurrent;
    var m := c.net[id];
    assert m.dst in c.servers && m.AuthRequest?;
    HeaderRead(c, id);
    var s := MergeHeader(c.servers[m.dst], m);
    GrantedEpoch(s, m, now, nodeTimeout);
    MergedVote(c.servers[m.dst], m, now, nodeTimeout);
  }

  /** Only a delivery of a warranted request adds a vote. */
  lemma {:induction false} StepWarrants(c: Cluster, c': Cluster, step: Step, v: NodeId, e: nat)
    requires Inv(c) && Shape(c) && NextStep(c, c', step) && (v, e) in c'.votes && (v, e) !in c.votes
    ensures WarrantedStep(c, step, v, e, c'.votes[(v, e)])
  {
    hide Inv, Shape, Delivered, Failover, MaySend, Bump, SetConfigEpoch, IsMaxEpoch, LocalChange, Warranted;
    if step.FailoverStep? {
      FailoverCastsNoVote(c, c', step.n, step.i, step.requests);
      assert false;
    }
    assert step.DeliverStep?;
    DeliveryWarrants(c, c', step.id, step.now, step.nodeTimeout, step.linkUp, v, e);
  }

  lemma {:induction false} FailoverCastsNoVote(c: Cluster, c': Cluster, n: NodeId, i: Inputs, requests: seq<Msg>)
    requires Shape(c) && n in c.servers && Failover(c, c', n, i, requests)
    ensures c'.votes == c.votes
  {
    assert c.servers[n].me in c.servers[n].peers;
    hide Shape, FailoverOutcome, AfterFailover, HeaderConfigEpoch;
    var c1 := SetServer(c, n, AfterFailover(c.servers[n], i));
    PostAllKeeps(c1.(tally := c.tally[n := {}], carried := c.carried[n := c.servers[n].authCount]), requests);
  }

  /**
   Every vote of every run was warranted when it was cast: the voter was a master with
   slots that had not voted in that epoch, the candidate a slave of a failed master or
   one that forces the vote, the last vote for that master two node timeouts old, and
   the voter knew no newer owner of any slot the candidate claimed.
   */
  lemma {:induction false} EveryVoteIsWarranted(cs: seq<Cluster>, steps: seq<Step>, n: nat, v: NodeId, e: nat) returns (i: nat)
    requires IsRun(cs, steps) && n < |cs| && (v, e) in cs[n].votes
    ensures i < n && WarrantedStep(cs[i], steps[i], v, e, cs[n].votes[(v, e)])
  {
    hide Inv, Shape, NextStep, WarrantedStep;
    assert n > 0;
    RunKeepsInv(cs, steps, n - 1);
    StepGrows(cs[n - 1], cs[n], steps[n - 1]);
    if (v, e) in cs[n - 1].votes {
      i := EveryVoteIsWarranted(cs, steps, n - 1, v, e);
    } else {
      StepWarrants(cs[n - 1], cs[n], steps[n - 1], v, e);
      i := n - 1;
    }
  }

  // ----- failover -----

  /** The quorum is the smallest majority. */
  lemma {:induction false} QuorumIsMajority(size: nat)
    ensures 2 * Quorum(size) > size && 2 * (Quorum(size) - 1) <= size
  {
  }

  /** The slave has reason to fail over: a known master with slots that failed, or a manual failover that may start, and fresh data unless manual. */
  predicate HasReason(s: Server, i: Inputs)
    requires s.me in s.peers
  {
    var p := s.peers[s.me];
    && !p.isMaster && p.slaveof.Some? && p.slaveof.value in s.peers && s.peers[p.slaveof.value].numslots >= 1
    && ((s.manual && s.canStart) || (s.peers[p.slaveof.value].failed && !i.dataTooOld))
  }

  /** How long votes count: twice the node timeout, but at least two seconds. */
  function Patience(i: Inputs): int { if i.nodeTimeout < 1000 then 2000 else 2 * i.nodeTimeout }

  /** When the attempt may start, with the delay for a rank that got worse. */
  function StartTime(s: Server, i: Inputs): int {
    s.authTime + if !s.authSent && !s.manual && i.rank > s.authRank then 1000 * (i.rank - s.authRank) else 0
  }

  /** Which outcome a call has, by the clock, the reason and the count. */
  lemma {:induction false} OutcomeIff(s: Server, i: Inputs)
    requires s.me in s.peers
    ensures var o, age := FailoverOutcome(s, i), i.now - s.authTime;
            var due := HasReason(s, i) && age <= Patience(i) && i.now >= StartTime(s, i);
            && (o == Nothing <==> !HasReason(s, i))
            && (o == Scheduled <==> HasReason(s, i) && age > 2 * Patience(i))
            && (o == Started <==> due && !s.authSent)
            && (o == Won <==> due && s.authSent && 2 * s.authCount > s.size)
  {
  }

  /** A slave of a healthy master, or of one without slots, stays quiet and unchanged unless a manual failover may start. */
  lemma {:induction false} HealthyMasterStaysMaster(s: Server, i: Inputs)
    requires s.me in s.peers && !s.peers[s.me].isMaster && s.peers[s.me].slaveof.Some? && s.peers[s.me].slaveof.value in s.peers
    requires var master := s.peers[s.peers[s.me].slaveof.value];
             master.numslots == 0 || (!master.failed && !(s.manual && s.canStart))
    ensures FailoverOutcome(s, i) == Nothing && AfterFailover(s, i) == s
  {
  }

  /** What each outcome leaves. */
  lemma {:induction false} OutcomeMeans(s: Server, i: Inputs)
    requires s.me in s.peers
    ensures var o, r := FailoverOutcome(s, i), AfterFailover(s, i);
            && (o == Scheduled ==> r == s.(authCount := 0, authSent := false, authTime := r.authTime, authRank := r.authRank)
                                   && r.authTime == (if s.manual then i.now else i.now + 500 + i.random % 500 + 1000 * i.rank)
                                   && r.authRank == if s.manual then 0 else i.rank)
            && (o == Delayed || o == Started || o == Won ==>
                  r.authTime == StartTime(s, i) && (!s.authSent && !s.manual ==> r.authRank >= i.rank && r.authRank >= s.authRank))
            && (o == Delayed ==> r == s.(authTime := r.authTime, authRank := r.authRank))
            && (o == Started ==> r == s.(authTime := r.authTime, authRank := r.authRank, authSent := true,
                                         currentEpoch := s.currentEpoch + 1, authEpoch := s.currentEpoch + 1))
            && (o == Won ==> r == s.(authTime := r.authTime, authRank := r.authRank, manual := false, canStart := false,
                                     peers := s.peers[s.me := r.peers[s.me]])
                             && r.peers[s.me].isMaster && r.peers[s.me].slaveof == None
                             && r.peers[s.me].configEpoch == if s.peers[s.me].configEpoch < s.authEpoch then s.authEpoch else s.peers[s.me].configEpoch)
  {
    hide FailoverOutcome;
  }
}
