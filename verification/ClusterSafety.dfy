/**
 What every run of the cluster protocol keeps: the order of the epochs, and the
 safety of elections.
 */
module ClusterSafety {
  import opened Wrappers
  import opened ClusterNode
  import opened ClusterProtocol

  // ----- sending many packets -----

  lemma {:induction false} PostAllKeeps(c: Cluster, ms: seq<Msg>)
    ensures PostAll(c, ms).(net := c.net, nextId := c.nextId) == c
    ensures PostAll(c, ms).nextId >= c.nextId
    decreases |ms|
  {
    if ms != [] { PostAllKeeps(Post(c, ms[0]), ms[1..]); }
  }

  lemma {:induction false} PostAllNet(c: Cluster, ms: seq<Msg>)
    requires forall id :: id in c.net ==> id < c.nextId
    ensures var r := PostAll(c, ms);
            && (forall id :: id in r.net ==> id < r.nextId)
            && (forall id :: id in r.net ==> (id in c.net && r.net[id] == c.net[id]) || r.net[id] in ms)
    decreases |ms|
  {
    if ms != [] { PostAllNet(Post(c, ms[0]), ms[1..]); }
  }

  // ----- elections: what is recorded -----

  type Servers = map<NodeId, Server>
  type Votes = map<(NodeId, nat), NodeId>
  type Net = map<nat, Msg>

  /** v voted for n in epoch e. */
  ghost predicate VotedFor(votes: Votes, v: NodeId, e: nat, n: NodeId) {
    (v, e) in votes && votes[(v, e)] == n
  }

  ghost predicate AckFrom(m: Msg, v: NodeId, e: nat) { m.AuthAck? && m.src == v && m.currentEpoch == e }

  /** The count of a node is what it carried in and the voters counted since. */
  ghost predicate CountsOk(servers: Servers, tally: map<NodeId, set<NodeId>>, carried: map<NodeId, nat>) {
    forall n :: n in servers && n in tally && n in carried ==> servers[n].authCount == carried[n] + |tally[n]|
  }

  ghost predicate VotesOk(votes: Votes, servers: Servers) {
    forall v, e :: (v, e) in votes ==> v in servers && e <= servers[v].lastVoteEpoch
  }

  /** A request or acknowledgement in flight belongs to the last election of its candidate, or to an earlier one. */
  ghost predicate PacketElectionOk(votes: Votes, servers: Servers, m: Msg) {
    && (m.AuthRequest? ==> m.src in servers && m.currentEpoch <= servers[m.src].authEpoch)
    && (m.AuthAck? ==> m.dst in servers && m.currentEpoch <= servers[m.dst].authEpoch && VotedFor(votes, m.src, m.currentEpoch, m.dst))
  }

  ghost predicate PacketsElectionOk(votes: Votes, servers: Servers, net: Net) {
    forall id :: id in net ==> PacketElectionOk(votes, servers, net[id])
  }

  /** No two acknowledgements of the same vote are in flight. */
  ghost predicate AcksUnique(net: Net) {
    forall i, j :: i in net && j in net && net[i].AuthAck? && AckFrom(net[j], net[i].src, net[i].currentEpoch) ==> i == j
  }

  ghost predicate NoAck(net: Net, v: NodeId, e: nat) {
    forall id :: id in net ==> !AckFrom(net[id], v, e)
  }

  /** A voter in the tally voted for this node in this election, and its acknowledgement has been consumed. */
  ghost predicate TalliesOk(votes: Votes, servers: Servers, net: Net, tally: map<NodeId, set<NodeId>>) {
    forall n, v :: n in servers && n in tally && v in tally[n] ==>
      VotedFor(votes, v, servers[n].authEpoch, n) && NoAck(net, v, servers[n].authEpoch)
  }

  ghost predicate WinOk(votes: Votes, w: Win) {
    && w.carried + |w.counted| >= Quorum(w.size)
    && forall v :: v in w.counted ==> VotedFor(votes, v, w.epoch, w.node)
  }

  ghost predicate WinsOk(votes: Votes, wins: set<Win>) {
    forall w :: w in wins ==> WinOk(votes, w)
  }

  ghost predicate ServersOk(servers: Servers) {
    forall n :: n in servers ==> servers[n].me == n && WellFormed(servers[n]) && EpochsOk(servers[n])
  }

  ghost predicate NetOk(net: Net, nextId: nat) {
    forall id :: id in net ==> id < nextId && PacketOk(net[id])
  }

  ghost predicate Inv(c: Cluster) {
    && c.tally.Keys == c.servers.Keys && c.carried.Keys == c.servers.Keys
    && ServersOk(c.servers) && NetOk(c.net, c.nextId)
    && CountsOk(c.servers, c.tally, c.carried) && VotesOk(c.votes, c.servers)
    && PacketsElectionOk(c.votes, c.servers, c.net) && AcksUnique(c.net)
    && TalliesOk(c.votes, c.servers, c.net, c.tally) && WinsOk(c.votes, c.wins)
  }

  lemma {:induction false} InvIsShape(c: Cluster)
    requires Inv(c)
    ensures Shape(c) && EpochInv(c)
  {
    hide CountsOk, VotesOk, PacketsElectionOk, AcksUnique, TalliesOk, WinsOk, WellFormed, EpochsOk, PacketOk;
  }

  // ----- elementary changes of the cluster -----

  lemma {:induction false} LoseKeeps(c: Cluster, id: nat)
    requires Inv(c)
    ensures Inv(c.(net := c.net - {id}))
  {
    hide WellFormed, EpochsOk, PacketOk, CountsOk, VotesOk, WinsOk, PacketElectionOk, VotedFor, ServersOk;
  }

  /** The server map with one server changed, its election and last vote kept or moved on. */
  lemma {:induction false} ServerChange(c: Cluster, n: NodeId, s: Server)
    requires Inv(c) && n in c.servers && WellFormed(s) && s.me == n && EpochsOk(s)
    requires s.authEpoch >= c.servers[n].authEpoch && s.lastVoteEpoch >= c.servers[n].lastVoteEpoch
    ensures var servers := c.servers[n := s];
            servers.Keys == c.servers.Keys && ServersOk(servers) && VotesOk(c.votes, servers) && PacketsElectionOk(c.votes, servers, c.net)
  {
    hide WellFormed, EpochsOk, NetOk, CountsOk, TalliesOk, AcksUnique, WinsOk, VotedFor;
    assert c.servers[n := s].Keys == c.servers.Keys;
  }

  lemma {:induction false} TallyKept(c: Cluster, n: NodeId, s: Server)
    requires Inv(c) && n in c.servers && s.authEpoch == c.servers[n].authEpoch
    ensures TalliesOk(c.votes, c.servers[n := s], c.net, c.tally)
    ensures s.authCount == c.servers[n].authCount ==> CountsOk(c.servers[n := s], c.tally, c.carried)
  {
    hide ServersOk, NetOk, VotesOk, PacketsElectionOk, AcksUnique, WinsOk, VotedFor, NoAck;
  }

  /** A node changes, but not its election, nor its last vote. */
  lemma {:induction false} SetServerKeeps(c: Cluster, n: NodeId, s: Server)
    requires Inv(c) && n in c.servers && WellFormed(s) && s.me == n && EpochsOk(s)
    requires SameElection(c.servers[n], s) && s.lastVoteEpoch == c.servers[n].lastVoteEpoch
    ensures Inv(SetServer(c, n, s))
  {
    hide WellFormed, EpochsOk, ServersOk, NetOk, CountsOk, VotesOk, PacketsElectionOk, AcksUnique, TalliesOk, WinsOk;
    ServerChange(c, n, s);
    TallyKept(c, n, s);
  }

  ghost predicate Postable(c: Cluster, m: Msg) {
    && PacketOk(m) && PacketElectionOk(c.votes, c.servers, m)
    && (m.AuthAck? ==> NoAck(c.net, m.src, m.currentEpoch)
                       && forall n :: n in c.servers && n in c.tally && c.servers[n].authEpoch == m.currentEpoch ==> m.src !in c.tally[n])
  }

  lemma {:induction false} PostKeeps(c: Cluster, m: Msg)
    requires Inv(c) && Postable(c, m)
    ensures Inv(Post(c, m))
  {
    hide PacketOk, ServersOk, CountsOk, VotesOk, WinsOk, PacketElectionOk, VotedFor;
    var net' := c.net[c.nextId := m];
    assert NetOk(net', c.nextId + 1);
    assert PacketsElectionOk(c.votes, c.servers, net');
    assert AcksUnique(net') by { hide TalliesOk; }
    forall n, v | n in c.servers && n in c.tally && v in c.tally[n]
      ensures NoAck(net', v, c.servers[n].authEpoch) {
      assert NoAck(c.net, v, c.servers[n].authEpoch);
    }
  }

  lemma {:induction false} PostAllKeepsInv(c: Cluster, ms: seq<Msg>)
    requires Inv(c) && forall m :: m in ms ==> !m.AuthAck? && PacketOk(m) && PacketElectionOk(c.votes, c.servers, m)
    ensures Inv(PostAll(c, ms))
    decreases |ms|
  {
    hide Inv, PacketOk, PacketElectionOk;
    if ms != [] {
      PostKeeps(c, ms[0]);
      PostAllKeepsInv(Post(c, ms[0]), ms[1..]);
    }
  }

  /** A vote in an epoch later than all earlier votes of the node. */
  lemma {:induction false} VoteKeeps(c: Cluster, v: NodeId, s: Server, candidate: NodeId)
    requires Inv(c) && v in c.servers && WellFormed(s) && s.me == v && EpochsOk(s)
    requires SameElection(c.servers[v], s) && c.servers[v].lastVoteEpoch < s.lastVoteEpoch
    ensures (v, s.lastVoteEpoch) !in c.votes
    ensures Inv(SetServer(c, v, s).(votes := c.votes[(v, s.lastVoteEpoch) := candidate]))
  {
    hide WellFormed, EpochsOk, ServersOk, NetOk, CountsOk, VotesOk, AcksUnique, TalliesOk, WinsOk, PacketsElectionOk;
    ServerChange(c, v, s);
    TallyKept(c, v, s);
    NewVote(c.votes, c.servers, v, s.lastVoteEpoch);
    var votes, servers := c.votes[(v, s.lastVoteEpoch) := candidate], c.servers[v := s];
    VoteRecorded(c.votes, servers, v, s.lastVoteEpoch, candidate);
    VotesGrow(c.votes, votes, servers, c.net, c.tally, c.wins);
  }

  lemma {:induction false} VoteRecorded(votes: Votes, servers: Servers, v: NodeId, e: nat, candidate: NodeId)
    requires VotesOk(votes, servers) && v in servers && e <= servers[v].lastVoteEpoch
    ensures VotesOk(votes[(v, e) := candidate], servers)
  {
  }

  lemma {:induction false} NewVote(votes: Votes, servers: Servers, v: NodeId, e: nat)
    requires VotesOk(votes, servers) && v in servers && servers[v].lastVoteEpoch < e
    ensures (v, e) !in votes
  {
  }

  /** A further vote changes nothing that was recorded about the earlier ones. */
  lemma {:induction false} VotesGrow(votes: Votes, votes': Votes, servers: Servers, net: Net, tally: map<NodeId, set<NodeId>>, wins: set<Win>)
    requires forall k :: k in votes ==> k in votes' && votes'[k] == votes[k]
    requires PacketsElectionOk(votes, servers, net) && TalliesOk(votes, servers, net, tally) && WinsOk(votes, wins)
    ensures PacketsElectionOk(votes', servers, net) && TalliesOk(votes', servers, net, tally) && WinsOk(votes', wins)
  {
    forall v, e, n | VotedFor(votes, v, e, n) ensures VotedFor(votes', v, e, n) {}
    hide VotedFor, NoAck;
  }

  /** An acknowledgement of the present election is counted. */
  lemma {:induction false} CountKeeps(c: Cluster, n: NodeId, s: Server, v: NodeId)
    requires Inv(c) && n in c.servers && WellFormed(s) && s.me == n && EpochsOk(s)
    requires s.authCount == c.servers[n].authCount + 1 && s.authEpoch == c.servers[n].authEpoch
    requires s.lastVoteEpoch == c.servers[n].lastVoteEpoch
    requires VotedFor(c.votes, v, s.authEpoch, n) && v !in c.tally[n] && NoAck(c.net, v, s.authEpoch)
    ensures Inv(SetServer(c, n, s).(tally := c.tally[n := c.tally[n] + {v}]))
  {
    hide WellFormed, EpochsOk, ServersOk, NetOk, VotesOk, AcksUnique, WinsOk, PacketsElectionOk, VotedFor, NoAck, CountsOk, TalliesOk;
    ServerChange(c, n, s);
    TallyKept(c, n, s);
    TallyAdd(c.votes, c.servers[n := s], c.net, c.tally, n, v);
    CountAdd(c.servers, c.tally, c.carried, n, s, v);
  }

  lemma {:induction false} TallyAdd(votes: Votes, servers: Servers, net: Net, tally: map<NodeId, set<NodeId>>, n: NodeId, v: NodeId)
    requires TalliesOk(votes, servers, net, tally) && n in servers && n in tally
    requires VotedFor(votes, v, servers[n].authEpoch, n) && NoAck(net, v, servers[n].authEpoch)
    ensures TalliesOk(votes, servers, net, tally[n := tally[n] + {v}])
    ensures tally[n := tally[n] + {v}].Keys == tally.Keys
  {
    hide VotedFor, NoAck;
  }

  lemma {:induction false} CountAdd(servers: Servers, tally: map<NodeId, set<NodeId>>, carried: map<NodeId, nat>, n: NodeId, s: Server, v: NodeId)
    requires CountsOk(servers, tally, carried) && n in servers && n in tally && n in carried && v !in tally[n]
    requires s.authCount == servers[n].authCount + 1
    ensures CountsOk(servers[n := s], tally[n := tally[n] + {v}], carried)
  {
  }

  /** The tally of a node starts again, with the given count carried in. */
  lemma {:induction false} RestartKeeps(c: Cluster, n: NodeId, s: Server)
    requires Inv(c) && n in c.servers && WellFormed(s) && s.me == n && EpochsOk(s)
    requires s.authEpoch >= c.servers[n].authEpoch && s.lastVoteEpoch == c.servers[n].lastVoteEpoch
    ensures Inv(SetServer(c, n, s).(tally := c.tally[n := {}], carried := c.carried[n := s.authCount]))
  {
    hide WellFormed, EpochsOk, ServersOk, NetOk, VotesOk, AcksUnique, WinsOk, PacketsElectionOk, VotedFor, NoAck, CountsOk, TalliesOk;
    ServerChange(c, n, s);
    TallyRestart(c.votes, c.servers, c.net, c.tally, c.carried, n, s);
  }

  lemma {:induction false} TallyRestart(votes: Votes, servers: Servers, net: Net, tally: map<NodeId, set<NodeId>>, carried: map<NodeId, nat>,
                                        n: NodeId, s: Server)
    requires TalliesOk(votes, servers, net, tally) && CountsOk(servers, tally, carried) && n in servers && n in tally && n in carried
    ensures TalliesOk(votes, servers[n := s], net, tally[n := {}])
    ensures CountsOk(servers[n := s], tally[n := {}], carried[n := s.authCount])
    ensures tally[n := {}].Keys == tally.Keys && carried[n := s.authCount].Keys == carried.Keys
  {
    hide VotedFor, NoAck;
  }

  lemma {:induction false} WinKeeps(c: Cluster, w: Win)
    requires Inv(c) && WinOk(c.votes, w)
    ensures Inv(c.(wins := c.wins + {w}))
  {
    hide ServersOk, NetOk, CountsOk, VotesOk, PacketsElectionOk, AcksUnique, TalliesOk, WinOk;
  }

  // ----- single-node facts -----

  /** Minting: the new epoch is above every epoch the node knew. */
  lemma {:induction false} MintedIsNewest(s: Server)
    requires s.me in s.peers && EpochsOk(s)
    ensures EpochsOk(MintEpoch(s))
    ensures forall p :: p in s.peers ==> s.peers[p].configEpoch < MintEpoch(s).peers[s.me].configEpoch
  {
  }

  /** CLUSTER BUMPEPOCH: afterwards no config epoch the node knows is above its own, which is not zero. */
  lemma {:induction false} BumpReachesMax(s: Server, max: nat)
    requires s.me in s.peers && EpochsOk(s) && IsMaxEpoch(s, max)
    ensures var r := Bump(s, max);
            r.peers[s.me].configEpoch > 0 && forall p :: p in r.peers ==> r.peers[p].configEpoch <= r.peers[s.me].configEpoch
  {
  }

  /** A node that voted for a slave does not vote for one of the same master again before twice the node timeout has passed. */
  lemma {:induction false} VotesAreSpaced(s: Server, m: Msg, now: int, t: Server, m': Msg, now': int, nodeTimeout: int)
    requires m.AuthRequest? && s.me in s.peers && Grants(s, m, now, nodeTimeout)
    requires m'.AuthRequest? && t.me in t.peers && Grants(t, m', now', nodeTimeout)
    requires var master := s.peers[m.src].slaveof.value;
             t.peers[m'.src].slaveof.value == master && t.peers[master].votedTime == RecordVote(s, m.src, now).peers[master].votedTime
    ensures now' - now >= nodeTimeout * 2
  {
  }

  lemma {:induction false} MergeKeepsEpochs(s: Server, m: Msg)
    requires EpochsOk(s) && PacketOk(m)
    ensures EpochsOk(MergeHeader(s, m))
    ensures m.src in s.peers ==> m.currentEpoch <= MergeHeader(s, m).currentEpoch
  {
  }

  lemma {:induction false} HandlersKeepEpochs(s: Server, m: Msg)
    requires s.me in s.peers && EpochsOk(s) && PacketOk(m) && (m.src in s.peers ==> m.currentEpoch <= s.currentEpoch)
    ensures EpochsOk(Collision(s, m))
    ensures m.Update? ==> EpochsOk(ApplyUpdate(s, m))
    ensures HeaderConfigEpoch(s) <= s.currentEpoch
  {
    MintedIsNewest(s);
  }

  lemma {:induction false} RecordVoteKeepsEpochs(s: Server, candidate: NodeId, now: int)
    requires EpochsOk(s) && candidate in s.peers && s.peers[candidate].slaveof.Some? && s.peers[candidate].slaveof.value in s.peers
    ensures EpochsOk(RecordVote(s, candidate, now))
  {
  }

  /** The epoch of an election is above every config epoch the candidate knows. */
  lemma {:induction false} FailoverKeepsEpochs(s: Server, i: Inputs)
    requires s.me in s.peers && EpochsOk(s)
    ensures EpochsOk(AfterFailover(s, i)) && AfterFailover(s, i).authEpoch >= s.authEpoch
    ensures FailoverOutcome(s, i) == Started ==>
              forall p :: p in s.peers ==> s.peers[p].configEpoch < AfterFailover(s, i).authEpoch == AfterFailover(s, i).currentEpoch
  {
    hide FailoverOutcome, AdjustedTime;
  }

  /** What each outcome does to the election of the node. */
  lemma {:induction false} FailoverElection(s: Server, i: Inputs)
    requires s.me in s.peers
    ensures var r, o := AfterFailover(s, i), FailoverOutcome(s, i);
            && (o == Nothing || o == Delayed || o == Won ==> SameElection(s, r))
            && (o == Scheduled ==> r.authCount == 0 && r.authEpoch == s.authEpoch)
            && (o == Started ==> r.authCount == s.authCount)
            && (o == Won ==> s.authCount >= Quorum(s.size))
  {
  }

  // ----- every step keeps the invariant -----

  lemma {:induction false} SetKeeps(c: Cluster, n: NodeId, s: Server)
    requires Inv(c) && n in c.servers && SameShape(c.servers[n], s) && EpochsOk(s)
    requires SameElection(c.servers[n], s) && s.lastVoteEpoch == c.servers[n].lastVoteEpoch
    ensures Inv(SetServer(c, n, s))
  {
    hide Inv, EpochsOk;
    NodeOk(c, n);
    SetServerKeeps(c, n, s);
  }

  /** A packet is in order when it is handed over, and so is its addressee after reading the header. */
  lemma {:induction false} HeaderRead(c: Cluster, id: nat)
    requires Inv(c) && id in c.net && c.net[id].dst in c.servers
    ensures var m := c.net[id];
            var s := MergeHeader(c.servers[m.dst], m);
            && PacketOk(m) && EpochsOk(s) && WellFormed(s) && s.me == m.dst && WellFormed(c.servers[m.dst])
            && (m.src in s.peers ==> m.currentEpoch <= s.currentEpoch)
            && EpochsOk(Collision(s, m)) && (m.Update? ==> EpochsOk(ApplyUpdate(s, m))) && HeaderConfigEpoch(s) <= s.currentEpoch
  {
    hide CountsOk, VotesOk, PacketsElectionOk, AcksUnique, TalliesOk, WinsOk, EpochsOk, MergeHeader, Collision, ApplyUpdate, HeaderConfigEpoch;
    var m := c.net[id];
    MergeKeepsEpochs(c.servers[m.dst], m);
    HandlersKeepEpochs(MergeHeader(c.servers[m.dst], m), m);
  }

  lemma {:induction false} DeliveryKeeps(c: Cluster, c': Cluster, id: nat, now: int, nodeTimeout: int, linkUp: bool)
    requires Inv(c) && Shape(c) && id in c.net && Delivered(c, c', id, now, nodeTimeout, linkUp)
    ensures Inv(c')
  {
    hide Inv, Shape, Grants, CountsAck, MergeHeader, Collision, ApplyUpdate, RecordVote, HeaderConfigEpoch, EpochsOk;
    LoseKeeps(c, id);
    var m := c.net[id];
    var c1 := c.(net := c.net - {id});
    if m.dst in c.servers {
      HeaderRead(c, id);
      var s := MergeHeader(c.servers[m.dst], m);
      match m
      case Ping(_, _, _, _) => SetKeeps(c1, m.dst, Collision(s, m));
      case Update(_, _, _, _, _, _) => SetKeeps(c1, m.dst, ApplyUpdate(s, m));
      case AuthRequest(_, _, _, _, _, _) =>
        SetKeeps(c1, m.dst, s);
        if Grants(s, m, now, nodeTimeout) { VotingKeeps(c, c1, id, now, nodeTimeout); }
      case AuthAck(_, _, _, _) =>
        SetKeeps(c1, m.dst, s);
        AckInFlight(c, id);
        if CountsAck(s, m) { CountingKeeps(c, id); }
    }
  }

  /** The granted vote is for the epoch of the request, and the node's first in that epoch. */
  lemma {:induction false} GrantedEpoch(s: Server, m: Msg, now: int, nodeTimeout: int)
    requires m.AuthRequest? && s.me in s.peers && EpochsOk(s) && Grants(s, m, now, nodeTimeout)
    requires m.src in s.peers ==> m.currentEpoch <= s.currentEpoch
    ensures m.currentEpoch == s.currentEpoch && s.lastVoteEpoch < s.currentEpoch
    ensures m.src in s.peers && s.peers[m.src].slaveof.Some? && s.peers[m.src].slaveof.value in s.peers
  {
  }

  lemma {:induction false} VotingKeeps(c: Cluster, c1: Cluster, id: nat, now: int, nodeTimeout: int)
    requires Inv(c) && id in c.net && c1 == c.(net := c.net - {id}) && Inv(c1)
    requires c.net[id].AuthRequest? && c.net[id].dst in c.servers && WellFormed(c.servers[c.net[id].dst])
    requires Grants(MergeHeader(c.servers[c.net[id].dst], c.net[id]), c.net[id], now, nodeTimeout)
    ensures var m := c.net[id];
            var s := MergeHeader(c.servers[m.dst], m);
            && m.src in s.peers && s.peers[m.src].slaveof.Some? && s.peers[m.src].slaveof.value in s.peers
            && var voted := SetServer(c1, m.dst, RecordVote(s, m.src, now)).(votes := c.votes[(m.dst, s.currentEpoch) := m.src]);
               Inv(voted) && Inv(Post(voted, AuthAck(m.dst, m.src, s.currentEpoch, HeaderConfigEpoch(s))))
  {
    hide Inv, Grants, MergeHeader, RecordVote, HeaderConfigEpoch, EpochsOk, Postable;
    HeaderRead(c, id);
    RequestInFlight(c, id);
    var m := c.net[id];
    var s := MergeHeader(c.servers[m.dst], m);
    GrantedEpoch(s, m, now, nodeTimeout);
    RecordVoteKeepsEpochs(s, m.src, now);
    var t := RecordVote(s, m.src, now);
    VoteKeeps(c1, m.dst, t, m.src);
    var voted := SetServer(c1, m.dst, t).(votes := c.votes[(m.dst, s.currentEpoch) := m.src]);
    var ack := AuthAck(m.dst, m.src, s.currentEpoch, HeaderConfigEpoch(s));
    FirstAck(c1, voted, ack);
    PostKeeps(voted, ack);
  }

  lemma {:induction false} RequestInFlight(c: Cluster, id: nat)
    requires Inv(c) && id in c.net && c.net[id].AuthRequest?
    ensures c.net[id].src in c.servers && c.net[id].currentEpoch <= c.servers[c.net[id].src].authEpoch
  {
    hide ServersOk, NetOk, CountsOk, VotesOk, AcksUnique, TalliesOk, WinsOk;
    assert PacketElectionOk(c.votes, c.servers, c.net[id]);
  }

  lemma {:induction false} AckInFlight(c: Cluster, id: nat)
    requires Inv(c) && id in c.net && c.net[id].AuthAck? && c.net[id].dst in c.servers
    ensures var m := c.net[id]; m.currentEpoch <= c.servers[m.dst].authEpoch && VotedFor(c.votes, m.src, m.currentEpoch, m.dst)
    ensures c.servers.Keys == c.tally.Keys
  {
    hide ServersOk, NetOk, CountsOk, VotesOk, AcksUnique, TalliesOk, WinsOk;
    assert PacketElectionOk(c.votes, c.servers, c.net[id]);
  }

  /** Before a vote is cast, nothing in flight or counted refers to it. */
  lemma {:induction false} FirstAck(c: Cluster, voted: Cluster, ack: Msg)
    requires Inv(c) && ack.AuthAck? && PacketOk(ack) && (ack.src, ack.currentEpoch) !in c.votes
    requires voted.net == c.net && voted.tally == c.tally && voted.servers.Keys == c.servers.Keys
    requires forall n :: n in c.servers ==> voted.servers[n].authEpoch == c.servers[n].authEpoch
    requires voted.votes == c.votes[(ack.src, ack.currentEpoch) := ack.dst]
    requires ack.dst in c.servers && ack.currentEpoch <= c.servers[ack.dst].authEpoch
    ensures Postable(voted, ack)
  {
    hide ServersOk, NetOk, CountsOk, VotesOk, AcksUnique, WinsOk;
    forall i | i in c.net ensures !AckFrom(c.net[i], ack.src, ack.currentEpoch) {
      assert PacketElectionOk(c.votes, c.servers, c.net[i]);
    }
    forall n | n in c.servers && c.servers[n].authEpoch == ack.currentEpoch ensures ack.src !in c.tally[n] {}
  }

  lemma {:induction false} CountingKeeps(c: Cluster, id: nat)
    requires Inv(c) && id in c.net && Inv(c.(net := c.net - {id}))
    requires c.net[id].AuthAck? && c.net[id].dst in c.servers && c.net[id].dst in c.tally
    requires CountsAck(MergeHeader(c.servers[c.net[id].dst], c.net[id]), c.net[id])
    ensures var m := c.net[id];
            var s := MergeHeader(c.servers[m.dst], m);
            Inv(SetServer(c.(net := c.net - {id}), m.dst, s.(authCount := s.authCount + 1)).(tally := c.tally[m.dst := c.tally[m.dst] + {m.src}]))
  {
    hide Inv, MergeHeader, EpochsOk, NoAck, VotedFor;
    HeaderRead(c, id);
    AckInFlight(c, id);
    var m := c.net[id];
    var s := MergeHeader(c.servers[m.dst], m);
    assert m.currentEpoch == s.authEpoch;
    NotYetCounted(c, id);
    var t := s.(authCount := s.authCount + 1);
    CountedEpochs(s);
    CountKeeps(c.(net := c.net - {id}), m.dst, t, m.src);
  }

  lemma {:induction false} CountedEpochs(s: Server)
    ensures EpochsOk(s.(authCount := s.authCount + 1)) == EpochsOk(s)
  {
  }

  /** The voter of an acknowledgement in flight is not in the tally, and no second one is in flight. */
  lemma {:induction false} NotYetCounted(c: Cluster, id: nat)
    requires Inv(c) && id in c.net && c.net[id].AuthAck? && c.net[id].dst in c.servers
    requires c.net[id].currentEpoch == c.servers[c.net[id].dst].authEpoch
    ensures c.net[id].src !in c.tally[c.net[id].dst]
    ensures NoAck(c.net - {id}, c.net[id].src, c.net[id].currentEpoch)
  {
    hide ServersOk, NetOk, CountsOk, VotesOk, WinsOk, PacketsElectionOk, VotedFor;
    var m := c.net[id];
    assert AckFrom(c.net[id], m.src, m.currentEpoch) && !NoAck(c.net, m.src, m.currentEpoch);
  }

  lemma {:induction false} FailoverKeeps(c: Cluster, c': Cluster, n: NodeId, i: Inputs, requests: seq<Msg>)
    requires Inv(c) && Shape(c) && n in c.servers && Failover(c, c', n, i, requests)
    ensures Inv(c')
  {
    hide Inv, Shape, FailoverOutcome, AfterFailover, HeaderConfigEpoch, EpochsOk, WinOk;
    AfterFailoverOk(c, n, i);
    WinRecorded(c, n);
    var s := c.servers[n];
    var t := AfterFailover(s, i);
    match FailoverOutcome(s, i)
    case Nothing => SetKeeps(c, n, t);
    case Delayed => SetKeeps(c, n, t);
    case Scheduled => RestartKeeps(c, n, t);
    case Started =>
      RestartKeeps(c, n, t);
      PostAllKeepsInv(SetServer(c, n, t).(tally := c.tally[n := {}], carried := c.carried[n := s.authCount]), requests);
    case Won =>
      SetKeeps(c, n, t);
      WinKeeps(SetServer(c, n, t), Win(n, s.authEpoch, s.size, c.tally[n], c.carried[n]));
  }

  lemma {:induction false} AfterFailoverOk(c: Cluster, n: NodeId, i: Inputs)
    requires Inv(c) && n in c.servers
    ensures n in c.tally && n in c.carried && WellFormed(c.servers[n]) && c.servers[n].me == n
    ensures var s := c.servers[n];
            var r, o := AfterFailover(s, i), FailoverOutcome(s, i);
            && WellFormed(r) && EpochsOk(r) && r.authEpoch >= s.authEpoch && HeaderConfigEpoch(r) <= r.currentEpoch
            && (o == Nothing || o == Delayed || o == Won ==> SameElection(s, r))
            && (o == Scheduled ==> r.authCount == 0)
            && (o == Started ==> r.authCount == s.authCount && r.authEpoch == r.currentEpoch)
            && (o == Won ==> s.authCount >= Quorum(s.size))
  {
    hide NetOk, CountsOk, VotesOk, PacketsElectionOk, AcksUnique, TalliesOk, WinsOk, EpochsOk, FailoverOutcome, AfterFailover, HeaderConfigEpoch;
    FailoverKeepsEpochs(c.servers[n], i);
    FailoverElection(c.servers[n], i);
    HandlersKeepEpochs(AfterFailover(c.servers[n], i), Ping(n, n, 0, 0));
  }

  lemma {:induction false} WinRecorded(c: Cluster, n: NodeId)
    requires Inv(c) && n in c.servers
    ensures var s := c.servers[n];
            s.authCount >= Quorum(s.size) ==> WinOk(c.votes, Win(n, s.authEpoch, s.size, c.tally[n], c.carried[n]))
  {
    hide ServersOk, NetOk, VotesOk, AcksUnique, WinsOk, PacketsElectionOk;
  }

  /** Every step keeps the invariant. */
  lemma {:induction false} StepKeeps(c: Cluster, c': Cluster, step: Step)
    requires Inv(c) && Shape(c) && NextStep(c, c', step)
    ensures Inv(c')
  {
    hide Inv, Shape, EpochsOk, Delivered, Failover, MaySend, Bump, SetConfigEpoch, IsMaxEpoch, LocalChange;
    match step
    case SendStep(n, m) =>
      NodeOk(c, n);
      SendKeeps(c, n, m);
    case LoseStep(id) => LoseKeeps(c, id);
    case DeliverStep(id, now, nodeTimeout, linkUp) => DeliveryKeeps(c, c', id, now, nodeTimeout, linkUp);
    case FailoverStep(n, i, requests) => FailoverKeeps(c, c', n, i, requests);
    case BumpStep(n, max) =>
      NodeOk(c, n);
      BumpKeepsEpochs(c.servers[n], max);
      SetKeeps(c, n, Bump(c.servers[n], max));
    case SetEpochStep(n, epoch) =>
      NodeOk(c, n);
      SetEpochKeepsEpochs(c.servers[n], epoch);
      SetKeeps(c, n, SetConfigEpoch(c.servers[n], epoch));
    case LocalStep(n, s) =>
      NodeOk(c, n);
      LocalKeepsEpochs(c.servers[n], s);
      SetServerKeeps(c, n, s);
  }

  lemma {:induction false} NodeOk(c: Cluster, n: NodeId)
    requires Inv(c) && n in c.servers
    ensures WellFormed(c.servers[n]) && c.servers[n].me == n && EpochsOk(c.servers[n])
  {
    hide NetOk, CountsOk, VotesOk, PacketsElectionOk, AcksUnique, TalliesOk, WinsOk, EpochsOk;
  }

  lemma {:induction false} SendKeeps(c: Cluster, n: NodeId, m: Msg)
    requires Inv(c) && n in c.servers && c.servers[n].me in c.servers[n].peers && MaySend(c.servers[n], m)
    ensures Inv(Post(c, m))
  {
    hide Inv;
    NodeOk(c, n);
    PostKeeps(c, m);
  }

  lemma {:induction false} BumpKeepsEpochs(s: Server, max: nat)
    requires s.me in s.peers && EpochsOk(s)
    ensures EpochsOk(Bump(s, max))
  {
    MintedIsNewest(s);
  }

  lemma {:induction false} SetEpochKeepsEpochs(s: Server, epoch: nat)
    requires s.me in s.peers && EpochsOk(s)
    ensures EpochsOk(SetConfigEpoch(s, epoch))
  {
  }

  lemma {:induction false} LocalKeepsEpochs(s: Server, t: Server)
    requires EpochsOk(s) && LocalChange(s, t)
    ensures EpochsOk(t) && WellFormed(t) && t.me == s.me && SameElection(s, t) && t.lastVoteEpoch == s.lastVoteEpoch
  {
  }

  // ----- whole runs -----

  lemma {:induction false} InitInv(c: Cluster)
    requires Init(c)
    ensures Inv(c)
  {
    hide WellFormed, EpochsOk;
  }

  lemma {:induction false} RunKeepsInv(cs: seq<Cluster>, steps: seq<Step>, k: nat)
    requires IsRun(cs, steps) && k < |cs|
    ensures Inv(cs[k]) && Shape(cs[k])
  {
    hide Inv, Shape, Init, NextStep;
    if k == 0 {
      InitInv(cs[0]);
    } else {
      RunKeepsInv(cs, steps, k - 1);
      StepKeeps(cs[k - 1], cs[k], steps[k - 1]);
    }
    InvIsShape(cs[k]);
  }

  /** In every reachable state no node knows, votes in or runs for an epoch above its currentEpoch, and no packet carries one. */
  lemma {:induction false} EpochsStayOrdered(cs: seq<Cluster>, steps: seq<Step>, k: nat)
    requires IsRun(cs, steps) && k < |cs|
    ensures EpochInv(cs[k])
  {
    hide IsRun, Inv, Shape, EpochInv;
    RunKeepsInv(cs, steps, k);
    InvIsShape(cs[k]);
  }

  /** In every reachable state the vote count is the votes carried into the election and the distinct voters counted since. */
  lemma {:induction false} CountIsExact(cs: seq<Cluster>, steps: seq<Step>, k: nat, n: NodeId)
    requires IsRun(cs, steps) && k < |cs| && n in cs[k].servers
    ensures n in cs[k].tally && n in cs[k].carried
    ensures var s := cs[k].servers[n];
            && s.authCount == cs[k].carried[n] + |cs[k].tally[n]|
            && forall v :: v in cs[k].tally[n] ==> VotedFor(cs[k].votes, v, s.authEpoch, n)
  {
    hide IsRun, ServersOk, NetOk, VotesOk, PacketsElectionOk, AcksUnique, WinsOk, VotedFor, NoAck;
    RunKeepsInv(cs, steps, k);
  }

  // ----- votes are final -----

  /** Once cast, a vote stays: no other is cast by that node in that epoch. */
  ghost predicate VotesKept(votes: Votes, votes': Votes) {
    forall k :: k in votes ==> k in votes' && votes'[k] == votes[k]
  }

  predicate Later(s: Server, t: Server) {
    s.currentEpoch <= t.currentEpoch && s.lastVoteEpoch <= t.lastVoteEpoch && s.authEpoch <= t.authEpoch
  }

  ghost predicate EpochsGrow(servers: Servers, servers': Servers) {
    forall n :: n in servers ==> n in servers' && Later(servers[n], servers'[n])
  }

  lemma {:induction false} GrowsReflexively(c: Cluster)
    ensures VotesKept(c.votes, c.votes) && EpochsGrow(c.servers, c.servers)
  {
  }

  lemma {:induction false} OneGrows(servers: Servers, n: NodeId, s: Server)
    requires n in servers && Later(servers[n], s)
    ensures EpochsGrow(servers, servers[n := s])
  {
  }

  lemma {:induction false} VoteAdded(votes: Votes, k: (NodeId, nat), n: NodeId)
    requires k !in votes
    ensures VotesKept(votes, votes[k := n])
  {
  }

  lemma {:induction false} DeliveryGrows(c: Cluster, c': Cluster, id: nat, now: int, nodeTimeout: int, linkUp: bool)
    requires Inv(c) && Shape(c) && id in c.net && Delivered(c, c', id, now, nodeTimeout, linkUp)
    ensures VotesKept(c.votes, c'.votes) && EpochsGrow(c.servers, c'.servers)
  {
    hide Inv, Shape, Grants, CountsAck, MergeHeader, Collision, ApplyUpdate, RecordVote, HeaderConfigEpoch, EpochsOk, VotesKept, EpochsGrow;
    GrowsReflexively(c);
    var m := c.net[id];
    if m.dst in c.servers {
      HeaderRead(c, id);
      var s := MergeHeader(c.servers[m.dst], m);
      if m.AuthRequest? && Grants(s, m, now, nodeTimeout) {
        GrantedEpoch(s, m, now, nodeTimeout);
        FreshVote(c, m.dst, s.currentEpoch);
        VoteAdded(c.votes, (m.dst, s.currentEpoch), m.src);
      }
      OneGrows(c.servers, m.dst, c'.servers[m.dst]);
    }
  }

  lemma {:induction false} FreshVote(c: Cluster, v: NodeId, e: nat)
    requires Inv(c) && v in c.servers && c.servers[v].lastVoteEpoch < e
    ensures (v, e) !in c.votes
  {
    NewVote(c.votes, c.servers, v, e);
  }

  lemma {:induction false} FailoverGrows(c: Cluster, c': Cluster, n: NodeId, i: Inputs, requests: seq<Msg>)
    requires Inv(c) && Shape(c) && n in c.servers && Failover(c, c', n, i, requests)
    ensures VotesKept(c.votes, c'.votes) && EpochsGrow(c.servers, c'.servers)
  {
    hide Inv, Shape, FailoverOutcome, AfterFailover, HeaderConfigEpoch, EpochsOk, VotesKept, EpochsGrow;
    GrowsReflexively(c);
    AfterFailoverOk(c, n, i);
    var c1 := SetServer(c, n, AfterFailover(c.servers[n], i));
    OneGrows(c.servers, n, AfterFailover(c.servers[n], i));
    PostAllKeeps(c1.(tally := c.tally[n := {}], carried := c.carried[n := c.servers[n].authCount]), requests);
  }

  lemma {:induction false} StepGrows(c: Cluster, c': Cluster, step: Step)
    requires Inv(c) && Shape(c) && NextStep(c, c', step)
    ensures VotesKept(c.votes, c'.votes) && EpochsGrow(c.servers, c'.servers)
  {
    hide Inv, Shape, EpochsOk, Delivered, Failover, MaySend, Bump, SetConfigEpoch, IsMaxEpoch, VotesKept, EpochsGrow;
    GrowsReflexively(c);
    match step
    case SendStep(_, _) =>
    case LoseStep(_) =>
    case DeliverStep(id, now, nodeTimeout, linkUp) => DeliveryGrows(c, c', id, now, nodeTimeout, linkUp);
    case FailoverStep(n, i, requests) => FailoverGrows(c, c', n, i, requests);
    case BumpStep(n, max) => OneGrows(c.servers, n, c'.servers[n]);
    case SetEpochStep(n, epoch) => OneGrows(c.servers, n, c'.servers[n]);
    case LocalStep(n, s) => OneGrows(c.servers, n, s);
  }

  /** Along a run no epoch of a node goes back, and no node votes twice in an epoch. */
  lemma {:induction false} VotesAreFinal(cs: seq<Cluster>, steps: seq<Step>, i: nat, j: nat)
    requires IsRun(cs, steps) && i <= j < |cs|
    ensures VotesKept(cs[i].votes, cs[j].votes) && EpochsGrow(cs[i].servers, cs[j].servers)
    decreases j
  {
    hide Inv, Shape, Init, NextStep;
    if i < j {
      VotesAreFinal(cs, steps, i, j - 1);
      RunKeepsInv(cs, steps, j - 1);
      StepGrows(cs[j - 1], cs[j], steps[j - 1]);
      GrowsOn(cs[i], cs[j - 1], cs[j]);
    }
  }

  lemma {:induction false} GrowsOn(a: Cluster, b: Cluster, c: Cluster)
    requires VotesKept(a.votes, b.votes) && VotesKept(b.votes, c.votes)
    requires EpochsGrow(a.servers, b.servers) && EpochsGrow(b.servers, c.servers)
    ensures VotesKept(a.votes, c.votes) && EpochsGrow(a.servers, c.servers)
  {
  }

  // ----- election safety -----

  lemma {:induction false} SubsetSize(a: set<NodeId>, b: set<NodeId>)
    requires a <= b
    ensures |a| <= |b|
  {
    assert b == a + (b - a);
  }

  lemma {:induction false} MajoritiesMeet(a: set<NodeId>, b: set<NodeId>, all: set<NodeId>) returns (v: NodeId)
    requires a <= all && b <= all && |a| + |b| > |all|
    ensures v in a && v in b
  {
    SubsetSize(a + b, all);
    assert |a + b| == |a| + |b| - |a * b|;
    v :| v in a * b;
  }

  /**
   At most one node wins the elections of an epoch: two wins that each rest on a
   quorum of masters counted in that election, quorums that cannot fit side by side
   into the masters that vote, are of the same node.
   */
  lemma {:induction false} ElectionSafety(cs: seq<Cluster>, steps: seq<Step>, k: nat, w: Win, w': Win, masters: set<NodeId>)
    requires IsRun(cs, steps) && k < |cs| && w in cs[k].wins && w' in cs[k].wins && w.epoch == w'.epoch
    requires |w.counted| >= Quorum(w.size) && |w'.counted| >= Quorum(w'.size)
    requires w.counted <= masters && w'.counted <= masters && |masters| < Quorum(w.size) + Quorum(w'.size)
    ensures w.node == w'.node
  {
    hide IsRun, ServersOk, NetOk, CountsOk, VotesOk, PacketsElectionOk, AcksUnique, TalliesOk;
    RunKeepsInv(cs, steps, k);
    assert WinOk(cs[k].votes, w) && WinOk(cs[k].votes, w');
    var v := MajoritiesMeet(w.counted, w'.counted, masters);
    assert VotedFor(cs[k].votes, v, w.epoch, w.node) && VotedFor(cs[k].votes, v, w.epoch, w'.node);
  }

  /** The masters counted since the election began are a quorum exactly when the count reaches the quorum without what was carried in. */
  lemma {:induction false} QuorumIsGenuineIff(cs: seq<Cluster>, steps: seq<Step>, k: nat, n: NodeId)
    requires IsRun(cs, steps) && k < |cs| && n in cs[k].servers
    ensures n in cs[k].tally && n in cs[k].carried
    ensures var s := cs[k].servers[n];
            |cs[k].tally[n]| >= Quorum(s.size) <==> s.authCount >= Quorum(s.size) + cs[k].carried[n]
  {
    hide IsRun, Quorum, VotedFor;
    CountIsExact(cs, steps, k, n);
  }

  /** With nothing carried in, a win rests on a quorum of masters that voted for the winner in that epoch. */
  lemma {:induction false} WinIsGenuine(cs: seq<Cluster>, steps: seq<Step>, k: nat, w: Win)
    requires IsRun(cs, steps) && k < |cs| && w in cs[k].wins && w.carried == 0
    ensures |w.counted| >= Quorum(w.size) && forall v :: v in w.counted ==> VotedFor(cs[k].votes, v, w.epoch, w.node)
  {
    hide IsRun, ServersOk, NetOk, CountsOk, VotesOk, PacketsElectionOk, AcksUnique, TalliesOk, VotedFor, Quorum;
    RunKeepsInv(cs, steps, k);
    assert WinOk(cs[k].votes, w);
  }

  // ----- when nothing is carried in -----

  /** An election starts with an empty count: what a node could check when it asks for votes. */
  ghost predicate StartsEmpty(c: Cluster, step: Step)
    requires Shape(c)
  {
    step.FailoverStep? && step.n in c.servers && FailoverOutcome(c.servers[step.n], step.i) == Started ==> c.servers[step.n].authCount == 0
  }

  ghost predicate CarriesNothing(c: Cluster) {
    (forall n :: n in c.carried ==> c.carried[n] == 0) && (forall w :: w in c.wins ==> w.carried == 0)
  }

  lemma {:induction false} DeliveryCarries(c: Cluster, c': Cluster, id: nat, now: int, nodeTimeout: int, linkUp: bool)
    requires Shape(c) && id in c.net && Delivered(c, c', id, now, nodeTimeout, linkUp)
    ensures c'.carried == c.carried && c'.wins == c.wins
  {
    hide Shape, Grants, CountsAck, MergeHeader, Collision, ApplyUpdate, RecordVote, HeaderConfigEpoch;
  }

  lemma {:induction false} FailoverCarries(c: Cluster, c': Cluster, n: NodeId, i: Inputs, requests: seq<Msg>)
    requires Shape(c) && n in c.servers && Failover(c, c', n, i, requests) && CarriesNothing(c) && StartsEmpty(c, FailoverStep(n, i, requests))
    ensures CarriesNothing(c')
  {
    assert c.servers[n].me in c.servers[n].peers && n in c.carried;
    hide Shape, FailoverOutcome, AfterFailover, HeaderConfigEpoch;
    var s := AfterFailover(c.servers[n], i);
    PostAllKeeps(SetServer(c, n, s).(tally := c.tally[n := {}], carried := c.carried[n := 0]), requests);
  }

  lemma {:induction false} StepCarriesNothing(c: Cluster, c': Cluster, step: Step)
    requires Shape(c) && NextStep(c, c', step) && StartsEmpty(c, step) && CarriesNothing(c)
    ensures CarriesNothing(c')
  {
    hide Shape, StartsEmpty, Delivered, Failover;
    match step
    case DeliverStep(id, now, nodeTimeout, linkUp) => DeliveryCarries(c, c', id, now, nodeTimeout, linkUp);
    case FailoverStep(n, i, requests) => FailoverCarries(c, c', n, i, requests);
    case _ =>
  }

  lemma {:induction false} StartCarriesNothing(c: Cluster)
    requires Init(c) && forall n :: n in c.servers ==> c.servers[n].authCount == 0
    ensures CarriesNothing(c)
  {
    hide WellFormed, EpochsOk;
  }

  /** If every election starts with an empty count, no win ever rests on votes of an earlier election. */
  lemma {:induction false} RunCarriesNothing(cs: seq<Cluster>, steps: seq<Step>, k: nat)
    requires IsRun(cs, steps) && k < |cs|
    requires forall n :: n in cs[0].servers ==> cs[0].servers[n].authCount == 0
    requires forall i :: 0 <= i < |steps| ==> StartsEmpty(cs[i], steps[i])
    ensures CarriesNothing(cs[k])
  {
    hide Shape, Init, NextStep, StartsEmpty, CarriesNothing;
    if k == 0 {
      StartCarriesNothing(cs[0]);
    } else {
      RunCarriesNothing(cs, steps, k - 1);
      StepCarriesNothing(cs[k - 1], cs[k], steps[k - 1]);
    }
  }

  /** Then at most one node wins the elections of an epoch, in a cluster of masters whose number every candidate knows. */
  lemma {:induction false} OneWinnerPerEpoch(cs: seq<Cluster>, steps: seq<Step>, k: nat, w: Win, w': Win, masters: set<NodeId>)
    requires IsRun(cs, steps) && k < |cs| && w in cs[k].wins && w' in cs[k].wins && w.epoch == w'.epoch
    requires forall n :: n in cs[0].servers ==> cs[0].servers[n].authCount == 0
    requires forall i :: 0 <= i < |steps| ==> StartsEmpty(cs[i], steps[i])
    requires w.counted <= masters && w'.counted <= masters && w.size == w'.size == |masters|
    ensures w.node == w'.node
  {
    RunCarriesNothing(cs, steps, k);
    WinIsGenuine(cs, steps, k, w);
    WinIsGenuine(cs, steps, k, w');
    ElectionSafety(cs, steps, k, w, w', masters);
  }
}
