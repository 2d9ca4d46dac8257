/**
 The cluster as a transition system: the nodes, the packets in flight, and a
 record of the votes cast, the acknowledgements counted and the elections won.
 Packets may be lost, delayed and reordered, but are not duplicated.
 */
module ClusterProtocol {
  import opened Wrappers
  import opened ClusterNode

  /** An election won: by whom, in which epoch, the cluster size used, the voters counted, the votes carried in. */
  datatype Win = Win(node: NodeId, epoch: nat, size: nat, counted: set<NodeId>, carried: nat)

  /**
   votes: who voted in which epoch, and for whom. For each node, tally holds the
   voters counted since its election began and carried the count it began with.
   */
  datatype Cluster = Cluster(servers: map<NodeId, Server>, net: map<nat, Msg>, nextId: nat,
                             votes: map<(NodeId, nat), NodeId>, tally: map<NodeId, set<NodeId>>, carried: map<NodeId, nat>,
                             wins: set<Win>)

  ghost predicate Shape(c: Cluster) {
    && c.tally.Keys == c.servers.Keys && c.carried.Keys == c.servers.Keys
    && (forall n :: n in c.servers ==> c.servers[n].me == n && WellFormed(c.servers[n]))
    && (forall id :: id in c.net ==> id < c.nextId)
  }

  // ----- packets -----

  function Post(c: Cluster, m: Msg): Cluster {
    c.(net := c.net[c.nextId := m], nextId := c.nextId + 1)
  }

  function PostAll(c: Cluster, ms: seq<Msg>): Cluster
    decreases |ms|
  {
    if ms == [] then c else PostAll(Post(c, ms[0]), ms[1..])
  }

  /** The requests of one election, one packet per addressee. */
  predicate AreRequests(s: Server, ms: seq<Msg>)
    requires s.me in s.peers
  {
    forall i :: 0 <= i < |ms| ==>
      ms[i].AuthRequest? && ms[i].src == s.me && ms[i].currentEpoch == s.currentEpoch && ms[i].configEpoch == HeaderConfigEpoch(s)
  }

  /** A PING, PONG or UPDATE a node may send at any time; the header and payload are what it knows. */
  predicate MaySend(s: Server, m: Msg)
    requires s.me in s.peers
  {
    && m.src == s.me && m.currentEpoch == s.currentEpoch && m.configEpoch == HeaderConfigEpoch(s)
    && (m.Ping? || (m.Update? && m.about in s.peers && m.aboutEpoch == s.peers[m.about].configEpoch))
  }

  // ----- steps -----

  datatype Step =
    | SendStep(n: NodeId, m: Msg)
    | LoseStep(id: nat)
    | DeliverStep(id: nat, now: int, nodeTimeout: int, linkUp: bool)
    | FailoverStep(n: NodeId, i: Inputs, requests: seq<Msg>)
    | BumpStep(n: NodeId, max: nat)
    | SetEpochStep(n: NodeId, epoch: nat)
    | LocalStep(n: NodeId, s: Server)

  function SetServer(c: Cluster, n: NodeId, s: Server): Cluster { c.(servers := c.servers[n := s]) }

  /** Everything but the epochs and the election state may change: roles, failure flags, slots, peers met or forgotten. */
  ghost predicate LocalChange(s: Server, t: Server) {
    && WellFormed(t) && t.me == s.me
    && t.currentEpoch == s.currentEpoch && t.lastVoteEpoch == s.lastVoteEpoch
    && t.authCount == s.authCount && t.authSent == s.authSent && t.authEpoch == s.authEpoch
    && (forall p :: p in t.peers ==> t.peers[p].configEpoch == if p in s.peers then s.peers[p].configEpoch else 0)
  }

  /** A packet is handed to its addressee. */
  ghost predicate Delivered(c: Cluster, c': Cluster, id: nat, now: int, nodeTimeout: int, linkUp: bool)
    requires Shape(c) && id in c.net
  {
    var m := c.net[id];
    var c1 := c.(net := c.net - {id});
    if m.dst !in c.servers then c' == c1
    else
      var s := MergeHeader(c.servers[m.dst], m);
      match m
      case Ping(_, _, _, _) => c' == SetServer(c1, m.dst, Collision(s, m))
      case Update(_, _, _, _, _, _) => c' == SetServer(c1, m.dst, ApplyUpdate(s, m))
      case AuthRequest(_, _, _, _, _, _) =>
        if !Grants(s, m, now, nodeTimeout) then c' == SetServer(c1, m.dst, s)
        else
          var voted := SetServer(c1, m.dst, RecordVote(s, m.src, now)).(votes := c.votes[(m.dst, s.currentEpoch) := m.src]);
          var ack := AuthAck(m.dst, m.src, s.currentEpoch, HeaderConfigEpoch(s));
          c' == if linkUp then Post(voted, ack) else voted
      case AuthAck(_, _, _, _) =>
        if CountsAck(s, m) then
          c' == SetServer(c1, m.dst, s.(authCount := s.authCount + 1)).(tally := c.tally[m.dst := c.tally[m.dst] + {m.src}])
        else c' == SetServer(c1, m.dst, s)
  }

  /** clusterHandleSlaveFailover runs on node n. */
  ghost predicate Failover(c: Cluster, c': Cluster, n: NodeId, i: Inputs, requests: seq<Msg>)
    requires Shape(c) && n in c.servers
  {
    var s := c.servers[n];
    var t := AfterFailover(s, i);
    var c1 := SetServer(c, n, t);
    match FailoverOutcome(s, i)
    case Nothing => c' == c1
    case Delayed => c' == c1
    case Scheduled => c' == c1.(tally := c.tally[n := {}], carried := c.carried[n := 0])
    case Started => AreRequests(t, requests)
                    && c' == PostAll(c1.(tally := c.tally[n := {}], carried := c.carried[n := s.authCount]), requests)
    case Won => c' == c1.(wins := c.wins + {Win(n, s.authEpoch, s.size, c.tally[n], c.carried[n])})
  }

  ghost predicate NextStep(c: Cluster, c': Cluster, step: Step)
    requires Shape(c)
  {
    match step
    case SendStep(n, m) => n in c.servers && MaySend(c.servers[n], m) && c' == Post(c, m)
    case LoseStep(id) => id in c.net && c' == c.(net := c.net - {id})
    case DeliverStep(id, now, nodeTimeout, linkUp) => id in c.net && Delivered(c, c', id, now, nodeTimeout, linkUp)
    case FailoverStep(n, i, requests) => n in c.servers && Failover(c, c', n, i, requests)
    case BumpStep(n, max) => n in c.servers && IsMaxEpoch(c.servers[n], max) && c' == SetServer(c, n, Bump(c.servers[n], max))
    case SetEpochStep(n, epoch) => n in c.servers && c' == SetServer(c, n, SetConfigEpoch(c.servers[n], epoch))
    case LocalStep(n, s) => n in c.servers && LocalChange(c.servers[n], s) && c' == SetServer(c, n, s)
  }

  /** No packet, no vote, no election yet; each node starts with consistent epochs. */
  ghost predicate Init(c: Cluster) {
    && Shape(c) && c.net == map[] && c.votes == map[] && c.wins == {}
    && (forall n :: n in c.servers ==> c.tally[n] == {} && c.carried[n] == c.servers[n].authCount)
    && (forall n :: n in c.servers ==> EpochsOk(c.servers[n]))
  }

  /** Shape restricts nothing: every step keeps it (ClusterSafety.RunKeepsInv). */
  ghost predicate IsRun(cs: seq<Cluster>, steps: seq<Step>) {
    && |cs| == |steps| + 1 && Init(cs[0])
    && (forall i :: 0 <= i < |steps| ==> Shape(cs[i]) && NextStep(cs[i], cs[i + 1], steps[i]))
  }

  // ----- the epochs of every node and packet -----

  /** currentEpoch is at least every epoch the node knows, votes in or runs for. */
  ghost predicate EpochsOk(s: Server) {
    && (forall p :: p in s.peers ==> s.peers[p].configEpoch <= s.currentEpoch)
    && s.authEpoch <= s.currentEpoch && s.lastVoteEpoch <= s.currentEpoch
  }

  predicate PacketOk(m: Msg) {
    m.configEpoch <= m.currentEpoch && (m.Update? ==> m.aboutEpoch <= m.currentEpoch)
  }

  ghost predicate EpochInv(c: Cluster) {
    && (forall n :: n in c.servers ==> EpochsOk(c.servers[n]))
    && (forall id :: id in c.net ==> PacketOk(c.net[id]))
  }
}
