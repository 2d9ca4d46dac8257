/**
 Why election safety asks that no votes were carried in. A run in which the
 acknowledgements of one election arrive after the candidate has scheduled its
 next attempt and before that attempt starts: they are counted, and the next
 attempt begins with them. Two slaves then win in the same epoch.
 */
module ClusterCarry {
  import opened Wrappers
  import opened ClusterNode
  import opened ClusterProtocol
  import opened ClusterSafety

  // Nodes 1 and 2 vote. Node 3 is the failed master; 4 and 5 are its slaves.

  function Nodes(voted: int): map<NodeId, Peer> {
    map[1 := Peer(true, None, false, 100, 0, 0), 2 := Peer(true, None, false, 100, 0, 0),
        3 := Peer(true, None, true, 100, voted, 0),
        4 := Peer(false, Some(3), false, 0, 0, 0), 5 := Peer(false, Some(3), false, 0, 0, 0)]
  }

  function NoSlots(): seq<Option<NodeId>> { seq(CLUSTER_SLOTS, _ => None) }

  /** A voter whose last vote was in its current epoch, cast at the given time. */
  function Voter(me: NodeId, epoch: nat, voted: int): Server {
    Server(me, epoch, epoch, 0, 0, false, 0, 0, 3, false, false, Nodes(voted), NoSlots())
  }

  function Candidate(me: NodeId, epoch: nat, time: int, count: nat, sent: bool, election: nat): Server {
    Server(me, epoch, 0, time, count, sent, 0, election, 3, false, false, Nodes(-9000), NoSlots())
  }

  /** The candidate turned master. */
  function Winner(me: NodeId, epoch: nat, time: int, count: nat): Server {
    Candidate(me, epoch, time, count, true, epoch).(peers := Nodes(-9000)[me := Peer(true, None, false, 0, 0, epoch)])
  }

  /** The clock, with a node timeout of one second, a first rank and no random delay. */
  function At(now: int): Inputs { Inputs(now, 1000, false, 0, 0) }

  function Request(src: NodeId, dst: NodeId, epoch: nat): Msg { AuthRequest(src, dst, epoch, 0, {}, false) }

  function Ack(src: NodeId, dst: NodeId, epoch: nat): Msg { AuthAck(src, dst, epoch, 0) }

  /** One thing for each of the nodes that take part. */
  datatype Quad<V> = Quad(a: V, b: V, s: V, t: V) {
    function At(n: NodeId): V { if n == 1 then a else if n == 2 then b else if n == 4 then s else t }

    function Set(n: NodeId, x: V): Quad<V> {
      if n == 1 then this.(a := x) else if n == 2 then this.(b := x) else if n == 4 then this.(s := x) else this.(t := x)
    }

    function AsMap(): map<NodeId, V> { map[1 := a, 2 := b, 4 := s, 5 := t] }
  }

  lemma {:induction false} QuadUpdate<V>(q: Quad<V>, n: NodeId, x: V)
    requires n in {1, 2, 4, 5}
    ensures n in q.AsMap() && q.AsMap()[n] == q.At(n) && q.AsMap()[n := x] == q.Set(n, x).AsMap()
  {
  }

  /** A state of the run. */
  datatype World = World(nodes: Quad<Server>, net: map<nat, Msg>, nextId: nat, votes: map<(NodeId, nat), NodeId>,
                         tally: Quad<set<NodeId>>, carried: Quad<nat>, wins: set<Win>)
  {
    function Of(): Cluster { Cluster(nodes.AsMap(), net, nextId, votes, tally.AsMap(), carried.AsMap(), wins) }
  }

  // ----- what each node does -----

  lemma {:induction false} Starts(me: NodeId, epoch: nat, time: int, count: nat, election: nat, now: int)
    requires me == 4 || me == 5
    requires time <= now <= time + 2000
    ensures var s := Candidate(me, epoch, time, count, false, election);
            s.authCount == count && FailoverOutcome(s, At(now)) == Started && AfterFailover(s, At(now)) == Candidate(me, epoch + 1, time, count, true, epoch + 1)
  {
  }

  lemma {:induction false} Reschedules(me: NodeId, epoch: nat, time: int, count: nat, now: int)
    requires me == 4 || me == 5
    requires now > time + 4000
    ensures var s := Candidate(me, epoch, time, count, true, epoch);
            FailoverOutcome(s, At(now)) == Scheduled && AfterFailover(s, At(now)) == Candidate(me, epoch, now + 500, 0, false, epoch)
  {
  }

  lemma {:induction false} Wins(me: NodeId, epoch: nat, time: int, now: int)
    requires me == 4 || me == 5
    requires time <= now <= time + 2000
    ensures var s := Candidate(me, epoch, time, 2, true, epoch);
            FailoverOutcome(s, At(now)) == Won && AfterFailover(s, At(now)) == Winner(me, epoch, time, 2)
  {
    var s := Candidate(me, epoch, time, 2, true, epoch);
    assert Quorum(3) == 2;
    assert AfterFailover(s, At(now)).peers == Winner(me, epoch, time, 2).peers;
  }

  lemma {:induction false} Votes(me: NodeId, epoch: nat, voted: int, candidate: NodeId, now: int)
    requires (me == 1 || me == 2) && (candidate == 4 || candidate == 5) && now >= voted + 2000
    ensures var s := MergeHeader(Voter(me, epoch, voted), Request(candidate, me, epoch + 1));
            && Grants(s, Request(candidate, me, epoch + 1), now, 1000)
            && s.currentEpoch == epoch + 1 && HeaderConfigEpoch(s) == 0
            && RecordVote(s, candidate, now) == Voter(me, epoch + 1, now)
  {
    var m := Request(candidate, me, epoch + 1);
    var s := MergeHeader(Voter(me, epoch, voted), m);
    assert s.peers == Nodes(voted);
    forall j | 0 <= j < CLUSTER_SLOTS ensures !NewerOwner(s, m, j) {}
    assert RecordVote(s, candidate, now).peers == Nodes(now);
  }

  lemma {:induction false} Counts(me: NodeId, epoch: nat, time: int, count: nat, sent: bool, voter: NodeId)
    requires (voter == 1 || voter == 2) && (me == 4 || me == 5)
    ensures var s := MergeHeader(Candidate(me, epoch, time, count, sent, epoch), Ack(voter, me, epoch));
            && CountsAck(s, Ack(voter, me, epoch))
            && s.(authCount := s.authCount + 1) == Candidate(me, epoch, time, count + 1, sent, epoch)
  {
    var s := MergeHeader(Candidate(me, epoch, time, count, sent, epoch), Ack(voter, me, epoch));
    assert s.peers == Nodes(-9000);
  }

  // ----- steps of the cluster -----

  ghost predicate Goes(c: Cluster, c': Cluster, step: Step) { Shape(c) && NextStep(c, c', step) }

  /** A state that is fine and the step out of it; what follows is fine as well. */
  lemma {:induction false} Follows(c: Cluster, c': Cluster, step: Step)
    requires Inv(c) && Goes(c, c', step)
    ensures Inv(c')
  {
    hide Inv, Shape, NextStep;
    StepKeeps(c, c', step);
  }

  lemma {:induction false} VoteStep(c: Cluster, id: nat, me: NodeId, epoch: nat, voted: int, candidate: NodeId, now: int)
    requires (me == 1 || me == 2) && (candidate == 4 || candidate == 5) && now >= voted + 2000
    requires Inv(c) && id in c.net && c.net[id] == Request(candidate, me, epoch + 1) && me in c.servers && c.servers[me] == Voter(me, epoch, voted)
    ensures var c' := Post(SetServer(c.(net := c.net - {id}), me, Voter(me, epoch + 1, now)).(votes := c.votes[(me, epoch + 1) := candidate]),
                           Ack(me, candidate, epoch + 1));
            Inv(c') && Goes(c, c', DeliverStep(id, now, 1000, true))
  {
    hide Inv, Shape, MergeHeader, Grants, RecordVote, HeaderConfigEpoch, Voter;
    InvIsShape(c);
    Votes(me, epoch, voted, candidate, now);
    Follows(c, Post(SetServer(c.(net := c.net - {id}), me, Voter(me, epoch + 1, now)).(votes := c.votes[(me, epoch + 1) := candidate]),
                    Ack(me, candidate, epoch + 1)), DeliverStep(id, now, 1000, true));
  }

  lemma {:induction false} CountStep(c: Cluster, id: nat, me: NodeId, epoch: nat, time: int, count: nat, sent: bool, voter: NodeId)
    requires (voter == 1 || voter == 2) && (me == 4 || me == 5)
    requires Inv(c) && id in c.net && c.net[id] == Ack(voter, me, epoch) && me in c.servers && me in c.tally
    requires c.servers[me] == Candidate(me, epoch, time, count, sent, epoch)
    ensures var c' := SetServer(c.(net := c.net - {id}), me, Candidate(me, epoch, time, count + 1, sent, epoch))
                        .(tally := c.tally[me := c.tally[me] + {voter}]);
            Inv(c') && Goes(c, c', DeliverStep(id, 0, 1000, true))
  {
    hide Inv, Shape, MergeHeader, CountsAck, Candidate;
    InvIsShape(c);
    Counts(me, epoch, time, count, sent, voter);
    Follows(c, SetServer(c.(net := c.net - {id}), me, Candidate(me, epoch, time, count + 1, sent, epoch))
                 .(tally := c.tally[me := c.tally[me] + {voter}]), DeliverStep(id, 0, 1000, true));
  }

  lemma {:induction false} StartStep(c: Cluster, me: NodeId, epoch: nat, time: int, count: nat, election: nat, now: int, requests: seq<Msg>)
    requires (me == 4 || me == 5) && time <= now <= time + 2000
    requires Inv(c) && me in c.servers && c.servers[me] == Candidate(me, epoch, time, count, false, election) && me in c.tally && me in c.carried
    requires requests == [] || requests == [Request(me, 1, epoch + 1), Request(me, 2, epoch + 1)]
    ensures var c1 := SetServer(c, me, Candidate(me, epoch + 1, time, count, true, epoch + 1)).(tally := c.tally[me := {}], carried := c.carried[me := count]);
            var c' := if requests == [] then c1 else Post(Post(c1, requests[0]), requests[1]);
            Inv(c') && Goes(c, c', FailoverStep(me, At(now), requests))
  {
    hide Inv, Shape, FailoverOutcome, AfterFailover, AreRequests, Candidate, PostAll;
    InvIsShape(c);
    Starts(me, epoch, time, count, election, now);
    var s := Candidate(me, epoch + 1, time, count, true, epoch + 1);
    RequestsFit(me, epoch, time, count, requests);
    var c1 := SetServer(c, me, s).(tally := c.tally[me := {}], carried := c.carried[me := count]);
    PostTwo(c1, requests);
    Follows(c, PostAll(c1, requests), FailoverStep(me, At(now), requests));
  }

  lemma {:induction false} RequestsFit(me: NodeId, epoch: nat, time: int, count: nat, requests: seq<Msg>)
    requires me == 4 || me == 5
    requires requests == [] || requests == [Request(me, 1, epoch + 1), Request(me, 2, epoch + 1)]
    ensures var s := Candidate(me, epoch + 1, time, count, true, epoch + 1); s.me in s.peers && AreRequests(s, requests)
  {
  }

  lemma {:induction false} PostTwo(c: Cluster, ms: seq<Msg>)
    ensures |ms| == 2 ==> PostAll(c, ms) == Post(Post(c, ms[0]), ms[1])
    ensures |ms| == 0 ==> PostAll(c, ms) == c
  {
    if |ms| == 2 { assert PostAll(c, ms) == PostAll(Post(c, ms[0]), ms[1..]) && ms[1..][1..] == []; }
  }

  lemma {:induction false} RescheduleStep(c: Cluster, me: NodeId, epoch: nat, time: int, count: nat, now: int)
    requires (me == 4 || me == 5) && now > time + 4000
    requires Inv(c) && me in c.servers && c.servers[me] == Candidate(me, epoch, time, count, true, epoch) && me in c.tally && me in c.carried
    ensures var c' := SetServer(c, me, Candidate(me, epoch, now + 500, 0, false, epoch)).(tally := c.tally[me := {}], carried := c.carried[me := 0]);
            Inv(c') && Goes(c, c', FailoverStep(me, At(now), []))
  {
    hide Inv, Shape, FailoverOutcome, AfterFailover, Candidate;
    InvIsShape(c);
    Reschedules(me, epoch, time, count, now);
    Follows(c, SetServer(c, me, Candidate(me, epoch, now + 500, 0, false, epoch)).(tally := c.tally[me := {}], carried := c.carried[me := 0]),
            FailoverStep(me, At(now), []));
  }

  lemma {:induction false} WinStep(c: Cluster, me: NodeId, epoch: nat, time: int, now: int)
    requires (me == 4 || me == 5) && time <= now <= time + 2000
    requires Inv(c) && me in c.servers && c.servers[me] == Candidate(me, epoch, time, 2, true, epoch) && me in c.tally && me in c.carried
    ensures var c' := SetServer(c, me, Winner(me, epoch, time, 2)).(wins := c.wins + {Win(me, epoch, 3, c.tally[me], c.carried[me])});
            Inv(c') && Goes(c, c', FailoverStep(me, At(now), []))
  {
    hide Inv, Shape, FailoverOutcome, AfterFailover, Winner;
    InvIsShape(c);
    Wins(me, epoch, time, now);
    Follows(c, SetServer(c, me, Winner(me, epoch, time, 2)).(wins := c.wins + {Win(me, epoch, 3, c.tally[me], c.carried[me])}),
            FailoverStep(me, At(now), []));
  }

  // ----- the run -----

  function W0(): World {
    World(Quad(Voter(1, 0, -9000), Voter(2, 0, -9000), Candidate(4, 0, 0, 0, false, 0), Candidate(5, 1, 6000, 0, false, 0)), map[], 0, map[],
          Quad({}, {}, {}, {}), Quad(0, 0, 0, 0), {})
  }

  function W1(): World {
    W0().(nodes := W0().nodes.(s := Candidate(4, 1, 0, 0, true, 1)), net := map[0 := Request(4, 1, 1), 1 := Request(4, 2, 1)], nextId := 2)
  }

  function W2(): World {
    W1().(nodes := W1().nodes.(a := Voter(1, 1, 1)), net := map[1 := Request(4, 2, 1), 2 := Ack(1, 4, 1)], nextId := 3, votes := map[(1, 1) := 4])
  }

  function W3(): World {
    W2().(nodes := W2().nodes.(b := Voter(2, 1, 1)), net := map[2 := Ack(1, 4, 1), 3 := Ack(2, 4, 1)], nextId := 4, votes := map[(1, 1) := 4, (2, 1) := 4])
  }

  function W4(): World {
    W3().(nodes := W3().nodes.(s := Candidate(4, 1, 5500, 0, false, 1)))
  }

  function W5(): World {
    W4().(nodes := W4().nodes.(s := Candidate(4, 1, 5500, 1, false, 1)), net := map[3 := Ack(2, 4, 1)], tally := W4().tally.(s := {1}))
  }

  function W6(): World {
    W5().(nodes := W5().nodes.(s := Candidate(4, 1, 5500, 2, false, 1)), net := map[], tally := W5().tally.(s := {1, 2}))
  }

  function W7(): World {
    W6().(nodes := W6().nodes.(t := Candidate(5, 2, 6000, 0, true, 2)), net := map[4 := Request(5, 1, 2), 5 := Request(5, 2, 2)], nextId := 6)
  }

  function W8(): World {
    W7().(nodes := W7().nodes.(a := Voter(1, 2, 6000)), net := map[5 := Request(5, 2, 2), 6 := Ack(1, 5, 2)], nextId := 7, votes := map[(1, 1) := 4, (2, 1) := 4, (1, 2) := 5])
  }

  function W9(): World {
    W8().(nodes := W8().nodes.(b := Voter(2, 2, 6000)), net := map[6 := Ack(1, 5, 2), 7 := Ack(2, 5, 2)], nextId := 8,
          votes := map[(1, 1) := 4, (2, 1) := 4, (1, 2) := 5, (2, 2) := 5])
  }

  function W10(): World {
    W9().(nodes := W9().nodes.(t := Candidate(5, 2, 6000, 1, true, 2)), net := map[7 := Ack(2, 5, 2)], tally := W9().tally.(t := {1}))
  }

  function W11(): World {
    W10().(nodes := W10().nodes.(t := Candidate(5, 2, 6000, 2, true, 2)), net := map[], tally := W10().tally.(t := {1, 2}))
  }

  function W12(): World {
    W11().(nodes := W11().nodes.(t := Winner(5, 2, 6000, 2)), wins := {Win(5, 2, 3, {1, 2}, 0)})
  }

  function W13(): World {
    W12().(nodes := W12().nodes.(s := Candidate(4, 2, 5500, 2, true, 2)), tally := W12().tally.(s := {}), carried := W12().carried.(s := 2))
  }

  function W14(): World {
    W13().(nodes := W13().nodes.(s := Winner(4, 2, 5500, 2)), wins := {Win(5, 2, 3, {1, 2}, 0), Win(4, 2, 3, {}, 2)})
  }

  lemma {:induction false} Step0()
    requires Inv(W0().Of())
    ensures Inv(W1().Of()) && Goes(W0().Of(), W1().Of(), FailoverStep(4, At(1), [Request(4, 1, 1), Request(4, 2, 1)]))
  {
    hide Inv, Voter, Candidate, Winner, Goes, Quad.AsMap;
    QuadUpdate(W0().nodes, 4, W1().nodes.s);
    QuadUpdate(W0().tally, 4, W1().tally.s);
    QuadUpdate(W0().carried, 4, W1().carried.s);
    StartStep(W0().Of(), 4, 0, 0, 0, 0, 1, [Request(4, 1, 1), Request(4, 2, 1)]);
  }

  lemma {:induction false} Step1()
    requires Inv(W1().Of())
    ensures Inv(W2().Of()) && Goes(W1().Of(), W2().Of(), DeliverStep(0, 1, 1000, true))
  {
    hide Inv, Voter, Candidate, Winner, Goes, Quad.AsMap;
    assert W2().net == (W1().net - {0})[2 := Ack(1, 4, 1)] && W2().votes == W1().votes[(1, 1) := 4];
    QuadUpdate(W1().nodes, 1, W2().nodes.a);
    VoteStep(W1().Of(), 0, 1, 0, -9000, 4, 1);
  }

  lemma {:induction false} Step2()
    requires Inv(W2().Of())
    ensures Inv(W3().Of()) && Goes(W2().Of(), W3().Of(), DeliverStep(1, 1, 1000, true))
  {
    hide Inv, Voter, Candidate, Winner, Goes, Quad.AsMap;
    assert W3().net == (W2().net - {1})[3 := Ack(2, 4, 1)] && W3().votes == W2().votes[(2, 1) := 4];
    QuadUpdate(W2().nodes, 2, W3().nodes.b);
    VoteStep(W2().Of(), 1, 2, 0, -9000, 4, 1);
  }

  lemma {:induction false} Step3()
    requires Inv(W3().Of())
    ensures Inv(W4().Of()) && Goes(W3().Of(), W4().Of(), FailoverStep(4, At(5000), []))
  {
    hide Inv, Voter, Candidate, Winner, Goes, Quad.AsMap;
    QuadUpdate(W3().nodes, 4, W4().nodes.s);
    QuadUpdate(W3().tally, 4, W4().tally.s);
    QuadUpdate(W3().carried, 4, W4().carried.s);
    RescheduleStep(W3().Of(), 4, 1, 0, 0, 5000);
  }

  lemma {:induction false} Step4()
    requires Inv(W4().Of())
    ensures Inv(W5().Of()) && Goes(W4().Of(), W5().Of(), DeliverStep(2, 0, 1000, true))
  {
    hide Inv, Voter, Candidate, Winner, Goes, Quad.AsMap;
    assert W4().tally.At(4) + {1} == {1};
    assert W5().net == W4().net - {2};
    QuadUpdate(W4().nodes, 4, W5().nodes.s);
    QuadUpdate(W4().tally, 4, W5().tally.s);
    CountStep(W4().Of(), 2, 4, 1, 5500, 0, false, 1);
  }

  lemma {:induction false} Step5()
    requires Inv(W5().Of())
    ensures Inv(W6().Of()) && Goes(W5().Of(), W6().Of(), DeliverStep(3, 0, 1000, true))
  {
    hide Inv, Voter, Candidate, Winner, Goes, Quad.AsMap;
    assert W5().tally.At(4) + {2} == {1, 2};
    assert W6().net == W5().net - {3};
    QuadUpdate(W5().nodes, 4, W6().nodes.s);
    QuadUpdate(W5().tally, 4, W6().tally.s);
    CountStep(W5().Of(), 3, 4, 1, 5500, 1, false, 2);
  }

  lemma {:induction false} Step6()
    requires Inv(W6().Of())
    ensures Inv(W7().Of()) && Goes(W6().Of(), W7().Of(), FailoverStep(5, At(6000), [Request(5, 1, 2), Request(5, 2, 2)]))
  {
    hide Inv, Voter, Candidate, Winner, Goes, Quad.AsMap;
    QuadUpdate(W6().nodes, 5, W7().nodes.t);
    QuadUpdate(W6().tally, 5, W7().tally.t);
    QuadUpdate(W6().carried, 5, W7().carried.t);
    StartStep(W6().Of(), 5, 1, 6000, 0, 0, 6000, [Request(5, 1, 2), Request(5, 2, 2)]);
  }

  lemma {:induction false} Step7()
    requires Inv(W7().Of())
    ensures Inv(W8().Of()) && Goes(W7().Of(), W8().Of(), DeliverStep(4, 6000, 1000, true))
  {
    hide Inv, Voter, Candidate, Winner, Goes, Quad.AsMap;
    assert W8().net == (W7().net - {4})[6 := Ack(1, 5, 2)] && W8().votes == W7().votes[(1, 2) := 5];
    QuadUpdate(W7().nodes, 1, W8().nodes.a);
    VoteStep(W7().Of(), 4, 1, 1, 1, 5, 6000);
  }

  lemma {:induction false} Step8()
    requires Inv(W8().Of())
    ensures Inv(W9().Of()) && Goes(W8().Of(), W9().Of(), DeliverStep(5, 6000, 1000, true))
  {
    hide Inv, Voter, Candidate, Winner, Goes, Quad.AsMap;
    assert W9().net == (W8().net - {5})[7 := Ack(2, 5, 2)] && W9().votes == W8().votes[(2, 2) := 5];
    QuadUpdate(W8().nodes, 2, W9().nodes.b);
    VoteStep(W8().Of(), 5, 2, 1, 1, 5, 6000);
  }

  lemma {:induction false} Step9()
    requires Inv(W9().Of())
    ensures Inv(W10().Of()) && Goes(W9().Of(), W10().Of(), DeliverStep(6, 0, 1000, true))
  {
    hide Inv, Voter, Candidate, Winner, Goes, Quad.AsMap;
    assert W9().tally.At(5) + {1} == {1};
    assert W10().net == W9().net - {6};
    QuadUpdate(W9().nodes, 5, W10().nodes.t);
    QuadUpdate(W9().tally, 5, W10().tally.t);
    CountStep(W9().Of(), 6, 5, 2, 6000, 0, true, 1);
  }

  lemma {:induction false} Step10()
    requires Inv(W10().Of())
    ensures Inv(W11().Of()) && Goes(W10().Of(), W11().Of(), DeliverStep(7, 0, 1000, true))
  {
    hide Inv, Voter, Candidate, Winner, Goes, Quad.AsMap;
    assert W10().tally.At(5) + {2} == {1, 2};
    assert W11().net == W10().net - {7};
    QuadUpdate(W10().nodes, 5, W11().nodes.t);
    QuadUpdate(W10().tally, 5, W11().tally.t);
    CountStep(W10().Of(), 7, 5, 2, 6000, 1, true, 2);
  }

  lemma {:induction false} Step11()
    requires Inv(W11().Of())
    ensures Inv(W12().Of()) && Goes(W11().Of(), W12().Of(), FailoverStep(5, At(6000), []))
  {
    hide Inv, Voter, Candidate, Winner, Goes, Quad.AsMap;
    assert W12().wins == W11().wins + {Win(5, 2, 3, {1, 2}, 0)};
    QuadUpdate(W11().nodes, 5, W12().nodes.t);
    QuadUpdate(W11().tally, 5, W12().tally.t);
    QuadUpdate(W11().carried, 5, W12().carried.t);
    WinStep(W11().Of(), 5, 2, 6000, 6000);
  }

  lemma {:induction false} Step12()
    requires Inv(W12().Of())
    ensures Inv(W13().Of()) && Goes(W12().Of(), W13().Of(), FailoverStep(4, At(6000), []))
  {
    hide Inv, Voter, Candidate, Winner, Goes, Quad.AsMap;
    QuadUpdate(W12().nodes, 4, W13().nodes.s);
    QuadUpdate(W12().tally, 4, W13().tally.s);
    QuadUpdate(W12().carried, 4, W13().carried.s);
    StartStep(W12().Of(), 4, 1, 5500, 2, 1, 6000, []);
  }

  lemma {:induction false} Step13()
    requires Inv(W13().Of())
    ensures Inv(W14().Of()) && Goes(W13().Of(), W14().Of(), FailoverStep(4, At(6000), []))
  {
    hide Inv, Voter, Candidate, Winner, Goes, Quad.AsMap;
    assert W14().wins == W13().wins + {Win(4, 2, 3, {}, 2)};
    QuadUpdate(W13().nodes, 4, W14().nodes.s);
    QuadUpdate(W13().tally, 4, W14().tally.s);
    QuadUpdate(W13().carried, 4, W14().carried.s);
    WinStep(W13().Of(), 4, 2, 5500, 6000);
  }

  lemma {:induction false} NodesStart(me: NodeId, epoch: nat, time: int)
    requires me in {1, 2, 4, 5}
    ensures WellFormed(Voter(me, epoch, -9000)) && EpochsOk(Voter(me, epoch, -9000))
    ensures WellFormed(Candidate(me, epoch, time, 0, false, 0)) && EpochsOk(Candidate(me, epoch, time, 0, false, 0))
  {
  }

  lemma {:induction false} StartState()
    ensures Init(W0().Of())
  {
    NodesStart(1, 0, 0);
    NodesStart(2, 0, 0);
    NodesStart(4, 0, 0);
    NodesStart(5, 1, 6000);
    hide WellFormed, EpochsOk, Nodes, NoSlots;
  }

  lemma {:induction false} FirstState(c: Cluster)
    requires Init(c)
    ensures IsRun([c], []) && Inv(c)
  {
    hide Init, Inv;
    InitInv(c);
  }

  lemma {:induction false} Extend(cs: seq<Cluster>, steps: seq<Step>, c: Cluster, c': Cluster, step: Step)
    requires IsRun(cs, steps) && c == cs[|steps|] && Goes(c, c', step)
    ensures IsRun(cs + [c'], steps + [step]) && (cs + [c'])[|steps + [step]|] == c'
  {
    hide Init, Shape, NextStep;
  }

  /** The first half: node 4 stands in epoch 1, schedules anew, and then counts the two late acknowledgements. */
  lemma {:induction false} LateAcknowledgements() returns (cs: seq<Cluster>, steps: seq<Step>)
    ensures IsRun(cs, steps) && |cs| == |steps| + 1 && cs[|steps|] == W6().Of() && Inv(W6().Of())
  {
    StartState();
    hide *;
    FirstState(W0().Of());
    cs, steps := [W0().Of()], [];
    Step0();
    cs, steps := Next(cs, steps, W0().Of(), W1().Of(), FailoverStep(4, At(1), [Request(4, 1, 1), Request(4, 2, 1)]));
    Step1();
    cs, steps := Next(cs, steps, W1().Of(), W2().Of(), DeliverStep(0, 1, 1000, true));
    Step2();
    cs, steps := Next(cs, steps, W2().Of(), W3().Of(), DeliverStep(1, 1, 1000, true));
    Step3();
    cs, steps := Next(cs, steps, W3().Of(), W4().Of(), FailoverStep(4, At(5000), []));
    Step4();
    cs, steps := Next(cs, steps, W4().Of(), W5().Of(), DeliverStep(2, 0, 1000, true));
    Step5();
    cs, steps := Next(cs, steps, W5().Of(), W6().Of(), DeliverStep(3, 0, 1000, true));
  }

  lemma {:induction false} Next(cs: seq<Cluster>, steps: seq<Step>, c: Cluster, c': Cluster, step: Step) returns (cs': seq<Cluster>, steps': seq<Step>)
    requires IsRun(cs, steps) && |cs| == |steps| + 1 && c == cs[|steps|] && Goes(c, c', step)
    ensures IsRun(cs', steps') && |cs'| == |steps'| + 1 && cs'[|steps'|] == c'
  {
    cs', steps' := cs + [c'], steps + [step];
    Extend(cs, steps, c, c', step);
  }

  lemma {:induction false} BothWon() returns (w: Win, w': Win)
    ensures w in W14().Of().wins && w' in W14().Of().wins
    ensures w.epoch == w'.epoch && w.node != w'.node && w.carried == 0 && w'.carried == 2
    ensures w.counted <= {1, 2} && w'.counted <= {1, 2} && |{1, 2}| < Quorum(w.size) + Quorum(w'.size)
  {
    w, w' := Win(5, 2, 3, {1, 2}, 0), Win(4, 2, 3, {}, 2);
    assert Quorum(3) == 2 && |{1, 2}| == 2;
  }

  /** A run that ends with nodes 4 and 5 both winners of epoch 2, each with a quorum of 2 in a cluster where only 1 and 2 vote. */
  lemma {:induction false} TwoWinnersInOneEpoch() returns (cs: seq<Cluster>, steps: seq<Step>, w: Win, w': Win)
    ensures IsRun(cs, steps) && w in cs[|steps|].wins && w' in cs[|steps|].wins
    ensures w.epoch == w'.epoch && w.node != w'.node && w.carried == 0 && w'.carried == 2
    ensures w.counted <= {1, 2} && w'.counted <= {1, 2} && |{1, 2}| < Quorum(w.size) + Quorum(w'.size)
  {
    hide *;
    w, w' := BothWon();
    cs, steps := LateAcknowledgements();
    Step6();
    cs, steps := Next(cs, steps, W6().Of(), W7().Of(), FailoverStep(5, At(6000), [Request(5, 1, 2), Request(5, 2, 2)]));
    Step7();
    cs, steps := Next(cs, steps, W7().Of(), W8().Of(), DeliverStep(4, 6000, 1000, true));
    Step8();
    cs, steps := Next(cs, steps, W8().Of(), W9().Of(), DeliverStep(5, 6000, 1000, true));
    Step9();
    cs, steps := Next(cs, steps, W9().Of(), W10().Of(), DeliverStep(6, 0, 1000, true));
    Step10();
    cs, steps := Next(cs, steps, W10().Of(), W11().Of(), DeliverStep(7, 0, 1000, true));
    Step11();
    cs, steps := Next(cs, steps, W11().Of(), W12().Of(), FailoverStep(5, At(6000), []));
    Step12();
    cs, steps := Next(cs, steps, W12().Of(), W13().Of(), FailoverStep(4, At(6000), []));
    Step13();
    cs, steps := Next(cs, steps, W13().Of(), W14().Of(), FailoverStep(4, At(6000), []));
  }
}
