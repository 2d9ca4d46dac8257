/**
 Config epoch collisions come to an end. In a run where masters only exchange
 PINGs and PONGs, a node changes its config epoch only on a collision with a node
 of greater name, and only a bounded number of times.
 */
module ClusterCollision {
  import opened Wrappers
  import opened ClusterNode
  import opened ClusterProtocol
  import opened ClusterSafety

  /** The config epoch of a node, as it knows it itself. */
  function Cfg(c: Cluster, n: NodeId): nat {
    if n in c.servers && n in c.servers[n].peers then c.servers[n].peers[n].configEpoch else 0
  }

  ghost predicate AllMasters(c: Cluster) {
    forall n :: n in c.servers ==> n in c.servers[n].peers && c.servers[n].peers[n].isMaster
  }

  predicate PingOnly(step: Step) {
    (step.SendStep? && step.m.Ping?) || step.LoseStep? || step.DeliverStep?
  }

  ghost predicate CollisionRun(cs: seq<Cluster>, steps: seq<Step>) {
    IsRun(cs, steps) && AllMasters(cs[0]) && forall i :: 0 <= i < |steps| ==> PingOnly(steps[i])
  }

  // ----- one step -----

  ghost predicate PingsOk(c: Cluster) {
    forall id :: id in c.net ==> c.net[id].Ping? && c.net[id].src in c.servers && c.net[id].configEpoch <= Cfg(c, c.net[id].src)
  }

  /** A packet from a node of greater name that carries the epoch e. */
  ghost predicate Collides(c: Cluster, n: NodeId, e: nat) {
    exists id :: id in c.net && c.net[id].src > n && c.net[id].configEpoch == e
  }

  /** The node keeps its config epoch, or gives it up for a greater one because of a collision. */
  ghost predicate Moved(c: Cluster, c': Cluster, n: NodeId) {
    Cfg(c', n) == Cfg(c, n) || (Cfg(c, n) < Cfg(c', n) && Collides(c, n, Cfg(c, n)))
  }

  /** What a PING does to the config epoch of the node that receives it. */
  lemma {:induction false} PingReceived(s: Server, m: Msg)
    requires m.Ping? && s.me in s.peers && EpochsOk(s) && (m.src == s.me ==> m.configEpoch <= s.peers[s.me].configEpoch)
    ensures var r := Collision(MergeHeader(s, m), m);
            && s.me in r.peers && r.peers[s.me].isMaster == s.peers[s.me].isMaster
            && (r.peers[s.me].configEpoch == s.peers[s.me].configEpoch
                || (s.peers[s.me].configEpoch < r.peers[s.me].configEpoch && m.src > s.me && m.configEpoch == s.peers[s.me].configEpoch))
  {
  }

  lemma {:induction false} OneMoves(c: Cluster, c': Cluster, n: NodeId)
    requires n in c.servers && AllMasters(c) && n in c'.servers && c'.servers == c.servers[n := c'.servers[n]]
    requires n in c'.servers[n].peers && c'.servers[n].peers[n].isMaster && Moved(c, c', n)
    ensures AllMasters(c') && c'.servers.Keys == c.servers.Keys && forall x :: x in c.servers ==> Moved(c, c', x)
  {
    hide Collides;
  }

  lemma {:induction false} DeliveryMoves(c: Cluster, c': Cluster, id: nat, now: int, nodeTimeout: int, linkUp: bool)
    requires Inv(c) && Shape(c) && AllMasters(c) && PingsOk(c) && id in c.net && Delivered(c, c', id, now, nodeTimeout, linkUp)
    ensures AllMasters(c') && c'.servers.Keys == c.servers.Keys && c'.net == c.net - {id}
    ensures forall n :: n in c.servers ==> Moved(c, c', n)
  {
    hide Inv, Shape, MergeHeader, Collision, EpochsOk, AllMasters, Moved;
    var m := c.net[id];
    if m.dst in c.servers {
      NodeOk(c, m.dst);
      MasterMoves(c, c', id);
      OneMoves(c, c', m.dst);
    } else {
      SameServers(c, c');
    }
  }

  lemma {:induction false} MasterMoves(c: Cluster, c': Cluster, id: nat)
    requires id in c.net && c.net[id].Ping? && c.net[id].src in c.servers && c.net[id].configEpoch <= Cfg(c, c.net[id].src)
    requires AllMasters(c) && c.net[id].dst in c.servers
    requires var s := c.servers[c.net[id].dst]; s.me == c.net[id].dst && EpochsOk(s)
    requires var m := c.net[id]; c'.servers == c.servers[m.dst := Collision(MergeHeader(c.servers[m.dst], m), m)]
    ensures var n := c.net[id].dst; n in c'.servers[n].peers && c'.servers[n].peers[n].isMaster && Moved(c, c', n)
  {
    hide MergeHeader, Collision, EpochsOk;
    PingReceived(c.servers[c.net[id].dst], c.net[id]);
  }

  /** A packet was in flight before, or is a PING with the present epoch of its sender. */
  ghost predicate OldOrNew(c: Cluster, c': Cluster, id: nat)
    requires id in c'.net
  {
    || (id in c.net && c'.net[id] == c.net[id])
    || (c'.net[id].Ping? && c'.net[id].src in c.servers && c'.net[id].configEpoch == Cfg(c', c'.net[id].src))
  }

  lemma {:induction false} PingStep(c: Cluster, c': Cluster, step: Step)
    requires Inv(c) && Shape(c) && AllMasters(c) && PingsOk(c) && NextStep(c, c', step) && PingOnly(step)
    ensures AllMasters(c') && c'.servers.Keys == c.servers.Keys && PingsOk(c')
    ensures forall n :: n in c.servers ==> Moved(c, c', n)
    ensures forall id :: id in c'.net ==> OldOrNew(c, c', id)
  {
    hide Inv, Shape, Delivered, WellFormed, Cfg, PingsOk;
    match step {
      case DeliverStep(id, now, nodeTimeout, linkUp) => DeliveryMoves(c, c', id, now, nodeTimeout, linkUp);
      case SendStep(n, m) =>
        NodeOk(c, n);
        PingSent(c, n, m);
      case LoseStep(_) => SameServers(c, c');
    }
    PingsMove(c, c');
  }

  lemma {:induction false} SameServers(c: Cluster, c': Cluster)
    requires c'.servers == c.servers
    ensures AllMasters(c) == AllMasters(c') && forall n :: Moved(c, c', n)
  {
  }

  lemma {:induction false} PingSent(c: Cluster, n: NodeId, m: Msg)
    requires AllMasters(c) && n in c.servers && c.servers[n].me == n && MaySend(c.servers[n], m) && m.Ping?
    ensures AllMasters(Post(c, m)) && m.configEpoch == Cfg(Post(c, m), m.src) && forall x :: Moved(c, Post(c, m), x)
  {
  }

  lemma {:induction false} PingsMove(c: Cluster, c': Cluster)
    requires PingsOk(c) && c'.servers.Keys == c.servers.Keys
    requires forall n :: n in c.servers ==> Moved(c, c', n)
    requires forall id :: id in c'.net ==> OldOrNew(c, c', id)
    ensures PingsOk(c')
  {
    hide Cfg, Collides;
    forall id | id in c'.net
      ensures c'.net[id].Ping? && c'.net[id].src in c'.servers && c'.net[id].configEpoch <= Cfg(c', c'.net[id].src) {
      assert OldOrNew(c, c', id);
      if id in c.net && c'.net[id] == c.net[id] { assert Moved(c, c', c.net[id].src); }
    }
  }

  // ----- the epochs held along a run -----

  ghost function Held(cs: seq<Cluster>, k: nat, n: NodeId): set<nat>
    requires k < |cs|
  {
    set i | 0 <= i <= k :: Cfg(cs[i], n)
  }

  /** Every packet carries an epoch its sender has held. */
  ghost predicate PingsHeld(cs: seq<Cluster>, k: nat)
    requires k < |cs|
  {
    forall id :: id in cs[k].net ==> cs[k].net[id].configEpoch in Held(cs, k, cs[k].net[id].src)
  }

  /** The present epoch of a node is the greatest it has held. */
  ghost predicate HeldBelow(cs: seq<Cluster>, k: nat)
    requires k < |cs|
  {
    forall n, e :: n in cs[0].servers && e in Held(cs, k, n) ==> e <= Cfg(cs[k], n)
  }

  ghost predicate RunFacts(cs: seq<Cluster>, k: nat)
    requires k < |cs|
  {
    AllMasters(cs[k]) && cs[k].servers.Keys == cs[0].servers.Keys && PingsOk(cs[k]) && PingsHeld(cs, k) && HeldBelow(cs, k)
  }

  lemma {:induction false} HeldNext(cs: seq<Cluster>, k: nat, n: NodeId)
    requires k + 1 < |cs|
    ensures Held(cs, k + 1, n) == Held(cs, k, n) + {Cfg(cs[k + 1], n)}
  {
    hide Cfg;
  }

  lemma {:induction false} PingsNext(cs: seq<Cluster>, k: nat, j: nat)
    requires j == k + 1 < |cs| && PingsHeld(cs, k)
    requires forall id :: id in cs[j].net ==> OldOrNew(cs[k], cs[j], id)
    ensures PingsHeld(cs, j)
  {
    hide Cfg, Held;
    forall id | id in cs[j].net ensures cs[j].net[id].configEpoch in Held(cs, j, cs[j].net[id].src) {
      HeldNext(cs, k, cs[j].net[id].src);
    }
  }

  lemma {:induction false} HeldBelowNext(cs: seq<Cluster>, k: nat, j: nat)
    requires j == k + 1 < |cs| && HeldBelow(cs, k) && forall n :: n in cs[0].servers ==> Moved(cs[k], cs[j], n)
    ensures HeldBelow(cs, j)
  {
    hide Cfg, Held, Collides;
    forall n, e | n in cs[0].servers && e in Held(cs, j, n) ensures e <= Cfg(cs[j], n) {
      HeldNext(cs, k, n);
      assert Moved(cs[k], cs[j], n);
    }
  }

  lemma {:induction false} StepFacts(cs: seq<Cluster>, steps: seq<Step>, k: nat)
    requires CollisionRun(cs, steps) && k + 1 < |cs| && RunFacts(cs, k)
    ensures RunFacts(cs, k + 1) && forall n :: n in cs[0].servers ==> Moved(cs[k], cs[k + 1], n)
  {
    hide Inv, Init, Shape, NextStep, Held, Cfg, Collides, Moved, PingsOk, AllMasters, PingsHeld, HeldBelow, OldOrNew;
    RunKeepsInv(cs, steps, k);
    PingStep(cs[k], cs[k + 1], steps[k]);
    PingsNext(cs, k, k + 1);
    HeldBelowNext(cs, k, k + 1);
  }

  lemma {:induction false} FactsHold(cs: seq<Cluster>, steps: seq<Step>, k: nat)
    requires CollisionRun(cs, steps) && k < |cs|
    ensures RunFacts(cs, k)
  {
    hide RunFacts;
    if k == 0 {
      FirstFacts(cs, steps);
    } else {
      FactsHold(cs, steps, k - 1);
      StepFacts(cs, steps, k - 1);
    }
  }

  lemma {:induction false} FirstFacts(cs: seq<Cluster>, steps: seq<Step>)
    requires CollisionRun(cs, steps)
    ensures RunFacts(cs, 0)
  {
    hide Shape, WellFormed, EpochsOk, Cfg;
    assert cs[0].net == map[];
  }

  // ----- an epoch given up is an epoch of a greater node -----

  lemma {:induction false} Abandoned(cs: seq<Cluster>, steps: seq<Step>, k: nat, n: NodeId, e: nat) returns (y: NodeId)
    requires CollisionRun(cs, steps) && k < |cs| && n in cs[0].servers && e in Held(cs, k, n) && e != Cfg(cs[k], n)
    ensures y in cs[0].servers && y > n && e in Held(cs, k, y)
    decreases k
  {
    hide CollisionRun, Cfg, Moved;
    HeldStart(cs, n);
    assert k > 0;
    FactsHold(cs, steps, k - 1);
    HeldNext(cs, k - 1, n);
    if e != Cfg(cs[k - 1], n) {
      y := Abandoned(cs, steps, k - 1, n, e);
    } else {
      y := GivenUp(cs, steps, k - 1, n);
    }
    HeldNext(cs, k - 1, y);
  }

  lemma {:induction false} HeldStart(cs: seq<Cluster>, n: NodeId)
    requires |cs| > 0
    ensures Held(cs, 0, n) == {Cfg(cs[0], n)}
  {
  }

  lemma {:induction false} GivenUp(cs: seq<Cluster>, steps: seq<Step>, k: nat, n: NodeId) returns (y: NodeId)
    requires CollisionRun(cs, steps) && k + 1 < |cs| && n in cs[0].servers && RunFacts(cs, k) && Cfg(cs[k + 1], n) != Cfg(cs[k], n)
    ensures y in cs[0].servers && y > n && Cfg(cs[k], n) in Held(cs, k, y)
  {
    StepFacts(cs, steps, k);
    hide CollisionRun, Cfg, Held;
    assert Moved(cs[k], cs[k + 1], n);
    var id :| id in cs[k].net && cs[k].net[id].src > n && cs[k].net[id].configEpoch == Cfg(cs[k], n);
    y := cs[k].net[id].src;
  }

  /** Every epoch a node has held is at present the epoch of that node or of one with a greater name. */
  lemma {:induction false} HeldIsCurrent(cs: seq<Cluster>, steps: seq<Step>, k: nat, n: NodeId, e: nat) returns (y: NodeId)
    requires CollisionRun(cs, steps) && k < |cs| && n in cs[0].servers && e in Held(cs, k, n)
    ensures y in cs[0].servers && y >= n && Cfg(cs[k], y) == e
    decreases |Above(cs[0].servers.Keys, n)|
  {
    hide CollisionRun, Cfg, Held;
    if e == Cfg(cs[k], n) {
      y := n;
    } else {
      var z := Abandoned(cs, steps, k, n, e);
      AboveShrinks(cs[0].servers.Keys, n, z);
      y := HeldIsCurrent(cs, steps, k, z, e);
    }
  }

  ghost function Above(ids: set<NodeId>, n: NodeId): set<NodeId> { set y | y in ids && y > n }

  lemma {:induction false} AboveShrinks(ids: set<NodeId>, n: NodeId, z: NodeId)
    requires z in ids && z > n
    ensures |Above(ids, z)| < |Above(ids, n)|
  {
    assert Above(ids, z) <= Above(ids, n) - {z};
    SubsetSize(Above(ids, z), Above(ids, n) - {z});
  }

  // ----- counting -----

  /** How often the config epoch of n changed in the first k steps. */
  ghost function Bumps(cs: seq<Cluster>, k: nat, n: NodeId): nat
    requires k < |cs|
  {
    if k == 0 then 0 else Bumps(cs, k - 1, n) + if Cfg(cs[k], n) != Cfg(cs[k - 1], n) then 1 else 0
  }

  lemma {:induction false} HeldCountsBumps(cs: seq<Cluster>, steps: seq<Step>, k: nat, n: NodeId)
    requires CollisionRun(cs, steps) && k < |cs| && n in cs[0].servers
    ensures |Held(cs, k, n)| == Bumps(cs, k, n) + 1
  {
    hide CollisionRun, Cfg, Held, RunFacts, Moved;
    if k == 0 {
      HeldStart(cs, n);
    } else {
      HeldCountsBumps(cs, steps, k - 1, n);
      HeldNext(cs, k - 1, n);
      FactsHold(cs, steps, k - 1);
      StepFacts(cs, steps, k - 1);
      if Cfg(cs[k], n) != Cfg(cs[k - 1], n) { NewIsNew(cs, k - 1, k, n); }
      CurrentIsHeld(cs, k - 1, n);
      var held, e := Held(cs, k - 1, n), Cfg(cs[k], n);
      assert e in held ==> held + {e} == held;
    }
  }

  lemma {:induction false} NewIsNew(cs: seq<Cluster>, k: nat, j: nat, n: NodeId)
    requires j == k + 1 < |cs| && RunFacts(cs, k) && n in cs[0].servers && Moved(cs[k], cs[j], n) && Cfg(cs[j], n) != Cfg(cs[k], n)
    ensures Cfg(cs[j], n) !in Held(cs, k, n)
  {
    hide Cfg, Held, Collides, PingsOk, PingsHeld, AllMasters;
  }

  lemma {:induction false} CurrentIsHeld(cs: seq<Cluster>, k: nat, n: NodeId)
    requires k < |cs|
    ensures Cfg(cs[k], n) in Held(cs, k, n)
  {
  }

  lemma {:induction false} ImageSize(c: Cluster, ids: set<NodeId>)
    ensures |set y | y in ids :: Cfg(c, y)| <= |ids|
  {
    if ids != {} {
      var x :| x in ids;
      ImageSize(c, ids - {x});
      assert (set y | y in ids :: Cfg(c, y)) == (set y | y in ids - {x} :: Cfg(c, y)) + {Cfg(c, x)};
    } else {
      assert (set y | y in ids :: Cfg(c, y)) == {};
    }
  }

  /** In every run a node changes its config epoch at most once for each node of greater name. */
  lemma {:induction false} BumpsBounded(cs: seq<Cluster>, steps: seq<Step>, k: nat, n: NodeId)
    requires CollisionRun(cs, steps) && k < |cs| && n in cs[0].servers
    ensures Bumps(cs, k, n) <= |Above(cs[0].servers.Keys, n)|
  {
    hide CollisionRun, Cfg, Held, Bumps;
    HeldCountsBumps(cs, steps, k, n);
    var up := Above(cs[0].servers.Keys, n) + {n};
    var image := set y | y in up :: Cfg(cs[k], y);
    forall e | e in Held(cs, k, n) ensures e in image {
      var y := HeldIsCurrent(cs, steps, k, n, e);
      assert y in up;
    }
    SubsetSize(Held(cs, k, n), image);
    ImageSize(cs[k], up);
  }

  ghost predicate IsLeast(ids: set<NodeId>, x: NodeId) { x in ids && forall y :: y in ids ==> x <= y }

  ghost function Least(ids: set<NodeId>): (x: NodeId)
    requires ids != {}
    ensures IsLeast(ids, x)
  {
    var z :| z in ids;
    LeastExists(ids, z);
    var x :| IsLeast(ids, x);
    x
  }

  lemma {:induction false} LeastExists(ids: set<NodeId>, z: NodeId)
    requires z in ids
    ensures exists x :: IsLeast(ids, x)
    decreases z
  {
    if y :| y in ids && y < z {
      LeastExists(ids, y);
    } else {
      assert IsLeast(ids, z);
    }
  }

  ghost function TotalBumps(cs: seq<Cluster>, k: nat, ids: set<NodeId>): nat
    requires k < |cs|
    decreases |ids|
  {
    if ids == {} then 0 else Bumps(cs, k, Least(ids)) + TotalBumps(cs, k, ids - {Least(ids)})
  }

  lemma {:induction false} TotalOfUpperPart(cs: seq<Cluster>, steps: seq<Step>, k: nat, ids: set<NodeId>)
    requires CollisionRun(cs, steps) && k < |cs| && ids <= cs[0].servers.Keys
    requires forall x, y :: x in ids && y in cs[0].servers && y > x ==> y in ids
    ensures 2 * TotalBumps(cs, k, ids) <= |ids| * |ids| - |ids|
    decreases |ids|
  {
    hide CollisionRun, Bumps;
    if ids != {} {
      var x := Least(ids);
      BumpsBounded(cs, steps, k, x);
      TotalOfUpperPart(cs, steps, k, ids - {x});
      assert Above(cs[0].servers.Keys, x) == ids - {x};
      SumStep(|ids|, |ids - {x}|);
    }
  }

  lemma {:induction false} SumStep(n: nat, m: nat)
    requires n == m + 1
    ensures n * n - n == m * m - m + 2 * m
  {
  }

  /** n masters change their config epochs at most n(n-1)/2 times in all, whatever is lost, delayed or reordered. */
  lemma {:induction false} CollisionsEnd(cs: seq<Cluster>, steps: seq<Step>, k: nat)
    requires CollisionRun(cs, steps) && k < |cs|
    ensures var n := |cs[0].servers.Keys|; 2 * TotalBumps(cs, k, cs[0].servers.Keys) <= n * n - n
  {
    hide CollisionRun;
    TotalOfUpperPart(cs, steps, k, cs[0].servers.Keys);
  }

  // ----- what is left when nothing collides -----

  /** Every node knows every other as a master, and nobody is ahead of a node about its own epoch. */
  ghost predicate ViewsOk(c: Cluster) {
    forall x, y :: x in c.servers && y in c.servers ==>
      y in c.servers[x].peers && c.servers[x].peers[y].isMaster && c.servers[x].peers[y].configEpoch <= Cfg(c, y)
  }

  /** The PING y would send to x now. */
  function PingOf(c: Cluster, y: NodeId, x: NodeId): Msg
    requires y in c.servers
  {
    Ping(y, x, c.servers[y].currentEpoch, Cfg(c, y))
  }

  /** An up-to-date PING of y makes x give up its epoch. */
  ghost predicate Bumped(c: Cluster, x: NodeId, y: NodeId)
    requires x in c.servers && y in c.servers
  {
    var r := Collision(MergeHeader(c.servers[x], PingOf(c, y, x)), PingOf(c, y, x));
    x !in r.peers || r.peers[x].configEpoch != Cfg(c, x)
  }

  lemma {:induction false} BumpedIff(c: Cluster, x: NodeId, y: NodeId)
    requires ViewsOk(c) && x in c.servers && y in c.servers && c.servers[x].me == x && EpochsOk(c.servers[x])
    ensures Bumped(c, x, y) <==> (x < y && Cfg(c, x) == Cfg(c, y))
  {
    var s, m := c.servers[x], PingOf(c, y, x);
    assert x in s.peers && y in s.peers && s.peers[x].isMaster && s.peers[y].isMaster;
    assert x != y ==> MergeHeader(s, m).peers[y].configEpoch == Cfg(c, y) && MergeHeader(s, m).peers[x] == s.peers[x];
  }

  /** No up-to-date PING changes an epoch exactly when the epochs are pairwise distinct. */
  lemma {:induction false} QuietIffDistinct(c: Cluster)
    requires Inv(c) && ViewsOk(c)
    ensures (forall x, y :: x in c.servers && y in c.servers ==> !Bumped(c, x, y))
        <==> (forall x, y :: x in c.servers && y in c.servers && x != y ==> Cfg(c, x) != Cfg(c, y))
  {
    hide Inv, ViewsOk, Bumped, Cfg, EpochsOk;
    forall x, y | x in c.servers && y in c.servers
      ensures Bumped(c, x, y) <==> (x < y && Cfg(c, x) == Cfg(c, y)) {
      NodeOk(c, x);
      BumpedIff(c, x, y);
    }
    if x, y :| x in c.servers && y in c.servers && x != y && Cfg(c, x) == Cfg(c, y) {
      assert x < y ==> Bumped(c, x, y);
      assert y < x ==> Bumped(c, y, x);
    }
  }
}
