/** Quorum-based mesh membership (app/node_mesh.py:333-350, 438-456, 629-661): connections,
    peer views with ageing and epochs, suspicion timers, and reconciliation. Nodes share no
    state, so a run of the mesh is one history of steps per node; what a node hears from its
    peers is an arbitrary input. */
module Membership {
  import opened Names
  import opened Numbers
  import Collections
  import Rendezvous

  datatype Config = Config(self: NodeId, universe: set<NodeId>, epoch: int, suspicion: real)

  datatype View = View(epoch: int, nodes: set<NodeId>, receivedAt: real)

  datatype State = State(
    members: set<NodeId>,
    connections: set<NodeId>,
    views: map<NodeId, View>,
    suspected: map<NodeId, real>,
    hasQuorum: bool)

  /** A NODE_STATE (app/node_mesh.py:438-456) shows the sender's epoch and the list of the nodes
      it is connected to. */
  datatype Event =
    | Claimed(peer: NodeId)
    | Lost(peer: NodeId, now: real)
    | Heard(peer: NodeId, epoch: int, connected: seq<NodeId>, now: real)
    | Reconciled(now: real)

  function StaleTime(suspicion: real): real {
    MaxReal(3.0, suspicion * 3.0)
  }

  function StaleAfter(c: Config): real {
    StaleTime(c.suspicion)
  }

  function Quorum(c: Config): nat {
    |c.universe| / 2 + 1
  }

  /** The peer views that survive a reconciliation at `now`. */
  function FreshViews(c: Config, st: State, now: real): map<NodeId, View> {
    map r | r in st.views && st.views[r].epoch == c.epoch && now - st.views[r].receivedAt <= StaleAfter(c) :: st.views[r]
  }

  /** Who reports, and whom each reporter sees alive. */
  function Reporters(c: Config, st: State, now: real): map<NodeId, set<NodeId>> {
    var views := FreshViews(c, st, now);
    map[c.self := {c.self} + st.connections] + (map r | r in views :: views[r].nodes * c.universe)
  }

  predicate Quorate(c: Config, st: State, now: real) {
    |Reporters(c, st, now)| >= Quorum(c)
  }

  function Votes(reporters: map<NodeId, set<NodeId>>, candidate: NodeId): nat {
    |set r | r in reporters && candidate in reporters[r]|
  }

  /** A majority of the universe sees the candidate alive. */
  predicate Alive(c: Config, st: State, now: real, candidate: NodeId) {
    Votes(Reporters(c, st, now), candidate) >= Quorum(c)
  }

  function Mark(st: State, candidate: NodeId, now: real): real {
    if candidate in st.suspected then st.suspected[candidate] else now
  }

  function Candidates(c: Config): set<NodeId> {
    c.universe - {c.self}
  }

  /** The outcome of one reconciliation, candidate by candidate. */
  function Reconcile(c: Config, st: State, now: real): State {
    var st' := st.(views := FreshViews(c, st, now), hasQuorum := Quorate(c, st, now));
    if !Quorate(c, st, now) then st'
    else
      var up := set n | n in Candidates(c) && Alive(c, st, now, n);
      var down := set n | n in Candidates(c) && n !in up && now - Mark(st, n, now) >= c.suspicion;
      st'.(
        members := st.members + {c.self} + up - down,
        suspected := map n | n in st.suspected.Keys + (Candidates(c) - up) && n !in up :: Mark(st, n, now))
  }

  /** The conditions app/node_mesh.py:446-452 puts on an accepted NODE_STATE. */
  predicate Accepts(c: Config, peer: NodeId, epoch: int, connected: seq<NodeId>) {
    epoch == c.epoch && |connected| <= 8 && forall n :: n in connected ==> n in c.universe
  }

  /** Whom a NODE_STATE shows alive. */
  function Shown(peer: NodeId, connected: seq<NodeId>): set<NodeId> {
    (set n | n in connected) + {peer}
  }

  function Step(c: Config, st: State, e: Event): State {
    match e
    case Claimed(peer) => st.(connections := st.connections + {peer})
    case Lost(peer, now) =>
      if peer in st.connections
      then st.(connections := st.connections - {peer}, suspected := st.suspected[peer := Mark(st, peer, now)])
      else st
    case Heard(peer, epoch, connected, now) =>
      if Accepts(c, peer, epoch, connected)
      then st.(views := st.views[peer := View(epoch, Shown(peer, connected), now)])
      else st
    case Reconciled(now) => Reconcile(c, st, now)
  }

  /** A freshly built or stopped node counts everyone in. */
  function Start(c: Config): State {
    State(c.universe, {}, map[], map[], |c.universe| == 1)
  }

  function After(c: Config, events: seq<Event>, n: nat): State
    requires n <= |events|
  {
    if n == 0 then Start(c) else Step(c, After(c, events, n - 1), events[n - 1])
  }

  function Clock(e: Event): Option<real> {
    match e
    case Claimed(_) => None
    case Lost(_, now) => Some(now)
    case Heard(_, _, _, now) => Some(now)
    case Reconciled(now) => Some(now)
  }

  /** Peers are trusted remote nodes, and the node's own monotonic clock never goes back. */
  ghost predicate WellFormed(c: Config, events: seq<Event>) {
    && c.self in c.universe && c.suspicion >= 0.0
    && (forall i :: 0 <= i < |events| && !events[i].Reconciled? ==> events[i].peer in Candidates(c))
    && (forall i, j :: 0 <= i < j < |events| && Clock(events[i]).Some? && Clock(events[j]).Some? ==>
          Clock(events[i]).value <= Clock(events[j]).value)
  }

  /** Membership stays inside the universe and always holds the node itself. */
  ghost predicate Inside(c: Config, st: State) {
    && c.self in st.members && st.members <= c.universe
    && st.connections <= Candidates(c)
    && st.views.Keys <= Candidates(c)
    && st.suspected.Keys <= Candidates(c)
  }

  lemma StepStaysInside(c: Config, st: State, e: Event)
    requires c.self in c.universe && Inside(c, st)
    requires !e.Reconciled? ==> e.peer in Candidates(c)
    ensures Inside(c, Step(c, st, e))
  {
    hide Quorate, Alive, Mark, StaleAfter;
  }

  /** Only a reconciliation touches the membership; nothing else clears a mark. */
  lemma OtherSteps(c: Config, st: State, e: Event)
    requires !e.Reconciled?
    ensures Step(c, st, e).members == st.members
    ensures forall x :: x in st.suspected ==> x in Step(c, st, e).suspected && Step(c, st, e).suspected[x] == st.suspected[x]
  {
  }

  lemma {:induction false} StaysInside(c: Config, events: seq<Event>, n: nat)
    requires n <= |events| && WellFormed(c, events)
    ensures Inside(c, After(c, events, n))
  {
    if n > 0 {
      StaysInside(c, events, n - 1);
      hide Step, Inside;
      StepStaysInside(c, After(c, events, n - 1), events[n - 1]);
    }
  }

  // ---------------------------------------------------------------------------
  // How a node leaves the membership.

  /** Step `j` put a suspicion mark on `x` and dated it with its own clock reading. */
  predicate MarkedAt(c: Config, events: seq<Event>, j: nat, x: NodeId)
    requires j < |events|
  {
    var before, after := After(c, events, j).suspected, After(c, events, j + 1).suspected;
    x !in before && x in after && Clock(events[j]) == Some(after[x])
  }

  /** If step `m` is a quorate reconciliation, it did not count a majority alive for `x`. */
  predicate NotSeenAlive(c: Config, events: seq<Event>, m: nat, x: NodeId)
    requires m < |events|
  {
    events[m].Reconciled? && Quorate(c, After(c, events, m), events[m].now) ==>
      !Alive(c, After(c, events, m), events[m].now, x)
  }

  lemma MarkStep(c: Config, st: State, e: Event, x: NodeId)
    requires x in Candidates(c) && x in Step(c, st, e).suspected
    ensures if x in st.suspected then Step(c, st, e).suspected[x] == st.suspected[x]
            else Clock(e) == Some(Step(c, st, e).suspected[x])
    ensures e.Reconciled? && Quorate(c, st, e.now) ==> !Alive(c, st, e.now, x)
  {
    hide Reporters, Votes, FreshViews;
  }

  lemma {:induction false} FindMark(c: Config, events: seq<Event>, n: nat, x: NodeId) returns (j: nat)
    requires n <= |events| && x in Candidates(c) && x in After(c, events, n).suspected
    ensures j < n && MarkedAt(c, events, j, x)
    ensures Clock(events[j]) == Some(After(c, events, n).suspected[x])
    ensures forall m :: j <= m < n ==> NotSeenAlive(c, events, m, x)
  {
    hide After, MarkedAt, NotSeenAlive, Clock;
    LastStepMark(c, events, n, x);
    if x in After(c, events, n - 1).suspected {
      j := FindMark(c, events, n - 1, x);
    } else {
      j := n - 1;
    }
  }

  lemma LastStepMark(c: Config, events: seq<Event>, n: nat, x: NodeId)
    requires n <= |events| && x in Candidates(c) && x in After(c, events, n).suspected
    ensures n > 0 && NotSeenAlive(c, events, n - 1, x)
    ensures var before, marks := After(c, events, n - 1).suspected, After(c, events, n).suspected;
      if x in before then marks[x] == before[x]
      else MarkedAt(c, events, n - 1, x) && Clock(events[n - 1]) == Some(marks[x])
  {
    hide Step, Quorate, Alive, Clock;
    MarkStep(c, After(c, events, n - 1), events[n - 1], x);
  }

  lemma LeavingStep(c: Config, st: State, e: Event, x: NodeId)
    requires x in st.members && x !in Step(c, st, e).members
    ensures e.Reconciled? && x in Candidates(c) && Quorate(c, st, e.now) && !Alive(c, st, e.now, x)
    ensures e.now - Mark(st, x, e.now) >= c.suspicion
    ensures x in Step(c, st, e).suspected && Step(c, st, e).suspected[x] == Mark(st, x, e.now)
  {
    hide Reporters, Votes, FreshViews;
  }

  /** Removal history. Whenever a node leaves the membership, the step is a quorate
      reconciliation at least the suspicion time after the step `j` that marked it, no quorate
      reconciliation from `j` on counted a majority of the universe alive for it, and it is
      not the local node. */
  lemma RemovalHistory(c: Config, events: seq<Event>, i: nat, x: NodeId) returns (j: nat)
    requires i < |events| && WellFormed(c, events)
    requires x in After(c, events, i).members && x !in After(c, events, i + 1).members
    ensures events[i].Reconciled? && Quorate(c, After(c, events, i), events[i].now) && x != c.self
    ensures j <= i && MarkedAt(c, events, j, x)
    ensures events[i].now - Clock(events[j]).value >= c.suspicion
    ensures forall m :: j <= m <= i ==> NotSeenAlive(c, events, m, x)
    ensures c.self in After(c, events, i + 1).members && After(c, events, i + 1).members <= c.universe
  {
    StaysInside(c, events, i + 1);
    j := RemovalMark(c, events, i, x);
  }

  lemma RemovalMark(c: Config, events: seq<Event>, i: nat, x: NodeId) returns (j: nat)
    requires i < |events| && x in After(c, events, i).members && x !in After(c, events, i + 1).members
    ensures events[i].Reconciled? && Quorate(c, After(c, events, i), events[i].now) && x != c.self
    ensures j <= i && MarkedAt(c, events, j, x)
    ensures events[i].now - Clock(events[j]).value >= c.suspicion
    ensures forall m :: j <= m <= i ==> NotSeenAlive(c, events, m, x)
  {
    hide Step, Quorate, Alive;
    var st := After(c, events, i);
    assert After(c, events, i + 1) == Step(c, st, events[i]);
    LeavingStep(c, st, events[i], x);
    assert NotSeenAlive(c, events, i, x);
    if x in st.suspected {
      hide After, MarkedAt, NotSeenAlive;
      j := FindMark(c, events, i, x);
    } else {
      j := i;
    }
  }

  // ---------------------------------------------------------------------------
  // Partition safety.

  /** At step `i`, nothing was heard from `others` for longer than views stay fresh. */
  ghost predicate QuietFrom(c: Config, events: seq<Event>, i: nat, others: set<NodeId>)
    requires i < |events| && events[i].Reconciled?
  {
    forall k :: 0 <= k < i && events[k].Heard? && events[k].peer in others ==>
      events[i].now - events[k].now > StaleAfter(c)
  }

  /** A held view was heard from its reporter at the time it carries. */
  lemma {:induction false} ViewsWereHeard(c: Config, events: seq<Event>, n: nat, r: NodeId) returns (k: nat)
    requires n <= |events| && r in After(c, events, n).views
    ensures k < n && events[k].Heard? && events[k].peer == r && Accepts(c, r, events[k].epoch, events[k].connected)
    ensures After(c, events, n).views[r] == View(events[k].epoch, Shown(r, events[k].connected), events[k].now)
    ensures forall m :: k < m < n && events[m].Heard? && events[m].peer == r ==>
      !Accepts(c, r, events[m].epoch, events[m].connected)
  {
    var st, e := After(c, events, n - 1), events[n - 1];
    if e.Heard? && e.peer == r && Accepts(c, r, e.epoch, e.connected) {
      k := n - 1;
    } else {
      hide Reporters, Votes;
      k := ViewsWereHeard(c, events, n - 1, r);
    }
  }

  /** While the other side is quiet, only this side reports. */
  lemma QuietReporters(c: Config, events: seq<Event>, i: nat, others: set<NodeId>)
    requires i < |events| && events[i].Reconciled? && WellFormed(c, events)
    requires c.self !in others && QuietFrom(c, events, i, others)
    ensures Reporters(c, After(c, events, i), events[i].now).Keys <= c.universe - others
  {
    var st, now := After(c, events, i), events[i].now;
    StaysInside(c, events, i);
    forall r | r in Reporters(c, st, now) ensures r in c.universe - others {
      if r != c.self {
        var k := ViewsWereHeard(c, events, i, r);
      }
    }
  }

  lemma QuorumNeedsMajority(c: Config, events: seq<Event>, i: nat, side: set<NodeId>)
    requires i < |events| && events[i].Reconciled? && WellFormed(c, events)
    requires c.self in side && QuietFrom(c, events, i, c.universe - side)
    requires Quorate(c, After(c, events, i), events[i].now)
    ensures |side| >= Quorum(c)
  {
    QuietReporters(c, events, i, c.universe - side);
    var reporters := Reporters(c, After(c, events, i), events[i].now);
    assert reporters.Keys <= side;
    Collections.SubsetSize(reporters.Keys, side);
  }

  /** Whether step `i` changed the membership. */
  predicate ChangesMembers(c: Config, events: seq<Event>, i: nat)
    requires i < |events|
  {
    After(c, events, i + 1).members != After(c, events, i).members
  }

  lemma OnlyQuorateReconcilesChange(c: Config, events: seq<Event>, i: nat)
    requires i < |events| && ChangesMembers(c, events, i)
    ensures events[i].Reconciled? && Quorate(c, After(c, events, i), events[i].now)
  {
  }

  /** A mesh: each node's configuration and its history of steps. */
  type Mesh = map<NodeId, (Config, seq<Event>)>

  ghost predicate SharedUniverse(mesh: Mesh, universe: set<NodeId>, epoch: int) {
    && mesh.Keys == universe
    && forall n :: n in mesh ==>
         && mesh[n].0.self == n && mesh[n].0.universe == universe && mesh[n].0.epoch == epoch
         && WellFormed(mesh[n].0, mesh[n].1)
  }

  /** From its step `since[n]` on, no reconciliation of a node `n` still holds anything it
      heard across the cut. */
  ghost predicate CutSince(mesh: Mesh, side: set<NodeId>, since: map<NodeId, nat>) {
    forall n, i :: n in mesh && n in since && since[n] <= i < |mesh[n].1| && mesh[n].1[i].Reconciled? ==>
      QuietFrom(mesh[n].0, mesh[n].1, i, if n in side then mesh.Keys - side else side)
  }

  /** Node `n` changes its membership at some step from `since[n]` on. */
  ghost predicate Moves(mesh: Mesh, n: NodeId, since: map<NodeId, nat>) {
    n in mesh && n in since && exists i :: since[n] <= i < |mesh[n].1| && ChangesMembers(mesh[n].0, mesh[n].1, i)
  }

  /** Partition safety: once nothing has crossed the cut for longer than views stay fresh, no
      reconciliation on one side and no reconciliation on the other can both find quorum. */
  lemma NoQuorumOnBothSides(mesh: Mesh, universe: set<NodeId>, epoch: int, side: set<NodeId>, since: map<NodeId, nat>,
                            a: NodeId, i: nat, b: NodeId, j: nat)
    requires SharedUniverse(mesh, universe, epoch) && CutSince(mesh, side, since) && side <= universe
    requires a in side && b in universe - side && a in since && b in since
    requires since[a] <= i < |mesh[a].1| && mesh[a].1[i].Reconciled?
    requires since[b] <= j < |mesh[b].1| && mesh[b].1[j].Reconciled?
    ensures !(Quorate(mesh[a].0, After(mesh[a].0, mesh[a].1, i), mesh[a].1[i].now)
           && Quorate(mesh[b].0, After(mesh[b].0, mesh[b].1, j), mesh[b].1[j].now))
  {
    var other := universe - side;
    assert |universe| == |side| + |other| by {
      assert universe == side + other && side !! other;
    }
    assert universe - other == side;
    hide Quorate, After, WellFormed;
    if Quorate(mesh[a].0, After(mesh[a].0, mesh[a].1, i), mesh[a].1[i].now) {
      QuorumNeedsMajority(mesh[a].0, mesh[a].1, i, side);
      if Quorate(mesh[b].0, After(mesh[b].0, mesh[b].1, j), mesh[b].1[j].now) {
        QuorumNeedsMajority(mesh[b].0, mesh[b].1, j, other);
        assert false;
      }
    }
  }

  /** So at most one side changes its membership from then on. */
  lemma AtMostOneSideMoves(mesh: Mesh, universe: set<NodeId>, epoch: int, side: set<NodeId>, since: map<NodeId, nat>,
                           a: NodeId, b: NodeId)
    requires SharedUniverse(mesh, universe, epoch) && CutSince(mesh, side, since) && side <= universe
    requires a in side && b in universe - side
    ensures !(Moves(mesh, a, since) && Moves(mesh, b, since))
  {
    if Moves(mesh, a, since) && Moves(mesh, b, since) {
      var i :| since[a] <= i < |mesh[a].1| && ChangesMembers(mesh[a].0, mesh[a].1, i);
      var j :| since[b] <= j < |mesh[b].1| && ChangesMembers(mesh[b].0, mesh[b].1, j);
      OnlyQuorateReconcilesChange(mesh[a].0, mesh[a].1, i);
      OnlyQuorateReconcilesChange(mesh[b].0, mesh[b].1, j);
      NoQuorumOnBothSides(mesh, universe, epoch, side, since, a, i, b, j);
    }
  }

  // ---------------------------------------------------------------------------
  // Convergence.

  /** At its reconciliation `i`, node c.self is connected to exactly the rest of `s`, the last
      thing it accepted from each of them is that they are connected to exactly `s`, recently
      enough to be fresh, and everything it heard from outside `s` has gone stale. */
  ghost predicate Healthy(c: Config, events: seq<Event>, i: nat, s: set<NodeId>)
    requires i < |events| && events[i].Reconciled?
  {
    && After(c, events, i).connections == s - {c.self}
    && (forall r :: r in s - {c.self} ==> exists k :: LastHeard(c, events, i, r, k, s))
    && QuietFrom(c, events, i, c.universe - s)
  }

  ghost predicate LastHeard(c: Config, events: seq<Event>, i: nat, r: NodeId, k: nat, s: set<NodeId>)
    requires i < |events| && events[i].Reconciled?
  {
    && k < i && events[k].Heard? && events[k].peer == r && Accepts(c, r, events[k].epoch, events[k].connected)
    && Shown(r, events[k].connected) == s
    && events[i].now - events[k].now <= StaleAfter(c)
    && forall m :: k < m < i && events[m].Heard? && events[m].peer == r ==> !Accepts(c, r, events[m].epoch, events[m].connected)
  }

  /** What a node last heard from a peer stays in its views while it is fresh. */
  lemma {:induction false} HeardIsHeld(c: Config, events: seq<Event>, i: nat, r: NodeId, k: nat, s: set<NodeId>, n: nat)
    requires i < |events| && events[i].Reconciled? && WellFormed(c, events)
    requires LastHeard(c, events, i, r, k, s) && k < n <= i
    ensures r in After(c, events, n).views && After(c, events, n).views[r] == View(c.epoch, s, events[k].now)
    decreases n
  {
    if n - 1 > k {
      HeardIsHeld(c, events, i, r, k, s, n - 1);
      var e := events[n - 1];
      assert e.Heard? && e.peer == r ==> !Accepts(c, r, e.epoch, e.connected);
      assert Clock(e).Some? ==> Clock(e).value <= Clock(events[i]).value;
      hide Reporters, Votes, Accepts;
    }
  }

  lemma HealthyReporters(c: Config, events: seq<Event>, i: nat, s: set<NodeId>)
    requires i < |events| && events[i].Reconciled? && WellFormed(c, events)
    requires c.self in s && s <= c.universe && Healthy(c, events, i, s)
    ensures Reporters(c, After(c, events, i), events[i].now) == map r | r in s :: s
  {
    QuietReporters(c, events, i, c.universe - s);
    var st, now := After(c, events, i), events[i].now;
    forall r | r in s - {c.self} ensures r in FreshViews(c, st, now) && FreshViews(c, st, now)[r].nodes == s {
      var k :| LastHeard(c, events, i, r, k, s);
      HeardIsHeld(c, events, i, r, k, s, i);
    }
    StaysInside(c, events, i);
    hide After, QuietFrom, WellFormed;
    assert {c.self} + st.connections == s;
    assert s * c.universe == s;
    var reporters := Reporters(c, st, now);
    forall r | r in s ensures r in reporters && reporters[r] == s {
    }
    assert c.universe - (c.universe - s) == s;
  }

  /** Every node of `s` is seen alive by all of `s`, every other node by none. */
  lemma HealthyVotes(c: Config, st: State, now: real, s: set<NodeId>, x: NodeId)
    requires Reporters(c, st, now) == map r | r in s :: s
    requires |s| >= Quorum(c)
    ensures Quorate(c, st, now)
    ensures Alive(c, st, now, x) <==> x in s
  {
    var reporters := map r | r in s :: s;
    assert reporters.Keys == s;
    assert |reporters| == |reporters.Keys|;
    var voters := set r | r in reporters && x in reporters[r];
    assert voters == if x in s then s else {};
  }

  /** A healthy reconciliation keeps all of `s`, removes exactly the others whose mark is old
      enough, and keeps their marks. */
  lemma HealthyStep(c: Config, events: seq<Event>, i: nat, s: set<NodeId>)
    requires i < |events| && events[i].Reconciled? && WellFormed(c, events)
    requires c.self in s && s <= c.universe && |s| >= Quorum(c) && Healthy(c, events, i, s)
    ensures var st, next, now := After(c, events, i), After(c, events, i + 1), events[i].now;
      && s <= next.members
      && (forall x :: x in c.universe - s ==> x in next.suspected && next.suspected[x] == Mark(st, x, now))
      && (forall x :: x in c.universe - s ==>
            (x in next.members <==> x in st.members && now - Mark(st, x, now) < c.suspicion))
      && next.members <= c.universe
  {
    HealthyReporters(c, events, i, s);
    StaysInside(c, events, i);
    StaysInside(c, events, i + 1);
    var st, now := After(c, events, i), events[i].now;
    forall x ensures Quorate(c, st, now) && (Alive(c, st, now, x) <==> x in s) {
      HealthyVotes(c, st, now, s, x);
    }
    ReconcileWith(c, st, now, s);
    hide Quorate, Alive, Healthy, WellFormed, FreshViews, Reconcile;
    assert After(c, events, i + 1) == Reconcile(c, st, now);
  }

  lemma ReconcileWith(c: Config, st: State, now: real, s: set<NodeId>)
    requires c.self in s && s <= c.universe && Quorate(c, st, now)
    requires forall x :: Alive(c, st, now, x) <==> x in s
    ensures var next := Reconcile(c, st, now);
      && s <= next.members
      && (forall x :: x in c.universe - s ==> x in next.suspected && next.suspected[x] == Mark(st, x, now))
      && (forall x :: x in c.universe - s ==>
            (x in next.members <==> x in st.members && now - Mark(st, x, now) < c.suspicion))
  {
    hide Quorate, Alive, FreshViews, Mark;
  }

  /** All reconciliations from step `i` on, before step `n`, are healthy. */
  ghost predicate HealthyFrom(c: Config, events: seq<Event>, i: nat, n: nat, s: set<NodeId>)
    requires n <= |events|
  {
    forall m :: i <= m < n && events[m].Reconciled? ==> Healthy(c, events, m, s)
  }

  lemma MarksLieInThePast(c: Config, events: seq<Event>, i: nat, x: NodeId)
    requires i < |events| && events[i].Reconciled? && WellFormed(c, events) && x in Candidates(c)
    ensures Mark(After(c, events, i), x, events[i].now) <= events[i].now
  {
    if x in After(c, events, i).suspected {
      var j := FindMark(c, events, i, x);
      assert Clock(events[j]).value <= Clock(events[i]).value;
    }
  }

  /** A mark on a node outside `s` survives healthy steps unchanged. */
  lemma {:induction false} MarkSurvives(c: Config, events: seq<Event>, i: nat, n: nat, s: set<NodeId>, x: NodeId)
    requires i < n <= |events| && events[i].Reconciled? && WellFormed(c, events)
    requires c.self in s && s <= c.universe && |s| >= Quorum(c) && HealthyFrom(c, events, i, n, s)
    requires x in c.universe - s
    ensures x in After(c, events, n).suspected
    ensures After(c, events, n).suspected[x] == Mark(After(c, events, i), x, events[i].now)
    decreases n
  {
    hide Healthy, WellFormed;
    if n == i + 1 {
      HealthyStep(c, events, i, s);
    } else {
      MarkSurvives(c, events, i, n - 1, s, x);
      if events[n - 1].Reconciled? {
        HealthyStep(c, events, n - 1, s);
      } else {
        OtherSteps(c, After(c, events, n - 1), events[n - 1]);
        hide Step;
        assert After(c, events, n) == Step(c, After(c, events, n - 1), events[n - 1]);
      }
    }
  }

  /** Convergence. Let `s` hold at least a quorum of the universe. From any reachable prior
      state, once healthy reconciliations `i` and `j` of a node of `s` are the suspicion time
      apart, its membership is exactly `s`, and stays so while its reconciliations are healthy. */
  lemma {:induction false} ConvergesToComponent(c: Config, events: seq<Event>, i: nat, j: nat, n: nat, s: set<NodeId>)
    requires i <= j < n <= |events| && events[i].Reconciled? && events[j].Reconciled? && WellFormed(c, events)
    requires events[j].now - events[i].now >= c.suspicion
    requires c.self in s && s <= c.universe && |s| >= Quorum(c) && HealthyFrom(c, events, i, n, s)
    ensures After(c, events, n).members == s
    decreases n
  {
    hide Healthy, WellFormed, Quorum;
    if n > j + 1 {
      ConvergesToComponent(c, events, i, j, n - 1, s);
      if events[n - 1].Reconciled? {
        HealthyStep(c, events, n - 1, s);
        SameSet(c.universe, s, After(c, events, n).members);
      } else {
        OtherSteps(c, After(c, events, n - 1), events[n - 1]);
        hide Step;
        assert After(c, events, n) == Step(c, After(c, events, n - 1), events[n - 1]);
      }
    } else {
      ConvergesAt(c, events, i, j, s);
    }
  }

  lemma ConvergesAt(c: Config, events: seq<Event>, i: nat, j: nat, s: set<NodeId>)
    requires i <= j < |events| && events[i].Reconciled? && events[j].Reconciled? && WellFormed(c, events)
    requires events[j].now - events[i].now >= c.suspicion
    requires c.self in s && s <= c.universe && |s| >= Quorum(c) && HealthyFrom(c, events, i, j + 1, s)
    ensures After(c, events, j + 1).members == s
  {
    assert Healthy(c, events, j, s);
    assert HealthyFrom(c, events, i, j, s);
    hide Healthy, WellFormed, Quorum, HealthyFrom, After, Mark;
    HealthyStep(c, events, j, s);
    var st := After(c, events, j);
    forall x | x in c.universe - s ensures x !in After(c, events, j + 1).members {
      OldMark(c, events, i, j, s, x);
    }
    SameSet(c.universe, s, After(c, events, j + 1).members);
  }

  /** Outside `s`, the mark at step `j` is no younger than the healthy reconciliation `i`. */
  lemma OldMark(c: Config, events: seq<Event>, i: nat, j: nat, s: set<NodeId>, x: NodeId)
    requires i <= j < |events| && events[i].Reconciled? && events[j].Reconciled? && WellFormed(c, events)
    requires c.self in s && s <= c.universe && |s| >= Quorum(c) && HealthyFrom(c, events, i, j, s)
    requires x in c.universe - s
    ensures Mark(After(c, events, j), x, events[j].now) <= events[i].now
  {
    hide WellFormed, Quorum, HealthyFrom, After;
    MarksLieInThePast(c, events, i, x);
    if i < j {
      MarkSurvives(c, events, i, j, s, x);
    }
  }

  lemma SameSet(universe: set<NodeId>, s: set<NodeId>, members: set<NodeId>)
    requires s <= members <= universe && forall x :: x in universe - s ==> x !in members
    ensures members == s
  {
  }

  /** A node of `s` that has seen healthy reconciliations spanning the suspicion time. */
  ghost predicate Settled(c: Config, events: seq<Event>, s: set<NodeId>) {
    exists i: nat, j: nat :: Spans(c, events, i, j, s)
  }

  ghost predicate Spans(c: Config, events: seq<Event>, i: nat, j: nat, s: set<NodeId>) {
    && i <= j < |events| && events[i].Reconciled? && events[j].Reconciled?
    && events[j].now - events[i].now >= c.suspicion && HealthyFrom(c, events, i, |events|, s)
  }

  /** Agreement: all settled nodes of a component that holds a quorum have membership exactly
      the component, so they compute the same owner list for every route tag. */
  lemma ComponentAgrees(mesh: Mesh, universe: set<NodeId>, epoch: int, s: set<NodeId>, a: NodeId, b: NodeId,
                        score: Rendezvous.Score, replicas: nat)
    requires SharedUniverse(mesh, universe, epoch) && s <= universe && |s| >= |universe| / 2 + 1
    requires forall n :: n in s ==> n in mesh && Settled(mesh[n].0, mesh[n].1, s)
    requires a in s && b in s
    ensures var ma := After(mesh[a].0, mesh[a].1, |mesh[a].1|).members;
      var mb := After(mesh[b].0, mesh[b].1, |mesh[b].1|).members;
      ma == mb == s && Rendezvous.OwnersFor(score, ma, replicas) == Rendezvous.OwnersFor(score, mb, replicas)
  {
    forall n | n in s ensures After(mesh[n].0, mesh[n].1, |mesh[n].1|).members == s {
      var i: nat, j: nat :| Spans(mesh[n].0, mesh[n].1, i, j, s);
      ConvergesToComponent(mesh[n].0, mesh[n].1, i, j, |mesh[n].1|, s);
    }
  }
}
