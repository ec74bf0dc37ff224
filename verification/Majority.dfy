/** Who decides that a node is alive (app/node_mesh.py:438-456, 629-661): in any run, a majority of
    the universe, counted over what the node itself and its peers last showed. */
module Majority {
  import opened Membership
  import opened Names
  import opened Numbers

  /** A NODE_STATE of `r` that app/node_mesh.py:446-452 takes. */
  predicate IsTaken(c: Config, e: Event, r: NodeId) {
    e.Heard? && e.peer == r && e.epoch == c.epoch && |e.connected| <= 8 && forall n :: n in e.connected ==> n in c.universe
  }

  /** Step `k` is the last NODE_STATE taken from `r` before step `i`, and recent enough. */
  ghost predicate LastTaken(c: Config, events: seq<Event>, i: nat, r: NodeId, k: nat)
    requires i < |events| && events[i].Reconciled?
  {
    && k < i && IsTaken(c, events[k], r)
    && (forall m :: k < m < i ==> !IsTaken(c, events[m], r))
    && (events[i].now - events[k].now <= 3.0 || events[i].now - events[k].now <= 3.0 * c.suspicion)
  }

  /** The node was connected to `x` by step `k`, and has not lost it before step `n`. */
  ghost predicate ConnectedSince(events: seq<Event>, n: nat, x: NodeId, k: nat) {
    && k < n <= |events| && events[k] == Claimed(x)
    && forall m :: k < m < n ==> !(events[m].Lost? && events[m].peer == x)
  }

  ghost predicate IsConnected(events: seq<Event>, n: nat, x: NodeId) {
    exists k :: ConnectedSince(events, n, x, k)
  }

  /** At reconciliation `i`, node `r` has a say. */
  ghost predicate Reports(c: Config, events: seq<Event>, i: nat, r: NodeId)
    requires i < |events| && events[i].Reconciled?
  {
    r == c.self || exists k :: LastTaken(c, events, i, r, k)
  }

  /** At reconciliation `i`, node `r` shows `x`: the node itself by its connections, a peer by the
      last NODE_STATE taken from it. */
  ghost predicate Shows(c: Config, events: seq<Event>, i: nat, r: NodeId, x: NodeId)
    requires i < |events| && events[i].Reconciled?
  {
    if r == c.self then x == c.self || IsConnected(events, i, x)
    else exists k :: ShownIn(c, events, i, r, x, k)
  }

  /** Step `k` is the last NODE_STATE taken from `r`, and it shows `x`. */
  ghost predicate ShownIn(c: Config, events: seq<Event>, i: nat, r: NodeId, x: NodeId, k: nat)
    requires i < |events| && events[i].Reconciled?
  {
    LastTaken(c, events, i, r, k) && (x == r || x in events[k].connected)
  }

  ghost function Reporting(c: Config, events: seq<Event>, i: nat): set<NodeId>
    requires i < |events| && events[i].Reconciled?
  {
    set r | r in c.universe && Reports(c, events, i, r)
  }

  ghost function Showing(c: Config, events: seq<Event>, i: nat, x: NodeId): set<NodeId>
    requires i < |events| && events[i].Reconciled?
  {
    set r | r in c.universe && Shows(c, events, i, r, x)
  }

  lemma {:induction false} ConnectionsAre(c: Config, events: seq<Event>, n: nat, x: NodeId)
    requires n <= |events|
    ensures x in After(c, events, n).connections <==> IsConnected(events, n, x)
  {
    hide *;
    if n > 0 {
      ConnectionsAre(c, events, n - 1, x);
      AfterStep(c, events, n - 1);
      ConnectionStep(c, After(c, events, n - 1), events[n - 1], x);
      ConnectedStep(events, n - 1, x);
    } else {
      NoneConnected(c, events, x);
    }
  }

  lemma NoneConnected(c: Config, events: seq<Event>, x: NodeId)
    ensures x !in After(c, events, 0).connections && !IsConnected(events, 0, x)
  {
  }

  lemma ConnectedStep(events: seq<Event>, n: nat, x: NodeId)
    requires n < |events|
    ensures IsConnected(events, n + 1, x)
      <==> events[n] == Claimed(x) || (IsConnected(events, n, x) && !(events[n].Lost? && events[n].peer == x))
  {
    var m := n + 1;
    if events[n] == Claimed(x) {
      assert ConnectedSince(events, m, x, n);
    }
    if IsConnected(events, n, x) && !(events[n].Lost? && events[n].peer == x) {
      var k: nat :| ConnectedSince(events, n, x, k);
      assert ConnectedSince(events, m, x, k);
    }
    if IsConnected(events, m, x) {
      var k: nat :| ConnectedSince(events, m, x, k);
      assert k < n ==> ConnectedSince(events, n, x, k);
    }
  }

  lemma ConnectionStep(c: Config, st: State, e: Event, x: NodeId)
    ensures x in Step(c, st, e).connections
      <==> e == Claimed(x) || (x in st.connections && !(e.Lost? && e.peer == x))
  {
    hide Quorate, Alive, Mark, FreshViews;
  }

  /** What the node holds of `r`: what it last took, whatever has aged out. */
  lemma {:induction false} ViewIsLastTaken(c: Config, events: seq<Event>, i: nat, n: nat, r: NodeId, k: nat)
    requires i < |events| && events[i].Reconciled? && WellFormed(c, events)
    requires LastTaken(c, events, i, r, k) && k < n <= i
    ensures HoldsView(After(c, events, n), r, View(c.epoch, Shown(r, events[k].connected), events[k].now))
    decreases n
  {
    hide After, WellFormed, LastTaken, Shown, HoldsView, Step;
    AfterStep(c, events, n - 1);
    LastIsTaken(c, events, i, r, k);
    if n - 1 > k {
      ViewIsLastTaken(c, events, i, n - 1, r, k);
      NotStaleYet(c, events, i, r, k, n - 1);
      ViewStays(c, After(c, events, n - 1), events[n - 1], r, View(c.epoch, Shown(r, events[k].connected), events[k].now));
    } else {
      ViewIsTaken(c, After(c, events, k), events[k], r);
    }
  }

  predicate HoldsView(st: State, r: NodeId, view: View) {
    r in st.views && st.views[r] == view
  }

  lemma LastIsTaken(c: Config, events: seq<Event>, i: nat, r: NodeId, k: nat)
    requires i < |events| && events[i].Reconciled? && LastTaken(c, events, i, r, k)
    ensures IsTaken(c, events[k], r)
  {
  }

  lemma AfterStep(c: Config, events: seq<Event>, n: nat)
    requires n < |events|
    ensures After(c, events, n + 1) == Step(c, After(c, events, n), events[n])
  {
    hide Step;
  }

  lemma NotStaleYet(c: Config, events: seq<Event>, i: nat, r: NodeId, k: nat, m: nat)
    requires i < |events| && events[i].Reconciled? && WellFormed(c, events) && LastTaken(c, events, i, r, k) && k < m < i
    ensures !IsTaken(c, events[m], r)
    ensures events[m].Reconciled? ==> events[m].now - events[k].now <= StaleAfter(c)
  {
    assert Clock(events[m]).Some? ==> Clock(events[m]).value <= Clock(events[i]).value;
  }

  lemma ViewIsTaken(c: Config, st: State, e: Event, r: NodeId)
    requires IsTaken(c, e, r)
    ensures HoldsView(Step(c, st, e), r, View(c.epoch, Shown(r, e.connected), e.now))
  {
  }

  lemma ViewStays(c: Config, st: State, e: Event, r: NodeId, view: View)
    requires HoldsView(st, r, view) && view.epoch == c.epoch && !IsTaken(c, e, r)
    requires e.Reconciled? ==> e.now - view.receivedAt <= StaleAfter(c)
    ensures HoldsView(Step(c, st, e), r, view)
  {
    hide Quorate, Alive, Mark, StaleAfter;
  }

  /** A fresh view is what was last taken from its reporter. */
  lemma FreshViewWasTaken(c: Config, events: seq<Event>, i: nat, r: NodeId) returns (k: nat)
    requires i < |events| && events[i].Reconciled? && r in FreshViews(c, After(c, events, i), events[i].now)
    ensures LastTaken(c, events, i, r, k)
    ensures After(c, events, i).views[r] == View(events[k].epoch, Shown(r, events[k].connected), events[k].now)
  {
    k := ViewsWereHeard(c, events, i, r);
    hide After;
    forall m | k < m < i ensures !IsTaken(c, events[m], r) {
    }
  }

  lemma FreshIff(c: Config, events: seq<Event>, i: nat, r: NodeId)
    requires i < |events| && events[i].Reconciled? && WellFormed(c, events)
    ensures r in FreshViews(c, After(c, events, i), events[i].now) <==> exists k :: LastTaken(c, events, i, r, k)
  {
    if r in FreshViews(c, After(c, events, i), events[i].now) {
      var k := FreshViewWasTaken(c, events, i, r);
    }
    if k :| LastTaken(c, events, i, r, k) {
      ViewIsLastTaken(c, events, i, i, r, k);
      hide After, WellFormed;
    }
  }

  lemma OnlyOneLastTaken(c: Config, events: seq<Event>, i: nat, r: NodeId, k: nat, l: nat)
    requires i < |events| && events[i].Reconciled? && LastTaken(c, events, i, r, k) && LastTaken(c, events, i, r, l)
    ensures k == l
  {
  }

  /** The reports of the reconciliation are what its reporters show. */
  lemma ReportsAre(c: Config, events: seq<Event>, i: nat, r: NodeId, x: NodeId)
    requires i < |events| && events[i].Reconciled? && WellFormed(c, events) && x in c.universe
    ensures var reporters := Reporters(c, After(c, events, i), events[i].now);
      && (r in reporters <==> r in c.universe && Reports(c, events, i, r))
      && (r in reporters && x in reporters[r] <==> r in c.universe && Shows(c, events, i, r, x))
  {
    StaysInside(c, events, i);
    var st, now := After(c, events, i), events[i].now;
    FreshIff(c, events, i, r);
    ConnectionsAre(c, events, i, x);
    hide After, WellFormed, IsConnected;
    if r in FreshViews(c, st, now) {
      var k := FreshViewWasTaken(c, events, i, r);
      hide FreshViews;
      ShownByPeer(c, events, i, r, x, k);
    }
  }

  lemma ShownByPeer(c: Config, events: seq<Event>, i: nat, r: NodeId, x: NodeId, k: nat)
    requires i < |events| && events[i].Reconciled? && r != c.self && LastTaken(c, events, i, r, k)
    ensures Shows(c, events, i, r, x) <==> x == r || x in events[k].connected
  {
    if x == r || x in events[k].connected {
      assert ShownIn(c, events, i, r, x, k);
    }
    if Shows(c, events, i, r, x) {
      var l: nat :| ShownIn(c, events, i, r, x, l);
      OnlyOneLastTaken(c, events, i, r, k, l);
    }
  }

  /** Quorum and votes, counted over what nodes show. */
  lemma VotesAre(c: Config, events: seq<Event>, i: nat, x: NodeId)
    requires i < |events| && events[i].Reconciled? && WellFormed(c, events) && x in c.universe
    ensures var st, now, majority := After(c, events, i), events[i].now, |c.universe| / 2 + 1;
      && (Quorate(c, st, now) <==> |Reporting(c, events, i)| >= majority)
      && (Alive(c, st, now, x) <==> |Showing(c, events, i, x)| >= majority)
  {
    var reporters := Reporters(c, After(c, events, i), events[i].now);
    forall r ensures r in reporters <==> r in Reporting(c, events, i) {
      ReportsAre(c, events, i, r, x);
    }
    forall r ensures r in reporters && x in reporters[r] <==> r in Showing(c, events, i, x) {
      ReportsAre(c, events, i, r, x);
    }
    hide After, Reports, Shows, Reporters;
    assert reporters.Keys == Reporting(c, events, i) && |reporters.Keys| == |reporters|;
    assert (set r | r in reporters && x in reporters[r]) == Showing(c, events, i, x);
  }

  /** A majority decides. In any run a reconciliation finds quorum if and only if a majority of the
      universe reports. Without it neither members nor marks change. With it, every other node that
      a majority of the universe shows is a member and unmarked afterwards; every other one that
      fewer show is marked - since now, unless it was marked before - and stays a member exactly if
      it was one and its mark is younger than the suspicion time. */
  lemma MajorityDecides(c: Config, events: seq<Event>, i: nat, x: NodeId)
    requires i < |events| && events[i].Reconciled? && WellFormed(c, events) && x in c.universe && x != c.self
    ensures var st, next, now, majority := After(c, events, i), After(c, events, i + 1), events[i].now, |c.universe| / 2 + 1;
      && (next.hasQuorum <==> |Reporting(c, events, i)| >= majority)
      && if |Reporting(c, events, i)| < majority then next.members == st.members && next.suspected == st.suspected
         else if |Showing(c, events, i, x)| >= majority then x in next.members && x !in next.suspected
         else
           && x in next.suspected && next.suspected[x] == (if x in st.suspected then st.suspected[x] else now)
           && (x in next.members <==> x in st.members && now - next.suspected[x] < c.suspicion)
  {
    VotesAre(c, events, i, x);
    AfterStep(c, events, i);
    ReconciledCandidate(c, After(c, events, i), events[i].now, x);
    hide Quorate, Alive, FreshViews, Reporting, Showing, WellFormed, After, Reconcile;
  }

  lemma ReconciledCandidate(c: Config, st: State, now: real, x: NodeId)
    requires x in c.universe && x != c.self
    ensures var next := Reconcile(c, st, now);
      && next.hasQuorum == Quorate(c, st, now)
      && if !Quorate(c, st, now) then next.members == st.members && next.suspected == st.suspected
         else if Alive(c, st, now, x) then x in next.members && x !in next.suspected
         else
           && x in next.suspected && next.suspected[x] == (if x in st.suspected then st.suspected[x] else now)
           && (x in next.members <==> x in st.members && now - next.suspected[x] < c.suspicion)
  {
    hide Quorate, Alive, FreshViews;
  }

  /** If step `m` is a reconciliation to which a majority reports, no majority shows `x`. */
  ghost predicate NoMajorityShows(c: Config, events: seq<Event>, m: nat, x: NodeId)
    requires m < |events|
  {
    events[m].Reconciled? && |Reporting(c, events, m)| >= |c.universe| / 2 + 1 ==>
      |Showing(c, events, m, x)| < |c.universe| / 2 + 1
  }

  /** Removal history. A node leaves the membership only at a reconciliation to which a majority of
      the universe reports, at least the suspicion time after the step `j` that marked it, and at
      no such reconciliation from `j` on did a majority show it; it is never the node itself. */
  lemma RemovalNeedsMajority(c: Config, events: seq<Event>, i: nat, x: NodeId) returns (j: nat)
    requires i < |events| && WellFormed(c, events)
    requires x in After(c, events, i).members && x !in After(c, events, i + 1).members
    ensures events[i].Reconciled? && |Reporting(c, events, i)| >= |c.universe| / 2 + 1 && x != c.self
    ensures j <= i && MarkedAt(c, events, j, x)
    ensures events[i].now - Clock(events[j]).value >= c.suspicion
    ensures forall m :: j <= m <= i ==> NoMajorityShows(c, events, m, x)
  {
    StaysInside(c, events, i);
    j := RemovalHistory(c, events, i, x);
    VotesAre(c, events, i, x);
    hide After, Quorate, Alive, Reporting, Showing, MarkedAt, WellFormed;
    forall m | j <= m <= i ensures NoMajorityShows(c, events, m, x) {
      assert NotSeenAlive(c, events, m, x);
      if events[m].Reconciled? {
        VotesAre(c, events, m, x);
      }
    }
  }
}
