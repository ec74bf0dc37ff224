/** Runs of several mesh nodes (app/node_mesh.py:616-627, 438-456): nodes send NODE_STATE messages
    to each other and take them up later. Where the connections among a quorum stay as they are,
    every one of its nodes ends up with exactly that quorum as its membership. */
module MeshRun {
  import opened Membership
  import opened Names
  import opened Numbers
  import Collections
  import Rendezvous

  /** What the nodes of a deployment share; the monotonic clock of `n` is `ahead(n)` ahead. */
  datatype Deployment = Deployment(universe: set<NodeId>, epoch: int, suspicion: real, ahead: NodeId -> real)

  /** `Sends` composes a NODE_STATE and sends it to the nodes `to`; `Takes` takes up the one that
      act `sent` of the run composed. One refused for its clock skew is not taken up. */
  datatype Deed =
    | Claims(peer: NodeId)
    | Loses(peer: NodeId)
    | Reconciles
    | Sends(to: set<NodeId>, epoch: int, connected: seq<NodeId>)
    | Takes(sent: nat)

  datatype Act = Act(node: NodeId, at: real, deed: Deed)

  type Run = seq<Act>

  function Of(d: Deployment, n: NodeId): Config {
    Config(n, d.universe, d.epoch, d.suspicion)
  }

  /** The step that act `p` is for node `n`, if any. */
  function Added(d: Deployment, run: Run, n: NodeId, p: nat): seq<Event>
    requires p < |run|
  {
    var now := run[p].at + d.ahead(n);
    if run[p].node != n then []
    else
      match run[p].deed
      case Claims(peer) => [Claimed(peer)]
      case Loses(peer) => [Lost(peer, now)]
      case Reconciles => [Reconciled(now)]
      case Sends(_, _, _) => []
      case Takes(sent) =>
        if sent < p && run[sent].deed.Sends?
        then [Heard(run[sent].node, run[sent].deed.epoch, run[sent].deed.connected, now)]
        else []
  }

  /** The steps of node `n` among the first `t` acts. */
  function History(d: Deployment, run: Run, n: NodeId, t: nat): seq<Event>
    requires t <= |run|
  {
    if t == 0 then [] else History(d, run, n, t - 1) + Added(d, run, n, t - 1)
  }

  function StateAt(d: Deployment, run: Run, n: NodeId, t: nat): State
    requires t <= |run|
  {
    var h := History(d, run, n, t);
    After(Of(d, n), h, |h|)
  }

  /** The list names each of `nodes` once (app/node_mesh.py:559). */
  ghost predicate Lists(connected: seq<NodeId>, nodes: set<NodeId>) {
    (forall n :: n in connected <==> n in nodes) && |connected| == |nodes|
  }

  /** Act `p` is one that the code can perform: a NODE_STATE shows the sender's connections of that
      moment; one is taken up from a connected peer only, in the order of sending. */
  ghost predicate Possible(d: Deployment, run: Run, p: nat)
    requires p < |run|
  {
    var n := run[p].node;
    match run[p].deed
    case Claims(peer) => peer in d.universe - {n}
    case Loses(peer) => peer in d.universe - {n}
    case Reconciles => true
    case Sends(_, epoch, connected) => epoch == d.epoch && Lists(connected, {n} + StateAt(d, run, n, p).connections)
    case Takes(sent) =>
      && sent < p && run[sent].deed.Sends?
      && run[sent].node in d.universe - {n} && run[sent].node in StateAt(d, run, n, p).connections
      && forall q: nat :: q < p && TakesFrom(run, q, n, run[sent].node) ==> run[q].deed.sent <= sent
  }

  predicate TakesFrom(run: Run, q: nat, n: NodeId, sender: NodeId)
    requires q < |run|
  {
    run[q].node == n && run[q].deed.Takes? && run[q].deed.sent < q && run[run[q].deed.sent].node == sender
  }

  /** Time does not go back, and the nodes `s` do what the code does; the others do anything. */
  ghost predicate Lawful(d: Deployment, run: Run, s: set<NodeId>) {
    && s <= d.universe && d.suspicion >= 0.0
    && (forall p, q :: 0 <= p < q < |run| ==> run[p].at <= run[q].at)
    && forall p :: 0 <= p < |run| && run[p].node in s ==> Possible(d, run, p)
  }

  /** From act `from` on, each node of `s` is connected to exactly the others of `s`. */
  ghost predicate StaysConnected(d: Deployment, run: Run, from: nat, s: set<NodeId>)
    requires from < |run|
  {
    && (forall n :: n in s ==> StateAt(d, run, n, from).connections == s - {n})
    && forall p :: from <= p < |run| && run[p].node in s ==>
         (run[p].deed.Claims? ==> run[p].deed.peer in s - {run[p].node}) && (run[p].deed.Loses? ==> run[p].deed.peer !in s)
  }

  /** In the last `period` up to `time`, node `n` reconciled. */
  ghost predicate ReconciledBy(run: Run, from: nat, n: NodeId, period: real, time: real) {
    exists k :: from <= k < |run| && run[k].node == n && run[k].deed.Reconciles? && time - period < run[k].at <= time
  }

  /** In the last `period` up to `time`, node `n` sent its state to `to`. */
  ghost predicate SentBy(run: Run, from: nat, n: NodeId, to: NodeId, period: real, time: real) {
    exists k :: SendsAt(run, from, n, to, period, time, k)
  }

  ghost predicate SendsAt(run: Run, from: nat, n: NodeId, to: NodeId, period: real, time: real, k: nat) {
    from <= k < |run| && run[k].node == n && run[k].deed.Sends? && to in run[k].deed.to && time - period < run[k].at <= time
  }

  /** The membership loop of every node of `s` comes round in every `period`: it reconciles, and it
      sends the node's state to every connection. */
  ghost predicate LoopsRun(run: Run, from: nat, s: set<NodeId>, period: real)
    requires from < |run|
  {
    forall n, time :: n in s && run[from].at + period <= time <= run[|run| - 1].at ==>
      ReconciledBy(run, from, n, period, time) && forall r :: r in s - {n} ==> SentBy(run, from, n, r, period, time)
  }

  /** What one node of `s` sends another from act `from` on is taken up within `delay`. */
  ghost predicate Prompt(run: Run, from: nat, s: set<NodeId>, delay: real) {
    forall k, n, i :: from <= k < i < |run| && n in s && SentWithin(run, s, n, k, run[i].at - delay) ==>
      TakenBefore(run, n, k, i)
  }

  ghost predicate SentWithin(run: Run, s: set<NodeId>, n: NodeId, k: nat, latest: real)
    requires k < |run|
  {
    run[k].node in s && run[k].deed.Sends? && n in run[k].deed.to && run[k].at <= latest
  }

  ghost predicate TakenBefore(run: Run, n: NodeId, k: nat, i: nat)
    requires i < |run|
  {
    exists j :: k < j < i && run[j].node == n && run[j].deed == Takes(k)
  }

  // ---- acts and steps ------------------------------------------------------------------

  lemma {:induction false} HistoryGrows(d: Deployment, run: Run, n: NodeId, p: nat, t: nat)
    requires p <= t <= |run|
    ensures History(d, run, n, p) <= History(d, run, n, t)
    decreases t
  {
    if p < t {
      HistoryGrows(d, run, n, p, t - 1);
    }
  }

  lemma {:induction false} AfterPrefix(c: Config, h: seq<Event>, more: seq<Event>, n: nat)
    requires n <= |h| && h <= more
    ensures After(c, more, n) == After(c, h, n)
  {
    hide Step;
    if n > 0 {
      AfterPrefix(c, h, more, n - 1);
    }
  }

  /** Where act `p` stands in the longer history. */
  lemma StepOfAct(d: Deployment, run: Run, n: NodeId, p: nat, t: nat)
    requires p < t <= |run| && Added(d, run, n, p) != []
    ensures var m, h := |History(d, run, n, p)|, History(d, run, n, t);
      m < |h| && [h[m]] == Added(d, run, n, p) && After(Of(d, n), h, m) == StateAt(d, run, n, p)
  {
    hide After;
    HistoryGrows(d, run, n, p + 1, t);
    HistoryGrows(d, run, n, p, t);
    AfterPrefix(Of(d, n), History(d, run, n, p), History(d, run, n, t), |History(d, run, n, p)|);
  }

  /** Which act step `m` of a history is. */
  lemma {:induction false} ActOfStep(d: Deployment, run: Run, n: NodeId, t: nat, m: nat) returns (p: nat)
    requires t <= |run| && m < |History(d, run, n, t)|
    ensures p < t && |History(d, run, n, p)| == m && Added(d, run, n, p) == [History(d, run, n, t)[m]]
  {
    var before := History(d, run, n, t - 1);
    if m < |before| {
      p := ActOfStep(d, run, n, t - 1, m);
    } else {
      p := t - 1;
    }
  }

  /** Later steps are later acts. */
  lemma ActsInOrder(d: Deployment, run: Run, n: NodeId, p: nat, q: nat)
    requires p <= |run| && q <= |run| && |History(d, run, n, p)| < |History(d, run, n, q)|
    ensures p < q
  {
    if q <= p {
      HistoryGrows(d, run, n, q, p);
    }
  }

  lemma StateStep(d: Deployment, run: Run, n: NodeId, p: nat)
    requires p < |run|
    ensures var added := Added(d, run, n, p);
      StateAt(d, run, n, p + 1) == if added == [] then StateAt(d, run, n, p) else Step(Of(d, n), StateAt(d, run, n, p), added[0])
  {
    var h, more := History(d, run, n, p), History(d, run, n, p + 1);
    AfterPrefix(Of(d, n), h, more, |h|);
    hide Step;
    assert Added(d, run, n, p) != [] ==> After(Of(d, n), more, |more|) == Step(Of(d, n), After(Of(d, n), more, |h|), more[|h|]);
  }

  lemma HistoryIsWellFormed(d: Deployment, run: Run, s: set<NodeId>, n: NodeId, t: nat)
    requires Lawful(d, run, s) && n in s && t <= |run|
    ensures WellFormed(Of(d, n), History(d, run, n, t))
  {
    var h := History(d, run, n, t);
    hide StateAt, History, Lists;
    forall i | 0 <= i < |h| && !h[i].Reconciled? ensures h[i].peer in Candidates(Of(d, n)) {
      var p := ActOfStep(d, run, n, t, i);
      PeerIsRemote(d, run, s, n, p);
      assert Added(d, run, n, p) == [h[i]];
    }
    forall i, j | 0 <= i < j < |h| && Clock(h[i]).Some? && Clock(h[j]).Some? ensures Clock(h[i]).value <= Clock(h[j]).value {
      var p := ActOfStep(d, run, n, t, i);
      var q := ActOfStep(d, run, n, t, j);
      ActsInOrder(d, run, n, p, q);
    }
  }

  lemma PeerIsRemote(d: Deployment, run: Run, s: set<NodeId>, n: NodeId, p: nat)
    requires Lawful(d, run, s) && n in s && p < |run| && Added(d, run, n, p) != [] && !Added(d, run, n, p)[0].Reconciled?
    ensures Added(d, run, n, p)[0].peer in d.universe - {n}
  {
  }

  // ---- what a component that stays connected sees --------------------------------------

  lemma {:induction false} ConnectionsStay(d: Deployment, run: Run, from: nat, s: set<NodeId>, n: NodeId, t: nat)
    requires from < |run| && from <= t <= |run| && StaysConnected(d, run, from, s) && n in s
    ensures StateAt(d, run, n, t).connections == s - {n}
    decreases t
  {
    hide StateAt, Step, Added;
    if from < t {
      ConnectionsStay(d, run, from, s, n, t - 1);
      StateStep(d, run, n, t - 1);
      StaysInComponent(d, run, from, s, n, t - 1);
    }
  }

  lemma StaysInComponent(d: Deployment, run: Run, from: nat, s: set<NodeId>, n: NodeId, p: nat)
    requires from <= p < |run| && StaysConnected(d, run, from, s) && n in s
    requires StateAt(d, run, n, p).connections == s - {n}
    ensures Added(d, run, n, p) != [] ==> Step(Of(d, n), StateAt(d, run, n, p), Added(d, run, n, p)[0]).connections == s - {n}
  {
    hide StateAt, Step;
    var added := Added(d, run, n, p);
    if added != [] {
      ConnectionsStep(Of(d, n), StateAt(d, run, n, p), added[0]);
    }
  }

  lemma ConnectionsStep(c: Config, st: State, e: Event)
    ensures Step(c, st, e).connections == match e
      case Claimed(peer) => st.connections + {peer}
      case Lost(peer, _) => st.connections - {peer}
      case _ => st.connections
  {
    hide Quorate, Alive, Mark, FreshViews;
  }

  /** Act `p` of node `n` takes up what the node `sender` sent at act `sent`. */
  ghost predicate TakesUp(run: Run, p: nat, n: NodeId, sender: NodeId, sent: nat) {
    sent < p < |run| && run[p].node == n && run[p].deed == Takes(sent) && run[sent].node == sender && run[sent].deed.Sends?
  }

  /** A NODE_STATE that a node of `s` sent from act `from` on shows exactly `s`. */
  lemma ShowsComponent(d: Deployment, run: Run, from: nat, s: set<NodeId>, r: NodeId, k: nat, n: NodeId)
    requires from <= k < |run| && Lawful(d, run, s) && StaysConnected(d, run, from, s) && |d.universe| <= 8
    requires r in s && run[k].node == r && run[k].deed.Sends?
    ensures var sent := run[k].deed; Shown(r, sent.connected) == s && Accepts(Of(d, n), r, sent.epoch, sent.connected)
  {
    ConnectionsStay(d, run, from, s, r, k);
    assert Possible(d, run, k);
    hide StateAt;
    assert {r} + (s - {r}) == s;
    Collections.SubsetSize(s, d.universe);
  }

  /** Whatever a node of `s` hears from act `from` on comes from `s`. */
  lemma HearsComponentOnly(d: Deployment, run: Run, from: nat, s: set<NodeId>, n: NodeId, p: nat, sender: NodeId, sent: nat)
    requires from <= p < |run| && Lawful(d, run, s) && StaysConnected(d, run, from, s) && n in s
    requires TakesUp(run, p, n, sender, sent)
    ensures sender in s
  {
    ConnectionsStay(d, run, from, s, n, p);
    hide StateAt;
    assert Possible(d, run, p);
  }

  /** States are taken up in the order in which they were sent. */
  lemma TakenInOrder(d: Deployment, run: Run, s: set<NodeId>, n: NodeId, sender: NodeId, p: nat, first: nat, q: nat, second: nat)
    requires Lawful(d, run, s) && n in s && p <= q
    requires TakesUp(run, p, n, sender, first) && TakesUp(run, q, n, sender, second)
    ensures first <= second
  {
    hide StateAt;
    if p < q {
      assert Possible(d, run, q);
      assert TakesFrom(run, p, n, sender);
    }
  }

  /** From `period + delay` after act `from` on, every node of `s` has taken up a state of each other
      one that is no older than that. */
  lemma HasTakenFresh(d: Deployment, run: Run, from: nat, s: set<NodeId>, period: real, delay: real, n: NodeId, r: NodeId, i: nat)
    returns (j: nat, k: nat)
    requires from < i < |run| && Lawful(d, run, s) && LoopsRun(run, from, s, period) && Prompt(run, from, s, delay)
    requires n in s && r in s - {n} && delay > 0.0 && run[from].at + period + delay <= run[i].at
    ensures from <= k && j < i && TakesUp(run, j, n, r, k) && run[i].at - run[j].at <= period + delay
  {
    hide Possible;
    var time := run[i].at - delay;
    assert time <= run[|run| - 1].at;
    assert ReconciledBy(run, from, r, period, time);
    assert SentBy(run, from, r, n, period, time);
    k :| SendsAt(run, from, r, n, period, time, k);
    assert k < i;
    assert SentWithin(run, s, n, k, run[i].at - delay);
    assert TakenBefore(run, n, k, i);
    j :| k < j < i && run[j].node == n && run[j].deed == Takes(k);
    assert run[k].at <= run[j].at;
  }

  // ---- every late reconciliation is healthy --------------------------------------------

  lemma {:induction false} LastFrom(h: seq<Event>, m: nat, r: NodeId, first: nat) returns (k: nat)
    requires first < m <= |h| && h[first].Heard? && h[first].peer == r
    ensures first <= k < m && h[k].Heard? && h[k].peer == r
    ensures forall l :: k < l < m && h[l].Heard? ==> h[l].peer != r
  {
    if h[m - 1].Heard? && h[m - 1].peer == r {
      k := m - 1;
    } else {
      k := LastFrom(h, m - 1, r, first);
    }
  }

  /** Which act a heard step is. */
  lemma ActOfHeard(d: Deployment, run: Run, n: NodeId, t: nat, m: nat) returns (p: nat, sent: nat)
    requires t <= |run| && m < |History(d, run, n, t)| && History(d, run, n, t)[m].Heard?
    ensures p < t && |History(d, run, n, p)| == m && TakesUp(run, p, n, History(d, run, n, t)[m].peer, sent)
    ensures History(d, run, n, t)[m]
      == Heard(run[sent].node, run[sent].deed.epoch, run[sent].deed.connected, run[p].at + d.ahead(n))
  {
    p := ActOfStep(d, run, n, t, m);
    hide History;
    sent := run[p].deed.sent;
  }

  lemma NotEarlier(d: Deployment, run: Run, n: NodeId, p: nat, q: nat)
    requires p <= |run| && q < |run| && Added(d, run, n, q) != [] && |History(d, run, n, p)| <= |History(d, run, n, q)|
    ensures p <= q
  {
    if q < p {
      HistoryGrows(d, run, n, q + 1, p);
    }
  }

  /** Where something taken up stands in the history, as seen from a later act `i`. */
  lemma TakenStands(d: Deployment, run: Run, n: NodeId, r: NodeId, j: nat, sent: nat, i: nat, t: nat)
    requires TakesUp(run, j, n, r, sent) && j < i <= t <= |run|
    ensures var h, m := History(d, run, n, t), |History(d, run, n, j)|;
      m < |h| && m < |History(d, run, n, i)| && h[m].Heard? && h[m].peer == r
  {
    StepOfAct(d, run, n, j, i);
    StepOfAct(d, run, n, j, t);
  }

  lemma ReconcileStands(d: Deployment, run: Run, n: NodeId, i: nat, t: nat)
    requires i < t <= |run| && run[i].node == n && run[i].deed.Reconciles?
    ensures var h, m := History(d, run, n, t), |History(d, run, n, i)|;
      m < |h| && h[m] == Reconciled(run[i].at + d.ahead(n)) && After(Of(d, n), h, m) == StateAt(d, run, n, i)
  {
    StepOfAct(d, run, n, i, t);
  }

  /** The last step before act `i` at which `n` heard from `r`, and the act it is: a fresh one. */
  lemma LastFromPeer(d: Deployment, run: Run, from: nat, s: set<NodeId>, period: real, delay: real, n: NodeId, r: NodeId, i: nat, t: nat)
    returns (k: nat, q: nat, sent: nat)
    requires from < i < t <= |run| && Lawful(d, run, s) && LoopsRun(run, from, s, period) && Prompt(run, from, s, delay)
    requires n in s && r in s - {n} && delay > 0.0 && run[from].at + period + delay <= run[i].at
    ensures from <= sent && TakesUp(run, q, n, r, sent) && run[i].at - run[q].at <= period + delay
    ensures var h, m := History(d, run, n, t), |History(d, run, n, i)|;
      && k < m <= |h| && h[k] == Heard(r, run[sent].deed.epoch, run[sent].deed.connected, run[q].at + d.ahead(n))
      && forall l :: k < l < m && h[l].Heard? ==> h[l].peer != r
  {
    hide LoopsRun, Prompt, History, Added;
    var j, first := HasTakenFresh(d, run, from, s, period, delay, n, r, i);
    TakenStands(d, run, n, r, j, first, i, t);
    HistoryGrows(d, run, n, i, t);
    k := LastFrom(History(d, run, n, t), |History(d, run, n, i)|, r, |History(d, run, n, j)|);
    q, sent := ActOfHeard(d, run, n, t, k);
    TakingIsAStep(d, run, n, r, q, sent);
    NotEarlier(d, run, n, j, q);
    TakenInOrder(d, run, s, n, r, j, first, q, sent);
    InTime(d, run, s, j, q);
  }

  lemma InTime(d: Deployment, run: Run, s: set<NodeId>, p: nat, q: nat)
    requires Lawful(d, run, s) && p <= q < |run|
    ensures run[p].at <= run[q].at
  {
  }

  lemma TakingIsAStep(d: Deployment, run: Run, n: NodeId, r: NodeId, q: nat, sent: nat)
    requires TakesUp(run, q, n, r, sent)
    ensures Added(d, run, n, q) != []
  {
  }

  lemma HearsPeer(d: Deployment, run: Run, from: nat, s: set<NodeId>, period: real, delay: real, n: NodeId, r: NodeId, i: nat, t: nat)
    returns (k: nat)
    requires from < i < t <= |run| && Lawful(d, run, s) && StaysConnected(d, run, from, s)
    requires LoopsRun(run, from, s, period) && Prompt(run, from, s, delay) && |d.universe| <= 8
    requires n in s && r in s - {n} && delay > 0.0 && run[from].at + period + delay <= run[i].at
    requires period + delay <= StaleAfter(Of(d, n)) && run[i].node == n && run[i].deed.Reconciles?
    ensures var h, m := History(d, run, n, t), |History(d, run, n, i)|;
      m < |h| && h[m] == Reconciled(run[i].at + d.ahead(n)) && LastHeard(Of(d, n), h, m, r, k, s)
  {
    hide LoopsRun, Prompt, Lawful, StaysConnected, History;
    ReconcileStands(d, run, n, i, t);
    var q, sent;
    k, q, sent := LastFromPeer(d, run, from, s, period, delay, n, r, i, t);
    ShowsComponent(d, run, from, s, r, sent, n);
  }

  lemma QuietOutside(d: Deployment, run: Run, from: nat, s: set<NodeId>, n: NodeId, i: nat, t: nat)
    requires from < i < t <= |run| && Lawful(d, run, s) && StaysConnected(d, run, from, s) && n in s
    requires run[i].at > run[from].at + StaleAfter(Of(d, n)) && run[i].node == n && run[i].deed.Reconciles?
    ensures var h, m := History(d, run, n, t), |History(d, run, n, i)|;
      m < |h| && h[m] == Reconciled(run[i].at + d.ahead(n)) && QuietFrom(Of(d, n), h, m, d.universe - s)
  {
    hide StateAt, History, StaysConnected, Possible;
    ReconcileStands(d, run, n, i, t);
    var h, m := History(d, run, n, t), |History(d, run, n, i)|;
    forall k | 0 <= k < m && h[k].Heard? && h[k].peer in d.universe - s ensures h[m].now - h[k].now > StaleAfter(Of(d, n)) {
      var q, sent := ActOfHeard(d, run, n, t, k);
      if from <= q {
        HearsComponentOnly(d, run, from, s, n, q, h[k].peer, sent);
      }
    }
  }

  lemma HealthyAt(d: Deployment, run: Run, from: nat, s: set<NodeId>, period: real, delay: real, n: NodeId, i: nat, t: nat)
    requires from < i < t <= |run| && Lawful(d, run, s) && StaysConnected(d, run, from, s)
    requires LoopsRun(run, from, s, period) && Prompt(run, from, s, delay) && |d.universe| <= 8
    requires n in s && delay > 0.0 && period + delay <= StaleAfter(Of(d, n))
    requires run[i].at > run[from].at + StaleAfter(Of(d, n)) && run[i].node == n && run[i].deed.Reconciles?
    ensures var h, m := History(d, run, n, t), |History(d, run, n, i)|;
      m < |h| && h[m] == Reconciled(run[i].at + d.ahead(n)) && Healthy(Of(d, n), h, m, s)
  {
    hide StateAt, History, StaysConnected, Lawful, LoopsRun, Prompt, LastHeard, QuietFrom;
    ReconcileStands(d, run, n, i, t);
    ConnectionsStay(d, run, from, s, n, i);
    QuietOutside(d, run, from, s, n, i, t);
    forall r | r in s - {n}
      ensures exists k :: LastHeard(Of(d, n), History(d, run, n, t), |History(d, run, n, i)|, r, k, s)
    {
      var k := HearsPeer(d, run, from, s, period, delay, n, r, i, t);
    }
  }

  /** From a healthy act on, all reconciliations are healthy. */
  lemma HealthyFromAct(d: Deployment, run: Run, from: nat, s: set<NodeId>, period: real, delay: real, n: NodeId, i: nat, t: nat)
    requires from < i < t <= |run| && Lawful(d, run, s) && StaysConnected(d, run, from, s)
    requires LoopsRun(run, from, s, period) && Prompt(run, from, s, delay) && |d.universe| <= 8
    requires n in s && delay > 0.0 && period + delay <= StaleAfter(Of(d, n))
    requires run[i].at > run[from].at + StaleAfter(Of(d, n)) && run[i].node == n && run[i].deed.Reconciles?
    ensures var h := History(d, run, n, t); HealthyFrom(Of(d, n), h, |History(d, run, n, i)|, |h|, s)
  {
    hide StateAt, History, StaysConnected, LoopsRun, Prompt, Healthy, Possible;
    var h, first := History(d, run, n, t), |History(d, run, n, i)|;
    forall m | first <= m < |h| && h[m].Reconciled? ensures Healthy(Of(d, n), h, m, s) {
      var p := ActOfStep(d, run, n, t, m);
      NotEarlier(d, run, n, i, p);
      HealthyAt(d, run, from, s, period, delay, n, p, t);
    }
  }

  // ---- convergence of the whole component ----------------------------------------------

  /** Node `n` reconciles after `time`, no later than `period` after it. */
  lemma ReconcilesSoon(run: Run, from: nat, s: set<NodeId>, period: real, n: NodeId, time: real) returns (i: nat)
    requires from < |run| && LoopsRun(run, from, s, period) && n in s
    requires run[from].at <= time && time + period <= run[|run| - 1].at
    ensures from <= i < |run| && run[i].node == n && run[i].deed.Reconciles? && time < run[i].at <= time + period
  {
    assert ReconciledBy(run, from, n, period, time + period);
    i :| from <= i < |run| && run[i].node == n && run[i].deed.Reconciles? && time < run[i].at <= time + period;
  }

  lemma NodeConverges(d: Deployment, run: Run, from: nat, s: set<NodeId>, period: real, delay: real, n: NodeId, t: nat)
    requires from < t <= |run| && Lawful(d, run, s) && StaysConnected(d, run, from, s)
    requires LoopsRun(run, from, s, period) && Prompt(run, from, s, delay) && |d.universe| <= 8
    requires n in s && period > 0.0 && delay > 0.0 && period + delay <= StaleAfter(Of(d, n)) && |s| >= |d.universe| / 2 + 1
    requires run[t - 1].at > run[from].at + StaleAfter(Of(d, n)) + d.suspicion + 2.0 * period
    ensures StateAt(d, run, n, t).members == s
  {
    hide StateAt, History, StaysConnected, LoopsRun, Prompt, Possible;
    var c, h := Of(d, n), History(d, run, n, t);
    assert run[t - 1].at <= run[|run| - 1].at;
    var i := ReconcilesSoon(run, from, s, period, n, run[from].at + StaleAfter(c));
    var j := ReconcilesSoon(run, from, s, period, n, run[i].at + d.suspicion);
    assert from < i < j < t;
    hide Lawful, HealthyFrom, WellFormed;
    ReconcileStands(d, run, n, i, t);
    ReconcileStands(d, run, n, j, t);
    HistoryGrows(d, run, n, i, j);
    HealthyFromAct(d, run, from, s, period, delay, n, i, t);
    HistoryIsWellFormed(d, run, s, n, t);
    ComponentBound(d, run, s, n);
    ConvergesToComponent(c, h, |History(d, run, n, i)|, |History(d, run, n, j)|, |h|, s);
    StateIsAfter(d, run, n, t);
  }

  lemma StateIsAfter(d: Deployment, run: Run, n: NodeId, t: nat)
    requires t <= |run|
    ensures var h := History(d, run, n, t); StateAt(d, run, n, t) == After(Of(d, n), h, |h|)
  {
  }

  lemma ComponentBound(d: Deployment, run: Run, s: set<NodeId>, n: NodeId)
    requires Lawful(d, run, s) && n in s
    ensures s <= d.universe && Quorum(Of(d, n)) == |d.universe| / 2 + 1
  {
  }

  /** Convergence of the mesh. Let the nodes `s`, a majority of at most eight, be connected to exactly
      each other from act `from` on, let their membership loops come round in every `period` and
      their states arrive within `delay`, together no longer than views stay fresh. Whatever happened
      before and whatever the other nodes do, from the stale time, the suspicion time and two periods
      on every node of `s` has exactly `s` as its membership, and so the same owners for every tag. */
  lemma MeshConverges(d: Deployment, run: Run, from: nat, s: set<NodeId>, period: real, delay: real, t: nat,
                      score: Rendezvous.Score, replicas: nat)
    requires from < t <= |run| && Lawful(d, run, s) && StaysConnected(d, run, from, s)
    requires LoopsRun(run, from, s, period) && Prompt(run, from, s, delay) && |d.universe| <= 8
    requires |s| >= |d.universe| / 2 + 1 && period > 0.0 && delay > 0.0 && period + delay <= StaleTime(d.suspicion)
    requires run[t - 1].at > run[from].at + StaleTime(d.suspicion) + d.suspicion + 2.0 * period
    ensures forall n :: n in s ==> StateAt(d, run, n, t).members == s
    ensures forall n :: n in s ==>
      Rendezvous.OwnersFor(score, StateAt(d, run, n, t).members, replicas) == Rendezvous.OwnersFor(score, s, replicas)
  {
    hide StateAt, StaysConnected, LoopsRun, Prompt, Lawful, Rendezvous.OwnersFor;
    forall n | n in s ensures StateAt(d, run, n, t).members == s {
      NodeConverges(d, run, from, s, period, delay, n, t);
    }
  }

  /** How long the membership loop sleeps (app/node_mesh.py:620). */
  function Interval(d: Deployment): real {
    MaxReal(1.0, MinReal(5.0, d.suspicion / 2.0))
  }

  lemma LoopLeavesRoom(d: Deployment, slack: real, delay: real)
    requires slack + delay <= 2.0
    ensures Interval(d) > 0.0 && Interval(d) + slack + delay <= StaleTime(d.suspicion)
  {
  }

  /** The loop's own interval leaves two seconds for its work and for the messages: with no more than
      that the mesh converges for every suspicion time. */
  lemma MeshConvergesAtLoopInterval(d: Deployment, run: Run, from: nat, s: set<NodeId>, slack: real, delay: real, t: nat,
                                    score: Rendezvous.Score, replicas: nat)
    requires from < t <= |run| && Lawful(d, run, s) && StaysConnected(d, run, from, s)
    requires LoopsRun(run, from, s, Interval(d) + slack) && Prompt(run, from, s, delay) && |d.universe| <= 8
    requires |s| >= |d.universe| / 2 + 1 && slack >= 0.0 && delay > 0.0 && slack + delay <= 2.0
    requires run[t - 1].at > run[from].at + StaleTime(d.suspicion) + d.suspicion + 2.0 * (Interval(d) + slack)
    ensures forall n :: n in s ==> StateAt(d, run, n, t).members == s
    ensures forall n :: n in s ==>
      Rendezvous.OwnersFor(score, StateAt(d, run, n, t).members, replicas) == Rendezvous.OwnersFor(score, s, replicas)
  {
    hide *;
    LoopLeavesRoom(d, slack, delay);
    MeshConverges(d, run, from, s, Interval(d) + slack, delay, t, score, replicas);
  }
}
