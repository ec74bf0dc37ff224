/** Discovery (app/node_mesh.py:168-203, 389-407, 597-614): who is told and who is asked, what
    the descriptor cache takes, and what a caller gets who waited for other nodes in between. */
module Discovery {
  import opened Names
  import opened Registry
  import opened Numbers
  import Collections
  import Rendezvous

  /** The peers of `owners`, in order, to which a replica is sent. */
  function Sends(owners: seq<NodeId>, self: NodeId, connections: set<NodeId>): seq<NodeId> {
    if owners == [] then []
    else
      var rest := Sends(owners[1..], self, connections);
      if owners[0] != self && owners[0] in connections then [owners[0]] + rest else rest
  }

  lemma {:induction false} SendsAppend(owners: seq<NodeId>, o: NodeId, self: NodeId, connections: set<NodeId>)
    ensures Sends(owners + [o], self, connections)
      == Sends(owners, self, connections) + if o != self && o in connections then [o] else []
  {
    if owners != [] {
      assert (owners + [o])[1..] == owners[1..] + [o];
      SendsAppend(owners[1..], o, self, connections);
    }
  }

  lemma NoSends(self: NodeId, connections: set<NodeId>)
    ensures Sends([], self, connections) == []
  {
  }

  lemma {:induction false} SendsAre(owners: seq<NodeId>, self: NodeId, connections: set<NodeId>, o: NodeId)
    ensures o in Sends(owners, self, connections) <==> o in owners && o != self && o in connections
  {
    if owners != [] {
      SendsAre(owners[1..], self, connections, o);
    }
  }

  /** Owners in rank order are told and asked in rank order, and so each once. */
  lemma {:induction false} SendsAreInRankOrder(score: Rendezvous.Score, owners: seq<NodeId>, self: NodeId, connections: set<NodeId>)
    requires Rendezvous.InRankOrder(score, owners)
    ensures Rendezvous.InRankOrder(score, Sends(owners, self, connections))
  {
    if owners != [] {
      var rest := Sends(owners[1..], self, connections);
      SendsAreInRankOrder(score, owners[1..], self, connections);
      forall i | 0 <= i < |rest| ensures Rendezvous.Before(score, owners[0], rest[i]) {
        SendsAre(owners[1..], self, connections, rest[i]);
        var k :| 0 <= k < |owners[1..]| && owners[1..][k] == rest[i];
        assert owners[k + 1] == rest[i];
      }
      hide Sends, Rendezvous.Before;
      FirstInRankOrder(score, owners[0], rest);
      assert Sends(owners, self, connections) in {rest, [owners[0]] + rest} by { SendsStep(owners, self, connections); }
    }
  }

  lemma SendsStep(owners: seq<NodeId>, self: NodeId, connections: set<NodeId>)
    requires owners != []
    ensures var rest := Sends(owners[1..], self, connections);
      Sends(owners, self, connections) == rest || Sends(owners, self, connections) == [owners[0]] + rest
  {
  }

  lemma FirstInRankOrder(score: Rendezvous.Score, first: NodeId, rest: seq<NodeId>)
    requires Rendezvous.InRankOrder(score, rest) && forall i :: 0 <= i < |rest| ==> Rendezvous.Before(score, first, rest[i])
    ensures Rendezvous.InRankOrder(score, [first] + rest)
  {
    hide Rendezvous.Before;
  }

  /** What `discover` returns once it offered `n` descriptors, on top of what it had found. */
  ghost function Found(c: Config, st: State, items: seq<Descriptor>, n: nat, wall: real, local: set<SessionId>,
                       had: map<SessionId, Descriptor>): map<SessionId, Descriptor>
    requires n <= |items|
  {
    if n == 0 then had
    else
      var found := Found(c, st, items, n - 1, wall, local, had);
      if Caches(c, CacheEach(c, st, items, n - 1, wall, local), items[n - 1], wall, local)
      then found[items[n - 1].session := items[n - 1]] else found
  }

  /** One descriptor after another offered to the cache. */
  ghost function CacheEach(c: Config, st: State, items: seq<Descriptor>, n: nat, wall: real, local: set<SessionId>): State
    requires n <= |items|
  {
    if n == 0 then st
    else Step(c, CacheEach(c, st, items, n - 1, wall, local), Cache(items[n - 1], wall, local))
  }

  /** Caching one descriptor never makes room for one that was refused before. */
  lemma RefusalLasts(c: Config, st: State, d: Descriptor, other: Descriptor, wall: real, local: set<SessionId>)
    requires !Caches(c, st, d, wall, local)
    ensures !Caches(c, Step(c, st, Cache(other, wall, local)), d, wall, local)
  {
    hide Current;
    if other.session in st.cache {
      assert st.cache[other.session := other].Keys == st.cache.Keys;
      assert |st.cache[other.session := other].Keys| == |st.cache.Keys|;
    }
  }

  lemma OfferNone(c: Config, st: State, wall: real, local: set<SessionId>, had: map<SessionId, Descriptor>)
    ensures CacheEach(c, st, [], 0, wall, local) == st && Found(c, st, [], 0, wall, local, had) == had
  {
  }

  /** One batch after another is one batch. */
  lemma {:induction false} OfferMore(c: Config, st: State, a: seq<Descriptor>, b: seq<Descriptor>, n: nat, wall: real,
                                     local: set<SessionId>, had: map<SessionId, Descriptor>)
    requires n <= |b|
    ensures var mid, found := CacheEach(c, st, a, |a|, wall, local), Found(c, st, a, |a|, wall, local, had);
      && CacheEach(c, st, a + b, |a| + n, wall, local) == CacheEach(c, mid, b, n, wall, local)
      && Found(c, st, a + b, |a| + n, wall, local, had) == Found(c, mid, b, n, wall, local, found)
  {
    hide Caches, Step;
    if n == 0 {
      OfferPrefix(c, st, a, a + b, |a|, wall, local, had);
    } else {
      OfferMore(c, st, a, b, n - 1, wall, local, had);
      assert (a + b)[|a| + n - 1] == b[n - 1];
    }
  }

  lemma {:induction false} OfferPrefix(c: Config, st: State, a: seq<Descriptor>, b: seq<Descriptor>, n: nat, wall: real,
                                       local: set<SessionId>, had: map<SessionId, Descriptor>)
    requires n <= |a| && a <= b
    ensures CacheEach(c, st, a, n, wall, local) == CacheEach(c, st, b, n, wall, local)
    ensures Found(c, st, a, n, wall, local, had) == Found(c, st, b, n, wall, local, had)
  {
    hide Caches, Step;
    if n > 0 {
      OfferPrefix(c, st, a, b, n - 1, wall, local, had);
    }
  }

  /** The first `n` replies in one list. */
  function Flat(replies: seq<seq<Descriptor>>, n: nat): seq<Descriptor>
    requires n <= |replies|
  {
    if n == 0 then [] else Flat(replies, n - 1) + replies[n - 1]
  }

  /** A descriptor is cached exactly so, bound to its node, current, and not another node's claim
      to a local session. */
  predicate Vouched(c: Config, st: State, d: Descriptor, wall: real, local: set<SessionId>) {
    && d.session in st.cache && st.cache[d.session] == d
    && d.session in st.bindings && st.bindings[d.session] == d.node
    && Current(c, d, wall) && (d.node == c.self || d.session !in local)
  }

  /** One await-free batch on top of what was found before: what it returns for a session is
      either vouched for now, or what was found before; and it returns nothing for a session only
      if the cache refuses every descriptor of it to the end. */
  lemma {:induction false} BatchIsVouched(c: Config, st: State, items: seq<Descriptor>, n: nat, wall: real, local: set<SessionId>,
                                          had: map<SessionId, Descriptor>, s: SessionId, i: nat)
    requires n <= |items|
    ensures var found, end := Found(c, st, items, n, wall, local, had), CacheEach(c, st, items, n, wall, local);
      s in found ==>
        || (found[s].session == s && Vouched(c, end, found[s], wall, local))
        || (s in had && found[s] == had[s] && (s in end.cache <==> s in st.cache) && (s in st.cache ==> end.cache[s] == st.cache[s]))
    ensures s in had ==> s in Found(c, st, items, n, wall, local, had)
    ensures i < n && items[i].session !in Found(c, st, items, n, wall, local, had) ==>
      !Caches(c, CacheEach(c, st, items, n, wall, local), items[i], wall, local)
  {
    hide Current;
    if n > 0 {
      BatchIsVouched(c, st, items, n - 1, wall, local, had, s, i);
      var before, last := CacheEach(c, st, items, n - 1, wall, local), items[n - 1];
      if i < n && !Caches(c, before, items[i], wall, local) {
        RefusalLasts(c, before, items[i], last, wall, local);
      }
    }
  }

  // ---- across the await -----------------------------------------------------------------

  /** The registry after `n` events of other tasks. */
  ghost function Meanwhile(c: Config, st: State, events: seq<Event>, n: nat): State
    requires n <= |events|
  {
    if n == 0 then st else Step(c, Meanwhile(c, st, events, n - 1), events[n - 1])
  }

  /** One call of `discover`: a local batch at `wall1`, other tasks while the owners are asked,
      and a batch of replies at `wall2`. */
  datatype Call = Call(
    start: State,
    held: seq<Descriptor>, wall1: real, local1: set<SessionId>,
    meanwhile: seq<Event>,
    replies: seq<Descriptor>, wall2: real, local2: set<SessionId>)

  ghost function LocalFinds(c: Config, call: Call): map<SessionId, Descriptor> {
    Found(c, call.start, call.held, |call.held|, call.wall1, call.local1, map[])
  }

  ghost function AfterLocal(c: Config, call: Call): State {
    CacheEach(c, call.start, call.held, |call.held|, call.wall1, call.local1)
  }

  ghost function BeforeReplies(c: Config, call: Call): State {
    Meanwhile(c, AfterLocal(c, call), call.meanwhile, |call.meanwhile|)
  }

  ghost function Discovered(c: Config, call: Call): map<SessionId, Descriptor> {
    Found(c, BeforeReplies(c, call), call.replies, |call.replies|, call.wall2, call.local2, LocalFinds(c, call))
  }

  ghost function AtReturn(c: Config, call: Call): State {
    CacheEach(c, BeforeReplies(c, call), call.replies, |call.replies|, call.wall2, call.local2)
  }

  /** Whatever `discover` returns is vouched for when it returns, or is a local find that was
      vouched for when the local batch ran. */
  lemma DiscoveredWasVouched(c: Config, call: Call, s: SessionId)
    requires s in Discovered(c, call)
    ensures var d := Discovered(c, call)[s];
      && d.session == s
      && (Vouched(c, AtReturn(c, call), d, call.wall2, call.local2)
          || (s in LocalFinds(c, call) && d == LocalFinds(c, call)[s]
              && Vouched(c, AfterLocal(c, call), d, call.wall1, call.local1)))
  {
    hide Found, CacheEach, Vouched;
    BatchIsVouched(c, call.start, call.held, |call.held|, call.wall1, call.local1, map[], s, 0);
    BatchIsVouched(c, BeforeReplies(c, call), call.replies, |call.replies|, call.wall2, call.local2, LocalFinds(c, call), s, 0);
  }

  predicate CachedAs(st: State, d: Descriptor) {
    d.session in st.cache && st.cache[d.session] == d
  }

  /** The event takes the descriptor out of the cache: a stop, a prune or a lookup of its session
      after it expired, or the caching of another descriptor of its session. */
  predicate Unsettles(c: Config, st: State, e: Event, d: Descriptor) {
    || e.Stop?
    || ((e.Prune? || (e.Lookup? && e.session == d.session)) && Expired(d, e.wall))
    || (e.Cache? && e.descriptor.session == d.session && e.descriptor != d && Caches(c, st, e.descriptor, e.wall, e.local))
  }

  /** The event caches the descriptor, perhaps anew. */
  predicate Settles(c: Config, st: State, e: Event, d: Descriptor) {
    e.Cache? && e.descriptor == d && Caches(c, st, d, e.wall, e.local)
  }

  lemma CachedStep(c: Config, st: State, e: Event, d: Descriptor)
    ensures CachedAs(Step(c, st, e), d) <==> (CachedAs(st, d) && !Unsettles(c, st, e, d)) || Settles(c, st, e, d)
  {
    hide Caches, Registers, Expired, Size;
  }

  /** From event `j` on nothing takes the descriptor out again. */
  ghost predicate SettledFrom(c: Config, st: State, events: seq<Event>, n: nat, d: Descriptor, j: nat)
    requires j <= n <= |events|
  {
    && (j > 0 ==> Settles(c, Meanwhile(c, st, events, j - 1), events[j - 1], d))
    && (forall k :: j <= k < n ==> !Unsettles(c, Meanwhile(c, st, events, k), events[k], d))
  }

  /** The exact condition under which a descriptor that was cached is cached after other tasks
      ran: nothing took it out since the start, or since it was last cached anew. */
  lemma {:induction false} StillCachedIff(c: Config, st: State, events: seq<Event>, n: nat, d: Descriptor)
    requires n <= |events| && CachedAs(st, d)
    ensures CachedAs(Meanwhile(c, st, events, n), d) <==> exists j :: 0 <= j <= n && SettledFrom(c, st, events, n, d, j)
  {
    hide CachedAs, Unsettles, Settles, Step;
    if n == 0 {
      assert SettledFrom(c, st, events, 0, d, 0);
    } else {
      var before, e := Meanwhile(c, st, events, n - 1), events[n - 1];
      StillCachedIff(c, st, events, n - 1, d);
      CachedStep(c, before, e, d);
      if Settles(c, before, e, d) {
        assert SettledFrom(c, st, events, n, d, n);
      }
      if CachedAs(before, d) && !Unsettles(c, before, e, d) {
        var j :| 0 <= j <= n - 1 && SettledFrom(c, st, events, n - 1, d, j);
        assert SettledFrom(c, st, events, n, d, j);
      }
      if j :| 0 <= j <= n && SettledFrom(c, st, events, n, d, j) {
        assert j < n ==> SettledFrom(c, st, events, n - 1, d, j) && !Unsettles(c, before, e, d);
      }
    }
  }

  /** A batch as the events it is made of. */
  function Offers(items: seq<Descriptor>, wall: real, local: set<SessionId>): seq<Event> {
    seq(|items|, i requires 0 <= i < |items| => Event.Cache(items[i], wall, local))
  }

  lemma {:induction false} OffersAre(c: Config, st: State, items: seq<Descriptor>, n: nat, wall: real, local: set<SessionId>)
    requires n <= |items|
    ensures CacheEach(c, st, items, n, wall, local) == Meanwhile(c, st, Offers(items, wall, local), n)
  {
    hide Step;
    if n > 0 {
      OffersAre(c, st, items, n - 1, wall, local);
    }
  }

  lemma {:induction false} MeanwhileAppends(c: Config, st: State, a: seq<Event>, b: seq<Event>, n: nat)
    requires n <= |b|
    ensures Meanwhile(c, st, a + b, |a| + n) == Meanwhile(c, Meanwhile(c, st, a, |a|), b, n)
  {
    hide Step;
    if n == 0 {
      MeanwhilePrefix(c, st, a, a + b, |a|);
    } else {
      MeanwhileAppends(c, st, a, b, n - 1);
      assert (a + b)[|a| + n - 1] == b[n - 1];
    }
  }

  lemma {:induction false} MeanwhilePrefix(c: Config, st: State, a: seq<Event>, b: seq<Event>, n: nat)
    requires n <= |a| && a <= b
    ensures Meanwhile(c, st, a, n) == Meanwhile(c, st, b, n)
  {
    hide Step;
    if n > 0 {
      MeanwhilePrefix(c, st, a, b, n - 1);
    }
  }

  /** Everything that happens to the registry between the local batch and the return. */
  ghost function Since(call: Call): seq<Event> {
    call.meanwhile + Offers(call.replies, call.wall2, call.local2)
  }

  /** So a local find is still cached when `discover` returns if and only if nothing took it out
      of the cache while the owners were asked and answered, or it was cached anew after that. */
  lemma LocalFindIsStillCachedIff(c: Config, call: Call, s: SessionId)
    requires s in LocalFinds(c, call)
    ensures var d, n := LocalFinds(c, call)[s], |Since(call)|;
      CachedAs(AtReturn(c, call), d)
      <==> exists j :: 0 <= j <= n && SettledFrom(c, AfterLocal(c, call), Since(call), n, d, j)
  {
    BatchIsVouched(c, call.start, call.held, |call.held|, call.wall1, call.local1, map[], s, 0);
    OffersAre(c, BeforeReplies(c, call), call.replies, |call.replies|, call.wall2, call.local2);
    hide Found, CacheEach, Meanwhile, SettledFrom, Current;
    MeanwhileAppends(c, AfterLocal(c, call), call.meanwhile, Offers(call.replies, call.wall2, call.local2), |call.replies|);
    StillCachedIff(c, AfterLocal(c, call), Since(call), |Since(call)|, LocalFinds(c, call)[s]);
  }

  lemma OneOffer(c: Config, st: State, d: Descriptor, wall: real, local: set<SessionId>)
    requires Caches(c, st, d, wall, local)
    ensures CacheEach(c, st, [d], 1, wall, local) == Cached(st, d)
    ensures Found(c, st, [d], 1, wall, local, map[]) == map[d.session := d]
  {
    hide Caches;
    assert CacheEach(c, st, [d], 0, wall, local) == st && Found(c, st, [d], 0, wall, local, map[]) == map[];
  }

  /** The witness: a descriptor that expires at 60 is found at 50, another task prunes at 70, and
      `discover` still returns it, neither cached nor current. */
  lemma DroppedFindIsReturned(c: Config, s: SessionId, remote: NodeId, key: Key) returns (call: Call)
    requires c.lease == 90.0 && c.skew == 5.0 && c.cap >= 1 && remote != c.self
    ensures var d := Descriptor(s, remote, key, 60);
      && s in Discovered(c, call) && Discovered(c, call)[s] == d
      && !CachedAs(AtReturn(c, call), d) && !Current(c, d, call.wall2)
  {
    var d := Descriptor(s, remote, key, 60);
    call := Call(EMPTY, [d], 50.0, {}, [Prune(70.0)], [], 70.0, {});
    OneOffer(c, EMPTY, d, 50.0, {});
    var st := Cached(EMPTY, d);
    assert AfterLocal(c, call) == st && LocalFinds(c, call) == map[s := d];
    OneEvent(c, st, Prune(70.0));
    OfferNone(c, Step(c, st, Prune(70.0)), 70.0, {}, map[s := d]);
    assert Expired(d, 70.0) && s in ExpiredCache(st, 70.0);
    hide Found, CacheEach, Meanwhile;
  }

  lemma OneEvent(c: Config, st: State, e: Event)
    ensures Meanwhile(c, st, [e], 1) == Step(c, st, e)
  {
    hide Step;
    assert Meanwhile(c, st, [e], 0) == st;
  }

  // ---- registration and discovery meet ---------------------------------------------------

  /** The event leaves an entry of the registry alone. */
  predicate Spares(c: Config, st: State, e: Event, route: RouteId, d: Descriptor) {
    match e
    case Register(r, other, wall, local) => r == route && KeyOf(other) == KeyOf(d) ==> other == d || !Registers(c, st, r, other, wall, local)
    case Withdraw(r, node, session) => !(r == route && (node, session) == KeyOf(d))
    case Prune(wall) => !Expired(d, wall)
    case Rebalance(owned, active) => route in owned && d.node in active
    case Stop => false
    case _ => true
  }

  predicate HoldsAs(st: State, route: RouteId, d: Descriptor) {
    Holds(st.routes, route, KeyOf(d)) && st.routes[route][KeyOf(d)] == d
  }

  lemma SparedStep(c: Config, st: State, e: Event, route: RouteId, d: Descriptor)
    requires HoldsAs(st, route, d)
    ensures HoldsAs(Step(c, st, e), route, d) <==> Spares(c, st, e, route, d)
  {
    hide Registers, Caches, Size, Expired;
    match e
    case Withdraw(r, node, session) =>
      assert Spares(c, st, e, route, d) ==> KeyOf(d) in st.routes[route] - (if r == route then {(node, session)} else {});
    case Prune(wall) =>
      assert Spares(c, st, e, route, d) ==> KeyOf(d) in AllUnexpired(st.routes, wall)[route];
    case Rebalance(owned, active) =>
      assert Spares(c, st, e, route, d) ==> KeyOf(d) in AllActive(st.routes, owned, active)[route];
    case _ =>
  }

  lemma {:induction false} SparedRun(c: Config, st: State, events: seq<Event>, n: nat, route: RouteId, d: Descriptor)
    requires n <= |events| && HoldsAs(st, route, d)
    requires forall k :: 0 <= k < n ==> Spares(c, Meanwhile(c, st, events, k), events[k], route, d)
    ensures HoldsAs(Meanwhile(c, st, events, n), route, d)
  {
    hide HoldsAs, Spares, Step;
    if n > 0 {
      SparedRun(c, st, events, n - 1, route, d);
      SparedStep(c, Meanwhile(c, st, events, n - 1), events[n - 1], route, d);
    }
  }

  /** An answer to a query: `limit` of the entries, or all if there are fewer, each once. */
  ghost predicate Answers(items: seq<Descriptor>, keys: seq<(NodeId, SessionId)>, entries: Entries, limit: nat) {
    && |items| == |keys| == Min(limit, |entries|)
    && (forall i :: 0 <= i < |items| ==> keys[i] in entries && items[i] == entries[keys[i]])
    && (forall i, j :: 0 <= i < j < |keys| ==> keys[i] != keys[j])
  }

  lemma {:induction false} KeySet(keys: seq<(NodeId, SessionId)>)
    requires forall i, j :: 0 <= i < j < |keys| ==> keys[i] != keys[j]
    ensures |set k | k in keys| == |keys|
  {
    if keys == [] {
      assert (set k | k in keys) == {};
    } else {
      KeySet(keys[1..]);
      assert (set k | k in keys) == (set k | k in keys[1..]) + {keys[0]};
    }
  }

  lemma UncutAnswerHoldsAll(items: seq<Descriptor>, keys: seq<(NodeId, SessionId)>, entries: Entries, limit: nat, key: (NodeId, SessionId))
    requires Answers(items, keys, entries, limit) && |entries| <= limit && key in entries
    ensures entries[key] in items
  {
    KeySet(keys);
    var all := set k | k in keys;
    assert |entries| == |entries.Keys|;
    Collections.SubsetSize(all, entries.Keys);
    assert key in all;
  }

  /** What an owner holds of a route when it is asked. */
  ghost function Asked(c: Config, st: State, route: RouteId, d: Descriptor, later: seq<Event>, asked: real): Entries {
    EntriesOf(Pruned(Meanwhile(c, Registered(st, route, d), later, |later|).routes, asked), route)
  }

  lemma AskedHolds(c: Config, st: State, route: RouteId, d: Descriptor, later: seq<Event>, asked: real)
    requires forall k :: 0 <= k < |later| ==> Spares(c, Meanwhile(c, Registered(st, route, d), later, k), later[k], route, d)
    requires !Expired(d, asked)
    ensures KeyOf(d) in Asked(c, st, route, d, later, asked) && Asked(c, st, route, d, later, asked)[KeyOf(d)] == d
  {
    hide Spares, Meanwhile, Expired;
    SparedRun(c, Registered(st, route, d), later, |later|, route, d);
  }

  /** An owner that takes a registration, spares it until it is asked within the lease, and answers
      uncut answers with it. */
  lemma ServedAnswerHolds(c: Config, st: State, route: RouteId, d: Descriptor, later: seq<Event>, asked: real, limit: nat,
                          items: seq<Descriptor>, keys: seq<(NodeId, SessionId)>)
    requires forall k :: 0 <= k < |later| ==> Spares(c, Meanwhile(c, Registered(st, route, d), later, k), later[k], route, d)
    requires !Expired(d, asked) && |Asked(c, st, route, d, later, asked)| <= limit
    requires Answers(items, keys, Asked(c, st, route, d, later, asked), limit)
    ensures d in items && |items| <= limit
  {
    AskedHolds(c, st, route, d, later, asked);
    UncutAnswerHoldsAll(items, keys, Asked(c, st, route, d, later, asked), limit, KeyOf(d));
  }

  lemma UsableHolds(c: Config, items: seq<Descriptor>, d: Descriptor, fanout: nat, wall: real)
    requires d in items && |items| <= fanout && Current(c, d, wall)
    ensures d in Usable(c, Fanout(Wrapped(items), fanout), wall)
  {
    hide Current;
    var at :| 0 <= at < |items| && items[at] == d;
    assert Wrapped(items)[at] == Some(d);
  }

  lemma OfferedIsFound(c: Config, st: State, items: seq<Descriptor>, wall: real, local: set<SessionId>,
                       had: map<SessionId, Descriptor>, d: Descriptor)
    requires d in items
    ensures || d.session in Found(c, st, items, |items|, wall, local, had)
            || !Caches(c, CacheEach(c, st, items, |items|, wall, local), d, wall, local)
  {
    hide Found, CacheEach, Caches;
    var i :| 0 <= i < |items| && items[i] == d;
    BatchIsVouched(c, st, items, |items|, wall, local, had, d.session, i);
  }

  /** What happens at one owner: a registration that reaches it at `wall`, the events until it is
      asked, and its answer, which the asker reads at `replied`. */
  datatype Owner = Owner(
    c: Config, members: set<NodeId>, st: State, wall: real, local: set<SessionId>, later: seq<Event>,
    asked: real, limit: nat, items: seq<Descriptor>, keys: seq<(NodeId, SessionId)>, replied: real)

  /** Node `a`, with members `m` and connections `from`, registers `d` for a route; node `b`, with
      members `n` and connections `to`, then makes a call of `discover`. */
  datatype Exchange = Exchange(
    score: Rendezvous.Score, replicas: nat, route: RouteId, d: Descriptor,
    a: NodeId, m: set<NodeId>, from: set<NodeId>,
    b: NodeId, n: set<NodeId>, to: set<NodeId>,
    owners: map<NodeId, Owner>, asker: Config, fanout: nat, replies: seq<seq<Descriptor>>, call: Call)

  ghost function Tells(x: Exchange): seq<NodeId> {
    Rendezvous.OwnersFor(x.score, x.m, x.replicas)
  }

  ghost function Asks(x: Exchange): seq<NodeId> {
    Rendezvous.OwnersFor(x.score, x.n, x.replicas)
  }

  /** The registration is applied at `o`: at the registrar itself, or at an owner that it sends to and
      that counts itself among the owners (app/node_mesh.py:168-172, 397-407). */
  ghost predicate Applies(x: Exchange, o: NodeId) {
    && o in x.owners && o in Tells(x) && Registers(x.owners[o].c, x.owners[o].st, x.route, x.d, x.owners[o].wall, x.owners[o].local)
    && (o == x.a || (o in Sends(Tells(x), x.a, x.from) && o in Rendezvous.OwnersFor(x.score, x.owners[o].members, x.replicas)))
  }

  ghost function AfterTelling(x: Exchange, o: NodeId): State
    requires o in x.owners
  {
    if Applies(x, o) then Step(x.owners[o].c, x.owners[o].st, Register(x.route, x.d, x.owners[o].wall, x.owners[o].local))
    else x.owners[o].st
  }

  /** What `o` holds of the route when the asker comes to it: in the answer to a query, or in the
      local batch if it is the asker itself. */
  ghost function HeldAt(x: Exchange, o: NodeId): Entries
    requires o in x.owners
  {
    var w := x.owners[o];
    EntriesOf(Pruned(Meanwhile(w.c, AfterTelling(x, o), w.later, |w.later|).routes, w.asked), x.route)
  }

  /** The registrar offers a descriptor of its own. The call is made of the local batch of the asker and of what it takes from the answers of the
      owners it asks; an owner that does not answer adds nothing (app/node_mesh.py:181-203). */
  ghost predicate Made(x: Exchange) {
    && x.d.node == x.a
    && (x.b in x.owners ==> var w := x.owners[x.b]; x.call.held == w.items && Answers(w.items, w.keys, HeldAt(x, x.b), |HeldAt(x, x.b)|))
    && |x.replies| == |Sends(Asks(x), x.b, x.to)| && x.call.replies == Flat(x.replies, |x.replies|)
    && forall i :: 0 <= i < |x.replies| && Sends(Asks(x), x.b, x.to)[i] in x.owners ==>
         AnswersWith(x, Sends(Asks(x), x.b, x.to)[i], x.replies[i])
  }

  ghost predicate AnswersWith(x: Exchange, o: NodeId, reply: seq<Descriptor>)
    requires o in x.owners
  {
    var w := x.owners[o];
    Answers(w.items, w.keys, HeldAt(x, o), w.limit) && reply == Usable(x.asker, Fanout(Wrapped(w.items), x.fanout), w.replied)
  }

  /** Owner `o` serves the exchange. Each side is `o` or connected to it; it counts itself among the
      owners, takes the registration and spares it, is asked within the lease, and its answer is not
      cut and passes the asker's currency check. */
  ghost predicate Serves(x: Exchange, o: NodeId) {
    && o in x.owners && (o == x.a || o in x.from) && (o == x.b || o in x.to)
    && var w := x.owners[o];
      && Registers(w.c, w.st, x.route, x.d, w.wall, w.local)
      && (o == x.a || o in Rendezvous.OwnersFor(x.score, w.members, x.replicas))
      && (forall k :: 0 <= k < |w.later| ==>
            Spares(w.c, Meanwhile(w.c, Registered(w.st, x.route, x.d), w.later, k), w.later[k], x.route, x.d))
      && !Expired(x.d, w.asked)
      && (o == x.b || (|HeldAt(x, o)| <= Min(w.limit, x.fanout) && Current(x.asker, x.d, w.replied)))
  }

  lemma ServingApplies(x: Exchange, o: NodeId)
    requires Serves(x, o) && o in Tells(x)
    ensures Applies(x, o) && AfterTelling(x, o) == Registered(x.owners[o].st, x.route, x.d)
    ensures HeldAt(x, o) == Asked(x.owners[o].c, x.owners[o].st, x.route, x.d, x.owners[o].later, x.owners[o].asked)
  {
    hide Registers, Spares, Meanwhile, Expired, Current, Sends;
    SendsAre(Tells(x), x.a, x.from, o);
  }

  lemma {:induction false} FlatHolds(replies: seq<seq<Descriptor>>, n: nat, i: nat, d: Descriptor)
    requires i < n <= |replies| && d in replies[i]
    ensures d in Flat(replies, n)
  {
    if i < n - 1 {
      FlatHolds(replies, n - 1, i, d);
    }
  }

  /** A shared owner that is the asker itself: the session is in the local batch. */
  lemma MeetAtAsker(x: Exchange)
    requires Made(x) && Serves(x, x.b) && x.b in Tells(x)
    ensures x.d in x.call.held
  {
    hide Spares, Answers, Usable, Flat, Expired, Registers, Asked, HeldAt;
    ServingApplies(x, x.b);
    var w := x.owners[x.b];
    ServedAnswerHolds(w.c, w.st, x.route, x.d, w.later, w.asked, |HeldAt(x, x.b)|, w.items, w.keys);
  }

  /** A shared owner that the asker asks: the session is among the replies. */
  lemma MeetAtOwner(x: Exchange, o: NodeId)
    requires Made(x) && Serves(x, o) && o in Tells(x) && o in Asks(x) && o != x.b
    ensures x.d in x.call.replies
  {
    hide Spares, Answers, Usable, Flat, Expired, Registers, Asked, HeldAt, Current, Tells, Asks;
    ServingApplies(x, o);
    SendsAre(Asks(x), x.b, x.to, o);
    var w, sends := x.owners[o], Sends(Asks(x), x.b, x.to);
    var i :| 0 <= i < |sends| && sends[i] == o;
    assert AnswersWith(x, o, x.replies[i]);
    ServedAnswerHolds(w.c, w.st, x.route, x.d, w.later, w.asked, w.limit, w.items, w.keys);
    AnswerSize(w.items, w.keys, HeldAt(x, o), w.limit);
    UsableHolds(x.asker, w.items, x.d, x.fanout, w.replied);
    FlatHolds(x.replies, |x.replies|, i, x.d);
  }

  lemma AnswerSize(items: seq<Descriptor>, keys: seq<(NodeId, SessionId)>, entries: Entries, limit: nat)
    requires Answers(items, keys, entries, limit)
    ensures |items| <= |entries|
  {
  }

  /** The session is in the answer of `discover`, or the asker's cache refuses it, in the local batch
      or to the end of the replies. */
  ghost predicate Meets(x: Exchange) {
    || x.d.session in Discovered(x.asker, x.call)
    || (x.d in x.call.held && !Caches(x.asker, AfterLocal(x.asker, x.call), x.d, x.call.wall1, x.call.local1))
    || (x.d in x.call.replies && !Caches(x.asker, AtReturn(x.asker, x.call), x.d, x.call.wall2, x.call.local2))
  }

  lemma OfferedMeets(x: Exchange)
    requires x.d in x.call.held || x.d in x.call.replies
    ensures Meets(x)
  {
    hide Found, CacheEach, Caches;
    var c, call := x.asker, x.call;
    if x.d in call.replies {
      OfferedIsFound(c, BeforeReplies(c, call), call.replies, call.wall2, call.local2, LocalFinds(c, call), x.d);
    } else {
      OfferedIsFound(c, call.start, call.held, call.wall1, call.local1, map[], x.d);
      BatchIsVouched(c, BeforeReplies(c, call), call.replies, |call.replies|, call.wall2, call.local2, LocalFinds(c, call), x.d.session, 0);
    }
  }

  /** Registration and discovery meet. Let the two sides' memberships miss so few of each other's
      owners that more owners are shared than fail to serve. Then the asker gets the session, unless
      its cache refuses that descriptor - also where the shared owner is the registrar or the asker. */
  lemma RegistrationIsDiscovered(x: Exchange, failed: set<NodeId>)
    requires Made(x)
    requires forall o :: o in Tells(x) && o in Asks(x) && o !in failed ==> Serves(x, o)
    requires var a, b := Rendezvous.Elements(Tells(x)), Rendezvous.Elements(Asks(x));
      && |a - x.n| + |failed| < Min(Max(1, x.replicas), |x.m|)
      && |b - x.m| + |failed| < Min(Max(1, x.replicas), |x.n|)
    ensures Meets(x)
  {
    var o := SharedOwner(x, failed);
    hide Made, Serves, Meets, Tells, Asks;
    if o == x.b {
      MeetAtAsker(x);
    } else {
      MeetAtOwner(x, o);
    }
    OfferedMeets(x);
  }

  lemma SharedOwner(x: Exchange, failed: set<NodeId>) returns (o: NodeId)
    requires var a, b := Rendezvous.Elements(Tells(x)), Rendezvous.Elements(Asks(x));
      && |a - x.n| + |failed| < Min(Max(1, x.replicas), |x.m|)
      && |b - x.m| + |failed| < Min(Max(1, x.replicas), |x.n|)
    ensures o in Tells(x) && o in Asks(x) && o !in failed
  {
    hide Rendezvous.OwnersFor;
    Rendezvous.OwnerOverlap(x.score, x.m, x.n, x.replicas);
    var shared := Rendezvous.Elements(Tells(x)) * Rendezvous.Elements(Asks(x));
    if shared <= failed {
      Collections.SubsetSize(shared, failed);
    }
    o :| o in shared && o !in failed;
  }

  /** Descriptors as they arrive, all well formed. */
  function Wrapped(items: seq<Descriptor>): seq<Option<Descriptor>> {
    seq(|items|, i requires 0 <= i < |items| => Some(items[i]))
  }

  /** The descriptors of a ROUTE_RESULT that are well formed and current; None is a malformed one. */
  function Usable(c: Config, items: seq<Option<Descriptor>>, wall: real): (kept: seq<Descriptor>)
    ensures |kept| <= |items| && forall d :: d in kept <==> Some(d) in items && Current(c, d, wall)
  {
    if items == [] then []
    else
      var rest := Usable(c, items[1..], wall);
      if items[0].Some? && Current(c, items[0].value, wall) then [items[0].value] + rest else rest
  }

  /** The first `limit` items, or all. */
  function Fanout<T>(items: seq<T>, limit: nat): (first: seq<T>)
    ensures first <= items && |first| == Min(|items|, limit)
  {
    if |items| <= limit then items else items[..limit]
  }
}
