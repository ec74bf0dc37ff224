/** Flood control of the v1 relay (app/routes.py:258-285): ttl and dedupe. Messages are JSON
    objects; the dedupe key is a hash of canonical bytes, and the hash is an arbitrary function. */
module Flood {
  import opened Names
  import opened Numbers
  import opened Json
  import Collections
  import Canonical
  import ReplayTable
  import Utf8

  // ---- dictionaries ---------------------------------------------------------------

  function IndexOf(members: seq<Member>, key: string): (i: nat)
    ensures i <= |members| && (i < |members| ==> members[i].key == key)
  {
    if members == [] || members[0].key == key then 0 else 1 + IndexOf(members[1..], key)
  }

  /** `d.get(key)`. */
  function Find(members: seq<Member>, key: string): Option<Json> {
    var i := IndexOf(members, key);
    if i < |members| then Some(members[i].value) else None
  }

  /** `{**d, key: value}`: a key that is there keeps its place. */
  function Put(members: seq<Member>, key: string, value: Json): seq<Member> {
    var i := IndexOf(members, key);
    if i < |members| then members[i := Member(key, value)] else members + [Member(key, value)]
  }

  lemma {:induction false} NotBefore(members: seq<Member>, key: string, j: nat)
    requires j < |members| && members[j].key == key
    ensures IndexOf(members, key) <= j
  {
    if members[0].key != key {
      NotBefore(members[1..], key, j - 1);
    }
  }

  lemma IndexIsUnique(members: seq<Member>, key: string, j: nat)
    requires UniqueKeys(members) && j < |members| && members[j].key == key
    ensures IndexOf(members, key) == j
  {
    NotBefore(members, key, j);
    hide IndexOf;
  }

  lemma PutIs(members: seq<Member>, key: string, value: Json)
    requires UniqueKeys(members)
    ensures var put := Put(members, key, value);
      && UniqueKeys(put) && Canonical.Keys(put) == Canonical.Keys(members) + {key} && |members| <= |put|
      && (forall i :: 0 <= i < |put| && put[i].key == key ==> put[i].value == value)
      && (forall i :: 0 <= i < |put| && put[i].key != key ==> i < |members| && put[i] == members[i])
      && Find(put, key) == Some(value)
  {
    var put, at := Put(members, key, value), IndexOf(members, key);
    forall j | 0 <= j < |members| && members[j].key == key ensures j == at { IndexIsUnique(members, key, j); }
    IndexIsUnique(put, key, at);
    hide IndexOf;
    PutKeys(members, key, value);
  }

  lemma PutKeys(members: seq<Member>, key: string, value: Json)
    ensures Canonical.Keys(Put(members, key, value)) == Canonical.Keys(members) + {key}
  {
    hide IndexOf;
    var put := Put(members, key, value);
    forall k | k in Canonical.Keys(members) + {key} ensures k in Canonical.Keys(put) {
      if k == key {
        assert put[IndexOf(members, key)].key == key;
      } else {
        var m :| m in members && m.key == k;
        var i :| 0 <= i < |members| && members[i] == m;
        assert put[i] == m;
      }
    }
  }

  lemma PutAgain(members: seq<Member>, key: string, x: Json, y: Json)
    requires UniqueKeys(members)
    ensures Put(Put(members, key, x), key, y) == Put(members, key, y)
    ensures Find(members, key) == Some(y) ==> Put(members, key, y) == members
  {
    PutIs(members, key, x);
    IndexIsUnique(Put(members, key, x), key, IndexOf(members, key));
    hide IndexOf;
  }

  ghost predicate SamePayload(p: seq<Member>, q: seq<Member>) {
    Canonical.Same(Obj(p), Obj(q))
  }

  lemma PutKeepsSame(p: seq<Member>, q: seq<Member>, key: string, value: Json)
    requires WellFormed(Obj(p)) && WellFormed(Obj(q)) && WellFormed(value) && SamePayload(p, q)
    ensures SamePayload(Put(p, key, value), Put(q, key, value))
  {
    hide Put, WellFormed, Find, Canonical.CanonicalBytes, UniqueKeys, Canonical.Keys;
    assert UniqueKeys(p) && UniqueKeys(q) by { KeysAreUnique(p); KeysAreUnique(q); }
    PutIs(p, key, value);
    PutIs(q, key, value);
    Canonical.SameBytesIffSameValue(value, value);
    var a, b := Put(p, key, value), Put(q, key, value);
    forall i, j | 0 <= i < |a| && 0 <= j < |b| && a[i].key == b[j].key ensures Canonical.Same(a[i].value, b[j].value) {
      if a[i].key != key {
        assert a[i] == p[i] && b[j] == q[j];
      }
    }
  }

  lemma KeysAreUnique(p: seq<Member>)
    requires WellFormed(Obj(p))
    ensures UniqueKeys(p)
  {
  }

  lemma PutIsWellFormed(p: seq<Member>, key: string, value: Json)
    requires WellFormed(Obj(p)) && WellFormed(value)
    ensures WellFormed(Obj(Put(p, key, value)))
  {
    PutIs(p, key, value);
    hide Put;
    var put := Put(p, key, value);
    forall i | 0 <= i < |put| ensures WellFormed(put[i].value) {
      if put[i].key != key { assert put[i] == p[i]; }
    }
  }

  /** Same objects hold the same value under each key. */
  lemma FindSame(p: seq<Member>, q: seq<Member>, key: string)
    requires SamePayload(p, q)
    ensures Find(p, key).Some? <==> Find(q, key).Some?
    ensures Find(p, key).Some? ==> Canonical.Same(Find(p, key).value, Find(q, key).value)
  {
    FindsKey(p, key);
    FindsKey(q, key);
    hide IndexOf;
  }

  lemma FindsKey(p: seq<Member>, key: string)
    ensures Find(p, key).Some? <==> key in Canonical.Keys(p)
  {
    if key in Canonical.Keys(p) {
      var j :| 0 <= j < |p| && p[j].key == key;
      NotBefore(p, key, j);
    }
  }

  // ---- the relay --------------------------------------------------------------------

  /** The type and the payload of a SIGNAL, FORWARD or PUBLISH. */
  datatype Message = Message(kind: string, payload: seq<Member>)

  datatype Config = Config(window: real, capacity: nat, maxHops: nat, maxFanout: nat, hash: seq<Utf8.Byte> -> Key)

  /** What validation leaves of a message: unique keys, and a ttl that is absent, null or a
      small natural number (app/protocol.py:116-119). */
  predicate Valid(m: Message) {
    && WellFormed(Obj(m.payload))
    && (Find(m.payload, "ttl") in {None, Some(Null)}
        || (Find(m.payload, "ttl").value.Int? && 0 <= Find(m.payload, "ttl").value.number <= 16))
  }

  /** `payload.get("ttl", config.max_hops)`. */
  function Ttl(c: Config, payload: seq<Member>): Json {
    match Find(payload, "ttl")
    case Some(v) => v
    case None => Int(c.maxHops)
  }

  predicate Exhausted(c: Config, payload: seq<Member>) {
    Ttl(c, payload).Int? && Ttl(c, payload).number <= 0
  }

  function OutgoingPayload(c: Config, payload: seq<Member>): seq<Member> {
    var ttl := Ttl(c, payload);
    Put(payload, "ttl", if ttl.Int? then Int(ttl.number - 1) else ttl)
  }

  function RouteOf(payload: seq<Member>): Json {
    if Find(payload, "routeId").Some? then Find(payload, "routeId").value else Null
  }

  /** The object whose canonical bytes are hashed (app/routes.py:274). */
  function Hashed(m: Message): Json {
    Obj([Member("routeId", RouteOf(m.payload)), Member("type", Str(m.kind)), Member("payload", Obj(m.payload))])
  }

  function DedupeKey(c: Config, m: Message): Key {
    c.hash(Canonical.CanonicalBytes(Hashed(m)))
  }

  /** A client posts a message; `passes` says that the rate limit and the attachment check let it
      through, `subscribers` how many sessions could receive it. Others use the replay table too. */
  datatype Event = Post(message: Message, now: real, passes: bool, subscribers: nat) | Other(op: ReplayTable.Op)

  function At(e: Event): real {
    match e
    case Post(_, now, _, _) => now
    case Other(op) => op.now
  }

  function OpOf(c: Config, e: Event): seq<ReplayTable.Op> {
    match e
    case Post(message, now, passes, _) => if passes then [ReplayTable.Check(DedupeKey(c, message), c.window, now)] else []
    case Other(op) => [op]
  }

  /** What the replay table went through in the first `n` events. */
  function Ops(c: Config, events: seq<Event>, n: nat): seq<ReplayTable.Op>
    requires n <= |events|
  {
    if n == 0 then [] else Ops(c, events, n - 1) + OpOf(c, events[n - 1])
  }

  /** Event `i` is relayed: it passes, is not a duplicate and has hops left. */
  predicate Relayed(c: Config, events: seq<Event>, i: nat)
    requires i < |events|
  {
    var e := events[i];
    && e.Post? && e.passes
    && ReplayTable.Takes(Ops(c, events, i), DedupeKey(c, e.message), c.window, e.now, c.capacity)
    && !Exhausted(c, e.message.payload)
  }

  ghost predicate InOrder(events: seq<Event>) {
    forall i, j :: 0 <= i < j < |events| ==> At(events[i]) <= At(events[j])
  }

  ghost predicate AllValid(events: seq<Event>) {
    forall i :: 0 <= i < |events| && events[i].Post? ==> Valid(events[i].message)
  }

  lemma {:induction false} OpsGrow(c: Config, events: seq<Event>, i: nat, n: nat)
    requires i <= n <= |events|
    ensures Ops(c, events, i) <= Ops(c, events, n)
    decreases n
  {
    hide OpOf;
    if i < n {
      OpsGrow(c, events, i, n - 1);
    }
  }

  lemma {:induction false} OpsAreOrdered(c: Config, events: seq<Event>, n: nat)
    requires n <= |events| && InOrder(events)
    ensures ReplayTable.Ordered(Ops(c, events, n))
    ensures forall k :: 0 <= k < |Ops(c, events, n)| ==> n > 0 && Ops(c, events, n)[k].now <= At(events[n - 1])
  {
    if n > 0 {
      OpsAreOrdered(c, events, n - 1);
      hide DedupeKey;
    }
  }

  lemma HashedIsWellFormed(m: Message)
    requires WellFormed(Obj(m.payload))
    ensures WellFormed(Hashed(m))
  {
    var i := IndexOf(m.payload, "routeId");
    hide IndexOf;
    assert WellFormed(RouteOf(m.payload));
    assert "routeId" != "type" && "routeId" != "payload" && "type" != "payload";
  }

  /** Same messages have one dedupe key, whatever the order of their members. */
  lemma SameKey(c: Config, m: Message, n: Message)
    requires WellFormed(Obj(m.payload)) && WellFormed(Obj(n.payload))
    requires m.kind == n.kind && SamePayload(m.payload, n.payload)
    ensures DedupeKey(c, m) == DedupeKey(c, n)
  {
    HashedIsWellFormed(m);
    HashedIsWellFormed(n);
    FindSame(m.payload, n.payload, "routeId");
    hide WellFormed, Find, Canonical.CanonicalBytes;
    SameHashed(m, n);
    Canonical.SameBytesIffSameValue(Hashed(m), Hashed(n));
  }

  lemma SameHashed(m: Message, n: Message)
    requires m.kind == n.kind && SamePayload(m.payload, n.payload) && Canonical.Same(RouteOf(m.payload), RouteOf(n.payload))
    ensures Canonical.Same(Hashed(m), Hashed(n))
  {
    hide RouteOf;
    var a, b := Hashed(m).members, Hashed(n).members;
    assert "routeId" != "type" && "routeId" != "payload" && "type" != "payload";
    assert Canonical.Keys(a) == {"routeId", "type", "payload"} == Canonical.Keys(b) by {
      assert a[0] in a && a[1] in a && a[2] in a && b[0] in b && b[1] in b && b[2] in b;
    }
    assert Canonical.Same(Str(m.kind), Str(n.kind));
  }

  /** One message is relayed at most once per dedupe window. */
  lemma RelaysAreSpaced(c: Config, events: seq<Event>, i: nat, j: nat)
    requires i < j < |events| && InOrder(events) && AllValid(events) && Relayed(c, events, i) && Relayed(c, events, j)
    requires events[i].message.kind == events[j].message.kind
    requires SamePayload(events[i].message.payload, events[j].message.payload)
    ensures events[j].now >= events[i].now + c.window
  {
    hide Exhausted, DedupeKey, SamePayload, WellFormed, Find, ReplayTable.Ordered;
    var e, f := events[i], events[j];
    SameKey(c, e.message, f.message);
    OpsGrow(c, events, i + 1, j);
    OpsAreOrdered(c, events, j + 1);
    hide ReplayTable.Takes;
    ReplayTable.TakesAreSpaced(Ops(c, events, i), Ops(c, events, j), DedupeKey(c, e.message), c.window, e.now, f.now, c.capacity);
  }

  /** The hashed bytes tell messages apart: they are the same exactly for the same type and the same
      payload, whatever the order of members. */
  lemma SameHashedBytesIff(m: Message, n: Message)
    requires WellFormed(Obj(m.payload)) && WellFormed(Obj(n.payload))
    ensures Canonical.CanonicalBytes(Hashed(m)) == Canonical.CanonicalBytes(Hashed(n))
      <==> m.kind == n.kind && SamePayload(m.payload, n.payload)
  {
    HashedIsWellFormed(m);
    HashedIsWellFormed(n);
    Canonical.SameBytesIffSameValue(Hashed(m), Hashed(n));
    if m.kind == n.kind && SamePayload(m.payload, n.payload) {
      FindSame(m.payload, n.payload, "routeId");
      SameHashed(m, n);
    }
    hide WellFormed, RouteOf, Canonical.CanonicalBytes;
    if Canonical.Same(Hashed(m), Hashed(n)) {
      HashedParts(m, n);
    }
  }

  lemma HashedParts(m: Message, n: Message)
    requires Canonical.Same(Hashed(m), Hashed(n))
    ensures m.kind == n.kind && SamePayload(m.payload, n.payload)
  {
    hide RouteOf;
    var a, b := Hashed(m).members, Hashed(n).members;
    assert Canonical.Same(a[1].value, b[1].value) && Canonical.Same(a[2].value, b[2].value);
  }

  // ---- what the relay sends ---------------------------------------------------------------

  lemma FindIsMember(members: seq<Member>, key: string, value: Json)
    requires UniqueKeys(members)
    ensures Find(members, key) == Some(value) <==> Member(key, value) in members
  {
    if Member(key, value) in members {
      var j :| 0 <= j < |members| && members[j] == Member(key, value);
      IndexIsUnique(members, key, j);
    }
  }

  /** The message may be relayed once more: its ttl is no integer below one, and where it names none,
      max_hops is not zero. */
  ghost predicate HasHops(c: Config, payload: seq<Member>) {
    && (forall n :: Member("ttl", Int(n)) in payload ==> n >= 1)
    && ((forall v :: Member("ttl", v) !in payload) ==> c.maxHops >= 1)
  }

  lemma HasHopsIff(c: Config, payload: seq<Member>)
    requires UniqueKeys(payload)
    ensures HasHops(c, payload) <==> !Exhausted(c, payload)
  {
    var found := Find(payload, "ttl");
    forall v ensures found == Some(v) <==> Member("ttl", v) in payload {
      FindIsMember(payload, "ttl", v);
    }
    hide Find, UniqueKeys;
    assert found.Some? ==> Member("ttl", found.value) in payload;
  }

  /** `q` is `p` with one hop less: an integer ttl counts down, a null stays, and where there is none
      max_hops counts down; everything else is the same. */
  ghost predicate CountedDown(c: Config, p: seq<Member>, q: seq<Member>) {
    && UniqueKeys(q)
    && (forall m: Member :: m.key != "ttl" ==> (m in q <==> m in p))
    && (forall n :: Member("ttl", Int(n)) in p ==> Member("ttl", Int(n - 1)) in q)
    && (Member("ttl", Null) in p ==> Member("ttl", Null) in q)
    && ((forall v :: Member("ttl", v) !in p) ==> Member("ttl", Int(c.maxHops - 1)) in q)
  }

  lemma PutMembers(p: seq<Member>, key: string, value: Json, m: Member)
    requires UniqueKeys(p)
    ensures m in Put(p, key, value) <==> m == Member(key, value) || (m.key != key && m in p)
  {
    PutIs(p, key, value);
    FindIsMember(Put(p, key, value), key, value);
    if m in p && m.key != key {
      var j :| 0 <= j < |p| && p[j] == m;
      assert Put(p, key, value)[j] == m;
    }
    hide IndexOf;
  }

  lemma OutgoingCountsDown(c: Config, p: seq<Member>)
    requires Valid(Message("", p))
    ensures CountedDown(c, p, OutgoingPayload(c, p))
  {
    var ttl := Ttl(c, p);
    var next := if ttl.Int? then Int(ttl.number - 1) else ttl;
    KeysAreUnique(p);
    PutIs(p, "ttl", next);
    forall v ensures Find(p, "ttl") == Some(v) <==> Member("ttl", v) in p { FindIsMember(p, "ttl", v); }
    forall m ensures m in Put(p, "ttl", next) <==> m == Member("ttl", next) || (m.key != "ttl" && m in p) {
      PutMembers(p, "ttl", next, m);
    }
    hide Put, Find, UniqueKeys, WellFormed;
    assert Find(p, "ttl").Some? ==> Member("ttl", Find(p, "ttl").value) in p;
  }

  /** One payload counts down to one payload, up to the order of members. */
  lemma CountedDownOnce(c: Config, p: seq<Member>, q: seq<Member>, r: seq<Member>)
    requires Valid(Message("", p)) && CountedDown(c, p, q) && CountedDown(c, p, r)
    ensures WellFormed(Obj(q)) && SamePayload(q, r)
  {
    KeysAreUnique(p);
    var found := Find(p, "ttl");
    forall v ensures found == Some(v) <==> Member("ttl", v) in p { FindIsMember(p, "ttl", v); }
    hide Find;
    var next := if found == None then Int(c.maxHops - 1) else if found.value.Int? then Int(found.value.number - 1) else Null;
    assert found.Some? ==> Member("ttl", found.value) in p;
    assert Member("ttl", next) in q && Member("ttl", next) in r;
    OnlyTtl(q, next);
    OnlyTtl(r, next);
    assert forall m :: m in q <==> m in r;
    forall i | 0 <= i < |q| ensures WellFormed(q[i].value) {
      if q[i].key != "ttl" {
        assert q[i] in p;
      }
    }
    hide CountedDown;
    SameMembersSameValue(q, r);
  }

  lemma OnlyTtl(q: seq<Member>, next: Json)
    requires UniqueKeys(q) && Member("ttl", next) in q
    ensures forall m :: m in q && m.key == "ttl" ==> m.value == next
  {
  }

  lemma SameMembersSameValue(q: seq<Member>, r: seq<Member>)
    requires WellFormed(Obj(q)) && UniqueKeys(r) && forall m :: m in q <==> m in r
    ensures SamePayload(q, r)
  {
    forall k | k in Canonical.Keys(q) ensures k in Canonical.Keys(r) {
      var m :| m in q && m.key == k;
      assert m in r;
    }
    forall k | k in Canonical.Keys(r) ensures k in Canonical.Keys(q) {
      var m :| m in r && m.key == k;
      assert m in q;
    }
    forall i, j | 0 <= i < |q| && 0 <= j < |r| && q[i].key == r[j].key ensures Canonical.Same(q[i].value, r[j].value) {
      assert r[j] in q;
      assert q[i] == r[j];
      Canonical.SameItself(q[i].value);
    }
  }

  // ---- bodies and echoes ----------------------------------------------------------------

  /** A message with its ttl blanked out, in canonical bytes. */
  function Blank(payload: seq<Member>): seq<Utf8.Byte> {
    Canonical.CanonicalBytes(Obj(Put(payload, "ttl", Int(0))))
  }

  /** The same type and the same payload but for the ttl and the order of members. */
  predicate SameBody(m: Message, n: Message) {
    m.kind == n.kind && Blank(m.payload) == Blank(n.payload)
  }

  /** What SameBody means without canonical bytes. */
  lemma SameBodyIff(m: Message, n: Message)
    requires WellFormed(Obj(m.payload)) && WellFormed(Obj(n.payload))
    ensures SameBody(m, n) <==>
      m.kind == n.kind && SamePayload(Put(m.payload, "ttl", Int(0)), Put(n.payload, "ttl", Int(0)))
  {
    PutIsWellFormed(m.payload, "ttl", Int(0));
    PutIsWellFormed(n.payload, "ttl", Int(0));
    hide WellFormed, Put, Canonical.CanonicalBytes;
    Canonical.SameBytesIffSameValue(Obj(Put(m.payload, "ttl", Int(0))), Obj(Put(n.payload, "ttl", Int(0))));
  }

  /** One body and one ttl, or no ttl, make one message. */
  lemma SameBodyAndTtl(m: Message, n: Message)
    requires WellFormed(Obj(m.payload)) && WellFormed(Obj(n.payload)) && SameBody(m, n)
    requires Find(m.payload, "ttl") == Find(n.payload, "ttl")
    ensures SamePayload(m.payload, n.payload)
  {
    SameBodyIff(m, n);
    hide SameBody;
    if Find(m.payload, "ttl") == None {
      WithoutTtl(m.payload, n.payload);
    } else {
      var ttl := Find(m.payload, "ttl").value;
      assert WellFormed(ttl);
      PutIsWellFormed(m.payload, "ttl", Int(0));
      PutIsWellFormed(n.payload, "ttl", Int(0));
      PutAgain(m.payload, "ttl", Int(0), ttl);
      PutAgain(n.payload, "ttl", Int(0), ttl);
      hide Put, WellFormed, Find;
      PutKeepsSame(Put(m.payload, "ttl", Int(0)), Put(n.payload, "ttl", Int(0)), "ttl", ttl);
    }
  }

  /** Where neither object has a ttl, adding one to both hides no difference. */
  lemma WithoutTtl(p: seq<Member>, q: seq<Member>)
    requires WellFormed(Obj(p)) && WellFormed(Obj(q)) && Find(p, "ttl") == None == Find(q, "ttl")
    requires SamePayload(Put(p, "ttl", Int(0)), Put(q, "ttl", Int(0)))
    ensures SamePayload(p, q)
  {
    hide *;
    var a, b := Put(p, "ttl", Int(0)), Put(q, "ttl", Int(0));
    TtlAppended(p);
    TtlAppended(q);
    SameParts(a, b);
    forall i, j | 0 <= i < |p| && 0 <= j < |q| && p[i].key == q[j].key ensures Canonical.Same(p[i].value, q[j].value) {
      assert a[i] == p[i] && b[j] == q[j];
    }
    SameWhole(p, q);
  }

  lemma TtlAppended(p: seq<Member>)
    requires WellFormed(Obj(p)) && Find(p, "ttl") == None
    ensures var put := Put(p, "ttl", Int(0));
      put == p + [Member("ttl", Int(0))] && Canonical.Keys(p) == Canonical.Keys(put) - {"ttl"}
  {
    KeysAreUnique(p);
    PutIs(p, "ttl", Int(0));
    FindsKey(p, "ttl");
    var put := Put(p, "ttl", Int(0));
    assert put == p + [Member("ttl", Int(0))];
    hide Put, Find, WellFormed, UniqueKeys;
  }

  lemma SameParts(p: seq<Member>, q: seq<Member>)
    requires SamePayload(p, q)
    ensures Canonical.Keys(p) == Canonical.Keys(q)
    ensures forall i, j :: 0 <= i < |p| && 0 <= j < |q| && p[i].key == q[j].key ==> Canonical.Same(p[i].value, q[j].value)
  {
  }

  lemma SameWhole(p: seq<Member>, q: seq<Member>)
    requires Canonical.Keys(p) == Canonical.Keys(q)
    requires forall i, j :: 0 <= i < |p| && 0 <= j < |q| && p[i].key == q[j].key ==> Canonical.Same(p[i].value, q[j].value)
    ensures SamePayload(p, q)
  {
  }

  /** Event `i` posts what receivers of relay `j` got, its members in any order. */
  ghost predicate Echoes(c: Config, events: seq<Event>, j: nat, i: nat)
    requires j < i < |events|
  {
    && events[i].Post? && Relayed(c, events, j) && events[i].message.kind == events[j].message.kind
    && exists q :: CountedDown(c, events[j].message.payload, q) && SamePayload(events[i].message.payload, q)
  }

  lemma EchoIsOutgoing(c: Config, events: seq<Event>, j: nat, i: nat)
    requires j < i < |events| && AllValid(events)
    requires events[i].Post? && Relayed(c, events, j) && events[i].message.kind == events[j].message.kind
    ensures Echoes(c, events, j, i)
      <==> SamePayload(events[i].message.payload, OutgoingPayload(c, events[j].message.payload))
  {
    var p, out := events[j].message.payload, OutgoingPayload(c, events[j].message.payload);
    assert Valid(events[i].message) && Valid(events[j].message);
    assert Valid(Message("", p)) by { hide WellFormed; }
    OutgoingCountsDown(c, p);
    hide OutgoingPayload, Relayed, Valid;
    if q :| CountedDown(c, p, q) && SamePayload(events[i].message.payload, q) {
      CountedDownOnce(c, p, q, out);
      CountedDownOnce(c, p, out, out);
      hide CountedDown, WellFormed;
      SameChain(events[i].message.payload, q, out);
    }
  }

  lemma SameChain(p: seq<Member>, q: seq<Member>, r: seq<Member>)
    requires WellFormed(Obj(p)) && WellFormed(Obj(q)) && WellFormed(Obj(r)) && SamePayload(p, q) && SamePayload(q, r)
    ensures SamePayload(p, r)
  {
    hide WellFormed, Canonical.CanonicalBytes;
    Canonical.SameBytesIffSameValue(Obj(p), Obj(q));
    Canonical.SameBytesIffSameValue(Obj(q), Obj(r));
    Canonical.SameBytesIffSameValue(Obj(p), Obj(r));
  }

  /** Clients post `original` and echo what they receive of its body, in any order. */
  ghost predicate EchoRun(c: Config, events: seq<Event>, original: Message) {
    forall i :: 0 <= i < |events| && events[i].Post? && SameBody(events[i].message, original) ==> Grounded(c, events, i, original)
  }

  ghost predicate Grounded(c: Config, events: seq<Event>, i: nat, original: Message)
    requires i < |events| && events[i].Post?
  {
    SamePayload(events[i].message.payload, original.payload) || exists j :: 0 <= j < i && Echoes(c, events, j, i)
  }

  /** Same objects have the same ttl, unless it is neither absent nor a number. */
  lemma SameTtl(p: seq<Member>, q: seq<Member>)
    requires SamePayload(p, q) && (Find(q, "ttl") == None || Find(q, "ttl").value.Int?)
    ensures Find(p, "ttl") == Find(q, "ttl")
  {
    FindSame(p, q, "ttl");
    hide Find;
  }

  /** An echo has the body of what it echoes, and one hop less. */
  lemma EchoStep(c: Config, events: seq<Event>, j: nat, i: nat, t: int)
    requires j < i < |events| && AllValid(events) && Echoes(c, events, j, i)
    requires Ttl(c, events[j].message.payload) == Int(t)
    ensures t >= 1 && Find(events[i].message.payload, "ttl") == Some(Int(t - 1))
  {
    hide *;
    EchoParts(c, events, j, i);
    var p, q := events[i].message.payload, events[j].message.payload;
    EchoIsOutgoing(c, events, j, i);
    OutgoingTtl(c, q, t);
    SameTtl(p, OutgoingPayload(c, q));
    RelayHasHops(c, events, j, t);
  }

  lemma EchoParts(c: Config, events: seq<Event>, j: nat, i: nat)
    requires j < i < |events| && AllValid(events) && Echoes(c, events, j, i)
    ensures events[i].Post? && events[j].Post? && Relayed(c, events, j) && events[i].message.kind == events[j].message.kind
    ensures UniqueKeys(events[j].message.payload)
  {
    hide CountedDown, SamePayload, ReplayTable.Takes, Exhausted;
    assert Valid(events[j].message);
    KeysAreUnique(events[j].message.payload);
  }

  lemma OutgoingTtl(c: Config, q: seq<Member>, t: int)
    requires UniqueKeys(q) && Ttl(c, q) == Int(t)
    ensures Find(OutgoingPayload(c, q), "ttl") == Some(Int(t - 1))
  {
    PutIs(q, "ttl", Int(t - 1));
    hide Put, Find, Ttl;
  }

  lemma EchoBody(c: Config, events: seq<Event>, j: nat, i: nat)
    requires j < i < |events| && AllValid(events) && Echoes(c, events, j, i)
    ensures SameBody(events[i].message, events[j].message)
  {
    var m, n := events[i].message, events[j].message;
    EchoIsOutgoing(c, events, j, i);
    hide Relayed, SameBody, WellFormed, Find, Put;
    assert Valid(m) && Valid(n);
    OutgoingHasTheBody(c, n);
    OutgoingIsWellFormed(c, n);
    SameHasTheBody(m, Message(n.kind, OutgoingPayload(c, n.payload)));
    hide OutgoingPayload;
    BodyChain(Message(n.kind, OutgoingPayload(c, n.payload)), m, n);
  }

  lemma OutgoingIsWellFormed(c: Config, n: Message)
    requires WellFormed(Obj(n.payload))
    ensures WellFormed(Obj(OutgoingPayload(c, n.payload)))
  {
    hide Put, IndexOf;
    var ttl := Ttl(c, n.payload);
    assert WellFormed(ttl);
    PutIsWellFormed(n.payload, "ttl", if ttl.Int? then Int(ttl.number - 1) else ttl);
  }

  /** Relaying changes nothing but the ttl. */
  lemma OutgoingHasTheBody(c: Config, n: Message)
    requires WellFormed(Obj(n.payload))
    ensures SameBody(Message(n.kind, OutgoingPayload(c, n.payload)), n)
  {
    var ttl := Ttl(c, n.payload);
    PutAgain(n.payload, "ttl", if ttl.Int? then Int(ttl.number - 1) else ttl, Int(0));
    hide Put, WellFormed, Canonical.CanonicalBytes;
  }

  lemma SameHasTheBody(m: Message, n: Message)
    requires WellFormed(Obj(m.payload)) && WellFormed(Obj(n.payload)) && m.kind == n.kind && SamePayload(m.payload, n.payload)
    ensures SameBody(m, n)
  {
    assert WellFormed(Int(0));
    hide WellFormed, SameBody, Put;
    SameBodyIff(m, n);
    PutKeepsSame(m.payload, n.payload, "ttl", Int(0));
  }

  /** Along a run of echoes, every message of the body counts as an integer ttl of at most the
      original's; a smaller one is explicit, an equal one is spelled as in the original. */
  lemma TtlsStayBelow(c: Config, events: seq<Event>, original: Message, ttl: nat, i: nat) returns (t: nat)
    requires i < |events| && AllValid(events) && Valid(original) && EchoRun(c, events, original)
    requires Ttl(c, original.payload) == Int(ttl)
    requires events[i].Post? && SameBody(events[i].message, original)
    ensures t <= ttl && Ttl(c, events[i].message.payload) == Int(t)
    ensures Find(events[i].message.payload, "ttl") == if t == ttl then Find(original.payload, "ttl") else Some(Int(t))
    decreases i
  {
    hide Find, SameBody, Relayed, WellFormed, OutgoingPayload, SamePayload;
    assert Grounded(c, events, i, original);
    if SamePayload(events[i].message.payload, original.payload) {
      SameTtl(events[i].message.payload, original.payload);
      t := ttl;
    } else {
      var j :| 0 <= j < i && Echoes(c, events, j, i);
      EchoIsPost(c, events, j, i);
      EchoBody(c, events, j, i);
      BodyChain(events[j].message, events[i].message, original);
      var s := TtlsStayBelow(c, events, original, ttl, j);
      EchoStep(c, events, j, i, s);
      t := s - 1;
    }
  }

  lemma EchoIsPost(c: Config, events: seq<Event>, j: nat, i: nat)
    requires j < i < |events| && Echoes(c, events, j, i)
    ensures events[i].Post? && events[j].Post? && Relayed(c, events, j)
  {
  }

  lemma BodyChain(a: Message, b: Message, d: Message)
    ensures SameBody(b, a) && SameBody(b, d) ==> SameBody(a, d)
    ensures SameBody(b, a) && SameBody(a, d) ==> SameBody(b, d)
  {
  }

  // ---- the flood bound --------------------------------------------------------------------

  /** Event `i` is a relay of the body. */
  predicate RelaysBody(c: Config, events: seq<Event>, i: nat, original: Message)
    requires i < |events|
  {
    Relayed(c, events, i) && SameBody(events[i].message, original)
  }

  function Relays(c: Config, events: seq<Event>, lo: nat, hi: nat, original: Message): nat
    requires hi <= |events|
    decreases hi
  {
    if hi <= lo then 0 else Relays(c, events, lo, hi - 1, original) + if RelaysBody(c, events, hi - 1, original) then 1 else 0
  }

  /** How many sessions get a copy. */
  function Deliveries(c: Config, events: seq<Event>, lo: nat, hi: nat, original: Message): nat
    requires hi <= |events|
    decreases hi
  {
    if hi <= lo then 0
    else
      var e := events[hi - 1];
      Deliveries(c, events, lo, hi - 1, original)
        + if !RelaysBody(c, events, hi - 1, original) then 0 else if e.subscribers <= c.maxFanout then e.subscribers else c.maxFanout
  }

  /** The ttl of event `i` as the relay counts it, if it is an integer. */
  function TtlAt(c: Config, events: seq<Event>, i: nat): int
    requires i < |events|
  {
    if events[i].Post? && Ttl(c, events[i].message.payload).Int? then Ttl(c, events[i].message.payload).number else 0
  }

  ghost function Ttls(c: Config, events: seq<Event>, lo: nat, hi: nat, original: Message): set<Json>
    requires hi <= |events|
    decreases hi
  {
    if hi <= lo then {}
    else Ttls(c, events, lo, hi - 1, original) + if RelaysBody(c, events, hi - 1, original) then {Int(TtlAt(c, events, hi - 1))} else {}
  }

  lemma {:induction false} TtlsAre(c: Config, events: seq<Event>, lo: nat, hi: nat, original: Message, t: Json)
    returns (i: nat)
    requires hi <= |events| && t in Ttls(c, events, lo, hi, original)
    ensures lo <= i < hi && RelaysBody(c, events, i, original) && Int(TtlAt(c, events, i)) == t
    decreases hi
  {
    hide RelaysBody, TtlAt;
    if t in Ttls(c, events, lo, hi - 1, original) {
      i := TtlsAre(c, events, lo, hi - 1, original, t);
    } else {
      i := hi - 1;
    }
  }

  /** Two relays of the body with one ttl lie at least a window apart. */
  lemma OneRelayPerTtl(c: Config, events: seq<Event>, original: Message, ttl: nat, i: nat, j: nat)
    requires i < j < |events| && InOrder(events) && AllValid(events) && Valid(original) && EchoRun(c, events, original)
    requires Ttl(c, original.payload) == Int(ttl)
    requires RelaysBody(c, events, i, original) && RelaysBody(c, events, j, original) && TtlAt(c, events, i) == TtlAt(c, events, j)
    ensures At(events[j]) >= At(events[i]) + c.window
  {
    var m, n := events[i].message, events[j].message;
    var s := TtlsStayBelow(c, events, original, ttl, i);
    var t := TtlsStayBelow(c, events, original, ttl, j);
    SameBodyAndTtl(m, n);
    RelaysAreSpaced(c, events, i, j);
  }

  lemma RelayTtlIsPositive(c: Config, events: seq<Event>, original: Message, ttl: nat, i: nat)
    requires i < |events| && AllValid(events) && Valid(original) && EchoRun(c, events, original)
    requires Ttl(c, original.payload) == Int(ttl) && RelaysBody(c, events, i, original)
    ensures 1 <= TtlAt(c, events, i) <= ttl
  {
    var t := TtlsStayBelow(c, events, original, ttl, i);
    hide SameBody, EchoRun, AllValid, ReplayTable.Takes;
  }

  lemma NewTtl(c: Config, events: seq<Event>, original: Message, ttl: nat, lo: nat, hi: nat)
    requires lo < hi <= |events| && InOrder(events) && AllValid(events) && Valid(original) && EchoRun(c, events, original)
    requires Ttl(c, original.payload) == Int(ttl)
    requires At(events[hi - 1]) < At(events[lo]) + c.window && RelaysBody(c, events, hi - 1, original)
    ensures Int(TtlAt(c, events, hi - 1)) !in Ttls(c, events, lo, hi - 1, original)
  {
    hide RelaysBody, TtlAt, Ttl, AllValid, EchoRun, Valid;
    if Int(TtlAt(c, events, hi - 1)) in Ttls(c, events, lo, hi - 1, original) {
      var i := TtlsAre(c, events, lo, hi - 1, original, Int(TtlAt(c, events, hi - 1)));
      OneRelayPerTtl(c, events, original, ttl, i, hi - 1);
      assert false;
    }
  }

  /** Within one window, relays of the body have different ttls. */
  lemma {:induction false} RelaysAreTtls(c: Config, events: seq<Event>, original: Message, ttl: nat, lo: nat, hi: nat)
    requires lo <= hi <= |events| && InOrder(events) && AllValid(events) && Valid(original) && EchoRun(c, events, original)
    requires Ttl(c, original.payload) == Int(ttl)
    requires lo < hi ==> At(events[hi - 1]) < At(events[lo]) + c.window
    ensures Relays(c, events, lo, hi, original) == |Ttls(c, events, lo, hi, original)|
    ensures forall t :: t in Ttls(c, events, lo, hi, original) ==> t.Int? && 1 <= t.number <= ttl
    decreases hi
  {
    hide RelaysBody, TtlAt, Ttl, AllValid, EchoRun, Valid;
    if lo < hi {
      assert lo < hi - 1 ==> At(events[hi - 2]) <= At(events[hi - 1]);
      hide InOrder, At;
      RelaysAreTtls(c, events, original, ttl, lo, hi - 1);
      if RelaysBody(c, events, hi - 1, original) {
        RelayTtlIsPositive(c, events, original, ttl, hi - 1);
        NewTtl(c, events, original, ttl, lo, hi);
      }
    }
  }

  ghost function UpTo(n: nat): set<Json> {
    if n == 0 then {} else UpTo(n - 1) + {Int(n)}
  }

  lemma {:induction false} UpToIs(n: nat)
    ensures |UpTo(n)| == n && forall t :: t in UpTo(n) <==> t.Int? && 1 <= t.number <= n
  {
    if n > 0 {
      UpToIs(n - 1);
    }
  }

  lemma AtMost(s: set<Json>, n: nat)
    requires forall t :: t in s ==> t.Int? && 1 <= t.number <= n
    ensures |s| <= n
  {
    UpToIs(n);
    Collections.SubsetSize(s, UpTo(n));
  }

  lemma {:induction false} DeliveriesPerRelay(c: Config, events: seq<Event>, lo: nat, hi: nat, original: Message)
    requires hi <= |events|
    ensures Deliveries(c, events, lo, hi, original) <= Relays(c, events, lo, hi, original) * c.maxFanout
    decreases hi
  {
    hide RelaysBody;
    if lo < hi {
      DeliveriesPerRelay(c, events, lo, hi - 1, original);
      var r := Relays(c, events, lo, hi - 1, original);
      assert (r + 1) * c.maxFanout == r * c.maxFanout + c.maxFanout;
    }
  }

  /** The flood bound: in any dedupe window, a body posted with ttl T - max_hops when it names
      none - and echoed in any order, by anyone, is relayed at most T times and delivered at most
      T x max_fanout times. */
  lemma FloodBound(c: Config, events: seq<Event>, original: Message, ttl: nat, lo: nat, hi: nat)
    requires lo <= hi <= |events| && InOrder(events) && AllValid(events) && Valid(original) && EchoRun(c, events, original)
    requires Ttl(c, original.payload) == Int(ttl)
    requires lo < hi ==> At(events[hi - 1]) < At(events[lo]) + c.window
    ensures Relays(c, events, lo, hi, original) <= ttl
    ensures Deliveries(c, events, lo, hi, original) <= ttl * c.maxFanout
  {
    RelaysAreTtls(c, events, original, ttl, lo, hi);
    AtMost(Ttls(c, events, lo, hi, original), ttl);
    DeliveriesPerRelay(c, events, lo, hi, original);
    hide Relays, Deliveries, EchoRun, AllValid;
    ProductGrows(Relays(c, events, lo, hi, original), ttl, c.maxFanout);
  }

  /** Each event of a chain echoes the one before, and the last one is relayed too. */
  ghost predicate EchoChain(c: Config, events: seq<Event>, chain: seq<nat>) {
    && (forall k :: 0 <= k < |chain| ==> chain[k] < |events| && Relayed(c, events, chain[k]))
    && (forall k :: 0 < k < |chain| ==> chain[k - 1] < chain[k] && Echoes(c, events, chain[k - 1], chain[k]))
  }

  /** Every echo chain that starts with ttl T has at most T relays, dedupe or not. */
  lemma {:induction false} ChainsAreShort(c: Config, events: seq<Event>, chain: seq<nat>, ttl: nat, k: nat)
    requires AllValid(events) && EchoChain(c, events, chain) && k < |chain|
    requires Ttl(c, events[chain[0]].message.payload) == Int(ttl)
    ensures Ttl(c, events[chain[k]].message.payload) == Int(ttl - k)
    ensures k < ttl
  {
    hide Relayed, Echoes, AllValid, Find;
    if k > 0 {
      ChainsAreShort(c, events, chain, ttl, k - 1);
      EchoStep(c, events, chain[k - 1], chain[k], ttl - (k - 1));
    }
    RelayHasHops(c, events, chain[k], ttl - k);
  }

  lemma RelayHasHops(c: Config, events: seq<Event>, i: nat, t: int)
    requires i < |events| && Relayed(c, events, i) && Ttl(c, events[i].message.payload) == Int(t)
    ensures t >= 1
  {
    hide ReplayTable.Takes, Ttl;
  }

  // ---- an explicit null ttl ------------------------------------------------------------------

  /** A relay counts down exactly when the ttl is not an explicit null; a null stays as it is. */
  lemma CountsDownIffNotNull(c: Config, m: Message)
    requires Valid(m) && !Exhausted(c, m.payload)
    ensures var next := Find(OutgoingPayload(c, m.payload), "ttl");
      (next.Some? && next.value.Int? && next.value.number == Ttl(c, m.payload).number - 1 && Ttl(c, m.payload).Int?)
      <==> Find(m.payload, "ttl") != Some(Null)
    ensures Find(m.payload, "ttl") == Some(Null) ==> OutgoingPayload(c, m.payload) == m.payload
  {
    var ttl := Ttl(c, m.payload);
    PutIs(m.payload, "ttl", if ttl.Int? then Int(ttl.number - 1) else ttl);
    if Find(m.payload, "ttl") == Some(Null) {
      PutAgain(m.payload, "ttl", Null, Null);
    }
    hide Put, IndexOf;
  }

  /** The instant `i` windows after the start. */
  function Turn(window: real, i: nat): real {
    if i == 0 then 0.0 else Turn(window, i - 1) + window
  }

  lemma {:induction false} TurnsGrow(window: real, i: nat, j: nat)
    requires window >= 0.0 && i <= j
    ensures Turn(window, i) <= Turn(window, j)
    decreases j
  {
    if i < j {
      TurnsGrow(window, i, j - 1);
    }
  }

  /** The same message once per window. */
  function Repeated(c: Config, m: Message, n: nat): seq<Event> {
    seq(n, i requires 0 <= i < n => Post(m, Turn(c.window, i), true, 1))
  }

  /** The table with the one mark that the turns before `i` left. */
  function OneMark(key: Key, window: real, i: nat): ReplayTable.Table {
    if i == 0 then map[] else map[key := Turn(window, i)]
  }

  lemma MarkTurn(key: Key, window: real, i: nat, capacity: nat)
    requires capacity >= 1
    ensures ReplayTable.CheckAndMark(OneMark(key, window, i), capacity, key, window, Turn(window, i))
      == (OneMark(key, window, i + 1), true)
  {
    if i > 0 {
      assert OneMark(key, window, i)[key := Turn(window, i) + window] == map[key := Turn(window, i) + window];
    }
  }

  lemma {:induction false} RepeatedTable(c: Config, m: Message, n: nat, i: nat)
    requires i <= n && c.capacity >= 1
    ensures var ops := Ops(c, Repeated(c, m, n), i);
      && |ops| == i
      && ReplayTable.After(ops, i, c.capacity) == OneMark(DedupeKey(c, m), c.window, i)
      && ReplayTable.Takes(ops, DedupeKey(c, m), c.window, Turn(c.window, i), c.capacity)
  {
    hide DedupeKey, OneMark, Turn, ReplayTable.CheckAndMark;
    MarkTurn(DedupeKey(c, m), c.window, i, c.capacity);
    if i == 0 {
      assert OneMark(DedupeKey(c, m), c.window, 0) == map[] by { NoMark(DedupeKey(c, m), c.window); }
    } else {
      RepeatedTable(c, m, n, i - 1);
      MarkTurn(DedupeKey(c, m), c.window, i - 1, c.capacity);
      var before, ops := Ops(c, Repeated(c, m, n), i - 1), Ops(c, Repeated(c, m, n), i);
      assert ops == before + [ReplayTable.Check(DedupeKey(c, m), c.window, Turn(c.window, i - 1))];
      ReplayTable.AfterIgnoresLater(before, ops, i - 1, c.capacity);
    }
  }

  lemma NoMark(key: Key, window: real)
    ensures OneMark(key, window, 0) == map[]
  {
  }

  lemma RepeatedIsRelayed(c: Config, m: Message, n: nat, i: nat)
    requires i < n && c.capacity >= 1 && Find(m.payload, "ttl") == Some(Null)
    ensures Relayed(c, Repeated(c, m, n), i)
  {
    RepeatedTable(c, m, n, i);
    hide ReplayTable.Takes, DedupeKey, Find;
  }

  /** So without an integer ttl the flood bound fails: one message with an explicit null ttl can
      be echoed for ever, each echo relayed, once per dedupe window. */
  lemma NullTtlEchoesForever(c: Config, m: Message, n: nat) returns (events: seq<Event>)
    requires Valid(m) && Find(m.payload, "ttl") == Some(Null) && c.capacity >= 1 && c.window >= 0.0
    ensures |events| == n && InOrder(events) && AllValid(events) && EchoRun(c, events, m)
    ensures EchoChain(c, events, seq(n, i => i))
    ensures n > 0 ==> events[0].Post? && SamePayload(events[0].message.payload, m.payload)
  {
    events := Repeated(c, m, n);
    CountsDownIffNotNull(c, m) by { NullIsNotExhausted(c, m); }
    Canonical.SameBytesIffSameValue(Obj(m.payload), Obj(m.payload));
    forall i | 0 <= i < n ensures Relayed(c, events, i) {
      RepeatedIsRelayed(c, m, n, i);
    }
    forall i, j | 0 <= i < j < n ensures Turn(c.window, i) <= Turn(c.window, j) {
      TurnsGrow(c.window, i, j);
    }
    hide Relayed, Canonical.Same, Canonical.CanonicalBytes, Find, SameBody, OutgoingPayload, Valid, Turn;
  }

  /** A chain of relays that starts with the original, in a run of its echoes. */
  ghost predicate ChainFrom(c: Config, m: Message, events: seq<Event>, chain: seq<nat>) {
    && AllValid(events) && InOrder(events) && EchoRun(c, events, m) && EchoChain(c, events, chain)
    && (chain != [] ==> SamePayload(events[chain[0]].message.payload, m.payload))
  }

  ghost predicate ChainsWithin(c: Config, m: Message, bound: nat) {
    forall events, chain :: ChainFrom(c, m, events, chain) ==> |chain| <= bound
  }

  /** So the length of echo chains is bounded if and only if the ttl is not an explicit null;
      then the bound is the ttl, or max_hops where none is given. */
  lemma BoundedIffNotNull(c: Config, m: Message)
    requires Valid(m) && c.capacity >= 1 && c.window >= 0.0
    ensures (exists bound: nat :: ChainsWithin(c, m, bound)) <==> Find(m.payload, "ttl") != Some(Null)
    ensures Find(m.payload, "ttl") != Some(Null) ==> ChainsWithin(c, m, Ttl(c, m.payload).number)
  {
    if Find(m.payload, "ttl") == Some(Null) {
      forall bound: nat ensures !ChainsWithin(c, m, bound) {
        UnboundedChains(c, m, bound);
      }
    } else {
      var ttl := Ttl(c, m.payload).number;
      forall events, chain | ChainFrom(c, m, events, chain) ensures |chain| <= ttl {
        ChainFromIsShort(c, m, events, chain, ttl);
      }
      assert ChainsWithin(c, m, ttl);
    }
  }

  lemma ChainFromIsShort(c: Config, m: Message, events: seq<Event>, chain: seq<nat>, ttl: nat)
    requires Valid(m) && Ttl(c, m.payload) == Int(ttl) && ChainFrom(c, m, events, chain)
    ensures |chain| <= ttl
  {
    if chain != [] {
      SameTtl(events[chain[0]].message.payload, m.payload);
      hide Find, EchoRun, SamePayload;
      ChainsAreShort(c, events, chain, ttl, |chain| - 1);
    }
  }

  lemma UnboundedChains(c: Config, m: Message, bound: nat)
    requires Valid(m) && Find(m.payload, "ttl") == Some(Null) && c.capacity >= 1 && c.window >= 0.0
    ensures !ChainsWithin(c, m, bound)
  {
    var events := NullTtlEchoesForever(c, m, bound + 1);
    var chain := seq(bound + 1, i => i);
    assert ChainFrom(c, m, events, chain) by {
      hide Relayed, EchoRun, EchoChain, AllValid, InOrder, Canonical.Same;
    }
    assert |chain| > bound;
  }

  lemma NullIsNotExhausted(c: Config, m: Message)
    requires Find(m.payload, "ttl") == Some(Null)
    ensures !Exhausted(c, m.payload)
  {
    hide Find;
  }
}