/** Rendezvous-hash route ownership (app/node_mesh.py:147-155): the top replicas of a member
    set by descending digest, ties broken by ascending node id. SHA-256 is an arbitrary
    function; `score` is the digest of one route tag with each node id, read as a number. */
module Rendezvous {
  import Text
  import opened Names
  import opened Numbers
  import Collections

  type Score = NodeId -> nat

  predicate IdLess(x: NodeId, y: NodeId) {
    Text.Less(x.text, y.text)
  }

  /** Whether `x` ranks strictly before `y`. */
  predicate Before(score: Score, x: NodeId, y: NodeId) {
    score(x) > score(y) || (score(x) == score(y) && IdLess(x, y))
  }

  lemma IdOrder(x: NodeId, y: NodeId)
    ensures x == y || IdLess(x, y) || IdLess(y, x)
    ensures !(IdLess(x, y) && IdLess(y, x))
  {
    Text.LessIsTotal(x.text, y.text);
  }

  lemma BeforeIsTotal(score: Score, x: NodeId, y: NodeId)
    ensures x == y || Before(score, x, y) || Before(score, y, x)
    ensures !(Before(score, x, y) && Before(score, y, x))
  {
    IdOrder(x, y);
  }

  // ---------------------------------------------------------------------------
  // The two sorts of the source.

  lemma {:induction false} LeastId(members: set<NodeId>) returns (least: NodeId)
    requires members != {}
    ensures least in members && forall m :: m in members && m != least ==> IdLess(least, m)
  {
    var first :| first in members;
    least := first;
    if members != {first} {
      var other := LeastId(members - {first});
      IdOrder(first, other);
      if IdLess(other, first) {
        least := other;
      } else {
        forall m | m in members && m != first ensures IdLess(first, m) {
          if m != other {
            assert m in members - {first};
            Text.LessIsTransitive(first.text, other.text, m.text);
          }
        }
      }
    }
  }

  /** `sorted(members)`: ascending by id. */
  ghost function SortedIds(members: set<NodeId>): seq<NodeId> {
    if members == {} then []
    else
      assert exists x :: x in members && forall m :: m in members && m != x ==> IdLess(x, m) by {
        var x := LeastId(members);
      }
      var x :| x in members && forall m :: m in members && m != x ==> IdLess(x, m);
      [x] + SortedIds(members - {x})
  }

  /** One insertion of a stable descending sort: `x` stood before all of `sorted`. */
  function Insert(score: Score, x: NodeId, sorted: seq<NodeId>): seq<NodeId> {
    if sorted == [] || score(sorted[0]) <= score(x) then [x] + sorted
    else [sorted[0]] + Insert(score, x, sorted[1..])
  }

  /** `sorted(nodes, key=score, reverse=True)`, which is stable. */
  function StableDescending(score: Score, nodes: seq<NodeId>): seq<NodeId> {
    if nodes == [] then [] else Insert(score, nodes[0], StableDescending(score, nodes[1..]))
  }

  ghost function Ranked(score: Score, members: set<NodeId>): seq<NodeId> {
    StableDescending(score, SortedIds(members))
  }

  function Count(replicas: nat, size: nat): nat {
    var wanted := if replicas < 1 then 1 else replicas;
    if wanted < size then wanted else size
  }

  ghost function OwnersFor(score: Score, members: set<NodeId>, replicas: nat): (owners: seq<NodeId>) {
    var ranked := Ranked(score, members);
    if Count(replicas, |members|) <= |ranked| then ranked[..Count(replicas, |members|)] else ranked
  }

  ghost function Elements(nodes: seq<NodeId>): set<NodeId> {
    set n | n in nodes
  }

  /** Every element ranks before all later ones. */
  ghost predicate InRankOrder(score: Score, nodes: seq<NodeId>) {
    forall i, j :: 0 <= i < j < |nodes| ==> Before(score, nodes[i], nodes[j])
  }

  ghost predicate IdAfterAll(x: NodeId, nodes: seq<NodeId>) {
    forall n :: n in nodes ==> IdLess(x, n)
  }

  lemma {:induction false} InsertRanks(score: Score, x: NodeId, sorted: seq<NodeId>)
    requires InRankOrder(score, sorted) && IdAfterAll(x, sorted)
    ensures InRankOrder(score, Insert(score, x, sorted))
    ensures Elements(Insert(score, x, sorted)) == Elements(sorted) + {x}
    ensures |Insert(score, x, sorted)| == |sorted| + 1
  {
    var all := Insert(score, x, sorted);
    if sorted == [] {
    } else if score(sorted[0]) <= score(x) {
      forall n | n in sorted ensures Before(score, x, n) {
        var i :| 0 <= i < |sorted| && sorted[i] == n;
        assert i > 0 ==> Before(score, sorted[0], sorted[i]);
      }
      forall i, j | 0 <= i < j < |all| ensures Before(score, all[i], all[j]) {
        if i == 0 {
          assert all[j] in sorted;
        } else {
          assert all[i] == sorted[i - 1] && all[j] == sorted[j - 1];
        }
      }
      assert Elements(all) == Elements(sorted) + {x};
    } else {
      var head, tail := sorted[0], sorted[1..];
      forall n | n in tail ensures Before(score, head, n) {
        var i :| 0 <= i < |tail| && tail[i] == n;
        assert sorted[i + 1] == n;
      }
      InsertRanks(score, x, tail);
      var rest := Insert(score, x, tail);
      forall i, j | 0 <= i < j < |all| ensures Before(score, all[i], all[j]) {
        if i == 0 {
          assert all[j] == rest[j - 1] && rest[j - 1] in Elements(rest);
        } else {
          assert all[i] == rest[i - 1] && all[j] == rest[j - 1];
        }
      }
      assert Elements(all) == {head} + Elements(rest);
      assert Elements(sorted) == {head} + Elements(tail);
    }
  }

  /** The list the source ranks: every member once, in rank order. */
  lemma {:induction false} RankedIsInOrder(score: Score, members: set<NodeId>)
    ensures InRankOrder(score, Ranked(score, members))
    ensures Elements(Ranked(score, members)) == members && |Ranked(score, members)| == |members|
  {
    if members != {} {
      var ids := SortedIds(members);
      var x := ids[0];
      assert ids[1..] == SortedIds(members - {x});
      RankedIsInOrder(score, members - {x});
      var rest := Ranked(score, members - {x});
      forall n | n in rest ensures IdLess(x, n) {
        assert n in Elements(rest);
      }
      InsertRanks(score, x, rest);
    }
  }

  // ---------------------------------------------------------------------------
  // What ownership means: the best-ranked members and no others.

  /** `owners` are members, and whoever ranks before one of them is one of them. */
  ghost predicate TopOf(score: Score, members: set<NodeId>, owners: set<NodeId>) {
    && owners <= members
    && forall x, y :: x in owners && y in members && Before(score, y, x) ==> y in owners
  }

  /** The owners are the best-ranked members, best first - by descending digest, equal ones by
      ascending id - and as many as there are replicas: at least one, at most every member. */
  lemma OwnersAreTop(score: Score, members: set<NodeId>, replicas: nat)
    ensures var owners := OwnersFor(score, members, replicas);
      && InRankOrder(score, owners) && |owners| == |Elements(owners)| == Min(Max(1, replicas), |members|)
      && TopOf(score, members, Elements(owners))
      && (forall i, j :: 0 <= i < j < |owners| ==>
           score(owners[i]) > score(owners[j]) || (score(owners[i]) == score(owners[j]) && Text.Less(owners[i].text, owners[j].text)))
      && (forall x, y :: x in owners && y in members && y !in owners ==>
           score(x) > score(y) || (score(x) == score(y) && Text.Less(x.text, y.text)))
  {
    BestOwners(score, members, replicas);
    var owners := OwnersFor(score, members, replicas);
    hide OwnersFor;
    forall x, y | x in owners && y in members && y !in owners ensures Before(score, x, y) {
      assert x in Elements(owners) && x != y;
      assert y !in Elements(owners);
      BeforeIsTotal(score, x, y);
    }
  }

  lemma BestOwners(score: Score, members: set<NodeId>, replicas: nat)
    ensures var owners := OwnersFor(score, members, replicas);
      && InRankOrder(score, owners) && |owners| == |Elements(owners)| == Min(Max(1, replicas), |members|)
      && TopOf(score, members, Elements(owners))
  {
    RankedIsInOrder(score, members);
    var ranked, owners := Ranked(score, members), OwnersFor(score, members, replicas);
    forall x, y | x in Elements(owners) && y in members && Before(score, y, x) ensures y in Elements(owners) {
      var i :| 0 <= i < |owners| && owners[i] == x;
      assert y in Elements(ranked);
      var j :| 0 <= j < |ranked| && ranked[j] == y;
      if j > i {
        BeforeIsTotal(score, ranked[i], ranked[j]);
      } else {
        assert owners[j] == y;
      }
    }
    forall x | x in Elements(owners) ensures x in members {
      assert x in Elements(ranked);
    }
    RankedHasNoDuplicates(score, owners);
  }

  lemma {:induction false} RankedHasNoDuplicates(score: Score, nodes: seq<NodeId>)
    requires InRankOrder(score, nodes)
    ensures |Elements(nodes)| == |nodes|
  {
    if nodes != [] {
      RankedHasNoDuplicates(score, nodes[1..]);
      if nodes[0] in nodes[1..] {
        var i :| 0 <= i < |nodes| - 1 && nodes[1..][i] == nodes[0];
        BeforeIsTotal(score, nodes[0], nodes[i + 1]);
      }
      assert Elements(nodes) == {nodes[0]} + Elements(nodes[1..]);
    }
  }

  /** Of two top sets seen from both memberships, one contains the other. */
  lemma TopSetsNest(score: Score, m: set<NodeId>, n: set<NodeId>, a: set<NodeId>, b: set<NodeId>)
    requires TopOf(score, m, a) && TopOf(score, n, b)
    ensures a * n <= b * m || b * m <= a * n
  {
    if !(a * n <= b * m) {
      var u :| u in a * n && u !in b * m;
      forall v | v in b * m ensures v in a * n {
        BeforeIsTotal(score, u, v);
      }
    }
  }

  /** Rendezvous overlap. Two member sets M and N agree on as many owners of a tag as the side
      that misses more leaves: |A ∩ B| = min(|A| - |A \ N|, |B| - |B \ M|). With both sizes at
      least k this is k - max(|A \ N|, |B \ M|). */
  lemma OwnerOverlap(score: Score, m: set<NodeId>, n: set<NodeId>, replicas: nat)
    ensures var a, b := Elements(OwnersFor(score, m, replicas)), Elements(OwnersFor(score, n, replicas));
      && |a * b| == Min(|a| - |a - n|, |b| - |b - m|)
      && (a * b != {} <==> |a - n| < |a| && |b - m| < |b|)
      && |a| == Min(Max(1, replicas), |m|) && |b| == Min(Max(1, replicas), |n|)
  {
    OwnersAreTop(score, m, replicas);
    OwnersAreTop(score, n, replicas);
    var a, b := Elements(OwnersFor(score, m, replicas)), Elements(OwnersFor(score, n, replicas));
    hide TopOf, OwnersFor, Elements;
    Nested(score, m, n, a, b);
  }

  lemma Nested(score: Score, m: set<NodeId>, n: set<NodeId>, a: set<NodeId>, b: set<NodeId>)
    requires TopOf(score, m, a) && TopOf(score, n, b)
    ensures |a * b| == Min(|a| - |a - n|, |b| - |b - m|)
    ensures a * b != {} <==> |a - n| < |a| && |b - m| < |b|
  {
    TopSetsNest(score, m, n, a, b);
    Collections.SplitSize(a, n);
    Collections.SplitSize(b, m);
    if a * n <= b * m {
      assert a * b == a * n;
      Collections.SubsetSize(a * n, b * m);
    } else {
      assert a * b == b * m;
      Collections.SubsetSize(b * m, a * n);
    }
    assert a * b != {} <==> |a * b| > 0;
  }

  // ---------------------------------------------------------------------------
  // Membership changes one node at a time.

  /** A set has only one list in rank order. */
  lemma {:induction false} RankOrderIsUnique(score: Score, s: seq<NodeId>, t: seq<NodeId>)
    requires InRankOrder(score, s) && InRankOrder(score, t) && Elements(s) == Elements(t)
    ensures s == t
  {
    RankedHasNoDuplicates(score, s);
    RankedHasNoDuplicates(score, t);
    if s != [] {
      assert s[0] in Elements(t) && t[0] in Elements(s);
      if s[0] != t[0] {
        var i :| 0 <= i < |t| && t[i] == s[0];
        var j :| 0 <= j < |s| && s[j] == t[0];
        assert Before(score, t[0], t[i]) && Before(score, s[0], s[j]);
        BeforeIsTotal(score, s[0], t[0]);
      }
      TailElements(score, s);
      TailElements(score, t);
      RankOrderIsUnique(score, s[1..], t[1..]);
      assert s == [s[0]] + s[1..] && t == [t[0]] + t[1..];
    }
  }

  lemma TailElements(score: Score, s: seq<NodeId>)
    requires s != [] && InRankOrder(score, s)
    ensures Elements(s[1..]) == Elements(s) - {s[0]}
  {
    forall n | n in s[1..] ensures n != s[0] {
      var i :| 0 <= i < |s| - 1 && s[1..][i] == n;
      BeforeIsTotal(score, s[0], s[i + 1]);
    }
    forall n | n in s && n != s[0] ensures n in s[1..] {
      var i :| 0 <= i < |s| && s[i] == n;
      assert s[1..][i - 1] == n;
    }
  }

  function Without(s: seq<NodeId>, i: nat): seq<NodeId>
    requires i < |s|
  {
    s[..i] + s[i + 1..]
  }

  lemma WithoutKeepsRanks(score: Score, s: seq<NodeId>, i: nat)
    requires InRankOrder(score, s) && i < |s|
    ensures InRankOrder(score, Without(s, i)) && Elements(Without(s, i)) == Elements(s) - {s[i]}
  {
    var rest := Without(s, i);
    forall n | n in rest ensures n in s && n != s[i] {
      var k :| 0 <= k < |rest| && rest[k] == n;
      var at := if k < i then k else k + 1;
      assert n == s[at];
      BeforeIsTotal(score, s[at], s[i]);
    }
    forall n | n in s && n != s[i] ensures n in rest {
      var k :| 0 <= k < |s| && s[k] == n;
      assert rest[if k < i then k else k - 1] == n;
    }
  }

  lemma RankedWithout(score: Score, members: set<NodeId>, i: nat)
    requires i < |members| && |Ranked(score, members)| == |members|
    ensures Ranked(score, members - {Ranked(score, members)[i]}) == Without(Ranked(score, members), i)
  {
    hide InRankOrder, Elements, Ranked, Without;
    RankedIsInOrder(score, members);
    var ranked := Ranked(score, members);
    RankedIsInOrder(score, members - {ranked[i]});
    WithoutKeepsRanks(score, ranked, i);
    RankOrderIsUnique(score, Ranked(score, members - {ranked[i]}), Without(ranked, i));
  }

  /** Removing a member that is no owner leaves the owner list as it was. Removing an owner
      keeps the others in order and appends one owner when there is another member to take
      the place, none otherwise. */
  lemma RemovalMovesAtMostOne(score: Score, members: set<NodeId>, replicas: nat, gone: NodeId) returns (at: nat, extra: seq<NodeId>)
    requires gone in members
    ensures var owners, left := OwnersFor(score, members, replicas), OwnersFor(score, members - {gone}, replicas);
      && (gone !in owners ==> left == owners)
      && (gone in owners ==>
           && at < |owners| && owners[at] == gone
           && left == Without(owners, at) + extra
           && |extra| == if |members| > |owners| then 1 else 0)
  {
    hide InRankOrder, Ranked;
    RankedIsInOrder(score, members);
    RankedIsInOrder(score, members - {gone});
    OwnersAreTop(score, members, replicas);
    var ranked := Ranked(score, members);
    assert gone in Elements(ranked);
    var i :| 0 <= i < |ranked| && ranked[i] == gone;
    RankedWithout(score, members, i);
    hide Elements, TopOf;
    var count := Count(replicas, |members|);
    assert |members - {gone}| == |members| - 1;
    at := i;
    extra := if |members| > count && i < count then [ranked[count]] else [];
    if i < count {
      assert ranked[..count][i] == gone;
      CutShort(ranked, i, count, extra);
    } else {
      NotInPrefix(score, ranked, i, count);
      assert Without(ranked, i)[..count] == ranked[..count];
    }
  }

  lemma NotInPrefix(score: Score, ranked: seq<NodeId>, i: nat, count: nat)
    requires InRankOrder(score, ranked) && count <= i < |ranked|
    ensures ranked[i] !in ranked[..count]
  {
    forall k | 0 <= k < count ensures ranked[k] != ranked[i] {
      BeforeIsTotal(score, ranked[k], ranked[i]);
    }
  }

  lemma CutShort(ranked: seq<NodeId>, i: nat, count: nat, extra: seq<NodeId>)
    requires i < count <= |ranked|
    requires extra == if count < |ranked| then [ranked[count]] else []
    ensures Without(ranked, i)[..(if count < |ranked| then count else count - 1)] == Without(ranked[..count], i) + extra
  {
    var front := ranked[..i];
    assert ranked[..count][..i] == front && ranked[..count][i + 1..] == ranked[i + 1..count];
    if count < |ranked| {
      assert ranked[i + 1..count] + [ranked[count]] == ranked[i + 1..count + 1];
      assert ranked[i + 1..] == ranked[i + 1..count + 1] + ranked[count + 1..];
      assert (front + ranked[i + 1..])[..count] == front + ranked[i + 1..count + 1];
    } else {
      assert ranked[i + 1..count] == ranked[i + 1..];
    }
  }
}
