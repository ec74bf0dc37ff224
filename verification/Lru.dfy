/** The replacement order of a dictionary whose entries move to the end when used and whose
    first entries are dropped beyond a capacity (app/v2.py:47-55), against the unbounded
    list of everyone that ever called. */
module Lru {

  /** The address a request comes from. */
  datatype Client = Client(host: string)

  function Remove(order: seq<Client>, client: Client): seq<Client> {
    if order == [] then []
    else if order[0] == client then Remove(order[1..], client)
    else [order[0]] + Remove(order[1..], client)
  }

  function Touch(order: seq<Client>, client: Client): seq<Client> {
    Remove(order, client) + [client]
  }

  /** The `cap` most recent entries. */
  function Trim(order: seq<Client>, cap: nat): seq<Client> {
    if |order| <= cap then order else order[|order| - cap..]
  }

  /** What the dictionary holds after the first `n` calls. */
  function Kept(callers: seq<Client>, n: nat, cap: nat): seq<Client>
    requires n <= |callers|
  {
    if n == 0 then [] else Trim(Touch(Kept(callers, n - 1, cap), callers[n - 1]), cap)
  }

  /** Every client that ever called, least recent last call first. */
  function Recent(callers: seq<Client>, n: nat): seq<Client>
    requires n <= |callers|
  {
    if n == 0 then [] else Touch(Recent(callers, n - 1), callers[n - 1])
  }

  /** The distinct other clients that called after the last call of `client`. */
  function Since(callers: seq<Client>, n: nat, client: Client): set<Client>
    requires n <= |callers|
  {
    if n == 0 || callers[n - 1] == client then {}
    else Since(callers, n - 1, client) + {callers[n - 1]}
  }

  /** One more than the index of the last call, 0 when there is none. */
  function LastCall(callers: seq<Client>, n: nat, client: Client): (last: nat)
    requires n <= |callers|
    ensures last <= n
    ensures last == 0 <==> client !in callers[..n]
  {
    if n == 0 then 0
    else
      assert callers[..n] == callers[..n - 1] + [callers[n - 1]];
      if callers[n - 1] == client then n else LastCall(callers, n - 1, client)
  }

  ghost predicate Distinct(order: seq<Client>) {
    forall i, j :: 0 <= i < j < |order| ==> order[i] != order[j]
  }

  ghost function Elements(order: seq<Client>): set<Client> {
    set c | c in order
  }

  /** Entries stand in strictly increasing order of last call. */
  ghost predicate ByLastCall(callers: seq<Client>, n: nat, order: seq<Client>)
    requires n <= |callers|
  {
    forall i, j :: 0 <= i < j < |order| ==> LastCall(callers, n, order[i]) < LastCall(callers, n, order[j])
  }

  lemma {:induction false} RemoveMembers(order: seq<Client>, client: Client)
    ensures forall c :: c in Remove(order, client) <==> c in order && c != client
    ensures client !in order ==> Remove(order, client) == order
  {
    if order != [] {
      RemoveMembers(order[1..], client);
    }
  }

  lemma {:induction false} RemoveSplits(a: seq<Client>, b: seq<Client>, client: Client)
    ensures Remove(a + b, client) == Remove(a, client) + Remove(b, client)
  {
    if a == [] {
      assert a + b == b;
    } else {
      assert (a + b)[1..] == a[1..] + b;
      RemoveSplits(a[1..], b, client);
    }
  }

  lemma {:induction false} RemoveShrinks(order: seq<Client>, client: Client)
    requires Distinct(order)
    ensures |Remove(order, client)| == |order| - (if client in order then 1 else 0)
  {
    if order != [] {
      RemoveShrinks(order[1..], client);
      assert order[0] !in order[1..];
    }
  }

  lemma {:induction false} RemoveKeepsOrder(callers: seq<Client>, n: nat, order: seq<Client>, client: Client)
    requires n <= |callers| && ByLastCall(callers, n, order)
    ensures ByLastCall(callers, n, Remove(order, client))
  {
    if order != [] {
      var tail := order[1..];
      RemoveKeepsOrder(callers, n, tail, client);
      forall c | c in tail ensures LastCall(callers, n, order[0]) < LastCall(callers, n, c) {
        var k :| 0 <= k < |tail| && tail[k] == c;
        assert order[k + 1] == c;
      }
      var rest := Remove(tail, client);
      RemoveMembers(tail, client);
      forall i | 0 <= i < |rest| ensures LastCall(callers, n, order[0]) < LastCall(callers, n, rest[i]) {
        assert rest[i] in rest;
      }
    }
  }

  lemma {:induction false} DistinctSize(order: seq<Client>)
    requires Distinct(order)
    ensures |Elements(order)| == |order|
  {
    if order != [] {
      DistinctSize(order[1..]);
      assert order[0] !in order[1..];
      assert Elements(order) == {order[0]} + Elements(order[1..]);
    }
  }

  lemma {:induction false} RecentMembers(callers: seq<Client>, n: nat)
    requires n <= |callers|
    ensures forall c :: c in Recent(callers, n) <==> c in callers[..n]
  {
    if n > 0 {
      RecentMembers(callers, n - 1);
      RemoveMembers(Recent(callers, n - 1), callers[n - 1]);
      assert callers[..n] == callers[..n - 1] + [callers[n - 1]];
    }
  }

  /** Everyone that called is in `Recent`, once, in order of last call. */
  lemma {:induction false} RecentOrder(callers: seq<Client>, n: nat)
    requires n <= |callers|
    ensures ByLastCall(callers, n, Recent(callers, n)) && Distinct(Recent(callers, n))
  {
    if n > 0 {
      RecentOrder(callers, n - 1);
      var before, client := Recent(callers, n - 1), callers[n - 1];
      RemoveKeepsOrder(callers, n - 1, before, client);
      RemoveMembers(before, client);
      var rest := Remove(before, client);
      forall i | 0 <= i < |rest| ensures LastCall(callers, n, rest[i]) == LastCall(callers, n - 1, rest[i]) {
        assert rest[i] in rest;
      }
    }
  }

  lemma RemoveAround(front: seq<Client>, kept: Client, tail: seq<Client>, gone: Client)
    requires kept != gone
    ensures Remove(front + [kept] + tail, gone) == Remove(front, gone) + [kept] + Remove(tail, gone)
  {
    RemoveSplits(front + [kept], tail, gone);
    RemoveSplits(front, [kept], gone);
    assert Remove([kept], gone) == [kept] + Remove([], gone);
  }

  /** After a client come, in `Recent`, exactly those that called since. */
  lemma {:induction false} RecentTail(callers: seq<Client>, n: nat, client: Client)
    returns (front: seq<Client>, tail: seq<Client>)
    requires n <= |callers| && client in callers[..n]
    ensures Recent(callers, n) == front + [client] + tail
    ensures Elements(tail) == Since(callers, n, client)
  {
    var last := callers[n - 1];
    assert callers[..n] == callers[..n - 1] + [last];
    if last == client {
      front, tail := Remove(Recent(callers, n - 1), client), [];
    } else {
      var f, t := RecentTail(callers, n - 1, client);
      RemoveAround(f, client, t, last);
      RemoveMembers(t, last);
      front, tail := Remove(f, last), Remove(t, last) + [last];
      assert forall c :: c in tail <==> c in t || c == last;
    }
  }

  /** Trimming before a touch changes nothing that survives the trim after it. */
  lemma TrimCommutesWithTouch(order: seq<Client>, client: Client, cap: nat)
    requires Distinct(order) && cap > 0
    ensures Trim(Touch(Trim(order, cap), client), cap) == Trim(Touch(order, client), cap)
  {
    if |order| > cap {
      var front, tail := order[..|order| - cap], order[|order| - cap..];
      assert order == front + tail;
      RemoveSplits(front, tail, client);
      RemoveShrinks(tail, client);
      TrimOfSuffix(Remove(front, client), Touch(tail, client), cap);
      assert Touch(order, client) == Remove(front, client) + Touch(tail, client);
    }
  }

  lemma TrimOfSuffix(a: seq<Client>, b: seq<Client>, cap: nat)
    requires cap <= |b|
    ensures Trim(a + b, cap) == Trim(b, cap)
  {
  }

  lemma TrimNothing(cap: nat)
    ensures Trim([], cap) == []
  {
  }

  lemma {:induction false} KeptIsRecent(callers: seq<Client>, n: nat, cap: nat)
    requires n <= |callers| && cap > 0
    ensures Kept(callers, n, cap) == Trim(Recent(callers, n), cap)
  {
    hide Trim, Touch, ByLastCall, Elements;
    if n == 0 {
      assert Trim([], cap) == [] by { TrimNothing(cap); }
    } else {
      KeptIsRecent(callers, n - 1, cap);
      RecentOrder(callers, n - 1);
      TrimCommutesWithTouch(Recent(callers, n - 1), callers[n - 1], cap);
    }
  }

  /** A true LRU: an entry is kept exactly when its client has called and fewer than `cap`
      distinct other clients called since; entries stand in order of last call. */
  lemma KeptIffRecentlyUsed(callers: seq<Client>, n: nat, cap: nat, client: Client)
    requires n <= |callers| && cap > 0
    ensures var kept := Kept(callers, n, cap);
      && (client in kept <==> client in callers[..n] && |Since(callers, n, client)| < cap)
      && ByLastCall(callers, n, kept) && Distinct(kept) && |kept| <= cap
  {
    KeptIsRecent(callers, n, cap);
    RecentOrder(callers, n);
    var recent, kept := Recent(callers, n), Kept(callers, n, cap);
    RecentMembers(callers, n);
    forall c | c in kept ensures c in callers[..n] {
      assert c in recent;
    }
    if client in callers[..n] {
      var front, tail := RecentTail(callers, n, client);
      assert tail == recent[|front| + 1..];
      DistinctSize(tail);
      TrimKeepsLate(front, client, tail, cap);
    }
  }

  lemma TrimKeepsLate(front: seq<Client>, client: Client, tail: seq<Client>, cap: nat)
    requires Distinct(front + [client] + tail) && cap > 0
    ensures client in Trim(front + [client] + tail, cap) <==> |tail| < cap
  {
    var all := front + [client] + tail;
    var kept := Trim(all, cap);
    assert all[|front|] == client;
    if |tail| < cap {
      assert kept[|kept| - |tail| - 1] == client;
    } else {
      assert kept == all[|all| - cap..];
      forall i | 0 <= i < |kept| ensures kept[i] != client {
        assert kept[i] == all[|all| - cap + i];
      }
    }
  }
}
