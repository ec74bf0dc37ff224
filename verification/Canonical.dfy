/** Canonical JSON (app/canonical.py): sorted keys at every level, compact separators, UTF-8.
    Two values have the same canonical bytes exactly when they are the same value. */
module Canonical {
  import opened Json
  import Text
  import Utf8

  // ---- sorting -----------------------------------------------------------------

  function Insert(m: Member, sorted: seq<Member>): seq<Member> {
    if sorted == [] || !Text.Less(sorted[0].key, m.key) then [m] + sorted
    else [sorted[0]] + Insert(m, sorted[1..])
  }

  /** `sorted(dct.items())`: by code points of the key. */
  function Sort(members: seq<Member>): seq<Member> {
    if members == [] then [] else Insert(members[0], Sort(members[1..]))
  }

  predicate InKeyOrder(members: seq<Member>) {
    forall i, j :: 0 <= i < j < |members| ==> Text.Less(members[i].key, members[j].key)
  }

  ghost predicate SameMembers(a: seq<Member>, b: seq<Member>) {
    |a| == |b| && forall m :: m in a <==> m in b
  }

  lemma {:induction false} InsertSorts(m: Member, sorted: seq<Member>)
    requires InKeyOrder(sorted) && forall n :: n in sorted ==> n.key != m.key
    ensures InKeyOrder(Insert(m, sorted)) && SameMembers(Insert(m, sorted), [m] + sorted)
  {
    if sorted != [] {
      var first, rest := sorted[0], sorted[1..];
      assert first in sorted && forall n :: n in sorted <==> n == first || n in rest;
      Text.LessIsTotal(first.key, m.key);
      if Text.Less(first.key, m.key) {
        InsertSorts(m, rest);
        PrependSorted(first, Insert(m, rest));
      } else {
        forall n | n in rest ensures Text.Less(m.key, n.key) {
          Text.LessIsTransitive(m.key, first.key, n.key);
        }
        PrependSorted(m, sorted);
      }
    }
  }

  lemma PrependSorted(m: Member, sorted: seq<Member>)
    requires InKeyOrder(sorted) && forall n :: n in sorted ==> Text.Less(m.key, n.key)
    ensures InKeyOrder([m] + sorted)
  {
    hide Text.Less;
  }

  lemma {:induction false} SortSorts(members: seq<Member>)
    requires UniqueKeys(members)
    ensures InKeyOrder(Sort(members)) && SameMembers(Sort(members), members)
  {
    if members != [] {
      var m, rest := members[0], members[1..];
      SortSorts(rest);
      assert forall n :: n in rest ==> n.key != m.key;
      InsertSorts(m, Sort(rest));
      hide Insert, Sort, InKeyOrder;
      assert members == [m] + rest;
    }
  }

  lemma FirstIsLeast(members: seq<Member>, i: nat)
    requires InKeyOrder(members) && i < |members|
    ensures i == 0 || Text.Less(members[0].key, members[i].key)
  {
  }

  /** There is one sorted sequence of the same members. */
  lemma {:induction false} SortedIsUnique(a: seq<Member>, b: seq<Member>)
    requires InKeyOrder(a) && InKeyOrder(b) && SameMembers(a, b)
    ensures a == b
  {
    if a != [] {
      assert a[0] in b && b[0] in a;
      var i, j :| 0 <= i < |b| && b[i] == a[0] && 0 <= j < |a| && a[j] == b[0];
      Text.LessIsTotal(a[0].key, b[0].key);
      FirstIsLeast(b, i);
      FirstIsLeast(a, j);
      assert a[0] == b[0];
      TailMembers(a);
      TailMembers(b);
      SortedIsUnique(a[1..], b[1..]);
    }
  }

  lemma TailMembers(a: seq<Member>)
    requires InKeyOrder(a) && a != []
    ensures forall m :: m in a[1..] <==> m in a && m != a[0]
  {
    forall i | 0 < i < |a| ensures a[i] != a[0] {
      Text.LessIsTotal(a[0].key, a[i].key);
    }
  }

  // ---- the canonical form ----------------------------------------------------------

  function Normal(v: Json): Json {
    match v
    case Arr(items) => Arr(seq(|items|, i requires 0 <= i < |items| => Normal(items[i])))
    case Obj(members) => Obj(Sort(NormalMembers(members)))
    case _ => v
  }

  function NormalMembers(members: seq<Member>): (r: seq<Member>)
    ensures |r| == |members|
  {
    seq(|members|, i requires 0 <= i < |members| => Member(members[i].key, Normal(members[i].value)))
  }

  /** The text of canonical_json_bytes. */
  function CanonicalText(v: Json): string {
    Print(Normal(v))
  }

  function CanonicalBytes(v: Json): seq<Utf8.Byte> {
    Utf8.Encode(CanonicalText(v))
  }

  function Keys(members: seq<Member>): set<string> {
    set m | m in members :: m.key
  }

  /** The same value, whatever the order of an object's members. */
  ghost predicate Same(v: Json, w: Json) {
    match v
    case Arr(a) => w.Arr? && |a| == |w.items| && forall i :: 0 <= i < |a| ==> Same(a[i], w.items[i])
    case Obj(a) =>
      && w.Obj? && Keys(a) == Keys(w.members)
      && forall i, j :: 0 <= i < |a| && 0 <= j < |w.members| && a[i].key == w.members[j].key ==>
           Same(a[i].value, w.members[j].value)
    case _ => v == w
  }

  lemma NormalKeys(members: seq<Member>)
    requires UniqueKeys(members)
    ensures UniqueKeys(NormalMembers(members)) && Keys(NormalMembers(members)) == Keys(members)
  {
    hide Normal;
    forall k | k in Keys(members) ensures k in Keys(NormalMembers(members)) {
      var i :| 0 <= i < |members| && members[i].key == k;
      assert NormalMembers(members)[i].key == k;
    }
  }

  /** Sorting keeps the keys, and the member under each key. */
  lemma SortedObject(members: seq<Member>)
    requires UniqueKeys(members)
    ensures var sorted := Sort(NormalMembers(members));
      && InKeyOrder(sorted) && UniqueKeys(sorted) && Keys(sorted) == Keys(members) && |sorted| == |members|
      && SameMembers(sorted, NormalMembers(members))
  {
    NormalKeys(members);
    SortSorts(NormalMembers(members));
    var sorted := Sort(NormalMembers(members));
    hide NormalMembers, Sort;
    forall i, j | 0 <= i < j < |sorted| ensures sorted[i].key != sorted[j].key {
      Text.LessIsTotal(sorted[i].key, sorted[j].key);
    }
  }

  /** The member a sorted object holds under the key of `members[i]`. */
  lemma UnderKey(members: seq<Member>, i: nat, j: nat)
    requires UniqueKeys(members) && i < |members| && j < |Sort(NormalMembers(members))|
    requires Sort(NormalMembers(members))[j].key == members[i].key
    ensures Sort(NormalMembers(members))[j].value == Normal(members[i].value)
  {
    SortedObject(members);
    var sorted := Sort(NormalMembers(members));
    assert sorted[j] in NormalMembers(members);
    var l :| 0 <= l < |members| && NormalMembers(members)[l] == sorted[j];
    hide Normal, Sort;
    assert members[l].key == members[i].key;
  }

  lemma {:induction false} NormalIsWellFormed(v: Json)
    requires WellFormed(v)
    ensures WellFormed(Normal(v))
  {
    match v
    case Arr(items) =>
      forall i | 0 <= i < |items| ensures WellFormed(Normal(items[i])) {
        NormalIsWellFormed(items[i]);
      }
    case Obj(members) =>
      SortedObject(members);
      forall i | 0 <= i < |members| ensures WellFormed(Normal(members[i].value)) {
        NormalIsWellFormed(members[i].value);
      }
      NormalObject(members);
    case _ =>
  }

  lemma NormalObject(members: seq<Member>)
    requires UniqueKeys(members) && forall i :: 0 <= i < |members| ==> WellFormed(Normal(members[i].value))
    ensures WellFormed(Obj(Sort(NormalMembers(members))))
  {
    SortedObject(members);
    hide Normal, Sort;
    var sorted := Sort(NormalMembers(members));
    forall j | 0 <= j < |sorted| ensures WellFormed(sorted[j].value) {
      assert sorted[j] in NormalMembers(members);
    }
  }

  /** Same values have one normal form. */
  lemma {:induction false} SameIsNormalised(v: Json, w: Json)
    requires WellFormed(v) && WellFormed(w) && Same(v, w)
    ensures Normal(v) == Normal(w)
  {
    match v
    case Arr(a) =>
      forall i | 0 <= i < |a| ensures Normal(a[i]) == Normal(w.items[i]) {
        SameIsNormalised(a[i], w.items[i]);
      }
    case Obj(a) =>
      var b := w.members;
      forall i, j | 0 <= i < |a| && 0 <= j < |b| && a[i].key == b[j].key ensures Normal(a[i].value) == Normal(b[j].value) {
        SameIsNormalised(a[i].value, b[j].value);
      }
      SameObjects(a, b);
    case _ =>
  }

  lemma SameObjects(a: seq<Member>, b: seq<Member>)
    requires UniqueKeys(a) && UniqueKeys(b) && Keys(a) == Keys(b)
    requires forall i, j :: 0 <= i < |a| && 0 <= j < |b| && a[i].key == b[j].key ==> Normal(a[i].value) == Normal(b[j].value)
    ensures Sort(NormalMembers(a)) == Sort(NormalMembers(b))
  {
    hide Normal, Sort;
    SortedObject(a);
    SortedObject(b);
    MembersCarryOver(a, b);
    MembersCarryOver(b, a);
    KeyCount(a);
    KeyCount(b);
    SortedIsUnique(Sort(NormalMembers(a)), Sort(NormalMembers(b)));
  }

  lemma MembersCarryOver(a: seq<Member>, b: seq<Member>)
    requires Keys(a) <= Keys(b)
    requires forall i, j :: 0 <= i < |a| && 0 <= j < |b| && a[i].key == b[j].key ==> Normal(a[i].value) == Normal(b[j].value)
    ensures forall m :: m in NormalMembers(a) ==> m in NormalMembers(b)
  {
    hide Normal;
    forall m | m in NormalMembers(a) ensures m in NormalMembers(b) {
      var i :| 0 <= i < |a| && NormalMembers(a)[i] == m;
      assert a[i].key in Keys(a);
      var j :| 0 <= j < |b| && b[j].key == a[i].key;
      assert NormalMembers(b)[j] == m;
    }
  }

  lemma {:induction false} KeyCount(members: seq<Member>)
    requires UniqueKeys(members)
    ensures |Keys(members)| == |members|
  {
    if members != [] {
      var rest := members[1..];
      KeyCount(rest);
      assert Keys(members) == Keys(rest) + {members[0].key};
    }
  }

  /** One normal form means the same value. */
  lemma {:induction false} NormalisedIsSame(v: Json, w: Json)
    requires WellFormed(v) && WellFormed(w) && Normal(v) == Normal(w)
    ensures Same(v, w)
  {
    match v
    case Arr(a) =>
      forall i | 0 <= i < |a| ensures Same(a[i], w.items[i]) {
        assert Normal(v).items[i] == Normal(w).items[i];
        NormalisedIsSame(a[i], w.items[i]);
      }
    case Obj(a) =>
      var b := w.members;
      SortedObject(a);
      SortedObject(b);
      forall i, j | 0 <= i < |a| && 0 <= j < |b| && a[i].key == b[j].key ensures Same(a[i].value, b[j].value) {
        EqualUnderKey(a, b, i, j);
        NormalisedIsSame(a[i].value, b[j].value);
      }
    case _ =>
  }

  lemma EqualUnderKey(a: seq<Member>, b: seq<Member>, i: nat, j: nat)
    requires UniqueKeys(a) && UniqueKeys(b) && Sort(NormalMembers(a)) == Sort(NormalMembers(b))
    requires i < |a| && j < |b| && a[i].key == b[j].key
    ensures Normal(a[i].value) == Normal(b[j].value)
  {
    SortedObject(a);
    hide Normal, Sort;
    var sorted := Sort(NormalMembers(a));
    assert NormalMembers(a)[i] in sorted;
    var l :| 0 <= l < |sorted| && sorted[l] == NormalMembers(a)[i];
    UnderKey(a, i, l);
    UnderKey(b, j, l);
  }

  /** A value is the same as its normal form. */
  lemma {:induction false} SameAsNormal(v: Json)
    requires WellFormed(v)
    ensures Same(v, Normal(v))
  {
    match v
    case Arr(items) =>
      forall i | 0 <= i < |items| ensures Same(items[i], Normal(items[i])) {
        SameAsNormal(items[i]);
      }
    case Obj(members) =>
      SortedObject(members);
      var sorted := Sort(NormalMembers(members));
      forall i, j | 0 <= i < |members| && 0 <= j < |sorted| && members[i].key == sorted[j].key
        ensures Same(members[i].value, sorted[j].value)
      {
        UnderKey(members, i, j);
        SameAsNormal(members[i].value);
      }
    case _ =>
  }

  lemma SameItself(v: Json)
    requires WellFormed(v)
    ensures Same(v, v)
  {
    SameBytesIffSameValue(v, v);
  }

  // ---- main results --------------------------------------------------------------------

  /** Canonical bytes are injective and independent of key order: two values have the same
      canonical bytes if and only if they are the same value. */
  lemma SameBytesIffSameValue(v: Json, w: Json)
    requires WellFormed(v) && WellFormed(w)
    ensures CanonicalBytes(v) == CanonicalBytes(w) <==> Same(v, w)
  {
    if CanonicalBytes(v) == CanonicalBytes(w) {
      Utf8.EncodeIsInjective(CanonicalText(v), CanonicalText(w));
      NormalIsWellFormed(v);
      NormalIsWellFormed(w);
      DecodeUndoesPrint(Normal(v));
      DecodeUndoesPrint(Normal(w));
      hide Print, Decode, WellFormed, Same, Normal;
      NormalisedIsSame(v, w);
    }
    if Same(v, w) {
      SameIsNormalised(v, w);
    }
  }
}
