/** What loads_strict takes (app/strict_json.py:17-105), said of the text and of the places in the
    value: the grammar, how deep a place may lie, how many places there are, and how long a string
    at a place may be. */
module StrictLaw {
  import opened Grammar
  import opened Json
  import opened Names
  import opened Numbers
  import opened StrictJson
  import Readable
  import Utf8

  /** What stands in a value at a place: an item or a member's value, step by step. */
  function At(v: Json, path: seq<nat>): Option<Json>
    decreases |path|
  {
    if path == [] then Some(v)
    else
      match v
      case Arr(items) => if path[0] < |items| then At(items[path[0]], path[1..]) else None
      case Obj(members) => if path[0] < |members| then At(members[path[0]].value, path[1..]) else None
      case _ => None
  }

  predicate IsAt(v: Json, path: seq<nat>) {
    At(v, path).Some?
  }

  /** An array or an object stands there. */
  predicate ContainerAt(v: Json, path: seq<nat>) {
    At(v, path).Some? && (At(v, path).value.Arr? || At(v, path).value.Obj?)
  }

  /** The text that stands there, and the keys of the object that stands there, are no longer than so
      many bytes. */
  ghost predicate ShortAt(v: Json, path: seq<nat>, limit: nat) {
    match At(v, path)
    case Some(Str(text)) => |Utf8.Encode(text)| <= limit
    case Some(Obj(members)) => forall m :: m in members ==> |Utf8.Encode(m.key)| <= limit
    case _ => true
  }

  ghost predicate NoDeeper(v: Json, maximum: nat) {
    forall path :: ContainerAt(v, path) ==> |path| < maximum
  }

  ghost predicate AllShort(v: Json, limit: nat) {
    forall path :: ShortAt(v, path, limit)
  }

  // ---- places of a container -----------------------------------------------------------

  function Inside(v: Json): seq<Json> {
    match v
    case Arr(items) => items
    case Obj(members) => Values(members)
    case _ => []
  }

  lemma AtInside(v: Json, k: nat, path: seq<nat>)
    ensures At(v, [k] + path) == if k < |Inside(v)| then At(Inside(v)[k], path) else None
  {
    assert ([k] + path)[1..] == path;
  }

  lemma PathParts(path: seq<nat>)
    requires path != []
    ensures path == [path[0]] + path[1..]
  {
  }

  // ---- depth ---------------------------------------------------------------------------

  lemma {:induction false} ItemsDepthIff(items: seq<Json>, maximum: nat)
    ensures ItemsDepth(items) <= maximum <==> forall i :: 0 <= i < |items| ==> Depth(items[i]) <= maximum
  {
    hide Depth;
    if items != [] {
      ItemsDepthIff(items[1..], maximum);
      assert forall i :: 0 < i < |items| ==> items[i] == items[1..][i - 1];
      assert forall i :: 0 <= i < |items| - 1 ==> items[1..][i] == items[i + 1];
    }
  }

  lemma {:induction false} MembersDepthIs(members: seq<Member>)
    ensures MembersDepth(members) == ItemsDepth(Values(members)) && MembersNodes(members) == ItemsNodes(Values(members))
  {
    if members != [] {
      MembersDepthIs(members[1..]);
      assert Values(members)[1..] == Values(members[1..]);
    }
  }

  lemma InsideIs(v: Json)
    ensures (v.Arr? || v.Obj?) ==> Depth(v) == 1 + ItemsDepth(Inside(v))
    ensures !(v.Arr? || v.Obj?) ==> Depth(v) == 0 && Inside(v) == []
    ensures Nodes(v) == 1 + ItemsNodes(Inside(v))
    ensures forall i :: 0 <= i < |Inside(v)| ==> Inside(v)[i] < v
  {
    if v.Obj? {
      MembersDepthIs(v.members);
      assert forall i :: 0 <= i < |v.members| ==> v.members[i].value < v;
    }
  }

  /** The depth of a value: no array or object lies deeper in it. */
  lemma {:induction false} DepthIff(v: Json, maximum: nat)
    ensures Depth(v) <= maximum <==> NoDeeper(v, maximum)
    decreases v
  {
    hide Depth, ItemsDepth, Values;
    InsideIs(v);
    if v.Arr? || v.Obj? {
      var inside := Inside(v);
      if maximum == 0 {
        assert ContainerAt(v, []);
      } else {
        ItemsDepthIff(inside, maximum - 1);
        forall i | 0 <= i < |inside| ensures Depth(inside[i]) <= maximum - 1 <==> NoDeeper(inside[i], maximum - 1) {
          DepthIff(inside[i], maximum - 1);
        }
        DeeperInside(v, maximum);
      }
    } else {
      forall path ensures !ContainerAt(v, path) {
      }
    }
  }

  lemma DeeperInside(v: Json, maximum: nat)
    requires maximum > 0
    ensures NoDeeper(v, maximum) <==> forall i :: 0 <= i < |Inside(v)| ==> NoDeeper(Inside(v)[i], maximum - 1)
  {
    var inside := Inside(v);
    if NoDeeper(v, maximum) {
      forall i, path | 0 <= i < |inside| && ContainerAt(inside[i], path) ensures |path| < maximum - 1 {
        AtInside(v, i, path);
        assert ContainerAt(v, [i] + path);
      }
    }
    if forall i :: 0 <= i < |inside| ==> NoDeeper(inside[i], maximum - 1) {
      forall path | ContainerAt(v, path) ensures |path| < maximum {
        if path != [] {
          PathParts(path);
          AtInside(v, path[0], path[1..]);
          assert ContainerAt(inside[path[0]], path[1..]);
        }
      }
    }
  }

  // ---- nodes ---------------------------------------------------------------------------

  ghost function Under(k: nat, paths: set<seq<nat>>): set<seq<nat>> {
    set p | p in paths :: [k] + p
  }

  lemma {:induction false} UnderSize(k: nat, paths: set<seq<nat>>)
    ensures |Under(k, paths)| == |paths|
  {
    if paths != {} {
      var p :| p in paths;
      UnderSize(k, paths - {p});
      assert Under(k, paths) == Under(k, paths - {p}) + {[k] + p};
      forall q | q in paths - {p} ensures [k] + q != [k] + p {
        assert ([k] + q)[1..] == q && ([k] + p)[1..] == p;
      }
    }
  }

  lemma UnderMembers(k: nat, paths: set<seq<nat>>, path: seq<nat>)
    ensures path in Under(k, paths) <==> path != [] && path[0] == k && path[1..] in paths
  {
    if path != [] && path[0] == k && path[1..] in paths {
      PathParts(path);
    }
    forall q ensures ([k] + q)[1..] == q && ([k] + q)[0] == k {
    }
  }

  /** The places in the items from number `k` on. */
  ghost predicate ItemPlaces(items: seq<Json>, k: nat, path: seq<nat>) {
    path != [] && k <= path[0] < k + |items| && IsAt(items[path[0] - k], path[1..])
  }

  lemma {:induction false} CountItems(items: seq<Json>, k: nat) returns (paths: set<seq<nat>>)
    ensures |paths| == ItemsNodes(items) && forall path :: path in paths <==> ItemPlaces(items, k, path)
    decreases ItemsNodes(items), |items| + 1
  {
    if items == [] {
      paths := {};
    } else {
      NodesArePositive(items[0]);
      hide Nodes, IsAt;
      var first := CountPlaces(items[0]);
      var rest := CountItems(items[1..], k + 1);
      UnderSize(k, first);
      paths := Under(k, first) + rest;
      forall path ensures path in paths <==> ItemPlaces(items, k, path) {
        UnderMembers(k, first, path);
        assert path != [] && path[0] > k && path[0] < k + |items| ==> items[1..][path[0] - (k + 1)] == items[path[0] - k];
      }
      forall path | path in Under(k, first) ensures path !in rest {
        UnderMembers(k, first, path);
      }
      assert Under(k, first) !! rest;
    }
  }

  /** The number of nodes of a value is the number of places in it. */
  lemma {:induction false} CountPlaces(v: Json) returns (paths: set<seq<nat>>)
    ensures |paths| == Nodes(v) && forall path :: path in paths <==> IsAt(v, path)
    decreases Nodes(v), 0
  {
    InsideIs(v);
    hide Nodes, Inside;
    var below := CountItems(Inside(v), 0);
    paths := below + {[]};
    forall path ensures path in paths <==> IsAt(v, path) {
      if path != [] {
        PathParts(path);
        AtInside(v, path[0], path[1..]);
      }
    }
    assert [] !in below;
  }

  lemma NodesArePositive(v: Json)
    ensures Nodes(v) >= 1
  {
  }

  // ---- strings -------------------------------------------------------------------------

  /** Every string and key of a value is short: no place holds a long one. */
  lemma {:induction false} StringsFitIff(v: Json, limit: nat)
    ensures StringsFit(v, limit) <==> AllShort(v, limit)
    decreases v
  {
    InsideIs(v);
    var inside := Inside(v);
    forall i | 0 <= i < |inside| ensures StringsFit(inside[i], limit) <==> AllShort(inside[i], limit) {
      StringsFitIff(inside[i], limit);
    }
    OwnFits(v, limit);
    ShortInside(v, limit);
    hide StringsFit, AllShort, Inside;
  }

  lemma OwnFits(v: Json, limit: nat)
    ensures StringsFit(v, limit) <==> ShortAt(v, [], limit) && forall i :: 0 <= i < |Inside(v)| ==> StringsFit(Inside(v)[i], limit)
  {
    assert At(v, []) == Some(v);
    match v
    case Obj(members) =>
      ObjectFits(members, limit);
      KeysAreShort(members, limit);
    case Arr(items) =>
      ArrayFits(items, limit);
      assert Inside(v) == items;
    case _ =>
  }

  lemma ArrayFits(items: seq<Json>, limit: nat)
    ensures StringsFit(Arr(items), limit) <==> forall i :: 0 <= i < |items| ==> StringsFit(items[i], limit)
    ensures ShortAt(Arr(items), [], limit)
  {
    hide Utf8.Encode;
    assert At(Arr(items), []) == Some(Arr(items));
  }

  lemma KeysAreShort(members: seq<Member>, limit: nat)
    ensures ShortAt(Obj(members), [], limit) <==> forall i :: 0 <= i < |members| ==> |Utf8.Encode(members[i].key)| <= limit
    ensures |Inside(Obj(members))| == |members| && forall i :: 0 <= i < |members| ==> Inside(Obj(members))[i] == members[i].value
  {
    hide Utf8.Encode;
    assert At(Obj(members), []) == Some(Obj(members));
    assert forall i :: 0 <= i < |members| ==> members[i] in members;
  }

  lemma ObjectFits(members: seq<Member>, limit: nat)
    ensures StringsFit(Obj(members), limit)
      <==> forall i :: 0 <= i < |members| ==> |Utf8.Encode(members[i].key)| <= limit && StringsFit(members[i].value, limit)
  {
    hide Utf8.Encode;
  }

  lemma ShortInside(v: Json, limit: nat)
    ensures AllShort(v, limit) <==> ShortAt(v, [], limit) && forall i :: 0 <= i < |Inside(v)| ==> AllShort(Inside(v)[i], limit)
  {
    hide Utf8.Encode;
    var inside := Inside(v);
    if AllShort(v, limit) {
      forall i, path | 0 <= i < |inside| ensures ShortAt(inside[i], path, limit) {
        AtInside(v, i, path);
        assert ShortAt(v, [i] + path, limit);
      }
    }
    if ShortAt(v, [], limit) && forall i :: 0 <= i < |inside| ==> AllShort(inside[i], limit) {
      forall path ensures ShortAt(v, path, limit) {
        if path != [] {
          PathParts(path);
          AtInside(v, path[0], path[1..]);
          assert path[0] < |inside| ==> ShortAt(inside[path[0]], path[1..], limit);
        }
      }
    }
  }

  // ---- the law -------------------------------------------------------------------------

  /** At most so many places hold a value. */
  ghost predicate AtMostPlaces(v: Json, count: nat) {
    exists paths: set<seq<nat>> :: HoldsPlaces(v, paths) && |paths| <= count
  }

  ghost predicate HoldsPlaces(v: Json, paths: set<seq<nat>>) {
    forall path :: path in paths <==> IsAt(v, path)
  }

  lemma NodesIff(v: Json, count: nat)
    ensures Nodes(v) <= count <==> AtMostPlaces(v, count)
  {
    var all := CountPlaces(v);
    assert HoldsPlaces(v, all);
    if AtMostPlaces(v, count) {
      var paths :| HoldsPlaces(v, paths) && |paths| <= count;
      hide IsAt, Nodes;
      assert paths == all;
    }
  }

  /** loads_strict returns a value if and only if the bytes are no more than the limit and the UTF-8 of
      a text that denotes the value, no array or object lies as deep as the maximum, there are no more
      places than nodes allowed, and no string or key at a place is too long. */
  lemma LoadsIff(raw: seq<Utf8.Byte>, limits: Limits, v: Json)
    ensures Loads(raw, limits) == Value(v)
      <==> |raw| <= limits.maxBytes && (exists text :: raw == Utf8.Encode(text) && Padded(Free, text, v))
           && NoDeeper(v, limits.maxDepth) && AtMostPlaces(v, limits.maxNodes) && AllShort(v, limits.maxStringBytes)
  {
    LoadsIsBoundedDecode(raw, limits, v);
    DepthIff(v, limits.maxDepth);
    NodesIff(v, limits.maxNodes);
    StringsFitIff(v, limits.maxStringBytes);
    TextIff(raw, v);
    hide Loads, Depth, Nodes, StringsFit, Decode, Utf8.Decode, Utf8.Encode, Padded, NoDeeper, AtMostPlaces, AllShort;
  }

  lemma TextIff(raw: seq<Utf8.Byte>, v: Json)
    ensures Utf8.Decode(raw).Text? && Decode(Utf8.Decode(raw).text) == Value(v)
      <==> exists text :: raw == Utf8.Encode(text) && Padded(Free, text, v)
  {
    hide Decode, Utf8.Decode, Utf8.Encode, Padded;
    if Utf8.Decode(raw).Text? {
      var text := Utf8.Decode(raw).text;
      Utf8.DecodeIffEncode(raw, text);
      Readable.DecodeIffDerives(text, v);
    }
    forall text | raw == Utf8.Encode(text) && Padded(Free, text, v)
      ensures Utf8.Decode(raw).Text? && Decode(Utf8.Decode(raw).text) == Value(v)
    {
      Utf8.DecodeIffEncode(raw, text);
      Readable.DecodeIffDerives(text, v);
    }
  }
}
