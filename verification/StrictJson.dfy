/** Strict, resource-bounded JSON decoding (app/strict_json.py): a scanner for brackets that
    knows strings, a walk over the decoded tree, and their composition. */
module StrictJson {
  import opened Json
  import opened Numbers
  import Canonical
  import Text
  import Utf8

  datatype Limits = Limits(maxBytes: nat, maxDepth: nat, maxNodes: nat, maxStringBytes: nat)

  // ---- nesting -----------------------------------------------------------------

  /** Where the scanner stands: outside strings, inside one, or after a backslash in one. */
  datatype Mode = Plain | Quoted | Escaped

  /** _check_nesting on the rest of a text. */
  predicate Scan(s: string, depth: nat, mode: Mode, maximum: nat) {
    if s == "" then mode == Plain && depth == 0
    else if mode == Escaped then Scan(s[1..], depth, Quoted, maximum)
    else if mode == Quoted then
      Scan(s[1..], depth, if s[0] == '\\' then Escaped else if s[0] == '"' then Plain else Quoted, maximum)
    else if s[0] == '"' then Scan(s[1..], depth, Quoted, maximum)
    else if s[0] == '[' || s[0] == '{' then depth + 1 <= maximum && Scan(s[1..], depth + 1, Plain, maximum)
    else if s[0] == ']' || s[0] == '}' then depth > 0 && Scan(s[1..], depth - 1, Plain, maximum)
    else Scan(s[1..], depth, Plain, maximum)
  }

  /** _check_nesting (app/strict_json.py:61-85). */
  method CheckNesting(text: string, maximum: nat) returns (ok: bool)
    ensures ok == Scan(text, 0, Plain, maximum)
  {
    var depth, inString, escaped := 0, false, false;
    var i := 0;
    assert text[0..] == text;
    while i < |text|
      invariant 0 <= i <= |text|
      invariant escaped ==> inString
      invariant 0 <= depth
      invariant Scan(text, 0, Plain, maximum)
        == Scan(text[i..], depth, if escaped then Escaped else if inString then Quoted else Plain, maximum)
    {
      var character := text[i];
      assert text[i..][1..] == text[i + 1..];
      i := i + 1;
      if inString {
        if escaped {
          escaped := false;
        } else if character == '\\' {
          escaped := true;
        } else if character == '"' {
          inString := false;
        }
        continue;
      }
      if character == '"' {
        inString := true;
      } else if character == '[' || character == '{' {
        depth := depth + 1;
        if depth > maximum {
          return false;
        }
      } else if character == ']' || character == '}' {
        depth := depth - 1;
        if depth < 0 {
          return false;
        }
      }
    }
    ok := !inString && depth == 0;
  }

  /** How deeply arrays and objects are nested. */
  function Depth(v: Json): nat {
    match v
    case Arr(items) => 1 + ItemsDepth(items)
    case Obj(members) => 1 + MembersDepth(members)
    case _ => 0
  }

  function ItemsDepth(items: seq<Json>): nat {
    if items == [] then 0 else Max(Depth(items[0]), ItemsDepth(items[1..]))
  }

  function MembersDepth(members: seq<Member>): nat {
    if members == [] then 0 else Max(Depth(members[0].value), MembersDepth(members[1..]))
  }

  // ---- the scanner follows the reader ---------------------------------------------

  lemma {:induction false} ScanSpace(s: string, depth: nat, maximum: nat)
    ensures Scan(s, depth, Plain, maximum) == Scan(SkipSpace(s), depth, Plain, maximum)
  {
    if s != "" && IsSpace(s[0]) {
      ScanSpace(s[1..], depth, maximum);
    }
  }

  /** A character that is no quote and no bracket. */
  predicate Neutral(c: char) {
    c !in "\"[]{}"
  }

  lemma {:induction false} ScanNeutral(s: string, n: nat, depth: nat, maximum: nat)
    requires n <= |s| && forall i :: 0 <= i < n ==> Neutral(s[i])
    ensures Scan(s, depth, Plain, maximum) == Scan(s[n..], depth, Plain, maximum)
    decreases n
  {
    if n == 0 {
      assert s[0..] == s;
    } else {
      ScanNeutral(s[1..], n - 1, depth, maximum);
      assert s[1..][n - 1..] == s[n..];
    }
  }

  /** A character inside a string that neither ends it nor starts an escape. */
  predicate Inner(c: char) {
    c != '"' && c != '\\'
  }

  lemma {:induction false} ScanInner(s: string, n: nat, depth: nat, maximum: nat)
    requires n <= |s| && forall i :: 0 <= i < n ==> Inner(s[i])
    ensures Scan(s, depth, Quoted, maximum) == Scan(s[n..], depth, Quoted, maximum)
    decreases n
  {
    if n == 0 {
      assert s[0..] == s;
    } else {
      ScanInner(s[1..], n - 1, depth, maximum);
      assert s[1..][n - 1..] == s[n..];
    }
  }

  lemma HexIsInner(c: char)
    requires HexValue(c) >= 0
    ensures Inner(c)
  {
  }

  lemma HexFourIsInner(s: string)
    requires HexFour(s) >= 0
    ensures |s| >= 4 && forall i :: 0 <= i < 4 ==> Inner(s[i])
  {
    HexIsInner(s[0]);
    HexIsInner(s[1]);
    HexIsInner(s[2]);
    HexIsInner(s[3]);
  }

  lemma ScanUnicode(s: string, depth: nat, maximum: nat)
    requires ParseUnicode(s).Ok?
    ensures Scan(s, depth, Quoted, maximum) == Scan(ParseUnicode(s).rest, depth, Quoted, maximum)
  {
    HexFourIsInner(s);
    ScanInner(s, 4, depth, maximum);
    if HexFour(s) >= 0xD800 && HexFour(s) < 0xDC00 {
      HexFourIsInner(s[6..]);
      ScanInner(s[6..], 4, depth, maximum);
      assert s[4..][1..] == s[5..] && s[5..][1..] == s[6..] && s[6..][4..] == s[10..];
      hide HexFour;
      assert Scan(s[4..], depth, Quoted, maximum) == Scan(s[5..], depth, Escaped, maximum);
      assert Scan(s[5..], depth, Escaped, maximum) == Scan(s[6..], depth, Quoted, maximum);
    }
  }

  lemma ScanEscape(s: string, depth: nat, maximum: nat)
    requires ParseEscape(s).Ok?
    ensures Scan(s, depth, Escaped, maximum) == Scan(ParseEscape(s).rest, depth, Quoted, maximum)
  {
    assert Scan(s, depth, Escaped, maximum) == Scan(s[1..], depth, Quoted, maximum);
    if s[0] == 'u' {
      ScanUnicode(s[1..], depth, maximum);
    }
  }

  lemma {:induction false} ScanString(s: string, depth: nat, maximum: nat)
    requires ParseString(s).Ok?
    ensures Scan(s, depth, Quoted, maximum) == Scan(ParseString(s).rest, depth, Plain, maximum)
    decreases |s|
  {
    hide ParseEscape;
    if s[0] == '\\' {
      ScanEscape(s[1..], depth, maximum);
      ScanString(ParseEscape(s[1..]).rest, depth, maximum);
    } else if s[0] != '"' {
      ScanString(s[1..], depth, maximum);
    }
  }

  lemma DigitsAreNeutral(s: string)
    ensures forall i :: 0 <= i < |LeadingDigits(s)| ==> Neutral(s[i])
  {
    forall i | 0 <= i < |LeadingDigits(s)| ensures Neutral(s[i]) {
      assert s[i] == LeadingDigits(s)[i];
    }
  }

  /** `rest` is what is left of `s` after some neutral characters. */
  predicate NeutralUpTo(s: string, rest: string) {
    && |rest| <= |s| && s[|s| - |rest|..] == rest
    && forall i :: 0 <= i < |s| - |rest| ==> Neutral(s[i])
  }

  lemma NeutralChain(s: string, t: string, rest: string)
    requires NeutralUpTo(s, t) && NeutralUpTo(t, rest)
    ensures NeutralUpTo(s, rest)
  {
    assert forall i :: 0 <= i < |t| ==> t[i] == s[i + |s| - |t|];
    assert s[|s| - |rest|..] == t[|t| - |rest|..];
    forall i | 0 <= i < |s| - |rest| ensures Neutral(s[i]) {
      if i >= |s| - |t| {
        assert s[i] == t[i - (|s| - |t|)];
      }
    }
  }

  lemma NaturalsAreNeutral(s: string)
    requires ParseNatural(s).Ok?
    ensures NeutralUpTo(s, ParseNatural(s).rest)
  {
    DigitsAreNeutral(s);
    hide LeadingDigits;
  }

  lemma FractionsAreNeutral(s: string)
    ensures NeutralUpTo(s, s[FractionLength(s)..])
  {
    if s != "" {
      DigitsAreNeutral(s[1..]);
      hide LeadingDigits;
      assert forall i :: 1 <= i < |s| ==> s[i] == s[1..][i - 1];
    }
  }

  lemma ExponentsAreNeutral(s: string)
    ensures NeutralUpTo(s, s[ExponentLength(s)..])
  {
    if s != "" {
      var t := SkipSign(s[1..]);
      DigitsAreNeutral(t);
      hide LeadingDigits;
      assert forall i :: |s| - |t| <= i < |s| ==> s[i] == t[i - (|s| - |t|)];
    }
  }

  function Unsigned(s: string): string {
    if s != "" && s[0] == '-' then s[1..] else s
  }

  lemma SignIsNeutral(s: string)
    ensures NeutralUpTo(s, Unsigned(s))
  {
  }

  lemma NumberParts(s: string)
    requires ParseNumber(s).Ok?
    ensures ParseNatural(Unsigned(s)).Ok? && Depth(ParseNumber(s).value) == 0
    ensures var rest := ParseNatural(Unsigned(s)).rest[FractionLength(ParseNatural(Unsigned(s)).rest)..];
      ParseNumber(s).rest == rest[ExponentLength(rest)..]
  {
    hide ParseNatural, FractionLength, ExponentLength;
    var after := ParseNatural(Unsigned(s)).rest;
    var fraction := FractionLength(after);
    var exponent := ExponentLength(after[fraction..]);
    assert after[fraction..][exponent..] == after[fraction + exponent..];
    assert after[0..] == after;
  }

  /** The characters of a number are neutral. */
  lemma NumbersAreNeutral(s: string)
    requires ParseNumber(s).Ok?
    ensures NeutralUpTo(s, ParseNumber(s).rest) && Depth(ParseNumber(s).value) == 0
  {
    hide NeutralUpTo, Neutral, Unsigned, ParseNumber, ParseNatural, FractionLength, ExponentLength;
    NumberParts(s);
    var after := ParseNatural(Unsigned(s)).rest;
    var rest := after[FractionLength(after)..];
    SignIsNeutral(s);
    NaturalsAreNeutral(Unsigned(s));
    FractionsAreNeutral(after);
    ExponentsAreNeutral(rest);
    NeutralChain(s, Unsigned(s), after);
    NeutralChain(s, after, rest);
    NeutralChain(s, rest, rest[ExponentLength(rest)..]);
  }

  lemma ScanScalar(s: string, depth: nat, maximum: nat)
    requires ParseValue(s).Ok? && s[0] != '[' && s[0] != '{'
    ensures Scan(s, depth, Plain, maximum) == Scan(ParseValue(s).rest, depth, Plain, maximum)
    ensures Depth(ParseValue(s).value) == 0
  {
    hide ParseString, ParseNumber, ParseItems, ParseMembers;
    if s[0] == '"' {
      ScanString(s[1..], depth, maximum);
    } else if s[0] == 'n' {
      ScanNeutral(s, 4, depth, maximum);
    } else if s[0] == 't' {
      ScanNeutral(s, 4, depth, maximum);
    } else if s[0] == 'f' {
      ScanNeutral(s, 5, depth, maximum);
    } else {
      NumbersAreNeutral(s);
      ScanNeutral(s, |s| - |ParseNumber(s).rest|, depth, maximum);
    }
  }

  /** Scanning past a value that the reader takes succeeds exactly when its nesting fits above
      the present depth, and leaves the depth as it was. */
  lemma {:induction false} ScanValue(s: string, depth: nat, maximum: nat)
    requires depth <= maximum && ParseValue(s).Ok?
    ensures Scan(s, depth, Plain, maximum) <==>
      depth + Depth(ParseValue(s).value) <= maximum && Scan(ParseValue(s).rest, depth, Plain, maximum)
    decreases |s|, 1
  {
    hide ParseValue, Depth;
    if s[0] == '[' {
      ScanArray(s, depth, maximum);
    } else if s[0] == '{' {
      ScanObject(s, depth, maximum);
    } else {
      ScanScalar(s, depth, maximum);
    }
  }

  lemma ScanArray(s: string, depth: nat, maximum: nat)
    requires depth <= maximum && ParseValue(s).Ok? && s[0] == '['
    ensures Scan(s, depth, Plain, maximum) <==>
      depth + Depth(ParseValue(s).value) <= maximum && Scan(ParseValue(s).rest, depth, Plain, maximum)
    decreases |s|, 0
  {
    hide ParseItems, ParseMembers, ParseString, ParseNumber, ItemsDepth, MembersDepth;
    var t := SkipSpace(s[1..]);
    ScanSpace(s[1..], depth + 1, maximum);
    if t != "" && t[0] == ']' {
      NoDepth();
    } else if depth + 1 <= maximum {
      ScanItems(t, depth + 1, maximum);
    }
  }

  lemma ScanObject(s: string, depth: nat, maximum: nat)
    requires depth <= maximum && ParseValue(s).Ok? && s[0] == '{'
    ensures Scan(s, depth, Plain, maximum) <==>
      depth + Depth(ParseValue(s).value) <= maximum && Scan(ParseValue(s).rest, depth, Plain, maximum)
    decreases |s|, 0
  {
    hide ParseItems, ParseMembers, ParseString, ParseNumber, ItemsDepth, MembersDepth;
    var t := SkipSpace(s[1..]);
    ScanSpace(s[1..], depth + 1, maximum);
    if t != "" && t[0] == '}' {
      NoDepth();
    } else if depth + 1 <= maximum {
      ScanMembers(t, depth + 1, maximum);
    }
  }

  lemma NoDepth()
    ensures ItemsDepth([]) == 0 == MembersDepth([])
  {
  }

  lemma {:induction false} ScanItems(s: string, depth: nat, maximum: nat)
    requires 0 < depth <= maximum && ParseItems(s).Ok?
    ensures Scan(s, depth, Plain, maximum) <==>
      depth + ItemsDepth(ParseItems(s).value) <= maximum && Scan(ParseItems(s).rest, depth - 1, Plain, maximum)
    decreases |s|, 2
  {
    hide ParseValue, Depth;
    ScanValue(s, depth, maximum);
    var v, after := ParseValue(s).value, ParseValue(s).rest;
    var t := SkipSpace(after);
    ScanSpace(after, depth, maximum);
    if t[0] == ',' {
      var u := SkipSpace(t[1..]);
      ScanSpace(t[1..], depth, maximum);
      ScanItems(u, depth, maximum);
      assert ([v] + ParseItems(u).value)[1..] == ParseItems(u).value;
    } else {
      assert [v][1..] == [];
    }
  }

  lemma ScanMember(s: string, depth: nat, maximum: nat)
    requires depth <= maximum && ParseMember(s).Ok?
    ensures Scan(s, depth, Plain, maximum) <==>
      depth + Depth(ParseMember(s).value.value) <= maximum && Scan(ParseMember(s).rest, depth, Plain, maximum)
    decreases |s|, 0
  {
    hide ParseValue, ParseString, Depth;
    ScanString(s[1..], depth, maximum);
    var after := ParseString(s[1..]).rest;
    ScanSpace(after, depth, maximum);
    var t := SkipSpace(after);
    ScanSpace(t[1..], depth, maximum);
    ScanValue(SkipSpace(t[1..]), depth, maximum);
  }

  lemma {:induction false} ScanMembers(s: string, depth: nat, maximum: nat)
    requires 0 < depth <= maximum && ParseMembers(s).Ok?
    ensures Scan(s, depth, Plain, maximum) <==>
      depth + MembersDepth(ParseMembers(s).value) <= maximum && Scan(ParseMembers(s).rest, depth - 1, Plain, maximum)
    decreases |s|, 1
  {
    hide ParseMember, Depth;
    ScanMember(s, depth, maximum);
    var m, after := ParseMember(s).value, ParseMember(s).rest;
    var t := SkipSpace(after);
    ScanSpace(after, depth, maximum);
    if t[0] == ',' {
      var u := SkipSpace(t[1..]);
      ScanSpace(t[1..], depth, maximum);
      ScanMembers(u, depth, maximum);
      assert ([m] + ParseMembers(u).value)[1..] == ParseMembers(u).value;
    } else {
      assert [m][1..] == [];
    }
  }

  /** The nesting check is exact on every text that `Decode` takes - what json.loads takes, but for
      lone surrogate escapes: it passes if and only if the value's nesting depth is at most the
      maximum. */
  lemma NestingIsExact(text: string, maximum: nat)
    requires Decode(text).Value?
    ensures Scan(text, 0, Plain, maximum) <==> Depth(Decode(text).value) <= maximum
  {
    var s := SkipSpace(text);
    ScanSpace(text, 0, maximum);
    ScanValue(s, 0, maximum);
    ScanSpace(ParseValue(s).rest, 0, maximum);
  }

  // ---- duplicate keys ----------------------------------------------------------------

  /** unique_object (app/strict_json.py:43-49): fills a dictionary unless some key comes twice. */
  method UniqueObject(pairs: seq<Member>) returns (ok: bool, result: map<string, Json>)
    ensures ok == UniqueKeys(pairs)
    ensures ok ==> result.Keys == Canonical.Keys(pairs) && forall i :: 0 <= i < |pairs| ==> result[pairs[i].key] == pairs[i].value
  {
    result := map[];
    for i := 0 to |pairs|
      invariant UniqueKeys(pairs[..i]) && result.Keys == Canonical.Keys(pairs[..i])
      invariant forall j :: 0 <= j < i ==> pairs[j].key in result && result[pairs[j].key] == pairs[j].value
    {
      assert pairs[..i + 1] == pairs[..i] + [pairs[i]];
      if pairs[i].key in result {
        var m :| m in pairs[..i] && m.key == pairs[i].key;
        return false, result;
      }
      result := result[pairs[i].key := pairs[i].value];
    }
    assert pairs[..|pairs|] == pairs;
    ok := true;
  }

  // ---- the tree walk ------------------------------------------------------------------

  /** How many values a tree holds; property names are not counted. */
  function Nodes(v: Json): nat {
    match v
    case Arr(items) => 1 + ItemsNodes(items)
    case Obj(members) => 1 + MembersNodes(members)
    case _ => 1
  }

  function ItemsNodes(items: seq<Json>): nat {
    if items == [] then 0 else Nodes(items[0]) + ItemsNodes(items[1..])
  }

  function MembersNodes(members: seq<Member>): nat {
    if members == [] then 0 else Nodes(members[0].value) + MembersNodes(members[1..])
  }

  predicate FitsBytes(s: string, limit: nat) {
    |Utf8.Encode(s)| <= limit
  }

  /** Every string and property name is within the byte limit. */
  predicate StringsFit(v: Json, limit: nat) {
    match v
    case Str(s) => FitsBytes(s, limit)
    case Arr(items) => ItemsFit(items, limit)
    case Obj(members) => MembersFit(members, limit)
    case _ => true
  }

  predicate ItemsFit(items: seq<Json>, limit: nat) {
    forall i :: 0 <= i < |items| ==> StringsFit(items[i], limit)
  }

  predicate MembersFit(members: seq<Member>, limit: nat) {
    forall i :: 0 <= i < |members| ==> FitsBytes(members[i].key, limit) && StringsFit(members[i].value, limit)
  }

  function Values(members: seq<Member>): (r: seq<Json>)
    ensures |r| == |members| && forall i :: 0 <= i < |r| ==> r[i] == members[i].value
  {
    seq(|members|, i requires 0 <= i < |members| => members[i].value)
  }

  lemma {:induction false} ItemsNodesAppend(a: seq<Json>, b: seq<Json>)
    ensures ItemsNodes(a + b) == ItemsNodes(a) + ItemsNodes(b)
  {
    if a == [] {
      assert a + b == b;
    } else {
      ItemsNodesAppend(a[1..], b);
      assert (a + b)[1..] == a[1..] + b;
    }
  }

  lemma {:induction false} ValuesNodes(members: seq<Member>)
    ensures ItemsNodes(Values(members)) == MembersNodes(members)
  {
    if members != [] {
      ValuesNodes(members[1..]);
      assert Values(members)[1..] == Values(members[1..]);
    }
  }

  lemma PopLast(pending: seq<Json>)
    requires pending != []
    ensures var rest, v := pending[..|pending| - 1], pending[|pending| - 1];
      ItemsNodes(pending) == ItemsNodes(rest) + Nodes(v) && Nodes(v) >= 1
  {
    var rest, v := pending[..|pending| - 1], pending[|pending| - 1];
    assert pending == rest + [v];
    ItemsNodesAppend(rest, [v]);
    assert [v][1..] == [];
  }

  /** What a popped value puts on the stack. */
  function Children(v: Json): seq<Json> {
    match v
    case Arr(items) => items
    case Obj(members) => Values(members)
    case _ => []
  }

  /** The checks on a popped value itself. */
  predicate OwnStringsFit(v: Json, limit: nat) {
    match v
    case Str(s) => FitsBytes(s, limit)
    case Obj(members) => forall i :: 0 <= i < |members| ==> FitsBytes(members[i].key, limit)
    case _ => true
  }

  /** Replacing a value on the stack by its children takes one node away, and loses no string. */
  lemma VisitOne(pending: seq<Json>, limit: nat)
    requires pending != []
    ensures var rest, v := pending[..|pending| - 1], pending[|pending| - 1];
      && ItemsNodes(rest + Children(v)) == ItemsNodes(pending) - 1
      && (ItemsFit(pending, limit) <==> OwnStringsFit(v, limit) && ItemsFit(rest + Children(v), limit))
  {
    var rest, v := pending[..|pending| - 1], pending[|pending| - 1];
    PopLast(pending);
    ItemsNodesAppend(rest, Children(v));
    if v.Obj? { ValuesNodes(v.members); }
    VisitFits(rest, v, limit);
    hide ItemsNodes, ItemsFit, Children;
    assert pending == rest + [v];
  }

  lemma VisitFits(rest: seq<Json>, v: Json, limit: nat)
    ensures ItemsFit(rest + [v], limit) <==> OwnStringsFit(v, limit) && ItemsFit(rest + Children(v), limit)
  {
    hide FitsBytes;
    FitsAppend(rest, [v], limit);
    FitsAppend(rest, Children(v), limit);
    assert ItemsFit([v], limit) <==> StringsFit(v, limit) by { OneFits(v, limit); }
    assert StringsFit(v, limit) <==> OwnStringsFit(v, limit) && ItemsFit(Children(v), limit) by { ChildrenFit(v, limit); }
  }

  lemma OneFits(v: Json, limit: nat)
    ensures ItemsFit([v], limit) <==> StringsFit(v, limit)
  {
    assert [v][0] == v;
  }

  lemma ChildrenFit(v: Json, limit: nat)
    ensures StringsFit(v, limit) <==> OwnStringsFit(v, limit) && ItemsFit(Children(v), limit)
  {
    hide FitsBytes;
    if v.Obj? {
      assert forall i :: 0 <= i < |v.members| ==> Children(v)[i] == v.members[i].value;
    }
  }

  lemma FitsAppend(a: seq<Json>, b: seq<Json>, limit: nat)
    ensures ItemsFit(a + b, limit) <==> ItemsFit(a, limit) && ItemsFit(b, limit)
  {
    hide StringsFit;
    if ItemsFit(a + b, limit) {
      forall i | 0 <= i < |a| ensures StringsFit(a[i], limit) { assert (a + b)[i] == a[i]; }
      forall i | 0 <= i < |b| ensures StringsFit(b[i], limit) { assert (a + b)[|a| + i] == b[i]; }
    }
  }

  /** The object branch of the walk (app/strict_json.py:99-103): pushes the values if every
      property name is within the limit. */
  method PushMembers(pending: seq<Json>, members: seq<Member>, limit: nat) returns (ok: bool, pushed: seq<Json>)
    ensures ok == forall i :: 0 <= i < |members| ==> FitsBytes(members[i].key, limit)
    ensures ok ==> pushed == pending + Values(members)
  {
    pushed := pending;
    for i := 0 to |members|
      invariant forall j :: 0 <= j < i ==> FitsBytes(members[j].key, limit)
      invariant pushed == pending + Values(members)[..i]
    {
      if |Utf8.Encode(members[i].key)| > limit {
        return false, pushed;
      }
      pushed := pushed + [members[i].value];
    }
    ok := true;
  }

  /** _check_tree (app/strict_json.py:88-105): the walk over a stack accepts if and only if the
      tree has few enough values and short enough strings, in whatever order they are visited. */
  method CheckTree(value: Json, maxNodes: nat, maxStringBytes: nat) returns (ok: bool)
    ensures ok <==> Nodes(value) <= maxNodes && StringsFit(value, maxStringBytes)
  {
    hide Nodes, ItemsNodes, StringsFit, ItemsFit, FitsBytes, Children;
    var nodes, pending := 0, [value];
    StartWalk(value, maxStringBytes);
    while pending != []
      invariant nodes + ItemsNodes(pending) == Nodes(value) && nodes <= maxNodes
      invariant ItemsFit(pending, maxStringBytes) <==> StringsFit(value, maxStringBytes)
      decreases ItemsNodes(pending)
    {
      VisitOne(pending, maxStringBytes);
      var current := pending[|pending| - 1];
      PopLast(pending);
      pending := pending[..|pending| - 1];
      nodes := nodes + 1;
      if nodes > maxNodes {
        return false;
      }
      ChildrenOf(current);
      match current
      case Str(s) =>
        if |Utf8.Encode(s)| > maxStringBytes {
          TooLong(s, maxStringBytes);
          return false;
        }
        ShortEnough(s, maxStringBytes);
        assert pending + [] == pending;
      case Obj(members) =>
        var fits;
        fits, pending := PushMembers(pending, members, maxStringBytes);
        if !fits {
          return false;
        }
      case Arr(items) =>
        pending := pending + items;
      case _ =>
        assert pending + [] == pending;
    }
    EndWalk(maxStringBytes);
    ok := true;
  }

  lemma StartWalk(value: Json, limit: nat)
    ensures ItemsNodes([value]) == Nodes(value) && (ItemsFit([value], limit) <==> StringsFit(value, limit))
  {
    PopLast([value]);
    OneFits(value, limit);
    assert [value][..0] == [];
  }

  lemma EndWalk(limit: nat)
    ensures ItemsNodes([]) == 0 && ItemsFit([], limit)
  {
  }

  lemma ChildrenOf(v: Json)
    ensures Children(v) == match v case Arr(items) => items case Obj(members) => Values(members) case _ => []
  {
  }

  lemma TooLong(s: string, limit: nat)
    requires |Utf8.Encode(s)| > limit
    ensures !FitsBytes(s, limit)
  {
  }

  lemma ShortEnough(s: string, limit: nat)
    requires |Utf8.Encode(s)| <= limit
    ensures FitsBytes(s, limit)
  {
  }

  // ---- loads_strict -----------------------------------------------------------------------

  /** The value that a call of loads_strict on some bytes returns; Invalid for StrictJsonError. */
  function Loads(raw: seq<Utf8.Byte>, limits: Limits): Decoded {
    match Utf8.Decode(raw)
    case Malformed => Invalid
    case Text(text) =>
      if |raw| > limits.maxBytes || !Scan(text, 0, Plain, limits.maxDepth) then Invalid
      else
        match Decode(text)
        case Invalid => Invalid
        case Value(v) =>
          if Nodes(v) <= limits.maxNodes && StringsFit(v, limits.maxStringBytes) then Value(v) else Invalid
  }

  /** loads_strict on bytes (app/strict_json.py:17-58). */
  method LoadsStrict(raw: seq<Utf8.Byte>, limits: Limits) returns (result: Decoded)
    ensures result == Loads(raw, limits)
  {
    hide Scan, Decode, Nodes, StringsFit;
    var decoded := Utf8.Decode(raw);
    if decoded.Malformed? {
      return Invalid;
    }
    var text := decoded.text;
    if |raw| > limits.maxBytes {
      return Invalid;
    }
    var nested := CheckNesting(text, limits.maxDepth);
    if !nested {
      return Invalid;
    }
    var value := Decode(text);
    if value.Invalid? {
      return Invalid;
    }
    var fits := CheckTree(value.value, limits.maxNodes, limits.maxStringBytes);
    result := if fits then value else Invalid;
  }

  /** The limits admit a value that was read from so many bytes. */
  predicate Admits(limits: Limits, size: nat, v: Json) {
    && size <= limits.maxBytes && Depth(v) <= limits.maxDepth
    && Nodes(v) <= limits.maxNodes && StringsFit(v, limits.maxStringBytes)
  }

  /** loads_strict returns exactly what `Decode` - json.loads, but for lone surrogate escapes -
      would, cut down to the values that the limits admit: no other input is refused, and no other
      one gets through. A lone surrogate escape ends in an error either way. */
  lemma LoadsIsBoundedDecode(raw: seq<Utf8.Byte>, limits: Limits, v: Json)
    ensures Loads(raw, limits) == Value(v) <==>
      && Utf8.Decode(raw).Text? && Decode(Utf8.Decode(raw).text) == Value(v) && Admits(limits, |raw|, v)
  {
    if Utf8.Decode(raw).Text? && Decode(Utf8.Decode(raw).text).Value? {
      NestingIsExact(Utf8.Decode(raw).text, limits.maxDepth);
    }
    hide Scan, Decode, Nodes, StringsFit, Depth, Utf8.Decode;
  }

  // ---- canonical bytes come back -------------------------------------------------------------

  /** Two values that the limits cannot tell apart. */
  predicate Alike(v: Json, w: Json, limit: nat) {
    Depth(v) == Depth(w) && Nodes(v) == Nodes(w) && (StringsFit(v, limit) <==> StringsFit(w, limit))
  }

  lemma {:induction false} AlikeItems(a: seq<Json>, b: seq<Json>, limit: nat)
    requires |a| == |b| && forall i :: 0 <= i < |a| ==> Alike(a[i], b[i], limit)
    ensures ItemsDepth(a) == ItemsDepth(b) && ItemsNodes(a) == ItemsNodes(b) && (ItemsFit(a, limit) <==> ItemsFit(b, limit))
  {
    if a != [] {
      AlikeItems(a[1..], b[1..], limit);
      HeadFits(a, limit);
      HeadFits(b, limit);
      hide ItemsFit, StringsFit, Depth, Nodes;
      assert Alike(a[0], b[0], limit);
    }
  }

  lemma HeadFits(a: seq<Json>, limit: nat)
    requires a != []
    ensures ItemsFit(a, limit) <==> StringsFit(a[0], limit) && ItemsFit(a[1..], limit)
  {
    hide StringsFit;
    if ItemsFit(a[1..], limit) && StringsFit(a[0], limit) {
      forall i | 0 < i < |a| ensures StringsFit(a[i], limit) { assert a[1..][i - 1] == a[i]; }
    }
  }

  lemma HeadMemberFits(a: seq<Member>, limit: nat)
    requires a != []
    ensures MembersFit(a, limit) <==>
      FitsBytes(a[0].key, limit) && StringsFit(a[0].value, limit) && MembersFit(a[1..], limit)
  {
    hide StringsFit, FitsBytes;
    if MembersFit(a[1..], limit) && StringsFit(a[0].value, limit) && FitsBytes(a[0].key, limit) {
      forall i | 0 < i < |a| ensures FitsBytes(a[i].key, limit) && StringsFit(a[i].value, limit) { assert a[1..][i - 1] == a[i]; }
    }
  }

  predicate AlikeObjects(a: seq<Member>, b: seq<Member>, limit: nat) {
    MembersDepth(a) == MembersDepth(b) && MembersNodes(a) == MembersNodes(b) && (MembersFit(a, limit) <==> MembersFit(b, limit))
  }

  lemma {:induction false} AlikeMembers(a: seq<Member>, b: seq<Member>, limit: nat)
    requires |a| == |b|
    requires forall i :: 0 <= i < |a| ==> a[i].key == b[i].key && Alike(a[i].value, b[i].value, limit)
    ensures AlikeObjects(a, b, limit)
  {
    if a != [] {
      AlikeMembers(a[1..], b[1..], limit);
      HeadMemberFits(a, limit);
      HeadMemberFits(b, limit);
      hide MembersFit, StringsFit, FitsBytes, Depth, Nodes;
      assert Alike(a[0].value, b[0].value, limit);
    }
  }

  /** What one member in front adds. */
  lemma InFront(m: Member, a: seq<Member>, limit: nat)
    ensures MembersDepth([m] + a) == Max(Depth(m.value), MembersDepth(a))
    ensures MembersNodes([m] + a) == Nodes(m.value) + MembersNodes(a)
    ensures MembersFit([m] + a, limit) <==> FitsBytes(m.key, limit) && StringsFit(m.value, limit) && MembersFit(a, limit)
  {
    HeadMemberFits([m] + a, limit);
    hide MembersFit, StringsFit, FitsBytes, Depth, Nodes;
    assert ([m] + a)[1..] == a;
  }

  lemma ConsAlike(m: Member, a: seq<Member>, b: seq<Member>, limit: nat)
    requires AlikeObjects(a, b, limit)
    ensures AlikeObjects([m] + a, [m] + b, limit)
  {
    hide MembersFit, StringsFit, FitsBytes, Depth, Nodes, MembersDepth, MembersNodes;
    InFront(m, a, limit);
    InFront(m, b, limit);
  }

  lemma SwapAlike(m: Member, n: Member, a: seq<Member>, limit: nat)
    ensures AlikeObjects([m] + ([n] + a), [n] + ([m] + a), limit)
  {
    hide MembersFit, StringsFit, FitsBytes, Depth, Nodes, MembersDepth, MembersNodes;
    InFront(m, a, limit);
    InFront(n, a, limit);
    InFront(m, [n] + a, limit);
    InFront(n, [m] + a, limit);
  }

  lemma {:induction false} InsertIsAlike(m: Member, sorted: seq<Member>, limit: nat)
    ensures AlikeObjects(Canonical.Insert(m, sorted), [m] + sorted, limit)
  {
    if sorted != [] && Text.Less(sorted[0].key, m.key) {
      var first, rest := sorted[0], sorted[1..];
      InsertIsAlike(m, rest, limit);
      ConsAlike(first, Canonical.Insert(m, rest), [m] + rest, limit);
      SwapAlike(first, m, rest, limit);
      hide AlikeObjects;
      assert sorted == [first] + rest;
      AlikeChain(Canonical.Insert(m, sorted), [first] + ([m] + rest), [m] + sorted, limit);
    }
  }

  lemma AlikeChain(a: seq<Member>, b: seq<Member>, c: seq<Member>, limit: nat)
    requires AlikeObjects(a, b, limit) && AlikeObjects(b, c, limit)
    ensures AlikeObjects(a, c, limit)
  {
  }

  /** Sorting the members of an object changes nothing the limits look at. */
  lemma {:induction false} SortIsAlike(members: seq<Member>, limit: nat)
    ensures AlikeObjects(Canonical.Sort(members), members, limit)
  {
    if members != [] {
      var m, rest := members[0], members[1..];
      SortIsAlike(rest, limit);
      InsertIsAlike(m, Canonical.Sort(rest), limit);
      ConsAlike(m, Canonical.Sort(rest), rest, limit);
      hide AlikeObjects, Canonical.Insert;
      assert members == [m] + rest;
      AlikeChain(Canonical.Sort(members), [m] + Canonical.Sort(rest), members, limit);
    }
  }

  lemma {:induction false} NormalIsAlike(v: Json, limit: nat)
    ensures Alike(Canonical.Normal(v), v, limit)
  {
    match v
    case Arr(items) =>
      var normal := Canonical.Normal(v).items;
      forall i | 0 <= i < |items| ensures Alike(normal[i], items[i], limit) {
        NormalIsAlike(items[i], limit);
      }
      AlikeItems(normal, items, limit);
    case Obj(members) =>
      var normal := Canonical.NormalMembers(members);
      forall i | 0 <= i < |members| ensures normal[i].key == members[i].key && Alike(normal[i].value, members[i].value, limit) {
        NormalIsAlike(members[i].value, limit);
      }
      AlikeMembers(normal, members, limit);
      SortIsAlike(normal, limit);
      hide AlikeObjects, Canonical.Sort, Canonical.NormalMembers;
      AlikeChain(Canonical.Sort(normal), normal, members, limit);
    case _ =>
  }

  /** Canonical bytes come back: loads_strict gives the same value whenever the limits admit it,
      and an error otherwise. */
  lemma CanonicalBytesLoadBack(v: Json, limits: Limits)
    requires WellFormed(v)
    ensures var raw := Canonical.CanonicalBytes(v);
      && Loads(raw, limits) == (if Admits(limits, |raw|, v) then Value(Canonical.Normal(v)) else Invalid)
      && Canonical.Same(v, Canonical.Normal(v))
  {
    var raw, normal := Canonical.CanonicalBytes(v), Canonical.Normal(v);
    Canonical.SameAsNormal(v);
    Canonical.NormalIsWellFormed(v);
    Utf8.DecodeUndoesEncode(Canonical.CanonicalText(v));
    DecodeUndoesPrint(normal);
    LoadsIsBoundedDecode(raw, limits, normal);
    NormalIsAlike(v, limits.maxStringBytes);
    hide Scan, Decode, Nodes, StringsFit, Depth, Utf8.Decode, Utf8.Encode, Canonical.Normal, Canonical.Same, WellFormed, Print;
    assert Loads(raw, limits) != Value(normal) ==> Loads(raw, limits) == Invalid by {
      OnlyDecoded(raw, limits);
    }
  }

  lemma OnlyDecoded(raw: seq<Utf8.Byte>, limits: Limits)
    ensures Loads(raw, limits) == Invalid
      || (Utf8.Decode(raw).Text? && Loads(raw, limits) == Decode(Utf8.Decode(raw).text))
  {
    hide Scan, Decode, Nodes, StringsFit, Utf8.Decode;
  }
}
