/** What canonical_json_bytes writes (app/canonical.py:18-19), in terms of the grammar of JSON: the
    compact text of the value with the members of every object in the order of their keys. */
module CanonicalForm {
  import opened Canonical
  import opened Grammar
  import opened Json
  import Decimal
  import Reading
  import Text
  import Utf8

  // ---- what is printed -----------------------------------------------------------------

  /** Every digit string without a leading zero is how its number is printed. */
  lemma {:induction false} DigitsAreUnique(s: string)
    requires s != "" && Decimal.AllDigits(s) && (s[0] == '0' ==> s == "0")
    ensures Decimal.Digits(Decimal.Value(s)) == s
    decreases |s|
  {
    var init, d := s[..|s| - 1], Decimal.DigitValue(s[|s| - 1]);
    assert s == init + [s[|s| - 1]];
    assert Decimal.DigitChar(d) == s[|s| - 1] by {
      hide Decimal.Value, Decimal.Digits;
      assert forall i :: 0 <= i < 10 ==> "0123456789"[i] as int == '0' as int + i;
    }
    if init == "" {
      assert Decimal.Value("") == 0;
    } else {
      DigitsAreUnique(init);
      PositiveValue(init);
    }
  }

  lemma {:induction false} PositiveValue(s: string)
    requires s != "" && Decimal.AllDigits(s) && s[0] != '0'
    ensures Decimal.Value(s) > 0
  {
    if |s| > 1 {
      PositiveValue(s[..|s| - 1]);
    }
  }

  lemma NaturalIff(s: string, n: int)
    ensures NaturalText(s, n) <==> n >= 0 && s == Decimal.Digits(n)
  {
    if NaturalText(s, n) {
      DigitsAreUnique(s);
    }
    if n >= 0 {
      Decimal.DigitsRoundTrip(n);
      Decimal.NoLeadingZero(n);
    }
    hide Decimal.Value, Decimal.Digits;
  }

  lemma IntIff(s: string, n: int)
    ensures IntText(Compact, s, n) <==> s == PrintInt(n)
  {
    NaturalIff(s, n);
    if s != "" {
      NaturalIff(s[1..], -n);
    }
    hide NaturalText, Decimal.Digits;
    if n < 0 {
      assert PrintInt(n)[1..] == Decimal.Digits(-n);
      assert s != "" && s[0] == '-' ==> s == "-" + s[1..];
    }
  }

  lemma LowerHexIff(c: char, d: int)
    ensures IsHex(c, d) && !('A' <= c <= 'F') <==> 0 <= d < 16 && c == HexDigit(d)
  {
    assert forall i :: 10 <= i < 16 ==> 'A' <= "0123456789ABCDEF"[i] <= 'F';
    assert forall i :: 0 <= i < 10 ==> "0123456789ABCDEF"[i] == "0123456789abcdef"[i];
    assert forall i :: 0 <= i < 16 ==> !('A' <= "0123456789abcdef"[i] <= 'F');
  }

  /** The number of a control character, in lower case. */
  lemma ControlIff(s: string, c: char)
    requires c < ' '
    ensures |s| == 6 && Numeric(s, c) && LowerCase(s) <==> s == "\\u00" + [HexDigit(c as int / 16), HexDigit(c as int % 16)]
  {
    hide *;
    if |s| == 6 && Numeric(s, c) && LowerCase(s) {
      ControlIsSpelled(s, c);
    }
    if s == "\\u00" + [HexDigit(c as int / 16), HexDigit(c as int % 16)] {
      ControlIsNumeric(s, c);
    }
  }

  lemma ControlIsSpelled(s: string, c: char)
    requires c < ' ' && |s| == 6 && Numeric(s, c) && LowerCase(s)
    ensures s == "\\u00" + [HexDigit(c as int / 16), HexDigit(c as int % 16)]
  {
    hide IsHex, HexDigit;
    var n, q := c as int, s[2..];
    var a, b, d, e :| IsHex(q[0], a) && IsHex(q[1], b) && IsHex(q[2], d) && IsHex(q[3], e) && n == 4096 * a + 256 * b + 16 * d + e;
    assert s == s[..2] + q && q == [q[0], q[1], q[2], q[3]];
    InRange(q, a, b, d, e);
    assert a == 0 && b == 0 && d == n / 16 && e == n % 16;
    LowerHexIff(q[0], 0);
    LowerHexIff(q[1], 0);
    LowerHexIff(q[2], d);
    LowerHexIff(q[3], e);
    ZeroDigit();
  }

  lemma ZeroDigit()
    ensures HexDigit(0) == '0'
  {
  }

  lemma ControlIsNumeric(s: string, c: char)
    requires c < ' ' && s == "\\u00" + [HexDigit(c as int / 16), HexDigit(c as int % 16)]
    ensures |s| == 6 && Numeric(s, c) && LowerCase(s)
  {
    hide IsHex, HexDigit;
    var n, q := c as int, s[2..];
    ZeroDigit();
    LowerHexIff('0', 0);
    LowerHexIff(q[2], n / 16);
    LowerHexIff(q[3], n % 16);
    assert q[0] == '0' && q[1] == '0' && s[..2] == "\\u";
    assert IsHex(q[0], 0) && IsHex(q[1], 0) && IsHex(q[2], n / 16) && IsHex(q[3], n % 16);
    assert Quad(q, n);
    assert s[0] == '\\' && s[1] == 'u';
  }

  lemma InRange(q: string, a: int, b: int, d: int, e: int)
    requires |q| == 4 && IsHex(q[0], a) && IsHex(q[1], b) && IsHex(q[2], d) && IsHex(q[3], e)
    ensures 0 <= a < 16 && 0 <= b < 16 && 0 <= d < 16 && 0 <= e < 16
  {
  }

  lemma PieceIff(s: string, c: char)
    ensures Piece(Compact, s, c) <==> s == EscapeChar(c)
  {
    if c < ' ' && !(8 <= c as int <= 10 || 12 <= c as int <= 13) {
      ControlIff(s, c);
      hide Numeric, LowerCase, HexDigit;
    } else {
      hide Numeric, LowerCase;
      ShortIff(s, c);
    }
  }

  lemma ShortIff(s: string, c: char)
    requires c == '"' || c == '\\' || 8 <= c as int <= 10 || 12 <= c as int <= 13 || c >= ' '
    ensures (c == '"' || c == '\\' || 8 <= c as int <= 10 || 12 <= c as int <= 13) ==> (Short(s, c) <==> s == EscapeChar(c))
    ensures c >= ' ' && c != '"' && c != '\\' ==> EscapeChar(c) == [c]
  {
  }

  lemma {:induction false} BodyIff(s: string, text: string)
    ensures Body(Compact, s, text) <==> s == Escape(text)
    decreases text
  {
    hide Piece, EscapeChar;
    if text != "" {
      var p := EscapeChar(text[0]);
      EscapedIsSome(text[0]);
      PieceIff(p, text[0]);
      if Body(Compact, s, text) {
        var k :| 0 < k <= |s| && Piece(Compact, s[..k], text[0]) && Body(Compact, s[k..], text[1..]);
        PieceIff(s[..k], text[0]);
        BodyIff(s[k..], text[1..]);
      }
      if s == Escape(text) {
        BodyIff(Escape(text[1..]), text[1..]);
        assert [text[0]] + text[1..] == text;
        Reading.BodyCons(Compact, p, Escape(text[1..]), text[0], text[1..]);
      }
    }
  }

  lemma EscapedIsSome(c: char)
    ensures EscapeChar(c) != ""
  {
  }

  lemma QuotedIff(s: string, text: string)
    ensures StringText(Compact, s, text) <==> s == Quoted(text)
  {
    if StringText(Compact, s, text) {
      BodyIff(s[1..|s| - 1], text);
    }
    BodyIff(Escape(text), text);
    Reading.StringIntro(Compact, Escape(text), text);
    hide Body, Escape;
  }

  lemma PaddedIff(s: string, v: Json)
    ensures Padded(Compact, s, v) <==> Derives(Compact, s, v)
  {
    hide Derives;
    if Derives(Compact, s, v) {
      Reading.Pad(Compact, "", s, "", v);
      assert "" + s + "" == s;
    }
    if Padded(Compact, s, v) {
      NothingAround(s, v);
    }
  }

  lemma NothingAround(s: string, v: Json)
    requires Padded(Compact, s, v)
    ensures Derives(Compact, s, v)
  {
    hide Derives;
    var i: nat, j: nat :| PaddedAt(Compact, s, v, i, j);
    assert s[i..j] == s;
  }

  /** json.dumps writes the compact text of a value, and there is no other one. */
  lemma {:induction false} PrintIff(s: string, v: Json)
    requires WellFormed(v)
    ensures Derives(Compact, s, v) <==> s == Print(v)
    decreases v, 0
  {
    match v
    case Int(n) => IntIff(s, n);
    case Str(text) => QuotedIff(s, text);
    case Arr(items) => ArrayIff(s, items);
    case Obj(members) => ObjectIff(s, members);
    case _ =>
  }

  lemma {:induction false} ArrayIff(s: string, items: seq<Json>)
    requires forall i :: 0 <= i < |items| ==> WellFormed(items[i])
    ensures Derives(Compact, s, Arr(items)) <==> s == Print(Arr(items))
    decreases items, 2
  {
    hide Items, PrintItems, WellFormed;
    var text := PrintItems(items);
    if items == [] {
      NoItems();
    } else {
      ItemsIff(text, items);
      if |s| >= 2 { ItemsIff(s[1..|s| - 1], items); }
    }
    Reading.Cut("[", text, "]");
    if |s| >= 2 && s[0] == '[' && s[|s| - 1] == ']' {
      assert s == "[" + s[1..|s| - 1] + "]";
    }
    assert ("[" + text + "]")[1..|text| + 1] == text;
  }

  lemma NoItems()
    ensures PrintItems([]) == "" && PrintMembers([]) == ""
  {
  }

  lemma {:induction false} ItemsIff(s: string, items: seq<Json>)
    requires items != [] && forall i :: 0 <= i < |items| ==> WellFormed(items[i])
    ensures Items(Compact, s, items) <==> s == PrintItems(items)
    decreases items, 1
  {
    hide Print, WellFormed, Padded;
    forall t ensures Padded(Compact, t, items[0]) <==> t == Print(items[0]) {
      PaddedIff(t, items[0]);
      PrintIff(t, items[0]);
    }
    if |items| > 1 {
      forall t ensures Items(Compact, t, items[1..]) <==> t == PrintItems(items[1..]) {
        ItemsIff(t, items[1..]);
      }
      hide PrintItems, Items;
      ItemsSplit(s, items, Print(items[0]), PrintItems(items[1..]));
    }
  }

  lemma ItemsSplit(s: string, items: seq<Json>, first: string, rest: string)
    requires |items| > 1
    requires forall t :: Padded(Compact, t, items[0]) <==> t == first
    requires forall t :: Items(Compact, t, items[1..]) <==> t == rest
    requires first == Print(items[0]) && rest == PrintItems(items[1..])
    ensures Items(Compact, s, items) <==> s == PrintItems(items)
  {
    hide *;
    PrintedItems(items);
    if Items(Compact, s, items) {
      var p, more := Reading.FirstItem(Compact, s, items);
    }
    Reading.ItemsCons(Compact, first, rest, items);
  }

  lemma PrintedItems(items: seq<Json>)
    requires |items| > 1
    ensures PrintItems(items) == Print(items[0]) + "," + PrintItems(items[1..])
  {
    hide Print;
  }

  lemma {:induction false} ObjectIff(s: string, members: seq<Member>)
    requires UniqueKeys(members) && forall i :: 0 <= i < |members| ==> WellFormed(members[i].value)
    ensures Derives(Compact, s, Obj(members)) <==> s == Print(Obj(members))
    decreases members, 4
  {
    hide Members, PrintMembers, WellFormed, UniqueKeys;
    var text := PrintMembers(members);
    if members == [] {
      NoItems();
    } else {
      MembersIff(text, members);
      if |s| >= 2 { MembersIff(s[1..|s| - 1], members); }
    }
    Reading.Cut("{", text, "}");
    if |s| >= 2 && s[0] == '{' && s[|s| - 1] == '}' {
      assert s == "{" + s[1..|s| - 1] + "}";
    }
    assert ("{" + text + "}")[1..|text| + 1] == text;
  }

  lemma {:induction false} MemberIff(s: string, m: Member)
    requires WellFormed(m.value)
    ensures MemberText(Compact, s, m) <==> s == PrintMember(m)
    decreases m, 2
  {
    hide Print, WellFormed, Padded, StringText, Quoted;
    QuotedIff(Quoted(m.key), m.key);
    PaddedIff(Print(m.value), m.value);
    PrintIff(Print(m.value), m.value);
    Reading.MemberIntro(Compact, "", Quoted(m.key), "", Print(m.value), m);
    assert "" + Quoted(m.key) + "" + ":" + Print(m.value) == PrintMember(m);
    if MemberText(Compact, s, m) {
      var key, value := CompactMember(s, m);
      QuotedIff(key, m.key);
      PaddedIff(value, m.value);
      PrintIff(value, m.value);
    }
  }

  lemma CompactMember(s: string, m: Member) returns (key: string, value: string)
    requires MemberText(Compact, s, m)
    ensures s == key + ":" + value && StringText(Compact, key, m.key) && Padded(Compact, value, m.value)
  {
    hide Padded, StringText;
    var i: nat, j: nat, k: nat :| MemberAt(Compact, s, m, i, j, k);
    key, value := s[i..j], s[k + 1..];
    assert s[..i] == "" && s[j..k] == "";
    assert s == key + ":" + value;
  }

  lemma {:induction false} MembersIff(s: string, members: seq<Member>)
    requires members != [] && forall i :: 0 <= i < |members| ==> WellFormed(members[i].value)
    ensures Members(Compact, s, members) <==> s == PrintMembers(members)
    decreases members, 3
  {
    hide PrintMember, WellFormed, MemberText;
    forall t ensures MemberText(Compact, t, members[0]) <==> t == PrintMember(members[0]) {
      MemberIff(t, members[0]);
    }
    if |members| > 1 {
      forall t ensures Members(Compact, t, members[1..]) <==> t == PrintMembers(members[1..]) {
        MembersIff(t, members[1..]);
      }
      hide PrintMembers, Members;
      MembersSplit(s, members, PrintMember(members[0]), PrintMembers(members[1..]));
    }
  }

  lemma MembersSplit(s: string, members: seq<Member>, first: string, rest: string)
    requires |members| > 1
    requires forall t :: MemberText(Compact, t, members[0]) <==> t == first
    requires forall t :: Members(Compact, t, members[1..]) <==> t == rest
    requires first == PrintMember(members[0]) && rest == PrintMembers(members[1..])
    ensures Members(Compact, s, members) <==> s == PrintMembers(members)
  {
    hide *;
    PrintedSplit(members);
    if Members(Compact, s, members) {
      var p, more := Reading.FirstMember(Compact, s, members);
    }
    Reading.MembersCons(Compact, first, rest, members);
  }

  lemma PrintedSplit(members: seq<Member>)
    requires |members| > 1
    ensures PrintMembers(members) == PrintMember(members[0]) + "," + PrintMembers(members[1..])
  {
    hide PrintMember;
  }

  // ---- the order of members ------------------------------------------------------------

  /** In every object, each key comes before all later ones, by code points. */
  ghost predicate Ascending(v: Json) {
    match v
    case Arr(items) => forall i :: 0 <= i < |items| ==> Ascending(items[i])
    case Obj(members) =>
      && (forall i, j :: 0 <= i < j < |members| ==> Text.Precedes(members[i].key, members[j].key))
      && forall i :: 0 <= i < |members| ==> Ascending(members[i].value)
    case _ => true
  }

  lemma KeyOrderIff(members: seq<Member>)
    ensures InKeyOrder(members) <==> forall i, j :: 0 <= i < j < |members| ==> Text.Precedes(members[i].key, members[j].key)
  {
    forall i, j | 0 <= i < j < |members| ensures Text.Less(members[i].key, members[j].key) <==> Text.Precedes(members[i].key, members[j].key) {
      Text.LessIff(members[i].key, members[j].key);
    }
    hide Text.Less, Text.Precedes;
  }

  lemma {:induction false} NormalAscends(v: Json)
    requires WellFormed(v)
    ensures Ascending(Normal(v))
  {
    hide Text.Precedes;
    match v
    case Arr(items) =>
      forall i | 0 <= i < |items| ensures Ascending(Normal(items[i])) {
        NormalAscends(items[i]);
      }
    case Obj(members) =>
      SortedObject(members);
      var sorted := Sort(NormalMembers(members));
      KeyOrderIff(sorted);
      forall i | 0 <= i < |members| ensures Ascending(NormalMembers(members)[i].value) {
        NormalAscends(members[i].value);
      }
      hide Normal, Sort, InKeyOrder, WellFormed;
      forall i | 0 <= i < |sorted| ensures Ascending(sorted[i].value) {
        assert sorted[i] in NormalMembers(members);
      }
    case _ =>
  }

  /** A value whose objects are in order is its own normal form. */
  lemma {:induction false} AscendingIsNormal(v: Json)
    requires WellFormed(v) && Ascending(v)
    ensures Normal(v) == v
  {
    hide Text.Precedes;
    match v
    case Arr(items) =>
      forall i | 0 <= i < |items| ensures Normal(items[i]) == items[i] {
        AscendingIsNormal(items[i]);
      }
    case Obj(members) =>
      forall i | 0 <= i < |members| ensures NormalMembers(members)[i] == members[i] {
        AscendingIsNormal(members[i].value);
      }
      assert NormalMembers(members) == members;
      KeyOrderIff(members);
      SortSorts(members);
      hide Normal, NormalMembers, Ascending, WellFormed, InKeyOrder, SameMembers;
      SortedIsUnique(Sort(members), members);
    case _ =>
  }

  /** The canonical form. A text is the canonical text of a value if and only if it is the compact
      text of the same value with every object's members in ascending order of their keys. */
  lemma CanonicalTextIff(v: Json, s: string)
    requires WellFormed(v)
    ensures s == CanonicalText(v) <==> exists w :: IsCanonicalFor(v, w, s)
  {
    NormalIsWellFormed(v);
    SameAsNormal(v);
    NormalAscends(v);
    PrintIff(s, Normal(v));
    hide Normal, WellFormed, Same, Ascending, Derives;
    if s == CanonicalText(v) {
      assert IsCanonicalFor(v, Normal(v), s);
    }
    if w :| IsCanonicalFor(v, w, s) {
      PrintIff(s, w);
      AscendingIsNormal(w);
      SameIsNormalised(v, w);
    }
  }

  ghost predicate IsCanonicalFor(v: Json, w: Json, s: string) {
    WellFormed(w) && Same(v, w) && Ascending(w) && Derives(Compact, s, w)
  }

  /** The bytes that are signed and hashed are the UTF-8 of the canonical text. */
  lemma CanonicalBytesIff(v: Json, b: seq<Utf8.Byte>)
    requires WellFormed(v)
    ensures b == CanonicalBytes(v) <==> exists w, s :: IsCanonicalFor(v, w, s) && b == Utf8.Encode(s)
  {
    hide IsCanonicalFor, WellFormed, CanonicalText;
    CanonicalTextIff(v, CanonicalText(v));
    if w, s :| IsCanonicalFor(v, w, s) && b == Utf8.Encode(s) {
      CanonicalTextIff(v, s);
    }
  }
}
