/** The JSON reader against the grammar: it reads exactly the texts of the grammar, as what they
    denote. */
module Reading {
  import opened Grammar
  import opened Json
  import Decimal

  // ---- putting texts together ----------------------------------------------------------

  lemma Cut(a: string, b: string, c: string)
    ensures var s := a + b + c;
      && |s| == |a| + |b| + |c| && s[..|a|] == a && s[|a|..|a| + |b|] == b && s[|a| + |b|..] == c
      && s == a + (b + c)
  {
  }

  lemma BlankParts(style: Style, a: string, b: string)
    ensures Blank(style, a + b) <==> Blank(style, a) && Blank(style, b)
  {
    if style == Free && Blank(style, a + b) {
      assert forall i :: 0 <= i < |a| ==> (a + b)[i] == a[i];
      assert forall i :: 0 <= i < |b| ==> (a + b)[|a| + i] == b[i];
    }
  }

  lemma Pad(style: Style, a: string, u: string, b: string, v: Json)
    requires Blank(style, a) && Derives(style, u, v) && Blank(style, b)
    ensures Padded(style, a + u + b, v)
  {
    hide Derives, Blank;
    Cut(a, u, b);
    assert PaddedAt(style, a + u + b, v, |a|, |a| + |u|);
  }

  /** White space in front belongs to the padding. */
  lemma PadLeft(style: Style, a: string, s: string, v: Json)
    requires Blank(style, a) && Padded(style, s, v)
    ensures Padded(style, a + s, v)
  {
    hide Derives;
    var i: nat, j: nat :| PaddedAt(style, s, v, i, j);
    BlankParts(style, a, s[..i]);
    hide Blank;
    Pad(style, a + s[..i], s[i..j], s[j..], v);
    assert a + s[..i] + s[i..j] + s[j..] == a + s;
  }

  lemma ItemsCons(style: Style, p: string, rest: string, items: seq<Json>)
    requires |items| > 1 && Padded(style, p, items[0]) && Items(style, rest, items[1..])
    ensures Items(style, p + "," + rest, items)
  {
    hide Padded;
    Cut(p, ",", rest);
    var s := p + "," + rest;
    assert s[|p|] == ',' && s[..|p|] == p && s[|p| + 1..] == rest;
  }

  lemma ItemsOne(style: Style, p: string, v: Json)
    requires Padded(style, p, v)
    ensures Items(style, p, [v])
  {
  }

  lemma ItemsLeft(style: Style, a: string, s: string, items: seq<Json>)
    requires items != [] && Blank(style, a) && Items(style, s, items)
    ensures Items(style, a + s, items)
  {
    hide *;
    if |items| == 1 {
      OnlyItem(style, s, items);
      PadLeft(style, a, s, items[0]);
      ItemsOne(style, a + s, items[0]);
      assert items == [items[0]];
    } else {
      var p, more := FirstItem(style, s, items);
      PadLeft(style, a, p, items[0]);
      ItemsCons(style, a + p, more, items);
      assert (a + p) + "," + more == a + s;
    }
  }

  lemma OnlyItem(style: Style, s: string, items: seq<Json>)
    requires |items| == 1 && Items(style, s, items)
    ensures Padded(style, s, items[0]) && items == [items[0]]
  {
  }

  lemma FirstItem(style: Style, s: string, items: seq<Json>) returns (p: string, more: string)
    requires |items| > 1 && Items(style, s, items)
    ensures s == p + "," + more && Padded(style, p, items[0]) && Items(style, more, items[1..])
  {
    hide Padded;
    var k :| 0 <= k < |s| && s[k] == ',' && Padded(style, s[..k], items[0]) && Items(style, s[k + 1..], items[1..]);
    p, more := s[..k], s[k + 1..];
  }

  lemma MemberIntro(style: Style, a: string, key: string, b: string, p: string, m: Member)
    requires Blank(style, a) && StringText(style, key, m.key) && Blank(style, b) && Padded(style, p, m.value)
    ensures MemberText(style, a + key + b + ":" + p, m)
  {
    hide Padded, Blank, StringText;
    var s := a + key + b + ":" + p;
    var i, j, k := |a|, |a| + |key|, |a| + |key| + |b|;
    assert s[..i] == a && s[i..j] == key && s[j..k] == b && s[k] == ':' && s[k + 1..] == p;
    assert MemberAt(style, s, m, i, j, k);
  }

  lemma MemberLeft(style: Style, a: string, s: string, m: Member)
    requires Blank(style, a) && MemberText(style, s, m)
    ensures MemberText(style, a + s, m)
  {
    hide Padded, StringText;
    var i: nat, j: nat, k: nat :| MemberAt(style, s, m, i, j, k);
    BlankParts(style, a, s[..i]);
    hide Blank;
    MemberIntro(style, a + s[..i], s[i..j], s[j..k], s[k + 1..], m);
    assert a + s[..i] + s[i..j] + s[j..k] + ":" + s[k + 1..] == a + s;
  }

  lemma MembersCons(style: Style, p: string, rest: string, members: seq<Member>)
    requires |members| > 1 && MemberText(style, p, members[0]) && Members(style, rest, members[1..])
    ensures Members(style, p + "," + rest, members)
  {
    hide MemberText;
    Cut(p, ",", rest);
    var s := p + "," + rest;
    assert s[|p|] == ',' && s[..|p|] == p && s[|p| + 1..] == rest;
  }

  lemma MembersLeft(style: Style, a: string, s: string, members: seq<Member>)
    requires members != [] && Blank(style, a) && Members(style, s, members)
    ensures Members(style, a + s, members)
  {
    hide *;
    if |members| == 1 {
      OnlyMember(style, s, members);
      MemberLeft(style, a, s, members[0]);
      MembersOne(style, a + s, members[0]);
      assert members == [members[0]];
    } else {
      var p, more := FirstMember(style, s, members);
      MemberLeft(style, a, p, members[0]);
      MembersCons(style, a + p, more, members);
      assert (a + p) + "," + more == a + s;
    }
  }

  lemma OnlyMember(style: Style, s: string, members: seq<Member>)
    requires |members| == 1 && Members(style, s, members)
    ensures MemberText(style, s, members[0]) && members == [members[0]]
  {
  }

  lemma FirstMember(style: Style, s: string, members: seq<Member>) returns (p: string, more: string)
    requires |members| > 1 && Members(style, s, members)
    ensures s == p + "," + more && MemberText(style, p, members[0]) && Members(style, more, members[1..])
  {
    hide MemberText;
    var k :| 0 <= k < |s| && s[k] == ',' && MemberText(style, s[..k], members[0]) && Members(style, s[k + 1..], members[1..]);
    p, more := s[..k], s[k + 1..];
  }

  lemma ArrayIntro(style: Style, inner: string, items: seq<Json>)
    requires if items == [] then Blank(style, inner) else Items(style, inner, items)
    ensures Derives(style, "[" + inner + "]", Arr(items))
  {
    Cut("[", inner, "]");
    hide Items, Blank;
  }

  lemma ObjectIntro(style: Style, inner: string, members: seq<Member>)
    requires UniqueKeys(members) && if members == [] then Blank(style, inner) else Members(style, inner, members)
    ensures Derives(style, "{" + inner + "}", Obj(members))
  {
    Cut("{", inner, "}");
    hide Members, Blank, UniqueKeys;
  }

  lemma StringIntro(style: Style, b: string, text: string)
    requires Body(style, b, text)
    ensures StringText(style, "\"" + b + "\"", text)
  {
    Cut("\"", b, "\"");
    hide Body;
  }

  lemma BodyCons(style: Style, p: string, b: string, c: char, text: string)
    requires p != "" && Piece(style, p, c) && Body(style, b, text)
    ensures Body(style, p + b, [c] + text)
  {
    hide Piece;
    var s, t := p + b, [c] + text;
    assert s[..|p|] == p && s[|p|..] == b && t[0] == c && t[1..] == text;
  }

  // ---- what was read is in the grammar -------------------------------------------------

  lemma {:induction false} SkippedIsBlank(s: string) returns (a: string)
    ensures s == a + SkipSpace(s) && Blank(Free, a)
    ensures SkipSpace(s) != "" ==> !IsSpace(SkipSpace(s)[0])
  {
    a := "";
    if s != "" && IsSpace(s[0]) {
      var b := SkippedIsBlank(s[1..]);
      a := [s[0]] + b;
      assert s == [s[0]] + s[1..];
    }
  }

  lemma HexIff(c: char, d: int)
    ensures IsHex(c, d) <==> d >= 0 && HexValue(c) == d
  {
    assert forall i :: 0 <= i < 10 ==> "0123456789abcdef"[i] as int == '0' as int + i;
    assert forall i :: 10 <= i < 16 ==> "0123456789abcdef"[i] as int == 'a' as int + (i - 10);
    assert forall i :: 0 <= i < 10 ==> "0123456789ABCDEF"[i] as int == '0' as int + i;
    assert forall i :: 10 <= i < 16 ==> "0123456789ABCDEF"[i] as int == 'A' as int + (i - 10);
  }

  lemma QuadIff(s: string, n: int)
    requires |s| >= 4
    ensures Quad(s[..4], n) <==> n >= 0 && HexFour(s) == n
  {
    var q := s[..4];
    forall i, d | 0 <= i < 4 ensures IsHex(q[i], d) <==> d >= 0 && HexValue(s[i]) == d {
      HexIff(s[i], d);
    }
    hide HexValue, IsHex;
    if HexFour(s) == n && n >= 0 {
      assert IsHex(q[0], HexValue(s[0])) && IsHex(q[1], HexValue(s[1])) && IsHex(q[2], HexValue(s[2])) && IsHex(q[3], HexValue(s[3]));
    }
  }

  lemma NumericSix(t: string, c: char)
    requires |t| >= 4 && Quad(t[..4], c as int)
    ensures Numeric("\\u" + t[..4], c) && "\\u" + t == "\\u" + t[..4] + t[4..]
  {
    hide Quad;
    var p := "\\u" + t[..4];
    assert p[2..] == t[..4] && p[..2] == "\\u";
  }

  lemma NumericTwelve(t: string, c: char, high: int, low: int)
    requires |t| >= 10 && t[4] == '\\' && t[5] == 'u' && Quad(t[..4], high) && Quad(t[6..10], low)
    requires 0xD800 <= high < 0xDC00 && 0xDC00 <= low < 0xE000 && c as int == 0x10000 + (high - 0xD800) * 0x400 + (low - 0xDC00)
    ensures Numeric("\\u" + t[..10], c) && "\\u" + t == "\\u" + t[..10] + t[10..]
  {
    hide Quad;
    var p := "\\u" + t[..10];
    assert p[2..6] == t[..4] && p[..2] == "\\u" && p[6..8] == "\\u" && p[8..] == t[6..10];
  }

  /** The escapes by number that the reader takes, after their backslash and their letter. */
  lemma UnicodeWasRead(t: string, c: char, rest: string) returns (p: string)
    requires ParseUnicode(t) == Ok(c, rest)
    ensures "\\u" + t == p + rest && p != "" && Numeric(p, c)
  {
    var first := HexFour(t);
    assert |t| >= 4;
    QuadIff(t, first);
    if first < 0xD800 || 0xE000 <= first <= 0xFFFF {
      hide Quad, HexFour, Numeric;
      NumericSix(t, c);
      p := "\\u" + t[..4];
    } else {
      QuadIff(t[6..], HexFour(t[6..]));
      assert t[6..][..4] == t[6..10];
      hide Quad, HexFour, Numeric;
      NumericTwelve(t, c, first, HexFour(t[6..]));
      p := "\\u" + t[..10];
    }
  }

  lemma EscapeWasRead(s: string, c: char, rest: string) returns (p: string)
    requires ParseEscape(s) == Ok(c, rest)
    ensures "\\" + s == p + rest && p != "" && Piece(Free, p, c)
  {
    assert s == [s[0]] + s[1..];
    if s[0] == 'u' {
      hide ParseUnicode, Numeric;
      p := UnicodeWasRead(s[1..], c, rest);
      assert "\\" + s == "\\u" + s[1..];
    } else {
      hide ParseUnicode, Numeric;
      p := ['\\', s[0]];
    }
  }

  /** One character of a string, or its end. */
  lemma StringStep(s: string, text: string, rest: string) returns (p: string, after: string)
    requires ParseString(s) == Ok(text, rest)
    ensures s != "" && if s[0] == '"' then text == "" && s == "\"" + rest
      else text != "" && s == p + after && p != "" && Piece(Free, p, text[0]) && ParseString(after) == Ok(text[1..], rest) && |after| < |s|
  {
    assert s == [s[0]] + s[1..];
    p, after := "", "";
    if s[0] == '\\' {
      after := ParseEscape(s[1..]).rest;
      p := EscapeWasRead(s[1..], text[0], after);
      hide ParseEscape, Piece;
      assert "\\" + s[1..] == s;
    } else if s[0] != '"' {
      p, after := [s[0]], s[1..];
      hide ParseEscape;
    }
  }

  lemma {:induction false} StringWasRead(s: string, text: string, rest: string) returns (b: string)
    requires ParseString(s) == Ok(text, rest)
    ensures s == b + "\"" + rest && Body(Free, b, text)
    decreases |s|
  {
    hide *;
    var p, after := StringStep(s, text, rest);
    if s[0] == '"' {
      b := "";
      EmptyBody();
    } else {
      var more := StringWasRead(after, text[1..], rest);
      b := p + more;
      BodyCons(Free, p, more, text[0], text[1..]);
      assert [text[0]] + text[1..] == text;
      Regroup(p, more, "\"", rest);
    }
  }

  lemma EmptyBody()
    ensures Body(Free, "", "")
  {
  }

  lemma NaturalWasRead(s: string, n: int, rest: string) returns (u: string)
    requires ParseNatural(s) == Ok(n, rest)
    ensures s == u + rest && NaturalText(u, n)
  {
    var digits := LeadingDigits(s);
    u := if digits[0] == '0' then "0" else digits;
    assert digits[0] == s[0];
    assert Decimal.Value("0") == 0 by {
      assert "0"[..0] == "";
    }
  }

  /** A fraction and an exponent, as far as they go. */
  lemma TailWasRead(s: string)
    ensures FractionText(s[..FractionLength(s)]) && ExponentText(s[..ExponentLength(s)])
  {
    var f, e := s[..FractionLength(s)], s[..ExponentLength(s)];
    if f != "" {
      assert f[1..] == LeadingDigits(s[1..]);
    }
    if e != "" {
      var t := SkipSign(s[1..]);
      assert e[|e| - |LeadingDigits(t)|..] == LeadingDigits(t);
    }
  }

  lemma NumberWasRead(s: string, v: Json, rest: string) returns (u: string)
    requires ParseNumber(s) == Ok(v, rest)
    ensures s == u + rest && Derives(Free, u, v)
  {
    var negative := s[0] == '-';
    var t := if negative then s[1..] else s;
    var n, after := ParseNatural(t).value, ParseNatural(t).rest;
    var a := NaturalWasRead(t, n, after);
    var whole := if negative then "-" + a else a;
    SignedText(a, n);
    assert s == whole + after by { SignedSplit(s, a, after); }
    hide ParseNatural, NaturalText, IntText, RealText, Decimal.Value, Decimal.AllDigits, LeadingDigits;
    var f, e := FractionLength(after), ExponentLength(after[FractionLength(after)..]);
    if f + e == 0 {
      u := whole;
      hide FractionLength, ExponentLength;
    } else {
      TailWasRead(after);
      TailWasRead(after[f..]);
      hide FractionLength, ExponentLength, FractionText, ExponentText;
      u := RealWasSplit(whole, after, f, e);
    }
  }

  lemma SignedText(a: string, n: int)
    requires NaturalText(a, n)
    ensures IntText(Free, a, n) && IntText(Free, "-" + a, -n)
  {
    assert ("-" + a)[1..] == a;
  }

  lemma SignedSplit(s: string, a: string, after: string)
    requires s != "" && (if s[0] == '-' then s[1..] else s) == a + after
    ensures s == (if s[0] == '-' then "-" + a else a) + after
  {
    assert s == [s[0]] + s[1..];
    Cut("-", a, after);
  }

  lemma Sliced(whole: string, after: string, f: nat, e: nat)
    requires f + e <= |after|
    ensures (whole + after)[..|whole| + f + e] == whole + after[..f] + after[f..][..e]
    ensures whole + after == (whole + after)[..|whole| + f + e] + after[f + e..]
  {
  }

  lemma IsReal(u: string, i: nat, j: nat)
    requires SplitsReal(u, i, j)
    ensures RealText(u)
  {
  }

  lemma RealWasSplit(whole: string, after: string, f: nat, e: nat) returns (u: string)
    requires f <= |after| && e <= |after[f..]| && f + e > 0 && (exists n :: IntText(Free, whole, n))
    requires FractionText(after[..f]) && ExponentText(after[f..][..e])
    ensures u == (whole + after)[..|whole| + f + e] && whole + after == u + after[f + e..] && RealText(u)
  {
    hide IntText, FractionText, ExponentText, RealText;
    var i, j := |whole|, |whole| + f;
    u := (whole + after)[..j + e];
    assert u == whole + after[..f] + after[f..][..e] by { Sliced(whole, after, f, e); }
    Cut(whole, after[..f], after[f..][..e]);
    assert whole + after == u + after[f + e..] by { Sliced(whole, after, f, e); }
    IsReal(u, i, j);
  }

  lemma {:induction false} ValueWasRead(s: string, v: Json, rest: string) returns (u: string)
    requires ParseValue(s) == Ok(v, rest)
    ensures s == u + rest && Derives(Free, u, v)
    decreases |s|, 0
  {
    hide *;
    if s[0] == '[' {
      var t := ArrayStep(s, v, rest);
      var a := SkippedIsBlank(s[1..]);
      if v == Arr([]) {
        u := "[" + a + "]";
        ArrayIntro(Free, a, []);
        Enclosed(s, "[", a, "]", rest);
      } else {
        var more := ItemsWereRead(t, v.items, rest);
        ItemsLeft(Free, a, more, v.items);
        ArrayIntro(Free, a + more, v.items);
        u := "[" + (a + more) + "]";
        Regroup(a, more, "]", rest);
        Enclosed(s, "[", a + more, "]", rest);
      }
    } else if s[0] == '{' {
      var t := ObjectStep(s, v, rest);
      var a := SkippedIsBlank(s[1..]);
      if v == Obj([]) {
        u := "{" + a + "}";
        NoKeys();
        ObjectIntro(Free, a, []);
        Enclosed(s, "{", a, "}", rest);
      } else {
        var more := MembersWereRead(t, v.members, rest);
        MembersLeft(Free, a, more, v.members);
        ObjectIntro(Free, a + more, v.members);
        u := "{" + (a + more) + "}";
        Regroup(a, more, "}", rest);
        Enclosed(s, "{", a + more, "}", rest);
      }
    } else {
      u := ScalarWasRead(s, v, rest);
    }
  }

  lemma ScalarWasRead(s: string, v: Json, rest: string) returns (u: string)
    requires ParseValue(s) == Ok(v, rest) && s[0] != '[' && s[0] != '{'
    ensures s == u + rest && Derives(Free, u, v)
  {
    hide ParseString, ParseNumber, ParseItems, ParseMembers, Derives, Body, StringText;
    match s[0]
    case '"' =>
      var b := StringWasRead(s[1..], v.text, rest);
      StringIntro(Free, b, v.text);
      u := "\"" + b + "\"";
      Enclosed(s, "\"", b, "\"", rest);
      StringDerives(u, v.text);
    case 'n' =>
      u := "null";
      WordWasRead(s, u, v, rest);
    case 't' =>
      u := "true";
      WordWasRead(s, u, v, rest);
    case 'f' =>
      u := "false";
      WordWasRead(s, u, v, rest);
    case _ =>
      u := NumberWasRead(s, v, rest);
  }

  lemma ArrayStep(s: string, v: Json, rest: string) returns (t: string)
    requires ParseValue(s) == Ok(v, rest) && s[0] == '['
    ensures t == SkipSpace(s[1..]) && |t| < |s| && v.Arr?
    ensures if v.items == [] then t == "]" + rest else ParseItems(t) == Ok(v.items, rest)
  {
    hide ParseItems, SkipSpace;
    t := SkipSpace(s[1..]);
    ItemsAreSome(t);
    assert t != "" ==> t == [t[0]] + t[1..];
  }

  lemma ItemsAreSome(t: string)
    ensures ParseItems(t).Ok? ==> ParseItems(t).value != []
  {
    hide ParseValue;
  }

  lemma ObjectStep(s: string, v: Json, rest: string) returns (t: string)
    requires ParseValue(s) == Ok(v, rest) && s[0] == '{'
    ensures t == SkipSpace(s[1..]) && |t| < |s| && v.Obj? && UniqueKeys(v.members)
    ensures if v.members == [] then t == "}" + rest else ParseMembers(t) == Ok(v.members, rest)
  {
    hide ParseMembers, SkipSpace;
    t := SkipSpace(s[1..]);
    MembersAreSome(t);
    assert t != "" ==> t == [t[0]] + t[1..];
  }

  lemma MembersAreSome(t: string)
    ensures ParseMembers(t).Ok? ==> ParseMembers(t).value != []
  {
    hide ParseMember;
  }

  lemma WordWasRead(s: string, word: string, v: Json, rest: string)
    requires ParseWord(s, word, v) == Ok(v, rest) && word != ""
    requires (word == "null" && v == Null) || (word == "true" && v == Bool(true)) || (word == "false" && v == Bool(false))
    ensures s == word + rest && Derives(Free, word, v)
  {
  }

  lemma StringDerives(u: string, text: string)
    requires StringText(Free, u, text)
    ensures Derives(Free, u, Str(text))
  {
  }

  lemma Enclosed(s: string, open: string, inner: string, close: string, rest: string)
    requires s != "" && open == [s[0]] && s[1..] == inner + close + rest
    ensures s == open + inner + close + rest
  {
    assert s == open + s[1..];
    Regroup(open, inner, close, rest);
    Regroup(inner, close, rest, "");
  }

  lemma NoKeys()
    ensures UniqueKeys([])
  {
  }

  lemma {:induction false} ItemsWereRead(s: string, items: seq<Json>, rest: string) returns (u: string)
    requires ParseItems(s) == Ok(items, rest)
    ensures items != [] && s == u + "]" + rest && Items(Free, u, items)
    decreases |s|, 1
  {
    hide *;
    var v, after, t := ItemsStep(s, items, rest);
    var first := ValueWasRead(s, v, after);
    var b := SkippedIsBlank(after);
    NothingIsBlank();
    Pad(Free, "", first, b, v);
    var p := "" + first + b;
    assert p == first + b;
    if t[0] == ']' {
      u := p;
      ItemsOne(Free, p, v);
      Regroup(first, b, "]", rest);
    } else {
      var a := SkippedIsBlank(t[1..]);
      var more := ItemsWereRead(SkipSpace(t[1..]), items[1..], rest);
      ItemsLeft(Free, a, more, items[1..]);
      ItemsCons(Free, p, a + more, items);
      u := p + "," + (a + more);
      Listed(s, first, after, b, t, a, more, "]", rest);
    }
  }

  /** The first item, and what follows it. */
  lemma ItemsStep(s: string, items: seq<Json>, rest: string) returns (v: Json, after: string, t: string)
    requires ParseItems(s) == Ok(items, rest)
    ensures ParseValue(s) == Ok(v, after) && |after| < |s| && t == SkipSpace(after) && t != "" && t == [t[0]] + t[1..]
    ensures items != [] && items[0] == v
    ensures if t[0] == ']' then items == [v] && rest == t[1..]
      else t[0] == ',' && |items| > 1 && ParseItems(SkipSpace(t[1..])) == Ok(items[1..], rest) && |SkipSpace(t[1..])| < |s|
  {
    hide ParseValue, SkipSpace;
    v, after := ParseValue(s).value, ParseValue(s).rest;
    t := SkipSpace(after);
  }

  lemma NothingIsBlank()
    ensures Blank(Free, "")
  {
  }

  /** How the texts of a list fit together. */
  lemma Listed(s: string, first: string, after: string, b: string, t: string, a: string, more: string, close: string, rest: string)
    requires s == first + after && after == b + t && t != "" && t == "," + t[1..] && t[1..] == a + (more + close + rest)
    ensures s == (first + b) + "," + (a + more) + close + rest
  {
    Regroup(first + b, ",", a + more, close + rest);
    Regroup(a, more, close, rest);
    Regroup(first, b, t, "");
    Regroup(first + b + "," + (a + more), close, rest, "");
    Regroup(more, close, rest, "");
    Regroup(a, more, close + rest, "");
  }

  lemma {:induction false} MemberWasRead(s: string, m: Member, rest: string) returns (u: string)
    requires ParseMember(s) == Ok(m, rest)
    ensures s == u + rest && MemberText(Free, u, m)
    decreases |s|, 0
  {
    hide *;
    var after, t := MemberStep(s, m, rest);
    var body := StringWasRead(s[1..], m.key, after);
    StringIntro(Free, body, m.key);
    var b := SkippedIsBlank(after);
    var a := SkippedIsBlank(t[1..]);
    var value := ValueWasRead(SkipSpace(t[1..]), m.value, rest);
    NothingIsBlank();
    Pad(Free, a, value, "", m.value);
    var key := "\"" + body + "\"";
    Enclosed(s, "\"", body, "\"", after);
    MemberIntro(Free, "", key, b, a + value + "", m);
    assert "" + key == key && a + value + "" == a + value;
    u := "" + key + b + ":" + (a + value + "");
    Paired(s, key, after, b, t, a, value, rest);
  }

  /** The key of a member, and what follows it. */
  lemma MemberStep(s: string, m: Member, rest: string) returns (after: string, t: string)
    requires ParseMember(s) == Ok(m, rest)
    ensures s != "" && s[0] == '"' && ParseString(s[1..]) == Ok(m.key, after) && |after| < |s|
    ensures t == SkipSpace(after) && t != "" && t == ":" + t[1..]
    ensures ParseValue(SkipSpace(t[1..])) == Ok(m.value, rest) && |SkipSpace(t[1..])| < |s|
  {
    hide ParseValue, SkipSpace, ParseString;
    after := ParseString(s[1..]).rest;
    t := SkipSpace(after);
  }

  lemma Paired(s: string, key: string, after: string, b: string, t: string, a: string, value: string, rest: string)
    requires s == key + after && after == b + t && t != "" && t == ":" + t[1..] && t[1..] == a + (value + rest)
    ensures s == key + b + ":" + (a + value) + rest
  {
    Regroup(key, b, t, "");
    Regroup(key + b, ":", a + value, rest);
    Regroup(a, value, rest, "");
  }

  lemma {:induction false} MembersWereRead(s: string, members: seq<Member>, rest: string) returns (u: string)
    requires ParseMembers(s) == Ok(members, rest)
    ensures members != [] && s == u + "}" + rest && Members(Free, u, members)
    decreases |s|, 1
  {
    hide *;
    var m, after, t := MembersStep(s, members, rest);
    var first := MemberWasRead(s, m, after);
    var b := SkippedIsBlank(after);
    MemberRight(Free, first, b, m);
    if t[0] == '}' {
      u := first + b;
      MembersOne(Free, u, m);
      Regroup(first, b, "}", rest);
    } else {
      var a := SkippedIsBlank(t[1..]);
      var more := MembersWereRead(SkipSpace(t[1..]), members[1..], rest);
      MembersLeft(Free, a, more, members[1..]);
      MembersCons(Free, first + b, a + more, members);
      u := first + b + "," + (a + more);
      Listed(s, first, after, b, t, a, more, "}", rest);
    }
  }

  lemma MembersOne(style: Style, u: string, m: Member)
    requires MemberText(style, u, m)
    ensures Members(style, u, [m])
  {
  }

  lemma MembersStep(s: string, members: seq<Member>, rest: string) returns (m: Member, after: string, t: string)
    requires ParseMembers(s) == Ok(members, rest)
    ensures ParseMember(s) == Ok(m, after) && |after| < |s| && t == SkipSpace(after) && t != "" && t == [t[0]] + t[1..]
    ensures members != [] && members[0] == m
    ensures if t[0] == '}' then members == [m] && rest == t[1..]
      else t[0] == ',' && |members| > 1 && ParseMembers(SkipSpace(t[1..])) == Ok(members[1..], rest) && |SkipSpace(t[1..])| < |s|
  {
    hide ParseMember, SkipSpace;
    m, after := ParseMember(s).value, ParseMember(s).rest;
    t := SkipSpace(after);
  }

  lemma MemberRight(style: Style, s: string, b: string, m: Member)
    requires Blank(style, b) && MemberText(style, s, m)
    ensures MemberText(style, s + b, m)
  {
    hide StringText;
    var i: nat, j: nat, k: nat :| MemberAt(style, s, m, i, j, k);
    PadRight(style, s[k + 1..], b, m.value);
    hide Blank, Padded;
    MemberIntro(style, s[..i], s[i..j], s[j..k], s[k + 1..] + b, m);
    assert s[..i] + s[i..j] + s[j..k] + ":" + (s[k + 1..] + b) == s + b;
  }

  lemma PadRight(style: Style, s: string, b: string, v: Json)
    requires Blank(style, b) && Padded(style, s, v)
    ensures Padded(style, s + b, v)
  {
    hide Derives;
    var i: nat, j: nat :| PaddedAt(style, s, v, i, j);
    BlankParts(style, s[j..], b);
    hide Blank;
    Pad(style, s[..i], s[i..j], s[j..] + b, v);
    assert s[..i] + s[i..j] + (s[j..] + b) == s + b;
  }
}
