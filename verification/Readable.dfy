/** Every text of the grammar is read, as what it denotes; and so the reader and the grammar agree. */
module Readable {
  import opened Grammar
  import opened Json
  import opened Reading
  import Decimal

  lemma {:induction false} TakesBlank(a: string, s: string)
    requires Blank(Free, a) && (s == "" || !IsSpace(s[0]))
    ensures SkipSpace(a + s) == s
  {
    if a == "" {
      assert a + s == s;
    } else {
      assert (a + s)[1..] == a[1..] + s;
      TakesBlank(a[1..], s);
    }
  }

  // ---- strings -------------------------------------------------------------------------

  lemma TakesSix(t: string, c: char)
    requires |t| >= 4 && HexFour(t) == c as int
    ensures ParseUnicode(t) == Ok(c, t[4..])
  {
    SixIsBelow(t);
    hide HexFour;
  }

  lemma SixIsBelow(t: string)
    ensures HexFour(t) <= 0xFFFF
  {
  }

  lemma TakesTwelve(t: string, c: char, high: int, low: int)
    requires |t| >= 10 && t[4] == '\\' && t[5] == 'u' && HexFour(t) == high && HexFour(t[6..]) == low
    requires 0xD800 <= high < 0xDC00 && 0xDC00 <= low < 0xE000 && c as int == 0x10000 + (high - 0xD800) * 0x400 + (low - 0xDC00)
    ensures ParseUnicode(t) == Ok(c, t[10..])
  {
    hide HexFour;
  }

  /** The two shapes of an escape by number. */
  lemma NumericParts(p: string, c: char) returns (twelve: bool, high: int, low: int)
    requires Numeric(p, c)
    ensures if twelve
      then && |p| == 12 && p[6] == '\\' && p[7] == 'u' && Quad(p[2..6], high) && Quad(p[8..], low)
           && 0xD800 <= high < 0xDC00 && 0xDC00 <= low < 0xE000 && c as int == 0x10000 + (high - 0xD800) * 0x400 + (low - 0xDC00)
      else |p| == 6 && Quad(p[2..], c as int)
    ensures p[0] == '\\' && p[1] == 'u'
  {
    hide Quad;
    twelve, high, low := |p| == 12, 0, 0;
    assert p[0] == p[..2][0] && p[1] == p[..2][1];
    if twelve {
      assert p[6] == p[6..8][0] && p[7] == p[6..8][1];
      high, low :| Quad(p[2..6], high) && Quad(p[8..], low) && 0xD800 <= high < 0xDC00 && 0xDC00 <= low < 0xE000
        && c as int == 0x10000 + (high - 0xD800) * 0x400 + (low - 0xDC00);
    }
  }

  lemma TakesNumeric(p: string, c: char, more: string)
    requires Numeric(p, c)
    ensures |p| >= 2 && p[0] == '\\' && p[1] == 'u' && ParseUnicode((p + more)[2..]) == Ok(c, more)
  {
    hide *;
    var twelve, high, low := NumericParts(p, c);
    var t := (p + more)[2..];
    if twelve {
      assert t[..4] == p[2..6] && t[6..][..4] == p[8..] && t[10..] == more && t[4] == p[6] && t[5] == p[7];
      QuadIff(t, high);
      QuadIff(t[6..], low);
      TakesTwelve(t, c, high, low);
    } else {
      assert t[..4] == p[2..] && t[4..] == more;
      QuadIff(t, c as int);
      TakesSix(t, c);
    }
  }

  lemma TakesShort(p: string, c: char, more: string)
    requires Short(p, c)
    ensures p[0] == '\\' && ParseEscape((p + more)[1..]) == Ok(c, more)
  {
    var t := (p + more)[1..];
    assert t[0] == p[1] && t[1..] == more;
  }

  lemma TakesPiece(p: string, c: char, more: string)
    requires Piece(Free, p, c)
    ensures p != "" && ParseString(p + more) == Prepend(c, ParseString(more))
  {
    if Plain(p, c) {
      hide ParseEscape;
      assert (p + more)[0] == c && (p + more)[1..] == more;
    } else if Short(p, c) {
      TakesShort(p, c, more);
      hide *;
      TakesEscape(p, c, more);
    } else {
      TakesNumeric(p, c, more);
      hide *;
      ReadsUnicode(p, c, more);
      TakesEscape(p, c, more);
    }
  }

  lemma ReadsUnicode(p: string, c: char, more: string)
    requires |p| >= 2 && p[1] == 'u' && ParseUnicode((p + more)[2..]) == Ok(c, more)
    ensures ParseEscape((p + more)[1..]) == Ok(c, more)
  {
    hide ParseUnicode;
    var t := (p + more)[1..];
    assert t[0] == 'u' && t[1..] == (p + more)[2..];
  }

  lemma TakesEscape(p: string, c: char, more: string)
    requires p != "" && p[0] == '\\' && ParseEscape((p + more)[1..]) == Ok(c, more)
    ensures ParseString(p + more) == Prepend(c, ParseString(more))
  {
    hide ParseEscape;
    assert (p + more)[0] == '\\';
  }

  lemma {:induction false} TakesString(b: string, text: string, rest: string)
    requires Body(Free, b, text)
    ensures ParseString(b + "\"" + rest) == Ok(text, rest)
    decreases text
  {
    hide *;
    if text == "" {
      NoBody(b, rest);
    } else {
      var p, more := BodyParts(b, text);
      TakesString(more, text[1..], rest);
      TakesPiece(p, text[0], more + "\"" + rest);
      Regroup(more, "\"", rest, "");
      Regroup(p, more, "\"", rest);
      assert [text[0]] + text[1..] == text;
      PrependIs(text[0], text[1..], rest);
    }
  }

  lemma PrependIs(c: char, text: string, rest: string)
    ensures Prepend(c, Ok(text, rest)) == Ok([c] + text, rest)
  {
  }

  lemma NoBody(b: string, rest: string)
    requires Body(Free, b, "")
    ensures ParseString(b + "\"" + rest) == Ok("", rest)
  {
    assert b + "\"" + rest == "\"" + rest && ("\"" + rest)[1..] == rest;
  }

  lemma BodyParts(b: string, text: string) returns (p: string, more: string)
    requires text != "" && Body(Free, b, text)
    ensures b == p + more && Piece(Free, p, text[0]) && Body(Free, more, text[1..])
  {
    hide Piece;
    var k :| 0 < k <= |b| && Piece(Free, b[..k], text[0]) && Body(Free, b[k..], text[1..]);
    p, more := b[..k], b[k..];
  }

  // ---- numbers -------------------------------------------------------------------------

  /** No digit follows. */
  predicate NoDigit(s: string) {
    s == "" || !Decimal.IsDigit(s[0])
  }

  lemma {:induction false} TakesDigits(digits: string, rest: string)
    requires Decimal.AllDigits(digits) && NoDigit(rest)
    ensures LeadingDigits(digits + rest) == digits
  {
    if digits == "" {
      assert digits + rest == rest;
    } else {
      assert (digits + rest)[1..] == digits[1..] + rest;
      TakesDigits(digits[1..], rest);
    }
  }

  lemma TakesNatural(u: string, n: int, rest: string)
    requires NaturalText(u, n) && NoDigit(rest)
    ensures ParseNatural(u + rest) == Ok(n, rest) && (u + rest)[0] == u[0] && Decimal.IsDigit(u[0])
  {
    TakesDigits(u, rest);
    assert (u + rest)[|u|..] == rest;
    assert Decimal.Value("0") == 0 by {
      assert "0"[..0] == "";
    }
  }

  /** An integer in front of a text that is not a digit. */
  lemma TakesWhole(u: string, n: int, rest: string)
    requires IntText(Free, u, n) && NoDigit(rest)
    ensures var s := u + rest;
      s != "" && var negative := s[0] == '-';
      ParseNatural(if negative then s[1..] else s) == Ok(if negative then -n else n, rest)
    ensures u != "" && (u[0] == '-' || Decimal.IsDigit(u[0]))
  {
    hide ParseNatural;
    if NaturalText(u, n) {
      TakesNatural(u, n, rest);
    } else {
      assert (u + rest)[1..] == u[1..] + rest;
      hide IntText;
      TakesNatural(u[1..], -n, rest);
    }
  }

  lemma TakesFraction(f: string, rest: string)
    requires FractionText(f) && NoDigit(rest) && (f == "" ==> rest == "" || rest[0] != '.')
    ensures FractionLength(f + rest) == |f|
  {
    if f == "" {
      assert f + rest == rest;
    } else {
      assert (f + rest)[1..] == f[1..] + rest;
      TakesDigits(f[1..], rest);
    }
  }

  lemma TakesExponent(e: string, rest: string)
    requires ExponentText(e) && EndsNumber(rest)
    ensures ExponentLength(e + rest) == |e|
  {
    if e == "" {
      assert e + rest == rest;
    } else {
      var t := (e + rest)[1..];
      assert t == e[1..] + rest;
      if e[1] == '+' || e[1] == '-' {
        assert t[1..] == e[2..] + rest;
        TakesDigits(e[2..], rest);
      } else {
        TakesDigits(e[1..], rest);
      }
    }
  }

  lemma TakesInt(u: string, n: int, rest: string)
    requires IntText(Free, u, n) && EndsNumber(rest)
    ensures ParseNumber(u + rest) == Ok(Int(n), rest)
  {
    TakesWhole(u, n, rest);
    NothingFollows(rest);
    hide IntText, ParseNatural, FractionLength, ExponentLength;
    assert rest[0..] == rest;
  }

  lemma NothingFollows(rest: string)
    requires EndsNumber(rest)
    ensures FractionLength(rest) == 0 && ExponentLength(rest) == 0
  {
  }

  lemma TakesReal(u: string, rest: string)
    requires RealText(u) && EndsNumber(rest)
    ensures ParseNumber(u + rest) == Ok(Real(u), rest) && u != "" && (u[0] == '-' || Decimal.IsDigit(u[0]))
  {
    hide *;
    var w, f, e, n := RealParts(u);
    var after := f + (e + rest);
    Glued(u, w, f, e, rest);
    StartsTail(f, e, rest);
    TakesWhole(w, n, after);
    TakesFraction(f, e + rest);
    TakesExponent(e, rest);
    NumberSteps(u + rest, after, |f|, |e|);
  }

  lemma RealParts(u: string) returns (w: string, f: string, e: string, n: int)
    requires RealText(u)
    ensures u == w + f + e && f + e != "" && IntText(Free, w, n) && FractionText(f) && ExponentText(e)
  {
    hide IntText, FractionText, ExponentText;
    var i: nat, j: nat :| SplitsReal(u, i, j);
    n :| IntText(Free, u[..i], n);
    w, f, e := u[..i], u[i..j], u[j..];
  }

  lemma Glued(u: string, w: string, f: string, e: string, rest: string)
    requires u == w + f + e
    ensures u + rest == w + (f + (e + rest))
    ensures (f + (e + rest))[|f|..] == e + rest && (f + (e + rest))[|f| + |e|..] == rest
    ensures (u + rest)[..|u + rest| - |rest|] == u && (w != "" ==> u != "" && u[0] == w[0])
  {
  }

  lemma NumberSteps(s: string, after: string, f: nat, e: nat)
    requires s != "" && f <= |after| && FractionLength(after) == f && ExponentLength(after[f..]) == e && f + e > 0
    requires var t := if s[0] == '-' then s[1..] else s; ParseNatural(t).Ok? && ParseNatural(t).rest == after
    ensures f + e <= |after| <= |s| && ParseNumber(s) == Ok(Real(s[..|s| - |after[f + e..]|]), after[f + e..])
  {
    hide ParseNatural, FractionLength, ExponentLength;
  }

  lemma StartsTail(f: string, e: string, rest: string)
    requires FractionText(f) && ExponentText(e) && EndsNumber(rest)
    ensures NoDigit(f + (e + rest)) && NoDigit(e + rest) && (e + rest == "" || (e + rest)[0] != '.')
  {
    assert e + rest == if e == "" then rest else e + rest;
    assert f == "" ==> f + (e + rest) == e + rest;
  }

  // ---- values --------------------------------------------------------------------------

  /** The text of a value starts with neither a space nor a closing bracket. */
  lemma ValueStarts(u: string, v: Json)
    requires Derives(Free, u, v)
    ensures u != "" && !IsSpace(u[0]) && u[0] != ']'
  {
    hide IntText, RealText, Items, Members, Body, UniqueKeys, ParseNumber, ParseNatural;
    match v
    case Int(n) =>
      TakesWhole(u, n, "");
    case Real(_) =>
      NothingFollows("");
      TakesReal(u, "");
    case _ =>
  }

  lemma TakesScalar(u: string, v: Json, rest: string)
    requires Derives(Free, u, v) && !v.Arr? && !v.Obj? && EndsNumber(rest)
    ensures ParseValue(u + rest) == Ok(v, rest)
  {
    hide ParseNumber, ParseString, ParseItems, ParseMembers, IntText, RealText, StringText, Items, Members;
    match v
    case Null =>
      assert (u + rest)[4..] == rest;
    case Bool(truth) =>
      assert (u + rest)[|u|..] == rest;
    case Int(n) =>
      TakesInt(u, n, rest);
      TakesWhole(u, n, "");
      NumberStarts(u, rest);
    case Real(_) =>
      TakesReal(u, rest);
      NumberStarts(u, rest);
    case Str(text) =>
      TakesQuoted(u, text, rest);
  }

  lemma NumberStarts(u: string, rest: string)
    requires u != "" && (u[0] == '-' || Decimal.IsDigit(u[0]))
    ensures ParseValue(u + rest) == ParseNumber(u + rest)
  {
    hide ParseNumber, ParseString, ParseItems, ParseMembers;
    assert (u + rest)[0] == u[0];
  }

  lemma TakesQuoted(u: string, text: string, rest: string)
    requires StringText(Free, u, text)
    ensures ParseValue(u + rest) == Ok(Str(text), rest)
  {
    hide ParseNumber, ParseString, ParseItems, ParseMembers, Body;
    var b := u[1..|u| - 1];
    TakesString(b, text, rest);
    assert (u + rest)[1..] == b + "\"" + rest && (u + rest)[0] == '"';
  }

  lemma {:induction false} TakesValue(u: string, v: Json, rest: string)
    requires Derives(Free, u, v) && EndsNumber(rest)
    ensures ParseValue(u + rest) == Ok(v, rest)
    decreases v, 0
  {
    hide *;
    if v.Arr? {
      var inner := ArrayParts(u, v.items);
      InBrackets("[", inner, "]", rest);
      if v.items == [] {
        TakesBlank(inner, "]" + rest) by { ClosesNothing(rest); }
      } else {
        TakesItems(inner, v.items, rest);
      }
      ReadsArray(u + rest, v.items, rest);
    } else if v.Obj? {
      var inner := ObjectParts(u, v.members);
      InBrackets("{", inner, "}", rest);
      if v.members == [] {
        TakesBlank(inner, "}" + rest) by { ClosesNothing(rest); }
      } else {
        TakesMembers(inner, v.members, rest);
      }
      ReadsObject(u + rest, v.members, rest);
    } else {
      TakesScalar(u, v, rest);
    }
  }

  lemma ClosesNothing(rest: string)
    ensures !IsSpace(("]" + rest)[0]) && !IsSpace(("}" + rest)[0]) && !IsSpace(("," + rest)[0]) && !IsSpace((":" + rest)[0])
    ensures EndsNumber("]" + rest) && EndsNumber("}" + rest) && EndsNumber("," + rest)
  {
  }

  lemma InBrackets(open: string, inner: string, close: string, rest: string)
    requires |open| == 1
    ensures var s := open + inner + close + rest; s[0] == open[0] && s[1..] == inner + close + rest && s[1..] == inner + (close + rest)
  {
  }

  lemma ArrayParts(u: string, items: seq<Json>) returns (inner: string)
    requires Derives(Free, u, Arr(items))
    ensures u == "[" + inner + "]" && if items == [] then Blank(Free, inner) else Items(Free, inner, items)
  {
    hide Items;
    inner := u[1..|u| - 1];
  }

  lemma ObjectParts(u: string, members: seq<Member>) returns (inner: string)
    requires Derives(Free, u, Obj(members))
    ensures u == "{" + inner + "}" && UniqueKeys(members)
    ensures if members == [] then Blank(Free, inner) else Members(Free, inner, members)
  {
    hide Members, UniqueKeys;
    inner := u[1..|u| - 1];
  }

  lemma ReadsArray(s: string, items: seq<Json>, rest: string)
    requires s != "" && s[0] == '['
    requires var t := SkipSpace(s[1..]);
      if items == [] then t == "]" + rest else t != "" && t[0] != ']' && ParseItems(t) == Ok(items, rest)
    ensures ParseValue(s) == Ok(Arr(items), rest)
  {
    hide SkipSpace, ParseItems, ParseMembers, ParseString, ParseNumber;
  }

  lemma ReadsObject(s: string, members: seq<Member>, rest: string)
    requires s != "" && s[0] == '{' && UniqueKeys(members)
    requires var t := SkipSpace(s[1..]);
      if members == [] then t == "}" + rest else t != "" && t[0] != '}' && ParseMembers(t) == Ok(members, rest)
    ensures ParseValue(s) == Ok(Obj(members), rest)
  {
    hide SkipSpace, ParseItems, ParseMembers, ParseString, ParseNumber, UniqueKeys;
  }

  /** A padded value in front of a text that starts with a mark. */
  lemma {:induction false} TakesPadded(s: string, v: Json, more: string)
    requires Padded(Free, s, v) && more != "" && !IsSpace(more[0]) && EndsNumber(more)
    ensures var t := SkipSpace(s + more);
      && t != "" && t[0] != ']' && ParseValue(t).Ok? && ParseValue(t).value == v && SkipSpace(ParseValue(t).rest) == more
    decreases v, 1
  {
    var i: nat, j: nat :| PaddedAt(Free, s, v, i, j);
    var a, u, b := s[..i], s[i..j], s[j..];
    BlankEndsNumber(b, more);
    hide *;
    PaddedParts(s, v, i, j);
    ValueStarts(u, v);
    Cut(a, u, b);
    assert s + more == a + (u + (b + more)) && (u + (b + more))[0] == u[0];
    TakesBlank(a, u + (b + more));
    TakesValue(u, v, b + more);
    TakesBlank(b, more);
  }

  lemma PaddedParts(s: string, v: Json, i: nat, j: nat)
    requires PaddedAt(Free, s, v, i, j)
    ensures i <= j <= |s| && s == s[..i] + s[i..j] + s[j..] && Blank(Free, s[..i]) && Derives(Free, s[i..j], v) && Blank(Free, s[j..])
  {
    hide Derives, Blank;
  }

  lemma BlankEndsNumber(b: string, more: string)
    ensures Blank(Free, b) && EndsNumber(more) ==> EndsNumber(b + more)
  {
    assert b == "" ==> b + more == more;
  }

  lemma {:induction false} TakesItems(s: string, items: seq<Json>, rest: string)
    requires items != [] && Items(Free, s, items)
    ensures var t := SkipSpace(s + "]" + rest); t != "" && t[0] != ']' && ParseItems(t) == Ok(items, rest)
    decreases items, 2
  {
    hide *;
    ClosesNothing(rest);
    if |items| == 1 {
      OnlyItem(Free, s, items);
      TakesPadded(s, items[0], "]" + rest);
      Regroup(s, "]", rest, "");
      LastItem(SkipSpace(s + "]" + rest), items[0], rest);
    } else {
      var p, more := FirstItem(Free, s, items);
      var tail := more + "]" + rest;
      ClosesNothing(tail);
      TakesPadded(p, items[0], "," + tail);
      TakesItems(more, items[1..], rest);
      Spelled(s, p, more, "]", rest);
      NextItem(SkipSpace(s + "]" + rest), items, tail, rest);
    }
  }

  lemma Spelled(s: string, p: string, more: string, close: string, rest: string)
    requires s == p + "," + more
    ensures s + close + rest == p + ("," + (more + close + rest))
  {
  }

  lemma LastItem(t: string, v: Json, rest: string)
    requires ParseValue(t).Ok? && ParseValue(t).value == v && SkipSpace(ParseValue(t).rest) == "]" + rest
    ensures ParseItems(t) == Ok([v], rest)
  {
    hide ParseValue, SkipSpace;
    assert ("]" + rest)[1..] == rest;
  }

  lemma NextItem(t: string, items: seq<Json>, tail: string, rest: string)
    requires |items| > 1 && ParseValue(t).Ok? && ParseValue(t).value == items[0] && SkipSpace(ParseValue(t).rest) == "," + tail
    requires ParseItems(SkipSpace(tail)) == Ok(items[1..], rest)
    ensures ParseItems(t) == Ok(items, rest)
  {
    hide ParseValue, SkipSpace;
    assert ("," + tail)[1..] == tail;
    assert items == [items[0]] + items[1..];
  }

  /** A member in front of a text that starts with a mark. */
  lemma {:induction false} TakesMember(s: string, m: Member, more: string)
    requires MemberText(Free, s, m) && more != "" && !IsSpace(more[0]) && EndsNumber(more)
    ensures var t := SkipSpace(s + more);
      t != "" && t[0] == '"' && ParseMember(t).Ok? && ParseMember(t).value == m && SkipSpace(ParseMember(t).rest) == more
    decreases m, 3
  {
    hide *;
    var a, key, b, p := MemberParts(s, m);
    var text := key[1..|key| - 1];
    var tail := ":" + (p + more);
    ClosesNothing(p + more);
    Laid(a, key, b, p, more);
    TakesBlank(a, key + (b + tail)) by { QuoteIsNoSpace(key, b + tail); }
    TakesString(text, m.key, b + tail);
    TakesBlank(b, tail);
    TakesPadded(p, m.value, more);
    ReadsMember(key + (b + tail), m, b + tail, p + more);
  }

  lemma QuoteIsNoSpace(key: string, more: string)
    requires key != "" && key[0] == '"'
    ensures !IsSpace((key + more)[0])
  {
  }

  lemma Laid(a: string, key: string, b: string, p: string, more: string)
    requires |key| >= 2 && key[0] == '"' && key[|key| - 1] == '"'
    ensures var tail := ":" + (p + more);
      && (a + key + b + ":" + p) + more == a + (key + (b + tail))
      && (key + (b + tail))[1..] == key[1..|key| - 1] + "\"" + (b + tail) && (key + (b + tail))[0] == '"'
  {
  }

  lemma MemberParts(s: string, m: Member) returns (a: string, key: string, b: string, p: string)
    requires MemberText(Free, s, m)
    ensures s == a + key + b + ":" + p && Blank(Free, a) && Blank(Free, b) && Padded(Free, p, m.value)
    ensures |key| >= 2 && key[0] == '"' && key[|key| - 1] == '"' && Body(Free, key[1..|key| - 1], m.key)
  {
    hide Padded, Blank, Body;
    var i: nat, j: nat, k: nat :| MemberAt(Free, s, m, i, j, k);
    a, key, b, p := s[..i], s[i..j], s[j..k], s[k + 1..];
  }

  lemma ReadsMember(t: string, m: Member, after: string, tail: string)
    requires t != "" && t[0] == '"' && ParseString(t[1..]) == Ok(m.key, after) && SkipSpace(after) == ":" + tail
    requires ParseValue(SkipSpace(tail)).Ok? && ParseValue(SkipSpace(tail)).value == m.value
    ensures ParseMember(t) == Ok(m, ParseValue(SkipSpace(tail)).rest)
  {
    hide ParseString, SkipSpace, ParseValue;
    assert (":" + tail)[1..] == tail;
  }

  lemma {:induction false} TakesMembers(s: string, members: seq<Member>, rest: string)
    requires members != [] && Members(Free, s, members)
    ensures var t := SkipSpace(s + "}" + rest); t != "" && t[0] != '}' && ParseMembers(t) == Ok(members, rest)
    decreases members, 4
  {
    hide *;
    ClosesNothing(rest);
    if |members| == 1 {
      OnlyMember(Free, s, members);
      TakesMember(s, members[0], "}" + rest);
      Regroup(s, "}", rest, "");
      LastMember(SkipSpace(s + "}" + rest), members[0], rest);
    } else {
      var p, more := FirstMember(Free, s, members);
      var tail := more + "}" + rest;
      ClosesNothing(tail);
      TakesMember(p, members[0], "," + tail);
      TakesMembers(more, members[1..], rest);
      Spelled(s, p, more, "}", rest);
      NextMember(SkipSpace(s + "}" + rest), members, tail, rest);
    }
  }

  lemma LastMember(t: string, m: Member, rest: string)
    requires ParseMember(t).Ok? && ParseMember(t).value == m && SkipSpace(ParseMember(t).rest) == "}" + rest
    ensures ParseMembers(t) == Ok([m], rest)
  {
    hide ParseMember, SkipSpace;
    assert ("}" + rest)[1..] == rest;
  }

  lemma NextMember(t: string, members: seq<Member>, tail: string, rest: string)
    requires |members| > 1 && ParseMember(t).Ok? && ParseMember(t).value == members[0] && SkipSpace(ParseMember(t).rest) == "," + tail
    requires ParseMembers(SkipSpace(tail)) == Ok(members[1..], rest)
    ensures ParseMembers(t) == Ok(members, rest)
  {
    hide ParseMember, SkipSpace;
    assert ("," + tail)[1..] == tail;
    assert members == [members[0]] + members[1..];
  }

  // ---- whole texts ---------------------------------------------------------------------

  /** The reader reads exactly the grammar: it takes a text for a value if and only if the text, but
      for white space around it, denotes that value. */
  lemma DecodeIffDerives(text: string, v: Json)
    ensures Decode(text) == Value(v) <==> Padded(Free, text, v)
  {
    if Decode(text) == Value(v) {
      ReadTextIsDerived(text, v);
    }
    if Padded(Free, text, v) {
      DerivedTextIsRead(text, v);
    }
  }

  lemma ReadTextIsDerived(text: string, v: Json)
    requires Decode(text) == Value(v)
    ensures Padded(Free, text, v)
  {
    hide ParseValue, SkipSpace;
    var t := SkipSpace(text);
    var rest := ParseValue(t).rest;
    hide *;
    var a := SkippedIsBlank(text);
    var u := ValueWasRead(t, v, rest);
    var b := SkippedIsBlank(rest);
    assert b + "" == b;
    Pad(Free, a, u, b, v);
    Cut(a, u, b);
  }

  lemma DerivedTextIsRead(text: string, v: Json)
    requires Padded(Free, text, v)
    ensures Decode(text) == Value(v)
  {
    var i: nat, j: nat :| PaddedAt(Free, text, v, i, j);
    var a, u, b := text[..i], text[i..j], text[j..];
    BlankEndsNumber(b, "");
    assert b + "" == b;
    assert EndsNumber("");
    hide *;
    PaddedParts(text, v, i, j);
    ValueStarts(u, v);
    Cut(a, u, b);
    assert (u + b)[0] == u[0];
    TakesBlank(a, u + b);
    TakesValue(u, v, b);
    TakesBlank(b, "");
    Decodes(text, v);
  }

  lemma Decodes(text: string, v: Json)
    requires ParseValue(SkipSpace(text)).Ok? && ParseValue(SkipSpace(text)).value == v
    requires SkipSpace(ParseValue(SkipSpace(text)).rest) == ""
    ensures Decode(text) == Value(v)
  {
    hide ParseValue, SkipSpace;
  }
}
