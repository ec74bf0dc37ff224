/** JSON text: what json.dumps prints with ensure_ascii off and compact separators, and what
    json.loads reads, by the grammar of RFC 8259 (string escapes: section 7 of RFC 8259).
    Strings are sequences of Unicode scalar values. A number with a fraction or an exponent is
    read, and kept as its literal; the values that are printed have none. */
module Json {
  import Decimal

  datatype Json =
    | Null
    | Bool(truth: bool)
    | Int(number: int)
    | Real(literal: string)
    | Str(text: string)
    | Arr(items: seq<Json>)
    | Obj(members: seq<Member>)

  datatype Member = Member(key: string, value: Json)

  // ---- printing --------------------------------------------------------------

  function HexDigit(d: nat): char
    requires d < 16
  {
    "0123456789abcdef"[d]
  }

  function EscapeChar(c: char): string {
    if c == '"' then "\\\""
    else if c == '\\' then "\\\\"
    else if c == '\U{08}' then "\\b"
    else if c == '\U{0C}' then "\\f"
    else if c == '\n' then "\\n"
    else if c == '\r' then "\\r"
    else if c == '\t' then "\\t"
    else if c < ' ' then "\\u00" + [HexDigit(c as int / 16), HexDigit(c as int % 16)]
    else [c]
  }

  function Escape(s: string): string {
    if s == "" then "" else EscapeChar(s[0]) + Escape(s[1..])
  }

  function Quoted(s: string): string {
    "\"" + Escape(s) + "\""
  }

  function PrintInt(n: int): string {
    if n < 0 then "-" + Decimal.Digits(-n) else Decimal.Digits(n)
  }

  function Print(v: Json): string {
    match v
    case Null => "null"
    case Bool(truth) => if truth then "true" else "false"
    case Int(n) => PrintInt(n)
    case Real(literal) => literal
    case Str(s) => Quoted(s)
    case Arr(items) => "[" + PrintItems(items) + "]"
    case Obj(members) => "{" + PrintMembers(members) + "}"
  }

  function PrintItems(items: seq<Json>): string {
    if items == [] then ""
    else if |items| == 1 then Print(items[0])
    else Print(items[0]) + "," + PrintItems(items[1..])
  }

  function PrintMember(m: Member): string {
    Quoted(m.key) + ":" + Print(m.value)
  }

  function PrintMembers(members: seq<Member>): string {
    if members == [] then ""
    else if |members| == 1 then PrintMember(members[0])
    else PrintMember(members[0]) + "," + PrintMembers(members[1..])
  }

  // ---- reading ---------------------------------------------------------------

  /** What was read from the front of a text, and what is left of it. */
  datatype Parsed<T> = Ok(value: T, rest: string) | Bad

  predicate IsSpace(c: char) {
    c == ' ' || c == '\t' || c == '\n' || c == '\r'
  }

  function SkipSpace(s: string): (r: string)
    ensures |r| <= |s|
  {
    if s != "" && IsSpace(s[0]) then SkipSpace(s[1..]) else s
  }

  function HexValue(c: char): int {
    if '0' <= c <= '9' then c as int - '0' as int
    else if 'a' <= c <= 'f' then c as int - 'a' as int + 10
    else if 'A' <= c <= 'F' then c as int - 'A' as int + 10
    else -1
  }

  /** Four hex digits at the front of a text, or -1. */
  function HexFour(s: string): int {
    if |s| < 4 || HexValue(s[0]) < 0 || HexValue(s[1]) < 0 || HexValue(s[2]) < 0 || HexValue(s[3]) < 0 then -1
    else HexValue(s[0]) * 0x1000 + HexValue(s[1]) * 0x100 + HexValue(s[2]) * 0x10 + HexValue(s[3])
  }

  /** The character of a `\u` escape; a high surrogate needs its low one right after it. */
  function ParseUnicode(s: string): (r: Parsed<char>)
    ensures r.Ok? ==> |r.rest| < |s|
  {
    var first := HexFour(s);
    if first < 0 then Bad
    else if first < 0xD800 || 0xE000 <= first <= 0xFFFF then Ok(first as char, s[4..])
    else if first < 0xDC00 && |s| >= 10 && s[4] == '\\' && s[5] == 'u' && 0xDC00 <= HexFour(s[6..]) < 0xE000 then
      Ok((0x10000 + (first - 0xD800) * 0x400 + (HexFour(s[6..]) - 0xDC00)) as char, s[10..])
    else Bad
  }

  /** The character of an escape, after its backslash. */
  function ParseEscape(s: string): (r: Parsed<char>)
    ensures r.Ok? ==> |r.rest| < |s|
  {
    if s == "" then Bad
    else
      match s[0]
      case '"' => Ok('"', s[1..])
      case '\\' => Ok('\\', s[1..])
      case '/' => Ok('/', s[1..])
      case 'b' => Ok('\U{08}', s[1..])
      case 'f' => Ok('\U{0C}', s[1..])
      case 'n' => Ok('\n', s[1..])
      case 'r' => Ok('\r', s[1..])
      case 't' => Ok('\t', s[1..])
      case 'u' => ParseUnicode(s[1..])
      case _ => Bad
  }

  function Prepend<T>(x: T, more: Parsed<seq<T>>): Parsed<seq<T>> {
    match more
    case Ok(xs, rest) => Ok([x] + xs, rest)
    case Bad => Bad
  }

  /** The rest of a string, after its opening quote. */
  function ParseString(s: string): (r: Parsed<string>)
    ensures r.Ok? ==> |r.rest| < |s|
    decreases |s|
  {
    if s == "" || s[0] < ' ' then Bad
    else if s[0] == '"' then Ok("", s[1..])
    else if s[0] == '\\' then
      match ParseEscape(s[1..])
      case Ok(c, rest) => Prepend(c, ParseString(rest))
      case Bad => Bad
    else Prepend(s[0], ParseString(s[1..]))
  }

  function LeadingDigits(s: string): (r: string)
    ensures |r| <= |s| && r == s[..|r|] && Decimal.AllDigits(r)
  {
    if s != "" && Decimal.IsDigit(s[0]) then [s[0]] + LeadingDigits(s[1..]) else ""
  }

  /** The digits of a number: a zero stands alone. */
  function ParseNatural(s: string): (r: Parsed<int>)
    ensures r.Ok? ==> |r.rest| < |s|
  {
    var digits := LeadingDigits(s);
    if digits == "" then Bad
    else if digits[0] == '0' then Ok(0, s[1..])
    else Ok(Decimal.Value(digits), s[|digits|..])
  }

  function SkipSign(s: string): (r: string)
    ensures |r| <= |s| <= |r| + 1
  {
    if s != "" && (s[0] == '+' || s[0] == '-') then s[1..] else s
  }

  /** How much of a text is a fraction: a point and at least one digit. */
  function FractionLength(s: string): (n: nat)
    ensures n <= |s|
  {
    if s == "" || s[0] != '.' || LeadingDigits(s[1..]) == "" then 0 else 1 + |LeadingDigits(s[1..])|
  }

  /** How much of a text is an exponent: a letter, perhaps a sign, and at least one digit. */
  function ExponentLength(s: string): (n: nat)
    ensures n <= |s|
  {
    if s == "" || (s[0] != 'e' && s[0] != 'E') || LeadingDigits(SkipSign(s[1..])) == "" then 0
    else |s| - |SkipSign(s[1..])| + |LeadingDigits(SkipSign(s[1..]))|
  }

  /** A number: an integer, or with a fraction or an exponent its literal. */
  function ParseNumber(s: string): (r: Parsed<Json>)
    ensures r.Ok? ==> |r.rest| < |s|
  {
    var negative := s != "" && s[0] == '-';
    match ParseNatural(if negative then s[1..] else s)
    case Bad => Bad
    case Ok(n, after) =>
      var fraction := FractionLength(after);
      var exponent := ExponentLength(after[fraction..]);
      var rest := after[fraction + exponent..];
      if fraction + exponent == 0 then Ok(Int(if negative then -n else n), after)
      else Ok(Real(s[..|s| - |rest|]), rest)
  }

  function ParseWord(s: string, word: string, v: Json): (r: Parsed<Json>)
    ensures r.Ok? && word != "" ==> |r.rest| < |s|
  {
    if word <= s then Ok(v, s[|word|..]) else Bad
  }

  /** A value at the front of a text. */
  function ParseValue(s: string): (r: Parsed<Json>)
    ensures r.Ok? ==> |r.rest| < |s|
    decreases |s|, 0
  {
    if s == "" then Bad
    else
      match s[0]
      case '"' => (match ParseString(s[1..]) case Ok(text, rest) => Ok(Str(text), rest) case Bad => Bad)
      case '[' =>
        var t := SkipSpace(s[1..]);
        if t != "" && t[0] == ']' then Ok(Arr([]), t[1..])
        else (match ParseItems(t) case Ok(items, rest) => Ok(Arr(items), rest) case Bad => Bad)
      case '{' =>
        var t := SkipSpace(s[1..]);
        if t != "" && t[0] == '}' then Ok(Obj([]), t[1..])
        else (match ParseMembers(t) case Ok(members, rest) => MakeObject(members, rest) case Bad => Bad)
      case 'n' => ParseWord(s, "null", Null)
      case 't' => ParseWord(s, "true", Bool(true))
      case 'f' => ParseWord(s, "false", Bool(false))
      case _ => ParseNumber(s)
  }

  /** The items of an array, up to and including its bracket. */
  function ParseItems(s: string): (r: Parsed<seq<Json>>)
    ensures r.Ok? ==> |r.rest| < |s|
    decreases |s|, 1
  {
    match ParseValue(s)
    case Bad => Bad
    case Ok(v, after) =>
      var t := SkipSpace(after);
      if t == "" then Bad
      else if t[0] == ']' then Ok([v], t[1..])
      else if t[0] == ',' then Prepend(v, ParseItems(SkipSpace(t[1..])))
      else Bad
  }

  function ParseMember(s: string): (r: Parsed<Member>)
    ensures r.Ok? ==> |r.rest| < |s|
    decreases |s|, 0
  {
    if s == "" || s[0] != '"' then Bad
    else
      match ParseString(s[1..])
      case Bad => Bad
      case Ok(key, after) =>
        var t := SkipSpace(after);
        if t == "" || t[0] != ':' then Bad
        else
          match ParseValue(SkipSpace(t[1..]))
          case Bad => Bad
          case Ok(v, rest) => Ok(Member(key, v), rest)
  }

  /** The members of an object, up to and including its brace. */
  function ParseMembers(s: string): (r: Parsed<seq<Member>>)
    ensures r.Ok? ==> |r.rest| < |s|
    decreases |s|, 1
  {
    match ParseMember(s)
    case Bad => Bad
    case Ok(m, after) =>
      var t := SkipSpace(after);
      if t == "" then Bad
      else if t[0] == '}' then Ok([m], t[1..])
      else if t[0] == ',' then Prepend(m, ParseMembers(SkipSpace(t[1..])))
      else Bad
  }

  predicate UniqueKeys(members: seq<Member>) {
    forall i, j :: 0 <= i < j < |members| ==> members[i].key != members[j].key
  }

  /** The object hook (app/strict_json.py:43-49): a repeated key is an error. */
  function MakeObject(members: seq<Member>, rest: string): Parsed<Json> {
    if UniqueKeys(members) then Ok(Obj(members), rest) else Bad
  }

  /** json.loads on a whole text; Invalid stands for every error, a lone surrogate escape included. */
  datatype Decoded = Value(value: Json) | Invalid

  function Decode(s: string): Decoded {
    match ParseValue(SkipSpace(s))
    case Ok(v, rest) => if SkipSpace(rest) == "" then Value(v) else Invalid
    case Bad => Invalid
  }

  // ---- round trip --------------------------------------------------------------

  /** The values of app/canonical.py:7-11, and null: no fractions, and each dictionary holds each
      key once. */
  predicate WellFormed(v: Json) {
    match v
    case Real(_) => false
    case Arr(items) => forall i :: 0 <= i < |items| ==> WellFormed(items[i])
    case Obj(members) => UniqueKeys(members) && forall i :: 0 <= i < |members| ==> WellFormed(members[i].value)
    case _ => true
  }

  lemma HexRoundTrip(d: nat)
    requires d < 16
    ensures HexValue(HexDigit(d)) == d
  {
  }

  lemma EscapeRoundTrip(c: char, rest: string)
    ensures var s := EscapeChar(c) + rest;
      if c == '"' || c == '\\' || c < ' ' then s[0] == '\\' && ParseEscape(s[1..]) == Ok(c, rest)
      else s[0] == c && s[1..] == rest
  {
    if c < ' ' && c !in "\U{08}\U{0C}\n\r\t" {
      var tail := "00" + [HexDigit(c as int / 16), HexDigit(c as int % 16)] + rest;
      assert EscapeChar(c) + rest == "\\" + ("u" + tail);
      assert ("\\" + ("u" + tail))[1..] == "u" + tail && ("u" + tail)[1..] == tail;
      ControlRoundTrip(c, rest);
      hide HexFour, EscapeChar;
    }
  }

  lemma ControlRoundTrip(c: char, rest: string)
    requires c < ' '
    ensures ParseUnicode("00" + [HexDigit(c as int / 16), HexDigit(c as int % 16)] + rest) == Ok(c, rest)
  {
    var s := "00" + [HexDigit(c as int / 16), HexDigit(c as int % 16)] + rest;
    HexRoundTrip(c as int / 16);
    HexRoundTrip(c as int % 16);
    assert s[0] == '0' && s[1] == '0' && s[2] == HexDigit(c as int / 16) && s[3] == HexDigit(c as int % 16);
    assert s[4..] == rest;
    hide HexDigit;
    assert HexFour(s) == c as int;
  }

  lemma {:induction false} StringRoundTrip(text: string, rest: string)
    ensures ParseString(Escape(text) + "\"" + rest) == Ok(text, rest)
  {
    hide ParseEscape, EscapeChar;
    var tail := "\"" + rest;
    assert Escape(text) + "\"" + rest == Escape(text) + tail;
    if text == "" {
      assert Escape(text) + tail == tail;
    } else {
      var more := Escape(text[1..]) + tail;
      StringRoundTrip(text[1..], rest);
      assert Escape(text[1..]) + "\"" + rest == more;
      assert Escape(text) + tail == EscapeChar(text[0]) + more;
      CharRoundTrip(text[0], more);
      assert [text[0]] + text[1..] == text;
    }
  }

  /** One character of a string, escaped, is read back in front of whatever follows. */
  lemma CharRoundTrip(c: char, more: string)
    ensures ParseString(EscapeChar(c) + more) == Prepend(c, ParseString(more))
  {
    EscapeRoundTrip(c, more);
    hide ParseEscape, EscapeChar;
  }

  /** A number ends before this text. */
  predicate EndsNumber(s: string) {
    s == "" || (!Decimal.IsDigit(s[0]) && s[0] != '.' && s[0] != 'e' && s[0] != 'E')
  }

  lemma {:induction false} DigitsAreTaken(digits: string, rest: string)
    requires Decimal.AllDigits(digits) && EndsNumber(rest)
    ensures LeadingDigits(digits + rest) == digits
  {
    if digits == "" {
      assert digits + rest == rest;
    } else {
      assert (digits + rest)[1..] == digits[1..] + rest;
      DigitsAreTaken(digits[1..], rest);
    }
  }

  lemma NaturalRoundTrip(n: nat, rest: string)
    requires EndsNumber(rest)
    ensures ParseNatural(Decimal.Digits(n) + rest) == Ok(n, rest)
    ensures Decimal.IsDigit((Decimal.Digits(n) + rest)[0])
  {
    var digits := Decimal.Digits(n);
    Decimal.DigitsRoundTrip(n);
    Decimal.NoLeadingZero(n);
    DigitsAreTaken(digits, rest);
    hide Decimal.Digits, Decimal.Value, LeadingDigits;
    assert (digits + rest)[|digits|..] == rest && (digits + rest)[0] == digits[0];
  }

  lemma IntRoundTrip(n: int, rest: string)
    requires EndsNumber(rest)
    ensures ParseNumber(PrintInt(n) + rest) == Ok(Int(n), rest)
    ensures (PrintInt(n) + rest)[0] == '-' || Decimal.IsDigit((PrintInt(n) + rest)[0])
  {
    hide Decimal.Digits, ParseNatural;
    if n < 0 {
      NaturalRoundTrip(-n, rest);
      assert PrintInt(n) + rest == "-" + (Decimal.Digits(-n) + rest);
    } else {
      NaturalRoundTrip(n, rest);
    }
  }

  /** Printed values start with their own character, not with a space or a closing bracket. */
  lemma PrintStarts(v: Json, rest: string)
    requires !v.Real?
    ensures var s := Print(v) + rest; s != "" && !IsSpace(s[0]) && s[0] != ']'
  {
    if v.Int? {
      IntStarts(v.number);
    }
    hide Escape, PrintItems, PrintMembers, PrintInt;
  }

  lemma IntStarts(n: int)
    ensures PrintInt(n) != "" && (PrintInt(n)[0] == '-' || Decimal.IsDigit(PrintInt(n)[0]))
  {
    IntRoundTrip(n, "");
    assert PrintInt(n) + "" == PrintInt(n);
  }

  lemma QuotedRoundTrip(text: string, rest: string)
    ensures var s := Quoted(text) + rest; s[0] == '"' && ParseString(s[1..]) == Ok(text, rest)
  {
    StringRoundTrip(text, rest);
    hide ParseString, Escape;
    assert (Quoted(text) + rest)[1..] == Escape(text) + "\"" + rest;
  }

  lemma ScalarRoundTrip(v: Json, rest: string)
    requires !v.Arr? && !v.Obj? && !v.Real? && EndsNumber(rest)
    ensures ParseValue(Print(v) + rest) == Ok(v, rest)
  {
    hide ParseString, Escape, ParseNumber, PrintInt, ParseItems, ParseMembers;
    match v
    case Null => assert ("null" + rest)[4..] == rest;
    case Bool(truth) => assert ("true" + rest)[4..] == rest && ("false" + rest)[5..] == rest;
    case Int(n) => IntRoundTrip(n, rest);
    case Str(text) => QuotedRoundTrip(text, rest);
  }

  /** A text that starts with no space. */
  predicate Tight(s: string) {
    s != "" && !IsSpace(s[0])
  }

  lemma ReadArray(t: string, items: seq<Json>, rest: string)
    requires Tight(t) && t[0] != ']' && ParseItems(t) == Ok(items, rest)
    ensures ParseValue("[" + t) == Ok(Arr(items), rest)
  {
    hide ParseItems, ParseMembers, ParseString, ParseNumber;
    assert ("[" + t)[1..] == t;
  }

  lemma ReadEmpty(rest: string)
    ensures ParseValue("[" + ("]" + rest)) == Ok(Arr([]), rest)
    ensures ParseValue("{" + ("}" + rest)) == Ok(Obj([]), rest)
  {
    hide ParseItems, ParseMembers, ParseString, ParseNumber;
    assert ("[" + ("]" + rest))[1..] == "]" + rest && ("]" + rest)[1..] == rest;
    assert ("{" + ("}" + rest))[1..] == "}" + rest && ("}" + rest)[1..] == rest;
  }

  lemma ReadObject(t: string, members: seq<Member>, rest: string)
    requires Tight(t) && t[0] != '}' && ParseMembers(t) == Ok(members, rest) && UniqueKeys(members)
    ensures ParseValue("{" + t) == Ok(Obj(members), rest)
  {
    hide ParseItems, ParseMembers, ParseString, ParseNumber;
    assert ("{" + t)[1..] == t;
  }

  lemma ReadLastItem(s: string, v: Json, rest: string)
    requires ParseValue(s) == Ok(v, "]" + rest)
    ensures ParseItems(s) == Ok([v], rest)
  {
    hide ParseValue;
    assert ("]" + rest)[1..] == rest;
  }

  lemma ReadItem(s: string, v: Json, t: string, items: seq<Json>, rest: string)
    requires ParseValue(s) == Ok(v, "," + t) && Tight(t) && ParseItems(t) == Ok(items, rest)
    ensures ParseItems(s) == Ok([v] + items, rest)
  {
    hide ParseValue;
    assert ("," + t)[1..] == t;
  }

  lemma ReadLastMember(s: string, m: Member, rest: string)
    requires ParseMember(s) == Ok(m, "}" + rest)
    ensures ParseMembers(s) == Ok([m], rest)
  {
    hide ParseMember;
    assert ("}" + rest)[1..] == rest;
  }

  lemma ReadMember(s: string, m: Member, t: string, members: seq<Member>, rest: string)
    requires ParseMember(s) == Ok(m, "," + t) && Tight(t) && ParseMembers(t) == Ok(members, rest)
    ensures ParseMembers(s) == Ok([m] + members, rest)
  {
    hide ParseMember;
    assert ("," + t)[1..] == t;
  }

  lemma Regroup(a: string, b: string, c: string, d: string)
    ensures a + b + c + d == a + (b + (c + d))
    ensures a + b + c == a + (b + c)
  {
  }

  /** How printed arrays and objects fall apart. */
  lemma PrintedParts(items: seq<Json>, members: seq<Member>, rest: string)
    ensures Print(Arr(items)) + rest == "[" + (PrintItems(items) + ("]" + rest))
    ensures Print(Obj(members)) + rest == "{" + (PrintMembers(members) + ("}" + rest))
  {
    Regroup("[", PrintItems(items), "]", rest);
    Regroup("{", PrintMembers(members), "}", rest);
    hide PrintItems, PrintMembers;
  }

  lemma ItemsParts(items: seq<Json>, rest: string)
    requires items != []
    ensures |items| == 1 ==> PrintItems(items) + rest == Print(items[0]) + rest
    ensures |items| > 1 ==> PrintItems(items) + rest == Print(items[0]) + ("," + (PrintItems(items[1..]) + rest))
  {
    Regroup(Print(items[0]), ",", PrintItems(items[1..]), rest);
    hide Print;
  }

  lemma MembersParts(members: seq<Member>, rest: string)
    requires members != []
    ensures |members| == 1 ==> PrintMembers(members) + rest == PrintMember(members[0]) + rest
    ensures |members| > 1 ==>
      PrintMembers(members) + rest == PrintMember(members[0]) + ("," + (PrintMembers(members[1..]) + rest))
  {
    Regroup(PrintMember(members[0]), ",", PrintMembers(members[1..]), rest);
    hide PrintMember;
  }

  lemma ReadMemberParts(s: string, key: string, t: string, v: Json, rest: string)
    requires s != "" && s[0] == '"' && ParseString(s[1..]) == Ok(key, ":" + t)
    requires Tight(t) && ParseValue(t) == Ok(v, rest)
    ensures ParseMember(s) == Ok(Member(key, v), rest)
  {
    hide ParseString, ParseValue;
    assert (":" + t)[1..] == t;
  }

  lemma ItemsStart(items: seq<Json>, rest: string)
    requires items != [] && !items[0].Real?
    ensures var s := PrintItems(items) + rest; Tight(s) && s[0] != ']'
  {
    PrintStarts(items[0], "");
    assert Print(items[0]) + "" == Print(items[0]);
    hide Print;
  }

  lemma MembersStart(members: seq<Member>, rest: string)
    requires members != []
    ensures var s := PrintMembers(members) + rest; Tight(s) && s[0] == '"'
  {
    hide Print, Escape;
    assert PrintMember(members[0])[0] == '"';
    hide PrintMember;
  }

  /** Every value printed is read back in front of whatever follows it. */
  lemma {:induction false} ValueRoundTrip(v: Json, rest: string)
    requires WellFormed(v) && EndsNumber(rest)
    ensures ParseValue(Print(v) + rest) == Ok(v, rest)
    decreases v, 0
  {
    hide ParseValue, Print;
    match v
    case Arr(items) =>
      PrintedParts(items, [], rest);
      if items == [] {
        ReadEmpty(rest);
        assert PrintItems([]) + ("]" + rest) == "]" + rest;
      } else {
        ItemsRoundTrip(items, rest);
        ItemsStart(items, "]" + rest);
        ReadArray(PrintItems(items) + ("]" + rest), items, rest);
      }
    case Obj(members) =>
      PrintedParts([], members, rest);
      if members == [] {
        ReadEmpty(rest);
        assert PrintMembers([]) + ("}" + rest) == "}" + rest;
      } else {
        MembersRoundTrip(members, rest);
        MembersStart(members, "}" + rest);
        ReadObject(PrintMembers(members) + ("}" + rest), members, rest);
      }
    case _ => ScalarRoundTrip(v, rest);
  }

  lemma {:induction false} ItemsRoundTrip(items: seq<Json>, rest: string)
    requires items != [] && forall i :: 0 <= i < |items| ==> WellFormed(items[i])
    ensures ParseItems(PrintItems(items) + ("]" + rest)) == Ok(items, rest)
    decreases items, 1
  {
    hide ParseValue, ParseItems, Print, PrintItems;
    ItemsParts(items, "]" + rest);
    var s := PrintItems(items) + ("]" + rest);
    if |items| == 1 {
      ValueRoundTrip(items[0], "]" + rest);
      ReadLastItem(s, items[0], rest);
      assert items == [items[0]];
    } else {
      var t := PrintItems(items[1..]) + ("]" + rest);
      ValueRoundTrip(items[0], "," + t);
      ItemsRoundTrip(items[1..], rest);
      ItemsStart(items[1..], "]" + rest);
      ReadItem(s, items[0], t, items[1..], rest);
      assert items == [items[0]] + items[1..];
    }
  }

  lemma {:induction false} MemberRoundTrip(m: Member, rest: string)
    requires WellFormed(m.value) && EndsNumber(rest)
    ensures ParseMember(PrintMember(m) + rest) == Ok(m, rest)
    decreases m, 1
  {
    assert !m.value.Real?;
    hide Print, Quoted, ParseValue, ParseString, WellFormed, ParseMember;
    var t := Print(m.value) + rest;
    Regroup(Quoted(m.key), ":", Print(m.value), rest);
    QuotedRoundTrip(m.key, ":" + t);
    ValueRoundTrip(m.value, rest);
    PrintStarts(m.value, rest);
    ReadMemberParts(PrintMember(m) + rest, m.key, t, m.value, rest);
  }

  lemma {:induction false} MembersRoundTrip(members: seq<Member>, rest: string)
    requires members != [] && forall i :: 0 <= i < |members| ==> WellFormed(members[i].value)
    ensures ParseMembers(PrintMembers(members) + ("}" + rest)) == Ok(members, rest)
    decreases members, 2
  {
    hide ParseMember, ParseMembers, PrintMember, PrintMembers;
    MembersParts(members, "}" + rest);
    var s := PrintMembers(members) + ("}" + rest);
    if |members| == 1 {
      MemberRoundTrip(members[0], "}" + rest);
      ReadLastMember(s, members[0], rest);
      assert members == [members[0]];
    } else {
      var t := PrintMembers(members[1..]) + ("}" + rest);
      MemberRoundTrip(members[0], "," + t);
      MembersRoundTrip(members[1..], rest);
      MembersStart(members[1..], "}" + rest);
      ReadMember(s, members[0], t, members[1..], rest);
      assert members == [members[0]] + members[1..];
    }
  }

  /** json.loads undoes json.dumps on every value of the domain. */
  lemma DecodeUndoesPrint(v: Json)
    requires WellFormed(v)
    ensures Decode(Print(v)) == Value(v)
  {
    ValueRoundTrip(v, "");
    PrintStarts(v, "");
    assert Print(v) + "" == Print(v);
    hide Print, ParseValue, WellFormed;
  }
}
