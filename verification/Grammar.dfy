/** The grammar of JSON text (RFC 8259) as a relation between texts and values, and what the reader
    and the printer have to do with it. In the free style white space may stand between tokens and
    characters may be escaped in any way; in the compact style, which json.dumps writes with compact
    separators and ensure_ascii off, there is no white space and nothing is escaped that need not be. */
module Grammar {
  import opened Json
  import Decimal

  datatype Style = Free | Compact

  predicate Blank(style: Style, s: string) {
    if style == Compact then s == ""
    else forall i :: 0 <= i < |s| ==> s[i] == ' ' || s[i] == '\t' || s[i] == '\n' || s[i] == '\r'
  }

  // ---- numbers (section 6) -------------------------------------------------------------

  predicate NaturalText(s: string, n: int) {
    s != "" && Decimal.AllDigits(s) && (s[0] == '0' ==> s == "0") && n == Decimal.Value(s)
  }

  /** A negative zero is read but never written. */
  predicate IntText(style: Style, s: string, n: int) {
    || NaturalText(s, n)
    || (s != "" && s[0] == '-' && NaturalText(s[1..], -n) && (style == Compact ==> n != 0))
  }

  predicate FractionText(s: string) {
    s == "" || (s[0] == '.' && s[1..] != "" && Decimal.AllDigits(s[1..]))
  }

  predicate ExponentText(s: string) {
    || s == ""
    || ((s[0] == 'e' || s[0] == 'E') && s[1..] != "" && Decimal.AllDigits(s[1..]))
    || ((s[0] == 'e' || s[0] == 'E') && s[1..] != "" && (s[1] == '+' || s[1] == '-') && s[2..] != "" && Decimal.AllDigits(s[2..]))
  }

  /** An integer up to `i`, a fraction up to `j` and an exponent, not both empty. */
  ghost predicate SplitsReal(s: string, i: nat, j: nat) {
    && i <= j <= |s| && i < |s| && (exists n :: IntText(Free, s[..i], n))
    && FractionText(s[i..j]) && ExponentText(s[j..])
  }

  ghost predicate RealText(s: string) {
    exists i, j :: SplitsReal(s, i, j)
  }

  // ---- strings (section 7) -------------------------------------------------------------

  predicate IsHex(c: char, d: int) {
    0 <= d < 16 && (c == "0123456789abcdef"[d] || c == "0123456789ABCDEF"[d])
  }

  /** Four hex digits that stand for `n`. */
  ghost predicate Quad(s: string, n: int) {
    |s| == 4 && exists a, b, c, d ::
      IsHex(s[0], a) && IsHex(s[1], b) && IsHex(s[2], c) && IsHex(s[3], d) && n == 4096 * a + 256 * b + 16 * c + d
  }

  predicate Plain(s: string, c: char) {
    s == [c] && c >= ' ' && c != '"' && c != '\\'
  }

  /** An escape of two characters. */
  predicate Short(s: string, c: char) {
    || (s == ['\\', '"'] && c == '"') || (s == ['\\', '\\'] && c == '\\') || (s == ['\\', '/'] && c == '/')
    || (s == ['\\', 'b'] && c as int == 8) || (s == ['\\', 't'] && c as int == 9) || (s == ['\\', 'n'] && c as int == 10)
    || (s == ['\\', 'f'] && c as int == 12) || (s == ['\\', 'r'] && c as int == 13)
  }

  /** An escape by number: the character itself, or its two UTF-16 surrogates. */
  ghost predicate Numeric(s: string, c: char) {
    || (|s| == 6 && s[..2] == "\\u" && Quad(s[2..], c as int))
    || (|s| == 12 && s[..2] == "\\u" && s[6..8] == "\\u" && exists high, low ::
          && Quad(s[2..6], high) && Quad(s[8..], low) && 0xD800 <= high < 0xDC00 && 0xDC00 <= low < 0xE000
          && c as int == 0x10000 + (high - 0xD800) * 0x400 + (low - 0xDC00))
  }

  predicate LowerCase(s: string) {
    forall i :: 0 <= i < |s| ==> !('A' <= s[i] <= 'F')
  }

  /** How one character may be written; compactly, it stands for itself if it can, otherwise it has a
      short escape if there is one, and otherwise its number in lower case. */
  ghost predicate Piece(style: Style, s: string, c: char) {
    match style
    case Free => Plain(s, c) || Short(s, c) || Numeric(s, c)
    case Compact =>
      if c >= ' ' && c != '"' && c != '\\' then s == [c]
      else if c == '"' || c == '\\' || 8 <= c as int <= 10 || 12 <= c as int <= 13 then Short(s, c)
      else |s| == 6 && Numeric(s, c) && LowerCase(s)
  }

  ghost predicate Body(style: Style, s: string, text: string)
    decreases text
  {
    if text == "" then s == ""
    else exists k :: 0 < k <= |s| && Piece(style, s[..k], text[0]) && Body(style, s[k..], text[1..])
  }

  ghost predicate StringText(style: Style, s: string, text: string) {
    |s| >= 2 && s[0] == '"' && s[|s| - 1] == '"' && Body(style, s[1..|s| - 1], text)
  }

  // ---- values (sections 3 to 5) --------------------------------------------------------

  /** The text `s` denotes the value `v`. A key that comes twice makes no object. */
  ghost predicate Derives(style: Style, s: string, v: Json)
    decreases v, 0
  {
    match v
    case Null => s == "null"
    case Bool(truth) => s == if truth then "true" else "false"
    case Int(n) => IntText(style, s, n)
    case Real(literal) => style == Free && s == literal && RealText(s)
    case Str(text) => StringText(style, s, text)
    case Arr(items) =>
      && |s| >= 2 && s[0] == '[' && s[|s| - 1] == ']'
      && if items == [] then Blank(style, s[1..|s| - 1]) else Items(style, s[1..|s| - 1], items)
    case Obj(members) =>
      && |s| >= 2 && s[0] == '{' && s[|s| - 1] == '}' && UniqueKeys(members)
      && if members == [] then Blank(style, s[1..|s| - 1]) else Members(style, s[1..|s| - 1], members)
  }

  /** A value with white space around it: it starts at `i` and ends before `j`. */
  ghost predicate PaddedAt(style: Style, s: string, v: Json, i: nat, j: nat)
    decreases v, 1
  {
    i <= j <= |s| && Blank(style, s[..i]) && Derives(style, s[i..j], v) && Blank(style, s[j..])
  }

  ghost predicate Padded(style: Style, s: string, v: Json)
    decreases v, 2
  {
    exists i, j :: PaddedAt(style, s, v, i, j)
  }

  /** Values between commas. */
  ghost predicate Items(style: Style, s: string, items: seq<Json>)
    requires items != []
    decreases items, 3
  {
    if |items| == 1 then Padded(style, s, items[0])
    else exists k :: 0 <= k < |s| && s[k] == ',' && Padded(style, s[..k], items[0]) && Items(style, s[k + 1..], items[1..])
  }

  /** A key, a colon and a value: the key starts at `i` and ends before `j`, the colon stands at `k`. */
  ghost predicate MemberAt(style: Style, s: string, m: Member, i: nat, j: nat, k: nat)
    decreases m, 3
  {
    && i <= j <= k < |s| && s[k] == ':'
    && Blank(style, s[..i]) && StringText(style, s[i..j], m.key) && Blank(style, s[j..k])
    && Padded(style, s[k + 1..], m.value)
  }

  ghost predicate MemberText(style: Style, s: string, m: Member)
    decreases m, 4
  {
    exists i, j, k :: MemberAt(style, s, m, i, j, k)
  }

  ghost predicate Members(style: Style, s: string, members: seq<Member>)
    requires members != []
    decreases members, 5
  {
    if |members| == 1 then MemberText(style, s, members[0])
    else exists k :: 0 <= k < |s| && s[k] == ',' && MemberText(style, s[..k], members[0]) && Members(style, s[k + 1..], members[1..])
  }
}
