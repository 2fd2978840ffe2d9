/** The lexical part of `src/json.cc`: white space, keys, numbers and strings as the parser reads
    them. Positions are indices into the text; a result gives the position after what was read. */
module JsonText {
  import opened Options

  /** A JSON tree. A number that does not fit 64 bits or has a fraction or an exponent is a double,
      kept as its text. */
  datatype Json =
    | Null
    | Bool(b: bool)
    | Int(i: int)
    | Double(text: string)
    | Str(s: string)
    | Arr(vs: seq<Json>)
    | Obj(ms: seq<Member>)

  datatype Member = Member(key: string, val: Json)

  predicate IsSpace(c: char) {
    c == ' ' || c == '\n' || c == '\r' || c == '\t'
  }

  predicate IsDigit(c: char) {
    '0' <= c <= '9'
  }

  /** The first position from `i` on that is not white space. */
  function SkipSpace(s: string, i: nat): (j: nat)
    requires i <= |s|
    ensures i <= j <= |s| && (j < |s| ==> !IsSpace(s[j]))
    ensures forall x :: i <= x < j ==> IsSpace(s[x])
    decreases |s| - i
  {
    if i < |s| && IsSpace(s[i]) then SkipSpace(s, i + 1) else i
  }

  /** The first position from `i` on that holds `c`, or the end of the text. */
  function Find(s: string, i: nat, c: char): (j: nat)
    requires i <= |s|
    ensures i <= j <= |s| && (j < |s| ==> s[j] == c)
    ensures forall x :: i <= x < j ==> s[x] != c
    decreases |s| - i
  {
    if i < |s| && s[i] != c then Find(s, i + 1, c) else i
  }

  // ----- numbers

  const INT64_MIN := -0x8000_0000_0000_0000
  const UINT64_MAX := 0xFFFF_FFFF_FFFF_FFFF

  function DigitsEnd(s: string, i: nat): (j: nat)
    requires i <= |s|
    ensures i <= j <= |s| && (j < |s| ==> !IsDigit(s[j]))
    ensures forall x :: i <= x < j ==> IsDigit(s[x])
    decreases |s| - i
  {
    if i < |s| && IsDigit(s[i]) then DigitsEnd(s, i + 1) else i
  }

  function Digit(c: char): nat {
    if IsDigit(c) then c as nat - '0' as nat else 0
  }

  /** The value of a string of digits. */
  function DecimalValue(t: string): nat {
    if t == "" then 0 else DecimalValue(t[..|t| - 1]) * 10 + Digit(t[|t| - 1])
  }

  /** Where the number at `i` ends, and whether it has a fraction or an exponent. The integer part
      starts with a nonzero digit or is a single zero. */
  function NumberShape(s: string, i: nat): (r: Option<(nat, bool)>)
    requires i < |s|
    ensures r.Some? ==> i < r.value.0 <= |s|
  {
    var p0 := if s[i] == '-' then i + 1 else i;
    if p0 == |s| || !IsDigit(s[p0]) then None else
      var p1 := if s[p0] == '0' then p0 + 1 else DigitsEnd(s, p0);
      FractionShape(s, p1)
  }

  function FractionShape(s: string, p: nat): (r: Option<(nat, bool)>)
    requires p <= |s|
    ensures r.Some? ==> p <= r.value.0 <= |s|
  {
    if p == |s| || s[p] != '.' then ExponentShape(s, p, false)
    else if p + 1 == |s| || !IsDigit(s[p + 1]) then None
    else ExponentShape(s, DigitsEnd(s, p + 1), true)
  }

  function ExponentShape(s: string, p: nat, fraction: bool): (r: Option<(nat, bool)>)
    requires p <= |s|
    ensures r.Some? ==> p <= r.value.0 <= |s|
  {
    if p == |s| || (s[p] != 'e' && s[p] != 'E') then Some((p, fraction))
    else
      var q := if p + 1 < |s| && (s[p + 1] == '-' || s[p + 1] == '+') then p + 2 else p + 1;
      if q == |s| || !IsDigit(s[q]) then None else Some((DigitsEnd(s, q), true))
  }

  /** Two's complement reading of a 64-bit pattern. */
  function ToInt64(z: int): int {
    var m := z % 0x1_0000_0000_0000_0000;
    if m < 0x8000_0000_0000_0000 then m else m - 0x1_0000_0000_0000_0000
  }

  /** An integer that fits in 64 bits, signed or unsigned, is an integer; other numbers are doubles,
      where `fits` says that the conversion to a double does not overflow. */
  function NumberOf(text: string, isDouble: bool, fits: string -> bool): Option<Json> {
    if isDouble || !IsInteger(text) || !(INT64_MIN <= IntegerValue(text) <= UINT64_MAX) then
      if fits(text) then Some(Double(text)) else None
    else Some(Int(ToInt64(IntegerValue(text))))
  }

  predicate IsInteger(text: string) {
    AllDigits(if text != "" && text[0] == '-' then text[1..] else text)
  }

  predicate AllDigits(d: string) {
    forall x :: 0 <= x < |d| ==> IsDigit(d[x])
  }

  function IntegerValue(text: string): int {
    if text != "" && text[0] == '-' then 0 - DecimalValue(text[1..]) else DecimalValue(text)
  }

  function Number(s: string, i: nat, fits: string -> bool): (r: Option<(Json, nat)>)
    requires i < |s|
    ensures r.Some? ==> i < r.value.1 <= |s|
  {
    match NumberShape(s, i)
    case None => None
    case Some((e, isDouble)) =>
      match NumberOf(s[i..e], isDouble, fits)
      case None => None
      case Some(v) => Some((v, e))
  }

  // ----- strings

  /** What stands after the backslash, for the characters that are printed escaped; `'\0'` for others. */
  function EscapeCode(c: char): char {
    match c
    case '\U{08}' => 'b'
    case '\t' => 't'
    case '\n' => 'n'
    case '\U{0C}' => 'f'
    case '\r' => 'r'
    case '"' => '"'
    case '\\' => '\\'
    case _ => '\0'
  }

  /** What an escape code stands for; `'\0'` for an invalid one. */
  function Unescape(c: char): char {
    match c
    case '"' => '"'
    case '/' => '/'
    case '\\' => '\\'
    case 'b' => '\U{08}'
    case 'f' => '\U{0C}'
    case 'n' => '\n'
    case 'r' => '\r'
    case 't' => '\t'
    case 'u' => 'u'
    case _ => '\0'
  }

  function HexValue(c: char): nat {
    if '0' <= c <= '9' then c as nat - '0' as nat
    else if 'a' <= c <= 'f' then c as nat - 'a' as nat + 10
    else if 'A' <= c <= 'F' then c as nat - 'A' as nat + 10
    else 16
  }

  /** Four hexadecimal digits. */
  function Hex4(s: string, i: nat): (u: Option<nat>)
    requires i <= |s|
    ensures u.Some? ==> u.value < 0x10000 && i + 4 <= |s|
  {
    if i + 4 > |s| || HexValue(s[i]) == 16 || HexValue(s[i + 1]) == 16 || HexValue(s[i + 2]) == 16
      || HexValue(s[i + 3]) == 16
    then None
    else Some(HexValue(s[i]) * 0x1000 + HexValue(s[i + 1]) * 0x100 + HexValue(s[i + 2]) * 0x10 + HexValue(s[i + 3]))
  }

  /** The code point after `\u`: one unit, or a high and a low surrogate. */
  function CodePoint(s: string, i: nat): (r: Option<(nat, nat)>)
    requires i <= |s|
    ensures r.Some? ==> r.value.0 <= 0x10FFFF && i < r.value.1 <= |s|
  {
    match Hex4(s, i)
    case None => None
    case Some(u) =>
      if !(0xD800 <= u <= 0xDBFF) then Some((u, i + 4))
      else if i + 6 > |s| || s[i + 4] != '\\' || s[i + 5] != 'u' then None
      else
        match Hex4(s, i + 6)
        case None => None
        case Some(v) =>
          if !(0xDC00 <= v <= 0xDFFF) then None
          else Some((0x10000 + (u - 0xD800) * 0x400 + (v - 0xDC00), i + 10))
  }

  function Utf8(u: nat): (t: string)
    requires u <= 0x10FFFF
  {
    if u <= 0x7F then [u as char]
    else if u <= 0x7FF then [(0xC0 + u / 0x40) as char, (0x80 + u % 0x40) as char]
    else if u <= 0xFFFF then [(0xE0 + u / 0x1000) as char, (0x80 + u / 0x40 % 0x40) as char, (0x80 + u % 0x40) as char]
    else [(0xF0 + u / 0x40000) as char, (0x80 + u / 0x1000 % 0x40) as char, (0x80 + u / 0x40 % 0x40) as char,
          (0x80 + u % 0x40) as char]
  }

  /** The escape whose backslash is at `i`: what it stands for and the position after it. */
  function Escape(s: string, i: nat): (r: Option<(string, nat)>)
    requires i < |s|
    ensures r.Some? ==> i + 1 < r.value.1 <= |s|
  {
    if i + 1 == |s| || Unescape(s[i + 1]) == '\0' then None
    else if s[i + 1] != 'u' then Some(([Unescape(s[i + 1])], i + 2))
    else
      match CodePoint(s, i + 2)
      case None => None
      case Some((u, j)) => Some((Utf8(u), j))
  }

  /** The content of a string from `i`, after the opening quote, and the position after the closing
      one. Control characters stand for themselves. */
  function StringBody(s: string, i: nat): (r: Option<(string, nat)>)
    requires i <= |s|
    ensures r.Some? ==> i < r.value.1 <= |s|
    decreases |s| - i
  {
    if i == |s| then None
    else if s[i] == '"' then Some(("", i + 1))
    else if s[i] != '\\' then Prepend([s[i]], StringBody(s, i + 1))
    else
      match Escape(s, i)
      case None => None
      case Some((t, j)) => Prepend(t, StringBody(s, j))
  }

  function Prepend(t: string, r: Option<(string, nat)>): (q: Option<(string, nat)>)
    ensures q.Some? <==> r.Some?
    ensures q.Some? ==> q.value.1 == r.value.1
  {
    match r
    case None => None
    case Some((u, j)) => Some((t + u, j))
  }

  // ----- literals

  predicate IsAt(s: string, i: nat, t: string) {
    i + |t| <= |s| && s[i..i + |t|] == t
  }

  /** A value that is not a container. */
  function Scalar(s: string, i: nat, fits: string -> bool): (r: Option<(Json, nat)>)
    requires i < |s|
    ensures r.Some? ==> i < r.value.1 <= |s|
  {
    if s[i] == '"' then
      match StringBody(s, i + 1)
      case None => None
      case Some((t, j)) => Some((Str(t), j))
    else if s[i] == 'f' then if IsAt(s, i, "false") then Some((Bool(false), i + 5)) else None
    else if s[i] == 't' then if IsAt(s, i, "true") then Some((Bool(true), i + 4)) else None
    else if s[i] == 'n' then if IsAt(s, i, "null") then Some((Null, i + 4)) else None
    else Number(s, i, fits)
  }
}
