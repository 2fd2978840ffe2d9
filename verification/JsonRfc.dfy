/** RFC 8259, with what the parser of `src/json.cc` allows besides: which texts are derived, which of them
    can be read, and what they mean. Apart from the tree that is built, and the UTF-8 form of a code point,
    which `JsonUtf8` tells by its bits, nothing here is shared with the parser. */
module JsonRfc {
  import opened Options
  import JsonText

  /** A derivation of a value: where the value and its parts begin and end in the text. */
  datatype Tree =
    | Word(i: nat, j: nat)
    | Num(i: nat, j: nat)
    | Text(i: nat, j: nat)
    | Array(i: nat, j: nat, vs: seq<Tree>)
    | Object(i: nat, j: nat, ms: seq<Pair>)

  /** A member: its key from `ki` to `kj`, quotes included, and its value. */
  datatype Pair = Pair(ki: nat, kj: nat, v: Tree)

  // ----- characters

  /** Section 2: white space. */
  predicate White(c: char) {
    c as int == 0x20 || c as int == 0x09 || c as int == 0x0A || c as int == 0x0D
  }

  /** What a digit counts, decimal or hexadecimal; 16 for other characters. */
  function DigitOf(c: char): nat {
    match c
    case '0' => 0
    case '1' => 1
    case '2' => 2
    case '3' => 3
    case '4' => 4
    case '5' => 5
    case '6' => 6
    case '7' => 7
    case '8' => 8
    case '9' => 9
    case 'A' => 10
    case 'B' => 11
    case 'C' => 12
    case 'D' => 13
    case 'E' => 14
    case 'F' => 15
    case 'a' => 10
    case 'b' => 11
    case 'c' => 12
    case 'd' => 13
    case 'e' => 14
    case 'f' => 15
    case _ => 16
  }

  predicate Dec(c: char) {
    DigitOf(c) < 10
  }

  /** Section 7: the code point that an escape of two characters stands for. */
  function EscapeOf(c: char): Option<int> {
    match c
    case '"' => Some(0x22)
    case '\\' => Some(0x5C)
    case '/' => Some(0x2F)
    case 'b' => Some(0x08)
    case 'f' => Some(0x0C)
    case 'n' => Some(0x0A)
    case 'r' => Some(0x0D)
    case 't' => Some(0x09)
    case _ => None
  }

  /** Section 7: four hexadecimal digits. */
  predicate HexAt(s: string, i: nat) {
    i + 4 <= |s| && forall x :: i <= x < i + 4 ==> DigitOf(s[x]) < 16
  }

  function Unit(s: string, i: nat): (u: nat)
    requires HexAt(s, i)
    ensures u < 0x10000
  {
    DigitOf(s[i]) * 16 * 16 * 16 + DigitOf(s[i + 1]) * 16 * 16 + DigitOf(s[i + 2]) * 16 + DigitOf(s[i + 3])
  }

  predicate High(u: nat) {
    0xD800 <= u <= 0xDBFF
  }

  predicate Low(u: nat) {
    0xDC00 <= u <= 0xDFFF
  }

  /** The code point of a pair of surrogates. */
  function Joined(high: nat, low: nat): (u: nat)
    requires High(high) && Low(low)
    ensures 0x10000 <= u <= 0x10FFFF
  {
    0x10000 + 0x400 * (high - 0xD800) + (low - 0xDC00)
  }

  /** After the escape at `i` stands the escape of a low surrogate. */
  predicate LowAfter(s: string, i: nat) {
    i + 12 <= |s| && s[i + 6] == '\\' && s[i + 7] == 'u' && HexAt(s, i + 8) && Low(Unit(s, i + 8))
  }

  // ----- sections 2 to 7 of RFC 8259; `lax` allows what the parser allows besides

  predicate Blank(s: string, i: nat, j: nat) {
    i <= j <= |s| && forall x :: i <= x < j ==> White(s[x])
  }

  /** A structural character with white space around it. */
  ghost predicate Apart(s: string, i: nat, c: char, j: nat) {
    exists k: nat :: ApartAt(s, i, c, j, k)
  }

  predicate ApartAt(s: string, i: nat, c: char, j: nat, k: nat) {
    k < |s| && Blank(s, i, k) && s[k] == c && Blank(s, k + 1, j)
  }

  /** Section 6. */
  predicate Digits(s: string, i: nat, j: nat) {
    i < j <= |s| && forall x :: i <= x < j ==> Dec(s[x])
  }

  predicate IntPart(s: string, i: nat, j: nat) {
    Digits(s, i, j) && (s[i] == '0' ==> j == i + 1)
  }

  predicate FracPart(s: string, i: nat, j: nat) {
    i == j <= |s| || (i < |s| && s[i] == '.' && Digits(s, i + 1, j))
  }

  predicate ExpPart(s: string, i: nat, j: nat) {
    || i == j <= |s|
    || (i + 1 < |s| && (s[i] == 'e' || s[i] == 'E') &&
          Digits(s, if s[i + 1] == '-' || s[i + 1] == '+' then i + 2 else i + 1, j))
  }

  predicate NumberParts(s: string, i: nat, p: nat, q: nat, j: nat) {
    && i < |s| && IntPart(s, if s[i] == '-' then i + 1 else i, p) && FracPart(s, p, q) && ExpPart(s, q, j)
  }

  ghost predicate NumberAt(s: string, i: nat, j: nat) {
    exists p: nat, q: nat :: NumberParts(s, i, p, q, j)
  }

  /** Section 7: what stands between the quotes. */
  predicate Chars(s: string, i: nat, j: nat, lax: bool)
    requires j <= |s|
    decreases |s| - i
  {
    if i >= j then i == j
    else if s[i] == '"' then false
    else if s[i] != '\\' then (lax || s[i] as int >= 0x20) && Chars(s, i + 1, j, lax)
    else if i + 1 >= j then false
    else if s[i + 1] == 'u' then HexAt(s, i + 2) && Chars(s, i + 6, j, lax)
    else EscapeOf(s[i + 1]).Some? && Chars(s, i + 2, j, lax)
  }

  predicate StringAt(s: string, i: nat, j: nat, lax: bool) {
    i + 2 <= j <= |s| && s[i] == '"' && s[j - 1] == '"' && Chars(s, i + 1, j - 1, lax)
  }

  predicate RawKey(s: string, i: nat, j: nat) {
    i + 2 <= j <= |s| && s[i] == '"' && s[j - 1] == '"' && forall x :: i < x < j - 1 ==> s[x] != '"'
  }

  predicate KeyAt(s: string, i: nat, j: nat, lax: bool) {
    if lax then RawKey(s, i, j) else StringAt(s, i, j, false)
  }

  /** After the last item. */
  ghost predicate Last(s: string, i: nat, j: nat, lax: bool) {
    Blank(s, i, j) || (lax && Apart(s, i, ',', j))
  }

  /** Section 5: brackets and commas around the elements. */
  ghost predicate ArrayShape(s: string, i: nat, j: nat, vs: seq<Tree>, lax: bool) {
    && i + 1 < j <= |s| && s[i] == '[' && s[j - 1] == ']'
    && (if vs == [] then Blank(s, i + 1, j - 1)
        else Blank(s, i + 1, vs[0].i) && Last(s, vs[|vs| - 1].j, j - 1, lax))
    && (forall k :: 0 <= k < |vs| - 1 ==> Apart(s, vs[k].j, ',', vs[k + 1].i))
  }

  /** Section 4: braces, commas, keys and colons around the values. */
  ghost predicate ObjectShape(s: string, i: nat, j: nat, ms: seq<Pair>, lax: bool) {
    && i + 1 < j <= |s| && s[i] == '{' && s[j - 1] == '}'
    && (if ms == [] then Blank(s, i + 1, j - 1)
        else Blank(s, i + 1, ms[0].ki) && Last(s, ms[|ms| - 1].v.j, j - 1, lax))
    && (forall k :: 0 <= k < |ms| ==> KeyAt(s, ms[k].ki, ms[k].kj, lax) && Apart(s, ms[k].kj, ':', ms[k].v.i))
    && (forall k :: 0 <= k < |ms| - 1 ==> Apart(s, ms[k].v.j, ',', ms[k + 1].ki))
  }

  /** Section 3: `t` derives the value from `t.i` to `t.j`. */
  ghost predicate Derives(s: string, t: Tree, lax: bool)
    decreases t
  {
    && t.i < t.j <= |s|
    && match t
       case Word(i, j) => s[i..j] == "null" || s[i..j] == "true" || s[i..j] == "false"
       case Num(i, j) => NumberAt(s, i, j)
       case Text(i, j) => StringAt(s, i, j, lax)
       case Array(i, j, vs) => ArrayShape(s, i, j, vs, lax) && forall k :: 0 <= k < |vs| ==> Derives(s, vs[k], lax)
       case Object(i, j, ms) => ObjectShape(s, i, j, ms, lax) && forall k :: 0 <= k < |ms| ==> Derives(s, ms[k].v, lax)
  }

  ghost predicate DerivesText(s: string, t: Tree, lax: bool) {
    Blank(s, 0, t.i) && Derives(s, t, lax) && Blank(s, t.j, |s|)
  }

  // ----- what makes a derived text readable

  /** Every high surrogate is followed by a low one. */
  predicate Paired(s: string, i: nat, j: nat)
    requires j <= |s|
    decreases |s| - i
  {
    if i >= j then true
    else if s[i] != '\\' || i + 1 >= j then Paired(s, i + 1, j)
    else if s[i + 1] != 'u' then Paired(s, i + 2, j)
    else if HexAt(s, i + 2) && High(Unit(s, i + 2)) then LowAfter(s, i) && Paired(s, i + 12, j)
    else Paired(s, i + 6, j)
  }

  function TenTo(n: nat): nat {
    if n == 0 then 1 else 10 * TenTo(n - 1)
  }

  /** The value of decimal digits, each counted at its place. */
  function Decimal(t: string): nat {
    if t == "" then 0 else DigitOf(t[0]) * TenTo(|t| - 1) + Decimal(t[1..])
  }

  function SignedDecimal(t: string): int {
    if t != "" && t[0] == '-' then 0 - Decimal(t[1..]) else Decimal(t)
  }

  /** A number with neither fraction nor exponent, from the smallest signed to the largest unsigned integer
      of 64 bits. */
  predicate IntegerOf64Bits(t: string) {
    '.' !in t && 'e' !in t && 'E' !in t && -0x8000_0000_0000_0000 <= SignedDecimal(t) <= 0xFFFF_FFFF_FFFF_FFFF
  }

  /** A number is an integer of 64 bits, or does not overflow as a double. */
  predicate NumberFits(text: string, fits: string -> bool) {
    IntegerOf64Bits(text) || fits(text)
  }

  /** Numbers fit, and the surrogates of strings are paired. */
  ghost predicate Readable(s: string, t: Tree, fits: string -> bool)
    requires Derives(s, t, true)
    decreases t, 0
  {
    match t
    case Word(_, _) => true
    case Num(i, j) => NumberFits(s[i..j], fits)
    case Text(i, j) => Paired(s, i + 1, j - 1)
    case Array(_, _, vs) => forall k :: 0 <= k < |vs| ==> Readable(s, vs[k], fits)
    case Object(_, _, ms) => forall k :: 0 <= k < |ms| ==> Readable(s, ms[k].v, fits)
  }

  // ----- what a text means

  /** An integer that is too large for a signed one wraps around. */
  function NumberMeaning(t: string): JsonText.Json {
    if !IntegerOf64Bits(t) then JsonText.Double(t)
    else if SignedDecimal(t) <= 0x7FFF_FFFF_FFFF_FFFF then JsonText.Int(SignedDecimal(t))
    else JsonText.Int(SignedDecimal(t) - 0x1_0000_0000_0000_0000)
  }

  /** What the characters of a string stand for, code points by their UTF-8 form. */
  function Content(s: string, i: nat, j: nat): string
    requires j <= |s|
    decreases |s| - i
  {
    if i >= j then ""
    else if s[i] != '\\' || i + 1 >= j then [s[i]] + Content(s, i + 1, j)
    else if s[i + 1] != 'u' then
      (match EscapeOf(s[i + 1]) case Some(u) => [u as char] case None => "") + Content(s, i + 2, j)
    else if !HexAt(s, i + 2) then ""
    else if High(Unit(s, i + 2)) && LowAfter(s, i) then
      JsonText.Utf8(Joined(Unit(s, i + 2), Unit(s, i + 8))) + Content(s, i + 12, j)
    else JsonText.Utf8(Unit(s, i + 2)) + Content(s, i + 6, j)
  }

  function Between(s: string, i: nat, j: nat): string {
    if i <= j <= |s| then s[i..j] else ""
  }

  function WordMeaning(t: string): JsonText.Json {
    if t == "null" then JsonText.Null else JsonText.Bool(t == "true")
  }

  /** The text between two quotes, and what it stands for. */
  function Inner(s: string, i: nat, j: nat): string {
    if i + 2 <= j <= |s| then s[i + 1..j - 1] else ""
  }

  function InnerMeaning(s: string, i: nat, j: nat): string {
    if i + 2 <= j <= |s| then Content(s, i + 1, j - 1) else ""
  }

  /** What a derived value means. The parser takes keys as they stand. */
  function Meaning(s: string, t: Tree, lax: bool): JsonText.Json
    decreases t
  {
    match t
    case Word(i, j) => WordMeaning(Between(s, i, j))
    case Num(i, j) => NumberMeaning(Between(s, i, j))
    case Text(i, j) => JsonText.Str(InnerMeaning(s, i, j))
    case Array(_, _, vs) => JsonText.Arr(seq(|vs|, k requires 0 <= k < |vs| => Meaning(s, vs[k], lax)))
    case Object(_, _, ms) => JsonText.Obj(seq(|ms|, k requires 0 <= k < |ms| =>
      JsonText.Member(KeyMeaning(s, ms[k], lax), Meaning(s, ms[k].v, lax))))
  }

  function KeyMeaning(s: string, m: Pair, lax: bool): string {
    if lax then Inner(s, m.ki, m.kj) else InnerMeaning(s, m.ki, m.kj)
  }
}
