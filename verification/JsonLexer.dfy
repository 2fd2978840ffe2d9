/** The lexical methods of `Parser` in `src/json.cc`, each proved to read what `JsonText` says. Like
    the original they return the position of the last character read. */
module JsonLexer {
  import opened Options
  import opened Division
  import opened JsonText
  import opened JsonUtf8

  // ----- white space

  lemma {:induction false} SkipSpaceFrom(s: string, i: nat, j: nat)
    requires i <= j <= |s| && forall x :: i <= x < j ==> IsSpace(s[x])
    ensures SkipSpace(s, i) == SkipSpace(s, j)
    decreases j - i
  {
    if i < j { SkipSpaceFrom(s, i + 1, j); }
  }

  /** The macro `skip_white_space`: eight characters at a time, then four, then the last three. */
  method SkipWhiteSpace(s: string, at: nat) returns (b: nat)
    requires at < |s|
    ensures b == SkipSpace(s, at + 1)
  {
    var e := |s|;
    b := at + 1;
    if b == e || !IsSpace(s[b]) { return; }
    b := b + 1;
    while b + 8 <= e
      invariant at + 1 <= b <= e
      invariant forall x :: at + 1 <= x < b ==> IsSpace(s[x])
    {
      for k := 0 to 8
        invariant forall x :: at + 1 <= x < b + k ==> IsSpace(s[x])
      {
        if !IsSpace(s[b + k]) {
          SkipSpaceFrom(s, at + 1, b + k);
          return b + k;
        }
      }
      b := b + 8;
    }
    if b + 4 <= e {
      for k := 0 to 4
        invariant forall x :: at + 1 <= x < b + k ==> IsSpace(s[x])
      {
        if !IsSpace(s[b + k]) {
          SkipSpaceFrom(s, at + 1, b + k);
          return b + k;
        }
      }
      b := b + 4;
    }
    for k := 0 to 3
      invariant b + k <= e
      invariant forall x :: at + 1 <= x < b + k ==> IsSpace(s[x])
    {
      if b + k == e || !IsSpace(s[b + k]) {
        SkipSpaceFrom(s, at + 1, b + k);
        return b + k;
      }
    }
    SkipSpaceFrom(s, at + 1, e);
    return e;
  }

  /** The plain loop used elsewhere in the parser. */
  method SkipLoop(s: string, at: nat) returns (b: nat)
    requires at < |s|
    ensures b == SkipSpace(s, at + 1)
  {
    b := at + 1;
    while b < |s| && IsSpace(s[b])
      invariant at + 1 <= b <= |s| && SkipSpace(s, at + 1) == SkipSpace(s, b)
    {
      b := b + 1;
    }
  }

  /** `memchr` on `s[b..e]`. */
  method MemChr(s: string, b: nat, e: nat, c: char) returns (r: Option<nat>)
    requires b <= e <= |s|
    ensures r == if Find(s, b, c) < e then Some(Find(s, b, c)) else None
  {
    var p := b;
    while p < e
      invariant b <= p <= e && Find(s, b, c) == Find(s, p, c)
    {
      if s[p] == c { return Some(p); }
      p := p + 1;
    }
    return None;
  }

  /** `parse_key`: the raw characters up to the next quote, whose position is returned. */
  method ParseKey(s: string, b: nat) returns (r: Option<nat>, key: string)
    requires b < |s|
    ensures r.Some? <==> s[b] == '"' && Find(s, b + 1, '"') < |s|
    ensures r.Some? ==> r.value == Find(s, b + 1, '"') && key == s[b + 1..r.value]
  {
    key := "";
    if s[b] != '"' { return None, key; }
    r := MemChr(s, b + 1, |s|, '"');
    if r.Some? { key := s[b + 1..r.value]; }
  }

  // ----- numbers

  function Pow10(n: nat): nat {
    if n == 0 then 1 else 10 * Pow10(n - 1)
  }

  lemma {:induction false} DecimalBound(t: string)
    ensures DecimalValue(t) < Pow10(|t|)
  {
    if t != "" { DecimalBound(t[..|t| - 1]); }
  }

  lemma {:induction false} DecimalAtLeast(t: string)
    requires t != "" && IsDigit(t[0]) && t[0] != '0'
    ensures DecimalValue(t) >= Pow10(|t| - 1)
    decreases |t|
  {
    if |t| > 1 {
      DecimalAtLeast(t[..|t| - 1]);
    } else {
      assert DecimalValue(t[..0]) == 0;
    }
  }

  lemma {:induction false} Pow10Grows(m: nat, n: nat)
    requires m <= n
    ensures Pow10(m) <= Pow10(n)
  {
    if m < n { Pow10Grows(m, n - 1); }
  }

  lemma DecimalStep(t: string, c: char)
    ensures DecimalValue(t + [c]) == DecimalValue(t) * 10 + Digit(c)
  {
    assert (t + [c])[..|t|] == t;
  }

  /** Texts of digits of the same length compare like their values. */
  lemma {:induction false} DecimalOrder(a: string, b: string, k: nat)
    requires |a| == |b| && k < |a| && a[..k] == b[..k] && Digit(a[k]) < Digit(b[k])
    ensures DecimalValue(a) < DecimalValue(b)
    decreases |a|
  {
    var n := |a| - 1;
    if k < n {
      assert a[..n][..k] == a[..k] && b[..n][..k] == b[..k];
      DecimalOrder(a[..n], b[..n], k);
    } else {
      assert a[..n] == b[..n];
    }
  }

  predicate PrefixStep(t: string, vs: seq<nat>, i: nat)
    requires i < |t| && |vs| == |t| + 1
  {
    vs[i + 1] == vs[i] * 10 + Digit(t[i])
  }

  lemma {:induction false} ValueOfPrefixes(t: string, n: nat, vs: seq<nat>)
    requires n <= |t| && |vs| == |t| + 1 && vs[0] == 0
    requires forall i :: 0 <= i < |t| ==> PrefixStep(t, vs, i)
    ensures DecimalValue(t[..n]) == vs[n]
  {
    if n > 0 {
      assert PrefixStep(t, vs, n - 1);
      ValueOfPrefixes(t, n - 1, vs);
      assert t[..n] == t[..n - 1] + [t[n - 1]];
      DecimalStep(t[..n - 1], t[n - 1]);
    }
  }

  const MAX_TEXT := "18446744073709551615"
  const MIN_TEXT := "-9223372036854775808"

  lemma MaxTextValue()
    ensures DecimalValue(MAX_TEXT) == UINT64_MAX
  {
    var vs := [0, 1, 18, 184, 1844, 18446, 184467, 1844674, 18446744, 184467440, 1844674407, 18446744073,
               184467440737, 1844674407370, 18446744073709, 184467440737095, 1844674407370955,
               18446744073709551, 184467440737095516, 1844674407370955161, 18446744073709551615];
    ValueOfPrefixes(MAX_TEXT, 20, vs);
    assert MAX_TEXT[..20] == MAX_TEXT;
  }

  lemma MinTextValue()
    ensures DecimalValue(MIN_TEXT[1..]) == -INT64_MIN
  {
    var t := MIN_TEXT[1..];
    var vs := [0, 9, 92, 922, 9223, 92233, 922337, 9223372, 92233720, 922337203, 9223372036, 92233720368,
               922337203685, 9223372036854, 92233720368547, 922337203685477, 9223372036854775,
               92233720368547758, 922337203685477580, 9223372036854775808];
    ValueOfPrefixes(t, 19, vs);
    assert t[..19] == t;
  }

  lemma Pow10Values()
    ensures Pow10(18) == 1_000_000_000_000_000_000 && Pow10(19) == 10_000_000_000_000_000_000
    ensures Pow10(20) == 100_000_000_000_000_000_000
  {
    assert Pow10(5) == 100_000;
    assert Pow10(10) == 10_000_000_000;
    assert Pow10(15) == 1_000_000_000_000_000;
  }

  /** What a number without fraction and exponent looks like. */
  ghost predicate PlainNumber(t: string) {
    var d := if t != "" && t[0] == '-' then t[1..] else t;
    && d != "" && (forall x :: 0 <= x < |d| ==> IsDigit(d[x])) && (|d| > 1 ==> d[0] != '0')
  }

  lemma ShapeIsPlain(s: string, i: nat)
    requires i < |s| && NumberShape(s, i).Some? && !NumberShape(s, i).value.1
    ensures PlainNumber(s[i..NumberShape(s, i).value.0])
  {
    var p0 := if s[i] == '-' then i + 1 else i;
    var p1 := if s[p0] == '0' then p0 + 1 else DigitsEnd(s, p0);
    assert NumberShape(s, i).value.0 == p1;
    forall y | p0 <= y < p1 ensures IsDigit(s[y]) {
      if s[p0] == '0' { assert y == p0; }
    }
    DigitSlice(s, p0, p1);
    hide NumberShape, DigitsEnd;
    var t := s[i..p1];
    var d := if t[0] == '-' then t[1..] else t;
    assert d == s[p0..p1];
  }

  lemma DigitSlice(s: string, b: nat, e: nat)
    requires b <= e <= |s| && forall y :: b <= y < e ==> IsDigit(s[y])
    ensures forall x :: 0 <= x < e - b ==> IsDigit(s[b..e][x])
  {
    assert forall x :: 0 <= x < e - b ==> s[b..e][x] == s[b + x];
  }

  /** The length of the text, and for 20 characters the comparison with the largest or smallest
      64-bit number, decide whether an integer fits. */
  lemma LengthDecides(t: string)
    requires PlainNumber(t)
    ensures IsInteger(t)
    ensures |t| < 20 ==> INT64_MIN <= IntegerValue(t) <= UINT64_MAX
    ensures |t| > 20 ==> !(INT64_MIN <= IntegerValue(t) <= UINT64_MAX)
  {
    var d := if t[0] == '-' then t[1..] else t;
    Pow10Values();
    DecimalBound(d);
    if |t| < 20 {
      Pow10Grows(|d|, if t[0] == '-' then 18 else 19);
    }
    if |t| > 20 {
      DecimalAtLeast(d);
      Pow10Grows(if t[0] == '-' then 19 else 20, |d| - 1);
    }
  }

  /** `memcmp` on 20 characters: negative, zero or positive. */
  method MemCmp(a: string, b: string) returns (m: int, ghost k: nat)
    requires |a| == |b|
    ensures m == 0 ==> a == b
    ensures m != 0 ==> k < |a| && a[..k] == b[..k] && a[k] != b[k] && (m < 0 <==> a[k] < b[k])
  {
    k := 0;
    for i := 0 to |a|
      invariant a[..i] == b[..i]
    {
      if a[i] != b[i] { return a[i] as int - b[i] as int, i; }
    }
    return 0, k;
  }

  lemma TwentyDecides(t: string, m: int, k: nat)
    requires PlainNumber(t) && |t| == 20
    requires var c := if t[0] != '-' then MAX_TEXT else MIN_TEXT;
      && (m == 0 ==> t == c)
      && (m != 0 ==> k < 20 && t[..k] == c[..k] && t[k] != c[k] && (m < 0 <==> t[k] < c[k]))
    ensures m <= 0 <==> INT64_MIN <= IntegerValue(t) <= UINT64_MAX
    ensures m == 0 ==> IntegerValue(t) == (if t[0] != '-' then UINT64_MAX else INT64_MIN)
  {
    MaxTextValue();
    MinTextValue();
    if m != 0 {
      LimitsAreDigits();
      if t[0] != '-' {
        DigitsOrder(t, MAX_TEXT, k, m);
      } else {
        assert MIN_TEXT[0] == '-' && k != 0;
        TailsDiffer(t, MIN_TEXT, k);
        assert forall x :: 0 <= x < 19 ==> MIN_TEXT[1..][x] == MIN_TEXT[x + 1];
        DigitsOrder(t[1..], MIN_TEXT[1..], k - 1, m);
      }
    }
  }

  lemma DigitsOrder(a: string, b: string, k: nat, m: int)
    requires |a| == |b| && k < |a| && a[..k] == b[..k] && m != 0 && a[k] != b[k] && (m < 0 <==> a[k] < b[k])
    requires forall x :: 0 <= x < |a| ==> IsDigit(a[x]) && IsDigit(b[x])
    ensures m < 0 <==> DecimalValue(a) < DecimalValue(b)
    ensures m > 0 <==> DecimalValue(a) > DecimalValue(b)
  {
    if m < 0 { DecimalOrder(a, b, k); } else { DecimalOrder(b, a, k); }
  }

  lemma LimitsAreDigits()
    ensures forall x :: 0 <= x < 20 ==> IsDigit(MAX_TEXT[x])
    ensures forall x :: 1 <= x < 20 ==> IsDigit(MIN_TEXT[x])
  {
  }

  lemma TailsDiffer(a: string, b: string, k: nat)
    requires |a| == |b| && 0 < k < |a| && a[..k] == b[..k]
    ensures a[1..][..k - 1] == b[1..][..k - 1] && a[1..][k - 1] == a[k] && b[1..][k - 1] == b[k]
  {
    assert a[1..][..k - 1] == a[..k][1..] && b[1..][..k - 1] == b[..k][1..];
  }

  const M := 0x1_0000_0000_0000_0000

  lemma WrapStep(x: int, v: int, d: int)
    requires v == x % M
    ensures (v * 10 + d) % M == (x * 10 + d) % M
  {
    SameMod(x * 10 + d, M, 10 * (x / M), v * 10 + d);
  }

  lemma WrapSign(x: int, v: int)
    requires v == x % M
    ensures ToInt64(v) == ToInt64(x) && ToInt64(-ToInt64(v)) == ToInt64(-x)
  {
    var k, y := x / M, ToInt64(v);
    SameMod(x, M, k, v);
    SameMod(-x, M, if y == v then -k else -k - 1, -y);
  }

  lemma DigitRead(s: string, from: nat, p: nat, v: int)
    requires from <= p < |s| && v == DecimalValue(s[from..p]) % M
    ensures (v * 10 + Digit(s[p])) % M == DecimalValue(s[from..p + 1]) % M
  {
    assert s[from..p + 1] == s[from..p] + [s[p]];
    DecimalStep(s[from..p], s[p]);
    WrapStep(DecimalValue(s[from..p]), v, Digit(s[p]));
  }

  /** `str2int`: accumulates in 64 bits. */
  method Str2Int(s: string, b: nat, e: nat) returns (z: int)
    requires b < e <= |s|
    ensures z == ToInt64(IntegerValue(s[b..e]))
  {
    ghost var t := s[b..e];
    var v, p := 0, b;
    if s[p] == '-' { p := p + 1; }
    ghost var from := p;
    assert s[from..from] == "";
    assert DecimalValue(s[from..p]) == 0;
    hide DecimalValue, ToInt64, Digit;
    while p < e
      invariant from <= p <= e
      invariant v == DecimalValue(s[from..p]) % M
    {
      DigitRead(s, from, p, v);
      v := (v * 10 + Digit(s[p])) % M;
      p := p + 1;
    }
    assert s[from..e] == if t[0] == '-' then t[1..] else t;
    WrapSign(DecimalValue(s[from..e]), v);
    z := if s[b] != '-' then ToInt64(v) else ToInt64(-ToInt64(v));
  }

  method DigitRun(s: string, at: nat) returns (p: nat)
    requires at <= |s|
    ensures p == DigitsEnd(s, at)
  {
    p := at;
    while p < |s| && IsDigit(s[p])
      invariant at <= p <= |s| && DigitsEnd(s, at) == DigitsEnd(s, p)
    {
      p := p + 1;
    }
  }

  /** The scanning half of `parse_number`, up to `digit_end`. */
  method ScanNumber(s: string, b: nat) returns (r: Option<nat>, isDouble: bool)
    requires b < |s|
    ensures NumberShape(s, b) == match r case None => None case Some(p) => Some((p, isDouble))
  {
    isDouble := false;
    var p := b;
    if s[p] == '-' {
      p := p + 1;
      if p == |s| { return None, false; }
    }
    if s[p] == '0' {
      p := p + 1;
      if p == |s| { return Some(p), false; }
    } else {
      if s[p] < '1' || s[p] > '9' { return None, false; }
      p := DigitRun(s, p + 1);
      if p == |s| { return Some(p), false; }
    }
    r, isDouble := ScanFraction(s, p);
  }

  method ScanFraction(s: string, b: nat) returns (r: Option<nat>, isDouble: bool)
    requires b < |s|
    ensures FractionShape(s, b) == match r case None => None case Some(p) => Some((p, isDouble))
  {
    isDouble := false;
    var p := b;
    if s[p] == '.' {
      p := p + 1;
      if p == |s| || !IsDigit(s[p]) { return None, false; }
      isDouble := true;
      p := DigitRun(s, p + 1);
      if p == |s| { return Some(p), true; }
    }
    if s[p] == 'e' || s[p] == 'E' {
      p := p + 1;
      if p == |s| { return None, false; }
      if s[p] == '-' || s[p] == '+' { p := p + 1; }
      if p == |s| || !IsDigit(s[p]) { return None, false; }
      isDouble := true;
      p := DigitRun(s, p + 1);
    }
    return Some(p), isDouble;
  }

  lemma MinIsItself()
    ensures ToInt64(INT64_MIN) == INT64_MIN
  {
  }

  /** The part of `parse_number` for an integer: it is read if its length, or the comparison of 20
      characters, says that it fits. */
  method ReadInteger(s: string, b: nat, p: nat) returns (z: Option<int>)
    requires b < p <= |s| && PlainNumber(s[b..p])
    ensures var i := IntegerValue(s[b..p]);
      IsInteger(s[b..p]) && z == if INT64_MIN <= i <= UINT64_MAX then Some(ToInt64(i)) else None
  {
    hide IntegerValue, PlainNumber, IsInteger, ToInt64;
    var n := p - b;
    var toInt := n < 20;
    LengthDecides(s[b..p]);
    if n == 20 {
      var m, k := MemCmp(s[b..p], if s[b] != '-' then MAX_TEXT else MIN_TEXT);
      TwentyDecides(s[b..p], m, k);
      if m == 0 {
        MinIsItself();
        return Some(if s[b] != '-' then ToInt64(UINT64_MAX) else INT64_MIN);
      }
      toInt := m < 0;
    }
    if !toInt { return None; }
    var v := Str2Int(s, b, p);
    z := Some(v);
  }

  /** `parse_number`. */
  method ParseNumber(s: string, b: nat, fits: string -> bool) returns (r: Option<nat>, v: Json)
    requires b < |s|
    ensures Number(s, b, fits) == match r case None => None case Some(p) => Some((v, p + 1))
  {
    hide NumberShape, IntegerValue, PlainNumber, IsInteger, ToInt64;
    v := Null;
    var end, isDouble := ScanNumber(s, b);
    if end.None? { return None, v; }
    var p := end.value;
    if !isDouble {
      ShapeIsPlain(s, b);
      var z := ReadInteger(s, b, p);
      if z.Some? { return Some(p - 1), Int(z.value); }
    }
    if fits(s[b..p]) { return Some(p - 1), Double(s[b..p]); }
    return None, v;
  }

  // ----- strings

  /** `parse_unicode`: appends the UTF-8 form of the code point and returns its last hex digit. */
  method ParseUnicode(s: string, b: nat, fs: string) returns (r: Option<nat>, out: string)
    requires b <= |s|
    ensures r.Some? <==> CodePoint(s, b).Some?
    ensures r.Some? ==> r.value + 1 == CodePoint(s, b).value.1 && out == fs + Utf8(CodePoint(s, b).value.0)
    ensures r.Some? ==> out[..|fs|] == fs && DecodeUtf8(out[|fs|..]) == Some(CodePoint(s, b).value.0)
  {
    hide Hex4, Utf8, DecodeUtf8;
    out := fs;
    var u0 := Hex4(s, b);
    if u0.None? { return None, out; }
    var u, at := u0.value, b + 3;
    if 0xD800 <= u <= 0xDBFF {
      if |s| - at < 3 { return None, out; }
      if s[at + 1] != '\\' || s[at + 2] != 'u' { return None, out; }
      var v := Hex4(s, at + 3);
      if v.None? { return None, out; }
      at := at + 6;
      if v.value < 0xDC00 || v.value > 0xDFFF { return None, out; }
      u := 0x10000 + (u - 0xD800) * 0x400 + (v.value - 0xDC00);
    }
    Utf8Iff(Utf8(u), u);
    return Some(at), out + Utf8(u);
  }

  lemma {:induction false} PlainRun(s: string, b: nat, q: nat)
    requires b <= q <= |s| && forall x :: b <= x < q ==> s[x] != '"' && s[x] != '\\'
    ensures StringBody(s, b) == Prepend(s[b..q], StringBody(s, q))
    decreases q - b
  {
    if b < q {
      PlainRun(s, b + 1, q);
      assert s[b..q] == [s[b]] + s[b + 1..q];
      PrependTwice([s[b]], s[b + 1..q], StringBody(s, q));
    } else {
      assert s[b..q] == "";
      PrependNothing(StringBody(s, q));
    }
  }

  lemma PrependTwice(t: string, u: string, r: Option<(string, nat)>)
    ensures Prepend(t, Prepend(u, r)) == Prepend(t + u, r)
  {
    if r.Some? { assert t + (u + r.value.0) == (t + u) + r.value.0; }
  }

  lemma {:induction false} FindFrom(s: string, i: nat, j: nat, c: char)
    requires i <= |s| && i <= j <= Find(s, i, c)
    ensures Find(s, i, c) == Find(s, j, c)
    decreases j - i
  {
    if i < j { FindFrom(s, i + 1, j, c); }
  }

  lemma {:induction false} NoQuoteNoString(s: string, i: nat)
    requires i <= |s| && Find(s, i, '"') == |s|
    ensures StringBody(s, i) == None
    decreases |s| - i
  {
    if i < |s| {
      FindFrom(s, i, i + 1, '"');
      if s[i] != '\\' {
        NoQuoteNoString(s, i + 1);
      } else if Escape(s, i).Some? {
        FindFrom(s, i, Escape(s, i).value.1, '"');
        NoQuoteNoString(s, Escape(s, i).value.1);
      }
    }
  }

  /** One escape of `parse_string`, from the backslash at `q`; the position of its last character. */
  method ParseEscape(s: string, q: nat, fs: string) returns (r: Option<nat>, out: string)
    requires q < |s|
    ensures r.Some? <==> Escape(s, q).Some?
    ensures r.Some? ==> r.value + 1 == Escape(s, q).value.1 && out == fs + Escape(s, q).value.0
  {
    out := fs;
    var i := q + 1;
    if i == |s| { return None, out; }
    var c := Unescape(s[i]);
    if c == '\0' { return None, out; }
    if s[i] != 'u' { return Some(i), fs + [c]; }
    r, out := ParseUnicode(s, i + 1, fs);
  }

  /** A closing quote found before an escape is still the next one after it, unless the escape used it. */
  lemma QuoteAfterEscape(s: string, q: nat)
    requires q < |s| && s[q] == '\\' && Escape(s, q).Some?
    ensures var j, p := Escape(s, q).value.1, Find(s, q, '"');
      j <= p ==> Find(s, j, '"') == p
  {
    var j := Escape(s, q).value.1;
    if j <= Find(s, q, '"') { FindFrom(s, q, j, '"'); }
  }

  /** The text from `b` up to the backslash at `q`, and the escape there. */
  lemma EscapeStep(s: string, b: nat, q: nat, fs: string)
    requires b <= q < |s| && s[q] == '\\' && forall x :: b <= x < q ==> s[x] != '"' && s[x] != '\\'
    ensures Prepend(fs, StringBody(s, b)) ==
      match Escape(s, q) case None => None case Some((t, j)) => Prepend(fs + s[b..q] + t, StringBody(s, j))
  {
    PlainRun(s, b, q);
    PrependTwice(fs, s[b..q], StringBody(s, q));
    if Escape(s, q).Some? {
      PrependTwice(fs + s[b..q], Escape(s, q).value.0, StringBody(s, Escape(s, q).value.1));
    }
  }

  /** The text from `b` up to the closing quote at `p`. */
  lemma StringEnds(s: string, b: nat, p: nat, fs: string)
    requires b <= p < |s| && s[p] == '"' && forall x :: b <= x < p ==> s[x] != '"' && s[x] != '\\'
    ensures Prepend(fs, StringBody(s, b)) == Some((fs + s[b..p], p + 1))
  {
    PlainRun(s, b, p);
    PrependTwice(fs, s[b..p], StringBody(s, p));
    assert (fs + s[b..p]) + "" == fs + s[b..p];
  }

  /** `parse_string`: looks for the closing quote first and for escapes before it, and looks for a
      new closing quote whenever an escape used one up. */
  method ParseString(s: string, at: nat) returns (r: Option<nat>, v: Json)
    requires at < |s|
    ensures match StringBody(s, at + 1)
      case None => r == None
      case Some((t, j)) => r == Some(j - 1) && v == Str(t)
  {
    hide StringBody, Prepend, Escape, Find;
    v := Null;
    var b, fs := at + 1, "";
    PrependNothing(StringBody(s, b));
    var p := MemChr(s, b, |s|, '"');
    if p.None? {
      NoQuoteNoString(s, b);
      return None, v;
    }
    while true
      invariant b <= |s| && p.Some? && b <= p.value == Find(s, b, '"') < |s|
      invariant StringBody(s, at + 1) == Prepend(fs, StringBody(s, b))
      decreases |s| - b
    {
      var q := MemChr(s, b, p.value, '\\');
      if q.None? {
        StringEnds(s, b, p.value, fs);
        return p, Str(fs + s[b..p.value]);
      }
      EscapeStep(s, b, q.value, fs);
      FindFrom(s, b, q.value, '"');
      var k, fs' := ParseEscape(s, q.value, fs + s[b..q.value]);
      if k.None? { return None, v; }
      QuoteAfterEscape(s, q.value);
      fs, b := fs', k.value + 1;
      if b > p.value {
        p := MemChr(s, b, |s|, '"');
        if p.None? {
          NoQuoteIs(s, b, fs);
          return None, v;
        }
      }
    }
  }

  lemma NoQuoteIs(s: string, b: nat, fs: string)
    requires b <= |s| && Find(s, b, '"') == |s|
    ensures Prepend(fs, StringBody(s, b)) == None
  {
    NoQuoteNoString(s, b);
  }

  lemma PrependNothing(r: Option<(string, nat)>)
    ensures Prepend("", r) == r
  {
    if r.Some? { assert "" + r.value.0 == r.value.0; }
  }
}
