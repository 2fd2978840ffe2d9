/** The UTF-8 form that `parse_unicode` of `src/json.cc` writes, read back by its bits. */
module JsonUtf8 {
  import opened Options
  import opened Division
  import opened JsonText

  /** A byte after the first carries six bits. */
  predicate Follows(c: char) {
    0x80 <= c as int <= 0xBF
  }

  function SixBits(c: char): nat
    requires Follows(c)
  {
    c as int - 0x80
  }

  /** The code point that a byte sequence is the shortest form of, as in section 3 of RFC 3629, surrogates
      included: the first byte tells the length, and together the bytes carry 7, 11, 16 or 21 bits. */
  function DecodeUtf8(t: string): Option<nat> {
    if |t| == 1 && t[0] as int <= 0x7F then Some(t[0] as int)
    else if |t| == 2 && 0xC0 <= t[0] as int <= 0xDF && Follows(t[1]) then
      Least(0x80, (t[0] as int - 0xC0) * 0x40 + SixBits(t[1]))
    else if |t| == 3 && 0xE0 <= t[0] as int <= 0xEF && Follows(t[1]) && Follows(t[2]) then
      Least(0x800, (t[0] as int - 0xE0) * 0x1000 + SixBits(t[1]) * 0x40 + SixBits(t[2]))
    else if |t| == 4 && 0xF0 <= t[0] as int <= 0xF7 && Follows(t[1]) && Follows(t[2]) && Follows(t[3]) then
      Least(0x10000, (t[0] as int - 0xF0) * 0x40000 + SixBits(t[1]) * 0x1000 + SixBits(t[2]) * 0x40 + SixBits(t[3]))
    else None
  }

  /** A code point that a shorter sequence could carry is not decoded, nor is one that is too large. */
  function Least(least: nat, u: nat): Option<nat> {
    if least <= u <= 0x10FFFF then Some(u) else None
  }

  /** The digits of a number in base 64. */
  lemma Sixes(u: nat)
    ensures u == u / 0x40 * 0x40 + u % 0x40 && 0 <= u % 0x40 < 0x40
    ensures u / 0x40 == u / 0x1000 * 0x40 + u / 0x40 % 0x40 && 0 <= u / 0x40 % 0x40 < 0x40
    ensures u / 0x1000 == u / 0x40000 * 0x40 + u / 0x1000 % 0x40 && 0 <= u / 0x1000 % 0x40 < 0x40
  {
    Nested(u, 0x40);
    Nested(u, 0x1000);
  }

  lemma Nested(u: nat, n: nat)
    requires n == 0x40 || n == 0x1000
    ensures u / n / 0x40 == u / (n * 0x40)
  {
    QuotRem(u, n);
    QuotRem(u / n, 0x40);
    DivIs(u, n * 0x40, u / n / 0x40, u / n % 0x40 * n + u % n);
  }

  lemma Two(t: string, a: nat, b: nat)
    requires a < 0x20 && b < 0x40 && t == [(0xC0 + a) as char, (0x80 + b) as char] && a * 0x40 + b >= 0x80
    ensures DecodeUtf8(t) == Some(a * 0x40 + b)
  {
    assert t[0] as int == 0xC0 + a && t[1] as int == 0x80 + b;
  }

  lemma Three(t: string, a: nat, b: nat, c: nat)
    requires a < 0x10 && b < 0x40 && c < 0x40
    requires t == [(0xE0 + a) as char, (0x80 + b) as char, (0x80 + c) as char] && (a * 0x40 + b) * 0x40 + c >= 0x800
    ensures DecodeUtf8(t) == Some((a * 0x40 + b) * 0x40 + c)
  {
    assert t[0] as int == 0xE0 + a && t[1] as int == 0x80 + b && t[2] as int == 0x80 + c;
  }

  lemma Four(t: string, a: nat, b: nat, c: nat, d: nat)
    requires a < 0x8 && b < 0x40 && c < 0x40 && d < 0x40
    requires t == [(0xF0 + a) as char, (0x80 + b) as char, (0x80 + c) as char, (0x80 + d) as char]
    requires 0x10000 <= ((a * 0x40 + b) * 0x40 + c) * 0x40 + d <= 0x10FFFF
    ensures DecodeUtf8(t) == Some(((a * 0x40 + b) * 0x40 + c) * 0x40 + d)
  {
    assert t[0] as int == 0xF0 + a && t[1] as int == 0x80 + b && t[2] as int == 0x80 + c && t[3] as int == 0x80 + d;
  }

  lemma DecodesUtf8(u: nat)
    requires u <= 0x10FFFF
    ensures DecodeUtf8(Utf8(u)) == Some(u)
  {
    hide DecodeUtf8;
    var t := Utf8(u);
    Sixes(u);
    if u <= 0x7F {
      OneByte(u);
    } else if u <= 0x7FF {
      Two(t, u / 0x40, u % 0x40);
    } else if u <= 0xFFFF {
      Three(t, u / 0x1000, u / 0x40 % 0x40, u % 0x40);
    } else {
      Four(t, u / 0x40000, u / 0x1000 % 0x40, u / 0x40 % 0x40, u % 0x40);
    }
  }

  lemma OneByte(u: nat)
    requires u <= 0x7F
    ensures DecodeUtf8([u as char]) == Some(u)
  {
  }

  /** The six bits of each byte are determined. */
  lemma DecodesOnce(t: string, t': string)
    requires DecodeUtf8(t).Some? && DecodeUtf8(t) == DecodeUtf8(t')
    ensures t == t'
  {
    SameLength(t, t');
    SameBytes(t, t');
    hide *;
    assert t == t' by { assert forall x :: 0 <= x < |t| ==> t[x] == t'[x]; }
  }

  lemma SameBytes(t: string, t': string)
    requires DecodeUtf8(t).Some? && DecodeUtf8(t) == DecodeUtf8(t') && |t| == |t'|
    ensures forall x :: 0 <= x < |t| ==> t[x] == t'[x]
  {
    SplitBytes(t);
    SplitBytes(t');
    hide DecodeUtf8;
    if |t| > 1 {
      LeadStep(t, 0);
      LeadStep(t', 0);
      SplitOnce(Lead(t, 1), SixBits(t[|t| - 1]), Lead(t', 1), SixBits(t'[|t| - 1]));
    }
    if |t| > 2 {
      LeadStep(t, 1);
      LeadStep(t', 1);
      SplitOnce(Lead(t, 2), SixBits(t[|t| - 2]), Lead(t', 2), SixBits(t'[|t| - 2]));
    }
    if |t| > 3 {
      LeadStep(t, 2);
      LeadStep(t', 2);
      SplitOnce(Lead(t, 3), SixBits(t[|t| - 3]), Lead(t', 3), SixBits(t'[|t| - 3]));
    }
  }

  /** What the bytes but the last `n` carry. */
  function Lead(t: string, n: nat): nat
    requires DecodeUtf8(t).Some? && n < |t|
    decreases |t| - n
  {
    var x := |t| - 1 - n;
    if x > 0 then Lead(t, n + 1) * 0x40 + SixBits(t[x])
    else t[0] as int - (match |t| case 1 => 0 case 2 => 0xC0 case 3 => 0xE0 case _ => 0xF0)
  }

  lemma SplitBytes(t: string)
    requires DecodeUtf8(t).Some?
    ensures DecodeUtf8(t) == Some(Lead(t, 0)) && |t| <= 4
    ensures forall x :: 1 <= x < |t| ==> Follows(t[x])
  {
    var n := |t|;
    if n == 4 { LeadStep(t, 2); }
    if n >= 3 { LeadStep(t, 1); }
    if n >= 2 { LeadStep(t, 0); }
    hide Lead;
    LeadFirst(t);
  }

  lemma LeadStep(t: string, n: nat)
    requires DecodeUtf8(t).Some? && n + 1 < |t|
    ensures Follows(t[|t| - 1 - n]) && Lead(t, n) == Lead(t, n + 1) * 0x40 + SixBits(t[|t| - 1 - n])
  {
  }

  lemma LeadFirst(t: string)
    requires DecodeUtf8(t).Some?
    ensures t != "" && Lead(t, |t| - 1) ==
      t[0] as int - (match |t| case 1 => 0 case 2 => 0xC0 case 3 => 0xE0 case _ => 0xF0)
  {
  }

  lemma SplitOnce(a: nat, b: nat, a': nat, b': nat)
    requires b < 0x40 && b' < 0x40 && a * 0x40 + b == a' * 0x40 + b'
    ensures a == a' && b == b'
  {
  }

  lemma SameLength(t: string, t': string)
    requires DecodeUtf8(t).Some? && DecodeUtf8(t) == DecodeUtf8(t')
    ensures |t| == |t'|
  {
  }

  /** `Utf8` gives the one byte sequence that is decoded to the code point. */
  lemma Utf8Iff(t: string, u: nat)
    requires u <= 0x10FFFF
    ensures DecodeUtf8(t) == Some(u) <==> t == Utf8(u)
  {
    hide *;
    DecodesUtf8(u);
    if DecodeUtf8(t) == Some(u) { DecodesOnce(t, Utf8(u)); }
  }
}
