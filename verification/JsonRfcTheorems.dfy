/** The accepted texts and the trees read from them are those of the relaxed grammar of `JsonRfc`. */
module JsonRfcTheorems {
  import opened Options
  import opened JsonText
  import opened JsonGrammar
  import opened JsonLexer
  import opened JsonRoundTrip
  import opened JsonRfc

  // ----- characters

  lemma CharIs(c: char)
    ensures White(c) == IsSpace(c) && Dec(c) == IsDigit(c) && DigitOf(c) == HexValue(c)
    ensures IsDigit(c) ==> DigitOf(c) == Digit(c)
  {
  }

  lemma EscapeIs(c: char)
    requires c != 'u'
    ensures Unescape(c) != '\0' <==> EscapeOf(c).Some?
    ensures EscapeOf(c).Some? ==> 0 <= EscapeOf(c).value < 0x80 && Unescape(c) == EscapeOf(c).value as char
  {
  }

  lemma HexIs(s: string, i: nat)
    requires i <= |s|
    ensures Hex4(s, i) == if HexAt(s, i) then Some(Unit(s, i)) else None
  {
    if i + 4 <= |s| {
      CharIs(s[i]);
      CharIs(s[i + 1]);
      CharIs(s[i + 2]);
      CharIs(s[i + 3]);
    }
    hide HexValue, DigitOf;
  }

  /** The code point of the Unicode escape at `i`, and where the escape ends. */
  function UnicodeAt(s: string, i: nat): (r: Option<(nat, nat)>)
    requires HexAt(s, i + 2)
    ensures r.Some? ==> r.value.0 <= 0x10FFFF && (r.value.1 == i + 6 || (r.value.1 == i + 12 && LowAfter(s, i)))
  {
    if !High(Unit(s, i + 2)) then Some((Unit(s, i + 2), i + 6))
    else if LowAfter(s, i) then Some((Joined(Unit(s, i + 2), Unit(s, i + 8)), i + 12))
    else None
  }

  lemma CodePointIs(s: string, i: nat)
    requires HexAt(s, i + 2)
    ensures CodePoint(s, i + 2) == UnicodeAt(s, i)
  {
    HexIs(s, i + 2);
    if High(Unit(s, i + 2)) {
      PairIs(s, i, Unit(s, i + 2));
    }
    hide HexAt, Hex4, Unit, LowAfter;
  }

  lemma PairIs(s: string, i: nat, u: nat)
    requires i + 2 <= |s| && Hex4(s, i + 2) == Some(u) && High(u)
    ensures LowAfter(s, i) ==> CodePoint(s, i + 2) == Some((Joined(u, Unit(s, i + 8)), i + 12))
    ensures !LowAfter(s, i) ==> CodePoint(s, i + 2) == None
  {
    if i + 8 <= |s| { HexIs(s, i + 8); }
    hide HexAt, Hex4, Unit;
  }

  // ----- white space and structural characters

  lemma BlankSkips(s: string, i: nat, j: nat)
    requires Blank(s, i, j) && (j < |s| ==> !IsSpace(s[j]))
    ensures SkipSpace(s, i) == j
  {
    if j < |s| { SkipsTo(s, i, j); } else { SkipsAll(s, i); }
  }

  lemma {:induction false} SkipsAll(s: string, i: nat)
    requires Blank(s, i, |s|)
    ensures SkipSpace(s, i) == |s|
    decreases |s| - i
  {
    if i < |s| { SkipsAll(s, i + 1); }
  }

  /** A structural character is found, and what follows it. */
  lemma ApartSkips(s: string, i: nat, c: char, j: nat)
    requires Apart(s, i, c, j) && !IsSpace(c) && j < |s| && !IsSpace(s[j])
    ensures var k := SkipSpace(s, i); k < j && s[k] == c && SkipSpace(s, k + 1) == j
  {
    var k: nat :| ApartAt(s, i, c, j, k);
    BlankSkips(s, i, k);
    BlankSkips(s, k + 1, j);
  }

  // ----- numbers and strings

  lemma IntPartReads(s: string, i: nat, j: nat)
    requires IntPart(s, i, j) && (j == |s| || !IsDigit(s[j]))
    ensures (if s[i] == '0' then i + 1 else DigitsEnd(s, i)) == j && IsDigit(s[i])
  {
    if s[i] != '0' { DigitsEndIs(s, i, j); }
  }

  lemma NumberReads(s: string, i: nat, j: nat)
    requires NumberAt(s, i, j) && Stops(s, j)
    ensures i < |s| && NumberShape(s, i).Some? && NumberShape(s, i).value.0 == j
    ensures s[i] == '-' || IsDigit(s[i])
  {
    hide Stops, FracPart, ExpPart, FractionShape;
    var p: nat, q: nat :| NumberParts(s, i, p, q, j);
    var p0 := if s[i] == '-' then i + 1 else i;
    assert p <= |s| && IsDigit(s[p0]);
    FractionReads(s, p, q, j);
    hide IntPart, DigitsEnd;
    IntPartReads(s, p0, p);
  }

  lemma ExponentReads(s: string, q: nat, j: nat, frac: bool)
    requires ExpPart(s, q, j) && Stops(s, j) && q <= |s|
    ensures ExponentShape(s, q, frac).Some? && ExponentShape(s, q, frac).value.0 == j
    ensures q < |s| ==> !(q == j && IsDigit(s[q]))
  {
    if q < j {
      var r := if s[q + 1] == '-' || s[q + 1] == '+' then q + 2 else q + 1;
      DigitsEndIs(s, r, j);
    }
  }

  lemma FractionReads(s: string, p: nat, q: nat, j: nat)
    requires FracPart(s, p, q) && ExpPart(s, q, j) && Stops(s, j)
    requires p <= |s|
    ensures FractionShape(s, p).Some? && FractionShape(s, p).value.0 == j
    ensures p == |s| || !IsDigit(s[p])
  {
    ExponentReads(s, q, j, true);
    ExponentReads(s, q, j, false);
    if p < q { DigitsEndIs(s, p + 1, q); }
  }

  /** A string is read exactly if its surrogates are paired, and then to its closing quote, as what its
      characters stand for. */
  lemma {:induction false} CharsRead(s: string, i: nat, j: nat, lax: bool)
    requires j < |s| && s[j] == '"' && Chars(s, i, j, lax) && i <= j
    ensures StringBody(s, i) == if Paired(s, i, j) then Some((Content(s, i, j), j + 1)) else None
    decreases |s| - i
  {
    hide HexAt, EscapeOf, Unescape, CodePoint, Utf8, LowAfter, Unit, UnicodeAt;
    if i < j {
      if s[i] != '\\' {
        CharsRead(s, i + 1, j, lax);
      } else if s[i + 1] != 'u' {
        EscapeIs(s[i + 1]);
        CharsInside(s, i + 2, j, lax);
        CharsRead(s, i + 2, j, lax);
      } else {
        UnicodeInside(s, i, j, lax);
        UnicodeRead(s, i, j);
        if UnicodeAt(s, i).Some? { CharsRead(s, UnicodeAt(s, i).value.1, j, lax); }
      }
    }
  }

  /** What a Unicode escape adds to the string read, and to what the characters stand for. */
  lemma UnicodeRead(s: string, i: nat, j: nat)
    requires j < |s| && i + 6 <= j && s[i] == '\\' && s[i + 1] == 'u' && HexAt(s, i + 2)
    ensures match UnicodeAt(s, i)
      case None => StringBody(s, i) == None && !Paired(s, i, j)
      case Some((v, n)) =>
        && StringBody(s, i) == Prepend(Utf8(v), StringBody(s, n))
        && Content(s, i, j) == Utf8(v) + Content(s, n, j)
        && Paired(s, i, j) == Paired(s, n, j)
  {
    hide *;
    BodyUnicode(s, i);
    ContentUnicode(s, i, j);
    PairedUnicode(s, i, j);
  }

  lemma ContentUnicode(s: string, i: nat, j: nat)
    requires i + 1 < j <= |s| && s[i] == '\\' && s[i + 1] == 'u' && HexAt(s, i + 2)
    ensures UnicodeAt(s, i).Some? ==>
      Content(s, i, j) == Utf8(UnicodeAt(s, i).value.0) + Content(s, UnicodeAt(s, i).value.1, j)
  {
    hide HexAt, EscapeOf, Utf8, Unit, LowAfter, Joined;
  }

  lemma PairedUnicode(s: string, i: nat, j: nat)
    requires i + 1 < j <= |s| && s[i] == '\\' && s[i + 1] == 'u' && HexAt(s, i + 2)
    ensures match UnicodeAt(s, i) case None => !Paired(s, i, j) case Some((_, n)) => Paired(s, i, j) == Paired(s, n, j)
  {
    hide HexAt, Unit, LowAfter, Joined;
  }

  lemma BodyUnicode(s: string, i: nat)
    requires i + 1 < |s| && s[i] == '\\' && s[i + 1] == 'u' && HexAt(s, i + 2)
    ensures StringBody(s, i) ==
      match UnicodeAt(s, i) case None => None case Some((v, n)) => Prepend(Utf8(v), StringBody(s, n))
  {
    CodePointIs(s, i);
    hide HexAt, CodePoint, Utf8, Prepend, UnicodeAt;
  }

  lemma CharsInside(s: string, i: nat, j: nat, lax: bool)
    requires j <= |s| && Chars(s, i, j, lax)
    ensures i <= j
  {
  }

  /** A Unicode escape, or two of them for a pair, lies inside the string. */
  lemma UnicodeInside(s: string, i: nat, j: nat, lax: bool)
    requires j < |s| && s[j] == '"' && Chars(s, i, j, lax) && i + 1 < j && s[i] == '\\' && s[i + 1] == 'u'
    ensures i + 6 <= j && Chars(s, i + 6, j, lax)
    ensures LowAfter(s, i) ==> i + 12 <= j && Chars(s, i + 12, j, lax)
  {
    CharsInside(s, i + 6, j, lax);
    if LowAfter(s, i) { CharsInside(s, i + 12, j, lax); }
  }

  // ----- every derived text is read, if it is readable

  /** How a derived value begins. */
  lemma Starts(s: string, t: Tree)
    requires Derives(s, t, true)
    ensures var c := s[t.i]; !IsSpace(c) && c != ']' && c != '}' && c != ','
    ensures (t.Array? <==> s[t.i] == '[') && (t.Object? <==> s[t.i] == '{')
    ensures (t.Text? <==> s[t.i] == '"') && (t.Num? <==> s[t.i] == '-' || IsDigit(s[t.i]))
  {
    match t
    case Word(i, j) =>
      if IsAt(s, i, "null") { IsAtChar(s, i, "null", 0); }
      if IsAt(s, i, "true") { IsAtChar(s, i, "true", 0); }
      if IsAt(s, i, "false") { IsAtChar(s, i, "false", 0); }
    case Num(i, j) => NumberStarts(s, i, j);
    case _ =>
  }

  lemma NumberStarts(s: string, i: nat, j: nat)
    requires NumberAt(s, i, j)
    ensures i < |s| && (s[i] == '-' || IsDigit(s[i]))
  {
  }

  /** The value is read as what it means, if it is readable. */
  ghost predicate ReadsAs(s: string, t: Tree, fits: string -> bool)
    requires Derives(s, t, true)
  {
    Value(s, t.i, fits) == if Readable(s, t, fits) then Some((Meaning(s, t, true), t.j)) else None
  }

  lemma ScalarReads(s: string, t: Tree, fits: string -> bool)
    requires Derives(s, t, true) && Stops(s, t.j) && !t.Array? && !t.Object?
    ensures ReadsAs(s, t, fits)
  {
    hide *;
    InText(s, t);
    ReadsAsIs(s, t, fits);
    ScalarParts(s, t);
    ScalarMeans(s, t, fits);
    match t
    case Word(i, j) => WordReads(s, i, j, fits);
    case Num(i, j) => NumReads(s, i, j, fits);
    case Text(i, j) => TextReads(s, i, j, fits);
  }

  lemma ScalarParts(s: string, t: Tree)
    requires Derives(s, t, true)
    ensures t.Word? ==> t.i < t.j <= |s| && (s[t.i..t.j] == "null" || s[t.i..t.j] == "true" || s[t.i..t.j] == "false")
    ensures t.Num? ==> NumberAt(s, t.i, t.j)
    ensures t.Text? ==> StringAt(s, t.i, t.j, true) && t.i + 2 <= t.j <= |s|
  {
    hide NumberAt, Chars, ArrayShape, ObjectShape;
  }

  lemma ScalarMeans(s: string, t: Tree, fits: string -> bool)
    requires Derives(s, t, true) && t.i < t.j <= |s| && (t.Text? ==> t.i + 2 <= t.j)
    ensures t.Word? ==> Readable(s, t, fits) && Meaning(s, t, true) == WordMeaning(s[t.i..t.j])
    ensures t.Num? ==> Readable(s, t, fits) == NumberFits(s[t.i..t.j], fits)
    ensures t.Num? ==> Meaning(s, t, true) == NumberMeaning(s[t.i..t.j])
    ensures t.Text? ==> Readable(s, t, fits) == Paired(s, t.i + 1, t.j - 1)
    ensures t.Text? ==> Meaning(s, t, true) == Str(Content(s, t.i + 1, t.j - 1))
  {
    hide Derives, WordMeaning, NumberMeaning, NumberFits, Paired, Content;
  }

  lemma WordReads(s: string, i: nat, j: nat, fits: string -> bool)
    requires i < j <= |s| && (s[i..j] == "null" || s[i..j] == "true" || s[i..j] == "false")
    ensures Value(s, i, fits) == Some((WordMeaning(s[i..j]), j))
  {
    hide StringBody, Number, Elements, Members;
    assert s[i] == s[i..j][0];
  }

  lemma NumReads(s: string, i: nat, j: nat, fits: string -> bool)
    requires NumberAt(s, i, j) && Stops(s, j) && i < j <= |s|
    ensures Value(s, i, fits) == if NumberFits(s[i..j], fits) then Some((NumberMeaning(s[i..j]), j)) else None
  {
    hide *;
    NumberReads(s, i, j);
    NumberIsValue(s, i, fits);
    ShapeInside(s, i);
    NumberTells(s, i, j);
    NumberSome(s, i, fits);
    NumberIs(s[i..j], NumberShape(s, i).value.1, fits);
  }

  /** The value of decimal digits, counted from the front or from the back. */
  lemma {:induction false} DecimalMore(t: string, c: char)
    ensures Decimal(t + [c]) == Decimal(t) * 10 + DigitOf(c)
  {
    if t == "" {
      assert t + [c] == [c] && [c][1..] == "";
      assert TenTo(0) == 1;
    } else {
      assert (t + [c])[1..] == t[1..] + [c] && (t + [c])[0] == t[0];
      DecimalMore(t[1..], c);
      assert DigitOf(t[0]) * TenTo(|t|) == DigitOf(t[0]) * TenTo(|t| - 1) * 10;
    }
  }

  lemma {:induction false} DecimalIs(t: string)
    requires AllDigits(t)
    ensures Decimal(t) == DecimalValue(t)
  {
    if t != "" {
      var u, c := t[..|t| - 1], t[|t| - 1];
      DecimalIs(u);
      CharIs(c);
      DecimalMore(u, c);
      assert u + [c] == t;
    }
  }

  lemma SignedIs(t: string)
    requires IsInteger(t)
    ensures SignedDecimal(t) == IntegerValue(t)
  {
    DecimalIs(if t != "" && t[0] == '-' then t[1..] else t);
    hide AllDigits, Decimal, DecimalValue;
  }

  /** A number is read as what it means, if it fits. */
  lemma NumberIs(t: string, isDouble: bool, fits: string -> bool)
    requires isDouble <==> !IsInteger(t)
    requires isDouble <==> '.' in t || 'e' in t || 'E' in t
    ensures NumberOf(t, isDouble, fits) == if NumberFits(t, fits) then Some(NumberMeaning(t)) else None
  {
    if !isDouble {
      SignedIs(t);
      WrapIs(IntegerValue(t));
    }
    hide IsInteger, SignedDecimal, IntegerValue, ToInt64;
  }

  lemma WrapIs(z: int)
    ensures INT64_MIN <= z <= UINT64_MAX ==>
      ToInt64(z) == if z <= 0x7FFF_FFFF_FFFF_FFFF then z else z - 0x1_0000_0000_0000_0000
  {
  }

  lemma NumberIsValue(s: string, i: nat, fits: string -> bool)
    requires i < |s| && (s[i] == '-' || IsDigit(s[i]))
    ensures Value(s, i, fits) == Number(s, i, fits)
  {
    hide Number, Elements, Members, StringBody;
  }

  lemma ShapeInside(s: string, i: nat)
    requires i < |s| && NumberShape(s, i).Some?
    ensures i < NumberShape(s, i).value.0 <= |s|
  {
  }

  lemma NumberSome(s: string, i: nat, fits: string -> bool)
    requires i < |s| && NumberShape(s, i).Some?
    ensures var (e, isDouble) := NumberShape(s, i).value;
      Number(s, i, fits) == match NumberOf(s[i..e], isDouble, fits) case None => None case Some(v) => Some((v, e))
  {
    hide NumberShape, NumberOf;
  }

  lemma TextReads(s: string, i: nat, j: nat, fits: string -> bool)
    requires StringAt(s, i, j, true)
    ensures Value(s, i, fits) ==
      if Paired(s, i + 1, j - 1) then Some((Str(Content(s, i + 1, j - 1)), j)) else None
  {
    CharsRead(s, i + 1, j - 1, true);
    hide StringBody, Paired, Chars, Content;
  }

  /** A number without fraction and exponent is an integer, and no other number is. */
  lemma NumberTells(s: string, i: nat, j: nat)
    requires i < j <= |s| && NumberShape(s, i).Some? && NumberShape(s, i).value.0 == j
    ensures NumberShape(s, i).value.1 <==> !IsInteger(s[i..j])
    ensures NumberShape(s, i).value.1 <==> '.' in s[i..j] || 'e' in s[i..j] || 'E' in s[i..j]
  {
    if NumberShape(s, i).value.1 {
      PointOrExponent(s, i, j);
    } else {
      hide *;
      ShapeIsPlain(s, i);
      PlainIsInteger(s[i..j]);
    }
  }

  lemma PlainIsInteger(t: string)
    requires PlainNumber(t)
    ensures IsInteger(t) && '.' !in t && 'e' !in t && 'E' !in t
  {
    var d := if t != "" && t[0] == '-' then t[1..] else t;
    assert AllDigits(d);
    forall x | 0 <= x < |t| ensures t[x] == '-' || IsDigit(t[x]) {
      if t[0] == '-' && x > 0 { assert t[x] == d[x - 1]; }
    }
  }

  /** A fraction or an exponent begins with a character that is not a digit. */
  lemma PointOrExponent(s: string, i: nat, j: nat)
    requires i < j <= |s| && NumberShape(s, i) == Some((j, true))
    ensures !IsInteger(s[i..j]) && ('.' in s[i..j] || 'e' in s[i..j] || 'E' in s[i..j])
  {
    var p0 := if s[i] == '-' then i + 1 else i;
    var p := if s[p0] == '0' then p0 + 1 else DigitsEnd(s, p0);
    assert p0 <= p < j && (s[p] == '.' || s[p] == 'e' || s[p] == 'E');
    hide *;
    InSlice(s, i, j, p);
    NotInteger(s[i..j], p - i);
  }

  lemma InSlice(s: string, i: nat, j: nat, p: nat)
    requires i <= p < j <= |s|
    ensures s[i..j][p - i] == s[p] && s[p] in s[i..j]
  {
  }

  lemma NotInteger(t: string, x: nat)
    requires x < |t| && (t[x] == '.' || t[x] == 'e' || t[x] == 'E')
    ensures !IsInteger(t)
  {
    var d := if t != "" && t[0] == '-' then t[1..] else t;
    assert !IsDigit(d[if t[0] == '-' then x - 1 else x]);
  }

  /** What comes after an item: a comma and the next one, or the end. */
  lemma NextItem(s: string, i: nat, j: nat)
    requires Apart(s, i, ',', j) && j < |s| && !IsSpace(s[j])
    ensures var k := SkipSpace(s, i); k < j && s[k] == ',' && SkipSpace(s, k + 1) == j && Stops(s, i)
  {
    ApartSkips(s, i, ',', j);
    StopsAtSkip(s, i);
  }

  lemma StopsAtSkip(s: string, i: nat)
    requires i <= |s|
    ensures var k := SkipSpace(s, i); k == |s| || s[k] == ',' || s[k] == ']' || s[k] == '}' ==> Stops(s, i)
  {
  }

  lemma BlankContainer(s: string, i: nat, j: nat)
    requires i + 1 < j <= |s| && Blank(s, i + 1, j - 1) && !IsSpace(s[j - 1])
    ensures SkipSpace(s, i + 1) == j - 1
  {
    BlankSkips(s, i + 1, j - 1);
  }

  /** What comes after the last item: the closing bracket, or a comma and then the bracket. */
  lemma EndOfItems(s: string, i: nat, j: nat, c: char)
    requires Last(s, i, j, true) && j < |s| && s[j] == c && (c == ']' || c == '}')
    ensures Stops(s, i)
    ensures var k := SkipSpace(s, i); k <= j && (k == j || (s[k] == ',' && SkipSpace(s, k + 1) == j))
  {
    if Blank(s, i, j) {
      BlankSkips(s, i, j);
      StopsAtSkip(s, i);
    } else {
      NextItem(s, i, j);
    }
  }

  lemma ArrayParts(s: string, t: Tree, k: nat)
    requires Derives(s, t, true) && t.Array? && k < |t.vs|
    ensures t.j <= |s| && 0 < t.j && s[t.j - 1] == ']' && t.vs[k].i < t.vs[k].j <= |s| && Derives(s, t.vs[k], true)
    ensures if k + 1 < |t.vs| then Derives(s, t.vs[k + 1], true) && Apart(s, t.vs[k].j, ',', t.vs[k + 1].i)
            else Last(s, t.vs[k].j, t.j - 1, true)
  {
    hide Apart, Last, Blank, NumberAt, StringAt, ObjectShape;
  }

  /** What follows an item that is not the last one. */
  lemma ItemThen(s: string, e: nat, j: nat)
    requires Apart(s, e, ',', j) && j < |s| && !IsSpace(s[j]) && e <= |s|
    ensures var c := SkipSpace(s, e); Stops(s, e) && c < |s| && s[c] == ',' && SkipSpace(s, c + 1) == j
  {
    NextItem(s, e, j);
  }

  lemma ItemLast(s: string, e: nat, j: nat, bracket: char)
    requires 0 < j <= |s| && Last(s, e, j - 1, true) && s[j - 1] == bracket && (bracket == ']' || bracket == '}')
    requires e <= |s|
    ensures var c := SkipSpace(s, e); Stops(s, e) && c < |s| && Closed(s, c, j, bracket)
  {
    EndOfItems(s, e, j - 1, bracket);
  }

  /** What surrounds element `k` of an array. */
  lemma ElementFacts(s: string, t: Tree, k: nat)
    requires Derives(s, t, true) && t.Array? && k < |t.vs|
    ensures t.vs[k].i < t.vs[k].j <= |s| && Derives(s, t.vs[k], true)
    ensures var v := t.vs[k]; var c := SkipSpace(s, v.j);
      && Stops(s, v.j) && s[v.i] != ']' && c < |s| && t.j <= |s|
      && (if k + 1 < |t.vs| then s[c] == ',' && SkipSpace(s, c + 1) == t.vs[k + 1].i
          else Closed(s, c, t.j, ']'))
  {
    hide *;
    var v := t.vs[k];
    ArrayParts(s, t, k);
    Starts(s, v);
    if k + 1 < |t.vs| {
      InText(s, t.vs[k + 1]);
      Starts(s, t.vs[k + 1]);
      ItemThen(s, v.j, t.vs[k + 1].i);
    } else {
      ItemLast(s, v.j, t.j, ']');
    }
  }

  lemma InText(s: string, t: Tree)
    requires Derives(s, t, true)
    ensures t.i < t.j <= |s|
  {
  }

  lemma Children(s: string, t: Tree)
    requires Derives(s, t, true)
    ensures t.Array? ==> forall k :: 0 <= k < |t.vs| ==> Derives(s, t.vs[k], true)
    ensures t.Object? ==> forall k :: 0 <= k < |t.ms| ==> Derives(s, t.ms[k].v, true)
  {
    hide ArrayShape, ObjectShape, NumberAt, StringAt;
  }

  /** The closing bracket is at `c`, or a comma is and the bracket follows. */
  predicate Closed(s: string, c: nat, j: nat, bracket: char)
    requires c < |s|
  {
    0 < j <= |s| && s[j - 1] == bracket && (c == j - 1 || (s[c] == ',' && SkipSpace(s, c + 1) == j - 1))
  }

  lemma ElementsEnd(s: string, e: nat, acc: seq<Json>, j: nat, fits: string -> bool)
    requires e <= |s| && SkipSpace(s, e) < |s| && Closed(s, SkipSpace(s, e), j, ']')
    ensures AfterElement(s, e, acc, fits) == Some((Arr(acc), j))
  {
    hide SkipSpace, Value;
  }

  lemma ElementsGoOn(s: string, e: nat, acc: seq<Json>, fits: string -> bool)
    requires e <= |s| && SkipSpace(s, e) < |s| && s[SkipSpace(s, e)] == ','
    ensures AfterElement(s, e, acc, fits) == Elements(s, SkipSpace(s, e) + 1, acc, fits)
  {
    hide SkipSpace, Value, Elements;
  }

  lemma NoElement(s: string, p: nat, acc: seq<Json>, fits: string -> bool)
    requires p <= |s| && SkipSpace(s, p) < |s| && s[SkipSpace(s, p)] != ']'
    requires Value(s, SkipSpace(s, p), fits).None?
    ensures Elements(s, p, acc, fits).None?
  {
    hide SkipSpace, Value;
  }

  /** What the first `n` elements mean. */
  function Means(s: string, vs: seq<Tree>, n: nat): seq<Json>
    requires n <= |vs|
  {
    seq(n, k requires 0 <= k < n => Meaning(s, vs[k], true))
  }

  lemma MeansNext(s: string, vs: seq<Tree>, k: nat)
    requires k < |vs|
    ensures Means(s, vs, k + 1) == Means(s, vs, k) + [Meaning(s, vs[k], true)]
  {
    hide Meaning;
  }

  /** What the first `n` members mean. */
  function MemberMeans(s: string, ms: seq<Pair>, n: nat): seq<Member>
    requires n <= |ms|
  {
    seq(n, k requires 0 <= k < n => Member(Inner(s, ms[k].ki, ms[k].kj), Meaning(s, ms[k].v, true)))
  }

  lemma MemberMeansNext(s: string, ms: seq<Pair>, k: nat)
    requires k < |ms|
    ensures MemberMeans(s, ms, k + 1) ==
      MemberMeans(s, ms, k) + [Member(Inner(s, ms[k].ki, ms[k].kj), Meaning(s, ms[k].v, true))]
  {
    hide Meaning;
  }

  lemma MeaningOf(s: string, t: Tree)
    ensures t.Array? ==> Meaning(s, t, true) == Arr(Means(s, t.vs, |t.vs|))
    ensures t.Object? ==> Meaning(s, t, true) == Obj(MemberMeans(s, t.ms, |t.ms|))
  {
    if t.Array? {
      assert Meaning(s, t, true).vs == Means(s, t.vs, |t.vs|);
    } else if t.Object? {
      assert Meaning(s, t, true).ms == MemberMeans(s, t.ms, |t.ms|);
    }
  }

  lemma {:induction false} ElementsRead(s: string, t: Tree, k: nat, acc: seq<Json>, p: nat, fits: string -> bool)
    requires Derives(s, t, true) && t.Array? && k < |t.vs| && p <= |s| && SkipSpace(s, p) == t.vs[k].i
    requires forall x :: 0 <= x < |t.vs| ==> Derives(s, t.vs[x], true)
    requires acc == Means(s, t.vs, k)
    ensures Elements(s, p, acc, fits).Some? <==> forall x :: k <= x < |t.vs| ==> Readable(s, t.vs[x], fits)
    ensures Elements(s, p, acc, fits).Some? ==>
      Elements(s, p, acc, fits) == Some((Arr(Means(s, t.vs, |t.vs|)), t.j))
    decreases t, 0, |t.vs| - k
  {
    hide Derives, Readable, Elements, AfterElement, Value, SkipSpace, Stops, Closed, Meaning, Means;
    var v := t.vs[k];
    ElementFacts(s, t, k);
    ValueReads(s, v, fits);
    MeansNext(s, t.vs, k);
    if Readable(s, v, fits) {
      var (w, e) := Value(s, v.i, fits).value;
      ReadElement(s, p, v.i, acc, w, e, fits);
      if k + 1 < |t.vs| {
        ElementsGoOn(s, e, acc + [w], fits);
        ElementsRead(s, t, k + 1, acc + [w], SkipSpace(s, e) + 1, fits);
      } else {
        ElementsEnd(s, e, acc + [w], t.j, fits);
      }
    } else {
      NoElement(s, p, acc, fits);
    }
  }

  /** A raw key and the colon after it. */
  lemma KeyReads(s: string, m: Pair)
    requires RawKey(s, m.ki, m.kj) && Apart(s, m.kj, ':', m.v.i) && m.v.i < |s| && !IsSpace(s[m.v.i])
    ensures s[m.ki] == '"' && Key(s, m.ki) == Some((Inner(s, m.ki, m.kj), m.v.i))
  {
    FindIs(s, m.ki + 1, m.kj - 1, '"');
    ApartSkips(s, m.kj, ':', m.v.i);
  }

  lemma ObjectParts(s: string, t: Tree, k: nat)
    requires Derives(s, t, true) && t.Object? && k < |t.ms|
    ensures t.j <= |s| && 0 < t.j && s[t.j - 1] == '}' && t.ms[k].v.i < t.ms[k].v.j <= |s|
    ensures Derives(s, t.ms[k].v, true)
    ensures RawKey(s, t.ms[k].ki, t.ms[k].kj) && Apart(s, t.ms[k].kj, ':', t.ms[k].v.i)
    ensures if k + 1 < |t.ms| then
              RawKey(s, t.ms[k + 1].ki, t.ms[k + 1].kj) && Apart(s, t.ms[k].v.j, ',', t.ms[k + 1].ki)
            else Last(s, t.ms[k].v.j, t.j - 1, true)
  {
    hide Apart, Last, Blank, NumberAt, StringAt, ArrayShape, RawKey;
  }

  lemma RawKeyStarts(s: string, i: nat, j: nat)
    requires RawKey(s, i, j)
    ensures i < |s| && s[i] == '"'
  {
  }

  lemma QuoteIsNoSpace()
    ensures !IsSpace('"')
  {
  }

  /** What surrounds member `k` of an object. */
  lemma MemberFacts(s: string, t: Tree, k: nat)
    requires Derives(s, t, true) && t.Object? && k < |t.ms|
    ensures t.ms[k].v.i < t.ms[k].v.j <= |s| && Derives(s, t.ms[k].v, true)
    ensures var m := t.ms[k]; var c := SkipSpace(s, m.v.j);
      && Stops(s, m.v.j) && c < |s| && t.j <= |s|
      && m.ki < |s| && s[m.ki] == '"' && Key(s, m.ki) == Some((Inner(s, m.ki, m.kj), m.v.i))
      && (if k + 1 < |t.ms| then s[c] == ',' && SkipSpace(s, c + 1) == t.ms[k + 1].ki
          else Closed(s, c, t.j, '}'))
  {
    hide *;
    var m := t.ms[k];
    ObjectParts(s, t, k);
    Starts(s, m.v);
    RawKeyStarts(s, m.ki, m.kj);
    KeyReads(s, m);
    if k + 1 < |t.ms| {
      QuoteIsNoSpace();
      RawKeyStarts(s, t.ms[k + 1].ki, t.ms[k + 1].kj);
      ItemThen(s, m.v.j, t.ms[k + 1].ki);
    } else {
      ItemLast(s, m.v.j, t.j, '}');
    }
  }

  lemma MembersEnd(s: string, e: nat, acc: seq<Member>, j: nat, fits: string -> bool)
    requires e <= |s| && SkipSpace(s, e) < |s| && Closed(s, SkipSpace(s, e), j, '}')
    ensures AfterMember(s, e, acc, fits) == Some((Obj(acc), j))
  {
    hide SkipSpace, Value, Key;
  }

  lemma MembersGoOn(s: string, e: nat, acc: seq<Member>, fits: string -> bool)
    requires e <= |s| && SkipSpace(s, e) < |s| && s[SkipSpace(s, e)] == ','
    ensures AfterMember(s, e, acc, fits) == Members(s, SkipSpace(s, e) + 1, acc, fits)
  {
    hide SkipSpace, Value, Members;
  }

  lemma NoMember(s: string, p: nat, acc: seq<Member>, fits: string -> bool)
    requires p <= |s| && SkipSpace(s, p) < |s| && s[SkipSpace(s, p)] != '}' && Key(s, SkipSpace(s, p)).Some?
    requires Value(s, Key(s, SkipSpace(s, p)).value.1, fits).None?
    ensures Members(s, p, acc, fits).None?
  {
    hide SkipSpace, Value, Key;
  }

  lemma {:induction false} MembersRead(s: string, t: Tree, k: nat, acc: seq<Member>, p: nat, fits: string -> bool)
    requires Derives(s, t, true) && t.Object? && k < |t.ms| && p <= |s| && SkipSpace(s, p) == t.ms[k].ki
    requires forall x :: 0 <= x < |t.ms| ==> Derives(s, t.ms[x].v, true)
    requires acc == MemberMeans(s, t.ms, k)
    ensures Members(s, p, acc, fits).Some? <==> forall x :: k <= x < |t.ms| ==> Readable(s, t.ms[x].v, fits)
    ensures Members(s, p, acc, fits).Some? ==>
      Members(s, p, acc, fits) == Some((Obj(MemberMeans(s, t.ms, |t.ms|)), t.j))
    decreases t, 0, |t.ms| - k
  {
    hide Derives, Readable, Members, AfterMember, Value, SkipSpace, Stops, Closed, Key, Meaning, MemberMeans, Inner;
    var m := t.ms[k];
    MemberFacts(s, t, k);
    ValueReads(s, m.v, fits);
    MemberMeansNext(s, t.ms, k);
    if Readable(s, m.v, fits) {
      var (w, e) := Value(s, m.v.i, fits).value;
      var key := Key(s, m.ki).value.0;
      ReadMember(s, p, m.ki, acc, key, m.v.i, w, e, fits);
      if k + 1 < |t.ms| {
        MembersGoOn(s, e, acc + [Member(key, w)], fits);
        MembersRead(s, t, k + 1, acc + [Member(key, w)], SkipSpace(s, e) + 1, fits);
      } else {
        MembersEnd(s, e, acc + [Member(key, w)], t.j, fits);
      }
    } else {
      NoMember(s, p, acc, fits);
    }
  }

  lemma {:induction false} ValueReads(s: string, t: Tree, fits: string -> bool)
    requires Derives(s, t, true) && Stops(s, t.j)
    ensures ReadsAs(s, t, fits)
    decreases t, 1
  {
    hide *;
    MeaningOf(s, t);
    NothingMeans(s, t);
    ReadsAsIs(s, t, fits);
    Starts(s, t);
    InText(s, t);
    Children(s, t);
    ValueOf(s, t.i, fits);
    if t.Array? {
      FirstItem(s, t);
      ReadableChildren(s, t, fits);
      if t.vs == [] {
        EmptyElements(s, t.i + 1, t.j, fits);
      } else {
        ElementsRead(s, t, 0, [], t.i + 1, fits);
      }
    } else if t.Object? {
      FirstItem(s, t);
      ReadableChildren(s, t, fits);
      if t.ms == [] {
        EmptyMembers(s, t.i + 1, t.j, fits);
      } else {
        MembersRead(s, t, 0, [], t.i + 1, fits);
      }
    } else {
      ScalarReads(s, t, fits);
    }
  }

  lemma ReadsAsIs(s: string, t: Tree, fits: string -> bool)
    requires Derives(s, t, true)
    ensures ReadsAs(s, t, fits) <==>
      Value(s, t.i, fits) == if Readable(s, t, fits) then Some((Meaning(s, t, true), t.j)) else None
  {
  }

  lemma NothingMeans(s: string, t: Tree)
    ensures t.Array? ==> Means(s, t.vs, 0) == []
    ensures t.Object? ==> MemberMeans(s, t.ms, 0) == []
  {
  }

  lemma ValueOf(s: string, i: nat, fits: string -> bool)
    requires i < |s|
    ensures s[i] == '[' ==> Value(s, i, fits) == Elements(s, i + 1, [], fits)
    ensures s[i] == '{' ==> Value(s, i, fits) == Members(s, i + 1, [], fits)
  {
    hide Elements, Members, Scalar;
  }

  lemma ReadableChildren(s: string, t: Tree, fits: string -> bool)
    requires Derives(s, t, true)
    requires t.Array? ==> forall k :: 0 <= k < |t.vs| ==> Derives(s, t.vs[k], true)
    requires t.Object? ==> forall k :: 0 <= k < |t.ms| ==> Derives(s, t.ms[k].v, true)
    ensures t.Array? ==> (Readable(s, t, fits) <==> forall k :: 0 <= k < |t.vs| ==> Readable(s, t.vs[k], fits))
    ensures t.Object? ==> (Readable(s, t, fits) <==> forall k :: 0 <= k < |t.ms| ==> Readable(s, t.ms[k].v, fits))
  {
    hide Derives;
  }

  /** What comes after the opening bracket. */
  lemma FirstItem(s: string, t: Tree)
    requires Derives(s, t, true) && (t.Array? || t.Object?)
    ensures t.i + 1 < t.j <= |s|
    ensures t.Array? ==> s[t.j - 1] == ']' && SkipSpace(s, t.i + 1) == if t.vs == [] then t.j - 1 else t.vs[0].i
    ensures t.Object? ==> s[t.j - 1] == '}' && SkipSpace(s, t.i + 1) == if t.ms == [] then t.j - 1 else t.ms[0].ki
  {
    hide *;
    BracketsAround(s, t);
    if t.Array? {
      if t.vs == [] {
        BlankContainer(s, t.i, t.j);
      } else {
        ArrayParts(s, t, 0);
        Starts(s, t.vs[0]);
        BlankSkips(s, t.i + 1, t.vs[0].i);
      }
    } else if t.ms == [] {
      BlankContainer(s, t.i, t.j);
    } else {
      ObjectParts(s, t, 0);
      RawKeyStarts(s, t.ms[0].ki, t.ms[0].kj);
      QuoteIsNoSpace();
      BlankSkips(s, t.i + 1, t.ms[0].ki);
    }
  }

  lemma BracketsAround(s: string, t: Tree)
    requires Derives(s, t, true) && (t.Array? || t.Object?)
    ensures t.i + 1 < t.j <= |s| && s[t.j - 1] == (if t.Array? then ']' else '}') && !IsSpace(s[t.j - 1])
    ensures t.Array? ==> Blank(s, t.i + 1, if t.vs == [] then t.j - 1 else t.vs[0].i)
    ensures t.Object? ==> Blank(s, t.i + 1, if t.ms == [] then t.j - 1 else t.ms[0].ki)
  {
    ShapeOf(s, t);
    hide Derives, Apart, Last, Blank, KeyAt, RawKey;
  }

  lemma ShapeOf(s: string, t: Tree)
    requires Derives(s, t, true)
    ensures t.Array? ==> ArrayShape(s, t.i, t.j, t.vs, true)
    ensures t.Object? ==> ObjectShape(s, t.i, t.j, t.ms, true)
  {
    hide ArrayShape, ObjectShape, NumberAt, StringAt, IsAt;
  }

  lemma EmptyElements(s: string, p: nat, j: nat, fits: string -> bool)
    requires p <= |s| && 0 < j <= |s| && SkipSpace(s, p) == j - 1 && s[j - 1] == ']'
    ensures Elements(s, p, [], fits) == Some((Arr([]), j))
  {
    hide SkipSpace, Value;
  }

  lemma EmptyMembers(s: string, p: nat, j: nat, fits: string -> bool)
    requires p <= |s| && 0 < j <= |s| && SkipSpace(s, p) == j - 1 && s[j - 1] == '}'
    ensures Members(s, p, [], fits) == Some((Obj([]), j))
  {
    hide SkipSpace, Value, Key;
  }

  // ----- the texts of RFC 8259

  /** No key has a quote in it, escaped as it may be. */
  ghost predicate PlainKeysIn(s: string, t: Tree)
    decreases t
  {
    match t
    case Array(_, _, vs) => forall k :: 0 <= k < |vs| ==> PlainKeysIn(s, vs[k])
    case Object(_, _, ms) =>
      forall k :: 0 <= k < |ms| ==> RawKey(s, ms[k].ki, ms[k].kj) && PlainKeysIn(s, ms[k].v)
    case _ => true
  }

  lemma {:induction false} CharsRelax(s: string, i: nat, j: nat)
    requires j <= |s| && Chars(s, i, j, false)
    ensures Chars(s, i, j, true)
    decreases |s| - i
  {
    if i < j {
      if s[i] != '\\' { CharsRelax(s, i + 1, j); }
      else if s[i + 1] == 'u' { CharsRelax(s, i + 6, j); }
      else { CharsRelax(s, i + 2, j); }
    }
  }

  lemma ArrayRelax(s: string, i: nat, j: nat, vs: seq<Tree>)
    requires ArrayShape(s, i, j, vs, false)
    ensures ArrayShape(s, i, j, vs, true)
  {
    hide Apart, Blank;
  }

  lemma ObjectRelax(s: string, i: nat, j: nat, ms: seq<Pair>)
    requires ObjectShape(s, i, j, ms, false) && forall k :: 0 <= k < |ms| ==> RawKey(s, ms[k].ki, ms[k].kj)
    ensures ObjectShape(s, i, j, ms, true)
  {
    hide Apart, Blank, RawKey, StringAt;
  }

  /** What RFC 8259 derives with plain keys the parser's grammar derives. */
  lemma {:induction false} Relax(s: string, t: Tree)
    requires Derives(s, t, false) && PlainKeysIn(s, t)
    ensures Derives(s, t, true)
    decreases t
  {
    hide ArrayShape, ObjectShape, NumberAt, Chars, RawKey, IsAt;
    match t
    case Text(i, j) => CharsRelax(s, i + 1, j - 1);
    case Array(i, j, vs) =>
      ArrayRelax(s, i, j, vs);
      forall k | 0 <= k < |vs| ensures Derives(s, vs[k], true) { Relax(s, vs[k]); }
    case Object(i, j, ms) =>
      ObjectRelax(s, i, j, ms);
      forall k | 0 <= k < |ms| ensures Derives(s, ms[k].v, true) { Relax(s, ms[k].v); }
    case _ =>
  }

  /** A text of the parser's own grammar is read as what it means if its numbers fit and its surrogates are
      paired, and is refused otherwise. */
  lemma TextReadsIff(s: string, t: Tree, fits: string -> bool)
    requires DerivesText(s, t, true)
    ensures Document(s, fits) == if Readable(s, t, fits) then Some(Meaning(s, t, true)) else None
  {
    hide Value, Derives, Readable, Meaning;
    InText(s, t);
    Starts(s, t);
    BlankSkips(s, 0, t.i);
    BlankStops(s, t.j);
    BlankSkips(s, t.j, |s|);
    ValueReads(s, t, fits);
  }

  lemma BlankStops(s: string, i: nat)
    requires Blank(s, i, |s|)
    ensures Stops(s, i)
  {
  }

  /** A text of RFC 8259 none of whose keys has a quote in it is accepted if and only if its numbers fit and
      its surrogates are paired, and is read as what it means, with its keys as they stand. */
  lemma RfcTextAcceptedIff(s: string, t: Tree, fits: string -> bool)
    requires DerivesText(s, t, false) && PlainKeysIn(s, t)
    ensures Derives(s, t, true)
    ensures Document(s, fits) == if Readable(s, t, fits) then Some(Meaning(s, t, true)) else None
  {
    hide Value, Readable, Document, Meaning;
    Relax(s, t);
    TextReadsIff(s, t, fits);
  }

  // ----- what the keys of a text of RFC 8259 mean

  /** Every escape is longer than what it stands for. */
  lemma {:induction false} ContentShrinks(s: string, i: nat, j: nat, lax: bool)
    requires i <= j < |s| && s[j] == '"' && Chars(s, i, j, lax)
    ensures |Content(s, i, j)| <= j - i
    ensures Content(s, i, j) == s[i..j] <==> '\\' !in s[i..j]
    ensures '\\' in s[i..j] ==> |Content(s, i, j)| < j - i
    decreases |s| - i, 1
  {
    hide HexAt, EscapeOf, Utf8, Unit, LowAfter, Joined;
    if i < j {
      assert s[i..j] == [s[i]] + s[i + 1..j];
      if s[i] != '\\' {
        ContentShrinks(s, i + 1, j, lax);
        SameTail(s[i], Content(s, i + 1, j), s[i + 1..j]);
      } else if s[i + 1] != 'u' {
        CharsInside(s, i + 2, j, lax);
        ContentShrinks(s, i + 2, j, lax);
        assert |Content(s, i, j)| <= 1 + |Content(s, i + 2, j)|;
      } else {
        CharsInside(s, i + 6, j, lax);
        UnicodeShrinks(s, i, j, lax);
      }
    }
  }

  lemma SameTail(c: char, t: string, u: string)
    ensures [c] + t == [c] + u <==> t == u
  {
    assert ([c] + t)[1..] == t && ([c] + u)[1..] == u;
  }

  lemma {:induction false} UnicodeShrinks(s: string, i: nat, j: nat, lax: bool)
    requires j < |s| && s[j] == '"' && Chars(s, i, j, lax) && i + 1 < j && s[i] == '\\' && s[i + 1] == 'u'
    ensures |Content(s, i, j)| < j - i
    decreases |s| - i, 0
  {
    assert forall u: nat :: u <= 0x10FFFF ==> |Utf8(u)| <= 4;
    hide HexAt, EscapeOf, Utf8, Unit, Joined;
    UnicodeInside(s, i, j, lax);
    ContentShrinks(s, i + 6, j, lax);
    if LowAfter(s, i) { ContentShrinks(s, i + 12, j, lax); }
    hide LowAfter;
  }

  /** No key has an escape. */
  ghost predicate NoEscapeInKeys(s: string, t: Tree)
    decreases t
  {
    match t
    case Array(_, _, vs) => forall k :: 0 <= k < |vs| ==> NoEscapeInKeys(s, vs[k])
    case Object(_, _, ms) =>
      forall k :: 0 <= k < |ms| ==> '\\' !in Inner(s, ms[k].ki, ms[k].kj) && NoEscapeInKeys(s, ms[k].v)
    case _ => true
  }

  lemma KeyStands(s: string, i: nat, j: nat)
    requires StringAt(s, i, j, false)
    ensures Inner(s, i, j) == InnerMeaning(s, i, j) <==> '\\' !in Inner(s, i, j)
  {
    ContentShrinks(s, i + 1, j - 1, false);
    hide Chars, Content;
  }

  lemma StrictKeys(s: string, t: Tree)
    requires Derives(s, t, false)
    ensures t.Array? ==> forall k :: 0 <= k < |t.vs| ==> Derives(s, t.vs[k], false)
    ensures t.Object? ==> forall k :: 0 <= k < |t.ms| ==> StringAt(s, t.ms[k].ki, t.ms[k].kj, false)
    ensures t.Object? ==> forall k :: 0 <= k < |t.ms| ==> Derives(s, t.ms[k].v, false)
  {
    hide ArrayShape, NumberAt, StringAt, Apart, Last, Blank;
  }

  /** Keys as they stand are what the standard says they mean exactly if none has an escape. */
  lemma {:induction false} KeysStand(s: string, t: Tree)
    requires Derives(s, t, false)
    ensures Meaning(s, t, true) == Meaning(s, t, false) <==> NoEscapeInKeys(s, t)
    decreases t
  {
    StrictKeys(s, t);
    hide *;
    if t.Array? {
      forall k | 0 <= k < |t.vs|
        ensures Meaning(s, t.vs[k], true) == Meaning(s, t.vs[k], false) <==> NoEscapeInKeys(s, t.vs[k])
      {
        KeysStand(s, t.vs[k]);
      }
    } else if t.Object? {
      forall k | 0 <= k < |t.ms|
        ensures Inner(s, t.ms[k].ki, t.ms[k].kj) == InnerMeaning(s, t.ms[k].ki, t.ms[k].kj) <==>
          '\\' !in Inner(s, t.ms[k].ki, t.ms[k].kj)
        ensures Meaning(s, t.ms[k].v, true) == Meaning(s, t.ms[k].v, false) <==> NoEscapeInKeys(s, t.ms[k].v)
      {
        KeyStands(s, t.ms[k].ki, t.ms[k].kj);
        KeysStand(s, t.ms[k].v);
      }
    }
    PartsStand(s, t);
  }

  lemma PartsStand(s: string, t: Tree)
    requires t.Array? ==> forall k :: 0 <= k < |t.vs| ==>
      (Meaning(s, t.vs[k], true) == Meaning(s, t.vs[k], false) <==> NoEscapeInKeys(s, t.vs[k]))
    requires t.Object? ==> forall k :: 0 <= k < |t.ms| ==>
      && (Inner(s, t.ms[k].ki, t.ms[k].kj) == InnerMeaning(s, t.ms[k].ki, t.ms[k].kj) <==>
            '\\' !in Inner(s, t.ms[k].ki, t.ms[k].kj))
      && (Meaning(s, t.ms[k].v, true) == Meaning(s, t.ms[k].v, false) <==> NoEscapeInKeys(s, t.ms[k].v))
    ensures Meaning(s, t, true) == Meaning(s, t, false) <==> NoEscapeInKeys(s, t)
  {
    if t.Array? {
      ArrayStands(s, t);
    } else if t.Object? {
      ObjectStands(s, t);
    } else {
      hide Inner, InnerMeaning, WordMeaning, NumberMeaning;
    }
  }

  lemma ArrayStands(s: string, t: Tree)
    requires t.Array? && forall k :: 0 <= k < |t.vs| ==>
      (Meaning(s, t.vs[k], true) == Meaning(s, t.vs[k], false) <==> NoEscapeInKeys(s, t.vs[k]))
    ensures Meaning(s, t, true) == Meaning(s, t, false) <==> NoEscapeInKeys(s, t)
  {
    PartsMean(s, t, true);
    PartsMean(s, t, false);
    hide Meaning;
    var a, b := Meaning(s, t, true).vs, Meaning(s, t, false).vs;
    SameSeq(a, b);
  }

  lemma ObjectStands(s: string, t: Tree)
    requires t.Object? && forall k :: 0 <= k < |t.ms| ==>
      && (Inner(s, t.ms[k].ki, t.ms[k].kj) == InnerMeaning(s, t.ms[k].ki, t.ms[k].kj) <==>
            '\\' !in Inner(s, t.ms[k].ki, t.ms[k].kj))
      && (Meaning(s, t.ms[k].v, true) == Meaning(s, t.ms[k].v, false) <==> NoEscapeInKeys(s, t.ms[k].v))
    ensures Meaning(s, t, true) == Meaning(s, t, false) <==> NoEscapeInKeys(s, t)
  {
    PartsMean(s, t, true);
    PartsMean(s, t, false);
    hide Meaning, Inner, InnerMeaning;
    var a, b := Meaning(s, t, true).ms, Meaning(s, t, false).ms;
    SameSeq(a, b);
    forall k | 0 <= k < |t.ms|
      ensures a[k] == b[k] <==> '\\' !in Inner(s, t.ms[k].ki, t.ms[k].kj) && NoEscapeInKeys(s, t.ms[k].v)
    {
      hide NoEscapeInKeys;
    }
  }

  lemma SameSeq<T>(a: seq<T>, b: seq<T>)
    requires |a| == |b|
    ensures a == b <==> forall k :: 0 <= k < |a| ==> a[k] == b[k]
  {
  }

  lemma PartsMean(s: string, t: Tree, lax: bool)
    ensures t.Array? ==> Meaning(s, t, lax).Arr? && |Meaning(s, t, lax).vs| == |t.vs|
    ensures t.Array? ==> forall k :: 0 <= k < |t.vs| ==> Meaning(s, t, lax).vs[k] == Meaning(s, t.vs[k], lax)
    ensures t.Object? ==> Meaning(s, t, lax).Obj? && |Meaning(s, t, lax).ms| == |t.ms|
    ensures t.Object? ==> forall k :: 0 <= k < |t.ms| ==>
      Meaning(s, t, lax).ms[k] ==
        Member(if lax then Inner(s, t.ms[k].ki, t.ms[k].kj) else InnerMeaning(s, t.ms[k].ki, t.ms[k].kj),
               Meaning(s, t.ms[k].v, lax))
  {
    hide Inner, InnerMeaning, WordMeaning, NumberMeaning;
  }

  /** A text of RFC 8259 none of whose keys has a quote in it is read as what the standard says it means if
      and only if its numbers fit, its surrogates are paired and no key has an escape. */
  lemma RfcMeaningReadIff(s: string, t: Tree, fits: string -> bool)
    requires DerivesText(s, t, false) && PlainKeysIn(s, t)
    ensures Derives(s, t, true)
    ensures Document(s, fits) == Some(Meaning(s, t, false)) <==> Readable(s, t, fits) && NoEscapeInKeys(s, t)
  {
    hide Readable, Document, Meaning, NoEscapeInKeys, Derives, PlainKeysIn;
    RfcTextAcceptedIff(s, t, fits);
    KeysStand(s, t);
  }

  /** An object whose only key is an escaped quote. */
  const QUOTED := "{\"\\\"\":1}"

  /** The condition on keys is needed: this text of RFC 8259 is refused. */
  lemma QuoteInKeyRefused(fits: string -> bool)
    ensures DerivesText(QUOTED, Object(0, 8, [Pair(1, 5, Num(6, 7))]), false)
    ensures Document(QUOTED, fits) == None
  {
    var s := QUOTED;
    assert s[0] == '{' && s[1] == '"' && s[2] == '\\' && s[3] == '"' && s[4] == '"' && s[5] == ':' && s[6] == '1';
    assert s[7] == '}' && |s| == 8;
    QuotedDerives(s);
    QuotedRefused(s, fits);
  }

  lemma QuotedDerives(s: string)
    requires |s| == 8 && s[0] == '{' && s[1] == '"' && s[2] == '\\' && s[3] == '"' && s[4] == '"' && s[5] == ':'
    requires s[6] == '1' && s[7] == '}'
    ensures DerivesText(s, Object(0, 8, [Pair(1, 5, Num(6, 7))]), false)
  {
    var n, m := Num(6, 7), Pair(1, 5, Num(6, 7));
    assert Chars(s, 4, 4, false) && Chars(s, 2, 4, false);
    assert KeyAt(s, 1, 5, false);
    assert ApartAt(s, 5, ':', 6, 5);
    assert NumberParts(s, 6, 7, 7, 7);
    assert Derives(s, n, false);
    assert ObjectShape(s, 0, 8, [m], false);
    hide ObjectShape;
    assert Derives(s, Object(0, 8, [m]), false);
  }

  lemma QuotedRefused(s: string, fits: string -> bool)
    requires |s| == 8 && s[0] == '{' && s[1] == '"' && s[2] == '\\' && s[3] == '"' && s[4] == '"'
    ensures Document(s, fits) == None
  {
    assert Find(s, 3, '"') == 3 && Find(s, 2, '"') == 3;
    assert Key(s, 1) == None;
    assert Members(s, 1, [], fits) == None;
  }

  // ----- every accepted text is derived

  lemma SkipIsBlank(s: string, i: nat)
    requires i <= |s|
    ensures i <= SkipSpace(s, i) <= |s| && Blank(s, i, SkipSpace(s, i))
  {
  }

  /** White space, a structural character, and white space again. */
  lemma SkipIsApart(s: string, i: nat, c: char)
    requires i <= |s| && SkipSpace(s, i) < |s| && s[SkipSpace(s, i)] == c
    ensures forall j: nat :: Blank(s, SkipSpace(s, i) + 1, j) ==> Apart(s, i, c, j)
  {
    var k := SkipSpace(s, i);
    SkipIsBlank(s, i);
    forall j: nat | Blank(s, k + 1, j) ensures Apart(s, i, c, j) {
      assert ApartAt(s, i, c, j, k);
    }
  }

  /** What follows a comma begins, or the container ends, after white space. */
  lemma AfterComma(s: string, e: nat, j: nat)
    requires e <= |s| && SkipSpace(s, e) < |s| && s[SkipSpace(s, e)] == ',' && Blank(s, SkipSpace(s, e) + 1, j)
    ensures Apart(s, e, ',', j) && Last(s, e, j, true)
  {
    SkipIsApart(s, e, ',');
    hide Apart, Blank, SkipSpace;
  }

  lemma NumberDerives(s: string, i: nat)
    requires i < |s| && NumberShape(s, i).Some?
    ensures NumberAt(s, i, NumberShape(s, i).value.0)
  {
    var p0 := if s[i] == '-' then i + 1 else i;
    var p := if s[p0] == '0' then p0 + 1 else DigitsEnd(s, p0);
    assert IntPart(s, p0, p);
    var j := NumberShape(s, i).value.0;
    var q := FractionDerives(s, p);
    assert NumberParts(s, i, p, q, j);
  }

  lemma FractionDerives(s: string, p: nat) returns (q: nat)
    requires p <= |s| && FractionShape(s, p).Some?
    ensures FracPart(s, p, q) && ExpPart(s, q, FractionShape(s, p).value.0)
  {
    if p == |s| || s[p] != '.' {
      q := p;
      ExponentDerives(s, q, false);
    } else {
      q := DigitsEnd(s, p + 1);
      ExponentDerives(s, q, true);
    }
  }

  lemma ExponentDerives(s: string, q: nat, frac: bool)
    requires q <= |s| && ExponentShape(s, q, frac).Some?
    ensures ExpPart(s, q, ExponentShape(s, q, frac).value.0)
  {
  }

  lemma {:induction false} CharsDerive(s: string, i: nat)
    requires i <= |s| && StringBody(s, i).Some?
    ensures var j := StringBody(s, i).value.1; i < j <= |s| && s[j - 1] == '"' && Chars(s, i, j - 1, true)
    decreases |s| - i
  {
    BodyStep(s, i);
    hide StringBody, Escape, HexAt, EscapeOf;
    if s[i] == '"' {
    } else if s[i] != '\\' {
      CharsDerive(s, i + 1);
    } else {
      var e := Escape(s, i).value.1;
      CharsDerive(s, e);
      EscapeDerives(s, i, StringBody(s, e).value.1 - 1);
    }
  }

  /** Where the rest of a string begins. */
  lemma BodyStep(s: string, i: nat)
    requires i <= |s| && StringBody(s, i).Some?
    ensures i < |s| && (s[i] == '"' ==> StringBody(s, i).value.1 == i + 1)
    ensures s[i] == '\\' ==> Escape(s, i).Some? && i + 1 < Escape(s, i).value.1 <= |s|
    ensures s[i] != '"' ==>
      var n := if s[i] == '\\' then Escape(s, i).value.1 else i + 1;
      StringBody(s, n).Some? && StringBody(s, n).value.1 == StringBody(s, i).value.1
  {
    hide Escape;
  }

  lemma EscapeDerives(s: string, i: nat, j: nat)
    requires i < j < |s| && s[i] == '\\' && Escape(s, i).Some? && Escape(s, i).value.1 <= j
    requires Chars(s, Escape(s, i).value.1, j, true)
    ensures Chars(s, i, j, true)
  {
    if s[i + 1] == 'u' {
      UnicodeDerives(s, i, j);
    } else {
      EscapeIs(s[i + 1]);
      hide Unescape, EscapeOf;
    }
  }

  lemma UnicodeDerives(s: string, i: nat, j: nat)
    requires i < j < |s| && s[i] == '\\' && s[i + 1] == 'u' && CodePoint(s, i + 2).Some?
    requires CodePoint(s, i + 2).value.1 <= j && Chars(s, CodePoint(s, i + 2).value.1, j, true)
    ensures Chars(s, i, j, true)
  {
    hide *;
    HexFirst(s, i + 2);
    CodePointIs(s, i);
    if CodePoint(s, i + 2).value.1 == i + 12 { LowDerives(s, i, j); }
    UnicodeCons(s, i, j);
  }

  lemma UnicodeCons(s: string, i: nat, j: nat)
    requires i < j < |s| && s[i] == '\\' && s[i + 1] == 'u' && HexAt(s, i + 2) && Chars(s, i + 6, j, true) && i + 6 <= j
    ensures Chars(s, i, j, true)
  {
    hide HexAt;
  }

  lemma HexFirst(s: string, i: nat)
    requires i <= |s| && CodePoint(s, i).Some?
    ensures HexAt(s, i)
  {
    HexIs(s, i);
    hide HexAt, Hex4, Unit;
  }

  /** The second escape of a pair. */
  lemma LowDerives(s: string, i: nat, j: nat)
    requires i + 12 <= j <= |s| && LowAfter(s, i) && Chars(s, i + 12, j, true)
    ensures Chars(s, i + 6, j, true)
  {
    hide HexAt, Unit;
  }

  lemma ScalarDerives(s: string, i: nat, fits: string -> bool) returns (t: Tree)
    requires i < |s| && Scalar(s, i, fits).Some?
    ensures t.i == i && t.j == Scalar(s, i, fits).value.1 && Derives(s, t, true)
  {
    var j := Scalar(s, i, fits).value.1;
    if s[i] == '"' {
      CharsDerive(s, i + 1);
      t := Text(i, j);
    } else if s[i] == 'f' || s[i] == 't' || s[i] == 'n' {
      t := Word(i, j);
    } else {
      NumberDerives(s, i);
      t := Num(i, j);
    }
  }

  /** The elements from `p` to the bracket before `j`. */
  ghost predicate ElementsFrom(s: string, p: nat, j: nat, vs: seq<Tree>) {
    && 0 < j <= |s| && s[j - 1] == ']'
    && (if vs == [] then Blank(s, p, j - 1) else Blank(s, p, vs[0].i) && Last(s, vs[|vs| - 1].j, j - 1, true))
    && (forall k :: 0 <= k < |vs| - 1 ==> Apart(s, vs[k].j, ',', vs[k + 1].i))
  }

  lemma ConsElement(s: string, p: nat, j: nat, v: Tree, c: nat, rest: seq<Tree>)
    requires p <= v.i && Blank(s, p, v.i) && v.j <= |s| && c == SkipSpace(s, v.j) < |s| && s[c] == ','
    requires ElementsFrom(s, c + 1, j, rest)
    ensures ElementsFrom(s, p, j, [v] + rest)
  {
    AfterComma(s, v.j, if rest == [] then j - 1 else rest[0].i);
    hide Apart, Blank, SkipSpace, Last;
    var vs := [v] + rest;
    assert vs[|vs| - 1] == if rest == [] then v else rest[|rest| - 1];
    forall k | 0 <= k < |vs| - 1 ensures Apart(s, vs[k].j, ',', vs[k + 1].i) {
      if k > 0 { assert vs[k] == rest[k - 1] && vs[k + 1] == rest[k]; }
    }
  }

  lemma OneElement(s: string, p: nat, v: Tree)
    requires Blank(s, p, v.i) && v.j <= |s| && SkipSpace(s, v.j) < |s| && s[SkipSpace(s, v.j)] == ']'
    ensures ElementsFrom(s, p, SkipSpace(s, v.j) + 1, [v])
  {
    SkipIsBlank(s, v.j);
    hide Blank, Apart;
  }

  lemma NoElementFrom(s: string, p: nat)
    requires p <= |s| && SkipSpace(s, p) < |s| && s[SkipSpace(s, p)] == ']'
    ensures ElementsFrom(s, p, SkipSpace(s, p) + 1, [])
  {
    SkipIsBlank(s, p);
  }

  /** What it means that the rest of an array is accepted. */
  lemma ElementsStep(s: string, p: nat, acc: seq<Json>, fits: string -> bool)
    requires p <= |s| && Elements(s, p, acc, fits).Some?
    ensures var i := SkipSpace(s, p);
      && p <= i < |s|
      && (s[i] == ']' ==> Elements(s, p, acc, fits) == Some((Arr(acc), i + 1)))
      && (s[i] != ']' ==> Value(s, i, fits).Some? && i < Value(s, i, fits).value.1 <= |s|)
      && (s[i] != ']' ==>
            var (w, e) := Value(s, i, fits).value;
            Elements(s, p, acc, fits) == AfterElement(s, e, acc + [w], fits))
  {
    hide SkipSpace, Value, AfterElement;
  }

  lemma AfterElementStep(s: string, e: nat, acc: seq<Json>, fits: string -> bool)
    requires e <= |s| && AfterElement(s, e, acc, fits).Some?
    ensures var c := SkipSpace(s, e);
      && e <= c < |s| && (s[c] == ']' || s[c] == ',')
      && (s[c] == ']' ==> AfterElement(s, e, acc, fits) == Some((Arr(acc), c + 1)))
      && (s[c] == ',' ==> AfterElement(s, e, acc, fits) == Elements(s, c + 1, acc, fits))
  {
    hide SkipSpace, Elements;
  }

  lemma {:induction false} ElementsDerive(s: string, p: nat, acc: seq<Json>, fits: string -> bool)
    returns (vs: seq<Tree>)
    requires p <= |s| && Elements(s, p, acc, fits).Some?
    ensures ElementsFrom(s, p, Elements(s, p, acc, fits).value.1, vs)
    ensures forall k :: 0 <= k < |vs| ==> Derives(s, vs[k], true)
    decreases |s| - p, 2
  {
    hide *;
    ElementsStep(s, p, acc, fits);
    SkipIsBlank(s, p);
    var i := SkipSpace(s, p);
    if s[i] == ']' {
      NoElementFrom(s, p);
      return [];
    }
    var v := ValueDerives(s, i, fits);
    var acc' := acc + [Value(s, i, fits).value.0];
    AfterElementStep(s, v.j, acc', fits);
    var c := SkipSpace(s, v.j);
    if s[c] == ']' {
      OneElement(s, p, v);
      vs := [v];
    } else {
      var rest := ElementsDerive(s, c + 1, acc', fits);
      ConsElement(s, p, Elements(s, c + 1, acc', fits).value.1, v, c, rest);
      vs := [v] + rest;
    }
  }

  /** The members from `p` to the brace before `j`. */
  ghost predicate MembersFrom(s: string, p: nat, j: nat, ms: seq<Pair>) {
    && 0 < j <= |s| && s[j - 1] == '}'
    && (if ms == [] then Blank(s, p, j - 1) else Blank(s, p, ms[0].ki) && Last(s, ms[|ms| - 1].v.j, j - 1, true))
    && (forall k :: 0 <= k < |ms| ==> RawKey(s, ms[k].ki, ms[k].kj) && Apart(s, ms[k].kj, ':', ms[k].v.i))
    && (forall k :: 0 <= k < |ms| - 1 ==> Apart(s, ms[k].v.j, ',', ms[k + 1].ki))
  }

  lemma ConsMember(s: string, p: nat, j: nat, m: Pair, c: nat, rest: seq<Pair>)
    requires p <= m.ki && Blank(s, p, m.ki) && m.v.j <= |s| && c == SkipSpace(s, m.v.j) < |s| && s[c] == ','
    requires RawKey(s, m.ki, m.kj) && Apart(s, m.kj, ':', m.v.i) && MembersFrom(s, c + 1, j, rest)
    ensures MembersFrom(s, p, j, [m] + rest)
  {
    hide Apart, Blank, SkipSpace, RawKey, Last;
    AfterComma(s, m.v.j, if rest == [] then j - 1 else rest[0].ki);
    KeysCons(s, m, rest);
    Ends(m, rest);
  }

  lemma Ends<T>(m: T, rest: seq<T>)
    ensures var ms := [m] + rest; ms[0] == m && ms[|ms| - 1] == if rest == [] then m else rest[|rest| - 1]
  {
  }

  /** Another member in front of those with keys, colons and commas. */
  lemma KeysCons(s: string, m: Pair, rest: seq<Pair>)
    requires RawKey(s, m.ki, m.kj) && Apart(s, m.kj, ':', m.v.i) && (rest != [] ==> Apart(s, m.v.j, ',', rest[0].ki))
    requires forall k :: 0 <= k < |rest| ==> RawKey(s, rest[k].ki, rest[k].kj) && Apart(s, rest[k].kj, ':', rest[k].v.i)
    requires forall k :: 0 <= k < |rest| - 1 ==> Apart(s, rest[k].v.j, ',', rest[k + 1].ki)
    ensures var ms := [m] + rest;
      && (forall k :: 0 <= k < |ms| ==> RawKey(s, ms[k].ki, ms[k].kj) && Apart(s, ms[k].kj, ':', ms[k].v.i))
      && (forall k :: 0 <= k < |ms| - 1 ==> Apart(s, ms[k].v.j, ',', ms[k + 1].ki))
  {
    hide *;
    var ms := [m] + rest;
    forall k | 0 <= k < |ms| ensures RawKey(s, ms[k].ki, ms[k].kj) && Apart(s, ms[k].kj, ':', ms[k].v.i) {
      if k > 0 { assert ms[k] == rest[k - 1]; }
    }
    forall k | 0 <= k < |ms| - 1 ensures Apart(s, ms[k].v.j, ',', ms[k + 1].ki) {
      if k > 0 { assert ms[k] == rest[k - 1] && ms[k + 1] == rest[k]; }
    }
  }

  lemma OneMember(s: string, p: nat, m: Pair)
    requires Blank(s, p, m.ki) && m.v.j <= |s| && SkipSpace(s, m.v.j) < |s| && s[SkipSpace(s, m.v.j)] == '}'
    requires RawKey(s, m.ki, m.kj) && Apart(s, m.kj, ':', m.v.i)
    ensures MembersFrom(s, p, SkipSpace(s, m.v.j) + 1, [m])
  {
    SkipIsBlank(s, m.v.j);
    hide Blank, Apart, RawKey;
  }

  lemma KeyDerives(s: string, i: nat) returns (j: nat)
    requires i < |s| && Key(s, i).Some?
    ensures RawKey(s, i, j) && Apart(s, j, ':', Key(s, i).value.1)
  {
    j := Find(s, i + 1, '"') + 1;
    SkipIsApart(s, j, ':');
    SkipIsBlank(s, SkipSpace(s, j) + 1);
  }

  lemma NoMemberFrom(s: string, p: nat)
    requires p <= |s| && SkipSpace(s, p) < |s| && s[SkipSpace(s, p)] == '}'
    ensures MembersFrom(s, p, SkipSpace(s, p) + 1, [])
  {
    SkipIsBlank(s, p);
  }

  /** What it means that the rest of an object is accepted. */
  lemma MembersStep(s: string, p: nat, acc: seq<Member>, fits: string -> bool)
    requires p <= |s| && Members(s, p, acc, fits).Some?
    ensures var i := SkipSpace(s, p);
      && p <= i < |s|
      && (s[i] == '}' ==> Members(s, p, acc, fits) == Some((Obj(acc), i + 1)))
      && (s[i] != '}' ==> Key(s, i).Some? && i < Key(s, i).value.1 < |s|)
      && (s[i] != '}' ==>
            var (key, x) := Key(s, i).value;
            Value(s, x, fits).Some? && x < Value(s, x, fits).value.1 <= |s|)
      && (s[i] != '}' ==>
            var (key, x) := Key(s, i).value;
            var (w, e) := Value(s, x, fits).value;
            Members(s, p, acc, fits) == AfterMember(s, e, acc + [Member(key, w)], fits))
  {
    hide SkipSpace, Value, AfterMember, Key;
  }

  lemma AfterMemberStep(s: string, e: nat, acc: seq<Member>, fits: string -> bool)
    requires e <= |s| && AfterMember(s, e, acc, fits).Some?
    ensures var c := SkipSpace(s, e);
      && e <= c < |s| && (s[c] == '}' || s[c] == ',')
      && (s[c] == '}' ==> AfterMember(s, e, acc, fits) == Some((Obj(acc), c + 1)))
      && (s[c] == ',' ==> AfterMember(s, e, acc, fits) == Members(s, c + 1, acc, fits))
  {
    hide SkipSpace, Members;
  }

  lemma {:induction false} MembersDerive(s: string, p: nat, acc: seq<Member>, fits: string -> bool)
    returns (ms: seq<Pair>)
    requires p <= |s| && Members(s, p, acc, fits).Some?
    ensures MembersFrom(s, p, Members(s, p, acc, fits).value.1, ms)
    ensures forall k :: 0 <= k < |ms| ==> Derives(s, ms[k].v, true)
    decreases |s| - p, 2
  {
    hide *;
    MembersStep(s, p, acc, fits);
    SkipIsBlank(s, p);
    var i := SkipSpace(s, p);
    if s[i] == '}' {
      NoMemberFrom(s, p);
      return [];
    }
    var (key, x) := Key(s, i).value;
    var kj := KeyDerives(s, i);
    var v := ValueDerives(s, x, fits);
    var acc', m := acc + [Member(key, Value(s, x, fits).value.0)], Pair(i, kj, v);
    AfterMemberStep(s, v.j, acc', fits);
    var c := SkipSpace(s, v.j);
    if s[c] == '}' {
      OneMember(s, p, m);
      ms := [m];
    } else {
      var rest := MembersDerive(s, c + 1, acc', fits);
      ConsMember(s, p, Members(s, c + 1, acc', fits).value.1, m, c, rest);
      ms := [m] + rest;
    }
  }

  lemma ArrayDerived(s: string, i: nat, j: nat, vs: seq<Tree>)
    requires i < |s| && s[i] == '[' && i + 1 < j && ElementsFrom(s, i + 1, j, vs)
    requires forall k :: 0 <= k < |vs| ==> Derives(s, vs[k], true)
    ensures Derives(s, Array(i, j, vs), true)
  {
    assert ArrayShape(s, i, j, vs, true) by { hide Apart, Blank, Last, Derives; }
    hide ArrayShape, ElementsFrom;
  }

  lemma ObjectDerived(s: string, i: nat, j: nat, ms: seq<Pair>)
    requires i < |s| && s[i] == '{' && i + 1 < j && MembersFrom(s, i + 1, j, ms)
    requires forall k :: 0 <= k < |ms| ==> Derives(s, ms[k].v, true)
    ensures Derives(s, Object(i, j, ms), true)
  {
    assert ObjectShape(s, i, j, ms, true) by { hide Apart, Blank, Last, RawKey, Derives; }
    hide ObjectShape, MembersFrom;
  }

  lemma ValueOfOthers(s: string, i: nat, fits: string -> bool)
    requires i < |s| && s[i] != '[' && s[i] != '{'
    ensures Value(s, i, fits) == Scalar(s, i, fits)
  {
    hide Scalar, Elements, Members;
  }

  lemma {:induction false} ValueDerives(s: string, i: nat, fits: string -> bool) returns (t: Tree)
    requires i < |s| && Value(s, i, fits).Some?
    ensures t.i == i && t.j == Value(s, i, fits).value.1 && Derives(s, t, true) && i < t.j <= |s|
    decreases |s| - i, 1
  {
    hide *;
    ValueOf(s, i, fits);
    if s[i] == '[' {
      var vs := ElementsDerive(s, i + 1, [], fits);
      t := Array(i, Elements(s, i + 1, [], fits).value.1, vs);
      ArrayDerived(s, i, t.j, vs);
    } else if s[i] == '{' {
      var ms := MembersDerive(s, i + 1, [], fits);
      t := Object(i, Members(s, i + 1, [], fits).value.1, ms);
      ObjectDerived(s, i, t.j, ms);
    } else {
      ValueOfOthers(s, i, fits);
      t := ScalarDerives(s, i, fits);
    }
    InText(s, t);
  }

  /** The accepted texts are exactly those of RFC 8259 relaxed in three ways - a comma may follow the last
      item, a key is any text without a quote, and strings may hold control characters - whose numbers fit and
      whose surrogates are paired, and the tree read is what the text means. */
  lemma AcceptedIff(s: string, fits: string -> bool, v: Json)
    ensures Document(s, fits) == Some(v) <==>
      exists t :: DerivesText(s, t, true) && Readable(s, t, fits) && Meaning(s, t, true) == v
  {
    hide Document, Readable, Meaning, Derives;
    forall t | DerivesText(s, t, true) && Readable(s, t, fits) && Meaning(s, t, true) == v
      ensures Document(s, fits) == Some(v)
    {
      TextReadsIff(s, t, fits);
    }
    if Document(s, fits) == Some(v) {
      var t := DocumentDerives(s, fits);
      TextReadsIff(s, t, fits);
    }
  }

  lemma DocumentDerives(s: string, fits: string -> bool) returns (t: Tree)
    requires Document(s, fits).Some?
    ensures DerivesText(s, t, true)
  {
    var i := SkipSpace(s, 0);
    SkipIsBlank(s, 0);
    t := ValueDerives(s, i, fits);
    SkipIsBlank(s, t.j);
  }
}
