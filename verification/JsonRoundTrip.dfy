/** Parsing what the printers print. */
module JsonRoundTrip {
  import opened Options
  import opened JsonText
  import opened JsonGrammar
  import opened JsonPrinter
  import opened JsonLexer

  /** A tree without doubles whose integers fit 64 bits. */
  predicate NoDoubles(j: Json)
    decreases j, 0
  {
    match j
    case Int(i) => INT64_MIN <= i < 0x8000_0000_0000_0000
    case Double(_) => false
    case Arr(vs) => forall i :: 0 <= i < |vs| ==> NoDoubles(vs[i])
    case Obj(ms) => forall i :: 0 <= i < |ms| ==> NoDoubles(ms[i].val)
    case _ => true
  }

  predicate PlainKey(key: string) {
    '"' !in key && '\0' !in key
  }

  /** No key contains a quote or a NUL. */
  predicate PlainKeys(j: Json)
    decreases j, 0
  {
    match j
    case Arr(vs) => forall i :: 0 <= i < |vs| ==> PlainKeys(vs[i])
    case Obj(ms) => forall i :: 0 <= i < |ms| ==> PlainKey(ms[i].key) && PlainKeys(ms[i].val)
    case _ => true
  }

  /** A character that cannot continue a number. */
  predicate Stops(s: string, k: nat) {
    k >= |s| || !(IsDigit(s[k]) || s[k] == '.' || s[k] == 'e' || s[k] == 'E')
  }

  lemma IsAtParts(s: string, i: nat, a: string, b: string)
    requires IsAt(s, i, a + b)
    ensures IsAt(s, i, a) && IsAt(s, i + |a|, b)
  {
    assert s[i..i + |a|] == s[i..i + |a + b|][..|a|];
    assert s[i + |a|..i + |a| + |b|] == s[i..i + |a + b|][|a|..];
  }

  lemma IsAtChar(s: string, i: nat, t: string, x: nat)
    requires IsAt(s, i, t) && x < |t|
    ensures i + x < |s| && s[i + x] == t[x]
  {
    assert s[i..i + |t|][x] == s[i + x];
  }

  // ----- integers

  lemma {:induction false} DecimalIsPlain(n: nat)
    ensures var t := Decimal(n);
      t != "" && DecimalValue(t) == n && (forall x :: 0 <= x < |t| ==> IsDigit(t[x])) && (|t| > 1 ==> t[0] != '0')
      && (t[0] == '0' ==> n == 0)
  {
    var t := Decimal(n);
    if n < 10 {
      assert t[..0] == "" && DecimalValue("") == 0;
    } else {
      DecimalIsPlain(n / 10);
      DecimalStep(Decimal(n / 10), t[|t| - 1]);
      assert t == Decimal(n / 10) + [t[|t| - 1]];
    }
  }

  lemma {:induction false} DigitsEndIs(s: string, i: nat, k: nat)
    requires i <= k <= |s| && (forall x :: i <= x < k ==> IsDigit(s[x])) && (k == |s| || !IsDigit(s[k]))
    ensures DigitsEnd(s, i) == k
    decreases k - i
  {
    if i < k { DigitsEndIs(s, i + 1, k); }
  }

  lemma SmallIntStays(z: int)
    requires INT64_MIN <= z < 0x8000_0000_0000_0000
    ensures ToInt64(z) == z
  {
    if z < 0 { assert z == 0x1_0000_0000_0000_0000 * -1 + (z + 0x1_0000_0000_0000_0000); }
  }

  lemma IntTextValue(z: int)
    ensures IsInteger(IntText(z)) && IntegerValue(IntText(z)) == z
  {
    var d := Decimal(if z < 0 then -z else z);
    DecimalIsPlain(if z < 0 then -z else z);
    hide Decimal, DecimalValue;
    if z < 0 { assert ("-" + d)[1..] == d; }
  }

  predicate Plain(d: string) {
    d != "" && (forall x :: 0 <= x < |d| ==> IsDigit(d[x])) && (|d| > 1 ==> d[0] != '0')
  }

  function Signed(neg: bool, d: string): string {
    if neg then "-" + d else d
  }

  lemma IntShape(neg: bool, d: string, s: string, i: nat)
    requires Plain(d) && IsAt(s, i, Signed(neg, d)) && Stops(s, i + |Signed(neg, d)|)
    ensures i < |s| && (s[i] == '-' || IsDigit(s[i]))
    ensures NumberShape(s, i) == Some((i + |Signed(neg, d)|, false))
  {
    var t := Signed(neg, d);
    var p0, k := if neg then i + 1 else i, i + |t|;
    forall x | p0 <= x < k ensures s[x] == d[x - p0] && IsDigit(s[x]) {
      IsAtChar(s, i, t, x - i);
    }
    IsAtChar(s, i, t, 0);
    DigitsEndIs(s, p0, k);
    assert s[p0] == '0' ==> |d| == 1;
  }

  lemma IntShapeAt(z: int, s: string, i: nat)
    requires IsAt(s, i, IntText(z)) && Stops(s, i + |IntText(z)|)
    ensures i < |s| && (s[i] == '-' || IsDigit(s[i]))
    ensures NumberShape(s, i) == Some((i + |IntText(z)|, false))
  {
    var n := if z < 0 then -z else z;
    assert IntText(z) == Signed(z < 0, Decimal(n)) && Plain(Decimal(n)) by {
      hide NumberShape, IsAt, Stops;
      DecimalIsPlain(n);
    }
    hide *;
    IntShape(z < 0, Decimal(n), s, i);
  }

  lemma IntParses(z: int, s: string, i: nat, fits: string -> bool)
    requires INT64_MIN <= z < 0x8000_0000_0000_0000
    requires IsAt(s, i, IntText(z)) && Stops(s, i + |IntText(z)|)
    ensures i < |s| && (s[i] == '-' || IsDigit(s[i]))
    ensures Number(s, i, fits) == Some((Int(z), i + |IntText(z)|))
  {
    hide NumberShape, IsInteger, IntegerValue, ToInt64, IntText, Stops;
    IntShapeAt(z, s, i);
    IntTextValue(z);
    SmallIntStays(z);
    assert s[i..i + |IntText(z)|] == IntText(z);
  }

  // ----- strings and keys

  lemma {:induction false} StringParses(t: string, s: string, i: nat)
    requires IsAt(s, i, Escaped(t) + "\"")
    ensures StringBody(s, i) == Some((t, i + |Escaped(t)| + 1))
    decreases |t|
  {
    hide EscapedChar, StringBody, IsAt, EscapeCode;
    if t == "" {
      assert Escaped(t) + "\"" == "\"";
      EndParses(s, i);
    } else {
      EscapedSplit(t);
      hide Escaped;
      var head, rest := EscapedChar(t[0]), Escaped(t[1..]);
      Regroup3(head, rest, "\"");
      IsAtParts(s, i, head, rest + "\"");
      StringParses(t[1..], s, i + |head|);
      CharParses(t[0], s, i);
      assert [t[0]] + t[1..] == t;
    }
  }

  lemma EndParses(s: string, i: nat)
    requires IsAt(s, i, "\"")
    ensures StringBody(s, i) == Some(("", i + 1))
  {
    IsAtChar(s, i, "\"", 0);
  }

  lemma {:induction false} EscapedSplit(t: string)
    requires t != ""
    ensures Escaped(t) == EscapedChar(t[0]) + Escaped(t[1..])
  {
  }

  function EscapedChar(c: char): string {
    if EscapeCode(c) == '\0' then [c] else ['\\', EscapeCode(c)]
  }

  lemma CharParses(c: char, s: string, i: nat)
    requires IsAt(s, i, EscapedChar(c))
    ensures StringBody(s, i) == Prepend([c], StringBody(s, i + |EscapedChar(c)|))
  {
    var head := EscapedChar(c);
    UnescapeInverts(c);
    hide EscapeCode, Unescape;
    IsAtChar(s, i, head, 0);
    IsAtChar(s, i, head, |head| - 1);
  }

  /** Unescaping inverts escaping, and no escape code is taken for a Unicode escape. */
  lemma UnescapeInverts(c: char)
    ensures EscapeCode(c) != '\0' ==> Unescape(EscapeCode(c)) == c && EscapeCode(c) != 'u' && c != '\0'
    ensures c == '"' || c == '\\' ==> EscapeCode(c) != '\0'
  {
  }

  lemma {:induction false} FindIs(s: string, i: nat, k: nat, c: char)
    requires i <= k < |s| && s[k] == c && forall x :: i <= x < k ==> s[x] != c
    ensures Find(s, i, c) == k
    decreases k - i
  {
    if i < k { FindIs(s, i + 1, k, c); }
  }

  lemma SkipsNothing(s: string, i: nat)
    requires i < |s| && !IsSpace(s[i])
    ensures SkipSpace(s, i) == i
  {
  }

  lemma SkipsTo(s: string, i: nat, k: nat)
    requires i <= k < |s| && !IsSpace(s[k]) && forall x :: i <= x < k ==> IsSpace(s[x])
    ensures SkipSpace(s, i) == k
  {
    SkipSpaceFrom(s, i, k);
  }

  /** A printed gap is white space. */
  lemma GapIsSpace(g: string, s: string, i: nat, k: nat)
    requires IsAt(s, i, g) && k == i + |g| && k < |s| && !IsSpace(s[k])
    requires forall x :: 0 <= x < |g| ==> IsSpace(g[x])
    ensures SkipSpace(s, i) == k
  {
    forall x | i <= x < k ensures IsSpace(s[x]) {
      IsAtChar(s, i, g, x - i);
    }
    SkipsTo(s, i, k);
  }

  lemma GapsAreSpaces(lay: Layout, n: nat)
    ensures forall x :: 0 <= x < |Gap(lay, n)| ==> IsSpace(Gap(lay, n)[x])
    ensures forall x :: 0 <= x < |Tail(lay, n)| ==> IsSpace(Tail(lay, n)[x])
  {
  }

  /** The first character of a printed value tells it from a closing bracket and from white space. */
  lemma PrintStarts(j: Json, lay: Layout, n: nat)
    requires NoDoubles(j)
    ensures var t := Print(j, lay, n); t != "" && !IsSpace(t[0]) && t[0] != ']' && t[0] != '}' && t[0] != ','
  {
    hide PrintElements, PrintMembers, Tail;
    if j.Int? { DecimalIsPlain(if j.i < 0 then -j.i else j.i); }
  }

  /** Where the characters of a printed key land. */
  lemma KeyTextAt(key: string, lay: Layout, s: string, i: nat)
    requires IsAt(s, i, KeyText(key, lay))
    ensures var c, k := CString(key), i + |KeyText(key, lay)|; var q := i + 1 + |c|;
      && q + 2 <= k <= |s| && s[i] == '"' && s[i + 1..q] == c && s[q] == '"' && s[q + 1] == ':'
      && forall x :: q + 2 <= x < k ==> s[x] == ' '
  {
    hide CString;
    var c, gap := CString(key), if lay.Pretty? then " " else "";
    assert KeyText(key, lay) == "\"" + (c + ("\":" + gap));
    IsAtParts(s, i, "\"", c + ("\":" + gap));
    IsAtParts(s, i + 1, c, "\":" + gap);
    IsAtChar(s, i, "\"", 0);
  }

  /** Reading back a printed key gives the key up to its first NUL or quote. */
  lemma KeyParses(key: string, lay: Layout, s: string, i: nat)
    requires IsAt(s, i, KeyText(key, lay)) && '"' !in CString(key)
    requires var k := i + |KeyText(key, lay)|; k < |s| && !IsSpace(s[k])
    ensures i < |s| && s[i] == '"' && Key(s, i) == Some((CString(key), i + |KeyText(key, lay)|))
  {
    var c, k := CString(key), i + |KeyText(key, lay)|;
    KeyTextAt(key, lay, s, i);
    hide CString, KeyText;
    var q := i + 1 + |c|;
    forall x | i + 1 <= x < q ensures s[x] != '"' {
      assert s[x] == c[x - i - 1];
    }
    FindIs(s, i + 1, q, '"');
    SkipsNothing(s, q + 1);
    SkipsTo(s, q + 2, k);
  }

  // ----- values

  /** What follows the first of several printed items. */
  function ElementsRest(vs: seq<Json>, lay: Layout, n: nat): string
    requires vs != []
  {
    (if |vs| == 1 then "" else "," + PrintElements(vs[1..], lay, n)) + Tail(lay, n) + "]"
  }

  function MembersRest(ms: seq<Member>, lay: Layout, n: nat): string
    requires ms != []
  {
    (if |ms| == 1 then "" else "," + PrintMembers(ms[1..], lay, n)) + Tail(lay, n) + "}"
  }

  lemma Regroup(g: string, p: string, r: string, t: string, c: string)
    ensures g + p + r + t + c == g + (p + (r + t + c))
  {
    assert g + p + r == g + (p + r);
    assert g + (p + r) + t == g + (p + (r + t));
  }

  lemma Regroup3(a: string, b: string, c: string)
    ensures a + b + c == a + (b + c)
  {
  }

  lemma ElementsSplit(vs: seq<Json>, lay: Layout, n: nat)
    requires vs != []
    ensures PrintElements(vs, lay, n) + Tail(lay, n) + "]" ==
            Gap(lay, n) + (Print(vs[0], lay, Deeper(lay, n)) + ElementsRest(vs, lay, n))
    ensures |vs| > 1 ==> ElementsRest(vs, lay, n) == "," + (PrintElements(vs[1..], lay, n) + Tail(lay, n) + "]")
  {
    hide PrintElements, Print, Tail, Gap;
    ElementsUnfold(vs, lay, n);
    var r := if |vs| == 1 then "" else "," + PrintElements(vs[1..], lay, n);
    Regroup(Gap(lay, n), Print(vs[0], lay, Deeper(lay, n)), r, Tail(lay, n), "]");
    if |vs| > 1 {
      Regroup3(",", PrintElements(vs[1..], lay, n), Tail(lay, n));
      Regroup3(",", PrintElements(vs[1..], lay, n) + Tail(lay, n), "]");
    }
  }

  lemma MembersSplit(ms: seq<Member>, lay: Layout, n: nat)
    requires ms != []
    ensures PrintMembers(ms, lay, n) + Tail(lay, n) + "}" ==
            Gap(lay, n) + (KeyText(ms[0].key, lay) + (Print(ms[0].val, lay, Deeper(lay, n)) + MembersRest(ms, lay, n)))
    ensures |ms| > 1 ==> MembersRest(ms, lay, n) == "," + (PrintMembers(ms[1..], lay, n) + Tail(lay, n) + "}")
  {
    hide PrintMembers, Print, Tail, Gap, KeyText;
    MembersUnfold(ms, lay, n);
    var r := if |ms| == 1 then "" else "," + PrintMembers(ms[1..], lay, n);
    var g, k, p := Gap(lay, n), KeyText(ms[0].key, lay), Print(ms[0].val, lay, Deeper(lay, n));
    Regroup(g + k, p, r, Tail(lay, n), "}");
    Regroup3(g, k, p + (r + Tail(lay, n) + "}"));
    if |ms| > 1 {
      Regroup3(",", PrintMembers(ms[1..], lay, n), Tail(lay, n));
      Regroup3(",", PrintMembers(ms[1..], lay, n) + Tail(lay, n), "}");
    }
  }

  /** After the last item comes white space and the closing bracket, which no number swallows. */
  lemma TailParses(lay: Layout, n: nat, close: string, s: string, i: nat)
    requires |close| == 1 && (close[0] == ']' || close[0] == '}') && IsAt(s, i, Tail(lay, n) + close)
    ensures Stops(s, i) && SkipSpace(s, i) == i + |Tail(lay, n)| < |s| && s[i + |Tail(lay, n)|] == close[0]
  {
    var t := Tail(lay, n);
    GapsAreSpaces(lay, n);
    IsAtParts(s, i, t, close);
    IsAtChar(s, i + |t|, close, 0);
    GapIsSpace(t, s, i, i + |t|);
    IsAtChar(s, i, t + close, 0);
    assert t != "" ==> (t + close)[0] == '\n';
  }

  lemma ScalarParses(j: Json, lay: Layout, n: nat, s: string, i: nat, fits: string -> bool)
    requires NoDoubles(j) && !j.Arr? && !j.Obj?
    requires IsAt(s, i, Print(j, lay, n)) && Stops(s, i + |Print(j, lay, n)|)
    ensures i < |s| && Value(s, i, fits) == Some((j, i + |Print(j, lay, n)|))
  {
    hide Escaped, Elements, Members, StringBody, Number, IntText;
    var t := Print(j, lay, n);
    PrintStarts(j, lay, n);
    IsAtChar(s, i, t, 0);
    match j
    case Null =>
    case Bool(b) =>
    case Int(z) => IntParses(z, s, i, fits);
    case Str(x) =>
      Regroup3("\"", Escaped(x), "\"");
      IsAtParts(s, i, "\"", Escaped(x) + "\"");
      StringParses(x, s, i + 1);
  }

  lemma {:induction false} ValueParses(j: Json, lay: Layout, n: nat, s: string, i: nat, fits: string -> bool)
    requires NoDoubles(j) && PlainKeys(j)
    requires IsAt(s, i, Print(j, lay, n)) && Stops(s, i + |Print(j, lay, n)|)
    ensures i < |s| && Value(s, i, fits) == Some((j, i + |Print(j, lay, n)|))
    decreases j, 0
  {
    hide PrintElements, PrintMembers, Tail, Elements, Members, Scalar;
    match j
    case Arr(vs) =>
      if vs == [] {
        EmptyContainer(j, lay, n, s, i, fits);
      } else {
        OpenContainer("[", PrintElements(vs, lay, n), Tail(lay, n), "]", s, i);
        ElementsParse(vs, [], lay, n, s, i + 1, fits);
        assert [] + vs == vs;
      }
    case Obj(ms) =>
      if ms == [] {
        EmptyContainer(j, lay, n, s, i, fits);
      } else {
        OpenContainer("{", PrintMembers(ms, lay, n), Tail(lay, n), "}", s, i);
        MembersParse(ms, [], lay, n, s, i + 1, fits);
        assert [] + ms == ms;
      }
    case _ => ScalarParses(j, lay, n, s, i, fits);
  }

  lemma OpenContainer(open: string, items: string, tail: string, close: string, s: string, i: nat)
    requires IsAt(s, i, open + items + tail + close) && |open| == 1
    ensures i < |s| && s[i] == open[0] && IsAt(s, i + 1, items + tail + close)
    ensures |open + items + tail + close| == 1 + |items + tail + close|
  {
    assert open + items + tail + close == open + (items + tail + close);
    IsAtParts(s, i, open, items + tail + close);
    IsAtChar(s, i, open, 0);
  }

  lemma EmptyContainer(j: Json, lay: Layout, n: nat, s: string, i: nat, fits: string -> bool)
    requires j == Arr([]) || j == Obj([])
    requires IsAt(s, i, Print(j, lay, n))
    ensures i < |s| && Value(s, i, fits) == Some((j, i + |Print(j, lay, n)|))
  {
    var t := Print(j, lay, n);
    IsAtChar(s, i, t, 0);
    IsAtChar(s, i, t, 1);
    if j.Arr? { EmptyArray(s, i + 1, fits); } else { EmptyObject(s, i + 1, fits); }
  }

  lemma EmptyArray(s: string, i: nat, fits: string -> bool)
    requires i < |s| && s[i] == ']'
    ensures Elements(s, i, [], fits) == Some((Arr([]), i + 1))
  {
  }

  lemma EmptyObject(s: string, i: nat, fits: string -> bool)
    requires i < |s| && s[i] == '}'
    ensures Members(s, i, [], fits) == Some((Obj([]), i + 1))
  {
  }

  /** The position of the first item after its gap. */
  lemma GapParses(lay: Layout, n: nat, j: string, rest: string, s: string, i: nat)
    requires IsAt(s, i, Gap(lay, n) + (j + rest)) && j != "" && !IsSpace(j[0])
    ensures var k := i + |Gap(lay, n)|;
      k < |s| && s[k] == j[0] && SkipSpace(s, i) == k && IsAt(s, k, j) && IsAt(s, k + |j|, rest)
  {
    var g := Gap(lay, n);
    GapsAreSpaces(lay, n);
    IsAtParts(s, i, g, j + rest);
    IsAtParts(s, i + |g|, j, rest);
    IsAtChar(s, i + |g|, j, 0);
    GapIsSpace(g, s, i, i + |g|);
  }

  lemma ReadElement(s: string, i: nat, k: nat, acc: seq<Json>, v: Json, e: nat, fits: string -> bool)
    requires i <= k < |s| && SkipSpace(s, i) == k && s[k] != ']' && Value(s, k, fits) == Some((v, e))
    ensures Elements(s, i, acc, fits) == AfterElement(s, e, acc + [v], fits)
  {
  }

  lemma ReadMember(s: string, i: nat, k: nat, acc: seq<Member>, key: string, p: nat, v: Json, e: nat,
      fits: string -> bool)
    requires i <= k < |s| && SkipSpace(s, i) == k && s[k] != '}' && Key(s, k) == Some((key, p))
    requires Value(s, p, fits) == Some((v, e))
    ensures Members(s, i, acc, fits) == AfterMember(s, e, acc + [Member(key, v)], fits)
  {
  }

  lemma {:induction false} ElementsParse(vs: seq<Json>, acc: seq<Json>, lay: Layout, n: nat, s: string, i: nat,
      fits: string -> bool)
    requires vs != [] && (forall x :: 0 <= x < |vs| ==> NoDoubles(vs[x]) && PlainKeys(vs[x]))
    requires IsAt(s, i, PrintElements(vs, lay, n) + Tail(lay, n) + "]")
    ensures Elements(s, i, acc, fits) == Some((Arr(acc + vs), i + |PrintElements(vs, lay, n) + Tail(lay, n) + "]"|))
    decreases vs, 1
  {
    hide Print, PrintElements, Tail, Gap, NoDoubles, PlainKeys, Value, Elements, IsAt, Stops;
    var p, rest := Print(vs[0], lay, Deeper(lay, n)), ElementsRest(vs, lay, n);
    ElementsSplit(vs, lay, n);
    PrintStarts(vs[0], lay, Deeper(lay, n));
    GapParses(lay, n, p, rest, s, i);
    var k := i + |Gap(lay, n)|;
    var e := k + |p|;
    if |vs| == 1 {
      assert rest == Tail(lay, n) + "]";
      TailParses(lay, n, "]", s, e);
      ValueParses(vs[0], lay, Deeper(lay, n), s, k, fits);
      ReadElement(s, i, k, acc, vs[0], e, fits);
      assert acc + vs == acc + [vs[0]];
    } else {
      CommaParses(PrintElements(vs[1..], lay, n) + Tail(lay, n) + "]", s, e);
      ValueParses(vs[0], lay, Deeper(lay, n), s, k, fits);
      ReadElement(s, i, k, acc, vs[0], e, fits);
      ElementsParse(vs[1..], acc + [vs[0]], lay, n, s, e + 1, fits);
      assert acc + [vs[0]] + vs[1..] == acc + vs;
    }
  }

  lemma CommaParses(rest: string, s: string, e: nat)
    requires IsAt(s, e, "," + rest)
    ensures Stops(s, e) && SkipSpace(s, e) == e < |s| && s[e] == ',' && IsAt(s, e + 1, rest)
  {
    IsAtParts(s, e, ",", rest);
    IsAtChar(s, e, ",", 0);
  }

  lemma {:induction false} MembersParse(ms: seq<Member>, acc: seq<Member>, lay: Layout, n: nat, s: string, i: nat,
      fits: string -> bool)
    requires ms != []
    requires forall x :: 0 <= x < |ms| ==> NoDoubles(ms[x].val) && PlainKey(ms[x].key) && PlainKeys(ms[x].val)
    requires IsAt(s, i, PrintMembers(ms, lay, n) + Tail(lay, n) + "}")
    ensures Members(s, i, acc, fits) == Some((Obj(acc + ms), i + |PrintMembers(ms, lay, n) + Tail(lay, n) + "}"|))
    decreases ms, 1
  {
    hide Print, PrintMembers, Tail, Gap, NoDoubles, PlainKeys, Value, KeyText, CString, Key, Members, IsAt, Stops,
        PlainKey;
    var m := ms[0];
    var t, p, rest := KeyText(m.key, lay), Print(m.val, lay, Deeper(lay, n)), MembersRest(ms, lay, n);
    MembersSplit(ms, lay, n);
    PlainKeyText(m.key, lay);
    GapParses(lay, n, t, p + rest, s, i);
    var k := i + |Gap(lay, n)|;
    var v := k + |t|;
    MemberKeyParses(m, lay, Deeper(lay, n), rest, s, k);
    var e := v + |p|;
    assert Member(m.key, m.val) == m;
    if |ms| == 1 {
      assert rest == Tail(lay, n) + "}";
      TailParses(lay, n, "}", s, e);
      ValueParses(m.val, lay, Deeper(lay, n), s, v, fits);
      ReadMember(s, i, k, acc, m.key, v, m.val, e, fits);
      assert acc + ms == acc + [m];
    } else {
      CommaParses(PrintMembers(ms[1..], lay, n) + Tail(lay, n) + "}", s, e);
      ValueParses(m.val, lay, Deeper(lay, n), s, v, fits);
      ReadMember(s, i, k, acc, m.key, v, m.val, e, fits);
      MembersParse(ms[1..], acc + [m], lay, n, s, e + 1, fits);
      assert acc + [m] + ms[1..] == acc + ms;
    }
  }

  lemma MemberKeyParses(m: Member, lay: Layout, n: nat, rest: string, s: string, k: nat)
    requires NoDoubles(m.val) && '"' !in CString(m.key)
    requires IsAt(s, k, KeyText(m.key, lay)) && IsAt(s, k + |KeyText(m.key, lay)|, Print(m.val, lay, n) + rest)
    ensures k < |s| && s[k] == '"' && Key(s, k) == Some((CString(m.key), k + |KeyText(m.key, lay)|))
    ensures IsAt(s, k + |KeyText(m.key, lay)|, Print(m.val, lay, n))
    ensures IsAt(s, k + |KeyText(m.key, lay)| + |Print(m.val, lay, n)|, rest)
  {
    hide Print, Key, KeyText, CString, NoDoubles;
    var v, p := k + |KeyText(m.key, lay)|, Print(m.val, lay, n);
    PrintStarts(m.val, lay, n);
    IsAtParts(s, v, p, rest);
    IsAtChar(s, v, p, 0);
    KeyParses(m.key, lay, s, k);
  }

  lemma PlainKeyText(key: string, lay: Layout)
    requires PlainKey(key)
    ensures CString(key) == key && '"' !in CString(key)
    ensures KeyText(key, lay) != "" && KeyText(key, lay)[0] == '"'
  {
    assert key[..|key|] == key;
  }

  /** The text that `str` prints for a tree, and the one that `pretty` prints with some indentation,
      are both read back as the same tree. */
  lemma ParseInvertsPrint(j: Json, lay: Layout, n: nat, fits: string -> bool)
    requires NoDoubles(j) && PlainKeys(j)
    ensures Document(Print(j, lay, n), fits) == Some(j)
  {
    hide Print, Value;
    var t := Print(j, lay, n);
    PrintStarts(j, lay, n);
    SkipsNothing(t, 0);
    assert t[0..0 + |t|] == t;
    ValueParses(j, lay, n, t, 0, fits);
  }

  // ----- the condition on keys is exact

  lemma {:induction false} ElementsKeep(s: string, i: nat, acc: seq<Json>, fits: string -> bool)
    requires i <= |s| && Elements(s, i, acc, fits).Some?
    ensures Elements(s, i, acc, fits).value.0.Arr? && acc <= Elements(s, i, acc, fits).value.0.vs
    decreases |s| - i
  {
    var k := SkipSpace(s, i);
    if s[k] != ']' {
      var (v, e) := Value(s, k, fits).value;
      AfterElementKeeps(s, e, acc + [v], fits);
    }
  }

  lemma {:induction false} AfterElementKeeps(s: string, e: nat, acc: seq<Json>, fits: string -> bool)
    requires e <= |s| && AfterElement(s, e, acc, fits).Some?
    ensures AfterElement(s, e, acc, fits).value.0.Arr? && acc <= AfterElement(s, e, acc, fits).value.0.vs
    decreases |s| - e, 1
  {
    hide Elements, Value, SkipSpace;
    var k := SkipSpace(s, e);
    if s[k] == ',' { ElementsKeep(s, k + 1, acc, fits); }
  }

  lemma {:induction false} MembersKeep(s: string, i: nat, acc: seq<Member>, fits: string -> bool)
    requires i <= |s| && Members(s, i, acc, fits).Some?
    ensures Members(s, i, acc, fits).value.0.Obj? && acc <= Members(s, i, acc, fits).value.0.ms
    decreases |s| - i
  {
    var k := SkipSpace(s, i);
    if s[k] != '}' {
      var (key, p) := Key(s, k).value;
      var (v, e) := Value(s, p, fits).value;
      AfterMemberKeeps(s, e, acc + [Member(key, v)], fits);
    }
  }

  lemma {:induction false} AfterMemberKeeps(s: string, e: nat, acc: seq<Member>, fits: string -> bool)
    requires e <= |s| && AfterMember(s, e, acc, fits).Some?
    ensures AfterMember(s, e, acc, fits).value.0.Obj? && acc <= AfterMember(s, e, acc, fits).value.0.ms
    decreases |s| - e, 1
  {
    hide Members, Value, Key, SkipSpace;
    var k := SkipSpace(s, e);
    if s[k] == ',' { MembersKeep(s, k + 1, acc, fits); }
  }

  /** The first element of an array that was read back. */
  lemma FirstElement(s: string, i: nat, k: nat, acc: seq<Json>, vs: seq<Json>, fits: string -> bool)
    requires vs != [] && i <= k < |s| && SkipSpace(s, i) == k && s[k] != ']'
    requires Elements(s, i, acc, fits).Some? && Elements(s, i, acc, fits).value.0 == Arr(acc + vs)
    ensures Value(s, k, fits).Some? && Value(s, k, fits).value.0 == vs[0]
    ensures var e := Value(s, k, fits).value.1; AfterElement(s, e, acc + [vs[0]], fits) == Elements(s, i, acc, fits)
  {
    var (v, e) := Value(s, k, fits).value;
    ReadElement(s, i, k, acc, v, e, fits);
    AfterElementKeeps(s, e, acc + [v], fits);
    assert (acc + vs)[|acc|] == (acc + [v])[|acc|];
  }

  lemma FirstMember(s: string, i: nat, k: nat, acc: seq<Member>, ms: seq<Member>, fits: string -> bool)
    requires ms != [] && i <= k < |s| && SkipSpace(s, i) == k && s[k] != '}'
    requires Members(s, i, acc, fits).Some? && Members(s, i, acc, fits).value.0 == Obj(acc + ms)
    ensures Key(s, k).Some? && Key(s, k).value.0 == ms[0].key
    ensures var p := Key(s, k).value.1;
      && Value(s, p, fits).Some? && Value(s, p, fits).value.0 == ms[0].val
      && AfterMember(s, Value(s, p, fits).value.1, acc + [ms[0]], fits) == Members(s, i, acc, fits)
  {
    var (key, p) := Key(s, k).value;
    var (v, e) := Value(s, p, fits).value;
    ReadMember(s, i, k, acc, key, p, v, e, fits);
    AfterMemberKeeps(s, e, acc + [Member(key, v)], fits);
    assert (acc + ms)[|acc|] == (acc + [Member(key, v)])[|acc|];
  }

  /** A key that is read back as it was has no quote and no NUL. */
  lemma KeyReadBackIsPlain(key: string, lay: Layout, s: string, k: nat)
    requires IsAt(s, k, KeyText(key, lay))
    requires var v := k + |KeyText(key, lay)|; v < |s| && !IsSpace(s[v])
    requires k < |s| && Key(s, k).Some? && Key(s, k).value.0 == key
    ensures PlainKey(key)
  {
    hide KeyText;
    var q := Find(s, k + 1, '"');
    assert key == s[k + 1..q];
    assert '"' !in key by {
      forall x | 0 <= x < |key| ensures key[x] != '"' {
        assert key[x] == s[k + 1 + x];
      }
    }
    assert '"' !in CString(key);
    KeyParses(key, lay, s, k);
    assert CString(key) == key;
    assert Find(key, 0, '\0') == |key|;
  }

  lemma {:induction false} ReadBackIsPlain(j: Json, lay: Layout, n: nat, s: string, i: nat, fits: string -> bool)
    requires NoDoubles(j)
    requires IsAt(s, i, Print(j, lay, n)) && i < |s|
    requires Value(s, i, fits).Some? && Value(s, i, fits).value.0 == j
    ensures PlainKeys(j)
    decreases j, 0
  {
    hide PrintElements, PrintMembers, Tail, Elements, Members, Scalar;
    match j
    case Arr(vs) =>
      if vs != [] {
        OpenContainer("[", PrintElements(vs, lay, n), Tail(lay, n), "]", s, i);
        assert [] + vs == vs;
        ElementsReadBack(vs, [], lay, n, s, i + 1, fits);
      }
    case Obj(ms) =>
      if ms != [] {
        OpenContainer("{", PrintMembers(ms, lay, n), Tail(lay, n), "}", s, i);
        assert [] + ms == ms;
        MembersReadBack(ms, [], lay, n, s, i + 1, fits);
      }
    case _ =>
  }

  lemma {:induction false} ElementsReadBack(vs: seq<Json>, acc: seq<Json>, lay: Layout, n: nat, s: string, i: nat,
      fits: string -> bool)
    requires vs != [] && (forall x :: 0 <= x < |vs| ==> NoDoubles(vs[x]))
    requires IsAt(s, i, PrintElements(vs, lay, n) + Tail(lay, n) + "]") && i <= |s|
    requires Elements(s, i, acc, fits).Some? && Elements(s, i, acc, fits).value.0 == Arr(acc + vs)
    ensures forall x :: 0 <= x < |vs| ==> PlainKeys(vs[x])
    decreases vs, 1
  {
    hide Print, PrintElements, Tail, Gap, NoDoubles, PlainKeys, Value, Elements, IsAt, Stops;
    var p, rest := Print(vs[0], lay, Deeper(lay, n)), ElementsRest(vs, lay, n);
    ElementsSplit(vs, lay, n);
    PrintStarts(vs[0], lay, Deeper(lay, n));
    GapParses(lay, n, p, rest, s, i);
    var k := i + |Gap(lay, n)|;
    FirstElement(s, i, k, acc, vs, fits);
    ReadBackIsPlain(vs[0], lay, Deeper(lay, n), s, k, fits);
    if |vs| > 1 {
      var e := k + |p|;
      CommaParses(PrintElements(vs[1..], lay, n) + Tail(lay, n) + "]", s, e);
      ValueParses(vs[0], lay, Deeper(lay, n), s, k, fits);
      assert acc + [vs[0]] + vs[1..] == acc + vs;
      ElementsReadBack(vs[1..], acc + [vs[0]], lay, n, s, e + 1, fits);
      assert forall x :: 1 <= x < |vs| ==> vs[x] == vs[1..][x - 1];
    }
  }

  lemma {:induction false} MembersReadBack(ms: seq<Member>, acc: seq<Member>, lay: Layout, n: nat, s: string, i: nat,
      fits: string -> bool)
    requires ms != [] && (forall x :: 0 <= x < |ms| ==> NoDoubles(ms[x].val))
    requires IsAt(s, i, PrintMembers(ms, lay, n) + Tail(lay, n) + "}") && i <= |s|
    requires Members(s, i, acc, fits).Some? && Members(s, i, acc, fits).value.0 == Obj(acc + ms)
    ensures forall x :: 0 <= x < |ms| ==> PlainKey(ms[x].key) && PlainKeys(ms[x].val)
    decreases ms, 1
  {
    hide Print, PrintMembers, Tail, Gap, NoDoubles, PlainKeys, Value, KeyText, CString, Key, Members, IsAt, Stops,
        PlainKey;
    var m := ms[0];
    var t, p, rest := KeyText(m.key, lay), Print(m.val, lay, Deeper(lay, n)), MembersRest(ms, lay, n);
    MembersSplit(ms, lay, n);
    KeyTextStarts(m.key, lay);
    GapParses(lay, n, t, p + rest, s, i);
    var k := i + |Gap(lay, n)|;
    FirstMember(s, i, k, acc, ms, fits);
    var v := k + |t|;
    PrintStarts(m.val, lay, Deeper(lay, n));
    ValueStartsAt(p, rest, s, v);
    KeyReadBackIsPlain(m.key, lay, s, k);
    PlainKeyText(m.key, lay);
    MemberKeyParses(m, lay, Deeper(lay, n), rest, s, k);
    ReadBackIsPlain(m.val, lay, Deeper(lay, n), s, v, fits);
    if |ms| > 1 {
      var e := v + |p|;
      CommaParses(PrintMembers(ms[1..], lay, n) + Tail(lay, n) + "}", s, e);
      ValueParses(m.val, lay, Deeper(lay, n), s, v, fits);
      MoveHead(acc, ms);
      MembersReadBack(ms[1..], acc + [m], lay, n, s, e + 1, fits);
    }
  }

  lemma MoveHead(acc: seq<Member>, ms: seq<Member>)
    requires ms != []
    ensures acc + [ms[0]] + ms[1..] == acc + ms
    ensures forall x :: 1 <= x < |ms| ==> ms[x] == ms[1..][x - 1]
  {
  }

  lemma KeyTextStarts(key: string, lay: Layout)
    ensures KeyText(key, lay) != "" && KeyText(key, lay)[0] == '"'
  {
    hide CString;
  }

  lemma ValueStartsAt(p: string, rest: string, s: string, v: nat)
    requires IsAt(s, v, p + rest) && p != "" && !IsSpace(p[0])
    ensures v < |s| && !IsSpace(s[v])
  {
    IsAtChar(s, v, p + rest, 0);
  }

  /** For every tree without doubles, and for both printers: the printed text is read back as the same
      tree if and only if no key contains a quote or a NUL. */
  lemma RoundTripIffPlainKeys(j: Json, lay: Layout, n: nat, fits: string -> bool)
    requires NoDoubles(j)
    ensures Document(Print(j, lay, n), fits) == Some(j) <==> PlainKeys(j)
  {
    if PlainKeys(j) {
      ParseInvertsPrint(j, lay, n, fits);
    } else if Document(Print(j, lay, n), fits) == Some(j) {
      hide Print, Value, PlainKeys;
      var t := Print(j, lay, n);
      PrintStarts(j, lay, n);
      SkipsNothing(t, 0);
      assert t[0..0 + |t|] == t;
      ReadBackIsPlain(j, lay, n, t, 0, fits);
    }
  }
}
