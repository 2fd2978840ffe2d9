/** `_json2str` and `_json2pretty` of `src/json.cc`. */
module JsonPrinter {
  import opened JsonText

  /** `str` prints without white space; `pretty` puts each item on its own line. */
  datatype Layout = Compact | Pretty(indent: nat)

  function Spaces(n: nat): (t: string)
    ensures |t| == n && forall i :: 0 <= i < n ==> t[i] == ' '
  {
    seq(n, _ => ' ')
  }

  /** In front of each item of a container, `n` being the current indentation. */
  function Gap(lay: Layout, n: nat): string {
    if lay.Compact? then "" else "\n" + Spaces(n)
  }

  /** Between the last item and the closing bracket. */
  function Tail(lay: Layout, n: nat): string {
    if lay.Compact? then "" else "\n" + (if n > lay.indent then Spaces(n - lay.indent) else "")
  }

  function Colon(lay: Layout): string {
    if lay.Compact? then ":" else ": "
  }

  function Deeper(lay: Layout, n: nat): nat {
    if lay.Compact? then n else n + lay.indent
  }

  function Decimal(n: nat): string {
    if n < 10 then [('0' as nat + n) as char] else Decimal(n / 10) + [('0' as nat + n % 10) as char]
  }

  function IntText(i: int): string {
    if i < 0 then "-" + Decimal(-i) else Decimal(i)
  }

  function Escaped(s: string): string {
    if s == "" then ""
    else (if EscapeCode(s[0]) == '\0' then [s[0]] else ['\\', EscapeCode(s[0])]) + Escaped(s[1..])
  }

  /** A key is printed as a C string: up to its first NUL. */
  function CString(key: string): string {
    key[..Find(key, 0, '\0')]
  }

  function KeyText(key: string, lay: Layout): string {
    "\"" + CString(key) + "\"" + Colon(lay)
  }

  function Print(j: Json, lay: Layout, n: nat): string
    decreases j, 0
  {
    match j
    case Null => "null"
    case Bool(b) => if b then "true" else "false"
    case Int(i) => IntText(i)
    case Double(text) => text
    case Str(s) => "\"" + Escaped(s) + "\""
    case Arr(vs) => if vs == [] then "[]" else "[" + PrintElements(vs, lay, n) + Tail(lay, n) + "]"
    case Obj(ms) => if ms == [] then "{}" else "{" + PrintMembers(ms, lay, n) + Tail(lay, n) + "}"
  }

  function PrintElements(vs: seq<Json>, lay: Layout, n: nat): string
    requires vs != []
    decreases vs, 1
  {
    var first := Gap(lay, n) + Print(vs[0], lay, Deeper(lay, n));
    if |vs| == 1 then first else first + "," + PrintElements(vs[1..], lay, n)
  }

  function PrintMembers(ms: seq<Member>, lay: Layout, n: nat): string
    requires ms != []
    decreases ms, 1
  {
    var first := Gap(lay, n) + KeyText(ms[0].key, lay) + Print(ms[0].val, lay, Deeper(lay, n));
    if |ms| == 1 then first else first + "," + PrintMembers(ms[1..], lay, n)
  }

  function ElementText(v: Json, lay: Layout, n: nat): string {
    Gap(lay, n) + Print(v, lay, Deeper(lay, n))
  }

  function MemberText(m: Member, lay: Layout, n: nat): string {
    Gap(lay, n) + KeyText(m.key, lay) + Print(m.val, lay, Deeper(lay, n))
  }

  lemma ElementsUnfold(vs: seq<Json>, lay: Layout, n: nat)
    requires vs != []
    ensures PrintElements(vs, lay, n) ==
            ElementText(vs[0], lay, n) + (if |vs| == 1 then "" else "," + PrintElements(vs[1..], lay, n))
  {
    if |vs| > 1 {
      var a, b := ElementText(vs[0], lay, n), PrintElements(vs[1..], lay, n);
      assert a + "," + b == a + ("," + b);
    }
  }

  lemma MembersUnfold(ms: seq<Member>, lay: Layout, n: nat)
    requires ms != []
    ensures PrintMembers(ms, lay, n) ==
            MemberText(ms[0], lay, n) + (if |ms| == 1 then "" else "," + PrintMembers(ms[1..], lay, n))
  {
    if |ms| > 1 {
      var a, b := MemberText(ms[0], lay, n), PrintMembers(ms[1..], lay, n);
      assert a + "," + b == a + ("," + b);
    }
  }

  lemma {:induction false} PrintElementsAppend(vs: seq<Json>, v: Json, lay: Layout, n: nat)
    requires vs != []
    ensures PrintElements(vs + [v], lay, n) == PrintElements(vs, lay, n) + "," + ElementText(v, lay, n)
    decreases |vs|
  {
    hide PrintElements, ElementText;
    assert (vs + [v])[1..] == vs[1..] + [v];
    ElementsUnfold(vs + [v], lay, n);
    ElementsUnfold(vs, lay, n);
    if |vs| == 1 {
      assert vs[1..] + [v] == [v];
      ElementsUnfold([v], lay, n);
    } else {
      PrintElementsAppend(vs[1..], v, lay, n);
    }
  }

  lemma {:induction false} PrintMembersAppend(ms: seq<Member>, m: Member, lay: Layout, n: nat)
    requires ms != []
    ensures PrintMembers(ms + [m], lay, n) == PrintMembers(ms, lay, n) + "," + MemberText(m, lay, n)
    decreases |ms|
  {
    hide PrintMembers, MemberText;
    assert (ms + [m])[1..] == ms[1..] + [m];
    MembersUnfold(ms + [m], lay, n);
    MembersUnfold(ms, lay, n);
    if |ms| == 1 {
      assert ms[1..] + [m] == [m];
      MembersUnfold([m], lay, n);
    } else {
      PrintMembersAppend(ms[1..], m, lay, n);
    }
  }

  /** What has been appended after the items `vs`: each of them followed by a comma. */
  function ElementsSoFar(vs: seq<Json>, lay: Layout, n: nat): string {
    if vs == [] then "" else PrintElements(vs, lay, n) + ","
  }

  function MembersSoFar(ms: seq<Member>, lay: Layout, n: nat): string {
    if ms == [] then "" else PrintMembers(ms, lay, n) + ","
  }

  lemma ElementsGrow(vs: seq<Json>, i: nat, lay: Layout, n: nat)
    requires i < |vs|
    ensures ElementsSoFar(vs[..i + 1], lay, n) == ElementsSoFar(vs[..i], lay, n) + ElementText(vs[i], lay, n) + ","
  {
    hide PrintElements, ElementText;
    assert vs[..i + 1] == vs[..i] + [vs[i]];
    if i > 0 {
      PrintElementsAppend(vs[..i], vs[i], lay, n);
    } else {
      ElementsUnfold(vs[..1], lay, n);
    }
  }

  lemma MembersGrow(ms: seq<Member>, i: nat, lay: Layout, n: nat)
    requires i < |ms|
    ensures MembersSoFar(ms[..i + 1], lay, n) == MembersSoFar(ms[..i], lay, n) + MemberText(ms[i], lay, n) + ","
  {
    hide PrintMembers, MemberText;
    assert ms[..i + 1] == ms[..i] + [ms[i]];
    if i > 0 {
      PrintMembersAppend(ms[..i], ms[i], lay, n);
    } else {
      MembersUnfold(ms[..1], lay, n);
    }
  }

  lemma ObjectText(ms: seq<Member>, lay: Layout, n: nat)
    ensures Print(Obj(ms), lay, n) ==
            if ms == [] then "{}" else "{" + PrintMembers(ms, lay, n) + Tail(lay, n) + "}"
  {
  }

  lemma ArrayText(vs: seq<Json>, lay: Layout, n: nat)
    ensures Print(Arr(vs), lay, n) ==
            if vs == [] then "[]" else "[" + PrintElements(vs, lay, n) + Tail(lay, n) + "]"
  {
  }

  // ----- the methods

  /** `find_escapse`: the first character from `b` on that needs an escape, eight at a time, then
      four, then one by one. */
  method FindEscape(s: string, from: nat) returns (i: nat, c: char)
    requires from <= |s|
    ensures from <= i <= |s| && forall x :: from <= x < i ==> EscapeCode(s[x]) == '\0'
    ensures i < |s| ==> c == EscapeCode(s[i]) != '\0'
  {
    var b, e := from, |s|;
    c := '\0';
    while b + 8 <= e
      invariant from <= b <= e && forall x :: from <= x < b ==> EscapeCode(s[x]) == '\0'
    {
      for k := 0 to 8
        invariant forall x :: from <= x < b + k ==> EscapeCode(s[x]) == '\0'
      {
        if EscapeCode(s[b + k]) != '\0' { return b + k, EscapeCode(s[b + k]); }
      }
      b := b + 8;
    }
    if b + 4 <= e {
      for k := 0 to 4
        invariant forall x :: from <= x < b + k ==> EscapeCode(s[x]) == '\0'
      {
        if EscapeCode(s[b + k]) != '\0' { return b + k, EscapeCode(s[b + k]); }
      }
      b := b + 4;
    }
    while b < e
      invariant from <= b <= e && forall x :: from <= x < b ==> EscapeCode(s[x]) == '\0'
    {
      if EscapeCode(s[b]) != '\0' { return b, EscapeCode(s[b]); }
      b := b + 1;
    }
    return e, c;
  }

  lemma {:induction false} EscapedRun(s: string, i: nat)
    requires i <= |s| && forall x :: 0 <= x < i ==> EscapeCode(s[x]) == '\0'
    ensures Escaped(s) == s[..i] + Escaped(s[i..])
    decreases i
  {
    if i > 0 {
      EscapedRun(s[1..], i - 1);
      assert s[1..][i - 1..] == s[i..] && s[..i] == [s[0]] + s[1..][..i - 1];
    } else {
      assert s[0..] == s;
    }
  }

  lemma EscapedAt(s: string, at: nat, p: nat)
    requires at <= p <= |s| && forall x :: at <= x < p ==> EscapeCode(s[x]) == '\0'
    requires p < |s| ==> EscapeCode(s[p]) != '\0'
    ensures Escaped(s[at..]) ==
            s[at..p] + (if p < |s| then ['\\', EscapeCode(s[p])] + Escaped(s[p + 1..]) else "")
  {
    EscapedRun(s[at..], p - at);
    assert s[at..][..p - at] == s[at..p] && s[at..][p - at..] == s[p..];
    if p < |s| { assert s[p..][1..] == s[p + 1..]; }
  }

  method PrintString(s: string, fs: string) returns (out: string)
    ensures out == fs + "\"" + Escaped(s) + "\""
  {
    hide Escaped;
    out := fs + "\"";
    var at := 0;
    assert s[0..] == s;
    var p, c := FindEscape(s, at);
    while p < |s|
      invariant at <= p <= |s| && forall x :: at <= x < p ==> EscapeCode(s[x]) == '\0'
      invariant p < |s| ==> c == EscapeCode(s[p]) != '\0'
      invariant out + Escaped(s[at..]) == fs + "\"" + Escaped(s)
      decreases |s| - at
    {
      EscapedAt(s, at, p);
      ghost var before, rest := out, Escaped(s[p + 1..]);
      out := out + s[at..p] + ['\\'] + [c];
      assert before + (s[at..p] + (['\\', c] + rest)) == out + rest;
      at := p + 1;
      p, c := FindEscape(s, at);
    }
    EscapedAt(s, at, |s|);
    assert s[at..|s|] == s[at..] && s[at..] + "" == s[at..];
    out := out + s[at..] + "\"";
  }

  /** `_json2str`: each item is followed by a comma, and the closing bracket overwrites the last one. */
  method Json2Str(j: Json, fs: string) returns (out: string)
    ensures out == fs + Print(j, Compact, 0)
    decreases j, 1
  {
    match j
    case Null => out := fs + "null";
    case Str(s) => out := PrintString(s, fs);
    case Int(i) => out := fs + IntText(i);
    case Bool(b) => out := fs + (if b then "true" else "false");
    case Double(text) => out := fs + text;
    case Obj(ms) => out := Object2Str(j, fs);
    case Arr(vs) => out := Array2Str(j, fs);
  }

  method Object2Str(j: Json, fs: string) returns (out: string)
    requires j.Obj?
    ensures out == fs + Print(j, Compact, 0)
    decreases j, 0
  {
    hide Print, PrintMembers, MemberText, CString, MembersSoFar;
    var ms := j.ms;
    NoMembersSoFar();
    out := fs + "{";
    for i := 0 to |ms|
      invariant out == fs + "{" + MembersSoFar(ms[..i], Compact, 0)
    {
      MembersGrow(ms, i, Compact, 0);
      CompactMember(out, ms[i]);
      Append3(fs + "{", MembersSoFar(ms[..i], Compact, 0), MemberText(ms[i], Compact, 0), ",");
      out := out + "\"" + CString(ms[i].key) + "\"" + ":";
      out := Json2Str(ms[i].val, out);
      out := out + ",";
    }
    assert ms[..|ms|] == ms;
    CompactClose(out, fs, ms);
    out := if out[|out| - 1] == ',' then out[..|out| - 1] + "}" else out + "}";
  }

  method Array2Str(j: Json, fs: string) returns (out: string)
    requires j.Arr?
    ensures out == fs + Print(j, Compact, 0)
    decreases j, 0
  {
    hide Print, PrintElements;
    var vs := j.vs;
    out := fs + "[";
    for i := 0 to |vs|
      invariant out == fs + "[" + ElementsSoFar(vs[..i], Compact, 0)
    {
      ElementsGrow(vs, i, Compact, 0);
      ghost var before := out;
      out := Json2Str(vs[i], out);
      out := out + ",";
      assert out == before + ElementText(vs[i], Compact, 0) + ",";
      Append3(fs + "[", ElementsSoFar(vs[..i], Compact, 0), ElementText(vs[i], Compact, 0), ",");
    }
    assert vs[..|vs|] == vs;
    ArrayText(vs, Compact, 0);
    out := if out[|out| - 1] == ',' then out[..|out| - 1] + "]" else out + "]";
  }

  /** The layout makes no difference for what is not a container. */
  lemma ScalarLayout(j: Json, lay: Layout, n: nat)
    requires !j.Arr? && !j.Obj?
    ensures Print(j, lay, n) == Print(j, Compact, 0)
  {
  }

  /** `_json2pretty`: the last comma becomes a newline. */
  method Json2Pretty(j: Json, fs: string, indent: nat, n: nat) returns (out: string)
    ensures out == fs + Print(j, Pretty(indent), n)
    decreases j, 1
  {
    match j
    case Obj(ms) => out := Object2Pretty(j, fs, indent, n);
    case Arr(vs) => out := Array2Pretty(j, fs, indent, n);
    case _ =>
      ScalarLayout(j, Pretty(indent), n);
      out := Json2Str(j, fs);
  }

  method Object2Pretty(j: Json, fs: string, indent: nat, n: nat) returns (out: string)
    requires j.Obj?
    ensures out == fs + Print(j, Pretty(indent), n)
    decreases j, 0
  {
    hide Print, PrintMembers, MemberText, Spaces, Tail, CString;
    ghost var lay := Pretty(indent);
    var ms := j.ms;
    out := fs + "{";
    for i := 0 to |ms|
      invariant out == fs + "{" + MembersSoFar(ms[..i], lay, n)
    {
      MembersGrow(ms, i, lay, n);
      MemberLine(out, ms[i], indent, n);
      out := out + "\n" + Spaces(n);
      out := out + "\"" + CString(ms[i].key) + "\"" + ": ";
      out := Json2Pretty(ms[i].val, out, indent, n + indent);
      out := out + ",";
    }
    assert ms[..|ms|] == ms;
    ObjectText(ms, lay, n);
    if ms != [] { LineCloses(fs + "{", PrintMembers(ms, lay, n), indent, n); }
    out := CloseLine(out, indent, n) + "}";
  }

  method Array2Pretty(j: Json, fs: string, indent: nat, n: nat) returns (out: string)
    requires j.Arr?
    ensures out == fs + Print(j, Pretty(indent), n)
    decreases j, 0
  {
    hide Print, PrintElements, ElementText, Spaces, Tail;
    ghost var lay := Pretty(indent);
    var vs := j.vs;
    out := fs + "[";
    for i := 0 to |vs|
      invariant out == fs + "[" + ElementsSoFar(vs[..i], lay, n)
    {
      ElementsGrow(vs, i, lay, n);
      ElementLine(out, vs[i], indent, n);
      Append3(fs + "[", ElementsSoFar(vs[..i], lay, n), ElementText(vs[i], lay, n), ",");
      out := out + "\n" + Spaces(n);
      out := Json2Pretty(vs[i], out, indent, n + indent);
      out := out + ",";
    }
    assert vs[..|vs|] == vs;
    ArrayText(vs, lay, n);
    if vs != [] { LineCloses(fs + "[", PrintElements(vs, lay, n), indent, n); }
    out := CloseLine(out, indent, n) + "]";
  }

  lemma Append3(a: string, b: string, c: string, d: string)
    ensures a + b + c + d == a + (b + (c + d)) == a + (b + c + d)
  {
  }

  lemma ElementLine(before: string, v: Json, indent: nat, n: nat)
    ensures before + "\n" + Spaces(n) + Print(v, Pretty(indent), n + indent) + "," ==
            before + ElementText(v, Pretty(indent), n) + ","
  {
    hide Print;
  }

  lemma NoMembersSoFar()
    ensures MembersSoFar([], Compact, 0) == ""
  {
  }

  /** The last comma becomes the closing brace. */
  lemma CompactClose(out: string, fs: string, ms: seq<Member>)
    requires out == fs + "{" + MembersSoFar(ms, Compact, 0)
    ensures (if out[|out| - 1] == ',' then out[..|out| - 1] + "}" else out + "}") == fs + Print(Obj(ms), Compact, 0)
  {
    hide Print, PrintMembers;
    ObjectText(ms, Compact, 0);
  }

  lemma CompactMember(before: string, m: Member)
    ensures before + "\"" + CString(m.key) + "\"" + ":" + Print(m.val, Compact, 0) + "," ==
            before + MemberText(m, Compact, 0) + ","
  {
    hide Print, CString;
    assert before + "\"" + CString(m.key) + "\"" + ":" == before + ("\"" + CString(m.key) + "\"" + ":");
  }

  lemma MemberLine(before: string, m: Member, indent: nat, n: nat)
    ensures before + "\n" + Spaces(n) + "\"" + CString(m.key) + "\"" + ": "
                   + Print(m.val, Pretty(indent), n + indent) + "," ==
            before + MemberText(m, Pretty(indent), n) + ","
  {
    hide Print, CString;
    var a, k := "\n" + Spaces(n), CString(m.key);
    assert before + "\n" + Spaces(n) == before + a;
    assert before + a + "\"" + k + "\"" + ": " == before + (a + ("\"" + k + "\"" + ": "));
  }

  lemma LineCloses(open: string, items: string, indent: nat, n: nat)
    ensures CloseLine(open + (items + ","), indent, n) == open + items + Tail(Pretty(indent), n)
  {
    var out := open + (items + ",");
    assert out[..|out| - 1] == open + items;
  }

  /** The last comma, if there is one, becomes a newline and the indentation of the closing bracket. */
  function CloseLine(out: string, indent: nat, n: nat): string {
    if out != "" && out[|out| - 1] == ',' then
      out[..|out| - 1] + "\n" + (if n > indent then Spaces(n - indent) else "")
    else out
  }
}
