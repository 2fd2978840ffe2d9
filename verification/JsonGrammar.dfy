/** The accepted language and its trees as a recursive grammar: the meaning of `Parser::parse`. A
    comma may follow the last member or element, and keys are taken as they stand up to the next
    quote. */
module JsonGrammar {
  import opened Options
  import opened JsonText

  /** The value at `i`. */
  function Value(s: string, i: nat, fits: string -> bool): (r: Option<(Json, nat)>)
    requires i < |s|
    ensures r.Some? ==> i < r.value.1 <= |s|
    decreases |s| - i, 1
  {
    if s[i] == '{' then Members(s, i + 1, [], fits)
    else if s[i] == '[' then Elements(s, i + 1, [], fits)
    else Scalar(s, i, fits)
  }

  /** The rest of an array, after its opening bracket or a comma. */
  function Elements(s: string, i: nat, acc: seq<Json>, fits: string -> bool): (r: Option<(Json, nat)>)
    requires i <= |s|
    ensures r.Some? ==> i < r.value.1 <= |s|
    decreases |s| - i, 2
  {
    var k := SkipSpace(s, i);
    if k == |s| then None
    else if s[k] == ']' then Some((Arr(acc), k + 1))
    else
      match Value(s, k, fits)
      case None => None
      case Some((v, n)) => AfterElement(s, n, acc + [v], fits)
  }

  /** The rest of an array, after an element. */
  function AfterElement(s: string, n: nat, acc: seq<Json>, fits: string -> bool): (r: Option<(Json, nat)>)
    requires n <= |s|
    ensures r.Some? ==> n < r.value.1 <= |s|
    decreases |s| - n, 3
  {
    var e := SkipSpace(s, n);
    if e == |s| then None
    else if s[e] == ',' then Elements(s, e + 1, acc, fits)
    else if s[e] == ']' then Some((Arr(acc), e + 1))
    else None
  }

  /** The key at `i`, the colon after it, and where the value starts. */
  function Key(s: string, i: nat): (r: Option<(string, nat)>)
    requires i < |s|
    ensures r.Some? ==> i < r.value.1 < |s|
  {
    if s[i] != '"' then None else
      var q := Find(s, i + 1, '"');
      if q == |s| then None else
        var c := SkipSpace(s, q + 1);
        if c == |s| || s[c] != ':' then None else
          var v := SkipSpace(s, c + 1);
          if v == |s| then None else Some((s[i + 1..q], v))
  }

  /** The rest of an object, after its opening brace or a comma. */
  function Members(s: string, i: nat, acc: seq<Member>, fits: string -> bool): (r: Option<(Json, nat)>)
    requires i <= |s|
    ensures r.Some? ==> i < r.value.1 <= |s|
    decreases |s| - i, 2
  {
    var k := SkipSpace(s, i);
    if k == |s| then None
    else if s[k] == '}' then Some((Obj(acc), k + 1))
    else
      match Key(s, k)
      case None => None
      case Some((key, v)) =>
        match Value(s, v, fits)
        case None => None
        case Some((val, n)) => AfterMember(s, n, acc + [Member(key, val)], fits)
  }

  function AfterMember(s: string, n: nat, acc: seq<Member>, fits: string -> bool): (r: Option<(Json, nat)>)
    requires n <= |s|
    ensures r.Some? ==> n < r.value.1 <= |s|
    decreases |s| - n, 3
  {
    var e := SkipSpace(s, n);
    if e == |s| then None
    else if s[e] == ',' then Members(s, e + 1, acc, fits)
    else if s[e] == '}' then Some((Obj(acc), e + 1))
    else None
  }

  /** A whole text: one value, with white space around it. */
  function Document(s: string, fits: string -> bool): Option<Json> {
    var i := SkipSpace(s, 0);
    if i == |s| then None else
      match Value(s, i, fits)
      case None => None
      case Some((v, n)) => if SkipSpace(s, n) == |s| then Some(v) else None
  }
}
