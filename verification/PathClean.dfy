/** `path::clean` of `src/path.cc` (non-Windows): an in-place rewriting loop whose meaning is a
    stack of path components. */
module PathClean {

  /** End of the component that starts at `i`. */
  function ComponentEnd(s: string, i: nat): (e: nat)
    requires i <= |s|
    ensures i <= e <= |s| && '/' !in s[i..e] && (e < |s| ==> s[e] == '/')
    decreases |s| - i
  {
    if i == |s| || s[i] == '/' then i
    else
      var e := ComponentEnd(s, i + 1);
      assert s[i..e] == [s[i]] + s[i + 1..e];
      e
  }

  /** The non-empty components of `s[i..]`. */
  function Components(s: string, i: nat): (cs: seq<string>)
    requires i <= |s|
    decreases |s| - i
  {
    if i == |s| then []
    else if s[i] == '/' then Components(s, i + 1)
    else
      var e := ComponentEnd(s, i);
      [s[i..e]] + Components(s, e)
  }

  /** What a component looks like before `.` and `..` are interpreted. */
  predicate Plain(c: string) {
    c != "" && '/' !in c
  }

  ghost predicate AllPlain(cs: seq<string>) {
    forall i :: 0 <= i < |cs| ==> Plain(cs[i])
  }

  /** Effect of one component on the stack of components kept so far. */
  function Push(rooted: bool, stack: seq<string>, c: string): seq<string> {
    if c == "." then stack
    else if c != ".." then stack + [c]
    else if stack != [] && stack[|stack| - 1] != ".." then stack[..|stack| - 1]
    else if rooted then stack
    else stack + [".."]
  }

  function PushAll(rooted: bool, stack: seq<string>, cs: seq<string>): seq<string>
    decreases |cs|
  {
    if cs == [] then stack else PushAll(rooted, Push(rooted, stack, cs[0]), cs[1..])
  }

  function Join(stack: seq<string>): string {
    if stack == [] then ""
    else if |stack| == 1 then stack[0]
    else Join(stack[..|stack| - 1]) + "/" + stack[|stack| - 1]
  }

  function Prefix(rooted: bool): string {
    if rooted then "/" else ""
  }

  function Body(rooted: bool, stack: seq<string>): string {
    Prefix(rooted) + Join(stack)
  }

  function Render(rooted: bool, stack: seq<string>): string {
    if !rooted && stack == [] then "." else Body(rooted, stack)
  }

  predicate Rooted(s: string) {
    s != "" && s[0] == '/'
  }

  /** The cleaned path: the normalized component stack, written out. */
  function CleanPath(s: string): string {
    Render(Rooted(s), PushAll(Rooted(s), [], Components(s, 0)))
  }

  /** A proper file or directory name. */
  predicate Name(c: string) {
    Plain(c) && c != "." && c != ".."
  }

  /** The first `d` components are `..`, the rest are names; a rooted path has no `..` at all. */
  ghost predicate Normal(rooted: bool, stack: seq<string>, d: nat) {
    && d <= |stack| && (rooted ==> d == 0)
    && (forall i :: 0 <= i < d ==> stack[i] == "..")
    && (forall i :: d <= i < |stack| ==> Name(stack[i]))
  }

  // ----- facts about the stack

  function LeadingAfter(rooted: bool, stack: seq<string>, d: nat, c: string): nat {
    if c == ".." && !rooted && |stack| == d then d + 1 else d
  }

  lemma PushKeepsNormal(rooted: bool, stack: seq<string>, d: nat, c: string)
    requires Normal(rooted, stack, d) && Plain(c)
    ensures Normal(rooted, Push(rooted, stack, c), LeadingAfter(rooted, stack, d, c))
    ensures c == ".." && |stack| > d ==> Push(rooted, stack, c) == stack[..|stack| - 1]
    ensures c == ".." && |stack| == d ==> Push(rooted, stack, c) == if rooted then stack else stack + [".."]
  {
  }

  lemma {:induction false} ComponentsArePlain(s: string, i: nat)
    requires i <= |s|
    ensures AllPlain(Components(s, i))
    decreases |s| - i
  {
    if i < |s| {
      if s[i] == '/' {
        ComponentsArePlain(s, i + 1);
      } else {
        ComponentsArePlain(s, ComponentEnd(s, i));
      }
    }
  }

  lemma {:induction false} PushAllKeepsNormal(rooted: bool, stack: seq<string>, d: nat, cs: seq<string>)
    returns (d': nat)
    requires Normal(rooted, stack, d) && AllPlain(cs)
    ensures Normal(rooted, PushAll(rooted, stack, cs), d')
    decreases |cs|
  {
    d' := d;
    if cs != [] {
      PushKeepsNormal(rooted, stack, d, cs[0]);
      d' := PushAllKeepsNormal(rooted, Push(rooted, stack, cs[0]), LeadingAfter(rooted, stack, d, cs[0]), cs[1..]);
    }
  }

  /** The output keeps `..` only as a leading run, and only in a relative path. */
  lemma CleanIsNormal(s: string) returns (d: nat)
    ensures Normal(Rooted(s), PushAll(Rooted(s), [], Components(s, 0)), d)
  {
    ComponentsArePlain(s, 0);
    d := PushAllKeepsNormal(Rooted(s), [], 0, Components(s, 0));
  }

  // ----- idempotence

  lemma {:induction false} PushAllNormal(rooted: bool, stack: seq<string>, cs: seq<string>, d: nat)
    requires Normal(rooted, stack + cs, d)
    ensures PushAll(rooted, stack, cs) == stack + cs
    decreases |cs|
  {
    if cs == [] {
      assert stack + cs == stack;
    } else {
      assert (stack + cs)[|stack|] == cs[0];
      if stack != [] && cs[0] == ".." { assert (stack + cs)[|stack| - 1] == stack[|stack| - 1]; }
      assert Push(rooted, stack, cs[0]) == stack + [cs[0]];
      assert stack + [cs[0]] + cs[1..] == stack + cs;
      PushAllNormal(rooted, stack + [cs[0]], cs[1..], d);
    }
  }

  lemma {:induction false} ComponentEndIs(s: string, i: nat, e: nat)
    requires i <= e <= |s| && '/' !in s[i..e] && (e < |s| ==> s[e] == '/')
    ensures ComponentEnd(s, i) == e
    decreases e - i
  {
    if i < e {
      assert s[i] == s[i..e][0] && s[i + 1..e] == s[i..e][1..];
      ComponentEndIs(s, i + 1, e);
    }
  }

  lemma SingleComponent(s: string, i: nat)
    requires i < |s| && '/' !in s[i..]
    ensures Components(s, i) == [s[i..]]
  {
    assert s[i..|s|] == s[i..];
    ComponentEndIs(s, i, |s|);
    assert s[i] == s[i..][0];
  }

  /** Appending one more component to a joined path appends it to the component list. */
  lemma {:induction false} ComponentsAppend(a: string, c: string, i: nat)
    requires i <= |a| && Plain(c)
    ensures Components(a + "/" + c, i) == Components(a, i) + [c]
    decreases |a| - i
  {
    var t := a + "/" + c;
    if i == |a| {
      assert t[i + 1..] == c;
      SingleComponent(t, i + 1);
    } else if a[i] == '/' {
      ComponentsAppend(a, c, i + 1);
    } else {
      var e := ComponentEnd(a, i);
      assert t[i..e] == a[i..e];
      ComponentEndIs(t, i, e);
      ComponentsAppend(a, c, e);
    }
  }

  lemma {:induction false} ComponentsOfBody(rooted: bool, stack: seq<string>)
    requires AllPlain(stack)
    ensures Components(Body(rooted, stack), 0) == stack
    decreases |stack|
  {
    var b := Body(rooted, stack);
    if |stack| == 1 {
      var k := if rooted then 1 else 0;
      assert b[k..] == stack[0];
      SingleComponent(b, k);
    } else if |stack| > 1 {
      var init, c := stack[..|stack| - 1], stack[|stack| - 1];
      ComponentsOfBody(rooted, init);
      assert b == Body(rooted, init) + "/" + c;
      ComponentsAppend(Body(rooted, init), c, 0);
    }
  }

  lemma {:induction false} BodyStart(rooted: bool, stack: seq<string>)
    requires stack != [] && AllPlain(stack)
    ensures Join(stack) != "" && Join(stack)[0] != '/'
    ensures Rooted(Body(rooted, stack)) == rooted
    decreases |stack|
  {
    if |stack| > 1 { BodyStart(rooted, stack[..|stack| - 1]); }
  }

  lemma CleanReads(rooted: bool, stack: seq<string>, d: nat)
    requires Normal(rooted, stack, d)
    ensures CleanPath(Render(rooted, stack)) == Render(rooted, stack)
  {
    var r := Render(rooted, stack);
    if stack == [] {
      if !rooted {
        SingleComponent(".", 0);
        assert Components(".", 0) == ["."];
        assert PushAll(false, [], ["."]) == PushAll(false, [], []);
      } else {
        assert Body(true, stack) == "/";
        assert Components("/", 0) == [];
      }
    } else {
      ComponentsOfBody(rooted, stack);
      BodyStart(rooted, stack);
      assert [] + stack == stack;
      PushAllNormal(rooted, [], stack, d);
    }
  }

  /** Cleaning a clean path changes nothing. */
  lemma CleanIsIdempotent(s: string)
    ensures CleanPath(CleanPath(s)) == CleanPath(s)
  {
    var d := CleanIsNormal(s);
    CleanReads(Rooted(s), PushAll(Rooted(s), [], Components(s, 0)), d);
  }

  // ----- the text of a path

  /** The pieces between the slashes of a text, empty ones included. */
  function Split(s: string): (t: seq<string>)
    ensures t != []
  {
    if s == "" then [""]
    else
      var t := Split(s[1..]);
      if s[0] == '/' then [""] + t else [[s[0]] + t[0]] + t[1..]
  }

  function NonEmpty(t: seq<string>): seq<string> {
    if t == [] then [] else (if t[0] == "" then [] else [t[0]]) + NonEmpty(t[1..])
  }

  /** The first piece ends at the first slash. */
  lemma {:induction false} SplitAtSlash(s: string, e: nat)
    requires e <= |s| && '/' !in s[..e] && (e < |s| ==> s[e] == '/')
    ensures Split(s) == [s[..e]] + (if e == |s| then [] else Split(s[e + 1..]))
    decreases |s|
  {
    if e == 0 {
      assert s[..0] == "";
      if s != "" { assert s[1..] == s[e + 1..]; }
    } else {
      var t := s[1..];
      assert t[..e - 1] == s[..e][1..] && (e < |s| ==> t[e..] == s[e + 1..]);
      SplitAtSlash(t, e - 1);
      assert [s[0]] + t[..e - 1] == s[..e];
    }
  }

  lemma ComponentsStep(s: string, i: nat)
    requires i < |s|
    ensures var e := ComponentEnd(s, i);
      Components(s, i) == (if e == i then [] else [s[i..e]]) + (if e == |s| then [] else Components(s, e + 1))
  {
    var e := ComponentEnd(s, i);
    if e < |s| { assert Components(s, e) == Components(s, e + 1); }
  }

  lemma NonEmptyCons(c: string, t: seq<string>)
    ensures NonEmpty([c] + t) == (if c == "" then [] else [c]) + NonEmpty(t)
  {
    assert ([c] + t)[1..] == t;
  }

  lemma SplitFrom(s: string, i: nat)
    requires i <= |s|
    ensures var e := ComponentEnd(s, i);
      Split(s[i..]) == [s[i..e]] + (if e == |s| then [] else Split(s[e + 1..]))
  {
    var t, e := s[i..], ComponentEnd(s, i);
    assert t[..e - i] == s[i..e] && (e < |s| ==> t[e - i + 1..] == s[e + 1..]);
    SplitAtSlash(t, e - i);
    hide Split, ComponentEnd;
  }

  lemma NothingLeft(s: string)
    ensures Components(s, |s|) == [] && NonEmpty([]) == []
  {
  }

  /** The components of a path are the pieces between its slashes that are not empty. */
  lemma {:induction false} ComponentsAreSplit(s: string, i: nat)
    requires i <= |s|
    ensures Components(s, i) == NonEmpty(Split(s[i..]))
    decreases |s| - i
  {
    hide *;
    var e := ComponentEnd(s, i);
    SplitFrom(s, i);
    NothingLeft(s);
    NonEmptyCons(s[i..e], if e == |s| then [] else Split(s[e + 1..]));
    if i < |s| { ComponentsStep(s, i); }
    if e < |s| { ComponentsAreSplit(s, e + 1); }
  }

  /** No slash follows another, and none stands at the end of anything but the root. */
  ghost predicate SingleSlashes(r: string) {
    && (forall i :: 0 <= i < |r| - 1 && r[i] == '/' ==> r[i + 1] != '/')
    && (r != "" && r[|r| - 1] == '/' ==> r == "/")
  }

  lemma {:induction false} BodyIsClean(rooted: bool, stack: seq<string>)
    requires AllPlain(stack)
    ensures SingleSlashes(Body(rooted, stack))
    decreases |stack|
  {
    var b := Body(rooted, stack);
    if |stack| == 1 {
      BodyStart(rooted, stack);
      assert b == Prefix(rooted) + stack[0];
    } else if |stack| > 1 {
      var init, c := stack[..|stack| - 1], stack[|stack| - 1];
      BodyStart(rooted, init);
      BodyIsClean(rooted, init);
      var a := Body(rooted, init);
      assert b == a + "/" + c;
      assert |a| > |Prefix(rooted)|;
    }
  }

  /** The text of a cleaned path: it is not empty, begins with a slash if the path did, has single slashes,
      and either is a dot or consists of names after a leading run of `..`, which a rooted path lacks. */
  lemma CleanText(s: string) returns (d: nat)
    ensures var r := CleanPath(s);
      && r != "" && Rooted(r) == Rooted(s) && SingleSlashes(r)
      && (r == "." || Normal(Rooted(s), NonEmpty(Split(r)), d))
  {
    var rooted, stack := Rooted(s), PushAll(Rooted(s), [], Components(s, 0));
    var r := CleanPath(s);
    d := CleanIsNormal(s);
    ComponentsAreSplit(r, 0);
    assert r[0..] == r;
    if rooted || stack != [] {
      ComponentsOfBody(rooted, stack);
      BodyIsClean(rooted, stack);
      if stack != [] { BodyStart(rooted, stack); }
    }
    hide Split, NonEmpty, Components, PushAll;
  }

  // ----- the cleaned path leads to the same place

  /** Walking one component from a directory, given by its names from the root. */
  function Walk(dir: seq<string>, c: string): seq<string> {
    if c == "." then dir
    else if c == ".." then if dir == [] then [] else dir[..|dir| - 1]
    else dir + [c]
  }

  function WalkAll(dir: seq<string>, cs: seq<string>): seq<string> {
    if cs == [] then dir else Walk(WalkAll(dir, cs[..|cs| - 1]), cs[|cs| - 1])
  }

  /** Where `s` leads when the current directory is `cwd`. */
  function Resolve(cwd: seq<string>, s: string): seq<string> {
    WalkAll(if Rooted(s) then [] else cwd, Components(s, 0))
  }

  lemma PushWalks(rooted: bool, stack: seq<string>, d: nat, dir: seq<string>, c: string)
    requires Normal(rooted, stack, d) && (rooted ==> dir == [])
    ensures WalkAll(dir, Push(rooted, stack, c)) == Walk(WalkAll(dir, stack), c)
  {
    var t := stack + [c];
    assert t[..|t| - 1] == stack;
    if c == ".." && stack != [] && stack[|stack| - 1] != ".." {
      var x := WalkAll(dir, stack[..|stack| - 1]);
      assert WalkAll(dir, stack) == x + [stack[|stack| - 1]];
      assert (x + [stack[|stack| - 1]])[..|x|] == x;
    }
  }

  lemma {:induction false} PushAllWalks(rooted: bool, stack: seq<string>, d: nat, dir: seq<string>, cs: seq<string>)
    requires Normal(rooted, stack, d) && (rooted ==> dir == [])
    requires AllPlain(cs)
    ensures WalkAll(dir, PushAll(rooted, stack, cs)) == WalkAll(WalkAll(dir, stack), cs)
    decreases |cs|
  {
    if cs != [] {
      PushKeepsNormal(rooted, stack, d, cs[0]);
      PushWalks(rooted, stack, d, dir, cs[0]);
      PushAllWalks(rooted, Push(rooted, stack, cs[0]), LeadingAfter(rooted, stack, d, cs[0]), dir, cs[1..]);
      WalkAllFront(WalkAll(dir, stack), cs);
    }
  }

  lemma {:induction false} WalkAllFront(dir: seq<string>, cs: seq<string>)
    requires cs != []
    ensures WalkAll(dir, cs) == WalkAll(Walk(dir, cs[0]), cs[1..])
    decreases |cs|
  {
    var init := cs[..|cs| - 1];
    if init == [] {
      assert cs[1..] == [];
    } else {
      WalkAllFront(dir, init);
      assert cs[1..][..|cs| - 2] == init[1..];
    }
  }

  /** In a tree without symbolic links, the cleaned path leads where the original did, from every
      current directory. */
  lemma CleanLeadsToSamePlace(cwd: seq<string>, s: string)
    ensures Resolve(cwd, CleanPath(s)) == Resolve(cwd, s)
  {
    var rooted, cs := Rooted(s), Components(s, 0);
    var dir := if rooted then [] else cwd;
    var stack := PushAll(rooted, [], cs);
    ComponentsArePlain(s, 0);
    PushAllWalks(rooted, [], 0, dir, cs);
    var d := CleanIsNormal(s);
    if stack == [] {
      if rooted {
        assert Body(true, stack) == "/";
        assert Components("/", 0) == [];
      } else {
        SingleComponent(".", 0);
        assert Components(".", 0) == ["."];
        assert ["."][..0] == [];
      }
    } else {
      ComponentsOfBody(rooted, stack);
      BodyStart(rooted, stack);
    }
  }

  // ----- the loop

  lemma BodyPush(rooted: bool, stack: seq<string>, c: string)
    ensures Body(rooted, stack + [c]) ==
            if stack == [] then Prefix(rooted) + c else Body(rooted, stack) + "/" + c
  {
    assert (stack + [c])[..|stack|] == stack;
  }

  lemma {:induction false} BodyGrows(rooted: bool, stack: seq<string>, d: nat)
    requires d <= |stack|
    ensures |Body(rooted, stack[..d])| <= |Body(rooted, stack)|
    ensures d < |stack| && (forall i :: 0 <= i < |stack| ==> stack[i] != "") ==>
              |Body(rooted, stack[..d])| < |Body(rooted, stack)|
    decreases |stack|
  {
    if d == |stack| {
      assert stack[..d] == stack;
    } else {
      var init := stack[..|stack| - 1];
      assert init[..d] == stack[..d] && init + [stack[|stack| - 1]] == stack;
      BodyGrows(rooted, init, d);
      BodyPush(rooted, init, stack[|stack| - 1]);
    }
  }

  /** Everything the main loop keeps: `r[..p]` is the written-out stack, and `dotdot` is where its
      leading run of `..` ends. */
  ghost predicate Written(r: seq<char>, p: nat, dotdot: nat, rooted: bool, stack: seq<string>, d: nat) {
    && p <= |r| && r[..p] == Body(rooted, stack)
    && Normal(rooted, stack, d)
    && dotdot == |Body(rooted, stack[..d])|
  }

  lemma WrittenPush(r: seq<char>, p: nat, dotdot: nat, rooted: bool, stack: seq<string>, d: nat, c: string,
                    r': seq<char>, p': nat)
    requires Written(r, p, dotdot, rooted, stack, d) && Name(c)
    requires p' <= |r'| && r'[..p'] == Body(rooted, stack) + (if stack == [] then "" else "/") + c
    ensures Written(r', p', dotdot, rooted, Push(rooted, stack, c), d)
  {
    BodyPush(rooted, stack, c);
    PushKeepsNormal(rooted, stack, d, c);
    assert (stack + [c])[..d] == stack[..d];
    hide Body;
  }

  lemma WrittenPushUp(r: seq<char>, p: nat, dotdot: nat, stack: seq<string>, d: nat,
                      r': seq<char>, p': nat)
    requires Written(r, p, dotdot, false, stack, d) && |stack| == d
    requires p' <= |r'| && r'[..p'] == Body(false, stack) + (if stack == [] then "" else "/") + ".."
    ensures Written(r', p', p', false, Push(false, stack, ".."), d + 1)
  {
    BodyPush(false, stack, "..");
    PushKeepsNormal(false, stack, d, "..");
    assert (stack + [".."])[..d + 1] == stack + [".."];
  }

  /** Where backtracking must stop: the written-out stack without its last component. */
  lemma LastComponent(r: seq<char>, p: nat, dotdot: nat, rooted: bool, stack: seq<string>, d: nat)
    returns (target: nat)
    requires Written(r, p, dotdot, rooted, stack, d) && d < |stack|
    ensures dotdot <= target < p && (target == dotdot || r[target] == '/')
    ensures forall x :: target < x < p ==> r[x] != '/'
    ensures Written(r, target, dotdot, rooted, Push(rooted, stack, ".."), d)
  {
    var init, c := stack[..|stack| - 1], stack[|stack| - 1];
    assert init == [] ==> Body(rooted, init) == Prefix(rooted);
    hide Join;
    assert init + [c] == stack && init[..d] == stack[..d];
    target := |Body(rooted, init)|;
    BodyPush(rooted, init, c);
    BodyGrows(rooted, init, d);
    PushKeepsNormal(rooted, stack, d, "..");
    LastSlash(r, p, Body(rooted, init), if init == [] then "" else "/", c);
    if init == [] { assert stack[..d] == init; }
  }

  lemma LastSlash(r: seq<char>, p: nat, body: string, sep: string, c: string)
    requires p <= |r| && r[..p] == body + sep + c && Plain(c) && (sep == "" || sep == "/")
    ensures |body| < p && r[..|body|] == body && (sep == "/" ==> r[|body|] == '/')
    ensures forall x :: |body| < x < p ==> r[x] != '/'
  {
    assert r[..|body|] == r[..p][..|body|];
    assert r[|body|] == r[..p][|body|];
    forall x | |body| < x < p ensures r[x] != '/' {
      assert r[x] == r[..p][x] == c[x - |body| - |sep|];
    }
  }

  lemma StackEmptyIff(r: seq<char>, p: nat, dotdot: nat, rooted: bool, stack: seq<string>, d: nat)
    requires Written(r, p, dotdot, rooted, stack, d)
    ensures |Prefix(rooted)| <= dotdot <= p
    ensures p == |Prefix(rooted)| <==> stack == []
    ensures p > dotdot <==> |stack| > d
  {
    assert stack[..0] == [];
    BodyGrows(rooted, stack, 0);
    BodyGrows(rooted, stack, d);
    if |stack| == d { assert stack[..d] == stack; }
  }

  /** Processing the rest of `s` from `i` turns `stack` into `goal`. */
  ghost predicate Finishes(s: string, i: nat, rooted: bool, stack: seq<string>, goal: seq<string>) {
    i <= |s| && PushAll(rooted, stack, Components(s, i)) == goal
  }

  lemma FinishesStep(s: string, i: nat, rooted: bool, stack: seq<string>, goal: seq<string>)
    requires i < |s| && s[i] != '/' && Finishes(s, i, rooted, stack, goal)
    ensures Finishes(s, ComponentEnd(s, i), rooted, Push(rooted, stack, s[i..ComponentEnd(s, i)]), goal)
  {
    var e := ComponentEnd(s, i);
    var cs := Components(s, i);
    assert cs[0] == s[i..e] && cs[1..] == Components(s, e);
  }

  /** The backtracking loop of a `..` element. */
  method Backtrack(r: array<char>, p: nat, dotdot: nat, ghost rooted: bool, ghost stack: seq<string>, ghost d: nat)
    returns (q: nat)
    requires Written(r[..], p, dotdot, rooted, stack, d) && p > dotdot && d < |stack|
    ensures q < p && Written(r[..], q, dotdot, rooted, Push(rooted, stack, ".."), d)
  {
    ghost var target := LastComponent(r[..], p, dotdot, rooted, stack, d);
    q := p - 1;
    while q > dotdot && r[q] != '/'
      invariant target <= q < p
    {
      q := q - 1;
    }
    assert q == target;
  }

  /** The branch that keeps a `..` element. */
  method AppendUp(r: array<char>, p: nat, dotdot: nat, ghost stack: seq<string>, ghost d: nat) returns (q: nat)
    requires Written(r[..], p, dotdot, false, stack, d) && |stack| == d
    requires p + (if p == 0 then 2 else 3) <= r.Length
    modifies r
    ensures q == p + (if p == 0 then 2 else 3)
    ensures Written(r[..], q, q, false, Push(false, stack, ".."), d + 1)
  {
    StackEmptyIff(r[..], p, dotdot, false, stack, d);
    q := p;
    if q > 0 {
      r[q] := '/';
      q := q + 1;
    }
    r[q] := '.';
    q := q + 1;
    r[q] := '.';
    q := q + 1;
    assert r[..p] == old(r[..])[..p];
    assert r[..q] == r[..p] + (if stack == [] then "" else "/") + "..";
    WrittenPushUp(old(r[..]), p, dotdot, stack, d, r[..], q);
  }

  method UpElement(r: array<char>, i: nat, p: nat, dotdot: nat, rooted: bool, ghost stack: seq<string>, ghost d: nat)
    returns (p': nat, dotdot': nat, ghost d': nat)
    requires Written(r[..], p, dotdot, rooted, stack, d)
    requires i + 2 <= r.Length && (p < i || p == |Prefix(rooted)| <= i)
    modifies r
    ensures p' <= i + 2 && Written(r[..], p', dotdot', rooted, Push(rooted, stack, ".."), d')
  {
    StackEmptyIff(r[..], p, dotdot, rooted, stack, d);
    p', dotdot', d' := p, dotdot, d;
    if p > dotdot {
      p' := Backtrack(r, p, dotdot, rooted, stack, d);
    } else if !rooted {
      p' := AppendUp(r, p, dotdot, stack, d);
      dotdot' := p';
      d' := d + 1;
    } else {
      PushKeepsNormal(rooted, stack, d, "..");
    }
  }

  /** The branch that keeps a real element, with a slash in front when something precedes it. */
  method AppendName(s: string, from: nat, ghost e: nat, r: array<char>, p: nat, dotdot: nat, rooted: bool,
                    ghost stack: seq<string>, ghost d: nat) returns (i: nat, q: nat)
    requires from < |s| == r.Length && e == ComponentEnd(s, from) && Name(s[from..e])
    requires Written(r[..], p, dotdot, rooted, stack, d)
    requires p < from || (p == from == |Prefix(rooted)|)
    modifies r
    ensures i == e && q <= i
    ensures Written(r[..], q, dotdot, rooted, Push(rooted, stack, s[from..e]), d)
  {
    StackEmptyIff(r[..], p, dotdot, rooted, stack, d);
    ghost var sep := if stack == [] then "" else "/";
    var beg := if rooted then 1 else 0;
    i, q := from, p;
    if (rooted && q != beg) || (!rooted && q != 0) {
      r[q] := '/';
      q := q + 1;
    }
    ghost var base := r[..q];
    assert base == old(r[..])[..p] + sep;
    i, q := CopyElement(s, from, r, q);
    WrittenPush(old(r[..]), p, dotdot, rooted, stack, d, s[from..i], r[..], q);
  }

  method CopyElement(s: string, from: nat, r: array<char>, p: nat) returns (i: nat, q: nat)
    requires p <= from <= |s| == r.Length
    modifies r
    ensures i == ComponentEnd(s, from) && q == p + (i - from)
    ensures r[..q] == old(r[..p]) + s[from..i]
  {
    i, q := from, p;
    while i < |s| && s[i] != '/'
      invariant from <= i <= |s| && '/' !in s[from..i]
      invariant q == p + (i - from)
      invariant r[..q] == old(r[..p]) + s[from..i]
    {
      r[q] := s[i];
      q := q + 1;
      i := i + 1;
      assert s[from..i] == s[from..i - 1] + [s[i - 1]];
    }
    ComponentEndIs(s, from, i);
  }

  lemma SkipsSlash(s: string, i: nat, rooted: bool, stack: seq<string>, goal: seq<string>)
    requires i < |s| && s[i] == '/'
    ensures Finishes(s, i, rooted, stack, goal) == Finishes(s, i + 1, rooted, stack, goal)
  {
  }

  lemma SkipsDot(s: string, i: nat, rooted: bool, stack: seq<string>, goal: seq<string>)
    requires i < |s| && s[i] == '.' && (i + 1 == |s| || s[i + 1] == '/')
    requires Finishes(s, i, rooted, stack, goal)
    ensures Finishes(s, i + 1, rooted, stack, goal)
  {
    ComponentEndIs(s, i, i + 1);
    assert s[i..i + 1] == ".";
    FinishesStep(s, i, rooted, stack, goal);
  }

  lemma SeesUp(s: string, i: nat, rooted: bool, stack: seq<string>, goal: seq<string>)
    requires i + 1 < |s| && s[i] == '.' && s[i + 1] == '.' && (i + 2 == |s| || s[i + 2] == '/')
    requires Finishes(s, i, rooted, stack, goal)
    ensures Finishes(s, i + 2, rooted, Push(rooted, stack, ".."), goal)
  {
    assert s[i..i + 2] == "..";
    ComponentEndIs(s, i, i + 2);
    FinishesStep(s, i, rooted, stack, goal);
  }

  lemma SeesName(s: string, i: nat)
    requires i < |s| && s[i] != '/'
    requires !(s[i] == '.' && (i + 1 == |s| || s[i + 1] == '/'))
    requires !(s[i] == '.' && s[i + 1] == '.' && (i + 2 == |s| || s[i + 2] == '/'))
    ensures Name(s[i..ComponentEnd(s, i)])
  {
    var e := ComponentEnd(s, i);
    assert s[i..e][0] == s[i];
    assert e >= i + 2 ==> s[i..e][1] == s[i + 1];
  }

  /** One round of the main loop, from `i` to `i'`. */
  method NextElement(s: string, i: nat, r: array<char>, p: nat, dotdot: nat, rooted: bool,
                     ghost stack: seq<string>, ghost d: nat, ghost goal: seq<string>)
    returns (i': nat, p': nat, dotdot': nat, ghost stack': seq<string>, ghost d': nat)
    requires i < |s| == r.Length && |Prefix(rooted)| <= i
    requires s[i] == '/' || p < i || p == |Prefix(rooted)|
    requires p <= i && Written(r[..], p, dotdot, rooted, stack, d) && Finishes(s, i, rooted, stack, goal)
    modifies r
    ensures i < i' <= |s| && p' <= i'
    ensures i' == |s| || s[i'] == '/' || p' < i' || p' == |Prefix(rooted)|
    ensures Written(r[..], p', dotdot', rooted, stack', d') && Finishes(s, i', rooted, stack', goal)
  {
    hide PushAll, Components, Normal, Body;
    i', p', dotdot', stack', d' := i, p, dotdot, stack, d;
    if s[i] == '/' || (s[i] == '.' && (i + 1 == |s| || s[i + 1] == '/')) {
      if s[i] == '/' {
        SkipsSlash(s, i, rooted, stack, goal);
      } else {
        SkipsDot(s, i, rooted, stack, goal);
      }
      i' := i + 1;
    } else if s[i] == '.' && s[i + 1] == '.' && (i + 2 == |s| || s[i + 2] == '/') {
      SeesUp(s, i, rooted, stack, goal);
      p', dotdot', d' := UpElement(r, i, p, dotdot, rooted, stack, d);
      i', stack' := i + 2, Push(rooted, stack, "..");
    } else {
      SeesName(s, i);
      FinishesStep(s, i, rooted, stack, goal);
      ghost var e := ComponentEnd(s, i);
      i', p' := AppendName(s, i, e, r, p, dotdot, rooted, stack, d);
      stack' := Push(rooted, stack, s[i..e]);
    }
  }

  /** `path::clean`. The write index never passes the read index, so `r` is never outgrown. */
  method Clean(s: string) returns (out: string)
    ensures out == CleanPath(s)
  {
    var n := |s|;
    if n == 0 { return "."; }
    var r := new char[n](i requires 0 <= i < n => s[i]);
    var rooted := s[0] == '/';
    var p, dotdot: nat := |Prefix(rooted)|, |Prefix(rooted)|;
    var i := p;
    ghost var stack: seq<string>, d := [], 0;
    ghost var goal := PushAll(rooted, [], Components(s, 0));
    if rooted { SkipsSlash(s, 0, rooted, [], goal); }
    assert r[..p] == Body(rooted, []);
    while i < n
      invariant |Prefix(rooted)| <= i && 0 <= p <= i <= n && 0 <= dotdot
      invariant i == n || s[i] == '/' || p < i || p == |Prefix(rooted)|
      invariant Written(r[..], p, dotdot, rooted, stack, d)
      invariant Finishes(s, i, rooted, stack, goal)
    {
      i, p, dotdot, stack, d := NextElement(s, i, r, p, dotdot, rooted, stack, d, goal);
    }
    StackEmptyIff(r[..], p, dotdot, rooted, stack, d);
    if p == 0 { return "."; }
    return r[..p];
  }
}
