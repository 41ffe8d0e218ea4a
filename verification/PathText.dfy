/** abspath (src/fs/namei.c): the current directory as a text that is rewritten in place,
    and as the stack of names that it stands for. */
module PathText {

  const EOS: char := '\0'

  predicate IsSeparator(c: char) {
    c == '/' || c == '\\'
  }

  /** A text without separators and without the end mark. */
  predicate IsName(s: string) {
    forall i :: 0 <= i < |s| ==> !IsSeparator(s[i]) && s[i] != EOS
  }

  // ----- Paths as names -----------------------------------------------------

  /** strsep: the place of the first separator. */
  function FirstSeparator(s: string): (k: nat)
    ensures k <= |s| && IsPlain(s[..k]) && (k < |s| ==> IsSeparator(s[k]))
  {
    if s == "" || IsSeparator(s[0]) then 0 else
    var k := FirstSeparator(s[1..]);
    assert s[..1 + k] == [s[0]] + s[1..][..k];
    1 + k
  }

  predicate IsPlain(s: string) {
    forall i :: 0 <= i < |s| ==> !IsSeparator(s[i])
  }

  /** The names between the separators of a path, one more than there are separators. */
  function Split(path: string): (names: seq<string>)
    ensures |names| >= 1
    decreases |path|
  {
    var k := FirstSeparator(path);
    if k == |path| then [path] else [path[..k]] + Split(path[k + 1..])
  }

  /** One name applied to a stack of names. */
  function Enter(stack: seq<string>, name: string): seq<string> {
    if name == "." then stack
    else if name == ".." then (if stack == [] then [] else stack[..|stack| - 1])
    else stack + [name]
  }

  /** Names applied in order; an empty last one, behind a final separator, counts for nothing. */
  function Walk(stack: seq<string>, names: seq<string>): seq<string>
    requires names != []
    decreases |names|
  {
    if |names| == 1 then (if names[0] == "" then stack else Enter(stack, names[0]))
    else Walk(Enter(stack, names[0]), names[1..])
  }

  /** The stack after a path: from the root for an absolute one. */
  function Resolve(stack: seq<string>, path: string): seq<string> {
    if path != "" && IsSeparator(path[0]) then Walk([], Split(path[1..])) else Walk(stack, Split(path))
  }

  /** The text of a stack: each name between separators. */
  function Render(stack: seq<string>): (s: string)
    ensures |s| >= 1 && s[0] == '/' && s[|s| - 1] == '/'
  {
    if stack == [] then "/" else Render(stack[..|stack| - 1]) + stack[|stack| - 1] + "/"
  }

  // ----- Joining paths ------------------------------------------------------

  lemma {:induction false} FirstSeparatorIs(s: string, k: nat)
    requires k <= |s| && IsPlain(s[..k]) && (k < |s| ==> IsSeparator(s[k]))
    ensures FirstSeparator(s) == k
  {
    if k == 0 {
    } else {
      assert !IsSeparator(s[..k][0]) && s[1..][..k - 1] == s[..k][1..];
      FirstSeparatorIs(s[1..], k - 1);
    }
  }

  lemma SplitPlain(x: string)
    requires IsPlain(x)
    ensures Split(x) == [x]
  {
    assert x[..|x|] == x;
    FirstSeparatorIs(x, |x|);
  }

  lemma {:induction false} SplitAt(s: string, k: nat)
    requires k < |s| && IsPlain(s[..k]) && IsSeparator(s[k])
    ensures Split(s) == [s[..k]] + Split(s[k + 1..])
  {
    FirstSeparatorIs(s, k);
  }

  lemma CutInside(x: string, y: string, k: nat)
    requires k < |x|
    ensures (x + "/" + y)[..k] == x[..k] && (x + "/" + y)[k] == x[k] && (x + "/" + y)[k + 1..] == x[k + 1..] + "/" + y
  {
  }

  lemma CutBetween(x: string, y: string)
    ensures (x + "/" + y)[..|x|] == x && (x + "/" + y)[|x|] == '/' && (x + "/" + y)[|x| + 1..] == y
  {
  }

  /** A path x followed by a path y: the names of x, then those of y. */
  lemma {:induction false} SplitJoin(x: string, y: string)
    ensures Split(x + "/" + y) == Split(x) + Split(y)
    decreases |x|
  {
    var k := FirstSeparator(x);
    if k == |x| {
      CutBetween(x, y);
      assert x == x[..k];
      SplitAt(x + "/" + y, k);
    } else {
      CutInside(x, y, k);
      SplitAt(x + "/" + y, k);
      SplitJoin(x[k + 1..], y);
      Regroup([x[..k]], Split(x[k + 1..]), Split(y));
    }
  }

  lemma Regroup(a: seq<string>, b: seq<string>, c: seq<string>)
    ensures a + (b + c) == (a + b) + c
  {
  }

  lemma WalkUnrolls(stack: seq<string>, name: string, names: seq<string>)
    requires names != []
    ensures Walk(stack, [name] + names) == Walk(Enter(stack, name), names)
  {
    assert ([name] + names)[1..] == names;
  }

  lemma {:induction false} WalkJoin(stack: seq<string>, a: seq<string>, b: seq<string>)
    requires a != [] && b != [] && a[|a| - 1] != ""
    ensures Walk(stack, a + b) == Walk(Walk(stack, a), b)
    decreases |a|
  {
    if |a| == 1 {
      assert a == [a[0]];
      WalkUnrolls(stack, a[0], b);
    } else {
      var t := a[1..];
      assert a == [a[0]] + t;
      WalkJoin(Enter(stack, a[0]), t, b);
      Regroup([a[0]], t, b);
      WalkUnrolls(stack, a[0], t + b);
    }
  }

  lemma {:induction false} WalkPaths(stack: seq<string>, x: string, y: string)
    requires x != "" && !IsSeparator(x[|x| - 1])
    ensures Walk(Walk(stack, Split(x)), Split(y)) == Walk(stack, Split(x + "/" + y))
  {
    SplitJoin(x, y);
    LastName(x);
    WalkJoin(stack, Split(x), Split(y));
  }

  /** Changing to x and then to y is changing to x/y, for relative y and an x that does
      not end in a separator. */
  lemma {:induction false} ResolveJoins(stack: seq<string>, x: string, y: string)
    requires x != "" && !IsSeparator(x[|x| - 1]) && (y == "" || !IsSeparator(y[0]))
    ensures Resolve(Resolve(stack, x), y) == Resolve(stack, x + "/" + y)
  {
    CutInside(x, y, 0);
    if IsSeparator(x[0]) {
      WalkPaths([], x[1..], y);
    } else {
      WalkPaths(stack, x, y);
    }
  }

  lemma {:induction false} LastName(s: string)
    requires s != "" && !IsSeparator(s[|s| - 1])
    ensures Split(s)[|Split(s)| - 1] != ""
    decreases |s|
  {
    var k := FirstSeparator(s);
    if k == |s| {
    } else {
      LastName(s[k + 1..]);
    }
  }

  /** An x that ends in a separator: y goes behind it as it is. */
  lemma ResolveAppends(stack: seq<string>, x: string, y: string)
    requires y == "" || !IsSeparator(y[0])
    requires x != "" && !IsSeparator(x[|x| - 1])
    ensures Resolve(Resolve(stack, x + "/"), y) == Resolve(stack, x + "/" + y)
  {
    ResolveJoins(stack, x, y);
    ResolveJoins(stack, x, "");
    assert x + "/" + "" == x + "/";
    assert Split("") == [""];
  }

  /** Names that a path without empty names leaves on the stack are real names. */
  ghost predicate Canonical(stack: seq<string>) {
    forall i :: 0 <= i < |stack| ==> IsName(stack[i]) && stack[i] != "" && stack[i] != "." && stack[i] != ".."
  }

  lemma EnterKeepsCanonical(stack: seq<string>, name: string)
    requires Canonical(stack) && IsName(name) && name != ""
    ensures Canonical(Enter(stack, name))
  {
  }

  ghost predicate NoEmpty(names: seq<string>) {
    forall i :: 0 <= i < |names| ==> IsName(names[i]) && (i < |names| - 1 ==> names[i] != "")
  }

  lemma {:induction false} WalkKeepsCanonical(stack: seq<string>, names: seq<string>)
    requires Canonical(stack) && names != [] && NoEmpty(names)
    ensures Canonical(Walk(stack, names))
    decreases |names|
  {
    if names == [""] {
    } else {
      EnterKeepsCanonical(stack, names[0]);
      if |names| > 1 {
        WalkKeepsCanonical(Enter(stack, names[0]), names[1..]);
      }
    }
  }

  lemma RenderPush(stack: seq<string>, name: string)
    ensures Render(stack + [name]) == Render(stack) + (name + "/")
  {
    assert (stack + [name])[..|stack|] == stack;
    assert Render(stack) + name + "/" == Render(stack) + (name + "/");
  }

  lemma SlashesAlign(p: string, x: string, q: string, y: string)
    requires p + x + "/" == q + y + "/" && IsName(x) && q != "" && q[|q| - 1] == '/'
    ensures |q| <= |p|
  {
    var s := p + x + "/";
    assert forall i :: |p| <= i < |s| - 1 ==> s[i] == x[i - |p|];
    assert s[|q| - 1] == '/';
  }

  lemma SameParts(p: string, x: string, q: string, y: string)
    requires p + x + "/" == q + y + "/" && |p| == |q|
    ensures p == q && x == y
  {
    var s := p + x + "/";
    assert s[..|p|] == p && s[..|q|] == q;
    assert s[|p|..|s| - 1] == x && s[|q|..|s| - 1] == y;
  }

  /** The text determines the stack. */
  lemma {:induction false} RenderInjective(a: seq<string>, b: seq<string>)
    requires (forall i :: 0 <= i < |a| ==> IsName(a[i])) && (forall i :: 0 <= i < |b| ==> IsName(b[i]))
    requires Render(a) == Render(b)
    ensures a == b
  {
    if a == [] || b == [] {
    } else {
      var x, y := a[|a| - 1], b[|b| - 1];
      var p, q := Render(a[..|a| - 1]), Render(b[..|b| - 1]);
      SlashesAlign(p, x, q, y);
      SlashesAlign(q, y, p, x);
      SameParts(p, x, q, y);
      RenderInjective(a[..|a| - 1], b[..|b| - 1]);
      assert a == a[..|a| - 1] + [x] && b == b[..|b| - 1] + [y];
    }
  }
}
