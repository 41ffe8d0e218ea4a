/** abspath as it runs: the text of the current directory rewritten in its buffer. */
module PathBuffer {
  import opened PathText

  predicate NoEnd(s: string) {
    forall i :: 0 <= i < |s| ==> s[i] != EOS
  }

  /** The buffer holds a text, followed by the end mark. */
  ghost predicate Holds(buf: array<char>, text: string)
    reads buf
  {
    |text| < buf.Length && NoEnd(text) && buf[..|text|] == text && buf[|text|] == EOS
  }

  /** strrsep on a text: the place of its last separator, or -1. */
  function LastSeparator(s: string): (k: int)
    ensures -1 <= k < |s| && (k >= 0 ==> IsSeparator(s[k]))
    ensures forall i :: k < i < |s| ==> !IsSeparator(s[i])
  {
    if s == "" then -1
    else if IsSeparator(s[|s| - 1]) then |s| - 1
    else LastSeparator(s[..|s| - 1])
  }

  method Strrsep(buf: array<char>, ghost text: string) returns (last: int)
    requires Holds(buf, text)
    ensures last == LastSeparator(text)
  {
    last := -1;
    var i := 0;
    assert text[..0] == "";
    assert forall j :: 0 <= j < |text| ==> buf[j] == buf[..|text|][j] != EOS;
    while buf[i] != EOS
      invariant i <= |text| && last == LastSeparator(text[..i])
      decreases |text| - i
    {
      assert buf[i] == buf[..|text|][i] == text[i] && text[..i + 1][..i] == text[..i];
      if IsSeparator(buf[i]) {
        last := i;
      }
      i := i + 1;
    }
    assert text[..|text|] == text;
  }

  /** strsep: the place of the first separator, |s| for a null pointer. */
  method Strsep(s: string) returns (k: nat)
    ensures k == FirstSeparator(s)
  {
    k := 0;
    while k < |s| && !IsSeparator(s[k])
      invariant k <= |s| && IsPlain(s[..k])
    {
      k := k + 1;
    }
    FirstSeparatorIs(s, k);
  }

  /** *(buf + at) = 0. */
  method Cut(buf: array<char>, at: nat, ghost text: string)
    requires Holds(buf, text) && at <= |text|
    modifies buf
    ensures Holds(buf, text[..at])
  {
    buf[at] := EOS;
    assert buf[..at] == text[..at];
  }

  /** strncpy and strcpy behind the text: s and the end mark. */
  method Put(buf: array<char>, at: nat, s: string, ghost text: string)
    requires Holds(buf, text) && at == |text| && at + |s| < buf.Length && NoEnd(s)
    modifies buf
    ensures Holds(buf, text + s)
  {
    for i := 0 to |s|
      invariant buf[..at + i] == text + s[..i]
    {
      buf[at + i] := s[i];
      assert buf[..at + i + 1] == text + s[..i + 1];
    }
    buf[at + |s|] := EOS;
    assert buf[..at + |s|] == text + s;
  }

  // ----- The top of the stack in the text -----------------------------------

  ghost predicate Names(stack: seq<string>) {
    forall i :: 0 <= i < |stack| ==> IsName(stack[i])
  }

  lemma {:induction false} RenderNoEnd(stack: seq<string>)
    requires Names(stack)
    ensures NoEnd(Render(stack))
  {
    if stack == [] {
    } else {
      RenderNoEnd(stack[..|stack| - 1]);
    }
  }

  /** Without its last slash the text ends in the top name; the slash before that is
      the end of the text below. */
  lemma RenderTop(stack: seq<string>)
    requires stack != [] && Names(stack)
    ensures |Render(stack)| >= 2
    ensures var below := Render(stack[..|stack| - 1]);
            && LastSeparator(Render(stack)[..|Render(stack)| - 1]) == |below| - 1
            && Render(stack)[..|Render(stack)| - 1][..|below|] == below
  {
    var below, name := Render(stack[..|stack| - 1]), stack[|stack| - 1];
    var t := Render(stack)[..|Render(stack)| - 1];
    assert t == below + name;
    assert forall i :: |below| <= i < |t| ==> t[i] == name[i - |below|] && !IsSeparator(t[i]);
    assert t[|below| - 1] == '/';
  }

  lemma LastOfRender(stack: seq<string>)
    ensures LastSeparator(Render(stack)) == |Render(stack)| - 1
  {
  }

  /** "..": the text loses its last name, but not the root. */
  method Pop(buf: array<char>, cur: nat, ghost stack: seq<string>) returns (next: nat)
    requires Names(stack) && Holds(buf, Render(stack)) && cur == |Render(stack)|
    modifies buf
    ensures Holds(buf, Render(Enter(stack, ".."))) && next == |Render(Enter(stack, ".."))| <= cur
  {
    next := cur;
    if cur - 1 != 0 {
      ghost var text := Render(stack);
      RenderTop(stack);
      Cut(buf, cur - 1, text);
      var last := Strrsep(buf, text[..cur - 1]);
      next := last + 1;
      Cut(buf, next, text[..cur - 1]);
    } else if stack != [] {
      RenderTop(stack);
    }
  }

  /** Any other name goes behind the text, with a slash behind it. */
  method Push(buf: array<char>, cur: nat, name: string, ghost stack: seq<string>) returns (next: nat)
    requires Holds(buf, Render(stack)) && cur == |Render(stack)|
    requires IsName(name) && cur + |name| + 1 < buf.Length
    modifies buf
    ensures Holds(buf, Render(stack + [name])) && next == |Render(stack + [name])|
  {
    RenderPush(stack, name);
    Put(buf, cur, name + "/", Render(stack));
    next := cur + |name| + 1;
  }

  /** One name of the path, as the loop and the code behind it treat it. */
  method Apply(buf: array<char>, cur: nat, name: string, ghost stack: seq<string>) returns (next: nat)
    requires Names(stack) && Holds(buf, Render(stack)) && cur == |Render(stack)|
    requires IsName(name) && cur + |name| + 1 < buf.Length
    modifies buf
    ensures Names(Enter(stack, name)) && Holds(buf, Render(Enter(stack, name)))
    ensures next == |Render(Enter(stack, name))| <= cur + |name| + 1
  {
    if name == "." {
      return cur;
    }
    if name == ".." {
      next := Pop(buf, cur, stack);
      return;
    }
    next := Push(buf, cur, name, stack);
  }

  /** abspath: the buffer, which held the text of a stack of names, holds that of the
      stack that the path leads to. */
  method AbsPath(buf: array<char>, path: string, ghost stack: seq<string>)
    requires Names(stack) && Holds(buf, Render(stack)) && NoEnd(path)
    requires |Render(stack)| + |path| + 1 < buf.Length
    modifies buf
    ensures Holds(buf, Render(Resolve(stack, path)))
  {
    var pathname, cur := path, 1;
    ghost var now := stack;
    if pathname != "" && IsSeparator(pathname[0]) {
      assert Render(stack)[..1] == "/" == Render([]);
      Cut(buf, 1, Render(stack));
      pathname, now := pathname[1..], [];
    } else {
      var last := Strrsep(buf, Render(stack));
      LastOfRender(stack);
      cur := last + 1;
      assert Render(stack)[..cur] == Render(stack);
      Cut(buf, cur, Render(stack));
    }
    var k := Strsep(pathname);
    while k < |pathname|
      invariant Names(now) && Holds(buf, Render(now)) && cur == |Render(now)| && NoEnd(pathname)
      invariant cur + |pathname| + 1 < buf.Length && k == FirstSeparator(pathname)
      invariant Walk(now, Split(pathname)) == Resolve(stack, path)
      decreases |pathname|
    {
      WalkSplit(now, pathname);
      ghost var was := now;
      cur := Apply(buf, cur, pathname[..k], was);
      now := Enter(now, pathname[..k]);
      pathname := pathname[k + 1..];
      k := Strsep(pathname);
    }
    assert Split(pathname) == [pathname];
    if pathname != "" {
      assert IsName(pathname[..k]) && pathname[..k] == pathname;
      cur := Apply(buf, cur, pathname, now);
    }
  }

  lemma WalkSplit(stack: seq<string>, path: string)
    requires FirstSeparator(path) < |path|
    ensures var k := FirstSeparator(path);
            Walk(stack, Split(path)) == Walk(Enter(stack, path[..k]), Split(path[k + 1..]))
  {
    var k := FirstSeparator(path);
    WalkUnrolls(stack, path[..k], Split(path[k + 1..]));
  }
}
