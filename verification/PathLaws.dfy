/** What abspath (src/fs/namei.c) makes of a name, of ".", of ".." and of a leading separator, on the
    stack of names and on the text. With ResolveJoins this settles every path. */
module PathLaws {
  import opened PathText

  predicate IsRealName(x: string) {
    IsName(x) && x != "" && x != "." && x != ".."
  }

  lemma NameIsPlain(x: string)
    requires IsName(x)
    ensures IsPlain(x) && (x != "" ==> !IsSeparator(x[0]))
  {
  }

  // ----- On the stack -------------------------------------------------------

  /** A name goes on top. */
  lemma ResolveName(stack: seq<string>, x: string)
    requires IsRealName(x)
    ensures Resolve(stack, x) == stack + [x]
  {
    NameIsPlain(x);
    SplitPlain(x);
  }

  /** ".." takes the top off, and leaves the root as it is; "." and the empty path leave everything. */
  lemma ResolveDots(stack: seq<string>, x: string)
    ensures Resolve(stack + [x], "..") == stack
    ensures Resolve([], "..") == []
    ensures Resolve(stack, ".") == stack && Resolve(stack, "") == stack
  {
    SplitPlain("..");
    SplitPlain(".");
    SplitPlain("");
  }

  /** So ".." undoes a name. */
  lemma ParentUndoesName(stack: seq<string>, x: string)
    requires IsRealName(x)
    ensures Resolve(Resolve(stack, x), "..") == stack && Resolve(stack, x + "/..") == stack
  {
    ResolveName(stack, x);
    ResolveDots(stack, x);
    NameIsPlain(x);
    ResolveJoins(stack, x, "..");
    assert x + "/" + ".." == x + "/..";
  }

  /** A leading separator starts at the root, whatever the current directory is. */
  lemma ResolveAbsolute(stack: seq<string>, c: char, y: string)
    requires IsSeparator(c) && (y == "" || !IsSeparator(y[0]))
    ensures Resolve(stack, [c] + y) == Resolve([], y)
  {
    assert ([c] + y)[1..] == y;
  }

  // ----- On the text --------------------------------------------------------

  /** A name is written behind the text, with a separator behind it; the root is one separator. */
  lemma TextOfName(stack: seq<string>, x: string)
    requires IsRealName(x)
    ensures Render(Resolve(stack, x)) == Render(stack) + (x + "/") && Render([]) == "/"
  {
    ResolveName(stack, x);
    RenderPush(stack, x);
  }

  /** j is the place of the last separator of t but one. */
  predicate LastButOne(t: string, j: nat) {
    && j + 1 < |t| && IsSeparator(t[j]) && IsSeparator(t[|t| - 1])
    && forall i :: j < i < |t| - 1 ==> !IsSeparator(t[i])
  }

  lemma NameEnds(p: string, x: string)
    requires IsName(x) && p != "" && IsSeparator(p[|p| - 1])
    ensures LastButOne(p + (x + "/"), |p| - 1) && (p + (x + "/"))[..|p|] == p
  {
    var t := p + (x + "/");
    forall i | |p| - 1 < i < |t| - 1
      ensures !IsSeparator(t[i])
    {
      assert t[i] == x[i - |p|];
    }
  }

  /** ".." leaves the text up to its last separator but one, and the text of the root as it is. */
  lemma TextOfParent(stack: seq<string>) returns (j: nat)
    requires Canonical(stack)
    ensures stack == [] ==> Render(stack) == Render(Resolve(stack, "..")) == "/"
    ensures stack != [] ==>
              LastButOne(Render(stack), j) && Render(Resolve(stack, "..")) == Render(stack)[..j + 1]
  {
    if stack == [] {
      ResolveDots([], "");
      j := 0;
    } else {
      var rest, x := stack[..|stack| - 1], stack[|stack| - 1];
      assert stack == rest + [x];
      ResolveDots(rest, x);
      RenderPush(rest, x);
      NameEnds(Render(rest), x);
      j := |Render(rest)| - 1;
    }
  }
}
