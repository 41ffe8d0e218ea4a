/** What namei (src/fs/namei.c) finds, one name at a time: where a path starts, what its last name
    adds, and what a final separator does. */
module PathReach {
  import opened Wrappers
  import opened PathText
  import opened PathWalk

  /** A relative path of one name is looked up in the current directory. */
  lemma ReachName(t: Tree, root: nat, cwd: nat, x: string)
    requires IsPlain(x) && x != ""
    ensures Reach(t, root, cwd, x) == Child(t, cwd, x)
  {
    SplitPlain(x);
    assert !IsSeparator(x[0]);
  }

  /** A leading separator starts at the root: the current directory does not matter, and what
      follows is found as from the root. */
  lemma ReachAbsolute(t: Tree, root: nat, cwd: nat, c: char, y: string)
    requires IsSeparator(c)
    ensures forall d: nat :: Reach(t, root, cwd, [c] + y) == Reach(t, root, d, [c] + y)
    ensures y == "" ==> Reach(t, root, cwd, [c] + y) == Some(root)
    ensures y != "" && !IsSeparator(y[0]) ==> Reach(t, root, cwd, [c] + y) == Reach(t, root, root, y)
  {
    assert ([c] + y)[1..] == y;
    SplitPlain("");
  }

  /** The directory d, if it is one and may be searched. */
  function Searched(t: Tree, d: Option<nat>): Option<nat> {
    if d.Some? && d.value in t.dirs && d.value in t.open then d else None
  }

  /** x/y for one name y: y looked up where x leads, if that is a directory that may be searched. */
  lemma ReachChild(t: Tree, root: nat, cwd: nat, x: string, y: string)
    requires x != "" && !IsSeparator(x[|x| - 1]) && IsPlain(y) && y != ""
    ensures Reach(t, root, cwd, x + "/" + y) ==
            match Searched(t, Reach(t, root, cwd, x))
            case None => None
            case Some(d) => Child(t, d, y)
  {
    assert !IsSeparator(y[0]);
    ReachJoins(t, root, cwd, x, y);
    match Searched(t, Reach(t, root, cwd, x))
    case None =>
    case Some(d) => ReachName(t, root, d, y);
  }

  /** x/ is what x leads to, if that is a directory that may be searched. The empty path is nothing. */
  lemma ReachSlash(t: Tree, root: nat, cwd: nat, x: string)
    requires x != "" && !IsSeparator(x[|x| - 1])
    ensures Reach(t, root, cwd, x + "/") == Searched(t, Reach(t, root, cwd, x))
    ensures Reach(t, root, cwd, "") == None
  {
    CutInside(x, "", 0);
    assert x + "/" + "" == x + "/";
    SplitPlain("");
    if IsSeparator(x[0]) && |x| > 1 {
      assert (x + "/")[1..] == x[1..] + "/" + "";
      DescendJoin(t, root, x[1..], "");
    } else {
      DescendJoin(t, cwd, x, "");
    }
  }
}
