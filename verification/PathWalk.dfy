/** find_entry and add_entry over the slots of a directory, and the walk of named and namei
    over the names of a path (src/fs/namei.c). */
module PathWalk {
  import opened Wrappers
  import opened PathText
  import opened PathBuffer
  import opened Directory

  class Dir {
    var slots: seq<Slot>

    /** find_entry: the first live entry that the path starts with, and the rest of the path. */
    method FindEntry(path: string) returns (r: Option<nat>, next: string)
      requires Inv(slots) && NoEnd(path)
      ensures r == FindFrom(slots, Head(path), 0)
      ensures r.Some? ==> next == Behind(path)
    {
      r, next := None, "";
      for i := 0 to |slots|
        invariant FindFrom(slots, Head(path), i) == FindFrom(slots, Head(path), 0)
      {
        var same;
        same, next := MatchName(path, slots[i].name);
        if same && slots[i].nr != 0 {
          return Some(i), next;
        }
      }
    }

    /** add_entry: the entry of the name if there is one, else the first free slot, dead as
        yet; the directory grows by one slot when there is none. */
    method AddEntry(name: string) returns (k: nat)
      requires Inv(slots) && IsName(name)
      modifies this
      ensures k < |slots|
      ensures match FindFrom(old(slots), name, 0)
              case Some(i) => k == i && slots == old(slots)
              case None => k == FreeSlot(old(slots)) && slots == Insert(old(slots), name, 0)
    {
      FirstSeparatorIs(name, |name|);
      var found, next := FindEntry(name);
      assert name[..|name|] == name;
      FindFromFinds(slots, name, 0);
      if found.Some? {
        return found.value;
      }
      k := 0;
      while k < |slots| && slots[k].nr != 0
        invariant k <= |slots| && forall i :: 0 <= i < k ==> slots[i].nr != 0
      {
        k := k + 1;
      }
      FreeSlotIs(slots, k);
      if k == |slots| {
        slots := slots + [Slot(0, "")];
      }
      slots := slots[k := Slot(0, Stored(name))];
    }

    /** The entry part of sys_link; an old name is refused. */
    method LinkName(name: string, nr: nat) returns (ok: bool)
      requires Inv(slots) && IsName(name) && nr != 0
      modifies this
      ensures ok <==> Lookup(old(slots), name) == None
      ensures slots == if ok then Insert(old(slots), name, nr) else old(slots)
    {
      FirstSeparatorIs(name, |name|);
      assert name[..|name|] == name;
      var found, next := FindEntry(name);
      FindFromFinds(slots, name, 0);
      if found.Some? {
        return false;
      }
      var k := AddEntry(name);
      slots := slots[k := slots[k].(nr := nr)];
      ok := true;
    }

    /** The entry part of sys_unlink. */
    method UnlinkName(name: string) returns (ok: bool)
      requires Inv(slots) && IsName(name)
      modifies this
      ensures ok <==> Lookup(old(slots), name).Some?
      ensures slots == Delete(old(slots), name)
    {
      FirstSeparatorIs(name, |name|);
      assert name[..|name|] == name;
      var found, next := FindEntry(name);
      FindFromFinds(slots, name, 0);
      if found == None {
        return false;
      }
      slots := slots[found.value := slots[found.value].(nr := 0)];
      ok := true;
    }
  }

  lemma FreeSlotIs(slots: seq<Slot>, k: nat)
    requires k <= |slots| && (forall i :: 0 <= i < k ==> slots[i].nr != 0) && (k < |slots| ==> slots[k].nr == 0)
    ensures FreeSlot(slots) == k
  {
  }

  // ----- Walking a path -----------------------------------------------------

  /** The directories by inode, and those that the task may search. */
  datatype Tree = Tree(dirs: map<nat, seq<Slot>>, open: set<nat>)

  ghost predicate Sound(t: Tree) {
    forall d :: d in t.dirs ==> Inv(t.dirs[d])
  }

  /** One name looked up in a directory. */
  function Child(t: Tree, d: nat, name: string): Option<nat> {
    if d in t.dirs then Lookup(t.dirs[d], name) else None
  }

  /** The directory reached by all names but the last. */
  function Parent(t: Tree, d: nat, names: seq<string>): Option<nat>
    decreases |names|
  {
    if |names| <= 1 then Some(d) else
    match Child(t, d, names[0])
    case None => None
    case Some(nr) => if nr in t.dirs && nr in t.open then Parent(t, nr, names[1..]) else None
  }

  /** Where a path starts, and what is then left of it. */
  function Start(root: nat, cwd: nat, path: string): nat {
    if path != "" && IsSeparator(path[0]) then root else cwd
  }

  function Left(path: string): string {
    if path != "" && IsSeparator(path[0]) then path[1..] else path
  }

  function Last(names: seq<string>): string
    requires names != []
  {
    names[|names| - 1]
  }

  /** Names walked from a directory; an empty last one stands for the directory reached. */
  function Descend(t: Tree, d: nat, names: seq<string>): Option<nat>
    requires names != []
  {
    match Parent(t, d, names)
    case None => None
    case Some(p) => if Last(names) == "" then Some(p) else Child(t, p, Last(names))
  }

  /** A path: from the root or from the current directory, by its names. */
  function Reach(t: Tree, root: nat, cwd: nat, path: string): Option<nat> {
    if path == "" then None else Descend(t, Start(root, cwd, path), Split(Left(path)))
  }

  lemma LastOfCons(name: string, names: seq<string>)
    requires names != []
    ensures Last([name] + names) == Last(names)
  {
  }

  lemma {:induction false} FirstBeforeLast(s: string)
    requires LastSeparator(s) >= 0
    ensures FirstSeparator(s) <= LastSeparator(s)
  {
    var k := FirstSeparator(s);
    var p := s[..k];
    assert forall i :: 0 <= i < k ==> p[i] == s[i] && !IsSeparator(s[i]);
  }

  /** The first name of a text with separators, and the others. */
  lemma {:induction false} SplitFirst(s: string)
    requires LastSeparator(s) >= 0
    ensures FirstSeparator(s) <= LastSeparator(s)
    ensures Split(s) == [Head(s)] + Split(Behind(s)) && Last(Split(s)) == Last(Split(Behind(s)))
    ensures LastSeparator(Behind(s)) == LastSeparator(s) - FirstSeparator(s) - 1
  {
    FirstBeforeLast(s);
    LastOfCons(Head(s), Split(Behind(s)));
    LastBehind(s, FirstSeparator(s));
  }

  lemma {:induction false} LastBehind(s: string, k: nat)
    requires k <= LastSeparator(s)
    ensures LastSeparator(s[k + 1..]) == LastSeparator(s) - k - 1
  {
    LastIs(s[k + 1..], LastSeparator(s) - k - 1);
  }

  lemma {:induction false} LastIs(s: string, k: int)
    requires -1 <= k < |s| && (k >= 0 ==> IsSeparator(s[k])) && forall i :: k < i < |s| ==> !IsSeparator(s[i])
    ensures LastSeparator(s) == k
  {
    if s == "" || k == |s| - 1 {
    } else {
      LastIs(s[..|s| - 1], k);
    }
  }

  /** find_entry in the directory d of a tree. */
  method FindChild(t: Tree, d: nat, path: string) returns (r: Option<nat>, next: string)
    requires Sound(t) && d in t.dirs && NoEnd(path)
    ensures r == Child(t, d, Head(path)) && (r.Some? ==> next == Behind(path))
  {
    var dir := new Dir;
    dir.slots := t.dirs[d];
    var found;
    found, next := dir.FindEntry(path);
    FindFromFinds(dir.slots, Head(path), 0);
    r := if found.Some? then Some(dir.slots[found.value].nr) else None;
  }

  /** named: the directory that holds the last name of a path, and that name. */
  method Named(t: Tree, root: nat, cwd: nat, path: string) returns (r: Option<nat>, next: string)
    requires Sound(t) && root in t.dirs && cwd in t.dirs && NoEnd(path)
    ensures r == if path == "" then None else Parent(t, Start(root, cwd, path), Split(Left(path)))
    ensures r.Some? ==> next == Last(Split(Left(path))) && r.value in t.dirs
  {
    if path == "" {
      return None, "";
    }
    var inode, left := cwd, path;
    if IsSeparator(path[0]) {
      inode, left := root, path[1..];
    }
    var last := LastSeparator(left);
    if last < 0 {
      SplitPlain(left);
      return Some(inode), left;
    }
    r, next := Walk(t, inode, left, |left| - last - 1);
  }

  /** Its loop; right is the length of the last name. */
  method Walk(t: Tree, start: nat, text: string, right: nat) returns (r: Option<nat>, next: string)
    requires Sound(t) && start in t.dirs && NoEnd(text) && LastSeparator(text) == |text| - right - 1 >= 0
    ensures r == Parent(t, start, Split(text))
    ensures r.Some? ==> next == Last(Split(text)) && r.value in t.dirs
  {
    var inode, left := start, text;
    while |left| > right
      invariant inode in t.dirs && NoEnd(left) && |left| >= right && LastSeparator(left) == |left| - right - 1
      invariant Parent(t, inode, Split(left)) == Parent(t, start, Split(text)) && Last(Split(left)) == Last(Split(text))
      decreases |left|
    {
      SplitFirst(left);
      ParentUnrolls(t, inode, Head(left), Split(Behind(left)));
      var nr;
      nr, next := FindChild(t, inode, left);
      if nr == None || nr.value !in t.dirs || nr.value !in t.open {
        return None, "";
      }
      inode, left := nr.value, next;
    }
    SplitPlain(left);
    return Some(inode), left;
  }

  lemma ParentUnrolls(t: Tree, d: nat, name: string, names: seq<string>)
    requires names != []
    ensures Last([name] + names) == Last(names)
    ensures Parent(t, d, [name] + names) ==
            match Child(t, d, name)
            case None => None
            case Some(nr) => if nr in t.dirs && nr in t.open then Parent(t, nr, names) else None
  {
    assert ([name] + names)[1..] == names;
  }

  /** namei: the fold of the lookups over the names of the path. */
  method Namei(t: Tree, root: nat, cwd: nat, path: string) returns (r: Option<nat>)
    requires Sound(t) && root in t.dirs && cwd in t.dirs && NoEnd(path)
    ensures r == Reach(t, root, cwd, path)
  {
    var dir, next := Named(t, root, cwd, path);
    if dir == None {
      return None;
    }
    if next == "" {
      return dir;
    }
    LastNameIsPlain(Left(path));
    var behind;
    r, behind := FindChild(t, dir.value, next);
  }

  lemma {:induction false} LastNameIsPlain(s: string)
    requires NoEnd(s)
    ensures Head(Last(Split(s))) == Last(Split(s)) && NoEnd(Last(Split(s)))
    decreases |s|
  {
    var k := FirstSeparator(s);
    if k == |s| {
      assert s[..k] == s;
    } else {
      LastNameIsPlain(s[k + 1..]);
      LastOfCons(s[..k], Split(s[k + 1..]));
    }
  }

  // ----- Paths that compose -------------------------------------------------

  lemma {:induction false} ParentJoin(t: Tree, d: nat, a: seq<string>, b: seq<string>)
    requires a != [] && b != [] && Last(a) != ""
    ensures Parent(t, d, a + b) ==
            match Descend(t, d, a)
            case None => None
            case Some(nr) => if nr in t.dirs && nr in t.open then Parent(t, nr, b) else None
    decreases |a|
  {
    if |a| == 1 {
      assert a == [a[0]];
      ParentUnrolls(t, d, a[0], b);
    } else {
      var rest := a[1..];
      assert a == [a[0]] + rest;
      ParentUnrolls(t, d, a[0], rest);
      ParentUnrolls(t, d, a[0], rest + b);
      Regroup([a[0]], rest, b);
      if Child(t, d, a[0]).Some? {
        ParentJoin(t, Child(t, d, a[0]).value, rest, b);
      }
    }
  }

  lemma {:induction false} DescendJoin(t: Tree, d: nat, x: string, y: string)
    requires x != "" && !IsSeparator(x[|x| - 1])
    ensures Descend(t, d, Split(x + "/" + y)) ==
            match Descend(t, d, Split(x))
            case None => None
            case Some(nr) => if nr in t.dirs && nr in t.open then Descend(t, nr, Split(y)) else None
  {
    SplitJoin(x, y);
    LastName(x);
    ParentJoin(t, d, Split(x), Split(y));
    assert Last(Split(x) + Split(y)) == Last(Split(y));
  }

  /** Walking x/y is walking x, and then y from there, for an x that does not end in a
      separator and a y that does not start with one. */
  lemma {:induction false} ReachJoins(t: Tree, root: nat, cwd: nat, x: string, y: string)
    requires x != "" && !IsSeparator(x[|x| - 1]) && y != "" && !IsSeparator(y[0])
    ensures Reach(t, root, cwd, x + "/" + y) ==
            match Reach(t, root, cwd, x)
            case None => None
            case Some(d) => if d in t.dirs && d in t.open then Reach(t, root, d, y) else None
  {
    CutInside(x, y, 0);
    DescendJoin(t, Start(root, cwd, x), Left(x), y);
  }
}
