/** Directories (src/fs/namei.c): slots that stand for a finite map from names to inodes. */
module Directory {
  import opened Wrappers
  import opened PathText

  const NAME_LEN: nat := 14

  /** A slot is dead when its inode number is 0. */
  datatype Slot = Slot(nr: nat, name: string)

  /** The part of a path up to its first separator. */
  function Head(path: string): string {
    path[..FirstSeparator(path)]
  }

  /** What lies behind that separator. */
  function Behind(path: string): string {
    var k := FirstSeparator(path);
    if k < |path| then path[k + 1..] else ""
  }

  /** match_name: does a path start with the name of an entry? next is where it goes on. */
  method MatchName(path: string, name: string) returns (b: bool, next: string)
    requires IsName(name) && forall i :: 0 <= i < |path| ==> path[i] != EOS
    ensures b <==> Head(path) == name
    ensures b ==> next == Behind(path)
  {
    var i := 0;
    while i < |path| && i < |name| && path[i] == name[i]
      invariant i <= |path| && i <= |name| && path[..i] == name[..i]
    {
      i := i + 1;
    }
    next := "";
    HeadIs(path, name, i);
    if i < |name| {
      return false, next;
    }
    if i < |path| && !IsSeparator(path[i]) {
      return false, next;
    }
    if i < |path| {
      i := i + 1;
    }
    return true, path[i..];
  }

  lemma HeadIs(path: string, name: string, i: nat)
    requires IsName(name) && i <= |path| && i <= |name| && path[..i] == name[..i]
    requires i == |path| || i == |name| || path[i] != name[i]
    ensures Head(path) == name <==> i == |name| && (i == |path| || IsSeparator(path[i]))
    ensures Head(path) == name ==> FirstSeparator(path) == i
  {
    if i == |name| && (i == |path| || IsSeparator(path[i])) {
      assert forall j :: 0 <= j < i ==> path[..i][j] == name[j];
      FirstSeparatorIs(path, i);
      assert name[..i] == name;
    } else {
      var h, k := Head(path), FirstSeparator(path);
      assert forall j :: 0 <= j < k ==> h[j] == path[j];
    }
  }

  // ----- Slots as a map -----------------------------------------------------

  predicate IsLive(slots: seq<Slot>, i: nat) {
    i < |slots| && slots[i].nr != 0
  }

  predicate Names(slots: seq<Slot>, i: nat, name: string) {
    IsLive(slots, i) && slots[i].name == name
  }

  /** No two live entries have one name; every name fits its slot. */
  ghost predicate Inv(slots: seq<Slot>) {
    && (forall i, j, name :: Names(slots, i, name) && Names(slots, j, name) ==> i == j)
    && (forall i :: 0 <= i < |slots| ==> IsName(slots[i].name) && |slots[i].name| < NAME_LEN)
  }

  /** The first live entry of a name, as the loop of find_entry sees it from slot i on. */
  function FindFrom(slots: seq<Slot>, name: string, i: nat): Option<nat>
    decreases |slots| - i
  {
    if i >= |slots| then None
    else if Names(slots, i, name) then Some(i)
    else FindFrom(slots, name, i + 1)
  }

  lemma {:induction false} FindFromFinds(slots: seq<Slot>, name: string, i: nat)
    ensures match FindFrom(slots, name, i)
            case Some(k) => i <= k && Names(slots, k, name)
            case None => forall k :: i <= k ==> !Names(slots, k, name)
    decreases |slots| - i
  {
    if i >= |slots| || Names(slots, i, name) {
    } else {
      FindFromFinds(slots, name, i + 1);
    }
  }

  /** The inode that a name stands for. */
  function Lookup(slots: seq<Slot>, name: string): Option<nat> {
    match FindFrom(slots, name, 0)
    case Some(k) => if k < |slots| then Some(slots[k].nr) else None
    case None => None
  }

  /** The first dead slot, or the end. */
  function FreeSlot(slots: seq<Slot>): (k: nat)
    ensures k <= |slots| && (k < |slots| ==> slots[k].nr == 0)
    ensures forall i :: 0 <= i < k ==> slots[i].nr != 0
    decreases |slots|
  {
    if slots == [] || slots[0].nr == 0 then 0 else
    var k := FreeSlot(slots[1..]);
    assert forall i :: 1 <= i < 1 + k ==> slots[i] == slots[1..][i - 1];
    1 + k
  }

  /** strncpy into a slot: names of 14 and more characters are cut. */
  function Stored(name: string): string {
    if |name| < NAME_LEN then name else name[..NAME_LEN - 1]
  }

  /** add_entry of an absent name, and the store of its inode number by the caller. */
  function Insert(slots: seq<Slot>, name: string, nr: nat): seq<Slot> {
    var k := FreeSlot(slots);
    var s := Slot(nr, Stored(name));
    if k < |slots| then slots[k := s] else slots + [s]
  }

  /** entry->nr = 0. */
  function Delete(slots: seq<Slot>, name: string): seq<Slot> {
    match FindFrom(slots, name, 0)
    case Some(k) => if k < |slots| then slots[k := slots[k].(nr := 0)] else slots
    case None => slots
  }

  // ----- The map laws -------------------------------------------------------

  /** The names of the slots after an insertion. */
  lemma InsertNames(slots: seq<Slot>, name: string, nr: nat, i: nat, x: string)
    requires nr != 0
    ensures Names(Insert(slots, name, nr), i, x) <==>
            (if i == FreeSlot(slots) then x == Stored(name) else Names(slots, i, x))
  {
  }

  /** Inserting an absent name binds it and keeps every other binding. The slot is the
      first free one; the directory grows only when there is none, and by one. */
  lemma InsertBinds(slots: seq<Slot>, name: string, nr: nat, x: string)
    requires Inv(slots) && nr != 0 && IsName(name) && |name| < NAME_LEN && Lookup(slots, name) == None
    ensures Inv(Insert(slots, name, nr))
    ensures Lookup(Insert(slots, name, nr), x) == if x == name then Some(nr) else Lookup(slots, x)
    ensures |Insert(slots, name, nr)| ==
            if forall i :: 0 <= i < |slots| ==> slots[i].nr != 0 then |slots| + 1 else |slots|
  {
    var s', k := Insert(slots, name, nr), FreeSlot(slots);
    FindFromFinds(slots, name, 0);
    forall i, y
      ensures Names(s', i, y) <==> (if i == k then y == name else Names(slots, i, y))
    {
      InsertNames(slots, name, nr, i, y);
    }
    assert Names(s', k, name);
    FindFromFinds(slots, x, 0);
    FindFromFinds(s', x, 0);
    if FindFrom(slots, x, 0).Some? {
      assert Names(s', FindFrom(slots, x, 0).value, x);
    }
  }

  lemma DeleteNames(slots: seq<Slot>, name: string, i: nat, x: string)
    requires Inv(slots)
    ensures Names(Delete(slots, name), i, x) <==> Names(slots, i, x) && x != name
  {
    FindFromFinds(slots, name, 0);
  }

  /** Deleting a name unbinds it and keeps every other binding, and the size. */
  lemma DeleteUnbinds(slots: seq<Slot>, name: string, x: string)
    requires Inv(slots)
    ensures Inv(Delete(slots, name)) && |Delete(slots, name)| == |slots|
    ensures Lookup(Delete(slots, name), x) == if x == name then None else Lookup(slots, x)
  {
    var s' := Delete(slots, name);
    FindFromFinds(slots, name, 0);
    forall i, y
      ensures Names(s', i, y) <==> Names(slots, i, y) && y != name
    {
      DeleteNames(slots, name, i, y);
    }
    FindFromFinds(slots, x, 0);
    FindFromFinds(s', x, 0);
  }

  /** A name just inserted is found again exactly when it fits its slot. */
  lemma FoundAgainIff(slots: seq<Slot>, name: string, nr: nat)
    requires Inv(slots) && nr != 0 && IsName(name) && Lookup(slots, name) == None
    ensures Lookup(Insert(slots, name, nr), name).Some? <==> |name| < NAME_LEN
  {
    var s' := Insert(slots, name, nr);
    FindFromFinds(slots, name, 0);
    forall i
      ensures Names(s', i, name) <==> i == FreeSlot(slots) && name == Stored(name)
    {
      InsertNames(slots, name, nr, i, name);
    }
    assert Names(s', FreeSlot(slots), name) <==> |name| < NAME_LEN;
    FindFromFinds(s', name, 0);
  }

  /** A name of fourteen characters, put into an empty directory and not found again; its
      first thirteen are found instead. */
  lemma FourteenIsLost(nr: nat)
    requires nr != 0
    ensures var name := "abcdefghijklmn";
            var s := Insert([], name, nr);
            IsName(name) && |name| == NAME_LEN && Lookup(s, name) == None && Lookup(s, name[..13]) == Some(nr)
  {
    var name := "abcdefghijklmn";
    var s := Insert([], name, nr);
    FoundAgainIff([], name, nr);
    assert Lookup([], name) == None;
    assert s == [Slot(nr, name[..13])] && Names(s, 0, name[..13]);
  }

  // ----- Runs against a finite map ------------------------------------------

  datatype Change = Link(name: string, nr: nat) | Unlink(name: string)

  ghost predicate Allowed(m: map<string, nat>, c: Change) {
    match c
    case Link(name, nr) => IsName(name) && 0 < |name| < NAME_LEN && nr != 0 && name !in m
    case Unlink(name) => name in m
  }

  function OnSlots(slots: seq<Slot>, c: Change): seq<Slot> {
    match c
    case Link(name, nr) => Insert(slots, name, nr)
    case Unlink(name) => Delete(slots, name)
  }

  function OnMap(m: map<string, nat>, c: Change): map<string, nat> {
    match c
    case Link(name, nr) => m[name := nr]
    case Unlink(name) => m - {name}
  }

  /** The slots answer every lookup as the map does. */
  ghost predicate Means(slots: seq<Slot>, m: map<string, nat>) {
    forall x :: Lookup(slots, x) == if x in m then Some(m[x]) else None
  }

  ghost predicate AllAllowed(m: map<string, nat>, run: seq<Change>)
    decreases |run|
  {
    run == [] || (Allowed(m, run[0]) && AllAllowed(OnMap(m, run[0]), run[1..]))
  }

  function RunSlots(slots: seq<Slot>, run: seq<Change>): seq<Slot>
    decreases |run|
  {
    if run == [] then slots else RunSlots(OnSlots(slots, run[0]), run[1..])
  }

  function RunMap(m: map<string, nat>, run: seq<Change>): map<string, nat>
    decreases |run|
  {
    if run == [] then m else RunMap(OnMap(m, run[0]), run[1..])
  }

  lemma ChangeRefines(slots: seq<Slot>, m: map<string, nat>, c: Change)
    requires Inv(slots) && Means(slots, m) && Allowed(m, c)
    ensures Inv(OnSlots(slots, c)) && Means(OnSlots(slots, c), OnMap(m, c))
  {
    forall x
      ensures Inv(OnSlots(slots, c))
      ensures Lookup(OnSlots(slots, c), x) == if x in OnMap(m, c) then Some(OnMap(m, c)[x]) else None
    {
      if c.Link? {
        InsertBinds(slots, c.name, c.nr, x);
      } else {
        DeleteUnbinds(slots, c.name, x);
      }
    }
    assert Inv(OnSlots(slots, c)) by {
      if c.Link? {
        InsertBinds(slots, c.name, c.nr, "");
      } else {
        DeleteUnbinds(slots, c.name, "");
      }
    }
  }

  /** Over every run of links and unlinks the directory is the finite map. */
  lemma {:induction false} DirectoryIsAMap(slots: seq<Slot>, m: map<string, nat>, run: seq<Change>)
    requires Inv(slots) && Means(slots, m) && AllAllowed(m, run)
    ensures Inv(RunSlots(slots, run)) && Means(RunSlots(slots, run), RunMap(m, run))
    decreases |run|
  {
    if run == [] {
    } else {
      ChangeRefines(slots, m, run[0]);
      DirectoryIsAMap(OnSlots(slots, run[0]), OnMap(m, run[0]), run[1..]);
    }
  }
}
