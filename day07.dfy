/** Day 7: a directory tree rebuilt from a terminal transcript, and the sizes of its directories.
    The `Rc<RefCell<DirectoryListing>>` nodes become an arena: directory `i` is `arena[i]`, the
    root is `arena[0]`, and links are indices. */
module Day07 {
  import opened Util
  import opened Text

  /** A `HashMap<String, V>` as a list of entries in insertion order. The map's own iteration
      order is unspecified; this model fixes it to insertion order. */
  type Table<V> = seq<(string, V)>

  /** `get(name)`. */
  function Lookup<V>(t: Table<V>, name: string): Option<V>
  {
    if t == [] then None else if t[0].0 == name then Some(t[0].1) else Lookup(t[1..], name)
  }

  /** `insert(name, v)`: overwrite the entry for `name`, or add one at the end. */
  function Insert<V>(t: Table<V>, name: string, v: V): (r: Table<V>)
    ensures |r| == |t| || |r| == |t| + 1
  {
    if t == [] then [(name, v)]
    else if t[0].0 == name then [(name, v)] + t[1..]
    else [t[0]] + Insert(t[1..], name, v)
  }

  /** No name has two entries, as in a `HashMap`. */
  predicate UniqueNames<V>(t: Table<V>)
  {
    t == [] || (Lookup(t[1..], t[0].0).None? && UniqueNames(t[1..]))
  }

  /** After an insertion, `name` maps to the new value and every other name to what it did. */
  lemma {:induction false} LookupInsert<V>(t: Table<V>, name: string, v: V, other: string)
    ensures Lookup(Insert(t, name, v), other) == if other == name then Some(v) else Lookup(t, other)
  {
    if t != [] && t[0].0 != name {
      LookupInsert(t[1..], name, v, other);
      assert Insert(t, name, v)[1..] == Insert(t[1..], name, v);
    }
  }

  /** Insertion keeps the names unique. */
  lemma {:induction false} InsertUnique<V>(t: Table<V>, name: string, v: V)
    requires UniqueNames(t)
    ensures UniqueNames(Insert(t, name, v))
  {
    if t != [] {
      var r := Insert(t, name, v);
      if t[0].0 == name {
        assert r[1..] == t[1..];
      } else {
        InsertUnique(t[1..], name, v);
        LookupInsert(t[1..], name, v, t[0].0);
        assert r[1..] == Insert(t[1..], name, v);
      }
    }
  }

  /** Inserting the same entry twice is the same as inserting it once. */
  lemma {:induction false} InsertTwice<V>(t: Table<V>, name: string, v: V)
    ensures Insert(Insert(t, name, v), name, v) == Insert(t, name, v)
  {
    if t != [] && t[0].0 != name {
      InsertTwice(t[1..], name, v);
      assert Insert(t, name, v)[1..] == Insert(t[1..], name, v);
    }
  }

  /** Inserting a name that is absent adds an entry at the end. */
  lemma {:induction false} InsertAbsent<V>(t: Table<V>, name: string, v: V)
    requires Lookup(t, name).None?
    ensures Insert(t, name, v) == t + [(name, v)]
  {
    if t != [] {
      InsertAbsent(t[1..], name, v);
      assert t == [t[0]] + t[1..];
    }
  }

  /** `values().sum()`. */
  function Total(t: Table<nat>): nat
  {
    if t == [] then 0 else t[0].1 + Total(t[1..])
  }

  /** The sum after an insertion: the old value of the name, if any, is replaced by the new one. */
  lemma {:induction false} TotalInsert(t: Table<nat>, name: string, v: nat)
    ensures Total(Insert(t, name, v)) + (match Lookup(t, name) case None => 0 case Some(w) => w)
            == Total(t) + v
  {
    if t != [] && t[0].0 != name {
      TotalInsert(t[1..], name, v);
      assert Insert(t, name, v)[1..] == Insert(t[1..], name, v);
    }
  }

  /** A `DirectoryListing`: file sizes by name, subdirectories by name (as arena indices), and
      the parent's index. */
  datatype Dir = Dir(files: Table<nat>, subdirs: Table<nat>, parent: Option<nat>)

  /** Every subdirectory comes later in the arena than its parent directory. */
  ghost predicate ChildrenLater(arena: seq<Dir>)
  {
    forall i, t | 0 <= i < |arena| && 0 <= t < |arena[i].subdirs| :: i < arena[i].subdirs[t].1 < |arena|
  }

  /** `DirectoryListing::size`: its own files plus, recursively, its subdirectories. */
  function Size(arena: seq<Dir>, i: nat): nat
    requires ChildrenLater(arena) && i < |arena|
    decreases |arena| - i, 1, 0
  {
    Total(arena[i].files) + ChildSizes(arena, i, |arena[i].subdirs|)
  }

  /** The sizes of the first `t` subdirectories of directory `i`, summed. */
  function ChildSizes(arena: seq<Dir>, i: nat, t: nat): nat
    requires ChildrenLater(arena) && i < |arena| && t <= |arena[i].subdirs|
    decreases |arena| - i, 0, t
  {
    if t == 0 then 0 else ChildSizes(arena, i, t - 1) + Size(arena, arena[i].subdirs[t - 1].1)
  }

  /** `all_sizes`: the sizes of every directory below `i`, subdirectory by subdirectory, then the
      size of `i` itself. */
  function AllSizes(arena: seq<Dir>, i: nat): seq<nat>
    requires ChildrenLater(arena) && i < |arena|
    decreases |arena| - i, 1, 0
  {
    ChildAllSizes(arena, i, |arena[i].subdirs|) + [Size(arena, i)]
  }

  /** The `all_sizes` of the first `t` subdirectories of directory `i`, concatenated. */
  function ChildAllSizes(arena: seq<Dir>, i: nat, t: nat): seq<nat>
    requires ChildrenLater(arena) && i < |arena| && t <= |arena[i].subdirs|
    decreases |arena| - i, 0, t
  {
    if t == 0 then [] else ChildAllSizes(arena, i, t - 1) + AllSizes(arena, arena[i].subdirs[t - 1].1)
  }

  /** A directory is at least as large as each of its subdirectories. */
  lemma {:induction false} ChildSizeBelow(arena: seq<Dir>, i: nat, t: nat, u: nat)
    requires ChildrenLater(arena) && i < |arena| && u < t <= |arena[i].subdirs|
    ensures Size(arena, arena[i].subdirs[u].1) <= ChildSizes(arena, i, t) <= Size(arena, i)
    decreases t
  {
    if u < t - 1 {
      ChildSizeBelow(arena, i, t - 1, u);
    }
    if t < |arena[i].subdirs| {
      ChildSizesGrow(arena, i, t);
    }
  }

  /** Counting more subdirectories never lowers the sum. */
  lemma {:induction false} ChildSizesGrow(arena: seq<Dir>, i: nat, t: nat)
    requires ChildrenLater(arena) && i < |arena| && t <= |arena[i].subdirs|
    ensures ChildSizes(arena, i, t) <= ChildSizes(arena, i, |arena[i].subdirs|)
    decreases |arena[i].subdirs| - t
  {
    if t < |arena[i].subdirs| {
      ChildSizesGrow(arena, i, t + 1);
    }
  }

  /** `all_sizes(dir)` ends with the size of `dir`, and no entry exceeds it. */
  lemma {:induction false} AllSizesBounded(arena: seq<Dir>, i: nat)
    requires ChildrenLater(arena) && i < |arena|
    ensures AllSizes(arena, i)[|AllSizes(arena, i)| - 1] == Size(arena, i)
    ensures forall k | 0 <= k < |AllSizes(arena, i)| :: AllSizes(arena, i)[k] <= Size(arena, i)
    decreases |arena| - i, 1, 0
  {
    ChildAllSizesBounded(arena, i, |arena[i].subdirs|);
  }

  /** Each entry from the first `t` subdirectories is at most their summed size. */
  lemma {:induction false} ChildAllSizesBounded(arena: seq<Dir>, i: nat, t: nat)
    requires ChildrenLater(arena) && i < |arena| && t <= |arena[i].subdirs|
    ensures forall k | 0 <= k < |ChildAllSizes(arena, i, t)| :: ChildAllSizes(arena, i, t)[k] <= ChildSizes(arena, i, t)
    decreases |arena| - i, 0, t
  {
    if t > 0 {
      var c := arena[i].subdirs[t - 1].1;
      ChildAllSizesBounded(arena, i, t - 1);
      AllSizesBounded(arena, c);
      var front, back := ChildAllSizes(arena, i, t - 1), AllSizes(arena, c);
      assert ChildAllSizes(arena, i, t) == front + back;
      forall k | 0 <= k < |front + back| ensures (front + back)[k] <= ChildSizes(arena, i, t) {
        if k >= |front| {
          assert (front + back)[k] == back[k - |front|];
        }
      }
    }
  }

  /** `all_sizes` as the source writes it: a loop that extends the result with each
      subdirectory's sizes, then pushes the directory's own size. */
  method CollectSizes(arena: seq<Dir>, i: nat) returns (result: seq<nat>)
    requires ChildrenLater(arena) && i < |arena|
    ensures result == AllSizes(arena, i)
    decreases |arena| - i
  {
    result := [];
    for t := 0 to |arena[i].subdirs|
      invariant result == ChildAllSizes(arena, i, t)
    {
      var sizes := CollectSizes(arena, arena[i].subdirs[t].1);
      result := result + sizes;
    }
    result := result + [Size(arena, i)];
  }

  /** The entries of `sizes` that are at most `bound`, in order (`filter(|size| *size <= bound)`). */
  function AtMost(sizes: seq<nat>, bound: nat): seq<nat>
  {
    if sizes == [] then []
    else if sizes[0] <= bound then [sizes[0]] + AtMost(sizes[1..], bound)
    else AtMost(sizes[1..], bound)
  }

  /** The filter keeps exactly the entries within the bound. */
  lemma {:induction false} AtMostMeaning(sizes: seq<nat>, bound: nat)
    ensures forall x :: x in AtMost(sizes, bound) <==> x in sizes && x <= bound
  {
    if sizes != [] {
      AtMostMeaning(sizes[1..], bound);
      assert sizes == [sizes[0]] + sizes[1..];
    }
  }

  /** The smallest entry of `sizes` that is at least `bound` (`filter(..).min()`), if any. */
  function MinAtLeast(sizes: seq<nat>, bound: nat): Option<nat>
  {
    if sizes == [] then None
    else
      match MinAtLeast(sizes[1..], bound)
      case None => if sizes[0] >= bound then Some(sizes[0]) else None
      case Some(m) => if sizes[0] >= bound && sizes[0] < m then Some(sizes[0]) else Some(m)
  }

  /** `MinAtLeast` finds an entry within the bound that no other such entry undercuts, and
      `None` only when every entry is below the bound. */
  lemma {:induction false} MinAtLeastMeaning(sizes: seq<nat>, bound: nat)
    ensures MinAtLeast(sizes, bound).Some? ==>
              MinAtLeast(sizes, bound).value in sizes && MinAtLeast(sizes, bound).value >= bound
              && forall x | x in sizes && x >= bound :: MinAtLeast(sizes, bound).value <= x
    ensures MinAtLeast(sizes, bound).None? <==> forall x | x in sizes :: x < bound
  {
    if sizes != [] {
      MinAtLeastMeaning(sizes[1..], bound);
      assert sizes == [sizes[0]] + sizes[1..];
    }
  }

  /** The filesystem's capacity and the space the update needs. */
  const Capacity: nat := 70_000_000
  const Needed: nat := 30_000_000

  /** `part_1` once the tree is built: the total of the directory sizes of at most 100_000. */
  function SmallDirectoriesTotal(arena: seq<Dir>): int
    requires ChildrenLater(arena) && |arena| > 0
  {
    Sum(AtMost(AllSizes(arena, 0), 100_000))
  }

  /** `part_2` once the tree is built: the smallest directory whose deletion frees enough space.
      `None` where the source panics: the `u64` subtractions underflow when the root exceeds the
      capacity or already leaves more than the needed space free. */
  function DirectoryToDelete(arena: seq<Dir>): Option<nat>
    requires ChildrenLater(arena) && |arena| > 0
  {
    if Size(arena, 0) > Capacity then None
    else if Capacity - Size(arena, 0) > Needed then None
    else MinAtLeast(AllSizes(arena, 0), Needed - (Capacity - Size(arena, 0)))
  }

  /** Once the subtractions succeed the final `unwrap` cannot fail: the root itself frees
      enough, so the chosen directory lies between the shortfall and the root's size. */
  lemma {:induction false} DirectoryToDeleteExists(arena: seq<Dir>)
    requires ChildrenLater(arena) && |arena| > 0
    requires Capacity - Needed <= Size(arena, 0) <= Capacity
    ensures DirectoryToDelete(arena).Some?
    ensures Size(arena, 0) - (Capacity - Needed) <= DirectoryToDelete(arena).value <= Size(arena, 0)
    ensures DirectoryToDelete(arena).value in AllSizes(arena, 0)
  {
    var sizes, bound := AllSizes(arena, 0), Needed - (Capacity - Size(arena, 0));
    AllSizesBounded(arena, 0);
    MinAtLeastMeaning(sizes, bound);
    assert sizes[|sizes| - 1] in sizes;
  }

  /** The interpreter's state: the directories so far and the index of `current_directory`. */
  datatype Shell = Shell(arena: seq<Dir>, cursor: nat)

  /** The shape `inspect_filesystem` keeps: the root comes first and has no parent, every other
      directory has an earlier parent, each subdirectory entry names a later directory whose
      parent is the one listing it, and no map has a name twice. */
  ghost predicate WellFormed(arena: seq<Dir>)
  {
    && |arena| > 0
    && arena[0].parent == None
    && (forall i | 0 < i < |arena| :: arena[i].parent.Some? && arena[i].parent.value < i)
    && ChildrenLater(arena)
    && (forall i, t | 0 <= i < |arena| && 0 <= t < |arena[i].subdirs| ::
          arena[arena[i].subdirs[t].1].parent == Some(i))
    && (forall i | 0 <= i < |arena| :: UniqueNames(arena[i].files) && UniqueNames(arena[i].subdirs))
  }

  ghost predicate Valid(sh: Shell)
  {
    WellFormed(sh.arena) && sh.cursor < |sh.arena|
  }

  /** A fresh root with the cursor on it. */
  function Start(): (sh: Shell)
    ensures Valid(sh)
  {
    Shell([Dir([], [], None)], 0)
  }

  /** The entry `Lookup` finds. */
  lemma {:induction false} LookupIndex<V>(t: Table<V>, name: string) returns (k: nat)
    requires Lookup(t, name).Some?
    ensures k < |t| && t[k] == (name, Lookup(t, name).value)
  {
    if t[0].0 == name {
      k := 0;
    } else {
      var k' := LookupIndex(t[1..], name);
      k := k' + 1;
    }
  }

  /** `$ cd dirname`: `None` where the source panics (`..` at the root, or a child that is not
      there). */
  function Cd(sh: Shell, dirname: string): Option<Shell>
    requires Valid(sh)
  {
    if dirname == "/" then
      if sh.arena[sh.cursor].parent.Some? then Some(Shell(sh.arena, 0)) else Some(sh)
    else if dirname == ".." then
      match sh.arena[sh.cursor].parent
      case None => None
      case Some(p) => Some(Shell(sh.arena, p))
    else
      match Lookup(sh.arena[sh.cursor].subdirs, dirname)
      case None => None
      case Some(c) => Some(Shell(sh.arena, c))
  }

  /** `dir dirname`: a new, empty child, unless one of that name is already listed. */
  function MakeDir(sh: Shell, dirname: string): Shell
    requires Valid(sh)
  {
    if Lookup(sh.arena[sh.cursor].subdirs, dirname).Some? then sh
    else
      Shell(sh.arena[sh.cursor := sh.arena[sh.cursor].(subdirs := Insert<nat>(sh.arena[sh.cursor].subdirs, dirname, |sh.arena|))]
              + [Dir([], [], Some(sh.cursor))],
            sh.cursor)
  }

  /** `<size> <filename>`: set (or overwrite) the file's size in the current directory. */
  function SetFile(sh: Shell, filename: string, size: nat): Shell
    requires Valid(sh)
  {
    Shell(sh.arena[sh.cursor := sh.arena[sh.cursor].(files := Insert(sh.arena[sh.cursor].files, filename, size))],
          sh.cursor)
  }

  /** One line of the transcript (the body of the loop in `inspect_filesystem`); `None` where the
      source panics. */
  function Step(sh: Shell, line: string): Option<Shell>
    requires Valid(sh)
  {
    if StartsWith(line, "$ ") then
      if Split(line[2..], " ")[0] == "cd" then
        if |Split(line[2..], " ")| < 2 then None else Cd(sh, Split(line[2..], " ")[1])
      else Some(sh)
    else if StartsWith(line, "dir") then
      if |line| < 4 then None else Some(MakeDir(sh, line[4..]))
    else
      match SplitOnce(line, " ")
      case None => None
      case Some(parts) =>
        match ParseNat(parts.0)
        case None => None
        case Some(size) => Some(SetFile(sh, parts.1, size))
  }

  /** `cd` keeps the shell valid and moves only the cursor. */
  lemma CdValid(sh: Shell, dirname: string)
    requires Valid(sh)
    ensures Cd(sh, dirname).Some? ==> Valid(Cd(sh, dirname).value) && Cd(sh, dirname).value.arena == sh.arena
  {
    if dirname != "/" && dirname != ".." && Lookup(sh.arena[sh.cursor].subdirs, dirname).Some? {
      var k := LookupIndex(sh.arena[sh.cursor].subdirs, dirname);
    }
  }

  /** The arena after `dir dirname` adds a child to directory `c`. */
  function Grow(a: seq<Dir>, c: nat, dirname: string): seq<Dir>
    requires c < |a|
  {
    a[c := a[c].(subdirs := a[c].subdirs + [(dirname, |a|)])] + [Dir([], [], Some(c))]
  }

  /** A new name is appended to the subdirectory map. */
  lemma MakeDirGrows(sh: Shell, dirname: string)
    requires Valid(sh) && Lookup(sh.arena[sh.cursor].subdirs, dirname).None?
    ensures MakeDir(sh, dirname) == Shell(Grow(sh.arena, sh.cursor, dirname), sh.cursor)
  {
    InsertAbsent<nat>(sh.arena[sh.cursor].subdirs, dirname, |sh.arena|);
  }

  /** Growing keeps every subdirectory entry in place and adds one at the end of `c`'s. */
  lemma GrowEntries(a: seq<Dir>, c: nat, dirname: string)
    requires c < |a|
    ensures |Grow(a, c, dirname)| == |a| + 1
    ensures forall i | 0 <= i < |a| :: Grow(a, c, dirname)[i].parent == a[i].parent
    ensures forall i | 0 <= i < |a| :: Grow(a, c, dirname)[i].files == a[i].files
    ensures forall i | 0 <= i < |a| && i != c :: Grow(a, c, dirname)[i].subdirs == a[i].subdirs
    ensures Grow(a, c, dirname)[c].subdirs == a[c].subdirs + [(dirname, |a|)]
    ensures Grow(a, c, dirname)[|a|] == Dir([], [], Some(c))
  {
  }

  /** Growing keeps every subdirectory entry pointing forward. */
  lemma GrowLater(a: seq<Dir>, c: nat, dirname: string)
    requires ChildrenLater(a) && c < |a|
    ensures ChildrenLater(Grow(a, c, dirname))
  {
    var g := Grow(a, c, dirname);
    GrowEntries(a, c, dirname);
    forall i, t | 0 <= i < |g| && 0 <= t < |g[i].subdirs| ensures i < g[i].subdirs[t].1 < |g| {
      if i == c && t == |a[c].subdirs| {
        assert g[i].subdirs[t] == (dirname, |a|);
      } else {
        assert g[i].subdirs[t] == a[i].subdirs[t];
      }
    }
  }

  /** Each subdirectory entry of the grown arena points forward to a directory that names the
      lister as its parent. */
  lemma GrowLinks(a: seq<Dir>, c: nat, dirname: string)
    requires WellFormed(a) && c < |a|
    ensures ChildrenLater(Grow(a, c, dirname))
    ensures forall i, t | 0 <= i < |Grow(a, c, dirname)| && 0 <= t < |Grow(a, c, dirname)[i].subdirs| ::
              Grow(a, c, dirname)[Grow(a, c, dirname)[i].subdirs[t].1].parent == Some(i)
  {
    var g := Grow(a, c, dirname);
    GrowEntries(a, c, dirname);
    forall i, t | 0 <= i < |g| && 0 <= t < |g[i].subdirs|
      ensures i < g[i].subdirs[t].1 < |g| && g[g[i].subdirs[t].1].parent == Some(i)
    {
      if i == c && t == |a[c].subdirs| {
        assert g[i].subdirs[t] == (dirname, |a|);
      } else {
        assert g[i].subdirs[t] == a[i].subdirs[t];
      }
    }
  }

  lemma GrowUnique(a: seq<Dir>, c: nat, dirname: string)
    requires WellFormed(a) && c < |a| && Lookup(a[c].subdirs, dirname).None?
    ensures forall i | 0 <= i < |Grow(a, c, dirname)| ::
              UniqueNames(Grow(a, c, dirname)[i].files) && UniqueNames(Grow(a, c, dirname)[i].subdirs)
  {
    GrowEntries(a, c, dirname);
    InsertAbsent<nat>(a[c].subdirs, dirname, |a|);
    InsertUnique<nat>(a[c].subdirs, dirname, |a|);
    assert UniqueNames<nat>([]);
  }

  lemma GrowWellFormed(a: seq<Dir>, c: nat, dirname: string)
    requires WellFormed(a) && c < |a| && Lookup(a[c].subdirs, dirname).None?
    ensures WellFormed(Grow(a, c, dirname))
  {
    GrowEntries(a, c, dirname);
    GrowLinks(a, c, dirname);
    GrowUnique(a, c, dirname);
  }

  /** `dir` keeps the shell valid. */
  lemma MakeDirValid(sh: Shell, dirname: string)
    requires Valid(sh)
    ensures Valid(MakeDir(sh, dirname))
  {
    if Lookup(sh.arena[sh.cursor].subdirs, dirname).None? {
      MakeDirGrows(sh, dirname);
      GrowWellFormed(sh.arena, sh.cursor, dirname);
    }
  }

  /** A file line keeps the shell valid. */
  lemma SetFileValid(sh: Shell, filename: string, size: nat)
    requires Valid(sh)
    ensures Valid(SetFile(sh, filename, size))
  {
    InsertUnique(sh.arena[sh.cursor].files, filename, size);
  }

  lemma StepValid(sh: Shell, line: string)
    requires Valid(sh)
    ensures Step(sh, line).Some? ==> Valid(Step(sh, line).value)
  {
    if StartsWith(line, "$ ") {
      if Split(line[2..], " ")[0] == "cd" && |Split(line[2..], " ")| >= 2 {
        CdValid(sh, Split(line[2..], " ")[1]);
      }
    } else if StartsWith(line, "dir") {
      if |line| >= 4 {
        MakeDirValid(sh, line[4..]);
      }
    } else if SplitOnce(line, " ").Some? && ParseNat(SplitOnce(line, " ").value.0).Some? {
      SetFileValid(sh, SplitOnce(line, " ").value.1, ParseNat(SplitOnce(line, " ").value.0).value);
    }
  }

  /** `cd /` always lands on the root: the only directory without a parent is the root. */
  lemma CdRoot(sh: Shell)
    requires Valid(sh)
    ensures Cd(sh, "/") == Some(Shell(sh.arena, 0))
  {
    if sh.cursor != 0 {
      assert sh.arena[sh.cursor].parent.Some?;
    }
  }

  /** `cd ..` panics exactly at the root, and otherwise moves to an earlier directory. */
  lemma CdParent(sh: Shell)
    requires Valid(sh)
    ensures Cd(sh, "..").None? <==> sh.cursor == 0
    ensures Cd(sh, "..").Some? ==> Cd(sh, "..").value.arena == sh.arena && Cd(sh, "..").value.cursor < sh.cursor
  {
    if sh.cursor != 0 {
      assert sh.arena[sh.cursor].parent.Some?;
    }
  }

  /** `cd dirname` succeeds exactly when the current directory lists `dirname`, and a `cd ..`
      afterwards comes back. */
  lemma CdChildParent(sh: Shell, dirname: string)
    requires Valid(sh) && dirname != "/" && dirname != ".."
    ensures Cd(sh, dirname).Some? <==> Lookup(sh.arena[sh.cursor].subdirs, dirname).Some?
    ensures Cd(sh, dirname).Some? ==> Valid(Cd(sh, dirname).value) && Cd(Cd(sh, dirname).value, "..") == Some(sh)
  {
    if Lookup(sh.arena[sh.cursor].subdirs, dirname).Some? {
      var k := LookupIndex(sh.arena[sh.cursor].subdirs, dirname);
      CdValid(sh, dirname);
    }
  }

  /** After `dir dirname` the current directory lists `dirname`, every other name keeps its
      entry, and a second `dir dirname` changes nothing. */
  lemma MakeDirTwice(sh: Shell, dirname: string, other: string)
    requires Valid(sh)
    ensures Valid(MakeDir(sh, dirname)) && MakeDir(sh, dirname).cursor == sh.cursor
    ensures Lookup(MakeDir(sh, dirname).arena[sh.cursor].subdirs, dirname).Some?
    ensures other != dirname ==>
              Lookup(MakeDir(sh, dirname).arena[sh.cursor].subdirs, other) == Lookup(sh.arena[sh.cursor].subdirs, other)
    ensures MakeDir(MakeDir(sh, dirname), dirname) == MakeDir(sh, dirname)
  {
    MakeDirValid(sh, dirname);
    LookupInsert<nat>(sh.arena[sh.cursor].subdirs, dirname, |sh.arena|, dirname);
    LookupInsert<nat>(sh.arena[sh.cursor].subdirs, dirname, |sh.arena|, other);
  }

  /** The first `t` subdirectories of `j` have the same sizes after growing. */
  lemma {:induction false} GrowChildSizes(a: seq<Dir>, c: nat, dirname: string, j: nat, t: nat)
    requires ChildrenLater(a) && c < |a| && j < |a| && t <= |a[j].subdirs|
    ensures ChildrenLater(Grow(a, c, dirname))
    ensures ChildSizes(Grow(a, c, dirname), j, t) == ChildSizes(a, j, t)
    decreases |a| - j, 0, t
  {
    GrowLater(a, c, dirname);
    if t > 0 {
      var g := Grow(a, c, dirname);
      assert g[j].subdirs[t - 1] == a[j].subdirs[t - 1] by {
        assert g[j] == if j == c then a[c].(subdirs := a[c].subdirs + [(dirname, |a|)]) else a[j];
      }
      GrowChildSizes(a, c, dirname, j, t - 1);
      GrowSize(a, c, dirname, a[j].subdirs[t - 1].1);
    }
  }

  /** Growing adds an empty directory, so no existing directory changes size. */
  lemma {:induction false} GrowSize(a: seq<Dir>, c: nat, dirname: string, j: nat)
    requires ChildrenLater(a) && c < |a| && j < |a|
    ensures ChildrenLater(Grow(a, c, dirname))
    ensures Size(Grow(a, c, dirname), j) == Size(a, j)
    decreases |a| - j, 1
  {
    var g := Grow(a, c, dirname);
    GrowLater(a, c, dirname);
    GrowEntries(a, c, dirname);
    GrowChildSizes(a, c, dirname, j, |a[j].subdirs|);
    if j == c {
      assert Size(g, |a|) == 0;
      assert ChildSizes(g, c, |a[c].subdirs| + 1) == ChildSizes(g, c, |a[c].subdirs|) + Size(g, |a|);
    }
  }

  /** `dir` changes no existing directory's size. */
  lemma MakeDirSizes(sh: Shell, dirname: string, j: nat)
    requires Valid(sh) && j < |sh.arena|
    ensures Valid(MakeDir(sh, dirname)) && Size(MakeDir(sh, dirname).arena, j) == Size(sh.arena, j)
  {
    MakeDirValid(sh, dirname);
    if Lookup(sh.arena[sh.cursor].subdirs, dirname).None? {
      MakeDirGrows(sh, dirname);
      GrowSize(sh.arena, sh.cursor, dirname, j);
    }
  }

  /** A file line replaces the file's old size, if any, in the current directory's total; listing
      the same file again changes nothing. */
  lemma SetFileTwice(sh: Shell, filename: string, size: nat)
    requires Valid(sh)
    ensures Valid(SetFile(sh, filename, size))
    ensures Total(SetFile(sh, filename, size).arena[sh.cursor].files)
              + (match Lookup(sh.arena[sh.cursor].files, filename) case None => 0 case Some(w) => w)
            == Total(sh.arena[sh.cursor].files) + size
    ensures SetFile(SetFile(sh, filename, size), filename, size) == SetFile(sh, filename, size)
  {
    SetFileValid(sh, filename, size);
    TotalInsert(sh.arena[sh.cursor].files, filename, size);
    InsertTwice(sh.arena[sh.cursor].files, filename, size);
  }

  /** `$ cd dirname` runs `cd` on the whole name. */
  lemma StepCdLine(sh: Shell, dirname: string)
    requires Valid(sh) && Lacks(dirname, ' ')
    ensures Step(sh, "$ cd " + dirname) == Cd(sh, dirname)
  {
    var line := "$ cd " + dirname;
    assert StartsWith(line, "$ ");
    assert line[2..] == "cd" + " " + dirname;
    SplitStep("cd", " ", dirname);
    SplitOnceAbsent(dirname, " ");
  }

  /** Any other command, such as `$ ls`, changes nothing. */
  lemma StepLsLine(sh: Shell)
    requires Valid(sh)
    ensures Step(sh, "$ ls") == Some(sh)
  {
    var line := "$ ls";
    assert StartsWith(line, "$ ");
    assert line[2..] == "ls";
    SplitOnceAbsent("ls", " ");
  }

  /** `dir dirname` runs `dir` on the rest of the line. */
  lemma StepDirLine(sh: Shell, dirname: string)
    requires Valid(sh)
    ensures Step(sh, "dir " + dirname) == Some(MakeDir(sh, dirname))
  {
    var line := "dir " + dirname;
    assert !StartsWith(line, "$ ") by { assert line[0] == 'd'; }
    assert StartsWith(line, "dir") by { assert line[..3] == "dir"; }
    assert line[4..] == dirname;
  }

  /** `<size> <filename>`, with the size in decimal, sets that file's size. */
  lemma StepFileLine(sh: Shell, size: nat, filename: string)
    requires Valid(sh)
    ensures Step(sh, ShowNat(size) + " " + filename) == Some(SetFile(sh, filename, size))
  {
    var line := ShowNat(size) + " " + filename;
    ShowNatDigits(size);
    assert line[0] == ShowNat(size)[0] && IsDigit(line[0]);
    assert !StartsWith(line, "$ ") by { assert line[..2][0] == line[0]; }
    assert !StartsWith(line, "dir") by { assert |line| >= 3 ==> line[..3][0] == line[0]; }
    ShowNatLacks(size, ' ');
    SplitOnceAt(ShowNat(size), " ", filename);
    ParseShowNat(size);
  }

  /** The transcript from `sh` on, line by line; `None` if some line panics. */
  function Run(sh: Shell, lines: seq<string>): Option<Shell>
    requires Valid(sh)
    decreases |lines|
  {
    if lines == [] then Some(sh)
    else
      match Step(sh, lines[0])
      case None => None
      case Some(next) => StepValid(sh, lines[0]); Run(next, lines[1..])
  }

  /** Every state the interpreter reaches is valid. */
  lemma {:induction false} RunValid(sh: Shell, lines: seq<string>)
    requires Valid(sh)
    ensures Run(sh, lines).Some? ==> Valid(Run(sh, lines).value)
    decreases |lines|
  {
    if lines != [] && Step(sh, lines[0]).Some? {
      StepValid(sh, lines[0]);
      RunValid(Step(sh, lines[0]).value, lines[1..]);
    }
  }

  /** `inspect_filesystem` as a function: the arena whose first directory is the root it returns. */
  function Filesystem(lines: seq<string>): Option<seq<Dir>>
  {
    match Run(Start(), lines)
    case None => None
    case Some(sh) => Some(sh.arena)
  }

  lemma FilesystemWellFormed(lines: seq<string>)
    ensures Filesystem(lines).Some? ==> WellFormed(Filesystem(lines).value)
  {
    RunValid(Start(), lines);
  }

  /** `part_1`: `None` if the transcript panics. */
  function Part1(lines: seq<string>): Option<int>
  {
    match Filesystem(lines)
    case None => None
    case Some(arena) => FilesystemWellFormed(lines); Some(SmallDirectoriesTotal(arena))
  }

  /** `part_2`: `None` if the transcript or the subtractions panic. */
  function Part2(lines: seq<string>): Option<nat>
  {
    match Filesystem(lines)
    case None => None
    case Some(arena) => FilesystemWellFormed(lines); DirectoryToDelete(arena)
  }

  /** `inspect_filesystem`: the loop over the transcript, moving the cursor and filling in the maps
      of the directory under it. */
  method InspectFilesystem(lines: seq<string>) returns (root: Option<seq<Dir>>)
    ensures root == Filesystem(lines)
    ensures root.Some? ==> WellFormed(root.value)
  {
    var arena: seq<Dir>, cursor: nat := Start().arena, Start().cursor;
    for k := 0 to |lines|
      invariant Valid(Shell(arena, cursor))
      invariant Run(Shell(arena, cursor), lines[k..]) == Run(Start(), lines)
    {
      var sh := Shell(arena, cursor);
      var line := lines[k];
      assert lines[k..][0] == line && lines[k..][1..] == lines[k + 1..];
      StepValid(sh, line);
      if StartsWith(line, "$ ") {
        var command := Split(line[2..], " ");
        if command[0] == "cd" {
          if |command| < 2 {
            return None;
          }
          var dirname := command[1];
          if dirname == "/" {
            if arena[cursor].parent.Some? {
              cursor := 0;
            }
          } else if dirname == ".." {
            if arena[cursor].parent.None? {
              return None;
            }
            cursor := arena[cursor].parent.value;
          } else {
            var child := Lookup(arena[cursor].subdirs, dirname);
            if child.None? {
              return None;
            }
            cursor := child.value;
          }
        }
      } else if StartsWith(line, "dir") {
        if |line| < 4 {
          return None;
        }
        var dirname := line[4..];
        if Lookup(arena[cursor].subdirs, dirname).None? {
          var listing := arena[cursor].(subdirs := Insert<nat>(arena[cursor].subdirs, dirname, |arena|));
          arena := arena[cursor := listing] + [Dir([], [], Some(cursor))];
        }
      } else {
        var split := SplitOnce(line, " ");
        if split.None? {
          return None;
        }
        var size := ParseNat(split.value.0);
        if size.None? {
          return None;
        }
        var listing := arena[cursor].(files := Insert(arena[cursor].files, split.value.1, size.value));
        arena := arena[cursor := listing];
      }
      assert Step(sh, line) == Some(Shell(arena, cursor));
    }
    assert lines[|lines|..] == [];
    root := Some(arena);
    RunValid(Start(), lines);
  }

  /** The tree the sample transcript builds: `/` holds `a` and `d`, and `a` holds `e`. */
  function ExampleArena(): seq<Dir>
  {
    [ Dir([("b.txt", 14848514), ("c.dat", 8504156)], [("a", 1), ("d", 2)], None),
      Dir([("f", 29116), ("g", 2557), ("h.lst", 62596)], [("e", 3)], Some(0)),
      Dir([("j", 4060174), ("d.log", 8033020), ("d.ext", 5626152), ("k", 7214296)], [], Some(0)),
      Dir([("i", 584)], [], Some(1)) ]
  }

  lemma ExampleChildrenLater()
    ensures ChildrenLater(ExampleArena())
  {
    var a := ExampleArena();
    forall i, t | 0 <= i < |a| && 0 <= t < |a[i].subdirs|
      ensures i < a[i].subdirs[t].1 < |a|
    {
      assert i == 0 || i == 1;
    }
  }

  /** The directories without subdirectories. */
  lemma ExampleLeafSizes()
    ensures ChildrenLater(ExampleArena())
    ensures Size(ExampleArena(), 3) == 584 && Size(ExampleArena(), 2) == 24933642
    ensures AllSizes(ExampleArena(), 3) == [584] && AllSizes(ExampleArena(), 2) == [24933642]
  {
    ExampleChildrenLater();
  }

  lemma ExampleInnerSizes()
    ensures ChildrenLater(ExampleArena())
    ensures Size(ExampleArena(), 1) == 94853 && AllSizes(ExampleArena(), 1) == [584, 94853]
  {
    ExampleLeafSizes();
    var a := ExampleArena();
    assert ChildSizes(a, 1, 1) == 584;
  }

  /** `all_sizes` of the sample tree, in post-order. */
  lemma ExampleAllSizes()
    ensures ChildrenLater(ExampleArena())
    ensures Size(ExampleArena(), 0) == 48381165
    ensures AllSizes(ExampleArena(), 0) == [584, 94853, 24933642, 48381165]
  {
    ExampleInnerSizes();
    ExampleLeafSizes();
    var a := ExampleArena();
    assert ChildSizes(a, 0, 2) == 94853 + 24933642;
    assert ChildAllSizes(a, 0, 2) == [584, 94853] + [24933642];
  }

  /** The sample's answers: 95437 for the first part and 24933642 for the second. */
  lemma ExampleParts()
    ensures ChildrenLater(ExampleArena())
    ensures SmallDirectoriesTotal(ExampleArena()) == 95437
    ensures DirectoryToDelete(ExampleArena()) == Some(24933642)
  {
    ExampleAllSizes();
    var s := [584, 94853, 24933642, 48381165];
    assert AtMost(s, 100_000) == [584, 94853];
    assert Sum([584, 94853]) == 95437;
    assert MinAtLeast(s, 8381165) == Some(24933642);
  }
}
