/** `rmr`: a directory tree removed from the end of its listing to the front, sparing the
    paths that contain a given string. */
module Remove {
  import opened Common
  import opened Paths
  import opened TreeWalk
  import opened WalkFacts
  import opened Volume

  predicate Excluded(p: string, excl: Option<string>) {
    excl.Some? && Contains(p + "/", excl.value)
  }

  predicate OccursAt(s: string, e: string, i: int) {
    0 <= i && i + |e| <= |s| && s[i..i + |e|] == e
  }

  /** A path is excluded if the string occurs in it with a slash behind it. */
  lemma {:induction false} ExcludedIff(p: string, e: string)
    ensures Excluded(p, Some(e)) <==> exists i :: OccursAt(p + "/", e, i)
    ensures !Excluded(p, None)
  {
    var s := p + "/";
    if Excluded(p, Some(e)) {
      var i :| 0 <= i <= |s| && e <= s[i..];
      assert s[i..i + |e|] == s[i..][..|e|] == e;
      assert OccursAt(s, e, i);
    }
    if exists i :: OccursAt(s, e, i) {
      var i :| OccursAt(s, e, i);
      assert e == s[i..][..|e|];
      assert e <= s[i..];
    }
  }

  /** The string `rmr` uses for the name `c`. */
  function Spelled(path: string, base: Path, c: Path): string
    requires base <= c
  {
    path + Suffix(c[|base|..])
  }

  /** Names that no call may remove: excluded ones, the root of the file system, and a
      file that is named with a slash at the end. */
  predicate Spared(live: Names, p: string, excl: Option<string>, c: Path) {
    Excluded(p, excl) || c == [] || (Slashed(p) && c in live && live[c].Regular?)
  }

  ghost function SparedNames(live: Names, path: string, base: Path, excl: Option<string>): set<Path> {
    set d | d in live && base <= d && Spared(live, Spelled(path, base, d), excl, d)
  }

  /** `c` is spared or leads to something that is. */
  ghost predicate Stays(spared: set<Path>, c: Path) {
    exists d :: d in spared && c <= d
  }

  /** Of the names at and below `base` exactly the spared ones and their ancestors are
      left; all others are untouched. */
  ghost predicate Pruned(before: Names, after: Names, base: Path, spared: set<Path>) {
    forall k :: Stored(after, k) == if base <= k && !Stays(spared, k) then None else Stored(before, k)
  }

  /** What is below an excluded directory is excluded. */
  lemma {:induction false} ExcludedBelow(p: string, rel: seq<string>, excl: Option<string>)
    requires Excluded(p, excl)
    ensures Excluded(p + Suffix(rel), excl)
    decreases |rel|
  {
    if rel == [] {
      assert p + Suffix(rel) == p;
    } else {
      var k := |rel| - 1;
      ExcludedBelow(p, rel[..k], excl);
      var up := p + Suffix(rel[..k]);
      var i :| 0 <= i <= |up + "/"| && excl.value <= (up + "/")[i..];
      var full := p + Suffix(rel) + "/";
      assert full == (up + "/") + (rel[k] + "/");
      assert full[i..] == (up + "/")[i..] + (rel[k] + "/");
    }
  }

  // ----- The list

  /** The listing in names: the top, then everything below it. */
  function Keys(base: Path, items: seq<Item>): (r: seq<Path>)
    ensures |r| == |items|
    ensures forall i :: 0 <= i < |r| ==> r[i] == base + items[i].rel
  {
    if items == [] then [] else [base + items[0].rel] + Keys(base, items[1..])
  }

  /** Every name at or below `base` is listed, and listed before what it contains. */
  ghost predicate Complete(before: Names, base: Path, keys: seq<Path>) {
    && keys != [] && keys[0] == base
    && (forall k :: k in before && base <= k ==> k in keys)
    && (forall j :: 0 <= j < |keys| ==> base <= keys[j])
    && (forall i, j :: 0 <= i < |keys| && 0 <= j < |keys| && IsChild(keys[j], keys[i]) ==> i < j)
  }

  /** What `rmr` lists, as names. */
  function AllKeys(fs: Tree): seq<Path> {
    [fs.base] + Keys(fs.base, Items(fs.root))
  }

  lemma {:induction false} EveryNameListed(before: Names, fs: Tree, k: Path)
    requires GoodTree(fs.root) && Mirrors(before, fs.base, fs.root) && NoFaults(fs.root)
    requires k in before && fs.base <= k
    ensures k in AllKeys(fs)
  {
    var rel := k[|fs.base|..];
    assert k == fs.base + rel;
    assert Stored(before, fs.base + rel) == NodeKind(Resolve(fs.root, rel));
    if rel == [] {
      assert AllKeys(fs)[0] == k;
    } else {
      AllWaysOpen(fs.root, rel);
      assert rel[..0] == [] && Openable(Resolve(fs.root, rel[..0]));
      var isDir := before[k].Directory?;
      ListedIff(fs.root.kids, rel, isDir);
      var items := Items(fs.root);
      var j :| 0 <= j < |items| && items[j] == Item(rel, isDir);
      assert AllKeys(fs)[j + 1] == k;
    }
  }

  lemma {:induction false} ChildBelow(base: Path, a: Path, b: Path)
    requires IsChild(base + b, base + a)
    ensures |b| == |a| + 1 && b[..|b| - 1] == a
  {
    assert a == (base + a)[|base|..] == (base + b)[..|base + a|][|base|..] == b[..|a|];
  }

  lemma {:induction false} ChildrenLater(fs: Tree, i: nat, j: nat)
    requires GoodTree(fs.root) && i < |AllKeys(fs)| && j < |AllKeys(fs)|
    requires IsChild(AllKeys(fs)[j], AllKeys(fs)[i])
    ensures i < j
  {
    var items, keys := Items(fs.root), AllKeys(fs);
    if j > 0 && i > 0 {
      ListedOnce([], fs.root.kids);
      ParentsFirstOf([], fs.root.kids);
      var a, b := items[i - 1].rel, items[j - 1].rel;
      assert ParentBefore([], items, i - 1) && ParentBefore([], items, j - 1);
      ChildBelow(fs.base, a, b);
      var h :| 0 <= h < j - 1 && items[h] == Item(b[..|b| - 1], true);
      assert h == i - 1;
    }
  }

  lemma {:induction false} ListIsComplete(before: Names, fs: Tree)
    requires GoodTree(fs.root) && Mirrors(before, fs.base, fs.root) && NoFaults(fs.root)
    ensures Complete(before, fs.base, AllKeys(fs))
  {
    var keys := AllKeys(fs);
    forall k | k in before && fs.base <= k ensures k in keys { EveryNameListed(before, fs, k); }
    forall i, j | 0 <= i < |keys| && 0 <= j < |keys| && IsChild(keys[j], keys[i]) ensures i < j {
      ChildrenLater(fs, i, j);
    }
  }

  // ----- The loop

  /** The names from `i` on are dealt with. */
  ghost predicate Done(before: Names, live: Names, spared: set<Path>, keys: seq<Path>, i: nat)
    requires i <= |keys|
  {
    forall k :: Stored(live, k) == if k in keys[i..] && !Stays(spared, k) then None else Stored(before, k)
  }

  lemma {:induction false} StaysDown(before: Names, spared: set<Path>, c: Path) returns (k: Path)
    requires Rooted(before) && spared <= before.Keys && Stays(spared, c) && c !in spared
    ensures k in before && IsChild(k, c) && Stays(spared, k)
  {
    var d :| d in spared && c <= d;
    assert |d| == |c| ==> d == c;
    k := d[..|c| + 1];
    AboveIsDirectory(before, k, d);
  }

  lemma {:induction false} StaysUp(spared: set<Path>, c: Path, k: Path)
    ensures Stays(spared, k) && c <= k ==> Stays(spared, c)
  {
  }

  lemma {:induction false} ChildStays(before: Names, live: Names, base: Path, spared: set<Path>, keys: seq<Path>,
                                      i: nat, k: Path)
    requires Complete(before, base, keys) && i < |keys| && Done(before, live, spared, keys, i + 1)
    requires k in live && IsChild(k, keys[i])
    ensures Stays(spared, k)
  {
  }

  /** A directory is empty at its turn exactly when nothing in it stays. */
  lemma {:induction false} EmptyAtItsTurn(before: Names, live: Names, base: Path, spared: set<Path>,
                                          keys: seq<Path>, i: nat)
    requires Rooted(before) && spared <= before.Keys && Complete(before, base, keys) && i < |keys|
    requires Done(before, live, spared, keys, i + 1) && keys[i] !in spared
    ensures Empty(live, keys[i]) <==> !Stays(spared, keys[i])
  {
    if Stays(spared, keys[i]) {
      var k := StaysDown(before, spared, keys[i]);
      assert Stored(live, k) == Stored(before, k);
      assert !Empty(live, keys[i]);
    } else {
      forall k | k in live ensures !IsChild(k, keys[i]) {
        StaysUp(spared, keys[i], k);
        if IsChild(k, keys[i]) {
          ChildStays(before, live, base, spared, keys, i, k);
        }
      }
    }
  }

  /** A file stays exactly when it is spared itself. */
  lemma {:induction false} FileStays(before: Names, spared: set<Path>, c: Path)
    requires Rooted(before) && spared <= before.Keys && c in before && before[c].Regular?
    ensures Stays(spared, c) <==> c in spared
  {
    if Stays(spared, c) {
      var d :| d in spared && c <= d;
      AboveIsDirectory(before, c, d);
    }
  }

  /** What the turn of `keys[i]` must leave. */
  lemma {:induction false} TurnDone(before: Names, live: Names, live': Names, spared: set<Path>, keys: seq<Path>,
                                    i: nat)
    requires i < |keys| && Done(before, live, spared, keys, i + 1)
    requires forall k :: k != keys[i] ==> Stored(live', k) == Stored(live, k)
    requires Stored(live', keys[i]) == if Stays(spared, keys[i]) then Stored(before, keys[i]) else None
    ensures Done(before, live', spared, keys, i)
  {
  }

  lemma {:induction false} ComponentsWithSlash(p: string)
    ensures Components(p + "/") == Components(p)
  {
    ReadAppend(Reading([], ""), p, "/");
  }

  /** The name `c`, spelled `p`, outlasts its turn: it is spared, or a directory that is not
      empty. */
  predicate Holds(live: Names, p: string, excl: Option<string>, c: Path) {
    c in live && (Spared(live, p, excl, c) || (live[c].Directory? && !Empty(live, c)))
  }

  predicate TopIsDirectory(live: Names) {
    [] in live ==> live[[]].Directory?
  }

  /** The body of the loop: `prec->path` gets a slash, and loses it again if it is not
      excluded. The result says whether the name it holds at the end can be accessed. */
  method Turn(disk: Disk, entry: string, excl: Option<string>, ghost c: Path) returns (found: bool)
    requires Components(entry) == c && TopIsDirectory(disk.live)
    modifies disk
    ensures forall k :: k != c ==> Stored(disk.live, k) == Stored(old(disk.live), k)
    ensures Stored(disk.live, c) == if Holds(old(disk.live), entry, excl, c) then Stored(old(disk.live), c) else None
    ensures found <==> IsDirectory(disk.live, c)
  {
    ComponentsWithSlash(entry);
    var p := entry + "/";
    if !Excluded(entry, excl) {
      var _ := disk.Rmdir(p);
      p := p[..|p| - 1];
      assert p == entry;
      var _ := disk.Unlink(p);
    }
    found := Found(disk.live, p).Some?;
  }

  /** The invariant of the loop over the turn of `keys[i]`. */
  lemma {:induction false} TurnKeeps(before: Names, live: Names, live': Names, path: string, base: Path,
                                     excl: Option<string>, keys: seq<Path>, i: nat)
    requires Rooted(before) && Complete(before, base, keys) && i < |keys|
    requires Done(before, live, SparedNames(before, path, base, excl), keys, i + 1)
    requires forall k :: k != keys[i] ==> Stored(live', k) == Stored(live, k)
    requires Stored(live', keys[i]) ==
      if Holds(live, Spelled(path, base, keys[i]), excl, keys[i]) then Stored(live, keys[i]) else None
    ensures Done(before, live', SparedNames(before, path, base, excl), keys, i)
  {
    var c, spared := keys[i], SparedNames(before, path, base, excl);
    assert Stored(live, c) == if c in keys[i + 1..] && !Stays(spared, c) then None else Stored(before, c);
    if c in live {
      assert c in spared <==> Spared(live, Spelled(path, base, c), excl, c);
      if live[c].Directory? && c !in spared {
        EmptyAtItsTurn(before, live, base, spared, keys, i);
      }
      if live[c].Regular? {
        FileStays(before, spared, c);
      }
    } else {
      NotLive(before, live, spared, keys, i);
    }
    TurnDone(before, live, live', spared, keys, i);
  }

  lemma {:induction false} NotLive(before: Names, live: Names, spared: set<Path>, keys: seq<Path>, i: nat)
    requires Rooted(before) && spared <= before.Keys && i < |keys|
    requires Done(before, live, spared, keys, i + 1) && keys[i] !in live
    ensures !Stays(spared, keys[i])
  {
    var c := keys[i];
    assert Stored(live, c) == if c in keys[i + 1..] && !Stays(spared, c) then None else Stored(before, c);
    if Stays(spared, c) {
      var d :| d in spared && c <= d;
      AboveIsDirectory(before, c, d);
    }
  }

  /** The top directory is left exactly when something is; `-1` says so. */
  method Rmr(disk: Disk, fs: Tree, path: string, excl: Option<string>) returns (rmf: int)
    requires fs.base == Components(path) && GoodTree(fs.root) && NoFaults(fs.root)
    requires Rooted(disk.live) && Mirrors(disk.live, fs.base, fs.root)
    modifies disk
    ensures Pruned(old(disk.live), disk.live, fs.base, SparedNames(old(disk.live), path, fs.base, excl))
    ensures rmf == if IsDirectory(disk.live, fs.base) then -1 else 0
  {
    ghost var before, base, items, keys := disk.live, fs.base, Items(fs.root), AllKeys(fs);
    ghost var spared := SparedNames(before, path, base, excl);
    var list := List(fs, path);
    list := [path] + list;
    PrefixedLength(path, items);
    ListIsComplete(before, fs);
    var i := |list|;
    rmf := 0;
    assert keys[i..] == [];
    while i > 0
      invariant i <= |list| == |keys|
      invariant Done(before, disk.live, spared, keys, i)
      invariant rmf == 0 || rmf == -1
      invariant rmf == -1 ==> DirectoryLeft(before, base, spared)
      invariant i == 0 && IsDirectory(disk.live, base) ==> rmf == -1
    {
      i := i - 1;
      ghost var live := disk.live;
      EntryNamed(before, fs, path, list, i);
      assert Stored(live, []) == None || Stored(live, []) == Stored(before, []);
      var found := Turn(disk, list[i], excl, keys[i]);
      TurnKeeps(before, live, disk.live, path, base, excl, keys, i);
      if found {
        FoundMeansLeft(before, disk.live, base, spared, keys, i);
        rmf := -1;
      }
    }
    AllTurnsPrune(before, disk.live, base, spared, keys);
  }

  ghost predicate DirectoryLeft(before: Names, base: Path, spared: set<Path>) {
    exists k :: base <= k && IsDirectory(before, k) && Stays(spared, k)
  }

  lemma {:induction false} FoundMeansLeft(before: Names, live: Names, base: Path, spared: set<Path>,
                                          keys: seq<Path>, i: nat)
    requires Complete(before, base, keys) && i < |keys| && Done(before, live, spared, keys, i)
    requires IsDirectory(live, keys[i])
    ensures DirectoryLeft(before, base, spared)
  {
    var k := keys[i];
    assert keys[i..][0] == k;
    assert Stored(live, k) == if k in keys[i..] && !Stays(spared, k) then None else Stored(before, k);
  }

  lemma {:induction false} AllTurnsPrune(before: Names, live: Names, base: Path, spared: set<Path>, keys: seq<Path>)
    requires Rooted(before) && spared <= before.Keys
    requires Complete(before, base, keys) && Done(before, live, spared, keys, 0)
    ensures Pruned(before, live, base, spared)
    ensures DirectoryLeft(before, base, spared) ==> IsDirectory(live, base)
  {
    assert keys[0..] == keys;
    if DirectoryLeft(before, base, spared) {
      var k :| base <= k && IsDirectory(before, k) && Stays(spared, k);
      AboveIsDirectory(before, base, k);
      var d :| d in spared && k <= d;
      assert base <= d;
      assert Stored(live, base) == Stored(before, base);
    }
  }

  lemma {:induction false} EntryNamed(before: Names, fs: Tree, path: string, list: seq<string>, i: nat)
    requires fs.base == Components(path) && GoodTree(fs.root) && Mirrors(before, fs.base, fs.root)
    requires list == [path] + Prefixed(path, Items(fs.root)) && i < |AllKeys(fs)|
    ensures |list| == |AllKeys(fs)| && fs.base <= AllKeys(fs)[i]
    ensures list[i] == Spelled(path, fs.base, AllKeys(fs)[i]) && Components(list[i]) == AllKeys(fs)[i]
  {
    PrefixedLength(path, Items(fs.root));
    if i > 0 {
      var it := Items(fs.root)[i - 1];
      PrefixedAt(path, Items(fs.root), i - 1);
      ItemFacts(fs, before, path, it);
      assert (fs.base + it.rel)[|fs.base|..] == it.rel;
    } else {
      assert path + Suffix([]) == path;
    }
  }
}
