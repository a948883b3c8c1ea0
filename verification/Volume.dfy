/** A file system that path strings change: directories, and files that may have several
    names. `Mirrors` ties it to the tree a listing goes through. */
module Volume {
  import opened Common
  import opened Paths
  import opened TreeWalk
  import opened WalkFacts

  type Path = seq<string>

  datatype Object = Directory | Regular(ino: nat)

  type Names = map<Path, Object>

  predicate Slashed(p: string) {
    p != "" && p[|p| - 1] == '/'
  }

  /** What a path string names. With a slash at its end it names a directory only. */
  function Found(live: Names, p: string): Option<Object> {
    var c := Components(p);
    if c in live && (Slashed(p) ==> live[c].Directory?) then Some(live[c]) else None
  }

  predicate IsDirectory(live: Names, c: Path) {
    c in live && live[c].Directory?
  }

  predicate IsChild(k: Path, c: Path) {
    |k| == |c| + 1 && k[..|c|] == c
  }

  predicate Empty(live: Names, c: Path) {
    forall k :: k in live ==> !IsChild(k, c)
  }

  /** A new name can be made at `c`. */
  predicate Vacant(live: Names, c: Path) {
    c != [] && c !in live && IsDirectory(live, c[..|c| - 1])
  }

  /** Every name is in a directory. */
  ghost predicate Rooted(live: Names) {
    && (forall k :: k in live && k != [] ==> IsDirectory(live, k[..|k| - 1]))
    && ([] in live ==> live[[]].Directory?)
  }

  /** The tree `root` is what stands at and below `base`. */
  ghost predicate Mirrors(live: Names, base: Path, root: Node) {
    forall rel :: Stored(live, base + rel) == NodeKind(Resolve(root, rel))
  }

  function Stored(live: Names, c: Path): Option<Object> {
    if c in live then Some(live[c]) else None
  }

  function NodeKind(n: Option<Node>): Option<Object> {
    match n
    case Some(Dir(_, _)) => Some(Directory)
    case Some(File(ino)) => Some(Regular(ino))
    case _ => None
  }

  class Disk {
    var live: Names

    constructor (live: Names)
      ensures this.live == live
    {
      this.live := live;
    }

    method Mkdir(p: string) returns (ok: bool)
      modifies this
      ensures ok == Vacant(old(live), Components(p))
      ensures live == if ok then old(live)[Components(p) := Directory] else old(live)
    {
      var c := Components(p);
      ok := Vacant(live, c);
      if ok { live := live[c := Directory]; }
    }

    method Link(src: string, dst: string) returns (ok: bool)
      modifies this
      ensures ok == (Found(old(live), src).Some? && Found(old(live), src).value.Regular?
                     && Vacant(old(live), Components(dst)) && !Slashed(dst))
      ensures live == if ok then old(live)[Components(dst) := Found(old(live), src).value] else old(live)
    {
      var o, c := Found(live, src), Components(dst);
      ok := o.Some? && o.value.Regular? && Vacant(live, c) && !Slashed(dst);
      if ok { live := live[c := o.value]; }
    }

    method Rmdir(p: string) returns (ok: bool)
      modifies this
      ensures ok == (IsDirectory(old(live), Components(p)) && Components(p) != [] && Empty(old(live), Components(p)))
      ensures live == if ok then old(live) - {Components(p)} else old(live)
    {
      var c := Components(p);
      ok := IsDirectory(live, c) && c != [] && Empty(live, c);
      if ok { live := live - {c}; }
    }

    method Unlink(p: string) returns (ok: bool)
      modifies this
      ensures ok == (Found(old(live), p).Some? && Found(old(live), p).value.Regular?)
      ensures live == if ok then old(live) - {Components(p)} else old(live)
    {
      var o := Found(live, p);
      ok := o.Some? && o.value.Regular?;
      if ok { live := live - {Components(p)}; }
    }
  }

  lemma {:induction false} AboveIsDirectory(live: Names, c: Path, d: Path)
    requires Rooted(live) && d in live && c <= d
    ensures c in live && (c != d ==> live[c].Directory?)
    decreases |d|
  {
    if c == d {
    } else {
      var up := d[..|d| - 1];
      assert c <= up;
      AboveIsDirectory(live, c, up);
    }
  }

  // ----- The list that `rmr` and `cpr` work through

  function Items(root: Node): seq<Item> {
    if Openable(Some(root)) then Walk([], root.kids, true) else []
  }

  predicate GoodTree(root: Node) {
    root.Dir? ==> WellFormed(root.kids)
  }

  /** `listdir` from the top, whatever stands there. */
  method List(fs: Tree, path: string) returns (dl: seq<string>)
    requires fs.base == Components(path) && GoodTree(fs.root)
    ensures dl == Prefixed(path, Items(fs.root))
  {
    assert path + Suffix([]) == path && fs.base + [] == fs.base;
    if fs.root.Dir? {
      dl := ListDir(fs, path, true, path, [], fs.root);
    } else {
      dl := [];
    }
  }

  lemma {:induction false} PrefixedAt(start: string, items: seq<Item>, i: nat)
    requires i < |items|
    ensures |Prefixed(start, items)| == |items| && Prefixed(start, items)[i] == start + Suffix(items[i].rel)
  {
    if |items| > 1 {
      PrefixedAt(start, items[1..], if i == 0 then 0 else i - 1);
    }
  }

  lemma {:induction false} PrefixedLength(start: string, items: seq<Item>)
    ensures |Prefixed(start, items)| == |items|
  {
    if items != [] { PrefixedAt(start, items, 0); }
  }

  lemma {:induction false} LookupNames(kids: seq<Entry>, name: string)
    requires WellFormed(kids) && Lookup(kids, name).Some?
    ensures IsName(name)
    ensures Lookup(kids, name).value.Dir? ==> WellFormed(Lookup(kids, name).value.kids)
  {
    if kids[0].name != name {
      WellFormedTail(kids);
      LookupNames(kids[1..], name);
    }
  }

  lemma {:induction false} ResolvesNames(root: Node, rel: seq<string>)
    requires GoodTree(root) && Resolve(root, rel).Some?
    ensures AllNames(rel) && GoodTree(Resolve(root, rel).value)
    decreases |rel|
  {
    if rel != [] {
      var up := rel[..|rel| - 1];
      ResolvesNames(root, up);
      LookupNames(Resolve(root, up).value.kids, rel[|rel| - 1]);
    }
  }

  lemma {:induction false} ItemFacts(fs: Tree, live: Names, path: string, it: Item)
    requires fs.base == Components(path) && GoodTree(fs.root) && Mirrors(live, fs.base, fs.root)
    requires it in Items(fs.root)
    ensures it.rel != [] && AllNames(it.rel) && Components(path + Suffix(it.rel)) == fs.base + it.rel
    ensures fs.base + it.rel in live && (live[fs.base + it.rel].Directory? <==> it.isDir)
  {
    ListedIff(fs.root.kids, it.rel, it.isDir);
    assert Item(it.rel, it.isDir) == it;
    ResolvesNames(fs.root, it.rel);
    ComponentsOfSuffix(path, it.rel);
    assert Stored(live, fs.base + it.rel) == NodeKind(Resolve(fs.root, it.rel));
  }

  lemma {:induction false} SuffixNotSlashed(p: string, rel: seq<string>)
    requires rel != [] && AllNames(rel)
    ensures !Slashed(p + Suffix(rel))
  {
  }
}
