/** `cpr`: a directory tree copied by making directories and linking files. */
module Copy {
  import opened Common
  import opened Paths
  import opened TreeWalk
  import opened WalkFacts
  import opened Volume

  /** The first `n` items are copied from below `s` to below `d`, and nothing else is new. */
  ghost predicate Made(before: Names, after: Names, s: Path, d: Path, items: seq<Item>, n: nat)
    requires n <= |items|
  {
    && (forall k :: k in before ==> k in after && after[k] == before[k])
    && (forall k :: k in after ==> k in before || k == d || exists j :: 0 <= j < n && k == d + items[j].rel)
    && Stored(after, d) == Some(Directory)
    && (forall j :: 0 <= j < n ==>
         Stored(before, s + items[j].rel).Some? && Stored(after, d + items[j].rel) == Stored(before, s + items[j].rel))
  }

  /** What holds before the copy begins. */
  ghost predicate Ready(before: Names, fs: Tree, src: string, d: Path) {
    && fs.base == Components(src) && GoodTree(fs.root) && Mirrors(before, fs.base, fs.root)
    && Rooted(before) && d !in before
  }

  lemma {:induction false} NothingBelow(before: Names, d: Path, rel: Path)
    requires Rooted(before) && d !in before
    ensures d + rel !in before
  {
    if d + rel in before {
      AboveIsDirectory(before, d, d + rel);
    }
  }

  lemma {:induction false} NextFree(before: Names, after: Names, s: Path, d: Path, items: seq<Item>, n: nat)
    requires Rooted(before) && d !in before && n < |items| && items[n].rel != []
    requires Distinct(items) && Made(before, after, s, d, items, n)
    ensures d + items[n].rel !in after
  {
    var rel := items[n].rel;
    NothingBelow(before, d, rel);
    assert d + rel != d;
    forall j | 0 <= j < n ensures d + rel != d + items[j].rel {
      SameTail(d, rel, items[j].rel);
    }
  }

  lemma {:induction false} SameTail(d: Path, a: Path, b: Path)
    ensures d + a == d + b ==> a == b
  {
    assert (d + a)[|d|..] == a && (d + b)[|d|..] == b;
  }

  lemma {:induction false} NextParent(before: Names, after: Names, s: Path, d: Path, items: seq<Item>, n: nat)
    requires n < |items| && GoodList(before, s, items)
    requires Made(before, after, s, d, items, n)
    ensures var rel := items[n].rel; IsDirectory(after, d + rel[..|rel| - 1])
  {
    var up := items[n].rel[..|items[n].rel| - 1];
    assert ParentBefore([], items, n);
    if up == [] {
      assert d + up == d;
    } else {
      var i :| 0 <= i < n && items[i] == Item(up, true);
      assert Stored(after, d + items[i].rel) == Stored(before, s + items[i].rel);
    }
  }

  /** What the copy uses about the list. */
  ghost predicate GoodList(before: Names, s: Path, items: seq<Item>) {
    && Distinct(items)
    && ParentsFirst([], items)
    && (forall j :: 0 <= j < |items| ==> items[j].rel != [])
    && (forall j :: 0 <= j < |items| ==> Stored(before, s + items[j].rel).Some?)
    && (forall j :: 0 <= j < |items| && items[j].isDir ==> Stored(before, s + items[j].rel) == Some(Directory))
  }

  lemma {:induction false} ItemsAreGood(before: Names, fs: Tree, src: string)
    requires fs.base == Components(src) && GoodTree(fs.root) && Mirrors(before, fs.base, fs.root)
    ensures GoodList(before, fs.base, Items(fs.root))
  {
    var items := Items(fs.root);
    if items != [] {
      ListedOnce([], fs.root.kids);
      ParentsFirstOf([], fs.root.kids);
      forall j | 0 <= j < |items|
        ensures items[j].rel != [] && Stored(before, fs.base + items[j].rel).Some?
        ensures items[j].isDir ==> Stored(before, fs.base + items[j].rel) == Some(Directory)
      {
        ItemFacts(fs, before, src, items[j]);
      }
    }
  }

  /** The place of the next entry is free and its directory is already made. */
  lemma {:induction false} NextVacant(before: Names, after: Names, s: Path, d: Path, items: seq<Item>, n: nat)
    requires Rooted(before) && d !in before && GoodList(before, s, items) && n < |items|
    requires Made(before, after, s, d, items, n)
    ensures Vacant(after, d + items[n].rel)
  {
    NextFree(before, after, s, d, items, n);
    NextParent(before, after, s, d, items, n);
    VacantAt(after, d, items[n].rel);
  }

  lemma {:induction false} VacantAt(after: Names, d: Path, rel: Path)
    requires rel != [] && d + rel !in after && IsDirectory(after, d + rel[..|rel| - 1])
    ensures Vacant(after, d + rel)
  {
    assert (d + rel)[..|d + rel| - 1] == d + rel[..|rel| - 1];
  }

  lemma {:induction false} MadeNext(before: Names, after: Names, s: Path, d: Path, items: seq<Item>, n: nat, o: Object)
    requires n < |items| && Made(before, after, s, d, items, n)
    requires d + items[n].rel !in after && Stored(before, s + items[n].rel) == Some(o)
    ensures Made(before, after[d + items[n].rel := o], s, d, items, n + 1)
  {
  }

  /** The tree below `d` is the part of the source that can be reached; nothing else
      changed. Files keep their inode. */
  ghost predicate Copied(before: Names, after: Names, fs: Tree, d: Path) {
    && Stored(after, d) == Some(Directory)
    && (forall rel :: rel != [] ==>
         Stored(after, d + rel) == if WayOpen(fs.root, rel) then Stored(before, fs.base + rel) else None)
    && (forall k :: !(d <= k) ==> Stored(after, k) == Stored(before, k))
  }

  /** Where everything opens, the copy has the shape of the source and every file of it has
      the inode of its original. */
  lemma {:induction false} CopyHasSameShape(before: Names, after: Names, fs: Tree, d: Path, rel: Path)
    requires Mirrors(before, fs.base, fs.root) && NoFaults(fs.root) && Copied(before, after, fs, d)
    requires rel != []
    ensures Stored(after, d + rel) == Stored(before, fs.base + rel)
  {
    assert Stored(before, fs.base + rel) == NodeKind(Resolve(fs.root, rel));
    if Resolve(fs.root, rel).Some? { AllWaysOpen(fs.root, rel); }
  }

  lemma {:induction false} MadeIsCopied(before: Names, after: Names, fs: Tree, src: string, d: Path)
    requires Ready(before, fs, src, d)
    requires Made(before, after, fs.base, d, Items(fs.root), |Items(fs.root)|)
    ensures Copied(before, after, fs, d)
  {
    forall rel | rel != []
      ensures Stored(after, d + rel) == if WayOpen(fs.root, rel) then Stored(before, fs.base + rel) else None
    {
      MadeAt(before, after, fs, src, d, rel);
    }
    forall k | !(d <= k) ensures Stored(after, k) == Stored(before, k) {
      assert forall j :: 0 <= j < |Items(fs.root)| ==> d <= d + Items(fs.root)[j].rel;
    }
  }

  lemma {:induction false} MadeAt(before: Names, after: Names, fs: Tree, src: string, d: Path, rel: Path)
    requires Ready(before, fs, src, d) && rel != []
    requires Made(before, after, fs.base, d, Items(fs.root), |Items(fs.root)|)
    ensures Stored(after, d + rel) == if WayOpen(fs.root, rel) then Stored(before, fs.base + rel) else None
  {
    var items := Items(fs.root);
    NothingBelow(before, d, rel);
    assert Stored(before, fs.base + rel) == NodeKind(Resolve(fs.root, rel));
    if d + rel in after {
      var j :| 0 <= j < |items| && d + rel == d + items[j].rel;
      SameTail(d, rel, items[j].rel);
      assert items[j] == Item(rel, items[j].isDir);
      ListedIff(fs.root.kids, rel, items[j].isDir);
    }
    if WayOpen(fs.root, rel) && fs.base + rel in before {
      assert rel[..0] == [] && Openable(Resolve(fs.root, rel[..0]));
      var isDir := before[fs.base + rel].Directory?;
      ListedIff(fs.root.kids, rel, isDir);
      var j :| 0 <= j < |items| && items[j] == Item(rel, isDir);
      assert Stored(after, d + items[j].rel) == Stored(before, fs.base + items[j].rel);
    }
  }

  lemma {:induction false} MadeNothing(before: Names, s: Path, d: Path, items: seq<Item>)
    requires d !in before
    ensures Made(before, before[d := Directory], s, d, items, 0)
  {
  }

  /** One pass of the loop. */
  method CopyEntry(disk: Disk, entry: string, srcp: string, dstp: string,
                   ghost before: Names, ghost fs: Tree, ghost n: nat) returns (ok: bool)
    requires Ready(before, fs, srcp, Components(dstp)) && n < |Items(fs.root)|
    requires entry == srcp + Suffix(Items(fs.root)[n].rel)
    requires Made(before, disk.live, fs.base, Components(dstp), Items(fs.root), n)
    modifies disk
    ensures ok && Made(before, disk.live, fs.base, Components(dstp), Items(fs.root), n + 1)
  {
    ghost var d, items := Components(dstp), Items(fs.root);
    ghost var rel := items[n].rel;
    ItemFacts(fs, before, srcp, items[n]);
    SuffixNotSlashed(srcp, rel);
    SuffixNotSlashed(dstp, rel);
    ComponentsOfSuffix(dstp, rel);
    ItemsAreGood(before, fs, srcp);
    NextVacant(before, disk.live, fs.base, d, items, n);
    MadeNext(before, disk.live, fs.base, d, items, n, before[fs.base + rel]);
    var st := Found(disk.live, entry);
    var path := dstp + entry[|srcp|..];
    if st == Some(Directory) {
      ok := disk.Mkdir(path);
    } else {
      ok := disk.Link(entry, path);
    }
  }

  /** The list is taken before anything is made, so a destination inside the source is
      not copied into itself. The one failure is the first `mkdir`, and it changes
      nothing. */
  method Cpr(disk: Disk, fs: Tree, srcp: string, dstp: string) returns (rc: int)
    requires fs.base == Components(srcp) && GoodTree(fs.root)
    requires Rooted(disk.live) && Mirrors(disk.live, fs.base, fs.root)
    modifies disk
    ensures rc == 0 <==> Vacant(old(disk.live), Components(dstp))
    ensures rc == 0 ==> Copied(old(disk.live), disk.live, fs, Components(dstp))
    ensures rc != 0 ==> rc == -1 && disk.live == old(disk.live)
  {
    ghost var before, d, items := disk.live, Components(dstp), Items(fs.root);
    var list := List(fs, srcp);
    PrefixedLength(srcp, items);
    var made := disk.Mkdir(dstp);
    if !made { return -1; }
    MadeNothing(before, fs.base, d, items);
    assert Ready(before, fs, srcp, d);
    var i := 0;
    while i < |list|
      invariant i <= |list| == |items|
      invariant Made(before, disk.live, fs.base, d, items, i)
    {
      PrefixedAt(srcp, items, i);
      var ok := CopyEntry(disk, list[i], srcp, dstp, before, fs, i);
      if !ok { return -1; }
      i := i + 1;
    }
    MadeIsCopied(before, disk.live, fs, srcp, d);
    rc := 0;
  }
}
