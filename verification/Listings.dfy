/** The two listings against each other and against the tree. */
module Listings {
  import opened Paths
  import opened TreeWalk
  import opened WalkFacts
  import opened LsrIter
  import opened Volume

  lemma {:induction false} SeenLength(base: seq<string>, reports: seq<Report>)
    ensures |Seen(base, reports)| == |reports|
  {
    if reports != [] { SeenLength(base, reports[..|reports| - 1]); }
  }

  lemma {:induction false} SeenAt(base: seq<string>, reports: seq<Report>, i: nat)
    requires i < |reports|
    ensures |Seen(base, reports)| == |reports| && Seen(base, reports)[i] == ItemOf(base, reports[i])
    decreases |reports|
  {
    SeenLength(base, reports);
    if i < |reports| - 1 {
      var front := reports[..|reports| - 1];
      SeenLength(base, front);
      SeenAt(base, front, i);
      assert front[i] == reports[i];
    }
  }

  lemma {:induction false} ItemNames(kids: seq<Entry>, it: Item)
    requires WellFormed(kids) && it in Walk([], kids, true)
    ensures it.rel != [] && AllNames(it.rel)
    ensures WayOpen(Dir(true, kids), it.rel) && KindAt(Dir(true, kids), it.rel, it.isDir)
  {
    assert it == Item(it.rel, it.isDir);
    ListedIff(kids, it.rel, it.isDir);
    ResolvesNames(Dir(true, kids), it.rel);
  }

  /** What recursive `lsr_iter` reports (`Seen`) and what recursive `listdir` collects
      (`Prefixed`) are as many, and entry `i` of both has the same components: those of an
      entry to which every directory on the way opens. */
  lemma {:induction false} ListingsAgree(path: string, kids: seq<Entry>, reports: seq<Report>, dl: seq<string>, i: nat)
    requires WellFormed(kids) && Seen(Components(path), reports) == Walk([], kids, true)
    requires dl == Prefixed(path, Walk([], kids, true)) && i < |reports|
    ensures |Walk([], kids, true)| == |reports| == |dl|
    ensures var rel := Walk([], kids, true)[i].rel;
      && Components(reports[i].path) == Components(dl[i]) == Components(path) + rel
      && reports[i].isDir == Walk([], kids, true)[i].isDir
      && WayOpen(Dir(true, kids), rel) && KindAt(Dir(true, kids), rel, reports[i].isDir)
  {
    var base, items := Components(path), Walk([], kids, true);
    SeenAt(base, reports, i);
    PrefixedAt(path, items, i);
    ItemNames(kids, items[i]);
    ComponentsOfSuffix(path, items[i].rel);
    var c := Components(reports[i].path);
    assert IsName(items[i].rel[0]);
    assert base <= c && c == base + c[|base|..];
  }

  /** No entry is reported twice. */
  lemma {:induction false} NoEntryTwice(path: string, kids: seq<Entry>, reports: seq<Report>, i: nat, j: nat)
    requires WellFormed(kids) && Seen(Components(path), reports) == Walk([], kids, true) && i < j < |reports|
    ensures Components(reports[i].path) != Components(reports[j].path)
  {
    var base, items := Components(path), Walk([], kids, true);
    ListingsAgree(path, kids, reports, Prefixed(path, items), i);
    ListingsAgree(path, kids, reports, Prefixed(path, items), j);
    ListedOnce([], kids);
    assert items[i].rel != items[j].rel;
    assert (base + items[i].rel)[|base|..] == items[i].rel && (base + items[j].rel)[|base|..] == items[j].rel;
  }

  /** No entry to which every directory on the way opens is missed. */
  lemma {:induction false} NoEntryMissed(path: string, kids: seq<Entry>, reports: seq<Report>, rel: seq<string>,
                                         d: bool) returns (i: nat)
    requires WellFormed(kids) && Seen(Components(path), reports) == Walk([], kids, true)
    requires rel != [] && WayOpen(Dir(true, kids), rel) && KindAt(Dir(true, kids), rel, d)
    ensures i < |reports| && Components(reports[i].path) == Components(path) + rel && reports[i].isDir == d
  {
    var items := Walk([], kids, true);
    SeenLength(Components(path), reports);
    ListedIff(kids, rel, d);
    i :| 0 <= i < |items| && items[i] == Item(rel, d);
    ListingsAgree(path, kids, reports, Prefixed(path, items), i);
  }
}
