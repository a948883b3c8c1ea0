/** What a listing holds: every entry that can be reached, once, after its parent. */
module WalkFacts {
  import opened Common
  import opened TreeWalk

  predicate Openable(n: Option<Node>) {
    n.Some? && n.value.Dir? && n.value.openable
  }

  /** The entry `rel` below `root` is a directory (`d`) or a file (`!d`). */
  predicate KindAt(root: Node, rel: seq<string>, d: bool) {
    var n := Resolve(root, rel);
    n.Some? && if d then n.value.Dir? else n.value.File?
  }

  /** Every directory on the way to `rel` opens. */
  predicate WayOpen(root: Node, rel: seq<string>) {
    forall k :: 0 <= k < |rel| ==> Openable(Resolve(root, rel[..k]))
  }

  /** The same from the front, one directory at a time. */
  predicate Reach(n: Node, rel: seq<string>, d: bool)
    decreases |rel|
  {
    if rel == [] then (if d then n.Dir? else n.File?)
    else
      && Openable(Some(n))
      && var m := Lookup(n.kids, rel[0]);
      m.Some? && Reach(m.value, rel[1..], d)
  }

  lemma {:induction false} ResolveFront(n: Node, rel: seq<string>)
    requires rel != []
    ensures n.Dir? && Lookup(n.kids, rel[0]).Some? ==>
            Resolve(n, rel) == Resolve(Lookup(n.kids, rel[0]).value, rel[1..])
    ensures !(n.Dir? && Lookup(n.kids, rel[0]).Some?) ==> Resolve(n, rel) == None
    decreases |rel|
  {
    var k := |rel| - 1;
    if k == 0 {
      assert rel[..0] == [] && rel[1..] == [];
    } else {
      ResolveFront(n, rel[..k]);
      assert rel[1..][..k - 1] == rel[..k][1..];
    }
  }

  lemma {:induction false} ReachMeans(n: Node, rel: seq<string>, d: bool)
    ensures Reach(n, rel, d) <==> WayOpen(n, rel) && KindAt(n, rel, d)
    decreases |rel|
  {
    if rel != [] {
      ResolveFront(n, rel);
      assert rel[..0] == [] && Resolve(n, rel[..0]) == Some(n);
      if Openable(Some(n)) && Lookup(n.kids, rel[0]).Some? {
        var m := Lookup(n.kids, rel[0]).value;
        ReachMeans(m, rel[1..], d);
        WayOpenFront(n, rel, m);
      }
    }
  }

  lemma {:induction false} WayOpenFront(n: Node, rel: seq<string>, m: Node)
    requires rel != [] && Openable(Some(n)) && Lookup(n.kids, rel[0]) == Some(m)
    ensures WayOpen(n, rel) <==> WayOpen(m, rel[1..])
  {
    forall k | 0 < k <= |rel| ensures Resolve(n, rel[..k]) == Resolve(m, rel[1..][..k - 1]) {
      ResolveFront(n, rel[..k]);
      assert rel[..k][1..] == rel[1..][..k - 1];
    }
    if WayOpen(n, rel) {
      forall k | 0 <= k < |rel[1..]| ensures Openable(Resolve(m, rel[1..][..k])) {
        assert Openable(Resolve(n, rel[..k + 1]));
      }
    }
    if WayOpen(m, rel[1..]) {
      forall k | 0 <= k < |rel| ensures Openable(Resolve(n, rel[..k])) {
        if k == 0 {
          assert rel[..0] == [];
        } else {
          assert Openable(Resolve(m, rel[1..][..k - 1]));
        }
      }
    }
  }

  /** `rel` is in `k`, an entry of the directory `at`. */
  predicate Below(at: seq<string>, k: Entry, rel: seq<string>, d: bool) {
    at < rel && rel[|at|] == k.name && Reach(k.node, rel[|at| + 1..], d)
  }

  lemma {:induction false} LookupMiss(kids: seq<Entry>, name: string)
    requires forall i :: 0 <= i < |kids| ==> kids[i].name != name
    ensures Lookup(kids, name) == None
  {
    if kids != [] {
      LookupMiss(kids[1..], name);
    }
  }

  lemma {:induction false} WalkOneMembers(at: seq<string>, k: Entry, rel: seq<string>, d: bool)
    requires k.node.Dir? ==> WellFormed(k.node.kids)
    ensures Item(rel, d) in WalkOne(at, k, true) <==> Below(at, k, rel, d)
    decreases k, 0
  {
    var here := at + [k.name];
    if here == rel {
      assert rel[|at| + 1..] == [];
    }
    if k.node.Dir? {
      WalkMembers(here, k.node.kids, rel, d);
      if at < rel && rel[|at|] == k.name {
        assert here <= rel;
        assert rel[|here|..] == rel[|at| + 1..];
      }
    }
  }

  lemma {:induction false} WalkMembers(at: seq<string>, kids: seq<Entry>, rel: seq<string>, d: bool)
    requires WellFormed(kids)
    ensures Item(rel, d) in Walk(at, kids, true) <==>
      at < rel && Reach(Dir(true, kids), rel[|at|..], d)
    decreases kids, 1
  {
    if kids != [] {
      var k := kids[0];
      WellFormedTail(kids);
      WalkOneMembers(at, k, rel, d);
      WalkMembers(at, kids[1..], rel, d);
      if at < rel {
        var below := rel[|at|..];
        assert below[1..] == rel[|at| + 1..];
        if below[0] == k.name {
          LookupMiss(kids[1..], k.name);
        }
      }
    }
  }

  /** The listing has exactly the files and directories to which every directory on the
      way opens. */
  lemma {:induction false} ListedIff(kids: seq<Entry>, rel: seq<string>, d: bool)
    requires WellFormed(kids)
    ensures Item(rel, d) in Walk([], kids, true) <==>
      rel != [] && WayOpen(Dir(true, kids), rel) && KindAt(Dir(true, kids), rel, d)
  {
    WalkMembers([], kids, rel, d);
    if rel != [] {
      assert rel[0..] == rel;
      ReachMeans(Dir(true, kids), rel, d);
    }
  }

  /** Everything listed opens and can be read. */
  ghost predicate NoFaults(root: Node) {
    forall rel :: Resolve(root, rel).Some? ==>
      match Resolve(root, rel).value
      case Dir(open, _) => open
      case n => n.Faulty? ==> rel == []
  }

  lemma {:induction false} AllWaysOpen(root: Node, rel: seq<string>)
    requires NoFaults(root) && Resolve(root, rel).Some?
    ensures WayOpen(root, rel)
    decreases |rel|
  {
    if rel != [] {
      var up := rel[..|rel| - 1];
      AllWaysOpen(root, up);
      forall k | 0 <= k < |rel| ensures Openable(Resolve(root, rel[..k])) {
        if k < |rel| - 1 {
          assert rel[..k] == up[..k] && Openable(Resolve(root, up[..k]));
        }
      }
    }
  }

  // ----- Without recursion

  lemma {:induction false} FlatOne(at: seq<string>, k: Entry, rel: seq<string>, d: bool)
    ensures Item(rel, d) in WalkOne(at, k, false) <==> rel == at + [k.name] && (if d then k.node.Dir? else k.node.File?)
  {
  }

  lemma {:induction false} FlatMembers(at: seq<string>, kids: seq<Entry>, n: string, d: bool)
    requires WellFormed(kids)
    ensures Item(at + [n], d) in Walk(at, kids, false) <==> KindAt(Dir(true, kids), [n], d)
    decreases |kids|
  {
    ResolveOne(kids, n);
    if kids != [] {
      WellFormedTail(kids);
      FlatOne(at, kids[0], at + [n], d);
      FlatMembers(at, kids[1..], n, d);
      ResolveOne(kids[1..], n);
      assert (at + [n])[|at|] == n && (at + [kids[0].name])[|at|] == kids[0].name;
      if n == kids[0].name { LookupMiss(kids[1..], n); }
    }
  }

  lemma {:induction false} FlatDepth(at: seq<string>, kids: seq<Entry>, it: Item)
    requires it in Walk(at, kids, false)
    ensures |it.rel| == |at| + 1 && it.rel == at + [it.rel[|at|]]
    decreases |kids|
  {
    if it in WalkOne(at, kids[0], false) {
      FlatOne(at, kids[0], it.rel, it.isDir);
    } else {
      FlatDepth(at, kids[1..], it);
    }
  }

  lemma {:induction false} ResolveOne(kids: seq<Entry>, n: string)
    ensures Resolve(Dir(true, kids), [n]) == Lookup(kids, n)
  {
    assert [n][..0] == [];
  }

  /** The listing without recursion has exactly the files and directories of the starting
      directory. */
  lemma {:induction false} ListedFlatIff(kids: seq<Entry>, rel: seq<string>, d: bool)
    requires WellFormed(kids)
    ensures Item(rel, d) in Walk([], kids, false) <==> |rel| == 1 && KindAt(Dir(true, kids), rel, d)
  {
    if Item(rel, d) in Walk([], kids, false) { FlatDepth([], kids, Item(rel, d)); }
    if |rel| == 1 {
      FlatMembers([], kids, rel[0], d);
      assert rel == [] + [rel[0]] == [rel[0]];
    }
  }

  // ----- Once each

  ghost predicate Distinct(items: seq<Item>) {
    forall i, j :: 0 <= i < j < |items| ==> items[i].rel != items[j].rel
  }

  lemma {:induction false} ListedOnce(at: seq<string>, kids: seq<Entry>)
    requires WellFormed(kids)
    ensures Distinct(Walk(at, kids, true))
    decreases kids, 1
  {
    if kids != [] {
      WellFormedTail(kids);
      var one, tail := WalkOne(at, kids[0], true), Walk(at, kids[1..], true);
      OneOnce(at, kids[0]);
      ListedOnce(at, kids[1..]);
      forall a, b | a in one && b in tail ensures a.rel != b.rel {
        WalkOneMembers(at, kids[0], a.rel, a.isDir);
        WalkMembers(at, kids[1..], b.rel, b.isDir);
        LookupMiss(kids[1..], kids[0].name);
        assert Item(a.rel, a.isDir) == a && Item(b.rel, b.isDir) == b;
        assert b.rel[|at|..][0] == b.rel[|at|];
      }
    }
  }

  lemma {:induction false} OneOnce(at: seq<string>, k: Entry)
    requires k.node.Dir? ==> WellFormed(k.node.kids)
    ensures Distinct(WalkOne(at, k, true))
    decreases k, 0
  {
    if k.node.Dir? && k.node.openable {
      var here := at + [k.name];
      var sub := Walk(here, k.node.kids, true);
      ListedOnce(here, k.node.kids);
      forall b | b in sub ensures b.rel != here {
        WalkMembers(here, k.node.kids, b.rel, b.isDir);
        assert Item(b.rel, b.isDir) == b;
      }
    }
  }

  // ----- Parents first

  /** Every entry deeper than `at` has its directory listed before it. */
  ghost predicate ParentsFirst(at: seq<string>, items: seq<Item>) {
    forall j :: 0 <= j < |items| ==> ParentBefore(at, items, j)
  }

  ghost predicate ParentBefore(at: seq<string>, items: seq<Item>, j: int)
    requires 0 <= j < |items|
  {
    var rel := items[j].rel;
    at < rel && (|rel| > |at| + 1 ==> exists i :: 0 <= i < j && items[i] == Item(rel[..|rel| - 1], true))
  }

  lemma {:induction false} ParentsFirstOf(at: seq<string>, kids: seq<Entry>)
    ensures ParentsFirst(at, Walk(at, kids, true))
    decreases kids, 1
  {
    if kids != [] {
      var one, tail := WalkOne(at, kids[0], true), Walk(at, kids[1..], true);
      ParentsFirstOne(at, kids[0]);
      ParentsFirstOf(at, kids[1..]);
      ParentsFirstJoin(at, one, tail);
    }
  }

  lemma {:induction false} ParentsFirstJoin(at: seq<string>, a: seq<Item>, b: seq<Item>)
    requires ParentsFirst(at, a) && ParentsFirst(at, b)
    ensures ParentsFirst(at, a + b)
  {
    var c := a + b;
    forall j | 0 <= j < |c| ensures ParentBefore(at, c, j) {
      var rel := c[j].rel;
      if j < |a| {
        assert ParentBefore(at, a, j);
        if |rel| > |at| + 1 {
          var i :| 0 <= i < j && a[i] == Item(rel[..|rel| - 1], true);
          assert c[i] == a[i];
        }
      } else {
        assert ParentBefore(at, b, j - |a|);
        if |rel| > |at| + 1 {
          var i :| 0 <= i < j - |a| && b[i] == Item(rel[..|rel| - 1], true);
          assert c[|a| + i] == b[i];
        }
      }
    }
  }

  lemma {:induction false} ParentsFirstOne(at: seq<string>, k: Entry)
    ensures ParentsFirst(at, WalkOne(at, k, true))
    decreases k, 0
  {
    if k.node.Dir? && k.node.openable {
      var here := at + [k.name];
      var sub := Walk(here, k.node.kids, true);
      ParentsFirstOf(here, k.node.kids);
      ParentsFirstUnder(at, k.name, sub);
    }
  }

  lemma {:induction false} ParentsFirstUnder(at: seq<string>, name: string, sub: seq<Item>)
    requires ParentsFirst(at + [name], sub)
    ensures ParentsFirst(at, [Item(at + [name], true)] + sub)
  {
    var here := at + [name];
    var c := [Item(here, true)] + sub;
    forall j | 0 <= j < |c| ensures ParentBefore(at, c, j) {
      if j > 0 {
        assert ParentBefore(here, sub, j - 1);
        var rel := c[j].rel;
        if |rel| > |here| + 1 {
          var i :| 0 <= i < j - 1 && sub[i] == Item(rel[..|rel| - 1], true);
          assert c[i + 1] == sub[i];
        } else {
          assert rel[..|rel| - 1] == here;
          assert c[0] == Item(rel[..|rel| - 1], true);
        }
      }
    }
  }
}
