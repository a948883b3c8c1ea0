/** Directory listings: the iterative `lsr_iter` with its stack and path buffer, and the
    recursive `listdir`. Both reach the tree only through path strings. */
module TreeWalk {
  import opened Common
  import opened Paths

  /** A finite tree without links. `Dot` is a "." or ".." entry, `Faulty` one that `stat`
      refuses; `openable` says whether `opendir` succeeds. */
  datatype Node = File(ino: nat) | Dir(openable: bool, kids: seq<Entry>) | Dot | Faulty
  datatype Entry = Entry(name: string, node: Node)

  predicate IsDots(n: string) {
    n == "." || n == ".."
  }

  predicate WellFormed(kids: seq<Entry>)
    decreases kids
  {
    && (forall i :: 0 <= i < |kids| ==> IsName(kids[i].name) && (kids[i].node.Dot? <==> IsDots(kids[i].name)))
    && (forall i, j :: 0 <= i < j < |kids| ==> kids[i].name != kids[j].name)
    && (forall i :: 0 <= i < |kids| && kids[i].node.Dir? ==> WellFormed(kids[i].node.kids))
  }

  function Lookup(kids: seq<Entry>, name: string): Option<Node> {
    if kids == [] then None
    else if kids[0].name == name then Some(kids[0].node)
    else Lookup(kids[1..], name)
  }

  function Resolve(n: Node, rel: seq<string>): Option<Node>
    decreases |rel|
  {
    if rel == [] then Some(n)
    else
      match Resolve(n, rel[..|rel| - 1])
      case Some(Dir(_, kids)) => Lookup(kids, rel[|rel| - 1])
      case _ => None
  }

  /** What a path string leads to, below a starting directory with components `base`. */
  function NodeAt(root: Node, base: seq<string>, p: string): Option<Node> {
    var c := Components(p);
    if base <= c then Resolve(root, c[|base|..]) else None
  }

  function NamesOf(kids: seq<Entry>): (names: seq<string>)
    ensures |names| == |kids| && forall i :: 0 <= i < |kids| ==> names[i] == kids[i].name
  {
    if kids == [] then [] else [kids[0].name] + NamesOf(kids[1..])
  }

  /** `opendir`: the names `readdir` will return. */
  function OpenDir(root: Node, base: seq<string>, p: string): Option<seq<string>> {
    match NodeAt(root, base, p)
    case Some(Dir(true, kids)) => Some(NamesOf(kids))
    case _ => None
  }

  // ----- The listing

  datatype Item = Item(rel: seq<string>, isDir: bool)

  /** Preorder: each entry, and after a directory what is in it. */
  function Walk(at: seq<string>, kids: seq<Entry>, rec: bool): seq<Item>
    decreases kids
  {
    if kids == [] then [] else WalkOne(at, kids[0], rec) + Walk(at, kids[1..], rec)
  }

  function WalkOne(at: seq<string>, k: Entry, rec: bool): seq<Item>
    decreases k
  {
    match k.node
    case File(_) => [Item(at + [k.name], false)]
    case Dir(open, sub) =>
      [Item(at + [k.name], true)] + if rec && open then Walk(at + [k.name], sub, rec) else []
    case _ => []
  }

  lemma {:induction false} LookupFinds(kids: seq<Entry>, i: nat)
    requires WellFormed(kids) && i < |kids|
    ensures Lookup(kids, kids[i].name) == Some(kids[i].node)
  {
    if i > 0 {
      WellFormedTail(kids);
      LookupFinds(kids[1..], i - 1);
    }
  }

  lemma {:induction false} WellFormedTail(kids: seq<Entry>)
    requires WellFormed(kids) && kids != []
    ensures WellFormed(kids[1..])
  {
  }

  /** A name read from a directory leads to that directory's entry. */
  lemma {:induction false} ChildResolves(root: Node, base: seq<string>, p: string, rel: seq<string>,
                                         kids: seq<Entry>, open: bool, i: nat)
    requires Components(p) == base + rel && Resolve(root, rel) == Some(Dir(open, kids))
    requires WellFormed(kids) && i < |kids|
    ensures Resolve(root, rel + [kids[i].name]) == Some(kids[i].node)
    ensures forall q :: Components(q) == Components(p) + [kids[i].name] ==> NodeAt(root, base, q) == Some(kids[i].node)
  {
    var n := kids[i].name;
    LookupFinds(kids, i);
    assert (rel + [n])[..|rel|] == rel;
    assert (base + rel + [n])[|base|..] == rel + [n];
  }

  // ----- rmtrdir

  lemma {:induction false} SlashAt(up: string, n: string, pt: nat)
    requires IsName(n) && |up| <= pt < |up + "/" + n|
    ensures (up + "/" + n)[pt] == '/' ==> pt == |up|
  {
  }

  /** Cuts the last component off. */
  method RmTrDir(str: string, ghost up: string, ghost n: string) returns (q: string)
    requires str == up + "/" + n && IsName(n)
    ensures q == up
  {
    if |str| <= 1 { return str; }
    var pt := |str| - 2;
    while str[pt] != '/'
      invariant |up| <= pt < |str| - 1
      decreases pt
    {
      pt := pt - 1;
    }
    SlashAt(up, n, pt);
    q := str[..pt];
  }

  // ----- listdir

  /** The file system below a starting path. */
  datatype Tree = Tree(root: Node, base: seq<string>)

  /** The strings for a list of items, below the starting path. */
  function Prefixed(start: string, items: seq<Item>): seq<string> {
    if items == [] then [] else [start + Suffix(items[0].rel)] + Prefixed(start, items[1..])
  }

  /** What `gdt` finds for a name read from the directory `path`. */
  function Gdt(fs: Tree, path: string, name: string): Option<Node> {
    NodeAt(fs.root, fs.base, path + "/" + name)
  }

  ghost predicate DirAt(fs: Tree, at: seq<string>, node: Node) {
    node.Dir? && WellFormed(node.kids) && Resolve(fs.root, at) == Some(node)
  }

  lemma {:induction false} SuffixChild(start: string, at: seq<string>, name: string)
    ensures start + Suffix(at) + "/" + name == start + Suffix(at + [name])
  {
  }

  lemma {:induction false} PrefixedAppend(start: string, a: seq<Item>, b: seq<Item>)
    ensures Prefixed(start, a + b) == Prefixed(start, a) + Prefixed(start, b)
  {
    if a == [] {
      assert a + b == b;
    } else {
      assert (a + b)[1..] == a[1..] + b;
      PrefixedAppend(start, a[1..], b);
    }
  }

  /** Where a path string stands: `at` below the starting path, at a directory. */
  ghost predicate Stands(fs: Tree, path: string, start: string, at: seq<string>, node: Node) {
    path == start + Suffix(at) && Components(path) == fs.base + at && DirAt(fs, at, node)
  }

  lemma {:induction false} OpensAt(fs: Tree, path: string, start: string, at: seq<string>, node: Node)
    requires Stands(fs, path, start, at, node)
    ensures OpenDir(fs.root, fs.base, path) == if node.openable then Some(NamesOf(node.kids)) else None
  {
  }

  lemma {:induction false} EntryStands(fs: Tree, path: string, start: string, at: seq<string>, node: Node, i: nat)
    requires Stands(fs, path, start, at, node) && i < |node.kids|
    ensures var k := node.kids[i];
      && Gdt(fs, path, k.name) == Some(k.node)
      && path + "/" + k.name == start + Suffix(at + [k.name])
      && (k.node.Dot? <==> IsDots(k.name))
      && (k.node.Dir? ==> Stands(fs, path + "/" + k.name, start, at + [k.name], k.node))
  {
    var k := node.kids[i];
    ComponentsOfChild(path, k.name);
    ChildResolves(fs.root, fs.base, path, at, node.kids, node.openable, i);
    SuffixChild(start, at, k.name);
  }

  /** The paths `listdir` adds to the pool for the directory `path`, which it opens by
      name, going down by recursion. The ghost parameters say where `path` stands. */
  method ListDir(fs: Tree, path: string, recur: bool,
                 ghost start: string, ghost at: seq<string>, ghost node: Node) returns (dl: seq<string>)
    requires Stands(fs, path, start, at, node)
    ensures dl == Prefixed(start, if node.openable then Walk(at, node.kids, recur) else [])
    decreases node, 1
  {
    dl := [];
    OpensAt(fs, path, start, at, node);
    var dir := OpenDir(fs.root, fs.base, path);
    if dir.None? { return; }
    ghost var done := [];
    assert node.kids[0..] == node.kids;
    for i := 0 to |dir.value|
      invariant |dir.value| == |node.kids| && dl == Prefixed(start, done)
      invariant done + Walk(at, node.kids[i..], recur) == Walk(at, node.kids, recur)
    {
      var more := ListEntry(fs, path, dir.value[i], recur, start, at, node, i);
      dl := dl + more;
      WalkStep(start, done, at, node.kids, i, recur);
      done := done + WalkOne(at, node.kids[i], recur);
    }
    assert node.kids[|dir.value|..] == [] && done + [] == done;
    assert done == Walk(at, node.kids, recur);
  }

  lemma {:induction false} WalkStep(start: string, done: seq<Item>, at: seq<string>, kids: seq<Entry>, i: nat,
                                    recur: bool)
    requires i < |kids|
    ensures var one := WalkOne(at, kids[i], recur);
      && Prefixed(start, done + one) == Prefixed(start, done) + Prefixed(start, one)
      && done + Walk(at, kids[i..], recur) == done + one + Walk(at, kids[i + 1..], recur)
  {
    PrefixedAppend(start, done, WalkOne(at, kids[i], recur));
    assert kids[i..][1..] == kids[i + 1..];
  }

  /** The body of the `readdir` loop. */
  method ListEntry(fs: Tree, path: string, name: string, recur: bool,
                   ghost start: string, ghost at: seq<string>, ghost node: Node, ghost i: nat) returns (dl: seq<string>)
    requires Stands(fs, path, start, at, node) && i < |node.kids| && name == node.kids[i].name
    ensures dl == Prefixed(start, WalkOne(at, node.kids[i], recur))
    decreases node, 0
  {
    EntryStands(fs, path, start, at, node, i);
    var dt := Gdt(fs, path, name).value;
    var newp := path + "/" + name;
    if dt.Faulty? || IsDots(name) {
      dl := [];
    } else if dt.Dir? {
      ghost var item := Item(at + [name], true);
      assert Prefixed(start, [item]) == [newp];
      dl := [newp];
      if recur {
        var more := ListDir(fs, newp, recur, start, at + [name], dt);
        dl := dl + more;
        PrefixedAppend(start, [item], if dt.openable then Walk(at + [name], dt.kids, recur) else []);
      }
    } else {
      dl := [newp];
    }
  }
}
