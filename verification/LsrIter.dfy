/** `lsr_iter`: the listing without recursion, with a stack of open directories and one
    path buffer edited in place. */
module LsrIter {
  import opened Common
  import opened Paths
  import opened TreeWalk

  datatype Report = Report(path: string, isDir: bool)

  /** How a name is put behind the path buffer. */
  function Join(p: string, n: string): string {
    if p == "/" then "/" + n else p + "/" + n
  }

  function Render(path: string, rel: seq<string>): string {
    if rel == [] then path else Join(Render(path, rel[..|rel| - 1]), rel[|rel| - 1])
  }

  /** The path buffer names the directory `rel` below `path`. Back at the top of a walk
      that started at "/" it is empty, as `rmtrdir` takes the slash too. */
  predicate Names(path: string, buf: string, rel: seq<string>) {
    buf == Render(path, rel) || (path == "/" && rel == [] && buf == "")
  }

  lemma {:induction false} JoinComponents(p: string, n: string)
    requires IsName(n)
    ensures Components(Join(p, n)) == Components(p) + [n]
  {
    if p == "/" {
      ComponentsOfChild("", n);
      assert "" + "/" + n == "/" + n;
      assert Scan("/") == Scan("");
    } else {
      ComponentsOfChild(p, n);
    }
  }

  lemma {:induction false} NamesComponents(path: string, buf: string, rel: seq<string>)
    requires Names(path, buf, rel) && AllNames(rel)
    ensures Components(buf) == Components(path) + rel
    decreases |rel|
  {
    if rel != [] {
      var k := |rel| - 1;
      NamesComponents(path, Render(path, rel[..k]), rel[..k]);
      JoinComponents(Render(path, rel[..k]), rel[k]);
      assert rel[..k] + [rel[k]] == rel;
    } else if buf == "" {
      assert Scan("/") == Scan("");
    }
  }

  /** Going down and what `rmtrdir` then has to cut off. */
  lemma {:induction false} NamesChild(path: string, buf: string, rel: seq<string>, n: string) returns (up: string)
    requires Names(path, buf, rel) && AllNames(rel) && IsName(n)
    ensures Names(path, Join(buf, n), rel + [n])
    ensures Join(buf, n) == up + "/" + n && Names(path, up, rel)
  {
    assert (rel + [n])[..|rel|] == rel;
    if buf == "/" {
      up := "";
      assert rel != [] ==> IsName(rel[|rel| - 1]);
      assert rel == [];
    } else {
      up := buf;
    }
  }

  // ----- The stack

  /** `rest` is what is still to be read of the open directory `at`. */
  ghost predicate Level(fs: Tree, at: seq<string>, rest: seq<Entry>) {
    match Resolve(fs.root, at)
    case Some(Dir(true, kids)) => WellFormed(kids) && |rest| <= |kids| && rest == kids[|kids| - |rest|..]
    case _ => false
  }

  ghost predicate Levels(fs: Tree, rel: seq<string>, gk: seq<seq<Entry>>)
    decreases |gk|
  {
    && |gk| == |rel| + 1
    && AllNames(rel)
    && Level(fs, rel, gk[|rel|])
    && (rel != [] ==> Levels(fs, rel[..|rel| - 1], gk[..|rel|]))
  }

  /** What the stack still has to report: the rest of the top directory, then the rest of
      the one below, and so on. */
  function Rest(rel: seq<string>, gk: seq<seq<Entry>>, rec: bool): seq<Item>
    requires |gk| == |rel| + 1
    decreases |gk|
  {
    Walk(rel, gk[|rel|], rec) + if rel == [] then [] else Rest(rel[..|rel| - 1], gk[..|rel|], rec)
  }

  function NamesStack(gk: seq<seq<Entry>>): (r: seq<seq<string>>)
    ensures |r| == |gk|
  {
    if gk == [] then [] else NamesStack(gk[..|gk| - 1]) + [NamesOf(gk[|gk| - 1])]
  }

  /** What a report says: the components below the starting path. A path that is not
      below it gets a component no directory has. */
  function ItemOf(base: seq<string>, r: Report): Item {
    var c := Components(r.path);
    Item(if base <= c then c[|base|..] else [""], r.isDir)
  }

  /** The items reported so far. */
  function Seen(base: seq<string>, reports: seq<Report>): seq<Item> {
    if reports == [] then []
    else Seen(base, reports[..|reports| - 1]) + [ItemOf(base, reports[|reports| - 1])]
  }

  function Work(kids: seq<Entry>): nat
    decreases kids
  {
    if kids == [] then 0 else 1 + WorkOne(kids[0]) + Work(kids[1..])
  }

  function WorkOne(k: Entry): nat
    decreases k
  {
    if k.node.Dir? then 1 + Work(k.node.kids) else 0
  }

  function Total(gk: seq<seq<Entry>>): nat {
    if gk == [] then 0 else Total(gk[..|gk| - 1]) + 1 + Work(gk[|gk| - 1])
  }

  ghost predicate Inv(fs: Tree, path: string, rec: bool, all: seq<Item>, buf: string,
                      dirs: seq<seq<string>>, reports: seq<Report>, rel: seq<string>, gk: seq<seq<Entry>>)
  {
    && fs.base == Components(path)
    && dirs == NamesStack(gk)
    && if gk == [] then Seen(fs.base, reports) == all
       else
         && Levels(fs, rel, gk)
         && Names(path, buf, rel)
         && (!rec ==> rel == [])
         && Seen(fs.base, reports) + Rest(rel, gk, rec) == all
  }

  /** The top directory with its first entry read. */
  function Advanced(gk: seq<seq<Entry>>): seq<seq<Entry>>
    requires gk != [] && gk[|gk| - 1] != []
  {
    gk[..|gk| - 1] + [gk[|gk| - 1][1..]]
  }

  /** Where the next entry of the top directory leads. */
  lemma {:induction false} EntryLeads(fs: Tree, path: string, buf: string, rel: seq<string>, top: seq<Entry>)
    requires fs.base == Components(path) && Level(fs, rel, top) && AllNames(rel) && Names(path, buf, rel) && top != []
    ensures var k := top[0];
      && IsName(k.name) && (k.node.Dot? <==> IsDots(k.name))
      && Gdt(fs, buf, k.name) == Some(k.node)
      && NodeAt(fs.root, fs.base, Join(buf, k.name)) == Some(k.node)
      && Resolve(fs.root, rel + [k.name]) == Some(k.node)
      && (k.node.Dir? ==> WellFormed(k.node.kids))
      && Components(Join(buf, k.name)) == fs.base + (rel + [k.name])
  {
    var k := top[0];
    var kids := Resolve(fs.root, rel).value.kids;
    var i := |kids| - |top|;
    assert k == kids[i];
    NamesComponents(path, buf, rel);
    ComponentsOfChild(buf, k.name);
    JoinComponents(buf, k.name);
    ChildResolves(fs.root, fs.base, buf, rel, kids, true, i);
    assert fs.base + rel + [k.name] == fs.base + (rel + [k.name]);
  }

  /** What is left on the stack once an entry is read. */
  lemma {:induction false} EntryRead(fs: Tree, rel: seq<string>, gk: seq<seq<Entry>>, rec: bool)
    requires Levels(fs, rel, gk) && gk[|rel|] != []
    ensures var k, gk' := gk[|rel|][0], Advanced(gk);
      && Levels(fs, rel, gk')
      && NamesStack(gk)[|rel|] == [k.name] + NamesOf(gk[|rel|][1..])
      && NamesStack(gk') == NamesStack(gk)[..|rel|] + [NamesOf(gk[|rel|][1..])]
      && Rest(rel, gk, rec) == WalkOne(rel, k, rec) + Rest(rel, gk', rec)
      && Total(gk') + 1 + WorkOne(k) == Total(gk)
  {
  }

  lemma {:induction false} SeenAppend(base: seq<string>, reports: seq<Report>, p: string, isDir: bool, rel: seq<string>)
    requires Components(p) == base + rel
    ensures Seen(base, reports + [Report(p, isDir)]) == Seen(base, reports) + [Item(rel, isDir)]
  {
  }

  /** An entry that is reported and not entered, or skipped, keeps the invariant. */
  lemma {:induction false} Told(fs: Tree, path: string, rec: bool, all: seq<Item>, buf: string,
                                reports: seq<Report>, rel: seq<string>, gk: seq<seq<Entry>>, more: seq<Report>)
    requires Inv(fs, path, rec, all, buf, NamesStack(gk), reports, rel, gk) && gk != [] && gk[|rel|] != []
    requires Seen(fs.base, reports + more) == Seen(fs.base, reports) + WalkOne(rel, gk[|rel|][0], rec)
    ensures Inv(fs, path, rec, all, buf, NamesStack(Advanced(gk)), reports + more, rel, Advanced(gk))
  {
    EntryRead(fs, rel, gk, rec);
    var one, rest := WalkOne(rel, gk[|rel|][0], rec), Rest(rel, Advanced(gk), rec);
    Assoc(Seen(fs.base, reports), one, rest);
  }

  lemma {:induction false} PushLevel(fs: Tree, rel: seq<string>, gk: seq<seq<Entry>>, name: string, kids: seq<Entry>)
    requires Levels(fs, rel, gk) && IsName(name)
    requires Resolve(fs.root, rel + [name]) == Some(Dir(true, kids)) && WellFormed(kids)
    ensures Levels(fs, rel + [name], gk + [kids])
    ensures NamesStack(gk + [kids]) == NamesStack(gk) + [NamesOf(kids)]
    ensures Total(gk + [kids]) == Total(gk) + 1 + Work(kids)
  {
  }

  lemma {:induction false} PushRest(rel: seq<string>, gk: seq<seq<Entry>>, name: string, kids: seq<Entry>)
    requires |gk| == |rel| + 1
    ensures Rest(rel + [name], gk + [kids], true) == Walk(rel + [name], kids, true) + Rest(rel, gk, true)
  {
  }

  lemma {:induction false} Regroup(seen: seq<Item>, item: seq<Item>, sub: seq<Item>, rest: seq<Item>)
    ensures seen + ((item + sub) + rest) == (seen + item) + (sub + rest)
  {
  }

  /** Entering a directory that opens. */
  lemma {:induction false} Entered(fs: Tree, path: string, all: seq<Item>, buf: string,
                                   reports: seq<Report>, rel: seq<string>, gk: seq<seq<Entry>>)
    requires Inv(fs, path, true, all, buf, NamesStack(gk), reports, rel, gk) && gk != [] && gk[|rel|] != []
    requires gk[|rel|][0].node.Dir? && gk[|rel|][0].node.openable
    ensures var k := gk[|rel|][0]; var p := Join(buf, k.name); var gk' := Advanced(gk) + [k.node.kids];
      && Inv(fs, path, true, all, p, NamesStack(Advanced(gk)) + [NamesOf(k.node.kids)],
             reports + [Report(p, true)], rel + [k.name], gk')
      && Total(gk') < Total(gk)
  {
    var k := gk[|rel|][0];
    EntryLeads(fs, path, buf, rel, gk[|rel|]);
    EntryRead(fs, rel, gk, true);
    var _ := NamesChild(path, buf, rel, k.name);
    SeenAppend(fs.base, reports, Join(buf, k.name), true, rel + [k.name]);
    PushLevel(fs, rel, Advanced(gk), k.name, k.node.kids);
    PushRest(rel, Advanced(gk), k.name, k.node.kids);
    Regroup(Seen(fs.base, reports), [Item(rel + [k.name], true)],
            Walk(rel + [k.name], k.node.kids, true), Rest(rel, Advanced(gk), true));
  }

  /** Leaving a directory that is read to its end. */
  lemma {:induction false} Left(fs: Tree, path: string, rec: bool, all: seq<Item>, buf: string,
                                reports: seq<Report>, rel: seq<string>, gk: seq<seq<Entry>>) returns (up: string)
    requires Inv(fs, path, rec, all, buf, NamesStack(gk), reports, rel, gk) && gk != [] && gk[|rel|] == []
    ensures Total(gk[..|rel|]) < Total(gk) && NamesStack(gk)[..|rel|] == NamesStack(gk[..|rel|])
    ensures rel == [] ==> Inv(fs, path, rec, all, buf, [], reports, [], [])
    ensures rel != [] ==>
      && rec
      && IsName(rel[|rel| - 1]) && buf == up + "/" + rel[|rel| - 1]
      && Inv(fs, path, rec, all, up, NamesStack(gk[..|rel|]), reports, rel[..|rel| - 1], gk[..|rel|])
  {
    up := "";
    if rel == [] {
      assert gk[..0] == [];
      assert Rest(rel, gk, rec) == [];
    } else {
      var k := |rel| - 1;
      up := NamesChild(path, Render(path, rel[..k]), rel[..k], rel[k]);
      assert [] + Rest(rel[..k], gk[..|rel|], rec) == Rest(rel[..k], gk[..|rel|], rec);
    }
  }

  /** The buffer, the open directories and what the callback was told. */
  datatype Cursor = Cursor(buf: string, dirs: seq<seq<string>>, reports: seq<Report>)

  ghost predicate At(fs: Tree, path: string, rec: bool, all: seq<Item>, c: Cursor, rel: seq<string>,
                     gk: seq<seq<Entry>>) {
    Inv(fs, path, rec, all, c.buf, c.dirs, c.reports, rel, gk)
  }

  /** `closedir` at the end of a directory, and one component off the buffer. */
  method CloseDir(fs: Tree, path: string, rec: bool, ghost all: seq<Item>, c: Cursor, ghost rel: seq<string>,
                  ghost gk: seq<seq<Entry>>)
    returns (c': Cursor, ghost rel': seq<string>, ghost gk': seq<seq<Entry>>)
    requires At(fs, path, rec, all, c, rel, gk) && gk != [] && gk[|rel|] == []
    ensures At(fs, path, rec, all, c', rel', gk') && Total(gk') < Total(gk)
  {
    ghost var up := Left(fs, path, rec, all, c.buf, c.reports, rel, gk);
    var dirs := c.dirs[..|c.dirs| - 1];
    gk' := gk[..|rel|];
    if rec && dirs != [] {
      var buf := RmTrDir(c.buf, up, rel[|rel| - 1]);
      c', rel' := Cursor(buf, dirs, c.reports), rel[..|rel| - 1];
    } else {
      c', rel' := Cursor(c.buf, dirs, c.reports), [];
    }
  }

  /** A directory met while listing recursively: report it, then open it or step back. */
  method EnterDir(fs: Tree, path: string, ghost all: seq<Item>, c: Cursor, name: string, ghost rel: seq<string>,
                  ghost gk: seq<seq<Entry>>)
    returns (c': Cursor, ghost rel': seq<string>, ghost gk': seq<seq<Entry>>)
    requires At(fs, path, true, all, c, rel, gk) && gk != [] && gk[|rel|] != []
    requires gk[|rel|][0].node.Dir? && name == gk[|rel|][0].name
    ensures At(fs, path, true, all, c', rel', gk') && Total(gk') < Total(gk)
  {
    EntryLeads(fs, path, c.buf, rel, gk[|rel|]);
    EntryRead(fs, rel, gk, true);
    var lvl := |c.dirs| - 1;
    var p, dirs := Join(c.buf, name), c.dirs[..lvl] + [c.dirs[lvl][1..]];
    assert dirs == NamesStack(Advanced(gk));
    var reports := c.reports + [Report(p, true)];
    var sub := OpenDir(fs.root, fs.base, p);
    if sub.Some? {
      Entered(fs, path, all, c.buf, c.reports, rel, gk);
      c' := Cursor(p, dirs + [sub.value], reports);
      rel', gk' := rel + [name], Advanced(gk) + [gk[|rel|][0].node.kids];
    } else {
      SeenAppend(fs.base, c.reports, p, true, rel + [name]);
      Told(fs, path, true, all, c.buf, c.reports, rel, gk, [Report(p, true)]);
      ghost var up := NamesChild(path, c.buf, rel, name);
      var buf := RmTrDir(p, up, name);
      c', rel', gk' := Cursor(buf, dirs, reports), rel, Advanced(gk);
    }
  }

  /** What the callback is told of an entry that is not entered. */
  function ToldOf(buf: string, name: string, dt: Node): seq<Report> {
    if dt.Faulty? || IsDots(name) then [] else [Report(Join(buf, name), dt.Dir?)]
  }

  lemma {:induction false} SeenTold(fs: Tree, path: string, rec: bool, buf: string, reports: seq<Report>,
                                    rel: seq<string>, top: seq<Entry>)
    requires fs.base == Components(path) && Level(fs, rel, top) && AllNames(rel) && Names(path, buf, rel) && top != []
    requires !(top[0].node.Dir? && rec)
    ensures Seen(fs.base, reports + ToldOf(buf, top[0].name, top[0].node)) ==
            Seen(fs.base, reports) + WalkOne(rel, top[0], rec)
  {
    EntryLeads(fs, path, buf, rel, top);
    var k := top[0];
    if k.node.Faulty? || k.node.Dot? {
      assert reports + [] == reports && Seen(fs.base, reports) + [] == Seen(fs.base, reports);
    } else {
      SeenAppend(fs.base, reports, Join(buf, k.name), k.node.Dir?, rel + [k.name]);
    }
  }

  /** An entry that is not entered: a file, or a directory when not listing recursively. */
  method TellEntry(fs: Tree, path: string, rec: bool, ghost all: seq<Item>, c: Cursor, name: string, dt: Node,
                   ghost rel: seq<string>, ghost gk: seq<seq<Entry>>) returns (c': Cursor)
    requires At(fs, path, rec, all, c, rel, gk) && gk != [] && gk[|rel|] != []
    requires name == gk[|rel|][0].name && dt == gk[|rel|][0].node && !(dt.Dir? && rec)
    ensures At(fs, path, rec, all, c', rel, Advanced(gk)) && Total(Advanced(gk)) < Total(gk)
  {
    EntryRead(fs, rel, gk, rec);
    var lvl := |c.dirs| - 1;
    var dirs := c.dirs[..lvl] + [c.dirs[lvl][1..]];
    var more := ToldOf(c.buf, name, dt);
    SeenTold(fs, path, rec, c.buf, c.reports, rel, gk[|rel|]);
    Told(fs, path, rec, all, c.buf, c.reports, rel, gk, more);
    c' := Cursor(c.buf, dirs, c.reports + more);
  }

  lemma {:induction false} TopEntry(fs: Tree, path: string, rec: bool, all: seq<Item>, c: Cursor,
                                    rel: seq<string>, gk: seq<seq<Entry>>)
    requires At(fs, path, rec, all, c, rel, gk) && gk != [] && gk[|rel|] != []
    ensures |c.dirs| == |rel| + 1 && c.dirs[|rel|] != [] && c.dirs[|rel|][0] == gk[|rel|][0].name
    ensures Gdt(fs, c.buf, gk[|rel|][0].name) == Some(gk[|rel|][0].node)
  {
    EntryRead(fs, rel, gk, rec);
    EntryLeads(fs, path, c.buf, rel, gk[|rel|]);
  }

  /** One entry read from the directory on top of the stack. */
  method ReadEntry(fs: Tree, path: string, rec: bool, ghost all: seq<Item>, c: Cursor, ghost rel: seq<string>,
                   ghost gk: seq<seq<Entry>>)
    returns (c': Cursor, ghost rel': seq<string>, ghost gk': seq<seq<Entry>>)
    requires At(fs, path, rec, all, c, rel, gk) && gk != [] && gk[|rel|] != []
    ensures At(fs, path, rec, all, c', rel', gk') && Total(gk') < Total(gk)
  {
    TopEntry(fs, path, rec, all, c, rel, gk);
    var name := c.dirs[|c.dirs| - 1][0];
    var dt := Gdt(fs, c.buf, name).value;
    if dt.Dir? && rec {
      c', rel', gk' := EnterDir(fs, path, all, c, name, rel, gk);
    } else {
      c' := TellEntry(fs, path, rec, all, c, name, dt, rel, gk);
      rel', gk' := rel, Advanced(gk);
    }
  }

  /** Every entry is reported once, in the order and with the components of the recursive
      listing. `-1` exactly when the starting directory does not open. The nested loops of
      the source are one loop here: read the top directory, or close it when it ends. */
  method LsrIter(fs: Tree, path: string, rec: bool) returns (rc: int, reports: seq<Report>)
    requires fs.base == Components(path) && fs.root.Dir? && WellFormed(fs.root.kids)
    ensures rc == 0 <==> fs.root.openable
    ensures rc != 0 ==> rc == -1 && reports == []
    ensures rc == 0 ==> Seen(fs.base, reports) == Walk([], fs.root.kids, rec)
  {
    assert Components(path)[|fs.base|..] == [];
    var d := OpenDir(fs.root, fs.base, path);
    if d.None? { return -1, []; }
    var c := Cursor(path, [d.value], []);
    ghost var all := Walk([], fs.root.kids, rec);
    ghost var rel: seq<string>, gk := [], [fs.root.kids];
    StartInv(fs, path, rec);
    while c.dirs != []
      invariant At(fs, path, rec, all, c, rel, gk)
      decreases Total(gk)
    {
      StackTop(fs, path, rec, all, c, rel, gk);
      if c.dirs[|c.dirs| - 1] == [] {
        c, rel, gk := CloseDir(fs, path, rec, all, c, rel, gk);
      } else {
        c, rel, gk := ReadEntry(fs, path, rec, all, c, rel, gk);
      }
    }
    rc, reports := 0, c.reports;
  }

  lemma {:induction false} StartInv(fs: Tree, path: string, rec: bool)
    requires fs.base == Components(path) && fs.root.Dir? && fs.root.openable && WellFormed(fs.root.kids)
    ensures At(fs, path, rec, Walk([], fs.root.kids, rec),
               Cursor(path, [NamesOf(fs.root.kids)], []), [], [fs.root.kids])
  {
  }

  lemma {:induction false} StackTop(fs: Tree, path: string, rec: bool, all: seq<Item>, c: Cursor,
                                    rel: seq<string>, gk: seq<seq<Entry>>)
    requires At(fs, path, rec, all, c, rel, gk) && c.dirs != []
    ensures gk != [] && |c.dirs| == |gk| == |rel| + 1
    ensures c.dirs[|rel|] == [] <==> gk[|rel|] == []
  {
  }
}
