/** The permission list of one secure directory: commands that change it under a lock,
    with a swap file and two renames, and readers that take no lock. Every system call is
    one step, and any process may move next. */
module SecureFs {
  import opened Common
  import opened Text
  import opened PermList

  /** Three names for files in one directory; -1 is a name that does not exist. A file is
      an index into `data`. */
  datatype Files = Files(data: seq<string>, master: int, swp: int, rd: int)

  datatype Command = SetPerm(tok: string) | RemPerm(id: string)

  /** How far the command that holds the lock has come. */
  datatype Pc = Begin | Opened | CopyIn(off: int) | Edit | Ready | OpenRd | CopyOut(off: int) | Publish | Done

  datatype Writer = Writer(cmd: Command, fsid: string, pc: Pc)

  /** Who changed the list: the command, its identity, the version of the read copy it
      consulted, and how much of the new text `fclose` got onto the disk. */
  datatype Change = First | By(cmd: Command, fsid: string, seen: int, kept: int)

  /** The files, every list the master file has held with its author, and the version that
      the read copy holds (-1 if there is none). */
  datatype World = World(files: Files, hist: seq<string>, log: seq<Change>, pub: int)

  /** A reader with the read copy open, what it has got, and the version it opened. */
  datatype Reader = Reader(ino: int, got: string, ver: int)

  datatype State = State(world: World, holder: Option<Writer>, readers: map<nat, Reader>)

  datatype Event =
    | Lock(cmd: Command, fsid: string)
    | Go(n: int)
    | Unlock
    | GiveUp(unlink: bool)
    | Open(r: nat)
    | Read(r: nat, n: int)

  // ----- The steps of a command

  /** `open` with `O_CREAT | O_TRUNC` on the swap file. */
  function Truncated(f: Files): Files
    requires f.swp < |f.data|
  {
    if f.swp < 0 then f.(data := f.data + [""], swp := |f.data|)
    else f.(data := f.data[f.swp := ""])
  }

  function Held(f: Files, ino: int): string {
    if 0 <= ino < |f.data| then f.data[ino] else ""
  }

  function Written(f: Files, text: string): Files {
    if 0 <= f.swp < |f.data| then f.(data := f.data[f.swp := f.data[f.swp] + text]) else f
  }

  /** What the command writes behind the part that is already in the swap file. */
  function Addition(f: Files, cmd: Command): string {
    match cmd
    case SetPerm(tok) => tok + "\n"
    case RemPerm(id) => Dropped(Held(f, f.master), id)
  }

  predicate SetAllowed(list: string, fsid: string) {
    list == "" || SetBit(Perm(list, fsid))
  }

  predicate RemAllowed(list: string, fsid: string) {
    RemBit(Perm(list, fsid))
  }

  /** A pass of `cpfile` moves some of what is left. */
  predicate CanPass(list: string, off: int, n: int) {
    0 <= off && (off < |list| ==> 1 <= n <= |list| - off)
  }

  /** `n` is how many bytes one pass of `cpfile` moves, or how many `fclose` flushes. */
  predicate CanGo(w: World, p: Writer, n: int) {
    match p.pc
    case Begin => p.cmd.RemPerm? ==> RemAllowed(Held(w.files, w.files.rd), p.fsid) && w.files.master != -1
    case CopyIn(off) => CanPass(Held(w.files, w.files.master), off, n)
    case Edit =>
      && 0 <= n <= |Addition(w.files, p.cmd)|
      && (p.cmd.SetPerm? ==> SetAllowed(Held(w.files, w.files.swp), p.fsid))
    case CopyOut(off) => CanPass(Held(w.files, w.files.master), off, n)
    case Done => false
    case _ => true
  }

  /** One pass of the loop in `cpfile`, from the master file to the swap file. */
  function Pass(w: World, off: int, n: int): World
    requires 0 <= off && off + n <= |Held(w.files, w.files.master)| && 0 <= n
  {
    w.(files := Written(w.files, Held(w.files, w.files.master)[off..off + n]))
  }

  /** `open` with `O_CREAT` on the master file. */
  function Created(w: World): World {
    if w.files.master != -1 then w
    else
      w.(files := w.files.(data := w.files.data + [""], master := |w.files.data|),
         hist := w.hist + [""],
         log := w.log + [First])
  }

  /** `rename` of the swap file to the master file. */
  function Renamed(w: World, p: Writer, kept: int): World {
    w.(files := w.files.(master := w.files.swp, swp := -1),
       hist := w.hist + [Held(w.files, w.files.swp)],
       log := w.log + [By(p.cmd, p.fsid, w.pub, kept)])
  }

  /** `rename` of the swap file to the read copy. */
  function Published(w: World): World {
    w.(files := w.files.(rd := w.files.swp, swp := -1), pub := |w.hist| - 1)
  }

  /** How many bytes the edit put into the swap file. */
  function Kept(w: World, p: Writer): int {
    |Held(w.files, w.files.swp)| - if p.cmd.SetPerm? then |Held(w.files, w.files.master)| else 0
  }

  function WorldAfter(w: World, p: Writer, n: int): World
    requires CanGo(w, p, n) && w.files.swp < |w.files.data|
  {
    match p.pc
    case Begin => if p.cmd.SetPerm? then Created(w) else w
    case Opened => w.(files := Truncated(w.files))
    case CopyIn(off) => if off < |Held(w.files, w.files.master)| then Pass(w, off, n) else w
    case Edit => w.(files := Written(w.files, Addition(w.files, p.cmd)[..n]))
    case Ready => Renamed(w, p, Kept(w, p))
    case OpenRd => w.(files := Truncated(w.files))
    case CopyOut(off) => if off < |Held(w.files, w.files.master)| then Pass(w, off, n) else w
    case Publish => Published(w)
    case Done => w
  }

  function PcAfter(w: World, p: Writer, n: int): Pc {
    var all := |Held(w.files, w.files.master)|;
    match p.pc
    case Begin => Opened
    case Opened => if p.cmd.SetPerm? then CopyIn(0) else Edit
    case CopyIn(off) => if off < all then CopyIn(off + n) else Edit
    case Edit => Ready
    case Ready => OpenRd
    case OpenRd => CopyOut(0)
    case CopyOut(off) => if off < all then CopyOut(off + n) else Publish
    case Publish => Done
    case Done => Done
  }

  predicate Enabled(s: State, e: Event) {
    match e
    case Lock(_, _) => s.holder.None?
    case Go(n) => s.holder.Some? && CanGo(s.world, s.holder.value, n) && s.world.files.swp < |s.world.files.data|
    case Unlock => s.holder.Some? && s.holder.value.pc.Done?
    case GiveUp(_) => s.holder.Some?
    case Open(_) => s.world.files.rd != -1
    case Read(r, n) => r in s.readers && 0 <= n <= |Held(s.world.files, s.readers[r].ino)| - |s.readers[r].got|
  }

  /** `GiveUp` is every failing branch and every crash: the lock goes, and the swap file
      may be left behind. */
  function Apply(s: State, e: Event): State
    requires Enabled(s, e)
  {
    match e
    case Lock(cmd, fsid) => s.(holder := Some(Writer(cmd, fsid, Begin)))
    case Go(n) =>
      var p := s.holder.value;
      s.(world := WorldAfter(s.world, p, n), holder := Some(p.(pc := PcAfter(s.world, p, n))))
    case Unlock => s.(holder := None)
    case GiveUp(unlink) =>
      s.(world := if unlink then s.world.(files := s.world.files.(swp := -1)) else s.world, holder := None)
    case Open(r) => s.(readers := s.readers[r := Reader(s.world.files.rd, "", s.world.pub)])
    case Read(r, n) =>
      var q := s.readers[r];
      s.(readers := s.readers[r := q.(got := q.got + Held(s.world.files, q.ino)[|q.got|..|q.got| + n])])
  }

  predicate Runs(s: State, run: seq<Event>)
    decreases |run|
  {
    run == [] || (Enabled(s, run[0]) && Runs(Apply(s, run[0]), run[1..]))
  }

  function Exec(s: State, run: seq<Event>): State
    requires Runs(s, run)
    decreases |run|
  {
    if run == [] then s else Exec(Apply(s, run[0]), run[1..])
  }

  // ----- What holds in every state

  /** The swap file is nobody else's file. */
  predicate FilesOk(f: Files) {
    && -1 <= f.master < |f.data| && -1 <= f.swp < |f.data| && -1 <= f.rd < |f.data|
    && (f.swp != -1 ==> f.swp != f.master && f.swp != f.rd)
  }

  predicate HistOk(w: World) {
    && |w.log| == |w.hist|
    && (if w.files.master == -1 then w.hist == []
        else w.hist != [] && Held(w.files, w.files.master) == w.hist[|w.hist| - 1])
    && (if w.files.rd == -1 then w.pub == -1 else 0 <= w.pub < |w.hist| && Held(w.files, w.files.rd) == w.hist[w.pub])
  }

  /** The list after `j` changes is the list before it, changed by a command that was
      allowed to. */
  predicate Legit(hist: seq<string>, log: seq<Change>, j: int)
    requires 0 < j < |hist| == |log|
  {
    match log[j]
    case First => false
    case By(SetPerm(tok), fsid, _, kept) =>
      && SetAllowed(hist[j - 1], fsid)
      && 0 <= kept <= |tok| + 1 && hist[j] == hist[j - 1] + (tok + "\n")[..kept]
    case By(RemPerm(id), fsid, seen, kept) =>
      && 0 <= seen < j && RemAllowed(hist[seen], fsid)
      && 0 <= kept <= |Dropped(hist[j - 1], id)| && hist[j] == Dropped(hist[j - 1], id)[..kept]
  }

  ghost predicate AllLegit(hist: seq<string>, log: seq<Change>) {
    |log| == |hist| && forall j :: 0 < j < |hist| ==> Legit(hist, log, j)
  }

  /** A command that removes has been found allowed on the read copy. */
  predicate Permitted(w: World, p: Writer) {
    p.cmd.RemPerm? ==> 0 <= w.pub < |w.hist| && RemAllowed(w.hist[w.pub], p.fsid)
  }

  /** The swap file holds the edited list. */
  predicate Edited(w: World, p: Writer) {
    var list, swp := Held(w.files, w.files.master), Held(w.files, w.files.swp);
    match p.cmd
    case SetPerm(tok) => SetAllowed(list, p.fsid) && list <= swp && swp[|list|..] <= tok + "\n"
    case RemPerm(id) => swp <= Dropped(list, id)
  }

  predicate PcOk(w: World, p: Writer) {
    var list, swp := Held(w.files, w.files.master), Held(w.files, w.files.swp);
    match p.pc
    case Begin => true
    case Opened => w.files.master != -1 && Permitted(w, p)
    case CopyIn(off) =>
      && w.files.master != -1 && w.files.swp != -1
      && p.cmd.SetPerm? && 0 <= off <= |list| && swp == list[..off]
    case Edit =>
      && w.files.master != -1 && w.files.swp != -1 && Permitted(w, p)
      && swp == if p.cmd.SetPerm? then list else ""
    case Ready => w.files.master != -1 && w.files.swp != -1 && Permitted(w, p) && Edited(w, p)
    case OpenRd => w.files.master != -1
    case CopyOut(off) => w.files.master != -1 && w.files.swp != -1 && 0 <= off <= |list| && swp == list[..off]
    case Publish => w.files.master != -1 && w.files.swp != -1 && swp == list
    case Done => w.files.rd != -1 && Held(w.files, w.files.rd) == list && w.pub == |w.hist| - 1
  }

  /** A reader's file is a version that was published, and is not the swap file. */
  predicate ReaderOk(w: World, r: Reader) {
    && 0 <= r.ino < |w.files.data| && r.ino != w.files.swp
    && 0 <= r.ver <= w.pub < |w.hist| && w.files.data[r.ino] == w.hist[r.ver]
    && r.got <= w.files.data[r.ino]
  }

  ghost predicate Inv(s: State) {
    && FilesOk(s.world.files) && HistOk(s.world) && AllLegit(s.world.hist, s.world.log)
    && (s.holder.Some? ==> PcOk(s.world, s.holder.value))
    && forall r :: r in s.readers ==> ReaderOk(s.world, s.readers[r])
  }

  // ----- Every step keeps it

  ghost predicate WorldOk(w: World, p: Writer) {
    FilesOk(w.files) && HistOk(w) && PcOk(w, p)
  }

  predicate FileKept(f: Files, f': Files, i: int) {
    i != f'.swp && Held(f', i) == Held(f, i)
  }

  /** The files other than the swap file, and the past, do not change. */
  ghost predicate Frozen(w: World, w': World) {
    && |w.files.data| <= |w'.files.data|
    && (forall i :: 0 <= i < |w.files.data| && i != w.files.swp ==> FileKept(w.files, w'.files, i))
    && |w.hist| <= |w'.hist| && w'.hist[..|w.hist|] == w.hist
    && w.pub <= w'.pub < |w'.hist|
  }

  lemma {:induction false} BeginKeeps(w: World, p: Writer)
    requires WorldOk(w, p) && p.pc.Begin? && CanGo(w, p, 0)
    ensures WorldOk(WorldAfter(w, p, 0), p.(pc := Opened)) && Frozen(w, WorldAfter(w, p, 0))
  {
  }

  lemma {:induction false} TruncateKeeps(w: World, p: Writer)
    requires WorldOk(w, p) && (p.pc.Opened? || p.pc.OpenRd?)
    ensures WorldOk(WorldAfter(w, p, 0), p.(pc := PcAfter(w, p, 0))) && Frozen(w, WorldAfter(w, p, 0))
  {
  }

  lemma {:induction false} PassKeeps(w: World, p: Writer, n: int)
    requires WorldOk(w, p) && (p.pc.CopyIn? || p.pc.CopyOut?) && CanGo(w, p, n)
    ensures WorldOk(WorldAfter(w, p, n), p.(pc := PcAfter(w, p, n))) && Frozen(w, WorldAfter(w, p, n))
  {
  }

  lemma {:induction false} EditKeeps(w: World, p: Writer, n: int)
    requires WorldOk(w, p) && p.pc.Edit? && CanGo(w, p, n)
    ensures WorldOk(WorldAfter(w, p, n), p.(pc := Ready)) && Frozen(w, WorldAfter(w, p, n))
  {
  }

  lemma {:induction false} RenameKeeps(w: World, p: Writer)
    requires WorldOk(w, p) && p.pc.Ready?
    ensures WorldOk(WorldAfter(w, p, 0), p.(pc := OpenRd)) && Frozen(w, WorldAfter(w, p, 0))
  {
  }

  lemma {:induction false} PublishKeeps(w: World, p: Writer)
    requires WorldOk(w, p) && p.pc.Publish?
    ensures WorldOk(WorldAfter(w, p, 0), p.(pc := Done)) && Frozen(w, WorldAfter(w, p, 0))
  {
  }

  lemma {:induction false} GoKeeps(w: World, p: Writer, n: int)
    requires WorldOk(w, p) && CanGo(w, p, n)
    ensures WorldOk(WorldAfter(w, p, n), p.(pc := PcAfter(w, p, n))) && Frozen(w, WorldAfter(w, p, n))
  {
    match p.pc
    case Begin => BeginKeeps(w, p);
    case Opened => TruncateKeeps(w, p);
    case CopyIn(_) => PassKeeps(w, p, n);
    case Edit => EditKeeps(w, p, n);
    case Ready => RenameKeeps(w, p);
    case OpenRd => TruncateKeeps(w, p);
    case CopyOut(_) => PassKeeps(w, p, n);
    case Publish => PublishKeeps(w, p);
    case Done =>
  }

  lemma {:induction false} LegitGrows(hist: seq<string>, log: seq<Change>, list: string, c: Change)
    requires AllLegit(hist, log)
    requires hist != [] ==> Legit(hist + [list], log + [c], |hist|)
    ensures AllLegit(hist + [list], log + [c])
  {
    var h, l := hist + [list], log + [c];
    forall j | 0 < j < |h| ensures Legit(h, l, j) {
      if j < |hist| {
        assert Legit(hist, log, j);
        assert h[j] == hist[j] && h[j - 1] == hist[j - 1] && l[j] == log[j];
        if l[j].By? && l[j].cmd.RemPerm? {
          assert h[l[j].seen] == hist[l[j].seen];
        }
      }
    }
  }

  lemma {:induction false} RenameLegit(w: World, p: Writer)
    requires WorldOk(w, p) && p.pc.Ready?
    ensures Legit(w.hist + [Held(w.files, w.files.swp)], w.log + [By(p.cmd, p.fsid, w.pub, Kept(w, p))], |w.hist|)
  {
  }

  lemma {:induction false} GoLegit(w: World, p: Writer, n: int)
    requires WorldOk(w, p) && CanGo(w, p, n) && AllLegit(w.hist, w.log)
    ensures AllLegit(WorldAfter(w, p, n).hist, WorldAfter(w, p, n).log)
  {
    match p.pc
    case Begin =>
      if p.cmd.SetPerm? && w.files.master == -1 { LegitGrows(w.hist, w.log, "", First); }
    case Ready =>
      RenameLegit(w, p);
      LegitGrows(w.hist, w.log, Held(w.files, w.files.swp), By(p.cmd, p.fsid, w.pub, Kept(w, p)));
    case _ =>
  }

  lemma {:induction false} ReaderStays(w: World, w': World, r: Reader)
    requires ReaderOk(w, r) && Frozen(w, w')
    ensures ReaderOk(w', r)
  {
    assert FileKept(w.files, w'.files, r.ino);
    assert w'.hist[..|w.hist|][r.ver] == w'.hist[r.ver];
  }

  lemma {:induction false} ReaderReads(w: World, r: Reader, n: int)
    requires ReaderOk(w, r) && 0 <= n <= |Held(w.files, r.ino)| - |r.got|
    ensures ReaderOk(w, r.(got := r.got + Held(w.files, r.ino)[|r.got|..|r.got| + n]))
  {
  }

  lemma {:induction false} Unchanged(w: World)
    requires HistOk(w)
    ensures Frozen(w, w)
  {
  }

  lemma {:induction false} WorldKeeps(s: State, e: Event)
    requires Inv(s) && Enabled(s, e)
    ensures var s' := Apply(s, e);
      && FilesOk(s'.world.files) && HistOk(s'.world) && AllLegit(s'.world.hist, s'.world.log)
      && (s'.holder.Some? ==> PcOk(s'.world, s'.holder.value))
      && Frozen(s.world, s'.world)
  {
    Unchanged(s.world);
    if e.Go? {
      GoKeeps(s.world, s.holder.value, e.n);
      GoLegit(s.world, s.holder.value, e.n);
    }
  }

  lemma {:induction false} ReadersKeep(w: World, readers: map<nat, Reader>, w': World)
    requires forall r :: r in readers ==> ReaderOk(w, readers[r])
    requires Frozen(w, w')
    ensures forall r :: r in readers ==> ReaderOk(w', readers[r])
  {
    forall r | r in readers ensures ReaderOk(w', readers[r]) {
      ReaderStays(w, w', readers[r]);
    }
  }

  lemma {:induction false} StepKeeps(s: State, e: Event)
    requires Inv(s) && Enabled(s, e)
    ensures Inv(Apply(s, e)) && Frozen(s.world, Apply(s, e).world)
  {
    WorldKeeps(s, e);
    ReadersKeep(s.world, s.readers, Apply(s, e).world);
    if e.Read? {
      ReaderReads(s.world, s.readers[e.r], e.n);
    }
  }

  /** No list yet, or a list with or without its read copy. */
  ghost predicate Init(s: State) {
    && s.holder.None? && s.readers == map[] && FilesOk(s.world.files) && HistOk(s.world) && |s.world.hist| <= 1
  }

  lemma {:induction false} RunKeeps(s: State, run: seq<Event>)
    requires Inv(s) && Runs(s, run)
    ensures Inv(Exec(s, run)) && Frozen(s.world, Exec(s, run).world)
    decreases |run|
  {
    if run == [] {
      Unchanged(s.world);
    } else {
      var t := Apply(s, run[0]);
      StepKeeps(s, run[0]);
      RunKeeps(t, run[1..]);
      FrozenChains(s.world, t.world, Exec(t, run[1..]).world);
    }
  }

  lemma {:induction false} FrozenChains(a: World, b: World, c: World)
    requires Frozen(a, b) && Frozen(b, c)
    ensures Frozen(a, c)
  {
    assert c.hist[..|a.hist|] == c.hist[..|b.hist|][..|a.hist|];
    forall i | 0 <= i < |a.files.data| && i != a.files.swp
      ensures FileKept(a.files, c.files, i)
    {
      assert FileKept(a.files, b.files, i) && FileKept(b.files, c.files, i);
    }
  }

  // ----- What readers and holders of the list may rely on

  lemma {:induction false} InitInv(s: State)
    requires Init(s)
    ensures Inv(s)
  {
  }

  /** A reader never has a part of a change: what it has read is a beginning of a list the
      master file held, and at the end of the file it is all of that list. The list is the
      one published when the reader opened the file, and every list published later is at
      least as new. */
  lemma {:induction false} ReadersSeeWholeLists(s: State, run: seq<Event>, more: seq<Event>, r: nat)
    requires Init(s) && Runs(s, run) && Runs(Exec(s, run), more) && r in Exec(s, run).readers
    ensures var t := Exec(s, run); var q := t.readers[r];
      && 0 <= q.ver <= t.world.pub < |t.world.hist| && q.got <= t.world.hist[q.ver]
      && (|q.got| == |Held(t.world.files, q.ino)| ==> q.got == t.world.hist[q.ver])
      && t.world.pub <= Exec(t, more).world.pub
      && q.ver < |Exec(t, more).world.hist| && Exec(t, more).world.hist[q.ver] == t.world.hist[q.ver]
  {
    InitInv(s);
    RunKeeps(s, run);
    var t := Exec(s, run);
    RunKeeps(t, more);
    var h := Exec(t, more).world.hist;
    assert ReaderOk(t.world, t.readers[r]);
    assert h[..|t.world.hist|][t.readers[r].ver] == h[t.readers[r].ver];
  }

  /** When a command is about to release the lock with success, the read copy is the
      master file, and a reader that opens it now gets the newest list. */
  lemma {:induction false} SuccessIsPublished(s: State, run: seq<Event>)
    requires Init(s) && Runs(s, run) && Enabled(Exec(s, run), Unlock)
    ensures var w := Exec(s, run).world;
      && w.files.rd != -1 && w.files.master != -1
      && Held(w.files, w.files.rd) == Held(w.files, w.files.master)
      && 0 <= w.pub == |w.hist| - 1 && w.hist[w.pub] == Held(w.files, w.files.master)
  {
    InitInv(s);
    RunKeeps(s, run);
  }

  // ----- Who changes whose permission

  /** The text of every change reached the disk, and every token is one line with a colon. */
  predicate Whole(hist: seq<string>, log: seq<Change>, j: int)
    requires 0 < j < |hist| == |log|
  {
    match log[j]
    case First => true
    case By(SetPerm(tok), _, _, kept) => GoodToken(tok) && kept == |tok| + 1
    case By(RemPerm(id), _, _, kept) => kept == |Dropped(hist[j - 1], id)|
  }

  lemma {:induction false} ListsStayGood(hist: seq<string>, log: seq<Change>, j: nat)
    requires AllLegit(hist, log) && j < |hist| && Good(hist[0])
    requires forall i :: 0 < i <= j ==> Whole(hist, log, i)
    ensures Good(hist[j])
  {
    if j > 0 {
      ListsStayGood(hist, log, j - 1);
      assert Legit(hist, log, j) && Whole(hist, log, j);
      match log[j].cmd
      case SetPerm(tok) =>
        AppendedEntry(hist[j - 1], tok, "");
        assert (tok + "\n")[..log[j].kept] == tok + "\n";
        assert hist[j] == hist[j - 1] + tok + "\n";
      case RemPerm(id) =>
        DroppedEntry(hist[j - 1], id, "");
        assert hist[j] == Dropped(hist[j - 1], id);
    }
  }

  /** The change `c` from `list` may alter the bits of `id`: it adds the first entry for
      `id`, or removes `id`, and its author was allowed to. */
  predicate Authorised(hist: seq<string>, c: Change, j: int, id: string)
    requires 0 < j < |hist|
  {
    match c
    case First => false
    case By(SetPerm(tok), fsid, _, _) =>
      IsEntry(tok + "\n", id) && !Listed(hist[j - 1], id) && SetAllowed(hist[j - 1], fsid)
    case By(RemPerm(gone), fsid, seen, _) =>
      id == gone && 0 <= seen < j && RemAllowed(hist[seen], fsid)
  }

  lemma {:induction false} ChangeIsAuthorised(hist: seq<string>, log: seq<Change>, j: nat, id: string)
    requires AllLegit(hist, log) && 0 < j < |hist| && Good(hist[j - 1]) && Whole(hist, log, j)
    requires Perm(hist[j], id) != Perm(hist[j - 1], id)
    ensures Authorised(hist, log[j], j, id)
  {
    assert Legit(hist, log, j);
    match log[j].cmd
    case SetPerm(tok) =>
      AppendedEntry(hist[j - 1], tok, id);
      assert (tok + "\n")[..log[j].kept] == tok + "\n";
      assert hist[j] == hist[j - 1] + tok + "\n";
      if !Listed(hist[j - 1], id) { UnlistedHasNone(hist[j - 1], id); }
    case RemPerm(gone) =>
      DroppedEntry(hist[j - 1], gone, id);
      assert hist[j] == Dropped(hist[j - 1], gone);
  }

  /** A token is one line with a colon. */
  predicate GoodChange(c: Change) {
    c.By? && (c.cmd.SetPerm? ==> GoodToken(c.cmd.tok))
  }

  /** The bits of `id` after the change `c` to a list, of which `c.kept` bytes reached the
      disk. */
  function BitsAfter(list: string, c: Change, id: string): int
    requires c.By?
  {
    match c.cmd
    case SetPerm(tok) => if Listed(list, id) then Perm(list, id) else CutBits(tok + "\n", c.kept, id)
    case RemPerm(gone) => CutBits(Dropped(list, gone), c.kept, id)
  }

  lemma {:induction false} ChangeGives(hist: seq<string>, log: seq<Change>, j: nat, id: string)
    requires AllLegit(hist, log) && 0 < j < |hist| && Good(hist[j - 1]) && GoodChange(log[j])
    ensures Perm(hist[j], id) == BitsAfter(hist[j - 1], log[j], id)
  {
    assert Legit(hist, log, j);
    match log[j].cmd
    case SetPerm(tok) =>
      TokenLine(tok);
      if Listed(hist[j - 1], id) {
        ListedKeeps(hist[j - 1], (tok + "\n")[..log[j].kept], id);
      } else {
        UnlistedPasses(hist[j - 1], (tok + "\n")[..log[j].kept], id);
        CutPerm(tok + "\n", log[j].kept, id);
      }
    case RemPerm(gone) =>
      DroppedEntry(hist[j - 1], gone, id);
      CutPerm(Dropped(hist[j - 1], gone), log[j].kept, id);
  }

  /** A change from `list` that reached the disk in part may alter the bits of `id`: it adds
      the first entry for `id`, or removes `id`, or cuts the entry of `id`. */
  predicate Concerns(list: string, c: Change, id: string)
    requires c.By?
  {
    match c.cmd
    case SetPerm(tok) => IsEntry(tok + "\n", id) && !Listed(list, id) && |id| < c.kept
    case RemPerm(gone) => id == gone || (Listed(Dropped(list, gone), id) && c.kept < EntryEnd(Dropped(list, gone), id))
  }

  lemma {:induction false} ChangeConcerns(hist: seq<string>, log: seq<Change>, j: nat, id: string)
    requires AllLegit(hist, log) && 0 < j < |hist| && Good(hist[j - 1]) && GoodChange(log[j])
    requires Perm(hist[j], id) != Perm(hist[j - 1], id)
    ensures Concerns(hist[j - 1], log[j], id)
  {
    assert Legit(hist, log, j);
    ChangeGives(hist, log, j, id);
    match log[j].cmd
    case SetPerm(tok) =>
      UnlistedIsZero(hist[j - 1], id);
      TokenLine(tok);
    case RemPerm(gone) =>
      DroppedEntry(hist[j - 1], gone, id);
      WholePerm(Dropped(hist[j - 1], gone), id);
  }

  lemma {:induction false} UnlistedIsZero(list: string, id: string)
    ensures !Listed(list, id) ==> Perm(list, id) == 0
  {
    if !Listed(list, id) { UnlistedHasNone(list, id); }
  }

  /** In every run, whatever reached the disk: each list in the history comes from the one
      before it by a command whose author was allowed to give it, the set bit looked up in
      the list being changed, the remove bit in the published one. Where the list before is
      well formed and the token one line, a change of an identity's bits means that the
      command adds its first entry, removes it or is cut within or before its entry; if all
      of the change reached the disk, that it adds or removes. A list is well formed as long
      as the changes before it reached the disk. */
  lemma {:induction false} PermissionsChangeByAuthority(s: State, run: seq<Event>, j: nat, id: string)
    requires Init(s) && Runs(s, run) && 0 < j < |Exec(s, run).world.hist|
    ensures var w := Exec(s, run).world;
      && AllLegit(w.hist, w.log) && w.log[j].By?
      && (Good(w.hist[j - 1]) && GoodChange(w.log[j]) && Perm(w.hist[j], id) != Perm(w.hist[j - 1], id) ==>
            Concerns(w.hist[j - 1], w.log[j], id))
      && (Good(w.hist[j - 1]) && Whole(w.hist, w.log, j) && Perm(w.hist[j], id) != Perm(w.hist[j - 1], id) ==>
            Authorised(w.hist, w.log[j], j, id))
      && (Good(w.hist[0]) && (forall i :: 0 < i < j ==> Whole(w.hist, w.log, i)) ==> Good(w.hist[j - 1]))
  {
    InitInv(s);
    RunKeeps(s, run);
    var w := Exec(s, run).world;
    assert Legit(w.hist, w.log, j);
    if Good(w.hist[0]) && forall i :: 0 < i < j ==> Whole(w.hist, w.log, i) {
      ListsStayGood(w.hist, w.log, j - 1);
    }
    if Good(w.hist[j - 1]) && Perm(w.hist[j], id) != Perm(w.hist[j - 1], id) {
      if Whole(w.hist, w.log, j) { ChangeIsAuthorised(w.hist, w.log, j, id); }
      if GoodChange(w.log[j]) { ChangeConcerns(w.hist, w.log, j, id); }
    }
  }

  /** In every run, whoever set an entry had bit 0 in the list it was added to, or that list
      was empty; whoever removed one had bit 1 in the list published then. */
  lemma {:induction false} AuthorsHoldBits(s: State, run: seq<Event>, j: nat)
    requires Init(s) && Runs(s, run) && 0 < j < |Exec(s, run).world.hist|
    ensures var w := Exec(s, run).world;
      && |w.log| == |w.hist| && w.log[j].By?
      && (w.log[j].cmd.SetPerm? ==> w.hist[j - 1] == "" || Perm(w.hist[j - 1], w.log[j].fsid) % 2 == 1)
      && (w.log[j].cmd.RemPerm? ==> 0 <= w.log[j].seen < j && Perm(w.hist[w.log[j].seen], w.log[j].fsid) / 2 % 2 == 1)
  {
    InitInv(s);
    RunKeeps(s, run);
    assert Legit(Exec(s, run).world.hist, Exec(s, run).world.log, j);
  }

  /** In every run, a setting command gets past its look at the list if and only if that is
      empty or gives its identity bit 0, and a removing one if and only if there is a list
      and the read copy gives its identity bit 1. Everyone else is refused. */
  lemma {:induction false} GoesOnIff(s: State, run: seq<Event>)
    requires Init(s) && Runs(s, run) && Exec(s, run).holder.Some?
    ensures var t := Exec(s, run); var p := t.holder.value; var f := t.world.files;
      && (p.cmd.SetPerm? && p.pc.Edit? ==>
            (Enabled(t, Go(0)) <==> Held(f, f.master) == "" || Perm(Held(f, f.master), p.fsid) % 2 == 1))
      && (p.cmd.RemPerm? && p.pc.Begin? ==>
            (Enabled(t, Go(0)) <==> f.master != -1 && Perm(Held(f, f.rd), p.fsid) / 2 % 2 == 1))
  {
    InitInv(s);
    RunKeeps(s, run);
  }

  // ----- What is not flushed

  /** `fclose` is not checked. In every run, what a removal of which `kept` bytes reached the
      disk leaves of the bits of any other identity is, exactly, the number that is left in
      its first entry; the bits are kept if and only if that is the whole number. For an
      entry in decimal digits that is: at most the end of its line is cut off, or the bits
      are 0. The removed identity has none. */
  lemma {:induction false} ShortRemoval(s: State, run: seq<Event>, j: nat, id: string)
    requires Init(s) && Runs(s, run) && 0 < j < |Exec(s, run).world.hist| == |Exec(s, run).world.log|
    requires var w := Exec(s, run).world; Good(w.hist[j - 1]) && w.log[j].By? && w.log[j].cmd.RemPerm?
    ensures var w := Exec(s, run).world;
      var gone, kept := w.log[j].cmd.id, w.log[j].kept;
      var list := Dropped(w.hist[j - 1], gone);
      && Perm(w.hist[j], id) == CutBits(list, kept, id)
      && (id == gone ==> Perm(w.hist[j], id) == 0)
      && (id != gone ==>
            && Perm(w.hist[j - 1], id) == CutBits(list, |list|, id)
            && (Perm(w.hist[j], id) == Perm(w.hist[j - 1], id) <==>
                  CutBits(list, kept, id) == CutBits(list, |list|, id))
            && (Plain(list, id) ==>
                  (Perm(w.hist[j], id) == Perm(w.hist[j - 1], id) <==>
                     Perm(w.hist[j - 1], id) == 0 || EntryEnd(list, id) <= kept + 1)))
  {
    InitInv(s);
    RunKeeps(s, run);
    var w := Exec(s, run).world;
    assert Legit(w.hist, w.log, j);
    var gone, kept := w.log[j].cmd.id, w.log[j].kept;
    var list := Dropped(w.hist[j - 1], gone);
    ChangeGives(w.hist, w.log, j, id);
    DroppedEntry(w.hist[j - 1], gone, id);
    DroppedNotListed(w.hist[j - 1], gone);
    WholePerm(list, id);
    if Plain(list, id) { PlainCutKeepsIff(list, kept, id); }
  }

  /** In every run, after a new entry of which `kept` bytes reached the disk whoever was
      listed has the bits from before; anyone else has the number that is left behind the
      colon, if the entry is theirs and the colon is there, and else none. */
  lemma {:induction false} ShortEntry(s: State, run: seq<Event>, j: nat, id: string)
    requires Init(s) && Runs(s, run) && 0 < j < |Exec(s, run).world.hist| == |Exec(s, run).world.log|
    requires var w := Exec(s, run).world; Good(w.hist[j - 1]) && GoodChange(w.log[j]) && w.log[j].cmd.SetPerm?
    ensures var w := Exec(s, run).world;
      var line, kept := w.log[j].cmd.tok + "\n", w.log[j].kept;
      && 0 <= kept <= |line|
      && Perm(w.hist[j], id) ==
           if Listed(w.hist[j - 1], id) then Perm(w.hist[j - 1], id)
           else if IsEntry(line, id) && |id| < kept then Atoi(line[|id| + 1..kept])
           else 0
  {
    InitInv(s);
    RunKeeps(s, run);
    var w := Exec(s, run).world;
    assert Legit(w.hist, w.log, j);
    CutEntry(w.hist[j - 1], w.log[j].cmd.tok, w.log[j].kept, id);
  }

  // ----- Runs with a short flush

  /** A directory with a list and its read copy, and nobody at work. */
  function Quiet(list: string): State {
    State(World(Files([list, list], 0, -1, 1), [list], [First], 0), None, map[])
  }

  /** A removal of which `kept` bytes are flushed; nothing else goes wrong. */
  function ShortRun(gone: string, fsid: string, kept: nat): seq<Event> {
    [Lock(RemPerm(gone), fsid), Go(0), Go(0), Go(kept), Go(0)] + CopyRun(kept)
  }

  lemma {:induction false} RunsStep(s: State, run: seq<Event>, i: nat, t: State)
    requires i < |run| && Enabled(s, run[i]) && Apply(s, run[i]) == t && Runs(t, run[i + 1..])
    ensures Runs(s, run[i..]) && Exec(s, run[i..]) == Exec(t, run[i + 1..])
  {
    assert run[i..][0] == run[i] && run[i..][1..] == run[i + 1..];
  }

  lemma {:induction false} WrittenAtEnd(front: seq<string>, text: string, more: string, master: int, rd: int)
    ensures Written(Files(front + [text], master, |front|, rd), more) ==
            Files(front + [text + more], master, |front|, rd)
  {
    assert (front + [text])[|front| := text + more] == front + [text + more];
  }

  function Midway(w: World, p: Writer, pc: Pc): State {
    State(w, Some(p.(pc := pc)), map[])
  }

  /** The short list is the master file, and `copied` of it the next read copy. */
  function Copying(list: string, t: string, copied: string, log: seq<Change>): World {
    World(Files([list, list] + [t] + [copied], 2, 3, 1), [list, t], log, 0)
  }

  function Finished(list: string, t: string, log: seq<Change>): State {
    State(World(Files([list, list] + [t] + [t], 2, -1, 3), [list, t], log, 1), None, map[])
  }

  /** From the complete copy to the release of the lock. */
  lemma {:induction false} ShortEnd(list: string, t: string, p: Writer, log: seq<Change>, run: seq<Event>)
    requires var n := |run|; n >= 3 && run[n - 3] == run[n - 2] == Go(0) && run[n - 1] == Unlock
    ensures var w := Midway(Copying(list, t, t, log), p, CopyOut(|t|));
      Runs(w, run[|run| - 3..]) && Exec(w, run[|run| - 3..]) == Finished(list, t, log)
  {
    var n, w := |run|, Copying(list, t, t, log);
    var end := Finished(list, t, log);
    assert Runs(end, run[n..]) && Exec(end, run[n..]) == end by { assert run[n..] == []; }
    RunsStep(Midway(end.world, p, Done), run, n - 1, end);
    RunsStep(Midway(w, p, Publish), run, n - 2, Midway(end.world, p, Done));
    RunsStep(Midway(w, p, CopyOut(|t|)), run, n - 3, Midway(w, p, Publish));
  }

  /** The calls behind the first rename: the read copy is made from a list of `n` bytes. */
  function CopyRun(n: nat): seq<Event> {
    [Go(0)] + (if n == 0 then [] else [Go(n)]) + [Go(0), Go(0), Unlock]
  }

  lemma {:induction false} CopyRunAt(run: seq<Event>, i: nat, n: nat)
    requires i <= |run| && run[i..] == CopyRun(n)
    ensures |run| == i + (if n == 0 then 4 else 5) && run[i] == Go(0) && (n > 0 ==> run[i + 1] == Go(n))
    ensures run[|run| - 3] == run[|run| - 2] == Go(0) && run[|run| - 1] == Unlock
  {
    var c := run[i..];
    assert forall k :: 0 <= k < |c| ==> run[i + k] == c[k];
    assert run[|run| - 3] == c[|c| - 3] && run[|run| - 2] == c[|c| - 2] && run[|run| - 1] == c[|c| - 1];
  }

  /** From the rename to the master file to the release. */
  lemma {:induction false} CopyHappens(list: string, t: string, p: Writer, log: seq<Change>, run: seq<Event>, i: nat)
    requires i <= |run| && run[i..] == CopyRun(|t|)
    ensures var w := World(Files([list, list] + [t], 2, -1, 1), [list, t], log, 0);
      Runs(Midway(w, p, OpenRd), run[i..]) && Exec(Midway(w, p, OpenRd), run[i..]) == Finished(list, t, log)
  {
    var w := World(Files([list, list] + [t], 2, -1, 1), [list, t], log, 0);
    CopyRunAt(run, i, |t|);
    ShortEnd(list, t, p, log, run);
    var start := Copying(list, t, "", log);
    if t != "" {
      WrittenAtEnd([list, list] + [t], "", t, 2, 1);
      assert "" + t == t && t[0..0 + |t|] == t;
      RunsStep(Midway(start, p, CopyOut(0)), run, i + 1, Midway(Copying(list, t, t, log), p, CopyOut(|t|)));
    }
    RunsStep(Midway(w, p, OpenRd), run, i, Midway(start, p, CopyOut(0)));
  }

  /** From the edit on. */
  lemma {:induction false} ShortEdit(list: string, t: string, p: Writer, log: seq<Change>, run: seq<Event>)
    requires p.cmd.RemPerm? && t <= Dropped(list, p.cmd.id)
    requires log == [First, By(p.cmd, p.fsid, 0, |t|)] && run == ShortRun(p.cmd.id, p.fsid, |t|)
    ensures var w := World(Files([list, list] + [""], 0, 2, 1), [list], [First], 0);
      Runs(Midway(w, p, Edit), run[3..]) && Exec(Midway(w, p, Edit), run[3..]) == Finished(list, t, log)
  {
    var w2 := World(Files([list, list] + [""], 0, 2, 1), [list], [First], 0);
    var w3 := World(Files([list, list] + [t], 0, 2, 1), [list], [First], 0);
    var w4 := World(Files([list, list] + [t], 2, -1, 1), [list, t], log, 0);
    assert run[5..] == CopyRun(|t|);
    CopyHappens(list, t, p, log, run, 5);
    assert [list] + [t] == [list, t] && [First] + [By(p.cmd, p.fsid, 0, |t|)] == log;
    RunsStep(Midway(w3, p, Ready), run, 4, Midway(w4, p, OpenRd));
    WrittenAtEnd([list, list], "", t, 0, 1);
    assert "" + t == t && Dropped(list, p.cmd.id)[..|t|] == t;
    RunsStep(Midway(w2, p, Edit), run, 3, Midway(w3, p, Ready));
  }

  /** From the lock to the release. */
  lemma {:induction false} ShortHead(list: string, t: string, p: Writer)
    requires p.cmd.RemPerm? && p.pc == Begin && RemAllowed(list, p.fsid) && t <= Dropped(list, p.cmd.id)
    ensures var run := ShortRun(p.cmd.id, p.fsid, |t|); var log := [First, By(p.cmd, p.fsid, 0, |t|)];
      Runs(Quiet(list), run) && Exec(Quiet(list), run) == Finished(list, t, log)
  {
    var run, log := ShortRun(p.cmd.id, p.fsid, |t|), [First, By(p.cmd, p.fsid, 0, |t|)];
    var w0 := Quiet(list).world;
    var w2 := World(Files([list, list] + [""], 0, 2, 1), [list], [First], 0);
    ShortEdit(list, t, p, log, run);
    RunsStep(Midway(w0, p, Opened), run, 2, Midway(w2, p, Edit));
    RunsStep(Midway(w0, p, Begin), run, 1, Midway(w0, p, Opened));
    RunsStep(Quiet(list), run, 0, Midway(w0, p, Begin));
    assert run[0..] == run;
  }

  /** For every number of bytes there is a run in which just these are flushed: the command
      ends with success, and the read copy holds just these. */
  lemma {:induction false} ShortRemovalHappens(list: string, fsid: string, gone: string, kept: nat)
    requires RemAllowed(list, fsid) && kept <= |Dropped(list, gone)|
    ensures var s, run := Quiet(list), ShortRun(gone, fsid, kept);
      && Init(s) && Runs(s, run)
      && var w := Exec(s, run).world;
      && Held(w.files, w.files.rd) == Dropped(list, gone)[..kept] && w.pub == |w.hist| - 1
  {
    ShortHead(list, Dropped(list, gone)[..kept], Writer(RemPerm(gone), fsid, Begin));
  }

  /** A new entry, all of which is flushed. */
  function SettingRun(list: string, tok: string, fsid: string): seq<Event> {
    [Lock(SetPerm(tok), fsid), Go(0), Go(0)] + (if list == "" then [] else [Go(|list|)])
    + [Go(0), Go(|tok| + 1), Go(0)] + CopyRun(|list| + |tok| + 1)
  }

  lemma {:induction false} SettingEnd(list: string, t: string, p: Writer, run: seq<Event>, i: nat)
    requires p.cmd.SetPerm? && t == list + (p.cmd.tok + "\n") && SetAllowed(list, p.fsid)
    requires i <= |run| && run[i..] == [Go(0), Go(|p.cmd.tok| + 1), Go(0)] + CopyRun(|t|)
    ensures var w := World(Files([list, list] + [list], 0, 2, 1), [list], [First], 0);
      var log := [First, By(p.cmd, p.fsid, 0, |p.cmd.tok| + 1)];
      && Runs(Midway(w, p, CopyIn(|list|)), run[i..])
      && Exec(Midway(w, p, CopyIn(|list|)), run[i..]) == Finished(list, t, log)
  {
    var line, log := p.cmd.tok + "\n", [First, By(p.cmd, p.fsid, 0, |p.cmd.tok| + 1)];
    var w2 := World(Files([list, list] + [list], 0, 2, 1), [list], [First], 0);
    var w3 := World(Files([list, list] + [t], 0, 2, 1), [list], [First], 0);
    var w4 := World(Files([list, list] + [t], 2, -1, 1), [list, t], log, 0);
    assert forall k :: 0 <= k < |run[i..]| ==> run[i + k] == run[i..][k];
    assert run[i + 3..] == run[i..][3..] == CopyRun(|t|);
    CopyHappens(list, t, p, log, run, i + 3);
    assert [list] + [t] == [list, t] && [First] + [By(p.cmd, p.fsid, 0, |line|)] == log;
    RunsStep(Midway(w3, p, Ready), run, i + 2, Midway(w4, p, OpenRd));
    WrittenAtEnd([list, list], list, line, 0, 1);
    assert line[..|line|] == line;
    RunsStep(Midway(w2, p, Edit), run, i + 1, Midway(w3, p, Ready));
    RunsStep(Midway(w2, p, CopyIn(|list|)), run, i, Midway(w2, p, Edit));
  }

  /** The command of an identity that may set, with no call failing: it ends with success,
      and the published list is the old one and the token, on a line of its own. */
  lemma {:induction false} SettingHappens(list: string, fsid: string, tok: string)
    requires SetAllowed(list, fsid)
    ensures var s, run := Quiet(list), SettingRun(list, tok, fsid);
      && Init(s) && Runs(s, run)
      && var w := Exec(s, run).world;
      && Held(w.files, w.files.rd) == list + tok + "\n" && w.pub == |w.hist| - 1
  {
    var p, run := Writer(SetPerm(tok), fsid, Begin), SettingRun(list, tok, fsid);
    var w0 := Quiet(list).world;
    var w1 := World(Files([list, list] + [""], 0, 2, 1), [list], [First], 0);
    var w2 := World(Files([list, list] + [list], 0, 2, 1), [list], [First], 0);
    var t, i := list + (tok + "\n"), if list == "" then 3 else 4;
    assert t == list + tok + "\n";
    assert run[i..] == [Go(0), Go(|tok| + 1), Go(0)] + CopyRun(|t|);
    SettingEnd(list, t, p, run, i);
    if list != "" {
      WrittenAtEnd([list, list], "", list, 0, 1);
      assert "" + list == list && list[0..0 + |list|] == list;
      RunsStep(Midway(w1, p, CopyIn(0)), run, 3, Midway(w2, p, CopyIn(|list|)));
    }
    RunsStep(Midway(w0, p, Opened), run, 2, Midway(w1, p, CopyIn(0)));
    RunsStep(Midway(w0, p, Begin), run, 1, Midway(w0, p, Opened));
    RunsStep(Quiet(list), run, 0, Midway(w0, p, Begin));
    assert run[0..] == run;
  }

  /** So everyone may lose their permission. */
  lemma {:induction false} LostFlushLosesAll(list: string, fsid: string, gone: string, id: string)
    requires RemAllowed(list, fsid)
    ensures var s, run := Quiet(list), ShortRun(gone, fsid, 0);
      && Init(s) && Runs(s, run)
      && var w := Exec(s, run).world; Perm(Held(w.files, w.files.rd), id) == 0
  {
    ShortRemovalHappens(list, fsid, gone, 0);
  }

  /** And someone may gain a permission that nobody gave: the set bit, where the list says
      12 for "b". */
  lemma {:induction false} ShortFlushGivesSetBit(list: string)
    requires list == "a:2\nb:12\n"
    ensures var s, run := Quiet(list), ShortRun("c", "a", 7);
      && Init(s) && Runs(s, run)
      && var w := Exec(s, run).world;
      && !SetBit(Perm(list, "b")) && SetBit(Perm(Held(w.files, w.files.rd), "b"))
  {
    CutGivesSetBit(list);
    ShortRemovalHappens(list, "a", "c", 7);
  }
}
