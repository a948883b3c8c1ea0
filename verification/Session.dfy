/** The state of one session: the gates of `cmd_parse` and the root that `jaildir` puts
    before every path. */
module Session {
  import opened Common
  import opened Paths

  datatype State = State(logged: bool, injail: bool, locksys: bool, fly: bool, root: string, ended: bool)

  /** A request by its command name and arguments. `Ordinary` is every command that is
      served only behind the gates and takes a path; `Plain` one that takes none, an XS
      command or an unknown one. */
  datatype Request =
    | End
    | Login
    | KeepAlive
    | ProcKey
    | InJail(args: Option<(string, string)>)
    | LockSys(arg: string)
    | FlyContext(arg: string)
    | Ordinary(name: string, arg: string)
    | Plain(name: string)

  /** What the file system and the user database answer during one request. `jail` is the
      lines of the token file, if it opens. */
  datatype Answers = Answers(login: bool, secfs: bool, rootThere: bool, jail: Option<seq<string>>, isDir: bool,
                             made: bool)

  datatype Reply = Closed | Done | Failed | Served

  /** What a request led to; `path` is a path that `jaildir` accepted. */
  datatype Outcome = Outcome(state: State, reply: Reply, path: Option<string>)

  // ----- What each request does

  function Jail(root: string, src: string, a: Answers): Option<string> {
    if Contains(root + src, "/../") || !a.secfs || !a.rootThere then None else Some(root + src)
  }

  function FlyRoot(path: string): string {
    "/" + Suffix(Components(path)) + "/"
  }

  function Fail(s: State): Outcome {
    Outcome(s, Failed, None)
  }

  function InJailed(s: State, args: Option<(string, string)>, a: Answers): Outcome {
    if !s.injail || args.None? then Fail(s)
    else
      var p := Jail(s.root, args.value.1, a);
      if p.None? then Fail(s)
      else if a.jail.None? || args.value.0 !in a.jail.value then Outcome(s, Failed, p)
      else Outcome(s.(injail := false, root := p.value + "/"), Done, p)
  }

  function LockedSys(s: State, arg: string, a: Answers): Outcome {
    if !a.rootThere || !a.isDir then Fail(s)
    else Outcome(s.(locksys := false, root := s.root + "/" + arg), Done, None)
  }

  function Flown(s: State, arg: string, a: Answers): Outcome {
    var p := Jail(s.root, arg, a);
    if p.None? then Fail(s)
    else if !a.made then Outcome(s, Failed, p)
    else Outcome(s.(fly := false, root := FlyRoot(p.value)), Done, p)
  }

  function LoggedIn(s: State, a: Answers): Outcome {
    if s.logged || !a.login then Fail(s) else Outcome(s.(logged := true), Done, None)
  }

  /** The request behind all gates. */
  function Behind(s: State, r: Request, a: Answers): Outcome {
    match r
    case Login => LoggedIn(s, a)
    case InJail(args) => InJailed(s, args, a)
    case FlyContext(arg) => Flown(s, arg, a)
    case Ordinary(_, arg) =>
      var p := Jail(s.root, arg, a);
      if p.None? then Fail(s) else Outcome(s, Served, p)
    case LockSys(_) => Outcome(s, Failed, None)
    case _ => Outcome(s, Served, None)
  }

  function Step(s: State, r: Request, a: Answers): Outcome {
    if s.ended then Outcome(s, Closed, None)
    else if r.End? then Outcome(s.(ended := true), Closed, None)
    else if !s.logged then
      if r.Login? then LoggedIn(s, a) else if r.KeepAlive? || r.ProcKey? then Outcome(s, Served, None) else Fail(s)
    else if s.injail then if r.InJail? then InJailed(s, r.args, a) else Fail(s)
    else if s.locksys then if r.LockSys? then LockedSys(s, r.arg, a) else Fail(s)
    else if s.fly then if r.FlyContext? then Flown(s, r.arg, a) else Fail(s)
    else Behind(s, r, a)
  }

  // ----- The handlers

  class Server {
    var logged: bool
    var injail: bool
    var locksys: bool
    var fly: bool
    var root: string
    var ended: bool

    function Now(): State
      reads this
    {
      State(logged, injail, locksys, fly, root, ended)
    }

    constructor (logged: bool, injail: bool, locksys: bool, fly: bool, dbdir: string)
      ensures Now() == State(logged, injail, locksys, fly, dbdir + "/", false)
    {
      this.logged, this.injail, this.locksys, this.fly := logged, injail, locksys, fly;
      root, ended := dbdir + "/", false;
    }

    method JailDir(src: string, a: Answers) returns (dst: Option<string>)
      ensures dst == Jail(root, src, a)
    {
      var path := root;
      var c := 0;
      while c < |src|
        invariant c <= |src| && path == root + src[..c]
      {
        path := path + [src[c]];
        c := c + 1;
      }
      assert src[..c] == src;
      if Contains(path, "/../") { return None; }
      if !a.secfs { return None; }
      if a.rootThere { dst := Some(path); } else { dst := None; }
    }

    method CmdInJail(args: Option<(string, string)>, a: Answers) returns (reply: Reply, path: Option<string>)
      modifies this
      ensures Outcome(Now(), reply, path) == InJailed(old(Now()), args, a)
    {
      path := None;
      if !injail || args.None? { return Failed, path; }
      path := JailDir(args.value.1, a);
      if path.None? { return Failed, path; }
      var dstp := root;
      root := path.value + "/";
      if a.jail.None? {
        root := dstp;
        return Failed, path;
      }
      var lines := a.jail.value;
      for i := 0 to |lines|
        invariant args.value.0 !in lines[..i]
        invariant Now() == old(Now()).(root := path.value + "/")
      {
        if lines[i] == args.value.0 {
          injail := false;
          return Done, path;
        }
      }
      assert lines[..|lines|] == lines;
      root := dstp;
      return Failed, path;
    }

    method CmdLockSys(arg: string, a: Answers) returns (reply: Reply, path: Option<string>)
      modifies this
      ensures Outcome(Now(), reply, path) == LockedSys(old(Now()), arg, a)
    {
      var hash := root + "/" + arg;
      path := None;
      if !a.rootThere { return Failed, path; }
      if !a.isDir { return Failed, path; }
      root := hash;
      locksys := false;
      reply := Done;
    }

    method CmdFlyContext(arg: string, a: Answers) returns (reply: Reply, path: Option<string>)
      modifies this
      ensures Outcome(Now(), reply, path) == Flown(old(Now()), arg, a)
    {
      path := JailDir(arg, a);
      if path.None? { return Failed, path; }
      var names := Components(path.value);
      var dir := "/";
      for i := 0 to |names|
        invariant dir == "/" + Suffix(names[..i])
      {
        assert names[..i + 1][..i] == names[..i];
        dir := dir + "/" + names[i];
      }
      assert names[..|names|] == names;
      dir := dir + "/";
      if !a.made { return Failed, path; }
      root := dir;
      fly := false;
      reply := Done;
    }

    method CmdLogin(a: Answers) returns (reply: Reply, path: Option<string>)
      modifies this
      ensures Outcome(Now(), reply, path) == LoggedIn(old(Now()), a)
    {
      path := None;
      if logged || !a.login { return Failed, path; }
      logged := true;
      reply := Done;
    }

    method CmdParse(r: Request, a: Answers) returns (reply: Reply, path: Option<string>)
      modifies this
      ensures Outcome(Now(), reply, path) == Step(old(Now()), r, a)
    {
      path := None;
      if ended { return Closed, path; }
      if !logged {
        if r.End? {
          ended := true;
          return Closed, path;
        } else if r.Login? {
          reply, path := CmdLogin(a);
          return;
        } else if r.KeepAlive? || r.ProcKey? {
          return Served, path;
        } else {
          return Failed, path;
        }
      }
      if r.End? {
        ended := true;
        return Closed, path;
      }
      if injail {
        if r.InJail? { reply, path := CmdInJail(r.args, a); } else { reply := Failed; }
        return;
      }
      if locksys {
        if r.LockSys? { reply, path := CmdLockSys(r.arg, a); } else { reply := Failed; }
        return;
      }
      if fly {
        if r.FlyContext? { reply, path := CmdFlyContext(r.arg, a); } else { reply := Failed; }
        return;
      }
      match r
      case Login => reply, path := CmdLogin(a);
      case InJail(args) => reply, path := CmdInJail(args, a);
      case FlyContext(arg) => reply, path := CmdFlyContext(arg, a);
      case Ordinary(_, arg) =>
        path := JailDir(arg, a);
        reply := if path.None? then Failed else Served;
      case LockSys(_) => reply := Failed;
      case _ => reply := Served;
    }
  }

  // ----- Runs

  datatype Turn = Turn(r: Request, a: Answers)

  /** The session after the first `i` requests. */
  function After(s: State, run: seq<Turn>, i: nat): State
    requires i <= |run|
  {
    if i == 0 then s else Step(After(s, run, i - 1), run[i - 1].r, run[i - 1].a).state
  }

  function OutcomeAt(s: State, run: seq<Turn>, i: nat): Outcome
    requires i < |run|
  {
    Step(After(s, run, i), run[i].r, run[i].a)
  }

  // ----- The gates

  datatype Gate = LoginGate | JailGate | LockGate | FlyGate

  function Rank(g: Gate): int {
    match g
    case LoginGate => 0
    case JailGate => 1
    case LockGate => 2
    case FlyGate => 3
  }

  predicate Up(s: State, g: Gate) {
    match g
    case LoginGate => !s.logged
    case JailGate => s.injail
    case LockGate => s.locksys
    case FlyGate => s.fly
  }

  predicate Opens(r: Request, g: Gate) {
    match g
    case LoginGate => r.Login?
    case JailGate => r.InJail?
    case LockGate => r.LockSys?
    case FlyGate => r.FlyContext?
  }

  /** Gate `g` fell at request `i`: by its own command, which reported success, with every
      earlier gate already down. */
  ghost predicate FellAt(s: State, run: seq<Turn>, g: Gate, i: int) {
    && 0 <= i < |run|
    && Up(After(s, run, i), g) && !Up(After(s, run, i + 1), g)
    && Opens(run[i].r, g) && OutcomeAt(s, run, i).reply.Done?
    && forall h :: Rank(h) < Rank(g) ==> !Up(After(s, run, i), h)
  }

  lemma {:induction false} StaysDown(s: State, run: seq<Turn>, g: Gate, i: nat, j: nat)
    requires i <= j <= |run| && !Up(After(s, run, i), g)
    ensures !Up(After(s, run, j), g)
  {
    if i < j { StaysDown(s, run, g, i, j - 1); }
  }

  /** A gate that is up at first and down at `k` fell at one request in between. */
  lemma {:induction false} FindFall(s: State, run: seq<Turn>, g: Gate, k: nat) returns (i: nat)
    requires k <= |run| && Up(s, g) && !Up(After(s, run, k), g)
    ensures i < k && FellAt(s, run, g, i)
  {
    if Up(After(s, run, k - 1), g) {
      i := k - 1;
    } else {
      i := FindFall(s, run, g, k - 1);
    }
  }

  predicate IsOrdinary(r: Request) {
    r.Ordinary? || r.Plain?
  }

  /** Whatever the configuration: an ordinary or XS command is served only with all gates
      down; each gate that was up has fallen before, to its own command; and of two that
      were up, the earlier one fell first. */
  lemma {:induction false} ServedBehindGates(s: State, run: seq<Turn>, k: nat, g: Gate, h: Gate)
    requires k < |run| && IsOrdinary(run[k].r) && OutcomeAt(s, run, k).reply.Served?
    requires Rank(g) < Rank(h)
    ensures !Up(After(s, run, k), g) && !Up(After(s, run, k), h)
    ensures Up(s, g) ==> exists i :: i < k && FellAt(s, run, g, i)
    ensures Up(s, g) && Up(s, h) ==> exists i, j :: i < j < k && FellAt(s, run, g, i) && FellAt(s, run, h, j)
  {
    if Up(s, g) {
      var i := FindFall(s, run, g, k);
      if Up(s, h) {
        var j := FindFall(s, run, h, k);
        if j <= i {
          StaysDown(s, run, g, j, i);
        }
      }
    }
  }

  /** A gate falls at most once. */
  lemma {:induction false} FallsOnce(s: State, run: seq<Turn>, g: Gate, i: nat, j: nat)
    requires FellAt(s, run, g, i) && FellAt(s, run, g, j)
    ensures i == j
  {
    if i < j { StaysDown(s, run, g, i + 1, j); }
    if j < i { StaysDown(s, run, g, j + 1, i); }
  }

  /** Only a command that reports success moves a gate or the root. A failed INJAIL has put
      the root back. */
  lemma {:induction false} FailureChangesNothing(s: State, r: Request, a: Answers)
    ensures Step(s, r, a).reply.Failed? || Step(s, r, a).reply.Served? ==> Step(s, r, a).state == s
  {
  }

  // ----- The root

  /** The configured root is at the front of everything that has been read of the root. */
  ghost predicate Rooted(conf: seq<string>, root: string) {
    root != "" && root[0] == '/' && conf <= Scan(root).done
  }

  lemma {:induction false} RootedAppend(conf: seq<string>, root: string, more: string)
    requires Rooted(conf, root)
    ensures Rooted(conf, root + more)
  {
    ReadAppend(Reading([], ""), root, more);
    DoneGrows(Scan(root), more);
  }

  lemma {:induction false} RootedFly(conf: seq<string>, path: string)
    requires Rooted(conf, path)
    ensures Rooted(conf, FlyRoot(path)) && Components(FlyRoot(path)) == Components(path)
  {
    ComponentsAreNames(path);
    ComponentsOfSuffix("/", Components(path));
    assert Components("/") == [] by { assert Scan("/") == Scan(""); }
    assert [] + Components(path) == Components(path);
    SlashCloses("/" + Suffix(Components(path)));
    NamesExtend(Scan(path), conf);
  }

  lemma {:induction false} NamesExtend(r: Reading, conf: seq<string>)
    requires conf <= r.done
    ensures conf <= Names(r)
  {
  }

  lemma {:induction false} StepRooted(conf: seq<string>, s: State, r: Request, a: Answers)
    requires Rooted(conf, s.root)
    ensures Rooted(conf, Step(s, r, a).state.root)
  {
    match r
    case InJail(args) =>
      if args.Some? {
        RootedAppend(conf, s.root, args.value.1);
        RootedAppend(conf, s.root + args.value.1, "/");
      }
    case LockSys(arg) =>
      RootedAppend(conf, s.root, "/");
      RootedAppend(conf, s.root + "/", arg);
    case FlyContext(arg) =>
      RootedAppend(conf, s.root, arg);
      RootedFly(conf, s.root + arg);
    case _ =>
  }

  lemma {:induction false} RunRooted(conf: seq<string>, s: State, run: seq<Turn>, i: nat)
    requires i <= |run| && Rooted(conf, s.root)
    ensures Rooted(conf, After(s, run, i).root)
  {
    if i > 0 {
      RunRooted(conf, s, run, i - 1);
      StepRooted(conf, After(s, run, i - 1), run[i - 1].r, run[i - 1].a);
    }
  }

  /** A path that stays in the jail: it starts with the configured components, and ".." is
      at most its last one. */
  ghost predicate Jailed(conf: seq<string>, p: string) {
    && conf <= Components(p)
    && forall i :: 0 <= i < |Components(p)| - 1 ==> Components(p)[i] != ".."
  }

  lemma {:induction false} AcceptedIsJailed(conf: seq<string>, p: string)
    requires Rooted(conf, p) && !Contains(p, "/../")
    ensures Jailed(conf, p)
  {
    DotDotInside(p);
    NamesExtend(Scan(p), conf);
    var r := Scan(p);
    forall i | 0 <= i < |Components(p)| - 1 ensures Components(p)[i] != ".." {
      assert Components(p)[i] == r.done[i];
    }
  }

  lemma {:induction false} AcceptedHere(conf: seq<string>, s: State, r: Request, a: Answers)
    requires Rooted(conf, s.root) && Step(s, r, a).path.Some?
    ensures Jailed(conf, Step(s, r, a).path.value)
  {
    var src := Source(r);
    AcceptedIs(s, r, a);
    RootedAppend(conf, s.root, src);
    AcceptedIsJailed(conf, s.root + src);
  }

  /** In every run from a configured directory, through every change of the root, each path
      that `jaildir` accepts stays in the jail. */
  lemma {:induction false} AcceptedPathsAreJailed(s: State, dbdir: string, run: seq<Turn>, k: nat)
    requires s.root == dbdir + "/" && dbdir != "" && dbdir[0] == '/' && k < |run|
    requires OutcomeAt(s, run, k).path.Some?
    ensures Jailed(Components(dbdir), OutcomeAt(s, run, k).path.value)
  {
    SlashCloses(dbdir);
    RunRooted(Components(dbdir), s, run, k);
    AcceptedHere(Components(dbdir), After(s, run, k), run[k].r, run[k].a);
  }

  // ----- Where a change of the root leaves the session

  /** A list of components begins with what was read of a path: with its closed components,
      and then with one that begins with the name that was left open. */
  predicate Under(r: Reading, c: seq<string>) {
    r.done <= c && (r.cur != "" ==> |c| > |r.done| && r.cur <= c[|r.done|])
  }

  /** A root that continues what was read. */
  ghost predicate Continues(r: Reading, root: string) {
    && root != "" && root[0] == '/'
    && var t := Scan(root);
    if t.done == r.done then r.cur <= t.cur else Under(r, t.done)
  }

  lemma {:induction false} ContinuesFeed(r: Reading, t: Reading, c: char)
    requires if t.done == r.done then r.cur <= t.cur else Under(r, t.done)
    ensures var u := Feed(t, c); if u.done == r.done then r.cur <= u.cur else Under(r, u.done)
  {
  }

  lemma {:induction false} ContinuesRead(r: Reading, t: Reading, q: string)
    requires if t.done == r.done then r.cur <= t.cur else Under(r, t.done)
    ensures var u := Read(t, q); if u.done == r.done then r.cur <= u.cur else Under(r, u.done)
    decreases |q|
  {
    if q != "" {
      ContinuesFeed(r, t, q[0]);
      ContinuesRead(r, Feed(t, q[0]), q[1..]);
    }
  }

  lemma {:induction false} ContinuesAppend(r: Reading, root: string, more: string)
    requires Continues(r, root)
    ensures Continues(r, root + more)
  {
    ReadAppend(Reading([], ""), root, more);
    ContinuesRead(r, Scan(root), more);
  }

  lemma {:induction false} ContinuesUnder(r: Reading, p: string)
    requires Continues(r, p)
    ensures Under(r, Components(p))
  {
    var t := Scan(p);
    if t.done != r.done { NamesExtend(t, t.done); }
  }

  lemma {:induction false} FlyScan(path: string)
    requires path != "" && path[0] == '/'
    ensures Scan(FlyRoot(path)) == Reading(Components(path), "")
  {
    ComponentsAreNames(path);
    ComponentsOfSuffix("/", Components(path));
    assert Components("/") == [] by { assert Scan("/") == Scan(""); }
    assert [] + Components(path) == Components(path);
    SlashCloses("/" + Suffix(Components(path)));
  }

  lemma {:induction false} ContinuesFly(r: Reading, path: string)
    requires Continues(r, path)
    ensures Continues(r, FlyRoot(path))
  {
    ContinuesUnder(r, path);
    FlyScan(path);
    var t := Scan(FlyRoot(path));
    if t.done == r.done {
      assert r.cur == "";
    }
  }

  lemma {:induction false} StepContinues(r: Reading, s: State, q: Request, a: Answers)
    requires Continues(r, s.root)
    ensures Continues(r, Step(s, q, a).state.root)
  {
    match q
    case InJail(args) =>
      if args.Some? {
        ContinuesAppend(r, s.root, args.value.1);
        ContinuesAppend(r, s.root + args.value.1, "/");
      }
    case LockSys(arg) =>
      ContinuesAppend(r, s.root, "/");
      ContinuesAppend(r, s.root + "/", arg);
    case FlyContext(arg) =>
      ContinuesAppend(r, s.root, arg);
      ContinuesFly(r, s.root + arg);
    case _ =>
  }

  lemma {:induction false} RunContinues(r: Reading, s: State, run: seq<Turn>, i: nat, k: nat)
    requires i <= k <= |run| && Continues(r, After(s, run, i).root)
    ensures Continues(r, After(s, run, k).root)
  {
    if i < k {
      RunContinues(r, s, run, i, k - 1);
      StepContinues(r, After(s, run, k - 1), run[k - 1].r, run[k - 1].a);
    }
  }

  /** From a root on, every path that is accepted later begins with what was read of it. */
  lemma {:induction false} AcceptedUnder(s: State, run: seq<Turn>, i: nat, k: nat)
    requires i <= k < |run| && OutcomeAt(s, run, k).path.Some?
    requires var root := After(s, run, i).root; root != "" && root[0] == '/'
    ensures Under(Scan(After(s, run, i).root), Components(OutcomeAt(s, run, k).path.value))
  {
    var r := Scan(After(s, run, i).root);
    RunContinues(r, s, run, i, k);
    var here, src := After(s, run, k), Source(run[k].r);
    AcceptedIs(here, run[k].r, run[k].a);
    ContinuesAppend(r, here.root, src);
    ContinuesUnder(r, here.root + src);
  }

  /** The argument a request gives to `jaildir`. */
  function Source(r: Request): string {
    match r
    case InJail(args) => if args.Some? then args.value.1 else ""
    case FlyContext(arg) => arg
    case Ordinary(_, arg) => arg
    case _ => ""
  }

  lemma {:induction false} AcceptedIs(s: State, r: Request, a: Answers)
    requires Step(s, r, a).path.Some?
    ensures Step(s, r, a).path.value == s.root + Source(r) && !Contains(s.root + Source(r), "/../")
  {
  }

  lemma {:induction false} RootAbsolute(s: State, run: seq<Turn>, i: nat)
    requires i <= |run| && s.root != "" && s.root[0] == '/'
    ensures var root := After(s, run, i).root; root != "" && root[0] == '/'
  {
    RunRooted([], s, run, i);
  }

  /** In every run, an INJAIL answered with success leaves the root at its directory, with a
      slash; and every path accepted later begins with the components of that directory. */
  lemma {:induction false} InJailHolds(s: State, run: seq<Turn>, i: nat, k: nat, tok: string, dir: string)
    requires s.root != "" && s.root[0] == '/' && i < k < |run|
    requires run[i].r == InJail(Some((tok, dir))) && OutcomeAt(s, run, i).reply.Done?
    ensures After(s, run, i + 1).root == After(s, run, i).root + dir + "/"
    ensures OutcomeAt(s, run, k).path.Some? ==>
      Components(After(s, run, i).root + dir) <= Components(OutcomeAt(s, run, k).path.value)
  {
    RootAbsolute(s, run, i + 1);
    SlashCloses(After(s, run, i).root + dir);
    if OutcomeAt(s, run, k).path.Some? { AcceptedUnder(s, run, i + 1, k); }
  }

  /** A LOCKSYS answered with success leaves the root at its directory, without a slash: every
      path accepted later begins with what was read of that root, so with all its components
      if its argument ends in a slash or is empty, and else with all but the last, which the
      next component begins with. */
  lemma {:induction false} LockSysHolds(s: State, run: seq<Turn>, i: nat, k: nat, arg: string)
    requires s.root != "" && s.root[0] == '/' && i < k < |run|
    requires run[i].r == LockSys(arg) && OutcomeAt(s, run, i).reply.Done?
    ensures After(s, run, i + 1).root == After(s, run, i).root + "/" + arg
    ensures OutcomeAt(s, run, k).path.Some? ==>
      Under(Scan(After(s, run, i).root + "/" + arg), Components(OutcomeAt(s, run, k).path.value))
  {
    RootAbsolute(s, run, i + 1);
    if OutcomeAt(s, run, k).path.Some? { AcceptedUnder(s, run, i + 1, k); }
  }

  /** A FLYCONTEXT answered with success leaves the root at the components of its directory;
      and every path accepted later begins with them. */
  lemma {:induction false} FlyContextHolds(s: State, run: seq<Turn>, i: nat, k: nat, arg: string)
    requires s.root != "" && s.root[0] == '/' && i < k < |run|
    requires run[i].r == FlyContext(arg) && OutcomeAt(s, run, i).reply.Done?
    ensures Components(After(s, run, i + 1).root) == Components(After(s, run, i).root + arg)
    ensures OutcomeAt(s, run, k).path.Some? ==>
      Components(After(s, run, i).root + arg) <= Components(OutcomeAt(s, run, k).path.value)
  {
    RootAbsolute(s, run, i);
    RootAbsolute(s, run, i + 1);
    FlownTo(After(s, run, i), arg, run[i].a);
    FlyScan(After(s, run, i).root + arg);
    if OutcomeAt(s, run, k).path.Some? { AcceptedUnder(s, run, i + 1, k); }
  }

  lemma {:induction false} FlownTo(s: State, arg: string, a: Answers)
    requires Step(s, FlyContext(arg), a).reply.Done?
    ensures Step(s, FlyContext(arg), a).state.root == FlyRoot(s.root + arg)
  {
  }

  // ----- Exactly when a request succeeds

  /** The command of a gate that succeeds takes that gate down and no other, and moves the
      root only as said above; LOGIN does not move it. */
  lemma {:induction false} SuccessOpens(s: State, r: Request, a: Answers, g: Gate, h: Gate)
    requires Step(s, r, a).reply.Done? && Opens(r, g)
    ensures !Up(Step(s, r, a).state, g) && !Step(s, r, a).state.ended
    ensures h != g ==> (Up(Step(s, r, a).state, h) <==> Up(s, h))
    ensures r.Login? ==> Step(s, r, a).state.root == s.root
  {
  }

  /** Every gate before `g` is down. */
  predicate DownTo(s: State, g: Gate) {
    forall h: Gate :: Rank(h) < Rank(g) ==> !Up(s, h)
  }

  predicate AllDown(s: State) {
    s.logged && !s.injail && !s.locksys && !s.fly
  }

  /** What `jaildir` asks for. */
  predicate Allowed(s: State, src: string, a: Answers) {
    !Contains(s.root + src, "/../") && a.secfs && a.rootThere
  }

  /** LOGIN succeeds exactly once, with the right password. The gate commands succeed exactly
      if every gate before theirs is down, theirs is up (FLYCONTEXT may come again when all
      are down) and the file system plays along. An ordinary command on a path is served
      exactly if all gates are down and the path is allowed, any other one exactly if all
      gates are down, and KEEPALIVE and PROCKEY also before LOGIN. END always closes. */
  lemma {:induction false} SucceedsIff(s: State, a: Answers, r: Request)
    requires !s.ended
    ensures r.Login? ==> (Step(s, r, a).reply.Done? <==> !s.logged && a.login)
    ensures r.InJail? ==> (Step(s, r, a).reply.Done? <==>
      DownTo(s, JailGate) && s.injail && r.args.Some? && Allowed(s, r.args.value.1, a)
      && a.jail.Some? && r.args.value.0 in a.jail.value)
    ensures r.LockSys? ==> (Step(s, r, a).reply.Done? <==> DownTo(s, LockGate) && s.locksys && a.rootThere && a.isDir)
    ensures r.FlyContext? ==> (Step(s, r, a).reply.Done? <==> DownTo(s, FlyGate) && Allowed(s, r.arg, a) && a.made)
    ensures r.Ordinary? ==> (Step(s, r, a).reply.Served? <==> AllDown(s) && Allowed(s, r.arg, a))
    ensures r.Plain? ==> (Step(s, r, a).reply.Served? <==> AllDown(s))
    ensures r.KeepAlive? || r.ProcKey? ==> (Step(s, r, a).reply.Served? <==> !s.logged || AllDown(s))
    ensures r.End? ==> Step(s, r, a).state == s.(ended := true) && Step(s, r, a).reply.Closed?
  {
    assert Rank(LoginGate) < Rank(JailGate) < Rank(LockGate) < Rank(FlyGate);
    assert DownTo(s, JailGate) <==> s.logged;
    assert DownTo(s, LockGate) <==> s.logged && !s.injail;
    assert DownTo(s, FlyGate) <==> s.logged && !s.injail && !s.locksys;
  }

  /** A path lies under the root of the moment exactly when one of the two supplies the
      slash between them. After LOCKSYS the root has none. */
  lemma {:induction false} UnderRootIff(root: string, src: string)
    requires root != "" && root[0] == '/'
    ensures Components(root) <= Components(root + src) <==>
      root[|root| - 1] == '/' || src == "" || src[0] == '/'
  {
    var r := Scan(root);
    ScanEnd(root);
    ReadAppend(Reading([], ""), root, src);
    if src == "" {
      assert root + src == root;
    } else if src[0] == '/' || r.cur == "" {
      var f := Feed(r, src[0]);
      DoneGrows(f, src[1..]);
      DoneGrows(r, src);
      NamesExtend(Read(r, src), r.done);
      if src[0] == '/' { NamesExtend(Read(r, src), Names(r)); }
      assert r.cur == "" <==> root[|root| - 1] == '/';
    } else {
      CurGrows(r, src);
    }
  }

  lemma {:induction false} CurGrows(r: Reading, src: string)
    requires r.cur != "" && src != "" && src[0] != '/'
    ensures |Names(Read(r, src))| > |r.done| && |Names(Read(r, src))[|r.done|]| > |r.cur|
  {
    NextLonger(Feed(r, src[0]), src[1..], |r.cur|);
  }

  lemma {:induction false} NextLonger(r: Reading, q: string, n: nat)
    requires |r.cur| > n
    ensures |Names(Read(r, q))| > |r.done| && |Names(Read(r, q))[|r.done|]| > n
    decreases |q|
  {
    if q != "" {
      if q[0] == '/' {
        var f := Feed(r, '/');
        DoneGrows(f, q[1..]);
        NamesExtend(Read(f, q[1..]), f.done);
        assert Names(Read(r, q))[|r.done|] == f.done[|r.done|];
      } else {
        NextLonger(Feed(r, q[0]), q[1..], n);
      }
    }
  }
}
