/** The network mutex: a file that is empty when the mutex is free and else holds the token
    of its owner. Any number of processes acquire and release it; every system call is one
    step, and any process may move next, or die. */
module NetMutex {
  import opened Common

  const BUFFER_SIZE := 255

  datatype Kind = Acquire | Release

  datatype Outcome = Granted | Refused | Faulted

  /** Where a process is: the file open, the lock held, part of the token written, the
      token to be read, the file to be truncated, the answer decided. */
  datatype Pc = Opened | Locked | Writing(off: int) | Reading | Truncating | Leaving(out: Outcome)

  /** What went wrong in a command: `met` a failing call, `kept` a failing `ftruncate`, which
      it does not notice. */
  datatype Ills = Ills(met: bool, kept: bool)

  const NO_ILLS := Ills(false, false)

  datatype Proc = Proc(kind: Kind, tok: string, pc: Pc, ills: Ills)

  /** A command that is over. `answer` is `None` when the process died before it gave one. To
      the client `Refused` and `Faulted` are the same reply. */
  datatype Entry = Entry(p: nat, kind: Kind, tok: string, answer: Option<Outcome>, ills: Ills)

  /** `was[i]` is what the file held between command `i - 1` of the log and command `i`. */
  datatype State = State(file: string, lock: Option<nat>, procs: map<nat, Proc>, log: seq<Entry>, was: seq<string>)

  datatype Event =
    | Start(p: nat, kind: Kind, tok: string)
    | Lock(p: nat)
    | Stat(p: nat)
    | Write(p: nat, n: int)
    | Read(p: nat)
    | Truncate(p: nat, done: bool)
    | Fault(p: nat)
    | Unlock(p: nat)
    | Die(p: nat)

  predicate Enabled(s: State, e: Event) {
    if e.Start? then e.p !in s.procs && |e.tok| < BUFFER_SIZE
    else
      && e.p in s.procs
      && var q := s.procs[e.p];
      match e
      case Start(_, _, _) => false
      case Lock(_) => q.pc.Opened? && s.lock.None?
      case Stat(_) => q.pc.Locked?
      case Write(_, n) => q.pc.Writing? && 0 <= q.pc.off && 0 <= n <= |q.tok| - q.pc.off
      case Read(_) => q.pc.Reading?
      case Truncate(_, _) => q.pc.Truncating?
      case Fault(_) => q.pc.Locked? || q.pc.Writing? || q.pc.Reading?
      case Unlock(_) => q.pc.Leaving?
      case Die(_) => true
  }

  function At(s: State, p: nat, pc: Pc): State
    requires p in s.procs
  {
    s.(procs := s.procs[p := s.procs[p].(pc := pc)])
  }

  /** The process is gone and its lock with it. A process that never had the lock leaves
      no entry. */
  function Gone(s: State, p: nat, answer: Option<Outcome>): State
    requires p in s.procs
  {
    var q := s.procs[p];
    var rest := s.procs - {p};
    if q.pc.Opened? then s.(procs := rest)
    else
      s.(procs := rest, lock := None,
         log := s.log + [Entry(p, q.kind, q.tok, answer, q.ills)], was := s.was + [s.file])
  }

  function Apply(s: State, e: Event): State
    requires Enabled(s, e)
  {
    match e
    case Start(p, kind, tok) => s.(procs := s.procs[p := Proc(kind, tok, Opened, NO_ILLS)])
    case Lock(p) => At(s, p, Locked).(lock := Some(p))
    case Stat(p) =>
      At(s, p, if s.file != "" then Reading else if s.procs[p].kind.Acquire? then Writing(0) else Leaving(Granted))
    case Write(p, n) =>
      var q := s.procs[p];
      var done := q.pc.off + n;
      At(s.(file := s.file + q.tok[q.pc.off..done]), p, if done < |q.tok| then Writing(done) else Leaving(Granted))
    case Read(p) =>
      var q := s.procs[p];
      At(s, p, if s.file != q.tok then Leaving(Refused) else if q.kind.Acquire? then Leaving(Granted) else Truncating)
    case Truncate(p, done) =>
      if done then At(s.(file := ""), p, Leaving(Granted))
      else s.(procs := s.procs[p := s.procs[p].(pc := Leaving(Granted), ills := s.procs[p].ills.(kept := true))])
    case Fault(p) =>
      s.(procs := s.procs[p := s.procs[p].(pc := Leaving(Faulted), ills := s.procs[p].ills.(met := true))])
    case Unlock(p) => Gone(s, p, Some(s.procs[p].pc.out))
    case Die(p) => Gone(s, p, None)
  }

  predicate Runs(s: State, run: seq<Event>)
    decreases |run|
  {
    run == [] || (Enabled(s, run[0]) && Runs(Apply(s, run[0]), run[1..]))
  }

  function Exec(s: State, run: seq<Event>): State
    requires Runs(s, run)
    decreases |run|
  {
    if run == [] then s else Exec(Apply(s, run[0]), run[1..])
  }

  predicate Init(s: State) {
    |s.file| < BUFFER_SIZE && s.lock.None? && s.procs == map[] && s.log == [] && s.was == [s.file]
  }

  // ----- The mutex that the commands are to be

  /** What one command may do to a mutex, told by its value before and after: free is "".
      A granted release leaves the value exactly if `ftruncate` failed. */
  predicate Legal(before: string, e: Entry, after: string) {
    match e.answer
    case Some(Granted) =>
      && (before == "" || before == e.tok)
      && after == if e.kind.Acquire? then e.tok else if e.ills.kept then before else ""
    case Some(Refused) => before != "" && before != e.tok && after == before
    case Some(Faulted) => e.ills.met && (after == before || (e.kind.Acquire? && before == "" && after < e.tok))
    case None =>
      || after == before
      || (if e.kind.Acquire? then before == "" && after <= e.tok else before == e.tok && after == "")
  }

  ghost predicate AllLegal(was: seq<string>, log: seq<Entry>) {
    |was| == |log| + 1 && forall i :: 0 <= i < |log| ==> Legal(was[i], log[i], was[i + 1])
  }

  // ----- What holds in every state

  /** What the process with the lock has done to the file, which held `before`. */
  predicate PcOk(before: string, file: string, q: Proc) {
    match q.pc
    case Opened => true
    case Locked => file == before
    case Writing(off) =>
      && before == "" && q.kind.Acquire?
      && 0 <= off <= |q.tok| && file == q.tok[..off] && (off == |q.tok| ==> off == 0)
    case Reading => file == before && before != ""
    case Truncating => file == before && before == q.tok && q.kind.Release?
    case Leaving(out) => Legal(before, Entry(0, q.kind, q.tok, Some(out), q.ills), file)
  }

  predicate ProcOk(s: State, p: nat, q: Proc) {
    && |q.tok| < BUFFER_SIZE
    && (s.lock == Some(p) <==> !q.pc.Opened?)
    && (!q.pc.Leaving? ==> q.ills == NO_ILLS)
  }

  ghost predicate Inv(s: State) {
    && AllLegal(s.was, s.log)
    && |s.file| < BUFFER_SIZE
    && (forall p :: p in s.procs ==> ProcOk(s, p, s.procs[p]))
    && match s.lock
       case None => s.file == s.was[|s.log|]
       case Some(p) => p in s.procs && PcOk(s.was[|s.log|], s.file, s.procs[p])
  }

  // ----- Every step keeps it

  lemma {:induction false} DeathLegal(before: string, file: string, q: Proc)
    requires PcOk(before, file, q) && !q.pc.Opened?
    ensures Legal(before, Entry(0, q.kind, q.tok, None, q.ills), file)
  {
  }

  lemma {:induction false} LeaveKeeps(s: State, p: nat, answer: Option<Outcome>)
    requires Inv(s) && p in s.procs
    requires !s.procs[p].pc.Opened? ==> 
      Legal(s.was[|s.log|], Entry(p, s.procs[p].kind, s.procs[p].tok, answer, s.procs[p].ills), s.file)
    ensures Inv(Gone(s, p, answer))
  {
  }

  lemma {:induction false} MoveKeeps(s: State, e: Event)
    requires Inv(s) && Enabled(s, e) && (e.Stat? || e.Write? || e.Read? || e.Truncate? || e.Fault?)
    ensures Inv(Apply(s, e))
  {
  }

  lemma {:induction false} ComeKeeps(s: State, e: Event)
    requires Inv(s) && Enabled(s, e) && (e.Start? || e.Lock?)
    ensures Inv(Apply(s, e))
  {
  }

  lemma {:induction false} StepKeeps(s: State, e: Event)
    requires Inv(s) && Enabled(s, e)
    ensures Inv(Apply(s, e))
  {
    match e
    case Start(_, _, _) => ComeKeeps(s, e);
    case Lock(_) => ComeKeeps(s, e);
    case Unlock(p) =>
      assert ProcOk(s, p, s.procs[p]);
      LeaveKeeps(s, p, Some(s.procs[p].pc.out));
    case Die(p) =>
      assert ProcOk(s, p, s.procs[p]);
      if !s.procs[p].pc.Opened? { DeathLegal(s.was[|s.log|], s.file, s.procs[p]); }
      LeaveKeeps(s, p, None);
    case _ => MoveKeeps(s, e);
  }

  lemma {:induction false} RunKeeps(s: State, run: seq<Event>)
    requires Inv(s) && Runs(s, run)
    ensures Inv(Exec(s, run))
    decreases |run|
  {
    if run != [] {
      StepKeeps(s, run[0]);
      RunKeeps(Apply(s, run[0]), run[1..]);
    }
  }

  /** Every run does, command by command, what a mutex would do; and two processes never
      have the lock at once. */
  lemma {:induction false} RunsAreSequential(s: State, run: seq<Event>)
    requires Init(s) && Runs(s, run)
    ensures var t := Exec(s, run);
      && AllLegal(t.was, t.log)
      && (t.lock.None? ==> t.file == t.was[|t.log|])
      && forall p, q :: p in t.procs && q in t.procs && !t.procs[p].pc.Opened? && !t.procs[q].pc.Opened? ==> p == q
  {
    RunKeeps(s, run);
    var t := Exec(s, run);
    forall p, q | p in t.procs && q in t.procs && !t.procs[p].pc.Opened? && !t.procs[q].pc.Opened? ensures p == q {
      assert ProcOk(t, p, t.procs[p]) && ProcOk(t, q, t.procs[q]);
    }
  }

  /** Nobody is stuck: in every run a process that has the lock can make its next call, and
      one that waits can take the lock as soon as nobody has it. */
  lemma {:induction false} NobodyIsStuck(s: State, run: seq<Event>, p: nat) returns (e: Event)
    requires Init(s) && Runs(s, run) && p in Exec(s, run).procs
    requires Exec(s, run).procs[p].pc.Opened? ==> Exec(s, run).lock.None?
    ensures e.p == p && !e.Start? && !e.Fault? && !e.Die? && Enabled(Exec(s, run), e)
    ensures e.Truncate? ==> e.done
  {
    RunKeeps(s, run);
    var t := Exec(s, run);
    assert ProcOk(t, p, t.procs[p]);
    match t.procs[p].pc
    case Opened => e := Lock(p);
    case Locked => e := Stat(p);
    case Writing(off) => e := Write(p, |t.procs[p].tok| - off);
    case Reading => e := Read(p);
    case Truncating => e := Truncate(p, true);
    case Leaving(_) => e := Unlock(p);
  }

  // ----- Exclusion

  /** Command `k` took the mutex from `tok`: a release with that token, granted or cut
      short by the death of its process. */
  predicate Releases(log: seq<Entry>, k: int, tok: string)
    requires 0 <= k < |log|
  {
    log[k].kind.Release? && log[k].tok == tok && (log[k].answer.None? || log[k].answer == Some(Granted))
  }

  lemma {:induction false} HeldUntilReleased(was: seq<string>, log: seq<Entry>, i: nat, j: nat, tok: string)
    requires AllLegal(was, log) && i <= j <= |log| && was[i] == tok != ""
    requires forall k :: i <= k < j ==> !Releases(log, k, tok)
    ensures was[j] == tok
  {
    if i < j {
      HeldUntilReleased(was, log, i, j - 1, tok);
      assert Legal(was[j - 1], log[j - 1], was[j - 1 + 1]);
      assert !Releases(log, j - 1, tok);
    }
  }

  /** From a granted acquire by `tok` until a release by `tok` the mutex keeps its owner:
      every acquire by `tok` that meets no failing call and gives an answer is granted, and
      no command of another token is, or changes anything. */
  lemma {:induction false} Exclusive(s: State, run: seq<Event>, i: nat, j: nat)
    requires Init(s) && Runs(s, run)
    requires i < j < |Exec(s, run).log|
    requires var log := Exec(s, run).log;
      log[i].kind.Acquire? && log[i].answer == Some(Granted) && log[i].tok != "" &&
      forall k :: i < k < j ==> !Releases(log, k, log[i].tok)
    ensures var t := Exec(s, run); var tok := t.log[i].tok;
      && |t.was| == |t.log| + 1 && t.was[j] == tok
      && (t.log[j].tok != tok ==> t.log[j].answer != Some(Granted) && t.was[j + 1] == tok)
      && (t.log[j].tok == tok && t.log[j].answer.Some? && !t.log[j].ills.met ==> t.log[j].answer == Some(Granted))
  {
    RunKeeps(s, run);
    var t := Exec(s, run);
    assert Legal(t.was[i], t.log[i], t.was[i + 1]);
    HeldUntilReleased(t.was, t.log, i + 1, j, t.log[i].tok);
    assert Legal(t.was[j], t.log[j], t.was[j + 1]);
  }

  // ----- Who is granted what

  /** In every run a command whose calls all succeed and that gives an answer is granted if
      and only if the mutex was free or its own, whether it acquires or releases; else it is
      refused and changes nothing. A granted acquire leaves the mutex to its token, a granted
      release frees it unless its `ftruncate` fails. */
  lemma {:induction false} GrantedIff(s: State, run: seq<Event>, k: nat)
    requires Init(s) && Runs(s, run) && k < |Exec(s, run).log|
    requires Exec(s, run).log[k].answer.Some? && !Exec(s, run).log[k].ills.met
    ensures var t := Exec(s, run);
      && |t.was| == |t.log| + 1
      && (t.log[k].answer == Some(Granted) <==> t.was[k] == "" || t.was[k] == t.log[k].tok)
      && (t.log[k].answer != Some(Granted) ==> t.log[k].answer == Some(Refused) && t.was[k + 1] == t.was[k])
      && (t.log[k].answer == Some(Granted) && t.log[k].kind.Acquire? ==> t.was[k + 1] == t.log[k].tok)
      && (t.log[k].answer == Some(Granted) && t.log[k].kind.Release? && !t.log[k].ills.kept ==> t.was[k + 1] == "")
  {
    RunKeeps(s, run);
    var t := Exec(s, run);
    assert Legal(t.was[k], t.log[k], t.was[k + 1]);
  }

  /** The run holds the event `f`: a failing call of a process, noticed or not. */
  predicate Holds(run: seq<Event>, f: Event) {
    exists i :: 0 <= i < |run| && run[i] == f
  }

  /** What is recorded of process `p` was recorded before the run or happened in it. */
  predicate Known(s: State, run: seq<Event>, p: nat, ills: Ills) {
    && (ills.met ==> (p in s.procs && s.procs[p].ills.met) || Holds(run, Fault(p)))
    && (ills.kept ==> (p in s.procs && s.procs[p].ills.kept) || Holds(run, Truncate(p, false)))
  }

  ghost predicate Recorded(s: State, t: State, run: seq<Event>) {
    && |s.log| <= |t.log|
    && (forall k :: |s.log| <= k < |t.log| ==> Known(s, run, t.log[k].p, t.log[k].ills))
    && (forall p :: p in t.procs ==> Known(s, run, p, t.procs[p].ills))
  }

  lemma {:induction false} RecordStep(s: State, e: Event)
    requires Enabled(s, e)
    ensures Recorded(s, Apply(s, e), [e])
    ensures Apply(s, e).log[..|s.log|] == s.log
  {
    assert [e][0] == e;
  }

  lemma {:induction false} HoldsLater(e: Event, run: seq<Event>, f: Event)
    ensures Holds([e], f) || Holds(run, f) ==> Holds([e] + run, f)
  {
    var all := [e] + run;
    if Holds([e], f) { assert all[0] == f; }
    if Holds(run, f) {
      var i :| 0 <= i < |run| && run[i] == f;
      assert all[i + 1] == f;
    }
  }

  lemma {:induction false} KnownLater(s: State, m: State, e: Event, run: seq<Event>, p: nat, ills: Ills)
    requires Recorded(s, m, [e]) && Known(m, run, p, ills)
    ensures Known(s, [e] + run, p, ills)
  {
    HoldsLater(e, run, Fault(p));
    HoldsLater(e, run, Truncate(p, false));
  }

  lemma {:induction false} RecordRun(s: State, run: seq<Event>)
    requires Runs(s, run)
    ensures Recorded(s, Exec(s, run), run) && Exec(s, run).log[..|s.log|] == s.log
    decreases |run|
  {
    if run == [] {
      assert s.log[..|s.log|] == s.log;
    } else {
      var e, rest := run[0], run[1..];
      var m, t := Apply(s, e), Exec(s, run);
      RecordStep(s, e);
      RecordRun(m, rest);
      assert run == [e] + rest;
      assert t.log[..|s.log|] == t.log[..|m.log|][..|s.log|];
      forall p | p in t.procs ensures Known(s, run, p, t.procs[p].ills) {
        KnownLater(s, m, e, rest, p, t.procs[p].ills);
      }
      forall k | |s.log| <= k < |t.log| ensures Known(s, run, t.log[k].p, t.log[k].ills) {
        EntryKnown(s, m, t, e, rest, k);
      }
    }
  }

  lemma {:induction false} EntryKnown(s: State, m: State, t: State, e: Event, rest: seq<Event>, k: nat)
    requires Recorded(s, m, [e]) && Recorded(m, t, rest) && |s.log| <= k < |t.log|
    requires t.log[..|m.log|] == m.log
    ensures Known(s, [e] + rest, t.log[k].p, t.log[k].ills)
  {
    var q, ills := t.log[k].p, t.log[k].ills;
    if k < |m.log| {
      assert t.log[k] == t.log[..|m.log|][k] == m.log[k];
      HoldsLater(e, rest, Fault(q));
      HoldsLater(e, rest, Truncate(q, false));
    } else {
      KnownLater(s, m, e, rest, q, ills);
    }
  }

  /** A command is answered with a fault, or recorded as having met one, only if the run
      holds a failing call of its process; and recorded as having kept the mutex only if it
      holds a failing `ftruncate`. */
  lemma {:induction false} FaultsHappen(s: State, run: seq<Event>, k: nat)
    requires Init(s) && Runs(s, run) && k < |Exec(s, run).log|
    ensures var e := Exec(s, run).log[k];
      && (e.answer == Some(Faulted) ==> e.ills.met)
      && (e.ills.met ==> Holds(run, Fault(e.p)))
      && (e.ills.kept ==> Holds(run, Truncate(e.p, false)))
  {
    RecordRun(s, run);
    RunKeeps(s, run);
    var t := Exec(s, run);
    assert Legal(t.was[k], t.log[k], t.was[k + 1]);
  }

  /** An acquire that finds the mutex free and meets nobody. */
  function AcquireAlone(p: nat, tok: string): seq<Event> {
    [Start(p, Acquire, tok), Lock(p), Stat(p), Write(p, |tok|), Unlock(p)]
  }

  /** The condition on the token is needed: an acquire with the empty token is granted and
      leaves the mutex free, so the next token gets it too. */
  lemma {:induction false} EmptyTokenExcludesNobody(tok: string)
    requires |tok| < BUFFER_SIZE
    ensures var s := State("", None, map[], [], [""]);
      var run := AcquireAlone(0, "") + AcquireAlone(1, tok);
      && Init(s) && Runs(s, run)
      && Exec(s, run).log == [Entry(0, Acquire, "", Some(Granted), NO_ILLS),
                              Entry(1, Acquire, tok, Some(Granted), NO_ILLS)]
  {
    var s := State("", None, map[], [], [""]);
    OneAcquire(s, 0, "");
    var t := Exec(s, AcquireAlone(0, ""));
    OneAcquire(t, 1, tok);
    RunsAppend(s, AcquireAlone(0, ""), AcquireAlone(1, tok));
  }

  /** A release by the owner that meets nobody and whose `ftruncate` fails. */
  function FailingRelease(p: nat, tok: string): seq<Event> {
    [Start(p, Release, tok), Lock(p), Stat(p), Read(p), Truncate(p, false), Unlock(p)]
  }

  /** Then the release is granted, and the mutex is still the owner's. */
  lemma {:induction false} FailedTruncateKeepsMutex(s: State, p: nat, tok: string)
    requires s.file == tok != "" && s.lock.None? && s.procs == map[] && |tok| < BUFFER_SIZE
    ensures var run := FailingRelease(p, tok);
      && Runs(s, run)
      && Exec(s, run) == Ended(s, p, Release, tok, true)
  {
    var run := FailingRelease(p, tok);
    FailingEnd(s, p, tok, run);
    RunsStep(Sole(s, p, Release, tok, Locked, false), run, 2, Sole(s, p, Release, tok, Reading, false));
    RunsStep(Sole(s, p, Release, tok, Opened, false), run, 1, Sole(s, p, Release, tok, Locked, false));
    RunsStep(s, run, 0, Sole(s, p, Release, tok, Opened, false));
    assert run[0..] == run;
  }

  /** The process `p` alone, at `pc`. */
  function Sole(s: State, p: nat, kind: Kind, tok: string, pc: Pc, kept: bool): State {
    var q := Proc(kind, tok, pc, Ills(false, pc.Leaving? && kept));
    State(s.file, if pc.Opened? then None else Some(p), map[p := q], s.log, s.was)
  }

  /** The command of process `p` was granted, and nobody is there. */
  function Ended(s: State, p: nat, kind: Kind, tok: string, kept: bool): State {
    State(s.file, None, map[], s.log + [Entry(p, kind, tok, Some(Granted), Ills(false, kept))], s.was + [s.file])
  }

  lemma {:induction false} SoleEnds(s: State, p: nat, kind: Kind, tok: string, kept: bool, run: seq<Event>, i: nat)
    requires run != [] && i == |run| - 1 && run[i] == Unlock(p)
    ensures var t := Sole(s, p, kind, tok, Leaving(Granted), kept);
      && Runs(t, run[i..])
      && Exec(t, run[i..]) == Ended(s, p, kind, tok, kept)
  {
    var t := Sole(s, p, kind, tok, Leaving(Granted), kept);
    assert t.procs - {p} == map[] && run[i + 1..] == [];
    RunsStep(t, run, i, Apply(t, Unlock(p)));
  }

  lemma {:induction false} FailingEnd(s: State, p: nat, tok: string, run: seq<Event>)
    requires s.file == tok != "" && run == FailingRelease(p, tok)
    ensures var t := Sole(s, p, Release, tok, Reading, false);
      && Runs(t, run[3..])
      && Exec(t, run[3..]) == Ended(s, p, Release, tok, true)
  {
    SoleEnds(s, p, Release, tok, true, run, 5);
    RunsStep(Sole(s, p, Release, tok, Truncating, false), run, 4, Sole(s, p, Release, tok, Leaving(Granted), true));
    RunsStep(Sole(s, p, Release, tok, Reading, false), run, 3, Sole(s, p, Release, tok, Truncating, false));
  }

  lemma {:induction false} RunsStep(s: State, run: seq<Event>, i: nat, t: State)
    requires i < |run| && Enabled(s, run[i]) && Apply(s, run[i]) == t && Runs(t, run[i + 1..])
    ensures Runs(s, run[i..]) && Exec(s, run[i..]) == Exec(t, run[i + 1..])
  {
    assert run[i..][0] == run[i] && run[i..][1..] == run[i + 1..];
  }

  lemma {:induction false} RunsAppend(s: State, a: seq<Event>, b: seq<Event>)
    requires Runs(s, a) && Runs(Exec(s, a), b)
    ensures Runs(s, a + b) && Exec(s, a + b) == Exec(Exec(s, a), b)
    decreases |a|
  {
    if a == [] {
      assert a + b == b;
    } else {
      assert (a + b)[1..] == a[1..] + b;
      RunsAppend(Apply(s, a[0]), a[1..], b);
    }
  }

  lemma {:induction false} OneAcquire(s: State, p: nat, tok: string)
    requires s.file == "" && s.lock.None? && s.procs == map[] && |tok| < BUFFER_SIZE
    ensures var run := AcquireAlone(p, tok);
      && Runs(s, run)
      && Exec(s, run) == Ended(s.(file := tok), p, Acquire, tok, false)
  {
    var run := AcquireAlone(p, tok);
    assert "" + tok[0..|tok|] == tok;
    SoleEnds(s.(file := tok), p, Acquire, tok, false, run, 4);
    RunsStep(Sole(s, p, Acquire, tok, Writing(0), false), run, 3,
             Sole(s.(file := tok), p, Acquire, tok, Leaving(Granted), false));
    RunsStep(Sole(s, p, Acquire, tok, Locked, false), run, 2, Sole(s, p, Acquire, tok, Writing(0), false));
    RunsStep(Sole(s, p, Acquire, tok, Opened, false), run, 1, Sole(s, p, Acquire, tok, Locked, false));
    RunsStep(s, run, 0, Sole(s, p, Acquire, tok, Opened, false));
    assert run[0..] == run;
  }
}
