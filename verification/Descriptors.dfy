/** The XS1 descriptor table: an array of kernel descriptors in which -1 is a hole. */
module Descriptors {
  import opened Common
  import opened Text
  import FileIo

  const INT_MAX := 0x7FFF_FFFF
  const LONG_DIGITS := 22
  const LONG_MAX := 0x7FFF_FFFF_FFFF_FFFF

  /** The table, the kernel's descriptors with the file each is open on, and whether the
      session is over. */
  datatype State = State(fds: seq<int>, os: map<int, string>, ended: bool)

  /** The file behind an index. */
  function FileOf(s: State, i: int): Option<string> {
    if 0 <= i < |s.fds| && s.fds[i] != -1 && s.fds[i] in s.os then Some(s.os[s.fds[i]]) else None
  }

  /** Live slots hold different descriptors, each open while the session lasts. */
  ghost predicate Valid(s: State) {
    && (forall i, j :: 0 <= i < j < |s.fds| && s.fds[i] != -1 ==> s.fds[i] != s.fds[j])
    && (!s.ended ==> forall i :: 0 <= i < |s.fds| && s.fds[i] != -1 ==> s.fds[i] in s.os)
    && -1 !in s.os && |s.fds| <= INT_MAX
  }

  function FirstAt(fds: seq<int>, v: int): (i: nat)
    ensures i <= |fds| && v !in fds[..i] && (i < |fds| ==> fds[i] == v)
  {
    if fds == [] || fds[0] == v then 0
    else
      var i := 1 + FirstAt(fds[1..], v);
      assert fds[..i] == [fds[0]] + fds[1..][..i - 1];
      i
  }

  /** What `open` is given: whether memory is there to grow, the descriptor the kernel
      returns, -1 or one that is not in use, and whether the reply can be sent. */
  datatype Command = Open(file: string, memory: bool, fd: int, sent: bool) | Close(text: string)

  predicate Possible(s: State, c: Command) {
    !s.ended && (c.Open? ==> c.fd == -1 || (c.fd >= 0 && c.fd !in s.os))
  }

  predicate CanGrow(s: State, memory: bool) {
    memory && |s.fds| < INT_MAX
  }

  /** A reply that cannot be sent closes the descriptor, leaves it in its slot and ends the
      session. */
  function Opened(s: State, file: string, memory: bool, fd: int, sent: bool): State {
    var h := FirstAt(s.fds, -1);
    if h == |s.fds| && !CanGrow(s, memory) then s
    else
      var fds := if h == |s.fds| then s.fds + [fd] else s.fds[h := fd];
      if fd == -1 then s.(fds := fds)
      else if !sent then s.(fds := fds, ended := true)
      else s.(fds := fds, os := s.os[fd := file])
  }

  /** The index that a text names. */
  function Named(text: string): int {
    if text == "" then -1
    else
      var v := Atoi(if |text| < LONG_DIGITS then text else text[..LONG_DIGITS - 1]);
      FileIo.Int32(if v > LONG_MAX then LONG_MAX else if v < -LONG_MAX - 1 then -LONG_MAX - 1 else v)
  }

  function Closed(s: State, i: int): State
    requires 0 <= i < |s.fds|
  {
    s.(fds := s.fds[i := -1], os := s.os - {s.fds[i]})
  }

  function ChkIdx(s: State, text: string): (i: int)
    ensures i == -1 || (0 <= i < |s.fds| && s.fds[i] != -1)
  {
    var idx := Named(text);
    if idx < 0 || idx >= |s.fds| || s.fds[idx] == -1 then -1 else idx
  }

  function Step(s: State, c: Command): State {
    match c
    case Open(file, memory, fd, sent) => Opened(s, file, memory, fd, sent)
    case Close(text) => if ChkIdx(s, text) == -1 then s else Closed(s, ChkIdx(s, text))
  }

  // ----- The commands

  class Xs1 {
    var fds: seq<int>
    var os: map<int, string>
    var ended: bool

    function Now(): State
      reads this
    {
      State(fds, os, ended)
    }

    constructor (os: map<int, string>)
      ensures Now() == State([], os, false)
    {
      fds, this.os, ended := [], os, false;
    }

    /** The first hole, or a new one at the end. */
    method GetFd(memory: bool) returns (slot: Option<nat>)
      modifies this
      ensures os == old(os) && ended == old(ended)
      ensures slot.Some? <==> -1 in old(fds) || CanGrow(old(Now()), memory)
      ensures slot.None? ==> fds == old(fds)
      ensures slot.Some? ==> slot.value == FirstAt(old(fds), -1)
      ensures slot.Some? ==> fds == if -1 in old(fds) then old(fds) else old(fds) + [-1]
    {
      var c := 0;
      while c < |fds|
        invariant c <= |fds| && fds == old(fds) && -1 !in fds[..c]
        invariant os == old(os) && ended == old(ended)
      {
        if fds[c] == -1 {
          FirstIs(fds, -1, c);
          return Some(c);
        }
        c := c + 1;
      }
      assert fds[..c] == fds;
      FirstMissing(fds, -1);
      if |fds| == INT_MAX { return None; }
      if memory && |fds| < INT_MAX {
        fds := fds + [-1];
        return Some(|fds| - 1);
      }
      return None;
    }

    /** The first slot with the given descriptor. */
    method GetIdx(fdp: int) returns (i: int)
      ensures i == if fdp in fds then FirstAt(fds, fdp) else -1
    {
      var c := 0;
      while c < |fds|
        invariant c <= |fds| && fdp !in fds[..c]
      {
        if fds[c] == fdp {
          FirstIs(fds, fdp, c);
          return c;
        }
        c := c + 1;
      }
      assert fds[..c] == fds;
      return -1;
    }

    /** The index told to the client, found by its descriptor's value, is the slot just
        filled. */
    method CmdOpen(file: string, memory: bool, fd: int, sent: bool) returns (i: int)
      requires Valid(Now()) && Possible(Now(), Open(file, memory, fd, sent))
      modifies this
      ensures Now() == Opened(old(Now()), file, memory, fd, sent)
      ensures i != -1 <==> sent && fd != -1 && (-1 in old(fds) || CanGrow(old(Now()), memory))
      ensures i != -1 ==> i == FirstAt(old(fds), -1)
    {
      ghost var was := fds;
      var slot := GetFd(memory);
      FirstMissingIff(was, -1);
      if slot.None? { return -1; }
      fds := fds[slot.value := fd];
      assert fds == Opened(old(Now()), file, memory, fd, sent).fds;
      if fd == -1 { return -1; }
      os := os[fd := file];
      FreshIsFirst(old(Now()), fds, fd, slot.value);
      i := GetIdx(fds[slot.value]);
      if !sent {
        CloseUndoesOpen(old(os), fd, file);
        os := os - {fd};
        ended := true;
        return -1;
      }
    }

    method CmdClose(text: string) returns (ok: bool)
      requires Valid(Now())
      modifies this
      ensures Now() == Step(old(Now()), Close(text))
      ensures ok <==> ChkIdx(old(Now()), text) != -1
    {
      var idx := ChkIdx(Now(), text);
      if idx == -1 { return false; }
      os := os - {fds[idx]};
      fds := fds[idx := -1];
      ok := true;
    }
  }

  lemma {:induction false} FirstIs(fds: seq<int>, v: int, c: nat)
    requires c < |fds| && fds[c] == v && v !in fds[..c]
    ensures FirstAt(fds, v) == c
  {
  }

  lemma {:induction false} FirstMissing(fds: seq<int>, v: int)
    requires v !in fds
    ensures FirstAt(fds, v) == |fds|
  {
  }

  lemma {:induction false} FirstMissingIff(fds: seq<int>, v: int)
    ensures FirstAt(fds, v) == |fds| <==> v !in fds
  {
  }

  lemma {:induction false} CloseUndoesOpen(os: map<int, string>, fd: int, file: string)
    requires fd !in os
    ensures os[fd := file] - {fd} == os
  {
  }

  /** A descriptor the kernel just handed out is in no other slot. */
  lemma {:induction false} FreshIsFirst(s: State, fds: seq<int>, fd: int, slot: nat)
    requires Valid(s) && !s.ended && fd !in s.os && fd != -1 && slot < |fds| && fds[slot] == fd
    requires slot <= |s.fds| && fds == if slot == |s.fds| then s.fds + [fd] else s.fds[slot := fd]
    ensures FirstAt(fds, fd) == slot
  {
  }

  // ----- Every command keeps the table a map from indices to files

  lemma {:induction false} StepKeeps(s: State, c: Command)
    requires Valid(s) && Possible(s, c)
    ensures Valid(Step(s, c))
  {
  }

  /** Opening adds one file at an index that had none. */
  lemma {:induction false} OpenAdds(s: State, file: string, memory: bool, fd: int, j: int)
    requires Valid(s) && Possible(s, Open(file, memory, fd, true)) && fd != -1
    requires -1 in s.fds || CanGrow(s, memory)
    ensures var h := FirstAt(s.fds, -1);
      && FileOf(s, h) == None
      && FileOf(Opened(s, file, memory, fd, true), j) == if j == h then Some(file) else FileOf(s, j)
  {
  }

  /** Closing takes one file away and leaves all others. */
  lemma {:induction false} CloseTakes(s: State, text: string, j: int)
    requires Valid(s)
    ensures FileOf(Step(s, Close(text)), j) == if j == ChkIdx(s, text) then None else FileOf(s, j)
  {
  }

  /** The text told to the client names its index. */
  lemma {:induction false} TextNamesIndex(i: nat)
    requires i <= INT_MAX
    ensures Named(Print(i)) == i
  {
    AtoiUndoesPrint(i);
    PrintShort(i, 10);
  }

  // ----- Runs

  predicate Runs(s: State, run: seq<Command>)
    decreases |run|
  {
    run == [] || (Possible(s, run[0]) && Runs(Step(s, run[0]), run[1..]))
  }

  function Exec(s: State, run: seq<Command>): State
    decreases |run|
  {
    if run == [] then s else Exec(Step(s, run[0]), run[1..])
  }

  lemma {:induction false} RunKeeps(s: State, run: seq<Command>)
    requires Valid(s) && Runs(s, run)
    ensures Valid(Exec(s, run))
    decreases |run|
  {
    if run != [] {
      StepKeeps(s, run[0]);
      RunKeeps(Step(s, run[0]), run[1..]);
    }
  }

  /** No command of the run names index `i` to be closed. */
  predicate Leaves(run: seq<Command>, i: int)
    decreases |run|
  {
    run == [] || ((run[0].Close? ==> Named(run[0].text) != i) && Leaves(run[1..], i))
  }

  lemma {:induction false} OneKeeps(s: State, c: Command, i: int)
    requires Valid(s) && Possible(s, c) && FileOf(s, i).Some?
    requires c.Close? ==> Named(c.text) != i
    ensures FileOf(Step(s, c), i) == FileOf(s, i)
  {
  }

  lemma {:induction false} IndexKeepsFile(s: State, run: seq<Command>, i: int)
    requires Valid(s) && Runs(s, run) && FileOf(s, i).Some? && Leaves(run, i)
    ensures FileOf(Exec(s, run), i) == FileOf(s, i)
    decreases |run|
  {
    if run != [] {
      StepKeeps(s, run[0]);
      OneKeeps(s, run[0], i);
      IndexKeepsFile(Step(s, run[0]), run[1..], i);
    }
  }

  /** From an empty table, through any commands before and after: an open that succeeds
      gives an index that had no file, its text names that index, and it finds the file
      just opened until a command closes it, also if a later reply is lost. */
  lemma {:induction false} IndexFindsItsFile(os: map<int, string>, before: seq<Command>, c: Command,
                                             after: seq<Command>)
    requires -1 !in os && Runs(State([], os, false), before) && c.Open? && c.fd != -1 && c.sent
    requires var s := Exec(State([], os, false), before);
      && Possible(s, c) && (-1 in s.fds || CanGrow(s, c.memory)) && Runs(Step(s, c), after)
      && Leaves(after, FirstAt(s.fds, -1))
    ensures var s := Exec(State([], os, false), before); var i := FirstAt(s.fds, -1); var t := Exec(Step(s, c), after);
      && FileOf(s, i) == None && Valid(t)
      && FileOf(t, i) == Some(c.file) && ChkIdx(t, Print(i)) == i
  {
    var s := Exec(State([], os, false), before);
    var i := FirstAt(s.fds, -1);
    RunKeeps(State([], os, false), before);
    StepKeeps(s, c);
    OpenAdds(s, c.file, c.memory, c.fd, i);
    IndexKeepsFile(Step(s, c), after, i);
    RunKeeps(Step(s, c), after);
    TextNamesIndex(i);
  }

  /** The table grows, by one slot, only when it has no hole. */
  lemma {:induction false} GrowsOnlyWhenFull(s: State, c: Command)
    ensures |s.fds| <= |Step(s, c).fds| <= |s.fds| + 1
    ensures |Step(s, c).fds| > |s.fds| ==> -1 !in s.fds
  {
  }
}
