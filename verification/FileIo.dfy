/** `writechunk`: write a whole buffer through short and interrupted `write` calls. */
module FileIo {
  import opened Common

  const EINTR := -2
  const FAULT := -1
  const INT_MAX := 0x7FFF_FFFF

  /** The results of the `write` calls one `writechunk` makes for `left` bytes: any
      number of interruptions and short counts, up to a fault or the last piece. */
  predicate Schedule(left: nat, outcomes: seq<int>)
    decreases |outcomes|
  {
    && outcomes != []
    && var k, rest := outcomes[0], outcomes[1..];
       if k == EINTR then Schedule(left, rest)
       else if k == FAULT || k == left then rest == []
       else 1 <= k < left && Schedule(left - k, rest)
  }

  /** How many bytes a schedule puts on disk. */
  function Landed(outcomes: seq<int>): int {
    if outcomes == [] then 0
    else (if outcomes[0] > 0 then outcomes[0] else 0) + Landed(outcomes[1..])
  }

  function Last(outcomes: seq<int>): int
    requires outcomes != []
  {
    outcomes[|outcomes| - 1]
  }

  /** A 64-bit count assigned to an `int`. */
  function Int32(k: int): int {
    (k + 0x8000_0000) % 0x1_0000_0000 - 0x8000_0000
  }

  class File {
    var content: seq<Byte>

    /** Writes at the end of the file. The result is the count of the last `write` only. */
    method WriteChunk(buf: seq<Byte>, outcomes: seq<int>) returns (wb: int)
      requires Schedule(|buf|, outcomes)
      modifies this
      ensures 0 <= Landed(outcomes) <= |buf|
      ensures content == old(content) + buf[..Landed(outcomes)]
      ensures wb == Last(outcomes)
      ensures wb == FAULT || Landed(outcomes) == |buf|
    {
      var written, i := 0, 0;
      wb := EINTR;
      while i < |outcomes|
        invariant 0 <= i <= |outcomes| && 0 <= written <= |buf|
        invariant content == old(content) + buf[..written]
        invariant i > 0 ==> wb == outcomes[i - 1]
        invariant i == 0 ==> wb == EINTR
        invariant written + Landed(outcomes[i..]) == Landed(outcomes)
        invariant if i < |outcomes| then Schedule(|buf| - written, outcomes[i..])
                  else wb == FAULT || written == |buf|
      {
        assert outcomes[i..][1..] == outcomes[i + 1..];
        wb := outcomes[i];
        if wb > 0 {
          content := content + buf[written..written + wb];
          written := written + wb;
        }
        i := i + 1;
      }
    }
  }

  lemma {:induction false} ScheduleFacts(left: nat, outcomes: seq<int>)
    requires Schedule(left, outcomes)
    ensures 0 <= Landed(outcomes) <= left
    ensures Last(outcomes) == FAULT || 0 <= Last(outcomes) <= left
    ensures Last(outcomes) != FAULT ==> Landed(outcomes) == left
    ensures left > 0 && Last(outcomes) == left ==> forall i :: 0 <= i < |outcomes| - 1 ==> outcomes[i] == EINTR
    decreases |outcomes|
  {
    var k, rest := outcomes[0], outcomes[1..];
    if rest != [] {
      ScheduleFacts(if k == EINTR then left else left - k, rest);
      assert Last(rest) == Last(outcomes);
      if Last(outcomes) == left > 0 {
        assert k == EINTR;
        forall i | 0 <= i < |outcomes| - 1 ensures outcomes[i] == EINTR {
          if i > 0 { assert outcomes[i] == rest[i - 1]; }
        }
      }
    }
  }

  lemma {:induction false} OnePiece(left: nat, outcomes: seq<int>)
    requires Schedule(left, outcomes) && left > 0
    requires forall i :: 0 <= i < |outcomes| - 1 ==> outcomes[i] == EINTR
    ensures Last(outcomes) == FAULT || Last(outcomes) == left
    decreases |outcomes|
  {
    if |outcomes| > 1 {
      assert outcomes[0] == EINTR;
      forall i | 0 <= i < |outcomes[1..]| - 1 ensures outcomes[1..][i] == EINTR {
        assert outcomes[1..][i] == outcomes[i + 1];
      }
      OnePiece(left, outcomes[1..]);
    }
  }

  /** The caller's test `wb != len`, with `wb` an `int`, passes a chunk if and only if one
      uninterrupted `write` took all of it and its length fits an `int`. A chunk that a
      short write split is refused although every byte of it is on disk. */
  lemma {:induction false} ChunkAcceptedIff(len: nat, outcomes: seq<int>)
    requires Schedule(len, outcomes) && len > 0
    ensures Int32(Last(outcomes)) == len <==>
            && len <= INT_MAX
            && Last(outcomes) != FAULT
            && (forall i :: 0 <= i < |outcomes| - 1 ==> outcomes[i] == EINTR)
    ensures Last(outcomes) != FAULT ==> Landed(outcomes) == len
  {
    ScheduleFacts(len, outcomes);
    if forall i :: 0 <= i < |outcomes| - 1 ==> outcomes[i] == EINTR {
      OnePiece(len, outcomes);
    }
  }

  /** One `write`, after any number of interruptions (-2) and without a fault (-1), takes
      the whole chunk, whose length fits an `int`. */
  predicate InOnePiece(len: nat, outcomes: seq<int>) {
    && len <= 0x7FFF_FFFF && outcomes != [] && outcomes[|outcomes| - 1] != -1
    && forall i :: 0 <= i < |outcomes| - 1 ==> outcomes[i] == -2
  }

  /** One short write of a two-byte chunk: all of it on disk, yet refused. */
  lemma SplitChunkRefused()
    ensures Schedule(2, [1, 1]) && Landed([1, 1]) == 2 && Int32(Last([1, 1])) != 2
  {
  }
}
