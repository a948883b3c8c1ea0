/** What the two ends of the GETCAN/PUTCAN stream say to each other, and why. */
module HpCanTranscript {
  import opened Common
  import opened FileIo
  import opened HpStream
  import opened HpCancel
  import opened HpTranscript

  lemma {:induction false} PlayPrefix(cfg: Setup, acts: seq<Move>, i: nat)
    requires i <= |acts| && Play(cfg, acts).Some?
    ensures Play(cfg, acts[..i]).Some?
    decreases |acts|
  {
    if i == |acts| {
      assert acts[..i] == acts;
    } else {
      var front := acts[..|acts| - 1];
      PlayPrefix(cfg, front, i);
      assert front[..i] == acts[..i];
    }
  }

  /** The words of a stream of any peer. */
  lemma {:induction false} AnyCanWord(rx: Put, v: int)
    requires rx.pc.PHdr?
    ensures var t := PutTake(rx, Word(v));
      && (t.pc.PDone? <==> v == 0 || v == -1 || v == -2) && (t.del <==> rx.del || v == -2)
      && (v > 0 ==> t.pc == PData(v))
  {
  }

  // ----- When the sender gives up

  predicate FailingGet(w: World, a: Move) {
    a.GetStep? && a.k < 0 && w.tx.pc.GRead?
  }

  /** Some `read` of the run failed. */
  predicate SomeGetFails(cfg: Setup, acts: seq<Move>)
    requires Play(cfg, acts).Some?
  {
    acts != [] &&
    var n := |acts| - 1;
    SomeGetFails(cfg, acts[..n]) || FailingGet(Play(cfg, acts[..n]).value, acts[n])
  }

  lemma {:induction false} GetErrorStep(cfg: Setup, w: World, a: Move)
    requires Possible(cfg, w, a)
    ensures Do(cfg, w, a).tx.sErr <==> w.tx.sErr || FailingGet(w, a)
  {
  }

  /** The sender raises CANCEL if and only if a `read` failed. */
  lemma {:induction false} GetErrorIff(cfg: Setup, acts: seq<Move>)
    requires Play(cfg, acts).Some?
    ensures Play(cfg, acts).value.tx.sErr <==> SomeGetFails(cfg, acts)
    decreases |acts|
  {
    if acts != [] {
      var n := |acts| - 1;
      GetErrorIff(cfg, acts[..n]);
      GetErrorStep(cfg, Play(cfg, acts[..n]).value, acts[n]);
    }
  }

  // ----- When the receiver gives up

  /** A write step of a receiver that has not given up makes it give up if and only if the
      chunk did not go in one piece. */
  lemma {:induction false} GivesUpIff(cfg: Setup, rx: Put, outcomes: seq<int>)
    requires rx.pc.PWrite? && !rx.end && |rx.pc.c| > 0 && Schedule(|rx.pc.c|, outcomes)
    ensures PutWrite(cfg, rx, outcomes).end <==> !InOnePiece(|rx.pc.c|, outcomes)
  {
    ChunkAcceptedIff(|rx.pc.c|, outcomes);
  }

  predicate Refusing(w: World, a: Move) {
    a.PutStep? && w.rx.pc.PWrite? && !w.rx.end && !InOnePiece(|w.rx.pc.c|, a.outcomes)
  }

  /** Some chunk of the run was written, and not in one piece. */
  predicate SomeRefused(cfg: Setup, acts: seq<Move>)
    requires Play(cfg, acts).Some?
  {
    acts != [] &&
    var n := |acts| - 1;
    SomeRefused(cfg, acts[..n]) || Refusing(Play(cfg, acts[..n]).value, acts[n])
  }

  lemma {:induction false} EndOfStep(cfg: Setup, w: World, a: Move)
    requires PutInv(cfg, w.rx) && Possible(cfg, w, a)
    ensures Do(cfg, w, a).rx.end <==> w.rx.end || Refusing(w, a)
  {
    if a.PutStep? && w.rx.pc.PWrite? && !w.rx.end { GivesUpIff(cfg, w.rx, a.outcomes); }
  }

  /** The receiver has given up if and only if some chunk since the start was split by a short
      write, met a fault or was too long for an `int`. */
  lemma {:induction false} GivenUpIff(cfg: Setup, acts: seq<Move>)
    requires Play(cfg, acts).Some?
    ensures Play(cfg, acts).value.rx.end <==> SomeRefused(cfg, acts)
    decreases |acts|
  {
    if acts != [] {
      var n := |acts| - 1;
      GivenUpIff(cfg, acts[..n]);
      PlayInv(cfg, acts[..n]);
      EndOfStep(cfg, Play(cfg, acts[..n]).value, acts[n]);
    }
  }

  /** A code in flight is CANCEL (-2) if and only if some chunk since the start did not go in
      one piece; otherwise it is CONT (-3). */
  lemma {:induction false} CodeInFlight(cfg: Setup, acts: seq<Move>)
    requires Play(cfg, acts).Some?
    ensures var w := Play(cfg, acts).value;
      w.rev != [] ==> w.rev == [Word(if SomeRefused(cfg, acts) then -2 else -3)]
  {
    PlayInv(cfg, acts);
    GivenUpIff(cfg, acts);
  }

  // ----- What the receiver says

  /** Everything the receiver has put on its channel. */
  function Codes(cfg: Setup, acts: seq<Move>): seq<Msg>
    requires Play(cfg, acts).Some?
  {
    if acts == [] then []
    else
      var n := |acts| - 1;
      var v, w := Play(cfg, acts[..n]).value, Play(cfg, acts).value;
      Codes(cfg, acts[..n]) + if acts[n].PutStep? && |v.rev| <= |w.rev| then w.rev[|v.rev|..] else []
  }

  function Conts(n: nat): seq<Msg> {
    if n == 0 then [] else Conts(n - 1) + [Word(-3)]
  }

  /** CONT as often as a round was complete, and CANCEL last if the receiver gave up. */
  function CodesBy(rx: Put): seq<Msg> {
    if rx.pc.PDone? && rx.phase == Header && rx.codes > 0 then Conts(rx.codes - 1) + [Word(-2)] else Conts(rx.codes)
  }

  lemma {:induction false} CodeStep(cfg: Setup, w: World, a: Move, before: seq<Msg>)
    requires PutInv(cfg, w.rx) && Possible(cfg, w, a) && before == CodesBy(w.rx)
    requires PutInv(cfg, Do(cfg, w, a).rx)
    ensures var t := Do(cfg, w, a);
      before + (if a.PutStep? && |w.rev| <= |t.rev| then t.rev[|w.rev|..] else []) == CodesBy(t.rx)
  {
    var t := Do(cfg, w, a);
    if a.PutStep? && w.rx.pc.PSend? {
      assert t.rev[|w.rev|..] == [PutCode(w.rx)];
    } else {
      assert a.PutStep? ==> t.rev[|w.rev|..] == [];
      assert before + [] == before;
    }
  }

  /** In every run the receiver has said CONT for every complete round, and CANCEL for the
      last one exactly if it has stopped for a chunk that did not go in one piece. */
  lemma {:induction false} ReceiverCodes(cfg: Setup, acts: seq<Move>)
    requires Play(cfg, acts).Some?
    ensures Codes(cfg, acts) == CodesBy(Play(cfg, acts).value.rx)
    decreases |acts|
  {
    if acts != [] {
      var n := |acts| - 1;
      PlayPrefix(cfg, acts, n);
      ReceiverCodes(cfg, acts[..n]);
      PlayInv(cfg, acts[..n]);
      PlayInv(cfg, acts);
      CodeStep(cfg, Play(cfg, acts[..n]).value, acts[n], Codes(cfg, acts[..n]));
    }
  }

  // ----- What the sender says

  function Sends(cfg: Setup, acts: seq<Move>): seq<Msg>
    requires Play(cfg, acts).Some?
  {
    if acts == [] then []
    else
      var n := |acts| - 1;
      var v, w := Play(cfg, acts[..n]).value, Play(cfg, acts).value;
      Sends(cfg, acts[..n]) + if acts[n].GetStep? && |v.fwd| <= |w.fwd| then w.fwd[|v.fwd|..] else []
  }

  /** What stands behind the last complete chunk. */
  function Behind(tx: Get): seq<Msg> {
    if tx.pc.GData? then [Word(|tx.pc.c|)] else Closing(tx.closed, tx.sErr)
  }

  predicate Fits(cfg: Setup, pc: GetPc) {
    pc.GHdr? || pc.GData? ==> 0 < |pc.c| <= cfg.io.bufsz
  }

  ghost predicate SendsOk(cfg: Setup, tx: Get, said: seq<Msg>, chunks: seq<seq<Byte>>) {
    && GetInv(cfg, tx) && Fits(cfg, tx.pc)
    && Sized(cfg.io, chunks) && Concat(chunks) == cfg.io.file[..GetSent(tx)]
    && said == Framed(chunks) + Behind(tx)
  }

  lemma {:induction false} SendsChunk(cfg: Setup, tx: Get, said: seq<Msg>, chunks: seq<seq<Byte>>)
    requires SendsOk(cfg, tx, said, chunks) && tx.pc.GData?
    ensures SendsOk(cfg, GetNext(cfg, tx, 0), said + GetOut(tx.pc), chunks + [tx.pc.c])
  {
    var c := tx.pc.c;
    GetKeeps(cfg, tx, 0);
    FramedSnoc(chunks, c);
    assert Framed(chunks + [c]) + [] == Framed(chunks + [c]);
    assert cfg.io.file[..GetSent(tx)] + c == cfg.io.file[..tx.pos];
  }

  lemma {:induction false} SendsOther(cfg: Setup, tx: Get, k: int, said: seq<Msg>, chunks: seq<seq<Byte>>)
    requires SendsOk(cfg, tx, said, chunks) && !tx.pc.GData? && !tx.pc.GDone? && !tx.pc.GWait?
    requires tx.pc.GRead? ==> ReadOutcome(cfg.io, tx.pos, k)
    ensures SendsOk(cfg, GetNext(cfg, tx, k), said + GetOut(tx.pc), chunks)
  {
    GetKeeps(cfg, tx, k);
    Assoc(Framed(chunks), Behind(tx), GetOut(tx.pc));
    BehindGrows(cfg, tx, k);
  }

  lemma {:induction false} BehindGrows(cfg: Setup, tx: Get, k: int)
    requires GetInv(cfg, tx) && Fits(cfg, tx.pc) && !tx.pc.GData? && !tx.pc.GDone? && !tx.pc.GWait?
    requires tx.pc.GRead? ==> ReadOutcome(cfg.io, tx.pos, k)
    ensures var tx' := GetNext(cfg, tx, k);
      Behind(tx) + GetOut(tx.pc) == Behind(tx') && Fits(cfg, tx'.pc) && GetSent(tx') == GetSent(tx)
  {
  }

  lemma {:induction false} SendsStep(cfg: Setup, w: World, a: Move, said: seq<Msg>, chunks: seq<seq<Byte>>)
    returns (more: seq<seq<Byte>>)
    requires Possible(cfg, w, a) && SendsOk(cfg, w.tx, said, chunks)
    ensures var t := Do(cfg, w, a);
      SendsOk(cfg, t.tx, said + (if a.GetStep? && |w.fwd| <= |t.fwd| then t.fwd[|w.fwd|..] else []), more)
  {
    more := chunks;
    var t := Do(cfg, w, a);
    if a.GetStep? && !w.tx.pc.GWait? {
      assert t.fwd[|w.fwd|..] == GetOut(w.tx.pc);
      if w.tx.pc.GData? {
        more := chunks + [w.tx.pc.c];
        SendsChunk(cfg, w.tx, said, chunks);
      } else {
        SendsOther(cfg, w.tx, a.k, said, chunks);
      }
    } else {
      assert a.GetStep? ==> t.fwd[|w.fwd|..] == [];
      assert said + [] == said;
      if a.GetStep? { GetCodeKeeps(cfg, w.tx, w.rev[0]); }
    }
  }

  lemma {:induction false} GetTranscript(cfg: Setup, acts: seq<Move>) returns (chunks: seq<seq<Byte>>)
    requires Play(cfg, acts).Some?
    ensures SendsOk(cfg, Play(cfg, acts).value.tx, Sends(cfg, acts), chunks)
    decreases |acts|
  {
    if acts == [] {
      chunks := [];
      assert cfg.io.file[..0] == [];
    } else {
      var n := |acts| - 1;
      PlayPrefix(cfg, acts, n);
      chunks := GetTranscript(cfg, acts[..n]);
      chunks := SendsStep(cfg, Play(cfg, acts[..n]).value, acts[n], Sends(cfg, acts[..n]), chunks);
    }
  }

  /** When both ends have returned, the sender has said complete chunks of a beginning of the
      file, none longer than its buffer, and then CANCEL (-2), END (0) or, if the receiver's
      last code was CANCEL, nothing; END only at the end of the file or for an empty buffer.
      The receiver has said CONT (-3) for each round, or CANCEL (-2) for the last: exactly
      if it gave up and a round was complete before the sender was done. */
  lemma {:induction false} WholeExchange(cfg: Setup, acts: seq<Move>) returns (chunks: seq<seq<Byte>>, close: seq<Msg>)
    requires Play(cfg, acts).Some? && Over(Play(cfg, acts).value)
    ensures Sends(cfg, acts) == Framed(chunks) + close
    ensures Sized(cfg.io, chunks) && Concat(chunks) <= cfg.io.file
    ensures close == [Word(-2)] || close == [Word(0)] || close == []
    ensures close == [Word(-2)] <==> SomeGetFails(cfg, acts)
    ensures close == [Word(0)] ==> cfg.io.bufsz == 0 || Concat(chunks) == cfg.io.file
    ensures var n := Play(cfg, acts).value.rx.codes;
      Codes(cfg, acts) == if close == [] && n > 0 then Conts(n - 1) + [Word(-2)] else Conts(n)
    ensures close == [] ==> SomeRefused(cfg, acts) && Play(cfg, acts).value.rx.codes > 0
  {
    var w := Play(cfg, acts).value;
    chunks := GetTranscript(cfg, acts);
    close := Closing(w.tx.closed, w.tx.sErr);
    RunOver(cfg, acts);
    CloseFacts(cfg, w.tx, chunks, Sends(cfg, acts));
    ReceiverCodes(cfg, acts);
    GivenUpIff(cfg, acts);
    GetErrorIff(cfg, acts);
  }

  lemma {:induction false} CloseFacts(cfg: Setup, tx: Get, chunks: seq<seq<Byte>>, said: seq<Msg>)
    requires SendsOk(cfg, tx, said, chunks) && tx.pc.GDone?
    ensures var close := Closing(tx.closed, tx.sErr);
      && said == Framed(chunks) + close && Concat(chunks) <= cfg.io.file
      && (close == [] <==> !tx.closed) && (close == [Word(-2)] <==> tx.sErr)
      && (close == [Word(0)] ==> cfg.io.bufsz == 0 || Concat(chunks) == cfg.io.file)
  {
    assert cfg.io.file[..|cfg.io.file|] == cfg.io.file;
  }

  /** Only a complete round lets the receiver stop before the sender does. */
  lemma {:induction false} RunOver(cfg: Setup, acts: seq<Move>)
    requires Play(cfg, acts).Some? && Over(Play(cfg, acts).value)
    ensures var w := Play(cfg, acts).value;
      (!w.tx.closed <==> w.rx.phase == Header) && (w.rx.phase == Header ==> w.rx.end && w.rx.codes > 0)
  {
    PlayInv(cfg, acts);
    var w := Play(cfg, acts).value;
    OverIsEmpty(cfg, w);
    if w.rx.phase == Header { StoppedByCode(cfg, acts); }
  }

  lemma {:induction false} StoppedByCode(cfg: Setup, acts: seq<Move>)
    requires Play(cfg, acts).Some?
    ensures var rx := Play(cfg, acts).value.rx; rx.pc.PDone? && rx.phase == Header ==> rx.codes > 0
    decreases |acts|
  {
    if acts != [] {
      var n := |acts| - 1;
      PlayPrefix(cfg, acts, n);
      StoppedByCode(cfg, acts[..n]);
      PlayInv(cfg, acts[..n]);
      StopStep(cfg, Play(cfg, acts[..n]).value, acts[n]);
    }
  }

  lemma {:induction false} StopStep(cfg: Setup, w: World, a: Move)
    requires PutInv(cfg, w.rx) && Possible(cfg, w, a)
    requires w.rx.pc.PDone? && w.rx.phase == Header ==> w.rx.codes > 0
    ensures var rx := Do(cfg, w, a).rx; rx.pc.PDone? && rx.phase == Header ==> rx.codes > 0
  {
  }
}
