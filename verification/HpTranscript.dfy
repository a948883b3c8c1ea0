/** What the two ends of the GET/PUT stream say to each other, word by word, and that a
    CANCEL stops the sender. */
module HpTranscript {
  import opened Common
  import opened FileIo
  import opened HpStream

  lemma {:induction false} ExecPrefix(cfg: Config, acts: seq<Action>, i: nat)
    requires i <= |acts| && Exec(cfg, acts).Some?
    ensures Exec(cfg, acts[..i]).Some?
    decreases |acts|
  {
    if i == |acts| {
      assert acts[..i] == acts;
    } else {
      var front := acts[..|acts| - 1];
      ExecPrefix(cfg, front, i);
      assert front[..i] == acts[..i];
    }
  }

  /** Everything the sender has put on its channel, and everything the receiver has. */
  function Said(cfg: Config, acts: seq<Action>): seq<Msg>
    requires Exec(cfg, acts).Some?
  {
    if acts == [] then []
    else
      var n := |acts| - 1;
      var s, t := Exec(cfg, acts[..n]).value, Exec(cfg, acts).value;
      Said(cfg, acts[..n]) + if acts[n].SenderStep? && |s.fwd| <= |t.fwd| then t.fwd[|s.fwd|..] else []
  }

  function Answered(cfg: Config, acts: seq<Action>): seq<Msg>
    requires Exec(cfg, acts).Some?
  {
    if acts == [] then []
    else
      var n := |acts| - 1;
      var s, t := Exec(cfg, acts[..n]).value, Exec(cfg, acts).value;
      Answered(cfg, acts[..n]) + if acts[n].ReceiverStep? && |s.rev| <= |t.rev| then t.rev[|s.rev|..] else []
  }

  lemma {:induction false} SaidStep(cfg: Config, acts: seq<Action>, s: State)
    requires acts != [] && Exec(cfg, acts).Some? && Exec(cfg, acts[..|acts| - 1]) == Some(s)
    ensures Said(cfg, acts) ==
      Said(cfg, acts[..|acts| - 1]) + if acts[|acts| - 1].SenderStep? then TxOut(s.tx.pc) else []
  {
    var out := TxOut(s.tx.pc);
    assert (s.fwd + out)[|s.fwd|..] == out;
  }

  // ----- What the sender says

  /** Each chunk as a header and a block. */
  function Framed(chunks: seq<seq<Byte>>): seq<Msg> {
    if chunks == [] then []
    else
      var n := |chunks| - 1;
      Framed(chunks[..n]) + [Word(|chunks[n]|), Bytes(chunks[n])]
  }

  function Concat(chunks: seq<seq<Byte>>): seq<Byte> {
    if chunks == [] then [] else Concat(chunks[..|chunks| - 1]) + chunks[|chunks| - 1]
  }

  predicate Sized(cfg: Config, chunks: seq<seq<Byte>>) {
    forall i :: 0 <= i < |chunks| ==> 0 < |chunks[i]| <= cfg.bufsz
  }

  /** END, CANCEL after a read error, or nothing. */
  function Closing(closed: bool, sErr: bool): seq<Msg> {
    if !closed then [] else if sErr then [Word(-2)] else [Word(0)]
  }

  /** What stands behind the last complete chunk. */
  function Open(tx: Tx): seq<Msg> {
    match tx.pc
    case SendData(c) => [Word(|c|)]
    case SDone => Closing(tx.closed, tx.sErr) + [Word(-127)]
    case _ => Closing(tx.closed, tx.sErr)
  }

  /** The chunk under way is no longer than the buffer. */
  predicate ChunkFits(cfg: Config, pc: Sender) {
    pc.SendHdr? || pc.SendData? ==> 0 < |pc.c| <= cfg.bufsz
  }

  lemma {:induction false} FramedSnoc(chunks: seq<seq<Byte>>, c: seq<Byte>)
    ensures Framed(chunks + [c]) == Framed(chunks) + [Word(|c|)] + [Bytes(c)]
    ensures Concat(chunks + [c]) == Concat(chunks) + c
  {
    assert (chunks + [c])[..|chunks|] == chunks;
    assert [Word(|c|), Bytes(c)] == [Word(|c|)] + [Bytes(c)];
  }

  /** The sender has said complete chunks of the file, in order and none longer than the
      buffer, and what it is in the middle of. */
  ghost predicate SaidOk(cfg: Config, tx: Tx, said: seq<Msg>, chunks: seq<seq<Byte>>) {
    && TxInv(cfg, tx) && ChunkFits(cfg, tx.pc)
    && Sized(cfg, chunks) && Concat(chunks) == cfg.file[..Sent(tx)]
    && said == Framed(chunks) + Open(tx)
  }

  lemma {:induction false} SaysChunk(cfg: Config, tx: Tx, cont: bool, said: seq<Msg>, chunks: seq<seq<Byte>>)
    requires SaidOk(cfg, tx, said, chunks) && tx.pc.SendData?
    ensures SaidOk(cfg, TxNext(cfg, tx, cont, 0), said + TxOut(tx.pc), chunks + [tx.pc.c])
  {
    var c := tx.pc.c;
    FramedSnoc(chunks, c);
    assert Framed(chunks + [c]) + [] == Framed(chunks + [c]);
    assert cfg.file[..Sent(tx)] + c == cfg.file[..tx.pos];
  }

  lemma {:induction false} SaysOther(cfg: Config, tx: Tx, cont: bool, k: int, said: seq<Msg>, chunks: seq<seq<Byte>>)
    requires SaidOk(cfg, tx, said, chunks) && !tx.pc.SendData? && tx.pc != SDone
    requires tx.pc.Read? ==> ReadOutcome(cfg, tx.pos, k)
    ensures SaidOk(cfg, TxNext(cfg, tx, cont, k), said + TxOut(tx.pc), chunks)
  {
    TxKeeps(cfg, tx, cont, k);
    Assoc(Framed(chunks), Open(tx), TxOut(tx.pc));
    OpenGrows(cfg, tx, cont, k);
  }

  lemma {:induction false} OpenGrows(cfg: Config, tx: Tx, cont: bool, k: int)
    requires TxInv(cfg, tx) && ChunkFits(cfg, tx.pc) && !tx.pc.SendData? && tx.pc != SDone
    requires tx.pc.Read? ==> ReadOutcome(cfg, tx.pos, k)
    ensures var tx' := TxNext(cfg, tx, cont, k);
      Open(tx) + TxOut(tx.pc) == Open(tx') && ChunkFits(cfg, tx'.pc) && Sent(tx') == Sent(tx)
  {
  }

  lemma {:induction false} TxOfStep(cfg: Config, s: State, a: Action)
    requires Enabled(cfg, s, a)
    ensures Apply(cfg, s, a).tx == if a.SenderStep? then TxNext(cfg, s.tx, s.cont, a.k) else s.tx
  {
  }

  /** So it is at every moment of every run. */
  lemma {:induction false} SenderTranscript(cfg: Config, acts: seq<Action>) returns (chunks: seq<seq<Byte>>)
    requires Exec(cfg, acts).Some?
    ensures SaidOk(cfg, Exec(cfg, acts).value.tx, Said(cfg, acts), chunks)
    decreases |acts|
  {
    if acts == [] {
      chunks := [];
      assert cfg.file[..0] == [];
    } else {
      var n := |acts| - 1;
      var s := Exec(cfg, acts[..n]).value;
      chunks := SenderTranscript(cfg, acts[..n]);
      SaidStep(cfg, acts, s);
      TxOfStep(cfg, s, acts[n]);
      chunks := SenderSays(cfg, s, acts[n], Said(cfg, acts[..n]), chunks);
    }
  }

  lemma {:induction false} SenderSays(cfg: Config, s: State, a: Action, said: seq<Msg>, chunks: seq<seq<Byte>>)
    returns (more: seq<seq<Byte>>)
    requires Enabled(cfg, s, a) && SaidOk(cfg, s.tx, said, chunks)
    ensures SaidOk(cfg, if a.SenderStep? then TxNext(cfg, s.tx, s.cont, a.k) else s.tx,
                   said + (if a.SenderStep? then TxOut(s.tx.pc) else []), more)
  {
    more := chunks;
    if a.SenderStep? {
      if s.tx.pc.SendData? {
        more := chunks + [s.tx.pc.c];
        SaysChunk(cfg, s.tx, s.cont, said, chunks);
      } else {
        SaysOther(cfg, s.tx, s.cont, a.k, said, chunks);
      }
    } else {
      assert said + [] == said;
    }
  }

  // ----- A CANCEL stops the sender

  /** What a sender that has been told to stop, and is not about to read, still says. */
  function Owed(pc: Sender): seq<Msg> {
    match pc
    case SendHdr(c) => [Word(|c|), Bytes(c), Word(-127)]
    case SendData(c) => [Bytes(c), Word(-127)]
    case SendEnd => [Word(0), Word(-127)]
    case SendCancel => [Word(-2), Word(-127)]
    case SDone => []
    case _ => [Word(-127)]
  }

  /** What it still says after a `read` that returns `k`. */
  function OwedAfter(file: seq<Byte>, pos: nat, k: int): seq<Msg>
    requires pos <= pos + k <= |file| || k < 0
  {
    if k > 0 then [Word(k), Bytes(file[pos..pos + k]), Word(-127)]
    else if k == 0 then [Word(0), Word(-127)]
    else [Word(-2), Word(-127)]
  }

  /** From `tx` on a stopped sender has said `e` and is at `tx'`: it has read nothing more,
      except for the one `read` it may have been about to make. */
  ghost predicate Winding(cfg: Config, tx: Tx, tx': Tx, e: seq<Msg>) {
    if tx.pc.Read? then
      || (tx' == tx && e == [])
      || exists k :: WoundBy(cfg, tx, tx', e, k)
    else
      !tx'.pc.Read? && tx'.pos == tx.pos && e + Owed(tx'.pc) == Owed(tx.pc)
  }

  ghost predicate WoundBy(cfg: Config, tx: Tx, tx': Tx, e: seq<Msg>, k: int) {
    && tx.pos <= |cfg.file| && ReadOutcome(cfg, tx.pos, k)
    && !tx'.pc.Read? && tx'.pos == tx.pos + (if k > 0 then k else 0)
    && e + Owed(tx'.pc) == OwedAfter(cfg.file, tx.pos, k)
  }

  lemma {:induction false} StoppedStep(cfg: Config, tx: Tx, k: int)
    requires !tx.pc.Read? && tx.pc != SDone
    ensures var tx' := TxNext(cfg, tx, false, k);
      !tx'.pc.Read? && tx'.pos == tx.pos && TxOut(tx.pc) + Owed(tx'.pc) == Owed(tx.pc)
  {
  }

  lemma {:induction false} StoppedRead(cfg: Config, tx: Tx, k: int)
    requires tx.pc.Read? && tx.pos <= |cfg.file| && ReadOutcome(cfg, tx.pos, k)
    ensures WoundBy(cfg, tx, TxNext(cfg, tx, false, k), [], k)
  {
  }

  lemma {:induction false} WindsOn(cfg: Config, tx: Tx, tx': Tx, e: seq<Msg>, k: int)
    requires Winding(cfg, tx, tx', e) && tx'.pc != SDone
    requires tx'.pc.Read? ==> tx'.pos <= |cfg.file| && ReadOutcome(cfg, tx'.pos, k)
    ensures Winding(cfg, tx, TxNext(cfg, tx', false, k), e + TxOut(tx'.pc))
  {
    if tx'.pc.Read? {
      StoppedRead(cfg, tx', k);
      assert e + TxOut(tx'.pc) == [];
      assert WoundBy(cfg, tx, TxNext(cfg, tx', false, k), e + TxOut(tx'.pc), k);
    } else {
      var next := TxNext(cfg, tx', false, k);
      StoppedStep(cfg, tx', k);
      Assoc(e, TxOut(tx'.pc), Owed(next.pc));
      if tx.pc.Read? {
        var j :| WoundBy(cfg, tx, tx', e, j);
        assert WoundBy(cfg, tx, next, e + TxOut(tx'.pc), j);
      }
    }
  }

  lemma {:induction false} StaysStopped(cfg: Config, s: State, a: Action)
    requires Enabled(cfg, s, a) && !s.cont
    ensures !Apply(cfg, s, a).cont
  {
  }

  /** One more step of a run that has been told to stop. */
  lemma {:induction false} WindsStep(cfg: Config, tx: Tx, s: State, a: Action, e: seq<Msg>)
    requires Enabled(cfg, s, a) && !s.cont && Winding(cfg, tx, s.tx, e)
    ensures !Apply(cfg, s, a).cont
    ensures Winding(cfg, tx, Apply(cfg, s, a).tx, e + if a.SenderStep? then TxOut(s.tx.pc) else [])
  {
    StaysStopped(cfg, s, a);
    TxOfStep(cfg, s, a);
    if a.SenderStep? {
      WindsOn(cfg, tx, s.tx, e, a.k);
    } else {
      assert e + [] == e;
    }
  }

  lemma {:induction false} WindsFrom(cfg: Config, tx: Tx)
    ensures Winding(cfg, tx, tx, [])
  {
    assert [] + Owed(tx.pc) == Owed(tx.pc);
  }

  /** The last step of a run. */
  lemma {:induction false} LastStep(cfg: Config, front: seq<Action>, a: Action, run: seq<Action>)
    requires run == front + [a] && Exec(cfg, run).Some?
    ensures Exec(cfg, front).Some?
    ensures var s := Exec(cfg, front).value;
      && Enabled(cfg, s, a) && Exec(cfg, run) == Some(Apply(cfg, s, a))
      && Said(cfg, run) == Said(cfg, front) + if a.SenderStep? then TxOut(s.tx.pc) else []
  {
    assert run[..|run| - 1] == front;
    ExecPrefix(cfg, run, |run| - 1);
    SaidStep(cfg, run, Exec(cfg, front).value);
  }

  /** Once the listening thread has seen a CANCEL (`cont` is false), in every continuation
      of the run the sender starts at most the one `read` it was about to make: beyond that
      it says only the rest of the chunk or code it was at, and FIN. */
  lemma {:induction false} CancelStopsSender(cfg: Config, acts: seq<Action>, more: seq<Action>) returns (e: seq<Msg>)
    requires Exec(cfg, acts + more).Some? && Exec(cfg, acts).Some? && !Exec(cfg, acts).value.cont
    ensures !Exec(cfg, acts + more).value.cont
    ensures Said(cfg, acts + more) == Said(cfg, acts) + e
    ensures Winding(cfg, Exec(cfg, acts).value.tx, Exec(cfg, acts + more).value.tx, e)
    decreases |more|
  {
    var tx := Exec(cfg, acts).value.tx;
    if more == [] {
      e := [];
      WindsFrom(cfg, tx);
      assert acts + more == acts && Said(cfg, acts) + [] == Said(cfg, acts);
    } else {
      var n := |more| - 1;
      var a := more[n];
      assert acts + more == acts + more[..n] + [a];
      LastStep(cfg, acts + more[..n], a, acts + more);
      e := CancelStopsSender(cfg, acts, more[..n]);
      var s := Exec(cfg, acts + more[..n]).value;
      var out := if a.SenderStep? then TxOut(s.tx.pc) else [];
      WindsStep(cfg, tx, s, a, e);
      Assoc(Said(cfg, acts), e, out);
      e := e + out;
    }
  }

  // ----- What the listening thread has heard

  /** One step: `heard` grows by what the listening thread takes, and `Answered` by what the
      receiver adds. */
  lemma {:induction false} HearStep(cfg: Config, s: State, a: Action, said: seq<Msg>, heard: seq<Msg>)
    returns (heard': seq<Msg>)
    requires Enabled(cfg, s, a) && said == heard + s.rev
    requires (s.cont <==> Word(-2) !in heard) && (s.listening <==> Word(-127) !in heard)
    ensures var t := Apply(cfg, s, a);
      && said + (if a.ReceiverStep? && |s.rev| <= |t.rev| then t.rev[|s.rev|..] else []) == heard' + t.rev
      && (t.cont <==> Word(-2) !in heard') && (t.listening <==> Word(-127) !in heard')
  {
    var t := Apply(cfg, s, a);
    heard' := heard;
    if a.ListenStep? {
      heard' := heard + [s.rev[0]];
      assert s.rev == [s.rev[0]] + s.rev[1..];
      Assoc(heard, [s.rev[0]], s.rev[1..]);
      assert said + [] == said;
    } else if a.ReceiverStep? {
      var added := t.rev[|s.rev|..];
      assert t.rev == s.rev + added;
      Assoc(heard, s.rev, added);
    } else {
      assert said + [] == said;
    }
  }

  /** At every moment of every run: what the receiver has said is what the listening thread
      has heard and what is still on its way; the sender has been told to stop if and only if
      a CANCEL was heard, and the thread is gone if and only if FIN was. */
  lemma {:induction false} ListenerHears(cfg: Config, acts: seq<Action>) returns (heard: seq<Msg>)
    requires Exec(cfg, acts).Some?
    ensures var s := Exec(cfg, acts).value;
      && Answered(cfg, acts) == heard + s.rev
      && (s.cont <==> Word(-2) !in heard)
      && (s.listening <==> Word(-127) !in heard)
    decreases |acts|
  {
    heard := [];
    if acts != [] {
      var n := |acts| - 1;
      ExecPrefix(cfg, acts, n);
      heard := ListenerHears(cfg, acts[..n]);
      heard := HearStep(cfg, Exec(cfg, acts[..n]).value, acts[n], Answered(cfg, acts[..n]), heard);
    }
  }

  /** The words of a stream of any peer: in its first loop the receiver leaves on END, STOP
      or CANCEL, and only CANCEL marks the file for deletion; after that it skips them and
      leaves on FIN. */
  lemma {:induction false} AnyWord(rx: Rx, v: int)
    ensures rx.pc.RHdr? ==> var t := Take(rx, Word(v));
      && (t.pc.RFin? <==> v == 0 || v == -1 || v == -2) && (t.del <==> rx.del || v == -2)
      && (v > 0 ==> t.pc == RData(v))
    ensures rx.pc.DHdr? ==> var t := Take(rx, Word(v));
      && (t.pc.RDone? <==> v == -127) && (t.pc.DHdr? <==> v == 0 || v == -1 || v == -2) && t.del == rx.del
      && (v > 0 ==> t.pc == DData(v))
  {
  }

  // ----- Why CANCEL is raised

  predicate FailingRead(s: State, a: Action) {
    a.SenderStep? && a.k < 0 && s.tx.pc.Read?
  }

  /** Some `read` of the run failed. */
  predicate SomeReadFails(cfg: Config, acts: seq<Action>)
    requires Exec(cfg, acts).Some?
  {
    acts != [] &&
    var n := |acts| - 1;
    SomeReadFails(cfg, acts[..n]) || FailingRead(Exec(cfg, acts[..n]).value, acts[n])
  }

  /** A `write` that fails or does not take a whole chunk, or a chunk that does not fit an
      `int`. */
  predicate BreakingWrite(s: State, a: Action) {
    && a.ReceiverStep? && s.rx.pc.RWrite?
    && (a.k == -1 || a.k < |s.rx.pc.c| || |s.rx.pc.c| > 0x7FFF_FFFF)
  }

  predicate SomeWriteBreaks(cfg: Config, acts: seq<Action>)
    requires Exec(cfg, acts).Some?
  {
    acts != [] &&
    var n := |acts| - 1;
    SomeWriteBreaks(cfg, acts[..n]) || BreakingWrite(Exec(cfg, acts[..n]).value, acts[n])
  }

  lemma {:induction false} ReadErrorStep(cfg: Config, s: State, a: Action)
    requires Enabled(cfg, s, a)
    ensures Apply(cfg, s, a).tx.sErr <==> s.tx.sErr || FailingRead(s, a)
  {
  }

  /** The sender raises CANCEL if and only if a `read` failed. */
  lemma {:induction false} SenderErrorIff(cfg: Config, acts: seq<Action>)
    requires Exec(cfg, acts).Some?
    ensures Exec(cfg, acts).value.tx.sErr <==> SomeReadFails(cfg, acts)
    decreases |acts|
  {
    if acts != [] {
      var n := |acts| - 1;
      SenderErrorIff(cfg, acts[..n]);
      ReadErrorStep(cfg, Exec(cfg, acts[..n]).value, acts[n]);
    }
  }

  /** What a step of the receiver does to `rErr`. A chunk of which a piece is written is
      already lost. */
  ghost predicate Doomed(rx: Rx) {
    rx.rErr || (rx.pc.RWrite? && rx.pc.written > 0)
  }

  lemma {:induction false} DoomWrite(rx: Rx, k: int)
    requires rx.pc.RWrite? && rx.pc.written < |rx.pc.c| && WriteOutcome(|rx.pc.c| - rx.pc.written, k)
    ensures Doomed(Write(rx, k)) <==> Doomed(rx) || k == -1 || k < |rx.pc.c| || |rx.pc.c| > 0x7FFF_FFFF
  {
  }

  lemma {:induction false} DoomTake(rx: Rx, m: Msg)
    requires Waits(rx.pc)
    ensures Doomed(Take(rx, m)) <==> Doomed(rx)
  {
  }

  lemma {:induction false} DoomStep(cfg: Config, s: State, a: Action)
    requires Enabled(cfg, s, a)
    ensures Doomed(Apply(cfg, s, a).rx) <==> Doomed(s.rx) || BreakingWrite(s, a)
  {
    if a.ReceiverStep? {
      if Waits(s.rx.pc) { DoomTake(s.rx, s.fwd[0]); }
      else if s.rx.pc.RWrite? { DoomWrite(s.rx, a.k); }
    }
  }

  /** The receiver raises CANCEL if and only if some chunk was split by a short write, met a
      fault or was too long for an `int`; until its last piece is written that is not yet
      known to it. */
  lemma {:induction false} ReceiverErrorIff(cfg: Config, acts: seq<Action>)
    requires Exec(cfg, acts).Some?
    ensures Doomed(Exec(cfg, acts).value.rx) <==> SomeWriteBreaks(cfg, acts)
    decreases |acts|
  {
    if acts != [] {
      var n := |acts| - 1;
      ReceiverErrorIff(cfg, acts[..n]);
      DoomStep(cfg, Exec(cfg, acts[..n]).value, acts[n]);
    }
  }

  // ----- The whole conversation

  /** What the receiver has said by its place in the code. */
  function Replies(pc: Receiver, rErr: bool): seq<Msg> {
    if FirstLoop(pc) || pc.RCancel? then []
    else (if rErr then [Word(-2)] else []) + if pc.RFin? then [] else [Word(-127)]
  }

  lemma {:induction false} RunShape(cfg: Config, acts: seq<Action>)
    requires Exec(cfg, acts).Some?
    ensures var rx := Exec(cfg, acts).value.rx; RxShape(rx.pc, rx.phase, rx.rErr)
  {
    RunInv(cfg, acts);
  }

  predicate Speaks(s: State, a: Action) {
    a.ReceiverStep? && (s.rx.pc.RCancel? || s.rx.pc.RFin?)
  }

  lemma {:induction false} SpeakStep(cfg: Config, s: State, a: Action)
    requires RxShape(s.rx.pc, s.rx.phase, s.rx.rErr) && Enabled(cfg, s, a) && Speaks(s, a)
    ensures var t := Apply(cfg, s, a); var m := if s.rx.pc.RCancel? then Word(-2) else Word(-127);
      && t.rev == s.rev + [m]
      && Replies(s.rx.pc, s.rx.rErr) + [m] == Replies(t.rx.pc, t.rx.rErr)
  {
  }

  lemma {:induction false} SilentStep(cfg: Config, s: State, a: Action)
    requires RxShape(s.rx.pc, s.rx.phase, s.rx.rErr) && Enabled(cfg, s, a) && !Speaks(s, a)
    requires var rx := Apply(cfg, s, a).rx; RxShape(rx.pc, rx.phase, rx.rErr)
    ensures var t := Apply(cfg, s, a);
      && (a.ReceiverStep? ==> t.rev == s.rev)
      && Replies(s.rx.pc, s.rx.rErr) == Replies(t.rx.pc, t.rx.rErr)
  {
  }

  lemma {:induction false} ReplyStep(cfg: Config, s: State, a: Action, before: seq<Msg>)
    requires RxShape(s.rx.pc, s.rx.phase, s.rx.rErr) && Enabled(cfg, s, a)
    requires before == Replies(s.rx.pc, s.rx.rErr)
    requires var rx := Apply(cfg, s, a).rx; RxShape(rx.pc, rx.phase, rx.rErr)
    ensures var t := Apply(cfg, s, a);
      before + (if a.ReceiverStep? && |s.rev| <= |t.rev| then t.rev[|s.rev|..] else []) == Replies(t.rx.pc, t.rx.rErr)
  {
    if Speaks(s, a) {
      SpeakStep(cfg, s, a);
    } else {
      SilentStep(cfg, s, a);
      assert before + [] == before;
    }
  }

  lemma {:induction false} ReceiverTranscript(cfg: Config, acts: seq<Action>)
    requires Exec(cfg, acts).Some?
    ensures var rx := Exec(cfg, acts).value.rx; Answered(cfg, acts) == Replies(rx.pc, rx.rErr)
    decreases |acts|
  {
    if acts != [] {
      var n := |acts| - 1;
      ExecPrefix(cfg, acts, n);
      ReceiverTranscript(cfg, acts[..n]);
      RunShape(cfg, acts[..n]);
      RunShape(cfg, acts);
      ReplyStep(cfg, Exec(cfg, acts[..n]).value, acts[n], Answered(cfg, acts[..n]));
    }
  }

  lemma {:induction false} EndFacts(cfg: Config, s: State)
    requires Inv(cfg, s) && Terminal(s)
    ensures TxInv(cfg, s.tx) && (s.tx.closed || s.rx.rErr)
  {
  }

  lemma {:induction false} ClosingFacts(cfg: Config, tx: Tx, rErr: bool, chunks: seq<seq<Byte>>, said: seq<Msg>)
    requires SaidOk(cfg, tx, said, chunks) && tx.pc.SDone? && (tx.closed || rErr)
    ensures var close := Closing(tx.closed, tx.sErr);
      && said == Framed(chunks) + (close + [Word(-127)]) && Concat(chunks) <= cfg.file
      && (tx.sErr <==> close == [Word(-2)])
      && (!tx.sErr ==> close == [Word(0)] || (close == [] && rErr))
      && (close == [Word(0)] ==> cfg.bufsz == 0 || Concat(chunks) == cfg.file)
  {
    assert cfg.file[..|cfg.file|] == cfg.file;
  }

  /** When both ends have returned, the sender has said complete chunks of a beginning of the
      file, none longer than its buffer, then CANCEL (-2) if a `read` failed, END (0) if it
      came to the end, or neither if it was stopped, then FIN (-127); and the receiver
      CANCEL if it did not take some chunk, then FIN. The sender is stopped only by a
      CANCEL. */
  lemma {:induction false} WholeConversation(cfg: Config, acts: seq<Action>)
    returns (chunks: seq<seq<Byte>>, close: seq<Msg>)
    requires Exec(cfg, acts).Some? && Terminal(Exec(cfg, acts).value)
    ensures Said(cfg, acts) == Framed(chunks) + (close + [Word(-127)])
    ensures Answered(cfg, acts) == (if SomeWriteBreaks(cfg, acts) then [Word(-2)] else []) + [Word(-127)]
    ensures Sized(cfg, chunks) && Concat(chunks) <= cfg.file
    ensures SomeReadFails(cfg, acts) <==> close == [Word(-2)]
    ensures !SomeReadFails(cfg, acts) ==> close == [Word(0)] || (close == [] && SomeWriteBreaks(cfg, acts))
    ensures close == [Word(0)] ==> cfg.bufsz == 0 || Concat(chunks) == cfg.file
  {
    var s := Exec(cfg, acts).value;
    chunks := SenderTranscript(cfg, acts);
    close := Closing(s.tx.closed, s.tx.sErr);
    RunInv(cfg, acts);
    EndFacts(cfg, s);
    ClosingFacts(cfg, s.tx, s.rx.rErr, chunks, Said(cfg, acts));
    SenderErrorIff(cfg, acts);
    ReceiverErrorIff(cfg, acts);
    ReceiverTranscript(cfg, acts);
  }
}
