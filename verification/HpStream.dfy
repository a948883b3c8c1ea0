/** The GET/PUT streaming protocol: the `getstream` send loop, its cancel-listening
    thread and `putstream`, composed over two bounded FIFO channels.

    A run is a list of actions; each action is one system call of one of the three
    processes, and carries the outcome of that call where the outcome is not fixed. */
module HpStream {
  import opened Common
  import opened FileIo

  const HPFFIN := -127
  const HPFEND := 0
  const HPFSTOP := -1
  const HPFCANCEL := -2

  /** One `writebuf_ex` call: a 64-bit header or code word, or a block of file data. */
  datatype Msg = Word(v: int) | Bytes(b: seq<Byte>)

  /** `file` is the sender's file from the requested offset on. `cap` is how many
      messages each direction can hold before a write blocks. */
  datatype Config = Config(file: seq<Byte>, bufsz: nat, cap: nat)

  /** Program counter of `getstream`. */
  datatype Sender =
    | Check | Read | SendHdr(c: seq<Byte>) | SendData(c: seq<Byte>)
    | SendEnd | SendCancel | Join | SendFin | SDone

  /** Program counter of `putstream`: `R..` is its first loop, `D..` the draining one.
      `RLost` is where it would go on a word or block it cannot handle. */
  datatype Receiver =
    | RHdr | RData(len: int) | RWrite(c: seq<Byte>, written: nat) | RCancel | RFin
    | DHdr | DData(len: int) | RDone | RLost

  /** Where a reader stands in the stream of words and blocks. */
  datatype Phase = Header | Body(n: int) | Closed(code: int) | Finished(code: int) | Broken

  /** `sErr` (a read error made the sender raise CANCEL) and `closed` (END or CANCEL was
      sent) record history and steer no step. */
  datatype Tx = Tx(pc: Sender, pos: nat, sErr: bool, closed: bool)

  /** `rErr` (the receiver raised CANCEL), `phase` (where it stands in the stream) and
      `got` (data bytes taken off the channel) record history and steer no step. */
  datatype Rx = Rx(pc: Receiver, del: bool, disk: seq<Byte>, rErr: bool, phase: Phase, got: nat)

  /** `cont` is `hpfcont`; `listening` says that the cancel thread has not returned. */
  datatype State = State(tx: Tx, rx: Rx, cont: bool, listening: bool, fwd: seq<Msg>, rev: seq<Msg>)

  datatype Action = SenderStep(k: int) | ListenStep | ReceiverStep(k: int)

  function Init(): State {
    State(Tx(Check, 0, false, false), Rx(RHdr, false, [], false, Header, 0), true, true, [], [])
  }

  // ----- getstream

  /** What `read` may return at offset `pos`: -1, or a short count; 0 only at the end
      of the file or for an empty buffer. */
  predicate ReadOutcome(cfg: Config, pos: nat, k: int) {
    || k == -1
    || (0 <= k <= cfg.bufsz && k <= |cfg.file| - pos && (k == 0 ==> cfg.bufsz == 0 || pos == |cfg.file|))
  }

  /** What a step of the sender writes to the channel. */
  function TxOut(pc: Sender): seq<Msg> {
    match pc
    case SendHdr(c) => [Word(|c|)]
    case SendData(c) => [Bytes(c)]
    case SendEnd => [Word(HPFEND)]
    case SendCancel => [Word(HPFCANCEL)]
    case SendFin => [Word(HPFFIN)]
    case _ => []
  }

  function TxNext(cfg: Config, tx: Tx, cont: bool, k: int): Tx
    requires tx.pc.Read? ==> tx.pos <= |cfg.file| && ReadOutcome(cfg, tx.pos, k)
  {
    match tx.pc
    case Check => tx.(pc := if cont then Read else Join)
    case Read =>
      if k > 0 then tx.(pc := SendHdr(cfg.file[tx.pos..tx.pos + k]), pos := tx.pos + k)
      else if k == 0 then tx.(pc := SendEnd)
      else tx.(pc := SendCancel, sErr := true)
    case SendHdr(c) => tx.(pc := SendData(c))
    case SendData(_) => tx.(pc := Check)
    case SendEnd => tx.(pc := Join, closed := true)
    case SendCancel => tx.(pc := Join, closed := true)
    case Join => tx.(pc := SendFin)
    case SendFin => tx.(pc := SDone)
    case SDone => tx
  }

  // ----- putstream

  /** What `write` may return when `left` bytes are left: a fault, or any part of them. */
  predicate WriteOutcome(left: int, k: int) {
    k == FAULT || 1 <= k <= left
  }

  predicate Waits(pc: Receiver) {
    pc.RHdr? || pc.RData? || pc.DHdr? || pc.DData?
  }

  /** Where the next word or block takes the receiver. */
  function OnMessage(pc: Receiver, m: Msg): Receiver {
    match pc
    case RHdr =>
      if m.Bytes? then RLost
      else if m.v == HPFEND || m.v == HPFSTOP || m.v == HPFCANCEL then RFin
      else if m.v > 0 then RData(m.v) else RLost
    case RData(n) => if m.Bytes? && |m.b| == n > 0 then RWrite(m.b, 0) else RLost
    case DHdr =>
      if m.Bytes? then RLost
      else if m.v == HPFFIN then RDone
      else if m.v == HPFEND || m.v == HPFSTOP || m.v == HPFCANCEL then DHdr
      else if m.v > 0 then DData(m.v) else RLost
    case DData(n) => if m.Bytes? && |m.b| == n then DHdr else RLost
    case _ => pc
  }

  function Content(m: Msg): seq<Byte> {
    if m.Bytes? then m.b else []
  }

  function Take(rx: Rx, m: Msg): Rx {
    rx.(pc := OnMessage(rx.pc, m), del := rx.del || (rx.pc.RHdr? && m == Word(HPFCANCEL)),
        phase := Advance(rx.phase, m), got := rx.got + |Content(m)|)
  }

  /** One `write` inside `writechunk`; the count of the last one decides `wb != len`. */
  function Write(rx: Rx, k: int): Rx
    requires rx.pc.RWrite? && rx.pc.written < |rx.pc.c| && WriteOutcome(|rx.pc.c| - rx.pc.written, k)
  {
    if k == FAULT then rx.(pc := RCancel, rErr := true)
    else
      var end := rx.pc.written + k;
      var disk := rx.disk + rx.pc.c[rx.pc.written..end];
      if end < |rx.pc.c| then rx.(disk := disk, pc := RWrite(rx.pc.c, end))
      else if Int32(k) == |rx.pc.c| then rx.(disk := disk, pc := RHdr)
      else rx.(disk := disk, pc := RCancel, rErr := true)
  }

  /** All the `write` calls of one `writechunk`, step by step. */
  function WriteRun(rx: Rx, outcomes: seq<int>): Rx
    requires rx.pc.RWrite? && rx.pc.written < |rx.pc.c|
    requires Schedule(|rx.pc.c| - rx.pc.written, outcomes)
    decreases |outcomes|
  {
    var rest := outcomes[1..];
    if outcomes[0] == EINTR then WriteRun(rx, rest)
    else if rest == [] then Write(rx, outcomes[0])
    else WriteRun(Write(rx, outcomes[0]), rest)
  }

  /** A piece that is not the last. */
  lemma {:induction false} WritePiece(rx: Rx, k: int)
    requires rx.pc.RWrite? && 1 <= k < |rx.pc.c| - rx.pc.written
    ensures Write(rx, k).pc == RWrite(rx.pc.c, rx.pc.written + k)
    ensures Write(rx, k).disk == rx.disk + rx.pc.c[rx.pc.written..rx.pc.written + k]
  {
  }

  lemma {:induction false} WriteLast(rx: Rx, k: int)
    requires rx.pc.RWrite? && rx.pc.written < |rx.pc.c| && (k == FAULT || k == |rx.pc.c| - rx.pc.written)
    ensures Write(rx, k).disk == rx.disk + rx.pc.c[rx.pc.written..rx.pc.written + if k == FAULT then 0 else k]
    ensures Write(rx, k).pc == if Int32(k) == |rx.pc.c| then RHdr else RCancel
  {
  }

  lemma {:induction false} WriteRunDisk(rx: Rx, outcomes: seq<int>)
    requires rx.pc.RWrite? && rx.pc.written < |rx.pc.c|
    requires Schedule(|rx.pc.c| - rx.pc.written, outcomes)
    ensures 0 <= Landed(outcomes) <= |rx.pc.c| - rx.pc.written
    ensures WriteRun(rx, outcomes).disk == rx.disk + rx.pc.c[rx.pc.written..rx.pc.written + Landed(outcomes)]
    decreases |outcomes|
  {
    var w, k, rest := rx.pc.written, outcomes[0], outcomes[1..];
    if k == EINTR {
      WriteRunDisk(rx, rest);
    } else if rest == [] {
      WriteLast(rx, k);
    } else {
      WritePiece(rx, k);
      var rx' := Write(rx, k);
      WriteRunDisk(rx', rest);
      assert Landed(outcomes) == k + Landed(rest) && WriteRun(rx, outcomes) == WriteRun(rx', rest);
      Slices(rx.disk, rx.pc.c, w, w + k, w + k + Landed(rest));
    }
  }

  lemma {:induction false} WriteRunPc(rx: Rx, outcomes: seq<int>)
    requires rx.pc.RWrite? && rx.pc.written < |rx.pc.c|
    requires Schedule(|rx.pc.c| - rx.pc.written, outcomes)
    ensures WriteRun(rx, outcomes).pc == if Int32(Last(outcomes)) == |rx.pc.c| then RHdr else RCancel
    decreases |outcomes|
  {
    var k, rest := outcomes[0], outcomes[1..];
    if k == EINTR {
      WriteRunPc(rx, rest);
    } else if rest == [] {
      WriteLast(rx, k);
    } else {
      WritePiece(rx, k);
      WriteRunPc(Write(rx, k), rest);
    }
  }

  /** The steps of the receiver's write loop do to the disk what `WriteChunk` does, and
      leave the loop as `wb != len` decides. */
  lemma {:induction false} WriteRunIsWriteChunk(rx: Rx, outcomes: seq<int>)
    requires rx.pc.RWrite? && rx.pc.written < |rx.pc.c|
    requires Schedule(|rx.pc.c| - rx.pc.written, outcomes)
    ensures var c, w := rx.pc.c, rx.pc.written;
      && 0 <= Landed(outcomes) <= |c| - w
      && WriteRun(rx, outcomes).disk == rx.disk + c[w..w + Landed(outcomes)]
      && WriteRun(rx, outcomes).pc == (if Int32(Last(outcomes)) == |c| then RHdr else RCancel)
  {
    WriteRunDisk(rx, outcomes);
    WriteRunPc(rx, outcomes);
  }

  // ----- The composed system

  predicate Enabled(cfg: Config, s: State, a: Action) {
    match a
    case SenderStep(k) =>
      && s.tx.pc != SDone
      && (s.tx.pc.Read? ==> s.tx.pos <= |cfg.file| && ReadOutcome(cfg, s.tx.pos, k))
      && (s.tx.pc.Join? ==> !s.listening)
      && (TxOut(s.tx.pc) != [] ==> |s.fwd| < cfg.cap)
    case ListenStep => s.listening && s.rev != []
    case ReceiverStep(k) =>
      var pc := s.rx.pc;
      if Waits(pc) then s.fwd != []
      else if pc.RWrite? then pc.written < |pc.c| && WriteOutcome(|pc.c| - pc.written, k)
      else (pc.RCancel? || pc.RFin?) && |s.rev| < cfg.cap
  }

  function Apply(cfg: Config, s: State, a: Action): State
    requires Enabled(cfg, s, a)
  {
    match a
    case SenderStep(k) => s.(tx := TxNext(cfg, s.tx, s.cont, k), fwd := s.fwd + TxOut(s.tx.pc))
    case ListenStep =>
      s.(rev := s.rev[1..], cont := s.cont && s.rev[0] != Word(HPFCANCEL), listening := s.rev[0] != Word(HPFFIN))
    case ReceiverStep(k) =>
      var pc := s.rx.pc;
      if Waits(pc) then s.(rx := Take(s.rx, s.fwd[0]), fwd := s.fwd[1..])
      else if pc.RWrite? then s.(rx := Write(s.rx, k))
      else if pc.RCancel? then s.(rx := s.rx.(pc := RFin), rev := s.rev + [Word(HPFCANCEL)])
      else s.(rx := s.rx.(pc := DHdr), rev := s.rev + [Word(HPFFIN)])
  }

  /** The state after a list of actions, or None when one of them was not possible. */
  function Exec(cfg: Config, acts: seq<Action>): Option<State> {
    if acts == [] then Some(Init())
    else
      var n := |acts| - 1;
      match Exec(cfg, acts[..n])
      case None => None
      case Some(s) => if Enabled(cfg, s, acts[n]) then Some(Apply(cfg, s, acts[n])) else None
  }

  /** Both ends have returned. */
  predicate Terminal(s: State) {
    s.tx.pc == SDone && s.rx.pc == RDone
  }

  // ----- The stream grammar

  function Advance(p: Phase, m: Msg): Phase {
    match p
    case Header =>
      if m.Bytes? then Broken
      else if m.v > 0 then Body(m.v)
      else if m.v == HPFFIN then Finished(HPFFIN)
      else if m.v == HPFEND || m.v == HPFSTOP || m.v == HPFCANCEL then Closed(m.v)
      else Broken
    case Body(n) => if m.Bytes? && |m.b| == n then Header else Broken
    case Closed(c) => if m == Word(HPFFIN) then Finished(c) else Broken
    case _ => Broken
  }

  function Parse(p: Phase, q: seq<Msg>): Phase
    decreases |q|
  {
    if q == [] then p else Parse(Advance(p, q[0]), q[1..])
  }

  function Payload(q: seq<Msg>): seq<Byte> {
    if q == [] then [] else Content(q[0]) + Payload(q[1..])
  }

  /** Weight of the messages in flight: one step for each, one for each data byte. */
  function Load(q: seq<Msg>): nat {
    if q == [] then 0 else 1 + |Content(q[0])| + Load(q[1..])
  }

  lemma {:induction false} ParsePush(p: Phase, q: seq<Msg>, m: Msg)
    ensures Parse(p, q + [m]) == Advance(Parse(p, q), m)
    decreases |q|
  {
    if q == [] {
      assert (q + [m])[1..] == [];
    } else {
      assert (q + [m])[1..] == q[1..] + [m];
      ParsePush(Advance(p, q[0]), q[1..], m);
    }
  }

  lemma {:induction false} PayloadPush(q: seq<Msg>, m: Msg)
    ensures Payload(q + [m]) == Payload(q) + Content(m)
    ensures Load(q + [m]) == Load(q) + 1 + |Content(m)|
    decreases |q|
  {
    if q == [] {
      assert (q + [m])[1..] == [];
      assert Content(m) + [] == Content(m);
    } else {
      assert (q + [m])[1..] == q[1..] + [m];
      PayloadPush(q[1..], m);
      Assoc(Content(q[0]), Payload(q[1..]), Content(m));
    }
  }

  lemma {:induction false} ParseAppend(p: Phase, q: seq<Msg>, m: Msg)
    ensures Parse(p, q + [m]) == Advance(Parse(p, q), m)
    ensures Payload(q + [m]) == Payload(q) + Content(m)
    ensures Load(q + [m]) == Load(q) + 1 + |Content(m)|
  {
    ParsePush(p, q, m);
    PayloadPush(q, m);
  }

  lemma {:induction false} ParseBroken(q: seq<Msg>)
    ensures Parse(Broken, q) == Broken
    decreases |q|
  {
    if q != [] { ParseBroken(q[1..]); }
  }

  lemma {:induction false} ParseFinished(code: int, q: seq<Msg>)
    ensures q != [] ==> Parse(Finished(code), q) == Broken
  {
    if q != [] { ParseBroken(q[1..]); }
  }

  // ----- The invariant

  /** Where the sender has brought the stream. */
  function TxPhase(tx: Tx): Phase {
    var code := if !tx.closed then HPFFIN else if tx.sErr then HPFCANCEL else HPFEND;
    match tx.pc
    case SendData(c) => Body(|c|)
    case SDone => Finished(code)
    case _ => if tx.closed then Closed(code) else Header
  }

  /** How many bytes of the file the sender has written to the channel. */
  function Sent(tx: Tx): int {
    if tx.pc.SendHdr? || tx.pc.SendData? then tx.pos - |tx.pc.c| else tx.pos
  }

  /** The sender is out of its loop. */
  predicate Leaving(pc: Sender) {
    pc.Join? || pc.SendFin? || pc.SDone?
  }

  predicate FirstLoop(pc: Receiver) {
    pc.RHdr? || pc.RData? || pc.RWrite?
  }

  predicate TxInv(cfg: Config, tx: Tx) {
    && tx.pos <= |cfg.file|
    && (cfg.bufsz == 0 ==> tx.pos == 0)
    && (tx.pc.SendHdr? || tx.pc.SendData? ==>
          0 < |tx.pc.c| <= tx.pos && tx.pc.c == cfg.file[tx.pos - |tx.pc.c|..tx.pos])
    && (tx.closed || tx.pc.SendEnd? ==> tx.sErr || cfg.bufsz == 0 || tx.pos == |cfg.file|)
    && (tx.pc.SendEnd? ==> !tx.sErr)
    && (tx.pc.SendCancel? ==> tx.sErr)
    && (tx.closed ==> Leaving(tx.pc))
    && (tx.sErr ==> tx.pc.SendCancel? || tx.closed)
  }

  /** Where the receiver is in its code and where in the stream. */
  predicate RxShape(pc: Receiver, phase: Phase, rErr: bool) {
    match pc
    case RHdr => phase == Header && !rErr
    case RData(n) => n > 0 && phase == Body(n) && !rErr
    case RWrite(c, w) => phase == Header && !rErr
    case RCancel => phase == Header && rErr
    case RFin => if rErr then phase == Header else phase.Closed?
    case DHdr => phase.Closed? || (rErr && phase == Header)
    case DData(n) => phase == Body(n) && rErr
    case RDone => phase.Finished?
    case RLost => false
  }

  predicate RxInv(cfg: Config, rx: Rx) {
    && RxShape(rx.pc, rx.phase, rx.rErr)
    && (if FirstLoop(rx.pc) || rx.rErr then !rx.del
        else rx.del == ((rx.phase.Closed? || rx.phase.Finished?) && rx.phase.code == HPFCANCEL))
    && rx.disk <= cfg.file
    && rx.got <= |cfg.file|
    && (if rx.pc.RWrite? then
          var c, w := rx.pc.c, rx.pc.written;
          w < |c| <= rx.got && c == cfg.file[rx.got - |c|..rx.got] && |rx.disk| == rx.got - |c| + w
        else rx.rErr || |rx.disk| == rx.got)
  }

  /** What the receiver has written back and the cancel thread has not yet read. */
  predicate ReverseInv(pc: Receiver, rErr: bool, cont: bool, listening: bool, rev: seq<Msg>) {
    if FirstLoop(pc) || pc.RCancel? then rev == [] && listening && cont
    else if pc.RFin? then
      listening && (if cont then rev == (if rErr then [Word(HPFCANCEL)] else []) else rErr && rev == [])
    else if listening && cont && rErr then rev == [Word(HPFCANCEL), Word(HPFFIN)]
    else rev == (if listening then [Word(HPFFIN)] else []) && cont == !rErr
  }

  /** The messages in flight lead from the receiver's place in the stream to the
      sender's, and carry exactly the file bytes between the two. */
  ghost predicate FlowInv(cfg: Config, phase: Phase, got: nat, fwd: seq<Msg>, goal: Phase, sent: int) {
    && Parse(phase, fwd) == goal
    && got <= sent <= |cfg.file|
    && Payload(fwd) == cfg.file[got..sent]
  }

  predicate JoinInv(pc: Sender, closed: bool, cont: bool, listening: bool) {
    && (Leaving(pc) ==> closed || !cont)
    && (pc.SendFin? || pc.SDone? ==> !listening)
  }

  ghost predicate Inv(cfg: Config, s: State) {
    && TxInv(cfg, s.tx)
    && RxInv(cfg, s.rx)
    && JoinInv(s.tx.pc, s.tx.closed, s.cont, s.listening)
    && ReverseInv(s.rx.pc, s.rx.rErr, s.cont, s.listening, s.rev)
    && FlowInv(cfg, s.rx.phase, s.rx.got, s.fwd, TxPhase(s.tx), Sent(s.tx))
  }

  // ----- Every step keeps the invariant

  /** Writing a message moves the sender's end of the stream along. */
  lemma {:induction false} PushKeepsFlow(cfg: Config, phase: Phase, got: nat, fwd: seq<Msg>, goal: Phase,
                                         sent: nat, m: Msg)
    requires FlowInv(cfg, phase, got, fwd, goal, sent)
    requires sent + |Content(m)| <= |cfg.file| && Content(m) == cfg.file[sent..sent + |Content(m)|]
    ensures FlowInv(cfg, phase, got, fwd + [m], Advance(goal, m), sent + |Content(m)|)
  {
    ParseAppend(phase, fwd, m);
    assert cfg.file[got..sent] + Content(m) == cfg.file[got..sent + |Content(m)|];
  }

  /** The sender on its own: its invariant, and what it writes against where it stands. */
  lemma {:induction false} TxKeeps(cfg: Config, tx: Tx, cont: bool, k: int)
    requires TxInv(cfg, tx) && (tx.pc.Read? ==> ReadOutcome(cfg, tx.pos, k))
    ensures var tx' := TxNext(cfg, tx, cont, k);
      && TxInv(cfg, tx')
      && (TxOut(tx.pc) == [] ==> TxPhase(tx') == TxPhase(tx) && Sent(tx') == Sent(tx))
      && (TxOut(tx.pc) != [] ==>
        var m := TxOut(tx.pc)[0];
        && TxOut(tx.pc) == [m]
        && TxPhase(tx') == Advance(TxPhase(tx), m)
        && Sent(tx') == Sent(tx) + |Content(m)|
        && 0 <= Sent(tx) <= Sent(tx') <= |cfg.file|
        && Content(m) == cfg.file[Sent(tx)..Sent(tx')])
  {
  }

  lemma {:induction false} SenderKeepsFlow(cfg: Config, s: State, k: int)
    requires TxInv(cfg, s.tx) && Enabled(cfg, s, SenderStep(k))
    requires FlowInv(cfg, s.rx.phase, s.rx.got, s.fwd, TxPhase(s.tx), Sent(s.tx))
    ensures var tx := TxNext(cfg, s.tx, s.cont, k);
      TxInv(cfg, tx) && FlowInv(cfg, s.rx.phase, s.rx.got, s.fwd + TxOut(s.tx.pc), TxPhase(tx), Sent(tx))
  {
    TxKeeps(cfg, s.tx, s.cont, k);
    if TxOut(s.tx.pc) == [] {
      assert s.fwd + TxOut(s.tx.pc) == s.fwd;
    } else {
      PushKeepsFlow(cfg, s.rx.phase, s.rx.got, s.fwd, TxPhase(s.tx), Sent(s.tx), TxOut(s.tx.pc)[0]);
    }
  }

  lemma {:induction false} SenderKeeps(cfg: Config, s: State, k: int)
    requires Inv(cfg, s) && Enabled(cfg, s, SenderStep(k))
    ensures Inv(cfg, Apply(cfg, s, SenderStep(k)))
  {
    SenderKeepsFlow(cfg, s, k);
    var tx := TxNext(cfg, s.tx, s.cont, k);
    assert JoinInv(tx.pc, tx.closed, s.cont, s.listening);
  }

  lemma {:induction false} ListenKeeps(cfg: Config, s: State)
    requires Inv(cfg, s) && Enabled(cfg, s, ListenStep)
    ensures Inv(cfg, Apply(cfg, s, ListenStep))
  {
  }

  /** The message at the head is one the receiver's phase allows. */
  lemma {:induction false} HeadFits(cfg: Config, phase: Phase, got: nat, fwd: seq<Msg>, goal: Phase, sent: nat)
    requires FlowInv(cfg, phase, got, fwd, goal, sent) && fwd != [] && goal != Broken
    ensures Advance(phase, fwd[0]) != Broken
    ensures FlowInv(cfg, Advance(phase, fwd[0]), got + |Content(fwd[0])|, fwd[1..], goal, sent)
    ensures Content(fwd[0]) == cfg.file[got..got + |Content(fwd[0])|]
    ensures Advance(phase, fwd[0]).Finished? ==> goal.Finished?
  {
    ParseBroken(fwd[1..]);
    var d := Content(fwd[0]);
    assert cfg.file[got..sent] == d + Payload(fwd[1..]);
    assert d == cfg.file[got..sent][..|d|];
    assert Payload(fwd[1..]) == cfg.file[got..sent][|d|..];
    if Advance(phase, fwd[0]).Finished? {
      ParseFinished(Advance(phase, fwd[0]).code, fwd[1..]);
    }
  }

  /** The receiver on its own, given a message that fits. */
  lemma {:induction false} TakeKeeps(cfg: Config, rx: Rx, m: Msg)
    requires RxInv(cfg, rx) && Waits(rx.pc) && Advance(rx.phase, m) != Broken
    requires FirstLoop(rx.pc) ==> !Advance(rx.phase, m).Finished?
    requires rx.got + |Content(m)| <= |cfg.file| && Content(m) == cfg.file[rx.got..rx.got + |Content(m)|]
    ensures RxInv(cfg, Take(rx, m))
  {
  }

  lemma {:induction false} WriteKeeps(cfg: Config, rx: Rx, k: int)
    requires RxInv(cfg, rx) && rx.pc.RWrite? && WriteOutcome(|rx.pc.c| - rx.pc.written, k)
    ensures RxInv(cfg, Write(rx, k))
  {
  }

  lemma {:induction false} ReceiverTakes(cfg: Config, s: State)
    requires Inv(cfg, s) && Waits(s.rx.pc) && s.fwd != []
    ensures RxInv(cfg, Take(s.rx, s.fwd[0]))
    ensures FlowInv(cfg, Take(s.rx, s.fwd[0]).phase, Take(s.rx, s.fwd[0]).got, s.fwd[1..], TxPhase(s.tx), Sent(s.tx))
  {
    HeadFits(cfg, s.rx.phase, s.rx.got, s.fwd, TxPhase(s.tx), Sent(s.tx));
    // In the first loop nothing was written back, so the sender cannot have sent FIN.
    assert FirstLoop(s.rx.pc) ==> !s.tx.pc.SDone?;
    TakeKeeps(cfg, s.rx, s.fwd[0]);
  }

  lemma {:induction false} ReceiverKeeps(cfg: Config, s: State, k: int)
    requires Inv(cfg, s) && Enabled(cfg, s, ReceiverStep(k))
    ensures Inv(cfg, Apply(cfg, s, ReceiverStep(k)))
  {
    if Waits(s.rx.pc) {
      ReceiverTakes(cfg, s);
    } else if s.rx.pc.RWrite? {
      WriteKeeps(cfg, s.rx, k);
    }
  }

  lemma {:induction false} StepKeeps(cfg: Config, s: State, a: Action)
    requires Inv(cfg, s) && Enabled(cfg, s, a)
    ensures Inv(cfg, Apply(cfg, s, a))
  {
    match a
    case SenderStep(k) => SenderKeeps(cfg, s, k);
    case ListenStep => ListenKeeps(cfg, s);
    case ReceiverStep(k) => ReceiverKeeps(cfg, s, k);
  }

  // ----- Progress and termination

  lemma {:induction false} SomeoneMoves(pc: Sender, closed: bool, rpc: Receiver, rErr: bool, phase: Phase,
                                        cont: bool, listening: bool, fwd: seq<Msg>, rev: seq<Msg>)
    requires RxShape(rpc, phase, rErr) && JoinInv(pc, closed, cont, listening)
    requires ReverseInv(rpc, rErr, cont, listening, rev) && !(pc.SDone? && rpc.RDone?)
    requires Parse(phase, fwd) != Broken && (pc.SDone? <==> Parse(phase, fwd).Finished?)
    requires closed && !pc.SDone? ==> Parse(phase, fwd).Closed?
    ensures || (listening && rev != [])
            || rpc.RWrite? || rpc.RCancel? || rpc.RFin?
            || (fwd != [] && Waits(rpc))
            || (fwd == [] && !pc.SDone? && (pc.Join? ==> !listening))
  {
    if rpc.RDone? { ParseFinished(phase.code, fwd); }
  }

  /** As long as one end has not returned, some process can move,
      even when each channel holds only one message. */
  lemma {:induction false} Progress(cfg: Config, s: State) returns (a: Action)
    requires Inv(cfg, s) && !Terminal(s) && cfg.cap >= 1
    ensures Enabled(cfg, s, a)
  {
    SomeoneMoves(s.tx.pc, s.tx.closed, s.rx.pc, s.rx.rErr, s.rx.phase, s.cont, s.listening, s.fwd, s.rev);
    if s.listening && s.rev != [] {
      a := ListenStep;
    } else if s.rx.pc.RWrite? {
      a := ReceiverStep(FAULT);
    } else if s.rx.pc.RCancel? || s.rx.pc.RFin? || s.fwd != [] {
      a := ReceiverStep(0);
    } else {
      a := SenderStep(-1);
    }
  }

  function TxRank(pc: Sender): nat {
    match pc
    case Check => 7
    case Read => 6
    case SendHdr(c) => 11 + |c|
    case SendData(c) => 9 + |c|
    case SendEnd => 5
    case SendCancel => 5
    case Join => 3
    case SendFin => 2
    case SDone => 0
  }

  function RxRank(pc: Receiver): int {
    match pc
    case RWrite(c, w) => 5 + |c| - w
    case RFin => 3
    case DHdr => 1
    case DData(_) => 1
    case RDone => 0
    case RLost => 0
    case _ => 5
  }

  /** An upper bound on the number of steps still possible. */
  function Rank(cfg: Config, s: State): int {
    7 * (|cfg.file| - s.tx.pos) + TxRank(s.tx.pc) + Load(s.fwd) + RxRank(s.rx.pc) + |s.rev|
  }

  lemma {:induction false} TxDescends(cfg: Config, tx: Tx, cont: bool, k: int)
    requires tx.pc != SDone && (tx.pc.Read? ==> tx.pos <= |cfg.file| && ReadOutcome(cfg, tx.pos, k))
    ensures var tx' := TxNext(cfg, tx, cont, k);
      TxRank(tx'.pc) - 7 * tx'.pos + Load(TxOut(tx.pc)) < TxRank(tx.pc) - 7 * tx.pos
  {
  }

  lemma {:induction false} StepDescends(cfg: Config, s: State, a: Action)
    requires Enabled(cfg, s, a)
    ensures Rank(cfg, Apply(cfg, s, a)) < Rank(cfg, s)
  {
    match a
    case ListenStep =>
    case SenderStep(k) =>
      TxDescends(cfg, s.tx, s.cont, k);
      if TxOut(s.tx.pc) == [] {
        assert s.fwd + TxOut(s.tx.pc) == s.fwd;
      } else {
        ParseAppend(Header, s.fwd, TxOut(s.tx.pc)[0]);
      }
    case ReceiverStep(k) =>
      if Waits(s.rx.pc) {
        assert RxRank(OnMessage(s.rx.pc, s.fwd[0])) <= RxRank(s.rx.pc) + |Content(s.fwd[0])|;
      }
  }

  // ----- What holds of every run

  /** Every state of every run satisfies the invariant, and a run is never longer than
      a bound fixed by the file alone. */
  lemma {:induction false} RunInv(cfg: Config, acts: seq<Action>)
    requires Exec(cfg, acts).Some?
    ensures Inv(cfg, Exec(cfg, acts).value)
    ensures Rank(cfg, Exec(cfg, acts).value) <= 7 * |cfg.file| + 12 - |acts|
    decreases |acts|
  {
    if acts != [] {
      var n := |acts| - 1;
      RunInv(cfg, acts[..n]);
      var s := Exec(cfg, acts[..n]).value;
      StepKeeps(cfg, s, acts[n]);
      StepDescends(cfg, s, acts[n]);
    }
  }

  /** No run deadlocks, every run is finite, the first loop of the receiver never meets
      FIN or a word out of place, and once both ends have returned the listening thread
      has too and both channels are empty, so no leftover can be read as a command. */
  lemma {:induction false} RunsFinishClean(cfg: Config, acts: seq<Action>)
    requires cfg.cap >= 1 && Exec(cfg, acts).Some?
    ensures |acts| <= 7 * |cfg.file| + 12
    ensures var s := Exec(cfg, acts).value;
      && s.rx.pc != RLost
      && (Terminal(s) ==> s.fwd == [] && s.rev == [] && !s.listening)
      && (!Terminal(s) ==> exists a :: Enabled(cfg, s, a) && Exec(cfg, acts + [a]).Some?)
  {
    RunInv(cfg, acts);
    var s := Exec(cfg, acts).value;
    if Terminal(s) {
      ParseFinished(s.rx.phase.code, s.fwd);
    } else {
      var a := Progress(cfg, s);
      assert (acts + [a])[..|acts|] == acts;
    }
  }

  /** At every moment the bytes on the receiver's disk are a prefix of the file, with no
      gap or repeat. Once a run is over, the receiver marks its file for deletion exactly
      when the sender raised CANCEL and the receiver did not. */
  lemma {:induction false} RunsDeliverPrefix(cfg: Config, acts: seq<Action>)
    requires Exec(cfg, acts).Some?
    ensures var s := Exec(cfg, acts).value;
      && s.rx.disk <= cfg.file
      && (Terminal(s) ==> s.rx.del == (s.tx.sErr && !s.rx.rErr))
  {
    RunInv(cfg, acts);
    var s := Exec(cfg, acts).value;
    if Terminal(s) {
      ParseFinished(s.rx.phase.code, s.fwd);
    }
  }

  /** A finished run in which nobody raised CANCEL has delivered the whole file if and
      only if the buffer was not empty (or there was nothing to deliver): with an empty
      buffer `read` returns 0 at once and the sender reports END. */
  lemma {:induction false} WholeFileIff(cfg: Config, acts: seq<Action>)
    requires Exec(cfg, acts).Some? && Terminal(Exec(cfg, acts).value)
    requires !Exec(cfg, acts).value.tx.sErr && !Exec(cfg, acts).value.rx.rErr
    ensures Exec(cfg, acts).value.rx.disk == cfg.file <==> cfg.bufsz > 0 || cfg.file == []
  {
    RunInv(cfg, acts);
    var s := Exec(cfg, acts).value;
    ParseFinished(s.rx.phase.code, s.fwd);
  }
}
