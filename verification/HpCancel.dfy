/** The GETCAN/PUTCAN protocol: `getstream_can` against `putstream_can`, which answers
    every `canpt` data chunks with one code word. Headers, blocks and the stream grammar
    are those of HpStream. */
module HpCancel {
  import opened Common
  import opened FileIo
  import opened HpStream

  const HPFCONT := -3

  /** `canpt` is the number of chunks between two cancellation points; 0 means none. */
  datatype Setup = Setup(io: Config, canpt: nat)

  datatype GetPc = GRead | GHdr(c: seq<Byte>) | GData(c: seq<Byte>) | GEnd | GCancel | GWait | GDone
  datatype PutPc = PHdr | PData(len: int) | PWrite(c: seq<Byte>) | PSend | PDone | PLost

  /** `sErr` and `closed` record history, as in HpStream. */
  datatype Get = Get(pc: GetPc, pos: nat, canstep: nat, sErr: bool, closed: bool)

  /** `end` is the flag the first failed write sets. `phase`, `got`, `chunks` (counted
      chunks) and `codes` (codes sent) record history. */
  datatype Put = Put(pc: PutPc, canstep: nat, end: bool, del: bool, disk: seq<Byte>,
                     phase: Phase, got: nat, chunks: nat, codes: nat)

  datatype World = World(tx: Get, rx: Put, fwd: seq<Msg>, rev: seq<Msg>)

  /** A receiver step carries the schedule of the `write` calls it makes, if any. */
  datatype Move = GetStep(k: int) | PutStep(outcomes: seq<int>)

  function Start(): World {
    World(Get(GRead, 0, 0, false, false), Put(PHdr, 0, false, false, [], Header, 0, 0, 0), [], [])
  }

  // ----- getstream_can

  function GetOut(pc: GetPc): seq<Msg> {
    match pc
    case GHdr(c) => [Word(|c|)]
    case GData(c) => [Bytes(c)]
    case GEnd => [Word(HPFEND)]
    case GCancel => [Word(HPFCANCEL)]
    case _ => []
  }

  function GetNext(cfg: Setup, tx: Get, k: int): Get
    requires tx.pc.GRead? ==> tx.pos <= |cfg.io.file| && ReadOutcome(cfg.io, tx.pos, k)
  {
    match tx.pc
    case GRead =>
      if k > 0 then tx.(pc := GHdr(cfg.io.file[tx.pos..tx.pos + k]), pos := tx.pos + k)
      else if k == 0 then tx.(pc := GEnd)
      else tx.(pc := GCancel, sErr := true)
    case GHdr(c) => tx.(pc := GData(c))
    case GData(_) =>
      if cfg.canpt == 0 then tx.(pc := GRead)
      else tx.(canstep := tx.canstep + 1, pc := if tx.canstep + 1 == cfg.canpt then GWait else GRead)
    case GEnd => tx.(pc := GDone, closed := true)
    case GCancel => tx.(pc := GDone, closed := true)
    case _ => tx
  }

  function GetCode(tx: Get, m: Msg): Get {
    if m == Word(HPFCONT) then tx.(pc := GRead, canstep := 0) else tx.(pc := GDone)
  }

  // ----- putstream_can

  function PutTake(rx: Put, m: Msg): Put {
    var rx' := rx.(phase := Advance(rx.phase, m), got := rx.got + |Content(m)|);
    match rx.pc
    case PHdr =>
      if m.Bytes? then rx'.(pc := PLost)
      else if m.v == HPFEND || m.v == HPFSTOP then rx'.(pc := PDone)
      else if m.v == HPFCANCEL then rx'.(pc := PDone, del := true)
      else if m.v > 0 then rx'.(pc := PData(m.v))
      else rx'.(pc := PLost)
    case PData(n) => rx'.(pc := if m.Bytes? && |m.b| == n > 0 then PWrite(m.b) else PLost)
    case _ => rx'
  }

  /** Write the chunk unless an earlier one failed, then count it. */
  function PutWrite(cfg: Setup, rx: Put, outcomes: seq<int>): Put
    requires rx.pc.PWrite? && (!rx.end ==> Schedule(|rx.pc.c|, outcomes))
  {
    var c := rx.pc.c;
    ScheduleBound(rx, outcomes);
    var disk := if rx.end then rx.disk else rx.disk + c[..Landed(outcomes)];
    var end := rx.end || Int32(Last(outcomes)) != |c|;
    var step := if cfg.canpt == 0 then 0 else rx.canstep + 1;
    rx.(disk := disk, end := end, canstep := step, chunks := rx.chunks + 1,
        pc := if cfg.canpt > 0 && step == cfg.canpt then PSend else PHdr)
  }

  lemma ScheduleBound(rx: Put, outcomes: seq<int>)
    requires rx.pc.PWrite? && (!rx.end ==> Schedule(|rx.pc.c|, outcomes))
    ensures !rx.end ==> 0 <= Landed(outcomes) <= |rx.pc.c|
  {
    if !rx.end { ScheduleFacts(|rx.pc.c|, outcomes); }
  }

  function PutCode(rx: Put): Msg {
    Word(if rx.end then HPFCANCEL else HPFCONT)
  }

  function PutSend(rx: Put): Put {
    rx.(pc := if rx.end then PDone else PHdr, canstep := 0, codes := rx.codes + 1)
  }

  // ----- The composed system

  predicate Possible(cfg: Setup, w: World, a: Move) {
    match a
    case GetStep(k) =>
      && w.tx.pc != GDone
      && (w.tx.pc.GRead? ==> w.tx.pos <= |cfg.io.file| && ReadOutcome(cfg.io, w.tx.pos, k))
      && (w.tx.pc.GWait? ==> w.rev != [])
      && (GetOut(w.tx.pc) != [] ==> |w.fwd| < cfg.io.cap)
    case PutStep(outcomes) =>
      match w.rx.pc
      case PWrite(c) => w.rx.end || Schedule(|c|, outcomes)
      case PSend => |w.rev| < cfg.io.cap
      case PDone => false
      case PLost => false
      case _ => w.fwd != []
  }

  function Do(cfg: Setup, w: World, a: Move): World
    requires Possible(cfg, w, a)
  {
    match a
    case GetStep(k) =>
      if w.tx.pc.GWait? then w.(tx := GetCode(w.tx, w.rev[0]), rev := w.rev[1..])
      else w.(tx := GetNext(cfg, w.tx, k), fwd := w.fwd + GetOut(w.tx.pc))
    case PutStep(outcomes) =>
      if w.rx.pc.PWrite? then w.(rx := PutWrite(cfg, w.rx, outcomes))
      else if w.rx.pc.PSend? then w.(rx := PutSend(w.rx), rev := w.rev + [PutCode(w.rx)])
      else w.(rx := PutTake(w.rx, w.fwd[0]), fwd := w.fwd[1..])
  }

  function Play(cfg: Setup, acts: seq<Move>): Option<World> {
    if acts == [] then Some(Start())
    else
      var n := |acts| - 1;
      match Play(cfg, acts[..n])
      case None => None
      case Some(w) => if Possible(cfg, w, acts[n]) then Some(Do(cfg, w, acts[n])) else None
  }

  predicate Over(w: World) {
    w.tx.pc == GDone && w.rx.pc == PDone
  }

  // ----- The invariant

  function Chunks(q: seq<Msg>): nat {
    if q == [] then 0 else (if q[0].Bytes? then 1 else 0) + Chunks(q[1..])
  }

  lemma {:induction false} ChunksAppend(q: seq<Msg>, m: Msg)
    ensures Chunks(q + [m]) == Chunks(q) + if m.Bytes? then 1 else 0
  {
    if q == [] {
      assert (q + [m])[1..] == [];
    } else {
      assert (q + [m])[1..] == q[1..] + [m];
      ChunksAppend(q[1..], m);
    }
  }

  /** Between two headers, no block in flight means nothing in flight. */
  lemma {:induction false} NoChunkNoMessage(q: seq<Msg>)
    requires Parse(Header, q) == Header && Chunks(q) == 0
    ensures q == []
  {
    if q != [] {
      var p := Advance(Header, q[0]);
      if q[1..] != [] {
        ParseBroken(q[1..][1..]);
        if p.Closed? { ParseAfterClosed(p.code, q[1..]); }
      }
      ParseBroken(q[1..]);
    }
  }

  /** Once the stream is closed only FIN keeps it well formed. */
  lemma {:induction false} ParseAfterClosed(code: int, q: seq<Msg>)
    ensures q != [] ==> Parse(Closed(code), q) == Broken || Parse(Closed(code), q).Finished?
  {
    if q != [] {
      ParseBroken(q[1..]);
      ParseFinished(code, q[1..]);
    }
  }

  function GetPhase(tx: Get): Phase {
    if tx.pc.GData? then Body(|tx.pc.c|)
    else if tx.closed then Closed(if tx.sErr then HPFCANCEL else HPFEND)
    else Header
  }

  function GetSent(tx: Get): int {
    if tx.pc.GHdr? || tx.pc.GData? then tx.pos - |tx.pc.c| else tx.pos
  }

  predicate GetInv(cfg: Setup, tx: Get) {
    var file := cfg.io.file;
    && tx.pos <= |file|
    && (cfg.io.bufsz == 0 ==> tx.pos == 0)
    && (tx.pc.GHdr? || tx.pc.GData? ==> 0 < |tx.pc.c| <= tx.pos && tx.pc.c == file[tx.pos - |tx.pc.c|..tx.pos])
    && (tx.closed || tx.pc.GEnd? ==> tx.sErr || cfg.io.bufsz == 0 || tx.pos == |file|)
    && (tx.closed ==> tx.pc.GDone?)
    && (tx.pc.GCancel? ==> tx.sErr)
    && (tx.sErr ==> tx.pc.GCancel? || tx.closed)
    && (cfg.canpt == 0 ==> tx.canstep == 0)
    && (tx.pc.GWait? || (tx.pc.GDone? && !tx.closed) <==> cfg.canpt > 0 && tx.canstep >= cfg.canpt)
    && tx.canstep <= cfg.canpt
  }

  predicate PutInv(cfg: Setup, rx: Put) {
    && (match rx.pc
        case PHdr => rx.phase == Header
        case PData(n) => n > 0 && rx.phase == Body(n)
        case PWrite(c) => rx.phase == Header
        case PSend => rx.phase == Header
        case PDone => rx.phase.Closed? || (rx.phase == Header && rx.end)
        case PLost => false)
    && rx.disk <= cfg.io.file
    && rx.got <= |cfg.io.file|
    && (if rx.pc.PWrite? then
          |rx.pc.c| > 0 && |rx.pc.c| <= rx.got && rx.pc.c == cfg.io.file[rx.got - |rx.pc.c|..rx.got]
          && (rx.end || |rx.disk| == rx.got - |rx.pc.c|)
        else rx.end || |rx.disk| == rx.got)
    && (rx.del <==> rx.phase == Closed(HPFCANCEL))
    && (rx.pc.PSend? <==> cfg.canpt > 0 && rx.canstep >= cfg.canpt)
    && rx.canstep <= cfg.canpt
    && rx.chunks == Rounds(cfg.canpt, rx.codes) + (if cfg.canpt == 0 then rx.chunks else rx.canstep)
    && (cfg.canpt == 0 ==> rx.codes == 0 && rx.canstep == 0 && (rx.pc.PDone? ==> rx.phase.Closed?))
  }

  /** `b` rounds of `a` chunks. */
  function Rounds(a: nat, b: nat): nat {
    if b == 0 then 0 else Rounds(a, b - 1) + a
  }

  lemma {:induction false} RoundsIsProduct(a: nat, b: nat)
    ensures Rounds(a, b) == a * b
  {
    if b > 0 { RoundsIsProduct(a, b - 1); }
  }

  /** Whose turn it is: a code is on its way only while the sender waits for it and
      nothing else is in flight; otherwise the sender is ahead of the receiver by exactly
      the blocks in flight. */
  ghost predicate TurnInv(cfg: Setup, w: World) {
    if w.rev != [] then
      && w.rev == [PutCode(w.rx)] && w.tx.pc.GWait? && w.fwd == [] && w.rx.canstep == 0
      && (if w.rx.end then w.rx.pc.PDone? && w.rx.phase == Header else w.rx.pc.PHdr?)
    else if w.rx.pc.PDone? && w.rx.phase == Header then
      w.tx.pc.GDone? && !w.tx.closed && w.fwd == []
    else
      && !(w.tx.pc.GDone? && !w.tx.closed)
      && (cfg.canpt > 0 ==> w.tx.canstep == w.rx.canstep + (if w.rx.pc.PWrite? then 1 else 0) + Chunks(w.fwd))
  }

  ghost predicate WorldInv(cfg: Setup, w: World) {
    && GetInv(cfg, w.tx)
    && PutInv(cfg, w.rx)
    && FlowInv(cfg.io, w.rx.phase, w.rx.got, w.fwd, GetPhase(w.tx), GetSent(w.tx))
    && TurnInv(cfg, w)
  }

  // ----- Every step keeps the invariant

  lemma {:induction false} GetKeeps(cfg: Setup, tx: Get, k: int)
    requires GetInv(cfg, tx) && !tx.pc.GWait? && !tx.pc.GDone? && (tx.pc.GRead? ==> ReadOutcome(cfg.io, tx.pos, k))
    ensures var tx' := GetNext(cfg, tx, k);
      && GetInv(cfg, tx')
      && (GetOut(tx.pc) == [] ==> GetPhase(tx') == GetPhase(tx) && GetSent(tx') == GetSent(tx))
      && (GetOut(tx.pc) != [] ==>
        var m := GetOut(tx.pc)[0];
        && GetOut(tx.pc) == [m]
        && GetPhase(tx') == Advance(GetPhase(tx), m)
        && GetSent(tx') == GetSent(tx) + |Content(m)|
        && 0 <= GetSent(tx) <= GetSent(tx') <= |cfg.io.file|
        && Content(m) == cfg.io.file[GetSent(tx)..GetSent(tx')])
  {
  }

  lemma {:induction false} GetKeepsFlow(cfg: Setup, w: World, k: int)
    requires GetInv(cfg, w.tx) && Possible(cfg, w, GetStep(k)) && !w.tx.pc.GWait?
    requires FlowInv(cfg.io, w.rx.phase, w.rx.got, w.fwd, GetPhase(w.tx), GetSent(w.tx))
    ensures var w' := Do(cfg, w, GetStep(k));
      && GetInv(cfg, w'.tx)
      && FlowInv(cfg.io, w.rx.phase, w.rx.got, w'.fwd, GetPhase(w'.tx), GetSent(w'.tx))
      && Chunks(w'.fwd) == Chunks(w.fwd) + if w.tx.pc.GData? then 1 else 0
  {
    GetKeeps(cfg, w.tx, k);
    if GetOut(w.tx.pc) == [] {
      assert w.fwd + GetOut(w.tx.pc) == w.fwd;
    } else {
      var m := GetOut(w.tx.pc)[0];
      PushKeepsFlow(cfg.io, w.rx.phase, w.rx.got, w.fwd, GetPhase(w.tx), GetSent(w.tx), m);
      ChunksAppend(w.fwd, m);
    }
  }

  lemma {:induction false} GetStepKeeps(cfg: Setup, w: World, k: int)
    requires WorldInv(cfg, w) && Possible(cfg, w, GetStep(k)) && !w.tx.pc.GWait?
    ensures WorldInv(cfg, Do(cfg, w, GetStep(k)))
  {
    GetKeepsFlow(cfg, w, k);
    assert TurnInv(cfg, Do(cfg, w, GetStep(k)));
  }

  lemma {:induction false} GetCodeKeeps(cfg: Setup, tx: Get, m: Msg)
    requires GetInv(cfg, tx) && tx.pc.GWait?
    ensures var tx' := GetCode(tx, m); GetInv(cfg, tx') && GetPhase(tx') == GetPhase(tx) && GetSent(tx') == GetSent(tx)
  {
  }

  lemma {:induction false} CodeKeepsTurn(cfg: Setup, w: World)
    requires TurnInv(cfg, w) && w.tx.pc.GWait? && w.rev != [] && !w.tx.closed
    ensures TurnInv(cfg, w.(tx := GetCode(w.tx, w.rev[0]), rev := w.rev[1..]))
  {
  }

  lemma {:induction false} CodeKeeps(cfg: Setup, w: World, k: int)
    requires WorldInv(cfg, w) && Possible(cfg, w, GetStep(k)) && w.tx.pc.GWait?
    ensures WorldInv(cfg, Do(cfg, w, GetStep(k)))
  {
    GetCodeKeeps(cfg, w.tx, w.rev[0]);
    CodeKeepsTurn(cfg, w);
  }

  lemma {:induction false} PutTakeKeeps(cfg: Setup, rx: Put, m: Msg)
    requires PutInv(cfg, rx) && (rx.pc.PHdr? || rx.pc.PData?)
    requires Advance(rx.phase, m) != Broken && !Advance(rx.phase, m).Finished?
    requires rx.got + |Content(m)| <= |cfg.io.file| && Content(m) == cfg.io.file[rx.got..rx.got + |Content(m)|]
    ensures PutInv(cfg, PutTake(rx, m))
  {
  }

  lemma {:induction false} TakeKeepsWorld(cfg: Setup, w: World, o: seq<int>)
    requires WorldInv(cfg, w) && w.fwd != [] && (w.rx.pc.PHdr? || w.rx.pc.PData?)
    ensures WorldInv(cfg, Do(cfg, w, PutStep(o)))
  {
    HeadFits(cfg.io, w.rx.phase, w.rx.got, w.fwd, GetPhase(w.tx), GetSent(w.tx));
    PutTakeKeeps(cfg, w.rx, w.fwd[0]);
  }

  lemma {:induction false} PutWriteKeeps(cfg: Setup, rx: Put, outcomes: seq<int>)
    requires PutInv(cfg, rx) && rx.pc.PWrite? && (!rx.end ==> Schedule(|rx.pc.c|, outcomes))
    ensures PutInv(cfg, PutWrite(cfg, rx, outcomes))
  {
    if !rx.end {
      ScheduleFacts(|rx.pc.c|, outcomes);
      var n := Landed(outcomes);
      assert rx.pc.c[..n] == rx.pc.c[0..n];
      SliceOfSlice(cfg.io.file, rx.got - |rx.pc.c|, rx.got, 0, n);
      PrefixGrows(cfg.io.file, rx.disk, rx.pc.c[..n]);
    }
  }

  /** A code is due only when the sender has stopped to wait for it. */
  lemma {:induction false} CodeIsAwaited(cfg: Setup, w: World)
    requires WorldInv(cfg, w) && w.rx.pc.PSend?
    ensures w.rev == [] && w.tx.pc.GWait? && w.fwd == []
  {
    NoChunkNoMessage(w.fwd);
  }

  lemma {:induction false} PutSendKeeps(cfg: Setup, rx: Put)
    requires PutInv(cfg, rx) && rx.pc.PSend?
    ensures PutInv(cfg, PutSend(rx))
  {
  }

  lemma {:induction false} SendKeeps(cfg: Setup, w: World, o: seq<int>)
    requires WorldInv(cfg, w) && w.rx.pc.PSend? && |w.rev| < cfg.io.cap
    ensures WorldInv(cfg, Do(cfg, w, PutStep(o)))
  {
    CodeIsAwaited(cfg, w);
    PutSendKeeps(cfg, w.rx);
    var w' := Do(cfg, w, PutStep(o));
    assert w'.rev == [PutCode(w.rx)];
  }

  lemma {:induction false} MoveKeeps(cfg: Setup, w: World, a: Move)
    requires WorldInv(cfg, w) && Possible(cfg, w, a)
    ensures WorldInv(cfg, Do(cfg, w, a))
  {
    match a
    case GetStep(k) =>
      if w.tx.pc.GWait? { CodeKeeps(cfg, w, k); } else { GetStepKeeps(cfg, w, k); }
    case PutStep(o) =>
      if w.rx.pc.PSend? { SendKeeps(cfg, w, o); }
      else if w.rx.pc.PWrite? { PutWriteKeeps(cfg, w.rx, o); }
      else { TakeKeepsWorld(cfg, w, o); }
  }

  // ----- Progress and termination

  lemma {:induction false} CanMove(cfg: Setup, w: World) returns (a: Move)
    requires WorldInv(cfg, w) && !Over(w) && cfg.io.cap >= 1
    ensures Possible(cfg, w, a)
  {
    if w.rx.pc.PWrite? {
      assert w.rx.end || Schedule(|w.rx.pc.c|, [FAULT]);
      a := PutStep([FAULT]);
    } else if w.rx.pc.PSend? || (w.fwd != [] && !w.rx.pc.PDone?) {
      a := PutStep([]);
    } else {
      if w.rx.pc.PDone? && w.rx.phase.Closed? { ParseAfterClosed(w.rx.phase.code, w.fwd); }
      a := GetStep(-1);
    }
  }

  function GetRank(pc: GetPc): nat {
    match pc
    case GRead => 6
    case GHdr(c) => 4 * |c| + 16
    case GData(c) => 4 * |c| + 11
    case GEnd => 5
    case GCancel => 5
    case GWait => 6
    case GDone => 0
  }

  function PutRank(pc: PutPc): nat {
    match pc
    case PHdr => 1
    case PData(_) => 1
    case PWrite(_) => 4
    case PSend => 3
    case PDone => 0
    case PLost => 0
  }

  function WorldRank(cfg: Setup, w: World): int {
    15 * (|cfg.io.file| - w.tx.pos) + GetRank(w.tx.pc) + 4 * Load(w.fwd) + PutRank(w.rx.pc) + |w.rev|
  }

  lemma {:induction false} GetDescends(cfg: Setup, tx: Get, k: int)
    requires !tx.pc.GDone? && !tx.pc.GWait?
    requires tx.pc.GRead? ==> tx.pos <= |cfg.io.file| && ReadOutcome(cfg.io, tx.pos, k)
    ensures var tx' := GetNext(cfg, tx, k);
      GetRank(tx'.pc) - 15 * tx'.pos + 4 * Load(GetOut(tx.pc)) < GetRank(tx.pc) - 15 * tx.pos
  {
  }

  lemma {:induction false} MoveDescends(cfg: Setup, w: World, a: Move)
    requires Possible(cfg, w, a)
    ensures WorldRank(cfg, Do(cfg, w, a)) < WorldRank(cfg, w)
  {
    match a
    case GetStep(k) =>
      if !w.tx.pc.GWait? {
        GetDescends(cfg, w.tx, k);
        if GetOut(w.tx.pc) == [] {
          assert w.fwd + GetOut(w.tx.pc) == w.fwd;
        } else {
          ParseAppend(Header, w.fwd, GetOut(w.tx.pc)[0]);
        }
      }
    case PutStep(o) =>
      if w.rx.pc.PHdr? || w.rx.pc.PData? {
        assert PutRank(PutTake(w.rx, w.fwd[0]).pc) <= 4;
      }
  }

  // ----- What holds of every run

  lemma {:induction false} PlayInv(cfg: Setup, acts: seq<Move>)
    requires Play(cfg, acts).Some?
    ensures WorldInv(cfg, Play(cfg, acts).value)
    ensures WorldRank(cfg, Play(cfg, acts).value) <= 15 * |cfg.io.file| + 7 - |acts|
    decreases |acts|
  {
    if acts != [] {
      var n := |acts| - 1;
      PlayInv(cfg, acts[..n]);
      var w := Play(cfg, acts[..n]).value;
      MoveKeeps(cfg, w, acts[n]);
      MoveDescends(cfg, w, acts[n]);
    }
  }

  lemma {:induction false} OverIsEmpty(cfg: Setup, w: World)
    requires WorldInv(cfg, w) && Over(w)
    ensures w.fwd == [] && w.rev == []
  {
    if w.rx.phase.Closed? { ParseAfterClosed(w.rx.phase.code, w.fwd); }
  }

  lemma {:induction false} DeliveredAtEnd(cfg: Setup, tx: Get, rx: Put)
    requires GetInv(cfg, tx) && PutInv(cfg, rx) && tx.pc.GDone? && rx.pc.PDone?
    requires FlowInv(cfg.io, rx.phase, rx.got, [], GetPhase(tx), GetSent(tx))
    ensures !rx.end && !tx.sErr ==> (rx.disk == cfg.io.file <==> cfg.io.bufsz > 0 || cfg.io.file == [])
    ensures rx.del == tx.sErr
  {
  }

  /** Every run is finite and free of deadlock, no word is ever taken for something else,
      and when both ends have returned both channels are empty, whenever the receiver's
      disk failed. */
  lemma {:induction false} BothFinish(cfg: Setup, acts: seq<Move>)
    requires cfg.io.cap >= 1 && Play(cfg, acts).Some?
    ensures |acts| <= 15 * |cfg.io.file| + 7
    ensures var w := Play(cfg, acts).value;
      && w.rx.pc != PLost
      && (Over(w) ==> w.fwd == [] && w.rev == [])
      && (!Over(w) ==> exists a :: Possible(cfg, w, a) && Play(cfg, acts + [a]).Some?)
  {
    PlayInv(cfg, acts);
    var w := Play(cfg, acts).value;
    if Over(w) {
      OverIsEmpty(cfg, w);
    } else {
      var a := CanMove(cfg, w);
      assert (acts + [a])[..|acts|] == acts;
    }
  }

  /** With cancellation points on, the chunks counted are `canpt` for each code sent plus
      the `canstep` of the current round, and a code is due exactly when a round is full:
      one code for each `canpt` chunks. With them off no code is sent. A code is in flight
      only while the sender waits for it with nothing else in flight, so both ends agree
      whose turn it is. */
  lemma {:induction false} OneCodePerRound(cfg: Setup, acts: seq<Move>)
    requires Play(cfg, acts).Some?
    ensures var w := Play(cfg, acts).value;
      && (w.rev != [] ==> |w.rev| == 1 && w.tx.pc.GWait? && w.fwd == [])
      && (cfg.canpt == 0 ==> w.rx.codes == 0)
      && (cfg.canpt > 0 ==>
            && w.rx.chunks == cfg.canpt * w.rx.codes + w.rx.canstep
            && w.rx.canstep <= cfg.canpt
            && (w.rx.canstep == cfg.canpt <==> w.rx.pc.PSend?))
  {
    PlayInv(cfg, acts);
    RoundsIsProduct(cfg.canpt, Play(cfg, acts).value.rx.codes);
  }

  /** The disk always holds a prefix of the file. When neither end met an error it holds
      the whole file at the end if and only if the sender had a buffer to read into (or
      nothing to send); and the receiver marks its file for deletion exactly when the
      sender raised CANCEL. */
  lemma {:induction false} CancelDeliversPrefix(cfg: Setup, acts: seq<Move>)
    requires Play(cfg, acts).Some?
    ensures var w := Play(cfg, acts).value;
      && w.rx.disk <= cfg.io.file
      && (Over(w) && !w.rx.end && !w.tx.sErr ==>
            (w.rx.disk == cfg.io.file <==> cfg.io.bufsz > 0 || cfg.io.file == []))
      && (Over(w) ==> w.rx.del == w.tx.sErr)
  {
    PlayInv(cfg, acts);
    var w := Play(cfg, acts).value;
    if Over(w) {
      OverIsEmpty(cfg, w);
      DeliveredAtEnd(cfg, w.tx, w.rx);
    }
  }
}
