/** Whole lists of messages from one host to another. */
module Exchanges {
  import opened Common
  import opened Cipher
  import opened Channel
  import opened BlockMode
  import opened Connection

  /** The bytes of the frames of a list of messages. */
  function WireLength(tag: nat, msgs: seq<seq<Byte>>): nat {
    if msgs == [] then 0 else FrameLength(tag, msgs[0]) + WireLength(tag, msgs[1..])
  }

  function TagLength(tag: Option<seq<Byte>>): nat {
    if tag.Some? then CIA_LEN else 0
  }

  lemma {:induction false} WireLengthIs(e: End, s: St, msgs: seq<seq<Byte>>)
    requires Valid(s) && GoodTag(e.tag)
    ensures |Wire(e, s, msgs).out| == WireLength(TagLength(e.tag), msgs)
    decreases |msgs|
  {
    if msgs != [] { WireLengthIs(e, Frame(e, s, msgs[0]).end, msgs[1..]); }
  }

  /** `writebuf` on each message in turn. */
  method SendAll(c: Conn, msgs: seq<seq<Byte>>) returns (ok: bool)
    requires c.Sound()
    modifies c`out, c`wsched, c`tx
    ensures c.Sound()
    ensures ok ==> c.out == old(c.out) + Wire(c.Sender(), old(c.tx), msgs).out
    ensures ok ==> c.tx == Wire(c.Sender(), old(c.tx), msgs).end
    ensures Clean(old(c.wsched), WireLength(c.TagLen(), msgs)) ==> ok
  {
    ghost var e, s0 := c.Sender(), c.tx;
    ok := true;
    var i := 0;
    assert msgs[0..] == msgs;
    while i < |msgs|
      invariant 0 <= i <= |msgs| && c.Sound() && c.Sender() == e
      invariant SentSoFar(e, s0, old(c.out), msgs, c.tx, c.out, i)
      invariant Clean(old(c.wsched), WireLength(c.TagLen(), msgs)) ==>
                Clean(c.wsched, WireLength(c.TagLen(), msgs[i..]))
    {
      SentOneMore(e, s0, old(c.out), msgs, c.tx, c.out, i, c.TagLen());
      ok := c.WriteBuf(msgs[i]);
      if !ok { return; }
      i := i + 1;
    }
    assert msgs[i..] == [];
    assert c.out + [] == c.out;
  }

  /** What is out and what the rest of the list will add is what the list makes. */
  ghost predicate SentSoFar(e: End, s0: St, out0: seq<Byte>, msgs: seq<seq<Byte>>, tx: St, out: seq<Byte>, i: nat)
    requires Valid(s0) && Valid(tx) && i <= |msgs|
  {
    && out + Wire(e, tx, msgs[i..]).out == out0 + Wire(e, s0, msgs).out
    && Wire(e, tx, msgs[i..]).end == Wire(e, s0, msgs).end
  }

  lemma {:induction false} SentOneMore(e: End, s0: St, out0: seq<Byte>, msgs: seq<seq<Byte>>, tx: St,
                                       out: seq<Byte>, i: nat, tag: nat)
    requires Valid(s0) && Valid(tx) && i < |msgs| && SentSoFar(e, s0, out0, msgs, tx, out, i)
    ensures var f := Frame(e, tx, msgs[i]); SentSoFar(e, s0, out0, msgs, f.end, out + f.out, i + 1)
    ensures WireLength(tag, msgs[i..]) == FrameLength(tag, msgs[i]) + WireLength(tag, msgs[i + 1..])
  {
    var f := Frame(e, tx, msgs[i]);
    assert msgs[i..][1..] == msgs[i + 1..] && msgs[i..][0] == msgs[i];
    Assoc(out, f.out, Wire(e, f.end, msgs[i + 1..]).out);
  }

  /** One `readbuf` of the `n` still to come. */
  method ReceiveOne(c: Conn, ghost e: End, ghost all: Result<Inbox>, ghost got: seq<seq<Byte>>, ghost n: nat)
    returns (m: Result<seq<Byte>>)
    requires c.Sound() && c.Receiver() == e && n > 0 && ReadSoFar(e, all, got, c.rx, c.inp, n)
    modifies c`inp, c`rsched, c`rx
    ensures c.Sound()
    ensures m.Ok? ==> ReadSoFar(e, all, got + [m.value], c.rx, c.inp, n - 1)
    ensures Clean(old(c.rsched), |old(c.inp)|) && all.Ok? ==> m.Ok?
    ensures Clean(old(c.rsched), |old(c.inp)|) ==> Clean(c.rsched, |c.inp|)
  {
    m := c.ReadBuf();
    if m.Ok? { ReadOneMore(e, all, got, old(c.rx), old(c.inp), n, Got(m.value, c.rx, c.inp)); }
  }

  /** `readbuf`, `n` times. */
  method ReceiveAll(c: Conn, n: nat) returns (got: seq<seq<Byte>>, ok: bool)
    requires c.Sound()
    modifies c`inp, c`rsched, c`rx
    ensures c.Sound()
    ensures ok ==> ReadAll(c.Receiver(), old(c.rx), old(c.inp), n) == Ok(Inbox(got, c.rx, c.inp))
    ensures Clean(old(c.rsched), |old(c.inp)|) && ReadAll(c.Receiver(), old(c.rx), old(c.inp), n).Ok? ==> ok
  {
    ghost var e, all := c.Receiver(), ReadAll(c.Receiver(), c.rx, c.inp, n);
    got, ok := [], true;
    ReadStart(e, all, c.rx, c.inp, n);
    for i := 0 to n
      invariant c.Sound() && c.Receiver() == e
      invariant ReadSoFar(e, all, got, c.rx, c.inp, n - i)
      invariant Clean(old(c.rsched), |old(c.inp)|) ==> Clean(c.rsched, |c.inp|)
    {
      var m := ReceiveOne(c, e, all, got, n - i);
      if m.Err? { return got, false; }
      got := got + [m.value];
    }
    ReadEnd(e, all, got, c.rx, c.inp);
  }

  /** What is read and what the rest of the bytes will give is what all of them give. */
  ghost predicate ReadSoFar(e: End, all: Result<Inbox>, got: seq<seq<Byte>>, rx: St, inp: seq<Byte>, n: nat)
    requires Valid(rx)
  {
    match ReadAll(e, rx, inp, n)
    case Err => all.Err?
    case Ok(more) => all == Ok(Inbox(got + more.msgs, more.end, more.rest))
  }

  lemma {:induction false} ReadStart(e: End, all: Result<Inbox>, rx: St, inp: seq<Byte>, n: nat)
    requires Valid(rx) && all == ReadAll(e, rx, inp, n)
    ensures ReadSoFar(e, all, [], rx, inp, n)
  {
    if all.Ok? { assert [] + all.value.msgs == all.value.msgs; }
  }

  lemma {:induction false} ReadEnd(e: End, all: Result<Inbox>, got: seq<seq<Byte>>, rx: St, inp: seq<Byte>)
    requires Valid(rx) && ReadSoFar(e, all, got, rx, inp, 0)
    ensures all == Ok(Inbox(got, rx, inp))
  {
    assert got + [] == got;
  }

  lemma {:induction false} ReadOneMore(e: End, all: Result<Inbox>, got: seq<seq<Byte>>, rx: St, inp: seq<Byte>,
                                       n: nat, one: Got)
    requires Valid(rx) && n > 0 && ReadSoFar(e, all, got, rx, inp, n)
    requires ReadOne(e, rx, inp) == Ok(one) && Valid(one.end)
    ensures ReadSoFar(e, all, got + [one.data], one.end, one.rest, n - 1)
  {
    var more := ReadAll(e, one.end, one.rest, n - 1);
    if more.Ok? { Assoc(got, [one.data], more.value.msgs); }
  }

  /** `ReceiveAll` where it is known what the bytes hold. */
  method ReceiveExpected(c: Conn, n: nat, ghost safe: bool, ghost msgs: seq<seq<Byte>>, ghost end: St)
    returns (got: seq<seq<Byte>>, ok: bool)
    requires c.Sound() && (safe ==> ReadAll(c.Receiver(), c.rx, c.inp, n) == Ok(Inbox(msgs, end, [])))
    modifies c`inp, c`rsched, c`rx
    ensures c.Sound()
    ensures safe && Clean(old(c.rsched), |old(c.inp)|) ==> ok
    ensures safe && ok ==> got == msgs && c.rx == end && c.inp == []
  {
    got, ok := ReceiveAll(c, n);
  }

  lemma {:induction false} SafeExchange(x: bool, y: bool, on: bool, tag: Option<seq<Byte>>, s: St,
                                        msgs: seq<seq<Byte>>, w: Coded)
    requires Valid(s) && GoodTag(tag) && FitBuffer(msgs) && w == Wire(Host(x, on, tag), s, msgs)
    ensures |w.out| == WireLength(TagLength(tag), msgs)
    ensures ExchangeSafe(x, y, on, tag, s, msgs) ==>
      ReadAll(Host(y, on, tag), s, w.out, |msgs|) == Ok(Inbox(msgs, w.end, []))
  {
    MessagesRoundTrip(x, y, on, tag, s, msgs, []);
    WireLengthIs(Host(x, on, tag), s, msgs);
    assert w.out + [] == w.out;
  }

  /** The receiver asks for the token if the sender puts it before its payloads. */
  predicate Matched(a: Conn, b: Conn)
    reads b
  {
    a.tags == b.ciaOn && (a.tags ==> a.cia == b.cia)
  }

  /** A list of messages from one host to another. Whatever short and interrupted calls
      happen on the way, if none faults and the exchange is safe for the two byte orders,
      the other host reads exactly the list, nothing is left over, and the two ciphers are
      equal again. */
  method Exchange(a: Conn, b: Conn, msgs: seq<seq<Byte>>) returns (got: seq<seq<Byte>>, ok: bool)
    requires a != b && a.Sound() && b.Sound() && FitBuffer(msgs) && Matched(a, b)
    requires a.gen == SeedGen(a.big) && b.gen == SeedGen(b.big)
    requires a.on == b.on && a.tx == b.rx && b.inp == []
    modifies a`out, a`wsched, a`tx, b`inp, b`rsched, b`rx
    ensures a.Sound() && b.Sound()
    ensures var n := WireLength(a.TagLen(), msgs);
      ExchangeSafe(a.big, b.big, a.on, a.Tag(), old(a.tx), msgs) ==>
        && (Clean(old(a.wsched), n) && Clean(old(b.rsched), n) ==> ok)
        && (ok ==> got == msgs && a.tx == b.rx && b.inp == [])
  {
    ghost var w, safe := Wire(a.Sender(), a.tx, msgs), ExchangeSafe(a.big, b.big, a.on, a.Tag(), a.tx, msgs);
    got := [];
    assert a.Sender() == Host(a.big, a.on, a.Tag()) && b.Receiver() == Host(b.big, a.on, a.Tag());
    SafeExchange(a.big, b.big, a.on, a.Tag(), a.tx, msgs, w);
    var before := |a.out|;
    ok := SendAll(a, msgs);
    if !ok { return; }
    b.inp := a.out[before..];
    assert b.inp == w.out;
    got, ok := ReceiveExpected(b, |msgs|, safe, msgs, w.end);
  }

  // ----- In block mode

  /** `writebuf` on each message in turn. */
  method BlkSendAll(c: Conn, msgs: seq<seq<Byte>>) returns (ok: bool)
    modifies c`out, c`wsched
    ensures ok ==> c.out == old(c.out) + BlkWire(c.block, c.big, c.Tag(), msgs)
    ensures Clean(old(c.wsched), |BlkWire(c.block, c.big, c.Tag(), msgs)|) ==> ok
  {
    ghost var all := BlkWire(c.block, c.big, c.Tag(), msgs);
    ok := true;
    assert msgs[0..] == msgs;
    for i := 0 to |msgs|
      invariant c.out + BlkWire(c.block, c.big, c.Tag(), msgs[i..]) == old(c.out) + all
      invariant Clean(old(c.wsched), |all|) ==> Clean(c.wsched, |BlkWire(c.block, c.big, c.Tag(), msgs[i..])|)
    {
      assert msgs[i..][1..] == msgs[i + 1..] && msgs[i..][0] == msgs[i];
      Assoc(c.out, BlkFrame(c.block, c.big, c.Tag(), msgs[i]), BlkWire(c.block, c.big, c.Tag(), msgs[i + 1..]));
      ok := c.BlkWriteBuf(msgs[i]);
      if !ok { return; }
    }
    assert msgs[|msgs|..] == [] && c.out + [] == c.out;
  }

  ghost predicate BlkReadSoFar(b: Block, big: bool, tag: Option<seq<Byte>>, all: Result<Messages>,
                               got: seq<seq<Byte>>, inp: seq<Byte>, os: seq<Before>)
    requires AllGood(os)
  {
    match BlkReadAll(b, big, tag, os, inp)
    case Err => all.Err?
    case Ok(more) => all == Ok(Messages(got + more.msgs, more.rest))
  }

  lemma {:induction false} BlkReadOneMore(b: Block, big: bool, tag: Option<seq<Byte>>, all: Result<Messages>,
                                          got: seq<seq<Byte>>, inp: seq<Byte>, os: seq<Before>)
    requires AllGood(os) && os != [] && BlkReadSoFar(b, big, tag, all, got, inp, os)
    ensures all.Ok? ==> BlkReadOne(b, big, tag, os[0], inp).Ok?
    ensures BlkReadOne(b, big, tag, os[0], inp).Ok? ==>
      var one := BlkReadOne(b, big, tag, os[0], inp).value;
      BlkReadSoFar(b, big, tag, all, got + [one.buf], one.rest, os[1..])
  {
    if BlkReadOne(b, big, tag, os[0], inp).Ok? {
      var one := BlkReadOne(b, big, tag, os[0], inp).value;
      var more := BlkReadAll(b, big, tag, os[1..], one.rest);
      if more.Ok? { Assoc(got, [one.buf], more.value.msgs); }
    }
  }

  /** `readbuf`, once for each set of buffers. */
  method BlkReceiveAll(c: Conn, os: seq<Before>) returns (got: seq<seq<Byte>>, ok: bool)
    requires c.Sound() && !c.ciaSend && AllGood(os)
    modifies c`inp, c`rsched, c`ciaSend
    ensures c.Sound() && !c.ciaSend
    ensures ok ==> BlkReadAll(c.block, c.big, c.Asked(), os, old(c.inp)) == Ok(Messages(got, c.inp))
    ensures Clean(old(c.rsched), |old(c.inp)|) && BlkReadAll(c.block, c.big, c.Asked(), os, old(c.inp)).Ok? ==> ok
  {
    ghost var tag, all := c.Asked(), BlkReadAll(c.block, c.big, c.Asked(), os, c.inp);
    got, ok := [], true;
    assert os[0..] == os;
    assert all.Ok? ==> [] + all.value.msgs == all.value.msgs;
    for i := 0 to |os|
      invariant c.Sound() && !c.ciaSend && c.Asked() == tag
      invariant BlkReadSoFar(c.block, c.big, tag, all, got, c.inp, os[i..])
      invariant Clean(old(c.rsched), |old(c.inp)|) ==> Clean(c.rsched, |c.inp|)
    {
      BlkReadOneMore(c.block, c.big, tag, all, got, c.inp, os[i..]);
      assert os[i..][0] == os[i] && os[i..][1..] == os[i + 1..];
      var m := c.BlkReadBuf(os[i]);
      if m.Err? { return got, false; }
      got := got + [m.value];
    }
    assert os[|os|..] == [] && got + [] == got;
  }

  /** `BlkReceiveAll` where it is known what the bytes hold. */
  method BlkReceiveExpected(c: Conn, os: seq<Before>, ghost msgs: seq<seq<Byte>>)
    returns (got: seq<seq<Byte>>, ok: bool)
    requires c.Sound() && !c.ciaSend && AllGood(os)
    requires BlkReadAll(c.block, c.big, c.Asked(), os, c.inp) == Ok(Messages(msgs, []))
    modifies c`inp, c`rsched, c`ciaSend
    ensures c.Sound() && !c.ciaSend
    ensures Clean(old(c.rsched), |old(c.inp)|) ==> ok
    ensures ok ==> got == msgs && c.inp == []
  {
    got, ok := BlkReceiveAll(c, os);
  }

  lemma {:induction false} BlkWireHolds(b: Block, x: bool, y: bool, tag: Option<seq<Byte>>, os: seq<Before>,
                                        msgs: seq<seq<Byte>>, w: seq<Byte>)
    requires Inverse(b) && Token(tag) && FitBuffer(msgs) && |os| == |msgs| && AllGood(os)
    requires w == BlkWire(b, x, tag, msgs)
    ensures BlkReadAll(b, y, tag, os, w) == Ok(Messages(msgs, []))
  {
    BlkMessagesRoundTrip(b, x, y, tag, os, msgs, []);
    assert w + [] == w;
  }

  /** The exchange, where it is known what the bytes on the wire will give. */
  method BlkDeliver(a: Conn, b: Conn, msgs: seq<seq<Byte>>, os: seq<Before>) returns (got: seq<seq<Byte>>, ok: bool)
    requires a != b && b.Sound() && !b.ciaSend && b.inp == [] && AllGood(os)
    requires BlkReadAll(b.block, b.big, b.Asked(), os, BlkWire(a.block, a.big, a.Tag(), msgs)) == Ok(Messages(msgs, []))
    modifies a`out, a`wsched, b`inp, b`rsched, b`ciaSend
    ensures b.Sound() && !b.ciaSend
    ensures var n := |BlkWire(a.block, a.big, a.Tag(), msgs)|;
      Clean(old(a.wsched), n) && Clean(old(b.rsched), n) ==> ok
    ensures ok ==> got == msgs && b.inp == []
  {
    got := [];
    var before := |a.out|;
    ok := BlkSendAll(a, msgs);
    if !ok { return; }
    b.inp := a.out[before..];
    assert b.inp == BlkWire(a.block, a.big, a.Tag(), msgs);
    got, ok := BlkReceiveExpected(b, os, msgs);
  }

  /** A list of messages in block mode, empty ones included, between hosts of any byte
      order. If no call faults the other host reads exactly the list and nothing is left
      over, whatever its buffers held before. */
  method BlkExchange(a: Conn, b: Conn, msgs: seq<seq<Byte>>, os: seq<Before>) returns (got: seq<seq<Byte>>, ok: bool)
    requires a != b && a.Sound() && b.Sound() && FitBuffer(msgs) && Matched(a, b)
    requires a.block == b.block && Inverse(a.block) && !b.ciaSend && b.inp == []
    requires AllGood(os) && |os| == |msgs|
    modifies a`out, a`wsched, b`inp, b`rsched, b`ciaSend
    ensures b.Sound() && !b.ciaSend
    ensures var n := |BlkWire(a.block, a.big, a.Tag(), msgs)|;
      Clean(old(a.wsched), n) && Clean(old(b.rsched), n) ==> ok
    ensures ok ==> got == msgs && b.inp == []
  {
    BlkWireHolds(a.block, a.big, b.big, a.Tag(), os, msgs, BlkWire(a.block, a.big, a.Tag(), msgs));
    got, ok := BlkDeliver(a, b, msgs, os);
  }
}
