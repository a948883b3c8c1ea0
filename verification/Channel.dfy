/** Messages on the wire: what `sndbuf`, `rcvbuf`, `writebuf` and `readbuf` make of payloads
    and bytes, with the optional identity token. */
module Channel {
  import opened Common
  import opened Headers
  import opened Cipher

  const COMMBUFLEN := 512 * 1024
  const CIA_LEN := 36
  const TWO_31 := 0x8000_0000

  /** One end of a connection: its generator, whether the cipher is on, its byte order, and
      the token that stands before every payload, if identity checking is on. */
  datatype End = End(gen: Gen, on: bool, big: bool, tag: Option<seq<Byte>>)

  /** A host of the given byte order. */
  function Host(big: bool, on: bool, tag: Option<seq<Byte>>): End {
    End(SeedGen(big), on, big, tag)
  }

  predicate GoodTag(tag: Option<seq<Byte>>) {
    tag.Some? ==> |tag.value| == CIA_LEN
  }

  /** The cipher of one direction; it is off until the key exchange is over. */
  function Crypt(e: End, m: Mode, s: St, data: seq<Byte>): (r: Coded)
    requires Valid(s)
    ensures |r.out| == |data| && Valid(r.end)
  {
    if e.on then Run(e.gen, m, s, 0, data) else Coded(data, s)
  }

  /** A C string: the bytes before the first NUL. */
  function CStr(s: seq<Byte>): seq<Byte> {
    if s == [] || s[0] == 0 then [] else [s[0]] + CStr(s[1..])
  }

  lemma {:induction false} CStrFacts(a: seq<Byte>, b: seq<Byte>)
    requires |a| == |b| && 0 !in a
    ensures CStr(a) == a
    ensures CStr(b) == a <==> b == a
  {
    if a != [] {
      CStrFacts(a[1..], b[1..]);
      assert a == [a[0]] + a[1..];
      assert b == [b[0]] + b[1..];
    }
  }

  // ----- What travels on the wire

  datatype Got = Got(data: seq<Byte>, end: St, rest: seq<Byte>)

  /** One `rcvbuf` against the bytes that arrive. */
  function Received(e: End, s: St, inp: seq<Byte>, len: nat): (r: Result<Got>)
    requires Valid(s)
    ensures r.Ok? ==> |r.value.data| == len && Valid(r.value.end)
  {
    var n := if e.tag.Some? then CIA_LEN else 0;
    if |inp| < n + len then Err
    else
      var c := Crypt(e, Unpack, s, inp[..n]);
      if e.tag.Some? && CStr(c.out) != CStr(e.tag.value) then Err
      else
        var s' := if e.tag.Some? then c.end else s;
        var d := Crypt(e, Unpack, s', inp[n..n + len]);
        Ok(Got(d.out, d.end, inp[n + len..]))
  }

  /** What a peer sends for one `rcvbuf`: the token, if it sends one, and the payload, each
      encrypted by a call of its own. */
  function Tagged(e: End, s: St, data: seq<Byte>): (r: Coded)
    requires Valid(s)
    ensures Valid(r.end)
  {
    if e.tag.None? then Crypt(e, Pack, s, data)
    else
      var t := Crypt(e, Pack, s, e.tag.value);
      var d := Crypt(e, Pack, t.end, data);
      Coded(t.out + d.out, d.end)
  }

  /** The four bytes that announce a message. */
  function MsgHeader(big: bool, msg: seq<Byte>): (h: seq<Byte>)
    ensures |h| == 4
  {
    Store32(big, HdrSet(big, |msg|))
  }

  function Header(e: End, msg: seq<Byte>): seq<Byte> {
    MsgHeader(e.big, msg)
  }

  /** One message: a four-byte header and the data. */
  function Frame(e: End, s: St, msg: seq<Byte>): (r: Coded)
    requires Valid(s)
    ensures Valid(r.end)
  {
    var h := Tagged(e, s, Header(e, msg));
    var d := Tagged(e, h.end, msg);
    Coded(h.out + d.out, d.end)
  }

  function Wire(e: End, s: St, msgs: seq<seq<Byte>>): (r: Coded)
    requires Valid(s)
    ensures Valid(r.end)
    decreases |msgs|
  {
    if msgs == [] then Coded([], s)
    else
      var f := Frame(e, s, msgs[0]);
      var rest := Wire(e, f.end, msgs[1..]);
      Coded(f.out + rest.out, rest.end)
  }

  /** The length a header announces; a negative one makes `rdfd` read nothing. */
  function MsgLen(big: bool, h: seq<Byte>): nat
    requires |h| == 4
  {
    var v := HdrGet(big, Load32(big, h));
    if v < TWO_31 then v else 0
  }

  function ReadOne(e: End, s: St, inp: seq<Byte>): (r: Result<Got>)
    requires Valid(s)
    ensures r.Ok? ==> Valid(r.value.end)
  {
    var h := Received(e, s, inp, 4);
    if h.Err? then Err else Received(e, h.value.end, h.value.rest, MsgLen(e.big, h.value.data))
  }

  datatype Inbox = Inbox(msgs: seq<seq<Byte>>, end: St, rest: seq<Byte>)

  /** `n` calls of `readbuf`. */
  function ReadAll(e: End, s: St, inp: seq<Byte>, n: nat): Result<Inbox>
    requires Valid(s)
    decreases n
  {
    if n == 0 then Ok(Inbox([], s, inp))
    else
      var one := ReadOne(e, s, inp);
      if one.Err? then Err
      else
        var more := ReadAll(e, one.value.end, one.value.rest, n - 1);
        if more.Err? then Err
        else Ok(Inbox([one.value.data] + more.value.msgs, more.value.end, more.value.rest))
  }

  // ----- Where the two ends agree

  /** The ends code alike, and differ at most in byte order and in how they get seeds. */
  ghost predicate Alike(a: End, b: End) {
    SameCode(a.gen, b.gen) && a.on == b.on && a.tag == b.tag && GoodTag(a.tag)
  }

  /** In a call over `n` bytes both ends get the same seeds. */
  predicate CallAgrees(a: End, b: End, s: St, n: nat)
    requires Valid(s)
  {
    a.on ==> RoundsAgree(a.gen, b.gen, s, 0, n)
  }

  predicate TaggedAgrees(a: End, b: End, s: St, data: seq<Byte>)
    requires Valid(s)
  {
    if a.tag.None? then CallAgrees(a, b, s, |data|)
    else
      var t := a.tag.value;
      CallAgrees(a, b, s, |t|) && CallAgrees(a, b, Crypt(a, Pack, s, t).end, |data|)
  }

  predicate FrameAgrees(a: End, b: End, s: St, msg: seq<Byte>)
    requires Valid(s)
  {
    TaggedAgrees(a, b, s, Header(a, msg)) && TaggedAgrees(a, b, Tagged(a, s, Header(a, msg)).end, msg)
  }

  predicate WireAgrees(a: End, b: End, s: St, msgs: seq<seq<Byte>>)
    requires Valid(s)
    decreases |msgs|
  {
    msgs == [] || (FrameAgrees(a, b, s, msgs[0]) && WireAgrees(a, b, Frame(a, s, msgs[0]).end, msgs[1..]))
  }

  // ----- The round trip

  lemma {:induction false} CryptRoundTrip(a: End, b: End, s: St, data: seq<Byte>)
    requires Lossless(a.gen) && Alike(a, b) && Valid(s) && CallAgrees(a, b, s, |data|)
    ensures Crypt(b, Unpack, s, Crypt(a, Pack, s, data).out) == Coded(data, Crypt(a, Pack, s, data).end)
  {
    if a.on {
      UnpackUndoesPack(a.gen, s, 0, data);
      RunAgrees(a.gen, b.gen, Unpack, s, 0, Run(a.gen, Pack, s, 0, data).out);
    }
  }

  lemma {:induction false} ReceivedRoundTrip(a: End, b: End, s: St, data: seq<Byte>, rest: seq<Byte>)
    requires Lossless(a.gen) && Alike(a, b) && Valid(s) && TaggedAgrees(a, b, s, data)
    ensures Received(b, s, Tagged(a, s, data).out + rest, |data|) == Ok(Got(data, Tagged(a, s, data).end, rest))
  {
    var wire := Tagged(a, s, data).out + rest;
    if a.tag.Some? {
      var t := Crypt(a, Pack, s, a.tag.value);
      CryptRoundTrip(a, b, s, a.tag.value);
      CryptRoundTrip(a, b, t.end, data);
      assert wire[..CIA_LEN] == t.out;
      assert wire[CIA_LEN..CIA_LEN + |data|] == Crypt(a, Pack, t.end, data).out;
      assert wire[CIA_LEN + |data|..] == rest;
    } else {
      CryptRoundTrip(a, b, s, data);
      assert wire[0..0 + |data|] == Crypt(a, Pack, s, data).out;
      assert wire[0 + |data|..] == rest;
    }
  }

  lemma {:induction false} ReadOneRoundTrip(a: End, b: End, s: St, msg: seq<Byte>, rest: seq<Byte>)
    requires Lossless(a.gen) && Alike(a, b) && Valid(s) && |msg| < TWO_31 && FrameAgrees(a, b, s, msg)
    ensures ReadOne(b, s, Frame(a, s, msg).out + rest) == Ok(Got(msg, Frame(a, s, msg).end, rest))
  {
    var h := Tagged(a, s, Header(a, msg));
    var d := Tagged(a, h.end, msg);
    Assoc(h.out, d.out, rest);
    ReceivedRoundTrip(a, b, s, Header(a, msg), d.out + rest);
    HeaderRoundTrip(a.big, b.big, |msg|);
    ReceivedRoundTrip(a, b, h.end, msg, rest);
  }

  lemma {:induction false} ReadAllStep(a: End, b: End, s: St, msgs: seq<seq<Byte>>, rest: seq<Byte>, f: Coded, w: Coded)
    requires Valid(s) && msgs != [] && f == Frame(a, s, msgs[0]) && w == Wire(a, f.end, msgs[1..])
    requires ReadOne(b, s, f.out + (w.out + rest)) == Ok(Got(msgs[0], f.end, w.out + rest))
    requires ReadAll(b, f.end, w.out + rest, |msgs| - 1) == Ok(Inbox(msgs[1..], w.end, rest))
    ensures var v := Wire(a, s, msgs); ReadAll(b, s, v.out + rest, |msgs|) == Ok(Inbox(msgs, v.end, rest))
  {
    Assoc(f.out, w.out, rest);
    assert [msgs[0]] + msgs[1..] == msgs;
  }

  /** One message put before any other bytes is read back, and they are left. */
  ghost predicate OneReturns(a: End, b: End, s: St, msg: seq<Byte>, rest: seq<Byte>) {
    Valid(s) && |msg| < TWO_31 && FrameAgrees(a, b, s, msg) ==>
      ReadOne(b, s, Frame(a, s, msg).out + rest) == Ok(Got(msg, Frame(a, s, msg).end, rest))
  }

  predicate FitBuffer(msgs: seq<seq<Byte>>) {
    forall i :: 0 <= i < |msgs| ==> |msgs[i]| < COMMBUFLEN
  }

  lemma {:induction false} AllReturn(a: End, b: End, s: St, msgs: seq<seq<Byte>>, rest: seq<Byte>)
    requires forall t, m, r :: OneReturns(a, b, t, m, r)
    requires Valid(s) && FitBuffer(msgs) && WireAgrees(a, b, s, msgs)
    ensures var w := Wire(a, s, msgs); ReadAll(b, s, w.out + rest, |msgs|) == Ok(Inbox(msgs, w.end, rest))
    decreases |msgs|
  {
    if msgs == [] {
      assert [] + rest == rest;
    } else {
      var f := Frame(a, s, msgs[0]);
      var w := Wire(a, f.end, msgs[1..]);
      assert OneReturns(a, b, s, msgs[0], w.out + rest);
      AllReturn(a, b, f.end, msgs[1..], rest);
      ReadAllStep(a, b, s, msgs, rest, f, w);
    }
  }

  lemma {:induction false} AgreeingEndsExchange(a: End, b: End, s: St, msgs: seq<seq<Byte>>, rest: seq<Byte>)
    requires Lossless(a.gen) && Alike(a, b) && Valid(s) && FitBuffer(msgs) && WireAgrees(a, b, s, msgs)
    ensures var w := Wire(a, s, msgs); ReadAll(b, s, w.out + rest, |msgs|) == Ok(Inbox(msgs, w.end, rest))
  {
    forall t, m, r ensures OneReturns(a, b, t, m, r) {
      if Valid(t) && |m| < TWO_31 && FrameAgrees(a, b, t, m) { ReadOneRoundTrip(a, b, t, m, r); }
    }
    AllReturn(a, b, s, msgs, rest);
  }

  // ----- The calls of the cipher that a list of messages makes

  function TaggedOps(e: End, data: seq<Byte>): (ops: seq<Op>)
    ensures Acceptable(ops)
  {
    (if e.tag.Some? then [Message(e.tag.value)] else []) + [Message(data)]
  }

  function FrameOps(e: End, msg: seq<Byte>): (ops: seq<Op>)
    ensures Acceptable(ops)
  {
    TaggedOps(e, Header(e, msg)) + TaggedOps(e, msg)
  }

  function WireOps(e: End, msgs: seq<seq<Byte>>): (ops: seq<Op>)
    ensures Acceptable(ops)
  {
    if msgs == [] then [] else FrameOps(e, msgs[0]) + WireOps(e, msgs[1..])
  }

  lemma {:induction false} OneCall(a: End, b: End, s: St, d: seq<Byte>)
    requires Valid(s) && a.on
    ensures TalkAgrees(a.gen, b.gen, s, [Message(d)]) <==> CallAgrees(a, b, s, |d|)
    ensures TalkEnd(a.gen, s, [Message(d)]) == Crypt(a, Pack, s, d).end
  {
    RunEnd(a.gen, Pack, s, 0, d);
    assert [Message(d)][1..] == [];
  }

  lemma {:induction false} TaggedOpsAgree(a: End, b: End, s: St, data: seq<Byte>)
    requires Valid(s) && a.on
    ensures TalkAgrees(a.gen, b.gen, s, TaggedOps(a, data)) <==> TaggedAgrees(a, b, s, data)
    ensures TalkEnd(a.gen, s, TaggedOps(a, data)) == Tagged(a, s, data).end
  {
    if a.tag.Some? {
      var t := a.tag.value;
      OneCall(a, b, s, t);
      OneCall(a, b, Crypt(a, Pack, s, t).end, data);
      TalkAppend(a.gen, b.gen, s, [Message(t)], [Message(data)]);
    } else {
      OneCall(a, b, s, data);
      assert TaggedOps(a, data) == [Message(data)];
    }
  }

  lemma {:induction false} FrameOpsAgree(a: End, b: End, s: St, msg: seq<Byte>)
    requires Valid(s) && a.on
    ensures TalkAgrees(a.gen, b.gen, s, FrameOps(a, msg)) <==> FrameAgrees(a, b, s, msg)
    ensures TalkEnd(a.gen, s, FrameOps(a, msg)) == Frame(a, s, msg).end
  {
    TaggedOpsAgree(a, b, s, Header(a, msg));
    TaggedOpsAgree(a, b, Tagged(a, s, Header(a, msg)).end, msg);
    TalkAppend(a.gen, b.gen, s, TaggedOps(a, Header(a, msg)), TaggedOps(a, msg));
  }

  lemma {:induction false} WireOpsAgree(a: End, b: End, s: St, msgs: seq<seq<Byte>>)
    requires Valid(s) && a.on
    ensures TalkAgrees(a.gen, b.gen, s, WireOps(a, msgs)) <==> WireAgrees(a, b, s, msgs)
    decreases |msgs|
  {
    if msgs != [] {
      FrameOpsAgree(a, b, s, msgs[0]);
      TalkAppend(a.gen, b.gen, s, FrameOps(a, msgs[0]), WireOps(a, msgs[1..]));
      WireOpsAgree(a, b, Frame(a, s, msgs[0]).end, msgs[1..]);
    }
  }

  lemma {:induction false} WithCipherOff(a: End, b: End, s: St, msgs: seq<seq<Byte>>)
    requires Valid(s) && !a.on
    ensures WireAgrees(a, b, s, msgs)
    decreases |msgs|
  {
    if msgs != [] { WithCipherOff(a, b, Frame(a, s, msgs[0]).end, msgs[1..]); }
  }

  /** The data of a list of cipher calls, in a row. */
  function Flat(ops: seq<Op>): seq<Byte> {
    if ops == [] then [] else (if ops[0].Message? then ops[0].data else []) + Flat(ops[1..])
  }

  lemma {:induction false} FlatAppend(a: seq<Op>, b: seq<Op>)
    ensures Flat(a + b) == Flat(a) + Flat(b)
  {
    if a == [] {
      assert a + b == b;
    } else {
      assert (a + b)[1..] == a[1..] + b;
      FlatAppend(a[1..], b);
      Assoc(if a[0].Message? then a[0].data else [], Flat(a[1..]), Flat(b));
    }
  }

  lemma {:induction false} TalkInTwo(g: Gen, m: Mode, s: St, a: seq<Op>, b: seq<Op>)
    requires Valid(s) && Acceptable(a) && Acceptable(b)
    ensures Acceptable(a + b) && Valid(Talk(g, m, s, a).end)
    ensures var x := Talk(g, m, s, a);
      Talk(g, m, s, a + b) == Trace(x.ops + Talk(g, m, x.end, b).ops, Talk(g, m, x.end, b).end)
    decreases |a|
  {
    if a == [] {
      assert a + b == b;
      assert [] + Talk(g, m, s, b).ops == Talk(g, m, s, b).ops;
    } else {
      assert (a + b)[1..] == a[1..] + b;
      var first, t := if a[0].Message? then Message(Run(g, m, s, 0, a[0].data).out) else a[0],
                      if a[0].Message? then Run(g, m, s, 0, a[0].data).end else s.(key := a[0].key);
      TalkInTwo(g, m, t, a[1..], b);
      var x := Talk(g, m, t, a[1..]);
      Assoc([first], x.ops, Talk(g, m, x.end, b).ops);
    }
  }

  lemma {:induction false} TalkOne(g: Gen, m: Mode, s: St, d: seq<Byte>)
    requires Valid(s)
    ensures var c := Run(g, m, s, 0, d); Talk(g, m, s, [Message(d)]) == Trace([Message(c.out)], c.end)
  {
    assert [Message(d)][1..] == [];
    assert [Message(Run(g, m, s, 0, d).out)] + [] == [Message(Run(g, m, s, 0, d).out)];
  }

  lemma {:induction false} SwapThenTalk(g: Gen, m: Mode, s: St, k: seq<Byte>, d: seq<Byte>)
    requires Valid(s) && |k| >= NIGMA_MIN
    ensures var c := Run(g, m, St(k, s.seed), 0, d);
      Talk(g, m, s, [Swap(k), Message(d)]) == Trace([Swap(k), Message(c.out)], c.end)
  {
    var ops := [Swap(k), Message(d)];
    assert ops[1..] == [Message(d)];
    TalkOne(g, m, s.(key := k), d);
    assert [ops[0]] + Talk(g, m, s.(key := k), ops[1..]).ops
      == [Swap(k), Message(Run(g, m, St(k, s.seed), 0, d).out)];
  }

  /** Whatever was said before, the first message after a key swap goes out under the new key
      from its first byte on, and with the seed that the messages before have left. */
  lemma {:induction false} SwapTakesOver(g: Gen, m: Mode, s: St, ops: seq<Op>, k: seq<Byte>, d: seq<Byte>)
    requires Valid(s) && Acceptable(ops) && |k| >= NIGMA_MIN
    ensures Acceptable(ops + [Swap(k), Message(d)])
    ensures var t := Talk(g, m, s, ops);
      var c := Run(g, m, St(k, t.end.seed), 0, d);
      Talk(g, m, s, ops + [Swap(k), Message(d)]) == Trace(t.ops + [Swap(k), Message(c.out)], c.end)
  {
    TalkInTwo(g, m, s, ops, [Swap(k), Message(d)]);
    SwapThenTalk(g, m, Talk(g, m, s, ops).end, k, d);
  }

  /** What goes out for `ops` from `s`, and the state after it. */
  ghost predicate Spoken(g: Gen, s: St, ops: seq<Op>, c: Coded)
    requires Valid(s) && Acceptable(ops)
  {
    c == Coded(Flat(Talk(g, Pack, s, ops).ops), Talk(g, Pack, s, ops).end)
  }

  lemma {:induction false} SpokenCall(e: End, s: St, d: seq<Byte>)
    requires Valid(s) && e.on
    ensures Spoken(e.gen, s, [Message(d)], Crypt(e, Pack, s, d))
  {
    var c := Run(e.gen, Pack, s, 0, d);
    assert [Message(d)][1..] == [];
    assert Talk(e.gen, Pack, s, [Message(d)]).ops == [Message(c.out)] + [];
    assert Flat([Message(c.out)]) == c.out + [];
  }

  lemma {:induction false} SpokenBoth(g: Gen, s: St, a: seq<Op>, b: seq<Op>, x: Coded, y: Coded)
    requires Valid(s) && Acceptable(a) && Acceptable(b) && Spoken(g, s, a, x)
    requires Valid(x.end) && Spoken(g, x.end, b, y)
    ensures Acceptable(a + b) && Spoken(g, s, a + b, Coded(x.out + y.out, y.end))
  {
    TalkInTwo(g, Pack, s, a, b);
    FlatAppend(Talk(g, Pack, s, a).ops, Talk(g, Pack, x.end, b).ops);
  }

  lemma {:induction false} SpokenTagged(e: End, s: St, data: seq<Byte>)
    requires Valid(s) && e.on
    ensures Spoken(e.gen, s, TaggedOps(e, data), Tagged(e, s, data))
  {
    if e.tag.Some? {
      var t := Crypt(e, Pack, s, e.tag.value);
      SpokenCall(e, s, e.tag.value);
      SpokenCall(e, t.end, data);
      SpokenBoth(e.gen, s, [Message(e.tag.value)], [Message(data)], t, Crypt(e, Pack, t.end, data));
    } else {
      SpokenCall(e, s, data);
      assert TaggedOps(e, data) == [Message(data)];
    }
  }

  lemma {:induction false} SpokenFrame(e: End, s: St, msg: seq<Byte>)
    requires Valid(s) && e.on
    ensures Spoken(e.gen, s, FrameOps(e, msg), Frame(e, s, msg))
  {
    var h := Tagged(e, s, Header(e, msg));
    SpokenTagged(e, s, Header(e, msg));
    SpokenTagged(e, h.end, msg);
    SpokenBoth(e.gen, s, TaggedOps(e, Header(e, msg)), TaggedOps(e, msg), h, Tagged(e, h.end, msg));
  }

  /** With the cipher on, the bytes on the wire are, call by call, what the cipher in PACK
      mode makes of tokens, headers and messages, and it is left where these calls leave
      it. */
  lemma {:induction false} WireIsCiphered(e: End, s: St, msgs: seq<seq<Byte>>)
    requires Valid(s) && e.on
    ensures var spoken := Talk(e.gen, Pack, s, WireOps(e, msgs));
      Wire(e, s, msgs).out == Flat(spoken.ops) && Wire(e, s, msgs).end == spoken.end
    decreases |msgs|
  {
    if msgs != [] {
      var f := Frame(e, s, msgs[0]);
      SpokenFrame(e, s, msgs[0]);
      WireIsCiphered(e, f.end, msgs[1..]);
      SpokenBoth(e.gen, s, FrameOps(e, msgs[0]), WireOps(e, msgs[1..]), f, Wire(e, f.end, msgs[1..]));
    }
  }

  lemma {:induction false} WireBegins(e: End, s: St, msg: seq<Byte>, msgs: seq<seq<Byte>>)
    requires Valid(s) && e.tag.None?
    ensures Wire(e, s, [msg] + msgs).out[..4] == Crypt(e, Pack, s, Header(e, msg)).out
  {
    var h := Crypt(e, Pack, s, Header(e, msg)).out;
    assert ([msg] + msgs)[0] == msg;
    assert Frame(e, s, msg).out[..4] == h;
  }

  /** A known answer: after a key exchange with a key of ones, the first byte on the wire,
      0 in the header of a message shorter than 2^24 bytes, is (0 xor 1) + 1. */
  lemma {:induction false} FirstByteOnWire(x: bool, key: seq<Byte>, msg: seq<Byte>, msgs: seq<seq<Byte>>)
    requires |key| >= KEYMIN && (forall i :: 0 <= i < |key| ==> key[i] == 1) && |msg| < 0x100_0000
    ensures Wire(Host(x, true, None), St(key, Load64(x, key)), [msg] + msgs).out[..4][0] == 2
  {
    WireBegins(Host(x, true, None), St(key, Load64(x, key)), msg, msgs);
    HeaderBytes(x, |msg|);
    OnesByte(x, key, MsgHeader(x, msg));
  }

  /** With the cipher off and no token, they are for each message its length in four bytes,
      the most significant first, and the message. */
  lemma {:induction false} PlainWire(big: bool, s: St, msgs: seq<seq<Byte>>)
    requires Valid(s) && FitBuffer(msgs)
    ensures Wire(Host(big, false, None), s, msgs) == Coded(PlainBytes(msgs), s)
    decreases |msgs|
  {
    if msgs != [] {
      PlainWire(big, s, msgs[1..]);
      HeaderBytes(big, |msgs[0]|);
    }
  }

  function PlainBytes(msgs: seq<seq<Byte>>): seq<Byte>
    requires FitBuffer(msgs)
  {
    if msgs == [] then []
    else
      var n := |msgs[0]|;
      [n / 0x100_0000, n / 0x1_0000 % 256, n / 256 % 256, n % 256] + msgs[0] + PlainBytes(msgs[1..])
  }

  /** What one `rcvbuf` makes of the bytes that arrive is, with the cipher on, what the
      cipher in UNPACK mode makes of the token's 36 bytes, in a call of its own, and of the
      payload's. */
  lemma {:induction false} ReceivedIsCiphered(e: End, s: St, inp: seq<Byte>, len: nat)
    requires Valid(s) && e.on && Received(e, s, inp, len).Ok?
    ensures var got := Received(e, s, inp, len).value;
      var n := if e.tag.Some? then 36 else 0;
      var t := if e.tag.Some? then Run(e.gen, Unpack, s, 0, inp[..36]).end else s;
      && |inp| >= n + len && got.rest == inp[n + len..]
      && Coded(got.data, got.end) == Run(e.gen, Unpack, t, 0, inp[n..n + len])
  {
  }

  /** What can be known before anything is sent: the cipher is off, the byte orders are
      equal, or every reload of the seed during the exchange is from a key that reads the
      same both ways. */
  predicate ExchangeSafe(x: bool, y: bool, on: bool, tag: Option<seq<Byte>>, s: St, msgs: seq<seq<Byte>>)
    requires Valid(s)
  {
    !on || x == y || TalkSafe(x, s, WireOps(Host(x, on, tag), msgs))
  }

  /** `writebuf` on a host of byte order `x`, `readbuf` on one of byte order `y`, from an
      equal cipher state. With the cipher on, the two go through the same cipher states if
      and only if the exchange is safe. Then, and always with the cipher off, the messages
      come back in order, the two ciphers are left equal and exactly the bytes sent are
      taken, whether the peer tags its payloads with the token or not. */
  lemma {:induction false} MessagesRoundTrip(x: bool, y: bool, on: bool, tag: Option<seq<Byte>>, s: St,
                                             msgs: seq<seq<Byte>>, rest: seq<Byte>)
    requires Valid(s) && GoodTag(tag) && FitBuffer(msgs)
    ensures var ops := WireOps(Host(x, on, tag), msgs);
      on ==> (Track(SeedGen(x), s, ops) == Track(SeedGen(y), s, ops) <==> ExchangeSafe(x, y, on, tag, s, msgs))
    ensures ExchangeSafe(x, y, on, tag, s, msgs) ==>
      var w := Wire(Host(x, on, tag), s, msgs);
      ReadAll(Host(y, on, tag), s, w.out + rest, |msgs|) == Ok(Inbox(msgs, w.end, rest))
  {
    var a, b := Host(x, on, tag), Host(y, on, tag);
    SeedGenLossless(x);
    SeedGensSameCode(x, y);
    TrackAgreesIff(SeedGen(x), SeedGen(y), s, WireOps(a, msgs));
    TalkAgreesIff(x, y, s, WireOps(a, msgs));
    if on { WireOpsAgree(a, b, s, msgs); } else { WithCipherOff(a, b, s, msgs); }
    if ExchangeSafe(x, y, on, tag, s, msgs) { AgreeingEndsExchange(a, b, s, msgs, rest); }
  }

  /** With the cipher off nothing is asked of the byte orders. */
  lemma {:induction false} PlainRoundTrip(x: bool, y: bool, tag: Option<seq<Byte>>, s: St, msgs: seq<seq<Byte>>,
                                          rest: seq<Byte>)
    requires Valid(s) && GoodTag(tag) && FitBuffer(msgs)
    ensures var w := Wire(Host(x, false, tag), s, msgs);
      ReadAll(Host(y, false, tag), s, w.out + rest, |msgs|) == Ok(Inbox(msgs, w.end, rest))
  {
    MessagesRoundTrip(x, y, false, tag, s, msgs, rest);
  }

  /** Hosts of one byte order always understand each other. */
  lemma {:induction false} LikeHostsRoundTrip(x: bool, on: bool, tag: Option<seq<Byte>>, s: St,
                                              msgs: seq<seq<Byte>>, rest: seq<Byte>)
    requires Valid(s) && GoodTag(tag) && FitBuffer(msgs)
    ensures var w := Wire(Host(x, on, tag), s, msgs);
      ReadAll(Host(x, on, tag), s, w.out + rest, |msgs|) == Ok(Inbox(msgs, w.end, rest))
  {
    MessagesRoundTrip(x, x, on, tag, s, msgs, rest);
  }

  /** With identity checking on, a payload is accepted if and only if enough arrives and
      the 36 bytes before it decrypt to the token, byte for byte. */
  lemma {:induction false} AcceptedBehindToken(e: End, s: St, inp: seq<Byte>, len: nat)
    requires Valid(s) && e.tag.Some? && GoodTag(e.tag) && 0 !in e.tag.value
    ensures Received(e, s, inp, len).Ok? <==>
            |inp| >= CIA_LEN + len && Crypt(e, Unpack, s, inp[..CIA_LEN]).out == e.tag.value
  {
    if |inp| >= CIA_LEN + len {
      CStrFacts(e.tag.value, Crypt(e, Unpack, s, inp[..CIA_LEN]).out);
    }
  }
}
