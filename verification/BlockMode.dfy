/** Block mode: `blk_sndbuf` and `blk_rcvbuf` on whole messages, with the token read into a
    stack buffer of 37 bytes. */
module BlockMode {
  import opened Common
  import opened Headers
  import opened Channel

  const BLK_SIZE := 16

  /** AES-256-CBC under the key both ends hold, as EVP runs it: started anew from the same
      vector for each message. */
  datatype Block = Block(enc: seq<Byte> -> seq<Byte>, dec: seq<Byte> -> seq<Byte>)

  ghost predicate Inverse(b: Block) {
    forall x :: |x| % BLK_SIZE == 0 ==> |b.enc(x)| == |x| && b.dec(b.enc(x)) == x
  }

  /** `(len / BLK_SIZE + 1) * BLK_SIZE` */
  function PadLen(len: nat): nat {
    (len / BLK_SIZE + 1) * BLK_SIZE
  }

  /** Padding of section 6.3 of RFC 5652: as many bytes as are missing, each saying how many. */
  function Pad(m: seq<Byte>): (p: seq<Byte>)
    ensures |p| == PadLen(|m|)
  {
    var n := BLK_SIZE - |m| % BLK_SIZE;
    m + seq(n, _ => n)
  }

  function Unpad(p: seq<Byte>): Option<seq<Byte>> {
    if p == [] then None
    else
      var n := p[|p| - 1];
      if 1 <= n <= BLK_SIZE && n <= |p| && forall i :: |p| - n <= i < |p| ==> p[i] == p[|p| - 1]
      then Some(p[..|p| - n]) else None
  }

  lemma {:induction false} UnpadUndoesPad(m: seq<Byte>)
    ensures Unpad(Pad(m)) == Some(m)
  {
  }

  /** The padded text: the text, and up to the next multiple of 16 bytes, at least one, as
      often as needed the number of these bytes. */
  lemma {:induction false} PadIs(m: seq<Byte>)
    ensures |Pad(m)| == PadLen(|m|) == (|m| / 16 + 1) * 16 && Pad(m)[..|m|] == m
    ensures forall i :: |m| <= i < |Pad(m)| ==> Pad(m)[i] == |Pad(m)| - |m|
  {
  }

  /** The last `n` bytes say `n`. */
  predicate Padded(p: seq<Byte>, n: nat) {
    1 <= n <= 16 && n <= |p| && forall i :: |p| - n <= i < |p| ==> p[i] == n
  }

  /** What is taken off: nothing else passes for padding. */
  lemma {:induction false} UnpadIff(p: seq<Byte>, t: seq<Byte>)
    ensures Unpad(p) == Some(t) <==> exists n :: Padded(p, n) && t == p[..|p| - n]
  {
    if p != [] {
      var k := p[|p| - 1];
      forall n | Padded(p, n) ensures n == k {
        assert p[|p| - 1] == n;
      }
      if Unpad(p) == Some(t) { assert Padded(p, k); }
    }
  }

  function BlkSent(b: Block, data: seq<Byte>): seq<Byte> {
    if data == [] then [] else b.enc(Pad(data))
  }

  /** A text decrypted into a buffer: what the text does not reach keeps its old content,
      and a text longer than the buffer runs past its end. */
  function Overlay(buf: seq<Byte>, text: seq<Byte>): seq<Byte> {
    text + if |text| < |buf| then buf[|text|..] else []
  }

  /** `cia_rcv`: 36 bytes of whatever the stack held, and a NUL. */
  function TokenBuffer(stale: seq<Byte>): seq<Byte> {
    stale + [0]
  }

  /** What one `blk_rcvbuf` makes of its buffer and of the bytes that arrive. */
  datatype Filled = Filled(buf: seq<Byte>, rest: seq<Byte>)

  /** A block of `len` bytes and padding, decrypted into the buffer. */
  function BlkPlain(b: Block, buf: seq<Byte>, inp: seq<Byte>, len: nat): Result<Filled> {
    if |inp| < PadLen(len) then Err
    else
      match Unpad(b.dec(inp[..PadLen(len)]))
      case None => Err
      case Some(text) => Ok(Filled(Overlay(buf, text), inp[PadLen(len)..]))
  }

  /** The token as `strcmp` sees it. */
  predicate TokenTaken(cia: seq<Byte>, stale: seq<Byte>, text: seq<Byte>) {
    CStr(Overlay(TokenBuffer(stale), text)) == CStr(cia)
  }

  function BlkReceived(b: Block, tag: Option<seq<Byte>>, stale: seq<Byte>, buf: seq<Byte>, inp: seq<Byte>,
                       len: nat): Result<Filled> {
    if len == 0 then Ok(Filled(buf, inp))
    else if tag.None? then BlkPlain(b, buf, inp, len)
    else
      match BlkPlain(b, TokenBuffer(stale), inp, CIA_LEN)
      case Err => Err
      case Ok(t) => if CStr(t.buf) != CStr(tag.value) then Err else BlkPlain(b, buf, t.rest, len)
  }

  // ----- The round trip

  lemma {:induction false} BlkPlainRoundTrip(b: Block, buf: seq<Byte>, data: seq<Byte>, rest: seq<Byte>)
    requires Inverse(b) && data != []
    ensures |BlkSent(b, data)| == PadLen(|data|)
    ensures BlkPlain(b, buf, BlkSent(b, data) + rest, |data|) == Ok(Filled(Overlay(buf, data), rest))
  {
    UnpadUndoesPad(data);
    var c := BlkSent(b, data);
    assert b.dec(b.enc(Pad(data))) == Pad(data);
    assert (c + rest)[..|c|] == c && (c + rest)[|c|..] == rest;
  }

  /** What a peer sends for one `blk_rcvbuf`: nothing for an empty payload, else the token,
      if it sends one, and the payload. */
  function BlkTagged(b: Block, tag: Option<seq<Byte>>, data: seq<Byte>): seq<Byte> {
    if data == [] then [] else (if tag.Some? then BlkSent(b, tag.value) else []) + BlkSent(b, data)
  }

  /** A token as it is issued: 36 bytes and no NUL. */
  predicate Token(tag: Option<seq<Byte>>) {
    GoodTag(tag) && (tag.Some? ==> 0 !in tag.value)
  }

  /** The receiver takes exactly the padded length the sender wrote, and the token's 48
      bytes before it; its buffer then begins with the payload and keeps what the payload
      does not reach. */
  lemma {:induction false} BlockRoundTrip(b: Block, tag: Option<seq<Byte>>, stale: seq<Byte>, buf: seq<Byte>,
                                          data: seq<Byte>, rest: seq<Byte>)
    requires Inverse(b) && Token(tag) && |stale| == CIA_LEN
    ensures data != [] ==> |BlkTagged(b, tag, data)| == (if tag.Some? then 48 else 0) + PadLen(|data|)
    ensures BlkReceived(b, tag, stale, buf, BlkTagged(b, tag, data) + rest, |data|) ==
            Ok(Filled(Overlay(buf, data), rest))
    ensures Overlay(buf, data)[..|data|] == data
  {
    if data == [] {
      assert [] + rest == rest && Overlay(buf, []) == buf;
    } else {
      BlkPlainRoundTrip(b, buf, data, rest);
      if tag.Some? {
        var cia := tag.value;
        Assoc(BlkSent(b, cia), BlkSent(b, data), rest);
        BlkPlainRoundTrip(b, TokenBuffer(stale), cia, BlkSent(b, data) + rest);
        TokenTakenIff(cia, stale, cia);
        assert cia + stale[CIA_LEN..] == cia;
      } else {
        assert [] + BlkSent(b, data) == BlkSent(b, data);
      }
    }
  }

  // ----- Lists of messages

  /** What the buffers of one `readbuf` held before: the header's, `comm.buf`, and the stack
      where the tokens go. */
  datatype Before = Before(hdr: seq<Byte>, buf: seq<Byte>, stale: seq<Byte>, staler: seq<Byte>)

  predicate GoodBefore(o: Before) {
    |o.hdr| == 4 && |o.buf| == COMMBUFLEN && |o.stale| == |o.staler| == CIA_LEN
  }

  function BlkFrame(b: Block, big: bool, tag: Option<seq<Byte>>, msg: seq<Byte>): seq<Byte> {
    BlkTagged(b, tag, MsgHeader(big, msg)) + BlkTagged(b, tag, msg)
  }

  /** The bytes on the wire: header and message, each padded and encrypted on its own, each
      behind the token, padded and encrypted, if there is one; of an empty message nothing. */
  lemma {:induction false} BlkFrameIs(b: Block, big: bool, cia: seq<Byte>, msg: seq<Byte>)
    requires |msg| < COMMBUFLEN && cia != []
    ensures var n := |msg|; var h := [n / 0x100_0000, n / 0x1_0000 % 256, n / 256 % 256, n % 256];
      var t := b.enc(Pad(cia));
      && BlkFrame(b, big, None, msg) == b.enc(Pad(h)) + (if msg == [] then [] else b.enc(Pad(msg)))
      && BlkFrame(b, big, Some(cia), msg) == t + b.enc(Pad(h)) + (if msg == [] then [] else t + b.enc(Pad(msg)))
  {
    HeaderBytes(big, |msg|);
    var h := MsgHeader(big, msg);
    assert [] + b.enc(Pad(h)) == b.enc(Pad(h)) && [] + b.enc(Pad(msg)) == b.enc(Pad(msg));
  }

  function BlkWire(b: Block, big: bool, tag: Option<seq<Byte>>, msgs: seq<seq<Byte>>): seq<Byte> {
    if msgs == [] then [] else BlkFrame(b, big, tag, msgs[0]) + BlkWire(b, big, tag, msgs[1..])
  }

  /** One `readbuf`: a header, and as many bytes as it says. */
  function BlkReadOne(b: Block, big: bool, tag: Option<seq<Byte>>, o: Before, inp: seq<Byte>): Result<Filled>
    requires GoodBefore(o)
  {
    match BlkReceived(b, tag, o.stale, o.hdr, inp, 4)
    case Err => Err
    case Ok(h) =>
      var len := MsgLen(big, First(h.buf, 4));
      match BlkReceived(b, tag, o.staler, o.buf, h.rest, len)
      case Err => Err
      case Ok(p) => Ok(Filled(First(p.buf, len), p.rest))
  }

  /** The first `n` bytes of a buffer, with zeros where the model's buffer ends. */
  function First(buf: seq<Byte>, n: nat): (r: seq<Byte>)
    ensures |r| == n && (n <= |buf| ==> r == buf[..n])
    decreases n - |buf|
  {
    if n <= |buf| then buf[..n] else First(buf + [0], n)
  }

  datatype Messages = Messages(msgs: seq<seq<Byte>>, rest: seq<Byte>)

  function BlkReadAll(b: Block, big: bool, tag: Option<seq<Byte>>, os: seq<Before>, inp: seq<Byte>): Result<Messages>
    requires AllGood(os)
    decreases |os|
  {
    if os == [] then Ok(Messages([], inp))
    else
      match BlkReadOne(b, big, tag, os[0], inp)
      case Err => Err
      case Ok(one) =>
        match BlkReadAll(b, big, tag, os[1..], one.rest)
        case Err => Err
        case Ok(more) => Ok(Messages([one.buf] + more.msgs, more.rest))
  }

  lemma {:induction false} BlkReadOneRoundTrip(b: Block, x: bool, y: bool, tag: Option<seq<Byte>>, o: Before,
                                               msg: seq<Byte>, rest: seq<Byte>)
    requires Inverse(b) && Token(tag) && GoodBefore(o) && |msg| < COMMBUFLEN
    ensures BlkReadOne(b, y, tag, o, BlkFrame(b, x, tag, msg) + rest) == Ok(Filled(msg, rest))
  {
    var h, d := BlkTagged(b, tag, MsgHeader(x, msg)), BlkTagged(b, tag, msg);
    Assoc(h, d, rest);
    BlockRoundTrip(b, tag, o.stale, o.hdr, MsgHeader(x, msg), d + rest);
    HeaderRoundTrip(x, y, |msg|);
    BlockRoundTrip(b, tag, o.staler, o.buf, msg, rest);
  }

  predicate AllGood(os: seq<Before>) {
    forall i :: 0 <= i < |os| ==> GoodBefore(os[i])
  }

  /** One message put before any other bytes is read back, and they are left. */
  ghost predicate BlkOneReturns(b: Block, x: bool, y: bool, tag: Option<seq<Byte>>, o: Before,
                                msg: seq<Byte>, rest: seq<Byte>)
  {
    GoodBefore(o) && |msg| < COMMBUFLEN ==>
      BlkReadOne(b, y, tag, o, BlkFrame(b, x, tag, msg) + rest) == Ok(Filled(msg, rest))
  }

  lemma {:induction false} BlkReadAllStep(b: Block, big: bool, tag: Option<seq<Byte>>, os: seq<Before>,
                                          inp: seq<Byte>, one: Filled, more: Messages)
    requires os != [] && AllGood(os)
    requires BlkReadOne(b, big, tag, os[0], inp) == Ok(one) && BlkReadAll(b, big, tag, os[1..], one.rest) == Ok(more)
    ensures BlkReadAll(b, big, tag, os, inp) == Ok(Messages([one.buf] + more.msgs, more.rest))
  {
  }

  lemma {:induction false} BlkAllReturn(b: Block, x: bool, y: bool, tag: Option<seq<Byte>>, os: seq<Before>,
                                        msgs: seq<seq<Byte>>, rest: seq<Byte>)
    requires forall o, m, r :: BlkOneReturns(b, x, y, tag, o, m, r)
    requires FitBuffer(msgs) && |os| == |msgs| && AllGood(os)
    ensures BlkReadAll(b, y, tag, os, BlkWire(b, x, tag, msgs) + rest) == Ok(Messages(msgs, rest))
    decreases |msgs|
  {
    if msgs == [] {
      assert [] + rest == rest;
    } else {
      var f, w := BlkFrame(b, x, tag, msgs[0]), BlkWire(b, x, tag, msgs[1..]);
      Assoc(f, w, rest);
      assert BlkOneReturns(b, x, y, tag, os[0], msgs[0], w + rest);
      BlkAllReturn(b, x, y, tag, os[1..], msgs[1..], rest);
      BlkReadAllStep(b, y, tag, os, f + (w + rest), Filled(msgs[0], w + rest), Messages(msgs[1..], rest));
      assert [msgs[0]] + msgs[1..] == msgs;
    }
  }

  /** In block mode every list of messages, empty ones included, is read back in order and
      exactly the sent bytes are taken, whatever the two byte orders, with or without a
      token, and whatever the buffers held before. */
  lemma {:induction false} BlkMessagesRoundTrip(b: Block, x: bool, y: bool, tag: Option<seq<Byte>>, os: seq<Before>,
                                                msgs: seq<seq<Byte>>, rest: seq<Byte>)
    requires Inverse(b) && Token(tag) && FitBuffer(msgs) && |os| == |msgs| && AllGood(os)
    ensures BlkReadAll(b, y, tag, os, BlkWire(b, x, tag, msgs) + rest) == Ok(Messages(msgs, rest))
  {
    forall o, m, r ensures BlkOneReturns(b, x, y, tag, o, m, r) {
      if GoodBefore(o) && |m| < COMMBUFLEN { BlkReadOneRoundTrip(b, x, y, tag, o, m, r); }
    }
    BlkAllReturn(b, x, y, tag, os, msgs, rest);
  }

  // ----- Which texts pass for the token

  lemma {:induction false} CStrOfLonger(a: seq<Byte>, b: seq<Byte>)
    requires 0 !in a && |b| > |a|
    ensures CStr(a) == a
    ensures CStr(b) == a <==> b[..|a|] == a && b[|a|] == 0
  {
    if a != [] {
      CStrOfLonger(a[1..], b[1..]);
      assert a == [a[0]] + a[1..];
      assert b[..|a|] == [b[0]] + b[1..][..|a| - 1];
    }
  }

  /** A text passes for the token if and only if it is completed to the token by the bytes
      the buffer held before, or is the token, a NUL and anything. */
  lemma {:induction false} TokenTakenIff(cia: seq<Byte>, stale: seq<Byte>, text: seq<Byte>)
    requires |cia| == |stale| == CIA_LEN && 0 !in cia
    ensures TokenTaken(cia, stale, text) <==>
      if |text| <= CIA_LEN then text + stale[|text|..] == cia
      else text[..CIA_LEN] == cia && text[CIA_LEN] == 0
  {
    var b := Overlay(TokenBuffer(stale), text);
    CStrOfLonger(cia, b);
    if |text| <= CIA_LEN {
      assert b == text + stale[|text|..] + [0];
      assert b[..CIA_LEN] == text + stale[|text|..];
    } else {
      assert b == text;
    }
  }

  /** With identity checking on, a payload is accepted if and only if both blocks arrive and
      unpad and the first one's text passes for the token. Among the texts that pass, the
      token itself is exactly the one of 36 bytes. */
  lemma {:induction false} BlockAcceptedIff(b: Block, cia: seq<Byte>, stale: seq<Byte>, buf: seq<Byte>,
                                            inp: seq<Byte>, len: nat)
    requires |cia| == |stale| == CIA_LEN && 0 !in cia && len > 0
    ensures BlkReceived(b, Some(cia), stale, buf, inp, len).Ok? <==>
      && |inp| >= 48 + PadLen(len)
      && var t := Unpad(b.dec(inp[..48]));
      && t.Some? && TokenTaken(cia, stale, t.value)
      && Unpad(b.dec(inp[48..48 + PadLen(len)])).Some?
    ensures BlkReceived(b, Some(cia), stale, buf, inp, len).Ok? ==>
      var text := Unpad(b.dec(inp[..48])).value; text == cia <==> |text| == CIA_LEN
  {
    assert PadLen(CIA_LEN) == 48;
    if |inp| >= 48 + PadLen(len) {
      assert inp[48..][..PadLen(len)] == inp[48..48 + PadLen(len)];
      if Unpad(b.dec(inp[..48])).Some? {
        var text := Unpad(b.dec(inp[..48])).value;
        TokenTakenIff(cia, stale, text);
        assert |text| == CIA_LEN ==> text + stale[|text|..] == text;
      }
    }
  }

  /** A text that is not the token and passes on every buffer: the token, a NUL and up to
      ten bytes more, in the same 48 bytes. */
  lemma {:induction false} LongerTextPasses(b: Block, cia: seq<Byte>, stale: seq<Byte>, junk: seq<Byte>)
    requires Inverse(b) && |cia| == |stale| == CIA_LEN && 0 !in cia && |junk| <= 10
    ensures var text := cia + [0] + junk;
      && |BlkSent(b, text)| == 48 && Unpad(b.dec(BlkSent(b, text))) == Some(text)
      && TokenTaken(cia, stale, text) && text != cia
  {
    var text := cia + [0] + junk;
    TokenTakenIff(cia, stale, text);
    UnpadUndoesPad(text);
    assert |Pad(text)| == 48 && b.dec(b.enc(Pad(text))) == Pad(text);
    assert text[..CIA_LEN] == cia && text[CIA_LEN] == 0;
  }

  /** Another, on a buffer that still holds the end of the token, as after an earlier call:
      its first 32 to 35 bytes. */
  lemma {:induction false} ShorterTextPasses(b: Block, cia: seq<Byte>, stale: seq<Byte>, k: nat)
    requires Inverse(b) && |cia| == |stale| == CIA_LEN && 0 !in cia && 32 <= k < CIA_LEN && stale[k..] == cia[k..]
    ensures var text := cia[..k];
      && |BlkSent(b, text)| == 48 && Unpad(b.dec(BlkSent(b, text))) == Some(text)
      && TokenTaken(cia, stale, text) && text != cia
  {
    var text := cia[..k];
    TokenTakenIff(cia, stale, text);
    UnpadUndoesPad(text);
    assert |Pad(text)| == 48 && b.dec(b.enc(Pad(text))) == Pad(text);
    assert text + stale[k..] == cia;
  }
}
