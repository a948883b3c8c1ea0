/** A connection: `wrfd` and `rdfd` through short and interrupted system calls, and what the
    server builds on them. */
module Connection {
  import opened Common
  import opened Cipher
  import opened Channel
  import opened BlockMode

  const EINTR := -2
  const FAULT := -1

  /** How many system calls of a schedule move data. */
  function Moves(sched: seq<int>): nat {
    if sched == [] then 0 else (if sched[0] == EINTR then 0 else 1) + Moves(sched[1..])
  }

  /** No fault, and a call to spare for each byte still to come. */
  predicate Clean(sched: seq<int>, bytes: int) {
    FAULT !in sched && Moves(sched) >= bytes
  }

  /** A schedule from which at most `bytes` calls that move data were used. */
  predicate Used(before: seq<int>, after: seq<int>, bytes: int) {
    (FAULT !in before ==> FAULT !in after) && Moves(after) + bytes >= Moves(before)
  }

  /** One cipher call in a buffer of its own: `encrypt` as the source runs it. */
  method CallCipher(e: End, m: Mode, s: St, data: seq<Byte>) returns (c: Coded)
    requires Valid(s)
    ensures c == Crypt(e, m, s, data)
  {
    var key := FreshCopy(s.key);
    var buf := FreshCopy(data);
    var cryp := new Crypto(key, |s.key|, s.seed, e.on, m, e.gen);
    assert key[..|s.key|] == s.key && buf[..|data|] == data;
    cryp.Encrypt(buf, |data|);
    assert buf[..] == buf[..|data|];
    c := Coded(buf[..], St(cryp.rndkey[..cryp.rndlen], cryp.seed));
  }

  method FreshCopy(data: seq<Byte>) returns (a: array<Byte>)
    ensures fresh(a) && a[..] == data
  {
    a := new Byte[|data|](_ => 0);
    for i := 0 to |data|
      invariant a[..i] == data[..i]
    {
      a[i] := data[i];
    }
    assert a[..] == a[..|data|] && data[..|data|] == data;
  }

  /** The bytes of a message's frame, with so many bytes of tag before header and payload. */
  function FrameLength(tag: nat, msg: seq<Byte>): nat {
    tag + 4 + tag + |msg|
  }

  /** One end of a connection. `inp` is what is still to arrive, `out` what was sent.
      `rsched` and `wsched` are the results the coming `read` and `write` calls will have:
      an interruption, a fault, or a count, which the kernel cuts to what it can move. `tags`
      is set for a peer that puts the token before every payload; the server does not. */
  class Conn {
    const gen: Gen
    const big: bool
    var on: bool
    var tx: St
    var rx: St
    var inp: seq<Byte>
    var out: seq<Byte>
    var rsched: seq<int>
    var wsched: seq<int>
    var ciaOn: bool
    const tags: bool
    const cia: seq<Byte>
    const block: Block
    var ciaSend: bool

    ghost predicate Sound()
      reads this
    {
      Valid(tx) && Valid(rx) && |cia| == CIA_LEN && 0 !in cia
    }

    /** The end it is when it sends. */
    function Sender(): End
      reads this
    {
      End(gen, on, big, if tags then Some(cia) else None)
    }

    /** What the tag adds to a payload of the stream. */
    function TagLen(): nat
    {
      if tags then CIA_LEN else 0
    }

    /** The end it is when it receives. */
    function Receiver(): End
      reads this
    {
      End(gen, on, big, if ciaOn then Some(cia) else None)
    }

    method WrFd(buf: seq<Byte>) returns (ok: bool)
      modifies this`out, this`wsched
      ensures ok ==> out == old(out) + buf
      ensures !ok ==> exists n :: 0 <= n < |buf| && out == old(out) + buf[..n]
      ensures Clean(old(wsched), |buf|) ==> ok
      ensures Used(old(wsched), wsched, |buf|)
    {
      var written := 0;
      while written < |buf|
        invariant 0 <= written <= |buf| && out == old(out) + buf[..written]
        invariant Used(old(wsched), wsched, written)
        decreases |wsched|, |buf| - written
      {
        if wsched == [] { return false; }
        var k := wsched[0];
        wsched := wsched[1..];
        if k == FAULT { return false; }
        if k != EINTR {
          var wb := if k < 1 then 1 else if k > |buf| - written then |buf| - written else k;
          out := out + buf[written..written + wb];
          assert buf[..written] + buf[written..written + wb] == buf[..written + wb];
          written := written + wb;
        }
      }
      return true;
    }

    method RdFd(len: nat) returns (r: Result<seq<Byte>>)
      modifies this`inp, this`rsched
      ensures r.Ok? ==> len <= |old(inp)| && r.value == old(inp)[..len] && inp == old(inp)[len..]
      ensures Clean(old(rsched), |old(inp)|) && |old(inp)| >= len ==> r.Ok?
      ensures Clean(old(rsched), |old(inp)|) ==> Clean(rsched, |inp|)
    {
      var buf := [];
      while |buf| < len
        invariant |buf| <= len && old(inp) == buf + inp
        invariant Clean(old(rsched), |old(inp)|) ==> Clean(rsched, |inp|)
        decreases |rsched|, len - |buf|
      {
        if rsched == [] { return Err; }
        var k := rsched[0];
        if k == FAULT {
          rsched := rsched[1..];
          return Err;
        }
        if k != EINTR && inp == [] {
          rsched := rsched[1..];
          return Err;
        }
        rsched := rsched[1..];
        if k != EINTR {
          var left := if len - |buf| < |inp| then len - |buf| else |inp|;
          var rb := if k < 1 then 1 else if k > left then left else k;
          buf, inp := buf + inp[..rb], inp[rb..];
        }
      }
      return Ok(buf);
    }

    /** `sndbuf`: encrypt in one call, then write. */
    method SndBuf(data: seq<Byte>) returns (ok: bool)
      requires Sound()
      modifies this`out, this`wsched, this`tx
      ensures Sound() && tx == Crypt(Sender(), Pack, old(tx), data).end
      ensures ok ==> out == old(out) + Crypt(Sender(), Pack, old(tx), data).out
      ensures Clean(old(wsched), |data|) ==> ok
      ensures Used(old(wsched), wsched, |data|)
    {
      var c := CallCipher(Sender(), Pack, tx, data);
      tx := c.end;
      ok := WrFd(c.out);
    }

    /** What a peer does for one `rcvbuf`; for the server it is `sndbuf`. */
    method SndTagged(data: seq<Byte>) returns (ok: bool)
      requires Sound()
      modifies this`out, this`wsched, this`tx
      ensures Sound()
      ensures ok ==> out == old(out) + Tagged(Sender(), old(tx), data).out && tx == Tagged(Sender(), old(tx), data).end
      ensures Clean(old(wsched), TagLen() + |data|) ==> ok
      ensures Used(old(wsched), wsched, TagLen() + |data|)
    {
      if tags {
        ok := SndBuf(cia);
        if !ok { return; }
      }
      ok := SndBuf(data);
    }

    /** `rcvbuf`: with identity checking on, a payload is accepted only behind the token. */
    method RcvBuf(len: nat) returns (r: Result<seq<Byte>>)
      requires Sound()
      modifies this`inp, this`rsched, this`rx
      ensures Sound()
      ensures r.Ok? ==> Received(Receiver(), old(rx), old(inp), len) == Ok(Got(r.value, rx, inp))
      ensures Clean(old(rsched), |old(inp)|) && Received(Receiver(), old(rx), old(inp), len).Ok? ==> r.Ok?
      ensures Clean(old(rsched), |old(inp)|) ==> Clean(rsched, |inp|)
    {
      var me := Receiver();
      if ciaOn {
        var t := RdFd(CIA_LEN);
        if t.Err? { return Err; }
        var c := CallCipher(me, Unpack, rx, t.value);
        rx := c.end;
        if CStr(c.out) != CStr(cia) { return Err; }
      }
      ghost var n := if ciaOn then CIA_LEN else 0;
      assert inp == old(inp)[n..];
      var p := RdFd(len);
      if p.Err? { return Err; }
      assert p.value == old(inp)[n..n + len];
      var d := CallCipher(me, Unpack, rx, p.value);
      rx := d.end;
      r := Ok(d.out);
    }

    method WriteBuf(msg: seq<Byte>) returns (ok: bool)
      requires Sound()
      modifies this`out, this`wsched, this`tx
      ensures Sound()
      ensures ok ==> out == old(out) + Frame(Sender(), old(tx), msg).out && tx == Frame(Sender(), old(tx), msg).end
      ensures Clean(old(wsched), FrameLength(TagLen(), msg)) ==> ok
      ensures Used(old(wsched), wsched, FrameLength(TagLen(), msg))
    {
      ok := SndTagged(Header(Sender(), msg));
      if !ok { return; }
      ok := SndTagged(msg);
    }

    /** `readbuf`: `ReadOne` of what arrives, for every schedule of reads that lets it end;
        it ends with a message whenever no read faults and `ReadOne` has one. */
    method ReadBuf() returns (r: Result<seq<Byte>>)
      requires Sound()
      modifies this`inp, this`rsched, this`rx
      ensures Sound()
      ensures r.Ok? ==> ReadOne(Receiver(), old(rx), old(inp)) == Ok(Got(r.value, rx, inp))
      ensures Clean(old(rsched), |old(inp)|) && ReadOne(Receiver(), old(rx), old(inp)).Ok? ==> r.Ok?
      ensures Clean(old(rsched), |old(inp)|) ==> Clean(rsched, |inp|)
    {
      var h := RcvBuf(4);
      if h.Err? { return Err; }
      r := RcvBuf(MsgLen(big, h.value));
    }

    /** `blk_sndbuf` */
    method BlkSndBuf(data: seq<Byte>) returns (ok: bool)
      modifies this`out, this`wsched
      ensures ok ==> out == old(out) + BlkSent(block, data)
      ensures Clean(old(wsched), |BlkSent(block, data)|) ==> ok
      ensures Used(old(wsched), wsched, |BlkSent(block, data)|)
    {
      if |data| == 0 { return true; }
      ok := WrFd(block.enc(Pad(data)));
    }

    /** The token of a peer that tags. */
    function Tag(): Option<seq<Byte>> {
      if tags then Some(cia) else None
    }

    /** What a peer does for one `blk_rcvbuf`; for the server it is `blk_sndbuf`. */
    method BlkSndTagged(data: seq<Byte>) returns (ok: bool)
      modifies this`out, this`wsched
      ensures ok ==> out == old(out) + BlkTagged(block, Tag(), data)
      ensures Clean(old(wsched), |BlkTagged(block, Tag(), data)|) ==> ok
      ensures Used(old(wsched), wsched, |BlkTagged(block, Tag(), data)|)
    {
      if tags && data != [] {
        ok := BlkSndBuf(cia);
        if !ok { return; }
      }
      ok := BlkSndBuf(data);
    }

    /** `writebuf` in block mode. */
    method BlkWriteBuf(msg: seq<Byte>) returns (ok: bool)
      modifies this`out, this`wsched
      ensures ok ==> out == old(out) + BlkFrame(block, big, Tag(), msg)
      ensures Clean(old(wsched), |BlkFrame(block, big, Tag(), msg)|) ==> ok
      ensures Used(old(wsched), wsched, |BlkFrame(block, big, Tag(), msg)|)
    {
      ok := BlkSndTagged(MsgHeader(big, msg));
      if !ok { return; }
      ok := BlkSndTagged(msg);
    }

    /** The token that `blk_rcvbuf` still has to ask for. */
    function Asked(): Option<seq<Byte>>
      reads this
    {
      if ciaOn && !ciaSend then Some(cia) else None
    }

    /** `blk_rcvbuf`, which calls itself to read the token; the static flag `cia_send`
        tells the two calls apart. It is never entered more than two deep and always
        leaves the flag at 0. `buf` is what the caller's buffer holds, `stale` what the
        stack held where `cia_rcv` is; the result is what the caller's buffer holds then. */
    method BlkRcvBuf(buf: seq<Byte>, len: nat, stale: seq<Byte>) returns (r: Result<seq<Byte>>, ghost depth: nat)
      requires Sound()
      modifies this`inp, this`rsched, this`ciaSend
      ensures Sound() && depth <= (if old(ciaSend) then 1 else 2)
      ensures !old(ciaSend) || (ciaOn && len > 0) ==> !ciaSend
      ensures r.Ok? ==> BlkReceived(block, old(Asked()), stale, buf, old(inp), len) == Ok(Filled(r.value, inp))
      ensures Clean(old(rsched), |old(inp)|) && BlkReceived(block, old(Asked()), stale, buf, old(inp), len).Ok? ==>
              r.Ok?
      ensures Clean(old(rsched), |old(inp)|) ==> Clean(rsched, |inp|)
      decreases ciaOn && !ciaSend
    {
      depth := 1;
      if len == 0 { return Ok(buf), depth; }
      if ciaOn {
        if !ciaSend {
          ciaSend := true;
          var t, d := BlkRcvBuf(TokenBuffer(stale), CIA_LEN, stale);
          depth := 1 + d;
          if t.Err? || CStr(t.value) != CStr(cia) { return Err, depth; }
        } else {
          ciaSend := false;
        }
      }
      var c := RdFd(PadLen(len));
      if c.Err? { return Err, depth; }
      var p := Unpad(block.dec(c.value));
      r := if p.Some? then Ok(Overlay(buf, p.value)) else Err;
    }

    /** `readbuf` in block mode. */
    method BlkReadBuf(o: Before) returns (r: Result<seq<Byte>>)
      requires Sound() && !ciaSend && GoodBefore(o)
      modifies this`inp, this`rsched, this`ciaSend
      ensures Sound() && !ciaSend
      ensures r.Ok? ==> BlkReadOne(block, big, old(Asked()), o, old(inp)) == Ok(Filled(r.value, inp))
      ensures Clean(old(rsched), |old(inp)|) && BlkReadOne(block, big, old(Asked()), o, old(inp)).Ok? ==> r.Ok?
      ensures Clean(old(rsched), |old(inp)|) ==> Clean(rsched, |inp|)
    {
      var h, _ := BlkRcvBuf(o.hdr, 4, o.stale);
      if h.Err? { return Err; }
      var len := MsgLen(big, First(h.value, 4));
      var p, _ := BlkRcvBuf(o.buf, len, o.staler);
      if p.Err? { return Err; }
      r := Ok(First(p.value, len));
    }
  }
}
