/** The byte order of message headers and stream words: `swapbo32`, `swapbo64`,
    `hdrsetsz` and `hdrgetsz`. A word is the number its bits stand for. */
module Headers {
  import opened Common

  const TWO_32 := 0x1_0000_0000
  const TWO_64 := 0x1_0000_0000_0000_0000

  /** Byte `i` of a word, counted from the least significant. */
  function Octet(v: nat, unit: nat): int
    requires unit > 0
  {
    v / unit % 256
  }

  /** `swapbo32`: each masked byte shifted to the opposite place. */
  function Swap32(v: nat): nat {
    Octet(v, 0x100_0000) + Octet(v, 0x1_0000) * 0x100 + Octet(v, 0x100) * 0x1_0000 + Octet(v, 1) * 0x100_0000
  }

  /** `swapbo64` */
  function Swap64(v: nat): nat {
    Swap32(v / TWO_32) + Swap32(v % TWO_32) * TWO_32
  }

  /** The four bytes of a word in the memory of a host. */
  function Store32(big: bool, v: nat): (m: seq<Byte>)
    ensures |m| == 4
  {
    var a, b, c, d := Octet(v, 0x100_0000), Octet(v, 0x1_0000), Octet(v, 0x100), Octet(v, 1);
    if big then [a, b, c, d] else [d, c, b, a]
  }

  function Word32(a: nat, b: nat, c: nat, d: nat): nat {
    a * 0x100_0000 + b * 0x1_0000 + c * 0x100 + d
  }

  function Load32(big: bool, m: seq<Byte>): nat
    requires |m| == 4
  {
    if big then Word32(m[0], m[1], m[2], m[3]) else Word32(m[3], m[2], m[1], m[0])
  }

  /** `hdrsetsz` */
  function HdrSet(big: bool, sz: nat): nat {
    if big then sz else Swap32(sz)
  }

  /** `hdrgetsz` */
  function HdrGet(big: bool, sz: nat): nat {
    if big then sz else Swap32(sz)
  }

  lemma {:induction false} OctetsOf(a: nat, b: nat, c: nat, d: nat, v: nat)
    requires a < 256 && b < 256 && c < 256 && d < 256
    requires v == a * 0x100_0000 + b * 0x1_0000 + c * 0x100 + d
    ensures Octet(v, 0x100_0000) == a && Octet(v, 0x1_0000) == b && Octet(v, 0x100) == c && Octet(v, 1) == d
  {
    assert v / 0x100 == a * 0x1_0000 + b * 0x100 + c;
    assert v / 0x1_0000 == a * 0x100 + b;
    assert v / 0x100_0000 == a;
  }

  lemma {:induction false} OctetsSum(v: nat)
    requires v < TWO_32
    ensures v == Word32(Octet(v, 0x100_0000), Octet(v, 0x1_0000), Octet(v, 0x100), Octet(v, 1))
  {
    var p, q, r := v / 0x100, v / 0x1_0000, v / 0x100_0000;
    assert v == 0x100 * p + v % 0x100;
    assert q == p / 0x100 && p == 0x100 * q + p % 0x100;
    assert r == q / 0x100 && q == 0x100 * r + q % 0x100;
    assert r == r % 0x100;
  }

  lemma {:induction false} SwapOctets(v: nat)
    ensures Octet(Swap32(v), 0x100_0000) == Octet(v, 1) && Octet(Swap32(v), 0x1_0000) == Octet(v, 0x100)
    ensures Octet(Swap32(v), 0x100) == Octet(v, 0x1_0000) && Octet(Swap32(v), 1) == Octet(v, 0x100_0000)
    ensures Swap32(v) < TWO_32
  {
    OctetsOf(Octet(v, 1), Octet(v, 0x100), Octet(v, 0x1_0000), Octet(v, 0x100_0000), Swap32(v));
  }

  /** Swapping twice changes nothing. */
  lemma {:induction false} SwapTwice(v: nat)
    requires v < TWO_32
    ensures Swap32(Swap32(v)) == v
  {
    SwapOctets(v);
    OctetsSum(v);
  }

  lemma {:induction false} LoadUndoesStore(big: bool, v: nat)
    requires v < TWO_32
    ensures Load32(big, Store32(big, v)) == v
  {
    OctetsSum(v);
  }

  /** A header travels big-endian from any host, and any host reads back the length that
      was set, whatever the two byte orders. */
  lemma {:induction false} HeaderRoundTrip(x: bool, y: bool, sz: nat)
    requires sz < TWO_32
    ensures Store32(x, HdrSet(x, sz)) == Store32(true, sz)
    ensures HdrGet(y, Load32(y, Store32(x, HdrSet(x, sz)))) == sz
  {
    SwapOctets(sz);
    assert Store32(false, Swap32(sz)) == Store32(true, sz);
    SwapTwice(sz);
    LoadUndoesStore(true, sz);
    LoadUndoesStore(false, Swap32(sz));
  }

  /** The four bytes on the wire, the most significant first. */
  lemma {:induction false} HeaderBytes(x: bool, sz: nat)
    requires sz < TWO_32
    ensures Store32(x, HdrSet(x, sz)) == [sz / 0x100_0000, sz / 0x1_0000 % 256, sz / 256 % 256, sz % 256]
  {
    HeaderRoundTrip(x, x, sz);
    TopOctet(sz);
  }

  lemma {:induction false} TopOctet(v: nat)
    requires v < TWO_32
    ensures Octet(v, 0x100_0000) == v / 0x100_0000
  {
  }

  // ----- The 64-bit words of the streams

  /** The eight bytes of a word in the memory of a host. */
  function Store64(big: bool, v: nat): (m: seq<Byte>)
    ensures |m| == 8
  {
    var hi, lo := v / TWO_32, v % TWO_32;
    if big then Store32(true, hi) + Store32(true, lo) else Store32(false, lo) + Store32(false, hi)
  }

  function Fetch64(big: bool, m: seq<Byte>): nat
    requires |m| == 8
  {
    var a, b := Load32(big, m[..4]), Load32(big, m[4..]);
    if big then a * TWO_32 + b else b * TWO_32 + a
  }

  /** `if (!isbigendian()) swapbo64(code)`, before a word is sent and after it arrives. */
  function WireOrder(big: bool, w: nat): nat {
    if big then w else Swap64(w)
  }

  /** An `int64_t` and its two's complement. */
  function ToWord(v: int): (w: nat)
    ensures w < TWO_64
  {
    v % TWO_64
  }

  function FromWord(w: nat): int {
    if w < TWO_64 / 2 then w else w - TWO_64
  }

  lemma {:induction false} Swap64Parts(v: nat)
    requires v < TWO_64
    ensures Swap64(v) < TWO_64
    ensures Swap64(v) / TWO_32 == Swap32(v % TWO_32) && Swap64(v) % TWO_32 == Swap32(v / TWO_32)
  {
    SwapOctets(v / TWO_32);
    SwapOctets(v % TWO_32);
  }

  /** Swapping twice changes nothing. */
  lemma {:induction false} Swap64Twice(v: nat)
    requires v < TWO_64
    ensures Swap64(Swap64(v)) == v
  {
    Swap64Parts(v);
    SwapTwice(v / TWO_32);
    SwapTwice(v % TWO_32);
  }

  lemma {:induction false} FetchUndoesStore(big: bool, v: nat)
    requires v < TWO_64
    ensures Fetch64(big, Store64(big, v)) == v
  {
    var hi, lo := v / TWO_32, v % TWO_32;
    LoadUndoesStore(big, hi);
    LoadUndoesStore(big, lo);
    var m := Store64(big, v);
    assert m[..4] == Store32(big, if big then hi else lo) && m[4..] == Store32(big, if big then lo else hi);
  }

  lemma {:induction false} SameOnTheWire(x: bool, w: nat)
    requires w < TWO_64
    ensures Store64(x, WireOrder(x, w)) == Store64(true, w)
  {
    if !x {
      Swap64Parts(w);
      HeaderRoundTrip(false, false, w / TWO_32);
      HeaderRoundTrip(false, false, w % TWO_32);
    }
  }

  lemma {:induction false} WireOrderTwice(big: bool, w: nat)
    requires w < TWO_64
    ensures WireOrder(big, w) < TWO_64 && WireOrder(big, WireOrder(big, w)) == w
  {
    Swap64Parts(w);
    Swap64Twice(w);
  }

  lemma {:induction false} WireRoundTrip(x: bool, y: bool, w: nat)
    requires w < TWO_64
    ensures WireOrder(y, Fetch64(y, Store64(x, WireOrder(x, w)))) == w
  {
    SameOnTheWire(x, w);
    SameOnTheWire(y, w);
    WireOrderTwice(y, w);
    FetchUndoesStore(y, WireOrder(y, w));
  }

  lemma {:induction false} SignedTwice(v: int)
    requires -(TWO_64 / 2) <= v < TWO_64 / 2
    ensures FromWord(ToWord(v)) == v
  {
  }

  /** A length or a code, negative ones too, travels big-endian from any host, and any host
      reads back the number that was sent. */
  lemma {:induction false} WordRoundTrip(x: bool, y: bool, v: int)
    requires -(TWO_64 / 2) <= v < TWO_64 / 2
    ensures Store64(x, WireOrder(x, ToWord(v))) == Store64(true, ToWord(v))
    ensures FromWord(WireOrder(y, Fetch64(y, Store64(x, WireOrder(x, ToWord(v)))))) == v
  {
    SameOnTheWire(x, ToWord(v));
    WireRoundTrip(x, y, ToWord(v));
    SignedTwice(v);
  }
}
