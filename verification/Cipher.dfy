/** The session cipher: a byte stream cipher that rewrites its own key and a 64-bit seed
    as it goes, and restarts its key index at every call. */
module Cipher {

  import opened Common
  import opened Headers

  /** A 64-bit word, as the number its bits stand for. */
  type Seed = x: nat | x < TWO_64

  const KEYMIN := 16
  const KEYMAX := 2048 / 8 - 42
  const NIGMA_MIN := 8

  datatype Mode = Pack | Unpack | NoPack

  // ----- The seed arithmetic

  /** Eight bytes, least significant first. */
  function Word64(a: Byte, b: Byte, c: Byte, d: Byte, e: Byte, f: Byte, g: Byte, h: Byte): Seed {
    a + 256 * (b + 256 * (c + 256 * (d
    + 256 * (e + 256 * (f + 256 * (g + 256 * (h)))))))
  }

  /** `*(int64_t *) rndkey` on a host of either byte order. */
  function Load64(big: bool, k: seq<Byte>): Seed
    requires |k| >= 8
  {
    if big then Word64(k[7], k[6], k[5], k[4], k[3], k[2], k[1], k[0])
    else Word64(k[0], k[1], k[2], k[3], k[4], k[5], k[6], k[7])
  }

  /** The seed times its bits 8 to 39 plus its bits 40 to 55, wrapping at 64 bits. */
  function Mix(seed: Seed): Seed {
    (seed * (seed / 256 % 0x1_0000_0000) + seed / 0x100_0000_0000 % 0x1_0000) % TWO_64
  }

  /** The next seed; a zero seed is reloaded from the key, which must hold 8 bytes. */
  function NextSeed(big: bool, seed: Seed, key: seq<Byte>): Seed {
    if Mix(seed) != 0 then Mix(seed)
    else if |key| >= 8 then Load64(big, key)
    else 0
  }

  /** What `encrypt` does with the seed and one key byte: the next seed, the key byte put
      back, and a data byte packed and unpacked. */
  datatype Gen = Gen(next: (Seed, seq<Byte>) -> Seed, low: Seed -> Byte,
                     enc: (Seed, Byte, Byte) -> Byte, dec: (Seed, Byte, Byte) -> Byte)

  /** `seed >> 56 & 0xFF` */
  function Top(seed: Seed): Byte {
    (seed / 0x100_0000_0000_0000)
  }

  /** `seed % 256` stored in a `char`. */
  function Low(seed: Seed): Byte {
    (seed % 256)
  }

  function Two(k: nat): nat {
    if k == 0 then 1 else 2 * Two(k - 1)
  }

  /** The exclusive or of two numbers of `k` bits. */
  function XorBits(k: nat, a: nat, b: nat): (r: nat)
    requires a < Two(k) && b < Two(k)
    ensures r < Two(k)
  {
    if k == 0 then 0 else 2 * XorBits(k - 1, a / 2, b / 2) + (a + b) % 2
  }

  function Xor(a: Byte, b: Byte): Byte {
    assert Two(8) == 256;
    XorBits(8, a, b)
  }

  function Plus(a: Byte, b: Byte): Byte {
    (a + b) % 256
  }

  function Minus(a: Byte, b: Byte): Byte {
    (a - b) % 256
  }

  function Enc(seed: Seed, k: Byte, b: Byte): Byte {
    Plus(Xor(b, k), Top(seed))
  }

  function Dec(seed: Seed, k: Byte, b: Byte): Byte {
    Xor(Minus(b, Top(seed)), k)
  }

  function SeedGen(big: bool): Gen {
    Gen((seed: Seed, key: seq<Byte>) => NextSeed(big, seed, key), Low, Enc, Dec)
  }

  /** Unpacking undoes packing, and the key byte shows in the packed byte. */
  ghost predicate Lossless(g: Gen) {
    && (forall s, k, b :: g.dec(s, k, g.enc(s, k, b)) == b)
    && (forall s, k, l, b :: g.enc(s, k, b) == g.enc(s, l, b) ==> k == l)
  }

  lemma {:induction false} MinusUndoesPlus(a: Byte, b: Byte)
    ensures Minus(Plus(a, b), b) == a
  {
  }

  lemma {:induction false} LowBit(r: nat, a: nat, b: nat)
    ensures var x := 2 * r + (a + b) % 2;
      x / 2 == r && (x + b) % 2 == a % 2 && (a + x) % 2 == b % 2
  {
  }

  lemma {:induction false} Unfold(k: nat, a: nat, b: nat, x: nat)
    requires k > 0 && a < Two(k) && b < Two(k) && x == XorBits(k, a, b)
    ensures x / 2 == XorBits(k - 1, a / 2, b / 2)
    ensures XorBits(k, x, b) == 2 * XorBits(k - 1, x / 2, b / 2) + a % 2
    ensures XorBits(k, a, x) == 2 * XorBits(k - 1, a / 2, x / 2) + b % 2
  {
    LowBit(XorBits(k - 1, a / 2, b / 2), a, b);
  }

  lemma {:induction false} XorBitsTwice(k: nat, a: nat, b: nat)
    requires a < Two(k) && b < Two(k)
    ensures XorBits(k, XorBits(k, a, b), b) == a && XorBits(k, a, XorBits(k, a, b)) == b
  {
    if k > 0 {
      Unfold(k, a, b, XorBits(k, a, b));
      XorBitsTwice(k - 1, a / 2, b / 2);
    }
  }

  /** Bit `i` of a number. */
  function Bit(a: nat, i: nat): nat {
    if i == 0 then a % 2 else Bit(a / 2, i - 1)
  }

  lemma {:induction false} BitsXor(k: nat, a: nat, b: nat, i: nat)
    requires a < Two(k) && b < Two(k) && i < k
    ensures Bit(XorBits(k, a, b), i) == (Bit(a, i) + Bit(b, i)) % 2
  {
    var r := XorBits(k - 1, a / 2, b / 2);
    LowBit(r, a, b);
    assert XorBits(k, a, b) == 2 * r + (a + b) % 2;
    if i > 0 { BitsXor(k - 1, a / 2, b / 2, i - 1); }
  }

  /** The exclusive or, bit by bit. */
  lemma {:induction false} XorBit(a: Byte, b: Byte, i: nat)
    requires i < 8
    ensures Bit(Xor(a, b), i) == (Bit(a, i) + Bit(b, i)) % 2
  {
    assert Two(8) == 256;
    BitsXor(8, a, b, i);
  }

  lemma {:induction false} XorOfOne()
    ensures Xor(0, 1) == 1
  {
    XorUndoesXor(0, 1);
    assert Two(8) == 256;
    XorZero(8, 0);
    XorOfSame(8, 1);
    XorBitsTwice(8, 1, 1);
  }

  lemma {:induction false} XorOfSame(k: nat, a: nat)
    requires a < Two(k)
    ensures XorBits(k, a, a) == 0
  {
    if k > 0 { XorOfSame(k - 1, a / 2); }
  }

  lemma {:induction false} XorUndoesXor(a: Byte, b: Byte)
    ensures Xor(Xor(a, b), b) == a && Xor(a, Xor(a, b)) == b
  {
    assert Two(8) == 256;
    XorBitsTwice(8, a, b);
  }

  /** The functions `encrypt` is written with have the two properties. */
  lemma {:induction false} SeedGenLossless(big: bool)
    ensures Lossless(SeedGen(big))
  {
    var g := SeedGen(big);
    forall s, k, b ensures g.dec(s, k, g.enc(s, k, b)) == b {
      MinusUndoesPlus(Xor(b, k), Top(s));
      XorUndoesXor(b, k);
    }
    forall s, k, l, b | g.enc(s, k, b) == g.enc(s, l, b) ensures k == l {
      MinusUndoesPlus(Xor(b, k), Top(s));
      MinusUndoesPlus(Xor(b, l), Top(s));
      XorUndoesXor(b, k);
      XorUndoesXor(b, l);
    }
  }

  // ----- The transformation

  /** What evolves: the key bytes and the seed. */
  datatype St = St(key: seq<Byte>, seed: Seed)

  datatype Coded = Coded(out: seq<Byte>, end: St)

  predicate Valid(s: St) {
    |s.key| >= NIGMA_MIN
  }

  function Turn(g: Gen, s: St, i: nat): (r: St)
    requires i < |s.key|
  {
    var n := g.next(s.seed, s.key);
    St(s.key[i := g.low(n)], n)
  }

  function Code(g: Gen, m: Mode, s: St, i: nat, b: Byte): Byte
    requires i < |s.key|
  {
    match m
    case Pack => g.enc(s.seed, s.key[i], b)
    case Unpack => g.dec(s.seed, s.key[i], b)
    case NoPack => b
  }

  /** The key index in use: it wraps when it reaches the key length. */
  function Wrap(s: St, i: nat): nat {
    if i == |s.key| then 0 else i
  }

  /** One call of `encrypt` from key index `i` on. */
  function Run(g: Gen, m: Mode, s: St, i: nat, data: seq<Byte>): (r: Coded)
    requires Valid(s) && i <= |s.key|
    ensures |r.out| == |data| && |r.end.key| == |s.key|
    decreases |data|
  {
    if data == [] then Coded([], s)
    else
      var j := Wrap(s, i);
      var rest := Run(g, m, Turn(g, s, j), j + 1, data[1..]);
      Coded([Code(g, m, s, j, data[0])] + rest.out, rest.end)
  }

  /** The key index after `n` bytes, for a key of `len` bytes. */
  function Index(len: nat, i: nat, n: nat): (j: nat)
    requires i <= len && len > 0
    ensures j <= len
    decreases n
  {
    if n == 0 then i else Index(len, (if i == len then 0 else i) + 1, n - 1)
  }

  /** A call on `a + b` is a call on `a` followed by one on `b` that goes on from the key
      index reached. */
  lemma {:induction false} RunAppend(g: Gen, m: Mode, s: St, i: nat, a: seq<Byte>, b: seq<Byte>)
    requires Valid(s) && i <= |s.key|
    ensures var r := Run(g, m, s, i, a);
      var t := Run(g, m, r.end, Index(|s.key|, i, |a|), b);
      Run(g, m, s, i, a + b) == Coded(r.out + t.out, t.end)
    decreases |a|
  {
    if a == [] {
      assert a + b == b;
    } else {
      var k := Wrap(s, i);
      assert (a + b)[1..] == a[1..] + b;
      RunAppend(g, m, Turn(g, s, k), k + 1, a[1..], b);
      var c, r := [Code(g, m, s, k, a[0])], Run(g, m, Turn(g, s, k), k + 1, a[1..]);
      var o := Run(g, m, r.end, Index(|s.key|, i, |a|), b).out;
      Assoc(c, r.out, o);
    }
  }

  lemma {:induction false} IndexStep(len: nat, i: nat, n: nat)
    requires i <= len && len > 0
    ensures var j := Index(len, i, n); Index(len, i, n + 1) == (if j == len then 0 else j) + 1
    decreases n
  {
    if n > 0 { IndexStep(len, (if i == len then 0 else i) + 1, n - 1); }
  }

  /** A call on one byte more. */
  lemma {:induction false} RunOneMore(g: Gen, m: Mode, s: St, d: seq<Byte>, c: nat)
    requires Valid(s) && c < |d|
    ensures var r := Run(g, m, s, 0, d[..c]);
      var j := Wrap(r.end, Index(|s.key|, 0, c));
      var r' := Run(g, m, s, 0, d[..c + 1]);
      && Index(|s.key|, 0, c + 1) == j + 1
      && r'.end == Turn(g, r.end, j)
      && r'.out + d[c + 1..] == (r.out + d[c..])[c := Code(g, m, r.end, j, d[c])]
  {
    assert d[..c + 1] == d[..c] + [d[c]];
    RunAppend(g, m, s, 0, d[..c], [d[c]]);
    IndexStep(|s.key|, 0, c);
  }

  /** The first `c` bytes of `d` are coded; the rest of the buffer is as it was. */
  ghost predicate CodedUpTo(g: Gen, m: Mode, s: St, d: seq<Byte>, c: nat, now: seq<Byte>, st: St, keyc: nat)
    requires Valid(s) && c <= |d|
  {
    && now == Run(g, m, s, 0, d[..c]).out + d[c..]
    && st == Run(g, m, s, 0, d[..c]).end
    && keyc == Index(|s.key|, 0, c)
  }

  lemma {:induction false} CodedOneMore(g: Gen, m: Mode, s: St, d: seq<Byte>, c: nat, now: seq<Byte>, st: St, keyc: nat)
    requires Valid(s) && c < |d| && CodedUpTo(g, m, s, d, c, now, st, keyc)
    ensures |now| == |d| && keyc <= |st.key| == |s.key|
    ensures var j := Wrap(st, keyc);
      CodedUpTo(g, m, s, d, c + 1, now[c := Code(g, m, st, j, now[c])], Turn(g, st, j), j + 1)
  {
    RunOneMore(g, m, s, d, c);
  }

  lemma {:induction false} CodedAll(g: Gen, m: Mode, s: St, d: seq<Byte>, n: nat, now: seq<Byte>, st: St, keyc: nat)
    requires Valid(s) && n <= |d| && CodedUpTo(g, m, s, d, n, now, st, keyc)
    ensures |now| == |d| && Coded(now[..n], st) == Run(g, m, s, 0, d[..n]) && now[n..] == d[n..]
  {
    CutAt(now, Run(g, m, s, 0, d[..n]).out, d[n..], n);
  }

  /** `struct crypto`, with the key buffer it owns. */
  class Crypto {
    var rndkey: array<Byte>
    var rndlen: nat
    var seed: Seed
    var on: bool
    var pack: Mode
    const gen: Gen

    ghost predicate Ok()
      reads this
    {
      NIGMA_MIN <= rndlen <= rndkey.Length
    }

    ghost function State(): St
      reads this, rndkey
      requires rndlen <= rndkey.Length
    {
      St(rndkey[..rndlen], seed)
    }

    constructor (key: array<Byte>, len: nat, seed: Seed, on: bool, pack: Mode, gen: Gen)
      requires NIGMA_MIN <= len <= key.Length
      ensures Ok() && rndkey == key && State() == St(key[..len], seed)
      ensures this.on == on && this.pack == pack && this.gen == gen
    {
      this.rndkey, this.rndlen, this.seed := key, len, seed;
      this.on, this.pack, this.gen := on, pack, gen;
    }

    /** One round of the loop: code a byte in place, move the seed on and put its low
        byte back in the key. */
    method Cycle(data: array<Byte>, c: nat, i: nat) returns (keyc: nat)
      requires Ok() && i <= rndlen && c < data.Length && data != rndkey
      modifies this`seed, rndkey, data
      ensures Ok() && keyc == Wrap(old(State()), i) + 1
      ensures State() == Turn(gen, old(State()), keyc - 1)
      ensures data[..] == old(data[..])[c := Code(gen, pack, old(State()), keyc - 1, old(data[c]))]
    {
      keyc := i;
      if keyc == rndlen { keyc := 0; }
      data[c] := match pack
        case Pack => gen.enc(seed, rndkey[keyc], data[c])
        case Unpack => gen.dec(seed, rndkey[keyc], data[c])
        case NoPack => data[c];
      seed := gen.next(seed, rndkey[..rndlen]);
      rndkey[keyc] := gen.low(seed);
      keyc := keyc + 1;
    }

    /** The same, as one more byte of a call that began with `d0` and `s0`. */
    method CycleOn(data: array<Byte>, c: nat, i: nat, ghost d0: seq<Byte>, ghost s0: St) returns (keyc: nat)
      requires Ok() && data != rndkey && c < data.Length == |d0| && |s0.key| == rndlen
      requires CodedUpTo(gen, pack, s0, d0, c, data[..], State(), i)
      modifies this`seed, rndkey, data
      ensures Ok() && CodedUpTo(gen, pack, s0, d0, c + 1, data[..], State(), keyc)
    {
      assert data[c] == data[..][c];
      CodedOneMore(gen, pack, s0, d0, c, data[..], State(), i);
      keyc := Cycle(data, c, i);
    }

    /** Rewrites the first `len` bytes of the buffer, the key and the seed in place. */
    method Encrypt(data: array<Byte>, len: nat)
      requires Ok() && len <= data.Length && data != rndkey
      modifies this`seed, rndkey, data
      ensures Ok() && data[len..] == old(data[len..])
      ensures !on ==> data[..] == old(data[..]) && State() == old(State())
      ensures on ==> Coded(data[..len], State()) == Run(gen, pack, old(State()), 0, old(data[..len]))
    {
      if !on { return; }
      var c, keyc := 0, 0;
      ghost var d0, s0 := data[..], State();
      assert d0[..0] == [];
      while c < len
        invariant 0 <= c <= len <= |d0| && Ok() && |s0.key| == rndlen
        invariant CodedUpTo(gen, pack, s0, d0, c, data[..], State(), keyc)
      {
        keyc := CycleOn(data, c, keyc, d0, s0);
        c := c + 1;
      }
      CodedAll(gen, pack, s0, d0, len, data[..], State(), keyc);
      assert data[..][..len] == data[..len] && data[..][len..] == data[len..];
    }

    /** `swapkey`: a new key buffer and length; the seed goes on. */
    method SwapKey(newkey: array<Byte>, keylen: nat)
      requires NIGMA_MIN <= keylen <= newkey.Length
      modifies this`rndkey, this`rndlen
      ensures Ok() && State() == St(newkey[..keylen], old(seed))
    {
      rndkey, rndlen := newkey, keylen;
    }

    /** `dup_crypt`: an equal state over a key buffer of its own. */
    method Dup() returns (to: Crypto)
      requires Ok() && rndlen <= KEYMAX
      ensures fresh(to) && fresh(to.rndkey) && to.Ok()
      ensures to.State() == State() && to.on == on && to.pack == pack && to.gen == gen
    {
      var k := new Byte[KEYMAX](_ => 0);
      for i := 0 to rndlen
        invariant k[..i] == rndkey[..i]
      {
        k[i] := rndkey[i];
      }
      to := new Crypto(k, rndlen, seed, on, pack, gen);
    }
  }

  // ----- What the transformation means

  /** Unpacking what was packed from an equal state gives back the data and leaves the
      receiver in the sender's state. */
  lemma {:induction false} UnpackUndoesPack(g: Gen, s: St, i: nat, data: seq<Byte>)
    requires Lossless(g) && Valid(s) && i <= |s.key|
    ensures Run(g, Unpack, s, i, Run(g, Pack, s, i, data).out) == Coded(data, Run(g, Pack, s, i, data).end)
    decreases |data|
  {
    if data != [] {
      var j := Wrap(s, i);
      var c := Run(g, Pack, s, i, data).out;
      UnpackUndoesPack(g, Turn(g, s, j), j + 1, data[1..]);
      assert c[1..] == Run(g, Pack, Turn(g, s, j), j + 1, data[1..]).out;
      assert [data[0]] + data[1..] == data;
    }
  }

  /** Why both ends must cut the stream at the same calls: the byte after a cut comes out
      the same with and without the cut if and only if the key byte the index had reached
      equals the first one. */
  lemma {:induction false} CutMatters(g: Gen, s: St, a: seq<Byte>, b: seq<Byte>)
    requires Lossless(g) && Valid(s) && b != []
    ensures var e := Run(g, Pack, s, 0, a).end;
      var j := Wrap(e, Index(|s.key|, 0, |a|));
      Run(g, Pack, s, 0, a + b).out[|a|] == Run(g, Pack, e, 0, b).out[0] <==> e.key[j] == e.key[0]
  {
    RunAppend(g, Pack, s, 0, a, b);
  }

  // ----- Two hosts

  predicate Palindrome(k: seq<Byte>)
    requires |k| >= 8
  {
    k[0] == k[7] && k[1] == k[6] && k[2] == k[5] && k[3] == k[4]
  }

  /** Two hosts that take the seed from the same key agree on it if and only if they have
      the same byte order or the first eight key bytes read the same both ways. */
  lemma {:induction false} SeedsAgreeIff(x: bool, y: bool, k: seq<Byte>)
    requires |k| >= 8
    ensures Load64(x, k) == Load64(y, k) <==> x == y || Palindrome(k)
  {
  }

  /** Two ends that code bytes alike and may differ in how they get the next seed. */
  ghost predicate SameCode(g: Gen, h: Gen) {
    g.low == h.low && g.enc == h.enc && g.dec == h.dec
  }

  /** From an equal state both ends get the same seed in each of the next `n` rounds. */
  predicate RoundsAgree(g: Gen, h: Gen, s: St, i: nat, n: nat)
    requires Valid(s) && i <= |s.key|
    decreases n
  {
    n == 0 ||
    (g.next(s.seed, s.key) == h.next(s.seed, s.key)
     && var j := Wrap(s, i); RoundsAgree(g, h, Turn(g, s, j), j + 1, n - 1))
  }

  /** The state after each of `n` rounds. */
  function Along(g: Gen, s: St, i: nat, n: nat): (r: seq<St>)
    requires Valid(s) && i <= |s.key|
    ensures |r| == n
    decreases n
  {
    if n == 0 then []
    else
      var j := Wrap(s, i);
      [Turn(g, s, j)] + Along(g, Turn(g, s, j), j + 1, n - 1)
  }

  /** The state in which a call leaves the cipher: it does not depend on the data. */
  function Evolved(g: Gen, s: St, i: nat, n: nat): (r: St)
    requires Valid(s) && i <= |s.key|
    ensures |r.key| == |s.key|
    decreases n
  {
    if n == 0 then s
    else
      var j := Wrap(s, i);
      Evolved(g, Turn(g, s, j), j + 1, n - 1)
  }

  lemma {:induction false} RunEnd(g: Gen, m: Mode, s: St, i: nat, data: seq<Byte>)
    requires Valid(s) && i <= |s.key|
    ensures Run(g, m, s, i, data).end == Evolved(g, s, i, |data|)
    decreases |data|
  {
    if data != [] {
      var j := Wrap(s, i);
      RunEnd(g, m, Turn(g, s, j), j + 1, data[1..]);
    }
  }

  lemma {:induction false} TurnAgrees(g: Gen, h: Gen, s: St, j: nat)
    requires SameCode(g, h) && j < |s.key|
    ensures Turn(g, s, j) == Turn(h, s, j) <==> g.next(s.seed, s.key) == h.next(s.seed, s.key)
  {
  }

  /** The two ends go through the same states exactly when they agree in every round. */
  lemma {:induction false} AlongAgreesIff(g: Gen, h: Gen, s: St, i: nat, n: nat)
    requires SameCode(g, h) && Valid(s) && i <= |s.key|
    ensures Along(g, s, i, n) == Along(h, s, i, n) <==> RoundsAgree(g, h, s, i, n)
    ensures RoundsAgree(g, h, s, i, n) ==> Evolved(g, s, i, n) == Evolved(h, s, i, n)
    decreases n
  {
    if n > 0 {
      var j := Wrap(s, i);
      var t := Turn(g, s, j);
      TurnAgrees(g, h, s, j);
      AlongAgreesIff(g, h, t, j + 1, n - 1);
      assert Along(g, s, i, n)[0] == t && Along(h, s, i, n)[0] == Turn(h, s, j);
      assert Along(g, s, i, n)[1..] == Along(g, t, j + 1, n - 1);
      assert Along(h, s, i, n)[1..] == Along(h, Turn(h, s, j), j + 1, n - 1);
    }
  }

  /** Where they agree, one end codes as the other. */
  lemma {:induction false} RunAgrees(g: Gen, h: Gen, m: Mode, s: St, i: nat, data: seq<Byte>)
    requires SameCode(g, h) && Valid(s) && i <= |s.key| && RoundsAgree(g, h, s, i, |data|)
    ensures Run(g, m, s, i, data) == Run(h, m, s, i, data)
    decreases |data|
  {
    if data != [] {
      var j := Wrap(s, i);
      TurnAgrees(g, h, s, j);
      RunAgrees(g, h, m, Turn(g, s, j), j + 1, data[1..]);
    }
  }

  /** Every round that reloads the seed does so from a key that reads the same both ways. */
  predicate ReloadsSafe(x: bool, s: St, i: nat, n: nat)
    requires Valid(s) && i <= |s.key|
    decreases n
  {
    n == 0 ||
    ((Mix(s.seed) == 0 ==> Palindrome(s.key))
     && var j := Wrap(s, i); ReloadsSafe(x, Turn(SeedGen(x), s, j), j + 1, n - 1))
  }

  lemma {:induction false} SeedGenNext(big: bool, s: St)
    ensures SeedGen(big).next(s.seed, s.key) == NextSeed(big, s.seed, s.key)
  {
  }

  lemma {:induction false} SeedGensSameCode(x: bool, y: bool)
    ensures SameCode(SeedGen(x), SeedGen(y))
  {
  }

  lemma {:induction false} RoundsAgreeIff(x: bool, y: bool, s: St, i: nat, n: nat)
    requires Valid(s) && i <= |s.key|
    ensures RoundsAgree(SeedGen(x), SeedGen(y), s, i, n) <==> x == y || ReloadsSafe(x, s, i, n)
    decreases n
  {
    if n > 0 {
      var j := Wrap(s, i);
      SeedGenNext(x, s);
      SeedGenNext(y, s);
      SeedsAgreeIff(x, y, s.key);
      RoundsAgreeIff(x, y, Turn(SeedGen(x), s, j), j + 1, n - 1);
    }
  }

  /** Byte `n` of a call is coded in the state after `n` rounds. */
  lemma {:induction false} OutAt(g: Gen, m: Mode, s: St, i: nat, data: seq<Byte>, n: nat)
    requires Valid(s) && i <= |s.key| && n < |data|
    ensures var t := Evolved(g, s, i, n);
      Run(g, m, s, i, data).out[n] == Code(g, m, t, Wrap(t, Index(|s.key|, i, n)), data[n])
    decreases n
  {
    if n > 0 {
      var j := Wrap(s, i);
      OutAt(g, m, Turn(g, s, j), j + 1, data[1..], n - 1);
    }
  }

  lemma {:induction false} ThereAndBack(g: Gen, h: Gen, s: St, t: St, data: seq<Byte>, n: nat)
    requires Valid(s) && Valid(t) && |s.key| == |t.key| && n < |s.key| && n < |data|
    ensures var a, b := Evolved(g, s, 0, n), Evolved(h, t, 0, n);
      Run(h, Unpack, t, 0, Run(g, Pack, s, 0, data).out).out[n] == Code(h, Unpack, b, n, Code(g, Pack, a, n, data[n]))
  {
    OutAt(g, Pack, s, 0, data, n);
    OutAt(h, Unpack, t, 0, Run(g, Pack, s, 0, data).out, n);
    IndexBelow(|s.key|, 0, n);
  }

  lemma {:induction false} IndexBelow(len: nat, i: nat, n: nat)
    requires i + n < len
    ensures Index(len, i, n) == i + n
    decreases n
  {
    if n > 0 { IndexBelow(len, i + 1, n - 1); }
  }

  lemma {:induction false} CodesBack(seed: Seed, other: Seed, k: Byte, b: Byte)
    ensures Dec(other, k, Enc(seed, k, b)) == b <==> Top(seed) == Top(other)
  {
    var x := Xor(b, k);
    XorUndoesXor(b, k);
    XorUndoesXor(Minus(Plus(x, Top(seed)), Top(other)), k);
    PlusMinus(x, Top(seed), Top(other));
  }

  lemma {:induction false} PlusMinus(a: Byte, p: Byte, q: Byte)
    ensures Minus(Plus(a, p), q) == a <==> p == q
  {
  }

  lemma {:induction false} TopOfLoad(big: bool, k: seq<Byte>)
    requires |k| >= 8
    ensures Top(Load64(big, k)) == if big then k[0] else k[7]
  {
  }

  lemma {:induction false} SeedGenCodes(big: bool, s: St, i: nat, b: Byte)
    requires i < |s.key|
    ensures Code(SeedGen(big), Pack, s, i, b) == Enc(s.seed, s.key[i], b)
    ensures Code(SeedGen(big), Unpack, s, i, b) == Dec(s.seed, s.key[i], b)
  {
  }

  lemma {:induction false} CodedAt(g: Gen, m: Mode, s: St, data: seq<Byte>, n: nat)
    requires Valid(s) && n < |data| && n < |s.key|
    ensures var t := Evolved(g, s, 0, n); Run(g, m, s, 0, data).out[n] == Code(g, m, t, n, data[n])
  {
    OutAt(g, m, s, 0, data, n);
    IndexBelow(|s.key|, 0, n);
  }

  lemma {:induction false} PackedBy(big: bool, s: St, n: nat, b: Byte)
    requires n < |s.key|
    ensures Code(SeedGen(big), Pack, s, n, b) == (Xor(b, s.key[n]) + s.seed / 0x100_0000_0000_0000) % 256
  {
    SeedGenCodes(big, s, n, b);
  }

  /** Byte `n` of a call in PACK mode, up to the length of the key: xored with byte `n` of
      the key and added to the top byte of the seed, as they are after `n` rounds. */
  lemma {:induction false} PackedByte(big: bool, s: St, data: seq<Byte>, n: nat)
    requires Valid(s) && n < |data| && n < |s.key|
    ensures var t := Evolved(SeedGen(big), s, 0, n);
      Run(SeedGen(big), Pack, s, 0, data).out[n] == (Xor(data[n], t.key[n]) + t.seed / 0x100_0000_0000_0000) % 256
  {
    var t := Evolved(SeedGen(big), s, 0, n);
    CodedAt(SeedGen(big), Pack, s, data, n);
    PackedBy(big, t, n, data[n]);
  }

  /** A round: the seed times its bits 8 to 39 plus its bits 40 to 55 or, if that is 0, the
      first eight bytes of the key; and its low byte in the key. */
  lemma {:induction false} RoundIs(big: bool, s: St, j: nat)
    requires j < |s.key| && Valid(s)
    ensures var t := Turn(SeedGen(big), s, j);
      var low, high := s.seed / 0x100 % 0x1_0000_0000, s.seed / 0x100_0000_0000 % 0x1_0000;
      var mixed := (s.seed * low + high) % 0x1_0000_0000_0000_0000;
      && t.seed == (if mixed != 0 then mixed else Load64(big, s.key))
      && t.key == s.key[j := t.seed % 0x100]
  {
    SeedGenNext(big, s);
  }

  lemma {:induction false} OnesByte(big: bool, key: seq<Byte>, data: seq<Byte>)
    requires |key| >= KEYMIN && (forall i :: 0 <= i < |key| ==> key[i] == 1) && data != [] && data[0] == 0
    ensures Run(SeedGen(big), Pack, St(key, Load64(big, key)), 0, data).out[0] == 2
  {
    PackedByte(big, St(key, Load64(big, key)), data, 0);
    TopOfLoad(big, key);
    XorOfOne();
  }

  /** After the key exchange the first byte comes back if and only if the hosts have the
      same byte order or bytes 0 and 7 of the key are equal: they are the top bytes of the
      two seeds. */
  lemma {:induction false} FirstByteBackIff(x: bool, y: bool, key: seq<Byte>, data: seq<Byte>)
    requires |key| >= KEYMIN && data != []
    ensures var s, t := St(key, Load64(x, key)), St(key, Load64(y, key));
      Run(SeedGen(y), Unpack, t, 0, Run(SeedGen(x), Pack, s, 0, data).out).out[0] == data[0] <==>
        x == y || key[0] == key[7]
  {
    var s, t := St(key, Load64(x, key)), St(key, Load64(y, key));
    ThereAndBack(SeedGen(x), SeedGen(y), s, t, data, 0);
    SeedGenCodes(x, s, 0, data[0]);
    SeedGenCodes(y, t, 0, Enc(s.seed, key[0], data[0]));
    CodesBack(s.seed, t.seed, key[0], data[0]);
    TopOfLoad(x, key);
    TopOfLoad(y, key);
  }

  lemma {:induction false} XorZero(k: nat, a: nat)
    requires a < Two(k)
    ensures Two(k) > 0 && XorBits(k, a, 0) == a
  {
    if k > 0 { XorZero(k - 1, a / 2); }
  }

  lemma {:induction false} TurnTo(big: bool, s: St, j: nat, k: seq<Byte>, next: Seed)
    requires j < 8 <= |s.key| && s.key[..8] == k && NextSeed(big, s.seed, s.key) == next
    ensures var t := Turn(SeedGen(big), s, j);
      |t.key| == |s.key| && t.seed == next && t.key[..8] == k[j := Low(next)]
  {
    SeedGenNext(big, s);
    assert s.key[j := Low(next)][..8] == s.key[..8][j := Low(next)];
  }

  lemma {:induction false} LoadFirst(big: bool, key: seq<Byte>, k: seq<Byte>)
    requires |key| >= 8 && key[..8] == k
    ensures Load64(big, key) == Load64(big, k)
  {
    assert forall i :: 0 <= i < 8 ==> key[i] == key[..8][i];
  }

  lemma {:induction false} FourTurns(g: Gen, s: St)
    requires |s.key| >= 8
    ensures var t1 := Turn(g, s, 0); var t2 := Turn(g, t1, 1); var t3 := Turn(g, t2, 2);
      Evolved(g, s, 0, 4) == Turn(g, t3, 3)
  {
    var t1 := Turn(g, s, 0);
    var t2 := Turn(g, t1, 1);
    var t3 := Turn(g, t2, 2);
    assert Evolved(g, s, 0, 4) == Evolved(g, t1, 1, 3) == Evolved(g, t2, 2, 2) == Evolved(g, t3, 3, 1);
  }

  const UNLIKE_KEY: seq<Byte> := [1, 0, 0, 0, 0, 0, 0, 1]

  /** A round that reloads the seed. */
  lemma {:induction false} ReloadTo(big: bool, s: St, j: nat, k: seq<Byte>)
    requires j < 8 <= |s.key| && s.key[..8] == k && Mix(s.seed) == 0
    ensures var t := Turn(SeedGen(big), s, j); var next := Load64(big, k);
      |t.key| == |s.key| && t.seed == next && t.key[..8] == k[j := Low(next)]
  {
    LoadFirst(big, s.key, k);
    TurnTo(big, s, j, k, Load64(big, k));
  }

  /** A round that does not. */
  lemma {:induction false} MixTo(big: bool, s: St, j: nat, k: seq<Byte>, next: Seed)
    requires j < 8 <= |s.key| && s.key[..8] == k && Mix(s.seed) == next != 0
    ensures var t := Turn(SeedGen(big), s, j);
      |t.key| == |s.key| && t.seed == next && t.key[..8] == k[j := Low(next)]
  {
    TurnTo(big, s, j, k, next);
  }

  lemma {:induction false} UnlikeLoads(big: bool)
    ensures Load64(big, UNLIKE_KEY) == 0x100_0000_0000_0001
    ensures Load64(big, UNLIKE_KEY[1 := 1]) == if big then 0x101_0000_0000_0001 else 0x100_0000_0000_0101
  {
    var k := UNLIKE_KEY[1 := 1];
    assert k[0] == 1 && k[1] == 1 && k[2] == k[3] == k[4] == k[5] == k[6] == 0 && k[7] == 1;
  }

  lemma {:induction false} MixIs(seed: Seed, low: int, high: int)
    requires low == seed / 256 % 0x1_0000_0000 && high == seed / 0x100_0000_0000 % 0x1_0000
    ensures Mix(seed) == (seed * low + high) % TWO_64
  {
  }

  lemma {:induction false} UnlikeMixes()
    ensures Mix(0x100_0000_0000_0001) == 0
    ensures Mix(0x101_0000_0000_0001) == 0x100
    ensures Mix(0x100_0000_0000_0101) == 0x100_0000_0000_0101
  {
    MixIs(0x100_0000_0000_0001, 0, 0);
    MixIs(0x101_0000_0000_0001, 0, 0x100);
    MixIs(0x100_0000_0000_0101, 1, 0);
  }

  /** The state four rounds after a key exchange with this key. Two reloads leave the seed
      as it was and write into the key, so that the third reads differently. */
  lemma {:induction false} UnlikeStates(big: bool, s: St)
    requires |s.key| >= KEYMIN && s.key[..8] == UNLIKE_KEY && s.seed == 0x100_0000_0000_0001
    ensures var t := Evolved(SeedGen(big), s, 0, 4);
      |t.key| == |s.key| && t.key[4] == 0 && t.seed == if big then 0x100 else 0x100_0000_0000_0101
  {
    var g := SeedGen(big);
    FourTurns(g, s);
    UnlikeLoads(big);
    UnlikeMixes();
    var t2 := Turn(g, Turn(g, s, 0), 1);
    TwoReloads(big, s);
    var k2, k3 := UNLIKE_KEY[1 := 1], UNLIKE_KEY[1 := 1][2 := 1];
    ReloadTo(big, t2, 2, k2);
    var t3 := Turn(g, t2, 2);
    MixTo(big, t3, 3, k3, if big then 0x100 else 0x100_0000_0000_0101);
    assert Turn(g, t3, 3).key[4] == Turn(g, t3, 3).key[..8][4];
  }

  lemma {:induction false} TwoReloads(big: bool, s: St)
    requires |s.key| >= KEYMIN && s.key[..8] == UNLIKE_KEY && s.seed == 0x100_0000_0000_0001
    ensures var t := Turn(SeedGen(big), Turn(SeedGen(big), s, 0), 1);
      |t.key| == |s.key| && t.key[..8] == UNLIKE_KEY[1 := 1] && t.seed == 0x100_0000_0000_0001
  {
    UnlikeLoads(big);
    UnlikeMixes();
    ReloadTo(big, s, 0, UNLIKE_KEY);
    assert UNLIKE_KEY[0 := 1] == UNLIKE_KEY;
    ReloadTo(big, Turn(SeedGen(big), s, 0), 1, UNLIKE_KEY);
  }

  /** Two hosts of unlike byte order that start equal after a key exchange, as their key
      reads the same both ways, and a message whose fifth byte does not come back. */
  lemma {:induction false} UnlikeHostsDiffer(key: seq<Byte>)
    requires |key| >= KEYMIN && key[..8] == UNLIKE_KEY
    ensures var s := St(key, Load64(true, key));
      && s == St(key, Load64(false, key))
      && Run(SeedGen(false), Unpack, s, 0, Run(SeedGen(true), Pack, s, 0, [0, 0, 0, 0, 0]).out).out[4] != 0
  {
    LoadFirst(true, key, UNLIKE_KEY);
    LoadFirst(false, key, UNLIKE_KEY);
    var s := St(key, Load64(true, key));
    UnlikeStates(true, s);
    UnlikeStates(false, s);
    var a, b := Evolved(SeedGen(true), s, 0, 4), Evolved(SeedGen(false), s, 0, 4);
    ThereAndBack(SeedGen(true), SeedGen(false), s, s, [0, 0, 0, 0, 0], 4);
    SeedGenCodes(true, a, 4, 0);
    SeedGenCodes(false, b, 4, Enc(a.seed, 0, 0));
    CodesBack(a.seed, b.seed, 0, 0);
  }

  // ----- Every sequence of messages and key swaps

  datatype Op = Message(data: seq<Byte>) | Swap(key: seq<Byte>)

  /** NIGMA refuses keys shorter than NIGMA_MIN. */
  predicate Acceptable(ops: seq<Op>) {
    forall i :: 0 <= i < |ops| && ops[i].Swap? ==> |ops[i].key| >= NIGMA_MIN
  }

  datatype Trace = Trace(ops: seq<Op>, end: St)

  /** One end in the given mode, going through a list of messages and key swaps. */
  function Talk(g: Gen, m: Mode, s: St, ops: seq<Op>): Trace
    requires Valid(s) && Acceptable(ops)
    decreases |ops|
  {
    if ops == [] then Trace([], s)
    else
      match ops[0]
      case Message(d) =>
        var c := Run(g, m, s, 0, d);
        var rest := Talk(g, m, c.end, ops[1..]);
        Trace([Message(c.out)] + rest.ops, rest.end)
      case Swap(k) =>
        var rest := Talk(g, m, s.(key := k), ops[1..]);
        Trace([ops[0]] + rest.ops, rest.end)
  }

  lemma {:induction false} TalkIsAcceptable(g: Gen, m: Mode, s: St, ops: seq<Op>)
    requires Valid(s) && Acceptable(ops)
    ensures Acceptable(Talk(g, m, s, ops).ops) && Valid(Talk(g, m, s, ops).end)
    decreases |ops|
  {
    if ops != [] {
      var s' := if ops[0].Message? then Run(g, m, s, 0, ops[0].data).end else s.(key := ops[0].key);
      TalkIsAcceptable(g, m, s', ops[1..]);
    }
  }

  /** The two ends agree in every round of every message. */
  predicate TalkAgrees(g: Gen, h: Gen, s: St, ops: seq<Op>)
    requires Valid(s) && Acceptable(ops)
    decreases |ops|
  {
    ops == [] ||
    match ops[0]
    case Message(d) =>
      RoundsAgree(g, h, s, 0, |d|) && TalkAgrees(g, h, Evolved(g, s, 0, |d|), ops[1..])
    case Swap(k) => TalkAgrees(g, h, s.(key := k), ops[1..])
  }

  /** The state after each round of each message and after each swap. */
  function Track(g: Gen, s: St, ops: seq<Op>): seq<St>
    requires Valid(s) && Acceptable(ops)
    decreases |ops|
  {
    if ops == [] then []
    else
      match ops[0]
      case Message(d) => Along(g, s, 0, |d|) + Track(g, Evolved(g, s, 0, |d|), ops[1..])
      case Swap(k) => [s.(key := k)] + Track(g, s.(key := k), ops[1..])
  }

  /** What can be known before anything is sent: it takes the key, the seed, the lengths of
      the messages and the new keys. */
  predicate TalkSafe(x: bool, s: St, ops: seq<Op>)
    requires Valid(s) && Acceptable(ops)
    decreases |ops|
  {
    ops == [] ||
    match ops[0]
    case Message(d) => ReloadsSafe(x, s, 0, |d|) && TalkSafe(x, Evolved(SeedGen(x), s, 0, |d|), ops[1..])
    case Swap(k) => TalkSafe(x, s.(key := k), ops[1..])
  }

  lemma {:induction false} SameParts<T>(a: seq<T>, b: seq<T>, c: seq<T>, d: seq<T>)
    requires |a| == |c|
    ensures a + b == c + d <==> a == c && b == d
  {
    assert (a + b)[..|a|] == a && (a + b)[|a|..] == b;
    assert (c + d)[..|a|] == c && (c + d)[|a|..] == d;
  }

  lemma {:induction false} TrackAgreesIff(g: Gen, h: Gen, s: St, ops: seq<Op>)
    requires SameCode(g, h) && Valid(s) && Acceptable(ops)
    ensures Track(g, s, ops) == Track(h, s, ops) <==> TalkAgrees(g, h, s, ops)
    decreases |ops|
  {
    if ops != [] {
      match ops[0]
      case Message(d) =>
        AlongAgreesIff(g, h, s, 0, |d|);
        TrackAgreesIff(g, h, Evolved(g, s, 0, |d|), ops[1..]);
        SameParts(Along(g, s, 0, |d|), Track(g, Evolved(g, s, 0, |d|), ops[1..]),
                  Along(h, s, 0, |d|), Track(h, Evolved(h, s, 0, |d|), ops[1..]));
      case Swap(k) =>
        TrackAgreesIff(g, h, s.(key := k), ops[1..]);
        SameParts([s.(key := k)], Track(g, s.(key := k), ops[1..]), [s.(key := k)], Track(h, s.(key := k), ops[1..]));
    }
  }

  /** The state in which a list of messages and swaps leaves the cipher. */
  function TalkEnd(g: Gen, s: St, ops: seq<Op>): (r: St)
    requires Valid(s) && Acceptable(ops)
    ensures Valid(r)
    decreases |ops|
  {
    if ops == [] then s
    else
      match ops[0]
      case Message(d) => TalkEnd(g, Evolved(g, s, 0, |d|), ops[1..])
      case Swap(k) => TalkEnd(g, s.(key := k), ops[1..])
  }

  lemma {:induction false} TalkAppend(g: Gen, h: Gen, s: St, a: seq<Op>, b: seq<Op>)
    requires Valid(s) && Acceptable(a) && Acceptable(b)
    ensures Acceptable(a + b)
    ensures TalkAgrees(g, h, s, a + b) <==> TalkAgrees(g, h, s, a) && TalkAgrees(g, h, TalkEnd(g, s, a), b)
    ensures TalkEnd(g, s, a + b) == TalkEnd(g, TalkEnd(g, s, a), b)
    decreases |a|
  {
    if a == [] {
      assert a + b == b;
    } else {
      assert (a + b)[1..] == a[1..] + b;
      var t := if a[0].Message? then Evolved(g, s, 0, |a[0].data|) else s.(key := a[0].key);
      TalkAppend(g, h, t, a[1..], b);
    }
  }

  lemma {:induction false} TalkAgreesIff(x: bool, y: bool, s: St, ops: seq<Op>)
    requires Valid(s) && Acceptable(ops)
    ensures TalkAgrees(SeedGen(x), SeedGen(y), s, ops) <==> x == y || TalkSafe(x, s, ops)
    decreases |ops|
  {
    if ops != [] {
      match ops[0]
      case Message(d) =>
        RoundsAgreeIff(x, y, s, 0, |d|);
        TalkAgreesIff(x, y, Evolved(SeedGen(x), s, 0, |d|), ops[1..]);
      case Swap(k) => TalkAgreesIff(x, y, s.(key := k), ops[1..]);
    }
  }

  /** Ends that agree in every round recover every message and end in equal state. */
  lemma {:induction false} AgreeingEndsTalk(g: Gen, h: Gen, s: St, ops: seq<Op>)
    requires Lossless(g) && SameCode(g, h) && Valid(s) && Acceptable(ops) && TalkAgrees(g, h, s, ops)
    ensures var sent := Talk(g, Pack, s, ops);
      && Acceptable(sent.ops)
      && Talk(h, Unpack, s, sent.ops) == Trace(ops, sent.end)
      && |sent.end.key| >= NIGMA_MIN
    decreases |ops|
  {
    TalkIsAcceptable(g, Pack, s, ops);
    if ops != [] {
      var s' := s.(key := if ops[0].Swap? then ops[0].key else s.key);
      if ops[0].Message? {
        var d := ops[0].data;
        RunEnd(g, Pack, s, 0, d);
        UnpackUndoesPack(g, s, 0, d);
        RunAgrees(g, h, Unpack, s, 0, Run(g, Pack, s, 0, d).out);
        s' := Run(g, Pack, s, 0, d).end;
      }
      AgreeingEndsTalk(g, h, s', ops[1..]);
      assert Talk(g, Pack, s, ops).ops[1..] == Talk(g, Pack, s', ops[1..]).ops;
      assert [ops[0]] + ops[1..] == ops;
    }
  }

  /** A sender of byte order `x` in PACK mode and a receiver of byte order `y` in UNPACK
      mode, from an equal state, through every sequence of messages and key swaps: they go
      through the same states if and only if their byte orders are equal or every reload of
      the seed is from a key that reads the same both ways; and then every message is
      recovered. The key never gets shorter than the reload needs. */
  lemma {:induction false} EndsStayInStep(x: bool, y: bool, s: St, ops: seq<Op>)
    requires Valid(s) && Acceptable(ops)
    ensures Track(SeedGen(x), s, ops) == Track(SeedGen(y), s, ops) <==> x == y || TalkSafe(x, s, ops)
    ensures var sent := Talk(SeedGen(x), Pack, s, ops);
      && Acceptable(sent.ops) && |sent.end.key| >= NIGMA_MIN
      && (x == y || TalkSafe(x, s, ops) ==> Talk(SeedGen(y), Unpack, s, sent.ops) == Trace(ops, sent.end))
  {
    SeedGensSameCode(x, y);
    SeedGenLossless(x);
    TrackAgreesIff(SeedGen(x), SeedGen(y), s, ops);
    TalkAgreesIff(x, y, s, ops);
    TalkIsAcceptable(SeedGen(x), Pack, s, ops);
    if x == y || TalkSafe(x, s, ops) {
      AgreeingEndsTalk(SeedGen(x), SeedGen(y), s, ops);
    }
  }

  /** The same from the key exchange on, where each host also takes its first seed from
      the key: the start must agree too, and then every message is recovered. */
  lemma {:induction false} HostsStayInStep(x: bool, y: bool, key: seq<Byte>, ops: seq<Op>)
    requires |key| >= KEYMIN && Acceptable(ops)
    ensures var s, t := St(key, Load64(x, key)), St(key, Load64(y, key));
      [s] + Track(SeedGen(x), s, ops) == [t] + Track(SeedGen(y), t, ops) <==>
        x == y || (Palindrome(key) && TalkSafe(x, s, ops))
    ensures var s, t := St(key, Load64(x, key)), St(key, Load64(y, key));
      var sent := Talk(SeedGen(x), Pack, s, ops);
      && Acceptable(sent.ops)
      && (x == y || (Palindrome(key) && TalkSafe(x, s, ops)) ==>
            Talk(SeedGen(y), Unpack, t, sent.ops) == Trace(ops, sent.end))
  {
    var s, t := St(key, Load64(x, key)), St(key, Load64(y, key));
    SeedsAgreeIff(x, y, key);
    EndsStayInStep(x, y, s, ops);
    SameParts([s], Track(SeedGen(x), s, ops), [t], Track(SeedGen(y), t, ops));
    assert [s] == [t] <==> s == t by { assert [s][0] == s && [t][0] == t; }
  }
}
