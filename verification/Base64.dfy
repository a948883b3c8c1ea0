/** Base64 as in section 4 of RFC 4648, with the padding counted off as `base64dec` does. */
module Base64 {
  import opened Common

  function Char(v: int): char
    requires 0 <= v < 64
  {
    if v < 26 then 'A' + v as char
    else if v < 52 then 'a' + (v - 26) as char
    else if v < 62 then '0' + (v - 52) as char
    else if v == 62 then '+' else '/'
  }

  /** The value of a character; padding counts as 0, anything else is refused. */
  function Value(c: char): int {
    if 'A' <= c <= 'Z' then c as int - 'A' as int
    else if 'a' <= c <= 'z' then c as int - 'a' as int + 26
    else if '0' <= c <= '9' then c as int - '0' as int + 52
    else if c == '+' then 62 else if c == '/' then 63 else if c == '=' then 0 else -1
  }

  function Three(a: Byte, b: Byte, c: Byte): string {
    [Char(a / 4), Char(a % 4 * 16 + b / 16), Char(b % 16 * 4 + c / 64), Char(c % 64)]
  }

  /** `base64en`. */
  function Encode(k: seq<Byte>): string {
    if k == [] then ""
    else if |k| == 1 then Three(k[0], 0, 0)[..2] + "=="
    else if |k| == 2 then Three(k[0], k[1], 0)[..3] + "="
    else Three(k[0], k[1], k[2]) + Encode(k[3..])
  }

  function Four(p: int, q: int, r: int, s: int): seq<Byte>
    requires 0 <= p < 64 && 0 <= q < 64 && 0 <= r < 64 && 0 <= s < 64
  {
    [p * 4 + q / 16, q % 16 * 16 + r / 4, r % 4 * 64 + s]
  }

  /** `EVP_DecodeBlock`: three octets for every four characters. */
  function DecodeBlock(t: string): Option<seq<Byte>> {
    if t == "" then Some([])
    else if |t| < 4 then None
    else
      var p, q, r, s := Value(t[0]), Value(t[1]), Value(t[2]), Value(t[3]);
      var rest := DecodeBlock(t[4..]);
      if p < 0 || q < 0 || r < 0 || s < 0 || rest.None? then None else Some(Four(p, q, r, s) + rest.value)
  }

  /** How many octets the padding stands for. */
  function Padding(t: string): nat {
    if |t| >= 2 && t[|t| - 1] == '=' && t[|t| - 2] == '=' then 2
    else if t != "" && t[|t| - 1] == '=' then 1
    else 0
  }

  /** `base64dec`. */
  function Decode(t: string): Option<seq<Byte>> {
    var d := DecodeBlock(t);
    if d.None? || |d.value| != |t| * 3 / 4 || |d.value| < Padding(t) then None
    else Some(d.value[..|d.value| - Padding(t)])
  }

  /** The alphabet of section 4 of RFC 4648. */
  lemma {:induction false} AlphabetIs(v: int)
    requires 0 <= v < 64
    ensures v < 26 ==> Char(v) as int == 65 + v
    ensures 26 <= v < 52 ==> Char(v) as int == 97 + (v - 26)
    ensures 52 <= v < 62 ==> Char(v) as int == 48 + (v - 52)
    ensures (v == 62 ==> Char(v) == '+') && (v == 63 ==> Char(v) == '/')
  {
  }

  /** Three octets and four characters are the same number of 24 bits, the first of each
      the most significant. */
  lemma {:induction false} SameNumber(a: Byte, b: Byte, c: Byte)
    ensures var t := Three(a, b, c);
      ((Value(t[0]) * 64 + Value(t[1])) * 64 + Value(t[2])) * 64 + Value(t[3]) == (a * 256 + b) * 256 + c
  {
    ThreeValues(a, b, c);
  }

  /** Test vectors of section 10 of RFC 4648. */
  lemma {:induction false} Vectors()
    ensures Encode([]) == "" && Encode([102]) == "Zg==" && Encode([102, 111]) == "Zm8="
    ensures Encode([102, 111, 111]) == "Zm9v" && Encode([102, 111, 111, 98]) == "Zm9vYg=="
  {
    assert [102, 111, 111][3..] == [] && [102, 111, 111, 98][3..] == [98];
  }

  lemma {:induction false} FourOfThree(a: Byte, b: Byte, c: Byte)
    ensures Four(a / 4, a % 4 * 16 + b / 16, b % 16 * 4 + c / 64, c % 64) == [a, b, c]
  {
  }

  /** The octets a group stands for, with its zeros. */
  lemma {:induction false} GroupDecodes(a: Byte, b: Byte, c: Byte, t: string, rest: string)
    requires |t| == 4 && DecodeBlock(rest).Some?
    requires Value(t[0]) == a / 4 && Value(t[1]) == a % 4 * 16 + b / 16
    requires Value(t[2]) == b % 16 * 4 + c / 64 && Value(t[3]) == c % 64
    ensures DecodeBlock(t + rest) == Some([a, b, c] + DecodeBlock(rest).value)
  {
    FourOfThree(a, b, c);
    var all := t + rest;
    assert all[0] == t[0] && all[1] == t[1] && all[2] == t[2] && all[3] == t[3] && all[4..] == rest;
  }

  lemma {:induction false} ThreeValues(a: Byte, b: Byte, c: Byte)
    ensures var t := Three(a, b, c);
      && Value(t[0]) == a / 4 && Value(t[1]) == a % 4 * 16 + b / 16
      && Value(t[2]) == b % 16 * 4 + c / 64 && Value(t[3]) == c % 64
      && (forall i :: 0 <= i < 4 ==> t[i] != '=' && t[i] != '\n' && t[i] != ' ')
  {
  }

  /** The encoding decodes to the key followed by the zeros that the padding stands for. */
  lemma {:induction false} EncodeDecodes(k: seq<Byte>)
    ensures var t := Encode(k);
      && '\n' !in t && ' ' !in t
      && DecodeBlock(t).Some?
      && |DecodeBlock(t).value| * 4 == |t| * 3
      && |DecodeBlock(t).value| == |k| + Padding(t) && DecodeBlock(t).value[..|k|] == k
      && (k != [] ==> |t| >= 4)
    decreases |k|
  {
    if k == [] {
    } else if |k| == 1 {
      ThreeValues(k[0], 0, 0);
      LastGroup(k, k[0], 0, 0);
    } else if |k| == 2 {
      ThreeValues(k[0], k[1], 0);
      LastGroup(k, k[0], k[1], 0);
    } else {
      ThreeValues(k[0], k[1], k[2]);
      EncodeDecodes(k[3..]);
      GroupDecodes(k[0], k[1], k[2], Three(k[0], k[1], k[2]), Encode(k[3..]));
      NextGroup(k);
    }
  }

  lemma {:induction false} LastGroup(k: seq<Byte>, a: Byte, b: Byte, c: Byte)
    requires 1 <= |k| <= 2 && k == [a, b, c][..|k|] && c == 0 && (|k| == 1 ==> b == 0)
    ensures var t := Encode(k); |t| == 4 && Padding(t) == 3 - |k| && DecodeBlock(t) == Some([a, b, c])
    ensures '\n' !in Encode(k) && ' ' !in Encode(k)
  {
    var t := Encode(k);
    ThreeValues(a, b, c);
    GroupDecodes(a, b, c, t, "");
    assert t + "" == t && [a, b, c] + [] == [a, b, c];
  }

  lemma {:induction false} NextGroup(k: seq<Byte>)
    requires |k| >= 3
    requires var u := Encode(k[3..]); '\n' !in u && ' ' !in u && (k[3..] != [] ==> |u| >= 4)
    requires DecodeBlock(Encode(k[3..])).Some?
    requires |DecodeBlock(Encode(k[3..])).value| == |k[3..]| + Padding(Encode(k[3..]))
    requires DecodeBlock(Encode(k[3..])).value[..|k[3..]|] == k[3..]
    ensures Padding(Encode(k)) == Padding(Encode(k[3..])) && '\n' !in Encode(k) && ' ' !in Encode(k)
    ensures ([k[0], k[1], k[2]] + DecodeBlock(Encode(k[3..])).value)[..|k|] == k
  {
    ThreeValues(k[0], k[1], k[2]);
    var t, u := Encode(k), Encode(k[3..]);
    if u == "" {
      assert t == Three(k[0], k[1], k[2]);
    } else {
      assert t[|t| - 1] == u[|u| - 1] && t[|t| - 2] == u[|u| - 2];
    }
    var v := DecodeBlock(u).value;
    assert ([k[0], k[1], k[2]] + v)[..|k|] == [k[0], k[1], k[2]] + v[..|k| - 3];
    assert k == [k[0], k[1], k[2]] + k[3..];
  }

  /** The length that `base64en` insists on. */
  lemma {:induction false} EncodeLength(k: seq<Byte>)
    ensures |Encode(k)| == (|k| + 2) / 3 * 4
    decreases |k|
  {
    if |k| >= 3 { EncodeLength(k[3..]); }
  }

  lemma {:induction false} DecodeUndoesEncode(k: seq<Byte>)
    ensures Decode(Encode(k)) == Some(k)
  {
    EncodeDecodes(k);
  }
}
