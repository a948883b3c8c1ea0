/** Types shared by the modules. */
module Common {
  type Byte = x: int | 0 <= x < 256

  datatype Option<+T> = None | Some(value: T)

  datatype Result<+T> = Ok(value: T) | Err

  /** A prefix of `f` and the part of `f` that follows it. */
  lemma {:induction false} PrefixGrows<T>(f: seq<T>, d: seq<T>, s: seq<T>)
    requires d <= f && |d| + |s| <= |f| && s == f[|d|..|d| + |s|]
    ensures d + s <= f
  {
  }

  lemma {:induction false} SliceOfSlice<T>(f: seq<T>, a: nat, b: nat, i: nat, j: nat)
    requires a <= b <= |f| && i <= j <= b - a
    ensures f[a..b][i..j] == f[a + i..a + j]
  {
    var g := f[a..b];
    forall k | 0 <= k < j - i ensures g[i..j][k] == f[a + i..a + j][k] {
      assert g[i..j][k] == g[i + k] == f[a + i + k];
    }
  }

  lemma {:induction false} TailSlice<T>(f: seq<T>, n: nat, i: nat, j: nat)
    requires n <= |f| && i <= j <= |f| - n
    ensures f[n..][i..j] == f[n + i..n + j]
  {
  }

  lemma {:induction false} Slices<T>(d: seq<T>, c: seq<T>, i: nat, j: nat, k: nat)
    requires i <= j <= k <= |c|
    ensures (d + c[i..j]) + c[j..k] == d + c[i..k]
  {
  }

  lemma {:induction false} CutAt<T>(d: seq<T>, a: seq<T>, b: seq<T>, n: nat)
    requires d == a + b && |a| == n
    ensures d[..n] == a && d[n..] == b
  {
  }

  lemma {:induction false} Assoc<T>(a: seq<T>, b: seq<T>, c: seq<T>)
    ensures a + (b + c) == (a + b) + c
  {
  }
}
