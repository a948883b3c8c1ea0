/** The C library's way with lines and numbers. */
module Text {

  /** Where the first `c` is, or the length. */
  function Index(s: string, c: char): (i: nat)
    ensures i <= |s|
  {
    if s == "" || s[0] == c then 0 else 1 + Index(s[1..], c)
  }

  /** What `fgets` returns, and what it leaves. */
  function LineEnd(s: string): (n: nat)
    ensures n <= |s| && (s != "" ==> n > 0)
  {
    if s == "" then 0 else if s[0] == '\n' then 1 else 1 + LineEnd(s[1..])
  }

  function FirstLine(s: string): string { s[..LineEnd(s)] }

  function RestOf(s: string): string { s[LineEnd(s)..] }

  function Digits(s: string, acc: int): int
    decreases |s|
  {
    if s == "" || !('0' <= s[0] <= '9') then acc else Digits(s[1..], 10 * acc + (s[0] as int - '0' as int))
  }

  /** `atoi` and `atoll`, short of overflow. */
  function Atoi(s: string): int
    decreases |s|
  {
    if s == "" then 0
    else if s[0] == ' ' || '\t' <= s[0] <= '\r' then Atoi(s[1..])
    else if s[0] == '-' then -Digits(s[1..], 0)
    else if s[0] == '+' then Digits(s[1..], 0)
    else Digits(s, 0)
  }

  lemma {:induction false} IndexFinds(s: string, c: char)
    requires c in s
    ensures Index(s, c) < |s| && s[Index(s, c)] == c
  {
    if s[0] != c { IndexFinds(s[1..], c); }
  }

  lemma {:induction false} LineEndOfToken(tok: string)
    requires '\n' !in tok
    ensures LineEnd(tok + "\n") == |tok| + 1
  {
    if tok != "" {
      assert (tok + "\n")[1..] == tok[1..] + "\n";
      LineEndOfToken(tok[1..]);
    }
  }

  lemma {:induction false} IndexAfter(a: string, c: char, b: string)
    requires c !in a
    ensures Index(a + [c] + b, c) == |a|
  {
    if a != "" {
      assert (a + [c] + b)[1..] == a[1..] + [c] + b;
      IndexAfter(a[1..], c, b);
    }
  }

  // ----- Decimal numbers

  function Digit(d: int): char
    requires 0 <= d < 10
  {
    '0' + d as char
  }

  /** `%llu`. */
  function Print(n: nat): (s: string)
    ensures s != "" && forall i :: 0 <= i < |s| ==> '0' <= s[i] <= '9'
  {
    if n < 10 then [Digit(n)] else Print(n / 10) + [Digit(n % 10)]
  }

  lemma {:induction false} DigitsSnoc(s: string, c: char, acc: int)
    requires (forall i :: 0 <= i < |s| ==> '0' <= s[i] <= '9') && '0' <= c <= '9'
    ensures Digits(s + [c], acc) == 10 * Digits(s, acc) + (c as int - '0' as int)
    decreases |s|
  {
    if s == "" {
      assert (s + [c])[1..] == "";
    } else {
      assert (s + [c])[1..] == s[1..] + [c];
      DigitsSnoc(s[1..], c, 10 * acc + (s[0] as int - '0' as int));
    }
  }

  predicate AllDigits(s: string) {
    forall i :: 0 <= i < |s| ==> '0' <= s[i] <= '9'
  }

  lemma {:induction false} DigitsAppend(s: string, t: string, acc: int)
    requires AllDigits(s)
    ensures Digits(s + t, acc) == Digits(t, Digits(s, acc))
    decreases |s|
  {
    if s == "" {
      assert s + t == t;
    } else {
      assert (s + t)[1..] == s[1..] + t;
      DigitsAppend(s[1..], t, 10 * acc + (s[0] as int - '0' as int));
    }
  }

  lemma {:induction false} DigitsGrow(s: string, acc: int)
    requires AllDigits(s) && acc >= 0
    ensures Digits(s, acc) >= if s == "" then acc else 10 * acc
    decreases |s|
  {
    if s != "" { DigitsGrow(s[1..], 10 * acc + (s[0] as int - '0' as int)); }
  }

  lemma {:induction false} AtoiOfDigits(s: string)
    requires AllDigits(s)
    ensures Atoi(s) == Digits(s, 0)
  {
    if s != "" { assert '0' <= s[0] <= '9'; }
  }

  lemma {:induction false} AtoiOfLine(s: string)
    requires AllDigits(s)
    ensures Atoi(s + "\n") == Atoi(s)
  {
    AtoiOfDigits(s);
    DigitsAppend(s, "\n", 0);
    if s == "" {
      assert s + "\n" == "\n" && "\n"[1..] == "";
    } else {
      assert '0' <= s[0] <= '9' && (s + "\n")[0] == s[0];
    }
  }

  /** A number that loses digits at its end changes, unless it is 0. */
  lemma {:induction false} AtoiOfPrefix(s: string, n: nat)
    requires AllDigits(s) && n <= |s|
    ensures Atoi(s[..n]) == Atoi(s) <==> n == |s| || Atoi(s) == 0
  {
    AtoiOfDigits(s);
    AtoiOfDigits(s[..n]);
    assert s[..n] + s[n..] == s;
    DigitsAppend(s[..n], s[n..], 0);
    DigitsGrow(s[..n], 0);
    DigitsGrow(s[n..], Digits(s[..n], 0));
  }

  lemma {:induction false} DigitsOfPrint(n: nat)
    ensures Digits(Print(n), 0) == n
  {
    if n < 10 {
      assert Print(n)[1..] == "";
    } else {
      DigitsOfPrint(n / 10);
      DigitsSnoc(Print(n / 10), Digit(n % 10), 0);
    }
  }

  lemma {:induction false} PrintIsDecimal()
    ensures Print(120) == "120" && Print(7) == "7"
  {
    assert Print(1) == "1" && Print(12) == "12";
  }

  lemma {:induction false} AtoiUndoesPrint(n: nat)
    ensures Atoi(Print(n)) == n
  {
    DigitsOfPrint(n);
    assert '0' <= Print(n)[0] <= '9';
  }

  function Pow10(k: nat): nat {
    if k == 0 then 1 else 10 * Pow10(k - 1)
  }

  lemma {:induction false} PrintShort(n: nat, k: nat)
    requires 1 <= k && n < Pow10(k)
    ensures |Print(n)| <= k
    decreases k
  {
    if k > 1 && n >= 10 {
      PrintShort(n / 10, k - 1);
    } else if k == 1 {
      assert Pow10(1) == 10 * Pow10(0);
    }
  }
}
