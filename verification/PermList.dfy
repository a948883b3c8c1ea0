/** A permission list: one line `identity:bits` per entry, the first that matches counts. */
module PermList {
  import opened Common
  import opened Text

  predicate IsEntry(line: string, id: string) {
    ':' in line && line[..Index(line, ':')] == id
  }

  function Bits(line: string): int {
    var i := Index(line, ':');
    if i < |line| then Atoi(line[i + 1..]) else 0
  }

  /** The bits of the first entry for `id`; 0 if there is none. */
  function Perm(s: string, id: string): int
    decreases |s|
  {
    if s == "" then 0
    else if IsEntry(FirstLine(s), id) then Bits(FirstLine(s))
    else Perm(RestOf(s), id)
  }

  predicate Listed(s: string, id: string)
    decreases |s|
  {
    s != "" && (IsEntry(FirstLine(s), id) || Listed(RestOf(s), id))
  }

  /** `SECFS_SETPERM` and `SECFS_REMPERM` in two's complement. */
  predicate SetBit(perm: int) { perm % 2 == 1 }

  predicate RemBit(perm: int) { perm / 2 % 2 == 1 }

  /** The list without the entries for `id`. */
  function Dropped(s: string, id: string): string
    decreases |s|
  {
    if s == "" then ""
    else (if IsEntry(FirstLine(s), id) then "" else FirstLine(s)) + Dropped(RestOf(s), id)
  }

  /** A list of whole lines, each with a colon. */
  predicate Good(s: string)
    decreases |s|
  {
    s == "" || (GoodLine(FirstLine(s)) && Good(RestOf(s)))
  }

  predicate GoodLine(line: string) {
    line != "" && line[|line| - 1] == '\n' && ':' in line
  }

  predicate GoodToken(tok: string) {
    ':' in tok && '\n' !in tok
  }

  /** A first line that is whole stays the first line when more follows. */
  lemma {:induction false} LineEndAppend(s: string, t: string)
    requires s != "" && FirstLine(s)[|FirstLine(s)| - 1] == '\n'
    ensures LineEnd(s + t) == LineEnd(s)
  {
    if s[0] != '\n' {
      assert (s + t)[1..] == s[1..] + t;
      assert s[1..] != "";
      assert FirstLine(s[1..]) == FirstLine(s)[1..];
      LineEndAppend(s[1..], t);
    }
  }

  lemma {:induction false} FirstAppend(s: string, t: string)
    requires s != "" && GoodLine(FirstLine(s))
    ensures FirstLine(s + t) == FirstLine(s) && RestOf(s + t) == RestOf(s) + t
  {
    LineEndAppend(s, t);
  }

  lemma {:induction false} TokenLine(tok: string)
    requires GoodToken(tok)
    ensures FirstLine(tok + "\n") == tok + "\n" && RestOf(tok + "\n") == "" && GoodLine(tok + "\n")
  {
    LineEndOfToken(tok);
    var i :| 0 <= i < |tok| && tok[i] == ':';
    assert (tok + "\n")[i] == ':';
  }

  /** A new entry at the end counts only for an identity that has none yet. */
  lemma {:induction false} AppendedEntry(s: string, tok: string, id: string)
    requires Good(s) && GoodToken(tok)
    ensures Good(s + tok + "\n")
    ensures Perm(s + tok + "\n", id) ==
      if Listed(s, id) then Perm(s, id)
      else if IsEntry(tok + "\n", id) then Bits(tok + "\n")
      else 0
    decreases |s|
  {
    var line := tok + "\n";
    assert s + tok + "\n" == s + line;
    if s == "" {
      TokenLine(tok);
      assert s + line == line;
    } else {
      FirstAppend(s, line);
      AppendedEntry(RestOf(s), tok, id);
      assert RestOf(s) + tok + "\n" == RestOf(s) + line;
    }
  }

  /** Whatever comes behind a good list, the identities in it keep their bits. */
  lemma {:induction false} ListedKeeps(s: string, t: string, id: string)
    requires Good(s) && Listed(s, id)
    ensures Perm(s + t, id) == Perm(s, id)
    decreases |s|
  {
    FirstAppend(s, t);
    if !IsEntry(FirstLine(s), id) { ListedKeeps(RestOf(s), t, id); }
  }

  lemma {:induction false} UnlistedHasNone(s: string, id: string)
    requires !Listed(s, id)
    ensures Perm(s, id) == 0
    decreases |s|
  {
    if s != "" { UnlistedHasNone(RestOf(s), id); }
  }

  /** One entry before a good list. */
  lemma {:induction false} Prepend(line: string, t: string)
    requires GoodLine(line) && FirstLine(line) == line
    ensures FirstLine(line + t) == line && RestOf(line + t) == t
  {
    FirstAppend(line, t);
    assert RestOf(line) == "" && "" + t == t;
  }

  lemma {:induction false} FirstOfFirst(s: string)
    ensures FirstLine(FirstLine(s)) == FirstLine(s)
  {
    LineEndOfFirst(s);
  }

  lemma {:induction false} LineEndOfFirst(s: string)
    ensures LineEnd(s[..LineEnd(s)]) == LineEnd(s)
  {
    if s != "" && s[0] != '\n' {
      LineEndOfFirst(s[1..]);
      assert s[..LineEnd(s)][1..] == s[1..][..LineEnd(s[1..])];
    }
  }

  /** Dropping one identity takes its bits and leaves every other identity's. */
  lemma {:induction false} DroppedEntry(s: string, gone: string, id: string)
    requires Good(s)
    ensures Good(Dropped(s, gone))
    ensures Perm(Dropped(s, gone), id) == if id == gone then 0 else Perm(s, id)
    decreases |s|
  {
    if s != "" {
      var line := FirstLine(s);
      DroppedEntry(RestOf(s), gone, id);
      if IsEntry(line, gone) {
        assert Dropped(s, gone) == Dropped(RestOf(s), gone);
      } else {
        FirstOfFirst(s);
        Prepend(line, Dropped(RestOf(s), gone));
      }
    }
  }

  lemma {:induction false} EntryOf(id: string, rest: string, x: string)
    requires ':' !in id
    ensures IsEntry(id + ":" + rest, x) <==> x == id
    ensures Bits(id + ":" + rest) == Atoi(rest)
  {
    IndexAfter(id, ':', rest);
    var line := id + ":" + rest;
    assert line[|id|] == ':' && line[..|id|] == id && line[|id| + 1..] == rest;
  }

  /** The token "id:n", with `n` in decimal, gives `id` the bits `n` if it has none yet, and
      changes nobody else's. */
  lemma {:induction false} TokenGives(s: string, id: string, n: nat, x: string)
    requires Good(s) && ':' !in id && '\n' !in id
    ensures Perm(s + (id + ":" + Print(n)) + "\n", x) == if Listed(s, x) then Perm(s, x) else if x == id then n else 0
  {
    var tok := id + ":" + Print(n);
    assert tok[|id|] == ':';
    AppendedEntry(s, tok, x);
    assert tok + "\n" == id + ":" + (Print(n) + "\n");
    EntryOf(id, Print(n) + "\n", x);
    AtoiOfLine(Print(n));
    AtoiUndoesPrint(n);
  }

  // ----- A list that is cut short

  /** Where the first entry for `id` ends. */
  function EntryEnd(s: string, id: string): (e: nat)
    ensures e <= |s|
    decreases |s|
  {
    if s == "" then 0
    else LineEnd(s) + if IsEntry(FirstLine(s), id) then 0 else EntryEnd(RestOf(s), id)
  }

  /** Where its colon is. */
  function EntryColon(s: string, id: string): (c: nat)
    ensures Listed(s, id) ==> c < EntryEnd(s, id)
    decreases |s|
  {
    if s == "" then 0
    else if IsEntry(FirstLine(s), id) then
      IndexFinds(FirstLine(s), ':');
      |id|
    else LineEnd(s) + EntryColon(RestOf(s), id)
  }

  /** The bits that the first `k` bytes of a list give to `id`: what is left of the number in
      its first entry, if the colon is left. */
  function CutBits(s: string, k: int, id: string): int {
    var from, end := EntryColon(s, id) + 1, EntryEnd(s, id);
    if !Listed(s, id) || k < from then 0 else Atoi(s[from..if k < end then k else end])
  }

  lemma {:induction false} CutBehindLine(s: string, k: nat)
    requires s != "" && GoodLine(FirstLine(s)) && LineEnd(s) <= k <= |s|
    ensures FirstLine(s[..k]) == FirstLine(s) && RestOf(s[..k]) == RestOf(s)[..k - LineEnd(s)]
  {
    var line, rest := FirstLine(s), RestOf(s)[..k - LineEnd(s)];
    assert s[..k] == line + rest;
    FirstOfFirst(s);
    Prepend(line, rest);
  }

  lemma {:induction false} CutInLine(s: string, k: nat)
    requires k < LineEnd(s)
    ensures LineEnd(s[..k]) == k
  {
    if k > 0 {
      assert s[..k][1..] == s[1..][..k - 1];
      CutInLine(s[1..], k - 1);
    }
  }

  lemma {:induction false} IndexOfCut(s: string, c: char, k: nat)
    requires k <= |s|
    ensures c in s[..k] <==> Index(s, c) < k
    ensures c in s[..k] ==> Index(s[..k], c) == Index(s, c)
  {
    if k > 0 && s[0] != c {
      assert s[..k] == [s[0]] + s[1..][..k - 1];
      assert s[..k][1..] == s[1..][..k - 1];
      IndexOfCut(s[1..], c, k - 1);
    } else if k > 0 {
      assert s[..k][0] == c;
    }
  }

  lemma {:induction false} CutLineIsEntry(line: string, k: nat, id: string)
    requires k <= |line|
    ensures IsEntry(line[..k], id) <==> IsEntry(line, id) && |id| < k
  {
    IndexOfCut(line, ':', k);
    if ':' in line {
      IndexFinds(line, ':');
      var i := Index(line, ':');
      if i < k { assert line[..k][..i] == line[..i]; }
    }
  }

  lemma {:induction false} BitsOfCut(line: string, k: nat, id: string)
    requires k <= |line| && IsEntry(line, id) && |id| < k
    ensures Bits(line[..k]) == Atoi(line[|id| + 1..k])
  {
    IndexOfCut(line, ':', k);
    IndexFinds(line, ':');
    assert line[..k][|id| + 1..] == line[|id| + 1..k];
  }

  lemma {:induction false} CutInFirst(s: string, k: nat, id: string)
    requires s != "" && 0 < k < LineEnd(s)
    ensures Perm(s[..k], id) == CutBits(s, k, id)
  {
    var line := FirstLine(s);
    CutInLine(s, k);
    assert FirstLine(s[..k]) == s[..k] == line[..k] && RestOf(s[..k]) == "";
    CutLineIsEntry(line, k, id);
    if IsEntry(line, id) && |id| < k {
      BitsOfCut(line, k, id);
      assert line[|id| + 1..k] == s[|id| + 1..k];
    }
  }

  /** What any cut of a good list says, exactly. */
  lemma {:induction false} CutPerm(s: string, k: nat, id: string)
    requires Good(s) && k <= |s|
    ensures Perm(s[..k], id) == CutBits(s, k, id)
    decreases |s|
  {
    if s == "" || k == 0 {
      assert s[..k] == "";
    } else if k < LineEnd(s) {
      CutInFirst(s, k, id);
    } else {
      var line, n := FirstLine(s), LineEnd(s);
      CutBehindLine(s, k);
      if IsEntry(line, id) {
        IndexFinds(line, ':');
        BitsOfCut(line, n, id);
        assert line[..n] == line && line[|id| + 1..n] == s[|id| + 1..n];
      } else {
        CutPerm(RestOf(s), k - n, id);
        CutShift(s, k, id);
      }
    }
  }

  lemma {:induction false} CutShift(s: string, k: nat, id: string)
    requires s != "" && LineEnd(s) <= k <= |s| && !IsEntry(FirstLine(s), id)
    ensures CutBits(s, k, id) == CutBits(RestOf(s), k - LineEnd(s), id)
  {
    var n := LineEnd(s);
    var from, end := EntryColon(RestOf(s), id) + 1, EntryEnd(RestOf(s), id);
    var to := if k - n < end then k - n else end;
    if Listed(RestOf(s), id) && from <= to { TailSlice(s, n, from, to); }
  }

  lemma {:induction false} WholePerm(s: string, id: string)
    requires Good(s)
    ensures Perm(s, id) == CutBits(s, |s|, id)
  {
    CutPerm(s, |s|, id);
    assert s[..|s|] == s;
  }

  /** An entry of decimal digits. */
  predicate Plain(s: string, id: string) {
    && Listed(s, id)
    && forall i :: EntryColon(s, id) < i < EntryEnd(s, id) - 1 ==> '0' <= s[i] <= '9'
  }

  lemma {:induction false} EntryEndsLine(s: string, id: string)
    requires Good(s) && Listed(s, id)
    ensures EntryColon(s, id) + 1 < EntryEnd(s, id) && s[EntryEnd(s, id) - 1] == '\n'
    decreases |s|
  {
    if IsEntry(FirstLine(s), id) {
      IndexFinds(FirstLine(s), ':');
    } else {
      EntryEndsLine(RestOf(s), id);
    }
  }

  lemma {:induction false} DigitsBetween(s: string, from: nat, to: nat)
    requires from <= to <= |s| && forall i :: from <= i < to ==> '0' <= s[i] <= '9'
    ensures AllDigits(s[from..to])
  {
  }

  lemma {:induction false} PlainCut(s: string, k: nat, id: string, t: string)
    requires Good(s) && k <= |s| && Plain(s, id)
    requires EntryColon(s, id) + 1 < EntryEnd(s, id) && s[EntryEnd(s, id) - 1] == '\n'
    requires t == s[EntryColon(s, id) + 1..EntryEnd(s, id) - 1]
    ensures AllDigits(t)
    ensures var from := EntryColon(s, id) + 1;
      CutBits(s, k, id) == if k < from then 0 else if k - from <= |t| then Atoi(t[..k - from]) else Atoi(t)
  {
    var from, end := EntryColon(s, id) + 1, EntryEnd(s, id);
    assert s[from..end] == t + "\n";
    DigitsBetween(s, from, end - 1);
    AtoiOfLine(t);
    if from <= k < end { assert s[from..k] == t[..k - from]; }
  }

  lemma {:induction false} CutNumber(t: string, m: int, cut: int)
    requires AllDigits(t) && cut == if m < 0 then 0 else if m <= |t| then Atoi(t[..m]) else Atoi(t)
    ensures cut == Atoi(t) <==> Atoi(t) == 0 || |t| <= m
  {
    if 0 <= m <= |t| { AtoiOfPrefix(t, m); }
  }

  /** With a decimal entry, the bits are kept if and only if at most the line's end is cut
      off, or there are none to lose. */
  lemma {:induction false} PlainCutKeepsIff(s: string, k: nat, id: string)
    requires Good(s) && k <= |s| && Plain(s, id)
    ensures Perm(s[..k], id) == Perm(s, id) <==> Perm(s, id) == 0 || EntryEnd(s, id) <= k + 1
  {
    CutPerm(s, k, id);
    WholePerm(s, id);
    EntryEndsLine(s, id);
    var from := EntryColon(s, id) + 1;
    var t := s[from..EntryEnd(s, id) - 1];
    PlainCut(s, k, id, t);
    PlainCut(s, |s|, id, t);
    CutNumber(t, k - from, CutBits(s, k, id));
  }

  /** What is put behind a good list counts for those who are not in it. */
  lemma {:induction false} UnlistedPasses(s: string, t: string, id: string)
    requires Good(s) && !Listed(s, id)
    ensures Perm(s + t, id) == Perm(t, id)
    decreases |s|
  {
    if s == "" {
      assert s + t == t;
    } else {
      FirstAppend(s, t);
      UnlistedPasses(RestOf(s), t, id);
    }
  }

  /** A new entry of which `k` bytes are there: who is listed keeps the old bits, anyone else
      has what is left of the number behind the colon, if the colon is there. */
  lemma {:induction false} CutEntry(s: string, tok: string, k: nat, id: string)
    requires Good(s) && GoodToken(tok) && k <= |tok| + 1
    ensures Perm(s + (tok + "\n")[..k], id) ==
      if Listed(s, id) then Perm(s, id)
      else if IsEntry(tok + "\n", id) && |id| < k then Atoi((tok + "\n")[|id| + 1..k])
      else 0
  {
    var line := tok + "\n";
    TokenLine(tok);
    if Listed(s, id) {
      ListedKeeps(s, line[..k], id);
    } else {
      UnlistedPasses(s, line[..k], id);
      CutPerm(line, k, id);
    }
  }

  lemma {:induction false} DroppedNotListed(s: string, gone: string)
    requires Good(s)
    ensures !Listed(Dropped(s, gone), gone)
    decreases |s|
  {
    if s != "" {
      DroppedNotListed(RestOf(s), gone);
      if IsEntry(FirstLine(s), gone) {
        assert Dropped(s, gone) == Dropped(RestOf(s), gone);
      } else {
        FirstOfFirst(s);
        Prepend(FirstLine(s), Dropped(RestOf(s), gone));
      }
    }
  }

  /** A cut within a number: of "b:12" only "b:1" is left, which is the set bit. */
  lemma {:induction false} CutGivesSetBit(list: string)
    requires list == "a:2\nb:12\n"
    ensures Dropped(list, "c") == list && RemBit(Perm(list, "a"))
    ensures !SetBit(Perm(list, "b")) && SetBit(Perm(list[..7], "b"))
  {
    TwoEntries();
    NothingDropped();
    CutLeavesOne();
    assert list[..7] == "a:2\nb:1";
  }

  lemma {:induction false} TwoEntries()
    ensures var list := "a:2\nb:12\n"; Perm(list, "a") == 2 && Perm(list, "b") == 12
  {
    var list := "a:2\nb:12\n";
    assert FirstLine(list) == "a:2\n" && RestOf(list) == "b:12\n" && FirstLine("b:12\n") == "b:12\n";
  }

  lemma {:induction false} NothingDropped()
    ensures var list := "a:2\nb:12\n"; Dropped(list, "c") == list
  {
    var list := "a:2\nb:12\n";
    assert FirstLine(list) == "a:2\n" && RestOf(list) == "b:12\n";
    assert FirstLine("b:12\n") == "b:12\n" && RestOf("b:12\n") == "";
  }

  lemma {:induction false} CutLeavesOne()
    ensures Perm("a:2\nb:1", "b") == 1
  {
    var cut := "a:2\nb:1";
    assert FirstLine(cut) == "a:2\n" && RestOf(cut) == "b:1" && FirstLine("b:1") == "b:1";
  }

  // ----- The loops of the source

  method GetFsidPerm(file: string, id: string) returns (perm: int)
    ensures perm == Perm(file, id)
  {
    var rest := file;
    while rest != ""
      invariant Perm(rest, id) == Perm(file, id)
      decreases |rest|
    {
      var line := FirstLine(rest);
      if ':' in line && line[..Index(line, ':')] == id {
        IndexFinds(line, ':');
        return Atoi(line[Index(line, ':') + 1..]);
      }
      rest := RestOf(rest);
    }
    return 0;
  }

  method CopyOthers(fperm: string, tok: string) returns (fswap: string)
    ensures fswap == Dropped(fperm, tok)
  {
    var rest := fperm;
    fswap := "";
    while rest != ""
      invariant fswap + Dropped(rest, tok) == Dropped(fperm, tok)
      decreases |rest|
    {
      var line := FirstLine(rest);
      ghost var more := Dropped(RestOf(rest), tok);
      assert "" + more == more;
      if !(':' in line && line[..Index(line, ':')] == tok) {
        Assoc(fswap, line, more);
        fswap := fswap + line;
      }
      rest := RestOf(rest);
    }
  }
}
