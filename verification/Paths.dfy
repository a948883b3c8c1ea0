/** Path strings and the components they stand for. */
module Paths {

  /** A reader part-way through a path: the components closed by a slash, and the name
      being read. */
  datatype Reading = Reading(done: seq<string>, cur: string)

  function Feed(r: Reading, c: char): Reading {
    if c != '/' then Reading(r.done, r.cur + [c])
    else if r.cur == "" then r
    else Reading(r.done + [r.cur], "")
  }

  function Read(r: Reading, p: string): Reading
    decreases |p|
  {
    if p == "" then r else Read(Feed(r, p[0]), p[1..])
  }

  function Names(r: Reading): seq<string> {
    if r.cur == "" then r.done else r.done + [r.cur]
  }

  function Scan(p: string): Reading {
    Read(Reading([], ""), p)
  }

  /** The names between the slashes of a path. */
  function Components(p: string): seq<string> {
    Names(Scan(p))
  }

  predicate IsName(n: string) {
    n != "" && '/' !in n
  }

  predicate AllNames(rel: seq<string>) {
    forall i :: 0 <= i < |rel| ==> IsName(rel[i])
  }

  /** The string that leads down from a directory: a slash and a name for each component. */
  function Suffix(rel: seq<string>): string {
    if rel == [] then "" else Suffix(rel[..|rel| - 1]) + "/" + rel[|rel| - 1]
  }

  lemma {:induction false} ReadAppend(r: Reading, p: string, q: string)
    ensures Read(r, p + q) == Read(Read(r, p), q)
    decreases |p|
  {
    if p == "" {
      assert p + q == q;
    } else {
      assert (p + q)[1..] == p[1..] + q;
      ReadAppend(Feed(r, p[0]), p[1..], q);
    }
  }

  lemma {:induction false} ReadName(r: Reading, n: string)
    requires '/' !in n
    ensures Read(r, n) == Reading(r.done, r.cur + n)
    decreases |n|
  {
    if n == "" {
      assert r.cur + n == r.cur;
    } else {
      ReadName(Feed(r, n[0]), n[1..]);
      assert r.cur + [n[0]] + n[1..] == r.cur + n;
    }
  }

  lemma {:induction false} ReadStep(r: Reading, n: string)
    requires IsName(n)
    ensures Read(r, "/" + n) == Reading(Names(r), n)
  {
    var s := "/" + n;
    assert s[0] == '/' && s[1..] == n;
    ReadName(Feed(r, '/'), n);
    assert "" + n == n;
  }

  lemma {:induction false} ReadSuffix(r: Reading, rel: seq<string>)
    requires AllNames(rel)
    ensures Names(Read(r, Suffix(rel))) == Names(r) + rel
  {
    if rel != [] {
      var k := |rel| - 1;
      ReadSuffix(r, rel[..k]);
      var up := Suffix(rel[..k]);
      assert Suffix(rel) == up + ("/" + rel[k]);
      ReadAppend(r, up, "/" + rel[k]);
      ReadStep(Read(r, up), rel[k]);
      assert rel[..k] + [rel[k]] == rel;
    }
  }

  /** A path and a suffix have the components of both. */
  lemma {:induction false} ComponentsOfSuffix(p: string, rel: seq<string>)
    requires AllNames(rel)
    ensures Components(p + Suffix(rel)) == Components(p) + rel
  {
    ReadAppend(Reading([], ""), p, Suffix(rel));
    ReadSuffix(Scan(p), rel);
  }

  lemma {:induction false} ComponentsOfChild(p: string, n: string)
    requires IsName(n)
    ensures Components(p + "/" + n) == Components(p) + [n]
  {
    assert p + "/" + n == p + ("/" + n);
    ReadAppend(Reading([], ""), p, "/" + n);
    ReadStep(Scan(p), n);
  }

  // ----- Looking for a string

  /** `strstr`. */
  predicate Contains(s: string, sub: string) {
    exists i :: 0 <= i <= |s| && sub <= s[i..]
  }

  /** Longer by one character, a string contains what it did and what now ends it. */
  lemma {:induction false} ContainsSnoc(s: string, c: char, sub: string)
    requires sub != ""
    ensures Contains(s + [c], sub) <==>
      Contains(s, sub) || (|sub| <= |s| + 1 && (s + [c])[|s| + 1 - |sub|..] == sub)
  {
    var t := s + [c];
    if Contains(t, sub) {
      var i :| 0 <= i <= |t| && sub <= t[i..];
      OneShorter(s, c, sub, i);
    }
    if Contains(s, sub) {
      var i :| 0 <= i <= |s| && sub <= s[i..];
      assert t[i..] == s[i..] + [c];
    }
  }

  lemma {:induction false} OneShorter(s: string, c: char, sub: string, i: nat)
    requires sub != "" && i <= |s| + 1 && sub <= (s + [c])[i..]
    ensures (i <= |s| && sub <= s[i..]) || (|sub| <= |s| + 1 && (s + [c])[|s| + 1 - |sub|..] == sub)
  {
  }

  lemma {:induction false} ReadSnoc(r: Reading, p: string, c: char)
    ensures Read(r, p + [c]) == Feed(Read(r, p), c)
  {
    ReadAppend(r, p, [c]);
    assert [c][1..] == "";
  }

  /** What the reader knows of a path that starts with a slash: the name being read is
      what follows the last slash, and names are names. */
  lemma {:induction false} ScanEnd(p: string)
    requires p != "" && p[0] == '/'
    ensures var r := Scan(p);
      && |r.cur| < |p| && p[|p| - |r.cur|..] == r.cur && p[|p| - |r.cur| - 1] == '/'
      && '/' !in r.cur && AllNames(r.done)
    decreases |p|
  {
    var k := |p| - 1;
    if k == 0 {
      assert p == "/" && Scan("/") == Scan("") == Reading([], "");
    } else {
      ScanEnd(p[..k]);
      ReadSnoc(Reading([], ""), p[..k], p[k]);
      assert p == p[..k] + [p[k]];
    }
  }

  /** Searching for "/../" finds exactly the ".." that are not the last component. */
  lemma {:induction false} DotDotInside(p: string)
    requires p != "" && p[0] == '/'
    ensures Contains(p, "/../") <==> ".." in Scan(p).done
    decreases |p|
  {
    var k := |p| - 1;
    if k == 0 {
      assert p == "/" && Scan("/") == Scan("") == Reading([], "");
    } else {
      var q := p[..k];
      assert p == q + [p[k]];
      DotDotInside(q);
      ReadSnoc(Reading([], ""), q, p[k]);
      ContainsSnoc(q, p[k], "/../");
      ScanEnd(q);
      EndsInDotDot(q, p[k], Scan(q).cur);
    }
  }

  lemma {:induction false} EndsInDotDot(q: string, c: char, cur: string)
    requires |cur| < |q| && q[|q| - |cur|..] == cur && q[|q| - |cur| - 1] == '/' && '/' !in cur
    ensures |q| >= 3 && (q + [c])[|q| - 3..] == "/../" <==> c == '/' && cur == ".."
  {
    assert |cur| > 2 ==> cur[|cur| - 3] == q[|q| - 3];
    if |q| >= 3 && (q + [c])[|q| - 3..] == "/../" {
      var t := (q + [c])[|q| - 3..];
      assert t[0] == '/' && t[1] == '.' && t[2] == '.' && t[3] == '/';
      assert q[|q| - 3] == '/' && q[|q| - 2] == '.' && q[|q| - 1] == '.';
      assert |cur| == 2;
      assert cur == "..";
    }
    if c == '/' && cur == ".." {
      assert q[|q| - 2..] == "..";
      assert (q + [c])[|q| - 3..] == [q[|q| - 3]] + q[|q| - 2..] + [c];
    }
  }

  /** What is read stays read. */
  lemma {:induction false} DoneGrows(r: Reading, q: string)
    ensures r.done <= Read(r, q).done
    decreases |q|
  {
    if q != "" {
      DoneGrows(Feed(r, q[0]), q[1..]);
    }
  }

  lemma {:induction false} SlashCloses(p: string)
    ensures Scan(p + "/") == Reading(Components(p), "")
  {
    ReadSnoc(Reading([], ""), p, '/');
  }

  lemma {:induction false} ComponentsAreNames(p: string)
    requires p != "" && p[0] == '/'
    ensures AllNames(Components(p))
  {
    ScanEnd(p);
  }
}
