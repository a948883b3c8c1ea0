/** Reusable entry tokens: a file with one line, the expiry and the key in base64, written
    at issue and again, with a new key, at every use. */
module FaiToken {
  import opened Common
  import opened Text
  import opened Base64

  const WRAP := 0x1_0000_0000_0000_0000
  const SECONDS_PER_MINUTE := 60
  const KEY_MIN := 16

  /** The lengths that `FAITOK` and the renewal draw. */
  predicate KeyOk(key: seq<Byte>) {
    128 <= |key| <= 214
  }

  /** The expiry that `FAITOK` issues, in 64-bit unsigned arithmetic as the source has it. */
  function Expiry(now: int, asked: int, mq: int): int {
    var e := asked % WRAP;
    var minutes := if e > mq % WRAP || e <= 0 then mq % WRAP else e;
    (now + minutes * SECONDS_PER_MINUTE) % WRAP
  }

  /** The minutes that are granted: up to a limit that is not negative what was asked for,
      else the limit. A negative limit, which is compared as an unsigned number, is none:
      whatever is asked for is granted, and nothing asked for gives an expiry in the past. */
  function Granted(asked: int, mq: int): int {
    if 0 <= mq then if 0 < asked <= mq then asked else mq
    else if 0 < asked || asked <= mq then asked
    else mq
  }

  lemma {:induction false} ExpiryIs(now: nat, asked: int, mq: int)
    requires -(WRAP / 2) <= asked < WRAP / 2 && -(WRAP / 2) <= mq < WRAP / 2
    ensures Expiry(now, asked, mq) == (now + Granted(asked, mq) * SECONDS_PER_MINUTE) % WRAP
  {
    Unsigned(asked);
    Unsigned(mq);
    var e := asked % WRAP;
    var minutes := if e > mq % WRAP || e <= 0 then mq % WRAP else e;
    SameModulo(now + Granted(asked, mq) * SECONDS_PER_MINUTE,
               if minutes == Granted(asked, mq) then 0 else SECONDS_PER_MINUTE);
  }

  lemma {:induction false} SameModulo(v: int, k: int)
    requires 0 <= k <= SECONDS_PER_MINUTE
    ensures (v + k * WRAP) % WRAP == v % WRAP
    decreases k
  {
    if k > 0 {
      SameModulo(v, k - 1);
      assert v + k * WRAP == (v + (k - 1) * WRAP) + WRAP;
    }
  }

  /** The expiry lies between now and `mq` minutes from now for a limit that is not negative;
      for a negative one it lies in the future exactly if a positive time was asked for, and
      is then what was asked for. */
  lemma {:induction false} ExpiryBounded(now: nat, asked: int, mq: int)
    requires -(WRAP / 2) <= asked < WRAP / 2 && -(WRAP / 2) <= mq < WRAP / 2
    requires 0 <= now + Granted(asked, mq) * SECONDS_PER_MINUTE < WRAP
    ensures 0 <= mq ==> now <= Expiry(now, asked, mq) <= now + mq * SECONDS_PER_MINUTE
    ensures mq < 0 ==> (Expiry(now, asked, mq) > now <==> asked > 0)
    ensures mq < 0 < asked ==> Expiry(now, asked, mq) == now + asked * SECONDS_PER_MINUTE
  {
    ExpiryIs(now, asked, mq);
  }

  lemma {:induction false} Unsigned(v: int)
    requires -(WRAP / 2) <= v < WRAP / 2
    ensures v % WRAP == if v < 0 then v + WRAP else v
  {
  }

  function Line(exp: nat, key: seq<Byte>): string {
    Print(exp) + " " + Encode(key) + "\n"
  }

  datatype Entry = Entry(exp: int, key: seq<Byte>)

  datatype Checked = Expired | Bad | Good(entry: Entry)

  /** `chkfaitok` on what the file holds. */
  function Check(file: string, now: nat): (c: Checked)
    ensures c.Good? ==> now < c.entry.exp
  {
    var line := FirstLine(file);
    var i := Index(line, ' ');
    if i == |line| then Bad
    else
      var exp := Atoi(line[..i]);
      if now >= exp then Expired
      else
        var pt := line[i + 1..];
        match Decode(pt[..Index(pt, '\n')])
        case Some(key) => Good(Entry(exp, key))
        case None => Bad
  }

  lemma {:induction false} LineParts(exp: nat, key: seq<Byte>)
    ensures var line := Line(exp, key);
      && FirstLine(line) == line && Index(line, ' ') == |Print(exp)| < |line|
      && line[..|Print(exp)|] == Print(exp)
      && line[|Print(exp)| + 1..] == Encode(key) + "\n"
      && Index(Encode(key) + "\n", '\n') == |Encode(key)|
  {
    EncodeDecodes(key);
    var t := Print(exp) + " " + Encode(key);
    assert '\n' !in t;
    LineEndOfToken(t);
    IndexAfter(Print(exp), ' ', Encode(key) + "\n");
    assert Line(exp, key) == Print(exp) + [' '] + (Encode(key) + "\n");
    IndexAfter(Encode(key), '\n', "");
    assert Encode(key) + ['\n'] + "" == Encode(key) + "\n";
  }

  /** A line that was written is read back, as long as it has not expired. */
  lemma {:induction false} CheckUndoesLine(exp: nat, key: seq<Byte>, now: nat)
    ensures Check(Line(exp, key), now) == if now >= exp then Expired else Good(Entry(exp, key))
  {
    LineParts(exp, key);
    AtoiUndoesPrint(exp);
    DecodeUndoesEncode(key);
    var pt := Encode(key) + "\n";
    assert pt[..|Encode(key)|] == Encode(key);
  }

  // ----- The file over many uses

  /** How the renewal of the key goes: the new line is written and sent, the file does not
      open, it opens, which empties it, and then no key can be drawn or encoded, or the new
      line is written and the key cannot be sent. */
  datatype Renewal = Renewed | NotOpened | Emptied | Unsent

  /** A use of the token: the time, the key drawn for the next use, and the renewal. */
  datatype Use = Use(now: nat, next: seq<Byte>, renewal: Renewal)

  class TokenFile {
    /** What the file holds; `None` once it is removed. */
    var file: Option<string>

    constructor ()
      ensures file == None
    {
      file := None;
    }

    /** `cmd_faitok` and `savefai`; the result is what the client is told. */
    method Issue(now: nat, asked: int, mq: int, key: seq<Byte>) returns (exp: nat, told: string)
      modifies this
      ensures exp == Expiry(now, asked, mq) && told == Encode(key)
      ensures file == Some(Line(exp, key)) && file == Some(Print(exp) + " " + told + "\n")
    {
      exp := Expiry(now, asked, mq);
      told := Encode(key);
      file := Some(Print(exp) + " " + told + "\n");
    }

    /** `chkfaitok` and `renewfaikey`: the key the session starts with, and the one the
        client is told for the next time. No session starts if the renewal fails. */
    method Enter(u: Use) returns (key: Option<seq<Byte>>, told: string)
      modifies this
      ensures Entered(file, key) == EnterFile(old(file), u)
      ensures told == if key.Some? then Encode(u.next) else ""
    {
      key, told := None, "";
      if file.None? { return; }
      var c := Check(file.value, u.now);
      match c
      case Expired => file := None;
      case Bad =>
      case Good(e) =>
        if |e.key| < KEY_MIN { return; }
        if u.renewal.NotOpened? { return; }
        file := Some("");
        if u.renewal.Emptied? { return; }
        file := Some(Print(e.exp) + " " + Encode(u.next) + "\n");
        if u.renewal.Unsent? { return; }
        key, told := Some(e.key), Encode(u.next);
    }
  }

  datatype Entered = Entered(file: Option<string>, key: Option<seq<Byte>>)

  function EnterFile(file: Option<string>, u: Use): Entered {
    if file.None? then Entered(None, None)
    else
      match Check(file.value, u.now)
      case Expired => Entered(None, None)
      case Bad => Entered(file, None)
      case Good(e) =>
        if |e.key| < KEY_MIN || u.renewal.NotOpened? then Entered(file, None)
        else if u.renewal.Emptied? then Entered(Some(""), None)
        else Entered(Some(Line(e.exp, u.next)), if u.renewal.Unsent? then None else Some(e.key))
  }

  /** The file after any number of uses, and the keys the sessions started with. */
  function FileAfter(file: Option<string>, uses: seq<Use>): Option<string> {
    if uses == [] then file else EnterFile(FileAfter(file, uses[..|uses| - 1]), uses[|uses| - 1]).file
  }

  function KeyAt(file: Option<string>, uses: seq<Use>, i: nat): Option<seq<Byte>>
    requires i < |uses|
  {
    EnterFile(FileAfter(file, uses[..i]), uses[i]).key
  }

  // ----- The token that the client holds

  /** No use so far came at or after the expiry or lost the line. */
  predicate Lives(exp: int, uses: seq<Use>) {
    forall i :: 0 <= i < |uses| ==> uses[i].now < exp && !uses[i].renewal.Emptied?
  }

  predicate KeysOk(first: seq<Byte>, uses: seq<Use>) {
    KeyOk(first) && forall i :: 0 <= i < |uses| ==> KeyOk(uses[i].next)
  }

  /** The key last given to the client: a use whose renewal fails gives none. */
  function LastGiven(first: seq<Byte>, uses: seq<Use>): seq<Byte> {
    if uses == [] then first
    else
      var k := |uses| - 1;
      if uses[k].renewal.Renewed? then uses[k].next else LastGiven(first, uses[..k])
  }

  /** The key last written to the file. */
  function LastWritten(first: seq<Byte>, uses: seq<Use>): seq<Byte> {
    if uses == [] then first
    else
      var k := |uses| - 1;
      if uses[k].renewal.Renewed? || uses[k].renewal.Unsent? then uses[k].next else LastWritten(first, uses[..k])
  }

  /** No key was written and not sent since the last one that was sent. */
  predicate Told(uses: seq<Use>) {
    uses == [] ||
    var k := |uses| - 1;
    uses[k].renewal.Renewed? || (!uses[k].renewal.Unsent? && Told(uses[..k]))
  }

  lemma {:induction false} ToldIsWritten(first: seq<Byte>, uses: seq<Use>)
    ensures Told(uses) ==> LastWritten(first, uses) == LastGiven(first, uses)
    ensures !Told(uses) ==>
      exists i :: 0 <= i < |uses| && uses[i].renewal.Unsent? && LastWritten(first, uses) == uses[i].next
  {
    if uses != [] && !uses[|uses| - 1].renewal.Renewed? && !uses[|uses| - 1].renewal.Unsent? {
      var front := uses[..|uses| - 1];
      ToldIsWritten(first, front);
      if !Told(front) {
        var i :| 0 <= i < |front| && front[i].renewal.Unsent? && LastWritten(first, front) == front[i].next;
        assert uses[i] == front[i];
      }
    }
  }

  /** A file that starts no session any more: removed, or emptied. */
  predicate Spent(file: Option<string>) {
    file == None || file == Some("")
  }

  lemma {:induction false} SpentForGood(file: Option<string>, u: Use)
    requires Spent(file)
    ensures EnterFile(file, u) == Entered(file, None)
  {
  }

  lemma {:induction false} EnterWritten(exp: nat, key: seq<Byte>, u: Use)
    requires KeyOk(key)
    ensures EnterFile(Some(Line(exp, key)), u) ==
      if u.now >= exp then Entered(None, None)
      else
        match u.renewal
        case Renewed => Entered(Some(Line(exp, u.next)), Some(key))
        case NotOpened => Entered(Some(Line(exp, key)), None)
        case Emptied => Entered(Some(""), None)
        case Unsent => Entered(Some(Line(exp, u.next)), None)
  {
    CheckUndoesLine(exp, key, u.now);
  }

  lemma {:induction false} LivesSnoc(exp: int, uses: seq<Use>, i: nat)
    requires i < |uses|
    ensures Lives(exp, uses[..i + 1]) <==> Lives(exp, uses[..i]) && uses[i].now < exp && !uses[i].renewal.Emptied?
  {
    assert uses[..i + 1] == uses[..i] + [uses[i]];
  }

  lemma {:induction false} LastWrittenOk(first: seq<Byte>, uses: seq<Use>)
    requires KeysOk(first, uses)
    ensures KeyOk(LastWritten(first, uses))
  {
    if uses != [] { LastWrittenOk(first, uses[..|uses| - 1]); }
  }

  /** As long as every use is in time and none loses the line, the file holds the key last
      written and the expiry first issued; after one that does not it is spent for good. */
  lemma {:induction false} FileHoldsLastKey(exp: nat, first: seq<Byte>, uses: seq<Use>)
    requires KeysOk(first, uses)
    ensures Lives(exp, uses) ==> FileAfter(Some(Line(exp, first)), uses) == Some(Line(exp, LastWritten(first, uses)))
    ensures !Lives(exp, uses) ==> Spent(FileAfter(Some(Line(exp, first)), uses))
    decreases |uses|
  {
    if uses != [] {
      var k := |uses| - 1;
      FileHoldsLastKey(exp, first, uses[..k]);
      LivesSnoc(exp, uses, k);
      assert uses[..k + 1] == uses;
      if Lives(exp, uses[..k]) {
        LastWrittenOk(first, uses[..k]);
        EnterWritten(exp, LastWritten(first, uses[..k]), uses[k]);
      } else {
        SpentForGood(FileAfter(Some(Line(exp, first)), uses[..k]), uses[k]);
      }
    }
  }

  lemma {:induction false} KeyAtUse(exp: nat, first: seq<Byte>, uses: seq<Use>, i: nat)
    requires i < |uses| && KeysOk(first, uses)
    ensures KeyAt(Some(Line(exp, first)), uses, i) ==
      if Lives(exp, uses[..i + 1]) && uses[i].renewal.Renewed? then Some(LastWritten(first, uses[..i])) else None
  {
    FileHoldsLastKey(exp, first, uses[..i]);
    LivesSnoc(exp, uses, i);
    if Lives(exp, uses[..i]) {
      LastWrittenOk(first, uses[..i]);
      EnterWritten(exp, LastWritten(first, uses[..i]), uses[i]);
    } else {
      SpentForGood(FileAfter(Some(Line(exp, first)), uses[..i]), uses[i]);
    }
  }

  /** A use starts a session if and only if it is in time and renews the key, and all
      before it were in time and lost no line. It then starts with the key last written to
      the file: exactly the one last given to the client, unless a later one was written
      and did not reach the client, and then with such a one. The expiry is the one issued,
      which a limit that is not negative keeps within `mq` minutes. */
  lemma {:induction false} UsesFindLastKey(now: nat, asked: int, mq: int, first: seq<Byte>, uses: seq<Use>, i: nat)
    requires -(WRAP / 2) <= asked < WRAP / 2 && -(WRAP / 2) <= mq < WRAP / 2
    requires 0 <= now + Granted(asked, mq) * SECONDS_PER_MINUTE < WRAP / 2 && i < |uses| && KeysOk(first, uses)
    ensures var exp, before := Expiry(now, asked, mq), uses[..i];
      && exp >= 0
      && KeyAt(Some(Line(exp, first)), uses, i) ==
           (if Lives(exp, uses[..i + 1]) && uses[i].renewal.Renewed? then Some(LastWritten(first, before)) else None)
      && Decode(Encode(LastWritten(first, before))) == Some(LastWritten(first, before))
      && (Told(before) ==> LastWritten(first, before) == LastGiven(first, before))
      && (!Told(before) ==>
            exists k :: 0 <= k < i && before[k].renewal.Unsent? && LastWritten(first, before) == before[k].next)
      && (0 <= mq ==> exp <= now + mq * SECONDS_PER_MINUTE)
  {
    ExpiryIs(now, asked, mq);
    ExpiryBounded(now, asked, mq);
    KeyAtUse(Expiry(now, asked, mq), first, uses, i);
    DecodeUndoesEncode(LastWritten(first, uses[..i]));
    ToldIsWritten(first, uses[..i]);
  }
}
