/**
 * A module's migrations: the names its files must have, and the sets of files
 * that make a history - every version from one up, each with its way back.
 */
module Migration {
  import opened Options

  const NAME_LEN := 64
  const MAX := 256
  const MAX_DIGITS := 9
  const VERSIONS := 1_000_000_000

  // ----- File names ---------------------------------------------------------

  datatype Head = Head(version: nat, name: string, up: bool)

  predicate Digit(c: char) {
    '0' <= c <= '9'
  }

  predicate NameChar(c: char) {
    'a' <= c <= 'z' || 'A' <= c <= 'Z' || Digit(c) || c == '_'
  }

  function DigitRun(s: string): (n: nat)
    ensures n <= |s|
  {
    if s != "" && Digit(s[0]) then 1 + DigitRun(s[1..]) else 0
  }

  function NameRun(s: string): (n: nat)
    ensures n <= |s|
  {
    if s != "" && NameChar(s[0]) then 1 + NameRun(s[1..]) else 0
  }

  function NumberOf(s: string): nat
    requires forall i :: 0 <= i < |s| ==> Digit(s[i])
  {
    if s == "" then 0 else assert Digit(s[|s| - 1]); NumberOf(s[..|s| - 1]) * 10 + (s[|s| - 1] as int - '0' as int)
  }

  lemma {:induction false} DigitRunIs(s: string)
    ensures forall i :: 0 <= i < DigitRun(s) ==> Digit(s[i])
  {
    if s != "" && Digit(s[0]) {
      DigitRunIs(s[1..]);
      assert forall i :: 0 < i < DigitRun(s) ==> s[i] == s[1..][i - 1];
    }
  }

  function Suffix(up: bool): string {
    if up then ".up.sql" else ".down.sql"
  }

  // v<N>_<name>.up.sql or v<N>_<name>.down.sql, and nothing else.
  function Parse(s: string): Option<Head> {
    if s == "" || s[0] != 'v' then
      None
    else
      var n := DigitRun(s[1..]);
      if n == 0 || n > MAX_DIGITS || s[1] == '0' || 1 + n == |s| || s[1 + n] != '_' then
        None
      else
        DigitRunIs(s[1..]);
        ParseRest(NumberOf(s[1..][..n]), s[1 + n + 1..])
  }

  function ParseRest(version: nat, s: string): Option<Head> {
    var n := NameRun(s);
    if n < 1 || n > NAME_LEN then None
    else if s[n..] == ".up.sql" then Some(Head(version, s[..n], true))
    else if s[n..] == ".down.sql" then Some(Head(version, s[..n], false))
    else None
  }

  function Decimal(n: nat): string {
    if n == 0 then "" else Decimal(n / 10) + [(n % 10 + '0' as int) as char]
  }

  ghost predicate GoodName(name: string) {
    1 <= |name| <= NAME_LEN && forall i :: 0 <= i < |name| ==> NameChar(name[i])
  }

  function FileName(h: Head): string {
    "v" + (Decimal(h.version) + ("_" + (h.name + Suffix(h.up))))
  }

  lemma {:induction false} DecimalIs(n: nat)
    ensures forall i :: 0 <= i < |Decimal(n)| ==> Digit(Decimal(n)[i])
    ensures NumberOf(Decimal(n)) == n
    ensures n > 0 ==> Decimal(n) != "" && Decimal(n)[0] != '0'
  {
    if n > 0 {
      DecimalIs(n / 10);
      var d := Decimal(n);
      assert d[..|d| - 1] == Decimal(n / 10);
    }
  }

  lemma {:induction false} NumberIs(s: string)
    requires forall i :: 0 <= i < |s| ==> Digit(s[i])
    requires s != "" ==> s[0] != '0'
    ensures Decimal(NumberOf(s)) == s
    ensures s != "" ==> NumberOf(s) > 0
  {
    if s != "" {
      var n := |s| - 1;
      NumberIs(s[..n]);
      assert s == s[..n] + [s[n]];
    }
  }

  function Tens(n: nat): (r: nat)
    ensures r > 0
  {
    if n == 0 then 1 else 10 * Tens(n - 1)
  }

  // As many digits as it takes: nine are enough exactly below the limit.
  lemma {:induction false} DecimalLength(v: nat, n: nat)
    ensures |Decimal(v)| <= n <==> v < Tens(n)
  {
    if n == 0 {
    } else if v > 0 {
      DecimalLength(v / 10, n - 1);
      assert v / 10 < Tens(n - 1) <==> v < 10 * Tens(n - 1);
    }
  }

  lemma NineDigits(v: nat)
    ensures |Decimal(v)| <= MAX_DIGITS <==> v < VERSIONS
  {
    DecimalLength(v, MAX_DIGITS);
    assert Tens(3) == 1000;
    assert Tens(6) == 1000 * Tens(3);
    assert Tens(9) == 1000 * Tens(6);
  }

  lemma {:induction false} DigitRunEnds(ds: string, more: string)
    requires forall i :: 0 <= i < |ds| ==> Digit(ds[i])
    requires more != "" && !Digit(more[0])
    ensures DigitRun(ds + more) == |ds|
  {
    if ds == "" {
      assert ds + more == more;
    } else {
      DigitRunEnds(ds[1..], more);
      assert (ds + more)[1..] == ds[1..] + more;
    }
  }

  lemma {:induction false} NameRunEnds(name: string, more: string)
    requires forall i :: 0 <= i < |name| ==> NameChar(name[i])
    requires more != "" && !NameChar(more[0])
    ensures NameRun(name + more) == |name|
  {
    if name == "" {
      assert name + more == more;
    } else {
      NameRunEnds(name[1..], more);
      assert (name + more)[1..] == name[1..] + more;
    }
  }

  lemma {:induction false} NameRunIs(s: string)
    ensures forall i :: 0 <= i < NameRun(s) ==> NameChar(s[i])
  {
    if s != "" && NameChar(s[0]) {
      NameRunIs(s[1..]);
      assert forall i :: 0 < i < NameRun(s) ==> s[i] == s[1..][i - 1];
    }
  }

  lemma RestWritten(version: nat, name: string, up: bool)
    requires GoodName(name)
    ensures ParseRest(version, name + Suffix(up)) == Some(Head(version, name, up))
  {
    NameRunEnds(name, Suffix(up));
    var s := name + Suffix(up);
    assert s[..|name|] == name && s[|name|..] == Suffix(up);
    assert Suffix(true)[1] != Suffix(false)[1];
  }

  lemma RestRead(version: nat, s: string)
    requires ParseRest(version, s).Some?
    ensures var h := ParseRest(version, s).value; GoodName(h.name) && s == h.name + Suffix(h.up) && h.version == version
  {
    NameRunIs(s);
    assert s == s[..NameRun(s)] + s[NameRun(s)..];
  }

  // The pieces of a file name put together.
  lemma Pieces(ds: string, more: string)
    requires ds != ""
    ensures var s := "v" + (ds + ("_" + more));
            && s[0] == 'v' && s[1..] == ds + ("_" + more) && s[1] == ds[0]
            && s[1..][..|ds|] == ds && s[1 + |ds|] == '_' && s[1 + |ds| + 1..] == more && |s| > 1 + |ds|
  {
    var s, t := "v" + (ds + ("_" + more)), ds + ("_" + more);
    assert s[1..] == t;
    assert s[1 + |ds|] == t[|ds|] && s[1 + |ds| + 1..] == t[|ds| + 1..];
  }

  lemma ParseIs(s: string, n: nat)
    requires s != "" && s[0] == 'v' && n == DigitRun(s[1..]) && 0 < n <= MAX_DIGITS && s[1] != '0'
    requires 1 + n < |s| && s[1 + n] == '_'
    ensures forall i :: 0 <= i < n ==> Digit(s[1..][..n][i])
    ensures Parse(s) == ParseRest(NumberOf(s[1..][..n]), s[1 + n + 1..])
  {
    DigitRunIs(s[1..]);
  }

  lemma NameWritten(h: Head)
    requires GoodName(h.name) && 1 <= h.version < VERSIONS
    ensures Parse(FileName(h)) == Some(h)
  {
    var ds, more := Decimal(h.version), h.name + Suffix(h.up);
    DecimalIs(h.version);
    NineDigits(h.version);
    DigitRunEnds(ds, "_" + more);
    Pieces(ds, more);
    ParseIs(FileName(h), |ds|);
    RestWritten(h.version, h.name, h.up);
  }

  lemma DigitsRead(s: string, n: nat)
    requires n == DigitRun(s) && n > 0 && s[0] != '0'
    ensures forall i :: 0 <= i < n ==> Digit(s[..n][i])
    ensures Decimal(NumberOf(s[..n])) == s[..n] && NumberOf(s[..n]) > 0
    ensures n <= MAX_DIGITS ==> NumberOf(s[..n]) < VERSIONS
  {
    DigitRunIs(s);
    NumberIs(s[..n]);
    NineDigits(NumberOf(s[..n]));
  }

  lemma NameRead(s: string)
    requires Parse(s).Some?
    ensures var h := Parse(s).value; GoodName(h.name) && 1 <= h.version < VERSIONS && s == FileName(h)
  {
    var n, t := DigitRun(s[1..]), s[1..];
    DigitsRead(t, n);
    ParseIs(s, n);
    var ds, more := t[..n], s[1 + n + 1..];
    RestRead(NumberOf(ds), more);
    Reassembled(s, n);
  }

  lemma Reassembled(s: string, n: nat)
    requires 1 + n < |s| && s[0] == 'v' && s[1 + n] == '_'
    ensures s == "v" + (s[1..][..n] + ("_" + s[1 + n + 1..]))
  {
  }

  // A name is a migration's exactly when it is spelled this one way, with a
  // version of at most nine digits that does not start with a zero.
  lemma NameIff(s: string, h: Head)
    ensures Parse(s) == Some(h) <==> GoodName(h.name) && 1 <= h.version < VERSIONS && s == FileName(h)
  {
    if Parse(s) == Some(h) {
      NameRead(s);
    }
    if GoodName(h.name) && 1 <= h.version < VERSIONS && s == FileName(h) {
      NameWritten(h);
    }
  }

  // The reader the server has: the version ...
  method ParseFile(s: string) returns (r: Option<Head>)
    ensures r == Parse(s)
  {
    if s == "" || s[0] != 'v' {
      return None;
    }
    if |s| == 1 || s[1] < '1' || s[1] > '9' {
      return None;
    }
    var p := ScanDigits(s);
    if p - 1 > MAX_DIGITS {
      return None;
    }
    if p == |s| || s[p] != '_' {
      return None;
    }
    ParseIs(s, p - 1);
    var version := Number(s[1..][..p - 1]);
    r := ParseName(version, s[p + 1..]);
  }

  method ScanDigits(s: string) returns (p: nat)
    requires s != ""
    ensures p == 1 + DigitRun(s[1..])
  {
    p := 1;
    while p < |s| && Digit(s[p])
      invariant 1 <= p <= |s|
      invariant 1 + DigitRun(s[1..]) == p + DigitRun(s[p..])
    {
      assert s[p..][1..] == s[p + 1..];
      p := p + 1;
    }
  }

  // ... and the name and direction after it.
  method ParseName(version: nat, s: string) returns (r: Option<Head>)
    ensures r == ParseRest(version, s)
  {
    var p := 0;
    assert s[0..] == s;
    while p < |s| && NameChar(s[p])
      invariant p <= |s|
      invariant NameRun(s) == p + NameRun(s[p..])
    {
      assert s[p..][1..] == s[p + 1..];
      p := p + 1;
    }
    if p < 1 || p > NAME_LEN {
      return None;
    }
    if s[p..] == ".up.sql" {
      return Some(Head(version, s[..p], true));
    }
    if s[p..] == ".down.sql" {
      return Some(Head(version, s[..p], false));
    }
    return None;
  }

  method Number(s: string) returns (n: nat)
    requires forall i :: 0 <= i < |s| ==> Digit(s[i])
    ensures n == NumberOf(s)
  {
    n := 0;
    for i := 0 to |s|
      invariant n == NumberOf(s[..i])
    {
      assert s[..i + 1][..i] == s[..i];
      n := n * 10 + (s[i] as int - '0' as int);
    }
    assert s[..|s|] == s;
  }
}
