/**
 * Placeholders in configuration strings: the little language of ${NAME}
 * references, what it means, and the properties the expander promises.
 * A C string is a sequence of characters; its end is the end of the sequence.
 */
module Env {
  import opened Options

  const NAME_MAX := 128
  const EXPAND_MAX := 8192
  const MAX_DEPTH := 8

  datatype Code = Syntax | BadName | Unset | TooDeep | TooLong

  datatype Result = Ok(text: string) | Err(code: Code)

  type Vars = map<string, string>

  // What follows the name: nothing, '-', '+' or '?'.
  datatype Mod = Plain | Default | Alternate | Required

  // A string, read as a list of pieces. A malformed reference ends it.
  datatype Doc =
    | End
    | Bad(code: Code)
    | Run(text: string, rest: Doc)
    | Dollar(rest: Doc)
    | Ref(name: string, colon: bool, mod: Mod, word: Doc, rest: Doc)

  // ----- Syntax -------------------------------------------------------------

  predicate Letter(c: char) {
    'a' <= c <= 'z' || 'A' <= c <= 'Z' || c == '_'
  }

  predicate NameChar(c: char) {
    Letter(c) || '0' <= c <= '9'
  }

  function NameLength(s: string): (n: nat)
    ensures n <= |s|
  {
    if s != [] && NameChar(s[0]) then 1 + NameLength(s[1..]) else 0
  }

  function RunLength(s: string): (n: nat)
    ensures n <= |s|
  {
    if s != [] && s[0] != '$' then 1 + RunLength(s[1..]) else 0
  }

  // How far the brace is that closes `open` of them.
  function Closing(s: string, open: nat): (r: Option<nat>)
    requires open > 0
    ensures r.Some? ==> r.value < |s| && s[r.value] == '}'
  {
    if s == [] then
      None
    else if s[0] == '}' && open == 1 then
      Some(0)
    else
      match Closing(s[1..], if s[0] == '{' then open + 1 else if s[0] == '}' then open - 1 else open)
      case None => None
      case Some(n) => Some(n + 1)
  }

  function ModOf(s: string, at: nat): Mod
    requires at <= |s|
  {
    if at == |s| then Plain
    else if s[at] == '-' then Default
    else if s[at] == '+' then Alternate
    else if s[at] == '?' then Required
    else Plain
  }

  datatype Head = Wrong(code: Code) | Head(name: string, colon: bool, mod: Mod, word: Doc, used: nat)

  // A reference, from just after its "${": its name ...
  function ReadHead(s: string): (h: Head)
    ensures h.Head? ==> h.used <= |s|
    decreases |s|, 1
  {
    if s == "" then
      Wrong(Syntax)
    else if !Letter(s[0]) then
      Wrong(BadName)
    else
      var n := NameLength(s);
      if n > NAME_MAX then
        Wrong(BadName)
      else
        var colon := n < |s| && s[n] == ':';
        ReadWord(s, n, colon, if colon then n + 1 else n)
  }

  // ... and its modifier and word.
  function ReadWord(s: string, n: nat, colon: bool, at: nat): (h: Head)
    requires n <= at <= |s|
    ensures h.Head? ==> h.used <= |s|
    decreases |s|, 0
  {
    var mod := ModOf(s, at);
    if mod == Plain && (colon || at == |s| || s[at] != '}') then
      Wrong(Syntax)
    else
      var start := if mod == Plain then at else at + 1;
      match Closing(s[start..], 1)
      case None => Wrong(Syntax)
      case Some(k) => Head(s[..n], colon, mod, Parse(s[start..start + k]), start + k + 1)
  }

  // What a string begins with, and how much of it that is.
  datatype Lexed =
    | Stop
    | Broken(code: Code)
    | Words(text: string, used: nat)
    | Cash(used: nat)
    | Place(name: string, colon: bool, mod: Mod, word: Doc, used: nat)

  function Lex(s: string): (l: Lexed)
    ensures l.Stop? <==> s == ""
    ensures !l.Stop? && !l.Broken? ==> 0 < l.used <= |s|
    decreases |s|, 2
  {
    if s == "" then
      Stop
    else if s[0] != '$' then
      Words(s[..RunLength(s)], RunLength(s))
    else if |s| > 1 && s[1] == '$' then
      Cash(2)
    else if |s| > 1 && s[1] == '{' then
      match ReadHead(s[2..])
      case Wrong(code) => Broken(code)
      case Head(name, colon, mod, word, used) => Place(name, colon, mod, word, 2 + used)
    else
      Cash(1)
  }

  function Parse(s: string): Doc
    decreases |s|, 3
  {
    match Lex(s)
    case Stop => End
    case Broken(code) => Bad(code)
    case Words(text, used) => Run(text, Parse(s[used..]))
    case Cash(used) => Dollar(Parse(s[used..]))
    case Place(name, colon, mod, word, used) => Ref(name, colon, mod, word, Parse(s[used..]))
  }

  // ----- Meaning ------------------------------------------------------------

  predicate IsSet(vars: Vars, name: string, colon: bool) {
    name in vars && (colon ==> vars[name] != "")
  }

  function Before(text: string, r: Result): Result {
    if r.Ok? then Ok(text + r.text) else r
  }

  // What a document stands for, with no limit on its length.
  function Meaning(vars: Vars, d: Doc, lenient: bool, depth: nat): Result
    decreases d, 0
  {
    match d
    case End => Ok("")
    case Bad(code) => Err(code)
    case Run(text, rest) => Before(text, Meaning(vars, rest, lenient, depth))
    case Dollar(rest) => Before("$", Meaning(vars, rest, lenient, depth))
    case Ref(name, colon, mod, word, rest) =>
      var r := RefMeaning(vars, name, colon, mod, word, lenient, depth);
      if r.Ok? then Before(r.text, Meaning(vars, rest, lenient, depth)) else r
  }

  // What one reference stands for.
  function RefMeaning(vars: Vars, name: string, colon: bool, mod: Mod, word: Doc, lenient: bool, depth: nat): Result
    decreases word, 1
  {
    var there := IsSet(vars, name, colon);
    if there && mod != Alternate then Ok(vars[name])
    else if mod == Plain then (if lenient then Ok("") else Err(Unset))
    else if mod == Alternate && !there then Ok("")
    else if mod == Required && word == End then Err(Unset)
    else if depth + 1 > MAX_DEPTH then Err(TooDeep)
    else
      var w := Meaning(vars, word, lenient || mod == Required, depth + 1);
      if mod == Required && w.Ok? then Err(Unset) else w
  }

  function Add(out: string, text: string): Result {
    if |out| + |text| > EXPAND_MAX then Err(TooLong) else Ok(out + text)
  }

  // The same, written after what is already in a buffer of limited size.
  function Fill(vars: Vars, d: Doc, lenient: bool, depth: nat, out: string): Result
    decreases d, 0
  {
    match d
    case End => Ok(out)
    case Bad(code) => Err(code)
    case Run(text, rest) =>
      var r := Add(out, text);
      if r.Ok? then Fill(vars, rest, lenient, depth, r.text) else r
    case Dollar(rest) =>
      var r := Add(out, "$");
      if r.Ok? then Fill(vars, rest, lenient, depth, r.text) else r
    case Ref(name, colon, mod, word, rest) =>
      var r := FillRef(vars, name, colon, mod, word, lenient, depth, out);
      if r.Ok? then Fill(vars, rest, lenient, depth, r.text) else r
  }

  function FillRef(vars: Vars, name: string, colon: bool, mod: Mod, word: Doc, lenient: bool, depth: nat,
      out: string): Result
    decreases word, 1
  {
    var there := IsSet(vars, name, colon);
    if there && mod != Alternate then Add(out, vars[name])
    else if mod == Plain then (if lenient then Ok(out) else Err(Unset))
    else if mod == Alternate && !there then Ok(out)
    else if mod == Required && word == End then Err(Unset)
    else if depth + 1 > MAX_DEPTH then Err(TooDeep)
    else if mod == Required then
      var w := Fill(vars, word, true, depth + 1, "");
      if w.Ok? then Err(Unset) else w
    else
      Fill(vars, word, lenient, depth + 1, out)
  }

  function Expand(vars: Vars, s: string, lenient: bool): Result {
    Fill(vars, Parse(s), lenient, 0, "")
  }

  // ----- The limit is on the result, and only on that -----------------------

  // A buffer filled from a meaning.
  ghost predicate FilledFrom(r: Result, m: Result, out: string) {
    match m
    case Ok(text) => r == Add(out, text)
    case Err(code) => r == Err(code) || r == Err(TooLong)
  }

  lemma AddTwice(out: string, x: string, y: string)
    ensures Add(out, x).Ok? ==> Add(Add(out, x).text, y) == Add(out, x + y)
    ensures Add(out, x).Err? ==> Add(out, x + y) == Err(TooLong)
  {
    assert out + x + y == out + (x + y);
  }

  lemma FilledThen(out: string, x: string, m: Result, r: Result)
    requires Add(out, x).Ok? ==> FilledFrom(r, m, Add(out, x).text)
    requires Add(out, x).Err? ==> r == Add(out, x)
    ensures FilledFrom(r, Before(x, m), out)
  {
    if m.Ok? {
      AddTwice(out, x, m.text);
    }
  }

  lemma {:induction false} FillIsMeaning(vars: Vars, d: Doc, lenient: bool, depth: nat, out: string)
    requires |out| <= EXPAND_MAX
    ensures FilledFrom(Fill(vars, d, lenient, depth, out), Meaning(vars, d, lenient, depth), out)
    decreases d, 0
  {
    match d
    case End =>
      assert out + "" == out;
    case Bad(code) =>
    case Run(text, rest) =>
      if Add(out, text).Ok? {
        FillIsMeaning(vars, rest, lenient, depth, out + text);
      }
      FilledThen(out, text, Meaning(vars, rest, lenient, depth), Fill(vars, d, lenient, depth, out));
    case Dollar(rest) =>
      if Add(out, "$").Ok? {
        FillIsMeaning(vars, rest, lenient, depth, out + "$");
      }
      FilledThen(out, "$", Meaning(vars, rest, lenient, depth), Fill(vars, d, lenient, depth, out));
    case Ref(name, colon, mod, word, rest) =>
      FillRefIsMeaning(vars, name, colon, mod, word, lenient, depth, out);
      var r := FillRef(vars, name, colon, mod, word, lenient, depth, out);
      var m := RefMeaning(vars, name, colon, mod, word, lenient, depth);
      if r.Ok? {
        FillIsMeaning(vars, rest, lenient, depth, r.text);
      }
      if m.Ok? {
        FilledThen(out, m.text, Meaning(vars, rest, lenient, depth), Fill(vars, d, lenient, depth, out));
      }
  }

  lemma {:induction false} FillRefIsMeaning(vars: Vars, name: string, colon: bool, mod: Mod, word: Doc,
                                            lenient: bool, depth: nat, out: string)
    requires |out| <= EXPAND_MAX
    ensures FilledFrom(FillRef(vars, name, colon, mod, word, lenient, depth, out),
                       RefMeaning(vars, name, colon, mod, word, lenient, depth), out)
    decreases word, 1
  {
    assert out + "" == out;
    FillIsMeaning(vars, word, lenient, depth + 1, out);
    FillIsMeaning(vars, word, true, depth + 1, "");
  }

  // A word that closes is read up to its closing brace.
  lemma WordIs(s: string, n: nat, colon: bool, at: nat, mod: Mod, start: nat, k: nat, name: string, word: string)
    requires n <= at <= |s| && mod == ModOf(s, at)
    requires mod == Plain ==> !colon && at < |s| && s[at] == '}'
    requires start == (if mod == Plain then at else at + 1) && Closing(s[start..], 1) == Some(k)
    requires name == s[..n] && word == s[start..start + k]
    ensures ReadWord(s, n, colon, at) == Head(name, colon, mod, Parse(word), start + k + 1)
  {
  }

  // A string expands exactly when it has a meaning that fits, and then to that
  // meaning; a meaning that does not fit is reported as too long.
  lemma ExpandIff(vars: Vars, s: string, lenient: bool, t: string)
    ensures Expand(vars, s, lenient) == Ok(t) <==> Meaning(vars, Parse(s), lenient, 0) == Ok(t) && |t| <= EXPAND_MAX
    ensures Meaning(vars, Parse(s), lenient, 0) == Ok(t) && |t| > EXPAND_MAX
        ==> Expand(vars, s, lenient) == Err(TooLong)
  {
    FillIsMeaning(vars, Parse(s), lenient, 0, "");
    assert forall u: string :: "" + u == u;
  }
}
