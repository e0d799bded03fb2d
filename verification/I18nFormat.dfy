/**
 * Checking a translation against its original: a translation that is accepted
 * makes the formatter fetch the same arguments, in the same order, as the
 * original does.
 */
module I18nFormat {
  import opened Options

  const WIDTH_MAX := 999

  predicate Middle(c: char) {
    || c == '-' || c == '+' || c == ' ' || c == '#' || c == ':' || '0' <= c <= '9' || c == '.' || c == '*'
    || c == 'h' || c == 'l' || c == 'q' || c == 'L' || c == 'j' || c == 't' || c == 'z' || c == 'Z' || c == 'T'
  }

  predicate Ending(c: char) {
    || c == 's' || c == 'd' || c == 'i' || c == 'X' || c == 'o' || c == 'x' || c == 'u'
    || c == 'c' || c == 'p' || c == 'n' || c == 'm' || c == 'v' || c == 'C' || c == 'H'
  }

  // ----- What the formatter fetches -----------------------------------------

  datatype Type = Plain | Short | Char | Long | Quad | IntMax | PtrDiff | Size | Time

  // One argument taken off the list.
  datatype Arg =
    | Star                              // a width or a precision
    | Number(t: Type, signed: bool)
    | Letter
    | Text
    | Address
    | Count(t: Type)                    // where to store how much was written
    | Nested
    | ClientName
    | ChannelName

  datatype Stage = Flag | Width | Dot | Prec | Opt

  // How far into a directive the formatter is.
  datatype Field = Field(stage: Stage, width: int, prec: int, t: Type)

  const Fresh := Field(Flag, 0, -1, Plain)

  function Sized(t: Type, c: char): Type {
    if c == 'h' then (if t == Plain then Short else if t == Short then Char else t)
    else if c == 'l' then (if t == Plain then Long else if t == Long then Quad else t)
    else if t != Plain then t
    else if c == 'q' || c == 'L' then Quad
    else if c == 'j' then IntMax
    else if c == 't' then PtrDiff
    else if c == 'z' || c == 'Z' then Size
    else Time
  }

  function Digit(f: Field, d: int): Field {
    var stage := if f.stage == Flag then Width else f.stage;
    if stage == Width then
      f.(stage := Width, width := if f.width < WIDTH_MAX then f.width * 10 + d else f.width)
    else if stage == Prec then
      f.(prec := if f.prec < WIDTH_MAX then f.prec * 10 + d else f.prec)
    else
      f
  }

  // A star takes an argument only where a width or a precision may come and
  // none was given.
  predicate Takes(f: Field, c: char) {
    c == '*' && (((f.stage == Flag || f.stage == Width) && f.width <= 0) || (f.stage == Prec && f.prec <= 0))
  }

  // One character between the percent sign and the conversion. The width and
  // the precision an argument supplies are not looked at again.
  function Step(f: Field, c: char): Field {
    if c == '-' then
      if f.stage == Prec then f.(prec := -1, stage := Opt) else f
    else if c == '+' || c == ' ' || c == '#' || c == ':' then
      f
    else if c == '0' && f.stage == Flag then
      f
    else if '0' <= c <= '9' then
      Digit(f, c as int - '0' as int)
    else if c == '.' then
      if f.stage == Flag || f.stage == Width || f.stage == Dot then f.(stage := Prec, prec := 0) else f
    else if c == '*' then
      if (f.stage == Flag || f.stage == Width) && f.width <= 0 then f.(stage := Dot)
      else if f.stage == Prec && f.prec <= 0 then f.(stage := Opt)
      else f
    else
      f.(stage := Opt, t := Sized(f.t, c))
  }

  function Conversion(f: Field, c: char): seq<Arg> {
    if c == 's' then [Text]
    else if c == 'd' || c == 'i' then [Number(f.t, true)]
    else if c == 'X' || c == 'o' || c == 'x' || c == 'u' then [Number(f.t, false)]
    else if c == 'c' then [Letter]
    else if c == 'p' then [Address]
    else if c == 'n' then [Count(f.t)]
    else if c == 'v' then [Nested]
    else if c == 'C' then [ClientName]
    else if c == 'H' then [ChannelName]
    else []
  }

  datatype Fetch = Fetch(args: seq<Arg>, rest: string, whole: bool)

  // A directive from just after its percent sign. `whole` is false if it ends
  // in something that is not a conversion, or does not end.
  function FieldArgs(s: string, f: Field): (r: Fetch)
    ensures |r.rest| <= |s|
    decreases |s|
  {
    if s == "" then
      Fetch([], "", false)
    else if Middle(s[0]) then
      var r := FieldArgs(s[1..], Step(f, s[0]));
      r.(args := (if Takes(f, s[0]) then [Star] else []) + r.args)
    else if Ending(s[0]) then
      Fetch(Conversion(f, s[0]), s[1..], true)
    else
      Fetch([], s[1..], false)
  }

  // Every argument the formatter fetches for a format, first to last.
  function Fetches(s: string): seq<Arg>
    decreases |s|
  {
    if s == "" then []
    else if s[0] != '%' then Fetches(s[1..])
    else if |s| > 1 && s[1] == '%' then Fetches(s[2..])
    else
      var r := FieldArgs(s[1..], Fresh);
      r.args + Fetches(r.rest)
  }

  // And whether it understands every directive in it.
  predicate Understood(s: string)
    decreases |s|
  {
    if s == "" then true
    else if s[0] != '%' then Understood(s[1..])
    else if |s| > 1 && s[1] == '%' then Understood(s[2..])
    else
      var r := FieldArgs(s[1..], Fresh);
      r.whole && Understood(r.rest)
  }

  // ----- What the check compares --------------------------------------------

  function MiddleRun(s: string): (n: nat)
    ensures n <= |s|
  {
    if s != "" && Middle(s[0]) then 1 + MiddleRun(s[1..]) else 0
  }

  datatype Next = None_ | Bad | Got(directive: string, rest: string)

  // The next directive, its percent sign left off.
  function NextOf(s: string): (r: Next)
    ensures r.Got? ==> |r.rest| < |s|
    decreases |s|
  {
    if s == "" then None_
    else if s[0] != '%' then NextOf(s[1..])
    else if |s| > 1 && s[1] == '%' then NextOf(s[2..])
    else
      var n := 1 + MiddleRun(s[1..]);
      if n == |s| || !Ending(s[n]) then Bad else Got(s[1..n + 1], s[n + 1..])
  }

  // All of them, if every one is a directive.
  function Directives(s: string): Option<seq<string>>
    decreases |s|
  {
    match NextOf(s)
    case None_ => Some([])
    case Bad => None
    case Got(d, rest) =>
      match Directives(rest)
      case None => None
      case Some(ds) => Some([d] + ds)
  }

  ghost predicate NoBreak(s: string) {
    '\n' !in s && '\r' !in s
  }

  ghost predicate Accepted(original: string, translation: string) {
    && NoBreak(translation)
    && Directives(original).Some?
    && Directives(translation) == Directives(original)
  }

  method FindNext(s: string) returns (r: Next)
    ensures r == NextOf(s)
  {
    var p := 0;
    assert s[0..] == s;
    while true
      invariant 0 <= p <= |s| && NextOf(s) == NextOf(s[p..])
      decreases |s| - p
    {
      while p < |s| && s[p] != '%'
        invariant 0 <= p <= |s| && NextOf(s) == NextOf(s[p..])
      {
        assert s[p..][1..] == s[p + 1..];
        p := p + 1;
      }
      if p == |s| {
        return None_;
      }
      if p + 1 < |s| && s[p + 1] == '%' {
        assert s[p..][2..] == s[p + 2..];
        p := p + 2;
      } else {
        break;
      }
    }
    r := ReadDirective(s, p);
  }

  method ReadDirective(s: string, start: nat) returns (r: Next)
    requires start < |s| && s[start] == '%' && (start + 1 < |s| ==> s[start + 1] != '%')
    ensures r == NextOf(s[start..])
  {
    ghost var t := s[start..];
    var p := start + 1;
    assert t[1..] == s[p..];
    while p < |s| && Middle(s[p])
      invariant start < p <= |s|
      invariant start + 1 + MiddleRun(t[1..]) == p + MiddleRun(s[p..])
    {
      assert s[p..][1..] == s[p + 1..];
      p := p + 1;
    }
    if p == |s| || !Ending(s[p]) {
      assert p < |s| ==> t[p - start] == s[p];
      return Bad;
    }
    DirectiveAt(s, start, p);
    r := Got(s[start + 1..p + 1], s[p + 1..]);
  }

  lemma DirectiveAt(s: string, start: nat, p: nat)
    requires start < p < |s| && s[start] == '%' && s[start + 1] != '%'
    requires p == start + 1 + MiddleRun(s[start..][1..]) && Ending(s[p])
    ensures NextOf(s[start..]) == Got(s[start + 1..p + 1], s[p + 1..])
  {
    var t, n := s[start..], p - start;
    assert t[n] == s[p];
    assert t[1..n + 1] == s[start + 1..p + 1];
    assert t[n + 1..] == s[p + 1..];
  }

  method HasBreak(s: string) returns (r: bool)
    ensures r <==> !NoBreak(s)
  {
    r := false;
    for i := 0 to |s|
      invariant r <==> !NoBreak(s[..i])
    {
      assert s[..i + 1] == s[..i] + [s[i]];
      if s[i] == '\n' || s[i] == '\r' {
        r := true;
      }
    }
    assert s[..|s|] == s;
  }

  // The two are walked side by side, a directive of each at a time.
  method CheckFormat(original: string, translation: string) returns (ok: bool)
    ensures ok <==> Accepted(original, translation)
  {
    var broken := HasBreak(translation);
    if broken {
      return false;
    }
    var a, b := original, translation;
    while true
      invariant |a| <= |original|
      invariant Accepted(original, translation) <==> Directives(a).Some? && Directives(b) == Directives(a)
      decreases |a| + |b|
    {
      var ra := FindNext(a);
      var rb := FindNext(b);
      if ra.Bad? || rb.Bad? {
        return false;
      }
      if ra.None_? && rb.None_? {
        return true;
      }
      if ra.None_? || rb.None_? {
        OneMissing(a, b);
        return false;
      }
      SideBySide(a, b);
      if ra.directive != rb.directive {
        return false;
      }
      a, b := ra.rest, rb.rest;
    }
  }

  lemma OneMissing(a: string, b: string)
    requires NextOf(a).None_? != NextOf(b).None_?
    ensures !(Directives(a).Some? && Directives(b) == Directives(a))
  {
  }

  lemma SideBySide(a: string, b: string)
    requires NextOf(a).Got? && NextOf(b).Got?
    ensures Directives(a).Some? && Directives(b) == Directives(a)
       <==> && NextOf(a).directive == NextOf(b).directive
            && Directives(NextOf(a).rest).Some?
            && Directives(NextOf(b).rest) == Directives(NextOf(a).rest)
  {
    var x, y := NextOf(a), NextOf(b);
    var p, q := Directives(x.rest), Directives(y.rest);
    if p.Some? && q.Some? {
      assert ([x.directive] + p.value)[0] == x.directive && ([x.directive] + p.value)[1..] == p.value;
      assert ([y.directive] + q.value)[0] == y.directive && ([y.directive] + q.value)[1..] == q.value;
    }
  }

  // ----- The two agree ------------------------------------------------------

  // The arguments of a directive, whatever follows it.
  function ArgsOf(d: string): seq<Arg> {
    FieldArgs(d, Fresh).args
  }

  lemma {:induction false} FieldReads(s: string, f: Field, n: nat)
    requires n == MiddleRun(s) && n < |s| && Ending(s[n])
    ensures FieldArgs(s, f) == Fetch(FieldArgs(s[..n + 1], f).args, s[n + 1..], true)
    decreases |s|
  {
    var d := s[..n + 1];
    assert d[0] == s[0];
    EndingIsNotMiddle(s[n]);
    if n > 0 {
      FieldReads(s[1..], Step(f, s[0]), n - 1);
      assert d[1..] == s[1..][..n];
      assert s[1..][n..] == s[n + 1..];
    }
  }

  lemma EndingIsNotMiddle(c: char)
    requires Ending(c)
    ensures !Middle(c)
  {
  }

  lemma {:induction false} FieldBreaks(s: string, f: Field, n: nat)
    requires n == MiddleRun(s) && (n == |s| || !Ending(s[n]))
    ensures !FieldArgs(s, f).whole
    decreases |s|
  {
    if n > 0 {
      FieldBreaks(s[1..], Step(f, s[0]), n - 1);
    }
  }

  function AllArgs(ds: seq<string>): seq<Arg> {
    if ds == [] then [] else ArgsOf(ds[0]) + AllArgs(ds[1..])
  }

  // What the formatter fetches is settled by the directives the check sees.
  lemma {:induction false} FetchesAre(s: string)
    requires Directives(s).Some?
    ensures Fetches(s) == AllArgs(Directives(s).value) && Understood(s)
    decreases |s|
  {
    if s == "" {
    } else if s[0] != '%' {
      FetchesAre(s[1..]);
    } else if |s| > 1 && s[1] == '%' {
      FetchesAre(s[2..]);
    } else {
      var n := MiddleRun(s[1..]);
      var t := s[1..];
      FieldReads(t, Fresh, n);
      assert t[..n + 1] == s[1..n + 2] && t[n + 1..] == s[n + 2..];
      var rest := s[n + 2..];
      FetchesAre(rest);
      var d := s[1..n + 2];
      assert NextOf(s) == Got(d, rest);
      assert ([d] + Directives(rest).value)[1..] == Directives(rest).value;
    }
  }

  // An accepted translation is a format the formatter understands, fetches the
  // same kinds of arguments as the original in the same order - those for
  // widths and precisions among them - and has no line break of its own.
  lemma AcceptedIsSafe(original: string, translation: string)
    requires Accepted(original, translation)
    ensures Fetches(translation) == Fetches(original)
    ensures Understood(translation) && NoBreak(translation)
  {
    FetchesAre(original);
    FetchesAre(translation);
  }

  // Where the check finds a percent sign that begins no directive, so does the
  // formatter: nothing it would have understood is called malformed.
  lemma {:induction false} RejectedIsNotUnderstood(s: string)
    requires Directives(s).None?
    ensures !Understood(s)
    decreases |s|
  {
    if s == "" {
    } else if s[0] != '%' {
      RejectedIsNotUnderstood(s[1..]);
    } else if |s| > 1 && s[1] == '%' {
      RejectedIsNotUnderstood(s[2..]);
    } else {
      var t, n := s[1..], MiddleRun(s[1..]);
      if n == |t| || !Ending(t[n]) {
        FieldBreaks(t, Fresh, n);
      } else {
        FieldReads(t, Fresh, n);
        assert NextOf(s) == Got(s[1..n + 2], s[n + 2..]);
        assert t[n + 1..] == s[n + 2..];
        RejectedIsNotUnderstood(s[n + 2..]);
      }
    }
  }

  // A translation may say what it likes between the directives.
  lemma {:induction false} PlainTextIsFree(s: string, text: string)
    requires '%' !in text
    ensures Directives(text + s) == Directives(s) && Fetches(text + s) == Fetches(s)
  {
    if text == "" {
      assert text + s == s;
    } else {
      PlainTextIsFree(s, text[1..]);
      assert (text + s)[1..] == text[1..] + s;
    }
  }
}
