/**
 * The formatter's directives as they are written: flags, a width, a precision,
 * a size and a conversion, and what each makes it fetch.
 */
module I18nTable {
  import opened Options
  import opened I18nFormat

  // ----- The parts of a directive -------------------------------------------

  predicate IsDigit(c: char) { '0' <= c <= '9' }

  ghost predicate Digits(s: string) { forall i :: 0 <= i < |s| ==> IsDigit(s[i]) }

  ghost predicate IsFlags(s: string) {
    forall i :: 0 <= i < |s| ==> s[i] == '-' || s[i] == '+' || s[i] == ' ' || s[i] == '#' || s[i] == ':' || s[i] == '0'
  }

  ghost predicate IsWidth(s: string) { s == "" || s == "*" || (s[0] != '0' && Digits(s)) }

  ghost predicate IsPrecision(s: string) { s == "" || s == ".*" || (s[0] == '.' && Digits(s[1..])) }

  // The sizes, and the type each gives a number.
  function SizeOf(s: string): Option<Type> {
    if s == "" then Some(Plain)
    else if s == "h" then Some(Short)
    else if s == "hh" then Some(Char)
    else if s == "l" then Some(Long)
    else if s == "ll" || s == "q" || s == "L" then Some(Quad)
    else if s == "j" then Some(IntMax)
    else if s == "t" then Some(PtrDiff)
    else if s == "z" || s == "Z" then Some(Size)
    else if s == "T" then Some(Time)
    else None
  }

  // The conversions, and what each fetches.
  function ArgOf(c: char, t: Type): Option<seq<Arg>> {
    match c
    case 's' => Some([Text])
    case 'd' => Some([Number(t, true)])
    case 'i' => Some([Number(t, true)])
    case 'u' => Some([Number(t, false)])
    case 'o' => Some([Number(t, false)])
    case 'x' => Some([Number(t, false)])
    case 'X' => Some([Number(t, false)])
    case 'c' => Some([Letter])
    case 'p' => Some([Address])
    case 'n' => Some([Count(t)])
    case 'm' => Some([])
    case 'v' => Some([Nested])
    case 'C' => Some([ClientName])
    case 'H' => Some([ChannelName])
    case _ => None
  }

  // ----- Reading them -------------------------------------------------------

  function Walk(x: string, f: Field): Field {
    if x == "" then f else Walk(x[1..], Step(f, x[0]))
  }

  function Stars(x: string, f: Field): seq<Arg> {
    if x == "" then [] else (if Takes(f, x[0]) then [Star] else []) + Stars(x[1..], Step(f, x[0]))
  }

  ghost predicate InMiddle(x: string) { forall i :: 0 <= i < |x| ==> Middle(x[i]) }

  lemma {:induction false} FieldSplit(x: string, y: string, f: Field)
    requires InMiddle(x)
    ensures FieldArgs(x + y, f) ==
            var r := FieldArgs(y, Walk(x, f)); r.(args := Stars(x, f) + r.args)
    decreases |x|
  {
    if x == "" {
      assert x + y == y;
    } else {
      var t, g, one := x[1..], Step(f, x[0]), if Takes(f, x[0]) then [Star] else [];
      assert forall i :: 0 <= i < |t| ==> t[i] == x[i + 1];
      FieldSplit(t, y, g);
      assert (x + y)[1..] == t + y;
      OneRead(x + y, f);
      OneMore(one, Stars(t, g), FieldArgs(y, Walk(t, g)), FieldArgs(t + y, g), FieldArgs(x + y, f));
    }
  }

  lemma OneMore(one: seq<Arg>, stars: seq<Arg>, r: Fetch, q: Fetch, p: Fetch)
    requires q == r.(args := stars + r.args) && p == q.(args := one + q.args)
    ensures p == r.(args := one + stars + r.args)
  {
    assert one + (stars + r.args) == one + stars + r.args;
  }

  lemma OneRead(s: string, f: Field)
    requires s != "" && Middle(s[0])
    ensures FieldArgs(s, f) ==
            var r := FieldArgs(s[1..], Step(f, s[0]));
            r.(args := (if Takes(f, s[0]) then [Star] else []) + r.args)
  {
  }

  lemma WalkTwo(x: string, f: Field)
    requires |x| == 2
    ensures Walk(x, f) == Step(Step(f, x[0]), x[1])
    ensures Stars(x, f) == (if Takes(f, x[0]) then [Star] else []) + (if Takes(Step(f, x[0]), x[1]) then [Star] else [])
  {
    assert x[1..] == [x[1]] && [x[1]][1..] == "";
    WalkOne([x[1]], Step(f, x[0]));
  }

  lemma WalkOne(x: string, f: Field)
    requires |x| == 1
    ensures Walk(x, f) == Step(f, x[0]) && Stars(x, f) == if Takes(f, x[0]) then [Star] else []
  {
    assert x[1..] == "";
  }

  lemma {:induction false} FlagsRead(x: string)
    requires IsFlags(x)
    ensures InMiddle(x) && Walk(x, Fresh) == Fresh && Stars(x, Fresh) == []
    decreases |x|
  {
    if x != "" {
      assert forall i :: 0 <= i < |x[1..]| ==> x[1..][i] == x[i + 1];
      FlagsRead(x[1..]);
      assert Step(Fresh, x[0]) == Fresh;
    }
  }

  // Digits of a width or of a precision, from the first on.
  lemma {:induction false} DigitsRead(x: string, f: Field)
    requires Digits(x) && (f.stage == Width || f.stage == Prec)
    ensures InMiddle(x) && Walk(x, f).stage == f.stage && Walk(x, f).t == f.t && Stars(x, f) == []
    decreases |x|
  {
    if x != "" {
      assert IsDigit(x[0]);
      assert forall i :: 0 <= i < |x[1..]| ==> x[1..][i] == x[i + 1];
      DigitsRead(x[1..], Step(f, x[0]));
    }
  }

  lemma WidthRead(x: string)
    requires IsWidth(x)
    ensures InMiddle(x) && Walk(x, Fresh).t == Plain && Stars(x, Fresh) == (if x == "*" then [Star] else [])
    ensures var g := Walk(x, Fresh).stage; g == Flag || g == Width || g == Dot
  {
    if x == "*" {
      WalkOne(x, Fresh);
    } else if x != "" {
      assert IsDigit(x[0]);
      assert forall i :: 0 <= i < |x[1..]| ==> x[1..][i] == x[i + 1];
      DigitsRead(x[1..], Step(Fresh, x[0]));
    }
  }

  lemma PrecisionRead(x: string, f: Field)
    requires IsPrecision(x) && f.t == Plain && (f.stage == Flag || f.stage == Width || f.stage == Dot)
    ensures InMiddle(x) && Walk(x, f).t == Plain && Stars(x, f) == (if x == ".*" then [Star] else [])
  {
    if x == ".*" {
      WalkTwo(x, f);
    } else if x != "" {
      assert forall i :: 0 <= i < |x[1..]| ==> x[1..][i] == x[i + 1];
      DigitsRead(x[1..], Step(f, '.'));
    }
  }

  lemma SizeRead(x: string, f: Field)
    requires SizeOf(x).Some? && f.t == Plain
    ensures InMiddle(x) && Walk(x, f).t == SizeOf(x).value && Stars(x, f) == []
  {
    if |x| == 1 {
      WalkOne(x, f);
    } else if |x| == 2 {
      WalkTwo(x, f);
    }
  }

  // Between the percent sign and the conversion.
  lemma PartsRead(flags: string, width: string, prec: string, size: string, y: string) returns (f: Field)
    requires IsFlags(flags) && IsWidth(width) && IsPrecision(prec) && SizeOf(size).Some?
    ensures f.t == SizeOf(size).value
    ensures FieldArgs(flags + (width + (prec + (size + y))), Fresh) ==
            var r := FieldArgs(y, f);
            r.(args := (if width == "*" then [Star] else []) + ((if prec == ".*" then [Star] else []) + r.args))
  {
    FlagsRead(flags);
    FieldSplit(flags, width + (prec + (size + y)), Fresh);
    WidthRead(width);
    FieldSplit(width, prec + (size + y), Fresh);
    var g := Walk(width, Fresh);
    PrecisionRead(prec, g);
    FieldSplit(prec, size + y, g);
    var h := Walk(prec, g);
    SizeRead(size, h);
    FieldSplit(size, y, h);
    f := Walk(size, h);
    assert forall a: seq<Arg> :: [] + a == a;
  }

  // A whole directive: a star where the width or the precision is one, then
  // what its conversion fetches; and then the rest of the format.
  lemma DirectiveIs(flags: string, width: string, prec: string, size: string, c: char, rest: string)
    requires IsFlags(flags) && IsWidth(width) && IsPrecision(prec) && SizeOf(size).Some?
    requires ArgOf(c, SizeOf(size).value).Some?
    ensures Fetches("%" + (flags + (width + (prec + (size + ([c] + rest))))))
         == (if width == "*" then [Star] else []) + ((if prec == ".*" then [Star] else [])
            + ArgOf(c, SizeOf(size).value).value) + Fetches(rest)
  {
    var y := [c] + rest;
    var body := flags + (width + (prec + (size + y)));
    var f := PartsRead(flags, width, prec, size, y);
    assert y[1..] == rest;
    Converted(y, f);
    StartsOk(flags, width, prec, size, c, rest);
    BodyRead("%" + body, body);
  }

  lemma Converted(y: string, f: Field)
    requires y != "" && ArgOf(y[0], f.t).Some?
    ensures FieldArgs(y, f) == Fetch(ArgOf(y[0], f.t).value, y[1..], true)
  {
  }

  lemma BodyRead(s: string, body: string)
    requires body != "" && body[0] != '%' && s == "%" + body
    ensures Fetches(s) == FieldArgs(body, Fresh).args + Fetches(FieldArgs(body, Fresh).rest)
  {
    assert s[1..] == body;
  }

  lemma StartsOk(flags: string, width: string, prec: string, size: string, c: char, rest: string)
    requires IsFlags(flags) && IsWidth(width) && IsPrecision(prec) && SizeOf(size).Some?
    requires ArgOf(c, SizeOf(size).value).Some?
    ensures var body := flags + (width + (prec + (size + ([c] + rest)))); body != "" && body[0] != '%'
  {
  }

  // Text, and two percent signs, fetch nothing.
  lemma TextIs(c: char, rest: string)
    ensures c != '%' ==> Fetches([c] + rest) == Fetches(rest)
    ensures Fetches("%%" + rest) == Fetches(rest) && Fetches("") == []
  {
    assert ([c] + rest)[1..] == rest;
    assert ("%%" + rest)[2..] == rest;
  }
}
