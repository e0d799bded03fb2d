/**
 * Laws of placeholder expansion: values are never read again, doubling every
 * dollar protects any text, nesting is bounded, and the reader is the inverse
 * of writing a document down.
 */
module EnvLaws {
  import opened Options
  import opened Env

  // ----- Values are copied, never read --------------------------------------

  datatype Piece = Copy(text: string) | Value(name: string)

  datatype Plan = Fails(code: Code) | Makes(pieces: seq<Piece>)

  // All that a reference may look at: which names are set, and to something.
  function Shape(vars: Vars): map<string, bool> {
    map n | n in vars :: vars[n] != ""
  }

  function Then(p: Piece, rest: Plan): Plan {
    if rest.Makes? then Makes([p] + rest.pieces) else rest
  }

  // What to write, settled without sight of any value.
  function PlanOf(shape: map<string, bool>, d: Doc, lenient: bool, depth: nat): Plan
    decreases d, 0
  {
    match d
    case End => Makes([])
    case Bad(code) => Fails(code)
    case Run(text, rest) => Then(Copy(text), PlanOf(shape, rest, lenient, depth))
    case Dollar(rest) => Then(Copy("$"), PlanOf(shape, rest, lenient, depth))
    case Ref(name, colon, mod, word, rest) =>
      var p := PlanRef(shape, name, colon, mod, word, lenient, depth);
      var q := PlanOf(shape, rest, lenient, depth);
      if p.Fails? then p else if q.Fails? then q else Makes(p.pieces + q.pieces)
  }

  function PlanRef(shape: map<string, bool>, name: string, colon: bool, mod: Mod, word: Doc, lenient: bool,
      depth: nat): Plan
    decreases word, 1
  {
    var there := name in shape && (colon ==> shape[name]);
    if there && mod != Alternate then Makes([Value(name)])
    else if mod == Plain then (if lenient then Makes([]) else Fails(Unset))
    else if mod == Alternate && !there then Makes([])
    else if mod == Required && word == End then Fails(Unset)
    else if depth + 1 > MAX_DEPTH then Fails(TooDeep)
    else
      var w := PlanOf(shape, word, lenient || mod == Required, depth + 1);
      if mod == Required && w.Makes? then Fails(Unset) else w
  }

  function PieceText(vars: Vars, p: Piece): string {
    match p
    case Copy(text) => text
    case Value(name) => if name in vars then vars[name] else ""
  }

  function Plug(vars: Vars, ps: seq<Piece>): string {
    if ps == [] then "" else PieceText(vars, ps[0]) + Plug(vars, ps[1..])
  }

  function Carried(vars: Vars, p: Plan): Result {
    match p
    case Fails(code) => Err(code)
    case Makes(ps) => Ok(Plug(vars, ps))
  }

  lemma PlugCons(vars: Vars, p: Piece, ps: seq<Piece>)
    ensures Plug(vars, [p] + ps) == PieceText(vars, p) + Plug(vars, ps)
  {
    assert ([p] + ps)[1..] == ps;
  }

  lemma {:induction false} PlugBoth(vars: Vars, ps: seq<Piece>, qs: seq<Piece>)
    ensures Plug(vars, ps + qs) == Plug(vars, ps) + Plug(vars, qs)
  {
    if ps == [] {
      assert ps + qs == qs;
    } else {
      PlugBoth(vars, ps[1..], qs);
      PlugCons(vars, ps[0], ps[1..] + qs);
      assert [ps[0]] + (ps[1..] + qs) == ps + qs;
      Associates(PieceText(vars, ps[0]), Plug(vars, ps[1..]), Plug(vars, qs));
    }
  }

  lemma Associates(x: string, y: string, z: string)
    ensures x + (y + z) == x + y + z
  {
  }

  lemma PlugOne(vars: Vars, name: string)
    requires name in vars
    ensures Plug(vars, [Value(name)]) == vars[name]
  {
    assert [Value(name)][1..] == [];
    assert vars[name] + "" == vars[name];
  }

  // The text made is the plan with the values plugged in as they stand: what a
  // value contains decides nothing, so it can neither name another variable
  // nor open, close or fail a reference.
  lemma {:induction false} ValuesAreNotRead(vars: Vars, d: Doc, lenient: bool, depth: nat)
    ensures Meaning(vars, d, lenient, depth) == Carried(vars, PlanOf(Shape(vars), d, lenient, depth))
    decreases d, 0
  {
    match d
    case End =>
    case Bad(code) =>
    case Run(text, rest) =>
      ValuesAreNotRead(vars, rest, lenient, depth);
    case Dollar(rest) =>
      ValuesAreNotRead(vars, rest, lenient, depth);
    case Ref(name, colon, mod, word, rest) =>
      RefIsNotRead(vars, name, colon, mod, word, lenient, depth);
      ValuesAreNotRead(vars, rest, lenient, depth);
      var p := PlanRef(Shape(vars), name, colon, mod, word, lenient, depth);
      var q := PlanOf(Shape(vars), rest, lenient, depth);
      if p.Makes? && q.Makes? {
        PlugBoth(vars, p.pieces, q.pieces);
      }
  }

  // Which branch a reference takes is settled by the shape.
  lemma SameBranch(vars: Vars, name: string, colon: bool)
    ensures IsSet(vars, name, colon) == (name in Shape(vars) && (colon ==> Shape(vars)[name]))
  {
  }

  lemma PlanOfValue(vars: Vars, name: string, colon: bool, mod: Mod, word: Doc, lenient: bool, depth: nat)
    requires IsSet(vars, name, colon) && mod != Alternate
    ensures RefMeaning(vars, name, colon, mod, word, lenient, depth)
         == Carried(vars, PlanRef(Shape(vars), name, colon, mod, word, lenient, depth))
  {
    SameBranch(vars, name, colon);
    PlugOne(vars, name);
  }

  lemma PlanOfWord(vars: Vars, name: string, colon: bool, mod: Mod, word: Doc, lenient: bool, depth: nat, m: Result,
      p: Plan)
    requires !IsSet(vars, name, colon) || mod == Alternate
    requires m == Meaning(vars, word, lenient || mod == Required, depth + 1)
    requires p == PlanOf(Shape(vars), word, lenient || mod == Required, depth + 1)
    requires m == Carried(vars, p)
    ensures RefMeaning(vars, name, colon, mod, word, lenient, depth)
         == Carried(vars, PlanRef(Shape(vars), name, colon, mod, word, lenient, depth))
  {
    SameBranch(vars, name, colon);
  }

  lemma {:induction false} RefIsNotRead(vars: Vars, name: string, colon: bool, mod: Mod, word: Doc, lenient: bool,
      depth: nat)
    ensures RefMeaning(vars, name, colon, mod, word, lenient, depth)
         == Carried(vars, PlanRef(Shape(vars), name, colon, mod, word, lenient, depth))
    decreases word, 1
  {
    if IsSet(vars, name, colon) && mod != Alternate {
      PlanOfValue(vars, name, colon, mod, word, lenient, depth);
    } else {
      var l := lenient || mod == Required;
      ValuesAreNotRead(vars, word, l, depth + 1);
      PlanOfWord(vars, name, colon, mod, word, lenient, depth,
                 Meaning(vars, word, l, depth + 1), PlanOf(Shape(vars), word, l, depth + 1));
    }
  }

  // Change the values as you like, keeping which are set and which are empty:
  // what could be expanded still can, exactly if what it stands for now is not
  // too long, and what could not for any other reason still cannot.
  lemma SameShapeSameFate(u: Vars, v: Vars, s: string, lenient: bool)
    requires Shape(u) == Shape(v)
    ensures Expand(u, s, lenient).Ok? ==>
              var m := Meaning(v, Parse(s), lenient, 0);
              m.Ok? && (Expand(v, s, lenient).Ok? <==> |m.text| <= EXPAND_MAX)
    ensures Expand(u, s, lenient).Err? && Expand(u, s, lenient).code != TooLong ==> Expand(v, s, lenient).Err?
  {
    ValuesAreNotRead(u, Parse(s), lenient, 0);
    ValuesAreNotRead(v, Parse(s), lenient, 0);
    var a, b := Meaning(u, Parse(s), lenient, 0), Meaning(v, Parse(s), lenient, 0);
    if a.Ok? { ExpandIff(u, s, lenient, a.text); }
    if b.Ok? { ExpandIff(v, s, lenient, b.text); }
    if Expand(u, s, lenient).Ok? { ExpandIff(u, s, lenient, Expand(u, s, lenient).text); }
    if Expand(v, s, lenient).Ok? { ExpandIff(v, s, lenient, Expand(v, s, lenient).text); }
  }

  // ----- Doubling every dollar ----------------------------------------------

  function Doubled(s: string): string {
    if s == "" then ""
    else if s[0] == '$' then "$$" + Doubled(s[1..])
    else [s[0]] + Doubled(s[1..])
  }

  lemma {:induction false} RunLengthIs(s: string)
    ensures var n := RunLength(s); '$' !in s[..n] && (n < |s| ==> s[n] == '$')
  {
    if s != "" && s[0] != '$' {
      RunLengthIs(s[1..]);
      assert s[..RunLength(s)] == [s[0]] + s[1..][..RunLength(s) - 1];
    }
  }

  lemma {:induction false} DoubledRun(s: string)
    ensures Doubled(s) == s[..RunLength(s)] + Doubled(s[RunLength(s)..])
  {
    if s == "" || s[0] == '$' {
      assert s[..0] + Doubled(s[0..]) == Doubled(s);
    } else {
      var t, n := s[1..], RunLength(s[1..]);
      DoubledRun(t);
      assert t[n..] == s[n + 1..];
      assert [s[0]] + (t[..n] + Doubled(t[n..])) == s[..n + 1] + Doubled(t[n..]);
    }
  }

  lemma RunMeans(vars: Vars, text: string, more: string, lenient: bool, depth: nat, m: string)
    requires text != "" && '$' !in text && (more == "" || more[0] == '$')
    requires Meaning(vars, Parse(more), lenient, depth) == Ok(m)
    ensures Meaning(vars, Parse(text + more), lenient, depth) == Ok(text + m)
  {
    ReadRun(text, more);
  }

  lemma DollarMeans(vars: Vars, more: string, lenient: bool, depth: nat, m: string)
    requires Meaning(vars, Parse(more), lenient, depth) == Ok(m)
    ensures Meaning(vars, Parse("$$" + more), lenient, depth) == Ok("$" + m)
  {
    ReadDollar(more);
  }

  lemma EmptyMeans(vars: Vars, lenient: bool, depth: nat)
    ensures Meaning(vars, Parse(""), lenient, depth) == Ok("")
  {
  }

  lemma DoubledStarts(s: string)
    ensures s == "" ==> Doubled(s) == ""
    ensures s != "" && s[0] == '$' ==> Doubled(s) == "$$" + Doubled(s[1..]) && s == "$" + s[1..] && Doubled(s)[0] == '$'
  {
  }

  lemma RunSplits(s: string) returns (text: string, rest: string)
    requires s != "" && s[0] != '$'
    ensures text != "" && '$' !in text && s == text + rest && Doubled(s) == text + Doubled(rest)
    ensures Doubled(rest) == "" || Doubled(rest)[0] == '$'
  {
    var n := RunLength(s);
    DoubledRun(s);
    RunLengthIs(s);
    DoubledStarts(s[n..]);
    text, rest := s[..n], s[n..];
  }

  lemma {:induction false} DoubledMeans(vars: Vars, s: string, lenient: bool, depth: nat)
    ensures Meaning(vars, Parse(Doubled(s)), lenient, depth) == Ok(s)
    decreases |s|
  {
    DoubledStarts(s);
    if s == "" {
      EmptyMeans(vars, lenient, depth);
    } else if s[0] == '$' {
      DoubledMeans(vars, s[1..], lenient, depth);
      DollarMeans(vars, Doubled(s[1..]), lenient, depth, s[1..]);
    } else {
      var text, rest := RunSplits(s);
      DoubledMeans(vars, rest, lenient, depth);
      RunMeans(vars, text, Doubled(rest), lenient, depth, rest);
    }
  }

  // ----- Reading one piece --------------------------------------------------

  lemma {:induction false} RunEnds(text: string, more: string)
    requires '$' !in text && (more == "" || more[0] == '$')
    ensures RunLength(text + more) == |text|
  {
    if text == "" {
      assert text + more == more;
    } else {
      RunEnds(text[1..], more);
      assert (text + more)[1..] == text[1..] + more;
    }
  }

  lemma LexRun(text: string, more: string)
    requires text != "" && '$' !in text && (more == "" || more[0] == '$')
    ensures Lex(text + more) == Words(text, |text|)
  {
    RunEnds(text, more);
    assert (text + more)[0] == text[0] && (text + more)[..|text|] == text;
  }

  lemma ReadRun(text: string, more: string)
    requires text != "" && '$' !in text && (more == "" || more[0] == '$')
    ensures Parse(text + more) == Run(text, Parse(more))
  {
    LexRun(text, more);
    assert (text + more)[|text|..] == more;
  }

  lemma ReadDollar(more: string)
    ensures Parse("$$" + more) == Dollar(Parse(more))
  {
    var s := "$$" + more;
    assert Lex(s) == Cash(2);
    assert s[2..] == more;
  }

  lemma LexRef(s: string, body: string, h: Head)
    requires |s| > 1 && s[0] == '$' && s[1] == '{' && s[2..] == body && h.Head? && ReadHead(body) == h
    ensures Lex(s) == Place(h.name, h.colon, h.mod, h.word, 2 + h.used)
  {
  }

  lemma ReadRef(s: string, body: string, h: Head, more: string)
    requires |s| > 1 && s[0] == '$' && s[1] == '{' && s[2..] == body
    requires h.Head? && ReadHead(body) == h && s[2 + h.used..] == more
    ensures Parse(s) == Ref(h.name, h.colon, h.mod, h.word, Parse(more))
  {
    LexRef(s, body, h);
  }

  // Any text is protected by doubling its dollars, whatever the environment:
  // it comes back as it was exactly when it is not too long to come back.
  lemma DoubledComesBack(vars: Vars, s: string, lenient: bool)
    ensures Expand(vars, Doubled(s), lenient) == if |s| <= EXPAND_MAX then Ok(s) else Err(TooLong)
  {
    DoubledMeans(vars, s, lenient, 0);
    ExpandIff(vars, Doubled(s), lenient, s);
  }

  // ----- Nesting ------------------------------------------------------------

  function Max(a: nat, b: nat): nat {
    if a < b then b else a
  }

  // How deeply words are nested in words.
  function Nesting(d: Doc): nat {
    match d
    case End => 0
    case Bad(_) => 0
    case Run(_, rest) => Nesting(rest)
    case Dollar(rest) => Nesting(rest)
    case Ref(_, _, _, word, rest) => Max(1 + Nesting(word), Nesting(rest))
  }

  predicate BadOnlyFromReading(d: Doc) {
    match d
    case End => true
    case Bad(code) => code == Syntax || code == BadName
    case Run(_, rest) => BadOnlyFromReading(rest)
    case Dollar(rest) => BadOnlyFromReading(rest)
    case Ref(_, _, _, word, rest) => BadOnlyFromReading(word) && BadOnlyFromReading(rest)
  }

  ghost predicate HeadReadOk(h: Head) {
    match h
    case Wrong(code) => code == Syntax || code == BadName
    case Head(_, _, _, word, _) => BadOnlyFromReading(word)
  }

  lemma {:induction false} WordErrors(s: string, n: nat, colon: bool, at: nat)
    requires n <= at <= |s|
    ensures HeadReadOk(ReadWord(s, n, colon, at))
    decreases |s|, 0
  {
    var start := if ModOf(s, at) == Plain then at else at + 1;
    if start <= |s| {
      var close := Closing(s[start..], 1);
      if close.Some? {
        ReadingErrors(s[start..start + close.value]);
      }
    }
  }

  lemma {:induction false} HeadErrors(s: string)
    ensures HeadReadOk(ReadHead(s))
    decreases |s|, 1
  {
    if s != "" && Letter(s[0]) && NameLength(s) <= NAME_MAX {
      var n := NameLength(s);
      var colon := n < |s| && s[n] == ':';
      WordErrors(s, n, colon, if colon then n + 1 else n);
    }
  }

  lemma {:induction false} ReadingErrors(s: string)
    ensures BadOnlyFromReading(Parse(s))
    decreases |s|, 2
  {
    var l := Lex(s);
    if l.Words? || l.Cash? || l.Place? {
      ReadingErrors(s[l.used..]);
    }
    if l.Broken? || l.Place? {
      HeadErrors(s[2..]);
    }
  }

  lemma {:induction false} ShallowNeverTooDeep(vars: Vars, d: Doc, lenient: bool, depth: nat)
    requires depth + Nesting(d) <= MAX_DEPTH && BadOnlyFromReading(d)
    ensures Meaning(vars, d, lenient, depth) != Err(TooDeep)
    decreases d
  {
    match d
    case End =>
    case Bad(_) =>
    case Run(_, rest) => ShallowNeverTooDeep(vars, rest, lenient, depth);
    case Dollar(rest) => ShallowNeverTooDeep(vars, rest, lenient, depth);
    case Ref(_, _, mod, word, rest) =>
      ShallowNeverTooDeep(vars, word, lenient || mod == Required, depth + 1);
      ShallowNeverTooDeep(vars, rest, lenient, depth);
  }

  // References nested eight deep are never refused for their depth ...
  lemma EightIsAllowed(vars: Vars, s: string, lenient: bool)
    requires Nesting(Parse(s)) <= MAX_DEPTH
    ensures Expand(vars, s, lenient) != Err(TooDeep)
  {
    ReadingErrors(s);
    ShallowNeverTooDeep(vars, Parse(s), lenient, 0);
    FillIsMeaning(vars, Parse(s), lenient, 0, "");
  }

  // "${A-" n times over, and as many braces to close them.
  function Chain(n: nat): string {
    if n == 0 then "" else "${A-" + Chain(n - 1) + "}"
  }

  // ... and a chain of defaults with nothing set shows eight is the limit.
  lemma ChainLimit(n: nat, lenient: bool)
    ensures Expand(map[], Chain(n), lenient) == if n <= MAX_DEPTH then Ok("") else Err(TooDeep)
  {
    ChainReads(n);
    ChainMeans(n, lenient, 0);
    FillIsMeaning(map[], Parse(Chain(n)), lenient, 0, "");
    ChainFits(n, lenient, 0, "");
  }

  function ChainDoc(n: nat): Doc {
    if n == 0 then End else Ref("A", false, Default, ChainDoc(n - 1), End)
  }

  lemma {:induction false} ChainReads(n: nat)
    ensures Parse(Chain(n)) == ChainDoc(n)
  {
    ChainCanonical(n);
    ReadBack(ChainDoc(n));
  }

  lemma {:induction false} ChainMeans(n: nat, lenient: bool, depth: nat)
    requires depth <= MAX_DEPTH
    ensures Meaning(map[], ChainDoc(n), lenient, depth) == if depth + n <= MAX_DEPTH then Ok("") else Err(TooDeep)
  {
    if n > 0 && depth + 1 <= MAX_DEPTH {
      ChainMeans(n - 1, lenient, depth + 1);
    }
  }

  lemma {:induction false} ChainFits(n: nat, lenient: bool, depth: nat, out: string)
    requires depth <= MAX_DEPTH
    ensures Fill(map[], ChainDoc(n), lenient, depth, out) != Err(TooLong)
  {
    if n > 0 && depth + 1 <= MAX_DEPTH {
      ChainFits(n - 1, lenient, depth + 1, out);
    }
  }

  // ----- Reading is the inverse of writing ----------------------------------

  function Sign(mod: Mod): string {
    match mod
    case Plain => ""
    case Default => "-"
    case Alternate => "+"
    case Required => "?"
  }

  function Render(d: Doc): string {
    match d
    case End => ""
    case Bad(_) => ""
    case Run(text, rest) => text + Render(rest)
    case Dollar(rest) => "$$" + Render(rest)
    case Ref(name, colon, mod, word, rest) =>
      "${" + Written(name, colon, mod, Render(word), Render(rest))
  }

  // Braces opened and not closed.
  function Height(s: string): int {
    if s == "" then 0
    else Height(s[..|s| - 1]) + (if s[|s| - 1] == '{' then 1 else if s[|s| - 1] == '}' then -1 else 0)
  }

  ghost predicate Balanced(s: string) {
    Height(s) == 0 && forall j :: 0 <= j <= |s| ==> Height(s[..j]) >= 0
  }

  ghost predicate GoodName(s: string) {
    s != "" && Letter(s[0]) && |s| <= NAME_MAX && forall i :: 0 <= i < |s| ==> NameChar(s[i])
  }

  // Documents that can be written down: plain text in one piece and without
  // dollars, names that are names, words whose braces match.
  ghost predicate Canonical(d: Doc) {
    match d
    case End => true
    case Bad(_) => false
    case Run(text, rest) => text != "" && '$' !in text && !rest.Run? && Canonical(rest)
    case Dollar(rest) => Canonical(rest)
    case Ref(name, colon, mod, word, rest) =>
      && GoodName(name) && (mod == Plain ==> !colon && word == End)
      && Canonical(word) && Balanced(Render(word)) && Canonical(rest)
  }

  lemma {:induction false} HeightBoth(s: string, t: string)
    ensures Height(s + t) == Height(s) + Height(t)
  {
    if t == "" {
      assert s + t == s;
    } else {
      var u := s + t;
      assert u[..|u| - 1] == s + t[..|t| - 1];
      HeightBoth(s, t[..|t| - 1]);
    }
  }

  lemma HeightOne(c: char)
    ensures Height([c]) == (if c == '{' then 1 else if c == '}' then -1 else 0)
  {
    var s := [c];
    assert s[..|s| - 1] == "" && s[|s| - 1] == c;
  }

  lemma HeightStep(s: string, j: nat)
    requires 0 < j <= |s|
    ensures Height(s[..j]) == Height([s[0]]) + Height(s[1..][..j - 1])
  {
    HeightBoth([s[0]], s[1..][..j - 1]);
    assert s[..j] == [s[0]] + s[1..][..j - 1];
  }

  // Something is open all the way to k.
  ghost predicate StaysOpen(s: string, open: int, k: nat)
    requires k <= |s|
  {
    forall j :: 0 <= j <= k ==> open + Height(s[..j]) > 0
  }

  lemma StaysOpenStep(s: string, open: int, k: nat)
    requires 0 < k <= |s|
    ensures StaysOpen(s, open, k) <==> open > 0 && StaysOpen(s[1..], open + Height([s[0]]), k - 1)
  {
    assert s[..0] == "";
    forall j | 0 < j <= k ensures Height(s[..j]) == Height([s[0]]) + Height(s[1..][..j - 1]) {
      HeightStep(s, j);
    }
    if open > 0 && StaysOpen(s[1..], open + Height([s[0]]), k - 1) {
      forall j | 0 <= j <= k ensures open + Height(s[..j]) > 0 {
        if j > 0 {
          assert open + Height([s[0]]) + Height(s[1..][..j - 1]) > 0;
        }
      }
    }
    if StaysOpen(s, open, k) {
      assert open + Height(s[..0]) > 0;
      forall i | 0 <= i <= k - 1 ensures open + Height([s[0]]) + Height(s[1..][..i]) > 0 {
        assert open + Height(s[..i + 1]) > 0;
      }
    }
  }

  // The closing brace is the first place where as many have been closed as
  // were open.
  lemma {:induction false} ClosingIff(s: string, open: nat, k: nat)
    requires open > 0 && k < |s|
    ensures Closing(s, open) == Some(k) <==> open + Height(s[..k + 1]) == 0 && StaysOpen(s, open, k)
    decreases |s|
  {
    var step := Height([s[0]]);
    HeightOne(s[0]);
    assert s[..0] == "" && s[..1] == [s[0]];
    if k > 0 {
      StaysOpenStep(s, open, k);
      HeightStep(s, k + 1);
      if open + step > 0 {
        ClosingIff(s[1..], open + step, k - 1);
      } else {
        assert s[1..][..0] == "";
        assert !(open + step + Height(s[1..][..0]) > 0);
      }
    }
  }

  lemma BalancedCloses(w: string, more: string)
    requires Balanced(w)
    ensures Closing(w + "}" + more, 1) == Some(|w|)
  {
    var s := w + "}" + more;
    assert s[..|w| + 1] == w + "}";
    HeightBoth(w, "}");
    HeightOne('}');
    assert "}" == ['}'];
    assert StaysOpen(s, 1, |w|) by {
      forall j | 0 <= j <= |w| ensures 1 + Height(s[..j]) > 0 {
        assert s[..j] == w[..j];
      }
    }
    ClosingIff(s, 1, |w|);
  }

  lemma {:induction false} NameEnds(name: string, more: string)
    requires forall i :: 0 <= i < |name| ==> NameChar(name[i])
    requires more != "" && !NameChar(more[0])
    ensures NameLength(name + more) == |name|
  {
    if name == "" {
      assert name + more == more;
    } else {
      NameEnds(name[1..], more);
      assert (name + more)[1..] == name[1..] + more;
    }
  }

  // A reference as written, from just after its "${".
  function Written(name: string, colon: bool, mod: Mod, w: string, more: string): string {
    name + (Mark(colon) + (Sign(mod) + (w + "}" + more)))
  }

  function Mark(colon: bool): string {
    if colon then ":" else ""
  }

  lemma SuffixOf(s: string, at: nat, x: string, rest: string)
    requires at <= |s| && s[at..] == x + rest
    ensures at + |x| <= |s| && s[at + |x|..] == rest
  {
    var t := s[at..];
    assert t[|x|..] == rest;
    assert s[at + |x|..] == t[|x|..];
  }

  lemma SignReadBack(s: string, at: nat, mod: Mod, w: string, more: string)
    requires at <= |s| && s[at..] == Sign(mod) + (w + "}" + more) && (mod == Plain ==> w == "")
    ensures at < |s| && ModOf(s, at) == mod && (mod == Plain ==> s[at] == '}')
  {
    assert s[at] == s[at..][0];
  }

  lemma WordReadBack(s: string, n: nat, colon: bool, at: nat, mod: Mod, w: string, more: string)
    requires n <= at <= |s| && s[at..] == Sign(mod) + (w + "}" + more)
    requires Balanced(w) && (mod == Plain ==> !colon && w == "")
    ensures ReadWord(s, n, colon, at) == Head(s[..n], colon, mod, Parse(w), |s| - |more|)
  {
    SignReadBack(s, at, mod, w, more);
    SuffixOf(s, at, Sign(mod), w + "}" + more);
    var start := at + |Sign(mod)|;
    assert s[start..] == w + "}" + more;
    BalancedCloses(w, more);
    WordAt(s, start, w, more);
    WordIs(s, n, colon, at, mod, start, |w|, s[..n], w);
  }

  lemma WordAt(s: string, start: nat, w: string, more: string)
    requires start <= |s| && s[start..] == w + "}" + more
    ensures start + |w| < |s| && s[start..start + |w|] == w && start + |w| + 1 == |s| - |more|
  {
    assert s[start..start + |w|] == s[start..][..|w|];
  }

  lemma HeadIs(s: string, n: nat, colon: bool, h: Head)
    requires s != "" && Letter(s[0]) && NameLength(s) == n <= NAME_MAX
    requires n < |s| && (s[n] == ':') == colon
    requires ReadWord(s, n, colon, n + |Mark(colon)|) == h
    ensures ReadHead(s) == h
  {
  }

  lemma TailStarts(colon: bool, mod: Mod, w: string, more: string)
    requires mod == Plain ==> !colon && w == ""
    ensures var tail := Mark(colon) + (Sign(mod) + (w + "}" + more));
            tail != "" && !NameChar(tail[0]) && (tail[0] == ':') == colon
  {
  }

  lemma HeadFrom(s: string, name: string, colon: bool, mod: Mod, w: string, more: string)
    requires GoodName(name) && Balanced(w) && (mod == Plain ==> !colon && w == "")
    requires |name| < |s| && s[0] == name[0] && s[..|name|] == name && NameLength(s) == |name|
    requires s[|name|..] == Mark(colon) + (Sign(mod) + (w + "}" + more))
    ensures ReadHead(s) == Head(name, colon, mod, Parse(w), |s| - |more|)
  {
    TailStarts(colon, mod, w, more);
    assert s[|name|] == s[|name|..][0];
    SuffixOf(s, |name|, Mark(colon), Sign(mod) + (w + "}" + more));
    WordReadBack(s, |name|, colon, |name| + |Mark(colon)|, mod, w, more);
    HeadIs(s, |name|, colon, Head(name, colon, mod, Parse(w), |s| - |more|));
  }

  lemma HeadReadBack(name: string, colon: bool, mod: Mod, w: string, more: string)
    requires GoodName(name) && Balanced(w) && (mod == Plain ==> !colon && w == "")
    ensures var s := Written(name, colon, mod, w, more);
            ReadHead(s) == Head(name, colon, mod, Parse(w), |s| - |more|)
  {
    var tail := Mark(colon) + (Sign(mod) + (w + "}" + more));
    TailStarts(colon, mod, w, more);
    PlainSplit(name, tail);
    NameEnds(name, tail);
    HeadFrom(name + tail, name, colon, mod, w, more);
  }

  lemma PlainSplit(x: string, y: string)
    requires x != "" && y != ""
    ensures var s := x + y; s[0] == x[0] && s[..|x|] == x && s[|x|..] == y && s[|x|] == y[0]
  {
  }

  lemma {:induction false} RenderStarts(d: Doc)
    requires Canonical(d) && !d.Run?
    ensures Render(d) == "" || Render(d)[0] == '$'
  {
  }

  // Every document that can be written down is read back as itself.
  lemma {:induction false} ReadBack(d: Doc)
    requires Canonical(d)
    ensures Parse(Render(d)) == d
  {
    match d
    case End =>
    case Run(text, rest) =>
      ReadBack(rest);
      RenderStarts(rest);
      ReadRun(text, Render(rest));
    case Dollar(rest) =>
      ReadBack(rest);
      ReadDollar(Render(rest));
    case Ref(name, colon, mod, word, rest) =>
      ReadBack(word);
      ReadBack(rest);
      RefReadBack(name, colon, mod, Render(word), Render(rest));
  }

  lemma RefFrom(s: string, body: string, name: string, colon: bool, mod: Mod, w: string, more: string)
    requires |s| > 1 && s[0] == '$' && s[1] == '{' && s[2..] == body
    requires |more| <= |body| && body[|body| - |more|..] == more
    requires ReadHead(body) == Head(name, colon, mod, Parse(w), |body| - |more|)
    ensures Parse(s) == Ref(name, colon, mod, Parse(w), Parse(more))
  {
    var used := |body| - |more|;
    assert s[2 + used..] == s[2..][used..];
    ReadRef(s, body, Head(name, colon, mod, Parse(w), used), more);
  }

  lemma RefReadBack(name: string, colon: bool, mod: Mod, w: string, more: string)
    requires GoodName(name) && Balanced(w) && (mod == Plain ==> !colon && w == "")
    ensures Parse("${" + Written(name, colon, mod, w, more)) == Ref(name, colon, mod, Parse(w), Parse(more))
  {
    var body := Written(name, colon, mod, w, more);
    HeadReadBack(name, colon, mod, w, more);
    WrittenEnds(name, colon, mod, w, more);
    PlainSplit("${", body);
    RefFrom("${" + body, body, name, colon, mod, w, more);
  }

  lemma WrittenEnds(name: string, colon: bool, mod: Mod, w: string, more: string)
    ensures var s := Written(name, colon, mod, w, more); |more| <= |s| && s[|s| - |more|..] == more
  {
    var front := name + (Mark(colon) + (Sign(mod) + (w + "}")));
    assert Written(name, colon, mod, w, more) == front + more;
  }

  lemma {:induction false} ChainCanonical(n: nat)
    ensures Canonical(ChainDoc(n)) && Render(ChainDoc(n)) == Chain(n) && Balanced(Chain(n))
  {
    if n > 0 {
      ChainCanonical(n - 1);
      ChainBalanced(Chain(n - 1));
      ChainMore(ChainDoc(n - 1), Chain(n - 1));
    } else {
      assert forall j :: 0 <= j <= 0 ==> ""[..j] == "";
    }
  }

  lemma ChainMore(d: Doc, w: string)
    requires Canonical(d) && Render(d) == w && Balanced(w)
    ensures var more := Ref("A", false, Default, d, End); Canonical(more) && Render(more) == "${A-" + w + "}"
  {
    ChainWritten(w);
  }

  lemma ChainWritten(w: string)
    ensures "${" + Written("A", false, Default, w, "") == "${A-" + w + "}"
  {
  }

  lemma ChainBalanced(w: string)
    requires Balanced(w)
    ensures Balanced("${A-" + w + "}")
  {
    var s := "${A-" + w + "}";
    HeightBoth("${A-" + w, "}");
    HeightBoth("${A-", w);
    OpenHeights();
    forall j | 0 <= j <= |s| ensures Height(s[..j]) >= 0 {
      if j <= 4 {
        assert s[..j] == "${A-"[..j];
      } else if j < |s| {
        assert s[..j] == "${A-" + w[..j - 4];
        HeightBoth("${A-", w[..j - 4]);
      } else {
        assert s[..j] == s;
      }
    }
  }

  lemma OpenHeights()
    ensures Height("${A-") == 1 && Height("}") == -1
    ensures forall j :: 0 <= j <= 4 ==> Height("${A-"[..j]) >= 0
  {
    var s := "${A-";
    HeightOne('$'); HeightOne('{'); HeightOne('A'); HeightOne('-'); HeightOne('}');
    assert s[..0] == "" && s[..1] == ['$']
        && s[..2] == s[..1] + ['{'] && s[..3] == s[..2] + ['A'] && s == s[..3] + ['-'];
    HeightBoth(s[..1], ['{']);
    HeightBoth(s[..2], ['A']);
    HeightBoth(s[..3], ['-']);
    assert s[..4] == s && "}" == ['}'];
  }
}
