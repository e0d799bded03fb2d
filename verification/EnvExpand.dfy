/**
 * The expander itself: one left-to-right scan over a string, writing into a
 * bounded buffer, proved to do what reading the string into a document and
 * then filling the buffer from that document would do.
 */
module EnvExpand {
  import opened Options
  import opened Env

  method ScanName(src: string, start: nat) returns (p: nat)
    requires start <= |src|
    ensures p == start + NameLength(src[start..])
  {
    p := start;
    while p < |src| && NameChar(src[p])
      invariant start <= p <= |src|
      invariant start + NameLength(src[start..]) == p + NameLength(src[p..])
    {
      assert src[p..][1..] == src[p + 1..];
      p := p + 1;
    }
  }

  method ScanRun(src: string, start: nat) returns (p: nat)
    requires start <= |src|
    ensures p == start + RunLength(src[start..])
  {
    p := start;
    while p < |src| && src[p] != '$'
      invariant start <= p <= |src|
      invariant start + RunLength(src[start..]) == p + RunLength(src[p..])
    {
      assert src[p..][1..] == src[p + 1..];
      p := p + 1;
    }
  }

  function Further(r: Option<nat>, more: nat): Option<nat> {
    match r
    case None => None
    case Some(n) => Some(n + more)
  }

  // One character nearer the closing brace, or on it.
  lemma WordStep(src: string, p: nat, braces: nat, goal: Option<nat>)
    requires p < |src| && braces > 0 && goal == Further(Closing(src[p..], braces), p)
    ensures src[p] == '}' && braces == 1 ==> goal == Some(p)
    ensures src[p] == '}' && braces > 1 ==> goal == Further(Closing(src[p + 1..], braces - 1), p + 1)
    ensures src[p] == '{' ==> goal == Further(Closing(src[p + 1..], braces + 1), p + 1)
    ensures src[p] != '{' && src[p] != '}' ==> goal == Further(Closing(src[p + 1..], braces), p + 1)
  {
    assert src[p..][0] == src[p] && src[p..][1..] == src[p + 1..];
  }

  // Past the brace that closes this reference, if there is one.
  method ScanWord(src: string, start: nat) returns (r: Option<nat>)
    requires start <= |src|
    ensures r == Further(Closing(src[start..], 1), start + 1)
  {
    var p, braces := start, 1;
    ghost var goal := Further(Closing(src[start..], 1), start);
    while braces > 0
      invariant start <= p <= |src| && braces >= 0
      invariant braces > 0 ==> goal == Further(Closing(src[p..], braces), p)
      invariant braces == 0 ==> p > start && goal == Some(p - 1)
      decreases |src| - p
    {
      if p == |src| {
        return None;
      }
      WordStep(src, p, braces, goal);
      if src[p] == '{' {
        braces := braces + 1;
      } else if src[p] == '}' {
        braces := braces - 1;
      }
      p := p + 1;
    }
    return Some(p);
  }

  lemma Tail(src: string, pos: nat, k: nat)
    requires pos + k <= |src|
    ensures src[pos..][k..] == src[pos + k..]
  {
  }

  // A reference as the scanner finds it: its word is not looked into yet.
  datatype Found = Malformed(code: Code) | Found(name: string, colon: bool, mod: Mod, word: string, used: nat)

  // The same, read into a document.
  ghost function Seen(f: Found): Head {
    match f
    case Malformed(code) => Wrong(code)
    case Found(name, colon, mod, word, used) => Head(name, colon, mod, Parse(word), used)
  }

  // A reference, from just after its "${" at `pos`: its name ...
  method ScanHead(src: string, pos: nat) returns (h: Found)
    requires pos <= |src|
    ensures Seen(h) == ReadHead(src[pos..])
    ensures h.Found? ==> |h.word| < h.used <= |src| - pos
  {
    if pos == |src| {
      return Malformed(Syntax);
    }
    if !Letter(src[pos]) {
      return Malformed(BadName);
    }
    var p := ScanName(src, pos);
    if p - pos > NAME_MAX {
      return Malformed(BadName);
    }
    var colon := p < |src| && src[p] == ':';
    h := ScanRest(src, pos, p, colon, if colon then p + 1 else p);
  }

  lemma WordIsNot(s: string, n: nat, colon: bool, at: nat, mod: Mod, start: nat)
    requires n <= at <= |s| && mod == ModOf(s, at)
    requires mod == Plain ==> !colon && at < |s| && s[at] == '}'
    requires start == (if mod == Plain then at else at + 1) && Closing(s[start..], 1) == None
    ensures ReadWord(s, n, colon, at) == Wrong(Syntax)
  {
  }

  lemma ModAt(src: string, pos: nat, at: nat)
    requires pos <= at <= |src|
    ensures ModOf(src, at) == ModOf(src[pos..], at - pos)
    ensures at < |src| ==> src[pos..][at - pos] == src[at]
  {
  }

  lemma WithinIs(src: string, pos: nat, nameEnd: nat, at: nat, mod: Mod, start: nat, k: nat, t: string)
    requires pos <= nameEnd <= at <= |src| && mod == ModOf(src, at) && t == src[pos..]
    requires mod == Plain ==> at < |src| && src[at] == '}'
    requires at <= start && start + k <= |src|
    ensures |t| == |src| - pos && mod == ModOf(t, at - pos)
    ensures mod == Plain ==> at - pos < |t| && t[at - pos] == '}'
    ensures t[start - pos..] == src[start..]
    ensures src[pos..nameEnd] == t[..nameEnd - pos] && src[start..start + k] == t[start - pos..start - pos + k]
  {
    ModAt(src, pos, at);
    Tail(src, pos, start - pos);
    Middle(src, pos, 0, nameEnd - pos);
    Middle(src, pos, start - pos, start - pos + k);
  }

  lemma RestIs(src: string, pos: nat, nameEnd: nat, colon: bool, at: nat, mod: Mod, start: nat, k: nat, t: string,
      name: string, word: string, n: nat, m: nat, b: nat)
    requires pos <= nameEnd <= at <= |src| && mod == ModOf(src, at) && t == src[pos..]
    requires mod == Plain ==> !colon && at < |src| && src[at] == '}'
    requires start == (if mod == Plain then at else at + 1) && Closing(src[start..], 1) == Some(k)
    requires name == src[pos..nameEnd] && word == src[start..start + k]
    requires n == nameEnd - pos && m == at - pos && b == start - pos
    ensures m <= |t| && ReadWord(t, n, colon, m) == Head(name, colon, mod, Parse(word), b + k + 1)
  {
    WithinIs(src, pos, nameEnd, at, mod, start, k, t);
    WordIs(t, n, colon, m, mod, b, k, name, word);
  }

  lemma RestSeen(src: string, pos: nat, nameEnd: nat, colon: bool, at: nat, start: nat, k: nat, h: Found)
    requires pos <= nameEnd <= at <= start <= start + k <= |src| && h.Found? && h.mod == ModOf(src, at)
    requires h.mod == Plain ==> !colon && at < |src| && src[at] == '}'
    requires start == (if h.mod == Plain then at else at + 1) && Closing(src[start..], 1) == Some(k)
    requires h == Found(src[pos..nameEnd], colon, h.mod, src[start..start + k], start + k + 1 - pos)
    ensures Seen(h) == ReadWord(src[pos..], nameEnd - pos, colon, at - pos)
  {
    RestIs(src, pos, nameEnd, colon, at, h.mod, start, k, src[pos..], h.name, h.word, nameEnd - pos, at - pos,
           start - pos);
  }

  lemma RestIsNot(src: string, pos: nat, nameEnd: nat, colon: bool, at: nat, mod: Mod, start: nat)
    requires pos <= nameEnd <= at <= |src| && mod == ModOf(src, at)
    requires mod == Plain ==> !colon && at < |src| && src[at] == '}'
    requires start == (if mod == Plain then at else at + 1) && Closing(src[start..], 1) == None
    ensures ReadWord(src[pos..], nameEnd - pos, colon, at - pos) == Wrong(Syntax)
  {
    ModAt(src, pos, at);
    Tail(src, pos, start - pos);
    WordIsNot(src[pos..], nameEnd - pos, colon, at - pos, mod, start - pos);
  }

  lemma RestIsWrong(src: string, pos: nat, nameEnd: nat, colon: bool, at: nat)
    requires pos <= nameEnd <= at <= |src| && ModOf(src, at) == Plain && (colon || at == |src| || src[at] != '}')
    ensures ReadWord(src[pos..], nameEnd - pos, colon, at - pos) == Wrong(Syntax)
  {
    ModAt(src, pos, at);
  }

  // ... and its modifier and word.
  method ScanRest(src: string, pos: nat, nameEnd: nat, colon: bool, at: nat) returns (h: Found)
    requires pos <= nameEnd <= at <= |src|
    ensures Seen(h) == ReadWord(src[pos..], nameEnd - pos, colon, at - pos)
    ensures h.Found? ==> |h.word| < h.used <= |src| - pos
  {
    var mod := ModOf(src, at);
    var start := at;
    if mod != Plain {
      start := start + 1;
    } else if colon || at == |src| || src[at] != '}' {
      RestIsWrong(src, pos, nameEnd, colon, at);
      return Malformed(Syntax);
    }
    var end := ScanWord(src, start);
    if end.None? {
      RestIsNot(src, pos, nameEnd, colon, at, mod, start);
      return Malformed(Syntax);
    }
    h := Found(src[pos..nameEnd], colon, mod, src[start..end.value - 1], end.value - pos);
    RestSeen(src, pos, nameEnd, colon, at, start, end.value - 1 - start, h);
  }

  lemma Middle(src: string, pos: nat, i: nat, j: nat)
    requires i <= j && pos + j <= |src|
    ensures src[pos..][i..j] == src[pos + i..pos + j]
  {
  }

  lemma EmptyWord(word: string)
    ensures Parse(word) == End <==> word == ""
  {
  }

  method Substitute(vars: Vars, name: string, colon: bool, mod: Mod, word: string, lenient: bool, depth: nat,
      out: string, ghost d: Doc)
      returns (r: Result)
    requires d == Parse(word)
    ensures r == FillRef(vars, name, colon, mod, d, lenient, depth, out)
    decreases |word|, 3
  {
    var there := name in vars && (!colon || vars[name] != "");
    if there && mod != Alternate {
      return Add(out, vars[name]);
    }
    if mod == Plain {
      return if lenient then Ok(out) else Err(Unset);
    }
    if mod == Alternate && !there {
      return Ok(out);
    }
    EmptyWord(word);
    if mod != Required {
      r := ExpandInto(vars, word, lenient, depth + 1, out);
    } else if word != "" {
      r := ExpandInto(vars, word, true, depth + 1, "");
      if r.Ok? {
        r := Err(Unset);
      }
    } else {
      r := Err(Unset);
    }
  }

  // r is what the first piece of d does to the buffer, and `rest` the pieces
  // after it.
  ghost predicate Written(vars: Vars, d: Doc, lenient: bool, depth: nat, out: string, r: Result, rest: Doc) {
    match d
    case End => false
    case Bad(code) => r == Err(code)
    case Run(text, more) => r == Add(out, text) && rest == more
    case Dollar(more) => r == Add(out, "$") && rest == more
    case Ref(name, colon, mod, word, more) =>
      r == FillRef(vars, name, colon, mod, word, lenient, depth, out) && rest == more
  }

  lemma FillOne(vars: Vars, d: Doc, lenient: bool, depth: nat, out: string, r: Result, rest: Doc)
    requires Written(vars, d, lenient, depth, out, r, rest)
    ensures Fill(vars, d, lenient, depth, out) == if r.Ok? then Fill(vars, rest, lenient, depth, r.text) else r
  {
  }

  // What the string begins with at `pos`, as the scanner finds it.
  datatype Token =
    | IsBroken(code: Code)
    | IsWords(text: string, used: nat)
    | IsCash(used: nat)
    | IsPlace(name: string, colon: bool, mod: Mod, word: string, used: nat)

  ghost function Shown(t: Token): Lexed {
    match t
    case IsBroken(code) => Broken(code)
    case IsWords(text, used) => Words(text, used)
    case IsCash(used) => Cash(used)
    case IsPlace(name, colon, mod, word, used) => Place(name, colon, mod, Parse(word), used)
  }

  method Scan(src: string, pos: nat) returns (t: Token)
    requires pos < |src|
    ensures Shown(t) == Lex(src[pos..])
    ensures t.IsPlace? ==> |t.word| < |src|
  {
    if src[pos] != '$' {
      var end := ScanRun(src, pos);
      Middle(src, pos, 0, end - pos);
      t := IsWords(src[pos..end], end - pos);
    } else if pos + 1 < |src| && src[pos + 1] == '$' {
      t := IsCash(2);
    } else if pos + 1 < |src| && src[pos + 1] == '{' {
      var h := ScanHead(src, pos + 2);
      Tail(src, pos, 2);
      t := if h.Malformed? then IsBroken(h.code) else IsPlace(h.name, h.colon, h.mod, h.word, 2 + h.used);
    } else {
      t := IsCash(1);
    }
  }

  // d begins with the piece found, and goes on with `rest`.
  ghost predicate Begins(t: Token, d: Doc, rest: Doc) {
    match t
    case IsBroken(code) => d == Bad(code)
    case IsWords(text, _) => d == Run(text, rest)
    case IsCash(_) => d == Dollar(rest)
    case IsPlace(name, colon, mod, word, _) => d == Ref(name, colon, mod, Parse(word), rest)
  }

  // What a piece does to the buffer.
  method Write(vars: Vars, t: Token, lenient: bool, depth: nat, out: string, ghost d: Doc, ghost rest: Doc)
      returns (r: Result)
    requires Begins(t, d, rest)
    ensures Written(vars, d, lenient, depth, out, r, rest)
    decreases if t.IsPlace? then |t.word| + 1 else 0, 0
  {
    match t
    case IsBroken(code) => r := Err(code);
    case IsWords(text, _) => r := Add(out, text);
    case IsCash(_) => r := Add(out, "$");
    case IsPlace(name, colon, mod, word, _) =>
      r := Substitute(vars, name, colon, mod, word, lenient, depth, out, d.word);
  }

  // The first piece of a document, from what its string begins with.
  lemma PieceIs(s: string, t: Token)
    requires s != "" && Shown(t) == Lex(s)
    ensures !t.IsBroken? ==> 0 < t.used <= |s|
    ensures Begins(t, Parse(s), if t.IsBroken? then End else Parse(s[t.used..]))
  {
  }

  method ExpandInto(vars: Vars, src: string, lenient: bool, depth: nat, start: string) returns (r: Result)
    ensures r == if depth > MAX_DEPTH then Err(TooDeep) else Fill(vars, Parse(src), lenient, depth, start)
    decreases |src|, 2
  {
    if depth > MAX_DEPTH {
      return Err(TooDeep);
    }
    var pos, out := 0, start;
    assert src[0..] == src;
    while pos < |src|
      invariant pos <= |src|
      invariant Fill(vars, Parse(src), lenient, depth, start) == Fill(vars, Parse(src[pos..]), lenient, depth, out)
    {
      var t := Scan(src, pos);
      ghost var s := src[pos..];
      PieceIs(s, t);
      ghost var d, rest := Parse(s), if t.IsBroken? then End else Parse(s[t.used..]);
      r := Write(vars, t, lenient, depth, out, d, rest);
      FillOne(vars, d, lenient, depth, out, r, rest);
      if r.Err? {
        return;
      }
      Tail(src, pos, t.used);
      pos := pos + t.used;
      out := r.text;
    }
    return Ok(out);
  }

  method ExpandString(vars: Vars, src: string, lenient: bool) returns (r: Result)
    ensures r == Expand(vars, src, lenient)
  {
    r := ExpandInto(vars, src, lenient, 0, "");
  }

  // Into the caller's buffer, with a zero after it; the buffer is left an
  // empty string when that fails.
  method ExpandBuf(dst: array<char>, vars: Vars, src: string, lenient: bool) returns (n: int, code: Option<Code>)
    requires dst.Length > 0
    modifies dst
    ensures var r := Expand(vars, src, lenient);
            if r.Ok? && |r.text| < dst.Length
            then n == |r.text| && code == None && dst[..] == r.text + ['\0'] + old(dst[..])[n + 1..]
            else n == -1 && code == Some(if r.Ok? then TooLong else r.code)
                 && dst[..] == ['\0'] + old(dst[..])[1..]
  {
    dst[0] := '\0';
    assert dst[..] == ['\0'] + old(dst[..])[1..];
    var r := ExpandString(vars, src, lenient);
    if r.Err? {
      return -1, Some(r.code);
    }
    if |r.text| >= dst.Length {
      return -1, Some(TooLong);
    }
    n := |r.text|;
    forall k | 0 <= k < n {
      dst[k] := r.text[k];
    }
    dst[n] := '\0';
    code := None;
  }
}
