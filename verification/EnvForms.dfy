/**
 * The forms of a reference as they are documented, one by one and on the
 * characters: what each stands for with the variable set, empty or unset, and
 * what is no reference at all.
 */
module EnvForms {
  import opened Options
  import opened Env
  import opened EnvLaws

  // ----- Names, letter by letter --------------------------------------------

  predicate Alpha(c: char) {
    var n := c as int;
    65 <= n <= 90 || 97 <= n <= 122 || n == 95
  }

  predicate Digit(c: char) {
    48 <= c as int <= 57
  }

  // A letter or an underscore, then those and digits.
  ghost predicate ShellName(name: string) {
    && 1 <= |name| <= 128 && Alpha(name[0])
    && forall i :: 1 <= i < |name| ==> Alpha(name[i]) || Digit(name[i])
  }

  lemma NameIs(name: string)
    ensures ShellName(name) <==> GoodName(name)
  {
    if ShellName(name) {
      forall i | 0 <= i < |name| ensures NameChar(name[i]) {
        assert i > 0 ==> Alpha(name[i]) || Digit(name[i]);
      }
    }
  }

  // ----- What a string stands for -------------------------------------------

  function Text(vars: Vars, s: string, lenient: bool, depth: nat): Result {
    Meaning(vars, Parse(s), lenient, depth)
  }

  function Then(r: Result, more: Result): Result {
    match r
    case Err(code) => r
    case Ok(text) => match more { case Err(_) => more case Ok(rest) => Ok(text + rest) }
  }

  // The word of a reference, one level further in.
  function Word(vars: Vars, w: string, lenient: bool, depth: nat): Result {
    if depth >= 8 then Err(TooDeep) else Text(vars, w, lenient, depth + 1)
  }

  // The word of a reference that must be set: what it says is an error.
  function Complaint(vars: Vars, w: string, depth: nat): Result {
    if w == "" then Err(Unset)
    else
      match Word(vars, w, true, depth)
      case Ok(_) => Err(Unset)
      case Err(code) => Err(code)
  }

  function Spell(name: string, mark: string, w: string, more: string): string {
    "${" + name + mark + w + "}" + more
  }

  lemma SpellIs(name: string, colon: bool, mod: Mod, w: string, more: string)
    ensures Spell(name, Mark(colon) + Sign(mod), w, more) == "${" + Written(name, colon, mod, w, more)
  {
    var x, y := Mark(colon), Sign(mod);
    assert x + y + (w + "}" + more) == x + (y + (w + "}" + more));
    assert "${" + name + (x + y) + w + "}" + more == "${" + (name + (x + y + (w + "}" + more)));
  }

  lemma EmptyWord(w: string)
    ensures Parse(w) == End <==> w == ""
  {
  }

  lemma Read(vars: Vars, name: string, colon: bool, mod: Mod, w: string, more: string, lenient: bool, depth: nat)
    requires ShellName(name) && Balanced(w) && (mod == Plain ==> !colon && w == "")
    ensures Text(vars, Spell(name, Mark(colon) + Sign(mod), w, more), lenient, depth)
         == Then(RefMeaning(vars, name, colon, mod, Parse(w), lenient, depth), Text(vars, more, lenient, depth))
  {
    NameIs(name);
    RefReadBack(name, colon, mod, w, more);
    SpellIs(name, colon, mod, w, more);
  }

  // ----- The forms ----------------------------------------------------------

  // ${NAME}
  lemma FormValue(vars: Vars, name: string, more: string, lenient: bool, depth: nat)
    requires ShellName(name)
    ensures Text(vars, "${" + name + "}" + more, lenient, depth)
         == Then(if name in vars then Ok(vars[name]) else if lenient then Ok("") else Err(Unset),
                 Text(vars, more, lenient, depth))
  {
    assert Balanced("") by {
      assert forall j :: 0 <= j <= 0 ==> ""[..j] == "";
    }
    Read(vars, name, false, Plain, "", more, lenient, depth);
    assert "${" + name + ("" + "") + "" + "}" + more == "${" + name + "}" + more;
  }

  // ${NAME-word} and ${NAME:-word}
  lemma FormDefault(vars: Vars, name: string, w: string, more: string, lenient: bool, depth: nat)
    requires ShellName(name) && Balanced(w)
    ensures Text(vars, "${" + name + "-" + w + "}" + more, lenient, depth)
         == Then(if name in vars then Ok(vars[name]) else Word(vars, w, lenient, depth),
                 Text(vars, more, lenient, depth))
    ensures Text(vars, "${" + name + ":-" + w + "}" + more, lenient, depth)
         == Then(if name in vars && vars[name] != "" then Ok(vars[name]) else Word(vars, w, lenient, depth),
                 Text(vars, more, lenient, depth))
  {
    Read(vars, name, false, Default, w, more, lenient, depth);
    Read(vars, name, true, Default, w, more, lenient, depth);
    assert "" + "-" == "-" && ":" + "-" == ":-";
  }

  // ${NAME+word} and ${NAME:+word}
  lemma FormAlternate(vars: Vars, name: string, w: string, more: string, lenient: bool, depth: nat)
    requires ShellName(name) && Balanced(w)
    ensures Text(vars, "${" + name + "+" + w + "}" + more, lenient, depth)
         == Then(if name in vars then Word(vars, w, lenient, depth) else Ok(""), Text(vars, more, lenient, depth))
    ensures Text(vars, "${" + name + ":+" + w + "}" + more, lenient, depth)
         == Then(if name in vars && vars[name] != "" then Word(vars, w, lenient, depth) else Ok(""),
                 Text(vars, more, lenient, depth))
  {
    Read(vars, name, false, Alternate, w, more, lenient, depth);
    Read(vars, name, true, Alternate, w, more, lenient, depth);
    assert "" + "+" == "+" && ":" + "+" == ":+";
  }

  // ${NAME?word} and ${NAME:?word}
  lemma FormRequired(vars: Vars, name: string, w: string, more: string, lenient: bool, depth: nat)
    requires ShellName(name) && Balanced(w)
    ensures Text(vars, "${" + name + "?" + w + "}" + more, lenient, depth)
         == Then(if name in vars then Ok(vars[name]) else Complaint(vars, w, depth), Text(vars, more, lenient, depth))
    ensures Text(vars, "${" + name + ":?" + w + "}" + more, lenient, depth)
         == Then(if name in vars && vars[name] != "" then Ok(vars[name]) else Complaint(vars, w, depth),
                 Text(vars, more, lenient, depth))
  {
    EmptyWord(w);
    Read(vars, name, false, Required, w, more, lenient, depth);
    Read(vars, name, true, Required, w, more, lenient, depth);
    assert "" + "?" == "?" && ":" + "?" == ":?";
  }

  // Anything else: text, two dollars for one, and a dollar alone.
  lemma FormText(vars: Vars, text: string, more: string, lenient: bool, depth: nat)
    requires '$' !in text && (more == "" || more[0] == '$')
    ensures Text(vars, text + more, lenient, depth) == Then(Ok(text), Text(vars, more, lenient, depth))
    ensures Text(vars, "", lenient, depth) == Ok("")
  {
    if text == "" {
      assert text + more == more;
    } else {
      ReadRun(text, more);
    }
  }

  lemma FormDollar(vars: Vars, more: string, lenient: bool, depth: nat)
    ensures Text(vars, "$$" + more, lenient, depth) == Then(Ok("$"), Text(vars, more, lenient, depth))
    ensures more == "" || (more[0] != '$' && more[0] != '{') ==>
              Text(vars, "$" + more, lenient, depth) == Then(Ok("$"), Text(vars, more, lenient, depth))
  {
    ReadDollar(more);
    var s := "$" + more;
    assert s[1..] == more;
    assert more == "" || (more[0] != '$' && more[0] != '{') ==> Lex(s) == Cash(1);
  }

  // ----- What is no reference -----------------------------------------------

  lemma BrokenRef(vars: Vars, body: string, code: Code, lenient: bool, depth: nat)
    requires ReadHead(body) == Wrong(code)
    ensures Text(vars, "${" + body, lenient, depth) == Err(code)
  {
    var s := "${" + body;
    assert s[2..] == body;
    assert Lex(s) == Broken(code);
  }

  // No name: the string ends, or goes on with something else.
  lemma NoName(vars: Vars, body: string, lenient: bool, depth: nat)
    requires body == "" || !Alpha(body[0])
    ensures Text(vars, "${" + body, lenient, depth) == Err(if body == "" then Syntax else BadName)
  {
    BrokenRef(vars, body, if body == "" then Syntax else BadName, lenient, depth);
  }

  lemma {:induction false} NameStops(name: string, more: string)
    requires forall i :: 0 <= i < |name| ==> Alpha(name[i]) || Digit(name[i])
    requires more == "" || !(Alpha(more[0]) || Digit(more[0]))
    ensures NameLength(name + more) == |name|
  {
    if name == "" {
      assert name + more == more;
    } else {
      NameStops(name[1..], more);
      assert (name + more)[1..] == name[1..] + more;
    }
  }

  // A name that is too long.
  lemma LongName(vars: Vars, name: string, more: string, lenient: bool, depth: nat)
    requires |name| > 128 && Alpha(name[0]) && forall i :: 0 <= i < |name| ==> Alpha(name[i]) || Digit(name[i])
    requires more == "" || !(Alpha(more[0]) || Digit(more[0]))
    ensures Text(vars, "${" + (name + more), lenient, depth) == Err(BadName)
  {
    NameStops(name, more);
    assert (name + more)[0] == name[0];
    BrokenRef(vars, name + more, BadName, lenient, depth);
  }

  predicate IsSign(c: char) {
    c == '-' || c == '+' || c == '?'
  }

  // After the name neither a brace nor a sign, or a colon without a sign.
  lemma NoSign(vars: Vars, name: string, more: string, lenient: bool, depth: nat)
    requires ShellName(name)
    requires more != "" ==> !(Alpha(more[0]) || Digit(more[0]) || IsSign(more[0]) || more[0] == '}')
    requires |more| > 1 && more[0] == ':' ==> !IsSign(more[1])
    ensures Text(vars, "${" + (name + more), lenient, depth) == Err(Syntax)
  {
    var body, n := name + more, |name|;
    NameStopsAt(name, more);
    assert body[0] == name[0] && body[n..] == more;
    assert more != "" ==> body[n] == more[0];
    assert |more| > 1 ==> body[n + 1] == more[1];
    BrokenRef(vars, body, Syntax, lenient, depth);
  }

  lemma NameStopsAt(name: string, more: string)
    requires ShellName(name) && (more == "" || !(Alpha(more[0]) || Digit(more[0])))
    ensures NameLength(name + more) == |name|
  {
    forall i | 0 <= i < |name| ensures Alpha(name[i]) || Digit(name[i]) {
    }
    NameStops(name, more);
  }

  lemma {:induction false} NeverCloses(s: string, open: nat)
    requires open > 0 && forall j :: 0 <= j <= |s| ==> open + Height(s[..j]) > 0
    ensures Closing(s, open).None?
  {
    forall k | 0 <= k < |s| ensures Closing(s, open) != Some(k) {
      assert open + Height(s[..k + 1]) > 0;
      ClosingIff(s, open, k);
    }
  }

  // A word that is not closed: at no point have more braces closed than opened.
  lemma NotClosed(vars: Vars, name: string, colon: bool, sign: char, w: string, lenient: bool, depth: nat)
    requires ShellName(name) && IsSign(sign) && forall j :: 0 <= j <= |w| ==> Height(w[..j]) >= 0
    ensures Text(vars, "${" + (name + ((if colon then ":" else "") + ([sign] + w))), lenient, depth) == Err(Syntax)
  {
    var tail := (if colon then ":" else "") + ([sign] + w);
    var body, n := name + tail, |name|;
    NameStopsAt(name, tail);
    assert body[0] == name[0] && body[n..] == tail && body[n] == tail[0];
    var at := if colon then n + 1 else n;
    assert body[at] == sign && body[at + 1..] == w;
    NeverCloses(w, 1);
    BrokenRef(vars, body, Syntax, lenient, depth);
  }

  // ----- Expanding ----------------------------------------------------------

  // A reference to a variable that is set is its value, whatever is in it, up
  // to 8192 characters.
  lemma ReferenceIsValue(vars: Vars, name: string, lenient: bool)
    requires ShellName(name) && name in vars
    ensures Expand(vars, "${" + name + "}", lenient) == if |vars[name]| <= 8192 then Ok(vars[name]) else Err(TooLong)
  {
    var s, v := "${" + name + "}", vars[name];
    FormValue(vars, name, "", lenient, 0);
    FormText(vars, "", "", lenient, 0);
    assert s + "" == s && v + "" == v;
    ExpandIff(vars, s, lenient, v);
  }
}
