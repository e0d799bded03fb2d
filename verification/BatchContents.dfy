/**
 * What is in the lines a command queues, told from what its handler did: every
 * line to everyone it was said to, as it was said, and every batch opened with
 * the kind that was asked for.
 */
module BatchContents {
  import opened Options
  import opened Batch
  import opened BatchLabels

  // ----- What is said -------------------------------------------------------

  // A line said to `tos`: one copy for each time d is among them.
  function Copies(tos: seq<Rcpt>, k: Kind, d: nat): seq<Kind> {
    if tos == [] then []
    else
      var n := |tos| - 1;
      Copies(tos[..n], k, d) + (if tos[n].client == d then [k] else [])
  }

  function Spoken(ts: seq<Tell>, d: nat): seq<Kind> {
    if ts == [] then []
    else Spoken(ts[..|ts| - 1], d) + Copies(ts[|ts| - 1].tos, Plain(ts[|ts| - 1].text, ts[|ts| - 1].prio), d)
  }

  // Everything a handler says, in order.
  function Tells(acts: seq<Act>): seq<Tell> {
    if acts == [] then [] else Tells(acts[..|acts| - 1]) + TellsOne(acts[|acts| - 1])
  }

  function TellsOne(a: Act): seq<Tell> {
    match a
    case DoTell(t) => [t]
    case DoFan(_, inner, _) => inner
    case _ => []
  }

  lemma Joined<T>(x: seq<T>, y: seq<T>, z: seq<T>)
    ensures x + y + z == x + (y + z)
  {
  }

  lemma Snoc<T>(x: seq<T>, y: seq<T>, front: seq<T>, a: T)
    requires y != [] && front == y[..|y| - 1] && a == y[|y| - 1]
    ensures y == front + [a] && x + y == x + front + [a]
  {
  }

  lemma {:induction false} CopiesBoth(x: seq<Rcpt>, y: seq<Rcpt>, k: Kind, d: nat)
    ensures Copies(x + y, k, d) == Copies(x, k, d) + Copies(y, k, d)
    decreases |y|
  {
    if y == [] {
      assert x + y == x;
    } else {
      var n := |y| - 1;
      CopiesBoth(x, y[..n], k, d);
      assert (x + y)[..|x + y| - 1] == x + y[..n];
    }
  }

  lemma {:induction false} SpokenBoth(x: seq<Tell>, y: seq<Tell>, d: nat)
    ensures Spoken(x + y, d) == Spoken(x, d) + Spoken(y, d)
    decreases |y|
  {
    if y == [] {
      assert x + y == x;
    } else {
      var n := |y| - 1;
      SpokenBoth(x, y[..n], d);
      assert (x + y)[..|x + y| - 1] == x + y[..n];
      Joined(Spoken(x, d), Spoken(y[..n], d), Copies(y[n].tos, Plain(y[n].text, y[n].prio), d));
    }
  }

  lemma {:induction false} SaidIs(tos: seq<Rcpt>, k: Kind, d: nat)
    ensures Said(tos, k, d) == Copies(tos, k, d)
    decreases |tos|
  {
    if tos != [] {
      SaidIs(tos[1..], k, d);
      CopiesBoth([tos[0]], tos[1..], k, d);
      assert [tos[0]] + tos[1..] == tos;
      assert Copies([tos[0]], k, d) == Copies([], k, d) + (if tos[0].client == d then [k] else []);
    }
  }

  lemma OneSpoken(t: Tell, d: nat)
    ensures Spoken([t], d) == Copies(t.tos, Plain(t.text, t.prio), d)
  {
    assert [t][..0] == [];
  }

  lemma NextSpoken(ts: seq<Tell>, d: nat)
    requires ts != []
    ensures Spoken(ts, d) == Spoken([ts[0]], d) + Spoken(ts[1..], d)
    ensures Spoken([ts[0]], d) == Copies(ts[0].tos, Plain(ts[0].text, ts[0].prio), d)
  {
    OneSpoken(ts[0], d);
    SpokenBoth([ts[0]], ts[1..], d);
    assert [ts[0]] + ts[1..] == ts;
  }

  lemma {:induction false} SayAllSays(s: State, ts: seq<Tell>, d: nat)
    ensures Erased(SayAll(s, ts), d) == Erased(s, d) + Spoken(ts, d)
    decreases |ts|
  {
    if ts != [] {
      TellErased(s, ts[0], ts[0].tos, None, d);
      SaidIs(ts[0].tos, Plain(ts[0].text, ts[0].prio), d);
      SayAllSays(Say(s, ts[0]), ts[1..], d);
      NextSpoken(ts, d);
      Joined(Erased(s, d), Spoken([ts[0]], d), Spoken(ts[1..], d));
    }
  }

  lemma FanSays(s: State, opens: seq<nat>, inner: seq<Tell>, closes: seq<nat>, d: nat)
    ensures Erased(Fan(s, opens, inner, closes), d) == Erased(s, d) + Spoken(inner, d)
  {
    FanOpenErased(s, opens, d);
    SayAllSays(FanOpen(s, opens), inner, d);
    SayFan(FanOpen(s, opens), inner);
    FanCloseErased(SayAll(FanOpen(s, opens), inner), closes, d);
  }

  lemma TellsOf(a: Act)
    ensures Tells([a]) == TellsOne(a)
  {
    assert [a][..0] == [];
  }

  lemma DoSays(s: State, a: Act, d: nat)
    ensures Erased(Do(s, a), d) == Erased(s, d) + Spoken(Tells([a]), d)
  {
    TellsOf(a);
    match a
    case DoTell(t) =>
      SayAllSays(s, [t], d);
      assert SayAll(s, [t]) == SayAll(Say(s, t), []);
    case DoOpen(to, kind) => OpenErased(s, to, kind, d);
    case DoClose(to) => CloseErased(s, to, d);
    case DoFan(opens, inner, closes) => FanSays(s, opens, inner, closes, d);
  }

  lemma TellsNext(x: seq<Act>, a: Act)
    ensures Tells(x + [a]) == Tells(x) + TellsOne(a)
  {
    assert (x + [a])[..|x|] == x;
  }

  lemma {:induction false} TellsBoth(x: seq<Act>, y: seq<Act>)
    ensures Tells(x + y) == Tells(x) + Tells(y)
    decreases |y|
  {
    if y == [] {
      assert x + y == x;
    } else {
      var front, a := y[..|y| - 1], y[|y| - 1];
      TellsBoth(x, front);
      Snoc(x, y, front, a);
      TellsNext(x + front, a);
      TellsNext(front, a);
      Joined(Tells(x), Tells(front), TellsOne(a));
    }
  }

  lemma {:induction false} ActsSay(s: State, acts: seq<Act>, d: nat)
    ensures Erased(DoAll(s, acts), d) == Erased(s, d) + Spoken(Tells(acts), d)
    decreases |acts|
  {
    if acts != [] {
      DoSays(s, acts[0], d);
      ActsSay(Do(s, acts[0]), acts[1..], d);
      FirstSpoken(acts, d);
      Joined(Erased(s, d), Spoken(Tells([acts[0]]), d), Spoken(Tells(acts[1..]), d));
    }
  }

  lemma FirstSpoken(acts: seq<Act>, d: nat)
    requires acts != []
    ensures Spoken(Tells(acts), d) == Spoken(Tells([acts[0]]), d) + Spoken(Tells(acts[1..]), d)
  {
    TellsBoth([acts[0]], acts[1..]);
    SpokenBoth(Tells([acts[0]]), Tells(acts[1..]), d);
    assert [acts[0]] + acts[1..] == acts;
  }

  // What a command queues for a client, but for batch lines, ACKs and tags, is
  // what its handler said to that client: each line once for each time it was
  // said, in order, with its text and its priority.
  lemma ContentsAre(s: State, c: nat, text: string, acts: seq<Act>, d: nat)
    ensures Erased(Command(s, c, text, acts), d) == Erased(s, d) + Spoken(Tells(acts), d)
  {
    var s1 := LabelBegin(s, c, text);
    assert Erased(s1, d) == Erased(s, d);
    ActsSay(s1, acts, d);
    EndErased(DoAll(s1, acts), d);
  }

  // ----- What is opened -----------------------------------------------------

  // The kinds of the batches opened by lines that carry no label.
  function Kinds(ls: seq<Line>): seq<string> {
    if ls == [] then []
    else
      var l := ls[|ls| - 1];
      Kinds(ls[..|ls| - 1]) + (if l.what.Open? && l.mark.None? then [l.what.kind] else [])
  }

  function Opened(s: State, d: nat): seq<string> { Kinds(Lines(s.wire, d)) }

  // Who has the one batch a command answers with.
  function Holder(s: State): Option<nat> {
    match s.out
    case None => None
    case Some(o) => Some(o.client)
  }

  // The kind an act asks for, for d: a batch is opened to a client that takes
  // them while no other is open, and the batch of a long message to those of
  // its recipients that take such.
  function OneWanted(a: Act, d: nat, holder: Option<nat>, batchers: set<nat>, multis: set<nat>): seq<string> {
    match a
    case DoTell(_) => []
    case DoOpen(to, kind) => if to == d && holder.None? && to in batchers then [kind] else []
    case DoClose(_) => []
    case DoFan(opens, _, _) => if d in opens && d in multis then ["draft/multiline"] else []
  }

  function HolderAfter(a: Act, holder: Option<nat>, batchers: set<nat>): Option<nat> {
    match a
    case DoOpen(to, _) => if holder.None? && to in batchers then Some(to) else holder
    case DoClose(to) => if holder == Some(to) then None else holder
    case _ => holder
  }

  function Wanted(acts: seq<Act>, d: nat, holder: Option<nat>, batchers: set<nat>, multis: set<nat>): seq<string> {
    if acts == [] then []
    else
      OneWanted(acts[0], d, holder, batchers, multis)
      + Wanted(acts[1..], d, HolderAfter(acts[0], holder, batchers), batchers, multis)
  }

  function OneKind(l: Line): seq<string> {
    if l.what.Open? && l.mark.None? then [l.what.kind] else []
  }

  lemma KindsNext(ls: seq<Line>, l: Line)
    ensures Kinds(ls + [l]) == Kinds(ls) + OneKind(l)
  {
    assert (ls + [l])[..|ls|] == ls;
  }

  lemma OpenedNext(s: State, to: nat, l: Line, t: State, d: nat)
    requires t.wire == s.wire + [Sent(to, l)]
    ensures Opened(t, d) == Opened(s, d) + (if to == d then OneKind(l) else [])
  {
    LinesNext(s.wire, Sent(to, l), d);
    if to == d {
      KindsNext(Lines(s.wire, d), l);
    } else {
      assert Lines(s.wire, d) + [] == Lines(s.wire, d);
    }
  }

  // Opening the label's own batch opens no other.
  lemma BeforeOpened(s: State, to: nat, tag: Option<nat>, d: nat)
    ensures var t := Before(s, to, tag);
            Opened(t, d) == Opened(s, d) && t.out == s.out && t.batchers == s.batchers && t.multis == s.multis
  {
    if Pending(s, to) {
      var t := Before(s, to, tag);
      OpenedNext(s, to, t.wire[|s.wire|].line, t, d);
    }
  }

  lemma {:induction false} TellOpened(s: State, t: Tell, tos: seq<Rcpt>, cache: Option<Cache>, d: nat)
    ensures Opened(TellTo(s, t, tos, cache), d) == Opened(s, d)
    decreases |tos|
  {
    if tos != [] {
      var to, next := tos[0].client, TellOne(s, t, tos[0], cache);
      BeforeOpened(s, to, TagNoLabel(s, to), d);
      OpenedNext(Ready(s, to), to, Line(Plain(t.text, t.prio), TagOf(s, t, tos[0], cache), None), next, d);
      TellOpened(next, t, tos[1..], NextCache(s, t, tos[0], cache), d);
    }
  }

  lemma {:induction false} SayAllOpened(s: State, ts: seq<Tell>, d: nat)
    ensures Opened(SayAll(s, ts), d) == Opened(s, d)
    decreases |ts|
  {
    if ts != [] {
      TellOpened(s, ts[0], ts[0].tos, None, d);
      SayAllOpened(Say(s, ts[0]), ts[1..], d);
    }
  }

  // The line that opens or closes a long message's batch, once to each.
  lemma {:induction false} FanOpened(s: State, tos: seq<nat>, what: Kind, done: set<nat>, d: nat)
    ensures Opened(FanLines(s, tos, what, done), d) ==
            Opened(s, d) + (if what.Open? && d in tos && d !in done && d in s.multis then [what.kind] else [])
    decreases |tos|
  {
    if tos != [] {
      var to := tos[0];
      if to in done || to !in s.multis {
        FanOpened(s, tos[1..], what, done, d);
      } else {
        BeforeOpened(s, to, OutTag(s, to), d);
        var s1 := Before(s, to, OutTag(s, to));
        var l := Line(what, OwnTag(s1, to), None);
        OpenedNext(s1, to, l, Put(s1, to, l), d);
        FanOpened(Put(s1, to, l), tos[1..], what, done + {to}, d);
      }
    }
  }

  lemma FanKinds(s: State, opens: seq<nat>, inner: seq<Tell>, closes: seq<nat>, d: nat)
    ensures var t := Fan(s, opens, inner, closes);
            && Opened(t, d) == Opened(s, d) + (if d in opens && d in s.multis then ["draft/multiline"] else [])
            && Holder(t) == Holder(s) && t.batchers == s.batchers && t.multis == s.multis
  {
    FanOpenKinds(s, opens, d);
    SayAllOpened(FanOpen(s, opens), inner, d);
    SayFan(FanOpen(s, opens), inner);
    FanCloseKinds(SayAll(FanOpen(s, opens), inner), closes, d);
  }

  lemma FanOpenKinds(s: State, opens: seq<nat>, d: nat)
    ensures var t := FanOpen(s, opens);
            && Opened(t, d) == Opened(s, d) + (if d in opens && d in s.multis then ["draft/multiline"] else [])
            && t.fan.Some? && t.out == s.out && t.batchers == s.batchers && t.multis == s.multis
  {
    var s0 := s.(ids := s.ids + 1, fan := Some(s.ids + 1));
    assert Opened(s0, d) == Opened(s, d);
    FanOpened(s0, opens, Open(s.ids + 1, "draft/multiline"), {}, d);
    LinesFan(s0, opens, Open(s.ids + 1, "draft/multiline"), {});
  }

  lemma FanCloseKinds(s: State, closes: seq<nat>, d: nat)
    requires s.fan.Some?
    ensures var t := FanClose(s, closes);
            Opened(t, d) == Opened(s, d) && t.out == s.out && t.batchers == s.batchers && t.multis == s.multis
  {
    FanOpened(s, closes, Close(s.fan.value), {}, d);
    LinesFan(s, closes, Close(s.fan.value), {});
  }

  lemma OpenAside(s: State, to: nat, kind: string)
    ensures var t := OutOpen(s, to, kind);
            && (if s.out.Some? || to !in s.batchers then t == s else Holder(t) == Some(to))
            && t.batchers == s.batchers && t.multis == s.multis
  {
  }

  lemma OpenKinds(s: State, to: nat, kind: string, d: nat)
    requires s.out.None? && to in s.batchers
    ensures Opened(OutOpen(s, to, kind), d) == Opened(s, d) + (if to == d then [kind] else [])
  {
    var s0 := s.(ids := s.ids + 1);
    var s1 := Before(s0, to, FanTag(s, to));
    BeforeOpened(s0, to, FanTag(s, to), d);
    assert Opened(s0, d) == Opened(s, d);
    OpenedNext(s1, to, Line(Open(s.ids + 1, kind), TagNoOut(s1, to), None), OutOpen(s, to, kind), d);
  }

  lemma CloseKinds(s: State, to: nat, d: nat)
    ensures var t := OutClose(s, to);
            && Opened(t, d) == Opened(s, d) && Holder(t) == (if Holder(s) == Some(to) then None else Holder(s))
            && t.batchers == s.batchers && t.multis == s.multis
  {
    if OutTag(s, to).Some? {
      BeforeOpened(s, to, FanTag(s, to), d);
      var s1, t := Before(s, to, FanTag(s, to)), OutClose(s, to);
      OpenedNext(s1, to, t.wire[|s1.wire|].line, t, d);
    }
  }

  lemma TellKinds(s: State, t: Tell, d: nat)
    ensures var u := Say(s, t);
            Opened(u, d) == Opened(s, d) && u.out == s.out && u.batchers == s.batchers && u.multis == s.multis
  {
    TellOpened(s, t, t.tos, None, d);
    TellFan(s, t, t.tos, None);
  }

  lemma DoOpens(s: State, a: Act, d: nat)
    ensures var t := Do(s, a);
            && Opened(t, d) == Opened(s, d) + OneWanted(a, d, Holder(s), s.batchers, s.multis)
            && Holder(t) == HolderAfter(a, Holder(s), s.batchers) && t.batchers == s.batchers && t.multis == s.multis
  {
    match a {
      case DoTell(t) => TellKinds(s, t, d);
      case DoOpen(to, kind) =>
        OpenAside(s, to, kind);
        if s.out.None? && to in s.batchers { OpenKinds(s, to, kind, d); }
      case DoClose(to) => CloseKinds(s, to, d);
      case DoFan(opens, inner, closes) => FanKinds(s, opens, inner, closes, d);
    }
  }

  lemma {:induction false} ActsOpen(s: State, acts: seq<Act>, d: nat)
    ensures Opened(DoAll(s, acts), d) == Opened(s, d) + Wanted(acts, d, Holder(s), s.batchers, s.multis)
    decreases |acts|
  {
    if acts != [] {
      var t := Do(s, acts[0]);
      DoOpens(s, acts[0], d);
      ActsOpen(t, acts[1..], d);
      Joined(Opened(s, d), OneWanted(acts[0], d, Holder(s), s.batchers, s.multis),
             Wanted(acts[1..], d, Holder(t), t.batchers, t.multis));
    }
  }

  // The batches a command opens to a client, but for the label's own, are those
  // its handler asked for, each with its kind.
  lemma KindsAre(s: State, c: nat, text: string, acts: seq<Act>, d: nat)
    ensures Opened(Command(s, c, text, acts), d)
         == Opened(s, d) + Wanted(acts, d, Holder(s), s.batchers, s.multis)
  {
    var s1 := LabelBegin(s, c, text);
    ActsOpen(s1, acts, d);
    var t := DoAll(s1, acts);
    if t.reply.Some? {
      OpenedNext(t, t.reply.value.client, LabelEnd(t).wire[|t.wire|].line, LabelEnd(t), d);
    }
  }

  // ----- What carries a label -----------------------------------------------

  function OneMark(l: Line): seq<string> {
    if l.mark.Some? then [l.mark.value] else []
  }

  function Marks(ls: seq<Line>): seq<string> {
    if ls == [] then [] else Marks(ls[..|ls| - 1]) + OneMark(ls[|ls| - 1])
  }

  // The labels a client has been sent, and the one that is still to be.
  function Due(s: State, d: nat): seq<string> {
    Marks(Lines(s.wire, d)) + (if Pending(s, d) then [s.reply.value.text] else [])
  }

  lemma MarksNext(ls: seq<Line>, l: Line)
    ensures Marks(ls + [l]) == Marks(ls) + OneMark(l)
  {
    assert (ls + [l])[..|ls|] == ls;
  }

  // A line without a label, while the response under way stays as it is.
  lemma DueNext(s: State, to: nat, l: Line, t: State, d: nat)
    requires t.wire == s.wire + [Sent(to, l)] && l.mark.None? && t.reply == s.reply
    ensures Due(t, d) == Due(s, d)
  {
    LinesNext(s.wire, Sent(to, l), d);
    MarksNext(Lines(s.wire, d), l);
    assert Lines(s.wire, d) + [] == Lines(s.wire, d);
  }

  lemma BeforeDue(s: State, to: nat, tag: Option<nat>, d: nat)
    ensures Due(Before(s, to, tag), d) == Due(s, d)
  {
    if Pending(s, to) {
      var t := Before(s, to, tag);
      var l := t.wire[|s.wire|].line;
      LinesNext(s.wire, Sent(to, l), d);
      MarksNext(Lines(s.wire, d), l);
      assert Lines(s.wire, d) + [] == Lines(s.wire, d);
    }
  }

  lemma {:induction false} TellDue(s: State, t: Tell, tos: seq<Rcpt>, cache: Option<Cache>, d: nat)
    ensures Due(TellTo(s, t, tos, cache), d) == Due(s, d)
    decreases |tos|
  {
    if tos != [] {
      var to, next := tos[0].client, TellOne(s, t, tos[0], cache);
      BeforeDue(s, to, TagNoLabel(s, to), d);
      DueNext(Ready(s, to), to, Line(Plain(t.text, t.prio), TagOf(s, t, tos[0], cache), None), next, d);
      TellDue(next, t, tos[1..], NextCache(s, t, tos[0], cache), d);
    }
  }

  lemma {:induction false} SayAllDue(s: State, ts: seq<Tell>, d: nat)
    ensures Due(SayAll(s, ts), d) == Due(s, d)
    decreases |ts|
  {
    if ts != [] {
      TellDue(s, ts[0], ts[0].tos, None, d);
      SayAllDue(Say(s, ts[0]), ts[1..], d);
    }
  }

  lemma {:induction false} FanDue(s: State, tos: seq<nat>, what: Kind, done: set<nat>, d: nat)
    ensures Due(FanLines(s, tos, what, done), d) == Due(s, d)
    decreases |tos|
  {
    if tos != [] {
      var to := tos[0];
      if to in done || to !in s.multis {
        FanDue(s, tos[1..], what, done, d);
      } else {
        BeforeDue(s, to, OutTag(s, to), d);
        var s1 := Before(s, to, OutTag(s, to));
        var l := Line(what, OwnTag(s1, to), None);
        DueNext(s1, to, l, Put(s1, to, l), d);
        FanDue(Put(s1, to, l), tos[1..], what, done + {to}, d);
      }
    }
  }

  lemma LongDue(s: State, opens: seq<nat>, inner: seq<Tell>, closes: seq<nat>, d: nat)
    ensures Due(Fan(s, opens, inner, closes), d) == Due(s, d)
  {
    FanOpenDue(s, opens, d);
    SayAllDue(FanOpen(s, opens), inner, d);
    SayFan(FanOpen(s, opens), inner);
    FanCloseDue(SayAll(FanOpen(s, opens), inner), closes, d);
  }

  lemma FanOpenDue(s: State, opens: seq<nat>, d: nat)
    ensures FanOpen(s, opens).fan.Some? && Due(FanOpen(s, opens), d) == Due(s, d)
  {
    var s0 := s.(ids := s.ids + 1, fan := Some(s.ids + 1));
    assert Due(s0, d) == Due(s, d);
    LinesFan(s0, opens, Open(s.ids + 1, "draft/multiline"), {});
    FanDue(s0, opens, Open(s.ids + 1, "draft/multiline"), {}, d);
  }

  lemma FanCloseDue(s: State, closes: seq<nat>, d: nat)
    requires s.fan.Some?
    ensures Due(FanClose(s, closes), d) == Due(s, d)
  {
    var t := FanLines(s, closes, Close(s.fan.value), {});
    FanDue(s, closes, Close(s.fan.value), {}, d);
    assert Due(t.(fan := None), d) == Due(t, d);
  }

  lemma OpenDue(s: State, to: nat, kind: string, d: nat)
    ensures Due(OutOpen(s, to, kind), d) == Due(s, d)
  {
    if to in s.batchers && s.out.None? {
      var s0 := s.(ids := s.ids + 1);
      BeforeDue(s0, to, FanTag(s, to), d);
      var s1, t := Before(s0, to, FanTag(s, to)), OutOpen(s, to, kind);
      DueNext(s1, to, t.wire[|s1.wire|].line, t, d);
    }
  }

  lemma CloseDue(s: State, to: nat, d: nat)
    ensures Due(OutClose(s, to), d) == Due(s, d)
  {
    if OutTag(s, to).Some? {
      BeforeDue(s, to, FanTag(s, to), d);
      var s1, t := Before(s, to, FanTag(s, to)), OutClose(s, to);
      DueNext(s1, to, t.wire[|s1.wire|].line, t, d);
    }
  }

  lemma {:induction false} ActsDue(s: State, acts: seq<Act>, d: nat)
    ensures Due(DoAll(s, acts), d) == Due(s, d)
    decreases |acts|
  {
    if acts != [] {
      match acts[0] {
        case DoTell(t) => TellDue(s, t, t.tos, None, d);
        case DoOpen(to, kind) => OpenDue(s, to, kind, d);
        case DoClose(to) => CloseDue(s, to, d);
        case DoFan(opens, inner, closes) => LongDue(s, opens, inner, closes, d);
      }
      ActsDue(Do(s, acts[0]), acts[1..], d);
    }
  }

  lemma EndDue(s: State, d: nat)
    ensures Marks(Lines(LabelEnd(s).wire, d)) == Due(s, d)
  {
    if s.reply.Some? {
      var l := s.reply.value;
      var last := LastLine(l, TagNoLabel(s, l.client));
      LinesNext(s.wire, Sent(l.client, last), d);
      MarksNext(Lines(s.wire, d), last);
      assert Lines(s.wire, d) + [] == Lines(s.wire, d);
    }
  }

  // A command's label comes back once, to the client that sent it and in as
  // many as 64 characters, if that client takes batches and labels; nobody
  // else is ever sent one, and no other.
  lemma LabelsAre(s: State, c: nat, text: string, acts: seq<Act>, d: nat)
    ensures Marks(Lines(Command(s, c, text, acts).wire, d)) == Marks(Lines(s.wire, d)) +
            if d == c && text != "" && c in s.batchers && c in s.labelers
            then [if |text| > 64 then text[..64] else text] else []
  {
    var s1 := LabelBegin(s, c, text);
    ActsDue(s1, acts, d);
    EndDue(DoAll(s1, acts), d);
  }
}
