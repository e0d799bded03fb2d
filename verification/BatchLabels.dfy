/**
 * What a label does to the lines of a command: one line carries it, and apart
 * from that line, batch lines and tags, they are what they would have been.
 */
module BatchLabels {
  import opened Options
  import opened Batch
  import opened BatchNesting

  // A label comes back unchanged exactly when it is not too long to be kept.
  lemma KeptIff(text: string)
    ensures Kept(text) == text <==> |text| <= LABELLEN
    ensures Kept(text) <= text
  {
  }

  lemma LongLabelIsCut()
    ensures var text := seq(65, _ => 'x'); Kept(text) != text
  {
    KeptIff(seq(65, _ => 'x'));
  }

  // ----- Exactly one labeled line -------------------------------------------

  // Nothing has been queued for c since `was`, or a line that opens the labeled
  // batch and others without a label.
  predicate OneMark(s: State, was: seq<Line>, c: nat, text: string, ok: bool) {
    && s.reply.Some? && s.reply.value.client == c && s.reply.value.text == text
    && var now := Lines(s.wire, c);
       && was <= now
       && (s.reply.value.batch.None? ==> now == was)
       && (s.reply.value.batch.Some? ==>
             && |now| > |was|
             && now[|was|].what == Open(s.reply.value.batch.value, "labeled-response")
             && now[|was|].mark == Some(text) && (ok ==> now[|was|].batch.None?)
             && forall i :: |was| < i < |now| ==> now[i].mark.None?)
  }

  ghost predicate Marks(s: State, was: seq<Line>, c: nat, text: string, ok: bool, told: bool) {
    OneMark(s, was, c, text, ok) && Follows(s, c, ok, told)
  }

  lemma MarkNext(s: State, was: seq<Line>, c: nat, text: string, ok: bool, to: nat, l: Line, t: State, fine: bool)
    requires OneMark(s, was, c, text, ok) && t.wire == s.wire + [Sent(to, l)] && t.reply == s.reply
    requires to == c ==> l.mark.None? && s.reply.value.batch.Some?
    ensures OneMark(t, was, c, text, ok && fine)
  {
    LinesNext(s.wire, Sent(to, l), c);
    assert Lines(s.wire, c) + [] == Lines(s.wire, c);
  }

  lemma BeforeMark(s: State, to: nat, tag: Option<nat>, was: seq<Line>, c: nat, text: string, ok: bool)
    requires OneMark(s, was, c, text, ok)
    ensures OneMark(Before(s, to, tag), was, c, text, ok && (to == c && Pending(s, c) ==> tag.None?))
    ensures !Pending(Before(s, to, tag), to)
  {
    if Pending(s, to) {
      var t := Before(s, to, tag);
      LinesNext(s.wire, t.wire[|s.wire|], c);
    }
  }

  lemma OneTellMark(s: State, t: Tell, to: Rcpt, cache: Option<Cache>, was: seq<Line>, c: nat, text: string, ok: bool,
      told: bool)
    requires Marks(s, was, c, text, ok, told) && CacheLive(s, cache)
    ensures Marks(TellOne(s, t, to, cache), was, c, text, ok && FineOne(s, t, to, cache, c, told), told)
  {
    OneFollows(s, t, to, cache, c, ok, told);
    BeforeMark(s, to.client, TagNoLabel(s, to.client), was, c, text, ok);
    assert to.client == c && Pending(s, c) ==> TagNoLabel(s, c) == FanTag(s, c);
    MarkNext(Ready(s, to.client), was, c, text, ok && FineReady(s, to.client, c), to.client,
             Line(Plain(t.text, t.prio), TagOf(s, t, to, cache), None), TellOne(s, t, to, cache),
             FineOne(s, t, to, cache, c, told));
  }

  lemma {:induction false} TellMark(s: State, t: Tell, tos: seq<Rcpt>, cache: Option<Cache>, was: seq<Line>, c: nat,
      text: string, ok: bool, told: bool)
    requires Marks(s, was, c, text, ok, told) && CacheLive(s, cache)
    ensures Marks(TellTo(s, t, tos, cache), was, c, text, ok && FineTo(s, t, tos, cache, c, told), told)
    decreases |tos|
  {
    if tos != [] {
      OneTellMark(s, t, tos[0], cache, was, c, text, ok, told);
      OneLive(s, t, tos[0], cache);
      TellMark(TellOne(s, t, tos[0], cache), t, tos[1..], NextCache(s, t, tos[0], cache), was, c, text,
               ok && FineOne(s, t, tos[0], cache, c, told), told);
    }
  }

  lemma {:induction false} TellsMark(s: State, ts: seq<Tell>, was: seq<Line>, c: nat, text: string, ok: bool,
      told: bool)
    requires Marks(s, was, c, text, ok, told)
    ensures Marks(SayAll(s, ts), was, c, text, ok && FineTells(s, ts, c, told), told)
    decreases |ts|
  {
    if ts != [] {
      TellMark(s, ts[0], ts[0].tos, None, was, c, text, ok, told);
      TellsMark(Say(s, ts[0]), ts[1..], was, c, text, ok && FineTo(s, ts[0], ts[0].tos, None, c, told), told);
    }
  }

  // The lines of a long message's batch carry no label either.
  lemma {:induction false} FanMark(s: State, tos: seq<nat>, what: Kind, done: set<nat>, was: seq<Line>, c: nat,
      text: string, ok: bool)
    requires OneMark(s, was, c, text, ok) && (Pending(s, c) ==> OutTag(s, c).None?)
    ensures OneMark(FanLines(s, tos, what, done), was, c, text, ok)
    decreases |tos|
  {
    if tos != [] {
      var to := tos[0];
      if to in done || to !in s.multis {
        FanMark(s, tos[1..], what, done, was, c, text, ok);
      } else {
        BeforeMark(s, to, OutTag(s, to), was, c, text, ok);
        var s1 := FanReady(s, to);
        var l := Line(what, OwnTag(s1, to), None);
        MarkNext(s1, was, c, text, ok, to, l, Put(s1, to, l), true);
        FanMark(Put(s1, to, l), tos[1..], what, done + {to}, was, c, text, ok);
      }
    }
  }

  lemma WeakerMark(s: State, was: seq<Line>, c: nat, text: string, ok: bool, fine: bool)
    requires OneMark(s, was, c, text, ok)
    ensures OneMark(s, was, c, text, ok && fine)
  {
  }

  lemma LongMark(s: State, opens: seq<nat>, inner: seq<Tell>, closes: seq<nat>, was: seq<Line>, c: nat, text: string,
      ok: bool)
    requires Marks(s, was, c, text, ok, false) && s.fan.None?
    ensures OneMark(Fan(s, opens, inner, closes), was, c, text, ok && FineFan(s, opens, inner, closes, c))
  {
    var s0, told := s.(ids := s.ids + 1, fan := Some(s.ids + 1)), Gets(s, opens, c);
    FanBegins(s, c, ok);
    OpeningFollows(s0, opens, {}, c, ok, false);
    LinesFan(s0, opens, Open(s.ids + 1, "draft/multiline"), {});
    FanMark(s0, opens, Open(s.ids + 1, "draft/multiline"), {}, was, c, text, ok);
    var s1 := FanOpen(s, opens);
    TellsMark(s1, inner, was, c, text, ok, told);
    SayFan(s1, inner);
    var s2, ok1 := SayAll(s1, inner), ok && FineTells(s1, inner, c, told);
    FanMark(s2, closes, Close(s2.fan.value), {}, was, c, text, ok1);
    WeakerMark(FanClose(s2, closes), was, c, text, ok1, FineFan(s, opens, inner, closes, c));
  }

  lemma OpenMark(s: State, to: nat, kind: string, was: seq<Line>, c: nat, text: string, ok: bool)
    requires OneMark(s, was, c, text, ok) && s.fan.None?
    ensures OneMark(OutOpen(s, to, kind), was, c, text, ok)
  {
    if to in s.batchers && s.out.None? {
      var s0 := s.(ids := s.ids + 1);
      BeforeMark(s0, to, None, was, c, text, ok);
      var s1 := Before(s0, to, None);
      MarkNext(s1, was, c, text, ok, to, Line(Open(s0.ids, kind), LabelTag(s1, to), None), OutOpen(s, to, kind), true);
    }
  }

  lemma CloseMark(s: State, to: nat, was: seq<Line>, c: nat, text: string, ok: bool)
    requires OneMark(s, was, c, text, ok) && s.fan.None?
    ensures OneMark(OutClose(s, to), was, c, text, ok)
  {
    if OutTag(s, to).Some? {
      BeforeMark(s, to, None, was, c, text, ok);
      var s1 := Before(s, to, None);
      MarkNext(s1, was, c, text, ok, to, Line(Close(s.out.value.id), LabelTag(s1, to), None), OutClose(s, to), true);
    }
  }

  lemma DoMark(s: State, a: Act, was: seq<Line>, c: nat, text: string, ok: bool)
    requires Marks(s, was, c, text, ok, false) && s.fan.None?
    ensures OneMark(Do(s, a), was, c, text, ok && FineAct(s, a, c))
  {
    match a
    case DoTell(t) => TellMark(s, t, t.tos, None, was, c, text, ok, false);
    case DoOpen(to, kind) => OpenMark(s, to, kind, was, c, text, ok);
    case DoClose(to) => CloseMark(s, to, was, c, text, ok);
    case DoFan(opens, inner, closes) => LongMark(s, opens, inner, closes, was, c, text, ok);
  }

  lemma {:induction false} ActsMark(s: State, acts: seq<Act>, was: seq<Line>, c: nat, text: string, ok: bool)
    requires Marks(s, was, c, text, ok, false) && s.fan.None?
    ensures Marks(DoAll(s, acts), was, c, text, ok && FineActs(s, acts, c), false)
    decreases |acts|
  {
    if acts != [] {
      DoMark(s, acts[0], was, c, text, ok);
      DoFollows(s, acts[0], c, ok);
      ActsMark(Do(s, acts[0]), acts[1..], was, c, text, ok && FineAct(s, acts[0], c));
    }
  }

  // A labeled ACK and nothing else, or a labeled line opening a batch, then
  // lines without a label, the last of them closing that batch.
  predicate Labeled(ls: seq<Line>, text: string) {
    || ls == [Line(Ack, None, Some(text))]
    || (&& |ls| >= 2 && ls[0].what.Open? && ls[0].mark == Some(text) && ls[|ls| - 1].what == Close(ls[0].what.id)
        && forall i :: 0 < i < |ls| ==> ls[i].mark.None?)
  }

  // What a labeled command queues for the client that sent it.
  function Response(s: State, c: nat, text: string, acts: seq<Act>): seq<Line> {
    var before, after := Lines(s.wire, c), Lines(Command(s, c, text, acts).wire, c);
    if |before| <= |after| then after[|before|..] else []
  }

  // Whether what was queued before is well nested (`ok`) or not.
  lemma ResponseIs(s: State, c: nat, text: string, acts: seq<Act>, ok: bool)
    requires Follows(s, c, ok, false) && Idle(s) && text != "" && c in s.batchers && c in s.labelers
    ensures Lines(Command(s, c, text, acts).wire, c) == Lines(s.wire, c) + Response(s, c, text, acts)
    ensures Labeled(Response(s, c, text, acts), Kept(text))
    ensures ok && FineActs(LabelBegin(s, c, text), acts, c) ==> Response(s, c, text, acts)[0].batch.None?
  {
    var s1, was := LabelBegin(s, c, text), Lines(s.wire, c);
    BeginFollows(s, c, text, c, ok);
    ActsMark(s1, acts, was, c, Kept(text), ok);
    ActsFollow(s1, acts, c, ok);
    EndShape(DoAll(s1, acts), was, c, Kept(text), ok && FineActs(s1, acts, c));
  }

  lemma EndShape(s: State, was: seq<Line>, c: nat, text: string, ok: bool)
    requires OneMark(s, was, c, text, ok) && s.fan.None? && (Pending(s, c) ==> OutTag(s, c).None?)
    ensures var after := Lines(LabelEnd(s).wire, c);
            && was < after && after == was + after[|was|..] && Labeled(after[|was|..], text)
            && (ok ==> after[|was|].batch.None?)
  {
    var l := LastLine(s.reply.value, TagNoLabel(s, c));
    LinesNext(s.wire, Sent(c, l), c);
    var mid, after := Lines(s.wire, c), Lines(LabelEnd(s).wire, c);
    assert after == mid + [l];
    assert after[|was|..] == mid[|was|..] + [l];
  }

  // ----- Taking the batches away --------------------------------------------

  // What a client is told by a line to these.
  function Said(tos: seq<Rcpt>, what: Kind, c: nat): seq<Kind> {
    if tos == [] then [] else (if tos[0].client == c then [what] else []) + Said(tos[1..], what, c)
  }

  function Erased(s: State, c: nat): seq<Kind> { Erase(Lines(s.wire, c)) }

  lemma ErasedNext(s: State, to: nat, l: Line, t: State, c: nat)
    requires t.wire == s.wire + [Sent(to, l)]
    ensures Erased(t, c) == Erased(s, c) + (if to == c && l.what.Plain? then [l.what] else [])
  {
    LinesNext(s.wire, Sent(to, l), c);
    Next(Lines(s.wire, c), l);
    assert Lines(s.wire, c) + [] == Lines(s.wire, c);
  }

  lemma BeforeErased(s: State, to: nat, tag: Option<nat>, c: nat)
    ensures Erased(Before(s, to, tag), c) == Erased(s, c)
  {
    if Pending(s, to) {
      var t := Before(s, to, tag);
      ErasedNext(s, to, t.wire[|s.wire|].line, t, c);
    }
  }

  lemma {:induction false} TellErased(s: State, t: Tell, tos: seq<Rcpt>, cache: Option<Cache>, c: nat)
    ensures Erased(TellTo(s, t, tos, cache), c) == Erased(s, c) + Said(tos, Plain(t.text, t.prio), c)
    decreases |tos|
  {
    if tos != [] {
      var to, next := tos[0].client, TellOne(s, t, tos[0], cache);
      BeforeErased(s, to, TagNoLabel(s, to), c);
      ErasedNext(Ready(s, to), to, Line(Plain(t.text, t.prio), TagOf(s, t, tos[0], cache), None), next, c);
      TellErased(next, t, tos[1..], NextCache(s, t, tos[0], cache), c);
    }
  }

  lemma {:induction false} FanErased(s: State, tos: seq<nat>, what: Kind, done: set<nat>, c: nat)
    requires !what.Plain?
    ensures Erased(FanLines(s, tos, what, done), c) == Erased(s, c)
    decreases |tos|
  {
    if tos != [] {
      var to := tos[0];
      if to in done || to !in s.multis {
        FanErased(s, tos[1..], what, done, c);
      } else {
        BeforeErased(s, to, OutTag(s, to), c);
        var s1 := FanReady(s, to);
        var l := Line(what, OwnTag(s1, to), None);
        ErasedNext(s1, to, l, Put(s1, to, l), c);
        FanErased(Put(s1, to, l), tos[1..], what, done + {to}, c);
      }
    }
  }

  // Two runs of the same handler, one with a label and one without.
  predicate Alike(s: State, t: State, c: nat) {
    && s.batchers == t.batchers
    && s.out.Some? == t.out.Some? && (s.out.Some? ==> s.out.value.client == t.out.value.client)
    && Erased(s, c) == Erased(t, c)
  }

  lemma {:induction false} TellsAlike(s: State, t: State, ts: seq<Tell>, c: nat)
    requires Alike(s, t, c)
    ensures Alike(SayAll(s, ts), SayAll(t, ts), c)
    decreases |ts|
  {
    if ts != [] {
      TellErased(s, ts[0], ts[0].tos, None, c);
      TellErased(t, ts[0], ts[0].tos, None, c);
      TellFan(s, ts[0], ts[0].tos, None);
      TellFan(t, ts[0], ts[0].tos, None);
      TellsAlike(Say(s, ts[0]), Say(t, ts[0]), ts[1..], c);
    }
  }

  lemma FanAlike(s: State, t: State, opens: seq<nat>, inner: seq<Tell>, closes: seq<nat>, c: nat)
    requires Alike(s, t, c)
    ensures Alike(Fan(s, opens, inner, closes), Fan(t, opens, inner, closes), c)
  {
    FanOpenErased(s, opens, c);
    FanOpenErased(t, opens, c);
    TellsAlike(FanOpen(s, opens), FanOpen(t, opens), inner, c);
    SayFan(FanOpen(s, opens), inner);
    SayFan(FanOpen(t, opens), inner);
    FanCloseErased(SayAll(FanOpen(s, opens), inner), closes, c);
    FanCloseErased(SayAll(FanOpen(t, opens), inner), closes, c);
  }

  lemma FanOpenErased(s: State, opens: seq<nat>, c: nat)
    ensures var t := FanOpen(s, opens);
            t.fan.Some? && t.out == s.out && t.batchers == s.batchers && Erased(t, c) == Erased(s, c)
  {
    var s0 := s.(ids := s.ids + 1, fan := Some(s.ids + 1));
    LinesFan(s0, opens, Open(s.ids + 1, "draft/multiline"), {});
    FanErased(s0, opens, Open(s.ids + 1, "draft/multiline"), {}, c);
  }

  lemma FanCloseErased(s: State, closes: seq<nat>, c: nat)
    requires s.fan.Some?
    ensures var t := FanClose(s, closes);
            t.out == s.out && t.batchers == s.batchers && Erased(t, c) == Erased(s, c)
  {
    LinesFan(s, closes, Close(s.fan.value), {});
    FanErased(s, closes, Close(s.fan.value), {}, c);
  }

  lemma OpenErased(s: State, to: nat, kind: string, c: nat)
    ensures Erased(OutOpen(s, to, kind), c) == Erased(s, c)
  {
    if to in s.batchers && s.out.None? {
      var s0 := s.(ids := s.ids + 1);
      BeforeErased(s0, to, FanTag(s, to), c);
      var s1, t := Before(s0, to, FanTag(s, to)), OutOpen(s, to, kind);
      ErasedNext(s1, to, t.wire[|s1.wire|].line, t, c);
    }
  }

  lemma CloseErased(s: State, to: nat, c: nat)
    ensures Erased(OutClose(s, to), c) == Erased(s, c)
  {
    if OutTag(s, to).Some? {
      BeforeErased(s, to, FanTag(s, to), c);
      var s1, t := Before(s, to, FanTag(s, to)), OutClose(s, to);
      ErasedNext(s1, to, t.wire[|s1.wire|].line, t, c);
    }
  }

  lemma DoAlike(s: State, t: State, a: Act, c: nat)
    requires Alike(s, t, c)
    ensures Alike(Do(s, a), Do(t, a), c)
  {
    match a
    case DoTell(tell) =>
      TellsAlike(s, t, [tell], c);
      assert SayAll(s, [tell]) == SayAll(Say(s, tell), []) && SayAll(t, [tell]) == SayAll(Say(t, tell), []);
    case DoOpen(to, kind) =>
      OpenErased(s, to, kind, c);
      OpenErased(t, to, kind, c);
    case DoClose(to) =>
      CloseErased(s, to, c);
      CloseErased(t, to, c);
    case DoFan(opens, inner, closes) => FanAlike(s, t, opens, inner, closes, c);
  }

  lemma {:induction false} ActsAlike(s: State, t: State, acts: seq<Act>, c: nat)
    requires Alike(s, t, c)
    ensures Alike(DoAll(s, acts), DoAll(t, acts), c)
    decreases |acts|
  {
    if acts != [] {
      DoAlike(s, t, acts[0], c);
      ActsAlike(Do(s, acts[0]), Do(t, acts[0]), acts[1..], c);
    }
  }

  lemma EndErased(s: State, d: nat)
    ensures Erased(LabelEnd(s), d) == Erased(s, d)
  {
    if s.reply.Some? {
      ErasedNext(s, s.reply.value.client, LabelEnd(s).wire[|s.wire|].line, LabelEnd(s), d);
    }
  }

  // Take away the batch lines, the ACKs and the tags, and what a labeled
  // command queues for a client is exactly what the same command would have
  // with any other label, or with none at all.
  lemma LabelOnlyFrames(s: State, c: nat, text: string, other: string, acts: seq<Act>, d: nat)
    ensures Erased(Command(s, c, text, acts), d) == Erased(Command(s, c, other, acts), d)
  {
    var s1, t1 := LabelBegin(s, c, text), LabelBegin(s, c, other);
    ActsAlike(s1, t1, acts, d);
    EndErased(DoAll(s1, acts), d);
    EndErased(DoAll(t1, acts), d);
  }
}
