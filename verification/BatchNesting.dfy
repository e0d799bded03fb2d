/**
 * When what is queued for a client is properly nested, exactly: its handler has
 * closed what it opened, and nobody was told anything inside the batch of a
 * long message who was not told of that batch, or is in another one too.
 */
module BatchNesting {
  import opened Options
  import opened Batch

  // ----- The batches a client has open --------------------------------------

  function OwnStack(s: State, d: nat): Nesting {
    var around := if LabelTag(s, d).Some? then Inside(LabelTag(s, d).value, Outside) else Outside;
    if OutTag(s, d).Some? then Inside(OutTag(s, d).value, around) else around
  }

  // `told`: the batch of the long message under way was opened to this client.
  function Stack(s: State, d: nat, told: bool): Nesting {
    if told && s.fan.Some? then Inside(s.fan.value, OwnStack(s, d)) else OwnStack(s, d)
  }

  predicate Live(s: State, id: nat) {
    || (s.reply.Some? && s.reply.value.batch == Some(id))
    || (s.out.Some? && s.out.value.id == id)
    || s.fan == Some(id)
  }

  // The batches under way have different names, and a label that waits has had
  // nothing to name: so a command's batch never encloses it.
  ghost predicate Sane(s: State) {
    && (forall id: nat :: Live(s, id) ==> id <= s.ids)
    && (s.reply.Some? && s.reply.value.batch.Some? && s.out.Some? ==> s.reply.value.batch.value != s.out.value.id)
    && (s.reply.Some? && s.reply.value.batch.Some? && s.fan.Some? ==> s.reply.value.batch.value != s.fan.value)
    && (s.out.Some? && s.fan.Some? ==> s.out.value.id != s.fan.value)
    && (s.reply.Some? && s.reply.value.batch.None? ==> OutTag(s, s.reply.value.client).None?)
  }

  // Not nested, and never to be: a line was not where it says, or a batch that
  // nothing will close any more is the innermost.
  predicate Lost(s: State, d: nat) {
    match Nest(Normals(s, d))
    case None => true
    case Some(n) => n.Inside? && n.id <= s.ids && !Live(s, n.id)
  }

  ghost predicate Follows(s: State, d: nat, ok: bool, told: bool) {
    && Sane(s) && (told ==> s.fan.Some? && !Pending(s, d))
    && if ok then Nest(Normals(s, d)) == Some(Stack(s, d, told)) else Lost(s, d)
  }

  // Nothing comes alive again.
  ghost predicate Later(s: State, t: State) {
    s.ids <= t.ids && forall id: nat :: id <= s.ids && Live(t, id) ==> Live(s, id)
  }

  predicate StaysDead(s: State, t: State, d: nat) {
    match Nest(Normals(s, d))
    case None => true
    case Some(n) => n.Inside? ==> !Live(t, n.id)
  }

  predicate LiveLine(s: State, l: Line) {
    && (l.batch.Some? ==> Live(s, l.batch.value))
    && (l.what.Close? ==> Live(s, l.what.id))
  }

  lemma LostEnters(s: State, n: Nesting, l: Line)
    requires n.Inside? && !Live(s, n.id) && LiveLine(s, l)
    ensures Enter(n, l).None?
  {
  }

  // One line goes out, and the state moves with it.
  lemma PutFollows(s: State, t: State, to: nat, l: Line, d: nat, ok: bool, told: bool, fine: bool, now: bool)
    requires Follows(s, d, ok, told) && t.wire == s.wire + [Sent(to, l)] && LiveLine(s, l)
    requires s.ids <= t.ids && (!ok ==> StaysDead(s, t, d))
    requires Sane(t) && (now ==> t.fan.Some? && !Pending(t, d))
    requires to != d || Prio(l) ==> fine && Stack(t, d, now) == Stack(s, d, told)
    requires to == d && !Prio(l) ==> Enter(Stack(s, d, told), l) == if fine then Some(Stack(t, d, now)) else None
    ensures Follows(t, d, ok && fine, now)
    ensures !ok ==> Nest(Normals(t, d)).None? || Normals(t, d) == Normals(s, d)
  {
    PutNormals(s, t, to, l, d);
    if !ok && to == d && !Prio(l) && Nest(Normals(s, d)).Some? {
      LostEnters(s, Nest(Normals(s, d)).value, l);
    }
  }

  // ----- A label's first line -----------------------------------------------

  lemma BeforeSane(s: State, to: nat, tag: Option<nat>)
    requires Sane(s)
    ensures var t := Before(s, to, tag);
            && Sane(t) && Later(s, t) && !Pending(t, to) && t.fan == s.fan && t.out == s.out
            && (forall d :: OutTag(t, d) == OutTag(s, d) && FanTag(t, d) == FanTag(s, d))
            && (forall d :: d != to ==> LabelTag(t, d) == LabelTag(s, d) && Pending(t, d) == Pending(s, d))
  {
    assert s.out.Some? ==> Live(s, s.out.value.id);
    assert s.fan.Some? ==> Live(s, s.fan.value);
    var t := Before(s, to, tag);
    forall id: nat | Live(t, id) ensures id <= t.ids && (id <= s.ids ==> Live(s, id)) {
      assert Live(s, id) || id == s.ids + 1;
    }
  }

  lemma BeforeFollows(s: State, to: nat, tag: Option<nat>, d: nat, ok: bool, told: bool)
    requires Follows(s, d, ok, told) && (tag.Some? ==> Live(s, tag.value))
    ensures Follows(Before(s, to, tag), d, ok && (to == d && Pending(s, d) ==> tag.None?), told)
    ensures !ok ==> Nest(Normals(Before(s, to, tag), d)).None? || Normals(Before(s, to, tag), d) == Normals(s, d)
  {
    BeforeSane(s, to, tag);
    if Pending(s, to) {
      var t := Before(s, to, tag);
      var l := Line(Open(s.ids + 1, "labeled-response"), tag, Some(s.reply.value.text));
      assert !Has(Outside, s.ids + 1);
      PutFollows(s, t, to, l, d, ok, told, to == d ==> tag.None?, told);
    }
  }

  // ----- Lines to one client or many ----------------------------------------

  // The innermost batch a client has been told of.
  function Innermost(s: State, d: nat, told: bool): Option<nat> {
    if told && s.fan.Some? then s.fan else OwnTag(s, d)
  }

  lemma InnermostIs(s: State, d: nat, told: bool)
    ensures Top(Stack(s, d, told)) == Innermost(s, d, told)
  {
  }

  // Those of d among the recipients are sent the line with that batch, and a
  // label that waits for it is not opened inside one it was not told of.
  predicate FineTo(s: State, t: Tell, tos: seq<Rcpt>, cache: Option<Cache>, d: nat, told: bool)
    decreases |tos|
  {
    tos == []
    || (&& FineOne(s, t, tos[0], cache, d, told)
        && FineTo(TellOne(s, t, tos[0], cache), t, tos[1..], NextCache(s, t, tos[0], cache), d, told))
  }

  predicate FineOne(s: State, t: Tell, to: Rcpt, cache: Option<Cache>, d: nat, told: bool) {
    to.client == d ==>
      && (Pending(s, d) ==> FanTag(s, d).None?)
      && (t.prio || TagOf(s, t, to, cache) == Innermost(Ready(s, d), d, told))
  }

  predicate FineTells(s: State, ts: seq<Tell>, d: nat, told: bool)
    decreases |ts|
  {
    ts == [] || (FineTo(s, ts[0], ts[0].tos, None, d, told) && FineTells(Say(s, ts[0]), ts[1..], d, told))
  }

  predicate CacheLive(s: State, cache: Option<Cache>) {
    cache.Some? && cache.value.tag.Some? ==> Live(s, cache.value.tag.value)
  }

  lemma TagLive(s: State, to: nat)
    ensures Tag(s, to).Some? ==> Live(s, Tag(s, to).value)
    ensures TagNoLabel(s, to).Some? ==> Live(s, TagNoLabel(s, to).value)
    ensures TagNoOut(s, to).Some? ==> Live(s, TagNoOut(s, to).value)
    ensures OwnTag(s, to).Some? ==> Live(s, OwnTag(s, to).value)
    ensures OutTag(s, to).Some? ==> Live(s, OutTag(s, to).value)
  {
  }

  lemma BeforeLive(s: State, to: nat, tag: Option<nat>, id: nat)
    requires Live(s, id)
    ensures Live(Before(s, to, tag), id)
  {
  }

  lemma SaidFollows(s: State, to: nat, l: Line, d: nat, ok: bool, told: bool)
    requires Follows(s, d, ok, told) && l.what.Plain? && LiveLine(s, l)
    ensures Follows(Put(s, to, l), d, ok && (to == d && !Prio(l) ==> l.batch == Innermost(s, d, told)), told)
  {
    InnermostIs(s, d, told);
    var t := Put(s, to, l);
    assert Stack(t, d, told) == Stack(s, d, told);
    assert forall id: nat :: Live(t, id) <==> Live(s, id);
    PutFollows(s, t, to, l, d, ok, told, to == d && !Prio(l) ==> l.batch == Innermost(s, d, told), told);
  }

  lemma OneLive(s: State, t: Tell, to: Rcpt, cache: Option<Cache>)
    requires CacheLive(s, cache)
    ensures TagOf(s, t, to, cache).Some? ==> Live(Ready(s, to.client), TagOf(s, t, to, cache).value)
    ensures CacheLive(TellOne(s, t, to, cache), NextCache(s, t, to, cache))
  {
    TagLive(Ready(s, to.client), to.client);
    if cache.Some? && cache.value.tag.Some? {
      BeforeLive(s, to.client, TagNoLabel(s, to.client), cache.value.tag.value);
    }
  }

  // The label of d, if it is opened now, is opened where d knows it is.
  predicate FineReady(s: State, to: nat, d: nat) {
    to == d && Pending(s, d) ==> FanTag(s, d).None?
  }

  lemma ReadyFollows(s: State, to: nat, d: nat, ok: bool, told: bool)
    requires Follows(s, d, ok, told)
    ensures Follows(Ready(s, to), d, ok && FineReady(s, to, d), told)
  {
    TagLive(s, to);
    BeforeFollows(s, to, TagNoLabel(s, to), d, ok, told);
    assert to == d && Pending(s, d) ==> TagNoLabel(s, to) == FanTag(s, d);
  }

  lemma OneFollows(s: State, t: Tell, to: Rcpt, cache: Option<Cache>, d: nat, ok: bool, told: bool)
    requires Follows(s, d, ok, told) && CacheLive(s, cache)
    ensures Follows(TellOne(s, t, to, cache), d, ok && FineOne(s, t, to, cache, d, told), told)
  {
    ReadyFollows(s, to.client, d, ok, told);
    OneLive(s, t, to, cache);
    SaidFollows(Ready(s, to.client), to.client, Line(Plain(t.text, t.prio), TagOf(s, t, to, cache), None), d,
                ok && FineReady(s, to.client, d), told);
  }

  lemma {:induction false} TellFollows(s: State, t: Tell, tos: seq<Rcpt>, cache: Option<Cache>, d: nat, ok: bool,
      told: bool)
    requires Follows(s, d, ok, told) && CacheLive(s, cache)
    ensures Follows(TellTo(s, t, tos, cache), d, ok && FineTo(s, t, tos, cache, d, told), told)
    decreases |tos|
  {
    if tos != [] {
      OneFollows(s, t, tos[0], cache, d, ok, told);
      OneLive(s, t, tos[0], cache);
      TellFollows(TellOne(s, t, tos[0], cache), t, tos[1..], NextCache(s, t, tos[0], cache), d,
                  ok && FineOne(s, t, tos[0], cache, d, told), told);
    }
  }

  lemma {:induction false} TellsFollow(s: State, ts: seq<Tell>, d: nat, ok: bool, told: bool)
    requires Follows(s, d, ok, told)
    ensures Follows(SayAll(s, ts), d, ok && FineTells(s, ts, d, told), told)
    decreases |ts|
  {
    if ts != [] {
      TellFollows(s, ts[0], ts[0].tos, None, d, ok, told);
      TellsFollow(Say(s, ts[0]), ts[1..], d, ok && FineTo(s, ts[0], ts[0].tos, None, d, told), told);
    }
  }

  // ----- A long message -----------------------------------------------------

  // Those among some clients that get a line of the batch of a long message.
  predicate Gets(s: State, tos: seq<nat>, d: nat) { d in tos && d in s.multis }

  lemma OwnStackIs(s: State, d: nat)
    requires Sane(s)
    ensures Top(OwnStack(s, d)) == OwnTag(s, d)
    ensures s.fan.Some? ==> !Has(OwnStack(s, d), s.fan.value)
  {
    if s.fan.Some? {
      assert !Has(Outside, s.fan.value);
      assert LabelTag(s, d).Some? ==> !Has(Inside(LabelTag(s, d).value, Outside), s.fan.value);
    }
  }

  // Ready for a line of that batch.
  function FanReady(s: State, to: nat): State { Before(s, to, OutTag(s, to)) }

  lemma FanReadyFollows(s: State, to: nat, d: nat, ok: bool, told: bool)
    requires Follows(s, d, ok, told)
    ensures Follows(FanReady(s, to), d, ok, told) && !Pending(FanReady(s, to), to)
    ensures FanReady(s, to).fan == s.fan && FanReady(s, to).multis == s.multis
  {
    TagLive(s, to);
    BeforeFollows(s, to, OutTag(s, to), d, ok, told);
    BeforeSane(s, to, OutTag(s, to));
  }

  lemma OpenedFollows(s: State, to: nat, d: nat, ok: bool, told: bool)
    requires Follows(s, d, ok, told) && s.fan.Some? && !Pending(s, to) && (to == d ==> !told)
    ensures Follows(Put(s, to, Line(Open(s.fan.value, "draft/multiline"), OwnTag(s, to), None)), d, ok, told || to == d)
  {
    var l := Line(Open(s.fan.value, "draft/multiline"), OwnTag(s, to), None);
    TagLive(s, to);
    OwnStackIs(s, d);
    var t := Put(s, to, l);
    assert forall id: nat :: Live(t, id) <==> Live(s, id);
    assert OwnStack(t, d) == OwnStack(s, d);
    PutFollows(s, t, to, l, d, ok, told, true, told || to == d);
  }

  lemma ClosedFollows(s: State, to: nat, d: nat, ok: bool, told: bool)
    requires Follows(s, d, ok, told) && s.fan.Some? && !Pending(s, to)
    ensures Follows(Put(s, to, Line(Close(s.fan.value), OwnTag(s, to), None)), d, ok && (to == d ==> told),
                    told && to != d)
  {
    var l := Line(Close(s.fan.value), OwnTag(s, to), None);
    TagLive(s, to);
    OwnStackIs(s, d);
    var t := Put(s, to, l);
    assert forall id: nat :: Live(t, id) <==> Live(s, id);
    assert OwnStack(t, d) == OwnStack(s, d);
    PutFollows(s, t, to, l, d, ok, told, to == d ==> told, told && to != d);
  }

  lemma {:induction false} OpeningFollows(s: State, tos: seq<nat>, done: set<nat>, d: nat, ok: bool, told: bool)
    requires Follows(s, d, ok, told) && s.fan.Some? && (told <==> d in done)
    ensures Follows(FanLines(s, tos, Open(s.fan.value, "draft/multiline"), done), d, ok, told || Gets(s, tos, d))
    decreases |tos|
  {
    if tos != [] {
      var to := tos[0];
      assert d in tos <==> d == to || d in tos[1..];
      if to in done || to !in s.multis {
        OpeningFollows(s, tos[1..], done, d, ok, told);
      } else {
        FanReadyFollows(s, to, d, ok, told);
        var s1 := FanReady(s, to);
        OpenedFollows(s1, to, d, ok, told);
        OpeningFollows(Put(s1, to, Line(Open(s.fan.value, "draft/multiline"), OwnTag(s1, to), None)), tos[1..],
                       done + {to}, d, ok, told || to == d);
      }
    }
  }

  lemma {:induction false} ClosingFollows(s: State, tos: seq<nat>, done: set<nat>, d: nat, ok: bool, told: bool)
    requires Follows(s, d, ok, told) && s.fan.Some?
    ensures var gets := Gets(s, tos, d) && d !in done;
            Follows(FanLines(s, tos, Close(s.fan.value), done), d, ok && (gets ==> told), told && !gets)
    decreases |tos|
  {
    if tos != [] {
      var to := tos[0];
      assert d in tos <==> d == to || d in tos[1..];
      if to in done || to !in s.multis {
        ClosingFollows(s, tos[1..], done, d, ok, told);
      } else {
        FanReadyFollows(s, to, d, ok, told);
        var s1 := FanReady(s, to);
        ClosedFollows(s1, to, d, ok, told);
        ClosingFollows(Put(s1, to, Line(Close(s.fan.value), OwnTag(s1, to), None)), tos[1..],
                       done + {to}, d, ok && (to == d ==> told), told && to != d);
      }
    }
  }

  lemma FanBegins(s: State, d: nat, ok: bool)
    requires Follows(s, d, ok, false) && s.fan.None?
    ensures Follows(s.(ids := s.ids + 1, fan := Some(s.ids + 1)), d, ok, false)
  {
    var t := s.(ids := s.ids + 1, fan := Some(s.ids + 1));
    FanBeginsSane(s);
    assert forall id: nat :: Live(t, id) <==> Live(s, id) || id == s.ids + 1;
    assert OutTag(t, d) == OutTag(s, d) && LabelTag(t, d) == LabelTag(s, d);
  }

  lemma FanEnds(s: State, d: nat, ok: bool, told: bool)
    requires Follows(s, d, ok, told) && s.fan.Some?
    ensures Follows(s.(fan := None), d, ok && !told, false)
  {
    var t := s.(fan := None);
    assert forall id: nat :: Live(t, id) ==> Live(s, id);
    assert Live(s, s.fan.value) && !Live(t, s.fan.value);
  }

  // Whoever is told anything in it is told of the batch if and only if it is
  // the one they are then told they are in; and it is closed to those it was
  // opened to.
  predicate FineFan(s: State, opens: seq<nat>, inner: seq<Tell>, closes: seq<nat>, d: nat) {
    && FineTells(FanOpen(s, opens), inner, d, Gets(s, opens, d))
    && (Gets(s, opens, d) <==> Gets(s, closes, d))
  }

  lemma FanFollows(s: State, opens: seq<nat>, inner: seq<Tell>, closes: seq<nat>, d: nat, ok: bool)
    requires Follows(s, d, ok, false) && s.fan.None?
    ensures Follows(Fan(s, opens, inner, closes), d, ok && FineFan(s, opens, inner, closes, d), false)
  {
    var s0, told := s.(ids := s.ids + 1, fan := Some(s.ids + 1)), Gets(s, opens, d);
    FanBegins(s, d, ok);
    OpeningFollows(s0, opens, {}, d, ok, false);
    LinesFan(s0, opens, Open(s.ids + 1, "draft/multiline"), {});
    var s1 := FanOpen(s, opens);
    TellsFollow(s1, inner, d, ok, told);
    SayFan(s1, inner);
    var s2, ok1 := SayAll(s1, inner), ok && FineTells(s1, inner, d, told);
    ClosingFollows(s2, closes, {}, d, ok1, told);
    LinesFan(s2, closes, Close(s2.fan.value), {});
    FanEnds(FanLines(s2, closes, Close(s2.fan.value), {}), d, ok1 && (Gets(s, closes, d) ==> told),
            told && !Gets(s, closes, d));
  }

  // ----- A command's own batch ----------------------------------------------

  lemma OpenFollows(s: State, to: nat, kind: string, d: nat, ok: bool)
    requires Follows(s, d, ok, false) && s.fan.None?
    ensures Follows(OutOpen(s, to, kind), d, ok, false) && OutOpen(s, to, kind).fan.None?
  {
    if to in s.batchers && s.out.None? {
      var id := s.ids + 1;
      var s0 := s.(ids := id);
      assert forall n: nat :: Live(s0, n) <==> Live(s, n);
      assert OwnStack(s0, d) == OwnStack(s, d);
      BeforeFollows(s0, to, None, d, ok, false);
      BeforeSane(s0, to, None);
      var s1, t := Before(s0, to, None), OutOpen(s, to, kind);
      NewOut(s1, t, to, id, kind, d, ok);
    }
  }

  lemma NewOut(s: State, t: State, to: nat, id: nat, kind: string, d: nat, ok: bool)
    requires Follows(s, d, ok, false) && s.fan.None? && s.out.None? && !Pending(s, to)
    requires id <= s.ids && !Live(s, id)
    requires !ok && Nest(Normals(s, d)).Some? ==> Top(Nest(Normals(s, d)).value) != Some(id)
    requires t == Put(s.(out := Some(OutCtx(to, id))), to, Line(Open(id, kind), LabelTag(s, to), None))
    ensures Follows(t, d, ok, false)
  {
    assert !Has(Outside, id) && !Has(OwnStack(s, d), id);
    assert forall n: nat :: Live(t, n) <==> Live(s, n) || n == id;
    PutFollows(s, t, to, Line(Open(id, kind), LabelTag(s, to), None), d, ok, false, true, false);
  }

  lemma CloseFollows(s: State, to: nat, d: nat, ok: bool)
    requires Follows(s, d, ok, false) && s.fan.None?
    ensures Follows(OutClose(s, to), d, ok, false) && OutClose(s, to).fan.None?
  {
    if OutTag(s, to).Some? {
      assert !Pending(s, to);
      var l := Line(Close(s.out.value.id), LabelTag(s, to), None);
      TagLive(s, to);
      assert forall id: nat :: Live(OutClose(s, to), id) ==> Live(s, id);
      PutFollows(s, OutClose(s, to), to, l, d, ok, false, true, false);
    }
  }

  // ----- A command ----------------------------------------------------------

  predicate FineAct(s: State, a: Act, d: nat) {
    match a
    case DoTell(t) => FineTo(s, t, t.tos, None, d, false)
    case DoFan(opens, inner, closes) => FineFan(s, opens, inner, closes, d)
    case _ => true
  }

  predicate FineActs(s: State, acts: seq<Act>, d: nat)
    decreases |acts|
  {
    acts == [] || (FineAct(s, acts[0], d) && FineActs(Do(s, acts[0]), acts[1..], d))
  }

  lemma DoFollows(s: State, a: Act, d: nat, ok: bool)
    requires Follows(s, d, ok, false) && s.fan.None?
    ensures Follows(Do(s, a), d, ok && FineAct(s, a, d), false) && Do(s, a).fan.None?
  {
    match a
    case DoTell(t) =>
      TellFollows(s, t, t.tos, None, d, ok, false);
      TellFan(s, t, t.tos, None);
    case DoOpen(to, kind) => OpenFollows(s, to, kind, d, ok);
    case DoClose(to) => CloseFollows(s, to, d, ok);
    case DoFan(opens, inner, closes) => FanFollows(s, opens, inner, closes, d, ok);
  }

  lemma {:induction false} ActsFollow(s: State, acts: seq<Act>, d: nat, ok: bool)
    requires Follows(s, d, ok, false) && s.fan.None?
    ensures Follows(DoAll(s, acts), d, ok && FineActs(s, acts, d), false) && DoAll(s, acts).fan.None?
    decreases |acts|
  {
    if acts != [] {
      DoFollows(s, acts[0], d, ok);
      ActsFollow(Do(s, acts[0]), acts[1..], d, ok && FineAct(s, acts[0], d));
    }
  }

  // Nothing is open and no label is in flight.
  predicate Idle(s: State) {
    s.reply.None? && s.out.None? && s.fan.None?
  }

  lemma BeginFollows(s: State, c: nat, text: string, d: nat, ok: bool)
    requires Follows(s, d, ok, false) && Idle(s)
    ensures Follows(LabelBegin(s, c, text), d, ok, false)
  {
    var t := LabelBegin(s, c, text);
    assert forall id: nat :: !Live(t, id);
  }

  // The label's last line is where it should be exactly when the command has
  // closed its own batch to that client.
  predicate FineEnd(s: State, d: nat) {
    s.reply.Some? && s.reply.value.client == d ==> OutTag(s, d).None?
  }

  lemma EndFollows(s: State, d: nat, ok: bool)
    requires Follows(s, d, ok, false) && s.fan.None?
    ensures Follows(LabelEnd(s), d, ok && FineEnd(s, d), false)
  {
    if s.reply.Some? {
      var l := s.reply.value;
      var line := LastLine(l, TagNoLabel(s, l.client));
      TagLive(s, l.client);
      var t := LabelEnd(s);
      assert forall id: nat :: Live(t, id) ==> Live(s, id);
      PutFollows(s, t, l.client, line, d, ok, false, FineEnd(s, d), false);
    }
  }

  // After a command what is queued in order for a client is well nested if and
  // only if it was before (`ok`), everything it was told was in the innermost
  // batch it had been told of, and no batch of the command's own was left open
  // to it.
  lemma CommandNestsIff(s: State, c: nat, text: string, acts: seq<Act>, d: nat, ok: bool)
    requires Follows(s, d, ok, false) && Idle(s)
    ensures var s1 := LabelBegin(s, c, text);
            WellNested(Normals(Command(s, c, text, acts), d)) <==>
              ok && FineActs(s1, acts, d) && OutTag(DoAll(s1, acts), d).None?
  {
    var s1 := LabelBegin(s, c, text);
    BeginFollows(s, c, text, d, ok);
    ActsFollow(s1, acts, d, ok);
    EndFollows(DoAll(s1, acts), d, ok && FineActs(s1, acts, d));
  }

  // ----- Command after command ----------------------------------------------

  datatype Cmd = Cmd(client: nat, text: string, acts: seq<Act>)

  function Handled(s: State, k: Cmd): State { DoAll(LabelBegin(s, k.client, k.text), k.acts) }

  function Serve(s: State, cmds: seq<Cmd>): State
    decreases |cmds|
  {
    if cmds == [] then s else Serve(LabelEnd(Handled(s, cmds[0])), cmds[1..])
  }

  // Every command closes what it opens.
  predicate Tidy(s: State, cmds: seq<Cmd>)
    decreases |cmds|
  {
    cmds == [] || (Handled(s, cmds[0]).out.None? && Tidy(LabelEnd(Handled(s, cmds[0])), cmds[1..]))
  }

  predicate FineServe(s: State, cmds: seq<Cmd>, d: nat)
    decreases |cmds|
  {
    || cmds == []
    || (var k := cmds[0];
        && FineActs(LabelBegin(s, k.client, k.text), k.acts, d)
        && FineServe(LabelEnd(Handled(s, k)), cmds[1..], d))
  }

  lemma {:induction false} ServeFollows(s: State, cmds: seq<Cmd>, d: nat, ok: bool)
    requires Follows(s, d, ok, false) && Idle(s) && Tidy(s, cmds)
    ensures Follows(Serve(s, cmds), d, ok && FineServe(s, cmds, d), false) && Idle(Serve(s, cmds))
    decreases |cmds|
  {
    if cmds != [] {
      var k := cmds[0];
      var s1 := LabelBegin(s, k.client, k.text);
      BeginFollows(s, k.client, k.text, d, ok);
      ActsFollow(s1, k.acts, d, ok);
      var ok1 := ok && FineActs(s1, k.acts, d);
      EndFollows(Handled(s, k), d, ok1);
      ServeFollows(LabelEnd(Handled(s, k)), cmds[1..], d, ok1);
    }
  }

  predicate Fresh(s: State) { Idle(s) && s.wire == [] }

  // Over any commands from any clients, labeled or not, that close the batches
  // they open: what is queued in order for a client is well nested if and only
  // if no command told it anything elsewhere than where it knows it is.
  lemma ServeNestsIff(s: State, cmds: seq<Cmd>, d: nat)
    requires Fresh(s) && Tidy(s, cmds)
    ensures WellNested(Normals(Serve(s, cmds), d)) <==> FineServe(s, cmds, d)
  {
    assert forall id: nat :: !Live(s, id);
    ServeFollows(s, cmds, d, true);
  }

  // ----- What that comes to -------------------------------------------------

  // At most one client is in a batch of its own.
  predicate OneClient(s: State) {
    s.out.Some? && s.reply.Some? ==> s.out.value.client == s.reply.value.client
  }

  // What was made out for the last recipient is what it would be for any that
  // looks the same.
  ghost predicate CacheFits(s: State, cache: Option<Cache>) {
    && (cache.Some? && !cache.value.tagged ==> cache.value.tag.None?)
    && (cache.Some? && cache.value.tagged ==> exists c :: OwnTag(s, c).Some? && cache.value.tag == OwnTag(s, c))
  }

  lemma {:induction false} QuietIsFine(s: State, t: Tell, tos: seq<Rcpt>, cache: Option<Cache>, d: nat)
    requires s.fan.None? && (t.own || (OneClient(s) && CacheFits(s, cache)))
    ensures FineTo(s, t, tos, cache, d, false)
    decreases |tos|
  {
    if tos != [] {
      var c := tos[0].client;
      var s1, next := Ready(s, c), TellOne(s, t, tos[0], cache);
      if !t.own {
        assert forall x, y :: OwnTag(s1, x).Some? && OwnTag(s1, y).Some? ==> OwnTag(s1, x) == OwnTag(s1, y);
        if cache.Some? && cache.value.tagged {
          var x :| OwnTag(s, x).Some? && cache.value.tag == OwnTag(s, x);
          assert OwnTag(s1, x) == OwnTag(s, x);
        }
        assert OwnTag(next, c) == OwnTag(s1, c);
      }
      QuietIsFine(next, t, tos[1..], NextCache(s, t, tos[0], cache), d);
    }
  }

  predicate Among(tos: seq<Rcpt>, d: nat) { exists r :: r in tos && r.client == d }

  // What d is sent says it is in the batch of the long message.
  predicate Heard(s: State, d: nat) { OwnTag(s, d).None? && FanTag(s, d).Some? }

  lemma {:induction false} ToldIffHeard(s: State, t: Tell, tos: seq<Rcpt>, cache: Option<Cache>, d: nat, told: bool)
    requires Sane(s) && s.fan.Some? && (told ==> !Pending(s, d)) && t.own && !t.prio
    ensures FineTo(s, t, tos, cache, d, told) <==> (Among(tos, d) ==> (told <==> Heard(s, d)))
    ensures var u := TellTo(s, t, tos, cache);
            && Sane(u) && u.fan == s.fan && (told ==> !Pending(u, d))
            && (FineTo(s, t, tos, cache, d, told) ==> (Heard(u, d) <==> Heard(s, d)))
    decreases |tos|
  {
    if tos != [] {
      var c := tos[0].client;
      BeforeSane(s, c, TagNoLabel(s, c));
      var s1, next := Ready(s, c), TellOne(s, t, tos[0], cache);
      assert forall id: nat :: Live(next, id) <==> Live(s1, id);
      assert Among(tos, d) <==> c == d || Among(tos[1..], d);
      ToldIffHeard(next, t, tos[1..], NextCache(s, t, tos[0], cache), d, told);
    }
  }

  predicate AmongAny(ts: seq<Tell>, d: nat) { exists t :: t in ts && Among(t.tos, d) }

  lemma {:induction false} AllToldIffHeard(s: State, ts: seq<Tell>, d: nat, told: bool)
    requires Sane(s) && s.fan.Some? && (told ==> !Pending(s, d))
    requires forall t :: t in ts ==> t.own && !t.prio
    ensures FineTells(s, ts, d, told) <==> (AmongAny(ts, d) ==> (told <==> Heard(s, d)))
    decreases |ts|
  {
    if ts != [] {
      ToldIffHeard(s, ts[0], ts[0].tos, None, d, told);
      assert AmongAny(ts, d) <==> Among(ts[0].tos, d) || AmongAny(ts[1..], d);
      if FineTo(s, ts[0], ts[0].tos, None, d, told) {
        AllToldIffHeard(Say(s, ts[0]), ts[1..], d, told);
      }
    }
  }

  // Who can be told anything while a long message is relayed: of those it is
  // for, the ones that take batches and are in no other; of the rest, the ones
  // that do not take such batches or are in one of their own.
  predicate CanBeTold(s: State, opens: seq<nat>, d: nat) {
    if Gets(s, opens, d) then d in s.batchers && OwnTag(s, d).None? && !Pending(s, d)
    else FanTag(s.(fan := Some(0)), d).None? || OwnTag(s, d).Some?
  }

  // What opening it does to d's own batches: a label that waited is opened.
  lemma {:induction false} SeatAfter(s: State, tos: seq<nat>, done: set<nat>, d: nat)
    requires s.fan.Some? && (d in done ==> !Pending(s, d))
    ensures var u := FanLines(s, tos, Open(s.fan.value, "draft/multiline"), done);
            && u.fan == s.fan && u.multis == s.multis && u.batchers == s.batchers
            && (Pending(u, d) <==> Pending(s, d) && !Gets(s, tos, d))
            && (OwnTag(u, d).Some? <==> OwnTag(s, d).Some? || (Pending(s, d) && Gets(s, tos, d)))
    decreases |tos|
  {
    if tos != [] {
      var to := tos[0];
      assert d in tos <==> d == to || d in tos[1..];
      if to in done || to !in s.multis {
        SeatAfter(s, tos[1..], done, d);
      } else {
        var s1 := FanReady(s, to);
        SeatAfter(Put(s1, to, Line(Open(s.fan.value, "draft/multiline"), OwnTag(s1, to), None)), tos[1..],
                  done + {to}, d);
      }
    }
  }

  lemma FanBeginsSane(s: State)
    requires Sane(s) && s.fan.None?
    ensures Sane(s.(ids := s.ids + 1, fan := Some(s.ids + 1)))
  {
    var t := s.(ids := s.ids + 1, fan := Some(s.ids + 1));
    assert forall id: nat :: Live(t, id) <==> Live(s, id) || id == s.ids + 1;
    assert s.out.Some? ==> Live(s, s.out.value.id);
    assert s.reply.Some? && s.reply.value.batch.Some? ==> Live(s, s.reply.value.batch.value);
  }

  lemma {:induction false} OpeningSane(s: State, tos: seq<nat>, done: set<nat>)
    requires Sane(s) && s.fan.Some?
    ensures Sane(FanLines(s, tos, Open(s.fan.value, "draft/multiline"), done))
    decreases |tos|
  {
    if tos != [] {
      var to := tos[0];
      if to in done || to !in s.multis {
        OpeningSane(s, tos[1..], done);
      } else {
        BeforeSane(s, to, OutTag(s, to));
        var s1 := FanReady(s, to);
        var next := Put(s1, to, Line(Open(s.fan.value, "draft/multiline"), OwnTag(s1, to), None));
        assert forall id: nat :: Live(next, id) <==> Live(s1, id);
        OpeningSane(next, tos[1..], done + {to});
      }
    }
  }

  // ----- Where every line of a long message is ------------------------------

  // The batch a line to c names, unless it is sent with another's tags.
  function LineTag(s: State, c: nat): Option<nat> { Tag(Ready(s, c), c) }

  predicate SameLook(s: State, a: Rcpt, b: Rcpt) {
    a.style == b.style && LineTag(s, a.client).Some? == LineTag(s, b.client).Some?
  }

  // Whose tags the i-th recipient is sent: its own, or the first's of those
  // before it that look like it, one after the other.
  function Leader(s: State, t: Tell, i: nat): (j: nat)
    requires i < |t.tos|
    ensures j <= i
  {
    if !t.own && i > 0 && SameLook(s, t.tos[i - 1], t.tos[i]) then Leader(s, t, i - 1) else i
  }

  function CacheAt(s: State, t: Tell, k: nat): Option<Cache>
    requires k <= |t.tos|
  {
    if k == 0 || t.own then None
    else
      var r := t.tos[k - 1];
      Some(Cache(r.style, LineTag(s, r.client).Some?, LineTag(s, t.tos[Leader(s, t, k - 1)].client)))
  }

  // A label that was waiting may be open by now.
  predicate OpenedSince(s: State, u: State) {
    && s.reply.Some? && s.reply.value.batch.None? && u.ids == s.ids + 1
    && u.reply == Some(s.reply.value.(batch := Some(s.ids + 1)))
  }

  predicate Since(s: State, u: State) {
    && u.out == s.out && u.fan == s.fan && u.multis == s.multis && u.batchers == s.batchers
    && ((u.reply == s.reply && u.ids == s.ids) || OpenedSince(s, u))
  }

  lemma SinceTags(s: State, u: State, c: nat, told: bool)
    requires Since(s, u)
    ensures LineTag(u, c) == LineTag(s, c) && Innermost(Ready(u, c), c, told) == Innermost(Ready(s, c), c, told)
    ensures Since(s, Ready(u, c)) && FanTag(u, c) == FanTag(s, c)
  {
  }

  // The i-th recipient's line names the innermost batch it knows of.
  predicate InPlace(s: State, t: Tell, i: nat, told: bool)
    requires i < |t.tos|
  {
    var d := t.tos[i].client;
    t.prio || LineTag(s, t.tos[Leader(s, t, i)].client) == Innermost(Ready(s, d), d, told)
  }

  lemma OneInPlace(s: State, u: State, t: Tell, k: nat, told: bool)
    requires k < |t.tos| && Since(s, u)
    ensures TagOf(u, t, t.tos[k], CacheAt(s, t, k)) == LineTag(s, t.tos[Leader(s, t, k)].client)
    ensures NextCache(u, t, t.tos[k], CacheAt(s, t, k)) == CacheAt(s, t, k + 1)
    ensures FineOne(u, t, t.tos[k], CacheAt(s, t, k), t.tos[k].client, told) <==>
              InPlace(s, t, k, told) && FineReady(u, t.tos[k].client, t.tos[k].client)
    ensures Since(s, TellOne(u, t, t.tos[k], CacheAt(s, t, k)))
    ensures !Pending(TellOne(u, t, t.tos[k], CacheAt(s, t, k)), t.tos[k].client)
  {
    SinceTags(s, u, t.tos[k].client, told);
  }

  lemma {:induction false} InPlaceFrom(s: State, u: State, t: Tell, k: nat, d: nat, told: bool)
    requires k <= |t.tos| && Since(s, u)
    ensures FineTo(u, t, t.tos[k..], CacheAt(s, t, k), d, told) <==>
              && (Among(t.tos[k..], d) ==> FineReady(u, d, d))
              && forall i :: k <= i < |t.tos| && t.tos[i].client == d ==> InPlace(s, t, i, told)
    ensures var v := TellTo(u, t, t.tos[k..], CacheAt(s, t, k));
            Since(s, v) && (Pending(v, d) <==> Pending(u, d) && !Among(t.tos[k..], d))
    decreases |t.tos| - k
  {
    if k < |t.tos| {
      var c := t.tos[k].client;
      assert t.tos[k..][0] == t.tos[k] && t.tos[k..][1..] == t.tos[k + 1..];
      assert Among(t.tos[k..], d) <==> c == d || Among(t.tos[k + 1..], d);
      OneInPlace(s, u, t, k, told);
      var next := TellOne(u, t, t.tos[k], CacheAt(s, t, k));
      assert c != d ==> (Pending(next, d) <==> Pending(u, d)) && FanTag(next, d) == FanTag(u, d);
      InPlaceFrom(s, next, t, k + 1, d, told);
    }
  }

  // A line to several says what it should to d if and only if the tags it is
  // sent with were made out for one that is in the batch d is in, and the label
  // of d, if it is opened with it, is opened where d knows it is.
  lemma SharedTagsIff(s: State, t: Tell, d: nat, told: bool)
    ensures FineTo(s, t, t.tos, None, d, told) <==>
              && (Among(t.tos, d) ==> FineReady(s, d, d))
              && forall i :: 0 <= i < |t.tos| && t.tos[i].client == d ==> InPlace(s, t, i, told)
  {
    InPlaceFrom(s, s, t, 0, d, told);
    assert t.tos[0..] == t.tos;
  }

  lemma {:induction false} TellsInPlace(s: State, u: State, ts: seq<Tell>, d: nat, told: bool)
    requires Since(s, u)
    ensures FineTells(u, ts, d, told) <==>
              && (AmongAny(ts, d) ==> FineReady(u, d, d))
              && forall k, i :: 0 <= k < |ts| && 0 <= i < |ts[k].tos| && ts[k].tos[i].client == d ==>
                   InPlace(s, ts[k], i, told)
    decreases |ts|
  {
    if ts != [] {
      var t := ts[0];
      assert t.tos[0..] == t.tos && forall k :: 0 <= k < |ts[1..]| ==> ts[1..][k] == ts[k + 1];
      assert AmongAny(ts, d) <==> Among(t.tos, d) || AmongAny(ts[1..], d);
      InPlaceFrom(s, u, t, 0, d, told);
      TellsInPlace(s, Say(u, t), ts[1..], d, told);
      SinceTags(s, u, d, told);
      SinceTags(s, Say(u, t), d, told);
      assert FineTells(u, ts, d, told) <==>
        FineTo(u, t, t.tos, None, d, told) && FineTells(Say(u, t), ts[1..], d, told);
    }
  }

  // A long message, whatever is said meanwhile and to whom, keeps d's lines
  // nested if and only if every line d is told names the innermost batch d
  // knows of, a label of d's is not first opened inside it, and its batch is
  // closed to d exactly when it was opened.
  lemma FanIsFineIff(s: State, opens: seq<nat>, inner: seq<Tell>, closes: seq<nat>, d: nat)
    ensures var s1 := FanOpen(s, opens);
            FineFan(s, opens, inner, closes, d) <==>
              && (AmongAny(inner, d) ==> FineReady(s1, d, d))
              && (forall k, i :: 0 <= k < |inner| && 0 <= i < |inner[k].tos| && inner[k].tos[i].client == d ==>
                    InPlace(s1, inner[k], i, Gets(s, opens, d)))
              && (Gets(s, opens, d) <==> Gets(s, closes, d))
  {
    TellsInPlace(FanOpen(s, opens), FanOpen(s, opens), inner, d, Gets(s, opens, d));
  }

  // In particular, while each line is made out for its recipient and none has
  // priority: nobody tells d anything or d can be told.
  lemma OwnFanIff(s: State, opens: seq<nat>, inner: seq<Tell>, closes: seq<nat>, d: nat)
    requires Sane(s) && s.fan.None? && forall t :: t in inner ==> t.own && !t.prio
    ensures FineFan(s, opens, inner, closes, d) <==>
              (AmongAny(inner, d) ==> CanBeTold(s, opens, d)) && (Gets(s, opens, d) <==> Gets(s, closes, d))
  {
    var s0 := s.(ids := s.ids + 1, fan := Some(s.ids + 1));
    SeatAfter(s0, opens, {}, d);
    FanBeginsSane(s);
    OpeningSane(s0, opens, {});
    AllToldIffHeard(FanOpen(s, opens), inner, d, Gets(s, opens, d));
  }
}
