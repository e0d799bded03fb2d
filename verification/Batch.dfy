/**
 * Labeled responses and batches: what commands queue for each client, when that
 * is properly nested, and that taking the batch lines away gives what would
 * have been queued without a label.
 */
module Batch {
  import opened Options

  // A plain line may go ahead of those queued; the others never do.
  datatype Kind = Open(id: nat, kind: string) | Close(id: nat) | Ack | Plain(text: string, prio: bool)

  // One line, the batch it says it is in and the label it carries.
  datatype Line = Line(what: Kind, batch: Option<nat>, mark: Option<string>)

  predicate Prio(l: Line) { l.what.Plain? && l.what.prio }

  datatype Sent = Sent(to: nat, line: Line)

  datatype LabelCtx = LabelCtx(client: nat, text: string, batch: Option<nat>)

  datatype OutCtx = OutCtx(client: nat, id: nat)

  datatype State = State(
    reply: Option<LabelCtx>,  // the labeled response under way
    out: Option<OutCtx>,      // the batch a command answers one client with
    fan: Option<nat>,         // the batch of a long message being relayed
    ids: nat,
    batchers: set<nat>,   // clients with the batch capability
    labelers: set<nat>,   // clients with the labeled-response capability
    multis: set<nat>,     // clients with the draft/multiline capability
    wire: seq<Sent>)      // everything queued, in order

  // ----- What a line is inside ----------------------------------------------

  function OutTag(s: State, to: nat): Option<nat> {
    if s.out.Some? && s.out.value.client == to then Some(s.out.value.id) else None
  }

  function LabelTag(s: State, to: nat): Option<nat> {
    if s.reply.Some? && s.reply.value.client == to then s.reply.value.batch else None
  }

  function FanTag(s: State, to: nat): Option<nat> {
    if to in s.multis && to in s.batchers then s.fan else None
  }

  // The three in the order they are asked, and that order with one of the
  // batches left out while its own line is on its way.
  function OwnTag(s: State, to: nat): Option<nat> {
    if OutTag(s, to).Some? then OutTag(s, to) else LabelTag(s, to)
  }

  function Tag(s: State, to: nat): Option<nat> {
    if OwnTag(s, to).Some? then OwnTag(s, to) else FanTag(s, to)
  }

  function TagNoLabel(s: State, to: nat): Option<nat> {
    if OutTag(s, to).Some? then OutTag(s, to) else FanTag(s, to)
  }

  function TagNoOut(s: State, to: nat): Option<nat> {
    if LabelTag(s, to).Some? then LabelTag(s, to) else FanTag(s, to)
  }

  function Put(s: State, to: nat, l: Line): State {
    s.(wire := s.wire + [Sent(to, l)])
  }

  // A label is waiting for the first line to this client.
  predicate Pending(s: State, to: nat) {
    s.reply.Some? && s.reply.value.client == to && s.reply.value.batch.None?
  }

  // Before any line to `to`: if it is the first of a labeled response, the
  // batch is opened, by a line that is in the batch `tag`.
  function Before(s: State, to: nat, tag: Option<nat>): State {
    if Pending(s, to) then
      var id := s.ids + 1;
      Put(s.(ids := id, reply := Some(s.reply.value.(batch := Some(id)))), to,
          Line(Open(id, "labeled-response"), tag, Some(s.reply.value.text)))
    else
      s
  }

  // ----- Lines to one client or many ----------------------------------------

  // A recipient, and which other tags it is sent with the line.
  datatype Rcpt = Rcpt(client: nat, style: nat)

  // `own`: tags are made out for each recipient. Otherwise what was made out
  // for the one before is used again for a recipient that looks the same.
  datatype Tell = Tell(tos: seq<Rcpt>, text: string, prio: bool, own: bool)

  datatype Cache = Cache(style: nat, tagged: bool, tag: Option<nat>)

  function Rendered(own: bool, cache: Option<Cache>, style: nat, tag: Option<nat>): Option<nat> {
    if !own && cache.Some? && cache.value.style == style && cache.value.tagged == tag.Some?
    then cache.value.tag else tag
  }

  function Cached(own: bool, cache: Option<Cache>, style: nat, tag: Option<nat>): Option<Cache> {
    if own then cache else Some(Cache(style, tag.Some?, Rendered(own, cache, style, tag)))
  }

  // Ready for a line of a command's: a label that was waiting is not.
  function Ready(s: State, to: nat): State { Before(s, to, TagNoLabel(s, to)) }

  function TagOf(s: State, t: Tell, to: Rcpt, cache: Option<Cache>): Option<nat> {
    Rendered(t.own, cache, to.style, Tag(Ready(s, to.client), to.client))
  }

  function NextCache(s: State, t: Tell, to: Rcpt, cache: Option<Cache>): Option<Cache> {
    Cached(t.own, cache, to.style, Tag(Ready(s, to.client), to.client))
  }

  function TellOne(s: State, t: Tell, to: Rcpt, cache: Option<Cache>): State {
    Put(Ready(s, to.client), to.client, Line(Plain(t.text, t.prio), TagOf(s, t, to, cache), None))
  }

  function TellTo(s: State, t: Tell, tos: seq<Rcpt>, cache: Option<Cache>): State
    decreases |tos|
  {
    if tos == [] then s
    else TellTo(TellOne(s, t, tos[0], cache), t, tos[1..], NextCache(s, t, tos[0], cache))
  }

  function Say(s: State, t: Tell): State { TellTo(s, t, t.tos, None) }

  function SayAll(s: State, ts: seq<Tell>): State
    decreases |ts|
  {
    if ts == [] then s else SayAll(Say(s, ts[0]), ts[1..])
  }

  // ----- Steps --------------------------------------------------------------

  function OutOpen(s: State, to: nat, kind: string): State {
    if to !in s.batchers || s.out.Some? then
      s
    else
      var id := s.ids + 1;
      var s1 := Before(s.(ids := id), to, FanTag(s, to));
      Put(s1.(out := Some(OutCtx(to, id))), to, Line(Open(id, kind), TagNoOut(s1, to), None))
  }

  function OutClose(s: State, to: nat): State {
    if OutTag(s, to).None? then
      s
    else
      var s1 := Before(s, to, FanTag(s, to));
      Put(s1.(out := None), to, Line(Close(s.out.value.id), TagNoOut(s1, to), None))
  }

  // A line that opens or closes the batch of a long message, to each of those
  // it is for that asked for such batches, once.
  function FanLines(s: State, tos: seq<nat>, what: Kind, done: set<nat>): State
    decreases |tos|
  {
    if tos == [] then
      s
    else if tos[0] in done || tos[0] !in s.multis then
      FanLines(s, tos[1..], what, done)
    else
      FanLines(FanLine(s, tos[0], what), tos[1..], what, done + {tos[0]})
  }

  function FanLine(s: State, to: nat, what: Kind): State {
    var s1 := Before(s, to, OutTag(s, to));
    Put(s1, to, Line(what, OwnTag(s1, to), None))
  }

  // A long message: its batch is opened to those it is for at that time,
  // relayed with whatever else is said meanwhile, and closed to those it is for
  // at the end.
  function FanOpen(s: State, opens: seq<nat>): State {
    var id := s.ids + 1;
    FanLines(s.(ids := id, fan := Some(id)), opens, Open(id, "draft/multiline"), {})
  }

  function FanClose(s: State, closes: seq<nat>): State
    requires s.fan.Some?
  {
    FanLines(s, closes, Close(s.fan.value), {}).(fan := None)
  }

  function LabelBegin(s: State, c: nat, text: string): State {
    if text == "" || c !in s.batchers || c !in s.labelers then
      s.(reply := None)
    else
      s.(reply := Some(LabelCtx(c, Kept(text), None)))
  }

  const LABELLEN := 64

  // As much of a label as is kept and sent back.
  function Kept(text: string): string {
    if |text| > LABELLEN then text[..LABELLEN] else text
  }

  function LabelEnd(s: State): State {
    match s.reply
    case None => s
    case Some(l) => Put(s.(reply := None), l.client, LastLine(l, TagNoLabel(s, l.client)))
  }

  // How a labeled response ends: its batch closed, or a bare ACK.
  function LastLine(l: LabelCtx, tag: Option<nat>): Line {
    match l.batch
    case Some(id) => Line(Close(id), tag, None)
    case None => Line(Ack, tag, Some(l.text))
  }

  // What a command's handler does.
  datatype Act =
    | DoTell(tell: Tell)
    | DoOpen(to: nat, kind: string)
    | DoClose(to: nat)
    | DoFan(opens: seq<nat>, inner: seq<Tell>, closes: seq<nat>)

  lemma {:induction false} TellFan(s: State, t: Tell, tos: seq<Rcpt>, cache: Option<Cache>)
    ensures var u := TellTo(s, t, tos, cache);
            u.fan == s.fan && u.out == s.out && u.multis == s.multis && u.batchers == s.batchers
    decreases |tos|
  {
    if tos != [] {
      TellFan(TellOne(s, t, tos[0], cache), t, tos[1..], NextCache(s, t, tos[0], cache));
    }
  }

  lemma {:induction false} SayFan(s: State, ts: seq<Tell>)
    ensures var u := SayAll(s, ts);
            u.fan == s.fan && u.out == s.out && u.multis == s.multis && u.batchers == s.batchers
    decreases |ts|
  {
    if ts != [] {
      TellFan(s, ts[0], ts[0].tos, None);
      SayFan(Say(s, ts[0]), ts[1..]);
    }
  }

  lemma {:induction false} LinesFan(s: State, tos: seq<nat>, what: Kind, done: set<nat>)
    ensures var u := FanLines(s, tos, what, done);
            u.fan == s.fan && u.out == s.out && u.multis == s.multis && u.batchers == s.batchers
    decreases |tos|
  {
    if tos != [] {
      if tos[0] in done || tos[0] !in s.multis {
        LinesFan(s, tos[1..], what, done);
      } else {
        LinesFan(FanLine(s, tos[0], what), tos[1..], what, done + {tos[0]});
      }
    }
  }

  function Fan(s: State, opens: seq<nat>, inner: seq<Tell>, closes: seq<nat>): (t: State) {
    var s1 := FanOpen(s, opens);
    var s2 := SayAll(s1, inner);
    LinesFan(s.(ids := s.ids + 1, fan := Some(s.ids + 1)), opens, Open(s.ids + 1, "draft/multiline"), {});
    SayFan(s1, inner);
    FanClose(s2, closes)
  }

  function Do(s: State, a: Act): State {
    match a
    case DoTell(t) => Say(s, t)
    case DoOpen(to, kind) => OutOpen(s, to, kind)
    case DoClose(to) => OutClose(s, to)
    case DoFan(opens, inner, closes) => Fan(s, opens, inner, closes)
  }

  function DoAll(s: State, acts: seq<Act>): State
    decreases |acts|
  {
    if acts == [] then s else DoAll(Do(s, acts[0]), acts[1..])
  }

  // One line from a client, dispatched: the label around the handler.
  function Command(s: State, c: nat, text: string, acts: seq<Act>): State {
    LabelEnd(DoAll(LabelBegin(s, c, text), acts))
  }

  // ----- A client's view ----------------------------------------------------

  function Lines(wire: seq<Sent>, c: nat): seq<Line> {
    if wire == [] then
      []
    else
      var w := wire[|wire| - 1];
      Lines(wire[..|wire| - 1], c) + (if w.to == c then [w.line] else [])
  }

  // The batches open around a line, innermost first.
  datatype Nesting = Outside | Inside(id: nat, outer: Nesting)

  function Top(n: Nesting): Option<nat> {
    if n.Outside? then None else Some(n.id)
  }

  predicate Has(n: Nesting, id: nat) {
    n.Inside? && (n.id == id || Has(n.outer, id))
  }

  // Reading one more line: it is in the innermost batch, it opens one that is
  // not open, or it closes the innermost and is in the one around that.
  function Enter(n: Nesting, l: Line): Option<Nesting> {
    match l.what
    case Open(id, _) => if l.batch == Top(n) && !Has(n, id) then Some(Inside(id, n)) else None
    case Close(id) => if n.Inside? && n.id == id && l.batch == Top(n.outer) then Some(n.outer) else None
    case Ack => if l.batch == Top(n) then Some(n) else None
    case Plain(_, _) => if l.batch == Top(n) then Some(n) else None
  }

  function Nest(ls: seq<Line>): Option<Nesting> {
    if ls == [] then
      Some(Outside)
    else
      match Nest(ls[..|ls| - 1])
      case None => None
      case Some(n) => Enter(n, ls[|ls| - 1])
  }

  // Everything opened is closed, in the right order, and every line says so.
  predicate WellNested(ls: seq<Line>) {
    Nest(ls) == Some(Outside)
  }

  // The lines that are received in the order they are queued in.
  function Normal(ls: seq<Line>): seq<Line> {
    if ls == [] then
      []
    else
      var l := ls[|ls| - 1];
      Normal(ls[..|ls| - 1]) + (if Prio(l) then [] else [l])
  }

  function Normals(s: State, d: nat): seq<Line> { Normal(Lines(s.wire, d)) }

  // What is left when the batch lines, the ACKs and the tags are taken away.
  function Erase(ls: seq<Line>): seq<Kind> {
    if ls == [] then
      []
    else
      var l := ls[|ls| - 1];
      Erase(ls[..|ls| - 1]) + (if l.what.Plain? then [l.what] else [])
  }

  lemma LinesNext(wire: seq<Sent>, w: Sent, c: nat)
    ensures Lines(wire + [w], c) == Lines(wire, c) + (if w.to == c then [w.line] else [])
  {
    assert (wire + [w])[..|wire|] == wire;
  }

  lemma Next(ls: seq<Line>, l: Line)
    ensures Nest(ls + [l]) == match Nest(ls) { case None => None case Some(n) => Enter(n, l) }
    ensures Erase(ls + [l]) == Erase(ls) + (if l.what.Plain? then [l.what] else [])
    ensures Normal(ls + [l]) == Normal(ls) + (if Prio(l) then [] else [l])
  {
    assert (ls + [l])[..|ls|] == ls;
  }

  // What one more line does to what a client is to receive in order.
  lemma PutNormals(s: State, t: State, to: nat, l: Line, d: nat)
    requires t.wire == s.wire + [Sent(to, l)]
    ensures Normals(t, d) == if to == d && !Prio(l) then Normals(s, d) + [l] else Normals(s, d)
    ensures to == d && !Prio(l) ==>
              Nest(Normals(t, d)) == match Nest(Normals(s, d)) { case None => None case Some(n) => Enter(n, l) }
  {
    LinesNext(s.wire, Sent(to, l), d);
    Next(Lines(s.wire, d), l);
    Next(Normals(s, d), l);
    assert Lines(s.wire, d) + [] == Lines(s.wire, d) && Normals(s, d) + [] == Normals(s, d);
  }
}
