/**
 * Labels and batches as the server keeps them: three records in static storage
 * with flags for the lines that frame a batch, and a send path that comes back
 * in to open one. Each operation is proved to do what its namesake does.
 */
module BatchServer {
  import opened Options
  import opened B = Batch

  datatype LabelVar = LabelVar(client: Option<nat>, text: string, batch: nat, open: bool, emitting: bool,
      emitLabel: bool)

  datatype OutVar = OutVar(client: nat, id: nat, open: bool, emitting: bool)

  datatype FanVar = FanVar(id: nat, open: bool, emitting: bool)

  const NoLabel := LabelVar(None, "", 0, false, false, false)
  const NoOut := OutVar(0, 0, false, false)
  const NoFan := FanVar(0, false, false)

  function ReplyOf(v: LabelVar): Option<LabelCtx> {
    if v.client.Some? then Some(LabelCtx(v.client.value, v.text, if v.open then Some(v.batch) else None)) else None
  }

  function OutOf(v: OutVar): Option<OutCtx> {
    if v.open then Some(OutCtx(v.client, v.id)) else None
  }

  function FanOf(v: FanVar): Option<nat> {
    if v.open then Some(v.id) else None
  }

  class Server {
    var lab: LabelVar
    var out: OutVar
    var fan: FanVar
    var seq_: nat
    var wire: seq<Sent>
    const batchers: set<nat>
    const labelers: set<nat>
    const multis: set<nat>

    constructor (batchers: set<nat>, labelers: set<nat>, multis: set<nat>)
      ensures Quiet() && View() == State(None, None, None, 0, batchers, labelers, multis, [])
    {
      this.batchers, this.labelers, this.multis := batchers, labelers, multis;
      lab, out, fan, seq_, wire := NoLabel, NoOut, NoFan, 0, [];
    }

    ghost function View(): State
      reads this
    {
      State(ReplyOf(lab), OutOf(out), FanOf(fan), seq_, batchers, labelers, multis, wire)
    }

    // Only clients that take batches are put in one of their own.
    ghost predicate Valid()
      reads this
    {
      && (lab.open ==> lab.client.Some?) && (lab.client.Some? ==> lab.client.value in batchers)
      && (out.open ==> out.client in batchers)
    }

    // Between operations nothing is half sent.
    ghost predicate Quiet()
      reads this
    {
      Valid() && !lab.emitting && !lab.emitLabel && !out.emitting && !fan.emitting
    }

    // The batch a line to `to` is inside.
    function Current(to: nat): Option<nat>
      reads this
    {
      if out.open && !out.emitting && to == out.client then Some(out.id)
      else if lab.open && !lab.emitting && lab.client == Some(to) then Some(lab.batch)
      else if fan.open && !fan.emitting && to in multis then Some(fan.id)
      else None
    }

    // As it is written on the line.
    function Shown(to: nat): Option<nat>
      reads this
    {
      if to in batchers then Current(to) else None
    }

    function LabelFor(to: nat): Option<string>
      reads this
    {
      if lab.emitLabel && lab.client == Some(to) then Some(lab.text) else None
    }

    ghost predicate Waiting(to: nat)
      reads this
    {
      lab.client == Some(to) && !lab.open && !lab.emitting
    }

    // The line that opens a label's batch, and the state once it is queued.
    ghost predicate Opened(lab0: LabelVar, seq0: nat, wire0: seq<Sent>, to: nat, tag: Option<nat>)
      reads this
    {
      && lab == lab0.(batch := seq_, open := true, emitLabel := false) && seq_ == seq0 + 1
      && wire == wire0 + [Sent(to, Line(B.Open(seq_, "labeled-response"), tag, Some(lab.text)))]
    }

    // Every line to a client goes through here, with the tags made out for the
    // recipient before if this is one of several and looks the same.
    method SendBuffer(to: nat, what: Kind, own: bool, style: nat, cache: Option<Cache>) returns (next: Option<Cache>)
      requires Valid() && (!lab.emitting ==> !lab.emitLabel)
      modifies this`lab, this`seq_, this`wire
      ensures Valid()
      ensures !old(Waiting(to)) ==>
                && lab == old(lab) && seq_ == old(seq_) && next == Cached(own, cache, style, old(Shown(to)))
                && wire == old(wire)
                           + [Sent(to, Line(what, Rendered(own, cache, style, old(Shown(to))), old(LabelFor(to))))]
      ensures old(Waiting(to)) ==>
                && next == Cached(own, cache, style, Shown(to)) && |wire| == |old(wire)| + 2
                && wire[|wire| - 1] == Sent(to, Line(what, Rendered(own, cache, style, Shown(to)), None))
                && lab == old(lab).(batch := seq_, open := true, emitLabel := false) && seq_ == old(seq_) + 1
                && wire[..|wire| - 1]
                   == old(wire) + [Sent(to, Line(B.Open(seq_, "labeled-response"), old(Shown(to)), Some(lab.text)))]
      decreases if Waiting(to) then 1 else 0, 1
    {
      LabelBeforeSend(to);
      var tag := Shown(to);
      wire := wire + [Sent(to, Line(what, Rendered(own, cache, style, tag), LabelFor(to)))];
      next := Cached(own, cache, style, tag);
    }

    method LabelBeforeSend(to: nat)
      requires Valid() && (!lab.emitting ==> !lab.emitLabel)
      modifies this`lab, this`seq_, this`wire
      ensures Valid()
      ensures !old(Waiting(to)) ==> lab == old(lab) && seq_ == old(seq_) && wire == old(wire)
      ensures old(Waiting(to)) ==> Opened(old(lab), old(seq_), old(wire), to, old(Shown(to)))
      decreases if Waiting(to) then 1 else 0, 0
    {
      if lab.client.None? || lab.open || lab.emitting {
        return;
      }
      if lab.client != Some(to) {
        return;
      }
      seq_ := seq_ + 1;
      lab := lab.(batch := seq_, open := true, emitting := true, emitLabel := true);
      var _ := SendBuffer(to, B.Open(lab.batch, "labeled-response"), true, 0, None);
      lab := lab.(emitLabel := false, emitting := false);
    }

    method LabelBegin(c: nat, text: string)
      requires Quiet()
      modifies this
      ensures Quiet() && View() == B.LabelBegin(old(View()), c, text)
    {
      lab := NoLabel;
      if text == "" {
        return;
      }
      if c !in labelers || c !in batchers {
        return;
      }
      lab := lab.(client := Some(c), text := Kept(text));
    }

    method LabelEnd()
      requires Quiet()
      modifies this
      ensures Quiet() && View() == B.LabelEnd(old(View()))
    {
      if lab.client.None? {
        return;
      }
      var to := lab.client.value;
      lab := lab.(emitting := true);
      if lab.open {
        var _ := SendBuffer(to, Close(lab.batch), true, 0, None);
      } else {
        lab := lab.(emitLabel := true);
        var _ := SendBuffer(to, Ack, true, 0, None);
      }
      lab := NoLabel;
    }

    // One line to one of several.
    method SayOne(t: Tell, to: Rcpt, cache: Option<Cache>) returns (next: Option<Cache>)
      requires Quiet()
      modifies this`lab, this`seq_, this`wire
      ensures Quiet() && View() == TellOne(old(View()), t, to, cache) && next == NextCache(old(View()), t, to, cache)
    {
      next := SendBuffer(to.client, Plain(t.text, t.prio), t.own, to.style, cache);
    }

    method Say(t: Tell)
      requires Quiet()
      modifies this
      ensures Quiet() && View() == B.Say(old(View()), t)
    {
      var i, cache := 0, None;
      assert t.tos[0..] == t.tos;
      while i < |t.tos|
        invariant i <= |t.tos| && Quiet()
        invariant TellTo(View(), t, t.tos[i..], cache) == B.Say(old(View()), t)
      {
        assert t.tos[i..][1..] == t.tos[i + 1..];
        cache := SayOne(t, t.tos[i], cache);
        i := i + 1;
      }
    }

    method OutOpen(to: nat, kind: string) returns (id: Option<nat>)
      requires Quiet()
      modifies this
      ensures Quiet() && View() == B.OutOpen(old(View()), to, kind)
      ensures id == if to in batchers && !old(out.open) then Some(old(seq_) + 1) else None
    {
      if to !in batchers || out.open {
        return None;
      }
      seq_ := seq_ + 1;
      out := OutVar(to, seq_, true, true);
      var _ := SendBuffer(to, B.Open(out.id, kind), true, 0, None);
      out := out.(emitting := false);
      id := Some(out.id);
    }

    method OutClose(to: nat)
      requires Quiet()
      modifies this
      ensures Quiet() && View() == B.OutClose(old(View()), to)
    {
      if !out.open || out.client != to {
        return;
      }
      out := out.(emitting := true);
      var _ := SendBuffer(to, Close(out.id), true, 0, None);
      out := NoOut;
    }

    // A line of the batch of a long message, to one it is for.
    method FanOne(to: nat, what: Kind)
      requires Valid() && !lab.emitting && !lab.emitLabel && !out.emitting && fan.open && fan.emitting
      modifies this`lab, this`seq_, this`wire
      ensures Valid() && !lab.emitting && !lab.emitLabel
      ensures View() == FanLine(old(View()), to, what)
    {
      var _ := SendBuffer(to, what, true, 0, None);
    }

    // To each of those it is for, every one of which is there once.
    method FanTo(tos: seq<nat>, what: Kind)
      requires Valid() && !lab.emitting && !lab.emitLabel && !out.emitting && fan.open && fan.emitting
      requires forall i, j :: 0 <= i < j < |tos| ==> tos[i] != tos[j]
      modifies this`lab, this`seq_, this`wire
      ensures Valid() && !lab.emitting && !lab.emitLabel
      ensures View() == FanLines(old(View()), tos, what, {})
    {
      var i := 0;
      ghost var done: set<nat> := {};
      assert tos[0..] == tos;
      while i < |tos|
        invariant i <= |tos| && Valid() && !lab.emitting && !lab.emitLabel
        invariant forall c :: c in done ==> c in tos[..i]
        invariant FanLines(View(), tos[i..], what, done) == FanLines(old(View()), tos, what, {})
      {
        assert tos[i..][1..] == tos[i + 1..];
        assert tos[i] !in tos[..i];
        if tos[i] in multis {
          FanOne(tos[i], what);
          done := done + {tos[i]};
        }
        i := i + 1;
      }
    }

    method FanOpen(opens: seq<nat>)
      requires Quiet() && forall i, j :: 0 <= i < j < |opens| ==> opens[i] != opens[j]
      modifies this
      ensures Quiet() && fan.open && View() == B.FanOpen(old(View()), opens)
    {
      seq_ := seq_ + 1;
      fan := FanVar(seq_, true, true);
      FanTo(opens, B.Open(fan.id, "draft/multiline"));
      fan := fan.(emitting := false);
    }

    method FanClose(closes: seq<nat>)
      requires Quiet() && fan.open && forall i, j :: 0 <= i < j < |closes| ==> closes[i] != closes[j]
      modifies this
      ensures Quiet() && View() == B.FanClose(old(View()), closes)
    {
      fan := fan.(emitting := true);
      FanTo(closes, Close(fan.id));
      fan := NoFan;
    }

    // A client that goes away leaves nothing behind.
    method ClientExiting(c: nat)
      requires Quiet()
      modifies this
      ensures Quiet() && wire == old(wire) && seq_ == old(seq_) && fan == old(fan)
      ensures OutTag(View(), c).None? && LabelTag(View(), c).None? && !Pending(View(), c)
      ensures old(out.client) != c ==> out == old(out)
      ensures old(lab.client) != Some(c) ==> lab == old(lab)
    {
      if out.client == c {
        out := NoOut;
      }
      if lab.client == Some(c) {
        lab := NoLabel;
      }
    }
  }
}
