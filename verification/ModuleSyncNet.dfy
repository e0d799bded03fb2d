/** The network: servers, the stream of lines each one sends, how far every
    other server has read it, and what each server has on record. */
module ModuleSyncNet {
  import opened ModuleSync

  /** `log[a]` is everything a has sent, in order; a line is meant for every
      server or for the one it names.  Links are first-in first-out and a
      server forwards what it reads, so b reads log[a] in order:
      `cur[(a, b)]` is how much of it b has read. */
  datatype Net = Net(srv: map<Sid, Server>, log: map<Sid, seq<Msg>>, cur: map<(Sid, Sid), nat>,
                     hist: map<Sid, seq<Note>>)

  datatype Action =
    | Act(i: Sid, input: Input)
    | Link(a: Sid, b: Sid)
    | Lose(src: Sid, dst: Sid, upto: nat)

  ghost predicate WF(net: Net) {
    && net.log.Keys == net.srv.Keys && net.hist.Keys == net.srv.Keys
    && (forall i :: i in net.srv ==> net.srv[i].self == i)
    && (forall i, j :: i in net.srv && j in net.srv ==> (i, j) in net.cur && net.cur[(i, j)] <= |net.log[i]|)
  }

  /** s is waiting for x, or x coordinates what s prepared. */
  predicate Depends(s: Server, x: Sid) {
    || (s.coord.Some? && x in s.coord.value.waiting)
    || (s.part.Some? && s.part.value.coordinator == x)
  }

  /** Both ends hold the link between a and b. */
  predicate Linked(net: Net, a: Sid, b: Sid)
    requires a in net.srv && b in net.srv
  {
    b in net.srv[a].down && a in net.srv[b].down
  }

  /** `input` can happen to server i as things stand. */
  ghost predicate Fits(net: Net, i: Sid, input: Input)
    requires WF(net) && i in net.srv
  {
    match input
    case InBegin(_, _, peers, _) => i !in peers && peers <= net.srv.Keys
    case InMsg(from, msg, _, _) =>
      && from in net.srv && from != i && net.cur[(from, i)] < |net.log[from]|
      && msg == net.log[from][net.cur[(from, i)]]
    case InTimer(_) => net.srv[i].armed
    case InGone(x, at, _) => x in net.srv && x != i && at == net.cur[(x, i)]
    case InRehash(_) => true
    case InUnlink(x) => x in net.srv && x != i
    case InLink(x) => x in net.srv && x != i
  }

  ghost predicate Enabled(net: Net, act: Action)
    requires WF(net)
  {
    match act
    case Act(i, input) => i in net.srv && Fits(net, i, input) && !input.InLink?
    // A fresh link carries nothing of what was sent before it came up.  Neither end
    // still depends on the other: losing the old link made it forget.
    case Link(a, b) =>
      && a in net.srv && b in net.srv && a != b
      && b !in net.srv[a].down && a !in net.srv[b].down
      && !Depends(net.srv[a], b) && !Depends(net.srv[b], a)
    // Lines between two servers with no direct link can be lost when the path between
    // them breaks, which makes the reader forget the sender first.
    case Lose(src, dst, upto) =>
      && src in net.srv && dst in net.srv && src != dst && !Linked(net, src, dst)
      && !Depends(net.srv[dst], src)
      && net.cur[(src, dst)] <= upto <= |net.log[src]|
  }

  function Apply(net: Net, i: Sid, e: Effect): Net
    requires i in net.srv && i in net.log && i in net.hist
  {
    net.(srv := net.srv[i := e.server], log := net.log[i := net.log[i] + e.out],
         hist := net.hist[i := net.hist[i] + e.notes])
  }

  /** Server i goes through `input`. */
  function Local(net: Net, i: Sid, input: Input): Net
    requires i in net.srv && i in net.log && i in net.hist
  {
    Apply(net, i, React(net.srv[i], input))
  }

  function Advance(net: Net, src: Sid, dst: Sid, to: nat): Net {
    net.(cur := net.cur[(src, dst) := to])
  }

  /** A line that is read moves the reader on. */
  ghost function Happen(net: Net, i: Sid, input: Input): Net
    requires WF(net) && i in net.srv && Fits(net, i, input)
  {
    Local(if input.InMsg? then Advance(net, input.from, i, net.cur[(input.from, i)] + 1) else net, i, input)
  }

  lemma HappenWF(net: Net, i: Sid, input: Input)
    requires WF(net) && i in net.srv && Fits(net, i, input) && React(net.srv[i], input).server.self == i
    ensures WF(Happen(net, i, input))
  {
    var net' := Happen(net, i, input);
    forall a, b | a in net'.srv && b in net'.srv ensures (a, b) in net'.cur && net'.cur[(a, b)] <= |net'.log[a]| {
    }
  }

  ghost function Do(net: Net, act: Action): Net
    requires WF(net) && Enabled(net, act)
  {
    match act
    case Act(i, input) => Happen(net, i, input)
    case Link(a, b) =>
      Happen(Happen(Advance(Advance(net, a, b, |net.log[a]|), b, a, |net.log[b]|), a, InLink(b)), b, InLink(a))
    case Lose(src, dst, upto) => Advance(net, src, dst, upto)
  }

  /** Servers that have just started: any module sets, no links, nothing sent. */
  ghost predicate Initial(net: Net) {
    && WF(net)
    && (forall i :: i in net.srv ==>
          && !net.srv[i].Busy() && !net.srv[i].armed && net.srv[i].down == [] && net.srv[i].checked == {}
          && net.log[i] == [] && net.hist[i] == [])
  }

  /** `acts` is a run from `net` that ends in `last`. */
  ghost predicate Run(net: Net, acts: seq<Action>, last: Net)
    decreases |acts|
  {
    if acts == [] then last == net
    else WF(net) && Enabled(net, acts[0]) && Run(Do(net, acts[0]), acts[1..], last)
  }
}
