/**
 * Reading frames off a socket: the decoder that only takes positions, the
 * fixed buffer the server reads into, and what becomes of a stream of frames
 * however the socket cuts it up.
 */
module ModHostStream {
  import opened Options
  import opened ModHost

  // ----- Decoding without copying -------------------------------------------

  // A decoded frame: where each argument starts in the caller's bytes, and how
  // long it is.
  datatype View = View(verb: Byte, serial: nat, argv: seq<nat>, lens: seq<nat>)

  ghost predicate InBounds(b: seq<Byte>, v: View, end: nat) {
    && |v.argv| == |v.lens| <= ARGS_MAX
    && end <= |b|
    && forall i :: 0 <= i < |v.argv| ==> v.argv[i] + v.lens[i] < end && b[v.argv[i] + v.lens[i]] == 0
  }

  ghost function Slices(b: seq<Byte>, at: seq<nat>, lens: seq<nat>): (r: seq<seq<Byte>>)
    requires |at| == |lens| && forall i :: 0 <= i < |at| ==> at[i] + lens[i] <= |b|
    ensures |r| == |at|
  {
    if at == [] then
      []
    else
      Slices(b, at[..|at| - 1], lens[..|at| - 1]) + [b[at[|at| - 1]..at[|at| - 1] + lens[|at| - 1]]]
  }

  ghost function Seen(b: seq<Byte>, v: View, end: nat): Frame
    requires InBounds(b, v, end)
  {
    Frame(v.verb, v.serial, Slices(b, v.argv, v.lens))
  }

  // The arguments already taken, before those still to be.
  function Before(done: seq<seq<Byte>>, more: Option<seq<seq<Byte>>>): Option<seq<seq<Byte>>> {
    match more
    case None => None
    case Some(rest) => Some(done + rest)
  }

  // Part of the way through: v holds what was found so far, and the rest of
  // what there is to find starts at `off`.
  ghost predicate Scanning(b: seq<Byte>, end: nat, all: Option<seq<seq<Byte>>>, v: View, off: nat, n: nat) {
    && HEADER <= off <= end
    && InBounds(b, v, end)
    && all == Before(Slices(b, v.argv, v.lens), TakeArgs(b[off..end], n))
  }

  // The argument at `off`: none if it does not fit or has no zero after it ...
  lemma HeadShort(b: seq<Byte>, off: nat, end: nat, n: nat)
    requires off <= end <= |b| && n > 0
    requires off + 4 <= end ==> var k := Get32(b[off..off + 4]); off + 4 + k >= end || b[off + 4 + k] != 0
    ensures TakeArgs(b[off..end], n).None?
  {
    if off + 4 <= end {
      assert b[off..end][..4] == b[off..off + 4] == b[off..off + 4][..4];
    }
  }

  lemma TakeWhole(rest: seq<Byte>, n: nat, k: nat, a: seq<Byte>, tail: seq<Byte>)
    requires n > 0 && 4 + k < |rest| && k == Get32(rest) && rest[4 + k] == 0
    requires a == rest[4..4 + k] && tail == rest[4 + k + 1..]
    ensures TakeArgs(rest, n) == Before([a], TakeArgs(tail, n - 1))
  {
  }

  // ... and otherwise the first of those taken from here.
  lemma HeadWhole(b: seq<Byte>, off: nat, end: nat, n: nat, p: nat, k: nat)
    requires p == off + 4 && p + k < end <= |b| && n > 0
    requires k == Get32(b[off..p]) && b[p + k] == 0
    ensures TakeArgs(b[off..end], n) == Before([b[p..p + k]], TakeArgs(b[p + k + 1..end], n - 1))
  {
    var rest := b[off..end];
    SliceWithin(b, off, end, 4, 4 + k);
    SliceWithin(b, off, end, 4 + k + 1, end - off);
    assert rest[..4] == b[off..p][..4];
    assert rest[4 + k] == b[p + k];
    assert rest[4 + k + 1..] == rest[4 + k + 1..end - off];
    TakeWhole(rest, n, k, b[p..p + k], b[p + k + 1..end]);
  }

  lemma SliceWithin(b: seq<Byte>, off: nat, end: nat, i: nat, j: nat)
    requires off <= end <= |b| && i <= j <= end - off
    ensures b[off..end][i..j] == b[off + i..off + j]
  {
    var x, y := b[off..end][i..j], b[off + i..off + j];
    assert |x| == |y|;
    forall t | 0 <= t < |x| ensures x[t] == y[t] {
      assert x[t] == b[off..end][i + t] == b[off + i + t];
    }
  }

  // v with one more argument at p.
  function Longer(v: View, p: nat, k: nat): View {
    v.(argv := v.argv + [p], lens := v.lens + [k])
  }

  lemma InBoundsNext(b: seq<Byte>, v: View, end: nat, p: nat, k: nat)
    requires InBounds(b, v, end) && |v.argv| < ARGS_MAX
    requires p + k < end && b[p + k] == 0
    ensures InBounds(b, Longer(v, p, k), end)
    ensures Slices(b, v.argv + [p], v.lens + [k]) == Slices(b, v.argv, v.lens) + [b[p..p + k]]
  {
    SlicesNext(b, v.argv, v.lens, p, k);
  }

  lemma ScanOne(b: seq<Byte>, end: nat, all: Option<seq<seq<Byte>>>, v: View, off: nat, n: nat, p: nat, k: nat)
    requires Scanning(b, end, all, v, off, n) && n > 0 && |v.argv| < ARGS_MAX
    requires off <= p && p + k < end && b[p + k] == 0
    requires TakeArgs(b[off..end], n) == Before([b[p..p + k]], TakeArgs(b[p + k + 1..end], n - 1))
    ensures Scanning(b, end, all, Longer(v, p, k), p + k + 1, n - 1)
  {
    InBoundsNext(b, v, end, p, k);
    BeforeNext(Slices(b, v.argv, v.lens), b[p..p + k], TakeArgs(b[p + k + 1..end], n - 1));
  }

  lemma WholeOne(b: seq<Byte>, end: nat, all: Option<seq<seq<Byte>>>, v: View, off: nat, n: nat, p: nat, k: nat)
    requires Scanning(b, end, all, v, off, n) && n > 0 && |v.argv| < ARGS_MAX
    requires p == off + 4 && p + k < end && k == Get32(b[off..p]) && b[p + k] == 0
    ensures Scanning(b, end, all, Longer(v, p, k), p + k + 1, n - 1)
  {
    HeadWhole(b, off, end, n, p, k);
    ScanOne(b, end, all, v, off, n, p, k);
  }

  lemma ShortOne(b: seq<Byte>, end: nat, all: Option<seq<seq<Byte>>>, v: View, off: nat, n: nat)
    requires Scanning(b, end, all, v, off, n) && n > 0
    requires off + 4 <= end ==> var k := Get32(b[off..off + 4]); off + 4 + k >= end || b[off + 4 + k] != 0
    ensures all.None?
  {
    HeadShort(b, off, end, n);
  }

  lemma SlicesNext(b: seq<Byte>, at: seq<nat>, lens: seq<nat>, p: nat, n: nat)
    requires |at| == |lens| && forall i :: 0 <= i < |at| ==> at[i] + lens[i] <= |b|
    requires p + n <= |b|
    ensures forall i :: 0 <= i < |at + [p]| ==> (at + [p])[i] + (lens + [n])[i] <= |b|
    ensures Slices(b, at + [p], lens + [n]) == Slices(b, at, lens) + [b[p..p + n]]
  {
    assert (at + [p])[..|at|] == at && (lens + [n])[..|at|] == lens;
  }

  lemma BeforeNext(done: seq<seq<Byte>>, a: seq<Byte>, more: Option<seq<seq<Byte>>>)
    ensures Before(done, Before([a], more)) == Before(done + [a], more)
  {
    if more.Some? {
      assert done + ([a] + more.value) == done + [a] + more.value;
    }
  }

  // The decoder reads; it never writes. The result is the length of the frame,
  // nothing when more bytes are wanted, and less than nothing for bytes that
  // are no frame. Arguments are found inside the frame, each with a zero byte
  // after it.
  method DecodeView(b: seq<Byte>) returns (used: int, v: View)
    ensures used < 0 <==> Decode(b) == Broken
    ensures used == 0 <==> Decode(b) == NeedMore
    ensures used > 0 ==> InBounds(b, v, used) && Decode(b) == Got(Seen(b, v, used), used)
  {
    v := View(0, 0, [], []);
    if |b| < 4 {
      return 0, v;
    }
    var len := Get32(b);
    if len > FRAME_MAX || len < HEADER - 4 {
      return -1, v;
    }
    if |b| < 4 + len {
      return 0, v;
    }
    var argc := b[9];
    if argc > ARGS_MAX {
      return -1, v;
    }
    var end := 4 + len;
    v := View(b[4], Get32(b[5..9]), [], []);
    var off: nat := HEADER;
    ghost var all := TakeArgs(b[HEADER..end], argc);
    BeforeAny(all);
    for i := 0 to argc
      invariant Scanning(b, end, all, v, off, argc - i) && |v.argv| == i
      invariant v.verb == b[4] && v.serial == Get32(b[5..9])
    {
      var ok;
      ok, v, off := Next(b, end, v, off, all, argc - i);
      if !ok {
        return -1, v;
      }
    }
    if off != end {
      return -1, v;
    }
    assert b[off..end] == [];
    return end, v;
  }

  method Next(b: seq<Byte>, end: nat, was: View, start: nat, ghost all: Option<seq<seq<Byte>>>, ghost n: nat)
      returns (ok: bool, v: View, off: nat)
    requires Scanning(b, end, all, was, start, n) && n > 0 && |was.argv| < ARGS_MAX
    ensures !ok ==> all.None?
    ensures ok ==> Scanning(b, end, all, v, off, n - 1)
    ensures ok ==> |v.argv| == |was.argv| + 1 && v.verb == was.verb && v.serial == was.serial
  {
    v, off := was, start;
    if off + 4 > end {
      ShortOne(b, end, all, v, off, n);
      return false, v, off;
    }
    var p := off + 4;
    var k := Get32(b[off..p]);
    if k > end - 4 || p + k + 1 > end || b[p + k] != 0 {
      ShortOne(b, end, all, v, off, n);
      return false, v, off;
    }
    WholeOne(b, end, all, v, off, n, p, k);
    return true, Longer(v, p, k), p + k + 1;
  }

  lemma BeforeAny(more: Option<seq<seq<Byte>>>)
    ensures Before([], more) == more
  {
    if more.Some? {
      assert [] + more.value == more.value;
    }
  }

  // ----- The socket buffer --------------------------------------------------

  // What a buffer of bytes holds: the frames in it, what is left after them,
  // and whether that is still a stream of frames.
  datatype Drained = Drained(frames: seq<Frame>, rest: seq<Byte>, ok: bool)

  function Ahead(fs: seq<Frame>, d: Drained): Drained {
    d.(frames := fs + d.frames)
  }

  function Drain(b: seq<Byte>): Drained
    decreases |b|
  {
    match Decode(b)
    case NeedMore => Drained([], b, true)
    case Broken => Drained([], b, false)
    case Got(f, n) => Ahead([f], Drain(b[n..]))
  }

  class Reader {
    const buf: array<Byte>
    var len: nat

    ghost predicate Valid()
      reads this
    {
      buf.Length == 2 * FRAME_MAX && len <= buf.Length
    }

    ghost function Held(): seq<Byte>
      reads this, buf
      requires Valid()
    {
      buf[..len]
    }

    constructor ()
      ensures Valid() && Held() == [] && fresh(buf)
    {
      buf := new Byte[2 * FRAME_MAX];
      len := 0;
    }

    // The socket is readable and `incoming` is what it has: nothing if the
    // other end closed, and no more is taken than there is room for. Acting on
    // frame number `dies`, counting from 0, is what kills the host, if it comes
    // to that.
    method Readable(incoming: seq<Byte>, dies: nat) returns (taken: nat, frames: seq<Frame>, alive: bool)
      requires Valid()
      modifies this, buf
      ensures Valid() && taken <= |incoming|
      ensures old(len) < buf.Length && incoming != [] ==>
                && taken == (if |incoming| < buf.Length - old(len) then |incoming| else buf.Length - old(len))
                && var d := Drain(old(Held()) + incoming[..taken]);
                   && frames == (if dies < |d.frames| then d.frames[..dies + 1] else d.frames)
                   && alive == (d.ok && dies >= |d.frames|) && (alive ==> Held() == d.rest)
      ensures old(len) >= buf.Length || incoming == [] ==> !alive && frames == [] && taken == 0
    {
      taken, frames, alive := 0, [], false;
      if len >= buf.Length || incoming == [] {
        return;
      }
      taken := if |incoming| < buf.Length - len then |incoming| else buf.Length - len;
      forall k | 0 <= k < taken {
        buf[len + k] := incoming[k];
      }
      ghost var all := old(Held()) + incoming[..taken];
      len := len + taken;
      assert Held() == all;
      var off := 0;
      frames, off, alive := Scan(dies);
      if alive && off > 0 {
        MoveDown(off);
      }
    }

    // Every whole frame from the front of the buffer, until the host dies.
    method Scan(dies: nat) returns (frames: seq<Frame>, off: nat, ok: bool)
      requires Valid()
      ensures off <= len
      ensures var d := Drain(Held());
              if dies < |d.frames| then frames == d.frames[..dies + 1] && !ok
              else d == Drained(frames, Held()[off..], ok)
    {
      frames, off := [], 0;
      assert Held()[0..] == Held();
      while true
        invariant off <= len && |frames| <= dies
        invariant Drain(Held()) == Ahead(frames, Drain(Held()[off..]))
        decreases len - off
      {
        assert buf[off..len] == Held()[off..];
        var used, f := TakeFrame(buf[off..len], Held(), off, frames);
        if used <= 0 {
          return frames, off, used == 0;
        }
        frames := frames + [f];
        if |frames| > dies {
          return frames, off, false;
        }
        off := off + used;
      }
    }

    // The bytes not yet used, moved to the front.
    method MoveDown(off: nat)
      requires Valid() && off <= len
      modifies this, buf
      ensures Valid() && Held() == old(Held()[off..])
    {
      forall k | 0 <= k < len - off {
        buf[k] := buf[off + k];
      }
      len := len - off;
    }
  }

  // The next frame, with its arguments copied out of the buffer: b is what is
  // left of `all` after the frames fs.
  method TakeFrame(b: seq<Byte>, ghost all: seq<Byte>, ghost off: nat, ghost fs: seq<Frame>)
      returns (used: int, f: Frame)
    requires off <= |all| && b == all[off..] && Drain(all) == Ahead(fs, Drain(b))
    ensures used <= |b|
    ensures used <= 0 ==> Drain(all) == Drained(fs, b, used == 0)
    ensures used > 0 ==> Drain(all) == Ahead(fs + [f], Drain(all[off + used..]))
  {
    var v;
    used, v := DecodeView(b);
    f := Frame(v.verb, v.serial, []);
    if used > 0 {
      f := Frame(v.verb, v.serial, Copied(b, v, used));
      Onward(all, off, fs, f, used);
    } else {
      Onset(b);
    }
  }

  function Copied(b: seq<Byte>, v: View, ghost end: nat): (r: seq<seq<Byte>>)
    requires InBounds(b, v, end)
    ensures r == Slices(b, v.argv, v.lens)
    decreases |v.argv|
  {
    if v.argv == [] then
      []
    else
      var n := |v.argv| - 1;
      Copied(b, v.(argv := v.argv[..n], lens := v.lens[..n]), end) + [b[v.argv[n]..v.argv[n] + v.lens[n]]]
  }

  // ----- Streams ------------------------------------------------------------

  function Stream(fs: seq<Frame>): seq<Byte>
    requires forall f :: f in fs ==> Legal(f)
  {
    if fs == [] then [] else assert Legal(fs[0]); Wire(fs[0]) + Stream(fs[1..])
  }

  function Flatten(chunks: seq<seq<Byte>>): seq<Byte> {
    if chunks == [] then [] else chunks[0] + Flatten(chunks[1..])
  }

  // One reading after another, until the bytes stop making sense.
  function Fed(held: seq<Byte>, chunks: seq<seq<Byte>>): Drained
    decreases |chunks|
  {
    if chunks == [] then
      Drained([], held, true)
    else
      var d := Drain(held + chunks[0]);
      if d.ok then Ahead(d.frames, Fed(d.rest, chunks[1..])) else d
  }

  lemma AheadTwice(xs: seq<Frame>, ys: seq<Frame>, d: Drained)
    ensures Ahead(xs, Ahead(ys, d)) == Ahead(xs + ys, d)
  {
    assert xs + (ys + d.frames) == xs + ys + d.frames;
  }

  lemma Onset(b: seq<Byte>)
    requires !Decode(b).Got?
    ensures Drain(b) == Drained([], b, Decode(b) == NeedMore)
  {
  }

  // One more frame found in a buffer, after those before `off`.
  lemma Onward(b: seq<Byte>, off: nat, fs: seq<Frame>, f: Frame, used: nat)
    requires off + used <= |b| && Decode(b[off..]) == Got(f, used)
    requires Drain(b) == Ahead(fs, Drain(b[off..]))
    ensures Drain(b) == Ahead(fs + [f], Drain(b[off + used..]))
  {
    assert b[off..][used..] == b[off + used..];
    AheadTwice(fs, [f], Drain(b[off + used..]));
  }

  // What is left over is never a whole frame, so it is always shorter than
  // the longest one: the buffer, two frames long, always has room to read.
  lemma {:induction false} LeftOver(b: seq<Byte>)
    ensures Drain(b).ok ==> Decode(Drain(b).rest) == NeedMore && |Drain(b).rest| < FRAME_MAX + 4 < 2 * FRAME_MAX
    ensures !Drain(b).ok ==> Decode(Drain(b).rest) == Broken
    decreases |b|
  {
    if Decode(b).Got? {
      LeftOver(b[Decode(b).used..]);
    }
  }

  // Bytes that arrive later change nothing that was made of those before.
  lemma {:induction false} DrainMore(b: seq<Byte>, more: seq<Byte>)
    ensures Drain(b).ok ==> Drain(b + more) == Ahead(Drain(b).frames, Drain(Drain(b).rest + more))
    ensures !Drain(b).ok ==> Drain(b + more).frames == Drain(b).frames && !Drain(b + more).ok
    decreases |b|
  {
    match Decode(b)
    case NeedMore =>
      assert [] + Drain(b + more).frames == Drain(b + more).frames;
    case Broken =>
      VerdictStands(b, more);
    case Got(f, n) =>
      VerdictStands(b, more);
      var rest := b[n..];
      assert (b + more)[n..] == rest + more;
      DrainMore(rest, more);
      if Drain(rest).ok {
        AheadTwice([f], Drain(rest).frames, Drain(Drain(rest).rest + more));
      }
  }

  // However a stream is cut, the same frames come out of it in the same order,
  // up to the same point of failure, with the same bytes left waiting.
  lemma {:induction false} CutAnyWay(held: seq<Byte>, chunks: seq<seq<Byte>>)
    requires Decode(held) == NeedMore
    ensures Fed(held, chunks).frames == Drain(held + Flatten(chunks)).frames
    ensures Fed(held, chunks).ok == Drain(held + Flatten(chunks)).ok
    ensures Fed(held, chunks).ok ==> Fed(held, chunks) == Drain(held + Flatten(chunks))
    decreases |chunks|
  {
    if chunks == [] {
      assert held + [] == held;
    } else {
      var b, more := held + chunks[0], Flatten(chunks[1..]);
      assert held + Flatten(chunks) == b + more;
      DrainMore(b, more);
      if Drain(b).ok {
        LeftOver(b);
        CutAnyWay(Drain(b).rest, chunks[1..]);
      }
    }
  }

  lemma {:induction false} DrainStream(fs: seq<Frame>, tail: seq<Byte>)
    requires forall f :: f in fs ==> Legal(f)
    requires Decode(tail) == NeedMore
    ensures Drain(Stream(fs) + tail) == Drained(fs, tail, true)
  {
    if fs == [] {
      assert Stream(fs) + tail == tail;
    } else {
      assert Legal(fs[0]);
      var w, rest := Wire(fs[0]), Stream(fs[1..]) + tail;
      assert Stream(fs) + tail == w + rest;
      DecodesWire(fs[0], rest);
      DrainStream(fs[1..], tail);
      DrainOne(w, rest, fs[0]);
      assert fs == [fs[0]] + fs[1..];
    }
  }

  lemma DrainOne(w: seq<Byte>, rest: seq<Byte>, f: Frame)
    requires Decode(w + rest) == Got(f, |w|)
    ensures Drain(w + rest) == Ahead([f], Drain(rest))
  {
    assert (w + rest)[|w|..] == rest;
  }

  // Any list of legal frames, written one after another, delivered in any
  // pieces and cut off anywhere inside a further frame, is read as exactly
  // that list, with the unfinished frame still waiting.
  lemma StreamArrives(fs: seq<Frame>, last: Frame, n: nat, chunks: seq<seq<Byte>>)
    requires Legal(last) && n < |Wire(last)|
    requires forall f :: f in fs ==> Legal(f)
    requires Flatten(chunks) == Stream(fs) + Wire(last)[..n]
    ensures Fed([], chunks) == Drained(fs, Wire(last)[..n], true)
  {
    PrefixNeedsMore(last, n);
    DrainStream(fs, Wire(last)[..n]);
    CutAnyWay([], chunks);
    assert [] + Flatten(chunks) == Flatten(chunks);
  }

  // Two lists of frames with the same bytes are the same list.
  lemma StreamIsUnique(fs: seq<Frame>, gs: seq<Frame>)
    requires forall f :: f in fs ==> Legal(f)
    requires forall g :: g in gs ==> Legal(g)
    requires Stream(fs) == Stream(gs)
    ensures fs == gs
  {
    DrainStream(fs, []);
    DrainStream(gs, []);
  }
}
