/**
 * The message queue of one connection, byte by byte: two lists of messages, of
 * either of which the first may be partly written. However many bytes a write
 * takes, what is written is whole lines, one after the other, in the queue's
 * order.
 */
module MsgQ {
  import Q = SendQueue

  type Byte = b: int | 0 <= b < 256

  datatype Msg = Msg(text: seq<Byte>, sent: nat)

  // What is left of a message, and of several.
  function Rest(m: Msg): seq<Byte> {
    if m.sent <= |m.text| then m.text[m.sent..] else []
  }

  function Rests(ms: seq<Msg>): seq<Byte> {
    if ms == [] then [] else Rest(ms[0]) + Rests(ms[1..])
  }

  function Concat(ss: seq<seq<Byte>>): seq<Byte> {
    if ss == [] then [] else Concat(ss[..|ss| - 1]) + ss[|ss| - 1]
  }

  // A line by its number, and several.
  function Text(lines: seq<seq<Byte>>, n: nat): seq<Byte> {
    if n < |lines| then lines[n] else []
  }

  function Bytes(lines: seq<seq<Byte>>, ns: seq<nat>): seq<Byte> {
    if ns == [] then [] else Text(lines, ns[0]) + Bytes(lines, ns[1..])
  }

  lemma Tail<T>(a: seq<T>, b: seq<T>)
    requires a != []
    ensures (a + b)[0] == a[0] && (a + b)[1..] == a[1..] + b
  {
  }

  lemma {:induction false} BytesBoth(lines: seq<seq<Byte>>, a: seq<nat>, b: seq<nat>)
    ensures Bytes(lines, a + b) == Bytes(lines, a) + Bytes(lines, b)
  {
    if a == [] {
      assert a + b == b;
    } else {
      Tail(a, b);
      BytesBoth(lines, a[1..], b);
      Associative(Text(lines, a[0]), Bytes(lines, a[1..]), Bytes(lines, b));
    }
  }

  predicate Known(lines: seq<seq<Byte>>, ns: seq<nat>) {
    ns == [] || (ns[0] < |lines| && Known(lines, ns[1..]))
  }

  lemma {:induction false} KnownBoth(lines: seq<seq<Byte>>, a: seq<nat>, b: seq<nat>)
    ensures Known(lines, a + b) <==> Known(lines, a) && Known(lines, b)
  {
    if a == [] {
      assert a + b == b;
    } else {
      KnownBoth(lines, a[1..], b);
      assert (a + b)[1..] == a[1..] + b;
    }
  }

  lemma KnownNext(lines: seq<seq<Byte>>, ns: seq<nat>, n: nat)
    requires Known(lines, ns) && n < |lines|
    ensures Known(lines, ns + [n])
  {
    KnownBoth(lines, ns, [n]);
    assert [n][1..] == [];
  }

  lemma BytesOne(lines: seq<seq<Byte>>, ns: seq<nat>, n: nat)
    requires n < |lines|
    ensures Bytes(lines, ns + [n]) == Bytes(lines, ns) + lines[n]
  {
    BytesBoth(lines, ns, [n]);
    assert [n][1..] == [];
  }

  lemma {:induction false} KnownMore(lines: seq<seq<Byte>>, text: seq<Byte>, ns: seq<nat>)
    requires Known(lines, ns)
    ensures Known(lines + [text], ns)
  {
    if ns != [] {
      KnownMore(lines, text, ns[1..]);
    }
  }

  lemma {:induction false} BytesMore(lines: seq<seq<Byte>>, text: seq<Byte>, ns: seq<nat>)
    requires Known(lines, ns)
    ensures Bytes(lines + [text], ns) == Bytes(lines, ns)
  {
    if ns != [] {
      BytesMore(lines, text, ns[1..]);
    }
  }

  lemma {:induction false} RestsBoth(a: seq<Msg>, b: seq<Msg>)
    ensures Rests(a + b) == Rests(a) + Rests(b)
  {
    if a == [] {
      assert a + b == b;
    } else {
      Tail(a, b);
      RestsBoth(a[1..], b);
      Associative(Rest(a[0]), Rests(a[1..]), Rests(b));
    }
  }

  lemma RestsNext(ms: seq<Msg>, text: seq<Byte>)
    ensures Rests(ms + [Msg(text, 0)]) == Rests(ms) + text
  {
    RestsBoth(ms, [Msg(text, 0)]);
    assert [Msg(text, 0)][1..] == [] && Rest(Msg(text, 0)) == text;
  }

  lemma BytesNext(lines: seq<seq<Byte>>, text: seq<Byte>, ns: seq<nat>)
    requires Known(lines, ns)
    ensures Bytes(lines + [text], ns + [|lines|]) == Bytes(lines, ns) + text
  {
    BytesMore(lines, text, ns);
    BytesBoth(lines + [text], ns, [|lines|]);
    assert [|lines|][1..] == [];
  }

  lemma ConcatNext(ss: seq<seq<Byte>>, s: seq<Byte>)
    ensures Concat(ss + [s]) == Concat(ss) + s
  {
    assert (ss + [s])[..|ss|] == ss;
  }

  predicate Partial(ms: seq<Msg>) { ms != [] && ms[0].sent > 0 }

  // Those of which nothing has been written.
  function Untouched(ms: seq<Msg>): seq<Msg> { if Partial(ms) then ms[1..] else ms }

  // The messages of a list are the lines with these numbers.
  predicate Spells(ms: seq<Msg>, lines: seq<seq<Byte>>, ns: seq<nat>) {
    if ms == [] || ns == [] then
      ms == [] && ns == []
    else
      ns[0] < |lines| && lines[ns[0]] != [] && ms[0] == Msg(lines[ns[0]], 0) && Spells(ms[1..], lines, ns[1..])
  }

  lemma {:induction false} SpellsMore(ms: seq<Msg>, lines: seq<seq<Byte>>, ns: seq<nat>, text: seq<Byte>)
    requires Spells(ms, lines, ns) && text != []
    ensures Spells(ms, lines + [text], ns)
    ensures Spells(ms + [Msg(text, 0)], lines + [text], ns + [|lines|])
  {
    if ms == [] {
      assert [Msg(text, 0)][1..] == [] && [|lines|][1..] == [];
      assert ms + [Msg(text, 0)] == [Msg(text, 0)] && ns + [|lines|] == [|lines|];
    } else {
      SpellsMore(ms[1..], lines, ns[1..], text);
      assert (ms + [Msg(text, 0)])[1..] == ms[1..] + [Msg(text, 0)];
      assert (ns + [|lines|])[1..] == ns[1..] + [|lines|];
    }
  }

  lemma {:induction false} SpellsKnown(ms: seq<Msg>, lines: seq<seq<Byte>>, ns: seq<nat>)
    requires Spells(ms, lines, ns)
    ensures Known(lines, ns)
  {
    if ms != [] {
      SpellsKnown(ms[1..], lines, ns[1..]);
    }
  }

  lemma {:induction false} SpellsBytes(ms: seq<Msg>, lines: seq<seq<Byte>>, ns: seq<nat>)
    requires Spells(ms, lines, ns)
    ensures Rests(ms) == Bytes(lines, ns)
  {
    if ms != [] {
      SpellsBytes(ms[1..], lines, ns[1..]);
    }
  }

  // What has to go out before anything that may come to be queued.
  function Near(queue: seq<Msg>, prio: seq<Msg>): seq<Byte> {
    (if Partial(queue) then Rest(queue[0]) else []) + Rests(prio)
  }

  // Everything still to be written, in the order it is.
  function Left(queue: seq<Msg>, prio: seq<Msg>): seq<Byte> {
    Near(queue, prio) + Rests(Untouched(queue))
  }

  // One list's messages: at most the first is partly written, and the others
  // are the lines that wait in it.
  ghost predicate Listed(ms: seq<Msg>, lines: seq<seq<Byte>>, ns: seq<nat>) {
    Spells(Untouched(ms), lines, ns) && (Partial(ms) ==> ms[0].sent < |ms[0].text|)
  }

  lemma OnlyFirst(ms: seq<Msg>, lines: seq<seq<Byte>>, ns: seq<nat>)
    requires Listed(ms, lines, ns) && ms != []
    ensures ms[0].sent < |ms[0].text| && !Partial(ms[1..])
    ensures !Partial(ms) ==>
              && ns != [] && ns[0] < |lines| && lines[ns[0]] == ms[0].text == Rest(ms[0])
              && Spells(ms[1..], lines, ns[1..])
  {
    if !Partial(ms) {
      assert Spells(ms[1..], lines, ns[1..]);
    }
  }

  ghost predicate Ok(queue: seq<Msg>, prio: seq<Msg>, lines: seq<seq<Byte>>, q: Q.Queue, written: seq<Byte>) {
    && !(Partial(queue) && Partial(prio))
    && Listed(queue, lines, q.norm) && Listed(prio, lines, q.prio) && Known(lines, q.got)
    && written + Near(queue, prio) == Bytes(lines, Q.Ahead(q))
  }

  // What was written is the beginning of whole lines in the queue's order,
  // and what is left is the rest of them.
  lemma WholeLines(queue: seq<Msg>, prio: seq<Msg>, lines: seq<seq<Byte>>, q: Q.Queue, written: seq<Byte>)
    requires Ok(queue, prio, lines, q, written)
    ensures written + Left(queue, prio) == Bytes(lines, Q.Order(q))
  {
    SpellsBytes(Untouched(queue), lines, q.norm);
    BytesBoth(lines, Q.Ahead(q), q.norm);
    Associative(written, Near(queue, prio), Rests(Untouched(queue)));
  }

  lemma ListedMore(ms: seq<Msg>, lines: seq<seq<Byte>>, ns: seq<nat>, text: seq<Byte>)
    requires Listed(ms, lines, ns) && text != []
    ensures Listed(ms, lines + [text], ns)
    ensures Listed(ms + [Msg(text, 0)], lines + [text], ns + [|lines|])
    ensures Partial(ms + [Msg(text, 0)]) == Partial(ms)
    ensures Rests(ms + [Msg(text, 0)]) == Rests(ms) + text
    ensures Rests(Untouched(ms + [Msg(text, 0)])) == Rests(Untouched(ms)) + text
  {
    RestsNext(ms, text);
    RestsNext(Untouched(ms), text);
    SpellsMore(Untouched(ms), lines, ns, text);
    assert Untouched(ms + [Msg(text, 0)]) == Untouched(ms) + [Msg(text, 0)];
  }

  lemma AheadKnown(queue: seq<Msg>, prio: seq<Msg>, lines: seq<seq<Byte>>, q: Q.Queue, written: seq<Byte>,
      text: seq<Byte>)
    requires Ok(queue, prio, lines, q, written)
    ensures Known(lines, Q.Ahead(q)) && Known(lines + [text], q.got)
  {
    SpellsKnown(Untouched(prio), lines, q.prio);
    KnownBoth(lines, q.got, q.prio);
    KnownMore(lines, text, q.got);
  }

  lemma AddedHigh(queue: seq<Msg>, prio: seq<Msg>, lines: seq<seq<Byte>>, q: Q.Queue, written: seq<Byte>,
      text: seq<Byte>)
    requires Ok(queue, prio, lines, q, written) && text != []
    ensures Ok(queue, prio + [Msg(text, 0)], lines + [text], Q.Add(q, |lines|, true), written)
    ensures |Left(queue, prio + [Msg(text, 0)])| == |Left(queue, prio)| + |text|
  {
    ListedMore(queue, lines, q.norm, text);
    ListedMore(prio, lines, q.prio, text);
    AheadKnown(queue, prio, lines, q, written, text);
    Q.AddOrder(q, |lines|, true);
    BytesNext(lines, text, Q.Ahead(q));
    var head := if Partial(queue) then Rest(queue[0]) else [];
    assert Near(queue, prio + [Msg(text, 0)]) == Near(queue, prio) + text by {
      Associative(head, Rests(prio), text);
    }
    Associative(written, Near(queue, prio), text);
  }

  lemma Associative(a: seq<Byte>, b: seq<Byte>, c: seq<Byte>)
    ensures a + (b + c) == a + b + c
  {
  }

  lemma AddedLow(queue: seq<Msg>, prio: seq<Msg>, lines: seq<seq<Byte>>, q: Q.Queue, written: seq<Byte>,
      text: seq<Byte>)
    requires Ok(queue, prio, lines, q, written) && text != []
    ensures Ok(queue + [Msg(text, 0)], prio, lines + [text], Q.Add(q, |lines|, false), written)
    ensures |Left(queue + [Msg(text, 0)], prio)| == |Left(queue, prio)| + |text|
  {
    ListedMore(queue, lines, q.norm, text);
    ListedMore(prio, lines, q.prio, text);
    AheadKnown(queue, prio, lines, q, written, text);
    Q.AddOrder(q, |lines|, false);
    BytesMore(lines, text, Q.Ahead(q));
  }

  // ----- Writing ------------------------------------------------------------

  // k bytes of the first message are written; it goes when that is all of it.
  function Cut(ms: seq<Msg>, k: nat): seq<Msg>
    requires ms != []
  {
    if k >= |Rest(ms[0])| then ms[1..] else [ms[0].(sent := ms[0].sent + k)] + ms[1..]
  }

  lemma CutIs(ms: seq<Msg>, k: nat)
    requires ms != [] && 0 < k <= |Rest(ms[0])| && !Partial(ms[1..])
    ensures Untouched(Cut(ms, k)) == ms[1..] && Partial(Cut(ms, k)) == (k < |Rest(ms[0])|)
    ensures Rest(ms[0])[k..] == if Partial(Cut(ms, k)) then Rest(Cut(ms, k)[0]) else []
    ensures Rests(Cut(ms, k)) == Rest(ms[0])[k..] + Rests(ms[1..])
    ensures Partial(Cut(ms, k)) ==> Cut(ms, k)[0].sent < |Cut(ms, k)[0].text|
  {
    if k < |Rest(ms[0])| {
      assert Cut(ms, k)[1..] == ms[1..];
    }
  }

  // k bytes of m, before r, are written after w.
  lemma Shift(w: seq<Byte>, m: seq<Byte>, k: nat, r: seq<Byte>)
    requires k <= |m|
    ensures w + m[..k] + (m[k..] + r) == w + (m + r)
  {
  }

  // The rest of a message already begun in the normal list goes first.
  lemma TookBegun(queue: seq<Msg>, prio: seq<Msg>, lines: seq<seq<Byte>>, q: Q.Queue, written: seq<Byte>, k: nat)
    requires Ok(queue, prio, lines, q, written) && Partial(queue) && 0 < k <= |Rest(queue[0])|
    ensures Ok(Cut(queue, k), prio, lines, q, written + Rest(queue[0])[..k])
    ensures |Left(Cut(queue, k), prio)| == |Left(queue, prio)| - k
  {
    OnlyFirst(queue, lines, q.norm);
    CutIs(queue, k);
    Shift(written, Rest(queue[0]), k, Rests(prio));
  }

  function AfterHigh(prio: seq<Msg>, q: Q.Queue): Q.Queue { if Partial(prio) then q else Q.Begin(q) }

  lemma HighListed(prio: seq<Msg>, lines: seq<seq<Byte>>, q: Q.Queue, k: nat)
    requires Listed(prio, lines, q.prio) && Known(lines, q.got) && prio != [] && 0 < k <= |Rest(prio[0])|
    ensures Listed(Cut(prio, k), lines, AfterHigh(prio, q).prio) && Known(lines, AfterHigh(prio, q).got)
    ensures Q.Ahead(AfterHigh(prio, q)) == Q.Ahead(q) && AfterHigh(prio, q).norm == q.norm
  {
    OnlyFirst(prio, lines, q.prio);
    CutIs(prio, k);
    if !Partial(prio) {
      KnownNext(lines, q.got, q.prio[0]);
      Q.BeginHigh(q);
    }
  }

  // Then the priority list.
  lemma TookHigh(queue: seq<Msg>, prio: seq<Msg>, lines: seq<seq<Byte>>, q: Q.Queue, written: seq<Byte>, k: nat)
    requires Ok(queue, prio, lines, q, written) && High(queue, prio) && 0 < k <= |Rest(prio[0])|
    ensures Ok(queue, Cut(prio, k), lines, AfterHigh(prio, q), written + Rest(prio[0])[..k])
    ensures |Left(queue, Cut(prio, k))| == |Left(queue, prio)| - k
  {
    OnlyFirst(prio, lines, q.prio);
    HighListed(prio, lines, q, k);
    CutIs(prio, k);
    Shift(written, Rest(prio[0]), k, Rests(prio[1..]));
    assert [] + Rests(prio) == Rests(prio) && [] + Rests(Cut(prio, k)) == Rests(Cut(prio, k));
  }

  lemma LowListed(queue: seq<Msg>, lines: seq<seq<Byte>>, ns: seq<nat>, k: nat)
    requires Listed(queue, lines, ns) && !Partial(queue) && queue != [] && 0 < k <= |Rest(queue[0])|
    ensures ns != [] && ns[0] < |lines| && lines[ns[0]] == Rest(queue[0]) && Listed(Cut(queue, k), lines, ns[1..])
  {
    OnlyFirst(queue, lines, ns);
    CutIs(queue, k);
  }

  lemma LowBegun(lines: seq<seq<Byte>>, q: Q.Queue)
    requires q.prio == [] && q.norm != [] && q.norm[0] < |lines| && Known(lines, q.got)
    ensures Known(lines, Q.Begin(q).got)
    ensures Bytes(lines, Q.Ahead(Q.Begin(q))) == Bytes(lines, Q.Ahead(q)) + lines[q.norm[0]]
  {
    Q.BeginLow(q);
    KnownNext(lines, q.got, q.norm[0]);
    BytesOne(lines, Q.Ahead(q), q.norm[0]);
  }

  // And the normal list only when that is empty.
  lemma TookLow(queue: seq<Msg>, lines: seq<seq<Byte>>, q: Q.Queue, written: seq<Byte>, k: nat)
    requires Ok(queue, [], lines, q, written) && !Partial(queue) && queue != [] && 0 < k <= |Rest(queue[0])|
    ensures Ok(Cut(queue, k), [], lines, Q.Begin(q), written + Rest(queue[0])[..k])
    ensures |Left(Cut(queue, k), [])| == |Left(queue, [])| - k
  {
    var m := Rest(queue[0]);
    LowListed(queue, lines, q.norm, k);
    LowBegun(lines, q);
    OnlyFirst(queue, lines, q.norm);
    CutIs(queue, k);
    Shift(written, m, k, []);
    assert written + Near(queue, []) == written && m + [] == m;
  }

  // ----- One message at a time ----------------------------------------------

  // The message whose bytes go next.
  function First(queue: seq<Msg>, prio: seq<Msg>): Msg
    requires queue != [] || prio != []
  {
    if Partial(queue) || prio == [] then queue[0] else prio[0]
  }

  predicate High(queue: seq<Msg>, prio: seq<Msg>) { !Partial(queue) && prio != [] }

  // How many lines are begun when some of it is written.
  function Begun(queue: seq<Msg>, prio: seq<Msg>): nat
    requires queue != [] || prio != []
  {
    if First(queue, prio).sent == 0 then 1 else 0
  }

  lemma FirstHasSome(queue: seq<Msg>, prio: seq<Msg>, lines: seq<seq<Byte>>, q: Q.Queue, written: seq<Byte>)
    requires Ok(queue, prio, lines, q, written) && (queue != [] || prio != [])
    ensures First(queue, prio).sent < |First(queue, prio).text|
  {
    if High(queue, prio) { OnlyFirst(prio, lines, q.prio); } else { OnlyFirst(queue, lines, q.norm); }
  }

  // k bytes of it are written.
  predicate Cuts(queue: seq<Msg>, prio: seq<Msg>, k: nat, queue': seq<Msg>, prio': seq<Msg>)
    requires queue != [] || prio != []
  {
    if High(queue, prio) then queue' == queue && prio' == Cut(prio, k) else queue' == Cut(queue, k) && prio' == prio
  }

  lemma Took(queue: seq<Msg>, prio: seq<Msg>, lines: seq<seq<Byte>>, q: Q.Queue, written: seq<Byte>, k: nat,
      queue': seq<Msg>, prio': seq<Msg>)
    requires Ok(queue, prio, lines, q, written) && (queue != [] || prio != []) && 0 < k <= |Rest(First(queue, prio))|
    requires Cuts(queue, prio, k, queue', prio')
    ensures Ok(queue', prio', lines, Q.BeginMany(q, Begun(queue, prio)), written + Rest(First(queue, prio))[..k])
    ensures |Left(queue', prio')| == |Left(queue, prio)| - k
    ensures |queue'| + |prio'| == |queue| + |prio| - if k == |Rest(First(queue, prio))| then 1 else 0
  {
    assert Q.BeginMany(q, 0) == q && Q.BeginMany(q, 1) == Q.BeginMany(Q.Begin(q), 0);
    if Partial(queue) { TookBegun(queue, prio, lines, q, written, k); }
    else if prio != [] { TookHigh(queue, prio, lines, q, written, k); }
    else { TookLow(queue, lines, q, written, k); }
  }

  lemma Prefixes(a: seq<Byte>, b: seq<Byte>, all: seq<Byte>)
    requires a <= all && b <= all && |a| <= |b|
    ensures a <= b
  {
  }

  class Queue {
    var queue: seq<Msg>
    var prio: seq<Msg>
    var length: nat
    var count: nat
    ghost var lines: seq<seq<Byte>>   // everything that was queued
    ghost var q: Q.Queue              // the same, by line
    ghost var written: seq<Byte>

    ghost predicate Valid()
      reads this
    {
      && Ok(queue, prio, lines, q, written)
      && length == |Left(queue, prio)| && count == |queue| + |prio|
    }

    constructor ()
      ensures Valid() && q == Q.Empty && lines == [] && written == []
    {
      queue, prio, length, count, lines, q, written := [], [], 0, 0, [], Q.Empty, [];
    }

    method Add(text: seq<Byte>, high: bool)
      requires Valid() && text != []
      modifies this
      ensures Valid() && lines == old(lines) + [text] && written == old(written)
      ensures q == Q.Add(old(q), |old(lines)|, high)
    {
      if high {
        AddedHigh(queue, prio, lines, q, written, text);
        prio := prio + [Msg(text, 0)];
      } else {
        AddedLow(queue, prio, lines, q, written, text);
        queue := queue + [Msg(text, 0)];
      }
      q := Q.Add(q, |lines|, high);
      lines := lines + [text];
      length := length + |text|;
      count := count + 1;
    }

    // n bytes have been written; those of the first message of a list are
    // accounted for, and how many are then left is returned.
    method DelMsg(high: bool, n: nat) returns (left: nat, ghost begun: nat)
      requires Valid() && n > 0 && (queue != [] || prio != []) && high == High(queue, prio)
      modifies this
      ensures Valid() && lines == old(lines) && q == Q.BeginMany(old(q), begun)
      ensures left < n && |written| == old(|written|) + n - left
      ensures length == old(length) - (n - left)
    {
      FirstHasSome(queue, prio, lines, q, written);
      var m := if high then prio[0] else queue[0];
      var rest := |m.text| - m.sent;
      var k := if n >= rest then rest else n;
      ghost var wasQueue, wasPrio := queue, prio;
      if high { prio := Cut(prio, k); } else { queue := Cut(queue, k); }
      Took(wasQueue, wasPrio, lines, q, written, k, queue, prio);
      begun := Begun(wasQueue, wasPrio);
      q, written := Q.BeginMany(q, begun), written + Rest(m)[..k];
      length := length - k;
      if k == rest { count := count - 1; }
      left := n - k;
    }

    // n bytes have been written: what they were is what was to be written
    // next, and so is what is left.
    method Delete(n: nat) returns (ghost begun: nat)
      requires Valid()
      modifies this
      ensures Valid() && lines == old(lines) && q == Q.BeginMany(old(q), begun)
      ensures |written| == old(|written|) + (if n < old(length) then n else old(length))
      ensures Stream() == old(Stream()) && old(written) <= written <= Stream()
    {
      Written();
      var left: nat := n;
      begun := 0;
      while left > 0 && (queue != [] || prio != [])
        invariant Valid() && lines == old(lines) && q == Q.BeginMany(old(q), begun)
        invariant left <= n && |written| == old(|written|) + n - left && length == old(length) - (n - left)
        decreases left
      {
        ghost var more, was := 0, begun;
        left, more := DelMsg(!Partial(queue) && prio != [], left);
        begun := was + more;
        Q.BeginTwice(old(q), was, more);
      }
      assert queue == [] && prio == [] ==> length == 0;
      Written();
      Q.BeginManyOrder(old(q), begun);
      Prefixes(old(written), written, Stream());
    }

    // All bytes there are, written or not, in the order they are received.
    ghost function Stream(): seq<Byte>
      reads this
    {
      Bytes(lines, Q.Order(q))
    }

    lemma Written()
      requires Valid()
      ensures written + Left(queue, prio) == Stream() && |written| + length == |Stream()|
    {
      WholeLines(queue, prio, lines, q, written);
    }

    // What a write is offered: pieces that, one after the other, are what is to
    // be written next, all of it unless there are too few places for them.
    method MapIov(places: nat) returns (iov: seq<seq<Byte>>, len: nat)
      requires Valid() && places > 0
      ensures |iov| <= places && Concat(iov) <= Left(queue, prio) && len == |Concat(iov)|
      ensures |iov| < places ==> Concat(iov) == Left(queue, prio)
    {
      if length < 1 {
        return [], 0;
      }
      iov := MapLists(queue, prio, places);
      len := |Concat(iov)|;
    }
  }

  method MapLists(queue: seq<Msg>, prio: seq<Msg>, places: nat) returns (iov: seq<seq<Byte>>)
    requires places > 0
    ensures |iov| <= places && Concat(iov) <= Left(queue, prio)
    ensures |iov| < places ==> Concat(iov) == Left(queue, prio)
  {
    iov := [];
    if Partial(queue) {
      iov := [Rest(queue[0])];
      ConcatNext([], Rest(queue[0]));
    }
    assert Concat(iov) == if Partial(queue) then Rest(queue[0]) else [];
    iov := MapList(prio, iov, places);
    assert Concat(iov) <= Near(queue, prio);
    Extends(Concat(iov), Near(queue, prio), Rests(Untouched(queue)));
    if |iov| < places {
      iov := MapList(Untouched(queue), iov, places);
    }
  }

  lemma Extends(a: seq<Byte>, b: seq<Byte>, c: seq<Byte>)
    requires a <= b
    ensures a <= b + c
  {
  }

  // One list, after what is already mapped.
  method MapList(ms: seq<Msg>, mapped: seq<seq<Byte>>, places: nat) returns (iov: seq<seq<Byte>>)
    requires |mapped| <= places
    ensures mapped <= iov && |iov| <= places && Concat(iov) <= Concat(mapped) + Rests(ms)
    ensures |iov| < places ==> Concat(iov) == Concat(mapped) + Rests(ms)
    ensures |mapped| == places ==> iov == mapped
  {
    iov := mapped;
    var i := 0;
    assert ms[0..] == ms;
    while i < |ms| && |iov| < places
      invariant i <= |ms| && mapped <= iov && |iov| <= places && (|mapped| == places ==> iov == mapped)
      invariant Concat(iov) + Rests(ms[i..]) == Concat(mapped) + Rests(ms)
    {
      OneMapped(iov, ms, i);
      iov := iov + [Rest(ms[i])];
      i := i + 1;
    }
  }

  lemma OneMapped(iov: seq<seq<Byte>>, ms: seq<Msg>, i: nat)
    requires i < |ms|
    ensures Concat(iov + [Rest(ms[i])]) + Rests(ms[i + 1..]) == Concat(iov) + Rests(ms[i..])
  {
    ConcatNext(iov, Rest(ms[i]));
    Associative(Concat(iov), Rest(ms[i]), Rests(ms[i + 1..]));
    assert ms[i..][1..] == ms[i + 1..] && ms[i..][0] == ms[i];
  }
}
