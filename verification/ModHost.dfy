/**
 * The frame the server and a module host exchange: what it looks like on the
 * wire, what the decoder makes of any bytes, and why the two agree.
 */
module ModHost {
  import opened Options

  type Byte = b: int | 0 <= b < 256

  const FRAME_MAX := 65536
  const ARGS_MAX := 32
  const HEADER := 10
  const WORD := 0x1_0000_0000

  datatype Frame = Frame(verb: Byte, serial: nat, args: seq<seq<Byte>>)

  datatype Outcome = NeedMore | Broken | Got(frame: Frame, used: nat)

  // ----- Big-endian words ---------------------------------------------------

  function Digits(v: nat, n: nat): (r: seq<Byte>)
    ensures |r| == n
    decreases n, v
  {
    if n == 0 then [] else Digits(v / 256, n - 1) + [v % 256]
  }

  function Value(s: seq<Byte>): nat {
    if s == [] then 0 else Value(s[..|s| - 1]) * 256 + s[|s| - 1] as int
  }

  function Power(n: nat): nat {
    if n == 0 then 1 else 256 * Power(n - 1)
  }

  function U32(v: nat): (r: seq<Byte>)
    ensures |r| == 4
  {
    Digits(v, 4)
  }

  function Get32(s: seq<Byte>): nat
    requires |s| >= 4
  {
    Value(s[..4])
  }

  lemma {:induction false} DigitsBack(v: nat, n: nat)
    requires v < Power(n)
    ensures Value(Digits(v, n)) == v
  {
    if n > 0 {
      DigitsBack(v / 256, n - 1);
      assert Digits(v, n)[..n - 1] == Digits(v / 256, n - 1);
    }
  }

  lemma {:induction false} DigitsForth(s: seq<Byte>)
    ensures Digits(Value(s), |s|) == s && Value(s) < Power(|s|)
  {
    if s != [] {
      DigitsForth(s[..|s| - 1]);
    }
  }

  lemma WordSize()
    ensures Power(4) == WORD
  {
    assert Power(2) == 65536;
  }

  // What is written is read back if it fits its field ...
  lemma WordKept(v: nat)
    requires v < WORD
    ensures Value(U32(v)) == v
  {
    WordSize();
    DigitsBack(v, 4);
  }

  // ... what is read is what would have been written ...
  lemma WordForth(s: seq<Byte>)
    requires |s| >= 4
    ensures U32(Get32(s)) == s[..4] && Get32(s) < WORD
  {
    WordSize();
    DigitsForth(s[..4]);
  }

  lemma Carry(v: nat, q: nat, m: nat)
    ensures (v + q * (256 * m)) % 256 == v % 256
    ensures (v + q * (256 * m)) / 256 == v / 256 + q * m
  {
    var t := q * m;
    assert q * (256 * m) == 256 * t;
  }

  lemma {:induction false} DigitsCut(v: nat, q: nat, n: nat)
    ensures Digits(v + q * Power(n), n) == Digits(v, n)
  {
    if n > 0 {
      Carry(v, q, Power(n - 1));
      DigitsCut(v / 256, q, n - 1);
    }
  }

  // ... and what does not fit is cut to the width of the field.
  lemma WordCut(v: nat)
    ensures U32(v % WORD) == U32(v)
  {
    WordSize();
    DigitsCut(v % WORD, v / WORD, 4);
    assert v == v % WORD + v / WORD * WORD;
  }

  // ----- The wire -----------------------------------------------------------

  function Arg(a: seq<Byte>): (r: seq<Byte>)
    ensures |r| == |a| + 5
  {
    U32(|a|) + a + [0]
  }

  function Args(args: seq<seq<Byte>>): seq<Byte> {
    if args == [] then [] else Arg(args[0]) + Args(args[1..])
  }

  predicate Legal(f: Frame) {
    && f.serial < WORD
    && |f.args| <= ARGS_MAX
    && HEADER - 4 + |Args(f.args)| <= FRAME_MAX
  }

  function Wire(f: Frame): (r: seq<Byte>)
    requires |f.args| <= ARGS_MAX
    ensures |r| == HEADER + |Args(f.args)|
  {
    U32(HEADER - 4 + |Args(f.args)|) + [f.verb] + U32(f.serial) + [|f.args|] + Args(f.args)
  }

  // ----- Reading ------------------------------------------------------------

  // Exactly n arguments, exactly filling b.
  function TakeArgs(b: seq<Byte>, n: nat): Option<seq<seq<Byte>>> {
    if n == 0 then
      if b == [] then Some([]) else None
    else if |b| < 4 then
      None
    else
      var k := Get32(b);
      if 4 + k + 1 > |b| || b[4 + k] != 0 then
        None
      else
        match TakeArgs(b[4 + k + 1..], n - 1)
        case None => None
        case Some(rest) => Some([b[4..4 + k]] + rest)
  }

  function Decode(b: seq<Byte>): Outcome {
    if |b| < 4 then
      NeedMore
    else
      var len := Get32(b);
      if len > FRAME_MAX || len < HEADER - 4 then
        Broken
      else if |b| < 4 + len then
        NeedMore
      else if b[9] > ARGS_MAX then
        Broken
      else
        match TakeArgs(b[HEADER..4 + len], b[9])
        case None => Broken
        case Some(args) => Got(Frame(b[4], Get32(b[5..9]), args), 4 + len)
  }

  lemma TakeOne(size: seq<Byte>, a: seq<Byte>, rest: seq<Byte>, n: nat, args: seq<seq<Byte>>)
    requires |size| == 4 && Value(size) == |a|
    requires TakeArgs(rest, n) == Some(args)
    ensures TakeArgs(size + a + [0] + rest, n + 1) == Some([a] + args)
  {
    var b := size + a + [0] + rest;
    assert b[..4] == size;
    assert b[4..4 + |a|] == a && b[4 + |a| + 1..] == rest;
  }

  lemma {:induction false} ArgsTaken(args: seq<seq<Byte>>)
    requires forall i :: 0 <= i < |args| ==> |args[i]| < WORD
    ensures TakeArgs(Args(args), |args|) == Some(args)
  {
    if args != [] {
      var a, rest := args[0], Args(args[1..]);
      WordKept(|a|);
      ArgsTaken(args[1..]);
      TakeOne(U32(|a|), a, rest, |args| - 1, args[1..]);
      assert args == [a] + args[1..];
    }
  }

  // One argument off the front of b puts back the bytes it came from.
  lemma TakenOne(b: seq<Byte>, k: nat)
    requires 4 <= 4 + k + 1 <= |b| && Get32(b) == k && b[4 + k] == 0
    ensures Arg(b[4..4 + k]) + b[4 + k + 1..] == b
  {
    WordForth(b);
    assert b == b[..4] + b[4..4 + k] + [b[4 + k]] + b[4 + k + 1..];
  }

  lemma {:induction false} TakenArgs(b: seq<Byte>, n: nat)
    requires TakeArgs(b, n).Some?
    ensures |TakeArgs(b, n).value| == n
    ensures Args(TakeArgs(b, n).value) == b
  {
    if n > 0 {
      var k := Get32(b);
      var rest := TakeArgs(b[4 + k + 1..], n - 1).value;
      TakenArgs(b[4 + k + 1..], n - 1);
      TakenOne(b, k);
      ArgsCons(b[4..4 + k], rest);
    }
  }

  lemma ArgsCons(a: seq<Byte>, rest: seq<seq<Byte>>)
    ensures Args([a] + rest) == Arg(a) + Args(rest)
  {
    assert ([a] + rest)[1..] == rest;
  }

  lemma {:induction false} ArgWithin(args: seq<seq<Byte>>, i: nat)
    requires i < |args|
    ensures |args[i]| < |Args(args)|
  {
    if i > 0 {
      ArgWithin(args[1..], i - 1);
    }
  }

  lemma WireParts(f: Frame, rest: seq<Byte>)
    requires Legal(f)
    ensures var b, n := Wire(f) + rest, |Args(f.args)|;
            && b[..4] == U32(HEADER - 4 + n) && b[4] == f.verb && b[5..9] == U32(f.serial)
            && b[9] == |f.args| && b[HEADER..HEADER + n] == Args(f.args)
  {
  }

  lemma BodyTaken(f: Frame)
    requires Legal(f)
    ensures TakeArgs(Args(f.args), |f.args|) == Some(f.args)
  {
    ArgsFit(f.args);
    ArgsTaken(f.args);
  }

  // A legal frame followed by anything is decoded as itself.
  lemma DecodesWire(f: Frame, rest: seq<Byte>)
    requires Legal(f)
    ensures Decode(Wire(f) + rest) == Got(f, |Wire(f)|)
  {
    BodyTaken(f);
    WireParts(f, rest);
    WordKept(HEADER - 4 + |Args(f.args)|);
    WordKept(f.serial);
    assert U32(f.serial)[..4] == U32(f.serial);
    DecodeIs(Wire(f) + rest, f, HEADER - 4 + |Args(f.args)|);
  }

  lemma DecodeIs(b: seq<Byte>, f: Frame, len: nat)
    requires HEADER - 4 <= len <= FRAME_MAX && 4 + len <= |b| && |f.args| <= ARGS_MAX
    requires Get32(b) == len && b[4] == f.verb && Get32(b[5..9]) == f.serial && b[9] == |f.args|
    requires TakeArgs(b[HEADER..4 + len], |f.args|) == Some(f.args)
    ensures Decode(b) == Got(f, 4 + len)
  {
  }

  lemma ArgsFit(args: seq<seq<Byte>>)
    requires |Args(args)| <= FRAME_MAX
    ensures forall i :: 0 <= i < |args| ==> |args[i]| < WORD
  {
    forall i | 0 <= i < |args| ensures |args[i]| < WORD {
      ArgWithin(args, i);
    }
  }

  // Nothing but a legal frame is decoded as one.
  lemma FrameOf(b: seq<Byte>, len: nat, f: Frame)
    requires HEADER <= 4 + len <= |b| && len == Get32(b) && f.verb == b[4] && f.serial == Get32(b[5..9])
    requires |f.args| == b[9] <= ARGS_MAX && Args(f.args) == b[HEADER..4 + len]
    ensures f.serial < WORD && b[..4 + len] == Wire(f)
  {
    WordForth(b);
    WordForth(b[5..9]);
    assert b[5..9][..4] == b[5..9];
    assert b[..4 + len] == b[..4] + [b[4]] + b[5..9] + [b[9]] + b[HEADER..4 + len];
  }

  lemma DecodedIsWire(b: seq<Byte>)
    requires Decode(b).Got?
    ensures var f := Decode(b).frame;
            Legal(f) && Decode(b).used == |Wire(f)| <= |b| && b[..|Wire(f)|] == Wire(f)
  {
    var len, f := Get32(b), Decode(b).frame;
    TakenArgs(b[HEADER..4 + len], b[9]);
    FrameOf(b, len, f);
  }

  // The decoder finds a frame exactly when the bytes begin with one, and it
  // finds that one.
  lemma DecodeIff(b: seq<Byte>, f: Frame, n: nat)
    ensures Decode(b) == Got(f, n) <==> Legal(f) && Wire(f) <= b && n == |Wire(f)|
  {
    if Decode(b) == Got(f, n) {
      DecodedIsWire(b);
    }
    if Legal(f) && Wire(f) <= b && n == |Wire(f)| {
      DecodesWire(f, b[n..]);
      assert b == Wire(f) + b[n..];
    }
  }

  // No frame begins another, so a stream of them can be cut only one way.
  lemma PrefixFree(f: Frame, g: Frame)
    requires Legal(f) && Legal(g) && Wire(f) <= Wire(g)
    ensures f == g
  {
    DecodeIff(Wire(g), f, |Wire(f)|);
    DecodeIff(Wire(g), g, |Wire(g)|);
  }

  // Every strict prefix of a frame asks for more.
  lemma PrefixNeedsMore(f: Frame, n: nat)
    requires Legal(f) && n < |Wire(f)|
    ensures Decode(Wire(f)[..n]) == NeedMore
  {
    var w := Wire(f);
    WireParts(f, []);
    WordKept(HEADER - 4 + |Args(f.args)|);
    assert w + [] == w;
    if n >= 4 {
      assert w[..n][..4] == w[..4];
    }
  }

  // More bytes never change a verdict already given.
  lemma VerdictStands(b: seq<Byte>, more: seq<Byte>)
    requires Decode(b) != NeedMore
    ensures Decode(b + more) == Decode(b)
  {
    var c := b + more;
    assert c[..4] == b[..4];
    var len := Get32(b);
    if HEADER - 4 <= len <= FRAME_MAX {
      assert c[9] == b[9] && c[5..9] == b[5..9];
      assert c[HEADER..4 + len] == b[HEADER..4 + len];
    }
  }

  // "Broken" is final: no continuation makes the bytes begin with a frame.
  // "Need more" is honest: no frame is complete yet, and one frame's worth of
  // bytes always settles it.
  lemma VerdictsMean(b: seq<Byte>, more: seq<Byte>, f: Frame)
    requires Legal(f)
    ensures Decode(b) == Broken ==> !(Wire(f) <= b + more)
    ensures Decode(b) == NeedMore ==> !(Wire(f) <= b)
    ensures Decode(b) == NeedMore ==> |b| < FRAME_MAX + 4
  {
    DecodeIff(b, f, |Wire(f)|);
    DecodeIff(b + more, f, |Wire(f)|);
    if Decode(b) == Broken {
      VerdictStands(b, more);
    }
  }

  // ----- Writing into a buffer ----------------------------------------------

  lemma {:induction false} ArgsAppend(xs: seq<seq<Byte>>, a: seq<Byte>)
    ensures Args(xs + [a]) == Args(xs) + Arg(a)
  {
    if xs == [] {
      assert xs + [a] == [a];
      assert Args([a]) == Arg(a) + Args([]);
    } else {
      ArgsAppend(xs[1..], a);
      assert (xs + [a])[1..] == xs[1..] + [a];
    }
  }

  lemma {:induction false} ArgsGrow(xs: seq<seq<Byte>>, n: nat)
    requires n <= |xs|
    ensures |Args(xs[..n])| <= |Args(xs)|
  {
    if n > 0 {
      ArgsGrow(xs[1..], n - 1);
      assert xs[..n][1..] == xs[1..][..n - 1];
    }
  }

  lemma ArgsNext(xs: seq<seq<Byte>>, i: nat)
    requires i < |xs|
    ensures Args(xs[..i + 1]) == Args(xs[..i]) + Arg(xs[i])
  {
    ArgsAppend(xs[..i], xs[i]);
    assert xs[..i + 1] == xs[..i] + [xs[i]];
  }

  // s with the bytes from `at` on written over.
  function Over(s: seq<Byte>, at: nat, bytes: seq<Byte>): (r: seq<Byte>)
    requires at + |bytes| <= |s|
    ensures |r| == |s|
  {
    s[..at] + bytes + s[at + |bytes|..]
  }

  lemma OverTwice(s: seq<Byte>, at: nat, x: seq<Byte>, y: seq<Byte>)
    requires at + |x| + |y| <= |s|
    ensures Over(Over(s, at, x), at + |x|, y) == Over(s, at, x + y)
  {
    var t := Over(s, at, x);
    assert t[..at + |x|] == s[..at] + x;
    assert t[at + |x| + |y|..] == s[at + |x| + |y|..];
  }

  method Put(buf: array<Byte>, at: nat, bytes: seq<Byte>) returns (p: nat)
    requires at + |bytes| <= buf.Length
    modifies buf
    ensures p == at + |bytes| && buf[..] == Over(old(buf[..]), at, bytes)
  {
    forall k | 0 <= k < |bytes| {
      buf[at + k] := bytes[k];
    }
    p := at + |bytes|;
    assert forall k :: 0 <= k < |bytes| ==> buf[at + k] == bytes[k];
  }

  // The frame these arguments would make, and whether the encoder takes it.
  predicate Encodable(args: seq<seq<Byte>>, room: nat) {
    && |args| <= ARGS_MAX
    && (args != [] ==> HEADER + |Args(args)| <= FRAME_MAX && HEADER + |Args(args)| <= room)
  }

  method Measure(args: seq<seq<Byte>>, room: nat) returns (need: nat)
    ensures need > 0 <==> Encodable(args, room)
    ensures need > 0 ==> need == HEADER + |Args(args)|
  {
    if |args| > ARGS_MAX {
      return 0;
    }
    need := HEADER;
    for i := 0 to |args|
      invariant need == HEADER + |Args(args[..i])|
      invariant i > 0 ==> need <= FRAME_MAX && need <= room
    {
      ArgsNext(args, i);
      ArgsGrow(args, i + 1);
      if |args[i]| > FRAME_MAX {
        return 0;
      }
      need := need + 4 + |args[i]| + 1;
      if need > FRAME_MAX || need > room {
        return 0;
      }
    }
    assert args[..|args|] == args;
  }

  method PutHeader(buf: array<Byte>, size: nat, verb: Byte, serial: nat, argc: Byte) returns (p: nat)
    requires buf.Length >= HEADER
    modifies buf
    ensures p == HEADER && buf[..] == Over(old(buf[..]), 0, U32(size) + [verb] + U32(serial) + [argc])
  {
    p := Put(buf, 0, U32(size));
    p := Put(buf, p, [verb]);
    OverTwice(old(buf[..]), 0, U32(size), [verb]);
    p := Put(buf, p, U32(serial));
    OverTwice(old(buf[..]), 0, U32(size) + [verb], U32(serial));
    p := Put(buf, p, [argc]);
    OverTwice(old(buf[..]), 0, U32(size) + [verb] + U32(serial), [argc]);
  }

  method PutArg(buf: array<Byte>, at: nat, a: seq<Byte>) returns (p: nat)
    requires at + |a| + 5 <= buf.Length
    modifies buf
    ensures p == at + |a| + 5 && buf[..] == Over(old(buf[..]), at, Arg(a))
  {
    p := Put(buf, at, U32(|a|));
    p := Put(buf, p, a);
    OverTwice(old(buf[..]), at, U32(|a|), a);
    p := Put(buf, p, [0]);
    OverTwice(old(buf[..]), at, U32(|a|) + a, [0]);
  }

  method PutArgs(buf: array<Byte>, at: nat, args: seq<seq<Byte>>) returns (p: nat)
    requires at + |Args(args)| <= buf.Length
    modifies buf
    ensures p == at + |Args(args)| && buf[..] == Over(old(buf[..]), at, Args(args))
  {
    p := at;
    for i := 0 to |args|
      invariant p == at + |Args(args[..i])| <= buf.Length
      invariant buf[..] == Over(old(buf[..]), at, Args(args[..i]))
    {
      ArgsNext(args, i);
      ArgsGrow(args, i + 1);
      OverTwice(old(buf[..]), at, Args(args[..i]), Arg(args[i]));
      p := PutArg(buf, p, args[i]);
    }
    assert args[..|args|] == args;
  }

  // With no arguments the encoder writes a header without looking at the
  // buffer's size. A result greater than the buffer stands for that: the bytes
  // go past its end, and nothing is said of them here.
  method Encode(buf: array<Byte>, verb: Byte, serial: nat, args: seq<seq<Byte>>) returns (n: nat)
    modifies buf
    ensures n > 0 <==> Encodable(args, buf.Length)
    ensures n > 0 ==> n == |Wire(Frame(verb, serial, args))|
    ensures n > buf.Length <==> args == [] && buf.Length < HEADER
    ensures n == 0 ==> buf[..] == old(buf[..])
    ensures 0 < n <= buf.Length ==> buf[..] == Over(old(buf[..]), 0, Wire(Frame(verb, serial, args)))
  {
    n := Measure(args, buf.Length);
    if n == 0 || n > buf.Length {
      return;
    }
    var p := PutHeader(buf, n - 4, verb, serial, |args|);
    p := PutArgs(buf, p, args);
    OverTwice(old(buf[..]), 0, U32(n - 4) + [verb] + U32(serial) + [|args|], Args(args));
  }

  // What is taken fits, for every buffer, unless there are no arguments and not
  // even room for a header.
  lemma TakenFitsIff(f: Frame, room: nat)
    ensures (Encodable(f.args, room) ==> |Wire(f)| <= room) <==> !(f.args == [] && room < HEADER)
  {
  }

  lemma HeaderOverruns()
    ensures Encodable([], 9) && |Wire(Frame(1, 0, []))| == 10
  {
  }

  // A frame that was encoded decodes to what was put in, with the serial cut
  // to the width of its field: it comes back as given exactly when it fits.
  lemma WireCut(f: Frame)
    requires |f.args| <= ARGS_MAX
    ensures Wire(f) == Wire(f.(serial := f.serial % WORD))
  {
    WordCut(f.serial);
  }

  lemma RoundTrip(f: Frame, room: nat, rest: seq<Byte>)
    requires Encodable(f.args, room)
    ensures Decode(Wire(f) + rest) == Got(f.(serial := f.serial % WORD), |Wire(f)|)
    ensures Decode(Wire(f) + rest) == Got(f, |Wire(f)|) <==> f.serial < WORD
  {
    WireCut(f);
    DecodesWire(f.(serial := f.serial % WORD), rest);
  }

  lemma SerialIsCut()
    ensures Decode(Wire(Frame(1, WORD, []))) == Got(Frame(1, 0, []), HEADER)
  {
    RoundTrip(Frame(1, WORD, []), HEADER, []);
    assert Wire(Frame(1, WORD, [])) + [] == Wire(Frame(1, WORD, []));
  }

  // The decoder takes frames of up to four bytes more than the encoder will
  // ever write: its limit is on the length field, the encoder's on the whole.
  lemma WrittenIffSmall(f: Frame)
    requires Legal(f)
    ensures Encodable(f.args, FRAME_MAX) <==> |Wire(f)| <= FRAME_MAX
    ensures |Wire(f)| <= FRAME_MAX + 4
  {
  }

  lemma UnwrittenExists() returns (f: Frame)
    ensures Legal(f) && Decode(Wire(f)) == Got(f, FRAME_MAX + 4)
    ensures !Encodable(f.args, FRAME_MAX)
  {
    f := Frame(1, 0, [seq(FRAME_MAX + 4 - HEADER - 5, i => 7)]);
    assert f.args[1..] == [] && Args(f.args) == Arg(f.args[0]) + [];
    DecodesWire(f, []);
    assert Wire(f) + [] == Wire(f);
  }
}
