/**
 * The frame byte by byte: where each field is on the wire, and which byte of a
 * number comes first.
 */
module ModHostLayout {
  import opened ModHost

  function Sum(a: int, b: int, c: int, d: int): int {
    a * 0x100_0000 + b * 0x1_0000 + c * 0x100 + d
  }

  function Word(v: nat): seq<int> {
    [v / 0x100_0000 % 0x100, v / 0x1_0000 % 0x100, v / 0x100 % 0x100, v % 0x100]
  }

  // The most significant byte first.
  lemma BigEndian(v: nat)
    ensures U32(v) == Word(v)
  {
    var d := U32(v);
    DigitAt(v, 4, 3);
    DigitAt(v, 4, 2);
    DigitAt(v, 4, 1);
    DigitAt(v, 4, 0);
    Shifts(v);
    assert d[0] == v / 0x100_0000 % 0x100 && d[1] == v / 0x1_0000 % 0x100 && d[2] == v / 0x100 % 0x100;
  }

  lemma Shifts(v: nat)
    ensures Shift(v, 0) == v && Shift(v, 1) == v / 0x100 && Shift(v, 2) == v / 0x1_0000
    ensures Shift(v, 3) == v / 0x100_0000
  {
    assert Shift(v / 256, 1) == v / 256 / 256;
    assert Shift(v / 256 / 256, 1) == v / 256 / 256 / 256;
  }

  // The i-th byte is the remainder after n - 1 - i divisions.
  function Shift(v: nat, k: nat): nat {
    if k == 0 then v else Shift(v / 256, k - 1)
  }

  lemma {:induction false} DigitAt(v: nat, n: nat, i: nat)
    requires i < n
    ensures Digits(v, n)[i] == Shift(v, n - 1 - i) % 256
    decreases n
  {
    if i < n - 1 {
      DigitAt(v / 256, n - 1, i);
    }
  }

  lemma WordIs(s: seq<Byte>)
    requires |s| >= 4
    ensures Get32(s) == Sum(s[0], s[1], s[2], s[3])
  {
    var t := s[..4];
    assert t[..3] == s[..3] && s[..3][..2] == s[..2] && s[..2][..1] == s[..1] && s[..1][..0] == [];
    assert Value(s[..1]) == s[0];
    assert Value(s[..2]) == Value(s[..1]) * 256 + s[1];
    assert Value(s[..3]) == Value(s[..2]) * 256 + s[2];
    assert Value(t) == Value(s[..3]) * 256 + s[3];
  }

  // Where the i-th argument is, from its length on.
  function Offset(args: seq<seq<Byte>>, i: nat): nat
    requires i <= |args|
  {
    if i == 0 then 10 else Offset(args, i - 1) + 4 + |args[i - 1]| + 1
  }

  ghost predicate IsAt(w: seq<Byte>, at: nat, part: seq<int>) {
    at + |part| <= |w| && forall j :: 0 <= j < |part| ==> w[at + j] == part[j]
  }

  // The i-th argument: four bytes for its length, and a zero after it.
  ghost predicate HasArg(w: seq<Byte>, args: seq<seq<Byte>>, i: nat)
    requires i < |args|
  {
    IsAt(w, Offset(args, i), Word(|args[i]|)) && IsAt(w, Offset(args, i) + 4, args[i] + [0])
  }

  // Four bytes for how much follows, one for the verb, four for the serial,
  // one for the number of arguments; then the arguments.
  lemma LayoutIs(f: Frame)
    requires |f.args| <= 32
    ensures var w := Wire(f);
            && |w| == Offset(f.args, |f.args|)
            && IsAt(w, 0, Word(|w| - 4)) && w[4] == f.verb && IsAt(w, 5, Word(f.serial)) && w[9] == |f.args|
    ensures forall i :: 0 <= i < |f.args| ==> HasArg(Wire(f), f.args, i)
  {
    HeaderIs(f);
    forall i | 0 <= i < |f.args| ensures HasArg(Wire(f), f.args, i) {
      var head := U32(6 + |Args(f.args)|) + [f.verb] + U32(f.serial) + [|f.args|];
      ArgAt(f.args, i, Wire(f), head, U32(|f.args[i]|));
      BigEndian(|f.args[i]|);
    }
  }

  lemma HeaderIs(f: Frame)
    requires |f.args| <= 32
    ensures var w := Wire(f);
            && |w| == Offset(f.args, |f.args|)
            && IsAt(w, 0, Word(|w| - 4)) && w[4] == f.verb && IsAt(w, 5, Word(f.serial)) && w[9] == |f.args|
  {
    var size := 6 + |Args(f.args)|;
    OffsetIs(f.args, |f.args|);
    assert f.args[..|f.args|] == f.args;
    HeadAt(Wire(f), U32(size), f.verb, U32(f.serial), |f.args|, Args(f.args));
    BigEndian(size);
    BigEndian(f.serial);
  }

  lemma HeadAt(w: seq<Byte>, size: seq<Byte>, verb: Byte, serial: seq<Byte>, argc: Byte, args: seq<Byte>)
    requires |size| == 4 && |serial| == 4 && w == size + [verb] + serial + [argc] + args
    ensures |w| == 10 + |args| && IsAt(w, 0, size) && w[4] == verb && IsAt(w, 5, serial) && w[9] == argc
  {
  }

  lemma {:induction false} OffsetIs(args: seq<seq<Byte>>, i: nat)
    requires i <= |args|
    ensures Offset(args, i) == 10 + |Args(args[..i])|
  {
    if i > 0 {
      OffsetIs(args, i - 1);
      ArgsNext(args, i - 1);
    }
  }

  lemma ArgsAround(args: seq<seq<Byte>>, i: nat)
    requires i < |args|
    ensures Args(args) == Args(args[..i]) + Arg(args[i]) + Args(args[i + 1..])
  {
    var rest := args[i..];
    assert rest[0] == args[i] && rest[1..] == args[i + 1..];
    assert args[..i] + rest == args;
    ArgsBoth(args[..i], rest);
    Joined(Args(args[..i]), Arg(args[i]), Args(args[i + 1..]));
  }

  lemma Joined(x: seq<Byte>, y: seq<Byte>, z: seq<Byte>)
    ensures x + (y + z) == x + y + z
  {
  }

  lemma ArgAt(args: seq<seq<Byte>>, i: nat, w: seq<Byte>, head: seq<Byte>, size: seq<Byte>)
    requires i < |args| && w == head + Args(args) && |head| == 10
    requires |size| == 4 && Arg(args[i]) == size + args[i] + [0]
    ensures IsAt(w, Offset(args, i), size) && IsAt(w, Offset(args, i) + 4, args[i] + [0])
  {
    ArgsAround(args, i);
    OffsetIs(args, i);
    PartAt(head, Args(args[..i]), size, args[i], Args(args[i + 1..]), Arg(args[i]), w);
  }

  lemma PartAt(head: seq<Byte>, x: seq<Byte>, size: seq<Byte>, a: seq<Byte>, y: seq<Byte>, arg: seq<Byte>, w: seq<Byte>)
    requires w == head + (x + arg + y) && arg == size + a + [0]
    ensures IsAt(w, |head| + |x|, size) && IsAt(w, |head| + |x| + |size|, a + [0])
  {
    assert w == (head + x) + (size + (a + [0])) + y;
    Within(head + x, size, a + [0], y, w);
  }

  lemma Within(x: seq<Byte>, a: seq<Byte>, b: seq<Byte>, y: seq<Byte>, w: seq<Byte>)
    requires w == x + (a + b) + y
    ensures IsAt(w, |x|, a) && IsAt(w, |x| + |a|, b)
  {
  }

  lemma {:induction false} ArgsBoth(xs: seq<seq<Byte>>, ys: seq<seq<Byte>>)
    ensures Args(xs + ys) == Args(xs) + Args(ys)
  {
    if xs == [] {
      assert xs + ys == ys;
    } else {
      ArgsBoth(xs[1..], ys);
      assert (xs + ys)[1..] == xs[1..] + ys;
    }
  }

  // What a decoder may be given: no more than 32 arguments, a serial of 32
  // bits, and no more than 65536 bytes after the length.
  lemma LegalIff(f: Frame)
    ensures Legal(f) <==> |f.args| <= 32 && f.serial < 0x1_0000_0000 && Offset(f.args, |f.args|) - 4 <= 65536
  {
    OffsetIs(f.args, |f.args|);
    assert f.args[..|f.args|] == f.args;
  }
}
