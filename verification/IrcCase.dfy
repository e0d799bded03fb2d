/** Case folding as the server compares names: letters, and the characters IRC counts as such. */
module IrcCase {
  function Lower(c: char): char {
    if 'A' <= c <= 'Z' || '[' <= c <= '^' || 0xC0 <= c as int <= 0xD6 || 0xD8 <= c as int <= 0xDE
    then (c as int + 32) as char
    else c
  }

  function Fold(s: string): (r: string)
    ensures |r| == |s|
  {
    if s == "" then "" else [Lower(s[0])] + Fold(s[1..])
  }

  // Comparing as the server does, a character at a time.
  method Same(a: string, b: string) returns (r: bool)
    ensures r <==> Fold(a) == Fold(b)
  {
    var i := 0;
    assert a[0..] == a && b[0..] == b;
    while i < |a| && i < |b| && Lower(a[i]) == Lower(b[i])
      invariant i <= |a| && i <= |b|
      invariant Fold(a) == Fold(b) <==> Fold(a[i..]) == Fold(b[i..])
    {
      FoldHead(a[i..], b[i..]);
      assert a[i..][1..] == a[i + 1..] && b[i..][1..] == b[i + 1..];
      i := i + 1;
    }
    r := i == |a| && i == |b|;
    assert !r && i < |a| && i < |b| ==> Fold(a[i..])[0] != Fold(b[i..])[0];
  }

  lemma FoldHead(a: string, b: string)
    requires a != "" && b != "" && Lower(a[0]) == Lower(b[0])
    ensures Fold(a) == Fold(b) <==> Fold(a[1..]) == Fold(b[1..])
  {
    assert Fold(a)[1..] == Fold(a[1..]) && Fold(b)[1..] == Fold(b[1..]);
  }

  // A capital and its small letter, by their codes: the alphabet with the four
  // characters after it, and the accented letters but for the sign among them.
  predicate Pair(u: char, l: char) {
    var n := u as int;
    (65 <= n <= 94 || (192 <= n <= 222 && n != 215)) && l as int == n + 32
  }

  predicate Alike(c: char, d: char) { c == d || Pair(c, d) || Pair(d, c) }

  // Two strings are the same to the server just when they are letter by letter.
  lemma {:induction false} SameIff(a: string, b: string)
    ensures Fold(a) == Fold(b) <==> |a| == |b| && forall i :: 0 <= i < |a| ==> Alike(a[i], b[i])
  {
    if a != "" && b != "" {
      SameIff(a[1..], b[1..]);
      assert Lower(a[0]) == Lower(b[0]) <==> Alike(a[0], b[0]);
      if Lower(a[0]) == Lower(b[0]) {
        FoldHead(a, b);
      } else {
        assert Fold(a)[0] != Fold(b)[0];
      }
      assert forall i :: 0 <= i < |a| - 1 ==> a[1..][i] == a[i + 1];
      assert forall i :: 0 <= i < |b| - 1 ==> b[1..][i] == b[i + 1];
      if |a| == |b| { AllAlike(a, b); }
    }
  }

  lemma AllAlike(a: string, b: string)
    requires a != "" && |a| == |b|
    ensures (forall i :: 0 <= i < |a| ==> Alike(a[i], b[i])) <==>
              Alike(a[0], b[0]) && forall i :: 0 <= i < |a[1..]| ==> Alike(a[1..][i], b[1..][i])
  {
    if Alike(a[0], b[0]) && forall i :: 0 <= i < |a[1..]| ==> Alike(a[1..][i], b[1..][i]) {
      forall i | 0 <= i < |a| ensures Alike(a[i], b[i]) {
        if i > 0 { assert Alike(a[1..][i - 1], b[1..][i - 1]); }
      }
    }
  }
}
