/**
 * Messages longer than a line: pieces joined into lines on the way in, lines
 * cut into pieces on the way out, and nothing lost between the two.
 */
module Multiline {
  import opened IrcCase

  type Byte = b: int | 0 <= b < 256

  const BUFSIZE := 512
  const SPACE: Byte := 32

  // One PRIVMSG or NOTICE of a batch: its text, and whether it continues the
  // one before it.
  datatype Piece = Piece(text: seq<Byte>, concat: bool)

  // ----- Joining ------------------------------------------------------------

  function Joined(lines: seq<seq<Byte>>, p: Piece): seq<seq<Byte>> {
    if p.concat && lines != [] then
      lines[|lines| - 1 := lines[|lines| - 1] + p.text]
    else
      lines + [p.text]
  }

  // What a client that asked for multiline makes of a batch, and what this
  // server makes of a client's.
  function Rejoin(ps: seq<Piece>): seq<seq<Byte>> {
    if ps == [] then [] else Joined(Rejoin(ps[..|ps| - 1]), ps[|ps| - 1])
  }

  function Total(lines: seq<seq<Byte>>): nat {
    if lines == [] then 0 else Total(lines[..|lines| - 1]) + |lines[|lines| - 1]|
  }

  lemma RejoinNext(ps: seq<Piece>, p: Piece)
    ensures Rejoin(ps + [p]) == Joined(Rejoin(ps), p)
  {
    assert (ps + [p])[..|ps|] == ps;
  }

  lemma TotalNext(lines: seq<seq<Byte>>, p: Piece)
    ensures Total(Joined(lines, p)) == Total(lines) + |p.text|
  {
    var j, n := Joined(lines, p), |lines| - 1;
    if p.concat && lines != [] {
      assert j[..n] == lines[..n];
    } else {
      assert j[..|lines|] == lines;
    }
  }

  datatype Answer = Taken | BadBatch | TooLong

  // A batch a client has open.
  class InBatch {
    const id: string
    const target: string
    var notice: bool
    var lines: nat
    var bytes: nat
    var parts: seq<seq<Byte>>
    ghost var taken: seq<Piece>

    ghost predicate Valid()
      reads this
    {
      parts == Rejoin(taken) && lines == |parts| && bytes == Total(parts)
    }

    constructor (id: string, target: string)
      ensures Valid() && parts == [] && taken == [] && this.id == id && this.target == target
    {
      this.id, this.target := id, target;
      notice, lines, bytes, parts, taken := false, 0, 0, [], [];
    }

    // A refused piece leaves the message as it was, but a piece refused for
    // its length while the message is empty still settles what kind it is.
    method Add(id: string, notice: bool, target: string, text: seq<Byte>, concat: bool, maxBytes: nat, maxLines: nat)
        returns (r: Answer)
      requires Valid()
      modifies this
      ensures Valid()
      ensures r == BadBatch <==>
                || Fold(this.id) != Fold(id) || target == "" || Fold(this.target) != Fold(target)
                || (old(lines) > 0 && old(this.notice) != notice)
      ensures r == TooLong <==>
                r != BadBatch && (old(bytes) + |text| > maxBytes || (!concat && old(lines) >= maxLines))
      ensures r == Taken ==>
                taken == old(taken) + [Piece(text, concat)] && parts == Joined(old(parts), Piece(text, concat))
      ensures r != Taken ==> taken == old(taken) && parts == old(parts)
      ensures this.notice == if r == BadBatch then old(this.notice) else notice
      ensures old(bytes) <= maxBytes ==> bytes <= maxBytes
    {
      var same := Same(this.id, id);
      if !same {
        return BadBatch;
      }
      same := Same(this.target, target);
      if target == "" || !same {
        return BadBatch;
      }
      if lines > 0 && this.notice != notice {
        return BadBatch;
      }
      this.notice := notice;
      if bytes + |text| > maxBytes {
        return TooLong;
      }
      if !concat && lines >= maxLines {
        return TooLong;
      }
      Append(text, concat);
      return Taken;
    }

    method Append(text: seq<Byte>, concat: bool)
      requires Valid()
      modifies this`bytes, this`parts, this`lines, this`taken
      ensures Valid() && bytes == old(bytes) + |text|
      ensures taken == old(taken) + [Piece(text, concat)] && parts == Joined(old(parts), Piece(text, concat))
    {
      ghost var p := Piece(text, concat);
      RejoinNext(taken, p);
      TotalNext(parts, p);
      bytes := bytes + |text|;
      taken := taken + [p];
      if concat && parts != [] {
        var last := |parts| - 1;
        parts := parts[last := parts[last] + text];
      } else {
        parts := parts + [text];
        lines := lines + 1;
      }
    }
  }

  // ----- Cutting ------------------------------------------------------------

  predicate Continues(b: Byte) {
    0x80 <= b < 0xC0
  }

  // Back from `take` to a byte that does not continue a character.
  function BackOff(text: seq<Byte>, take: nat): (r: nat)
    requires take < |text|
    ensures r <= take
  {
    if take > 0 && Continues(text[take]) then BackOff(text, take - 1) else take
  }

  lemma {:induction false} BackOffIs(text: seq<Byte>, take: nat)
    requires take < |text|
    ensures var r := BackOff(text, take);
            (r > 0 ==> !Continues(text[r])) && forall i :: r < i <= take ==> Continues(text[i])
  {
    if take > 0 && Continues(text[take]) {
      BackOffIs(text, take - 1);
    }
  }

  // Back from i, but not 32 bytes from `take`, to just after a space.
  function AfterSpace(text: seq<Byte>, take: nat, i: nat): (r: nat)
    requires i <= take < |text|
    ensures r <= take
    decreases i
  {
    if i == 0 || take - i >= 32 then take
    else if text[i - 1] == SPACE then i
    else AfterSpace(text, take, i - 1)
  }

  // It is where it started, or after the last space close enough before.
  lemma {:induction false} AfterSpaceIs(text: seq<Byte>, take: nat, i: nat)
    requires i <= take < |text|
    ensures var r := AfterSpace(text, take, i);
            || (r == take && forall j :: 0 <= j < i && take - j <= 32 ==> text[j] != SPACE)
            || (0 < r <= i && text[r - 1] == SPACE && take - r < 32 && forall j :: r <= j < i ==> text[j] != SPACE)
    decreases i
  {
    if i > 0 && take - i < 32 && text[i - 1] != SPACE {
      AfterSpaceIs(text, take, i - 1);
    }
  }

  function CutOf(text: seq<Byte>, budget: nat): nat {
    if |text| <= budget then
      |text|
    else
      var take := BackOff(text, budget);
      var r := AfterSpace(text, take, take);
      if r > 0 then r else budget
  }

  method Cut(text: seq<Byte>, budget: nat) returns (r: nat)
    ensures r == CutOf(text, budget)
  {
    if |text| <= budget {
      return |text|;
    }
    var take: nat := budget;
    while take > 0 && Continues(text[take])
      invariant take <= budget && BackOff(text, budget) == BackOff(text, take)
    {
      take := take - 1;
    }
    var i: nat := take;
    while i > 0 && take - i < 32
      invariant i <= take && AfterSpace(text, take, take) == AfterSpace(text, take, i)
      decreases i
    {
      if text[i - 1] == SPACE {
        take := i;
        break;
      }
      i := i - 1;
    }
    return if take > 0 then take else budget;
  }

  // A piece is never longer than the budget, and never empty but for an empty
  // line.
  lemma CutFits(text: seq<Byte>, budget: nat)
    requires budget > 0
    ensures CutOf(text, budget) <= budget && CutOf(text, budget) <= |text|
    ensures CutOf(text, budget) == 0 <==> text == []
  {
    if |text| > budget {
      var take := BackOff(text, budget);
      AfterSpaceIs(text, take, take);
    }
  }

  // Only this much of UTF-8 matters here: a text does not start inside a
  // character, no character is longer than four bytes, and a byte below 0x80
  // is a character of its own.
  ghost predicate Characters(text: seq<Byte>) {
    && (text != [] ==> !Continues(text[0]))
    && (forall i :: 0 < i < |text| && Continues(text[i]) ==> text[i - 1] >= 0x80)
    && (forall i {:trigger text[i]} :: 3 <= i < |text| ==>
        Continues(text[i]) && Continues(text[i - 1]) && Continues(text[i - 2]) ==> !Continues(text[i - 3]))
  }

  // A text is cut between characters exactly when there is a place to: some
  // character starts within the budget, past the beginning.
  lemma CutBetweenIff(text: seq<Byte>, budget: nat)
    requires Characters(text) && budget > 0 && |text| > budget
    ensures !Continues(text[CutOf(text, budget)]) <==> exists i :: 0 < i <= budget && !Continues(text[i])
  {
    var take := BackOff(text, budget);
    var r := AfterSpace(text, take, take);
    BackOffIs(text, budget);
    AfterSpaceIs(text, take, take);
    if take > 0 {
      assert text[r - 1] == SPACE ==> !Continues(text[r]);
    }
  }

  // The cut is just after the last space among the 32 bytes before the last
  // character that starts within the budget; without one, it is where that
  // character starts.
  lemma CutAfterSpace(text: seq<Byte>, budget: nat, take: nat)
    requires 0 < take <= budget < |text| && !Continues(text[take])
    requires forall j :: take < j <= budget ==> Continues(text[j])
    ensures var r := CutOf(text, budget);
            && 0 < r <= take && take - r < 32 && (forall j :: r <= j < take ==> text[j] != SPACE)
            && (text[r - 1] == SPACE <==> exists j :: 0 <= j < take && take - j <= 32 && text[j] == SPACE)
            && (text[r - 1] != SPACE ==> r == take)
  {
    BackOffIs(text, budget);
    assert BackOff(text, budget) == take;
    AfterSpaceIs(text, take, take);
  }

  // With room for the longest character there always is.
  lemma CutBetween(text: seq<Byte>, budget: nat)
    requires Characters(text) && budget >= 4 && |text| > budget
    ensures !Continues(text[CutOf(text, budget)])
  {
    CutBetweenIff(text, budget);
    assert Continues(text[4]) && Continues(text[3]) && Continues(text[2]) ==> !Continues(text[1]);
  }

  // And what is left over starts a character again, so the next cut is between
  // characters too.
  lemma CharactersRest(text: seq<Byte>, k: nat)
    requires Characters(text) && k < |text| && !Continues(text[k])
    ensures Characters(text[k..])
  {
    var t := text[k..];
    assert forall i :: 0 <= i < |t| ==> t[i] == text[k + i];
    forall i | 3 <= i < |t| && Continues(t[i]) && Continues(t[i - 1]) && Continues(t[i - 2])
      ensures !Continues(t[i - 3])
    {
      assert text[k + i] == t[i] && text[k + i - 1] == t[i - 1] && text[k + i - 2] == t[i - 2]
          && text[k + i - 3] == t[i - 3];
    }
  }

  // ----- Delivering ---------------------------------------------------------

  // One line, as the pieces it goes out in.
  function Pieces(text: seq<Byte>, budget: nat, concat: bool): seq<Piece>
    requires budget > 0
    decreases |text|
  {
    var k := CutOf(text, budget);
    CutFits(text, budget);
    [Piece(text[..k], concat)] + (if k == |text| then [] else Pieces(text[k..], budget, true))
  }

  function Outgoing(lines: seq<seq<Byte>>, budget: nat): seq<Piece>
    requires budget > 0
  {
    if lines == [] then [] else Outgoing(lines[..|lines| - 1], budget) + Pieces(lines[|lines| - 1], budget, false)
  }

  // Only the first n of them.
  function FirstOf(ps: seq<Piece>, n: nat): seq<Piece> {
    if n < |ps| then ps[..n] else ps
  }

  lemma FirstOfBoth(a: seq<Piece>, b: seq<Piece>, n: nat)
    ensures |FirstOf(a, n)| <= n && FirstOf(a + b, n) == FirstOf(a, n) + FirstOf(b, n - |FirstOf(a, n)|)
  {
  }

  // The sender is found dead once `life` pieces have gone out, if so many do.
  method Deliver(parts: seq<seq<Byte>>, budget: nat, life: nat) returns (out: seq<Piece>)
    requires budget > 0
    ensures out == FirstOf(Outgoing(parts, budget), life)
  {
    out := [];
    for i := 0 to |parts|
      invariant |out| <= life && SentSoFar(parts, i, budget, life, out)
    {
      var sent := DeliverLine(parts[i], budget, life - |out|);
      OneMoreLine(parts, i, budget, life, out, sent);
      out := out + sent;
      if |out| == life {
        return;
      }
    }
    assert parts[..|parts|] == parts;
  }

  // What has gone out of the first i lines.
  predicate SentSoFar(parts: seq<seq<Byte>>, i: nat, budget: nat, life: nat, out: seq<Piece>)
    requires i <= |parts| && budget > 0
  {
    out == FirstOf(Outgoing(parts[..i], budget), life)
  }

  lemma OneMoreLine(parts: seq<seq<Byte>>, i: nat, budget: nat, life: nat, out: seq<Piece>, sent: seq<Piece>)
    requires i < |parts| && budget > 0 && |out| <= life && SentSoFar(parts, i, budget, life, out)
    requires sent == FirstOf(Pieces(parts[i], budget, false), life - |out|)
    ensures |out + sent| <= life && SentSoFar(parts, i + 1, budget, life, out + sent)
    ensures |out + sent| == life ==> out + sent == FirstOf(Outgoing(parts, budget), life)
  {
    OutgoingNext(parts, i, budget);
    FirstOfBoth(Outgoing(parts[..i], budget), Pieces(parts[i], budget, false), life);
    OutgoingGrows(parts, i + 1, budget);
  }

  lemma OutgoingNext(parts: seq<seq<Byte>>, i: nat, budget: nat)
    requires i < |parts| && budget > 0
    ensures Outgoing(parts[..i + 1], budget) == Outgoing(parts[..i], budget) + Pieces(parts[i], budget, false)
  {
    assert parts[..i + 1][..i] == parts[..i];
  }

  lemma {:induction false} OutgoingGrows(parts: seq<seq<Byte>>, i: nat, budget: nat)
    requires i <= |parts| && budget > 0
    ensures Outgoing(parts[..i], budget) <= Outgoing(parts, budget)
    decreases |parts| - i
  {
    if i < |parts| {
      OutgoingNext(parts, i, budget);
      OutgoingGrows(parts, i + 1, budget);
    } else {
      assert parts[..i] == parts;
    }
  }

  method DeliverLine(line: seq<Byte>, budget: nat, life: nat) returns (out: seq<Piece>)
    requires budget > 0
    ensures out == FirstOf(Pieces(line, budget, false), life)
  {
    out := [];
    var text, concat, more := line, false, true;
    while more
      invariant |out| <= life
      invariant more ==> out + Pieces(text, budget, concat) == Pieces(line, budget, false)
      invariant !more ==> out == Pieces(line, budget, false)
      decreases more, |text|
    {
      if |out| == life {
        return;
      }
      CutFits(text, budget);
      var take := Cut(text, budget);
      OnePieceMore(out, text, budget, concat);
      out := out + [Piece(text[..take], concat)];
      text := text[take..];
      concat := true;
      more := text != [];
    }
  }

  lemma OnePieceMore(out: seq<Piece>, text: seq<Byte>, budget: nat, concat: bool)
    requires budget > 0
    ensures var k := CutOf(text, budget);
            && k <= |text|
            && out + Pieces(text, budget, concat)
               == out + [Piece(text[..k], concat)] + (if k == |text| then [] else Pieces(text[k..], budget, true))
  {
    CutFits(text, budget);
    var k := CutOf(text, budget);
    var rest := if k == |text| then [] else Pieces(text[k..], budget, true);
    assert Pieces(text, budget, concat) == [Piece(text[..k], concat)] + rest;
    assert out + ([Piece(text[..k], concat)] + rest) == out + [Piece(text[..k], concat)] + rest;
  }

  lemma JoinTwice(lines: seq<seq<Byte>>, a: seq<Byte>, b: seq<Byte>, concat: bool)
    ensures Joined(Joined(lines, Piece(a, concat)), Piece(b, true)) == Joined(lines, Piece(a + b, concat))
  {
    if concat && lines != [] {
      var last := lines[|lines| - 1];
      assert last + a + b == last + (a + b);
    }
  }

  lemma JoinRest(ps: seq<Piece>, head: seq<Byte>, tail: seq<Byte>, concat: bool, rest: seq<Piece>)
    requires Rejoin(ps + [Piece(head, concat)] + rest) == Joined(Rejoin(ps + [Piece(head, concat)]), Piece(tail, true))
    ensures Rejoin(ps + ([Piece(head, concat)] + rest)) == Joined(Rejoin(ps), Piece(head + tail, concat))
  {
    var p := Piece(head, concat);
    assert ps + ([p] + rest) == ps + [p] + rest;
    RejoinNext(ps, p);
    JoinTwice(Rejoin(ps), head, tail, concat);
  }

  // Pieces added one by one do what the whole line would have done.
  lemma {:induction false} RejoinPieces(ps: seq<Piece>, text: seq<Byte>, budget: nat, concat: bool)
    requires budget > 0
    ensures Rejoin(ps + Pieces(text, budget, concat)) == Joined(Rejoin(ps), Piece(text, concat))
    decreases |text|
  {
    var k := CutOf(text, budget);
    CutFits(text, budget);
    if k == |text| {
      assert text[..k] == text;
      assert Pieces(text, budget, concat) == [Piece(text, concat)];
      RejoinNext(ps, Piece(text, concat));
    } else {
      RejoinPieces(ps + [Piece(text[..k], concat)], text[k..], budget, true);
      JoinRest(ps, text[..k], text[k..], concat, Pieces(text[k..], budget, true));
      assert text[..k] + text[k..] == text;
    }
  }

  // Any lines, cut to any budget and joined again, are the lines they were.
  lemma {:induction false} NothingIsLost(lines: seq<seq<Byte>>, budget: nat)
    requires budget > 0
    ensures Rejoin(Outgoing(lines, budget)) == lines
  {
    if lines != [] {
      var n := |lines| - 1;
      NothingIsLost(lines[..n], budget);
      RejoinPieces(Outgoing(lines[..n], budget), lines[n], budget, false);
    }
  }

  // No piece is over the budget; an empty piece is an empty line's; and only a
  // line's later pieces are marked as continuing.
  lemma {:induction false} PiecesFit(text: seq<Byte>, budget: nat, concat: bool)
    requires budget > 0
    ensures var ps := Pieces(text, budget, concat);
            && ps != [] && ps[0].concat == concat
            && (forall i :: 0 <= i < |ps| ==> |ps[i].text| <= budget && (i > 0 ==> ps[i].concat))
            && (forall i :: 0 <= i < |ps| ==> (ps[i].text == [] <==> text == []))
    decreases |text|
  {
    var k := CutOf(text, budget);
    CutFits(text, budget);
    if k < |text| {
      PiecesFit(text[k..], budget, true);
    }
  }

  // Text cut between characters stays text: every piece is whole characters.
  lemma {:induction false} PiecesAreText(text: seq<Byte>, budget: nat, concat: bool)
    requires budget >= 4 && Characters(text)
    ensures forall i :: 0 <= i < |Pieces(text, budget, concat)| ==> Characters(Pieces(text, budget, concat)[i].text)
    decreases |text|
  {
    var k := CutOf(text, budget);
    CutFits(text, budget);
    CharactersPrefix(text, k);
    if k < |text| {
      CutBetween(text, budget);
      CharactersRest(text, k);
      PiecesAreText(text[k..], budget, true);
    }
  }

  lemma CharactersPrefix(text: seq<Byte>, k: nat)
    requires Characters(text) && k <= |text|
    ensures Characters(text[..k])
  {
    var t := text[..k];
    forall i | 3 <= i < |t| && Continues(t[i]) && Continues(t[i - 1]) && Continues(t[i - 2])
      ensures !Continues(t[i - 3])
    {
      assert text[i] == t[i];
    }
  }

  // ----- The budget ---------------------------------------------------------

  // What a relayed line carries besides its text.
  function Overhead(nick: nat, user: nat, host: nat, registered: bool, command: nat, target: nat): nat {
    1 + nick + (if registered then 1 + user + 1 + host else 0) + 1 + command + 1 + target + 2 + 2
  }

  function Budget(overhead: nat): nat {
    if overhead + 32 < BUFSIZE then BUFSIZE - overhead else 32
  }

  // There is always room for a character, and the whole line fits the wire
  // exactly when the names on it leave room for the least budget.
  lemma BudgetFits(nick: nat, user: nat, host: nat, registered: bool, command: nat, target: nat)
    ensures var overhead := Overhead(nick, user, host, registered, command, target);
            && Budget(overhead) >= 32 && (Budget(overhead) > 32 ==> overhead + Budget(overhead) == BUFSIZE)
            && (overhead + Budget(overhead) <= BUFSIZE <==>
                  nick + (if registered then user + host + 2 else 0) + command + target <= BUFSIZE - 32 - 7)
  {
  }
}
