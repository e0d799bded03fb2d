/**
 * Commands after which what a client receives is not as batches promise.
 */
module BatchExamples {
  import opened Options
  import opened Batch
  import opened BatchNesting
  import opened BatchLabels
  import opened BatchReceipt

  // Clients 1 and 2, which asked for everything.
  const START := State(None, None, None, 0, {1, 2}, {1, 2}, {1, 2}, [])

  lemma StartFollows(d: nat)
    ensures Follows(START, d, true, false) && Idle(START) && Fresh(START)
  {
    assert forall id: nat :: !Live(START, id);
  }

  lemma OneAct(s: State, a: Act, d: nat)
    ensures DoAll(s, [a]) == Do(s, a) && (FineActs(s, [a], d) <==> FineAct(s, a, d))
  {
    assert [a][1..] == [];
  }

  // A handler that opens a batch to the client and leaves it open: the line
  // that closes the label is queued inside that batch.
  lemma LeftOpen()
    ensures !WellNested(Normals(Command(START, 1, "x", [DoOpen(1, "chathistory")]), 1))
  {
    StartFollows(1);
    CommandNestsIff(START, 1, "x", [DoOpen(1, "chathistory")], 1, true);
    OneAct(LabelBegin(START, 1, "x"), DoOpen(1, "chathistory"), 1);
  }

  // ----- Priority -----------------------------------------------------------

  const WALLOPS := DoTell(Tell([Rcpt(1, 0)], "WALLOPS :hi", true, true))

  const ASKED := Line(Open(1, "labeled-response"), None, Some("x"))
  const SAID := Line(Plain("WALLOPS :hi", true), Some(1), None)
  const CLOSED := Line(Close(1), None, None)

  // A label and one line to its client.
  lemma OneToldLine(s: State, t: Tell, to: Rcpt, text: string)
    requires s.reply == Some(LabelCtx(to.client, text, None)) && s.out.None? && s.fan.None? && t.tos == [to]
    ensures var id := s.ids + 1;
            LabelEnd(Say(s, t)).wire
            == s.wire + [Sent(to.client, Line(Open(id, "labeled-response"), None, Some(text)))]
               + [Sent(to.client, Line(Plain(t.text, t.prio), Some(id), None))]
               + [Sent(to.client, Line(Close(id), None, None))]
  {
    assert t.tos[1..] == [];
    assert TellTo(s, t, t.tos, None) == TellTo(TellOne(s, t, to, None), t, t.tos[1..], NextCache(s, t, to, None));
  }

  lemma ThreeLines(wire: seq<Sent>, c: nat, x: Line, y: Line, z: Line)
    requires wire == [] + [Sent(c, x)] + [Sent(c, y)] + [Sent(c, z)]
    ensures Lines(wire, c) == [x, y, z]
  {
    LinesNext([], Sent(c, x), c);
    LinesNext([] + [Sent(c, x)], Sent(c, y), c);
    LinesNext([] + [Sent(c, x)] + [Sent(c, y)], Sent(c, z), c);
  }

  lemma WallopsQueues()
    ensures Lines(Command(START, 1, "x", [WALLOPS]).wire, 1) == [ASKED, SAID, CLOSED]
  {
    var s1 := LabelBegin(START, 1, "x");
    OneAct(s1, WALLOPS, 1);
    OneToldLine(s1, WALLOPS.tell, Rcpt(1, 0), "x");
    ThreeLines(Command(START, 1, "x", [WALLOPS]).wire, 1, ASKED, SAID, CLOSED);
  }

  lemma WallopsQueue(ls: seq<Line>, begun: seq<nat>)
    requires ls == [ASKED, SAID, CLOSED] && begun == [0, 0, 0]
    ensures QueueAt(ls, begun, 1) == Q.Queue([], [], [0])
    ensures QueueAt(ls, begun, 3) == Q.Queue([], [1], [0, 2])
  {
    assert QueueAt(ls, begun, 0) == Q.Empty;
    Queued(ls, begun, 0, Q.Empty, false);
    Queued(ls, begun, 1, Q.Queue([], [], [0]), true);
    Queued(ls, begun, 2, Q.Queue([], [1], [0]), false);
  }

  lemma Queued(ls: seq<Line>, begun: seq<nat>, k: nat, q: Q.Queue, prio: bool)
    requires |begun| == |ls| && k < |ls| && begun[k] == 0 && Prio(ls[k]) == prio && QueueAt(ls, begun, k) == q
    ensures QueueAt(ls, begun, k + 1) == Q.Add(q, k, prio)
  {
    QueueNext(ls, begun, k);
  }

  // An operator that sees wallops sends a labeled WALLOPS: its own copy has
  // priority, and is received before the line that opens the batch it is in.
  lemma WallopsComesFirst()
    ensures var ls, begun := Lines(Command(START, 1, "x", [WALLOPS]).wire, 1), [0, 0, 0];
            && ls == [ASKED, SAID, CLOSED] && Received(ls, begun) == [SAID, ASKED, CLOSED]
            && WellNested(ls) && !WellNested(Received(ls, begun)) && !Told(Received(ls, begun))
            && !Labeled(Answer(ls, begun, 0), "x")
  {
    WallopsQueues();
    var ls, begun := [ASKED, SAID, CLOSED], [0, 0, 0];
    WallopsReceived(ls, begun);
    StartFollows(1);
    LabeledShapeIff(START, 1, "x", [WALLOPS], begun, true);
    assert Overtakes(ls, begun, 1, 0) && Kept("x") == "x" && Lines(START.wire, 1) == [];
    InOrder();
  }

  lemma WallopsReceived(ls: seq<Line>, begun: seq<nat>)
    requires ls == [ASKED, SAID, CLOSED] && begun == [0, 0, 0]
    ensures Received(ls, begun) == [SAID, ASKED, CLOSED] && Overtakes(ls, begun, 1, 0)
    ensures !WellNested(Received(ls, begun)) && !Told(Received(ls, begun))
  {
    WallopsQueue(ls, begun);
    assert OrderOf(ls, begun) == [1, 0, 2];
    OrderIs(ls, begun);
    var got := Received(ls, begun);
    assert got == [SAID, ASKED, CLOSED];
    NestBoth([SAID], [ASKED, CLOSED]);
    assert [SAID] + [ASKED, CLOSED] == got && [SAID][..0] == [];
    assert got[0].batch.Some?;
  }

  lemma InOrder()
    ensures WellNested([ASKED, SAID, CLOSED])
  {
    Next([], ASKED);
    Next([ASKED], SAID);
    Next([ASKED, SAID], CLOSED);
    assert [] + [ASKED] == [ASKED] && [ASKED] + [SAID] == [ASKED, SAID];
    assert [ASKED, SAID] + [CLOSED] == [ASKED, SAID, CLOSED];
    assert !Has(Outside, 1);
  }

  // ----- A long message -----------------------------------------------------

  // To client 1 alone.
  function Numeric(text: string): Tell { Tell([Rcpt(1, 0)], text, false, true) }

  // The sender of a labeled long message, who gets its batch, is told anything
  // meanwhile - that it may not speak there, or the echo of its own message:
  // the line says it is in the label's batch, which by then has the message's
  // inside it.
  lemma SenderIsTold(text: string)
    ensures var fan := DoFan([1], [Numeric(text)], [1]);
            !WellNested(Normals(Command(START, 1, "x", [fan]), 1))
  {
    var fan, s1 := DoFan([1], [Numeric(text)], [1]), LabelBegin(START, 1, "x");
    StartFollows(1);
    CommandNestsIff(START, 1, "x", [fan], 1, true);
    OneAct(s1, fan, 1);
    BeginFollows(START, 1, "x", 1, true);
    OwnFanIff(s1, [1], [Numeric(text)], [1], 1);
    assert Rcpt(1, 0) in Numeric(text).tos && Numeric(text) in [Numeric(text)];
    assert Pending(s1, 1);
  }

  // With no label, one who is not on the channel is told so: the line says it
  // is in a batch that was never opened to them.
  lemma StrangerIsTold()
    ensures var fan := DoFan([2], [Numeric("404")], [2]);
            !WellNested(Normals(Command(START, 1, "", [fan]), 1))
  {
    var fan, s1 := DoFan([2], [Numeric("404")], [2]), LabelBegin(START, 1, "");
    StartFollows(1);
    CommandNestsIff(START, 1, "", [fan], 1, true);
    OneAct(s1, fan, 1);
    BeginFollows(START, 1, "", 1, true);
    OwnFanIff(s1, [2], [Numeric("404")], [2], 1);
    assert Rcpt(1, 0) in Numeric("404").tos && Numeric("404") in [Numeric("404")];
  }

  // Two recipients of one line that look the same, the first of them in a batch
  // of its own: the other's copy is made out as the first one's.
  lemma MadeOutForAnother(s: State, t: Tell, a: Rcpt, b: Rcpt)
    requires Sane(s) && s.fan.Some? && !t.own && !t.prio && a.style == b.style && a.client != b.client
    requires OwnTag(s, a.client).Some? && Heard(s, b.client) && !Pending(s, b.client)
    ensures !FineTo(s, t, [a, b], None, b.client, true)
  {
    assert !Pending(s, a.client);
    var s1, cache := TellOne(s, t, a, None), NextCache(s, t, a, None);
    assert [a, b][1..] == [b] && OwnTag(s, a.client) != s.fan;
    assert TagOf(s1, t, b, cache) == OwnTag(s, a.client);
    assert !FineOne(s1, t, b, cache, b.client, true);
  }

  const JOIN := Tell([Rcpt(1, 0), Rcpt(2, 0)], "JOIN", false, false)

  lemma BothSeated(s1: State, s2: State)
    requires s1 == LabelBegin(START, 1, "x") && s2 == FanOpen(s1, [1, 2])
    ensures Sane(s2) && s2.fan.Some? && OwnTag(s2, 1).Some? && Heard(s2, 2) && !Pending(s2, 2)
  {
    StartFollows(2);
    BeginFollows(START, 1, "x", 2, true);
    FanBeginsSane(s1);
    var s0 := s1.(ids := s1.ids + 1, fan := Some(s1.ids + 1));
    OpeningSane(s0, [1, 2], {});
    SeatAfter(s0, [1, 2], {}, 1);
    SeatAfter(s0, [1, 2], {}, 2);
  }

  // A hidden member's first words on a channel are a labeled long message: the
  // JOIN that makes it known goes to it and to the next member alike, and the
  // next one's copy says it is in the sender's batch.
  lemma NextMemberIsMistaken()
    ensures !WellNested(Normals(Command(START, 1, "x", [DoFan([1, 2], [JOIN], [1, 2])]), 2))
  {
    var fan, s1 := DoFan([1, 2], [JOIN], [1, 2]), LabelBegin(START, 1, "x");
    StartFollows(2);
    CommandNestsIff(START, 1, "x", [fan], 2, true);
    OneAct(s1, fan, 2);
    BothSeated(s1, FanOpen(s1, [1, 2]));
    MadeOutForAnother(FanOpen(s1, [1, 2]), JOIN, Rcpt(1, 0), Rcpt(2, 0));
  }
}
