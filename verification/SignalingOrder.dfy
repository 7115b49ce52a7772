/** Which calls keep messages in order whatever the traffic: exact conditions on the calls alone. */
module SignalingOrder {
  import opened Bytes
  import opened Signaling
  import opened SignalingTheorems

  predicate Sends(c: Call) { c.Request? && c.sendOk }

  /** A request for the opcode is sent. */
  predicate RequestsOp(calls: seq<Call>, op: U16)
  {
    exists c :: c in calls && Sends(c) && c.op == op
  }

  /** What a request returns has its opcode or is an error. */
  lemma {:induction false} AnswerHasOpcode(p: Protocol, s: Session, op: U16)
    requires Ok(s)
    ensures var r := AwaitAnswer(p, s, op).1; r.Some? ==> r.value.op == op || r.value.op in p.errors
    decreases |s.items| - s.pos
  {
    var (u, r) := Recv(p, s, true);
    if r.Got? && !Answers(p, op, r.frame) {
      AnswerHasOpcode(p, Buffer(p, u, r.frame), op);
    }
  }

  // ---- One opcode ----

  /** Whether packets of an error opcode may be buffered after these calls. */
  predicate MayHold(calls: seq<Call>, op: U16)
  {
    calls != [] &&
    var before := calls[..|calls| - 1];
    match calls[|calls| - 1]
    case Poll => true
    case WaitEvent(w) => w != op || MayHold(before, op)
    case DrainAll(d) => d != op && MayHold(before, op)
    case _ => MayHold(before, op)
  }

  /**
   * Whether an answer may overtake: the opcode is asked for; or it is an error, which answers any request,
   * and one may be buffered by then.
   */
  predicate MayOvertake(p: Protocol, calls: seq<Call>, op: U16)
  {
    calls != [] &&
    var before, c := calls[..|calls| - 1], calls[|calls| - 1];
    MayOvertake(p, before, op) || (Sends(c) && if op in p.errors then MayHold(before, op) else c.op == op)
  }

  lemma {:induction false} MayOvertakeIsRequested(p: Protocol, calls: seq<Call>, op: U16)
    requires op !in p.errors
    ensures MayOvertake(p, calls, op) <==> RequestsOp(calls, op)
  {
    if calls != [] {
      var before, c := calls[..|calls| - 1], calls[|calls| - 1];
      MayOvertakeIsRequested(p, before, op);
      assert c in calls && forall d :: d in calls <==> d in before || d == c;
    }
  }

  /** Off the floor path, an opcode is always delivered in order under all traffic if and only if no answer may overtake. */
  lemma InOrderForAllTrafficIff(p: Protocol, calls: seq<Call>, op: U16)
    requires op != p.floor
    ensures (forall items :: AlwaysInOrder(p, items, calls, op)) <==> !MayOvertake(p, calls, op)
    ensures op !in p.errors ==> (MayOvertake(p, calls, op) <==> RequestsOp(calls, op))
  {
    if op !in p.errors { MayOvertakeIsRequested(p, calls, op); }
    if MayOvertake(p, calls, op) {
      var items := OvertakingTraffic(p, calls, op);
      InOrderUnlessOvertaken(p, items, calls, op);
    } else {
      forall items ensures AlwaysInOrder(p, items, calls, op) {
        NoTrafficOvertakes(p, items, calls, op);
        InOrderUnlessOvertaken(p, items, calls, op);
      }
    }
  }

  lemma {:induction false} NoTrafficOvertakes(p: Protocol, items: seq<Item>, calls: seq<Call>, op: U16)
    requires op != p.floor && !MayOvertake(p, calls, op)
    ensures NeverOvertaken(p, items, calls, op)
  {
    if calls != [] {
      var before, c := calls[..|calls| - 1], calls[|calls| - 1];
      NoTrafficOvertakes(p, items, before, op);
      if Sends(c) {
        var s := Send(Run(p, items, before).s, c.op, true);
        AnswerHasOpcode(p, s, c.op);
        if op in p.errors {
          NothingHeld(p, items, before, op);
          AnswerLeavesErrors(p, s, c.op, op);
        }
      }
    }
  }

  /** A request never buffers a packet of an error opcode. */
  lemma {:induction false} AnswerLeavesErrors(p: Protocol, s: Session, asked: U16, op: U16)
    requires Ok(s) && op in p.errors
    ensures Of(op, AwaitAnswer(p, s, asked).0.events) == Of(op, s.events)
    decreases |s.items| - s.pos
  {
    RecvArrives(p, s, true);
    var (u, r) := Recv(p, s, true);
    if r.Got? && !Answers(p, asked, r.frame) {
      OfSnoc(op, u.events, ToPacket(r.frame));
      AnswerLeavesErrors(p, Buffer(p, u, r.frame), asked, op);
    }
  }

  lemma {:induction false} EventLeavesOwn(p: Protocol, s: Session, awaited: U16)
    requires Ok(s)
    ensures Of(awaited, AwaitEvent(p, s, awaited).0.events) == Of(awaited, s.events)
    decreases |s.items| - s.pos
  {
    RecvArrives(p, s, false);
    var (u, r) := Recv(p, s, false);
    if r.Got? && r.frame.op != awaited {
      OfSnoc(awaited, u.events, ToPacket(r.frame));
      EventLeavesOwn(p, Buffer(p, u, r.frame), awaited);
    }
  }

  lemma {:induction false} NothingHeld(p: Protocol, items: seq<Item>, calls: seq<Call>, op: U16)
    requires op in p.errors && !MayHold(calls, op)
    ensures Of(op, Run(p, items, calls).s.events) == []
  {
    if calls != [] {
      var before, c := calls[..|calls| - 1], calls[|calls| - 1];
      if !MayHold(before, op) { NothingHeld(p, items, before, op); }
      HoldsNothingAfter(p, Run(p, items, before), c, op, MayHold(before, op));
    }
  }

  lemma HoldsNothingAfter(p: Protocol, h: History, c: Call, op: U16, held: bool)
    requires Ok(h.s) && op in p.errors && (held || Of(op, h.s.events) == [])
    requires !c.Poll? && (c.WaitEvent? ==> c.op == op && !held) && (if c.DrainAll? then c.op == op || !held else !held)
    ensures Of(op, Apply(p, h, c).s.events) == []
  {
    match c
    case Request(asked, sendOk) => if sendOk { AnswerLeavesErrors(p, Send(h.s, asked, true), asked, op); }
    case WaitEvent(w) =>
      NoneBuffered(h.s.events, op);
      EventLeavesOwn(p, h.s, op);
    case TakeEvent(taken) =>
      if FirstIndex(h.s.events, taken) < |h.s.events| { TakeFirst(p, h.s.events, taken, Floor([]), op); }
    case DrainAll(taken) => SplitByOpcode(p, h.s.events, taken, Floor([]), op);
    case _ =>
  }

  // ---- Traffic in which an answer overtakes ----

  function Early(op: U16): Frame { Frame(op, 7, Msg, []) }

  function Answer(op: U16): Frame { Frame(op, 1, AckOk, []) }

  lemma {:induction false} OvertakingTraffic(p: Protocol, calls: seq<Call>, op: U16) returns (items: seq<Item>)
    requires op != p.floor && MayOvertake(p, calls, op)
    ensures !NeverOvertaken(p, items, calls, op)
  {
    var before, c := calls[..|calls| - 1], calls[|calls| - 1];
    if MayOvertake(p, before, op) {
      items := OvertakingTraffic(p, before, op);
    } else if op in p.errors {
      items := HoldingRun(p, before, op, 1, [Binary(Answer(op))]);
      AnswerOvertakesHeld(p, Send(Run(p, items, before).s, c.op, true), c.op, op);
    } else {
      items := QuietRun(p, before, [Binary(Early(op)), Binary(Answer(op))]);
      AnswerOvertakesEarly(p, Send(Run(p, items, before).s, op, true), op);
    }
  }

  lemma AnswerOvertakesHeld(p: Protocol, s: Session, asked: U16, op: U16)
    requires Ok(s) && op in p.errors && s.items[s.pos..] == [Binary(Answer(op))] && s.events == Copies(op, 1)
    ensures Overtaken(AwaitAnswer(p, s, asked), op)
  {
    assert s.items[s.pos..][0] == Binary(Answer(op));
    assert s.events[..0] == [];
    Swapped(op);
  }

  lemma AnswerOvertakesEarly(p: Protocol, s: Session, op: U16)
    requires Ok(s) && op != p.floor && op !in p.errors && s.events == []
    requires s.items[s.pos..] == [Binary(Early(op)), Binary(Answer(op))]
    ensures Overtaken(AwaitAnswer(p, s, op), op)
  {
    assert s.items[s.pos..][0] == Binary(Early(op)) && s.items[s.pos..][1] == Binary(Answer(op));
    var u := Buffer(p, Accept(p, s, Early(op)), Early(op));
    assert Recv(p, u, true) == (Accept(p, u, Answer(op)), Got(Answer(op)));
    assert AwaitAnswer(p, s, op) == AwaitAnswer(p, u, op);
    assert u.events == [ToPacket(Early(op))] && u.events[..0] == [];
    Swapped(op);
  }

  lemma Swapped(op: U16)
    ensures var k, e := ToPacket(Answer(op)), ToPacket(Early(op)); [k] + [e] != [e] + [k]
  {
    assert ([ToPacket(Answer(op))] + [ToPacket(Early(op))])[0].pid == 1;
    assert ([ToPacket(Early(op))] + [ToPacket(Answer(op))])[0].pid == 7;
  }

  /** n early packets of the opcode, as buffered and as received. */
  function Copies(op: U16, n: nat): seq<Packet> { if n == 0 then [] else Copies(op, n - 1) + [ToPacket(Early(op))] }

  function Burst(op: U16, n: nat): seq<Item> { if n == 0 then [] else [Binary(Early(op))] + Burst(op, n - 1) }

  lemma {:induction false} CopiesAre(op: U16, n: nat)
    ensures |Copies(op, n)| == n && forall k :: k in Copies(op, n) ==> k == ToPacket(Early(op))
  {
    if n > 0 { CopiesAre(op, n - 1); }
  }

  /** Traffic that leaves exactly n packets of the opcode in the buffer and the tail unread. */
  lemma {:induction false} HoldingRun(p: Protocol, calls: seq<Call>, op: U16, n: nat, tail: seq<Item>) returns (items: seq<Item>)
    requires op != p.floor && MayHold(calls, op)
    ensures var s := Run(p, items, calls).s; s.items == items && s.events == Copies(op, n) && s.items[s.pos..] == tail
  {
    var before, c := calls[..|calls| - 1], calls[|calls| - 1];
    if c.Poll? || (c.WaitEvent? && c.op != op) {
      items := QuietRun(p, before, Burst(op, n) + [Quiet] + tail);
      BurstIsHeld(p, Run(p, items, before), c, op, n, tail);
    } else if (c.WaitEvent? || c.TakeEvent?) && c.op == op {
      items := HoldingRun(p, before, op, n + 1, tail);
      OneIsTaken(Run(p, items, before).s, op, n);
    } else {
      items := HoldingRun(p, before, op, n, if Sends(c) then [Failure] + tail else tail);
      RestIsHeld(p, Run(p, items, before), c, op, n, tail);
    }
  }

  lemma OneIsTaken(s: Session, op: U16, n: nat)
    requires s.events == Copies(op, n + 1)
    ensures DrainEvent(s, op) == (s.(events := Copies(op, n)), Some(ToPacket(Early(op))))
  {
    CopiesAre(op, n + 1);
    CopiesAre(op, n);
    assert s.events[0] in s.events;
    assert forall k :: k in RemoveAt(s.events, 0) ==> k in s.events;
    SameCopies(RemoveAt(s.events, 0), op, n);
  }

  lemma SameCopies(a: seq<Packet>, op: U16, n: nat)
    requires |a| == n && forall k :: k in a ==> k == ToPacket(Early(op))
    ensures a == Copies(op, n)
  {
    CopiesAre(op, n);
    forall i | 0 <= i < n ensures a[i] == Copies(op, n)[i] {
      assert a[i] in a && Copies(op, n)[i] in Copies(op, n);
    }
  }

  lemma RestIsHeld(p: Protocol, h: History, c: Call, op: U16, n: nat, tail: seq<Item>)
    requires Ok(h.s) && h.s.events == Copies(op, n) && !c.Poll? && !c.WaitEvent?
    requires (c.TakeEvent? || c.DrainAll?) ==> c.op != op
    requires h.s.items[h.s.pos..] == if Sends(c) then [Failure] + tail else tail
    ensures var s := Apply(p, h, c).s; s.items == h.s.items && s.events == Copies(op, n) && s.items[s.pos..] == tail
  {
    CopiesAre(op, n);
    match c
    case Request(asked, sendOk) => if sendOk { FailureNext(h.s, tail); }
    case TakeEvent(taken) =>
      FirstOfNone(h.s.events, taken);
    case DrainAll(taken) => NoneExcepted(h.s.events, taken);
    case _ =>
  }

  lemma {:induction false} FirstOfNone(events: seq<Packet>, op: U16)
    requires forall k :: k in events ==> k.op != op
    ensures FirstIndex(events, op) == |events|
  {
    if events != [] {
      FirstOfNone(events[1..], op);
    }
  }

  lemma {:induction false} NoneExcepted(events: seq<Packet>, op: U16)
    requires forall k :: k in events ==> k.op != op
    ensures Except(op, events) == events
  {
    if events != [] {
      NoneExcepted(events[..|events| - 1], op);
      assert events == events[..|events| - 1] + [events[|events| - 1]];
    }
  }

  lemma BurstIsHeld(p: Protocol, h: History, c: Call, op: U16, n: nat, tail: seq<Item>)
    requires Ok(h.s) && op != p.floor && h.s.events == [] && h.s.items[h.s.pos..] == Burst(op, n) + [Quiet] + tail
    requires c.Poll? || (c.WaitEvent? && c.op != op)
    ensures var s := Apply(p, h, c).s; s.items == h.s.items && s.events == Copies(op, n) && s.items[s.pos..] == tail
  {
    if c.Poll? {
      PollTakesBurst(p, h.s, op, 0, n, tail);
    } else {
      EventTakesBurst(p, h.s, c.op, op, 0, n, tail);
    }
  }

  lemma {:induction false} PollTakesBurst(p: Protocol, s: Session, op: U16, have: nat, n: nat, tail: seq<Item>)
    requires Ok(s) && op != p.floor && s.events == Copies(op, have) && s.items[s.pos..] == Burst(op, n) + [Quiet] + tail
    ensures var u := Signaling.Poll(p, s); u.items == s.items && u.events == Copies(op, have + n) && u.items[u.pos..] == tail
    decreases n
  {
    BurstNext(s, op, n, tail);
    if n == 0 {
      assert Recv(p, s, false) == (Skip(s), TimedOut);
    } else {
      assert Recv(p, s, false) == (Accept(p, s, Early(op)), Got(Early(op)));
      PollTakesBurst(p, Buffer(p, Accept(p, s, Early(op)), Early(op)), op, have + 1, n - 1, tail);
    }
  }

  lemma {:induction false} EventTakesBurst(p: Protocol, s: Session, awaited: U16, op: U16, have: nat, n: nat, tail: seq<Item>)
    requires Ok(s) && op != p.floor && awaited != op
    requires s.events == Copies(op, have) && s.items[s.pos..] == Burst(op, n) + [Quiet] + tail
    ensures var u := AwaitEvent(p, s, awaited).0;
            u.items == s.items && u.events == Copies(op, have + n) && u.items[u.pos..] == tail
    decreases n
  {
    BurstNext(s, op, n, tail);
    if n == 0 {
      assert Recv(p, s, false) == (Skip(s), TimedOut);
    } else {
      assert Recv(p, s, false) == (Accept(p, s, Early(op)), Got(Early(op)));
      EventTakesBurst(p, Buffer(p, Accept(p, s, Early(op)), Early(op)), awaited, op, have + 1, n - 1, tail);
    }
  }

  lemma BurstNext(s: Session, op: U16, n: nat, tail: seq<Item>)
    requires Ok(s) && s.items[s.pos..] == Burst(op, n) + [Quiet] + tail
    ensures s.pos < |s.items| && s.items[s.pos] == (if n == 0 then Quiet else Binary(Early(op)))
    ensures s.items[s.pos + 1..] == if n == 0 then tail else Burst(op, n - 1) + [Quiet] + tail
  {
    var left := s.items[s.pos..];
    assert left[0] == s.items[s.pos] && left[1..] == s.items[s.pos + 1..];
    if n == 0 {
      assert left == [Quiet] + tail;
    } else {
      assert left == [Binary(Early(op))] + (Burst(op, n - 1) + [Quiet] + tail);
    }
  }

  /** In particular, an opcode that is never asked for, is no error and is not the floor opcode. */
  lemma EventsInOrder(p: Protocol, items: seq<Item>, calls: seq<Call>, op: U16)
    requires op != p.floor && op !in p.errors && !RequestsOp(calls, op)
    ensures InOrder(Run(p, items, calls), op)
  {
    MayOvertakeIsRequested(p, calls, op);
    NoTrafficOvertakes(p, items, calls, op);
    InOrderUnlessOvertaken(p, items, calls, op);
  }

  /** Why request opcodes are excluded from the order guarantee: an answer overtakes a buffered message of its opcode. */
  lemma AnswerOvertakesMessage(p: Protocol, op: U16)
    requires op != p.floor && op !in p.errors && op !in p.events
    ensures var early, answer := Frame(op, 7, Msg, []), Frame(op, 1, AckOk, []);
            var h := Run(p, [Binary(early), Binary(answer)], [Request(op, true), TakeEvent(op)]);
            h.handed == [ToPacket(answer), ToPacket(early)]
  {
    var early, answer := Frame(op, 7, Msg, []), Frame(op, 1, AckOk, []);
    var items := [Binary(early), Binary(answer)];
    var calls := [Request(op, true), TakeEvent(op)];
    assert calls[..1] == [Request(op, true)] && calls[..1][..0] == [];
    assert Run(p, items, calls[..1][..0]) == Start(items);
    var s0 := Start(items).s;
    var s1 := Send(s0, op, true);
    var s2 := Buffer(p, Accept(p, s1, early), early);
    assert Recv(p, s1, true) == (Accept(p, s1, early), Got(early));
    assert Recv(p, s2, true) == (Accept(p, s2, answer), Got(answer));
    assert AwaitAnswer(p, s2, op) == (Accept(p, s2, answer), Some(ToPacket(answer)));
    assert AwaitAnswer(p, s1, op) == AwaitAnswer(p, s2, op);
    var h1 := Run(p, items, calls[..1]);
    assert h1 == Handing(Start(items), (Accept(p, s2, answer), Some(ToPacket(answer))));
    assert h1.s.events == [ToPacket(early)];
  }

  // ---- The floor path ----

  /** A call that may be handed a floor message: it waits for one, or for an answer that may be one. */
  predicate SinglesOut(p: Protocol, c: Call)
  {
    (c.WaitEvent? && c.op == p.floor) || (Sends(c) && (c.op == p.floor || p.floor in p.errors))
  }

  /** Floor messages are in order under all traffic if and only if no call may be handed one. */
  lemma FloorInOrderForAllTrafficIff(p: Protocol, calls: seq<Call>)
    ensures (forall items :: FloorInOrder(p, Run(p, items, calls))) <==> forall c :: c in calls ==> !SinglesOut(p, c)
  {
    if forall c :: c in calls ==> !SinglesOut(p, c) {
      forall items ensures FloorInOrder(p, Run(p, items, calls)) {
        NoneSingledOut(p, items, calls);
        FloorInOrderIff(p, items, calls);
      }
    } else {
      var items := SinglingTraffic(p, calls);
      FloorInOrderIff(p, items, calls);
    }
  }

  /** Traffic that hands out a floor message: nothing but failures before the call, then one. */
  lemma {:induction false} SinglingTraffic(p: Protocol, calls: seq<Call>) returns (items: seq<Item>)
    requires exists c :: c in calls && SinglesOut(p, c)
    ensures Of(p.floor, Run(p, items, calls).handed) != []
  {
    var before, c := calls[..|calls| - 1], calls[|calls| - 1];
    assert forall d :: d in calls ==> d in before || d == c;
    if exists d :: d in before && SinglesOut(p, d) {
      items := SinglingTraffic(p, before);
      HandedGrows(p, Run(p, items, before), c, p.floor);
    } else {
      var f := Frame(p.floor, 1, AckOk, []);
      items := QuietRun(p, before, [Binary(f)]);
      SinglesFloorOut(p, Run(p, items, before), c, f);
    }
  }

  lemma SinglesFloorOut(p: Protocol, h: History, c: Call, f: Frame)
    requires SinglesOut(p, c) && f.op == p.floor && f.ack.AckOk? && Next(h.s, f) && h.s.events == []
    ensures Of(p.floor, Apply(p, h, c).handed) != []
  {
    OfSnoc(p.floor, h.handed, ToPacket(f));
    if c.Request? {
      assert Next(Send(h.s, c.op, true), f);
    }
  }

  lemma HandedGrows(p: Protocol, h: History, c: Call, op: U16)
    requires Ok(h.s) && Of(op, h.handed) != []
    ensures Of(op, Apply(p, h, c).handed) != []
  {
    var more := Apply(p, h, c).handed[|h.handed|..];
    assert Apply(p, h, c).handed == h.handed + more;
    Joined(p, h.handed, more, Floor([]), op);
  }

  lemma {:induction false} NoneSingledOut(p: Protocol, items: seq<Item>, calls: seq<Call>)
    requires forall c :: c in calls ==> !SinglesOut(p, c)
    ensures Of(p.floor, Run(p, items, calls).handed) == []
  {
    if calls != [] {
      var before, c := calls[..|calls| - 1], calls[|calls| - 1];
      assert c in calls && forall d :: d in before ==> d in calls;
      NoneSingledOut(p, items, before);
      SessionInvariant(p, items, before, Floor([]));
      StepSinglesNoneOut(p, Run(p, items, before), c);
    }
  }

  lemma StepSinglesNoneOut(p: Protocol, h: History, c: Call)
    requires Ok(h.s) && FloorKept(p, h) && !SinglesOut(p, c)
    requires Of(p.floor, h.handed) == []
    ensures Of(p.floor, Apply(p, h, c).handed) == []
  {
    match c
    case Request(op, sendOk) =>
      if sendOk { AnswerHasOpcode(p, Send(h.s, op, true), op); }
      HandedOne(p.floor, h, Signaling.Request(p, h.s, op, sendOk));
    case WaitEvent(op) =>
      EventHasOpcode(p, h.s, op);
      HandedOne(p.floor, h, Signaling.WaitEvent(p, h.s, op));
    case TakeEvent(op) =>
      NoneBuffered(h.s.events, p.floor);
      HandedOne(p.floor, h, DrainEvent(h.s, op));
    case DrainAll(op) => NoFloorDrained(p, h.handed, h.s.events, op);
    case _ =>
  }

  lemma HandedOne(op: U16, h: History, r: (Session, Option<Packet>))
    requires Of(op, h.handed) == [] && (r.1.Some? ==> r.1.value.op != op)
    ensures Of(op, Handing(h, r).handed) == []
  {
    if r.1.Some? { OfSnoc(op, h.handed, r.1.value); }
  }

  lemma {:induction false} NoneBuffered(events: seq<Packet>, op: U16)
    requires Of(op, events) == []
    ensures forall k :: k in events ==> k.op != op
  {
    if events != [] {
      NoneBuffered(events[..|events| - 1], op);
    }
  }

  lemma EventHasOpcode(p: Protocol, s: Session, op: U16)
    requires Ok(s)
    ensures var r := Signaling.WaitEvent(p, s, op).1; r.Some? ==> r.value.op == op
  {
    AwaitedHasOpcode(p, s, op);
  }

  lemma {:induction false} AwaitedHasOpcode(p: Protocol, s: Session, op: U16)
    requires Ok(s)
    ensures var r := AwaitEvent(p, s, op).1; r.Some? ==> r.value.op == op
    decreases |s.items| - s.pos
  {
    var (u, r) := Recv(p, s, false);
    if r.Got? && r.frame.op != op {
      AwaitedHasOpcode(p, Buffer(p, u, r.frame), op);
    }
  }

  // ---- Traffic for given calls ----

  /** The calls that receive, given that nothing is buffered. */
  predicate Receives(c: Call) { c.Poll? || c.WaitEvent? || Sends(c) }

  /** With one failure for each call that receives, the calls leave nothing behind and the tail unread. */
  lemma {:induction false} QuietRun(p: Protocol, calls: seq<Call>, tail: seq<Item>) returns (items: seq<Item>)
    ensures var s := Run(p, items, calls).s; s.items == items && s.events == [] && s.items[s.pos..] == tail
  {
    if calls == [] {
      items := tail;
    } else {
      var before, c := calls[..|calls| - 1], calls[|calls| - 1];
      items := QuietRun(p, before, if Receives(c) then [Failure] + tail else tail);
      QuietStep(p, Run(p, items, before), c, tail);
    }
  }

  lemma QuietStep(p: Protocol, h: History, c: Call, tail: seq<Item>)
    requires Ok(h.s) && h.s.events == [] && h.s.items[h.s.pos..] == if Receives(c) then [Failure] + tail else tail
    ensures var s := Apply(p, h, c).s; s.items == h.s.items && s.events == [] && s.items[s.pos..] == tail
  {
    if Receives(c) {
      FailureNext(h.s, tail);
    }
  }

  lemma FailureNext(s: Session, tail: seq<Item>)
    requires Ok(s) && s.items[s.pos..] == [Failure] + tail
    ensures s.pos < |s.items| && s.items[s.pos] == Failure && s.items[s.pos + 1..] == tail
  {
    assert s.items[s.pos..][0] == Failure && s.items[s.pos..][1..] == tail;
  }
}
