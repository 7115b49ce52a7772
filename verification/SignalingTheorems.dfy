/** Conservation, order, acknowledgement and packet ids over every interleaving of session calls. */
module SignalingTheorems {
  import opened Bytes
  import opened Signaling

  datatype Call =
    | Request(op: U16, sendOk: bool)
    | Poll
    | WaitEvent(op: U16)
    | TakeEvent(op: U16)
    | DrainAll(op: U16)
    | DrainFloor
    | SendFloor(sendOk: bool)

  /** A session with everything its callers have been handed so far. */
  datatype History = History(s: Session, handed: seq<Packet>, floorHanded: seq<seq<Byte>>)

  function Handing(h: History, r: (Session, Option<Packet>)): History
  {
    History(r.0, if r.1.Some? then h.handed + [r.1.value] else h.handed, h.floorHanded)
  }

  function Apply(p: Protocol, h: History, c: Call): (r: History)
    requires Ok(h.s)
    ensures Ok(r.s)
  {
    match c
    case Request(op, sendOk) => Handing(h, Signaling.Request(p, h.s, op, sendOk))
    case Poll => h.(s := Signaling.Poll(p, h.s))
    case WaitEvent(op) => Handing(h, Signaling.WaitEvent(p, h.s, op))
    case TakeEvent(op) => Handing(h, DrainEvent(h.s, op))
    case DrainAll(op) => h.(s := h.s.(events := Except(op, h.s.events)), handed := h.handed + Of(op, h.s.events))
    case DrainFloor => h.(s := h.s.(floor := []), floorHanded := h.floorHanded + h.s.floor)
    case SendFloor(sendOk) => h.(s := Send(h.s, p.floor, sendOk))
  }

  function Start(items: seq<Item>): History { History(Session(items, 0, [], 1, [], []), [], []) }

  function Run(p: Protocol, items: seq<Item>, calls: seq<Call>): (h: History)
    ensures Ok(h.s)
  {
    if calls == [] then Start(items) else Apply(p, Run(p, items, calls[..|calls| - 1]), calls[|calls| - 1])
  }

  /** The frames received so far: those among the consumed items. */
  function Arrived(s: Session): seq<Frame>
    requires Ok(s)
  {
    FramesIn(s.items, s.pos)
  }

  function FramesIn(items: seq<Item>, n: nat): seq<Frame>
    requires n <= |items|
  {
    if n == 0 then []
    else FramesIn(items, n - 1) + if items[n - 1].Binary? then [items[n - 1].frame] else []
  }

  // ---- The invariant ----

  /** What a frame carries, told apart by destination. */
  datatype Content = Json(packet: Packet) | Floor(body: seq<Byte>)

  function ContentOf(p: Protocol, k: Packet): Content { if k.op == p.floor then Floor(k.body) else Json(k) }

  function Bit(b: bool): nat { if b then 1 else 0 }

  /** How often a content occurs among packets, and among floor bodies. */
  function Count(p: Protocol, ps: seq<Packet>, x: Content): nat
  {
    if ps == [] then 0 else Count(p, ps[..|ps| - 1], x) + Bit(ContentOf(p, ps[|ps| - 1]) == x)
  }

  function CountFloor(bodies: seq<seq<Byte>>, x: Content): nat
  {
    if bodies == [] then 0 else CountFloor(bodies[..|bodies| - 1], x) + Bit(Floor(bodies[|bodies| - 1]) == x)
  }

  function Packets(fs: seq<Frame>): seq<Packet>
  {
    if fs == [] then [] else Packets(fs[..|fs| - 1]) + [ToPacket(fs[|fs| - 1])]
  }

  function AcksDue(p: Protocol, fs: seq<Frame>): seq<Out>
  {
    if fs == [] then []
    else
      var f := fs[|fs| - 1];
      AcksDue(p, fs[..|fs| - 1]) + if NeedsAck(p, f) then [SentAck(f.op, f.pid)] else []
  }

  function AcksSent(out: seq<Out>): seq<Out>
  {
    if out == [] then []
    else AcksSent(out[..|out| - 1]) + if out[|out| - 1].SentAck? then [out[|out| - 1]] else []
  }

  function PidsUsed(out: seq<Out>): seq<U32>
  {
    if out == [] then []
    else PidsUsed(out[..|out| - 1]) + if out[|out| - 1].SentAck? then [] else [out[|out| - 1].pid]
  }

  /** Each content is found, as often as it arrived, handed out, in a buffer, or drained from the floor buffer. */
  ghost predicate Conserved(p: Protocol, h: History, x: Content)
    requires Ok(h.s)
  {
    Count(p, Packets(Arrived(h.s)), x)
      == Count(p, h.handed, x) + Count(p, h.s.events, x) + CountFloor(h.floorHanded, x) + CountFloor(h.s.floor, x)
  }

  /** For one opcode, what was handed out followed by what is buffered is what arrived, in order. */
  ghost predicate InOrder(h: History, op: U16)
    requires Ok(h.s)
  {
    Of(op, Packets(Arrived(h.s))) == Of(op, h.handed) + Of(op, h.s.events)
  }

  /** Exactly one acknowledgement for each event message, in order, and none for anything else. */
  ghost predicate Acknowledged(p: Protocol, s: Session)
    requires Ok(s)
  {
    AcksSent(s.out) == AcksDue(p, Arrived(s))
  }

  /** The k-th message, whether or not its sending succeeds, has the id k + 1, modulo the width of the field. */
  ghost predicate Numbered(s: Session)
  {
    s.pid == |PidsUsed(s.out)| + 1
    && forall k :: 0 <= k < |PidsUsed(s.out)| ==> PidsUsed(s.out)[k] == (k + 1) % 0x1_0000_0000
  }

  /** The bodies of the floor frames. */
  function FloorBodies(p: Protocol, fs: seq<Frame>): seq<seq<Byte>>
  {
    if fs == [] then []
    else FloorBodies(p, fs[..|fs| - 1]) + if fs[|fs| - 1].op == p.floor then [fs[|fs| - 1].body] else []
  }

  /** Drained floor bodies followed by buffered ones are the floor bodies that arrived, in order. */
  ghost predicate FloorInOrder(p: Protocol, h: History)
    requires Ok(h.s)
  {
    FloorBodies(p, Arrived(h.s)) == h.floorHanded + h.s.floor
  }

  /** Floor packets: none is buffered as an event, and all are in order as long as none was handed out singly. */
  ghost predicate FloorSettled(p: Protocol, arrived: seq<seq<Byte>>, handed: seq<Packet>, events: seq<Packet>,
                               drained: seq<seq<Byte>>, floor: seq<seq<Byte>>)
  {
    && Of(p.floor, events) == []
    && |arrived| == |Of(p.floor, handed)| + |drained| + |floor|
    && (Of(p.floor, handed) == [] ==> arrived == drained + floor)
  }

  ghost predicate FloorKept(p: Protocol, h: History)
    requires Ok(h.s)
  {
    FloorSettled(p, FloorBodies(p, Arrived(h.s)), h.handed, h.s.events, h.floorHanded, h.s.floor)
  }

  ghost predicate Inv(p: Protocol, h: History, x: Content)
    requires Ok(h.s)
  {
    Conserved(p, h, x) && Acknowledged(p, h.s) && Numbered(h.s) && FloorKept(p, h)
  }

  /** What a step may do to the history: keep the invariant, and keep one opcode in order exactly if `keeps`. */
  ghost predicate Preserves(p: Protocol, h: History, g: History, x: Content, op: U16, keeps: bool)
    requires Ok(h.s) && Ok(g.s)
  {
    && (Inv(p, h, x) ==> Inv(p, g, x))
    && (InOrder(h, op) && op != p.floor ==> (InOrder(g, op) <==> keeps))
  }

  // ---- Appending and splitting lists ----

  lemma Pushed(p: Protocol, ps: seq<Packet>, k: Packet, x: Content, op: U16)
    ensures Count(p, ps + [k], x) == Count(p, ps, x) + Bit(ContentOf(p, k) == x)
    ensures Of(op, ps + [k]) == Of(op, ps) + if k.op == op then [k] else []
  {
    OfSnoc(op, ps, k);
    assert (ps + [k])[..|ps|] == ps;
  }

  lemma PushedFloor(bodies: seq<seq<Byte>>, b: seq<Byte>, x: Content)
    ensures CountFloor(bodies + [b], x) == CountFloor(bodies, x) + Bit(Floor(b) == x)
  {
    assert (bodies + [b])[..|bodies|] == bodies;
  }

  lemma {:induction false} Joined(p: Protocol, a: seq<Packet>, b: seq<Packet>, x: Content, op: U16)
    ensures Count(p, a + b, x) == Count(p, a, x) + Count(p, b, x)
    ensures Of(op, a + b) == Of(op, a) + Of(op, b)
  {
    if b == [] {
      assert a + b == a;
    } else {
      var b', k := b[..|b| - 1], b[|b| - 1];
      assert a + b == (a + b') + [k] && b == b' + [k];
      Joined(p, a, b', x, op);
      Pushed(p, a + b', k, x, op);
      Pushed(p, b', k, x, op);
    }
  }

  lemma {:induction false} JoinedFloor(a: seq<seq<Byte>>, b: seq<seq<Byte>>, x: Content)
    ensures CountFloor(a + b, x) == CountFloor(a, x) + CountFloor(b, x)
  {
    if b == [] {
      assert a + b == a;
    } else {
      var b', k := b[..|b| - 1], b[|b| - 1];
      assert a + b == (a + b') + [k] && b == b' + [k];
      JoinedFloor(a, b', x);
      PushedFloor(a + b', k, x);
      PushedFloor(b', k, x);
    }
  }

  // ---- Small steps ----

  /** Silence, noise and failures change nothing but the position. */
  lemma SkipKeeps(p: Protocol, h: History, x: Content, op: U16)
    requires h.s.pos < |h.s.items| && !h.s.items[h.s.pos].Binary?
    ensures Preserves(p, h, h.(s := Skip(h.s)), x, op, true)
  {
    assert Arrived(Skip(h.s)) == Arrived(h.s);
  }

  /** The frame the next receive yields. */
  predicate Next(s: Session, f: Frame) { s.pos < |s.items| && s.items[s.pos] == Binary(f) }

  /** Accepting a frame adds it to the arrivals and settles its acknowledgement. */
  lemma AcceptStep(p: Protocol, s: Session, f: Frame)
    requires Next(s, f)
    ensures var u := Accept(p, s, f);
            && Packets(Arrived(u)) == Packets(Arrived(s)) + [ToPacket(f)]
            && FloorBodies(p, Arrived(u)) == FloorBodies(p, Arrived(s)) + (if f.op == p.floor then [f.body] else [])
            && (Acknowledged(p, s) ==> Acknowledged(p, u))
            && (Numbered(s) ==> Numbered(u))
  {
    assert Arrived(Accept(p, s, f)) == Arrived(s) + [f];
    assert (Arrived(s) + [f])[..|Arrived(s)|] == Arrived(s);
    assert (s.out + [SentAck(f.op, f.pid)])[..|s.out|] == s.out;
  }

  /** A packet put at the back of the buffer keeps the order. */
  lemma OrderKept(op: U16, arrived: seq<Packet>, handed: seq<Packet>, events: seq<Packet>, k: Packet)
    requires Of(op, arrived) == Of(op, handed) + Of(op, events)
    ensures Of(op, arrived + [k]) == Of(op, handed) + Of(op, events + [k])
  {
    OfSnoc(op, arrived, k);
    OfSnoc(op, events, k);
    Regroup(Of(op, handed), Of(op, events), if k.op == op then [k] else []);
  }

  /** A packet handed out at once keeps the order exactly if it overtakes nothing. */
  lemma OrderKeptIff(op: U16, arrived: seq<Packet>, handed: seq<Packet>, events: seq<Packet>, k: Packet)
    requires Of(op, arrived) == Of(op, handed) + Of(op, events)
    ensures Of(op, arrived + [k]) == Of(op, handed + [k]) + Of(op, events) <==> !Overtakes(k, events, op)
  {
    OfSnoc(op, arrived, k);
    OfSnoc(op, handed, k);
    if k.op == op {
      SwapIff(Of(op, handed), Of(op, events), [k]);
    } else {
      WholeOrNothing(Of(op, handed));
      WholeOrNothing(Of(op, arrived));
    }
  }

  lemma OfSnoc(op: U16, ps: seq<Packet>, k: Packet)
    ensures Of(op, ps + [k]) == Of(op, ps) + if k.op == op then [k] else []
  {
    assert (ps + [k])[..|ps|] == ps;
  }

  /** Handing out k overtakes the packets of its opcode buffered before it. */
  predicate Overtakes(k: Packet, events: seq<Packet>, op: U16)
  {
    k.op == op && [k] + Of(op, events) != Of(op, events) + [k]
  }

  lemma SwapIff<T>(a: seq<T>, b: seq<T>, k: seq<T>)
    ensures (a + b) + k == (a + k) + b <==> k + b == b + k
  {
    assert (a + b) + k == a + (b + k) && (a + k) + b == a + (k + b);
    assert (a + (k + b))[|a|..] == k + b && (a + (b + k))[|a|..] == b + k;
  }

  /** A received frame put into a buffer. */
  lemma BufferKeeps(p: Protocol, h: History, f: Frame, x: Content, op: U16)
    requires Next(h.s, f)
    ensures Preserves(p, h, h.(s := Buffer(p, Accept(p, h.s, f), f)), x, op, true)
    ensures f.op != op ==> Of(op, Buffer(p, Accept(p, h.s, f), f).events) == Of(op, h.s.events)
  {
    AcceptStep(p, h.s, f);
    SameArrivals(p, Accept(p, h.s, f), f);
    BufferConserves(p, h, f, x);
    BufferKeepsOrder(p, h, f, op);
    FloorAccepted(p, h, f);
  }

  lemma BufferConserves(p: Protocol, h: History, f: Frame, x: Content)
    requires Next(h.s, f)
    ensures Conserved(p, h, x) ==> Conserved(p, h.(s := Buffer(p, Accept(p, h.s, f), f)), x)
  {
    AcceptStep(p, h.s, f);
    SameArrivals(p, Accept(p, h.s, f), f);
    Pushed(p, h.s.events, ToPacket(f), x, f.op);
    Pushed(p, Packets(Arrived(h.s)), ToPacket(f), x, f.op);
    PushedFloor(h.s.floor, f.body, x);
  }

  lemma BufferKeepsOrder(p: Protocol, h: History, f: Frame, op: U16)
    requires Next(h.s, f)
    ensures InOrder(h, op) && op != p.floor ==> InOrder(h.(s := Buffer(p, Accept(p, h.s, f), f)), op)
    ensures f.op != op ==> Of(op, Buffer(p, Accept(p, h.s, f), f).events) == Of(op, h.s.events)
  {
    AcceptStep(p, h.s, f);
    SameArrivals(p, Accept(p, h.s, f), f);
    OfSnoc(op, h.s.events, ToPacket(f));
    OfSnoc(op, Packets(Arrived(h.s)), ToPacket(f));
    if InOrder(h, op) { OrderKept(op, Packets(Arrived(h.s)), h.handed, h.s.events, ToPacket(f)); }
  }

  lemma SameArrivals(p: Protocol, u: Session, f: Frame)
    requires Ok(u)
    ensures var b := Buffer(p, u, f);
            Ok(b) && Arrived(b) == Arrived(u) && b.out == u.out && b.pid == u.pid
            && b.events == (if f.op == p.floor then u.events else u.events + [ToPacket(f)])
            && b.floor == (if f.op == p.floor then u.floor + [f.body] else u.floor)
  {
  }

  /** Where a floor packet, or another, may go. */
  lemma FloorPushed(p: Protocol, arrived: seq<seq<Byte>>, handed: seq<Packet>, events: seq<Packet>,
                    drained: seq<seq<Byte>>, floor: seq<seq<Byte>>, k: Packet)
    requires FloorSettled(p, arrived, handed, events, drained, floor)
    ensures k.op == p.floor ==> FloorSettled(p, arrived + [k.body], handed, events, drained, floor + [k.body])
    ensures k.op == p.floor ==> FloorSettled(p, arrived + [k.body], handed + [k], events, drained, floor)
    ensures k.op != p.floor ==> FloorSettled(p, arrived, handed, events + [k], drained, floor)
    ensures k.op != p.floor ==> FloorSettled(p, arrived, handed + [k], events, drained, floor)
  {
    OfSnoc(p.floor, handed, k);
    OfSnoc(p.floor, events, k);
    assert (drained + floor) + [k.body] == drained + (floor + [k.body]);
  }

  lemma FloorAccepted(p: Protocol, h: History, f: Frame)
    requires Next(h.s, f)
    ensures FloorKept(p, h) ==> FloorKept(p, h.(s := Buffer(p, Accept(p, h.s, f), f)))
    ensures FloorKept(p, h) ==> FloorKept(p, Handing(h, (Accept(p, h.s, f), Some(ToPacket(f)))))
  {
    if FloorKept(p, h) {
      AcceptStep(p, h.s, f);
      SameArrivals(p, Accept(p, h.s, f), f);
      FloorPushed(p, FloorBodies(p, Arrived(h.s)), h.handed, h.s.events, h.floorHanded, h.s.floor, ToPacket(f));
    }
  }

  /** A received frame handed straight to the caller keeps every opcode in order unless it overtakes its own. */
  lemma HandKeeps(p: Protocol, h: History, f: Frame, x: Content, op: U16)
    requires Next(h.s, f)
    ensures Preserves(p, h, Handing(h, (Accept(p, h.s, f), Some(ToPacket(f)))), x, op,
                      !Overtakes(ToPacket(f), h.s.events, op))
  {
    AcceptStep(p, h.s, f);
    HandConserves(p, h, f, x);
    FloorAccepted(p, h, f);
    if InOrder(h, op) { OrderKeptIff(op, Packets(Arrived(h.s)), h.handed, h.s.events, ToPacket(f)); }
  }

  lemma HandConserves(p: Protocol, h: History, f: Frame, x: Content)
    requires Next(h.s, f)
    ensures Conserved(p, h, x) ==> Conserved(p, Handing(h, (Accept(p, h.s, f), Some(ToPacket(f)))), x)
  {
    AcceptStep(p, h.s, f);
    Pushed(p, Packets(Arrived(h.s)), ToPacket(f), x, f.op);
    Pushed(p, h.handed, ToPacket(f), x, f.op);
  }

  // ---- Receive loops ----

  /** One receive: noise is skipped, and what follows is a frame at the position it reports. */
  lemma {:induction false} RecvKeeps(p: Protocol, h: History, patient: bool, x: Content, op: U16) returns (before: History)
    requires Ok(h.s)
    ensures Ok(before.s) && before == h.(s := h.s.(pos := before.s.pos)) && Preserves(p, h, before, x, op, true)
    ensures var (u, r) := Recv(p, h.s, patient);
            if r.Got? then Next(before.s, r.frame) && u == Accept(p, before.s, r.frame) else u == before.s
    decreases |h.s.items| - h.s.pos
  {
    before := h;
    if h.s.pos < |h.s.items| && !h.s.items[h.s.pos].Binary? {
      SkipKeeps(p, h, x, op);
      before := h.(s := Skip(h.s));
      if h.s.items[h.s.pos].Ignored? || (h.s.items[h.s.pos].Quiet? && patient) {
        before := RecvKeeps(p, before, patient, x, op);
      }
    }
  }

  lemma {:induction false} RecvArrives(p: Protocol, s: Session, patient: bool)
    requires Ok(s)
    ensures var (u, r) := Recv(p, s, patient);
            && Arrived(u) == Arrived(s) + (if r.Got? then [r.frame] else [])
            && u.events == s.events && u.floor == s.floor
    decreases |s.items| - s.pos
  {
    if s.pos < |s.items| {
      assert Arrived(Skip(s)) == Arrived(s) + if s.items[s.pos].Binary? then [s.items[s.pos].frame] else [];
      if !s.items[s.pos].Binary? {
        assert Arrived(Skip(s)) == Arrived(s);
        RecvArrives(p, Skip(s), patient);
      }
    }
  }

  lemma {:induction false} PollKeeps(p: Protocol, h: History, x: Content, op: U16)
    requires Ok(h.s)
    ensures Preserves(p, h, h.(s := Signaling.Poll(p, h.s)), x, op, true)
    decreases |h.s.items| - h.s.pos
  {
    var before := RecvKeeps(p, h, false, x, op);
    var (u, r) := Recv(p, h.s, false);
    if r.Got? {
      BufferKeeps(p, before, r.frame, x, op);
      PollKeeps(p, h.(s := Buffer(p, u, r.frame)), x, op);
    }
  }

  /** The packet a call returned overtook buffered ones. */
  predicate Overtaken(r: (Session, Option<Packet>), op: U16) { r.1.Some? && Overtakes(r.1.value, r.0.events, op) }

  lemma {:induction false} AwaitAnswerKeeps(p: Protocol, h: History, asked: U16, x: Content, op: U16)
    requires Ok(h.s)
    ensures Preserves(p, h, Handing(h, AwaitAnswer(p, h.s, asked)), x, op, !Overtaken(AwaitAnswer(p, h.s, asked), op))
    decreases |h.s.items| - h.s.pos
  {
    var before := RecvKeeps(p, h, true, x, op);
    var (u, r) := Recv(p, h.s, true);
    if r.Got? {
      if Answers(p, asked, r.frame) {
        HandKeeps(p, before, r.frame, x, op);
      } else {
        BufferKeeps(p, before, r.frame, x, op);
        AwaitAnswerKeeps(p, h.(s := Buffer(p, u, r.frame)), asked, x, op);
      }
    }
  }

  lemma NothingOvertaken(k: Packet, events: seq<Packet>, op: U16)
    requires Of(k.op, events) == []
    ensures !Overtakes(k, events, op)
  {
  }

  lemma {:induction false} AwaitEventKeeps(p: Protocol, h: History, awaited: U16, x: Content, op: U16)
    requires Ok(h.s) && Of(awaited, h.s.events) == []
    ensures Preserves(p, h, Handing(h, AwaitEvent(p, h.s, awaited)), x, op, true)
    decreases |h.s.items| - h.s.pos
  {
    var before := RecvKeeps(p, h, false, x, op);
    var (u, r) := Recv(p, h.s, false);
    if r.Got? {
      if r.frame.op == awaited {
        HandKeeps(p, before, r.frame, x, op);
        NothingOvertaken(ToPacket(r.frame), before.s.events, op);
      } else {
        BufferKeeps(p, before, r.frame, x, op);
        BufferKeepsOrder(p, before, r.frame, awaited);
        AwaitEventKeeps(p, h.(s := Buffer(p, u, r.frame)), awaited, x, op);
      }
    }
  }

  // ---- Draining ----

  lemma {:induction false} NoneBefore(op: U16, ps: seq<Packet>)
    requires forall k :: 0 <= k < |ps| ==> ps[k].op != op
    ensures Of(op, ps) == []
  {
    if ps != [] {
      NoneBefore(op, ps[..|ps| - 1]);
    }
  }

  /** Taking the first packet of an opcode takes the head of that opcode's queue and leaves the others alone. */
  lemma TakeFirst(p: Protocol, events: seq<Packet>, taken: U16, x: Content, op: U16)
    requires FirstIndex(events, taken) < |events|
    ensures var i := FirstIndex(events, taken);
            && Count(p, events, x) == Bit(ContentOf(p, events[i]) == x) + Count(p, RemoveAt(events, i), x)
            && Of(op, events) == (if op == taken then [events[i]] else []) + Of(op, RemoveAt(events, i))
  {
    var i := FirstIndex(events, taken);
    var a, k, b := events[..i], events[i], events[i + 1..];
    assert events == (a + [k]) + b;
    Pushed(p, a, k, x, op);
    Joined(p, a + [k], b, x, op);
    Joined(p, a, b, x, op);
    if op == taken { NoneBefore(taken, a); }
    Around(Of(op, a), if op == taken then [k] else [], Of(op, b));
  }

  lemma Around<T>(a: seq<T>, k: seq<T>, b: seq<T>)
    ensures a == [] || k == [] ==> a + k + b == k + (a + b)
  {
  }

  lemma TakeKeeps(p: Protocol, h: History, taken: U16, x: Content, op: U16)
    requires Ok(h.s)
    ensures Preserves(p, h, Handing(h, DrainEvent(h.s, taken)), x, op, true)
    ensures DrainEvent(h.s, taken).1.None? ==> Of(taken, h.s.events) == []
  {
    var i := FirstIndex(h.s.events, taken);
    if i == |h.s.events| {
      NoneBefore(taken, h.s.events);
    } else {
      TakeFirst(p, h.s.events, taken, x, op);
      TakeFirst(p, h.s.events, taken, x, p.floor);
      HandedOver(p, h, h.s.events[i], RemoveAt(h.s.events, i), x, op);
    }
  }

  /** Moving the head of an opcode's queue from the buffer to the caller. */
  lemma HandedOver(p: Protocol, h: History, k: Packet, left: seq<Packet>, x: Content, op: U16)
    requires Ok(h.s)
    requires Count(p, h.s.events, x) == Bit(ContentOf(p, k) == x) + Count(p, left, x)
    requires Of(op, h.s.events) == (if k.op == op then [k] else []) + Of(op, left)
    requires Of(p.floor, h.s.events) == (if k.op == p.floor then [k] else []) + Of(p.floor, left)
    ensures Preserves(p, h, History(h.s.(events := left), h.handed + [k], h.floorHanded), x, op, true)
  {
    var g := History(h.s.(events := left), h.handed + [k], h.floorHanded);
    assert Arrived(g.s) == Arrived(h.s);
    Pushed(p, h.handed, k, x, op);
    Regroup(Of(op, h.handed), if k.op == op then [k] else [], Of(op, left));
    HandedOverFloor(p, h, k, left);
  }

  lemma HandedOverFloor(p: Protocol, h: History, k: Packet, left: seq<Packet>)
    requires Ok(h.s)
    requires Of(p.floor, h.s.events) == (if k.op == p.floor then [k] else []) + Of(p.floor, left)
    ensures FloorKept(p, h) ==> FloorKept(p, History(h.s.(events := left), h.handed + [k], h.floorHanded))
  {
    OfSnoc(p.floor, h.handed, k);
    assert Arrived(h.s.(events := left)) == Arrived(h.s);
  }

  lemma Regroup<T>(a: seq<T>, k: seq<T>, b: seq<T>)
    ensures a + (k + b) == a + k + b
  {
  }

  /** Splitting the buffer by opcode loses nothing and keeps each part in order. */
  lemma {:induction false} SplitByOpcode(p: Protocol, events: seq<Packet>, taken: U16, x: Content, op: U16)
    ensures Count(p, Of(taken, events), x) + Count(p, Except(taken, events), x) == Count(p, events, x)
    ensures Of(op, Of(taken, events)) == if op == taken then Of(op, events) else []
    ensures Of(op, Except(taken, events)) == if op == taken then [] else Of(op, events)
  {
    if events != [] {
      var before, k := events[..|events| - 1], events[|events| - 1];
      SplitByOpcode(p, before, taken, x, op);
      if k.op == taken {
        assert Of(taken, events) == Of(taken, before) + [k] && Except(taken, events) == Except(taken, before);
        Pushed(p, Of(taken, before), k, x, op);
      } else {
        assert Of(taken, events) == Of(taken, before) && Except(taken, events) == Except(taken, before) + [k];
        Pushed(p, Except(taken, before), k, x, op);
      }
    }
  }

  lemma DrainAllKeeps(p: Protocol, h: History, taken: U16, x: Content, op: U16)
    requires Ok(h.s)
    ensures Preserves(p, h, Apply(p, h, DrainAll(taken)), x, op, true)
  {
    var g := Apply(p, h, DrainAll(taken));
    assert Arrived(g.s) == Arrived(h.s);
    DrainAllConserves(p, h.handed, h.s.events, taken, x, op);
    DrainAllKeepsFloor(p, h, taken);
  }

  lemma DrainAllKeepsFloor(p: Protocol, h: History, taken: U16)
    requires Ok(h.s)
    ensures FloorKept(p, h) ==> FloorKept(p, Apply(p, h, DrainAll(taken)))
  {
    assert Arrived(Apply(p, h, DrainAll(taken)).s) == Arrived(h.s);
    NoFloorDrained(p, h.handed, h.s.events, taken);
  }

  lemma NoFloorDrained(p: Protocol, handed: seq<Packet>, events: seq<Packet>, taken: U16)
    ensures Of(p.floor, events) == [] ==>
              Of(p.floor, Except(taken, events)) == [] && Of(p.floor, handed + Of(taken, events)) == Of(p.floor, handed)
  {
    SplitByOpcode(p, events, taken, Floor([]), p.floor);
    Joined(p, handed, Of(taken, events), Floor([]), p.floor);
  }

  lemma DrainAllConserves(p: Protocol, handed: seq<Packet>, events: seq<Packet>, taken: U16, x: Content, op: U16)
    ensures var (out, left) := (handed + Of(taken, events), Except(taken, events));
            && Count(p, out, x) + Count(p, left, x) == Count(p, handed, x) + Count(p, events, x)
            && Of(op, out) + Of(op, left) == Of(op, handed) + Of(op, events)
  {
    SplitByOpcode(p, events, taken, x, op);
    Joined(p, handed, Of(taken, events), x, op);
    WholeOrNothing(Of(op, events));
    Regroup(Of(op, handed), Of(op, Of(taken, events)), Of(op, Except(taken, events)));
  }

  lemma WholeOrNothing<T>(a: seq<T>)
    ensures a + [] == a && [] + a == a
  {
  }

  lemma DrainFloorKeeps(p: Protocol, h: History, x: Content, op: U16)
    requires Ok(h.s)
    ensures Preserves(p, h, Apply(p, h, DrainFloor), x, op, true)
  {
    JoinedFloor(h.floorHanded, h.s.floor, x);
    assert Arrived(Apply(p, h, DrainFloor).s) == Arrived(h.s);
    assert CountFloor([], x) == 0;
    DrainFloorSettles(p, FloorBodies(p, Arrived(h.s)), h.handed, h.s.events, h.floorHanded, h.s.floor);
  }

  lemma DrainFloorSettles(p: Protocol, arrived: seq<seq<Byte>>, handed: seq<Packet>, events: seq<Packet>,
                          drained: seq<seq<Byte>>, floor: seq<seq<Byte>>)
    ensures FloorSettled(p, arrived, handed, events, drained, floor)
        ==> FloorSettled(p, arrived, handed, events, drained + floor, [])
  {
    assert drained + floor + [] == drained + floor;
  }

  lemma SendKeeps(p: Protocol, h: History, sent: U16, sendOk: bool, x: Content, op: U16)
    requires Ok(h.s)
    ensures Preserves(p, h, h.(s := Send(h.s, sent, sendOk)), x, op, true)
  {
    SendStep(h.s, sent, sendOk);
  }

  lemma SendStep(s: Session, sent: U16, sendOk: bool)
    requires Ok(s)
    ensures var u := Send(s, sent, sendOk);
            && Arrived(u) == Arrived(s) && AcksSent(u.out) == AcksSent(s.out)
            && (Numbered(s) ==> Numbered(u))
  {
    var id: U32 := s.pid % 0x1_0000_0000;
    assert Send(s, sent, sendOk).out[..|s.out|] == s.out;
    assert PidsUsed(Send(s, sent, sendOk).out) == PidsUsed(s.out) + [id];
  }

  // ---- Every call, every run ----

  lemma ApplyKeeps(p: Protocol, h: History, c: Call, x: Content, op: U16)
    requires Ok(h.s)
    ensures Preserves(p, h, Apply(p, h, c), x, op, !(c.Request? && Overtaken(Signaling.Request(p, h.s, c.op, c.sendOk), op)))
  {
    match c
    case Request(asked, sendOk) => RequestKeeps(p, h, asked, sendOk, x, op);
    case Poll => PollKeeps(p, h, x, op);
    case WaitEvent(awaited) =>
      TakeKeeps(p, h, awaited, x, op);
      if DrainEvent(h.s, awaited).1.None? {
        AwaitEventKeeps(p, h, awaited, x, op);
      }
    case TakeEvent(taken) => TakeKeeps(p, h, taken, x, op);
    case DrainAll(taken) => DrainAllKeeps(p, h, taken, x, op);
    case DrainFloor => DrainFloorKeeps(p, h, x, op);
    case SendFloor(sendOk) => SendKeeps(p, h, p.floor, sendOk, x, op);
  }

  lemma RequestKeeps(p: Protocol, h: History, asked: U16, sendOk: bool, x: Content, op: U16)
    requires Ok(h.s)
    ensures Preserves(p, h, Handing(h, Signaling.Request(p, h.s, asked, sendOk)), x, op,
                      !Overtaken(Signaling.Request(p, h.s, asked, sendOk), op))
  {
    SendKeeps(p, h, asked, sendOk, x, op);
    if sendOk {
      AwaitAnswerKeeps(p, h.(s := Send(h.s, asked, true)), asked, x, op);
    }
  }

  /**
   * Under any interleaving of calls and any traffic: every received frame is in exactly one place, each event
   * message was acknowledged exactly once and in order, and message ids count up from one.
   */
  lemma {:induction false} SessionInvariant(p: Protocol, items: seq<Item>, calls: seq<Call>, x: Content)
    ensures Conserved(p, Run(p, items, calls), x)
    ensures Acknowledged(p, Run(p, items, calls).s) && Numbered(Run(p, items, calls).s)
    ensures FloorKept(p, Run(p, items, calls))
  {
    if calls != [] {
      SessionInvariant(p, items, calls[..|calls| - 1], x);
      ApplyKeeps(p, Run(p, items, calls[..|calls| - 1]), calls[|calls| - 1], x, p.floor);
    }
  }

  /** The opcode is in order now and was after every call. */
  ghost predicate AlwaysInOrder(p: Protocol, items: seq<Item>, calls: seq<Call>, op: U16)
  {
    InOrder(Run(p, items, calls), op) && (calls != [] ==> AlwaysInOrder(p, items, calls[..|calls| - 1], op))
  }

  /** No request returned an answer of this opcode while other packets of the opcode were buffered. */
  predicate NeverOvertaken(p: Protocol, items: seq<Item>, calls: seq<Call>, op: U16)
  {
    calls != [] ==>
      var before, c := calls[..|calls| - 1], calls[|calls| - 1];
      && NeverOvertaken(p, items, before, op)
      && !(c.Request? && Overtaken(Signaling.Request(p, Run(p, items, before).s, c.op, c.sendOk), op))
  }

  /** Off the floor path, an opcode is delivered in arrival order exactly as long as no answer overtakes a buffered packet. */
  lemma {:induction false} InOrderUnlessOvertaken(p: Protocol, items: seq<Item>, calls: seq<Call>, op: U16)
    requires op != p.floor
    ensures AlwaysInOrder(p, items, calls, op) <==> NeverOvertaken(p, items, calls, op)
  {
    if calls != [] {
      InOrderUnlessOvertaken(p, items, calls[..|calls| - 1], op);
      ApplyKeeps(p, Run(p, items, calls[..|calls| - 1]), calls[|calls| - 1], Floor([]), op);
    }
  }

  /** Floor messages are delivered in arrival order exactly if none was handed out as a packet. */
  lemma FloorInOrderIff(p: Protocol, items: seq<Item>, calls: seq<Call>)
    ensures var h := Run(p, items, calls); FloorInOrder(p, h) <==> Of(p.floor, h.handed) == []
  {
    SessionInvariant(p, items, calls, Floor([]));
  }

  /** The ids used are all different exactly until the 32-bit field wraps. */
  lemma PidsDistinctIff(p: Protocol, items: seq<Item>, calls: seq<Call>)
    ensures var pids := PidsUsed(Run(p, items, calls).s.out);
            (forall i, j :: 0 <= i < j < |pids| ==> pids[i] != pids[j]) <==> |pids| <= 0x1_0000_0000
  {
    var s := Run(p, items, calls).s;
    var pids := PidsUsed(s.out);
    SessionInvariant(p, items, calls, Floor([]));
    CountingIdsDistinctIff(pids);
  }

  lemma CountingIdsDistinctIff(pids: seq<U32>)
    requires forall k :: 0 <= k < |pids| ==> pids[k] == (k + 1) % 0x1_0000_0000
    ensures (forall i, j :: 0 <= i < j < |pids| ==> pids[i] != pids[j]) <==> |pids| <= 0x1_0000_0000
  {
    if |pids| > 0x1_0000_0000 {
      assert pids[0] == pids[0x1_0000_0000];
    } else {
      forall i, j | 0 <= i < j < |pids| ensures pids[i] != pids[j] {
        DistinctBelowWidth(i + 1, j + 1);
      }
    }
  }

  lemma DistinctBelowWidth(i: nat, j: nat)
    requires 1 <= i < j <= 0x1_0000_0000
    ensures i % 0x1_0000_0000 != j % 0x1_0000_0000
  {
  }
}
