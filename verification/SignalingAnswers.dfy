/** What a request returns, and when it is the answer to that request. */
module SignalingAnswers {
  import opened Bytes
  import opened Lists
  import opened Signaling
  import opened SignalingTheorems

  // ---- What a request returns ----

  /** `fs` arrived while waiting: the last is the first answer, or none is one, and all others were buffered. */
  ghost predicate Awaited(p: Protocol, s: Session, op: U16, fs: seq<Frame>, u: Session, r: Option<Packet>)
  {
    match r
    case Some(k) =>
      && fs != [] && Answers(p, op, fs[|fs| - 1]) && k == ToPacket(fs[|fs| - 1])
      && NoneAnswers(p, op, fs[..|fs| - 1]) && BufferAll(p, s, fs[..|fs| - 1], u)
    case None => NoneAnswers(p, op, fs) && BufferAll(p, s, fs, u)
  }

  predicate NoneAnswers(p: Protocol, op: U16, fs: seq<Frame>) { forall f :: f in fs ==> !Answers(p, op, f) }

  /** A request takes the first new frame that answers it; the earlier ones are all buffered, in order. */
  lemma {:induction false} RequestReturnsFirstAnswer(p: Protocol, s: Session, op: U16) returns (fs: seq<Frame>)
    requires Ok(s)
    ensures var (u, r) := AwaitAnswer(p, s, op); Arrived(u) == Arrived(s) + fs && Awaited(p, s, op, fs, u, r)
    decreases |s.items| - s.pos
  {
    var (u, r) := Recv(p, s, true);
    RecvArrives(p, s, true);
    fs := [];
    if r.Got? {
      var f := r.frame;
      fs := [f];
      if !Answers(p, op, f) {
        SameArrivals(p, u, f);
        var rest := RequestReturnsFirstAnswer(p, Buffer(p, u, f), op);
        var (v, answer) := AwaitAnswer(p, Buffer(p, u, f), op);
        AwaitedCons(p, s, u, op, f, rest, v, answer);
        Regroup(Arrived(s), [f], rest);
        fs := [f] + rest;
      }
    }
  }

  lemma AwaitedCons(p: Protocol, s: Session, u: Session, op: U16, f: Frame, rest: seq<Frame>, v: Session, r: Option<Packet>)
    requires u.events == s.events && u.floor == s.floor && !Answers(p, op, f)
    requires Awaited(p, Buffer(p, u, f), op, rest, v, r)
    ensures Awaited(p, s, op, [f] + rest, v, r)
  {
    var fs := [f] + rest;
    if r.Some? {
      assert fs[..|fs| - 1] == [f] + rest[..|rest| - 1];
      BufferAllCons(p, s, u, f, rest[..|rest| - 1], v);
    } else {
      BufferAllCons(p, s, u, f, rest, v);
    }
  }

  /** The two buffers after appending each frame to the one it belongs to. */
  ghost predicate BufferAll(p: Protocol, s: Session, fs: seq<Frame>, u: Session)
    decreases |fs|
  {
    if fs == [] then u.events == s.events && u.floor == s.floor
    else BufferAll(p, Buffer(p, s, fs[0]), fs[1..], u)
  }

  lemma {:induction false} BufferAllSame(p: Protocol, a: Session, b: Session, fs: seq<Frame>, u: Session)
    requires a.events == b.events && a.floor == b.floor
    ensures BufferAll(p, a, fs, u) == BufferAll(p, b, fs, u)
    decreases |fs|
  {
    if fs != [] {
      BufferAllSame(p, Buffer(p, a, fs[0]), Buffer(p, b, fs[0]), fs[1..], u);
    }
  }

  lemma BufferAllCons(p: Protocol, s: Session, u: Session, f: Frame, rest: seq<Frame>, v: Session)
    requires u.events == s.events && u.floor == s.floor && BufferAll(p, Buffer(p, u, f), rest, v)
    ensures BufferAll(p, s, [f] + rest, v)
  {
    assert ([f] + rest)[1..] == rest;
    BufferAllSame(p, Buffer(p, u, f), Buffer(p, s, f), rest, v);
  }

  // ---- Answers matched by id, as the wire format documents them ----

  predicate OwnAnswer(p: Protocol, op: U16, pid: U32, f: Frame)
  {
    (f.op == op && f.pid == pid && IsAck(f.ack)) || f.op in p.errors
  }

  /** Waiting for the answer with the request's own id; any other answer is buffered. */
  function AwaitOwnAnswer(p: Protocol, s: Session, op: U16, pid: U32): (r: (Session, Option<Packet>))
    requires Ok(s)
    ensures |r.0.events| + |r.0.floor| >= |s.events| + |s.floor|
    decreases |s.items| - s.pos
  {
    var (u, r) := Recv(p, s, true);
    RecvArrives(p, s, true);
    if !r.Got? then (u, None)
    else if OwnAnswer(p, op, pid, r.frame) then (u, Some(ToPacket(r.frame)))
    else AwaitOwnAnswer(p, Buffer(p, u, r.frame), op, pid)
  }

  /** The first frame, before the stream fails, that answers by opcode. */
  function FirstAnswer(p: Protocol, items: seq<Item>, pos: nat, op: U16): Option<Frame>
    requires pos <= |items|
    decreases |items| - pos
  {
    if pos == |items| || items[pos].Failure? then None
    else if items[pos].Binary? && Answers(p, op, items[pos].frame) then Some(items[pos].frame)
    else FirstAnswer(p, items, pos + 1, op)
  }

  lemma {:induction false} FirstAnswerRecv(p: Protocol, s: Session, op: U16)
    requires Ok(s)
    ensures var (u, r) := Recv(p, s, true);
            FirstAnswer(p, s.items, s.pos, op) ==
              if !r.Got? then None
              else if Answers(p, op, r.frame) then Some(r.frame)
              else FirstAnswer(p, s.items, u.pos, op)
    decreases |s.items| - s.pos
  {
    if s.pos < |s.items| && (s.items[s.pos].Ignored? || s.items[s.pos].Quiet?) {
      FirstAnswerRecv(p, Skip(s), op);
    }
  }

  /** For one future: matching by opcode is matching by id if the first answer carries the id or is an error. */
  lemma {:induction false} MatchesByIdIff(p: Protocol, s: Session, op: U16, pid: U32)
    requires Ok(s)
    ensures AwaitAnswer(p, s, op) == AwaitOwnAnswer(p, s, op, pid)
       <==> match FirstAnswer(p, s.items, s.pos, op) case None => true case Some(f) => OwnAnswer(p, op, pid, f)
    decreases |s.items| - s.pos
  {
    var (u, r) := Recv(p, s, true);
    FirstAnswerRecv(p, s, op);
    RecvArrives(p, s, true);
    if r.Got? && !Answers(p, op, r.frame) {
      MatchesByIdIff(p, Buffer(p, u, r.frame), op, pid);
    }
  }

  // ---- When every answer is a request's own ----

  /** Whether a packet answers requests with this opcode: an acknowledgement of it, or an error. */
  predicate IsAnswer(p: Protocol, op: U16, k: Packet) { (k.op == op && k.ok.Some?) || k.op in p.errors }

  /** Ids of the messages sent with an opcode, and of the packets that answer it. */
  function Asked(out: seq<Out>, op: U16): seq<U32>
  {
    if out == [] then []
    else
      var o := out[|out| - 1];
      Asked(out[..|out| - 1], op) + if o.SentMsg? && o.op == op then [o.pid] else []
  }

  function AnswerIds(p: Protocol, op: U16, ps: seq<Packet>): seq<U32>
  {
    if ps == [] then []
    else
      var k := ps[|ps| - 1];
      AnswerIds(p, op, ps[..|ps| - 1]) + if IsAnswer(p, op, k) then [k.pid] else []
  }

  /** Requests with no answer yet: ids sent more often than answers carrying them were handed out or buffered. */
  function Owed(p: Protocol, h: History, op: U16): set<U32>
  {
    var open := multiset(Asked(h.s.out, op)) - multiset(AnswerIds(p, op, h.handed)) - multiset(AnswerIds(p, op, h.s.events));
    set id | id in open
  }

  /** Every acknowledgement of the opcode in this traffic carries an owed id. */
  ghost predicate OwedOnly(items: seq<Item>, op: U16, owed: set<U32>)
  {
    forall i :: 0 <= i < |items| ==>
      items[i].Binary? && items[i].frame.op == op && IsAck(items[i].frame.ack) ==> items[i].frame.pid in owed
  }

  /** The session with other traffic still to come. */
  function Continue(s: Session, more: seq<Item>): (r: Session)
    requires Ok(s)
    ensures Ok(r) && r.pos + |more| == |r.items| && forall i :: 0 <= i < |more| ==> r.items[r.pos + i] == more[i]
  {
    s.(items := s.items[..s.pos] + more)
  }

  function NextId(s: Session): U32 { s.pid % 0x1_0000_0000 }

  /** A request that gets what matching by id would give it. */
  ghost predicate OwnAnswered(p: Protocol, s: Session, op: U16)
    requires Ok(s)
  {
    Signaling.Request(p, s, op, true) == AwaitOwnAnswer(p, Send(s, op, true), op, NextId(s))
  }

  /** Whatever comes from a peer that acknowledges only owed requests, the next request gets its own answer. */
  ghost predicate SureOfOwnAnswer(p: Protocol, h: History, op: U16)
    requires Ok(h.s)
  {
    forall more: seq<Item> :: OwedOnly(more, op, Owed(p, h, op) + {NextId(h.s)}) ==> OwnAnswered(p, Continue(h.s, more), op)
  }

  /** No request for the opcode is unanswered, but for one that had the id now used again. */
  predicate OwesNothingElse(p: Protocol, h: History, op: U16) { Owed(p, h, op) <= {NextId(h.s)} }

  /**
   * After any run: the next request for an opcode is sure of its own answer, from every peer that acknowledges only
   * what it owes, exactly if no other request for that opcode is still unanswered (or the opcode is an error).
   */
  lemma OwnAnswerIffNoneOwed(p: Protocol, items: seq<Item>, calls: seq<Call>, op: U16)
    ensures SureOfOwnAnswer(p, Run(p, items, calls), op) <==> op in p.errors || OwesNothingElse(p, Run(p, items, calls), op)
    ensures Run(p, items, calls).s.pid < 0x1_0000_0000 ==>
              (OwesNothingElse(p, Run(p, items, calls), op) <==> Owed(p, Run(p, items, calls), op) == {})
  {
    var h := Run(p, items, calls);
    var id, owed := NextId(h.s), Owed(p, h, op);
    if op in p.errors || owed <= {id} {
      forall more: seq<Item> | OwedOnly(more, op, owed + {id}) ensures OwnAnswered(p, Continue(h.s, more), op) {
        OnlyOwnAnswers(p, h.s, op, owed + {id}, more);
      }
    } else {
      var late :| late in owed && late != id;
      LateAnswer(p, h.s, op, late);
      assert OwedOnly([Binary(Frame(op, late, AckOk, []))], op, owed + {id});
    }
    SessionInvariant(p, items, calls, Floor([]));
    if h.s.pid < 0x1_0000_0000 { NextIdIsFresh(p, h, op); }
  }

  lemma {:induction false} FirstAnswerAt(p: Protocol, items: seq<Item>, pos: nat, op: U16) returns (i: nat)
    requires pos <= |items|
    ensures FirstAnswer(p, items, pos, op).Some? ==>
              pos <= i < |items| && items[i] == Binary(FirstAnswer(p, items, pos, op).value) && Answers(p, op, items[i].frame)
    decreases |items| - pos
  {
    i := pos;
    if pos < |items| && !items[pos].Failure? && !(items[pos].Binary? && Answers(p, op, items[pos].frame)) {
      i := FirstAnswerAt(p, items, pos + 1, op);
    }
  }

  lemma OnlyOwnAnswers(p: Protocol, s: Session, op: U16, owed: set<U32>, more: seq<Item>)
    requires Ok(s) && OwedOnly(more, op, owed) && (op in p.errors || owed <= {NextId(s)})
    ensures OwnAnswered(p, Continue(s, more), op)
  {
    var u := Send(Continue(s, more), op, true);
    MatchesByIdIff(p, u, op, NextId(s));
    var i := FirstAnswerAt(p, u.items, u.pos, op);
    assert u.pos <= i < |u.items| ==> u.items[i] == more[i - u.pos];
  }

  lemma LateAnswer(p: Protocol, s: Session, op: U16, late: U32)
    requires Ok(s) && op !in p.errors && late != NextId(s)
    ensures !OwnAnswered(p, Continue(s, [Binary(Frame(op, late, AckOk, []))]), op)
  {
    var f := Frame(op, late, AckOk, []);
    var u := Send(Continue(s, [Binary(f)]), op, true);
    assert u.items[u.pos] == Binary(f);
    MatchesByIdIff(p, u, op, NextId(s));
  }

  // ---- What is owed ----

  lemma NextIdIsFresh(p: Protocol, h: History, op: U16)
    requires Numbered(h.s) && h.s.pid < 0x1_0000_0000
    ensures NextId(h.s) !in Owed(p, h, op)
  {
    UsedAreBelow(h.s);
    AskedAreUsed(h.s.out, op);
    OwedAreAsked(p, h, op);
  }

  lemma UsedAreBelow(s: Session)
    requires Numbered(s) && s.pid < 0x1_0000_0000
    ensures forall id :: id in PidsUsed(s.out) ==> id < s.pid
  {
  }

  lemma OwedAreAsked(p: Protocol, h: History, op: U16)
    ensures forall id :: id in Owed(p, h, op) ==> id in Asked(h.s.out, op)
  {
    forall id | id in Owed(p, h, op) ensures id in Asked(h.s.out, op) {
      assert id in multiset(Asked(h.s.out, op));
    }
  }

  lemma {:induction false} AskedAreUsed(out: seq<Out>, op: U16)
    ensures forall id :: id in Asked(out, op) ==> id in PidsUsed(out)
  {
    if out != [] {
      AskedAreUsed(out[..|out| - 1], op);
    }
  }

  /** Off the floor path, what is owed are the ids sent for which no answer has arrived. */
  lemma OwedIsUnanswered(p: Protocol, items: seq<Item>, calls: seq<Call>, op: U16)
    requires op != p.floor && p.floor !in p.errors
    ensures var h := Run(p, items, calls);
            var open := multiset(Asked(h.s.out, op)) - multiset(AnswerIds(p, op, Packets(Arrived(h.s))));
            forall id :: id in Owed(p, h, op) <==> id in open
  {
    var h := Run(p, items, calls);
    var arrived := Packets(Arrived(h.s));
    forall k: Packet | k.op != p.floor ensures multiset(arrived)[k] == multiset(h.handed)[k] + multiset(h.s.events)[k] {
      SessionInvariant(p, items, calls, Json(k));
      CountIsMultiplicity(p, arrived, k);
      CountIsMultiplicity(p, h.handed, k);
      CountIsMultiplicity(p, h.s.events, k);
      NoFloorBody(h.floorHanded, k);
      NoFloorBody(h.s.floor, k);
    }
    SameAnswers(p, op, arrived, h.handed + h.s.events);
    AnswerIdsConcat(p, op, h.handed, h.s.events);
  }

  lemma {:induction false} CountIsMultiplicity(p: Protocol, ps: seq<Packet>, k: Packet)
    requires k.op != p.floor
    ensures Count(p, ps, Json(k)) == multiset(ps)[k]
  {
    if ps != [] {
      CountIsMultiplicity(p, ps[..|ps| - 1], k);
      assert ps == ps[..|ps| - 1] + [ps[|ps| - 1]];
    }
  }

  lemma {:induction false} NoFloorBody(bodies: seq<seq<Byte>>, k: Packet)
    ensures CountFloor(bodies, Json(k)) == 0
  {
    if bodies != [] {
      NoFloorBody(bodies[..|bodies| - 1], k);
    }
  }

  lemma {:induction false} AnswerIdsConcat(p: Protocol, op: U16, a: seq<Packet>, b: seq<Packet>)
    ensures AnswerIds(p, op, a + b) == AnswerIds(p, op, a) + AnswerIds(p, op, b)
  {
    if b == [] {
      assert a + b == a;
    } else {
      assert (a + b)[..|a + b| - 1] == a + b[..|b| - 1];
      AnswerIdsConcat(p, op, a, b[..|b| - 1]);
    }
  }

  /** Lists with the same packets off the floor path have the same ids of answers. */
  lemma {:induction false} SameAnswers(p: Protocol, op: U16, a: seq<Packet>, b: seq<Packet>)
    requires op != p.floor && p.floor !in p.errors
    requires forall k: Packet :: k.op != p.floor ==> multiset(a)[k] == multiset(b)[k]
    ensures multiset(AnswerIds(p, op, a)) == multiset(AnswerIds(p, op, b))
  {
    if a != [] {
      var k := a[|a| - 1];
      WithoutLast(a);
      if k.op == p.floor {
        SameAnswers(p, op, a[..|a| - 1], b);
      } else {
        assert k in multiset(b);
        var i :| 0 <= i < |b| && b[i] == k;
        WithoutOne(b, i);
        AnswerTakenOut(p, op, b, i);
        SameAnswers(p, op, a[..|a| - 1], b[..i] + b[i + 1..]);
      }
    } else {
      NoAnswers(p, op, b);
    }
  }

  lemma {:induction false} NoAnswers(p: Protocol, op: U16, b: seq<Packet>)
    requires op != p.floor && p.floor !in p.errors
    requires forall k: Packet :: k.op != p.floor ==> multiset(b)[k] == 0
    ensures AnswerIds(p, op, b) == []
  {
    if b != [] {
      WithoutLast(b);
      assert b[|b| - 1] in multiset(b);
      NoAnswers(p, op, b[..|b| - 1]);
    }
  }

  lemma AnswerTakenOut(p: Protocol, op: U16, s: seq<Packet>, i: nat)
    requires i < |s|
    ensures var rest, own := s[..i] + s[i + 1..], if IsAnswer(p, op, s[i]) then multiset{s[i].pid} else multiset{};
            multiset(AnswerIds(p, op, s)) == multiset(AnswerIds(p, op, rest)) + own
  {
    var a, b := s[..i], s[i + 1..];
    assert s == a + ([s[i]] + b);
    AnswerIdsConcat(p, op, a, b);
    AnswerIdsConcat(p, op, [s[i]], b);
    AnswerIdsConcat(p, op, a, [s[i]] + b);
    assert [s[i]][..0] == [];
  }

  /** The session matches answers by opcode alone: a late answer to request 1 is taken for the answer to request 2. */
  lemma StaleAnswerIsAccepted(p: Protocol, op: U16)
    requires op != p.floor && op !in p.errors && op !in p.events
    ensures var late := Frame(op, 1, AckOk, []);
            var first := Signaling.Request(p, Session([Failure, Binary(late)], 0, [], 1, [], []), op, true);
            var second := Signaling.Request(p, first.0, op, true);
            && first.1 == None && second.0.out == [SentMsg(op, 1), SentMsg(op, 2)]
            && second.1 == Some(ToPacket(late)) && second.1.value.pid == 1
  {
  }
}
