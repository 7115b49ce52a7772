/** The signalling session: one socket demultiplexed into answers, events and floor messages (signaling.rs). */
module Signaling {
  import opened Bytes

  /** Decoded acknowledgement state of a frame header; `Unknown` when it does not decode. */
  datatype Ack = Msg | AckOk | AckFail | Unknown

  datatype Frame = Frame(op: U16, pid: U32, ack: Ack, body: seq<Byte>)

  /**
   * What the socket yields next: a frame; a text, ping or pong message; an error, close or malformed frame;
   * or silence for longer than a caller with a timeout waits. After the last item the stream has ended.
   */
  datatype Item = Binary(frame: Frame) | Ignored | Failure | Quiet

  /** What went out; `Unsent` is a message whose sending failed, with the id it used up. */
  datatype Out = SentMsg(op: U16, pid: U32) | Unsent(op: U16, pid: U32) | SentAck(op: U16, pid: U32)

  /** The application's view of a frame; the body stays undecoded. */
  datatype Packet = Packet(op: U16, pid: U32, ok: Option<bool>, body: seq<Byte>)

  /** The opcode table: the floor opcode, the server events and the error opcodes. */
  datatype Protocol = Protocol(floor: U16, events: set<U16>, errors: set<U16>)

  function ToPacket(f: Frame): Packet
  {
    Packet(f.op, f.pid, if f.ack.AckOk? then Some(true) else if f.ack.AckFail? then Some(false) else None, f.body)
  }

  /** An undecodable acknowledgement state counts as a message. */
  predicate NeedsAck(p: Protocol, f: Frame)
  {
    (f.ack.Msg? || f.ack.Unknown?) && f.op in p.events && f.op != p.floor
  }

  datatype Session = Session(
    items: seq<Item>, pos: nat, out: seq<Out>, pid: nat, events: seq<Packet>, floor: seq<seq<Byte>>)

  predicate Ok(s: Session) { s.pos <= |s.items| }

  datatype Received = Got(frame: Frame) | Failed | TimedOut

  // ---- Specification of each operation ----

  function Skip(s: Session): Session { s.(pos := s.pos + 1) }

  function Accept(p: Protocol, s: Session, f: Frame): Session
  {
    Skip(s).(out := if NeedsAck(p, f) then s.out + [SentAck(f.op, f.pid)] else s.out)
  }

  /** `recv_frame`; with `patient` false it runs under a timeout. */
  function Recv(p: Protocol, s: Session, patient: bool): (r: (Session, Received))
    requires Ok(s)
    ensures Ok(r.0) && r.0.items == s.items && s.pos <= r.0.pos && (r.1.Got? ==> s.pos < r.0.pos)
    decreases |s.items| - s.pos
  {
    if s.pos == |s.items| then (s, Failed)
    else match s.items[s.pos]
      case Binary(f) => (Accept(p, s, f), Got(f))
      case Ignored => Recv(p, Skip(s), patient)
      case Failure => (Skip(s), Failed)
      case Quiet => if patient then Recv(p, Skip(s), patient) else (Skip(s), TimedOut)
  }

  function Buffer(p: Protocol, s: Session, f: Frame): Session
  {
    if f.op == p.floor then s.(floor := s.floor + [f.body]) else s.(events := s.events + [ToPacket(f)])
  }

  function Poll(p: Protocol, s: Session): (r: Session)
    requires Ok(s)
    ensures Ok(r)
    decreases |s.items| - s.pos
  {
    var (u, r) := Recv(p, s, false);
    if r.Got? then Poll(p, Buffer(p, u, r.frame)) else u
  }

  predicate IsAck(a: Ack) { a.AckOk? || a.AckFail? }

  predicate Answers(p: Protocol, op: U16, f: Frame) { (f.op == op && IsAck(f.ack)) || f.op in p.errors }

  function AwaitAnswer(p: Protocol, s: Session, op: U16): (r: (Session, Option<Packet>))
    requires Ok(s)
    ensures Ok(r.0)
    decreases |s.items| - s.pos
  {
    var (u, r) := Recv(p, s, true);
    if !r.Got? then (u, None)
    else if Answers(p, op, r.frame) then (u, Some(ToPacket(r.frame)))
    else AwaitAnswer(p, Buffer(p, u, r.frame), op)
  }

  function Send(s: Session, op: U16, sendOk: bool): Session
  {
    var id := s.pid % 0x1_0000_0000;
    s.(pid := s.pid + 1, out := s.out + [if sendOk then SentMsg(op, id) else Unsent(op, id)])
  }

  function Request(p: Protocol, s: Session, op: U16, sendOk: bool): (r: (Session, Option<Packet>))
    requires Ok(s)
    ensures Ok(r.0)
  {
    if sendOk then AwaitAnswer(p, Send(s, op, true), op) else (Send(s, op, false), None)
  }

  /** Index of the first buffered packet with this opcode, or the length if there is none. */
  function FirstIndex(events: seq<Packet>, op: U16): (i: nat)
    ensures i <= |events| && (i < |events| ==> events[i].op == op)
    ensures forall j :: 0 <= j < i ==> events[j].op != op
  {
    if events == [] || events[0].op == op then 0 else FirstIndex(events[1..], op) + 1
  }

  function RemoveAt(events: seq<Packet>, i: nat): seq<Packet>
    requires i < |events|
  {
    events[..i] + events[i + 1..]
  }

  function DrainEvent(s: Session, op: U16): (Session, Option<Packet>)
  {
    var i := FirstIndex(s.events, op);
    if i == |s.events| then (s, None) else (s.(events := RemoveAt(s.events, i)), Some(s.events[i]))
  }

  function Of(op: U16, ps: seq<Packet>): seq<Packet>
  {
    if ps == [] then []
    else Of(op, ps[..|ps| - 1]) + if ps[|ps| - 1].op == op then [ps[|ps| - 1]] else []
  }

  function Except(op: U16, ps: seq<Packet>): seq<Packet>
  {
    if ps == [] then []
    else Except(op, ps[..|ps| - 1]) + if ps[|ps| - 1].op == op then [] else [ps[|ps| - 1]]
  }

  function AwaitEvent(p: Protocol, s: Session, op: U16): (r: (Session, Option<Packet>))
    requires Ok(s)
    ensures Ok(r.0)
    decreases |s.items| - s.pos
  {
    var (u, r) := Recv(p, s, false);
    if !r.Got? then (u, None)
    else if r.frame.op == op then (u, Some(ToPacket(r.frame)))
    else AwaitEvent(p, Buffer(p, u, r.frame), op)
  }

  function WaitEvent(p: Protocol, s: Session, op: U16): (r: (Session, Option<Packet>))
    requires Ok(s)
    ensures Ok(r.0)
  {
    var (u, found) := DrainEvent(s, op);
    if found.Some? then (u, found) else AwaitEvent(p, s, op)
  }

  // ---- The session object ----

  class SignalingSession {
    const protocol: Protocol
    const items: seq<Item>
    var pos: nat
    var sent: seq<Out>
    var pid: nat
    var eventBuf: seq<Packet>
    var floorMbcpBuf: seq<seq<Byte>>

    ghost function View(): Session
      reads this
    {
      Session(items, pos, sent, pid, eventBuf, floorMbcpBuf)
    }

    constructor (protocol: Protocol, items: seq<Item>)
      ensures this.protocol == protocol && View() == Session(items, 0, [], 1, [], [])
    {
      this.protocol, this.items := protocol, items;
      pos, sent, pid, eventBuf, floorMbcpBuf := 0, [], 1, [], [];
    }

    method NextPid() returns (p: nat)
      modifies this`pid
      ensures p == old(pid) && pid == old(pid) + 1
    {
      p := pid;
      pid := pid + 1;
    }

    method RecvFrame(patient: bool) returns (r: Received)
      requires Ok(View())
      modifies this`pos, this`sent
      ensures Ok(View()) && (View(), r) == Recv(protocol, old(View()), patient)
    {
      while pos < |items|
        invariant Ok(View()) && Recv(protocol, View(), patient) == Recv(protocol, old(View()), patient)
      {
        var item := items[pos];
        pos := pos + 1;
        match item
        case Binary(f) =>
          if (f.ack.Msg? || f.ack.Unknown?) && f.op in protocol.events && f.op != protocol.floor {
            sent := sent + [SentAck(f.op, f.pid)];
          }
          return Got(f);
        case Ignored =>
        case Failure => return Failed;
        case Quiet => if !patient { return TimedOut; }
      }
      return Failed;
    }

    method BufferFrame(f: Frame)
      modifies this`eventBuf, this`floorMbcpBuf
      ensures View() == Buffer(protocol, old(View()), f)
    {
      if f.op == protocol.floor {
        floorMbcpBuf := floorMbcpBuf + [f.body];
      } else {
        eventBuf := eventBuf + [ToPacket(f)];
      }
    }

    method PollEvents()
      requires Ok(View())
      modifies this
      ensures Ok(View()) && View() == Poll(protocol, old(View()))
    {
      var r := RecvFrame(false);
      while r.Got?
        invariant Ok(View())
        invariant Poll(protocol, old(View())) == if r.Got? then Poll(protocol, Buffer(protocol, View(), r.frame)) else View()
        decreases |items| - pos, r.Got?
      {
        BufferFrame(r.frame);
        r := RecvFrame(false);
      }
    }

    method MakeRequest(op: U16, sendOk: bool) returns (r: Option<Packet>)
      requires Ok(View())
      modifies this
      ensures Ok(View()) && (View(), r) == Request(protocol, old(View()), op, sendOk)
    {
      var p := NextPid();
      if !sendOk {
        sent := sent + [Unsent(op, p % 0x1_0000_0000)];
        return None;
      }
      sent := sent + [SentMsg(op, p % 0x1_0000_0000)];
      r := AwaitAnswerTo(op);
    }

    method AwaitAnswerTo(op: U16) returns (r: Option<Packet>)
      requires Ok(View())
      modifies this
      ensures Ok(View()) && (View(), r) == AwaitAnswer(protocol, old(View()), op)
    {
      while true
        invariant Ok(View()) && AwaitAnswer(protocol, View(), op) == AwaitAnswer(protocol, old(View()), op)
        decreases |items| - pos
      {
        var rf := RecvFrame(true);
        if !rf.Got? {
          return None;
        }
        if rf.frame.op == op {
          if IsAck(rf.frame.ack) {
            return Some(ToPacket(rf.frame));
          }
        }
        if rf.frame.op in protocol.errors {
          return Some(ToPacket(rf.frame));
        }
        BufferFrame(rf.frame);
      }
    }

    method TakeEvent(op: U16) returns (r: Option<Packet>)
      modifies this`eventBuf
      ensures (View(), r) == DrainEvent(old(View()), op)
    {
      var i := FirstIndex(eventBuf, op);
      if i == |eventBuf| {
        return None;
      }
      r := Some(eventBuf[i]);
      eventBuf := RemoveAt(eventBuf, i);
    }

    method DrainAllEvents(op: U16) returns (matched: seq<Packet>)
      modifies this`eventBuf
      ensures matched == Of(op, old(eventBuf)) && eventBuf == Except(op, old(eventBuf))
    {
      matched := [];
      var kept: seq<Packet> := [];
      for i := 0 to |eventBuf|
        invariant matched == Of(op, eventBuf[..i]) && kept == Except(op, eventBuf[..i])
      {
        assert eventBuf[..i + 1][..i] == eventBuf[..i];
        if eventBuf[i].op == op {
          matched := matched + [eventBuf[i]];
        } else {
          kept := kept + [eventBuf[i]];
        }
      }
      assert eventBuf[..|eventBuf|] == eventBuf;
      eventBuf := kept;
    }

    method DrainFloorMbcp() returns (taken: seq<seq<Byte>>)
      modifies this`floorMbcpBuf
      ensures taken == old(floorMbcpBuf) && floorMbcpBuf == []
    {
      taken, floorMbcpBuf := floorMbcpBuf, [];
    }

    method WaitForEvent(op: U16) returns (r: Option<Packet>)
      requires Ok(View())
      modifies this
      ensures Ok(View()) && (View(), r) == WaitEvent(protocol, old(View()), op)
    {
      r := TakeEvent(op);
      if r.Some? {
        return;
      }
      r := AwaitEventLoop(op);
    }

    method AwaitEventLoop(op: U16) returns (r: Option<Packet>)
      requires Ok(View())
      modifies this
      ensures Ok(View()) && (View(), r) == AwaitEvent(protocol, old(View()), op)
    {
      while true
        invariant Ok(View()) && AwaitEvent(protocol, View(), op) == AwaitEvent(protocol, old(View()), op)
        decreases |items| - pos
      {
        var rf := RecvFrame(false);
        if !rf.Got? {
          return None;
        }
        if rf.frame.op == op {
          return Some(ToPacket(rf.frame));
        }
        BufferFrame(rf.frame);
      }
    }

    method SendFloorMbcp(sendOk: bool) returns (ok: bool)
      modifies this`pid, this`sent
      ensures View() == Send(old(View()), protocol.floor, sendOk) && ok == sendOk
    {
      var p := NextPid();
      if !sendOk {
        sent := sent + [Unsent(protocol.floor, p % 0x1_0000_0000)];
        return false;
      }
      sent := sent + [SentMsg(protocol.floor, p % 0x1_0000_0000)];
      ok := true;
    }
  }
}
