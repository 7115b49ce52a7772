/** What the session does on the wire, told frame by frame: acknowledgements, answers and when waiting ends. */
module SignalingLaws {
  import opened Bytes
  import opened Signaling
  import opened SignalingTheorems
  import opened SignalingAnswers

  // ---- Acknowledgements ----

  /** How often an acknowledgement of this opcode and id was sent. */
  function AcksOf(out: seq<Out>, op: U16, pid: U32): nat
  {
    if out == [] then 0
    else AcksOf(out[..|out| - 1], op, pid) + if out[|out| - 1] == SentAck(op, pid) then 1 else 0
  }

  /** How many frames with this opcode and id arrived that are messages, or whose state does not decode. */
  function MessagesOf(fs: seq<Frame>, op: U16, pid: U32): nat
  {
    if fs == [] then 0
    else
      var f := fs[|fs| - 1];
      MessagesOf(fs[..|fs| - 1], op, pid)
      + if f.op == op && f.pid == pid && (f.ack == Msg || f.ack == Unknown) then 1 else 0
  }

  /**
   * After any run, for every opcode and id: one acknowledgement for each message if the opcode is an event off the
   * floor path, and none otherwise. So no acknowledgement is ever acknowledged.
   */
  lemma AcknowledgesMessagesOnly(p: Protocol, items: seq<Item>, calls: seq<Call>, op: U16, pid: U32)
    ensures var s := Run(p, items, calls).s;
            AcksOf(s.out, op, pid) == if op in p.events && op != p.floor then MessagesOf(Arrived(s), op, pid) else 0
  {
    var s := Run(p, items, calls).s;
    SessionInvariant(p, items, calls, Floor([]));
    OnlyAcksCount(s.out, op, pid);
    DueAcks(p, Arrived(s), op, pid);
  }

  lemma AcksSnoc(out: seq<Out>, o: Out, op: U16, pid: U32)
    ensures AcksOf(out + [o], op, pid) == AcksOf(out, op, pid) + if o == SentAck(op, pid) then 1 else 0
  {
    assert (out + [o])[..|out|] == out;
  }

  lemma {:induction false} OnlyAcksCount(out: seq<Out>, op: U16, pid: U32)
    ensures AcksOf(AcksSent(out), op, pid) == AcksOf(out, op, pid)
  {
    if out != [] {
      OnlyAcksCount(out[..|out| - 1], op, pid);
      var sent := AcksSent(out[..|out| - 1]);
      if out[|out| - 1].SentAck? {
        AcksSnoc(sent, out[|out| - 1], op, pid);
      } else {
        assert sent + [] == sent;
      }
    }
  }

  lemma {:induction false} DueAcks(p: Protocol, fs: seq<Frame>, op: U16, pid: U32)
    ensures AcksOf(AcksDue(p, fs), op, pid) == if op in p.events && op != p.floor then MessagesOf(fs, op, pid) else 0
  {
    if fs != [] {
      var f, before := fs[|fs| - 1], fs[..|fs| - 1];
      DueAcks(p, before, op, pid);
      DueSnoc(p, AcksDue(p, before), f, op, pid);
    }
  }

  lemma DueSnoc(p: Protocol, due: seq<Out>, f: Frame, op: U16, pid: U32)
    ensures AcksOf(due + (if NeedsAck(p, f) then [SentAck(f.op, f.pid)] else []), op, pid)
         == AcksOf(due, op, pid)
            + if f.op == op && f.pid == pid && (f.ack == Msg || f.ack == Unknown) && op in p.events && op != p.floor then 1 else 0
  {
    if NeedsAck(p, f) {
      AcksSnoc(due, SentAck(f.op, f.pid), op, pid);
    } else {
      assert due + [] == due;
    }
  }

  // ---- Answers ----

  /** The first of some frames that is an error, or has this opcode and says that the request succeeded or failed. */
  function FirstReply(p: Protocol, fs: seq<Frame>, op: U16): Option<Frame>
  {
    if fs == [] then None
    else if fs[0].op in p.errors || (fs[0].op == op && (fs[0].ack == AckOk || fs[0].ack == AckFail)) then Some(fs[0])
    else FirstReply(p, fs[1..], op)
  }

  /** The frames still to come before the stream first fails; silence and noise do not matter to a request. */
  function Coming(items: seq<Item>): seq<Frame>
  {
    if items == [] || items[0].Failure? then []
    else (if items[0].Binary? then [items[0].frame] else []) + Coming(items[1..])
  }

  /** A waiting request gets the first reply before the stream fails, however long it takes, told as it arrived. */
  lemma {:induction false} RequestGetsFirstReply(p: Protocol, s: Session, op: U16)
    requires Ok(s)
    ensures AwaitAnswer(p, s, op).1 ==
              match FirstReply(p, Coming(s.items[s.pos..]), op)
              case None => None
              case Some(f) =>
                Some(Packet(f.op, f.pid, match f.ack case AckOk => Some(true) case AckFail => Some(false) case _ => None, f.body))
    decreases |s.items| - s.pos
  {
    var (u, r) := Recv(p, s, true);
    ComingRecv(p, s);
    if r.Got? {
      RecvArrives(p, s, true);
      assert ([r.frame] + Coming(u.items[u.pos..]))[1..] == Coming(u.items[u.pos..]);
      if !Answers(p, op, r.frame) {
        RequestGetsFirstReply(p, Buffer(p, u, r.frame), op);
      }
    }
  }

  lemma {:induction false} ComingRecv(p: Protocol, s: Session)
    requires Ok(s)
    ensures var (u, r) := Recv(p, s, true);
            Coming(s.items[s.pos..]) == if r.Got? then [r.frame] + Coming(u.items[u.pos..]) else []
    decreases |s.items| - s.pos
  {
    if s.pos < |s.items| {
      assert s.items[s.pos..][0] == s.items[s.pos] && s.items[s.pos..][1..] == s.items[s.pos + 1..];
      if s.items[s.pos].Ignored? || s.items[s.pos].Quiet? {
        ComingRecv(p, Skip(s));
      }
    }
  }

  // ---- When a poll or a wait ends ----

  /** The frames that come before the first silence or failure. */
  function Prompt(items: seq<Item>): seq<Frame>
  {
    if items == [] || items[0].Failure? || items[0].Quiet? then []
    else (if items[0].Binary? then [items[0].frame] else []) + Prompt(items[1..])
  }

  /** A poll receives exactly the frames before the first silence or failure. */
  lemma {:induction false} PollReceivesPrompt(p: Protocol, s: Session)
    requires Ok(s)
    ensures Arrived(Signaling.Poll(p, s)) == Arrived(s) + Prompt(s.items[s.pos..])
    decreases |s.items| - s.pos
  {
    var (u, r) := Recv(p, s, false);
    PromptRecv(p, s);
    RecvArrives(p, s, false);
    if r.Got? {
      SameArrivals(p, u, r.frame);
      PollReceivesPrompt(p, Buffer(p, u, r.frame));
      Regroup(Arrived(s), [r.frame], Prompt(u.items[u.pos..]));
    }
  }

  lemma {:induction false} PromptRecv(p: Protocol, s: Session)
    requires Ok(s)
    ensures var (u, r) := Recv(p, s, false);
            Prompt(s.items[s.pos..]) == if r.Got? then [r.frame] + Prompt(u.items[u.pos..]) else []
    decreases |s.items| - s.pos
  {
    if s.pos < |s.items| {
      assert s.items[s.pos..][0] == s.items[s.pos] && s.items[s.pos..][1..] == s.items[s.pos + 1..];
      if s.items[s.pos].Ignored? {
        PromptRecv(p, Skip(s));
      }
    }
  }

  /** A wait on an empty buffer returns the first prompt frame of its opcode, if there is one. */
  lemma {:induction false} WaitGetsFirstPrompt(p: Protocol, s: Session, op: U16)
    requires Ok(s)
    ensures AwaitEvent(p, s, op).1.Some? <==> exists f :: f in Prompt(s.items[s.pos..]) && f.op == op
    decreases |s.items| - s.pos
  {
    var (u, r) := Recv(p, s, false);
    PromptRecv(p, s);
    if r.Got? {
      var rest := Prompt(u.items[u.pos..]);
      assert r.frame in [r.frame] + rest && forall f :: f in [r.frame] + rest <==> f == r.frame || f in rest;
      if r.frame.op != op {
        WaitGetsFirstPrompt(p, Buffer(p, u, r.frame), op);
      }
    }
  }
}
