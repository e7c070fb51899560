/**
 * One backend connection between its send queue and its demux map, at two levels of detail: whole messages, and the
 * bytes the two loops and the backend really handle. The byte level is shown to do nothing the message level cannot.
 */
module Channel {
  import opened Bytes
  import opened Tlv
  import opened Framing

  /** The backend's answer `body` to the request frame `req`. */
  datatype Reply = Reply(req: Frame, body: Bytes)

  /**
   * `queue` or `sendQueue`: frames waiting for the write loop; `wire` or `outbound`: written and not yet taken up by
   * the backend; `backlog`: taken up and unanswered; `inbound`, or `buf` followed by `inFlight`: answers not yet
   * delivered. `alive` tells whether the write loop still runs.
   */
  datatype Channel =
    | Messages(queue: seq<Frame>, wire: seq<Frame>, backlog: multiset<Frame>, inbound: seq<Reply>, alive: bool)
    | Octets(sendQueue: seq<Bytes>, outbound: Bytes, backlog: multiset<Frame>, inFlight: Bytes, buf: Bytes, alive: bool)

  datatype Level = MessageLevel | ByteLevel

  function Opened(level: Level): Channel {
    match level
    case MessageLevel => Messages([], [], multiset{}, [], true)
    case ByteLevel => Octets([], [], multiset{}, [], [], true)
  }

  // ---- Steps ----

  /** `send_frame`: a frame sent after the write loop has ended is dropped with its queue. */
  function Enqueue(c: Channel, f: Frame): Channel {
    if !c.alive then c
    else match c
      case Messages(queue, _, _, _, _) => c.(queue := queue + [f])
      case Octets(queue, _, _, _, _, _) => c.(sendQueue := queue + [FrameBytes(f)])
  }

  /** The write loop writes a frame, or gets out only its first `n` bytes (possibly all) and ends. */
  datatype Move = Write | WriteFail(n: nat) | Receive | Answer(reply: Reply, again: bool) | Arrive(n: nat)

  function Step(c: Channel, m: Move): Option<Channel> {
    match m
    case Write => WriteStep(c)
    case WriteFail(n) => WriteFailStep(c, n)
    case Receive => ReceiveStep(c)
    case Answer(reply, again) => AnswerStep(c, reply, again)
    case Arrive(n) => ArriveStep(c, n)
  }

  function WriteStep(c: Channel): Option<Channel> {
    match c
    case Messages(queue, wire, _, _, alive) =>
      if !alive || queue == [] then None else Some(c.(queue := queue[1..], wire := wire + [queue[0]]))
    case Octets(queue, outbound, _, _, _, alive) =>
      if !alive || queue == [] then None else Some(c.(sendQueue := queue[1..], outbound := outbound + queue[0]))
  }

  function WriteFailStep(c: Channel, n: nat): Option<Channel> {
    match c
    case Messages(queue, wire, _, _, alive) =>
      if !alive || queue == [] || n > |FrameBytes(queue[0])| then None
      else Some(c.(queue := [], alive := false,
                   wire := if n == |FrameBytes(queue[0])| then wire + [queue[0]] else wire))
    case Octets(queue, outbound, _, _, _, alive) =>
      if !alive || queue == [] || n > |queue[0]| then None
      else Some(c.(sendQueue := [], alive := false, outbound := outbound + queue[0][..n]))
  }

  /** The backend takes up the next complete frame. */
  function ReceiveStep(c: Channel): Option<Channel> {
    match c
    case Messages(_, wire, backlog, _, _) =>
      if wire == [] then None else Some(c.(wire := wire[1..], backlog := backlog + multiset{wire[0]}))
    case Octets(_, outbound, backlog, _, _, _) =>
      match ReadFrame(outbound)
      case None => None
      case Some((f, rest)) => Some(c.(outbound := rest, backlog := backlog + multiset{f}))
  }

  /** The backend answers any frame of its backlog, under that frame's id; `again` leaves the frame there. */
  function AnswerStep(c: Channel, r: Reply, again: bool): Option<Channel> {
    if r.req !in c.backlog || |r.body| >= U32_SIZE then None
    else
      var left := if again then c.backlog else c.backlog - multiset{r.req};
      match c
      case Messages(_, _, _, inbound, _) => Some(c.(backlog := left, inbound := inbound + [r]))
      case Octets(_, _, _, inFlight, _, _) =>
        Some(c.(backlog := left, inFlight := inFlight + FrameBytes(Shard(r.req.id, r.body))))
  }

  /** `n` more bytes reach the read buffer; messages know nothing of it. */
  function ArriveStep(c: Channel, n: nat): Option<Channel> {
    match c
    case Messages(_, _, _, _, _) => Some(c)
    case Octets(_, _, _, inFlight, buf, _) =>
      if n > |inFlight| then None else Some(c.(inFlight := inFlight[n..], buf := buf + inFlight[..n]))
  }

  /** What the read loop gets from `drain_frame_async`: an answer, or an error that makes it stop. */
  datatype Arrival = Answered(id: u32, body: Bytes) | Garbled

  /** Not enabled while the buffer holds no complete frame. */
  function Take(c: Channel): (r: Option<(Arrival, Channel)>)
    ensures r.Some? && r.value.0.Answered? ==> Answerable(r.value.0.body)
  {
    match c
    case Messages(_, _, _, inbound, _) =>
      if inbound == [] then None
      else if Answerable(inbound[0].body) then
        Some((Answered(inbound[0].req.id, inbound[0].body), c.(inbound := inbound[1..])))
      else Some((Garbled, c))
    case Octets(_, _, _, _, buf, _) =>
      match Drain(buf)
      case Got(h, payload, rest) =>
        DrainIffEncoded(buf, h, payload, rest);
        Some((Answered(h.clrId, payload), c.(buf := rest)))
      case Bad(ShortFrame) => None
      case Bad(_) => Some((Garbled, c))
  }

  // ---- Refinement ----

  function Encoded(fs: seq<Frame>): (r: seq<Bytes>)
    ensures |r| == |fs| && forall i :: 0 <= i < |fs| ==> r[i] == FrameBytes(fs[i])
  {
    seq(|fs|, i requires 0 <= i < |fs| => FrameBytes(fs[i]))
  }

  function RepliesBytes(rs: seq<Reply>): Bytes {
    if rs == [] then [] else FrameBytes(Shard(rs[0].req.id, rs[0].body)) + RepliesBytes(rs[1..])
  }

  predicate AllSized(rs: seq<Reply>) {
    forall r :: r in rs ==> |r.body| < U32_SIZE
  }

  /** What has been written: the frames on the wire, then at most part of one that a failing write cut off. */
  predicate WritesOf(outbound: Bytes, wire: seq<Frame>, alive: bool) {
    && AllWellSized(wire)
    && FramesBytes(wire) <= outbound
    && ReadFrame(outbound[|FramesBytes(wire)|..]).None?
    && (alive ==> outbound == FramesBytes(wire))
  }

  /** The bytes of `c` spell the messages of `a`. */
  predicate Spells(c: Channel, a: Channel) {
    && c.Octets? && a.Messages?
    && c.alive == a.alive && c.backlog == a.backlog
    && AllWellSized(a.queue) && c.sendQueue == Encoded(a.queue)
    && WritesOf(c.outbound, a.wire, a.alive)
    && AllSized(a.inbound) && c.buf + c.inFlight == RepliesBytes(a.inbound)
  }

  lemma OpenedSpells()
    ensures Spells(Opened(ByteLevel), Opened(MessageLevel))
  {
    NoFrame();
  }

  lemma EnqueueSpells(c: Channel, a: Channel, f: Frame)
    requires Spells(c, a) && WellSized(f)
    ensures Spells(Enqueue(c, f), Enqueue(a, f))
  {
    hide FrameBytes, WellSized, WritesOf;
    assert Encoded(a.queue + [f]) == Encoded(a.queue) + [FrameBytes(f)];
  }

  lemma WritesMore(outbound: Bytes, wire: seq<Frame>, f: Frame)
    requires WritesOf(outbound, wire, true) && WellSized(f)
    ensures WritesOf(outbound + FrameBytes(f), wire + [f], true)
  {
    hide FrameBytes, WellSized;
    FramesBytesConcat(wire, [f]);
    assert FramesBytes([f]) == FrameBytes(f) by { assert [f][1..] == []; assert FrameBytes(f) + [] == FrameBytes(f); }
    NoFrame();
  }

  lemma WritesPart(outbound: Bytes, wire: seq<Frame>, f: Frame, n: nat)
    requires WritesOf(outbound, wire, true) && WellSized(f) && n <= |FrameBytes(f)|
    ensures WritesOf(outbound + FrameBytes(f)[..n], if n == |FrameBytes(f)| then wire + [f] else wire, false)
  {
    hide FrameBytes, WellSized, ReadFrame;
    if n == |FrameBytes(f)| {
      WritesMore(outbound, wire, f);
      assert FrameBytes(f)[..n] == FrameBytes(f);
    } else {
      var cut := FrameBytes(f)[..n];
      CutFrameUnreadable(f, cut);
      assert (outbound + cut)[|FramesBytes(wire)|..] == cut;
    }
  }

  /** The backend reads exactly the frames on the wire, in order, and nothing from a cut-off one. */
  lemma ReadsWire(outbound: Bytes, wire: seq<Frame>, alive: bool)
    requires WritesOf(outbound, wire, alive)
    ensures wire == [] ==> ReadFrame(outbound).None?
    ensures wire != [] ==>
              && ReadFrame(outbound).Some? && ReadFrame(outbound).value.0 == wire[0]
              && WritesOf(ReadFrame(outbound).value.1, wire[1..], alive)
  {
    hide FrameBytes, WellSized, ReadFrame;
    if wire == [] {
      assert outbound[0..] == outbound;
    } else {
      var f, rest := wire[0], outbound[|FrameBytes(wire[0])|..];
      assert outbound == FrameBytes(f) + rest by {
        assert FrameBytes(f) == FramesBytes(wire)[..|FrameBytes(f)|] == outbound[..|FrameBytes(f)|];
      }
      ReadFrameIffEncoded(outbound, f, rest);
      var more := FramesBytes(wire[1..]);
      assert more == FramesBytes(wire)[|FrameBytes(f)|..] == rest[..|more|];
      assert rest[|more|..] == outbound[|FramesBytes(wire)|..];
    }
  }

  lemma {:induction false} RepliesSnoc(rs: seq<Reply>, r: Reply)
    ensures RepliesBytes(rs + [r]) == RepliesBytes(rs) + FrameBytes(Shard(r.req.id, r.body))
  {
    hide FrameBytes;
    if rs == [] {
      assert [] + [r] == [r] && [r][1..] == [];
      assert FrameBytes(Shard(r.req.id, r.body)) + [] == FrameBytes(Shard(r.req.id, r.body));
    } else {
      assert (rs + [r])[1..] == rs[1..] + [r];
      RepliesSnoc(rs[1..], r);
    }
  }

  lemma WriteSpells(c: Channel, a: Channel)
    requires Spells(c, a) && WriteStep(c).Some?
    ensures WriteStep(a).Some? && Spells(WriteStep(c).value, WriteStep(a).value)
  {
    hide FrameBytes, WellSized, WritesOf, RepliesBytes;
    WritesMore(c.outbound, a.wire, a.queue[0]);
    assert c.sendQueue[1..] == Encoded(a.queue[1..]);
  }

  lemma WriteFailSpells(c: Channel, a: Channel, n: nat)
    requires Spells(c, a) && WriteFailStep(c, n).Some?
    ensures WriteFailStep(a, n).Some? && Spells(WriteFailStep(c, n).value, WriteFailStep(a, n).value)
  {
    hide FrameBytes, WellSized, WritesOf, RepliesBytes;
    WritesPart(c.outbound, a.wire, a.queue[0], n);
  }

  lemma ReceiveSpells(c: Channel, a: Channel)
    requires Spells(c, a) && ReceiveStep(c).Some?
    ensures ReceiveStep(a).Some? && Spells(ReceiveStep(c).value, ReceiveStep(a).value)
  {
    hide FrameBytes, WellSized, WritesOf, RepliesBytes;
    ReadsWire(c.outbound, a.wire, a.alive);
  }

  lemma AnswerSpells(c: Channel, a: Channel, r: Reply, again: bool)
    requires Spells(c, a) && AnswerStep(c, r, again).Some?
    ensures AnswerStep(a, r, again).Some? && Spells(AnswerStep(c, r, again).value, AnswerStep(a, r, again).value)
  {
    hide FrameBytes, WellSized, WritesOf, RepliesBytes;
    RepliesSnoc(a.inbound, r);
    assert c.buf + (c.inFlight + FrameBytes(Shard(r.req.id, r.body)))
        == c.buf + c.inFlight + FrameBytes(Shard(r.req.id, r.body));
  }

  lemma ArriveSpells(c: Channel, a: Channel, n: nat)
    requires Spells(c, a) && ArriveStep(c, n).Some?
    ensures ArriveStep(a, n).Some? && Spells(ArriveStep(c, n).value, ArriveStep(a, n).value)
  {
    hide FrameBytes, WellSized, WritesOf, RepliesBytes;
    assert c.buf + c.inFlight[..n] + c.inFlight[n..] == c.buf + c.inFlight;
  }

  /** Every byte-level step of the loops or the backend is the same step on messages. */
  lemma StepSpells(c: Channel, a: Channel, m: Move)
    requires Spells(c, a) && Step(c, m).Some?
    ensures Step(a, m).Some? && Spells(Step(c, m).value, Step(a, m).value)
  {
    hide Spells, WriteStep, WriteFailStep, ReceiveStep, AnswerStep, ArriveStep;
    match m
    case Write => WriteSpells(c, a);
    case WriteFail(n) => WriteFailSpells(c, a, n);
    case Receive => ReceiveSpells(c, a);
    case Answer(r, again) => AnswerSpells(c, a, r, again);
    case Arrive(n) => ArriveSpells(c, a, n);
  }

  /** A complete frame that carries a payload without room for its head makes the reader stop. */
  lemma DrainGarbled(id: u32, body: Bytes, rest: Bytes)
    requires |body| < U32_SIZE && !Answerable(body)
    ensures Drain(FrameBytes(Shard(id, body)) + rest) == Bad(ShortPayload(body == []))
  {
    hide U32At, ShardBytes, ParseHead;
    ShardParts(id, body, rest);
  }

  lemma NothingToDrain()
    ensures Drain([]) == Bad(ShortFrame)
  {
  }

  /** Whatever part of the answers has arrived, the read loop takes the same answers in the same order. */
  lemma TakeSpells(c: Channel, a: Channel)
    requires Spells(c, a) && Take(c).Some?
    ensures Take(a).Some? && Take(a).value.0 == Take(c).value.0 && Spells(Take(c).value.1, Take(a).value.1)
  {
    hide FrameBytes, WellSized, WritesOf, Drain, Answerable;
    DrainExtends(c.buf, c.inFlight);
    NothingToDrain();
    if a.inbound != [] {
      var r, rest := a.inbound[0], RepliesBytes(a.inbound[1..]);
      if Answerable(r.body) {
        DrainIffEncoded(RepliesBytes(a.inbound), HeaderOf(r.req.id, r.body), r.body, rest);
      } else {
        DrainGarbled(r.req.id, r.body, rest);
      }
    }
  }

  // ---- And back ----

  /** Every step on messages, other than the one they know nothing of, is enabled on the bytes that spell them. */
  lemma StepRealized(c: Channel, a: Channel, m: Move)
    requires Spells(c, a) && Step(a, m).Some? && !m.Arrive?
    ensures Step(c, m).Some?
  {
    hide FrameBytes, WellSized, WritesOf, RepliesBytes;
    if m.Receive? {
      ReadsWire(c.outbound, a.wire, a.alive);
    }
  }

  /** An answer that is waiting can be taken as soon as all bytes under way have arrived. */
  lemma TakeRealized(c: Channel, a: Channel) returns (d: Channel)
    requires Spells(c, a) && Take(a).Some?
    ensures ArriveStep(c, |c.inFlight|) == Some(d) && Spells(d, a) && Take(d).Some?
  {
    hide FrameBytes, WellSized, WritesOf, Drain, Answerable;
    d := ArriveStep(c, |c.inFlight|).value;
    assert d.buf == RepliesBytes(a.inbound) && d.buf + d.inFlight == d.buf;
    var r, rest := a.inbound[0], RepliesBytes(a.inbound[1..]);
    if Answerable(r.body) {
      DrainIffEncoded(d.buf, HeaderOf(r.req.id, r.body), r.body, rest);
    } else {
      DrainGarbled(r.req.id, r.body, rest);
    }
  }

  // ---- Order ----

  /**
   * Frames keep their order from `send_frame` to the backend: what is written or waiting is one sequence, which new
   * frames join at its end and the backend leaves at its front. Only a failing write loses frames, all from the end.
   */
  lemma FirstInFirstOut(c: Channel, f: Frame, m: Move)
    requires c.Messages?
    ensures var d := Enqueue(c, f); d.Messages? && d.wire + d.queue == c.wire + c.queue + (if c.alive then [f] else [])
    ensures Step(c, m).Some? ==>
      var d := Step(c, m).value;
      && d.Messages?
      && match m
         case Write => d.wire + d.queue == c.wire + c.queue && |d.wire| == |c.wire| + 1
         case WriteFail(_) => c.wire <= d.wire && d.wire + d.queue <= c.wire + c.queue && !d.alive
         case Receive =>
           && c.wire != [] && [c.wire[0]] + (d.wire + d.queue) == c.wire + c.queue
           && d.backlog == c.backlog + multiset{c.wire[0]}
         case _ => d.wire == c.wire && d.queue == c.queue
  {
    hide FrameBytes;
  }
}
