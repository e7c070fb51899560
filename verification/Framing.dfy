/** Frames: how requests are wrapped for the wire, and how answers are cut out of the byte stream. */
module Framing {
  import opened Bytes
  import opened Tlv

  const SHARD_MAGIC: u8 := 0xFF
  const ROUTER_MAGIC: u8 := 0xFE
  const KEEPALIVE_SEGMENT: Bytes :=
    [0x5F, 0x5F, 0x6B, 0x65, 0x65, 0x70, 0x61, 0x6C, 0x69, 0x76, 0x65, 0x5F, 0x5F]

  // ---- Outgoing frames ----

  datatype Frame =
    | Shard(id: u32, payload: Bytes)
    | Router(segment: Bytes, isWrite: bool, id: u32, payload: Bytes)

  const KEEPALIVE := Router(KEEPALIVE_SEGMENT, false, 0, [])

  function ShardBytes(id: u32, payload: Bytes): (s: Bytes)
    ensures |s| == 9 + |payload|
  {
    [SHARD_MAGIC] + Le32(id) + Le32(|payload|) + payload
  }

  /** The length field counts everything after itself. */
  function RouterBytes(segment: Bytes, isWrite: bool, id: u32, payload: Bytes): (s: Bytes)
    ensures |s| == 5 + (|segment| + 11 + |payload|)
  {
    [ROUTER_MAGIC] + Le32(|segment| + 11 + |payload|) + [|segment| % 0x100] + segment
      + [if isWrite then 1 else 0] + ShardBytes(id, payload)
  }

  function FrameBytes(f: Frame): (s: Bytes)
    ensures |s| >= 9
  {
    match f
    case Shard(id, payload) => ShardBytes(id, payload)
    case Router(segment, isWrite, id, payload) => RouterBytes(segment, isWrite, id, payload)
  }

  /** Every length survives the word it is written to. */
  predicate WellSized(f: Frame) {
    match f
    case Shard(_, payload) => |payload| < U32_SIZE
    case Router(segment, _, _, payload) => |segment| < 0x100 && |segment| + 11 + |payload| < U32_SIZE
  }

  method PrependHeader(id: u32, payload: Bytes) returns (out: Bytes)
    ensures out == FrameBytes(Shard(id, payload))
  {
    var totalLen := |payload| % U32_SIZE;
    out := [0xFF];
    out := out + Le32(id);
    out := out + Le32(totalLen);
    out := out + payload;
    LeOfLow(|payload|);
  }

  lemma LeOfLow(n: nat)
    ensures Le32(n % U32_SIZE) == Le32(n)
  {
    hide Le32, U32At;
    assert Le32(n)[0..4] == Le32(n);
    U32RoundTrip(n, Le32(n), 0);
    Le32OfU32At(Le32(n), 0);
  }

  /** The lengths are added in 32 bits, as in the source. */
  method PrependRouterHeader(segment: Bytes, isWrite: bool, id: u32, payload: Bytes) returns (out: Bytes)
    ensures out == FrameBytes(Router(segment, isWrite, id, payload))
  {
    hide Le32;
    var shardTotalLen := |payload| % U32_SIZE;
    var shardFrameLen := (9 + shardTotalLen) % U32_SIZE;
    var segmentLen := |segment| % U32_SIZE;
    var routerHeaderLen := (segmentLen + 2) % U32_SIZE;
    var rest := (routerHeaderLen + shardFrameLen) % U32_SIZE;
    out := [ROUTER_MAGIC];
    out := out + Le32(rest);
    out := out + [segmentLen % 0x100];
    out := out + segment;
    out := out + [if isWrite then 0x01 else 0x00];
    out := out + [SHARD_MAGIC];
    out := out + Le32(id);
    out := out + Le32(shardTotalLen);
    out := out + payload;
    WrappedSum(|segment|, |payload|);
    LowByte(|segment|);
    LeOfLow(|segment| + 11 + |payload|);
    LeOfLow(|payload|);
    assert [SHARD_MAGIC] + Le32(id) + Le32(|payload|) + payload == ShardBytes(id, payload);
    Attach([ROUTER_MAGIC] + Le32(rest) + [segmentLen % 0x100] + segment + [if isWrite then 0x01 else 0x00],
           [SHARD_MAGIC], Le32(id), Le32(|payload|), payload);
  }

  lemma Attach(a: Bytes, b: Bytes, c: Bytes, d: Bytes, e: Bytes)
    ensures a + b + c + d + e == a + (b + c + d + e)
  {
  }

  /** A reduction before an addition may be dropped. */
  lemma ReduceOnce(x: nat, k: nat)
    ensures (x % U32_SIZE + k) % U32_SIZE == (x + k) % U32_SIZE
  {
    var sum := x % U32_SIZE + k;
    var low, q := sum % U32_SIZE, sum / U32_SIZE;
    assert x + k == low + U32_SIZE * (x / U32_SIZE + q);
    ModOfSum(low, x / U32_SIZE + q);
  }

  lemma WrappedSum(a: nat, b: nat)
    ensures ((a % U32_SIZE + 2) % U32_SIZE + (9 + b % U32_SIZE) % U32_SIZE) % U32_SIZE == (a + 11 + b) % U32_SIZE
  {
    ReduceOnce(a, 2);
    ReduceOnce(b, 9);
    ReduceOnce(a + 2, (b + 9) % U32_SIZE);
    ReduceOnce(b + 9, a + 2);
  }

  lemma LowByte(a: nat)
    ensures a % U32_SIZE % 0x100 == a % 0x100
  {
    var q := a / U32_SIZE;
    assert a == a % U32_SIZE + 0x100 * (0x100_0000 * q);
  }

  /** The keepalive is an ordinary router frame for a reserved segment, with id 0 and no payload. */
  method BuildKeepaliveFrame() returns (out: Bytes)
    ensures out == FrameBytes(KEEPALIVE)
  {
    var segment := KEEPALIVE_SEGMENT;
    var segLen := |segment| % 0x100;
    var totalLen := 1 + |segment| + 1 + 9;
    out := [ROUTER_MAGIC];
    out := out + Le32(totalLen);
    out := out + [segLen];
    out := out + segment;
    out := out + [0x00];
    out := out + [SHARD_MAGIC];
    out := out + Le32(0);
    out := out + Le32(0);
    assert out == [ROUTER_MAGIC] + Le32(24) + [13] + segment + [0] + ShardBytes(0, []);
  }

  // ---- Splitting an outgoing stream again ----

  function ReadShard(s: Bytes): Option<(Frame, Bytes)> {
    if |s| < 9 || s[0] != SHARD_MAGIC || |s| < 9 + U32At(s, 5) then None
    else Some((Shard(U32At(s, 1), s[9..9 + U32At(s, 5)]), s[9 + U32At(s, 5)..]))
  }

  /** A router frame holds exactly one shard frame, and its length field says so. */
  function ReadRouter(s: Bytes): Option<(Frame, Bytes)> {
    if |s| < 7 || s[0] != ROUTER_MAGIC || |s| < s[5] as int + 7 then None
    else
      var n := s[5] as int;
      var flag := s[6 + n];
      match ReadShard(s[7 + n..])
      case None => None
      case Some((shard, rest)) =>
        if flag > 1 || U32At(s, 1) != n + 11 + |shard.payload| then None
        else Some((Router(s[6..6 + n], flag == 1, shard.id, shard.payload), rest))
  }

  function ReadFrame(s: Bytes): (r: Option<(Frame, Bytes)>)
    ensures r.Some? ==> |r.value.1| < |s|
  {
    if s != [] && s[0] == SHARD_MAGIC then ReadShard(s) else ReadRouter(s)
  }

  lemma ShardParts(id: u32, payload: Bytes, rest: Bytes)
    ensures var s := ShardBytes(id, payload) + rest;
            && s[0] == SHARD_MAGIC && U32At(s, 1) == id && U32At(s, 5) == |payload| % U32_SIZE
            && s[9..9 + |payload|] == payload && s[9 + |payload|..] == rest
  {
    hide Le32, U32At;
    var s := ShardBytes(id, payload) + rest;
    assert s[1..5] == Le32(id);
    assert s[5..9] == Le32(|payload|);
    U32RoundTrip(id, s, 1);
    U32RoundTrip(|payload|, s, 5);
  }

  lemma ReadShardOf(id: u32, payload: Bytes, rest: Bytes)
    requires |payload| < U32_SIZE
    ensures ReadShard(ShardBytes(id, payload) + rest) == Some((Shard(id, payload), rest))
  {
    hide U32At, ShardBytes;
    ShardParts(id, payload, rest);
  }

  lemma ReadShardSound(s: Bytes)
    requires ReadShard(s).Some?
    ensures var (f, rest) := ReadShard(s).value;
            f.Shard? && WellSized(f) && s == ShardBytes(f.id, f.payload) + rest
  {
    hide Le32, U32At;
    var len: int := U32At(s, 5);
    Le32OfU32At(s, 1);
    Le32OfU32At(s, 5);
    assert s == [s[0]] + s[1..5] + s[5..9] + s[9..9 + len] + s[9 + len..];
  }

  lemma RouterParts(segment: Bytes, isWrite: bool, id: u32, payload: Bytes, rest: Bytes)
    ensures var s := RouterBytes(segment, isWrite, id, payload) + rest;
            var n := |segment|;
            && s[0] == ROUTER_MAGIC && U32At(s, 1) == (n + 11 + |payload|) % U32_SIZE && s[5] == n % 0x100
            && s[6..6 + n] == segment && s[6 + n] == (if isWrite then 1 else 0)
            && s[7 + n..] == ShardBytes(id, payload) + rest
  {
    hide Le32, U32At, ShardBytes;
    var s := RouterBytes(segment, isWrite, id, payload) + rest;
    assert s[1..5] == Le32(|segment| + 11 + |payload|);
    U32RoundTrip(|segment| + 11 + |payload|, s, 1);
  }

  lemma ReadRouterOf(segment: Bytes, isWrite: bool, id: u32, payload: Bytes, rest: Bytes)
    requires WellSized(Router(segment, isWrite, id, payload))
    ensures ReadRouter(RouterBytes(segment, isWrite, id, payload) + rest)
         == Some((Router(segment, isWrite, id, payload), rest))
  {
    hide U32At, ReadShard, ShardBytes, RouterBytes;
    RouterParts(segment, isWrite, id, payload, rest);
    ReadShardOf(id, payload, rest);
  }

  lemma ReadRouterSound(s: Bytes)
    requires ReadRouter(s).Some?
    ensures var (f, rest) := ReadRouter(s).value;
            f.Router? && WellSized(f) && s == RouterBytes(f.segment, f.isWrite, f.id, f.payload) + rest
  {
    hide Le32, U32At, ReadShard, ShardBytes;
    var n := s[5] as int;
    var (f, rest) := ReadRouter(s).value;
    ReadShardSound(s[7 + n..]);
    Le32OfU32At(s, 1);
    var shard := ShardBytes(f.id, f.payload);
    assert s == [s[0]] + s[1..5] + [s[5]] + s[6..6 + n] + [s[6 + n]] + (shard + rest) by {
      assert s[7 + n..] == shard + rest;
    }
    Attach([s[0]] + s[1..5] + [s[5]] + s[6..6 + n] + [s[6 + n]], shard, rest, [], []);
  }

  /** A stream starts with a frame exactly when it starts with that frame's bytes and no length was cut short. */
  lemma ReadFrameIffEncoded(s: Bytes, f: Frame, rest: Bytes)
    ensures ReadFrame(s) == Some((f, rest)) <==> WellSized(f) && s == FrameBytes(f) + rest
  {
    hide ReadShard, ReadRouter, ShardBytes, RouterBytes;
    if ReadFrame(s).Some? {
      if s != [] && s[0] == SHARD_MAGIC {
        ReadShardSound(s);
      } else {
        ReadRouterSound(s);
      }
    }
    if WellSized(f) && s == FrameBytes(f) + rest {
      match f
      case Shard(id, payload) =>
        ShardParts(id, payload, rest);
        ReadShardOf(id, payload, rest);
      case Router(segment, isWrite, id, payload) =>
        RouterParts(segment, isWrite, id, payload, rest);
        ReadRouterOf(segment, isWrite, id, payload, rest);
    }
  }

  function FramesBytes(fs: seq<Frame>): Bytes {
    if fs == [] then [] else FrameBytes(fs[0]) + FramesBytes(fs[1..])
  }

  function ReadFrames(s: Bytes): (seq<Frame>, Bytes)
    decreases |s|
  {
    match ReadFrame(s)
    case None => ([], s)
    case Some((f, rest)) => var (fs, left) := ReadFrames(rest); ([f] + fs, left)
  }

  /** Any mix of shard, router and keepalive frames splits back into exactly those frames, and nothing else does. */
  lemma {:induction false} FramesUniquelyDecodable(s: Bytes, fs: seq<Frame>)
    ensures ReadFrames(s) == (fs, []) <==> AllWellSized(fs) && s == FramesBytes(fs)
    decreases |s|
  {
    hide WellSized, FrameBytes, ReadFrame;
    if fs == [] {
      NoFrame();
    } else {
      var f, more := fs[0], fs[1..];
      assert [f] + more == fs;
      match ReadFrame(s) {
        case Some((g, rest)) =>
          ReadFrameIffEncoded(s, g, rest);
          FramesUniquelyDecodable(rest, more);
          if ReadFrames(s) == (fs, []) {
            assert ReadFrames(s).0[0] == g;
            assert ReadFrames(s).0[1..] == ReadFrames(rest).0;
          }
        case None =>
      }
      ReadFrameIffEncoded(s, f, FramesBytes(more));
    }
  }

  predicate AllWellSized(fs: seq<Frame>) {
    forall f :: f in fs ==> WellSized(f)
  }

  lemma NoFrame()
    ensures ReadFrame([]).None?
  {
  }

  /** A shard frame byte by byte: 0xFF, the id, the payload's length, the payload. */
  lemma ShardLayout(id: u32, payload: Bytes)
    requires |payload| < U32_SIZE
    ensures var s := FrameBytes(Shard(id, payload));
            s[0] == 0xFF && U32At(s, 1) == id && U32At(s, 5) == |payload| && s[9..] == payload
  {
    hide U32At;
    var s := ShardBytes(id, payload);
    ShardParts(id, payload, []);
    assert s + [] == s && s[9..9 + |payload|] == s[9..];
  }

  /**
   A router frame byte by byte: 0xFE, a length that covers exactly the bytes after it, the segment with its own
   length, 1 for a write and 0 otherwise, and the shard frame.
   */
  lemma RouterLayout(segment: Bytes, isWrite: bool, id: u32, payload: Bytes)
    requires WellSized(Router(segment, isWrite, id, payload))
    ensures var s := FrameBytes(Router(segment, isWrite, id, payload));
            && s[0] == 0xFE && U32At(s, 1) == |s| - 5 && s[5] == |segment| && s[6..6 + |segment|] == segment
            && s[6 + |segment|] == (if isWrite then 1 else 0)
            && s[7 + |segment|..] == FrameBytes(Shard(id, payload))
  {
    hide U32At, ShardBytes;
    var s := RouterBytes(segment, isWrite, id, payload);
    RouterParts(segment, isWrite, id, payload, []);
    assert s + [] == s && ShardBytes(id, payload) + [] == ShardBytes(id, payload);
  }

  /** The keepalive is a read for the segment "__keepalive__", with id 0 and nothing else. */
  lemma KeepaliveLayout()
    ensures FrameBytes(KEEPALIVE)
         == [0xFE, 24, 0, 0, 0, 13] + KEEPALIVE.segment + [0] + [0xFF, 0, 0, 0, 0, 0, 0, 0, 0]
    ensures Chars(KEEPALIVE.segment) == "__keepalive__"
  {
    assert FrameBytes(KEEPALIVE) == [0xFE] + Le32(24) + [13] + KEEPALIVE_SEGMENT + [0] + ShardBytes(0, []);
    assert ShardBytes(0, []) == [0xFF, 0, 0, 0, 0, 0, 0, 0, 0];
    assert [0xFE] + Le32(24) + [13] == [0xFE, 24, 0, 0, 0, 13];
    assert |KEEPALIVE_SEGMENT| == |"__keepalive__"|;
  }

  lemma {:induction false} FramesBytesConcat(a: seq<Frame>, b: seq<Frame>)
    ensures FramesBytes(a + b) == FramesBytes(a) + FramesBytes(b)
  {
    if a == [] {
      assert a + b == b;
    } else {
      assert (a + b)[1..] == a[1..] + b;
      FramesBytesConcat(a[1..], b);
    }
  }

  /** A frame that was only partly written is not a frame. */
  lemma CutFrameUnreadable(f: Frame, cut: Bytes)
    requires WellSized(f) && cut < FrameBytes(f)
    ensures ReadFrame(cut).None?
  {
    CutRead(f, cut, FrameBytes(f)[|cut|..]);
  }

  lemma CutRead(f: Frame, cut: Bytes, tail: Bytes)
    requires WellSized(f) && cut + tail == FrameBytes(f)
    ensures ReadFrame(cut).Some? ==> tail == []
  {
    hide WellSized, FrameBytes, ReadFrame;
    if ReadFrame(cut).Some? {
      ReadFrameExtends(cut, tail);
      ReadFrameIffEncoded(cut + tail, f, []);
      assert FrameBytes(f) + [] == FrameBytes(f);
    }
  }

  /** What has been read stays read when more bytes follow. */
  lemma ReadFrameExtends(s: Bytes, more: Bytes)
    requires ReadFrame(s).Some?
    ensures ReadFrame(s + more) == Some((ReadFrame(s).value.0, ReadFrame(s).value.1 + more))
  {
    hide WellSized, FrameBytes, ReadFrame;
    var (f, rest) := ReadFrame(s).value;
    ReadFrameIffEncoded(s, f, rest);
    Attach([], FrameBytes(f), rest, more, []);
    assert s + more == FrameBytes(f) + (rest + more);
    ReadFrameIffEncoded(s + more, f, rest + more);
  }

  // ---- Incoming frames ----

  datatype Header = Header(clrId: u32, statusLen: u8, fieldCnt: u16)

  datatype ProtocolError = ShortFrame | MissingMagic(got: u8) | ShortPayload(empty: bool)

  datatype Drained = Got(header: Header, payload: Bytes, rest: Bytes) | Bad(error: ProtocolError)

  /** What one call of `drain_frame_async` has to do with all the bytes that are still to come. */
  function Drain(s: Bytes): Drained {
    if |s| < 9 then Bad(ShortFrame)
    else if s[0] != SHARD_MAGIC then Bad(MissingMagic(s[0]))
    else if |s| < 9 + U32At(s, 5) then Bad(ShortFrame)
    else
      var payload := s[9..9 + U32At(s, 5)];
      match ParseHead(payload)
      case None => Bad(ShortPayload(payload == []))
      case Some(h) => Got(Header(U32At(s, 1), |h.status|, h.count), payload, s[9 + U32At(s, 5)..])
  }

  /** The frames a stream holds, and the error that ends them. */
  function Drains(s: Bytes): (seq<(Header, Bytes)>, ProtocolError)
    decreases |s|
  {
    match Drain(s)
    case Bad(e) => ([], e)
    case Got(h, payload, rest) => var (fs, e) := Drains(rest); ([(h, payload)] + fs, e)
  }

  /** A payload the read loop accepts: non-empty, with room for its status and field count. */
  predicate Answerable(payload: Bytes) {
    |payload| < U32_SIZE && ParseHead(payload).Some?
  }

  function HeaderOf(id: u32, payload: Bytes): Header
    requires Answerable(payload)
  {
    Header(id, |ParseHead(payload).value.status|, ParseHead(payload).value.count)
  }

  /** One call yields `payload` under `h` exactly where the shard frame of an answerable payload stands. */
  lemma DrainIffEncoded(s: Bytes, h: Header, payload: Bytes, rest: Bytes)
    ensures Drain(s) == Got(h, payload, rest)
       <==> Answerable(payload) && h == HeaderOf(h.clrId, payload) && s == FrameBytes(Shard(h.clrId, payload)) + rest
  {
    hide U32At, ShardBytes, ParseHead;
    if Drain(s) == Got(h, payload, rest) {
      ReadShardSound(s);
    }
    if Answerable(payload) && s == FrameBytes(Shard(h.clrId, payload)) + rest {
      ShardParts(h.clrId, payload, rest);
    }
  }

  /** A complete frame is drained the same way whatever follows it, and so is a wrong magic byte. */
  lemma DrainExtends(s: Bytes, more: Bytes)
    requires Drain(s) != Bad(ShortFrame)
    ensures Drain(s + more)
         == match Drain(s)
            case Bad(e) => Bad(e)
            case Got(h, payload, rest) => Got(h, payload, rest + more)
  {
    hide ParseHead;
    var len: int := U32At(s, 5);
    assert U32At(s + more, 5) == len && U32At(s + more, 1) == U32At(s, 1);
    if |s| >= 9 + len {
      assert (s + more)[9..9 + len] == s[9..9 + len];
      assert (s + more)[9 + len..] == s[9 + len..] + more;
    }
  }

  /** What a drained frame reports, by position: the id, the status length and the field count. */
  lemma DrainReports(s: Bytes, h: Header, payload: Bytes, rest: Bytes)
    requires Drain(s) == Got(h, payload, rest)
    ensures |s| >= 9 && s[0] == 0xFF && h.clrId == U32At(s, 1) && |payload| == U32At(s, 5)
    ensures s[9..] == payload + rest && payload != [] && h.statusLen == payload[0]
    ensures |payload| >= 3 + payload[0] as int && h.fieldCnt == U16At(payload, 1 + payload[0] as int)
  {
  }

  /** The stream ends inside this shard frame, behind its header. */
  ghost predicate EndsInside(s: Bytes, id: u32, payload: Bytes) {
    |payload| < U32_SIZE && |s| >= 9 && s < FrameBytes(Shard(id, payload))
  }

  /** The stream starts with a whole shard frame, the payload of which has no room for a status and a field count. */
  ghost predicate StartsHeadless(s: Bytes, id: u32, payload: Bytes) {
    && |payload| < U32_SIZE && FrameBytes(Shard(id, payload)) <= s
    && (payload == [] || |payload| < payload[0] as int + 3)
  }

  /** The three errors: the stream ends too soon, starts with a wrong byte, or holds an answer without a head. */
  lemma DrainErrors(s: Bytes)
    ensures Drain(s) == Bad(ShortFrame) <==> |s| < 9 || exists id, payload :: EndsInside(s, id, payload)
    ensures forall b :: Drain(s) == Bad(MissingMagic(b)) <==> |s| >= 9 && s[0] == b != 0xFF
    ensures forall e :: Drain(s) == Bad(ShortPayload(e))
                   <==> exists id, payload :: StartsHeadless(s, id, payload) && e == (payload == [])
  {
    hide EndsInside, StartsHeadless, Drain;
    forall id, payload | EndsInside(s, id, payload)
      ensures Drain(s) == Bad(ShortFrame)
    {
      DrainInside(s, id, payload);
    }
    forall id, payload | StartsHeadless(s, id, payload)
      ensures Drain(s) == Bad(ShortPayload(payload == []))
    {
      DrainHeadless(s, id, payload);
    }
    DrainCases(s);
  }

  lemma DrainInside(s: Bytes, id: u32, payload: Bytes)
    requires EndsInside(s, id, payload)
    ensures Drain(s) == Bad(ShortFrame)
  {
    hide U32At;
    var f := FrameBytes(Shard(id, payload));
    ShardLayout(id, payload);
    assert s == f[..|s|] && s[0] == f[0];
    Prefix(s, f, 5);
  }

  lemma DrainHeadless(s: Bytes, id: u32, payload: Bytes)
    requires StartsHeadless(s, id, payload)
    ensures Drain(s) == Bad(ShortPayload(payload == []))
  {
    hide U32At, ShardBytes;
    var rest := s[9 + |payload|..];
    ShardParts(id, payload, rest);
    assert s == ShardBytes(id, payload) + rest;
  }

  /** Which of the errors it is, with the frame that shows it. */
  lemma DrainCases(s: Bytes)
    ensures |s| < 9 ==> Drain(s) == Bad(ShortFrame)
    ensures Drain(s) == Bad(ShortFrame) ==> |s| < 9 || exists id, payload :: EndsInside(s, id, payload)
    ensures forall b :: Drain(s) == Bad(MissingMagic(b)) <==> |s| >= 9 && s[0] == b != 0xFF
    ensures forall e :: Drain(s) == Bad(ShortPayload(e)) ==>
              exists id, payload :: StartsHeadless(s, id, payload) && e == (payload == [])
  {
    hide U32At, ShardBytes;
    if |s| >= 9 && s[0] == 0xFF {
      var id, len: nat := U32At(s, 1), U32At(s, 5);
      if |s| < 9 + len {
        var payload := s[9..] + seq(len - (|s| - 9), _ => 0);
        CompletedFrame(s, payload);
        assert EndsInside(s, id, payload);
      } else {
        var payload := s[9..9 + len];
        WholeFrame(s, payload);
        assert payload == [] || |payload| < payload[0] as int + 3 ==> StartsHeadless(s, id, payload);
      }
    }
  }

  lemma CompletedFrame(s: Bytes, payload: Bytes)
    requires |s| >= 9 && s[0] == 0xFF && |payload| == U32At(s, 5) && s[9..] < payload
    ensures s < ShardBytes(U32At(s, 1), payload)
  {
    hide U32At, Le32;
    Le32OfU32At(s, 1);
    Le32OfU32At(s, 5);
    assert s == [s[0]] + s[1..5] + s[5..9] + s[9..];
  }

  lemma WholeFrame(s: Bytes, payload: Bytes)
    requires |s| >= 9 && s[0] == 0xFF && |payload| == U32At(s, 5) && payload <= s[9..]
    ensures ShardBytes(U32At(s, 1), payload) <= s
  {
    hide U32At, Le32;
    Le32OfU32At(s, 1);
    Le32OfU32At(s, 5);
    assert s == [s[0]] + s[1..5] + s[5..9] + s[9..];
  }

  datatype Message = Message(id: u32, payload: Bytes)

  function MessagesBytes(ms: seq<Message>): Bytes {
    if ms == [] then [] else FrameBytes(Shard(ms[0].id, ms[0].payload)) + MessagesBytes(ms[1..])
  }

  function Delivered(ms: seq<Message>): (r: seq<(Header, Bytes)>)
    requires forall i :: 0 <= i < |ms| ==> Answerable(ms[i].payload)
  {
    seq(|ms|, i requires 0 <= i < |ms| => (HeaderOf(ms[i].id, ms[i].payload), ms[i].payload))
  }

  /** Draining undoes framing: exactly the framed messages, in order, then a short frame. */
  lemma {:induction false} DrainsUndoFraming(ms: seq<Message>)
    requires forall i :: 0 <= i < |ms| ==> Answerable(ms[i].payload)
    ensures Drains(MessagesBytes(ms)) == (Delivered(ms), ShortFrame)
  {
    if ms == [] {
      assert Drain([]) == Bad(ShortFrame);
      assert Delivered(ms) == [];
    } else {
      hide Drain, FrameBytes, Answerable, Delivered, HeaderOf;
      var m, rest := ms[0], ms[1..];
      DeliveredFirst(ms);
      DrainIffEncoded(MessagesBytes(ms), HeaderOf(m.id, m.payload), m.payload, MessagesBytes(rest));
      DrainsUndoFraming(rest);
    }
  }

  lemma DeliveredFirst(ms: seq<Message>)
    requires ms != [] && forall i :: 0 <= i < |ms| ==> Answerable(ms[i].payload)
    ensures HeaderOf(ms[0].id, ms[0].payload).clrId == ms[0].id
    ensures Delivered(ms) == [(HeaderOf(ms[0].id, ms[0].payload), ms[0].payload)] + Delivered(ms[1..])
  {
  }

  // ---- The incremental reader ----

  function Flatten(chunks: seq<Bytes>): Bytes {
    if chunks == [] then [] else chunks[0] + Flatten(chunks[1..])
  }

  datatype DrainResult = Ok(header: Header, payload: Bytes) | Err(error: ProtocolError)

  /** A socket that delivers non-empty chunks and then end of file or a failure, with the read loop's buffer. */
  class FrameReader {
    var chunks: seq<Bytes>
    var buf: Bytes

    ghost predicate Valid()
      reads this
    {
      forall i :: 0 <= i < |chunks| ==> chunks[i] != []
    }

    /** All bytes that have not been drained yet. */
    ghost function Stream(): Bytes
      reads this
    {
      buf + Flatten(chunks)
    }

    /** `read_buf`: zero bytes stand for end of file and for a failure, which the source treats alike. */
    method ReadBuf() returns (n: nat)
      requires Valid()
      modifies this
      ensures Valid() && Stream() == old(Stream())
      ensures n == 0 <==> old(chunks) == []
      ensures n == 0 ==> buf == old(buf) == Stream()
      ensures |chunks| == if n == 0 then 0 else old(|chunks|) - 1
      ensures |buf| == old(|buf|) + n
    {
      if chunks == [] {
        assert buf + [] == buf;
        return 0;
      }
      n := |chunks[0]|;
      assert buf + (chunks[0] + Flatten(chunks[1..])) == buf + chunks[0] + Flatten(chunks[1..]);
      buf := buf + chunks[0];
      chunks := chunks[1..];
    }

    /** Reads until `n` bytes are in the buffer, or reports that they never will be. */
    method Fill(n: nat) returns (ok: bool)
      requires Valid()
      modifies this
      ensures Valid() && Stream() == old(Stream())
      ensures ok ==> |buf| >= n
      ensures !ok ==> |Stream()| < n
    {
      while |buf| < n
        invariant Valid() && Stream() == old(Stream())
        decreases |chunks|
      {
        var read := ReadBuf();
        if read == 0 {
          return false;
        }
      }
      ok := true;
    }

    /** `drain_frame_async`: the outcome depends on the bytes of the stream alone, not on its chunks. */
    method DrainFrame() returns (r: DrainResult)
      requires Valid()
      modifies this
      ensures Valid()
      ensures match Drain(old(Stream()))
              case Got(h, payload, rest) => r == Ok(h, payload) && Stream() == rest
              case Bad(e) => r == Err(e)
    {
      hide Flatten, U32At, U16At;
      ghost var s := Stream();
      var ok := Fill(9);
      if !ok {
        return Err(ShortFrame);
      }
      if buf[0] != 0xFF {
        return Err(MissingMagic(buf[0]));
      }
      Prefix(buf, s, 1);
      Prefix(buf, s, 5);
      var clrId := U32At(buf, 1);
      var payloadLen: nat := U32At(buf, 5);
      ok := Fill(9 + payloadLen);
      if !ok {
        return Err(ShortFrame);
      }
      assert buf == s[..|buf|];
      buf := buf[9..];
      var payload := buf[..payloadLen];
      buf := buf[payloadLen..];
      assert payload == s[9..9 + payloadLen];
      assert Stream() == s[9 + payloadLen..];
      if |payload| == 0 {
        return Err(ShortPayload(true));
      }
      var statusLen := payload[0] as int;
      if |payload| < 1 + statusLen + 2 {
        return Err(ShortPayload(false));
      }
      var fieldCnt := U16At(payload, 1 + statusLen);
      r := Ok(Header(clrId, payload[0], fieldCnt), payload);
    }

    /** The read loop without its demultiplexing: drain until an error. */
    method DrainAll() returns (frames: seq<(Header, Bytes)>, error: ProtocolError)
      requires Valid()
      modifies this
      ensures (frames, error) == Drains(old(Stream()))
    {
      hide Drain;
      frames := [];
      ghost var all := Drains(Stream());
      assert [] + all.0 == all.0;
      while true
        invariant Valid()
        invariant all == (frames + Drains(Stream()).0, Drains(Stream()).1)
        decreases |Stream()|
      {
        ghost var s := Stream();
        var r := DrainFrame();
        match r {
          case Err(e) =>
            assert frames + [] == frames;
            return frames, e;
          case Ok(h, payload) =>
            Shrinks(s);
            assert frames + ([(h, payload)] + Drains(Stream()).0) == frames + [(h, payload)] + Drains(Stream()).0;
            frames := frames + [(h, payload)];
        }
      }
    }
  }

  lemma Prefix(a: Bytes, s: Bytes, at: nat)
    requires at + 4 <= |a| <= |s| && a == s[..|a|]
    ensures U32At(a, at) == U32At(s, at)
  {
  }

  lemma Shrinks(s: Bytes)
    ensures Drain(s).Got? ==> |Drain(s).rest| < |s|
  {
  }
}
