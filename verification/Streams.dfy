/** Write-stream reassembly on one data-plane connection, and its agreement with the in-process
    stream (crates/epoch-rpc/src/server.rs, crates/epoch-rpc/src/transport.rs). */
module Streams {
  import opened Bytes
  import opened Layout

  const MAX_STREAM_BYTES := 48 * 1024 * 1024

  const MAX_OPEN_STREAMS := 128

  const STREAM_IDLE_TIMEOUT := 60

  /** The frame counter is 32 bits wide. */
  const FRAME_COUNTS := 0x1_0000_0000

  // ---------------------------------------------------------------- what a connection is told

  /** What the sender declares at the end: its frame count and the CRC32C of the whole body. */
  datatype EndReq = EndReq(frameCount: nat, crc: nat)

  /** What reaches the connection, in order. An open carries the extent the handler granted, or
      nothing when it was refused; an end carries its declaration, or nothing when undecodable. */
  datatype Input =
    | Open(sid: nat, blob: nat, granted: Option<nat>, at: nat)
    | Data(sid: nat, body: Bytes, at: nat)
    | Abort(sid: nat)
    | End(sid: nat, end: Option<EndReq>)
    | Reap(now: nat)

  /** One stream as its own frames describe it: the bodies accepted since its latest open. */
  datatype Stream = Stream(extent: nat, blob: nat, bodies: seq<Bytes>, last: nat)

  function Joined(bodies: seq<Bytes>): Bytes {
    if bodies == [] then [] else Joined(bodies[..|bodies| - 1]) + bodies[|bodies| - 1]
  }

  predicate Idle(last: nat, now: nat) {
    now >= last + STREAM_IDLE_TIMEOUT
  }

  /** Follows a single stream through the inputs, looking at nothing but its own frames. */
  function Follow(inputs: seq<Input>, sid: nat): Option<Stream> {
    if inputs == [] then None
    else
      var was, last := Follow(inputs[..|inputs| - 1], sid), inputs[|inputs| - 1];
      match last
      case Open(s, blob, granted, at) =>
        if s == sid && granted.Some? then Some(Stream(granted.value, blob, [], at)) else was
      case Data(s, body, at) =>
        if s != sid || was.None? then was
        else if |Joined(was.value.bodies)| + |body| > MAX_STREAM_BYTES then None
        else Some(was.value.(bodies := was.value.bodies + [body], last := at))
      case Abort(s) => if s == sid then None else was
      case End(s, end) => if s == sid && end.Some? then None else was
      case Reap(now) => if was.Some? && Idle(was.value.last, now) then None else was
  }

  /** The stream's own data bodies, in order. */
  function BodiesOf(inputs: seq<Input>, sid: nat): seq<Bytes> {
    if inputs == [] then []
    else
      var before, last := BodiesOf(inputs[..|inputs| - 1], sid), inputs[|inputs| - 1];
      if last.Data? && last.sid == sid then before + [last.body] else before
  }

  /** When the stream was last heard of, having been opened at `at`. */
  function LastAt(at: nat, inputs: seq<Input>, sid: nat): nat {
    if inputs == [] then at
    else
      var last := inputs[|inputs| - 1];
      if last.Data? && last.sid == sid then last.at else LastAt(at, inputs[..|inputs| - 1], sid)
  }

  /** Nothing in the inputs opens or closes the stream. */
  ghost predicate Undisturbed(inputs: seq<Input>, sid: nat) {
    forall i | 0 <= i < |inputs| :: inputs[i].Reap? || (inputs[i].sid == sid ==> inputs[i].Data?)
  }

  /** Every reap finds the stream, opened at `at`, heard of recently. */
  ghost predicate Kept(at: nat, inputs: seq<Input>, sid: nat) {
    forall i | 0 <= i < |inputs| && inputs[i].Reap? :: !Idle(LastAt(at, inputs[..i], sid), inputs[i].now)
  }

  lemma KeptStep(at: nat, inputs: seq<Input>, sid: nat, m: nat)
    requires m < |inputs|
    ensures Kept(at, inputs[..m + 1], sid) <==>
              && Kept(at, inputs[..m], sid)
              && (inputs[m].Reap? ==> !Idle(LastAt(at, inputs[..m], sid), inputs[m].now))
    ensures LastAt(at, inputs[..m + 1], sid) ==
              if inputs[m].Data? && inputs[m].sid == sid then inputs[m].at else LastAt(at, inputs[..m], sid)
  {
    hide LastAt, Idle;
    var longer, shorter := inputs[..m + 1], inputs[..m];
    assert forall i | 0 <= i <= m :: longer[..i] == inputs[..i];
    assert forall i | 0 <= i < m :: shorter[..i] == inputs[..i] && longer[i] == shorter[i];
    assert longer[m] == inputs[m];
    LastAtStep(at, inputs, sid, m);
  }

  lemma LastAtStep(at: nat, inputs: seq<Input>, sid: nat, m: nat)
    requires m < |inputs|
    ensures LastAt(at, inputs[..m + 1], sid) ==
              if inputs[m].Data? && inputs[m].sid == sid then inputs[m].at else LastAt(at, inputs[..m], sid)
  {
    assert inputs[..m + 1][..m] == inputs[..m];
  }

  lemma {:induction false} JoinedSplits(a: seq<Bytes>, b: seq<Bytes>)
    ensures Joined(a + b) == Joined(a) + Joined(b)
    decreases |b|
  {
    if b == [] {
      assert a + b == a;
    } else {
      var n := |b| - 1;
      JoinedSplits(a, b[..n]);
      JoinedLast(b);
      JoinedLast(a + b);
      assert (a + b)[..|a + b| - 1] == a + b[..n] && (a + b)[|a + b| - 1] == b[n];
      hide Joined;
      PlusAssociates(Joined(a), Joined(b[..n]), b[n]);
    }
  }

  lemma JoinedLast(bodies: seq<Bytes>)
    requires bodies != []
    ensures Joined(bodies) == Joined(bodies[..|bodies| - 1]) + bodies[|bodies| - 1]
  {
  }

  function Own(input: Input, sid: nat): seq<Bytes> {
    if input.Data? && input.sid == sid then [input.body] else []
  }

  lemma BodiesStep(inputs: seq<Input>, sid: nat, m: nat)
    requires m < |inputs|
    ensures BodiesOf(inputs[..m + 1], sid) == BodiesOf(inputs[..m], sid) + Own(inputs[m], sid)
  {
    assert inputs[..m + 1][..m] == inputs[..m];
  }

  /** Between an open and its end, whatever other streams do and whenever idle streams are reaped, a
      stream exists exactly while every reap found it recent and its bodies fit the cap, and then it
      holds exactly its own data bodies. */
  lemma {:induction false} StreamHoldsItsFrames(before: seq<Input>, open: Input, mid: seq<Input>, m: nat)
    requires open.Open? && open.granted.Some? && Undisturbed(mid, open.sid) && m <= |mid|
    ensures Follow(before + [open] + mid[..m], open.sid) ==
              if Kept(open.at, mid[..m], open.sid) && |Joined(BodiesOf(mid[..m], open.sid))| <= MAX_STREAM_BYTES
              then Some(Stream(open.granted.value, open.blob, BodiesOf(mid[..m], open.sid),
                               LastAt(open.at, mid[..m], open.sid)))
              else None
    decreases m
  {
    hide Follow, Joined, BodiesOf, LastAt, Idle;
    var sid := open.sid;
    if m == 0 {
      assert before + [open] + mid[..m] == before + [open] && mid[..m] == [];
      OpenFollows(before, open, sid);
      NothingYet(open.at, sid);
    } else {
      var so, next := before + [open] + mid[..m - 1], mid[m - 1];
      StreamHoldsItsFrames(before, open, mid, m - 1);
      assert before + [open] + mid[..m] == so + [next];
      BodiesStep(mid, sid, m - 1);
      KeptStep(open.at, mid, sid, m - 1);
      StepFollows(so, next, sid);
      if next.Data? && next.sid == sid {
        JoinedSplits(BodiesOf(mid[..m - 1], sid), [next.body]);
        JoinedOne(next.body);
      } else {
        assert BodiesOf(mid[..m - 1], sid) + [] == BodiesOf(mid[..m - 1], sid);
      }
    }
  }

  lemma NothingYet(at: nat, sid: nat)
    ensures BodiesOf([], sid) == [] && LastAt(at, [], sid) == at && Joined([]) == []
  {
  }

  lemma StepFollows(before: seq<Input>, next: Input, x: nat)
    requires next.Reap? || (next.sid == x ==> next.Data?)
    ensures Follow(before + [next], x) ==
              var was := Follow(before, x);
              if was.None? then was
              else if next.Reap? then (if Idle(was.value.last, next.now) then None else was)
              else if next.sid != x then was
              else if |Joined(was.value.bodies)| + |next.body| > MAX_STREAM_BYTES then None
              else Some(was.value.(bodies := was.value.bodies + [next.body], last := next.at))
  {
  }

  lemma JoinedOne(body: Bytes)
    ensures Joined([body]) == body
  {
    assert [body][..0] == [];
  }

  // ---------------------------------------------------------------- the connection

  /** Reassembly state of one open stream. */
  datatype WriteAccum = WriteAccum(extent: nat, blob: nat, buf: Bytes, frames: nat, lastActivity: nat)

  function Extended(acc: WriteAccum, body: Bytes, at: nat): WriteAccum {
    acc.(buf := acc.buf + body, frames := (acc.frames + 1) % FRAME_COUNTS, lastActivity := at)
  }

  /** The handler call that ends a stream. */
  datatype Call = Call(extent: nat, blob: nat, frames: nat, end: EndReq, buf: Bytes)

  datatype Reply = OpenAck | Busy | Refused | Internal | Committed | NoReply

  type Crc = Bytes -> nat

  /** The integrity gate both transports share: count and checksum as declared. */
  predicate PassesGate(crc: Crc, call: Call) {
    call.frames == call.end.frameCount && crc(call.buf) == call.end.crc
  }

  /** `commit_blob`: nothing reaches the engine past a failed gate. */
  function CommitReply(crc: Crc, call: Call, engine: bool): Reply {
    if !PassesGate(crc, call) then Internal else if engine then Committed else Refused
  }

  /** The answer to an end, told from the bodies that were accepted: they are committed exactly when
      they are as many, and have the checksum, that the sender declared and the engine takes them;
      otherwise the integrity failure, and it alone, is internal. */
  ghost predicate Verdict(crc: Crc, bodies: seq<Bytes>, end: EndReq, engine: bool, reply: Reply) {
    var sound := |bodies| % FRAME_COUNTS == end.frameCount && crc(Joined(bodies)) == end.crc;
    && (reply == Committed <==> sound && engine)
    && (reply == Refused <==> sound && !engine)
    && (reply == Internal <==> !sound)
  }

  /** The call a stream's frames and an end amount to. */
  ghost function CallOf(s: Stream, end: EndReq): Call {
    Call(s.extent, s.blob, |s.bodies| % FRAME_COUNTS, end, Joined(s.bodies))
  }

  /** The accumulator a stream's frames amount to. */
  ghost function AccumOf(s: Stream): WriteAccum {
    WriteAccum(s.extent, s.blob, Joined(s.bodies), |s.bodies| % FRAME_COUNTS, s.last)
  }

  class Connection {
    var streams: map<nat, WriteAccum>
    ghost var inputs: seq<Input>

    /** Every stream is what its own frames say, and both caps hold. */
    ghost predicate Valid()
      reads this
    {
      && |streams| <= MAX_OPEN_STREAMS
      && (forall sid: nat :: Matches(streams, inputs, sid))
    }

    constructor ()
      ensures Valid() && inputs == []
    {
      streams, inputs := map[], [];
    }

    method HandleOpen(sid: nat, blob: nat, handler: Option<nat>, at: nat) returns (reply: Reply)
      requires Valid()
      modifies this
      ensures Valid()
      ensures var granted := if |old(streams)| >= MAX_OPEN_STREAMS then None else handler;
              inputs == old(inputs) + [Open(sid, blob, granted, at)]
      ensures reply == if |old(streams)| >= MAX_OPEN_STREAMS then Busy else if handler.Some? then OpenAck else Refused
    {
      hide Follow;
      ghost var before, was := inputs, streams;
      if |streams| >= MAX_OPEN_STREAMS {
        inputs := inputs + [Open(sid, blob, None, at)];
        reply := Busy;
      } else {
        inputs := inputs + [Open(sid, blob, handler, at)];
        if handler.Some? {
          streams := streams[sid := WriteAccum(handler.value, blob, [], 0, at)];
          reply := OpenAck;
        } else {
          reply := Refused;
        }
      }
      forall x: nat ensures Matches(streams, inputs, x) {
        assert Matches(was, before, x);
        OpenFollows(before, inputs[|before|], x);
      }
    }

    method HandleData(sid: nat, body: Bytes, at: nat) returns (reply: Reply)
      requires Valid()
      modifies this
      ensures Valid() && inputs == old(inputs) + [Data(sid, body, at)]
      ensures reply == if sid in old(streams) && |old(streams)[sid].buf| + |body| > MAX_STREAM_BYTES then Internal
                       else NoReply
    {
      hide Follow, Joined;
      ghost var before, was := inputs, streams;
      inputs := inputs + [Data(sid, body, at)];
      reply := NoReply;
      if sid in streams {
        var acc := streams[sid];
        if |acc.buf| + |body| > MAX_STREAM_BYTES {
          streams := streams - {sid};
          reply := Internal;
        } else {
          streams := streams[sid := Extended(acc, body, at)];
          assert streams.Keys == was.Keys;
        }
      }
      forall x: nat ensures Matches(streams, inputs, x) {
        DataFollows(before, sid, body, at, x, was, streams);
      }
    }

    method HandleAbort(sid: nat)
      requires Valid()
      modifies this
      ensures Valid() && inputs == old(inputs) + [Abort(sid)]
    {
      hide Follow, Joined;
      ghost var before, was := inputs, streams;
      inputs := inputs + [Abort(sid)];
      streams := streams - {sid};
      forall x: nat ensures Matches(streams, inputs, x) {
        assert Matches(was, before, x);
        CloseFollows(before, Abort(sid), x);
      }
    }

    /** The handler is called with exactly the concatenation and count of the data frames accepted
        since the stream's latest open and the end's own declaration, or not at all; the stream is
        gone whatever the handler answers. */
    method HandleEnd(sid: nat, end: Option<EndReq>, crc: Crc, engine: bool)
      returns (call: Option<Call>, reply: Reply)
      requires Valid()
      modifies this
      ensures Valid() && inputs == old(inputs) + [End(sid, end)]
      ensures call == if end.None? || Follow(old(inputs), sid).None? then None
                      else Some(CallOf(Follow(old(inputs), sid).value, end.value))
      ensures reply == if end.None? then Internal else if call.None? then NoReply
                       else CommitReply(crc, call.value, engine)
      ensures end.Some? && Follow(old(inputs), sid).Some? ==>
                Verdict(crc, Follow(old(inputs), sid).value.bodies, end.value, engine, reply)
    {
      hide Follow, Joined;
      ghost var before, was := inputs, streams;
      assert Matches(streams, inputs, sid);
      inputs := inputs + [End(sid, end)];
      call, reply := None, Internal;
      if end.Some? {
        reply := NoReply;
        if sid in streams {
          var acc := streams[sid];
          streams := streams - {sid};
          call := Some(Call(acc.extent, acc.blob, acc.frames, end.value, acc.buf));
          reply := CommitReply(crc, call.value, engine);
        }
      }
      forall x: nat ensures Matches(streams, inputs, x) {
        assert Matches(was, before, x);
        CloseFollows(before, End(sid, end), x);
      }
    }

    /** Drops the streams idle past the timeout. */
    method ReapIdle(now: nat)
      requires Valid()
      modifies this
      ensures Valid() && inputs == old(inputs) + [Reap(now)]
    {
      hide Follow, Joined;
      ghost var before, was := inputs, streams;
      inputs := inputs + [Reap(now)];
      var todo := streams.Keys;
      while todo != {}
        invariant todo <= was.Keys && |streams| <= MAX_OPEN_STREAMS && inputs == before + [Reap(now)]
        invariant forall x | x in streams :: x in was && streams[x] == was[x]
        invariant forall x | x in was :: x in streams <==> x in todo || !Idle(was[x].lastActivity, now)
      {
        var sid :| sid in todo;
        if Idle(streams[sid].lastActivity, now) {
          streams := streams - {sid};
        }
        todo := todo - {sid};
      }
      forall x: nat ensures Matches(streams, inputs, x) {
        ReapFollows(before, now, x, was, streams);
      }
    }
  }

  ghost predicate Matches(streams: map<nat, WriteAccum>, inputs: seq<Input>, sid: nat) {
    && (sid in streams <==> Follow(inputs, sid).Some?)
    && (sid in streams ==> streams[sid] == AccumOf(Follow(inputs, sid).value) && |streams[sid].buf| <= MAX_STREAM_BYTES)
  }

  lemma OpenFollows(before: seq<Input>, open: Input, x: nat)
    requires open.Open?
    ensures Follow(before + [open], x) ==
      if open.sid == x && open.granted.Some? then Some(Stream(open.granted.value, open.blob, [], open.at))
      else Follow(before, x)
  {
  }

  lemma CloseFollows(before: seq<Input>, close: Input, x: nat)
    requires close.Abort? || close.End?
    ensures Follow(before + [close], x) ==
      if close.sid == x && (close.Abort? || close.end.Some?) then None else Follow(before, x)
  {
  }

  lemma ReapFollows(before: seq<Input>, now: nat, x: nat, was: map<nat, WriteAccum>, streams: map<nat, WriteAccum>)
    requires Matches(was, before, x)
    requires x in streams ==> x in was && streams[x] == was[x]
    requires x in was ==> (x in streams <==> !Idle(was[x].lastActivity, now))
    ensures Matches(streams, before + [Reap(now)], x)
  {
  }

  lemma DataFollows(before: seq<Input>, sid: nat, body: Bytes, at: nat, x: nat, was: map<nat, WriteAccum>,
                    streams: map<nat, WriteAccum>)
    requires Matches(was, before, x)
    requires if sid !in was then streams == was
             else if |was[sid].buf| + |body| > MAX_STREAM_BYTES then streams == was - {sid}
             else streams == was[sid := Extended(was[sid], body, at)]
    ensures Matches(streams, before + [Data(sid, body, at)], x)
  {
    if x == sid && x in was && |was[sid].buf| + |body| <= MAX_STREAM_BYTES {
      var s := Follow(before, sid).value;
      assert (s.bodies + [body])[..|s.bodies|] == s.bodies;
      CountWraps(|s.bodies|);
    }
  }

  lemma CountWraps(n: nat)
    ensures (n % FRAME_COUNTS + 1) % FRAME_COUNTS == (n + 1) % FRAME_COUNTS
  {
  }

  // ---------------------------------------------------------------- writing a shard

  /** The body cut at the frame boundaries. */
  function CutBy(body: Bytes, lens: seq<nat>): seq<Bytes>
    requires Sum(lens) <= |body|
  {
    if lens == [] then []
    else
      var n := |lens| - 1;
      CutBy(body, lens[..n]) + [body[Sum(lens[..n])..Sum(lens)]]
  }

  lemma {:induction false} CutsJoin(body: Bytes, lens: seq<nat>)
    requires Sum(lens) <= |body|
    ensures Joined(CutBy(body, lens)) == body[..Sum(lens)] && |CutBy(body, lens)| == |lens|
    decreases |lens|
  {
    if lens != [] {
      var n := |lens| - 1;
      CutsJoin(body, lens[..n]);
      var cuts := CutBy(body, lens);
      assert cuts[..|cuts| - 1] == CutBy(body, lens[..n]);
    }
  }

  /** The in-process stream. */
  class LocalWriteStream {
    const extent: nat
    const blob: nat
    var buf: Bytes
    var frames: nat
    ghost var sent: seq<Bytes>

    /** The buffer and the counter are those of the frames sent. */
    ghost predicate Valid()
      reads this
    {
      buf == Joined(sent) && frames == |sent| % FRAME_COUNTS
    }

    constructor (e: nat, b: nat)
      ensures Valid() && extent == e && blob == b && sent == [] && buf == []
    {
      extent, blob, buf, frames, sent := e, b, [], 0, [];
    }

    method SendFrame(frame: Bytes)
      requires Valid()
      modifies this
      ensures Valid() && sent == old(sent) + [frame] && buf == old(buf) + frame
    {
      CountWraps(|sent|);
      buf := buf + frame;
      frames := (frames + 1) % FRAME_COUNTS;
      sent := sent + [frame];
    }

    method Finish(end: EndReq, crc: Crc, engine: bool) returns (call: Call, reply: Reply)
      requires Valid()
      ensures call == Call(extent, blob, |sent| % FRAME_COUNTS, end, Joined(sent))
      ensures reply == CommitReply(crc, call, engine) && Verdict(crc, sent, end, engine, reply)
    {
      call := Call(extent, blob, frames, end, buf);
      reply := CommitReply(crc, call, engine);
    }
  }

  /** What `write_shard` declares about a body cut into these frames. */
  function Declared(crc: Crc, body: Bytes, lens: seq<nat>): EndReq {
    EndReq(|lens| % FRAME_COUNTS, crc(body))
  }

  /** Streaming a shard body frame by frame to the co-located handler asks it to commit the whole
      body with a declaration that passes the gate, so only the engine can refuse. */
  method WriteShardLocally(extent: nat, blob: nat, body: Bytes, lens: seq<nat>, crc: Crc, engine: bool)
    returns (call: Call, reply: Reply)
    requires Sum(lens) == |body|
    ensures call == Call(extent, blob, |lens| % FRAME_COUNTS, Declared(crc, body, lens), body)
    ensures PassesGate(crc, call) && reply == if engine then Committed else Refused
  {
    hide Joined;
    var end := Declared(crc, body, lens);
    var stream := new LocalWriteStream(extent, blob);
    var off := 0;
    assert lens[..0] == [];
    for i := 0 to |lens|
      invariant off == Sum(lens[..i]) <= |body|
      invariant stream.Valid() && stream.extent == extent && stream.blob == blob
      invariant stream.buf == body[..off] && |stream.sent| == i
    {
      SumStep(lens, i);
      SumIsMonotone(lens, i + 1);
      assert body[..off] + body[off..off + lens[i]] == body[..off + lens[i]];
      stream.SendFrame(body[off..off + lens[i]]);
      off := off + lens[i];
    }
    assert lens[..|lens|] == lens && body[..|body|] == body;
    call, reply := stream.Finish(end, crc, engine);
  }

  lemma {:induction false} SumIsMonotone(lens: seq<nat>, i: nat)
    requires i <= |lens|
    ensures Sum(lens[..i]) <= Sum(lens)
    decreases |lens| - i
  {
    if i == |lens| {
      assert lens[..i] == lens;
    } else {
      SumIsMonotone(lens, i + 1);
      SumStep(lens, i);
    }
  }

  /** Over the wire, with any frames of other streams and any reaps in between that find the stream
      recent, the handler gets the very call the in-process stream makes. */
  lemma RemoteWriteIsLocalWrite(before: seq<Input>, open: Input, mid: seq<Input>, body: Bytes, lens: seq<nat>,
                                crc: Crc)
    requires open.Open? && open.granted.Some? && Undisturbed(mid, open.sid) && Kept(open.at, mid, open.sid)
    requires Sum(lens) == |body| <= MAX_STREAM_BYTES && BodiesOf(mid, open.sid) == CutBy(body, lens)
    ensures var s, end := Follow(before + [open] + mid, open.sid), Declared(crc, body, lens);
            && s.Some?
            && CallOf(s.value, end) == Call(open.granted.value, open.blob, |lens| % FRAME_COUNTS, end, body)
            && PassesGate(crc, CallOf(s.value, end))
  {
    hide Follow, BodiesOf, CutBy, Joined, Undisturbed, Kept;
    CutsJoin(body, lens);
    assert body[..|body|] == body;
    StreamHoldsItsFrames(before, open, mid, |mid|);
    assert mid[..|mid|] == mid;
  }

  /** What arrived in as many frames as were sent is committed exactly when it has the checksum of
      what was sent and the engine takes it; with another checksum nothing reaches the engine. */
  lemma ChecksumDecides(before: seq<Input>, open: Input, mid: seq<Input>, body: Bytes, lens: seq<nat>, crc: Crc,
                        engine: bool, got: Bytes)
    requires open.Open? && open.granted.Some? && Undisturbed(mid, open.sid) && Kept(open.at, mid, open.sid)
    requires Sum(lens) == |body| && |BodiesOf(mid, open.sid)| == |lens|
    requires Joined(BodiesOf(mid, open.sid)) == got && |got| <= MAX_STREAM_BYTES
    ensures var s, end := Follow(before + [open] + mid, open.sid), Declared(crc, body, lens);
            && s.Some?
            && var reply := CommitReply(crc, CallOf(s.value, end), engine);
               && (reply == Committed <==> engine && crc(got) == crc(body))
               && (reply == Internal <==> crc(got) != crc(body))
  {
    hide Follow, BodiesOf, Joined, Undisturbed, Kept;
    StreamHoldsItsFrames(before, open, mid, |mid|);
    assert mid[..|mid|] == mid;
  }

  /** A write one of whose frames never arrived is refused, whatever the checksum function. */
  lemma LostFrameIsRefused(before: seq<Input>, open: Input, mid: seq<Input>, body: Bytes, lens: seq<nat>, lost: nat,
                           crc: Crc, engine: bool)
    requires open.Open? && open.granted.Some? && Undisturbed(mid, open.sid) && Kept(open.at, mid, open.sid)
    requires Sum(lens) == |body| && lost < |lens| == |CutBy(body, lens)|
    requires BodiesOf(mid, open.sid) == CutBy(body, lens)[..lost] + CutBy(body, lens)[lost + 1..]
    requires |Joined(BodiesOf(mid, open.sid))| <= MAX_STREAM_BYTES
    ensures var s := Follow(before + [open] + mid, open.sid);
            s.Some? && CommitReply(crc, CallOf(s.value, Declared(crc, body, lens)), engine) == Internal
  {
    hide Follow, BodiesOf, CutBy, Joined, Undisturbed, Kept;
    StreamHoldsItsFrames(before, open, mid, |mid|);
    assert mid[..|mid|] == mid;
    CountWraps(|lens| - 1);
  }
}
