/**
 The launcher's request loop (`requestTimeout`, tools/iolab-launcher/wsclient.go):
 write one request, then read frames until its own reply. JSON marshalling and
 parsing and the random mask keys are inputs; a missed deadline is an end of input.
 */
module WsRequest {
  import opened Wrappers
  import opened Bytes
  import opened Decimal
  import opened WsFrames

  const OP_TEXT: byte := 1
  const OP_CLOSE: byte := 8
  const OP_PING: byte := 9
  const OP_PONG: byte := 10

  datatype Envelope = Envelope(id: string, event: string, ok: Option<bool>, result: seq<byte>, error: Option<string>)

  datatype Failure = MarshalFailed | NoMaskKey | ReadFailed | ServerClosed | Refused(error: Option<string>)

  /** json.Unmarshal into an envelope and json.Marshal of an id and a verb, None for an error. */
  datatype Codec = Codec(parse: seq<byte> -> Option<Envelope>, marshal: (string, string) -> Option<seq<byte>>)

  /** The own reply: this id, and not an event. */
  predicate Own(c: Codec, id: string, f: (byte, seq<byte>)) {
    f.0 == OP_TEXT && c.parse(f.1).Some? && c.parse(f.1).value.event == "" && c.parse(f.1).value.id == id
  }

  /** A frame the loop passes over: anything but a close and the own reply. */
  predicate Skipped(c: Codec, id: string, f: (byte, seq<byte>)) {
    f.0 != OP_CLOSE && !Own(c, id, f)
  }

  function Settle(env: Envelope): (r: Result<seq<byte>, Failure>) {
    if env.ok == Some(false) then Err(Refused(env.error)) else Ok(env.result)
  }

  /** What the loop returns, the payloads it must pong, and what it leaves unread. */
  datatype Outcome = Outcome(result: Result<seq<byte>, Failure>, pings: seq<seq<byte>>, rest: seq<byte>)

  function Await(c: Codec, id: string, b: seq<byte>): (o: Outcome)
    decreases |b|
  {
    var r := ReadOne(b);
    if !r.Frame? then Outcome(Err(ReadFailed), [], Rest(r))
    else
      var f := (r.opcode, r.payload);
      if f.0 == OP_CLOSE then Outcome(Err(ServerClosed), [], r.rest)
      else if Own(c, id, f) then Outcome(Settle(c.parse(f.1).value), [], r.rest)
      else
        ReadShrinks(b);
        var o := Await(c, id, r.rest);
        if f.0 == OP_PING then o.(pings := [f.1] + o.pings) else o
  }

  /** The pongs written for `pings`; a key that cannot be drawn (None) skips its pong. */
  function Pongs(pings: seq<seq<byte>>, keys: seq<Option<Key>>): (b: seq<byte>) {
    if pings == [] || keys == [] then []
    else
      (if keys[0].Some? then FrameBytes(OP_PONG, pings[0], keys[0]) else [])
      + Pongs(pings[1..], keys[1..])
  }

  // ----- The client as written --------------------------------------------------------

  class ControlWsClient {
    const codec: Codec
    const reader: Source
    const writer: Sink
    var nextId: nat

    constructor (codec: Codec, incoming: seq<byte>)
      ensures fresh(reader) && fresh(writer) && reader.pending == incoming && writer.written == []
      ensures this.codec == codec && nextId == 0
    {
      this.codec := codec;
      reader := new Source(incoming);
      writer := new Sink();
      nextId := 0;
    }

    /**
     The id is used up even when nothing is sent. `key` is the request's mask key and
     `keys` those of the pongs in turn (enough of them), None where none can be drawn.
     */
    method Request(op: string, key: Option<Key>, keys: seq<Option<Key>>) returns (result: Result<seq<byte>, Failure>)
      requires |Await(codec, Itoa(nextId + 1), reader.pending).pings| <= |keys|
      modifies this, reader, writer
      ensures nextId == old(nextId) + 1
      ensures var o, line := Await(codec, Itoa(nextId), old(reader.pending)), codec.marshal(Itoa(nextId), op);
              if line.None? || key.None? then
                && result == Err(if line.None? then MarshalFailed else NoMaskKey)
                && reader.pending == old(reader.pending) && writer.written == old(writer.written)
              else
                && result == o.result && reader.pending == o.rest
                && writer.written == old(writer.written) + FrameBytes(OP_TEXT, line.value, key) + Pongs(o.pings, keys)
    {
      nextId := nextId + 1;
      var id := Itoa(nextId);
      var line := codec.marshal(id, op);
      if line.None? {
        return Err(MarshalFailed);
      }
      if key.None? {
        return Err(NoMaskKey);
      }
      WriteFrame(writer, OP_TEXT, line.value, key);
      result := ReadReply(id, keys);
    }

    method ReadReply(id: string, keys: seq<Option<Key>>) returns (result: Result<seq<byte>, Failure>)
      requires |Await(codec, id, reader.pending).pings| <= |keys|
      modifies reader, writer
      ensures var o := Await(codec, id, old(reader.pending));
              && result == o.result && reader.pending == o.rest
              && writer.written == old(writer.written) + Pongs(o.pings, keys)
    {
      hide FrameBytes, ReadOne, Settle, Own;
      var left := keys;
      ghost var all := Await(codec, id, reader.pending);
      assert writer.written + [] == writer.written;
      while true
        invariant var o := Await(codec, id, reader.pending);
                  && o.result == all.result && o.rest == all.rest && |o.pings| <= |left|
                  && writer.written + Pongs(o.pings, left) == old(writer.written) + Pongs(all.pings, keys)
        decreases |reader.pending|
      {
        ghost var b, o, w := reader.pending, Await(codec, id, reader.pending), writer.written;
        var read := ReadFrame(reader);
        if !read.Frame? {
          assert w + Pongs([], left) == w;
          return Err(ReadFailed);
        }
        ReadShrinks(b);
        var opcode, payload := read.opcode, read.payload;
        if opcode == OP_PING {
          NotOwn(codec, id, opcode, payload);
          var pongMask := left[0];
          left := left[1..];
          if pongMask.Some? {
            WriteFrame(writer, OP_PONG, payload, pongMask);
          }
          PongStep(w, o.pings, [pongMask] + left);
        } else if opcode == OP_CLOSE {
          assert w + Pongs([], left) == w;
          return Err(ServerClosed);
        } else if opcode == OP_TEXT {
          var env := codec.parse(payload);
          TextOwn(codec, id, payload);
          if env.Some? && env.value.event == "" && env.value.id == id {
            assert w + Pongs([], left) == w;
            return ReplyResult(env.value);
          }
        } else {
          NotOwn(codec, id, opcode, payload);
        }
      }
    }
  }

  function ReplyResult(env: Envelope): (r: Result<seq<byte>, Failure>)
    ensures r == Settle(env)
  {
    if env.ok == Some(false) then
      if env.error.Some? then Err(Refused(env.error)) else Err(Refused(None))
    else Ok(env.result)
  }

  lemma NotOwn(c: Codec, id: string, opcode: byte, payload: seq<byte>)
    requires opcode != OP_TEXT
    ensures !Own(c, id, (opcode, payload))
  {
  }

  lemma TextOwn(c: Codec, id: string, payload: seq<byte>)
    ensures var env := c.parse(payload);
            Own(c, id, (OP_TEXT, payload)) <==> env.Some? && env.value.event == "" && env.value.id == id
  {
  }

  lemma PongStep(w: seq<byte>, pings: seq<seq<byte>>, keys: seq<Option<Key>>)
    requires pings != [] && keys != []
    ensures w + Pongs(pings, keys)
         == w + (if keys[0].Some? then FrameBytes(OP_PONG, pings[0], keys[0]) else []) + Pongs(pings[1..], keys[1..])
  {
    hide FrameBytes;
  }

  // ----- What the loop returns -----------------------------------------------------------

  function FrameOf(m: Message): (f: (byte, seq<byte>)) {
    (m.opcode, m.payload)
  }

  /** The payloads of the pings among `ms`, in order. */
  function PingsOf(ms: seq<Message>): (p: seq<seq<byte>>) {
    if ms == [] then []
    else (if ms[0].opcode == OP_PING then [ms[0].payload] else []) + PingsOf(ms[1..])
  }

  /** The first frame the loop does not pass over; |ms| when it passes over all. */
  function FirstStop(c: Codec, id: string, ms: seq<Message>): (k: nat)
    ensures k <= |ms| && (forall i | 0 <= i < k :: Skipped(c, id, FrameOf(ms[i])))
    ensures k < |ms| ==> !Skipped(c, id, FrameOf(ms[k]))
  {
    if ms == [] || !Skipped(c, id, FrameOf(ms[0])) then 0 else 1 + FirstStop(c, id, ms[1..])
  }

  lemma AwaitFirst(c: Codec, id: string, m: Message, rest: seq<byte>)
    requires m.opcode < 16 && |m.payload| < TWO_64
    ensures var b := FrameBytes(m.opcode, m.payload, m.mask) + rest;
            Await(c, id, b)
            == if Skipped(c, id, FrameOf(m)) then
                 var o := Await(c, id, rest);
                 if m.opcode == OP_PING then o.(pings := [m.payload] + o.pings) else o
               else if m.opcode == OP_CLOSE then Outcome(Err(ServerClosed), [], rest)
               else Outcome(Settle(c.parse(m.payload).value), [], rest)
  {
    ReadWritten(m.opcode, m.payload, m.mask, rest);
    hide FrameBytes, ReadOne, Settle;
  }

  /**
   On any written stream the loop passes over frames up to the first close or own
   reply, pongs exactly the pings among them, and returns that reply; with neither
   it reads to the end and fails.
   */
  lemma {:induction false} AwaitStream(c: Codec, id: string, ms: seq<Message>, rest: seq<byte>)
    requires Writable(ms) && FirstStop(c, id, ms) < |ms|
    ensures var k := FirstStop(c, id, ms);
            Await(c, id, Stream(ms) + rest)
            == Outcome(if ms[k].opcode == OP_CLOSE then Err(ServerClosed) else Settle(c.parse(ms[k].payload).value),
                       PingsOf(ms[..k]), Stream(ms[k + 1..]) + rest)
  {
    hide FrameBytes, Await, Settle, Skipped, Writable;
    var m, more := ms[0], ms[1..];
    FirstWritable(ms);
    AwaitFirst(c, id, m, Stream(more) + rest);
    assert Stream(ms) + rest == FrameBytes(m.opcode, m.payload, m.mask) + (Stream(more) + rest);
    var k := FirstStop(c, id, ms);
    if k == 0 {
      assert ms[..0] == [];
      StopsHere(c, id, m);
    } else {
      AwaitStream(c, id, more, rest);
      assert ms[..k][1..] == more[..k - 1] && ms[k + 1..] == more[k..];
    }
  }

  lemma StopsHere(c: Codec, id: string, m: Message)
    requires !Skipped(c, id, FrameOf(m))
    ensures m.opcode == OP_CLOSE || Own(c, id, FrameOf(m))
  {
  }

  lemma {:induction false} AwaitInVain(c: Codec, id: string, ms: seq<Message>)
    requires Writable(ms) && FirstStop(c, id, ms) == |ms|
    ensures Await(c, id, Stream(ms)) == Outcome(Err(ReadFailed), PingsOf(ms), [])
  {
    if ms != [] {
      hide FrameBytes, Await, Settle, Skipped, Writable;
      FirstWritable(ms);
      AwaitFirst(c, id, ms[0], Stream(ms[1..]));
      AwaitInVain(c, id, ms[1..]);
    }
  }

  /** Whatever comes in, an answer is the settlement of a frame that bears this id and is no event. */
  lemma {:induction false} AnswerIsOwn(c: Codec, id: string, b: seq<byte>)
    requires var r := Await(c, id, b).result; r.Ok? || r.error.Refused?
    ensures exists payload :: Own(c, id, (OP_TEXT, payload)) && Await(c, id, b).result == Settle(c.parse(payload).value)
    decreases |b|
  {
    var r := ReadOne(b);
    if r.opcode != OP_CLOSE && !Own(c, id, (r.opcode, r.payload)) {
      ReadShrinks(b);
      AnswerIsOwn(c, id, r.rest);
    } else {
      assert Own(c, id, (OP_TEXT, r.payload));
    }
  }

  /** The reply to another request of this connection is passed over. */
  lemma StaleReplySkipped(c: Codec, i: nat, j: nat, f: (byte, seq<byte>))
    requires i != j && Own(c, Itoa(i), f)
    ensures Skipped(c, Itoa(j), f)
  {
    ValueOfItoa(i);
    ValueOfItoa(j);
  }

  // ----- A whole conversation ----------------------------------------------------------------

  /** The results of `n` requests numbered from `first`, and what is left unread. */
  function Converse(c: Codec, first: nat, n: nat, b: seq<byte>): (r: (seq<Result<seq<byte>, Failure>>, seq<byte>))
    decreases n
  {
    if n == 0 then ([], b)
    else
      var o := Await(c, Itoa(first), b);
      var r := Converse(c, first + 1, n - 1, o.rest);
      ([o.result] + r.0, r.1)
  }

  /** Frames the server may send for request `n`: its reply, behind anything passed over. */
  predicate Answers(c: Codec, n: nat, turn: seq<Message>) {
    && Writable(turn) && turn != []
    && FirstStop(c, Itoa(n), turn) == |turn| - 1
    && Own(c, Itoa(n), FrameOf(turn[|turn| - 1]))
  }

  function Turns(turns: seq<seq<Message>>): (b: seq<byte>) {
    if turns == [] then [] else Stream(turns[0]) + Turns(turns[1..])
  }

  /** What the last frame of a turn settles to. */
  function Replied(c: Codec, turn: seq<Message>): (r: Result<seq<byte>, Failure>) {
    if turn == [] || c.parse(turn[|turn| - 1].payload).None? then Err(ReadFailed)
    else Settle(c.parse(turn[|turn| - 1].payload).value)
  }

  function Replies(c: Codec, turns: seq<seq<Message>>): (r: seq<Result<seq<byte>, Failure>>) {
    if turns == [] then [] else [Replied(c, turns[0])] + Replies(c, turns[1..])
  }

  predicate AllAnswer(c: Codec, first: nat, turns: seq<seq<Message>>)
    decreases |turns|
  {
    turns == [] || (Answers(c, first, turns[0]) && AllAnswer(c, first + 1, turns[1..]))
  }

  lemma OneTurn(c: Codec, n: nat, turn: seq<Message>, rest: seq<byte>)
    requires Answers(c, n, turn)
    ensures var o := Await(c, Itoa(n), Stream(turn) + rest);
            o.result == Replied(c, turn) && o.rest == rest
  {
    hide Await, Stream, FirstStop, PingsOf, Settle, Own, Writable;
    var k := |turn| - 1;
    OwnIsText(c, Itoa(n), FrameOf(turn[k]));
    AwaitStream(c, Itoa(n), turn, rest);
    assert Stream(turn[k + 1..]) + rest == rest by {
      NoStream();
      assert turn[k + 1..] == [] && [] + rest == rest;
    }
  }

  /** Requests made one after the other each get their own reply, whatever precedes it in its turn. */
  lemma {:induction false} EachGetsItsOwn(c: Codec, first: nat, turns: seq<seq<Message>>)
    requires AllAnswer(c, first, turns)
    ensures Converse(c, first, |turns|, Turns(turns)) == (Replies(c, turns), [])
    decreases |turns|
  {
    hide Converse, Answers, Replied, Stream, Turns, Replies, AllAnswer;
    TurnsUnfold(c, first, turns);
    if turns != [] {
      EachGetsItsOwn(c, first + 1, turns[1..]);
      FirstTurn(c, first, |turns|, turns[0], Turns(turns[1..]), Replies(c, turns[1..]));
    }
  }

  lemma TurnsUnfold(c: Codec, first: nat, turns: seq<seq<Message>>)
    ensures turns == [] ==> Converse(c, first, 0, Turns(turns)) == (Replies(c, turns), [])
    ensures turns != [] ==>
              && Turns(turns) == Stream(turns[0]) + Turns(turns[1..])
              && Replies(c, turns) == [Replied(c, turns[0])] + Replies(c, turns[1..])
              && AllAnswer(c, first, turns) == (Answers(c, first, turns[0]) && AllAnswer(c, first + 1, turns[1..]))
  {
    hide Answers, Replied, Stream, Await;
  }

  lemma FirstTurn(c: Codec, first: nat, n: nat, turn: seq<Message>, rest: seq<byte>,
                  replies: seq<Result<seq<byte>, Failure>>)
    requires n > 0 && Answers(c, first, turn) && Converse(c, first + 1, n - 1, rest) == (replies, [])
    ensures Converse(c, first, n, Stream(turn) + rest) == ([Replied(c, turn)] + replies, [])
  {
    hide Converse, Answers, Replied, Stream, Await;
    OneTurn(c, first, turn, rest);
    ConverseStep(c, first, n, Stream(turn) + rest);
  }

  lemma ConverseStep(c: Codec, first: nat, n: nat, b: seq<byte>)
    requires n > 0
    ensures var o := Await(c, Itoa(first), b);
            var r := Converse(c, first + 1, n - 1, o.rest);
            Converse(c, first, n, b) == ([o.result] + r.0, r.1)
  {
    hide Await;
  }

  lemma OwnIsText(c: Codec, id: string, f: (byte, seq<byte>))
    requires Own(c, id, f)
    ensures f.0 == OP_TEXT && c.parse(f.1).Some?
  {
  }

  lemma NoStream()
    ensures Stream([]) == []
  {
  }
}
