/**
 Requests over established sessions: any number of clients, each with its own connection to one
 worker, and any number of streams per connection, interleaved step by step.

 A request is sealed by the client, opened by the worker, answered, and the answer is sealed by
 the worker and opened by the client; the streams are independent, so these steps happen in any
 order. A job notification is sealed by the client too, but the worker has no arm for it and
 drops it unopened. Streams break, and callers stop waiting while the worker goes on.
 */
module Session {
  import opened Wrappers
  import opened Bytes
  import opened Json
  import opened NoiseCodec

  type RequestId = seq<byte>
  type ConnId = nat

  datatype Kind = Tts | Asr

  datatype Request = Request(kind: Kind, id: RequestId, body: seq<byte>)

  datatype Response = Response(kind: Kind, id: RequestId, body: seq<byte>)

  /** How requests and responses are written, and how long the message is that carries a sealed one. */
  datatype Wire = Wire(requests: Codec<Request>, responses: Codec<Response>, messageLength: seq<byte> -> nat)

  /** JSON text reads back and is never empty, and a message is at least as long as the blob in it. */
  ghost predicate GoodWire(w: Wire)
  {
    && Faithful(w.requests) && Faithful(w.responses)
    && (forall q :: w.requests.write(q) != [])
    && (forall r :: w.responses.write(r) != [])
    && (forall blob :: |blob| <= w.messageLength(blob))
  }

  /**
   The message that carries the blob fits a frame. The length of a longer one is cut to 32 bits, so its
   receiver reads only its front, which is no JSON text, and gives the stream up.
   */
  predicate Fits(w: Wire, blob: seq<byte>)
  {
    w.messageLength(blob) < U32_RANGE
  }

  // ---------------------------------------------------------------------------------------------
  // State
  // ---------------------------------------------------------------------------------------------

  /** The nonces a sealed message took, and whether its receiver has opened it. */
  datatype Leg = Leg(start: nat, cost: nat, taken: bool) {
    function End(): nat { start + cost }
  }

  datatype Ask = Call(request: Request) | Notify(jobId: seq<byte>)

  datatype Reply = Reply(response: Response, leg: Leg)

  datatype Phase =
    | ToWorker(blob: seq<byte>)
    | Working(got: Request)
    | ToClient(kind: Kind, sealed: seq<byte>)
    | Done(response: Response)
    | Failed

  /** `awaited` is whether a response could still reach a caller that waits for it. */
  datatype Stream = Stream(ask: Ask, up: Leg, down: Option<Reply>, awaited: bool, phase: Phase)

  /** The client's side of a connection. */
  datatype Conn = Conn(sid: SessionId, sendKey: Key, recvKey: Key, sendNonce: nat, recvNonce: nat, streams: seq<Stream>)

  /** The worker's transport for one session. */
  datatype Transport = Transport(sendKey: Key, recvKey: Key, sendNonce: nat, recvNonce: nat)

  /** Both ends of one connection. */
  datatype Pair = Pair(conn: Conn, worker: Transport)

  function Plain(w: Wire, ask: Ask): (r: seq<byte>)
  {
    match ask
    case Call(q) => w.requests.write(q)
    case Notify(jobId) => jobId
  }

  function SetStream(c: Conn, i: nat, s: Stream): (r: Conn)
    requires i < |c.streams|
  {
    c.(streams := c.streams[i := s])
  }

  // ---------------------------------------------------------------------------------------------
  // Steps on one connection
  // ---------------------------------------------------------------------------------------------

  /** `encrypted_tts`, `encrypted_asr` and `notify_job` up to the write of their message. */
  function Open(w: Wire, c: Conn, ask: Ask): (r: Conn)
    requires c.sendNonce <= MAX_NONCE
  {
    var plain := Plain(w, ask);
    var n := ChunkCount(|plain|);
    if c.sendNonce + n <= MAX_NONCE then
      var blob := EncryptBlob(c.sendKey, c.sendNonce, plain);
      var s := Stream(ask, Leg(c.sendNonce, n, false), None, true, if Fits(w, blob) then ToWorker(blob) else Failed);
      c.(sendNonce := c.sendNonce + n, streams := c.streams + [s])
    else
      var s := Stream(ask, Leg(c.sendNonce, MAX_NONCE - c.sendNonce, false), None, true, Failed);
      c.(sendNonce := MAX_NONCE, streams := c.streams + [s])
  }

  /** `handle_stream` up to the parsed request. */
  function WorkerReads(w: Wire, p: Pair, i: nat): (r: Pair)
    requires p.worker.recvNonce <= MAX_NONCE
  {
    if i >= |p.conn.streams| || !p.conn.streams[i].phase.ToWorker? then p
    else
      var s := p.conn.streams[i];
      if s.ask.Notify? then p.(conn := SetStream(p.conn, i, s.(phase := Failed)))
      else
        var d := DecryptBlob(p.worker.recvKey, p.worker.recvNonce, s.phase.blob);
        var phase := if d.result.Err? then Failed
                     else match w.requests.read(d.result.value)
                          case Some(q) => if q.kind == s.ask.request.kind then Working(q) else Failed
                          case None => Failed;
        var s' := s.(up := s.up.(taken := d.result.Ok?), phase := phase);
        Pair(SetStream(p.conn, i, s'), p.worker.(recvNonce := d.nonce))
  }

  /**
   The rest of `handle_stream`, once the speech service has produced `body`. The handler is a task of its
   own: it seals the response whether or not anyone waits for it.
   */
  function WorkerAnswers(w: Wire, p: Pair, i: nat, body: seq<byte>): (r: Pair)
    requires p.worker.sendNonce <= MAX_NONCE
  {
    if i >= |p.conn.streams| || !p.conn.streams[i].phase.Working? then p
    else
      var s := p.conn.streams[i];
      var q := s.phase.got;
      var response := Response(q.kind, q.id, body);
      var plain := w.responses.write(response);
      var n := ChunkCount(|plain|);
      var start := p.worker.sendNonce;
      if start + n <= MAX_NONCE then
        var sealed := EncryptBlob(p.worker.sendKey, start, plain);
        var phase := if s.awaited && Fits(w, sealed) then ToClient(q.kind, sealed) else Failed;
        var s' := s.(down := Some(Reply(response, Leg(start, n, false))), phase := phase);
        Pair(SetStream(p.conn, i, s'), p.worker.(sendNonce := start + n))
      else
        var s' := s.(down := Some(Reply(response, Leg(start, MAX_NONCE - start, false))), phase := Failed);
        Pair(SetStream(p.conn, i, s'), p.worker.(sendNonce := MAX_NONCE))
  }

  /** The rest of `encrypted_tts` or `encrypted_asr`: a response of the other kind is not opened. */
  function ClientReads(w: Wire, c: Conn, i: nat): (r: Conn)
    requires c.recvNonce <= MAX_NONCE
  {
    if i >= |c.streams| || !c.streams[i].phase.ToClient? || c.streams[i].down.None? then c
    else
      var s := c.streams[i];
      if s.ask.Notify? || s.phase.kind != s.ask.request.kind then SetStream(c, i, s.(phase := Failed))
      else
        var d := DecryptBlob(c.recvKey, c.recvNonce, s.phase.sealed);
        var phase := if d.result.Err? then Failed
                     else match w.responses.read(d.result.value)
                          case Some(r) => Done(r)
                          case None => Failed;
        var leg := s.down.value.leg.(taken := d.result.Ok?);
        SetStream(c.(recvNonce := d.nonce), i, s.(down := Some(s.down.value.(leg := leg)), phase := phase))
  }

  /** The stream breaks: a message on its way does not arrive, and a response still to come will not. */
  function Lose(c: Conn, i: nat): (r: Conn)
  {
    if i >= |c.streams| || c.streams[i].phase.Done? then c
    else if c.streams[i].phase.Working? then SetStream(c, i, c.streams[i].(awaited := false))
    else SetStream(c, i, c.streams[i].(phase := Failed))
  }

  /** The caller stops waiting: a request on its way still arrives, but the response is not read any more. */
  function GiveUp(c: Conn, i: nat): (r: Conn)
  {
    if i >= |c.streams| || c.streams[i].phase.Done? then c
    else if c.streams[i].phase.ToClient? then SetStream(c, i, c.streams[i].(phase := Failed))
    else SetStream(c, i, c.streams[i].(awaited := false))
  }

  datatype Action =
    | Ask(ask: Ask)
    | Read(i: nat)
    | Answer(j: nat, body: seq<byte>)
    | Receive(k: nat)
    | Break(l: nat)
    | StopWaiting(m: nat)

  function Act(w: Wire, p: Pair, a: Action): (r: Pair)
    requires NoncesInRange(p)
  {
    match a
    case Ask(ask) => p.(conn := Open(w, p.conn, ask))
    case Read(i) => WorkerReads(w, p, i)
    case Answer(i, body) => WorkerAnswers(w, p, i, body)
    case Receive(i) => p.(conn := ClientReads(w, p.conn, i))
    case Break(i) => p.(conn := Lose(p.conn, i))
    case StopWaiting(i) => p.(conn := GiveUp(p.conn, i))
  }

  // ---------------------------------------------------------------------------------------------
  // What every step keeps
  // ---------------------------------------------------------------------------------------------

  predicate NoncesInRange(p: Pair)
  {
    && p.conn.sendNonce <= MAX_NONCE && p.conn.recvNonce <= MAX_NONCE
    && p.worker.sendNonce <= MAX_NONCE && p.worker.recvNonce <= MAX_NONCE
  }

  /** A message's nonces lie below the receiver's once it is opened, and not below it before. */
  predicate LegInv(leg: Leg, sender: nat, receiver: nat)
  {
    && leg.End() <= sender
    && (leg.taken ==> leg.cost > 0 && leg.End() <= receiver)
    && (!leg.taken && leg.cost > 0 ==> receiver <= leg.start)
  }

  ghost predicate StreamInv(w: Wire, p: Pair, s: Stream)
  {
    && LegInv(s.up, p.conn.sendNonce, p.worker.recvNonce)
    && (s.down.Some? ==>
          && s.ask.Call? && s.up.taken
          && LegInv(s.down.value.leg, p.worker.sendNonce, p.conn.recvNonce)
          && s.down.value.response.kind == s.ask.request.kind && s.down.value.response.id == s.ask.request.id)
    && match s.phase
       case ToWorker(blob) =>
         && !s.up.taken && s.down.None?
         && s.up.cost == ChunkCount(|Plain(w, s.ask)|) && s.up.End() <= MAX_NONCE
         && blob == EncryptBlob(p.conn.sendKey, s.up.start, Plain(w, s.ask)) && Fits(w, blob)
       case Working(got) => s.up.taken && s.down.None? && s.ask == Call(got)
       case ToClient(kind, sealed) =>
         && s.down.Some? && s.ask.Call? && kind == s.ask.request.kind
         && var reply := s.down.value;
         && !reply.leg.taken
         && reply.leg.cost == ChunkCount(|w.responses.write(reply.response)|) && reply.leg.End() <= MAX_NONCE
         && sealed == EncryptBlob(p.worker.sendKey, reply.leg.start, w.responses.write(reply.response))
         && Fits(w, sealed)
       case Done(r) => s.down.Some? && s.down.value.leg.taken && s.down.value.response == r
       case Failed => true
  }

  predicate Disjoint(a: Leg, b: Leg)
  {
    a.End() <= b.start || b.End() <= a.start
  }

  ghost predicate PairInv(w: Wire, p: Pair)
  {
    && NoncesInRange(p)
    && p.worker.recvNonce <= p.conn.sendNonce && p.conn.recvNonce <= p.worker.sendNonce
    && p.conn.sendKey == p.worker.recvKey && p.conn.recvKey == p.worker.sendKey
    && (forall i :: 0 <= i < |p.conn.streams| ==> StreamInv(w, p, p.conn.streams[i]))
    && (forall i, j :: 0 <= i < j < |p.conn.streams| ==> p.conn.streams[i].up.End() <= p.conn.streams[j].up.start)
    && (forall i, j :: 0 <= i < j < |p.conn.streams| && p.conn.streams[i].down.Some? && p.conn.streams[j].down.Some? ==>
          Disjoint(p.conn.streams[i].down.value.leg, p.conn.streams[j].down.value.leg))
  }

  /** Chunks sealed by the client on these streams that the worker has not opened. */
  function UnopenedUp(ss: seq<Stream>): (r: nat)
  {
    if ss == [] then 0 else (if ss[0].up.taken then 0 else ss[0].up.cost) + UnopenedUp(ss[1..])
  }

  /** Chunks sealed by the worker on these streams that the client has not opened. */
  function UnopenedDown(ss: seq<Stream>): (r: nat)
  {
    if ss == [] then 0
    else
      (if ss[0].down.None? || ss[0].down.value.leg.taken then 0 else ss[0].down.value.leg.cost)
      + UnopenedDown(ss[1..])
  }

  /** The gap between the two ends of each direction is what was sealed and never opened. */
  ghost predicate GapInv(p: Pair)
  {
    && p.conn.sendNonce == p.worker.recvNonce + UnopenedUp(p.conn.streams)
    && p.worker.sendNonce == p.conn.recvNonce + UnopenedDown(p.conn.streams)
  }

  function UpOf(s: Stream): (r: nat)
  {
    if s.up.taken then 0 else s.up.cost
  }

  function DownOf(s: Stream): (r: nat)
  {
    if s.down.None? || s.down.value.leg.taken then 0 else s.down.value.leg.cost
  }

  lemma {:induction false} UnopenedAppend(ss: seq<Stream>, s: Stream)
    ensures UnopenedUp(ss + [s]) == UnopenedUp(ss) + UpOf(s)
    ensures UnopenedDown(ss + [s]) == UnopenedDown(ss) + DownOf(s)
  {
    if ss == [] {
      assert ss + [s] == [s] && [s][1..] == [];
    } else {
      UnopenedAppend(ss[1..], s);
      assert (ss + [s])[1..] == ss[1..] + [s];
    }
  }

  lemma {:induction false} UnopenedUpdate(ss: seq<Stream>, i: nat, s: Stream)
    requires i < |ss|
    ensures UnopenedUp(ss[i := s]) + UpOf(ss[i]) == UnopenedUp(ss) + UpOf(s)
    ensures UnopenedDown(ss[i := s]) + DownOf(ss[i]) == UnopenedDown(ss) + DownOf(s)
  {
    if i == 0 {
      assert ss[i := s][1..] == ss[1..];
    } else {
      UnopenedUpdate(ss[1..], i - 1, s);
      assert ss[i := s][1..] == ss[1..][i - 1 := s];
    }
  }

  lemma InRange(w: Wire, p: Pair)
    requires PairInv(w, p)
    ensures NoncesInRange(p)
  {
  }

  lemma SomeChunks(plain: seq<byte>)
    requires plain != []
    ensures ChunkCount(|plain|) > 0
  {
  }

  /** What is sealed in a message that fits takes at least one chunk, and so few that 32 bits count them. */
  lemma FittingIsCounted(w: Wire, key: Key, nonce: nat, plain: seq<byte>)
    requires GoodWire(w) && plain != [] && nonce + ChunkCount(|plain|) <= MAX_NONCE
    ensures ChunkCount(|plain|) > 0
    ensures Fits(w, EncryptBlob(key, nonce, plain)) ==> ChunkCount(|plain|) < U32_RANGE
  {
    hide EncryptBlob, ChunkCount;
    SomeChunks(plain);
    BlobLength(key, nonce, plain);
    assert |EncryptBlob(key, nonce, plain)| <= w.messageLength(EncryptBlob(key, nonce, plain));
  }

  /** The worker opens a pending request exactly when it is the one its receive nonce waits for. */
  lemma WorkerOpensExactlyTheNext(w: Wire, p: Pair, i: nat)
    requires GoodWire(w) && PairInv(w, p)
    requires i < |p.conn.streams| && p.conn.streams[i].phase.ToWorker? && p.conn.streams[i].ask.Call?
    ensures var s := p.conn.streams[i];
            var after := WorkerReads(w, p, i);
            if s.up.start == p.worker.recvNonce
            then after.conn == SetStream(p.conn, i, s.(up := s.up.(taken := true), phase := Working(s.ask.request)))
                 && after.worker == p.worker.(recvNonce := s.up.End())
            else after.conn == SetStream(p.conn, i, s.(phase := Failed)) && after.worker == p.worker
  {
    hide DecryptBlob, EncryptBlob, ChunkCount;
    var s := p.conn.streams[i];
    var plain := Plain(w, s.ask);
    assert StreamInv(w, p, s);
    FittingIsCounted(w, p.conn.sendKey, s.up.start, plain);
    if s.up.start == p.worker.recvNonce {
      DecryptOfEncrypt(p.worker.recvKey, s.up.start, plain, []);
      assert s.phase.blob + [] == s.phase.blob && plain[..|plain|] == plain;
    } else {
      OutOfStepRejected(p.worker.recvKey, s.up.start, p.worker.recvNonce, plain);
    }
  }

  lemma ClientOpensExactlyTheNext(w: Wire, p: Pair, i: nat)
    requires GoodWire(w) && PairInv(w, p)
    requires i < |p.conn.streams| && p.conn.streams[i].phase.ToClient?
    ensures var s := p.conn.streams[i];
            s.down.Some?
            && var reply := s.down.value;
            var after := ClientReads(w, p.conn, i);
            if reply.leg.start == p.conn.recvNonce
            then after == SetStream(p.conn.(recvNonce := reply.leg.End()), i,
                                    s.(down := Some(reply.(leg := reply.leg.(taken := true))),
                                       phase := Done(reply.response)))
            else after == SetStream(p.conn, i, s.(phase := Failed))
  {
    hide DecryptBlob, EncryptBlob, ChunkCount;
    var s := p.conn.streams[i];
    assert StreamInv(w, p, s);
    var reply := s.down.value;
    var plain := w.responses.write(reply.response);
    FittingIsCounted(w, p.worker.sendKey, reply.leg.start, plain);
    if reply.leg.start == p.conn.recvNonce {
      DecryptOfEncrypt(p.conn.recvKey, reply.leg.start, plain, []);
      assert s.phase.sealed + [] == s.phase.sealed && plain[..|plain|] == plain;
    } else {
      OutOfStepRejected(p.conn.recvKey, reply.leg.start, p.conn.recvNonce, plain);
    }
  }

  lemma AskedStream(w: Wire, p: Pair, ask: Ask)
    requires PairInv(w, p)
    ensures var c := Open(w, p.conn, ask);
            && |c.streams| == |p.conn.streams| + 1
            && var s := c.streams[|p.conn.streams|];
            && c == p.conn.(sendNonce := s.up.End(), streams := p.conn.streams + [s])
            && s.up.start == p.conn.sendNonce && s.up.End() <= MAX_NONCE && !s.up.taken && s.down.None?
            && StreamInv(w, p.(conn := c), s)
  {
    hide DecryptBlob, EncryptBlob, ChunkCount, Plain;
    var c := Open(w, p.conn, ask);
    var s := c.streams[|p.conn.streams|];
    var plain := Plain(w, ask);
    assert s.up.start == p.conn.sendNonce;
    if p.conn.sendNonce + ChunkCount(|plain|) <= MAX_NONCE && !s.phase.Failed? {
      assert s.phase == ToWorker(EncryptBlob(c.sendKey, s.up.start, plain));
    } else {
      assert s.phase == Failed;
    }
  }

  lemma AskKeeps(w: Wire, p: Pair, ask: Ask)
    requires PairInv(w, p)
    ensures var p' := Act(w, p, Action.Ask(ask)); PairInv(w, p') && (GapInv(p) ==> GapInv(p'))
  {
    hide DecryptBlob, EncryptBlob, ChunkCount, Plain, Open;
    var p' := Act(w, p, Action.Ask(ask));
    var n := |p.conn.streams|;
    AskedStream(w, p, ask);
    var s := p'.conn.streams[n];
    UnopenedAppend(p.conn.streams, s);
    forall i | 0 <= i < n
      ensures StreamInv(w, p', p'.conn.streams[i]) && p'.conn.streams[i].up.End() <= s.up.start
    {
      assert StreamInv(w, p, p.conn.streams[i]);
    }
  }

  /** A step that replaces one stream, and at most raises nonces, keeps the invariant if that stream is fine. */
  lemma ReplaceKeeps(w: Wire, p: Pair, p': Pair, i: nat, s: Stream)
    requires PairInv(w, p) && NoncesInRange(p')
    requires p'.worker.recvNonce <= p'.conn.sendNonce && p'.conn.recvNonce <= p'.worker.sendNonce
    requires i < |p.conn.streams|
    requires p'.conn == p.conn.(recvNonce := p'.conn.recvNonce, streams := p.conn.streams[i := s])
    requires p'.worker == p.worker.(sendNonce := p'.worker.sendNonce, recvNonce := p'.worker.recvNonce)
    requires s.up.start == p.conn.streams[i].up.start && s.up.cost == p.conn.streams[i].up.cost
    requires StreamInv(w, p', s)
    requires forall j :: 0 <= j < |p.conn.streams| && j != i ==> StreamInv(w, p', p.conn.streams[j])
    requires s.down.Some? ==>
               forall j :: 0 <= j < |p.conn.streams| && j != i && p.conn.streams[j].down.Some? ==>
                 Disjoint(s.down.value.leg, p.conn.streams[j].down.value.leg)
    ensures PairInv(w, p')
  {
    hide StreamInv;
    var ss := p'.conn.streams;
    forall a, b | 0 <= a < b < |ss|
      ensures ss[a].up.End() <= ss[b].up.start
      ensures ss[a].down.Some? && ss[b].down.Some? ==> Disjoint(ss[a].down.value.leg, ss[b].down.value.leg)
    {
      assert p.conn.streams[a].up.End() <= p.conn.streams[b].up.start;
      assert a != i ==> ss[a] == p.conn.streams[a];
      assert b != i ==> ss[b] == p.conn.streams[b];
    }
  }

  lemma CallsAreNotFree(w: Wire, ask: Ask)
    requires GoodWire(w) && ask.Call?
    ensures ChunkCount(|Plain(w, ask)|) > 0
  {
    SomeChunks(w.requests.write(ask.request));
  }

  /** A stream that fails, or is no longer awaited, is otherwise as it was. */
  lemma AbandonKeeps(w: Wire, p: Pair, i: nat, s': Stream)
    requires PairInv(w, p) && i < |p.conn.streams| && !p.conn.streams[i].phase.Done?
    requires var s := p.conn.streams[i]; s' == s.(phase := Failed) || s' == s.(awaited := false)
    ensures var p' := p.(conn := SetStream(p.conn, i, s')); PairInv(w, p') && (GapInv(p) ==> GapInv(p'))
  {
    hide DecryptBlob, EncryptBlob, ChunkCount, Plain;
    var p' := p.(conn := SetStream(p.conn, i, s'));
    assert StreamInv(w, p, p.conn.streams[i]);
    UnopenedUpdate(p.conn.streams, i, s');
    forall j | 0 <= j < |p.conn.streams| && j != i
      ensures StreamInv(w, p', p.conn.streams[j])
      ensures s'.down.Some? && p.conn.streams[j].down.Some? ==>
                Disjoint(s'.down.value.leg, p.conn.streams[j].down.value.leg)
    {
      assert StreamInv(w, p, p.conn.streams[j]);
    }
    ReplaceKeeps(w, p, p', i, s');
  }

  lemma OpenedKeeps(w: Wire, p: Pair, i: nat)
    requires PairInv(w, p) && i < |p.conn.streams|
    requires p.conn.streams[i].phase.ToWorker? && p.conn.streams[i].ask.Call? && p.conn.streams[i].up.cost > 0
    requires p.conn.streams[i].up.start == p.worker.recvNonce
    ensures var s := p.conn.streams[i];
            var s' := s.(up := s.up.(taken := true), phase := Working(s.ask.request));
            var p' := Pair(SetStream(p.conn, i, s'), p.worker.(recvNonce := s.up.End()));
            PairInv(w, p') && (GapInv(p) ==> GapInv(p'))
  {
    hide DecryptBlob, EncryptBlob, ChunkCount, Plain;
    var s := p.conn.streams[i];
    var s' := s.(up := s.up.(taken := true), phase := Working(s.ask.request));
    var p' := Pair(SetStream(p.conn, i, s'), p.worker.(recvNonce := s.up.End()));
    assert StreamInv(w, p, s);
    UnopenedUpdate(p.conn.streams, i, s');
    forall j | 0 <= j < |p.conn.streams| && j != i
      ensures StreamInv(w, p', p.conn.streams[j])
    {
      assert StreamInv(w, p, p.conn.streams[j]);
      assert j < i ==> p.conn.streams[j].up.End() <= s.up.start;
      assert i < j ==> s.up.End() <= p.conn.streams[j].up.start;
    }
    ReplaceKeeps(w, p, p', i, s');
  }

  lemma PendingCosts(w: Wire, p: Pair, i: nat)
    requires GoodWire(w) && PairInv(w, p) && i < |p.conn.streams| && p.conn.streams[i].ask.Call?
    ensures p.conn.streams[i].phase.ToWorker? ==> p.conn.streams[i].up.cost > 0
  {
    hide EncryptBlob, ChunkCount;
    assert StreamInv(w, p, p.conn.streams[i]);
    CallsAreNotFree(w, p.conn.streams[i].ask);
  }

  lemma ReadKeeps(w: Wire, p: Pair, i: nat)
    requires GoodWire(w) && PairInv(w, p)
    ensures var p' := WorkerReads(w, p, i); PairInv(w, p') && (GapInv(p) ==> GapInv(p'))
  {
    hide DecryptBlob, PairInv, GapInv;
    InRange(w, p);
    if i < |p.conn.streams| && p.conn.streams[i].phase.ToWorker? {
      var s := p.conn.streams[i];
      if s.ask.Notify? {
        AbandonKeeps(w, p, i, s.(phase := Failed));
      } else {
        WorkerOpensExactlyTheNext(w, p, i);
        hide WorkerReads;
        if s.up.start == p.worker.recvNonce {
          PendingCosts(w, p, i);
          OpenedKeeps(w, p, i);
        } else {
          AbandonKeeps(w, p, i, s.(phase := Failed));
        }
      }
    }
  }

  lemma AnsweredStream(w: Wire, p: Pair, i: nat, body: seq<byte>)
    requires PairInv(w, p)
    requires i < |p.conn.streams| && p.conn.streams[i].phase.Working?
    ensures var p' := WorkerAnswers(w, p, i, body);
            && |p'.conn.streams| == |p.conn.streams|
            && var s, s' := p.conn.streams[i], p'.conn.streams[i];
            && s.down.None? && s'.down.Some? && s'.up == s.up
            && var leg := s'.down.value.leg;
            && p' == Pair(SetStream(p.conn, i, s'), p.worker.(sendNonce := leg.End()))
            && leg.start == p.worker.sendNonce && leg.End() <= MAX_NONCE && !leg.taken
            && StreamInv(w, p', s')
  {
    hide DecryptBlob, EncryptBlob, ChunkCount, Plain;
    var p' := WorkerAnswers(w, p, i, body);
    var s, s' := p.conn.streams[i], p'.conn.streams[i];
    assert StreamInv(w, p, s);
    var q := s.ask.request;
    var plain := w.responses.write(Response(q.kind, q.id, body));
    var start := p.worker.sendNonce;
    assert s'.down.value.response == Response(q.kind, q.id, body);
    if start + ChunkCount(|plain|) <= MAX_NONCE && !s'.phase.Failed? {
      assert s'.phase == ToClient(q.kind, EncryptBlob(p.worker.sendKey, start, plain));
    } else {
      assert s'.phase == Failed;
    }
  }

  lemma AnswerKeeps(w: Wire, p: Pair, i: nat, body: seq<byte>)
    requires PairInv(w, p)
    ensures var p' := WorkerAnswers(w, p, i, body); PairInv(w, p') && (GapInv(p) ==> GapInv(p'))
  {
    hide DecryptBlob, EncryptBlob, ChunkCount, Plain;
    var p' := WorkerAnswers(w, p, i, body);
    if i < |p.conn.streams| && p.conn.streams[i].phase.Working? {
      hide WorkerAnswers;
      AnsweredStream(w, p, i, body);
      var s' := p'.conn.streams[i];
      UnopenedUpdate(p.conn.streams, i, s');
      forall j | 0 <= j < |p.conn.streams| && j != i
        ensures StreamInv(w, p', p.conn.streams[j])
        ensures p.conn.streams[j].down.Some? ==> Disjoint(s'.down.value.leg, p.conn.streams[j].down.value.leg)
      {
        assert StreamInv(w, p, p.conn.streams[j]);
      }
      ReplaceKeeps(w, p, p', i, s');
    }
  }

  lemma ReceivedKeeps(w: Wire, p: Pair, i: nat)
    requires PairInv(w, p) && i < |p.conn.streams| && p.conn.streams[i].phase.ToClient?
    requires p.conn.streams[i].down.Some? && p.conn.streams[i].down.value.leg.start == p.conn.recvNonce
    requires p.conn.streams[i].down.value.leg.cost > 0
    ensures var s := p.conn.streams[i];
            var reply := s.down.value;
            var s' := s.(down := Some(reply.(leg := reply.leg.(taken := true))), phase := Done(reply.response));
            var p' := p.(conn := SetStream(p.conn.(recvNonce := reply.leg.End()), i, s'));
            PairInv(w, p') && (GapInv(p) ==> GapInv(p'))
  {
    hide DecryptBlob, EncryptBlob, ChunkCount, Plain;
    var s := p.conn.streams[i];
    var reply := s.down.value;
    var s' := s.(down := Some(reply.(leg := reply.leg.(taken := true))), phase := Done(reply.response));
    var p' := p.(conn := SetStream(p.conn.(recvNonce := reply.leg.End()), i, s'));
    assert StreamInv(w, p, s);
    UnopenedUpdate(p.conn.streams, i, s');
    forall j | 0 <= j < |p.conn.streams| && j != i
      ensures StreamInv(w, p', p.conn.streams[j])
      ensures p.conn.streams[j].down.Some? ==> Disjoint(s'.down.value.leg, p.conn.streams[j].down.value.leg)
    {
      assert StreamInv(w, p, p.conn.streams[j]);
      var t := p.conn.streams[j];
      assert t.down.Some? ==> Disjoint(reply.leg, t.down.value.leg);
    }
    ReplaceKeeps(w, p, p', i, s');
  }

  lemma PendingResponseCosts(w: Wire, p: Pair, i: nat)
    requires GoodWire(w) && PairInv(w, p) && i < |p.conn.streams| && p.conn.streams[i].phase.ToClient?
    ensures p.conn.streams[i].down.Some? && p.conn.streams[i].down.value.leg.cost > 0
  {
    hide EncryptBlob, ChunkCount;
    assert StreamInv(w, p, p.conn.streams[i]);
    SomeChunks(w.responses.write(p.conn.streams[i].down.value.response));
  }

  lemma ReceiveKeeps(w: Wire, p: Pair, i: nat)
    requires GoodWire(w) && PairInv(w, p)
    ensures var p' := p.(conn := ClientReads(w, p.conn, i)); PairInv(w, p') && (GapInv(p) ==> GapInv(p'))
  {
    hide DecryptBlob, PairInv, GapInv;
    InRange(w, p);
    if i < |p.conn.streams| && p.conn.streams[i].phase.ToClient? {
      ClientOpensExactlyTheNext(w, p, i);
      PendingResponseCosts(w, p, i);
      hide ClientReads;
      if p.conn.streams[i].down.value.leg.start == p.conn.recvNonce {
        ReceivedKeeps(w, p, i);
      } else {
        AbandonKeeps(w, p, i, p.conn.streams[i].(phase := Failed));
      }
    }
  }

  lemma BreakKeeps(w: Wire, p: Pair, i: nat)
    requires PairInv(w, p)
    ensures var p' := p.(conn := Lose(p.conn, i)); PairInv(w, p') && (GapInv(p) ==> GapInv(p'))
    ensures var p' := p.(conn := GiveUp(p.conn, i)); PairInv(w, p') && (GapInv(p) ==> GapInv(p'))
  {
    hide PairInv, GapInv;
    if i < |p.conn.streams| && !p.conn.streams[i].phase.Done? {
      AbandonKeeps(w, p, i, Lose(p.conn, i).streams[i]);
      AbandonKeeps(w, p, i, GiveUp(p.conn, i).streams[i]);
    }
  }

  /** Every step, on whichever stream and in whatever order, keeps both invariants. */
  lemma ActKeeps(w: Wire, p: Pair, a: Action)
    requires GoodWire(w) && PairInv(w, p) && GapInv(p)
    ensures PairInv(w, Act(w, p, a)) && GapInv(Act(w, p, a))
  {
    hide PairInv, GapInv;
    assert NoncesInRange(p) by { InRange(w, p); }
    match a
    case Ask(ask) => AskKeeps(w, p, ask);
    case Read(i) => ReadKeeps(w, p, i);
    case Answer(i, body) => AnswerKeeps(w, p, i, body);
    case Receive(i) => ReceiveKeeps(w, p, i);
    case Break(i) => BreakKeeps(w, p, i);
    case StopWaiting(i) => BreakKeeps(w, p, i);
  }

  // ---------------------------------------------------------------------------------------------
  // Agreement between exchanges
  // ---------------------------------------------------------------------------------------------

  /** The two ends wait for each other's next message, in both directions. */
  predicate Agree(p: Pair)
  {
    p.conn.sendNonce == p.worker.recvNonce && p.worker.sendNonce == p.conn.recvNonce
  }

  predicate AllDone(ss: seq<Stream>)
  {
    forall i :: 0 <= i < |ss| ==> ss[i].phase.Done?
  }

  /** Every stream but the last is answered; the last is a call that is waited for and has not failed. */
  predicate OneAtATime(p: Pair)
  {
    var n := |p.conn.streams|;
    n > 0 ==>
      && AllDone(p.conn.streams[..n - 1])
      && var s := p.conn.streams[n - 1];
      s.ask.Call? && s.awaited && !s.phase.Failed?
  }

  lemma {:induction false} DoneMeansOpened(w: Wire, p: Pair, ss: seq<Stream>)
    requires AllDone(ss)
    requires forall s :: s in ss ==> StreamInv(w, p, s)
    ensures UnopenedUp(ss) == 0 && UnopenedDown(ss) == 0
  {
    if ss != [] {
      assert StreamInv(w, p, ss[0]);
      DoneMeansOpened(w, p, ss[1..]);
    }
  }

  /** Once every exchange is answered, the nonces agree in both directions. */
  lemma QuietMeansInStep(w: Wire, p: Pair)
    requires PairInv(w, p) && GapInv(p) && AllDone(p.conn.streams)
    ensures Agree(p)
  {
    DoneMeansOpened(w, p, p.conn.streams);
  }

  /** With one exchange at a time, the pending message is the one its receiver waits for. */
  lemma LastIsNext(w: Wire, p: Pair)
    requires GoodWire(w) && PairInv(w, p) && GapInv(p) && OneAtATime(p) && p.conn.streams != []
    ensures var s := p.conn.streams[|p.conn.streams| - 1];
            && (s.phase.ToWorker? ==> s.up.start == p.worker.recvNonce)
            && (s.phase.ToClient? ==> s.down.Some? && s.down.value.leg.start == p.conn.recvNonce)
  {
    hide EncryptBlob, ChunkCount, UnopenedUp, UnopenedDown;
    var ss := p.conn.streams;
    var s := ss[|ss| - 1];
    assert StreamInv(w, p, s);
    PendingCosts(w, p, |ss| - 1);
    if s.phase.ToClient? {
      PendingResponseCosts(w, p, |ss| - 1);
    }
    DoneMeansOpened(w, p, ss[..|ss| - 1]);
    UnopenedAppend(ss[..|ss| - 1], s);
    assert ss[..|ss| - 1] + [s] == ss;
  }

  /** There are nonces left for the text, and the message that carries it fits. */
  predicate CanSend(w: Wire, key: Key, nonce: nat, plain: seq<byte>)
  {
    nonce + ChunkCount(|plain|) <= MAX_NONCE && Fits(w, EncryptBlob(key, nonce, plain))
  }

  /** One exchange at a time: a new call only when all is answered, nothing lost, nonces left and messages that fit. */
  predicate SerialAction(w: Wire, p: Pair, a: Action)
  {
    match a
    case Ask(ask) =>
      ask.Call? && AllDone(p.conn.streams) && CanSend(w, p.conn.sendKey, p.conn.sendNonce, Plain(w, ask))
    case Answer(i, body) =>
      i < |p.conn.streams| && p.conn.streams[i].phase.Working? ==>
        var q := p.conn.streams[i].phase.got;
        CanSend(w, p.worker.sendKey, p.worker.sendNonce, w.responses.write(Response(q.kind, q.id, body)))
    case Break(_) => false
    case StopWaiting(_) => false
    case _ => true
  }

  lemma PendingIsLast(p: Pair, i: nat)
    requires OneAtATime(p) && i < |p.conn.streams| && !p.conn.streams[i].phase.Done?
    ensures i == |p.conn.streams| - 1
  {
  }

  lemma LastStays(p: Pair, p': Pair, i: nat)
    requires OneAtATime(p) && i < |p.conn.streams| && !p.conn.streams[i].phase.Done?
    requires |p'.conn.streams| == |p.conn.streams| && p'.conn.streams == p.conn.streams[i := p'.conn.streams[i]]
    requires var s := p'.conn.streams[i]; s.ask.Call? && s.awaited && !s.phase.Failed?
    ensures OneAtATime(p')
  {
    PendingIsLast(p, i);
    assert p'.conn.streams[..i] == p.conn.streams[..i];
  }

  lemma LastIsAwaited(p: Pair)
    requires OneAtATime(p) && p.conn.streams != []
    ensures var s := p.conn.streams[|p.conn.streams| - 1]; s.ask.Call? && s.awaited && !s.phase.Failed?
  {
  }

  lemma AskStaysSerial(w: Wire, p: Pair, ask: Ask)
    requires NoncesInRange(p) && SerialAction(w, p, Action.Ask(ask))
    ensures OneAtATime(Act(w, p, Action.Ask(ask)))
  {
    hide EncryptBlob, ChunkCount, Plain;
    assert Act(w, p, Action.Ask(ask)).conn.streams[..|p.conn.streams|] == p.conn.streams;
  }

  lemma SerialActionKeeps(w: Wire, p: Pair, a: Action)
    requires GoodWire(w) && PairInv(w, p) && GapInv(p) && OneAtATime(p) && SerialAction(w, p, a)
    ensures OneAtATime(Act(w, p, a))
  {
    hide EncryptBlob, DecryptBlob, ChunkCount, Plain, OneAtATime;
    var ss := p.conn.streams;
    var p' := Act(w, p, a);
    match a {
      case Ask(ask) => AskStaysSerial(w, p, ask);
      case Break(_) =>
      case StopWaiting(_) =>
      case Read(i) =>
        if i < |ss| && ss[i].phase.ToWorker? {
          PendingIsLast(p, i);
          LastIsNext(w, p);
          LastIsAwaited(p);
          WorkerOpensExactlyTheNext(w, p, i);
          LastStays(p, p', i);
        }
      case Answer(i, body) =>
        if i < |ss| && ss[i].phase.Working? {
          PendingIsLast(p, i);
          LastIsAwaited(p);
          LastStays(p, p', i);
        }
      case Receive(i) =>
        if i < |ss| && ss[i].phase.ToClient? {
          PendingIsLast(p, i);
          LastIsNext(w, p);
          LastIsAwaited(p);
          ClientOpensExactlyTheNext(w, p, i);
          LastStays(p, p', i);
        }
    }
  }

  /**
   From agreement, an exchange run to its end delivers the answer to the question and leaves the ends
   in agreement; the other streams, finished or not, are left as they were.
   */
  lemma ExchangeCompletes(w: Wire, p: Pair, q: Request, body: seq<byte>)
    requires GoodWire(w) && PairInv(w, p) && GapInv(p) && Agree(p)
    requires CanSend(w, p.conn.sendKey, p.conn.sendNonce, w.requests.write(q))
    requires CanSend(w, p.worker.sendKey, p.worker.sendNonce, w.responses.write(Response(q.kind, q.id, body)))
    ensures var i := |p.conn.streams|;
            var p1 := Act(w, p, Action.Ask(Call(q)));
            && NoncesInRange(p1)
            && var p2 := Act(w, p1, Read(i));
            && NoncesInRange(p2)
            && var p3 := Act(w, p2, Answer(i, body));
            && NoncesInRange(p3)
            && var p4 := Act(w, p3, Receive(i));
            && |p4.conn.streams| == i + 1 && p4.conn.streams[..i] == p.conn.streams
            && p4.conn.streams[i].phase == Done(Response(q.kind, q.id, body))
            && Agree(p4)
  {
    hide EncryptBlob, DecryptBlob, ChunkCount, PairInv, GapInv, StreamInv;
    var i := |p.conn.streams|;
    InRange(w, p);
    var p1 := Act(w, p, Action.Ask(Call(q)));
    ActKeeps(w, p, Action.Ask(Call(q)));
    InRange(w, p1);
    WorkerOpensExactlyTheNext(w, p1, i);
    var p2 := Act(w, p1, Read(i));
    ActKeeps(w, p1, Read(i));
    InRange(w, p2);
    var p3 := Act(w, p2, Answer(i, body));
    ActKeeps(w, p2, Answer(i, body));
    InRange(w, p3);
    ClientOpensExactlyTheNext(w, p3, i);
    var p4 := Act(w, p3, Receive(i));
    assert p4.conn.streams[..i] == p.conn.streams;
  }

  // ---------------------------------------------------------------------------------------------
  // Many clients
  // ---------------------------------------------------------------------------------------------

  /** Every client's connection, and the session table of the worker they share. */
  datatype World = World(conns: map<ConnId, Conn>, sessions: map<SessionId, Transport>)

  datatype Event =
    | Connect(c: ConnId, sid: SessionId, clientKey: Key, workerKey: Key)
    | On(c: ConnId, action: Action)
    | Disconnect(c: ConnId)

  function PairOf(s: World, c: ConnId): (r: Pair)
    requires c in s.conns && s.conns[c].sid in s.sessions
  {
    Pair(s.conns[c], s.sessions[s.conns[c].sid])
  }

  ghost predicate WorldInv(w: Wire, s: World)
  {
    && (forall c :: c in s.conns ==> s.conns[c].sid in s.sessions)
    && (forall c :: c in s.conns ==> PairInv(w, PairOf(s, c)) && GapInv(PairOf(s, c)))
    && (forall c, d :: c in s.conns && d in s.conns && c != d ==> s.conns[c].sid != s.conns[d].sid)
  }

  /** A handshake draws a session id that is not in use. */
  function Step(w: Wire, s: World, e: Event): (r: World)
  {
    match e
    case Connect(c, sid, clientKey, workerKey) =>
      if c in s.conns || sid in s.sessions then s
      else World(s.conns[c := Conn(sid, clientKey, workerKey, 0, 0, [])],
                 s.sessions[sid := Transport(workerKey, clientKey, 0, 0)])
    case On(c, a) =>
      if c !in s.conns || s.conns[c].sid !in s.sessions || !NoncesInRange(PairOf(s, c)) then s
      else
        var p := Act(w, PairOf(s, c), a);
        World(s.conns[c := p.conn], s.sessions[s.conns[c].sid := p.worker])
    case Disconnect(c) =>
      if c !in s.conns then s else World(s.conns - {c}, s.sessions - {s.conns[c].sid})
  }

  function Run(w: Wire, s: World, events: seq<Event>): (r: World)
    decreases |events|
  {
    if events == [] then s else Run(w, Step(w, s, events[0]), events[1..])
  }

  lemma ActKeepsSid(w: Wire, p: Pair, a: Action)
    requires NoncesInRange(p)
    ensures Act(w, p, a).conn.sid == p.conn.sid
  {
  }

  /** What an event does to each connection: the one it names takes the step, the others rest. */
  lemma StepOfOne(w: Wire, s: World, e: Event, c: ConnId)
    requires WorldInv(w, s) && c in s.conns
    requires e != Disconnect(c)
    ensures var s' := Step(w, s, e);
            && c in s'.conns && s'.conns[c].sid == s.conns[c].sid && s'.conns[c].sid in s'.sessions
            && PairOf(s', c) == if e.On? && e.c == c && NoncesInRange(PairOf(s, c))
                                then Act(w, PairOf(s, c), e.action) else PairOf(s, c)
  {
    hide Act, PairInv, GapInv;
    if e.On? && e.c in s.conns && NoncesInRange(PairOf(s, e.c)) {
      ActKeepsSid(w, PairOf(s, e.c), e.action);
    }
  }

  lemma NewPair(w: Wire, sid: SessionId, clientKey: Key, workerKey: Key)
    ensures var p := Pair(Conn(sid, clientKey, workerKey, 0, 0, []), Transport(workerKey, clientKey, 0, 0));
            PairInv(w, p) && GapInv(p)
  {
  }

  lemma StepKeeps(w: Wire, s: World, e: Event)
    requires GoodWire(w) && WorldInv(w, s)
    ensures WorldInv(w, Step(w, s, e))
  {
    hide Act, PairInv, GapInv;
    var s' := Step(w, s, e);
    forall c | c in s'.conns
      ensures s'.conns[c].sid in s'.sessions && PairInv(w, PairOf(s', c)) && GapInv(PairOf(s', c))
      ensures c in s.conns ==> s'.conns[c].sid == s.conns[c].sid
    {
      if c in s.conns {
        StepOfOne(w, s, e, c);
        if e.On? && e.c == c {
          ActKeeps(w, PairOf(s, c), e.action);
        }
      } else {
        NewPair(w, e.sid, e.clientKey, e.workerKey);
      }
    }
  }

  lemma {:induction false} RunKeeps(w: Wire, s: World, events: seq<Event>)
    requires GoodWire(w) && WorldInv(w, s)
    ensures WorldInv(w, Run(w, s, events))
    decreases |events|
  {
    if events != [] {
      StepKeeps(w, s, events[0]);
      RunKeeps(w, Step(w, s, events[0]), events[1..]);
    }
  }

  /**
   In every run from an empty worker, whatever the interleaving, losses and notifications: a
   delivered response answers the request of its own stream, and each direction's nonces differ by
   exactly the chunks sealed and not opened.
   */
  lemma EveryRun(w: Wire, events: seq<Event>, c: ConnId)
    requires GoodWire(w)
    requires c in Run(w, World(map[], map[]), events).conns
    ensures var s := Run(w, World(map[], map[]), events);
            && s.conns[c].sid in s.sessions
            && var p := PairOf(s, c);
            && p.conn.sendNonce - p.worker.recvNonce == UnopenedUp(p.conn.streams)
            && p.worker.sendNonce - p.conn.recvNonce == UnopenedDown(p.conn.streams)
            && forall i :: 0 <= i < |p.conn.streams| && p.conn.streams[i].phase.Done? ==>
                 && p.conn.streams[i].ask.Call?
                 && p.conn.streams[i].phase.response.kind == p.conn.streams[i].ask.request.kind
                 && p.conn.streams[i].phase.response.id == p.conn.streams[i].ask.request.id
  {
    RunKeeps(w, World(map[], map[]), events);
    var p := PairOf(Run(w, World(map[], map[]), events), c);
    forall i | 0 <= i < |p.conn.streams| && p.conn.streams[i].phase.Done?
      ensures p.conn.streams[i].ask.Call?
      ensures p.conn.streams[i].phase.response.kind == p.conn.streams[i].ask.request.kind
      ensures p.conn.streams[i].phase.response.id == p.conn.streams[i].ask.request.id
    {
      assert StreamInv(w, p, p.conn.streams[i]);
    }
  }

  /** Connection `c` stays up through the run and does one exchange at a time; the others are free. */
  predicate SerialRun(w: Wire, s: World, events: seq<Event>, c: ConnId)
    decreases |events|
  {
    events != [] ==>
      && var e := events[0];
      && e != Disconnect(c)
      && (e.On? && e.c == c && c in s.conns && s.conns[c].sid in s.sessions ==> SerialAction(w, PairOf(s, c), e.action))
      && SerialRun(w, Step(w, s, e), events[1..], c)
  }

  /** With one exchange at a time, no request of `c` ever fails, and whenever all is answered the ends agree. */
  lemma {:induction false} SerialRunNeverFails(w: Wire, s: World, events: seq<Event>, c: ConnId)
    requires GoodWire(w) && WorldInv(w, s) && c in s.conns && OneAtATime(PairOf(s, c))
    requires SerialRun(w, s, events, c)
    ensures var s' := Run(w, s, events);
            && c in s'.conns && s'.conns[c].sid in s'.sessions
            && var p := PairOf(s', c);
            && OneAtATime(p)
            && (AllDone(p.conn.streams) ==> Agree(p))
    decreases |events|
  {
    hide Act, PairInv, GapInv, OneAtATime, SerialAction;
    if events == [] {
      if AllDone(PairOf(s, c).conn.streams) {
        QuietMeansInStep(w, PairOf(s, c));
      }
    } else {
      var e := events[0];
      StepKeeps(w, s, e);
      StepOfOne(w, s, e, c);
      if e.On? && e.c == c {
        SerialActionKeeps(w, PairOf(s, c), e.action);
      }
      SerialRunNeverFails(w, Step(w, s, e), events[1..], c);
    }
  }
}
