/**
 A wire as `Session` asks for: what is proved of good wires is proved of something. Texts name their
 kind and mark every byte of the id, so that the end of the id can be told, and the body follows.
 */
module SomeWire {
  import opened Wrappers
  import opened Bytes
  import opened Json
  import opened NoiseCodec
  import opened Session
  import opened SessionBlocked

  function Mark(id: seq<byte>): (r: seq<byte>)
  {
    if id == [] then [0] else [1, id[0]] + Mark(id[1..])
  }

  /** The id that the marked bytes at the front stand for, and what follows them. */
  function Unmark(text: seq<byte>): (r: Option<(seq<byte>, seq<byte>)>)
  {
    if text == [] then None
    else if text[0] == 0 then Some(([], text[1..]))
    else if |text| == 1 then None
    else
      match Unmark(text[2..])
      case None => None
      case Some((id, rest)) => Some(([text[1]] + id, rest))
  }

  lemma {:induction false} UnmarkOfMark(id: seq<byte>, rest: seq<byte>)
    ensures Unmark(Mark(id) + rest) == Some((id, rest))
  {
    var text := Mark(id) + rest;
    if id == [] {
      assert text[1..] == rest;
    } else {
      UnmarkOfMark(id[1..], rest);
      assert text[2..] == Mark(id[1..]) + rest;
      assert [id[0]] + id[1..] == id;
    }
  }

  function WriteText(kind: Kind, id: seq<byte>, body: seq<byte>): (r: seq<byte>)
    ensures r != []
  {
    [if kind.Tts? then 0 else 1] + (Mark(id) + body)
  }

  function ReadText(text: seq<byte>): (r: Option<(Kind, seq<byte>, seq<byte>)>)
  {
    if text == [] then None
    else
      match Unmark(text[1..])
      case None => None
      case Some((id, body)) => Some((if text[0] == 0 then Tts else Asr, id, body))
  }

  lemma ReadOfWritten(kind: Kind, id: seq<byte>, body: seq<byte>)
    ensures ReadText(WriteText(kind, id, body)) == Some((kind, id, body))
  {
    UnmarkOfMark(id, body);
    assert WriteText(kind, id, body)[1..] == Mark(id) + body;
  }

  function WriteRequest(q: Request): (r: seq<byte>)
  {
    WriteText(q.kind, q.id, q.body)
  }

  function ReadRequest(text: seq<byte>): (r: Option<Request>)
  {
    match ReadText(text)
    case None => None
    case Some((kind, id, body)) => Some(Request(kind, id, body))
  }

  function WriteResponse(a: Response): (r: seq<byte>)
  {
    WriteText(a.kind, a.id, a.body)
  }

  function ReadResponse(text: seq<byte>): (r: Option<Response>)
  {
    match ReadText(text)
    case None => None
    case Some((kind, id, body)) => Some(Response(kind, id, body))
  }

  /** A message is its blob and eight bytes around it. */
  function LengthAround(blob: seq<byte>): (r: nat)
  {
    |blob| + 8
  }

  const WIRE := Wire(Codec(WriteRequest, ReadRequest), Codec(WriteResponse, ReadResponse), LengthAround)

  /** There is a good wire. */
  lemma SomeWireIsGood()
    ensures GoodWire(WIRE)
  {
    forall q: Request
      ensures WIRE.requests.read(WIRE.requests.write(q)) == Some(q) && WIRE.requests.write(q) != []
    {
      ReadOfWritten(q.kind, q.id, q.body);
    }
    forall a: Response
      ensures WIRE.responses.read(WIRE.responses.write(a)) == Some(a) && WIRE.responses.write(a) != []
    {
      ReadOfWritten(a.kind, a.id, a.body);
    }
  }

  lemma {:induction false} MarkLength(id: seq<byte>)
    ensures |Mark(id)| == 2 * |id| + 1
  {
    if id != [] {
      MarkLength(id[1..]);
    }
  }

  lemma CanSendText(key: Key, nonce: nat, kind: Kind, id: seq<byte>, body: seq<byte>)
    requires |id| == 16 && |body| < 0x1000_0000 && nonce < MAX_NONCE - 0x1_0000
    ensures CanSend(WIRE, key, nonce, WriteText(kind, id, body))
  {
    hide EncryptBlob;
    var plain := WriteText(kind, id, body);
    MarkLength(id);
    assert |plain| < 0x1000_0100;
    assert ChunkCount(|plain|) < 0x1_0000;
    BlobLength(key, nonce, plain);
  }

  /** On it, a request and an answer of up to a quarter of a gigabyte are exchanged over a fresh session. */
  lemma SomeExchange(sid: SessionId, clientKey: Key, workerKey: Key, q: Request, body: seq<byte>)
    returns (actions: seq<Action>)
    requires |q.id| == 16 && |q.body| < 0x1000_0000 && |body| < 0x1000_0000
    ensures var p := Pair(Conn(sid, clientKey, workerKey, 0, 0, []), Transport(workerKey, clientKey, 0, 0));
            Sound(WIRE, p) && Answers(WIRE, p, actions, q, body)
  {
    hide CanSend, ActAll, WriteText;
    var p := Pair(Conn(sid, clientKey, workerKey, 0, 0, []), Transport(workerKey, clientKey, 0, 0));
    SomeWireIsGood();
    NewPair(WIRE, sid, clientKey, workerKey);
    CanSendText(clientKey, 0, q.kind, q.id, q.body);
    CanSendText(workerKey, 0, q.kind, q.id, body);
    actions := AliveCanExchange(WIRE, p, q, body);
  }
}
