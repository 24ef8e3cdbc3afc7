/**
 The two ends of the request protocol as they run: the worker's handler of one stream, over the
 server it shares with its other connections, and the client's calls. Here one stream is served at a
 time; `Session` has them interleave.
 */
module QuicWorker {
  import opened Wrappers
  import opened Bytes
  import opened NoiseCodec
  import opened Noise
  import opened Attestation
  import S = Session

  datatype Health = Health(speechOk: bool, llmOk: bool, uptime: nat)

  datatype Message =
    | AttestationRequest
    | AttestationReply(bundle: Bundle)
    | NoiseHandshake(hello: ClientHello)
    | NoiseHandshakeResponse(handshake: ServerHello, sessionId: SessionId)
    | EncryptedRequest(kind: S.Kind, blob: seq<byte>)
    | EncryptedResponse(kind: S.Kind, blob: seq<byte>)
    | JobNotify(blob: seq<byte>)
    | HealthRequest
    | HealthReply(health: Health)

  datatype ProtocolError = NoSession | Crypto(error: NoiseError) | BadJson | StreamClosed | UnexpectedResponse

  /** What a stream meets on the worker's side: the hash, the speech service, its health, and the random draws. */
  datatype Host = Host(hash: Hash, insecureQuote: seq<byte>, service: S.Request -> seq<byte>, health: Health,
                       ephemeral: Key, id: SessionId)

  /** The request in a blob, if it opens, parses, and is of the announced kind. */
  function RequestIn(w: S.Wire, kind: S.Kind, d: Decoded): (r: Result<S.Request, ProtocolError>)
  {
    match d.result
    case Err(e) => Err(Crypto(NoiseError.Codec(e)))
    case Ok(plain) =>
      match w.requests.read(plain)
      case Some(q) => if q.kind == kind then Ok(q) else Err(BadJson)
      case None => Err(BadJson)
  }

  /** The text of the answer to a request. */
  function AnswerTo(w: S.Wire, q: S.Request, service: S.Request -> seq<byte>): (r: seq<byte>)
  {
    w.responses.write(S.Response(q.kind, q.id, service(q)))
  }

  class WorkerConnection {
    const noise: NoiseServer
    var sessionId: Option<SessionId>

    ghost predicate Valid()
      reads this, noise, noise.sessions.Values
    {
      noise.Valid()
    }

    constructor (noise: NoiseServer)
      requires noise.Valid()
      ensures Valid() && this.noise == noise && sessionId == None
    {
      this.noise, sessionId := noise, None;
    }

    /**
     One stream: a handshake opens a session; a request is opened, served and answered with its own
     id under the session's next nonces, or refused with only what was opened consumed; questions for
     the attestation and the health are answered; anything else, a job notification among them, is
     dropped. Only handshakes and requests change anything.
     */
    method HandleStream(w: S.Wire, msg: Message, host: Host)
      returns (r: Result<Option<Message>, ProtocolError>)
      requires Valid()
      modifies this, noise, noise.sessions.Values
      ensures Valid()
      ensures msg.NoiseHandshake? ==>
                && r == (if msg.hello.serverStatic == noise.staticKey
                         then Ok(Some(NoiseHandshakeResponse(ServerHello(msg.hello.ephemeral, host.ephemeral),
                                                             host.id)))
                         else Err(Crypto(HandshakeFailed)))
                && sessionId == (if r.Ok? then Some(host.id) else old(sessionId))
                && (if r.Ok?
                    then && host.id in noise.sessions && fresh(noise.sessions[host.id])
                         && noise.sessions == old(noise.sessions)[host.id := noise.sessions[host.id]]
                         && var t := noise.sessions[host.id];
                         && t.sendKey == host.ephemeral && t.recvKey == msg.hello.ephemeral
                         && t.sendNonce == 0 && t.recvNonce == 0
                    else noise.sessions == old(noise.sessions))
      ensures !msg.NoiseHandshake? ==> sessionId == old(sessionId) && noise.sessions == old(noise.sessions)
      ensures msg.AttestationRequest? ==>
                r == Ok(Some(AttestationReply(Generate(host.hash, host.insecureQuote, noise.staticKey))))
      ensures msg.HealthRequest? ==> r == Ok(Some(HealthReply(host.health)))
      ensures !msg.AttestationRequest? && !msg.HealthRequest? && !msg.NoiseHandshake? && !msg.EncryptedRequest? ==>
                r == Ok(None)
      ensures msg.EncryptedRequest? && sessionId == None ==> r == Err(NoSession)
      ensures msg.EncryptedRequest? && sessionId.Some? && sessionId.value !in noise.sessions ==>
                r == Err(Crypto(SessionNotFound))
      ensures msg.EncryptedRequest? && sessionId.Some? && sessionId.value in noise.sessions ==>
                var t := noise.sessions[sessionId.value];
                var d := DecryptBlob(t.recvKey, old(t.recvNonce), msg.blob);
                && t.recvNonce == d.nonce
                && match RequestIn(w, msg.kind, d)
                   case Err(e) => r == Err(e) && t.sendNonce == old(t.sendNonce)
                   case Ok(q) =>
                     var answer := AnswerTo(w, q, host.service);
                     if old(t.sendNonce) + ChunkCount(|answer|) <= MAX_NONCE
                     then r == Ok(Some(EncryptedResponse(msg.kind, EncryptBlob(t.sendKey, old(t.sendNonce), answer))))
                          && t.sendNonce == old(t.sendNonce) + ChunkCount(|answer|)
                     else r == Err(Crypto(NoiseError.Codec(NonceExhausted))) && t.sendNonce == MAX_NONCE
      ensures msg.EncryptedRequest? && sessionId.Some? && sessionId.value in noise.sessions ==>
                var t := noise.sessions[sessionId.value];
                match DecryptBlob(t.recvKey, old(t.recvNonce), msg.blob).result
                case Err(e) => r == Err(Crypto(NoiseError.Codec(e)))
                case Ok(plain) =>
                  && (w.requests.read(plain).None? || w.requests.read(plain).value.kind != msg.kind ==>
                        r == Err(BadJson))
                  && (r.Ok? ==> r.value.Some? && r.value.value.EncryptedResponse? && r.value.value.kind == msg.kind)
      ensures forall s :: s in old(noise.sessions) && (msg.EncryptedRequest? ==> Some(s) != sessionId) ==>
                old(noise.sessions)[s].sendNonce == old(noise.sessions[s].sendNonce)
                && old(noise.sessions)[s].recvNonce == old(noise.sessions[s].recvNonce)
    {
      hide DecryptBlob, EncryptBlob, ChunkCount;
      match msg
      case NoiseHandshake(hello) =>
        var answer := noise.ProcessHandshake(hello, host.ephemeral, host.id);
        if answer.Err? {
          return Err(Crypto(answer.error));
        }
        sessionId := Some(answer.value.0);
        return Ok(Some(NoiseHandshakeResponse(answer.value.1, answer.value.0)));
      case EncryptedRequest(kind, blob) =>
        if sessionId.None? {
          return Err(NoSession);
        }
        var sid := sessionId.value;
        var plaintext := noise.Decrypt(sid, blob);
        if plaintext.Err? {
          return Err(Crypto(plaintext.error));
        }
        var request := w.requests.read(plaintext.value);
        if request.None? || request.value.kind != kind {
          return Err(BadJson);
        }
        var q := request.value;
        var encrypted := noise.Encrypt(sid, w.responses.write(S.Response(q.kind, q.id, host.service(q))));
        if encrypted.Err? {
          return Err(Crypto(encrypted.error));
        }
        return Ok(Some(EncryptedResponse(kind, encrypted.value)));
      case AttestationRequest =>
        return Ok(Some(AttestationReply(Generate(host.hash, host.insecureQuote, noise.staticKey))));
      case HealthRequest =>
        return Ok(Some(HealthReply(host.health)));
      case AttestationReply(_) | NoiseHandshakeResponse(_, _) | EncryptedResponse(_, _)
         | JobNotify(_) | HealthReply(_) =>
        return Ok(None);
    }

    /** The end of the connection takes its session, and only its own, from the table. */
    method Close()
      requires Valid()
      modifies noise
      ensures Valid()
      ensures noise.sessions == if sessionId.Some? then old(noise.sessions) - {sessionId.value} else old(noise.sessions)
    {
      if sessionId.Some? {
        noise.RemoveSession(sessionId.value);
      }
    }
  }

  /** The client and the worker hold the two ends of one session, whatever their nonces. */
  ghost predicate Linked(client: NoiseClient, worker: WorkerConnection)
    reads client, client.transport, worker, worker.noise, worker.noise.sessions.Values
  {
    && client.Valid() && worker.Valid()
    && client.transport != null && worker.sessionId.Some? && worker.sessionId.value in worker.noise.sessions
    && var t := worker.noise.sessions[worker.sessionId.value];
    && client.transport !in worker.noise.sessions.Values
    && client.transport.sendKey == t.recvKey && client.transport.recvKey == t.sendKey
  }

  ghost function WorkerEnd(worker: WorkerConnection): (t: TransportState)
    requires worker.sessionId.Some? && worker.sessionId.value in worker.noise.sessions
    reads worker, worker.noise
  {
    worker.noise.sessions[worker.sessionId.value]
  }

  /**
   `connect`: the worker's own bundle is accepted, the handshake is made for the key in it, and the
   two ends come out in step, on a session drawn by the worker.
   */
  method ConnectTo(w: S.Wire, client: NoiseClient, worker: WorkerConnection, ephemeral: Key, host: Host)
    returns (r: Result<(), ProtocolError>)
    requires client.Valid() && worker.Valid()
    modifies client, worker, worker.noise, worker.noise.sessions.Values
    ensures r == Ok(()) && Linked(client, worker)
    ensures worker.sessionId == client.sessionId == Some(host.id) && InStep(client, worker.noise, host.id)
  {
    var answer := worker.HandleStream(w, AttestationRequest, host);
    var bundle := answer.value.value.bundle;
    var verified := Verify(host.hash, bundle);
    if verified.Err? {
      return Err(UnexpectedResponse);
    }
    var hello := client.InitiateHandshake(bundle.staticKey, ephemeral);
    match hello
    case Err(e) => return Err(Crypto(e));
    case Ok(message) =>
      var reply := worker.HandleStream(w, NoiseHandshake(message), host);
      if reply.Err? || reply.value.None? {
        return Err(StreamClosed);
      }
      match reply.value.value {
        case NoiseHandshakeResponse(handshake, sessionId) =>
          var established := client.CompleteHandshake(handshake, sessionId);
          match established {
            case Err(e) => return Err(Crypto(e));
            case Ok(_) => return Ok(());
          }
        case _ => return Err(UnexpectedResponse);
      }
  }

  /**
   `encrypted_tts` or `encrypted_asr`. With the two ends in step, nonces left and messages that fit a
   frame, the answer to this very request comes back and the ends are in step again. Otherwise the call
   fails, and a request that does not fit is not opened. If the worker waits for an earlier message
   than the client's next, the call fails and the worker still waits for it.
   */
  method Call(w: S.Wire, client: NoiseClient, worker: WorkerConnection, q: S.Request, host: Host)
    returns (r: Result<S.Response, ProtocolError>)
    requires S.GoodWire(w) && Linked(client, worker)
    modifies client.transport, worker, worker.noise, worker.noise.sessions.Values
    ensures Linked(client, worker) && client.transport == old(client.transport)
    ensures WorkerEnd(worker) == old(WorkerEnd(worker))
    ensures old(InStep(client, worker.noise, worker.sessionId.value))
            && S.CanSend(w, client.transport.sendKey, old(client.transport.sendNonce), w.requests.write(q))
            && S.CanSend(w, client.transport.recvKey, old(client.transport.recvNonce), AnswerTo(w, q, host.service)) ==>
              && r == Ok(S.Response(q.kind, q.id, host.service(q)))
              && InStep(client, worker.noise, worker.sessionId.value)
    ensures !S.CanSend(w, client.transport.sendKey, old(client.transport.sendNonce), w.requests.write(q)) ==>
              r.Err? && WorkerEnd(worker).recvNonce == old(WorkerEnd(worker).recvNonce)
    ensures old(InStep(client, worker.noise, worker.sessionId.value))
            && !S.CanSend(w, client.transport.recvKey, old(client.transport.recvNonce),
                          AnswerTo(w, q, host.service)) ==>
              r.Err?
    ensures old(client.transport.sendNonce) > old(WorkerEnd(worker).recvNonce) ==>
              && r.Err?
              && WorkerEnd(worker).recvNonce == old(WorkerEnd(worker).recvNonce)
              && client.transport.sendNonce > WorkerEnd(worker).recvNonce
  {
    hide DecryptBlob, EncryptBlob, ChunkCount;
    var t := client.transport;
    ghost var end := WorkerEnd(worker);
    ghost var n, m := t.sendNonce, end.sendNonce;
    var plaintext := w.requests.write(q);
    RequestArrives(w, t.sendKey, n, end.recvNonce, q);
    var ciphertext := client.Encrypt(plaintext);
    if ciphertext.Err? {
      return Err(Crypto(ciphertext.error));
    }
    if !S.Fits(w, ciphertext.value) {
      return Err(StreamClosed);
    }
    var reply := worker.HandleStream(w, EncryptedRequest(q.kind, ciphertext.value), host);
    if reply.Err? || reply.value.None? {
      return Err(StreamClosed);
    }
    match reply.value.value
    case EncryptedResponse(kind, blob) =>
      if kind != q.kind {
        return Err(UnexpectedResponse);
      }
      if !S.Fits(w, blob) {
        return Err(BadJson);
      }
      AnswerArrives(w, end.sendKey, m, q, host.service);
      var decrypted := client.Decrypt(blob);
      if decrypted.Err? {
        return Err(Crypto(decrypted.error));
      }
      match w.responses.read(decrypted.value) {
        case None => return Err(BadJson);
        case Some(response) => return Ok(response);
      }
    case _ => return Err(UnexpectedResponse);
  }

  lemma RequestArrives(w: S.Wire, key: Key, nonce: nat, waiting: nat, q: S.Request)
    requires S.GoodWire(w) && nonce <= MAX_NONCE && waiting <= MAX_NONCE
    ensures var plain := w.requests.write(q);
            S.CanSend(w, key, nonce, plain) ==>
              var d := DecryptBlob(key, waiting, EncryptBlob(key, nonce, plain));
              if nonce == waiting
              then d == Decoded(Ok(plain), nonce + ChunkCount(|plain|)) && RequestIn(w, q.kind, d) == Ok(q)
              else d.result.Err? && d.nonce == waiting
  {
    hide DecryptBlob, EncryptBlob, ChunkCount;
    var plain := w.requests.write(q);
    if S.CanSend(w, key, nonce, plain) {
      S.FittingIsCounted(w, key, nonce, plain);
      if nonce == waiting {
        DecryptOfEncrypt(key, nonce, plain, []);
        assert EncryptBlob(key, nonce, plain) + [] == EncryptBlob(key, nonce, plain) && plain[..|plain|] == plain;
      } else {
        OutOfStepRejected(key, nonce, waiting, plain);
      }
    }
  }

  lemma AnswerArrives(w: S.Wire, key: Key, nonce: nat, q: S.Request, service: S.Request -> seq<byte>)
    requires S.GoodWire(w) && nonce <= MAX_NONCE
    ensures var plain := AnswerTo(w, q, service);
            && w.responses.read(plain) == Some(S.Response(q.kind, q.id, service(q)))
            && (S.CanSend(w, key, nonce, plain) ==>
                  DecryptBlob(key, nonce, EncryptBlob(key, nonce, plain)) ==
                  Decoded(Ok(plain), nonce + ChunkCount(|plain|)))
  {
    hide DecryptBlob, EncryptBlob, ChunkCount;
    var plain := AnswerTo(w, q, service);
    if S.CanSend(w, key, nonce, plain) {
      S.FittingIsCounted(w, key, nonce, plain);
      DecryptOfEncrypt(key, nonce, plain, []);
      assert EncryptBlob(key, nonce, plain) + [] == EncryptBlob(key, nonce, plain) && plain[..|plain|] == plain;
    }
  }

  /**
   `notify_job`: the id is encrypted and dropped, so the call fails, and with an id that is not empty
   the client is ahead of the worker from then on.
   */
  method NotifyJob(w: S.Wire, client: NoiseClient, worker: WorkerConnection, jobId: seq<byte>, host: Host)
    returns (r: Result<(), ProtocolError>)
    requires Linked(client, worker)
    modifies client.transport, worker, worker.noise, worker.noise.sessions.Values
    ensures Linked(client, worker) && client.transport == old(client.transport)
    ensures r.Err? && WorkerEnd(worker) == old(WorkerEnd(worker))
    ensures WorkerEnd(worker).recvNonce == old(WorkerEnd(worker).recvNonce)
    ensures WorkerEnd(worker).sendNonce == old(WorkerEnd(worker).sendNonce)
    ensures jobId != [] && old(client.transport.sendNonce) < MAX_NONCE
            && old(client.transport.sendNonce) >= old(WorkerEnd(worker).recvNonce) ==>
              client.transport.sendNonce > WorkerEnd(worker).recvNonce
  {
    assert jobId != [] ==> ChunkCount(|jobId|) > 0;
    hide DecryptBlob, EncryptBlob, ChunkCount;
    var ciphertext := client.Encrypt(jobId);
    if ciphertext.Err? {
      return Err(Crypto(ciphertext.error));
    }
    var reply := worker.HandleStream(w, JobNotify(ciphertext.value), host);
    return Err(StreamClosed);
  }
}
