/**
 The two ends of a Noise_NK session: the client holds at most one transport, the server a map
 from session id to transport. The key agreement itself is a stand-in: each side contributes an
 ephemeral value, and a hello made for another server's static key is refused.
 */
module Noise {
  import opened Wrappers
  import opened Bytes
  import opened NoiseCodec

  datatype NoiseError =
    | NoHandshakeInProgress
    | HandshakeFailed
    | SessionNotEstablished
    | SessionNotFound
    | Codec(error: CodecError)

  /** The first handshake message, made for the owner of `serverStatic`. */
  datatype ClientHello = ClientHello(serverStatic: Key, ephemeral: Key)

  /** The second handshake message, answering the client ephemeral it names. */
  datatype ServerHello = ServerHello(clientEphemeral: Key, ephemeral: Key)

  function Lift(r: Result<seq<byte>, CodecError>): (l: Result<seq<byte>, NoiseError>)
  {
    match r
    case Ok(v) => Ok(v)
    case Err(e) => Err(Codec(e))
  }

  class NoiseClient {
    var handshake: Option<ClientHello>
    var transport: TransportState?
    var sessionId: Option<SessionId>

    ghost predicate Valid()
      reads this, transport
    {
      transport != null ==> transport.Valid()
    }

    constructor ()
      ensures Valid() && handshake == None && transport == null && sessionId == None
    {
      handshake, transport, sessionId := None, null, None;
    }

    /** A key of another length than the pattern's is refused, and a pending handshake is then kept. */
    method InitiateHandshake(serverStatic: seq<byte>, ephemeral: Key) returns (r: Result<ClientHello, NoiseError>)
      requires Valid()
      modifies this`handshake
      ensures Valid()
      ensures if |serverStatic| == KEY_LENGTH
              then r == Ok(ClientHello(serverStatic, ephemeral))
                   && handshake == Some(ClientHello(serverStatic, ephemeral))
              else r == Err(HandshakeFailed) && handshake == old(handshake)
    {
      if |serverStatic| != KEY_LENGTH {
        return Err(HandshakeFailed);
      }
      var message := ClientHello(serverStatic, ephemeral);
      handshake := Some(message);
      r := Ok(message);
    }

    /** The pending handshake is consumed even when the response does not fit it. */
    method CompleteHandshake(response: ServerHello, id: SessionId) returns (r: Result<(), NoiseError>)
      requires Valid()
      modifies this
      ensures Valid() && handshake == None
      ensures old(handshake) == None ==> r == Err(NoHandshakeInProgress)
      ensures old(handshake).Some? ==>
                r == if response.clientEphemeral == old(handshake).value.ephemeral then Ok(()) else Err(HandshakeFailed)
      ensures if r.Ok?
              then sessionId == Some(id) && transport != null && fresh(transport)
                   && transport.sendKey == old(handshake).value.ephemeral && transport.recvKey == response.ephemeral
                   && transport.sendNonce == 0 && transport.recvNonce == 0
              else sessionId == old(sessionId) && transport == old(transport)
    {
      var pending := handshake;
      handshake := None;
      if pending.None? {
        return Err(NoHandshakeInProgress);
      }
      if response.clientEphemeral != pending.value.ephemeral {
        return Err(HandshakeFailed);
      }
      transport := new TransportState(pending.value.ephemeral, response.ephemeral);
      sessionId := Some(id);
      r := Ok(());
    }

    method Encrypt(plaintext: seq<byte>) returns (r: Result<seq<byte>, NoiseError>)
      requires Valid()
      modifies transport
      ensures Valid()
      ensures transport == null ==> r == Err(SessionNotEstablished)
      ensures transport != null ==>
                var n := old(transport.sendNonce);
                transport.recvNonce == old(transport.recvNonce)
                && if n + ChunkCount(|plaintext|) <= MAX_NONCE
                   then r == Ok(EncryptBlob(transport.sendKey, n, plaintext))
                        && transport.sendNonce == n + ChunkCount(|plaintext|)
                   else r == Err(Codec(NonceExhausted)) && transport.sendNonce == MAX_NONCE
    {
      if transport == null {
        return Err(SessionNotEstablished);
      }
      var blob := EncryptChunked(transport, plaintext);
      r := Lift(blob);
    }

    method Decrypt(data: seq<byte>) returns (r: Result<seq<byte>, NoiseError>)
      requires Valid()
      modifies transport
      ensures Valid()
      ensures transport == null ==> r == Err(SessionNotEstablished)
      ensures transport != null ==>
                var d := DecryptBlob(transport.recvKey, old(transport.recvNonce), data);
                (match d.result case Ok(p) => r == Ok(p) case Err(e) => r == Err(Codec(e)))
                && transport.recvNonce == d.nonce
                && transport.sendNonce == old(transport.sendNonce)
    {
      if transport == null {
        return Err(SessionNotEstablished);
      }
      var plaintext := DecryptChunked(transport, data);
      r := Lift(plaintext);
    }
  }

  class NoiseServer {
    const staticKey: Key
    var sessions: map<SessionId, TransportState>

    /** Every session has a transport of its own. */
    ghost predicate Valid()
      reads this, sessions.Values
    {
      && (forall s :: s in sessions ==> sessions[s].Valid())
      && (forall s, t :: s in sessions && t in sessions && s != t ==> sessions[s] != sessions[t])
    }

    constructor (staticKey: Key)
      ensures Valid() && this.staticKey == staticKey && sessions == map[]
    {
      this.staticKey := staticKey;
      sessions := map[];
    }

    /** `id` and `ephemeral` are the random draws; a session already stored under `id` is replaced. */
    method ProcessHandshake(hello: ClientHello, ephemeral: Key, id: SessionId)
      returns (r: Result<(SessionId, ServerHello), NoiseError>)
      requires Valid()
      modifies this
      ensures Valid()
      ensures r == if hello.serverStatic == staticKey then Ok((id, ServerHello(hello.ephemeral, ephemeral)))
                   else Err(HandshakeFailed)
      ensures if r.Ok?
              then id in sessions && sessions == old(sessions)[id := sessions[id]] && fresh(sessions[id])
                   && sessions[id].sendKey == ephemeral && sessions[id].recvKey == hello.ephemeral
                   && sessions[id].sendNonce == 0 && sessions[id].recvNonce == 0
              else sessions == old(sessions)
    {
      if hello.serverStatic != staticKey {
        return Err(HandshakeFailed);
      }
      var transport := new TransportState(ephemeral, hello.ephemeral);
      assert forall s :: s in sessions ==> sessions[s] != transport;
      sessions := sessions[id := transport];
      r := Ok((id, ServerHello(hello.ephemeral, ephemeral)));
    }

    method Decrypt(id: SessionId, data: seq<byte>) returns (r: Result<seq<byte>, NoiseError>)
      requires Valid()
      modifies if id in sessions then {sessions[id]} else {}
      ensures Valid()
      ensures id !in sessions ==> r == Err(SessionNotFound)
      ensures id in sessions ==>
                var d := DecryptBlob(sessions[id].recvKey, old(sessions[id].recvNonce), data);
                (match d.result case Ok(p) => r == Ok(p) case Err(e) => r == Err(Codec(e)))
                && sessions[id].recvNonce == d.nonce
                && sessions[id].sendNonce == old(sessions[id].sendNonce)
    {
      if id !in sessions {
        return Err(SessionNotFound);
      }
      var plaintext := DecryptChunked(sessions[id], data);
      r := Lift(plaintext);
    }

    method Encrypt(id: SessionId, plaintext: seq<byte>) returns (r: Result<seq<byte>, NoiseError>)
      requires Valid()
      modifies if id in sessions then {sessions[id]} else {}
      ensures Valid()
      ensures id !in sessions ==> r == Err(SessionNotFound)
      ensures id in sessions ==>
                var n := old(sessions[id].sendNonce);
                sessions[id].recvNonce == old(sessions[id].recvNonce)
                && if n + ChunkCount(|plaintext|) <= MAX_NONCE
                   then r == Ok(EncryptBlob(sessions[id].sendKey, n, plaintext))
                        && sessions[id].sendNonce == n + ChunkCount(|plaintext|)
                   else r == Err(Codec(NonceExhausted)) && sessions[id].sendNonce == MAX_NONCE
    {
      if id !in sessions {
        return Err(SessionNotFound);
      }
      var blob := EncryptChunked(sessions[id], plaintext);
      r := Lift(blob);
    }

    method RemoveSession(id: SessionId)
      requires Valid()
      modifies this
      ensures Valid() && sessions == old(sessions) - {id}
    {
      sessions := sessions - {id};
    }
  }

  // ---------------------------------------------------------------------------------------------
  // Both ends together
  // ---------------------------------------------------------------------------------------------

  /** The client and the server's session `id` share keys, and their nonces agree both ways. */
  ghost predicate InStep(client: NoiseClient, server: NoiseServer, id: SessionId)
    reads client, client.transport, server, server.sessions.Values
  {
    && client.Valid() && server.Valid()
    && client.transport != null && id in server.sessions
    && client.transport != server.sessions[id]
    && client.transport.sendKey == server.sessions[id].recvKey
    && client.transport.recvKey == server.sessions[id].sendKey
    && client.transport.sendNonce == server.sessions[id].recvNonce
    && client.transport.recvNonce == server.sessions[id].sendNonce
  }

  /** A handshake made for the server's own static key leaves the two ends in step. */
  method Establish(client: NoiseClient, server: NoiseServer, serverStatic: seq<byte>,
                   clientEphemeral: Key, serverEphemeral: Key, id: SessionId)
    returns (r: Result<(), NoiseError>)
    requires client.Valid() && server.Valid()
    modifies client, server
    ensures client.Valid() && server.Valid()
    ensures r.Ok? <==> serverStatic == server.staticKey
    ensures r.Ok? ==> InStep(client, server, id) && client.sessionId == Some(id)
    ensures r.Err? ==> server.sessions == old(server.sessions) && client.transport == old(client.transport)
    ensures forall s :: s in old(server.sessions) && s != id ==>
              s in server.sessions && server.sessions[s] == old(server.sessions[s])
  {
    var hello := client.InitiateHandshake(serverStatic, clientEphemeral);
    if hello.Err? {
      return Err(hello.error);
    }
    var answer := server.ProcessHandshake(hello.value, serverEphemeral, id);
    if answer.Err? {
      return Err(answer.error);
    }
    r := client.CompleteHandshake(answer.value.1, answer.value.0);
  }

  /**
   One request and its response over a session in step: both arrive unchanged and the ends are
   in step again, so that any number of exchanges can follow; no other session moves.
   */
  method Exchange(client: NoiseClient, server: NoiseServer, id: SessionId,
                  request: seq<byte>, answer: seq<byte> -> seq<byte>)
    returns (received: Result<seq<byte>, NoiseError>, response: Result<seq<byte>, NoiseError>)
    requires InStep(client, server, id)
    requires client.transport.sendNonce + ChunkCount(|request|) <= MAX_NONCE
    requires client.transport.recvNonce + ChunkCount(|answer(request)|) <= MAX_NONCE
    requires ChunkCount(|request|) < U32_RANGE && ChunkCount(|answer(request)|) < U32_RANGE
    modifies client.transport, server.sessions[id]
    ensures received == Ok(request) && response == Ok(answer(request))
    ensures InStep(client, server, id)
    ensures client.transport.sendNonce == old(client.transport.sendNonce) + ChunkCount(|request|)
    ensures client.transport.recvNonce == old(client.transport.recvNonce) + ChunkCount(|answer(request)|)
  {
    hide DecryptBlob, EncryptBlob, ChunkCount;
    var key, n := client.transport.sendKey, client.transport.sendNonce;
    var blob := client.Encrypt(request);
    assert blob.Ok?;
    DecryptOfEncrypt(key, n, request, []);
    assert blob.value + [] == blob.value && request[..|request|] == request;
    received := server.Decrypt(id, blob.value);
    var reply := answer(request);
    ghost var m := server.sessions[id].sendNonce;
    var sealed := server.Encrypt(id, reply);
    assert sealed.Ok?;
    DecryptOfEncrypt(client.transport.recvKey, m, reply, []);
    assert sealed.value + [] == sealed.value && reply[..|reply|] == reply;
    response := client.Decrypt(sealed.value);
  }
}
