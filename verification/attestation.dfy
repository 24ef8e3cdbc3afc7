/**
 Connecting to a worker: the worker shows a bundle that binds its static key to a quote, the client
 checks the binding, and the key it has checked is the one the handshake is made for.
 */
module Attestation {
  import opened Wrappers
  import opened Bytes
  import opened NoiseCodec
  import opened Noise

  datatype TeeType = Insecure | SevSnp | Tdx

  datatype Bundle = Bundle(quote: seq<byte>, staticKey: seq<byte>, bindingSig: seq<byte>, teeType: TeeType)

  datatype Refusal = BindingMismatch | NotImplemented | NoHandshake(error: NoiseError)

  /** SHA-256; only that it is a function matters, unless stated otherwise. */
  type Hash = seq<byte> -> seq<byte>

  function Generate(hash: Hash, insecureQuote: seq<byte>, staticKey: seq<byte>): (r: Bundle)
  {
    Bundle(insecureQuote, staticKey, hash(insecureQuote + staticKey), Insecure)
  }

  function Verify(hash: Hash, bundle: Bundle): (r: Result<(), Refusal>)
  {
    if bundle.bindingSig != hash(bundle.quote + bundle.staticKey) then Err(BindingMismatch)
    else
      match bundle.teeType
      case Insecure => Ok(())
      case SevSnp | Tdx => Err(NotImplemented)
  }

  ghost predicate CollisionFree(hash: Hash)
  {
    forall a: seq<byte>, b: seq<byte> :: hash(a) == hash(b) ==> a == b
  }

  /**
   The binding is over the quote and the key put together, so it does not say where one ends: a
   bundle with a worker's binding is accepted exactly if its quote and key together are the worker's,
   and it is then the worker's own exactly if its key has the same length.
   */
  lemma AcceptedExactly(hash: Hash, insecureQuote: seq<byte>, staticKey: seq<byte>, bundle: Bundle)
    requires CollisionFree(hash) && bundle.bindingSig == Generate(hash, insecureQuote, staticKey).bindingSig
    ensures Verify(hash, bundle).Ok? <==>
            bundle.teeType.Insecure? && bundle.quote + bundle.staticKey == insecureQuote + staticKey
    ensures Verify(hash, bundle).Ok? ==>
            (bundle == Generate(hash, insecureQuote, staticKey) <==> |bundle.staticKey| == |staticKey|)
  {
    if Verify(hash, bundle).Ok? && |bundle.staticKey| == |staticKey| {
      var whole := insecureQuote + staticKey;
      assert bundle.quote + bundle.staticKey == whole;
      assert bundle.quote == whole[..|insecureQuote|] == insecureQuote;
      assert bundle.staticKey == whole[|insecureQuote|..] == staticKey;
    }
  }

  /** Bytes moved from the front of the key to the end of the quote: accepted under any hash, and another bundle. */
  lemma ResplitIsAccepted(hash: Hash, insecureQuote: seq<byte>, staticKey: seq<byte>, moved: nat)
    requires 0 < moved <= |staticKey|
    ensures var own := Generate(hash, insecureQuote, staticKey);
            var other := own.(quote := insecureQuote + staticKey[..moved], staticKey := staticKey[moved..]);
            Verify(hash, other).Ok? && other != own
  {
    assert insecureQuote + staticKey[..moved] + staticKey[moved..] == insecureQuote + staticKey;
  }

  /** `connect`: a bundle that is refused stops it; otherwise the session is made for the bundle's key. */
  method Connect(hash: Hash, bundle: Bundle, client: NoiseClient, server: NoiseServer,
                 clientEphemeral: Key, serverEphemeral: Key, id: SessionId)
    returns (r: Result<(), Refusal>)
    requires client.Valid() && server.Valid()
    modifies client, server
    ensures client.Valid() && server.Valid()
    ensures r.Ok? <==> Verify(hash, bundle).Ok? && bundle.staticKey == server.staticKey
    ensures r.Ok? ==> InStep(client, server, id) && client.sessionId == Some(id)
    ensures r.Err? ==> server.sessions == old(server.sessions) && client.transport == old(client.transport)
  {
    var verified := Verify(hash, bundle);
    if verified.Err? {
      return Err(verified.error);
    }
    var established := Establish(client, server, bundle.staticKey, clientEphemeral, serverEphemeral, id);
    match established
    case Ok(_) => return Ok(());
    case Err(e) => return Err(NoHandshake(e));
  }

  /** So, of the bundles with a worker's binding, only its own leads to a session with it. */
  lemma OnlyTheOwnBundleConnects(hash: Hash, insecureQuote: seq<byte>, server: NoiseServer, bundle: Bundle)
    requires CollisionFree(hash) && bundle.bindingSig == Generate(hash, insecureQuote, server.staticKey).bindingSig
    ensures Verify(hash, bundle).Ok? && bundle.staticKey == server.staticKey <==>
            bundle == Generate(hash, insecureQuote, server.staticKey)
  {
    AcceptedExactly(hash, insecureQuote, server.staticKey, bundle);
  }
}
