/**
 The chunked Noise codec: a plaintext is cut into chunks of at most 65000 bytes, each chunk is
 one Noise transport message, and every message is preceded by its length. The nonces are never
 on the wire: each side counts its own.

 Sections 3 and 5.1 of the Noise Protocol Framework, revision 34, bound a message to 65535 bytes,
 reserve nonce 2^64-1, and keep the nonce where it is when a decryption fails.
 */
module NoiseCodec {
  import opened Wrappers
  import opened Bytes

  const MAX_CHUNK_SIZE: nat := 65000
  const TAG_LENGTH: nat := 16
  const MAX_NOISE_MESSAGE: nat := 65535
  const MAX_NONCE: nat := 0xFFFF_FFFF_FFFF_FFFF

  /** Sixteen random bytes in the source; only equality matters. */
  type SessionId = seq<byte>

  const KEY_LENGTH: nat := 8

  type Key = k: seq<byte> | |k| == KEY_LENGTH witness [0, 0, 0, 0, 0, 0, 0, 0]

  datatype CodecError =
    | InvalidData
    | TruncatedHeader
    | TruncatedChunk
    | MessageTooLong
    | DecryptFailed
    | NonceExhausted

  // ---------------------------------------------------------------------------------------------
  // One Noise message
  // ---------------------------------------------------------------------------------------------

  /** The authentication tag of the stand-in cipher: it names the key and the nonce. */
  function Tag(key: Key, nonce: nat): (r: seq<byte>)
    requires nonce <= MAX_NONCE
    ensures |r| == TAG_LENGTH
  {
    Le64(nonce) + key
  }

  function Seal(key: Key, nonce: nat, plaintext: seq<byte>): (r: seq<byte>)
    requires nonce <= MAX_NONCE
    ensures |r| == |plaintext| + TAG_LENGTH
  {
    plaintext + Tag(key, nonce)
  }

  /** What `TransportState::read_message` answers when its receive nonce is `nonce`. */
  function OpenMessage(key: Key, nonce: nat, message: seq<byte>): (r: Result<seq<byte>, CodecError>)
    requires nonce <= MAX_NONCE
  {
    if |message| > MAX_NOISE_MESSAGE then Err(MessageTooLong)
    else if |message| < TAG_LENGTH then Err(DecryptFailed)
    else if nonce == MAX_NONCE then Err(NonceExhausted)
    else if message[|message| - TAG_LENGTH..] != Tag(key, nonce) then Err(DecryptFailed)
    else Ok(message[..|message| - TAG_LENGTH])
  }

  /** A message opens exactly under the key and the nonce it was sealed with. */
  lemma OpenExactlyWhatWasSealed(key: Key, nonce: nat, otherKey: Key, otherNonce: nat, plaintext: seq<byte>)
    requires nonce < MAX_NONCE && otherNonce < MAX_NONCE
    requires |plaintext| + TAG_LENGTH <= MAX_NOISE_MESSAGE
    ensures OpenMessage(otherKey, otherNonce, Seal(key, nonce, plaintext)) ==
            if key == otherKey && nonce == otherNonce then Ok(plaintext) else Err(DecryptFailed)
  {
    var m := Seal(key, nonce, plaintext);
    assert m[..|m| - TAG_LENGTH] == plaintext;
    assert m[|m| - TAG_LENGTH..] == Tag(key, nonce);
    if Tag(key, nonce) == Tag(otherKey, otherNonce) {
      assert Tag(key, nonce)[..8] == Le64(nonce) && Tag(otherKey, otherNonce)[..8] == Le64(otherNonce);
      assert Tag(key, nonce)[8..] == key && Tag(otherKey, otherNonce)[8..] == otherKey;
      Le64Injective(nonce, otherNonce);
    }
  }

  lemma SealOfOpened(key: Key, nonce: nat, message: seq<byte>)
    requires nonce <= MAX_NONCE
    requires OpenMessage(key, nonce, message).Ok?
    ensures message == Seal(key, nonce, OpenMessage(key, nonce, message).value)
  {
    assert message == message[..|message| - TAG_LENGTH] + message[|message| - TAG_LENGTH..];
  }

  // ---------------------------------------------------------------------------------------------
  // Chunks
  // ---------------------------------------------------------------------------------------------

  /** `plaintext.chunks(MAX_CHUNK_SIZE)`. */
  function Chunks(plaintext: seq<byte>): (r: seq<seq<byte>>)
    ensures |r| == ChunkCount(|plaintext|)
  {
    if |plaintext| == 0 then []
    else if |plaintext| <= MAX_CHUNK_SIZE then [plaintext]
    else [plaintext[..MAX_CHUNK_SIZE]] + Chunks(plaintext[MAX_CHUNK_SIZE..])
  }

  function Concat(chunks: seq<seq<byte>>): (r: seq<byte>)
  {
    if chunks == [] then [] else chunks[0] + Concat(chunks[1..])
  }

  /** `ceil(length / 65000)`. */
  function ChunkCount(length: nat): (r: nat)
  {
    (length + MAX_CHUNK_SIZE - 1) / MAX_CHUNK_SIZE
  }

  /** Every chunk, with its tag, is a legal Noise message. */
  predicate AllFit(chunks: seq<seq<byte>>)
  {
    forall i :: 0 <= i < |chunks| ==> |chunks[i]| + TAG_LENGTH <= MAX_NOISE_MESSAGE
  }

  lemma {:induction false} ChunksPartition(plaintext: seq<byte>)
    ensures Concat(Chunks(plaintext)) == plaintext
    ensures forall c :: c in Chunks(plaintext) ==> 0 < |c| <= MAX_CHUNK_SIZE
    ensures AllFit(Chunks(plaintext))
  {
    if |plaintext| > MAX_CHUNK_SIZE {
      var rest := plaintext[MAX_CHUNK_SIZE..];
      ChunksPartition(rest);
      assert Chunks(plaintext)[1..] == Chunks(rest);
      assert plaintext == plaintext[..MAX_CHUNK_SIZE] + rest;
    } else if |plaintext| > 0 {
      assert Chunks(plaintext)[1..] == [];
    }
  }

  /** Every chunk but the last has 65000 bytes, and the last has one at least. */
  lemma {:induction false} ChunkSizes(plaintext: seq<byte>, k: nat)
    requires k < |Chunks(plaintext)|
    ensures k < |Chunks(plaintext)| - 1 ==> |Chunks(plaintext)[k]| == 65000
    ensures k == |Chunks(plaintext)| - 1 ==> 1 <= |Chunks(plaintext)[k]| <= 65000
  {
    if |plaintext| > MAX_CHUNK_SIZE {
      var rest := plaintext[MAX_CHUNK_SIZE..];
      assert Chunks(plaintext)[1..] == Chunks(rest);
      if k > 0 {
        ChunkSizes(rest, k - 1);
      }
    }
  }

  lemma {:induction false} FirstChunks(plaintext: seq<byte>, k: nat)
    requires k < |Chunks(plaintext)|
    ensures k * MAX_CHUNK_SIZE < |plaintext|
    ensures Concat(Chunks(plaintext)[..k]) == plaintext[..k * MAX_CHUNK_SIZE]
  {
    var cs := Chunks(plaintext);
    if k > 0 {
      var rest := plaintext[MAX_CHUNK_SIZE..];
      assert cs[1..] == Chunks(rest);
      FirstChunks(rest, k - 1);
      assert cs[..k][1..] == Chunks(rest)[..k - 1];
      assert plaintext[..k * MAX_CHUNK_SIZE] == plaintext[..MAX_CHUNK_SIZE] + rest[..(k - 1) * MAX_CHUNK_SIZE];
    }
  }

  // ---------------------------------------------------------------------------------------------
  // Encoding
  // ---------------------------------------------------------------------------------------------

  /** The chunk messages, each behind its length, sealed under consecutive nonces. */
  function Framed(key: Key, nonce: nat, chunks: seq<seq<byte>>): (r: seq<byte>)
    requires AllFit(chunks) && nonce + |chunks| <= MAX_NONCE
    decreases |chunks|
  {
    if chunks == [] then []
    else Le32(|chunks[0]| + TAG_LENGTH) + Seal(key, nonce, chunks[0]) + Framed(key, nonce + 1, chunks[1..])
  }

  lemma {:induction false} FramedLength(key: Key, nonce: nat, chunks: seq<seq<byte>>)
    requires AllFit(chunks) && nonce + |chunks| <= MAX_NONCE
    ensures |Framed(key, nonce, chunks)| == |Concat(chunks)| + 20 * |chunks|
    decreases |chunks|
  {
    if chunks != [] {
      FramedLength(key, nonce + 1, chunks[1..]);
    }
  }

  lemma FramedNothing(key: Key, nonce: nat)
    requires nonce <= MAX_NONCE
    ensures AllFit([]) && Framed(key, nonce, []) == []
  {
  }

  lemma FramedByParts(key: Key, nonce: nat, chunks: seq<seq<byte>>)
    requires AllFit(chunks) && nonce + |chunks| <= MAX_NONCE && chunks != []
    ensures AllFit(chunks[1..])
    ensures Framed(key, nonce, chunks) ==
            Le32(|chunks[0]| + TAG_LENGTH) + Seal(key, nonce, chunks[0]) + Framed(key, nonce + 1, chunks[1..])
  {
  }

  /** Framing a list is framing its front and then, at the later nonce, its back. */
  lemma {:induction false} FramedSplit(key: Key, nonce: nat, front: seq<seq<byte>>, back: seq<seq<byte>>)
    requires AllFit(front) && AllFit(back) && nonce + |front| + |back| <= MAX_NONCE
    ensures AllFit(front + back)
    ensures Framed(key, nonce, front + back) == Framed(key, nonce, front) + Framed(key, nonce + |front|, back)
    decreases |front|
  {
    hide Le32, FromLe32, Seal, Framed;
    if front == [] {
      assert front + back == back;
      FramedNothing(key, nonce);
    } else {
      assert (front + back)[1..] == front[1..] + back;
      FramedByParts(key, nonce, front);
      FramedSplit(key, nonce + 1, front[1..], back);
      FramedByParts(key, nonce, front + back);
    }
  }

  lemma FramedSnoc(key: Key, nonce: nat, chunks: seq<seq<byte>>, chunk: seq<byte>)
    requires AllFit(chunks) && |chunk| + TAG_LENGTH <= MAX_NOISE_MESSAGE && nonce + |chunks| + 1 <= MAX_NONCE
    ensures AllFit(chunks + [chunk])
    ensures Framed(key, nonce, chunks + [chunk])
            == Framed(key, nonce, chunks) + Le32(|chunk| + TAG_LENGTH) + Seal(key, nonce + |chunks|, chunk)
  {
    hide Le32, Seal;
    FramedSplit(key, nonce, chunks, [chunk]);
    assert [chunk][1..] == [];
  }

  /** The blob `encrypt_chunked` returns; the chunk count is cast to `u32`. */
  function EncryptBlob(key: Key, nonce: nat, plaintext: seq<byte>): (r: seq<byte>)
    requires nonce + ChunkCount(|plaintext|) <= MAX_NONCE
  {
    ChunksPartition(plaintext);
    Le32(|Chunks(plaintext)| % U32_RANGE) + Framed(key, nonce, Chunks(plaintext))
  }

  /** A blob begins with the number of its chunks, and each message with its length, four bytes each, least first. */
  lemma BlobLayout(key: Key, nonce: nat, plaintext: seq<byte>)
    requires nonce + ChunkCount(|plaintext|) <= MAX_NONCE
    ensures var blob, cs := EncryptBlob(key, nonce, plaintext), Chunks(plaintext);
            && |blob| >= 4 && LittleEndian(blob[..4]) == |cs| % 0x1_0000_0000
            && (cs != [] ==>
                  && |blob| >= 8 + |cs[0]| + 16 && LittleEndian(blob[4..8]) == |cs[0]| + 16
                  && blob[8..8 + |cs[0]| + 16] == Seal(key, nonce, cs[0]))
  {
    hide Le32, LittleEndian, Seal, Chunks, ChunkCount;
    ChunksPartition(plaintext);
    var blob, cs := EncryptBlob(key, nonce, plaintext), Chunks(plaintext);
    Le32IsLittleEndian(|cs| % U32_RANGE);
    assert blob[..4] == Le32(|cs| % U32_RANGE);
    if cs != [] {
      Le32IsLittleEndian(|cs[0]| + TAG_LENGTH);
      var rest := Framed(key, nonce + 1, cs[1..]);
      assert blob[4..] == Le32(|cs[0]| + TAG_LENGTH) + Seal(key, nonce, cs[0]) + rest;
      assert blob[4..8] == Le32(|cs[0]| + TAG_LENGTH);
    }
  }

  // ---------------------------------------------------------------------------------------------
  // Decoding
  // ---------------------------------------------------------------------------------------------

  /** The answer of a decryption together with the receive nonce it leaves behind. */
  datatype Decoded = Decoded(result: Result<seq<byte>, CodecError>, nonce: nat)

  function Prepend(front: seq<byte>, d: Decoded): (r: Decoded)
  {
    match d.result
    case Ok(p) => Decoded(Ok(front + p), d.nonce)
    case Err(_) => d
  }

  function DecodeChunks(key: Key, nonce: nat, data: seq<byte>, count: nat): (r: Decoded)
    requires nonce <= MAX_NONCE
    ensures nonce <= r.nonce <= MAX_NONCE && r.nonce <= nonce + count
    decreases count
  {
    if count == 0 then Decoded(Ok([]), nonce)
    else if |data| < 4 then Decoded(Err(TruncatedHeader), nonce)
    else
      var len := FromLe32(data[..4]);
      if |data| < 4 + len then Decoded(Err(TruncatedChunk), nonce)
      else
        match OpenMessage(key, nonce, data[4..4 + len])
        case Err(e) => Decoded(Err(e), nonce)
        case Ok(p) => Prepend(p, DecodeChunks(key, nonce + 1, data[4 + len..], count - 1))
  }

  function DecryptBlob(key: Key, nonce: nat, data: seq<byte>): (r: Decoded)
    requires nonce <= MAX_NONCE
    ensures nonce <= r.nonce <= MAX_NONCE
  {
    if |data| < 4 then Decoded(Err(InvalidData), nonce)
    else DecodeChunks(key, nonce, data[4..], FromLe32(data[..4]))
  }

  /**
   How the first message of a blob is judged, by its bytes: by its length, then by the nonce, then by
   its tag; and only a message that opens moves the nonce.
   */
  lemma FirstFault(key: Key, nonce: nat, data: seq<byte>)
    requires nonce <= MAX_NONCE
    ensures |data| < 4 ==> DecryptBlob(key, nonce, data) == Decoded(Err(InvalidData), nonce)
    ensures |data| >= 4 && LittleEndian(data[..4]) == 0 ==> DecryptBlob(key, nonce, data) == Decoded(Ok([]), nonce)
    ensures |data| >= 4 && LittleEndian(data[..4]) > 0 ==>
              var d := DecryptBlob(key, nonce, data);
              if |data| < 8 then d == Decoded(Err(TruncatedHeader), nonce)
              else
                var len := LittleEndian(data[4..8]);
                if |data| < 8 + len then d == Decoded(Err(TruncatedChunk), nonce)
                else if len > 65535 then d == Decoded(Err(MessageTooLong), nonce)
                else if len < 16 then d == Decoded(Err(DecryptFailed), nonce)
                else if nonce == 0xFFFF_FFFF_FFFF_FFFF then d == Decoded(Err(NonceExhausted), nonce)
                else if data[8 + len - 16..8 + len] != Tag(key, nonce) then d == Decoded(Err(DecryptFailed), nonce)
                else d.nonce > nonce
  {
    hide LittleEndian, FromLe32, Tag;
    if |data| >= 4 {
      LittleEndianOfFour(data[..4]);
      if |data| >= 8 {
        LittleEndianOfFour(data[4..8]);
        assert data[4..][..4] == data[4..8];
        var len := FromLe32(data[4..8]);
        if |data| >= 8 + len {
          var message := data[4..][4..4 + len];
          assert message == data[8..8 + len];
          if 16 <= len {
            assert message[len - 16..] == data[8 + len - 16..8 + len];
          }
        }
      }
    }
  }

  // ---------------------------------------------------------------------------------------------
  // The codec as the source runs it
  // ---------------------------------------------------------------------------------------------

  /** One end of an established session: a key and a nonce per direction. */
  class TransportState {
    const sendKey: Key
    const recvKey: Key
    var sendNonce: nat
    var recvNonce: nat

    ghost predicate Valid()
      reads this
    {
      sendNonce <= MAX_NONCE && recvNonce <= MAX_NONCE
    }

    constructor (sendKey: Key, recvKey: Key)
      ensures Valid()
      ensures this.sendKey == sendKey && this.recvKey == recvKey
      ensures sendNonce == 0 && recvNonce == 0
    {
      this.sendKey, this.recvKey := sendKey, recvKey;
      sendNonce, recvNonce := 0, 0;
    }

    method WriteMessage(payload: seq<byte>) returns (r: Result<seq<byte>, CodecError>)
      requires Valid()
      modifies this`sendNonce
      ensures Valid()
      ensures r == if |payload| + TAG_LENGTH > MAX_NOISE_MESSAGE then Err(MessageTooLong)
                   else if old(sendNonce) == MAX_NONCE then Err(NonceExhausted)
                   else Ok(Seal(sendKey, old(sendNonce), payload))
      ensures sendNonce == if r.Ok? then old(sendNonce) + 1 else old(sendNonce)
    {
      if |payload| + TAG_LENGTH > MAX_NOISE_MESSAGE {
        return Err(MessageTooLong);
      }
      if sendNonce == MAX_NONCE {
        return Err(NonceExhausted);
      }
      r := Ok(Seal(sendKey, sendNonce, payload));
      sendNonce := sendNonce + 1;
    }

    method ReadMessage(message: seq<byte>) returns (r: Result<seq<byte>, CodecError>)
      requires Valid()
      modifies this`recvNonce
      ensures Valid()
      ensures r == OpenMessage(recvKey, old(recvNonce), message)
      ensures recvNonce == if r.Ok? then old(recvNonce) + 1 else old(recvNonce)
    {
      r := OpenMessage(recvKey, recvNonce, message);
      if r.Ok? {
        recvNonce := recvNonce + 1;
      }
    }
  }

  method EncryptChunked(transport: TransportState, plaintext: seq<byte>) returns (r: Result<seq<byte>, CodecError>)
    requires transport.Valid()
    modifies transport`sendNonce
    ensures transport.Valid()
    ensures var n := old(transport.sendNonce);
            if n + ChunkCount(|plaintext|) <= MAX_NONCE
            then r == Ok(EncryptBlob(transport.sendKey, n, plaintext))
                 && transport.sendNonce == n + ChunkCount(|plaintext|)
            else r == Err(NonceExhausted) && transport.sendNonce == MAX_NONCE
  {
    hide Le32, Seal, Framed, Chunks, AllFit;
    var chunks := Chunks(plaintext);
    ChunksPartition(plaintext);
    var result := Le32(|chunks| % U32_RANGE);
    ghost var header := result;
    ghost var n := transport.sendNonce;
    FramedNothing(transport.sendKey, n);
    assert chunks[..0] == [];
    var i := 0;
    while i < |chunks|
      invariant 0 <= i <= |chunks|
      invariant transport.Valid() && transport.sendNonce == n + i
      invariant AllFit(chunks[..i])
      invariant result == header + Framed(transport.sendKey, n, chunks[..i])
    {
      var ciphertext := transport.WriteMessage(chunks[i]);
      if ciphertext.Err? {
        return Err(ciphertext.error);
      }
      FramedSnoc(transport.sendKey, n, chunks[..i], chunks[i]);
      assert chunks[..i] + [chunks[i]] == chunks[..i + 1];
      result := result + Le32(|ciphertext.value|);
      result := result + ciphertext.value;
      i := i + 1;
    }
    assert chunks[..i] == chunks;
    r := Ok(result);
  }

  method DecryptChunked(transport: TransportState, data: seq<byte>) returns (r: Result<seq<byte>, CodecError>)
    requires transport.Valid()
    modifies transport`recvNonce
    ensures transport.Valid()
    ensures Decoded(r, transport.recvNonce) == DecryptBlob(transport.recvKey, old(transport.recvNonce), data)
  {
    hide Le32, FromLe32, Seal;
    if |data| < 4 {
      return Err(InvalidData);
    }
    var numChunks := FromLe32(data[..4]);
    var offset := 4;
    var result: seq<byte> := [];
    ghost var whole := DecryptBlob(transport.recvKey, transport.recvNonce, data);
    PrependNothing(whole);
    for i := 0 to numChunks
      invariant 4 <= offset <= |data| && transport.Valid()
      invariant whole ==
                Prepend(result, DecodeChunks(transport.recvKey, transport.recvNonce, data[offset..], numChunks - i))
    {
      ghost var rest := data[offset..];
      if offset + 4 > |data| {
        return Err(TruncatedHeader);
      }
      var chunkLen := FromLe32(data[offset..offset + 4]);
      assert rest[..4] == data[offset..offset + 4];
      offset := offset + 4;
      if offset + chunkLen > |data| {
        return Err(TruncatedChunk);
      }
      var chunk := data[offset..offset + chunkLen];
      assert rest[4..4 + chunkLen] == chunk;
      offset := offset + chunkLen;
      assert rest[4 + chunkLen..] == data[offset..];
      var plaintext := transport.ReadMessage(chunk);
      if plaintext.Err? {
        return Err(plaintext.error);
      }
      ghost var later := DecodeChunks(transport.recvKey, transport.recvNonce, data[offset..], numChunks - i - 1);
      PrependTwice(result, plaintext.value, later);
      result := result + plaintext.value;
    }
    r := Ok(result);
    assert result + [] == result;
  }

  lemma PrependNothing(d: Decoded)
    ensures Prepend([], d) == d
  {
    if d.result.Ok? {
      assert [] + d.result.value == d.result.value;
    }
  }

  lemma PrependTwice(a: seq<byte>, b: seq<byte>, d: Decoded)
    ensures Prepend(a, Prepend(b, d)) == Prepend(a + b, d)
  {
    if d.result.Ok? {
      assert a + (b + d.result.value) == a + b + d.result.value;
    }
  }

  // ---------------------------------------------------------------------------------------------
  // What decoding undoes
  // ---------------------------------------------------------------------------------------------

  lemma FrameParts(header: seq<byte>, body: seq<byte>, tail: seq<byte>)
    requires |header| == 4
    ensures var d := header + body + tail;
            d[..4] == header && d[4..4 + |body|] == body && d[4 + |body|..] == tail
  {
  }

  lemma DecodeOneChunk(key: Key, nonce: nat, chunk: seq<byte>, tail: seq<byte>, count: nat)
    requires |chunk| + TAG_LENGTH <= MAX_NOISE_MESSAGE && nonce < MAX_NONCE && count > 0
    ensures DecodeChunks(key, nonce, Le32(|chunk| + TAG_LENGTH) + Seal(key, nonce, chunk) + tail, count)
            == Prepend(chunk, DecodeChunks(key, nonce + 1, tail, count - 1))
  {
    hide Le32, FromLe32, Seal, OpenMessage, Prepend;
    FrameParts(Le32(|chunk| + TAG_LENGTH), Seal(key, nonce, chunk), tail);
    FromLe32OfLe32(|chunk| + TAG_LENGTH);
    OpenExactlyWhatWasSealed(key, nonce, key, nonce, chunk);
  }

  /** Decoding past a run of well-formed chunks yields them and goes on at the next nonce. */
  lemma {:induction false} DecodePastChunks(key: Key, nonce: nat, chunks: seq<seq<byte>>, rest: seq<byte>, more: nat)
    requires AllFit(chunks) && nonce + |chunks| <= MAX_NONCE
    ensures DecodeChunks(key, nonce, Framed(key, nonce, chunks) + rest, |chunks| + more)
            == Prepend(Concat(chunks), DecodeChunks(key, nonce + |chunks|, rest, more))
    decreases |chunks|
  {
    hide Le32, Seal, DecodeChunks, Prepend;
    if chunks == [] {
      assert Framed(key, nonce, chunks) + rest == rest;
      PrependNothing(DecodeChunks(key, nonce, rest, more));
    } else {
      var head := Le32(|chunks[0]| + TAG_LENGTH) + Seal(key, nonce, chunks[0]);
      var tail := Framed(key, nonce + 1, chunks[1..]) + rest;
      assert Framed(key, nonce, chunks) + rest == head + tail;
      DecodeOneChunk(key, nonce, chunks[0], tail, |chunks| + more);
      DecodePastChunks(key, nonce + 1, chunks[1..], rest, more);
      PrependTwice(chunks[0], Concat(chunks[1..]), DecodeChunks(key, nonce + |chunks|, rest, more));
    }
  }

  /** With a count smaller than the chunks that follow, only that many are decoded. */
  lemma DecodeFrontOfChunks(key: Key, nonce: nat, chunks: seq<seq<byte>>, sent: nat, extra: seq<byte>)
    requires AllFit(chunks) && nonce + |chunks| <= MAX_NONCE && sent <= |chunks|
    ensures DecodeChunks(key, nonce, Framed(key, nonce, chunks) + extra, sent)
            == Decoded(Ok(Concat(chunks[..sent])), nonce + sent)
  {
    hide Framed, Concat;
    var front, back := chunks[..sent], chunks[sent..];
    FramedSplit(key, nonce, front, back);
    assert front + back == chunks;
    var rest := Framed(key, nonce + sent, back) + extra;
    assert Framed(key, nonce, chunks) + extra == Framed(key, nonce, front) + rest;
    DecodePastChunks(key, nonce, front, rest, 0);
    assert Concat(front) + [] == Concat(front);
  }

  lemma BlobParts(key: Key, nonce: nat, plaintext: seq<byte>, extra: seq<byte>)
    requires nonce + ChunkCount(|plaintext|) <= MAX_NONCE
    ensures AllFit(Chunks(plaintext))
    ensures var blob := EncryptBlob(key, nonce, plaintext) + extra;
            |blob| >= 4
            && FromLe32(blob[..4]) == |Chunks(plaintext)| % U32_RANGE
            && blob[4..] == Framed(key, nonce, Chunks(plaintext)) + extra
  {
    hide Le32, FromLe32, Framed, Chunks;
    ChunksPartition(plaintext);
    var sent := |Chunks(plaintext)| % U32_RANGE;
    FromLe32OfLe32(sent);
    var blob := EncryptBlob(key, nonce, plaintext) + extra;
    assert blob == Le32(sent) + (Framed(key, nonce, Chunks(plaintext)) + extra);
    assert blob[..4] == Le32(sent);
  }

  /**
   The round trip, for every plaintext whose chunks the remaining nonces can seal, and with
   anything appended to the blob. The chunk count on the wire is a `u32`, so what comes back is
   what the first `count mod 2^32` chunks hold.
   */
  lemma DecryptOfEncrypt(key: Key, nonce: nat, plaintext: seq<byte>, extra: seq<byte>)
    requires nonce + ChunkCount(|plaintext|) <= MAX_NONCE
    ensures var count := ChunkCount(|plaintext|);
            var kept := if count < U32_RANGE then |plaintext| else count % U32_RANGE * MAX_CHUNK_SIZE;
            kept <= |plaintext|
            && DecryptBlob(key, nonce, EncryptBlob(key, nonce, plaintext) + extra)
               == Decoded(Ok(plaintext[..kept]), nonce + count % U32_RANGE)
  {
    hide FromLe32, Framed, Chunks, Concat, DecodeChunks;
    ChunksPartition(plaintext);
    var cs := Chunks(plaintext);
    BlobParts(key, nonce, plaintext, extra);
    DecodeFrontOfChunks(key, nonce, cs, |cs| % U32_RANGE, extra);
    if |cs| < U32_RANGE {
      assert cs[..|cs|] == cs && plaintext[..|plaintext|] == plaintext;
    } else {
      FirstChunks(plaintext, |cs| % U32_RANGE);
    }
  }

  /** The round trip gives the whole plaintext back exactly when the chunk count fits a `u32`. */
  lemma RoundTripExactly(key: Key, nonce: nat, plaintext: seq<byte>)
    requires nonce + ChunkCount(|plaintext|) <= MAX_NONCE
    ensures DecryptBlob(key, nonce, EncryptBlob(key, nonce, plaintext)).result == Ok(plaintext)
            <==> ChunkCount(|plaintext|) < U32_RANGE
  {
    DecryptOfEncrypt(key, nonce, plaintext, []);
    var blob := EncryptBlob(key, nonce, plaintext);
    assert blob + [] == blob;
    assert plaintext[..|plaintext|] == plaintext;
    var count := ChunkCount(|plaintext|);
    if count >= U32_RANGE {
      FirstChunks(plaintext, count % U32_RANGE);
      assert plaintext[..count % U32_RANGE * MAX_CHUNK_SIZE] != plaintext;
    }
  }

  lemma BlobLength(key: Key, nonce: nat, plaintext: seq<byte>)
    requires nonce + ChunkCount(|plaintext|) <= MAX_NONCE
    ensures |EncryptBlob(key, nonce, plaintext)| == 4 + |plaintext| + 20 * ChunkCount(|plaintext|)
    ensures forall c :: c in Chunks(plaintext) ==> |Seal(key, nonce, c)| <= 65016 <= MAX_NOISE_MESSAGE
  {
    ChunksPartition(plaintext);
    FramedLength(key, nonce, Chunks(plaintext));
  }

  // ---------------------------------------------------------------------------------------------
  // What decoding accepts
  // ---------------------------------------------------------------------------------------------

  /** `data` begins with `k` complete chunks that are valid from `nonce` on. */
  ghost predicate StartsWithChunks(key: Key, nonce: nat, data: seq<byte>, k: nat)
  {
    exists cs: seq<seq<byte>> :: IsChunkRun(key, nonce, data, k, cs)
  }

  ghost predicate IsChunkRun(key: Key, nonce: nat, data: seq<byte>, k: nat, cs: seq<seq<byte>>)
  {
    |cs| == k && AllFit(cs) && nonce + k <= MAX_NONCE && Framed(key, nonce, cs) <= data
  }

  /** The chunks a decoding read before it stopped. */
  lemma {:induction false} DecodedChunks(key: Key, nonce: nat, data: seq<byte>, count: nat) returns (cs: seq<seq<byte>>)
    requires nonce <= MAX_NONCE
    ensures IsChunkRun(key, nonce, data, DecodeChunks(key, nonce, data, count).nonce - nonce, cs)
    ensures DecodeChunks(key, nonce, data, count).result.Ok? ==>
              |cs| == count && DecodeChunks(key, nonce, data, count).result.value == Concat(cs)
    decreases count
  {
    hide Le32, FromLe32, Seal, OpenMessage, DecodeChunks, Framed;
    var d := DecodeChunks(key, nonce, data, count);
    if d.nonce > nonce {
      var p, rest := OneRead(key, nonce, data, count);
      Le32OfFromLe32(data[..4]);
      assert data == Le32(|p| + TAG_LENGTH) + Seal(key, nonce, p) + rest;
      var later := DecodedChunks(key, nonce + 1, rest, count - 1);
      cs := [p] + later;
      FramedUnfolds(key, nonce, p, later);
      assert Framed(key, nonce, cs) <= data;
    } else {
      cs := [];
      NothingRead(key, nonce, data, count);
    }
  }

  lemma OneRead(key: Key, nonce: nat, data: seq<byte>, count: nat) returns (p: seq<byte>, rest: seq<byte>)
    requires nonce <= MAX_NONCE && DecodeChunks(key, nonce, data, count).nonce > nonce
    ensures nonce < MAX_NONCE && count > 0 && |p| + TAG_LENGTH <= MAX_NOISE_MESSAGE
    ensures |data| >= 4 && FromLe32(data[..4]) == |p| + TAG_LENGTH
    ensures data[4..] == Seal(key, nonce, p) + rest
    ensures DecodeChunks(key, nonce, data, count) == Prepend(p, DecodeChunks(key, nonce + 1, rest, count - 1))
  {
    hide Le32, FromLe32, Seal;
    var len := FromLe32(data[..4]);
    var message := data[4..4 + len];
    p := OpenMessage(key, nonce, message).value;
    rest := data[4 + len..];
    SealOfOpened(key, nonce, message);
    assert data[4..] == message + rest;
  }

  lemma NothingRead(key: Key, nonce: nat, data: seq<byte>, count: nat)
    requires nonce <= MAX_NONCE && DecodeChunks(key, nonce, data, count).nonce == nonce
    ensures DecodeChunks(key, nonce, data, count).result.Ok? ==>
              count == 0 && DecodeChunks(key, nonce, data, count).result.value == []
    ensures IsChunkRun(key, nonce, data, 0, [])
  {
  }

  lemma FramedUnfolds(key: Key, nonce: nat, p: seq<byte>, later: seq<seq<byte>>)
    requires |p| + TAG_LENGTH <= MAX_NOISE_MESSAGE && AllFit(later) && nonce + 1 + |later| <= MAX_NONCE
    ensures AllFit([p] + later)
    ensures Framed(key, nonce, [p] + later) ==
            Le32(|p| + TAG_LENGTH) + Seal(key, nonce, p) + Framed(key, nonce + 1, later)
  {
    hide Le32, Seal;
    assert ([p] + later)[1..] == later;
  }

  /** A run of `k` valid chunks at the front is decoded in full, whatever follows it. */
  lemma ChunkRunIsDecoded(key: Key, nonce: nat, data: seq<byte>, count: nat, k: nat, cs: seq<seq<byte>>)
    requires nonce <= MAX_NONCE && k <= count
    requires IsChunkRun(key, nonce, data, k, cs)
    ensures nonce + k <= DecodeChunks(key, nonce, data, count).nonce
  {
    var rest := data[|Framed(key, nonce, cs)|..];
    assert data == Framed(key, nonce, cs) + rest;
    DecodePastChunks(key, nonce, cs, rest, count - k);
  }

  lemma NoChunksLeft(key: Key, nonce: nat, data: seq<byte>)
    requires nonce <= MAX_NONCE
    ensures DecodeChunks(key, nonce, data, 0) == Decoded(Ok([]), nonce)
  {
  }

  lemma WholeRunIsDecoded(key: Key, nonce: nat, data: seq<byte>, count: nat, cs: seq<seq<byte>>)
    requires nonce <= MAX_NONCE && IsChunkRun(key, nonce, data, count, cs)
    ensures DecodeChunks(key, nonce, data, count).result == Ok(Concat(cs))
  {
    hide DecodeChunks, Framed, Concat;
    var rest := data[|Framed(key, nonce, cs)|..];
    assert data == Framed(key, nonce, cs) + rest;
    DecodePastChunks(key, nonce, cs, rest, 0);
    NoChunksLeft(key, nonce + count, rest);
    assert Concat(cs) + [] == Concat(cs);
  }

  /**
   For arbitrary input: the receive nonce advances by exactly the number of complete valid chunks
   the input starts with, up to the announced count; the decryption succeeds exactly when
   that is all of them, and then returns their contents.
   */
  lemma NonceCountsValidChunks(key: Key, nonce: nat, data: seq<byte>, count: nat)
    requires nonce <= MAX_NONCE
    ensures var d := DecodeChunks(key, nonce, data, count);
            && (forall k: nat :: k <= count ==> (StartsWithChunks(key, nonce, data, k) <==> nonce + k <= d.nonce))
            && (d.result.Ok? <==> StartsWithChunks(key, nonce, data, count))
            && (forall cs :: IsChunkRun(key, nonce, data, count, cs) ==> d.result == Ok(Concat(cs)))
  {
    hide Le32, FromLe32, Seal, Framed, DecodeChunks, Concat;
    var d := DecodeChunks(key, nonce, data, count);
    var read := DecodedChunks(key, nonce, data, count);
    forall k: nat | k <= count
      ensures StartsWithChunks(key, nonce, data, k) <==> nonce + k <= d.nonce
    {
      if nonce + k <= d.nonce {
        FramedSplit(key, nonce, read[..k], read[k..]);
        assert read[..k] + read[k..] == read;
        assert IsChunkRun(key, nonce, data, k, read[..k]);
      }
      if StartsWithChunks(key, nonce, data, k) {
        var cs :| IsChunkRun(key, nonce, data, k, cs);
        ChunkRunIsDecoded(key, nonce, data, count, k, cs);
      }
    }
    forall cs | IsChunkRun(key, nonce, data, count, cs)
      ensures d.result == Ok(Concat(cs))
    {
      WholeRunIsDecoded(key, nonce, data, count, cs);
    }
  }

  /** Bytes after an accepted blob change nothing. */
  lemma TrailingBytesIgnored(key: Key, nonce: nat, data: seq<byte>, extra: seq<byte>)
    requires nonce <= MAX_NONCE
    requires DecryptBlob(key, nonce, data).result.Ok?
    ensures DecryptBlob(key, nonce, data + extra) == DecryptBlob(key, nonce, data)
  {
    hide DecodeChunks, FromLe32;
    var count := FromLe32(data[..4]);
    assert (data + extra)[..4] == data[..4] && (data + extra)[4..] == data[4..] + extra;
    MoreIsIgnored(key, nonce, data[4..], count, extra);
  }

  lemma MoreIsIgnored(key: Key, nonce: nat, data: seq<byte>, count: nat, extra: seq<byte>)
    requires nonce <= MAX_NONCE && DecodeChunks(key, nonce, data, count).result.Ok?
    ensures DecodeChunks(key, nonce, data + extra, count) == DecodeChunks(key, nonce, data, count)
  {
    hide DecodeChunks, Framed, Concat;
    var cs := DecodedChunks(key, nonce, data, count);
    var rest := data[|Framed(key, nonce, cs)|..];
    assert data == Framed(key, nonce, cs) + rest;
    assert data + extra == Framed(key, nonce, cs) + (rest + extra);
    DecodePastChunks(key, nonce, cs, rest, 0);
    DecodePastChunks(key, nonce, cs, rest + extra, 0);
    NoChunksLeft(key, nonce + count, rest);
    NoChunksLeft(key, nonce + count, rest + extra);
  }

  /** How many whole chunk frames fit in the first `length` bytes. */
  function WholeChunks(chunks: seq<seq<byte>>, length: nat): (r: nat)
  {
    if chunks == [] || length < |chunks[0]| + 20 then 0
    else 1 + WholeChunks(chunks[1..], length - |chunks[0]| - 20)
  }

  lemma {:induction false} CutFrames(key: Key, nonce: nat, chunks: seq<seq<byte>>, cut: nat)
    requires AllFit(chunks) && nonce + |chunks| <= MAX_NONCE
    requires cut < |Framed(key, nonce, chunks)|
    ensures var d := DecodeChunks(key, nonce, Framed(key, nonce, chunks)[..cut], |chunks|);
            d.result.Err? && d.nonce == nonce + WholeChunks(chunks, cut)
    decreases |chunks|
  {
    hide Le32, FromLe32, Seal;
    var len := |chunks[0]| + TAG_LENGTH;
    var sealed := Seal(key, nonce, chunks[0]);
    var tail := Framed(key, nonce + 1, chunks[1..]);
    var all := Framed(key, nonce, chunks);
    var data := all[..cut];
    if cut >= 4 {
      FrameParts(Le32(len), sealed, tail);
      assert data[..4] == all[..4];
      FromLe32OfLe32(len);
      if cut >= 4 + len {
        assert data[4..4 + len] == all[4..4 + len];
        assert data[4 + len..] == all[4 + len..][..cut - 4 - len];
        OpenExactlyWhatWasSealed(key, nonce, key, nonce, chunks[0]);
        CutFrames(key, nonce + 1, chunks[1..], cut - 4 - len);
      }
    }
  }

  /** Every strict prefix of a blob is rejected, having consumed exactly its whole chunks. */
  lemma StrictPrefixRejected(key: Key, nonce: nat, plaintext: seq<byte>, cut: nat)
    requires nonce + ChunkCount(|plaintext|) <= MAX_NONCE && ChunkCount(|plaintext|) < U32_RANGE
    requires cut < |EncryptBlob(key, nonce, plaintext)|
    ensures var d := DecryptBlob(key, nonce, EncryptBlob(key, nonce, plaintext)[..cut]);
            d.result.Err? && d.nonce == nonce + if cut < 4 then 0 else WholeChunks(Chunks(plaintext), cut - 4)
  {
    hide FromLe32, Framed, Chunks, DecodeChunks;
    var cs := Chunks(plaintext);
    var blob := EncryptBlob(key, nonce, plaintext);
    BlobParts(key, nonce, plaintext, []);
    assert blob + [] == blob;
    if cut >= 4 {
      assert blob[..cut][..4] == blob[..4];
      assert blob[..cut][4..] == (Framed(key, nonce, cs) + [])[..cut - 4];
      assert Framed(key, nonce, cs) + [] == Framed(key, nonce, cs);
      CutFrames(key, nonce, cs, cut - 4);
    }
  }

  /**
   A blob sealed from another nonce is refused without moving the receive nonce. This is what
   makes a message that was sealed but never opened a gap that stays.
   */
  lemma OutOfStepRejected(key: Key, nonce: nat, otherNonce: nat, plaintext: seq<byte>)
    requires nonce != otherNonce && otherNonce <= MAX_NONCE
    requires 0 < ChunkCount(|plaintext|) < U32_RANGE && nonce + ChunkCount(|plaintext|) <= MAX_NONCE
    ensures var d := DecryptBlob(key, otherNonce, EncryptBlob(key, nonce, plaintext));
            d.result.Err? && d.nonce == otherNonce
  {
    hide Le32, FromLe32, Seal, Chunks;
    var cs := Chunks(plaintext);
    var blob := EncryptBlob(key, nonce, plaintext);
    BlobParts(key, nonce, plaintext, []);
    assert blob + [] == blob;
    var len := |cs[0]| + TAG_LENGTH;
    FrameParts(Le32(len), Seal(key, nonce, cs[0]), Framed(key, nonce + 1, cs[1..]));
    assert blob[4..] == Le32(len) + Seal(key, nonce, cs[0]) + Framed(key, nonce + 1, cs[1..]);
    FromLe32OfLe32(len);
    if otherNonce < MAX_NONCE {
      OpenExactlyWhatWasSealed(key, nonce, key, otherNonce, cs[0]);
    }
  }
}
