/** JSON, reduced to what the wire needs of it: a writer and a reader that undoes it. */
module Json {
  import opened Wrappers
  import opened Bytes

  datatype Codec<!T> = Codec(write: T -> seq<byte>, read: seq<byte> -> Option<T>)

  ghost predicate Faithful<T(!new)>(c: Codec<T>)
  {
    forall t: T :: c.read(c.write(t)) == Some(t)
  }
}

/** Length-prefixed messages, as values and on the streams that carry them. */
module Framing {
  import opened Wrappers
  import opened Bytes
  import opened Json

  datatype FrameError = NotEnoughForLength | NotEnoughForMessage | DecodeFailed

  /** `Message::encode`: the length is cast to `u32`. */
  function Encode<T>(c: Codec<T>, m: T): (r: seq<byte>)
    ensures |r| == 4 + |c.write(m)|
  {
    var data := c.write(m);
    Le32(|data| % U32_RANGE) + data
  }

  /** `Message::decode`: the message and the number of bytes it took. */
  function Decode<T>(c: Codec<T>, bytes: seq<byte>): (r: Result<(T, nat), FrameError>)
    ensures r.Ok? ==> 4 <= r.value.1 <= |bytes|
  {
    if |bytes| < 4 then Err(NotEnoughForLength)
    else
      var len := FromLe32(bytes[..4]);
      if |bytes| < 4 + len then Err(NotEnoughForMessage)
      else
        match c.read(bytes[4..4 + len])
        case None => Err(DecodeFailed)
        case Some(m) => Ok((m, 4 + len))
  }

  /**
   A frame followed by anything decodes to its message and its own length, exactly when the
   message's text is shorter than 2^32 bytes.
   */
  lemma DecodeOfEncode<T(!new)>(c: Codec<T>, m: T, extra: seq<byte>)
    requires Faithful(c)
    ensures Decode(c, Encode(c, m) + extra) == Ok((m, |Encode(c, m)|)) <==> |c.write(m)| < U32_RANGE
  {
    hide Le32, FromLe32;
    var data := c.write(m);
    var len := |data| % U32_RANGE;
    FromLe32OfLe32(len);
    var bytes := Encode(c, m) + extra;
    assert bytes == Le32(len) + (data + extra);
    assert bytes[..4] == Le32(len);
    if |data| < U32_RANGE {
      assert bytes[4..4 + len] == data;
    }
  }

  /** A frame is the length of its text, modulo 2^32, in four bytes with the least significant first, and the text. */
  lemma FrameLayout<T(!new)>(c: Codec<T>, m: T)
    ensures var frame := Encode(c, m);
            && |frame| >= 4 && frame[4..] == c.write(m)
            && LittleEndian(frame[..4]) == |c.write(m)| % 0x1_0000_0000
  {
    hide Le32, LittleEndian;
    var len := |c.write(m)| % U32_RANGE;
    Le32IsLittleEndian(len);
    assert Encode(c, m)[..4] == Le32(len);
  }

  lemma StrictPrefixIsError<T(!new)>(c: Codec<T>, m: T, cut: nat)
    requires |c.write(m)| < U32_RANGE
    requires cut < |Encode(c, m)|
    ensures Decode(c, Encode(c, m)[..cut]) == Err(if cut < 4 then NotEnoughForLength else NotEnoughForMessage)
  {
    hide Le32, FromLe32;
    var len := |c.write(m)|;
    FromLe32OfLe32(len);
    if cut >= 4 {
      assert Encode(c, m)[..cut][..4] == Le32(len);
    }
  }

  // ---------------------------------------------------------------------------------------------
  // Many messages on one stream
  // ---------------------------------------------------------------------------------------------

  function EncodeAll<T>(c: Codec<T>, ms: seq<T>): (r: seq<byte>)
  {
    if ms == [] then [] else Encode(c, ms[0]) + EncodeAll(c, ms[1..])
  }

  lemma EncodeAllUnfolds<T>(c: Codec<T>, ms: seq<T>)
    ensures EncodeAll(c, ms) == if ms == [] then [] else Encode(c, ms[0]) + EncodeAll(c, ms[1..])
  {
  }

  lemma {:induction false} EncodeAllSnoc<T>(c: Codec<T>, ms: seq<T>, m: T)
    ensures EncodeAll(c, ms + [m]) == EncodeAll(c, ms) + Encode(c, m)
  {
    if ms == [] {
      assert ms + [m] == [m] && [m][1..] == [];
    } else {
      EncodeAllSnoc(c, ms[1..], m);
      assert (ms + [m])[1..] == ms[1..] + [m];
    }
  }

  /** The outcome of reading `count` messages one after the other. */
  function DecodeAll<T>(c: Codec<T>, bytes: seq<byte>, count: nat): (r: Result<seq<T>, FrameError>)
    decreases count
  {
    if count == 0 then Ok([])
    else
      match Decode(c, bytes)
      case Err(e) => Err(e)
      case Ok((m, used)) =>
        match DecodeAll(c, bytes[used..], count - 1)
        case Err(e) => Err(e)
        case Ok(ms) => Ok([m] + ms)
  }

  /** Messages written back to back are read back as that list, whatever follows them. */
  lemma {:induction false} DecodeAllOfEncodeAll<T(!new)>(c: Codec<T>, ms: seq<T>, extra: seq<byte>)
    requires Faithful(c)
    requires forall m :: m in ms ==> |c.write(m)| < U32_RANGE
    ensures DecodeAll(c, EncodeAll(c, ms) + extra, |ms|) == Ok(ms)
  {
    hide Encode, Decode;
    if ms != [] {
      var rest := EncodeAll(c, ms[1..]) + extra;
      var bytes := EncodeAll(c, ms) + extra;
      assert bytes == Encode(c, ms[0]) + rest;
      DecodeOfEncode(c, ms[0], rest);
      assert bytes[|Encode(c, ms[0])|..] == rest;
      DecodeAllOfEncodeAll(c, ms[1..], extra);
      assert [ms[0]] + ms[1..] == ms;
    }
  }

  /** Two message lists of which one stream is a prefix of the other agree as far as the shorter goes. */
  lemma FramingIsUniquelyDecodable<T(!new)>(c: Codec<T>, ms: seq<T>, ns: seq<T>, extra: seq<byte>)
    requires Faithful(c)
    requires forall m :: m in ms || m in ns ==> |c.write(m)| < U32_RANGE
    requires |ms| <= |ns|
    requires EncodeAll(c, ms) + extra == EncodeAll(c, ns)
    ensures ms == ns[..|ms|]
  {
    var front, back := ns[..|ms|], ns[|ms|..];
    assert ns == front + back;
    EncodeAllSplit(c, front, back);
    DecodeAllOfEncodeAll(c, ms, extra);
    DecodeAllOfEncodeAll(c, front, EncodeAll(c, back));
  }

  lemma {:induction false} EncodeAllSplit<T>(c: Codec<T>, front: seq<T>, back: seq<T>)
    ensures EncodeAll(c, front + back) == EncodeAll(c, front) + EncodeAll(c, back)
  {
    if front == [] {
      assert front + back == back;
    } else {
      EncodeAllSplit(c, front[1..], back);
      assert (front + back)[1..] == front[1..] + back;
    }
  }

  // ---------------------------------------------------------------------------------------------
  // The streams
  // ---------------------------------------------------------------------------------------------

  class SendStream {
    var written: seq<byte>

    constructor ()
      ensures written == []
    {
      written := [];
    }
  }

  class RecvStream {
    const bytes: seq<byte>
    var position: nat

    ghost predicate Valid()
      reads this
    {
      position <= |bytes|
    }

    constructor (bytes: seq<byte>)
      ensures Valid() && this.bytes == bytes && position == 0
    {
      this.bytes := bytes;
      position := 0;
    }

    function Rest(): seq<byte>
      requires Valid()
      reads this
    {
      bytes[position..]
    }

    /** `read_exact`: a stream that ends early is used up. */
    method ReadExact(n: nat) returns (r: Option<seq<byte>>)
      requires Valid()
      modifies this
      ensures Valid()
      ensures n <= |old(Rest())| ==> r == Some(old(Rest())[..n]) && Rest() == old(Rest())[n..]
      ensures n > |old(Rest())| ==> r == None && Rest() == []
    {
      if position + n <= |bytes| {
        assert bytes[position..position + n] == Rest()[..n];
        assert bytes[position + n..] == Rest()[n..];
        r := Some(bytes[position..position + n]);
        position := position + n;
      } else {
        r := None;
        position := |bytes|;
      }
    }
  }

  method WriteMessage<T>(send: SendStream, c: Codec<T>, m: T)
    modifies send
    ensures send.written == old(send.written) + Encode(c, m)
  {
    send.written := send.written + Encode(c, m);
  }

  method ReadMessage<T>(recv: RecvStream, c: Codec<T>) returns (r: Result<T, FrameError>)
    requires recv.Valid()
    modifies recv
    ensures recv.Valid()
    ensures match Decode(c, old(recv.Rest()))
            case Ok((m, used)) => r == Ok(m) && recv.Rest() == old(recv.Rest())[used..]
            case Err(e) => r == Err(e)
  {
    ghost var rest := recv.Rest();
    var lenBuf := recv.ReadExact(4);
    if lenBuf.None? {
      return Err(NotEnoughForLength);
    }
    var msgLen := FromLe32(lenBuf.value);
    var body := recv.ReadExact(msgLen);
    if body.None? {
      return Err(NotEnoughForMessage);
    }
    var buf := lenBuf.value + body.value;
    assert buf == rest[..4 + msgLen];
    assert buf[..4] == lenBuf.value && buf[4..4 + msgLen] == body.value == rest[4..4 + msgLen];
    match Decode(c, buf) {
      case Err(e) => r := Err(e);
      case Ok((m, _)) => r := Ok(m);
    }
  }

  method WriteAll<T>(send: SendStream, c: Codec<T>, ms: seq<T>)
    modifies send
    ensures send.written == old(send.written) + EncodeAll(c, ms)
  {
    hide Encode, EncodeAll;
    EncodeAllUnfolds(c, []);
    assert ms[..0] == [];
    for i := 0 to |ms|
      invariant send.written == old(send.written) + EncodeAll(c, ms[..i])
    {
      WriteMessage(send, c, ms[i]);
      EncodeAllSnoc(c, ms[..i], ms[i]);
      assert ms[..i] + [ms[i]] == ms[..i + 1];
    }
    assert ms[..|ms|] == ms;
  }

  function Continued<T>(got: seq<T>, more: Result<seq<T>, FrameError>): (r: Result<seq<T>, FrameError>)
  {
    match more
    case Ok(ms) => Ok(got + ms)
    case Err(e) => Err(e)
  }

  lemma DecodeAllUnfolds<T>(c: Codec<T>, bytes: seq<byte>, count: nat, got: seq<T>)
    ensures count == 0 ==> Continued(got, DecodeAll(c, bytes, count)) == Ok(got)
    ensures count > 0 && Decode(c, bytes).Err? ==>
              Continued(got, DecodeAll(c, bytes, count)) == Err(Decode(c, bytes).error)
    ensures count > 0 && Decode(c, bytes).Ok? ==>
              var (m, used) := Decode(c, bytes).value;
              used <= |bytes|
              && Continued(got, DecodeAll(c, bytes, count))
                 == Continued(got + [m], DecodeAll(c, bytes[used..], count - 1))
  {
    hide Decode;
    assert got + [] == got;
    if count > 0 && Decode(c, bytes).Ok? {
      var (m, used) := Decode(c, bytes).value;
      var later := DecodeAll(c, bytes[used..], count - 1);
      if later.Ok? {
        assert got + ([m] + later.value) == got + [m] + later.value;
      }
    }
  }

  /** Reading so many messages answers as decoding them from the rest of the stream does. */
  method ReadAll<T>(recv: RecvStream, c: Codec<T>, count: nat) returns (r: Result<seq<T>, FrameError>)
    requires recv.Valid()
    modifies recv
    ensures recv.Valid() && r == DecodeAll(c, old(recv.Rest()), count)
  {
    hide Decode, DecodeAll;
    var got: seq<T> := [];
    ghost var all := DecodeAll(c, recv.Rest(), count);
    assert all == Continued([], all) by { assert all.Ok? ==> [] + all.value == all.value; }
    for i := 0 to count
      invariant recv.Valid() && all == Continued(got, DecodeAll(c, recv.Rest(), count - i))
    {
      DecodeAllUnfolds(c, recv.Rest(), count - i, got);
      var m := ReadMessage(recv, c);
      if m.Err? {
        return Err(m.error);
      }
      got := got + [m.value];
    }
    DecodeAllUnfolds(c, recv.Rest(), 0, got);
    return Ok(got);
  }

  /** A writer and a reader of one stream: the reader gets the list that was written. */
  method SendAndReceive<T(!new)>(c: Codec<T>, ms: seq<T>) returns (got: seq<T>)
    requires Faithful(c)
    requires forall m :: m in ms ==> |c.write(m)| < U32_RANGE
    ensures got == ms
  {
    hide Encode, Decode, EncodeAll, DecodeAll, Faithful;
    var send := new SendStream();
    WriteAll(send, c, ms);
    var recv := new RecvStream(send.written);
    DecodeAllOfEncodeAll(c, ms, []);
    assert recv.Rest() == EncodeAll(c, ms) + [];
    var r := ReadAll(recv, c, |ms|);
    got := r.value;
  }
}
