/**
 The incremental splitter of the language model's event stream. Text arrives in chunks; whenever
 the buffer holds a blank line, the text before the first one is an event block and is cut off.
 This is the blank-line part of section 9.2.5 of the WHATWG HTML Standard, for "\n" line ends.
 */
module Sse {
  import opened Wrappers
  import opened Bytes
  import opened Utf8

  const BLANK_LINE: string := "\n\n"

  // ---------------------------------------------------------------------------------------------
  // Finding the first blank line
  // ---------------------------------------------------------------------------------------------

  predicate BlankAt(s: string, i: nat)
  {
    i + 2 <= |s| && s[i] == '\n' && s[i + 1] == '\n'
  }

  ghost predicate HasBlank(s: string)
  {
    exists i: nat :: BlankAt(s, i)
  }

  /** `find("\n\n")`: the leftmost blank line. */
  function Find(s: string): (r: Option<nat>)
    ensures r.Some? ==> BlankAt(s, r.value) && forall i: nat :: i < r.value ==> !BlankAt(s, i)
    ensures r.None? <==> !HasBlank(s)
  {
    if BlankAt(s, 0) then Some(0)
    else if |s| < 2 then None
    else
      FindInTail(s);
      match Find(s[1..])
      case None => None
      case Some(i) => Some(i + 1)
  }

  lemma FindInTail(s: string)
    requires |s| >= 2
    ensures forall i: nat :: 0 < i ==> (BlankAt(s, i) <==> BlankAt(s[1..], i - 1))
    ensures HasBlank(s) <==> BlankAt(s, 0) || HasBlank(s[1..])
  {
    if HasBlank(s) && !BlankAt(s, 0) {
      var i: nat :| BlankAt(s, i);
      assert BlankAt(s[1..], i - 1);
    }
    if HasBlank(s[1..]) {
      var i: nat :| BlankAt(s[1..], i);
      assert BlankAt(s, i + 1);
    }
  }

  // ---------------------------------------------------------------------------------------------
  // The one-shot split
  // ---------------------------------------------------------------------------------------------

  datatype Split = Split(blocks: seq<string>, rest: string)

  /** Cut at the leftmost blank line, again and again. */
  function SplitAll(s: string): (r: Split)
    decreases |s|
  {
    match Find(s)
    case None => Split([], s)
    case Some(pos) =>
      var later := SplitAll(s[pos + 2..]);
      Split([s[..pos]] + later.blocks, later.rest)
  }

  /** A finished block: neither it nor its junction with the blank line after it holds an earlier blank line. */
  ghost predicate IsBlock(block: string)
  {
    !HasBlank(block + "\n")
  }

  /** The text that blocks and a rest come from. */
  function Join(blocks: seq<string>, rest: string): (r: string)
  {
    if blocks == [] then rest else blocks[0] + BLANK_LINE + Join(blocks[1..], rest)
  }

  ghost predicate IsSplitOf(s: string, p: Split)
  {
    && s == Join(p.blocks, p.rest)
    && (forall i :: 0 <= i < |p.blocks| ==> IsBlock(p.blocks[i]))
    && !HasBlank(p.rest)
  }

  lemma FirstBlockFound(block: string, tail: string)
    requires IsBlock(block)
    ensures Find(block + BLANK_LINE + tail) == Some(|block|)
  {
    var s := block + BLANK_LINE + tail;
    assert BlankAt(s, |block|);
    forall i: nat | i < |block|
      ensures !BlankAt(s, i)
    {
      assert BlankAt(s, i) ==> BlankAt(block + "\n", i);
    }
    assert HasBlank(s);
  }

  lemma CutIsBlock(s: string, pos: nat)
    requires Find(s) == Some(pos)
    ensures IsBlock(s[..pos]) && s == s[..pos] + BLANK_LINE + s[pos + 2..]
  {
    var block := s[..pos];
    forall i: nat
      ensures !BlankAt(block + "\n", i)
    {
      assert BlankAt(block + "\n", i) ==> BlankAt(s, i);
    }
  }

  /** The split is the only way to read the text as finished blocks and an unfinished rest. */
  lemma {:induction false} SplitIsTheOnlyOne(s: string, p: Split)
    ensures IsSplitOf(s, p) <==> p == SplitAll(s)
    decreases |s|
  {
    hide SplitAll, Find, HasBlank, IsBlock;
    SplitUnfolds(s);
    if Find(s).Some? {
      var pos := Find(s).value;
      CutIsBlock(s, pos);
      var later := SplitAll(s[pos + 2..]);
      SplitIsTheOnlyOne(s[pos + 2..], later);
      assert ([s[..pos]] + later.blocks)[1..] == later.blocks;
    }
    if IsSplitOf(s, p) && p.blocks != [] {
      var block, tail := p.blocks[0], Join(p.blocks[1..], p.rest);
      FirstBlockFound(block, tail);
      assert s[..|block|] == block && s[|block| + 2..] == tail;
      SplitIsTheOnlyOne(tail, Split(p.blocks[1..], p.rest));
      assert p.blocks == [block] + p.blocks[1..];
    }
  }

  lemma FindStaysLeftmost(a: string, b: string)
    requires Find(a).Some?
    ensures Find(a + b) == Find(a)
  {
    var pos := Find(a).value;
    assert BlankAt(a + b, pos);
    forall i: nat | i < pos
      ensures !BlankAt(a + b, i)
    {
      assert BlankAt(a + b, i) ==> BlankAt(a, i);
    }
    assert HasBlank(a + b);
  }

  /** Splitting a text and then its rest with more text is splitting it all at once. */
  lemma {:induction false} SplitOfMore(a: string, b: string)
    ensures var first := SplitAll(a);
            var second := SplitAll(first.rest + b);
            SplitAll(a + b) == Split(first.blocks + second.blocks, second.rest)
    decreases |a|
  {
    hide *;
    SplitUnfolds(a);
    if Find(a).Some? {
      var pos := Find(a).value;
      FindStaysLeftmost(a, b);
      assert (a + b)[..pos] == a[..pos];
      assert (a + b)[pos + 2..] == a[pos + 2..] + b;
      SplitUnfolds(a + b);
      SplitOfMore(a[pos + 2..], b);
      var later := SplitAll(a[pos + 2..]);
      var second := SplitAll(later.rest + b);
      assert [a[..pos]] + (later.blocks + second.blocks) == [a[..pos]] + later.blocks + second.blocks;
    } else {
      assert [] + SplitAll(a + b).blocks == SplitAll(a + b).blocks;
    }
  }

  /** A text that neither has two line feeds in a row nor ends in one is cut off before two that follow it. */
  lemma CutThere(block: string, later: string)
    requires forall i :: 0 <= i < |block| && block[i] == '\n' ==> i + 1 < |block| && block[i + 1] != '\n'
    ensures SplitAll(block + "\n\n" + later) == Split([block] + SplitAll(later).blocks, SplitAll(later).rest)
  {
    hide SplitAll, Find;
    var s := block + "\n\n" + later;
    forall i: nat
      ensures !BlankAt(block + "\n", i)
    {
    }
    assert BLANK_LINE == "\n\n";
    FirstBlockFound(block, later);
    SplitUnfolds(s);
    assert s[..|block|] == block && s[|block| + 2..] == later;
  }

  /** And a text without two line feeds in a row is left as it is. */
  lemma CutNowhere(s: string)
    requires forall i :: 0 <= i < |s| - 1 && s[i] == '\n' ==> s[i + 1] != '\n'
    ensures SplitAll(s) == Split([], s)
  {
    hide SplitAll, Find;
    forall i: nat
      ensures !BlankAt(s, i)
    {
    }
    SplitUnfolds(s);
  }

  lemma SplitUnfolds(s: string)
    ensures Find(s).None? ==> SplitAll(s) == Split([], s)
    ensures Find(s).Some? ==>
              && Find(s).value + 2 <= |s|
              && var pos := Find(s).value;
              var later := SplitAll(s[pos + 2..]);
              SplitAll(s) == Split([s[..pos]] + later.blocks, later.rest)
  {
    hide Find, BlankAt, HasBlank;
    var found := Find(s);
    FindFits(s);
  }

  lemma FindFits(s: string)
    ensures Find(s).Some? ==> Find(s).value + 2 <= |s|
  {
  }

  // ---------------------------------------------------------------------------------------------
  // Chunks
  // ---------------------------------------------------------------------------------------------

  function Flatten(chunks: seq<string>): (r: string)
  {
    if chunks == [] then "" else Flatten(chunks[..|chunks| - 1]) + chunks[|chunks| - 1]
  }

  /** The chunks received before the stream ends or reports an error. */
  function Received(stream: seq<Option<seq<byte>>>): (r: seq<seq<byte>>)
  {
    if stream == [] || stream[0].None? then [] else [stream[0].value] + Received(stream[1..])
  }

  /** These are the chunks before the first error, or all of them. */
  lemma {:induction false} ReceivedExactly(stream: seq<Option<seq<byte>>>, n: nat)
    requires n <= |stream| && (forall i :: 0 <= i < n ==> stream[i].Some?) && (n < |stream| ==> stream[n].None?)
    ensures |Received(stream)| == n && forall i :: 0 <= i < n ==> Received(stream)[i] == stream[i].value
  {
    if n > 0 {
      ReceivedExactly(stream[1..], n - 1);
      assert forall i :: 1 <= i < n ==> stream[i] == stream[1..][i - 1];
    }
  }

  /** Each chunk is decoded by itself. */
  function Texts(chunks: seq<seq<byte>>): (r: seq<string>)
  {
    if chunks == [] then [] else [DecodeLossy(chunks[0])] + Texts(chunks[1..])
  }

  /** The sentence an event block asks to be spoken, by the strip of "data: " and the reader of its JSON. */
  function SentenceOf(block: string, read: string -> Option<string>): (r: Option<string>)
  {
    if |block| < 6 || block[..6] != "data: " then None
    else match read(block[6..])
         case Some(text) => if text == "" then None else Some(text)
         case None => None
  }

  function Sentences(blocks: seq<string>, read: string -> Option<string>): (r: seq<string>)
  {
    if blocks == [] then []
    else
      var n := |blocks| - 1;
      Sentences(blocks[..n], read) + match SentenceOf(blocks[n], read) case Some(t) => [t] case None => []
  }

  /** What is spoken of a block: the text that the reader finds behind "data: ", unless it is empty. */
  lemma SpokenExactly(block: string, read: string -> Option<string>, spoken: string)
    ensures SentenceOf(block, read) == Some(spoken) <==>
            spoken != "" && exists data: string :: block == "data: " + data && read(data) == Some(spoken)
  {
    if |block| >= 6 && block[..6] == "data: " {
      assert block == "data: " + block[6..];
    }
    forall data: string | block == "data: " + data
      ensures data == block[6..]
    {
    }
  }

  /** Blocks are spoken in their order. */
  lemma {:induction false} SpokenInOrder(a: seq<string>, block: string, b: seq<string>, read: string -> Option<string>)
    ensures Sentences([], read) == []
    ensures Sentences(a + [block] + b, read) ==
            Sentences(a, read) + (match SentenceOf(block, read) case Some(t) => [t] case None => [])
            + Sentences(b, read)
  {
    hide SentenceOf;
    if b == [] {
      SentencesSnoc(a, block, read);
      assert a + [block] + b == a + [block];
    } else {
      var n := |b| - 1;
      SpokenInOrder(a, block, b[..n], read);
      SentencesSnoc(a + [block] + b[..n], b[n], read);
      assert a + [block] + b == a + [block] + b[..n] + [b[n]];
      assert b == b[..n] + [b[n]];
      SentencesSnoc(b[..n], b[n], read);
    }
  }

  lemma SentencesSnoc(blocks: seq<string>, block: string, read: string -> Option<string>)
    ensures Sentences(blocks + [block], read)
            == Sentences(blocks, read) + match SentenceOf(block, read) case Some(t) => [t] case None => []
  {
    assert (blocks + [block])[..|blocks|] == blocks;
  }

  lemma FlattenSnoc(chunks: seq<string>, chunk: string)
    ensures Flatten(chunks + [chunk]) == Flatten(chunks) + chunk
  {
    assert (chunks + [chunk])[..|chunks|] == chunks;
  }

  lemma NothingYet(read: string -> Option<string>)
    ensures Sentences([], read) == [] && Flatten([]) == "" && SplitAll("") == Split([], "")
  {
  }

  lemma ReceivedUnfolds(stream: seq<Option<seq<byte>>>)
    ensures Texts(Received(stream)) ==
            if stream == [] || stream[0].None? then []
            else [DecodeLossy(stream[0].value)] + Texts(Received(stream[1..]))
  {
    hide DecodeLossy;
    if stream != [] && stream[0].Some? {
      assert Received(stream)[1..] == Received(stream[1..]);
    }
  }

  class EventReader {
    var buffer: string
    /** The sentences handed on to speech so far, in order. */
    var spoken: seq<string>
    ghost var blocks: seq<string>

    constructor ()
      ensures buffer == "" && spoken == [] && blocks == []
    {
      buffer, spoken, blocks := "", [], [];
    }

    /**
     One chunk: decode and append it, then take off every finished block; each round shortens the buffer
     by two or more.
     */
    method Push(chunk: seq<byte>, read: string -> Option<string>)
      modifies this
      ensures var p := SplitAll(old(buffer) + DecodeLossy(chunk));
              Split(blocks, buffer) == Split(old(blocks) + p.blocks, p.rest)
      ensures old(spoken) == Sentences(old(blocks), read) ==> spoken == Sentences(blocks, read)
    {
      hide Find, SplitAll, SentenceOf, Sentences, DecodeLossy;
      buffer := buffer + DecodeLossy(chunk);
      ghost var whole := SplitAll(buffer);
      ghost var done: seq<string> := [];
      var pos := Find(buffer);
      while pos.Some?
        invariant pos == Find(buffer)
        invariant blocks == old(blocks) + done
        invariant whole == Split(done + SplitAll(buffer).blocks, SplitAll(buffer).rest)
        invariant old(spoken) == Sentences(old(blocks), read) ==> spoken == Sentences(blocks, read)
        decreases |buffer|
      {
        SplitUnfolds(buffer);
        var line := buffer[..pos.value];
        ghost var later := SplitAll(buffer[pos.value + 2..]);
        assert done + ([line] + later.blocks) == done + [line] + later.blocks;
        assert old(blocks) + (done + [line]) == old(blocks) + done + [line];
        SentencesSnoc(blocks, line, read);
        buffer := buffer[pos.value + 2..];
        done, blocks := done + [line], blocks + [line];
        var sentence := SentenceOf(line, read);
        if sentence.Some? {
          spoken := spoken + [sentence.value];
        }
        pos := Find(buffer);
      }
      SplitUnfolds(buffer);
      assert done + [] == done;
    }

    /** The loop over the stream: it ends with the stream or at its first error. */
    method Consume(stream: seq<Option<seq<byte>>>, read: string -> Option<string>)
      requires buffer == "" && spoken == [] && blocks == []
      modifies this
      ensures Split(blocks, buffer) == SplitAll(Flatten(Texts(Received(stream))))
      ensures spoken == Sentences(SplitAll(Flatten(Texts(Received(stream)))).blocks, read)
    {
      hide Find, SplitAll, SentenceOf, Sentences, Received, Texts, Flatten, DecodeLossy;
      var i := 0;
      ghost var seen: seq<string> := [];
      NothingYet(read);
      assert stream[0..] == stream;
      while i < |stream| && stream[i].Some?
        invariant 0 <= i <= |stream|
        invariant Texts(Received(stream)) == seen + Texts(Received(stream[i..]))
        invariant Split(blocks, buffer) == SplitAll(Flatten(seen))
        invariant spoken == Sentences(blocks, read)
      {
        var chunk := stream[i].value;
        ghost var text := DecodeLossy(chunk);
        ReceivedUnfolds(stream[i..]);
        SplitOfMore(Flatten(seen), text);
        FlattenSnoc(seen, text);
        assert stream[i..][1..] == stream[i + 1..];
        assert seen + ([text] + Texts(Received(stream[i + 1..]))) == seen + [text] + Texts(Received(stream[i + 1..]));
        Push(chunk, read);
        seen := seen + [text];
        i := i + 1;
      }
      ReceivedUnfolds(stream[i..]);
      assert seen + [] == seen;
    }
  }

  /** Blocks and buffer after feeding chunks one by one. */
  function FeedAll(chunks: seq<string>): (r: Split)
  {
    if chunks == [] then Split([], "")
    else
      var before := FeedAll(chunks[..|chunks| - 1]);
      var next := SplitAll(before.rest + chunks[|chunks| - 1]);
      Split(before.blocks + next.blocks, next.rest)
  }

  lemma {:induction false} FeedIsOneShot(chunks: seq<string>)
    ensures FeedAll(chunks) == SplitAll(Flatten(chunks))
  {
    if chunks != [] {
      FeedIsOneShot(chunks[..|chunks| - 1]);
      SplitOfMore(Flatten(chunks[..|chunks| - 1]), chunks[|chunks| - 1]);
    }
  }

  /** However a text is cut into chunks, the blocks and the left-over buffer are the same. */
  lemma ChunkingDoesNotMatter(chunks: seq<string>, others: seq<string>)
    requires Flatten(chunks) == Flatten(others)
    ensures FeedAll(chunks) == FeedAll(others)
    ensures IsSplitOf(Flatten(chunks), FeedAll(chunks))
  {
    FeedIsOneShot(chunks);
    FeedIsOneShot(others);
    SplitIsTheOnlyOne(Flatten(chunks), FeedAll(chunks));
  }

  // ---------------------------------------------------------------------------------------------
  // Chunks of bytes
  // ---------------------------------------------------------------------------------------------

  lemma {:induction false} FlattenCons(first: string, rest: seq<string>)
    ensures Flatten([first] + rest) == first + Flatten(rest)
  {
    if rest == [] {
      assert [first] + rest == [first] && [first][..0] == [];
    } else {
      var n := |rest| - 1;
      FlattenCons(first, rest[..n]);
      assert ([first] + rest)[..n + 1] == [first] + rest[..n];
      assert first + (Flatten(rest[..n]) + rest[n]) == first + Flatten(rest[..n]) + rest[n];
    }
  }

  lemma {:induction false} TextsAreApart(chunks: seq<seq<byte>>)
    ensures Flatten(Texts(chunks)) == Apart(chunks)
  {
    hide DecodeLossy;
    if chunks != [] {
      TextsAreApart(chunks[1..]);
      FlattenCons(DecodeLossy(chunks[0]), Texts(chunks[1..]));
    }
  }

  lemma SplitIsFaithful(s: string, t: string)
    requires SplitAll(s) == SplitAll(t)
    ensures s == t
  {
    SplitIsTheOnlyOne(s, SplitAll(s));
    SplitIsTheOnlyOne(t, SplitAll(t));
  }

  /**
   For a stream of bytes, however it is cut: the blocks and the rest are those of its whole text
   exactly if no cut goes through a character.
   */
  lemma ByteChunksExactly(chunks: seq<seq<byte>>)
    ensures FeedAll(Texts(chunks)) == SplitAll(DecodeLossy(Together(chunks))) <==> CleanCuts(chunks)
  {
    hide SplitAll, DecodeLossy, FeedAll, Texts, Flatten, CleanCuts;
    FeedIsOneShot(Texts(chunks));
    TextsAreApart(chunks);
    ApartIsTogetherExactly(chunks);
    var apart, whole := Apart(chunks), DecodeLossy(Together(chunks));
    if SplitAll(apart) == SplitAll(whole) {
      SplitIsFaithful(apart, whole);
    }
  }
}
