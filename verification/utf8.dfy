/**
 Lossy decoding of UTF-8, as `String::from_utf8_lossy` does it: each longest part of an ill-formed
 sequence that a well-formed one could begin with becomes one replacement character (section 3.9 of
 the Unicode Standard, table 3-7 for the well-formed sequences).
 */
module Utf8 {
  import opened Bytes

  const REPLACEMENT: char := '\U{FFFD}'

  /** How many bytes should follow this first byte; -1 if no character begins with it. */
  function Following(first: byte): (r: int)
    ensures -1 <= r <= 3
  {
    if first < 0x80 then 0
    else if 0xC2 <= first <= 0xDF then 1
    else if 0xE0 <= first <= 0xEF then 2
    else if 0xF0 <= first <= 0xF4 then 3
    else -1
  }

  /** Whether `b` may stand in place `k` of a character that begins with `first`. */
  predicate Continues(first: byte, k: nat, b: byte)
  {
    && 1 <= k <= Following(first)
    && 0x80 <= b <= 0xBF
    && (k == 1 && first == 0xE0 ==> 0xA0 <= b)
    && (k == 1 && first == 0xED ==> b <= 0x9F)
    && (k == 1 && first == 0xF0 ==> 0x90 <= b)
    && (k == 1 && first == 0xF4 ==> b <= 0x8F)
  }

  /** Where the sequence that begins the bytes ends, its first `k` bytes being in place. */
  function EndFrom(bytes: seq<byte>, k: nat): (r: nat)
    requires 1 <= k <= |bytes|
    ensures k <= r <= |bytes|
    ensures forall i :: k <= i < r ==> Continues(bytes[0], i, bytes[i])
    ensures r < |bytes| ==> !Continues(bytes[0], r, bytes[r])
    decreases |bytes| - k
  {
    if k < |bytes| && Continues(bytes[0], k, bytes[k]) then EndFrom(bytes, k + 1) else k
  }

  function End(bytes: seq<byte>): (r: nat)
    requires bytes != []
    ensures 1 <= r <= |bytes|
  {
    EndFrom(bytes, 1)
  }

  function Numbers(bytes: seq<byte>): (r: seq<int>)
    ensures |r| == |bytes| && forall i :: 0 <= i < |bytes| ==> r[i] == bytes[i] as int
  {
    seq(|bytes|, i requires 0 <= i < |bytes| => bytes[i] as int)
  }

  /** The number that a well-formed sequence stands for. */
  function ScalarOf(bytes: seq<byte>): (r: int)
    requires bytes != [] && Following(bytes[0]) == |bytes| - 1
    requires forall i :: 1 <= i < |bytes| ==> Continues(bytes[0], i, bytes[i])
    ensures 0 <= r < 0xD800 || 0xE000 <= r < 0x11_0000
  {
    var b := Numbers(bytes);
    match |b|
    case 1 => b[0]
    case 2 => (b[0] - 0xC0) * 0x40 + (b[1] - 0x80)
    case 3 =>
      assert Continues(bytes[0], 1, bytes[1]) && Continues(bytes[0], 2, bytes[2]);
      (b[0] - 0xE0) * 0x1000 + (b[1] - 0x80) * 0x40 + (b[2] - 0x80)
    case _ =>
      assert Continues(bytes[0], 1, bytes[1]) && Continues(bytes[0], 2, bytes[2]) && Continues(bytes[0], 3, bytes[3]);
      (b[0] - 0xF0) * 0x4_0000 + (b[1] - 0x80) * 0x1000 + (b[2] - 0x80) * 0x40 + (b[3] - 0x80)
  }

  function FirstChar(bytes: seq<byte>): (r: char)
    requires bytes != []
  {
    var n := End(bytes);
    if Following(bytes[0]) == n - 1 then ScalarOf(bytes[..n]) as char else REPLACEMENT
  }

  function DecodeLossy(bytes: seq<byte>): (r: string)
    decreases |bytes|
  {
    if bytes == [] then "" else [FirstChar(bytes)] + DecodeLossy(bytes[End(bytes)..])
  }

  /** A sequence at the end of the bytes that more bytes could go on with; nothing if there is none. */
  function Unfinished(bytes: seq<byte>): (r: seq<byte>)
    decreases |bytes|
  {
    if bytes == [] then []
    else if End(bytes) == |bytes| && |bytes| <= Following(bytes[0]) then bytes
    else Unfinished(bytes[End(bytes)..])
  }

  /** The cut between `a` and `b` goes through a sequence. */
  predicate CutsThrough(a: seq<byte>, b: seq<byte>)
  {
    var u := Unfinished(a);
    u != [] && b != [] && Continues(u[0], |u|, b[0])
  }

  lemma EndOfMore(a: seq<byte>, b: seq<byte>)
    requires a != [] && !(End(a) == |a| && |a| <= Following(a[0]))
    ensures End(a + b) == End(a) && FirstChar(a + b) == FirstChar(a)
  {
    EndIs(a + b, End(a));
    assert (a + b)[..End(a)] == a[..End(a)];
  }

  /** The end is where the sequence stops going on. */
  lemma EndIs(bytes: seq<byte>, n: nat)
    requires 1 <= n <= |bytes| && (forall i :: 1 <= i < n ==> Continues(bytes[0], i, bytes[i]))
    requires n == |bytes| || !Continues(bytes[0], n, bytes[n])
    ensures End(bytes) == n
  {
    EndGoesTo(bytes, 1, n);
  }

  lemma {:induction false} EndGoesTo(bytes: seq<byte>, k: nat, n: nat)
    requires 1 <= k <= n <= |bytes| && (forall i :: k <= i < n ==> Continues(bytes[0], i, bytes[i]))
    ensures EndFrom(bytes, k) >= n
    ensures n == |bytes| || !Continues(bytes[0], n, bytes[n]) ==> EndFrom(bytes, k) == n
    decreases n - k
  {
    if k < n {
      EndGoesTo(bytes, k + 1, n);
    }
  }

  /** Bytes that can only continue a character are replaced one by one. */
  lemma {:induction false} StraysAreReplaced(b: seq<byte>, m: nat)
    requires m <= |b| && forall i :: 0 <= i < m ==> 0x80 <= b[i] <= 0xBF
    ensures |DecodeLossy(b)| == m + |DecodeLossy(b[m..])|
  {
    if m > 0 {
      EndIs(b, 1);
      StraysAreReplaced(b[1..], m - 1);
      assert b[1..][m - 1..] == b[m..];
    } else {
      assert b[0..] == b;
    }
  }

  lemma UnfinishedGoesOn(a: seq<byte>, b: seq<byte>)
    requires a != [] && b != [] && End(a) == |a| <= Following(a[0]) && Continues(a[0], |a|, b[0])
    ensures |DecodeLossy(a + b)| < |DecodeLossy(a)| + |DecodeLossy(b)|
  {
    hide DecodeLossy, FirstChar, EndFrom, Following;
    var whole := a + b;
    var n := End(whole);
    assert forall i :: 1 <= i < |a| ==> Continues(a[0], i, a[i]) && whole[i] == a[i];
    assert whole[|a|] == b[0];
    EndGoesTo(whole, 1, |a| + 1);
    var m := n - |a|;
    forall i | 0 <= i < m
      ensures 0x80 <= b[i] <= 0xBF
    {
      assert Continues(whole[0], |a| + i, whole[|a| + i]);
    }
    StraysAreReplaced(b, m);
    assert whole[n..] == b[m..] && a[End(a)..] == [];
    Unfolds(a);
    Unfolds([]);
    Unfolds(whole);
  }

  /** Two parts decode to the whole exactly if the cut between them goes through no sequence, and else to more. */
  lemma {:induction false} DecodeInTwo(a: seq<byte>, b: seq<byte>)
    ensures !CutsThrough(a, b) ==> DecodeLossy(a + b) == DecodeLossy(a) + DecodeLossy(b)
    ensures CutsThrough(a, b) ==> |DecodeLossy(a + b)| < |DecodeLossy(a)| + |DecodeLossy(b)|
    decreases |a|
  {
    hide DecodeLossy, Unfinished, End, FirstChar, Continues;
    Unfolds(a);
    if a == [] {
      assert a + b == b;
    } else if End(a) == |a| && |a| <= Following(a[0]) {
      if CutsThrough(a, b) {
        UnfinishedGoesOn(a, b);
      } else {
        UnfinishedStays(a, b);
      }
    } else {
      var rest := a[End(a)..];
      EndOfMore(a, b);
      Unfolds(a + b);
      assert (a + b)[End(a)..] == rest + b;
      DecodeInTwo(rest, b);
      assert [FirstChar(a)] + (DecodeLossy(rest) + DecodeLossy(b)) == DecodeLossy(a) + DecodeLossy(b);
    }
  }

  lemma Unfolds(a: seq<byte>)
    ensures a == [] ==> DecodeLossy(a) == "" && Unfinished(a) == []
    ensures a != [] ==> DecodeLossy(a) == [FirstChar(a)] + DecodeLossy(a[End(a)..])
    ensures a != [] ==>
              Unfinished(a) == if End(a) == |a| && |a| <= Following(a[0]) then a else Unfinished(a[End(a)..])
  {
  }

  lemma UnfinishedStays(a: seq<byte>, b: seq<byte>)
    requires a != [] && End(a) == |a| <= Following(a[0]) && (b != [] ==> !Continues(a[0], |a|, b[0]))
    ensures DecodeLossy(a + b) == DecodeLossy(a) + DecodeLossy(b)
  {
    var whole := a + b;
    assert forall i :: 1 <= i < |a| ==> Continues(a[0], i, a[i]) && whole[i] == a[i];
    EndIs(whole, |a|);
    assert whole[|a|..] == b && a[|a|..] == [];
  }

  function Together(chunks: seq<seq<byte>>): (r: seq<byte>)
  {
    if chunks == [] then [] else chunks[0] + Together(chunks[1..])
  }

  /** The chunks decoded one by one. */
  function Apart(chunks: seq<seq<byte>>): (r: string)
  {
    if chunks == [] then "" else DecodeLossy(chunks[0]) + Apart(chunks[1..])
  }

  /** No cut between the chunks goes through a sequence. */
  predicate CleanCuts(chunks: seq<seq<byte>>)
  {
    chunks != [] ==> !CutsThrough(chunks[0], Together(chunks[1..])) && CleanCuts(chunks[1..])
  }

  /** Chunks decoded one by one give the text of the whole exactly if no cut goes through a sequence. */
  lemma {:induction false} ApartIsTogetherExactly(chunks: seq<seq<byte>>)
    ensures Apart(chunks) == DecodeLossy(Together(chunks)) <==> CleanCuts(chunks)
    ensures |Apart(chunks)| >= |DecodeLossy(Together(chunks))|
  {
    hide DecodeLossy, CutsThrough;
    if chunks == [] {
      assert DecodeLossy([]) == "" by { NothingDecodes(); }
    } else {
      ApartIsTogetherExactly(chunks[1..]);
      DecodeInTwo(chunks[0], Together(chunks[1..]));
      SameLengths(DecodeLossy(chunks[0]), Apart(chunks[1..]), DecodeLossy(Together(chunks[1..])));
    }
  }

  lemma NothingDecodes()
    ensures DecodeLossy([]) == ""
  {
  }

  lemma SameLengths(a: string, b: string, c: string)
    ensures a + b == a + c <==> b == c
  {
    assert (a + b)[|a|..] == b && (a + c)[|a|..] == c;
  }

  /** A cut that does: the three bytes of the euro sign, cut after the first, become three replacements. */
  lemma EuroCut()
    ensures DecodeLossy([0xE2, 0x82, 0xAC]) == ['\U{20AC}']
    ensures Apart([[0xE2], [0x82, 0xAC]]) == ['\U{FFFD}', '\U{FFFD}', '\U{FFFD}']
  {
    var euro: seq<byte> := [0xE2, 0x82, 0xAC];
    EndIs(euro, 3);
    assert euro[..3] == euro && euro[3..] == [];
    EndIs([0xE2], 1);
    EndIs([0x82, 0xAC], 1);
    EndIs([0xAC], 1);
    assert [0x82, 0xAC][1..] == [0xAC];
    assert DecodeLossy([0xAC]) == [REPLACEMENT] && DecodeLossy([0x82, 0xAC]) == [REPLACEMENT, REPLACEMENT];
    assert [[0xE2], [0x82, 0xAC]][1..] == [[0x82, 0xAC]];
    assert Apart([[0x82, 0xAC]]) == DecodeLossy([0x82, 0xAC]) + Apart([]);
  }

  // ---------------------------------------------------------------------------------------------
  // Encoding
  // ---------------------------------------------------------------------------------------------

  /** A character's bytes, by division of its number: table 3-6 of the same section. */
  function EncodeChar(c: char): (r: seq<byte>)
  {
    var n := c as int;
    if n < 0x80 then [n as byte]
    else if n < 0x800 then [(0xC0 + n / 0x40) as byte, (0x80 + n % 0x40) as byte]
    else if n < 0x1_0000 then
      [(0xE0 + n / 0x1000) as byte, (0x80 + n / 0x40 % 0x40) as byte, (0x80 + n % 0x40) as byte]
    else
      [(0xF0 + n / 0x4_0000) as byte, (0x80 + n / 0x1000 % 0x40) as byte,
       (0x80 + n / 0x40 % 0x40) as byte, (0x80 + n % 0x40) as byte]
  }

  function EncodeUtf8(s: string): (r: seq<byte>)
  {
    if s == "" then [] else EncodeChar(s[0]) + EncodeUtf8(s[1..])
  }

  predicate WellFormed(bytes: seq<byte>)
  {
    && bytes != [] && Following(bytes[0]) == |bytes| - 1
    && forall i :: 1 <= i < |bytes| ==> Continues(bytes[0], i, bytes[i])
  }

  lemma EncodedIsWellFormed(c: char)
    ensures WellFormed(EncodeChar(c)) && ScalarOf(EncodeChar(c)) == c as int
  {
    var n := c as int;
    assert n == n / 0x40 * 0x40 + n % 0x40;
    assert n / 0x40 == n / 0x1000 * 0x40 + n / 0x40 % 0x40;
    assert n / 0x1000 == n / 0x4_0000 * 0x40 + n / 0x1000 % 0x40;
  }

  lemma DigitsOf(high: int, low: int)
    requires 0 <= low < 0x40
    ensures (high * 0x40 + low) / 0x40 == high && (high * 0x40 + low) % 0x40 == low
  {
  }

  lemma EncodeOfTwo(bytes: seq<byte>)
    requires WellFormed(bytes) && |bytes| <= 2
    ensures EncodeChar(ScalarOf(bytes) as char) == bytes
  {
    if |bytes| == 2 {
      assert Continues(bytes[0], 1, bytes[1]);
      DigitsOf(bytes[0] as int - 0xC0, bytes[1] as int - 0x80);
    }
  }

  lemma EncodeOfThree(bytes: seq<byte>)
    requires WellFormed(bytes) && |bytes| == 3
    ensures EncodeChar(ScalarOf(bytes) as char) == bytes
  {
    var a, b, c := bytes[0] as int - 0xE0, bytes[1] as int - 0x80, bytes[2] as int - 0x80;
    assert Continues(bytes[0], 1, bytes[1]) && Continues(bytes[0], 2, bytes[2]);
    var n := (a * 0x40 + b) * 0x40 + c;
    assert ScalarOf(bytes) == n;
    DigitsOf(a * 0x40 + b, c);
    DigitsOf(a, b);
    assert n / 0x1000 == n / 0x40 / 0x40;
  }

  lemma EncodeOfFour(bytes: seq<byte>)
    requires WellFormed(bytes) && |bytes| == 4
    ensures EncodeChar(ScalarOf(bytes) as char) == bytes
  {
    var a, b := bytes[0] as int - 0xF0, bytes[1] as int - 0x80;
    var c, d := bytes[2] as int - 0x80, bytes[3] as int - 0x80;
    assert Continues(bytes[0], 1, bytes[1]) && Continues(bytes[0], 2, bytes[2]) && Continues(bytes[0], 3, bytes[3]);
    var n := ((a * 0x40 + b) * 0x40 + c) * 0x40 + d;
    assert ScalarOf(bytes) == n;
    DigitsOf((a * 0x40 + b) * 0x40 + c, d);
    DigitsOf(a * 0x40 + b, c);
    DigitsOf(a, b);
    assert n / 0x1000 == n / 0x40 / 0x40 && n / 0x4_0000 == n / 0x1000 / 0x40;
  }

  lemma EncodeOfScalar(bytes: seq<byte>)
    requires WellFormed(bytes)
    ensures EncodeChar(ScalarOf(bytes) as char) == bytes
  {
    hide EncodeChar, ScalarOf;
    if |bytes| <= 2 {
      EncodeOfTwo(bytes);
    } else if |bytes| == 3 {
      EncodeOfThree(bytes);
    } else {
      EncodeOfFour(bytes);
    }
  }

  lemma FirstOfEncoded(c: char, rest: seq<byte>)
    ensures End(EncodeChar(c) + rest) == |EncodeChar(c)| && FirstChar(EncodeChar(c) + rest) == c
  {
    hide EncodeChar, ScalarOf, EndFrom;
    var bytes := EncodeChar(c);
    EncodedIsWellFormed(c);
    EndIs(bytes + rest, |bytes|);
    assert (bytes + rest)[..|bytes|] == bytes;
  }

  /** Every text is read back from its encoding. */
  lemma {:induction false} DecodeOfEncode(s: string)
    ensures DecodeLossy(EncodeUtf8(s)) == s
  {
    hide EncodeChar, End, FirstChar, DecodeLossy;
    Unfolds(EncodeUtf8(s));
    if s != "" {
      var bytes, rest := EncodeChar(s[0]), EncodeUtf8(s[1..]);
      EncodedIsWellFormed(s[0]);
      FirstOfEncoded(s[0], rest);
      assert (bytes + rest)[|bytes|..] == rest;
      DecodeOfEncode(s[1..]);
    }
  }

  /** And bytes in which nothing is replaced are the encoding of what they are read as. */
  lemma {:induction false} NothingElseIsRead(bytes: seq<byte>)
    requires REPLACEMENT !in DecodeLossy(bytes)
    ensures EncodeUtf8(DecodeLossy(bytes)) == bytes
    decreases |bytes|
  {
    hide EncodeChar, EndFrom, ScalarOf, DecodeLossy, FirstChar;
    Unfolds(bytes);
    if bytes != [] {
      var n := End(bytes);
      var text := DecodeLossy(bytes);
      assert text[0] == FirstChar(bytes) && text[1..] == DecodeLossy(bytes[n..]);
      assert text[0] in text;
      assert forall c :: c in text[1..] ==> c in text;
      NothingElseIsRead(bytes[n..]);
      FirstIsEncoded(bytes);
      assert bytes[..n] + bytes[n..] == bytes;
    }
  }

  lemma FirstIsEncoded(bytes: seq<byte>)
    requires bytes != [] && FirstChar(bytes) != REPLACEMENT
    ensures EncodeChar(FirstChar(bytes)) == bytes[..End(bytes)]
  {
    EncodeOfScalar(bytes[..End(bytes)]);
  }

  /** Some character's encoding begins with these bytes. */
  ghost predicate BeginsACharacter(part: seq<byte>)
  {
    exists c: char :: part <= EncodeChar(c)
  }

  /** The least byte that may stand in place `k` after these. */
  function LeastNext(first: byte, k: nat): (r: byte)
  {
    if k == 1 && first == 0xE0 then 0xA0 else if k == 1 && first == 0xF0 then 0x90 else 0x80
  }

  lemma {:induction false} CanBeCompleted(part: seq<byte>) returns (c: char)
    requires part != [] && |part| <= Following(part[0]) + 1
    requires forall i :: 1 <= i < |part| ==> Continues(part[0], i, part[i])
    ensures part <= EncodeChar(c)
    decreases Following(part[0]) + 1 - |part|
  {
    if |part| == Following(part[0]) + 1 {
      EncodeOfScalar(part);
      c := ScalarOf(part) as char;
    } else {
      var longer := part + [LeastNext(part[0], |part|)];
      forall i | 1 <= i < |longer|
        ensures Continues(longer[0], i, longer[i])
      {
      }
      c := CanBeCompleted(longer);
    }
  }

  /**
   What one replacement stands for: of bytes that no character begins with, the first alone; otherwise
   the longest part that some character's encoding begins with.
   */
  lemma EndIsLongest(bytes: seq<byte>, n: nat)
    requires 1 <= n <= |bytes|
    ensures BeginsACharacter(bytes[..1]) ==> (n <= End(bytes) <==> BeginsACharacter(bytes[..n]))
    ensures !BeginsACharacter(bytes[..1]) ==> End(bytes) == 1
  {
    hide EncodeChar, ScalarOf;
    var part := bytes[..n];
    if n <= End(bytes) && Following(bytes[0]) >= 0 {
      assert forall i :: 1 <= i < n ==> Continues(part[0], i, part[i]);
      if n > 1 {
        assert Continues(part[0], n - 1, part[n - 1]);
      }
      var c := CanBeCompleted(part);
    }
    if Following(bytes[0]) >= 0 {
      var c := CanBeCompleted(bytes[..1]);
    } else {
      EndIs(bytes, 1);
      forall c: char
        ensures !(bytes[..1] <= EncodeChar(c))
      {
        EncodedIsWellFormed(c);
      }
    }
    if BeginsACharacter(part) {
      var c: char :| part <= EncodeChar(c);
      EncodedIsWellFormed(c);
      assert forall i :: 1 <= i < n ==> Continues(bytes[0], i, bytes[i]) by {
        assert forall i :: 0 <= i < n ==> bytes[i] == part[i] == EncodeChar(c)[i];
      }
      EndGoesTo(bytes, 1, n);
    }
  }
}
