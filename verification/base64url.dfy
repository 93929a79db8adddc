/**
  Unpadded base64url (section 5 of RFC 4648), as Node's
  `Buffer.toString('base64url')` produces it: every three bytes become four
  characters of the URL-safe alphabet, a trailing one or two bytes become two
  or three characters, and no `=` padding is written.
 */
module Base64Url {
  import opened Wrappers

  type Byte = b: int | 0 <= b < 256

  /** A six-bit group: the index of one alphabet character. */
  type Sextet = x: int | 0 <= x < 64

  /** The URL-safe alphabet of section 5 of RFC 4648: `A`–`Z`, `a`–`z`,
      `0`–`9`, then `-` and `_`. */
  predicate IsAlphabetChar(c: char) {
    ('A' <= c <= 'Z') || ('a' <= c <= 'z') || ('0' <= c <= '9') || c == '-' || c == '_'
  }

  function CharOf(x: Sextet): (c: char)
    ensures IsAlphabetChar(c)
  {
    if x < 26 then ('A' as int + x) as char
    else if x < 52 then ('a' as int + (x - 26)) as char
    else if x < 62 then ('0' as int + (x - 52)) as char
    else if x == 62 then '-'
    else '_'
  }

  function SextetOf(c: char): (x: Sextet)
    requires IsAlphabetChar(c)
    ensures CharOf(x) == c
  {
    if 'A' <= c <= 'Z' then c as int - 'A' as int
    else if 'a' <= c <= 'z' then c as int - 'a' as int + 26
    else if '0' <= c <= '9' then c as int - '0' as int + 52
    else if c == '-' then 62
    else 63
  }

  /** Each alphabet character stands for exactly one sextet. */
  lemma SextetOfCharOf(x: Sextet)
    ensures SextetOf(CharOf(x)) == x
  {
  }

  /** No separator or padding character is ever produced. */
  lemma AlphabetExcludesDot(c: char)
    requires IsAlphabetChar(c)
    ensures c != '.' && c != '='
  {
  }

  predicate AllAlphabet(s: string) {
    forall i :: 0 <= i < |s| ==> IsAlphabetChar(s[i])
  }

  // Three bytes b0 b1 b2 are cut into the sextets
  //   b0 / 4,  (b0 % 4) * 16 + b1 / 16,  (b1 % 16) * 4 + b2 / 64,  b2 % 64.

  function EncodeOne(b0: Byte): string {
    [CharOf(b0 / 4), CharOf((b0 % 4) * 16)]
  }

  function EncodeTwo(b0: Byte, b1: Byte): string {
    [CharOf(b0 / 4), CharOf((b0 % 4) * 16 + b1 / 16), CharOf((b1 % 16) * 4)]
  }

  function EncodeThree(b0: Byte, b1: Byte, b2: Byte): string {
    [CharOf(b0 / 4), CharOf((b0 % 4) * 16 + b1 / 16),
     CharOf((b1 % 16) * 4 + b2 / 64), CharOf(b2 % 64)]
  }

  /** `Buffer.from(bytes).toString('base64url')`. */
  function Encode(bs: seq<Byte>): (s: string)
    ensures |s| == (4 * |bs| + 2) / 3
    ensures AllAlphabet(s)
    decreases |bs|
  {
    if |bs| == 0 then ""
    else if |bs| == 1 then EncodeOne(bs[0])
    else if |bs| == 2 then EncodeTwo(bs[0], bs[1])
    else EncodeThree(bs[0], bs[1], bs[2]) + Encode(bs[3..])
  }

  /** The output never contains `.`, which is what lets a token be cut at its dots. */
  lemma EncodeHasNoDot(bs: seq<Byte>)
    ensures '.' !in Encode(bs)
  {
    var s := Encode(bs);
    forall i | 0 <= i < |s| ensures s[i] != '.' {
      AlphabetExcludesDot(s[i]);
    }
  }

  /** The bytes of a final chunk of two, three or four characters. */
  function DecodeChunk(s: string): (r: seq<Byte>)
    requires 2 <= |s| <= 4 && AllAlphabet(s)
    ensures |r| == |s| - 1
  {
    var x0 := SextetOf(s[0]);
    var x1 := SextetOf(s[1]);
    var d0 := x0 * 4 + x1 / 16;
    if |s| == 2 then [d0]
    else
      var x2 := SextetOf(s[2]);
      var d1 := (x1 % 16) * 16 + x2 / 4;
      if |s| == 3 then [d0, d1]
      else
        var x3 := SextetOf(s[3]);
        [d0, d1, (x2 % 4) * 64 + x3]
  }

  /** Decoding of unpadded base64url text: `None` for a character outside the
      alphabet or a length that leaves a single character over. Bits of a
      final partial group that no byte needs are ignored, as Node does. */
  function Decode(s: string): (r: Option<seq<Byte>>)
    ensures r.Some? ==> AllAlphabet(s) && |s| % 4 != 1
    decreases |s|
  {
    if |s| == 0 then Some([])
    else if |s| == 1 then None
    else if |s| <= 4 then (if AllAlphabet(s) then Some(DecodeChunk(s)) else None)
    else if !AllAlphabet(s[..4]) then None
    else
      match Decode(s[4..])
      case None => None
      case Some(rest) =>
        assert s == s[..4] + s[4..];
        Some(DecodeChunk(s[..4]) + rest)
  }

  lemma DecodeEncodeOne(b0: Byte)
    ensures DecodeChunk(EncodeOne(b0)) == [b0]
  {
    SextetOfCharOf(b0 / 4);
    SextetOfCharOf((b0 % 4) * 16);
  }

  lemma DecodeEncodeTwo(b0: Byte, b1: Byte)
    ensures DecodeChunk(EncodeTwo(b0, b1)) == [b0, b1]
  {
    var x1 := (b0 % 4) * 16 + b1 / 16;
    SextetOfCharOf(b0 / 4);
    SextetOfCharOf(x1);
    SextetOfCharOf((b1 % 16) * 4);
    assert x1 / 16 == b0 % 4 && x1 % 16 == b1 / 16;
  }

  lemma DecodeEncodeThree(b0: Byte, b1: Byte, b2: Byte)
    ensures DecodeChunk(EncodeThree(b0, b1, b2)) == [b0, b1, b2]
  {
    var x1 := (b0 % 4) * 16 + b1 / 16;
    var x2 := (b1 % 16) * 4 + b2 / 64;
    SextetOfCharOf(b0 / 4);
    SextetOfCharOf(x1);
    SextetOfCharOf(x2);
    SextetOfCharOf(b2 % 64);
    assert x1 / 16 == b0 % 4 && x1 % 16 == b1 / 16;
    assert x2 / 4 == b1 % 16 && x2 % 4 == b2 / 64;
  }

  /** A chunk of two to four alphabet characters decodes on its own. */
  lemma DecodeOfChunk(s: string)
    requires 2 <= |s| <= 4 && AllAlphabet(s)
    ensures Decode(s) == Some(DecodeChunk(s))
  {
  }

  /** A longer text decodes as its first four characters followed by the rest. */
  lemma DecodeOfLonger(s: string, rest: seq<Byte>)
    requires |s| > 4 && AllAlphabet(s[..4]) && Decode(s[4..]) == Some(rest)
    ensures Decode(s) == Some(DecodeChunk(s[..4]) + rest)
  {
  }

  lemma EncodeOfLonger(bs: seq<Byte>)
    requires |bs| >= 3
    ensures Encode(bs) == EncodeThree(bs[0], bs[1], bs[2]) + Encode(bs[3..])
  {
  }

  lemma DecodeOne(b0: Byte)
    ensures Decode(EncodeOne(b0)) == Some([b0])
  {
    DecodeEncodeOne(b0);
    DecodeOfChunk(EncodeOne(b0));
  }

  lemma DecodeTwo(b0: Byte, b1: Byte)
    ensures Decode(EncodeTwo(b0, b1)) == Some([b0, b1])
  {
    DecodeEncodeTwo(b0, b1);
    DecodeOfChunk(EncodeTwo(b0, b1));
  }

  lemma DecodeShort(bs: seq<Byte>)
    requires 1 <= |bs| <= 2
    ensures Decode(Encode(bs)) == Some(bs)
  {
    if |bs| == 1 {
      assert Encode(bs) == EncodeOne(bs[0]);
      DecodeOne(bs[0]);
      assert bs == [bs[0]];
    } else {
      assert Encode(bs) == EncodeTwo(bs[0], bs[1]);
      DecodeTwo(bs[0], bs[1]);
      assert bs == [bs[0], bs[1]];
    }
  }

  lemma DecodeThreeThen(b0: Byte, b1: Byte, b2: Byte, tail: string, rest: seq<Byte>)
    requires Decode(tail) == Some(rest)
    ensures Decode(EncodeThree(b0, b1, b2) + tail) == Some([b0, b1, b2] + rest)
  {
    var head := EncodeThree(b0, b1, b2);
    var s := head + tail;
    assert s[..4] == head;
    assert s[4..] == tail;
    DecodeEncodeThree(b0, b1, b2);
    if tail == [] {
      assert s == head;
      DecodeOfChunk(head);
      assert rest == [];
      assert [b0, b1, b2] + rest == DecodeChunk(head);
    } else {
      DecodeOfLonger(s, rest);
    }
  }

  /** Decoding undoes encoding, for every byte string. */
  lemma {:induction false} DecodeEncode(bs: seq<Byte>)
    ensures Decode(Encode(bs)) == Some(bs)
    decreases |bs|
  {
    if 1 <= |bs| <= 2 {
      DecodeShort(bs);
    } else if |bs| >= 3 {
      var tail := bs[3..];
      assert [bs[0], bs[1], bs[2]] + tail == bs;
      EncodeOfLonger(bs);
      DecodeEncode(tail);
      DecodeThreeThen(bs[0], bs[1], bs[2], Encode(tail), tail);
    }
  }

  /** Distinct byte strings have distinct encodings. */
  lemma EncodeInjective(a: seq<Byte>, b: seq<Byte>)
    requires Encode(a) == Encode(b)
    ensures a == b
  {
    DecodeEncode(a);
    DecodeEncode(b);
  }
}
