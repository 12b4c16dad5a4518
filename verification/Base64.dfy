/** The canonical base64 checker (client.rs:1801-1835) against the encoder of RFC 4648, sections 3.5 and 4. */
module Base64 {
  import opened Prelude

  type Byte = n: nat | n < 256
  type Sextet = n: nat | n < 64

  const PAD: Byte := 61

  function Base64Value(byte: Byte): Option<Sextet> {
    if 65 <= byte <= 90 then Some(byte - 65)
    else if 97 <= byte <= 122 then Some(byte - 97 + 26)
    else if 48 <= byte <= 57 then Some(byte - 48 + 52)
    else if byte == 43 then Some(62)
    else if byte == 47 then Some(63)
    else None
  }

  predicate IsData(byte: Byte) {
    Base64Value(byte).Some?
  }

  function TrailingPads(input: seq<Byte>): (n: nat)
    ensures n <= |input|
    ensures n < |input| ==> input[|input| - n - 1] != PAD
  {
    if input == [] || input[|input| - 1] != PAD then 0 else 1 + TrailingPads(input[..|input| - 1])
  }

  /** Length of the decoded bytes, when the text is canonical: whole blocks, at most two pads, only alphabet
      characters before them, and zero bits where the pads begin. */
  function CanonicalDecodedLen(input: seq<Byte>): Option<nat> {
    if |input| % 4 != 0 then None
    else
      var padding := TrailingPads(input);
      if padding > 2 then None
      else
        var dataLen := |input| - padding;
        if exists i :: 0 <= i < dataLen && !IsData(input[i]) then None
        else if exists i :: dataLen <= i < |input| && input[i] != PAD then None
        else if padding == 1 && (dataLen == 0 || Base64Value(input[dataLen - 1]).value % 4 != 0) then None
        else if padding == 2 && (dataLen == 0 || Base64Value(input[dataLen - 1]).value % 16 != 0) then None
        else if |input| / 4 * 3 < padding then None
        else Some(|input| / 4 * 3 - padding)
  }

  // ----- The standard encoder -----

  /** The alphabet of RFC 4648 section 4. */
  function Digit(value: Sextet): (byte: Byte)
    ensures Base64Value(byte) == Some(value) && byte != PAD
  {
    if value < 26 then 65 + value
    else if value < 52 then 97 + value - 26
    else if value < 62 then 48 + value - 52
    else if value == 62 then 43
    else 47
  }

  /** Capital letters, small letters, figures, plus and slash, in this order; the pad is an equals sign. */
  lemma DigitsAreTheAlphabet(value: Sextet)
    ensures Digit(value) == if value < 26 then 'A' as int + value
                            else if value < 52 then 'a' as int + (value - 26)
                            else if value < 62 then '0' as int + (value - 52)
                            else if value == 62 then '+' as int
                            else '/' as int
    ensures PAD == '=' as int
  {
  }

  function EncodeBlock(b0: Byte, b1: Byte, b2: Byte): (quad: seq<Byte>)
    ensures |quad| == 4 && forall i :: 0 <= i < 4 ==> IsData(quad[i])
  {
    [Digit(b0 / 4), Digit(b0 % 4 * 16 + b1 / 16), Digit(b1 % 16 * 4 + b2 / 64), Digit(b2 % 64)]
  }

  function Encode(bytes: seq<Byte>): seq<Byte> {
    if bytes == [] then []
    else if |bytes| == 1 then [Digit(bytes[0] / 4), Digit(bytes[0] % 4 * 16), PAD, PAD]
    else if |bytes| == 2 then
      [Digit(bytes[0] / 4), Digit(bytes[0] % 4 * 16 + bytes[1] / 16), Digit(bytes[1] % 16 * 4), PAD]
    else EncodeBlock(bytes[0], bytes[1], bytes[2]) + Encode(bytes[3..])
  }

  lemma DigitOfValue(byte: Byte)
    requires IsData(byte)
    ensures Digit(Base64Value(byte).value) == byte && byte != PAD
  {
  }

  // ----- The checker, block by block -----

  lemma {:induction false} PadsAfterBlock(quad: seq<Byte>, rest: seq<Byte>)
    requires |quad| == 4 && quad[3] != PAD
    ensures TrailingPads(quad + rest) == TrailingPads(rest)
    decreases |rest|
  {
    var s := quad + rest;
    if rest == [] {
      assert s == quad;
    } else {
      assert s[..|s| - 1] == quad + rest[..|rest| - 1];
      PadsAfterBlock(quad, rest[..|rest| - 1]);
    }
  }

  lemma SameBadCharacters(quad: seq<Byte>, rest: seq<Byte>, dataLen: nat)
    requires |quad| == 4 && dataLen <= |rest| && forall i :: 0 <= i < 4 ==> IsData(quad[i])
    ensures (exists i :: 0 <= i < dataLen + 4 && !IsData((quad + rest)[i]))
            <==> (exists i :: 0 <= i < dataLen && !IsData(rest[i]))
  {
    hide IsData;
    var s := quad + rest;
    if i :| 0 <= i < dataLen && !IsData(rest[i]) {
      assert s[i + 4] == rest[i];
    } else {
      forall i | 0 <= i < dataLen + 4 ensures IsData(s[i]) {
        assert s[i] == if i < 4 then quad[i] else rest[i - 4];
      }
    }
  }

  /** A leading block of alphabet characters adds three bytes and changes nothing else. */
  lemma LeadingBlock(quad: seq<Byte>, rest: seq<Byte>)
    requires |quad| == 4 && forall i :: 0 <= i < 4 ==> IsData(quad[i])
    ensures CanonicalDecodedLen(quad + rest)
            == match CanonicalDecodedLen(rest) case None => None case Some(n) => Some(n + 3)
  {
    hide Base64Value, Digit;
    var s := quad + rest;
    DigitOfValue(quad[3]);
    PadsAfterBlock(quad, rest);
    var padding := TrailingPads(rest);
    assert |s| == |rest| + 4;
    if |rest| % 4 == 0 && padding <= 2 {
      var dataLen := |rest| - padding;
      SameBadCharacters(quad, rest, dataLen);
      PadsAreLast(rest);
      PadsAreLast(s);
      if dataLen > 0 {
        assert s[dataLen + 3] == rest[dataLen - 1];
      }
    }
  }

  lemma {:induction false} PadsAreLast(input: seq<Byte>)
    ensures forall i :: |input| - TrailingPads(input) <= i < |input| ==> input[i] == PAD
  {
    if input != [] && input[|input| - 1] == PAD {
      PadsAreLast(input[..|input| - 1]);
    }
  }

  /** Every encoding is canonical, of the length that was encoded. */
  lemma {:induction false} EncodingIsCanonical(bytes: seq<Byte>)
    ensures CanonicalDecodedLen(Encode(bytes)) == Some(|bytes|)
  {
    hide Base64Value, Digit;
    if |bytes| >= 3 {
      EncodingIsCanonical(bytes[3..]);
      LeadingBlock(EncodeBlock(bytes[0], bytes[1], bytes[2]), Encode(bytes[3..]));
    } else if bytes != [] {
      LastBlock(Encode(bytes));
    }
  }

  /** Trailing pads of a single block. */
  lemma LastBlock(quad: seq<Byte>)
    requires |quad| == 4
    ensures quad[3] != PAD ==> TrailingPads(quad) == 0
    ensures quad[3] == PAD && quad[2] != PAD ==> TrailingPads(quad) == 1
    ensures quad[3] == PAD && quad[2] == PAD && quad[1] != PAD ==> TrailingPads(quad) == 2
    ensures quad[3] == PAD && quad[2] == PAD && quad[1] == PAD ==> TrailingPads(quad) > 2
  {
    var (three, two, one) := (quad[..3], quad[..2], quad[..1]);
    assert three[..2] == two && two[..1] == one;
    assert TrailingPads(quad) == if quad[3] == PAD then 1 + TrailingPads(three) else 0;
    assert TrailingPads(three) == if quad[2] == PAD then 1 + TrailingPads(two) else 0;
    assert TrailingPads(two) == if quad[1] == PAD then 1 + TrailingPads(one) else 0;
  }

  // ----- Decoding what the checker accepts -----

  function FirstByte(v0: Sextet, v1: Sextet): (b: Byte)
    ensures b / 4 == v0 && b % 4 == v1 / 16
  {
    v0 * 4 + v1 / 16
  }

  function SecondByte(v1: Sextet, v2: Sextet): (b: Byte)
    ensures b / 16 == v1 % 16 && b % 16 == v2 / 4
  {
    v1 % 16 * 16 + v2 / 4
  }

  function ThirdByte(v2: Sextet, v3: Sextet): (b: Byte)
    ensures b / 64 == v2 % 4 && b % 64 == v3
  {
    v2 % 4 * 64 + v3
  }

  lemma BlockRoundTrip(v0: Sextet, v1: Sextet, v2: Sextet, v3: Sextet)
    ensures EncodeBlock(FirstByte(v0, v1), SecondByte(v1, v2), ThirdByte(v2, v3))
            == [Digit(v0), Digit(v1), Digit(v2), Digit(v3)]
  {
    hide Digit, FirstByte, SecondByte, ThirdByte;
    assert v1 / 16 * 16 + v1 % 16 == v1;
    assert v2 / 4 * 4 + v2 % 4 == v2;
  }

  /** A canonical single block is the encoding of one, two or three bytes. */
  lemma LastBlockIsEncoding(quad: seq<Byte>) returns (bytes: seq<Byte>)
    requires |quad| == 4 && CanonicalDecodedLen(quad).Some?
    ensures Encode(bytes) == quad && CanonicalDecodedLen(quad) == Some(|bytes|)
  {
    hide Base64Value, Digit, FirstByte, SecondByte, ThirdByte;
    LastBlock(quad);
    var padding := TrailingPads(quad);
    assert forall i :: 0 <= i < 4 - padding ==> IsData(quad[i]);
    var (v0, v1) := (Base64Value(quad[0]).value, Base64Value(quad[1]).value);
    DigitOfValue(quad[0]);
    DigitOfValue(quad[1]);
    if padding == 2 {
      bytes := [FirstByte(v0, v1)];
    } else {
      var v2 := Base64Value(quad[2]).value;
      DigitOfValue(quad[2]);
      if padding == 1 {
        bytes := [FirstByte(v0, v1), SecondByte(v1, v2)];
      } else {
        var v3 := Base64Value(quad[3]).value;
        DigitOfValue(quad[3]);
        bytes := [FirstByte(v0, v1), SecondByte(v1, v2), ThirdByte(v2, v3)];
        BlockRoundTrip(v0, v1, v2, v3);
        assert Encode(bytes) == EncodeBlock(bytes[0], bytes[1], bytes[2]) + Encode(bytes[3..]);
      }
    }
  }

  /** A longer canonical text starts with four alphabet characters. */
  lemma FirstBlockIsData(input: seq<Byte>)
    requires |input| > 4 && CanonicalDecodedLen(input).Some?
    ensures forall i :: 0 <= i < 4 ==> IsData(input[i])
  {
    assert |input| >= 8;
  }

  lemma {:induction false} CanonicalIsEncoding(input: seq<Byte>) returns (bytes: seq<Byte>)
    requires CanonicalDecodedLen(input).Some?
    ensures Encode(bytes) == input && CanonicalDecodedLen(input) == Some(|bytes|)
    decreases |input|
  {
    hide CanonicalDecodedLen, Encode;
    LengthInBlocks(input);
    if input == [] {
      bytes := [];
      NothingEncoded();
    } else if |input| == 4 {
      bytes := LastBlockIsEncoding(input);
    } else {
      var (quad, rest) := (input[..4], input[4..]);
      FirstBlockIsData(input);
      assert input == quad + rest;
      LeadingBlock(quad, rest);
      var tail := CanonicalIsEncoding(rest);
      var head := BlockIsEncoding(quad);
      bytes := head + tail;
      EncodeMore(head, tail);
    }
  }

  lemma LengthInBlocks(input: seq<Byte>)
    requires CanonicalDecodedLen(input).Some?
    ensures |input| % 4 == 0
  {
  }

  lemma NothingEncoded()
    ensures Encode([]) == [] && CanonicalDecodedLen([]) == Some(0)
  {
  }

  /** Four alphabet characters are the encoding of three bytes. */
  lemma BlockIsEncoding(quad: seq<Byte>) returns (bytes: seq<Byte>)
    requires |quad| == 4 && forall i :: 0 <= i < 4 ==> IsData(quad[i])
    ensures |bytes| == 3 && Encode(bytes) == quad
  {
    hide CanonicalDecodedLen, Encode;
    NothingEncoded();
    LeadingBlock(quad, []);
    assert quad + [] == quad;
    bytes := LastBlockIsEncoding(quad);
  }

  lemma EncodeMore(head: seq<Byte>, tail: seq<Byte>)
    requires |head| == 3
    ensures Encode(head + tail) == Encode(head) + Encode(tail)
  {
    assert (head + tail)[3..] == tail && head[3..] == [];
  }

  /** Main result: the checker answers n exactly for the standard encodings of n bytes. */
  lemma CanonicalExactlyEncodings(input: seq<Byte>, n: nat)
    ensures CanonicalDecodedLen(input) == Some(n) <==> exists bytes :: |bytes| == n && Encode(bytes) == input
  {
    if CanonicalDecodedLen(input) == Some(n) {
      var bytes := CanonicalIsEncoding(input);
      assert |bytes| == n && Encode(bytes) == input;
    }
    if bytes :| |bytes| == n && Encode(bytes) == input {
      EncodingIsCanonical(bytes);
    }
  }
}
