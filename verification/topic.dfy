/** The topic encoder: a job identifier becomes the 32-byte topic word under
    which the oracle contract logs requests for that job. The Solidity ABI
    lays out a `bytes32` value left-aligned and zero-padded on the right; the
    tester reaches that layout through a pad, hex-encode, cut and decode
    pipeline, and the lemmas below show the pipeline and the layout agree. */
module Topic {
  import opened GoTypes
  import opened Hex

  /** Chainlink's `utils.EVMWordByteLen` and `utils.EVMWordHexLen`. */
  const EVMWordByteLen := 32
  const EVMWordHexLen := 64

  /** `common.RightPadBytes`: zeros are appended only when `b` is shorter than `l`. */
  function RightPadBytes(b: seq<byte>, l: nat): (r: seq<byte>)
    ensures |r| == if |b| < l then l else |b|
    ensures r[..|b|] == b
    ensures forall i | |b| <= i < |r| :: r[i] == 0
  {
    if l <= |b| then b else b + Zeros(l - |b|)
  }

  /** The ABI layout of a `bytes32` argument: the first 32 bytes of `s`,
      followed by zeros up to 32 bytes. */
  function LeftAligned32(s: GoString): (w: Hash)
  {
    if |s| <= 32 then s + Zeros(32 - |s|) else s[..32]
  }

  /** `StringToBytes32`, step by step as the tester writes it: pad to 32
      bytes, write as hex, cut to 64 digits, read back as a hash. The result
      is the ABI `bytes32` layout of the identifier. */
  function StringToBytes32(str: GoString): (w: Hash)
    ensures w == LeftAligned32(str)
  {
    var value := RightPadBytes(str, EVMWordByteLen);
    var hx := RemoveHexPrefix(EncodeWithPrefix(value));
    var cut := if |hx| > EVMWordHexLen then hx[..EVMWordHexLen] else hx;
    assert AddHexPrefix(cut) == HexPrefix + Encode(LeftAligned32(str)) by {
      assert hx == Encode(value) by {
        assert EncodeWithPrefix(value)[2..] == Encode(value);
      }
      HexCutIsByteCut(str);
      assert cut == Encode(LeftAligned32(str));
      assert !HasHexPrefix(cut) by {
        assert IsHexDigit(cut[1]);
      }
    }
    HexToHashOfEncoding(LeftAligned32(str));
    HexToHash(AddHexPrefix(cut))
  }

  /** Cutting the hex text of the padded bytes to 64 digits gives the hex
      text of the ABI word: truncating after encoding is the same as
      truncating the bytes first. */
  lemma HexCutIsByteCut(s: GoString)
    ensures |Encode(RightPadBytes(s, EVMWordByteLen))| >= EVMWordHexLen
    ensures Encode(RightPadBytes(s, EVMWordByteLen))[..EVMWordHexLen] == Encode(LeftAligned32(s))
  {
    var value := RightPadBytes(s, EVMWordByteLen);
    assert value[..32] == LeftAligned32(s);
    EncodePrefix(value, 32);
  }

  /** An identifier of at most 32 bytes is kept whole, followed by zeros. */
  lemma ShortIdentifierLayout(s: GoString)
    requires |s| <= 32
    ensures StringToBytes32(s)[..|s|] == s
    ensures forall i | |s| <= i < 32 :: StringToBytes32(s)[i] == 0
  {
  }

  /** The empty identifier gives the all-zero word. */
  lemma EmptyIdentifierIsZeroWord()
    ensures StringToBytes32([]) == Zeros(32)
  {
  }

  /** A longer identifier keeps its first 32 bytes only, so it encodes like
      its own 32-byte prefix. */
  lemma LongIdentifierTruncated(s: GoString)
    requires |s| > 32
    ensures StringToBytes32(s) == s[..32]
    ensures StringToBytes32(s) == StringToBytes32(s[..32])
  {
  }

  /** As hex text, the ABI word of a short identifier is the identifier's
      own hex digits followed by `0` digits. */
  lemma ShortWordHexText(s: GoString)
    requires |s| <= 32
    ensures Encode(LeftAligned32(s))[..2 * |s|] == Encode(s)
    ensures forall i | 2 * |s| <= i < EVMWordHexLen :: Encode(LeftAligned32(s))[i] == Zero
  {
    var z := Zeros(32 - |s|);
    assert LeftAligned32(s) == s + z;
    EncodeAppend(s, z);
    EncodeZeros(32 - |s|);
    var e := Encode(s) + Encode(z);
    assert e[..2 * |s|] == Encode(s);
    forall i | 2 * |s| <= i < EVMWordHexLen
      ensures e[i] == Zero
    {
      assert e[i] == Encode(z)[i - 2 * |s|];
    }
  }

  /** The hex text of the topic of a short identifier: 64 digits, the
      identifier's own digits first and `0` digits after them. */
  lemma ShortIdentifierHexText(s: GoString)
    requires |s| <= 32
    ensures |Encode(StringToBytes32(s))| == EVMWordHexLen
    ensures Encode(StringToBytes32(s))[..2 * |s|] == Encode(s)
    ensures forall i | 2 * |s| <= i < EVMWordHexLen :: Encode(StringToBytes32(s))[i] == Zero
  {
    ShortWordHexText(s);
  }

  /** Two identifiers of at most 32 bytes and of equal length share a topic
      exactly when they are equal. */
  lemma ShortIdentifiersInjective(s: GoString, t: GoString)
    requires |s| <= 32 && |s| == |t|
    ensures StringToBytes32(s) == StringToBytes32(t) <==> s == t
  {
    ShortIdentifierLayout(s);
    ShortIdentifierLayout(t);
  }
}
